/** The option type used for the results of steps that may fail. */
module Wrappers {
  datatype Option<+T> = None | Some(value: T)
}

/**
 * The operations of Go's `strings` package that the updater calls: `Split`,
 * `Join` and `Contains`, with the single-character search `IndexOf` that
 * `Split` is built on. Strings are
 * sequences of characters; the separators used by the updater are plain
 * ASCII, so working on characters instead of bytes changes nothing.
 */
module Strings {

  /** Position of the first `c` in `s`, or -1 when `s` has none; the search `Split` is built on. */
  function IndexOf(s: string, c: char): (r: int)
    ensures -1 <= r < |s|
    ensures r == -1 <==> c !in s
    ensures 0 <= r ==> s[r] == c && c !in s[..r]
    decreases |s|
  {
    if |s| == 0 then -1
    else if s[0] == c then 0
    else
      var k := IndexOf(s[1..], c);
      if k < 0 then -1 else k + 1
  }

  /** `strings.Join`: the parts with `sep` between each neighbouring pair. */
  function Join(parts: seq<string>, sep: string): string
    decreases |parts|
  {
    if |parts| == 0 then ""
    else if |parts| == 1 then parts[0]
    else parts[0] + sep + Join(parts[1..], sep)
  }

  /**
   * `strings.Split` with a one-character separator: the pieces of `s` between
   * occurrences of `sep`. There is always at least one piece (splitting ""
   * gives [""]), no piece holds the separator, and joining the pieces again
   * gives back `s`.
   */
  function Split(s: string, sep: char): (parts: seq<string>)
    ensures |parts| >= 1
    ensures forall i :: 0 <= i < |parts| ==> sep !in parts[i]
    ensures Join(parts, [sep]) == s
    decreases |s|
  {
    var i := IndexOf(s, sep);
    if i < 0 then [s]
    else
      var rest := Split(s[i + 1..], sep);
      JoinCons(s[..i], rest, [sep]);
      assert s == s[..i] + [sep] + s[i + 1..];
      [s[..i]] + rest
  }

  /** Joining a list with a head in front puts one separator after the head. */
  lemma JoinCons(head: string, rest: seq<string>, sep: string)
    requires |rest| >= 1
    ensures Join([head] + rest, sep) == head + sep + Join(rest, sep)
  {
    assert ([head] + rest)[1..] == rest;
  }

  /** In `a + [c] + b` the first `c` is the one after `a` when `a` holds none. */
  lemma IndexAfterPrefix(a: string, c: char, b: string)
    requires c !in a
    ensures IndexOf(a + [c] + b, c) == |a|
  {
    var s := a + [c] + b;
    assert s[|a|] == c;
  }

  /** A piece without the separator, then the separator, splits off as the first piece. */
  lemma SplitCons(head: string, sep: char, tail: string)
    requires sep !in head
    ensures Split(head + [sep] + tail, sep) == [head] + Split(tail, sep)
  {
    var s := head + [sep] + tail;
    IndexAfterPrefix(head, sep, tail);
    assert s[..|head|] == head;
    assert s[|head| + 1..] == tail;
  }

  /**
   * Splitting is the inverse of joining: a non-empty list of pieces that
   * hold no separator is recovered from its join. With `Split`'s own
   * postcondition this says the pieces of a string are uniquely determined.
   */
  lemma {:induction false} SplitOfJoin(parts: seq<string>, sep: char)
    requires |parts| >= 1
    requires forall i :: 0 <= i < |parts| ==> sep !in parts[i]
    ensures Split(Join(parts, [sep]), sep) == parts
    decreases |parts|
  {
    if |parts| == 1 {
      assert IndexOf(parts[0], sep) == -1;
    } else {
      var head, tail := parts[0], parts[1..];
      assert parts == [head] + tail;
      JoinCons(head, tail, [sep]);
      assert sep !in head;
      SplitCons(head, sep, Join(tail, [sep]));
      SplitOfJoin(tail, sep);
    }
  }

  /** `sub` occurs in `s` starting at position `i`. */
  predicate OccursAt(s: string, sub: string, i: nat)
  {
    i + |sub| <= |s| && s[i..i + |sub|] == sub
  }

  /** `strings.Contains`: whether `sub` is a substring of `s`, scanning from the left. */
  predicate Contains(s: string, sub: string)
    decreases |s|
  {
    if |sub| > |s| then false
    else s[..|sub|] == sub || (|s| > 0 && Contains(s[1..], sub))
  }

  /** The scan finds `sub` exactly when it occurs at some position of `s`. */
  lemma {:induction false} ContainsIffOccurs(s: string, sub: string)
    ensures Contains(s, sub) <==> exists i: nat :: OccursAt(s, sub, i)
    decreases |s|
  {
    if |sub| > |s| {
      forall i: nat ensures !OccursAt(s, sub, i) { }
    } else if s[..|sub|] == sub {
      assert OccursAt(s, sub, 0);
    } else {
      ContainsIffOccurs(s[1..], sub);
      if Contains(s[1..], sub) {
        var j: nat :| OccursAt(s[1..], sub, j);
        assert s[j + 1..j + 1 + |sub|] == s[1..][j..j + |sub|];
        assert OccursAt(s, sub, j + 1);
      } else {
        forall i: nat | OccursAt(s, sub, i) ensures false {
          assert i != 0;
          var j: nat := i - 1;
          assert s[1..][j..j + |sub|] == s[j + 1..j + 1 + |sub|];
          assert OccursAt(s[1..], sub, j);
        }
      }
    }
  }
}
