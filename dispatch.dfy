/**
 * The update dispatcher: one HTTP GET per subdomain name, in order, against
 * the provider's update endpoint; failures are collected and reported
 * together at the end.
 *
 * The network is not modelled: the caller passes the outcome of each
 * request, in the order the requests are issued, and the dispatcher returns
 * the URLs it requested beside its verdict.
 */
module Dispatch {
  import opened Wrappers
  import opened Strings
  import opened Config

  /** What came back for one request. */
  datatype Response =
    | NetErr(msg: string)   // the GET itself failed; `msg` is the error's text
    | ReadErr(msg: string)  // the response body could not be read
    | Body(text: string)    // the full response body

  /** The dispatcher's verdict. */
  datatype Outcome =
    | Aborted                  // the update was invalid: the program stops before any request
    | Success                  // every name was updated
    | Failure(message: string) // the failure messages, one per failed name, joined with newlines

  const UpdateEndpoint: string := "https://www.duckdns.org/update?domains="
  const TokenParam: string := "&token="
  const IpParam: string := "&ip="

  /** A response body containing this marker reports a failed update. */
  const FailureMarker: string := "KO"

  /** The update URL for one name; the empty `ip` parameter lets the provider use the caller's address. */
  function UpdateUrl(name: string, token: string): string
  {
    UpdateEndpoint + name + TokenParam + token + IpParam
  }

  /**
   * Reads the name and the token back out of an update URL: the name runs
   * from the endpoint to the first '&', the token from the token parameter
   * to the trailing ip parameter.
   */
  function ParseUpdateUrl(url: string): Option<(string, string)>
  {
    var lo, hi := |UpdateEndpoint|, |url| - |IpParam|;
    if lo <= hi && url[..lo] == UpdateEndpoint && url[hi..] == IpParam then
      var query := url[lo..hi];
      var amp := IndexOf(query, '&');
      if 0 <= amp && amp + |TokenParam| <= |query| && query[amp..amp + |TokenParam|] == TokenParam then
        Some((query[..amp], query[amp + |TokenParam|..]))
      else None
    else None
  }

  /**
   * The URL carries exactly the name and the token it was built from, as
   * long as the name holds no '&' (names are not escaped; the token may
   * hold anything).
   */
  lemma UrlRoundTrip(name: string, token: string)
    requires '&' !in name
    ensures ParseUpdateUrl(UpdateUrl(name, token)) == Some((name, token))
  {
    var url := UpdateUrl(name, token);
    var lo, hi := |UpdateEndpoint|, |url| - |IpParam|;
    assert url[..lo] == UpdateEndpoint;
    assert url[hi..] == IpParam;
    var query := url[lo..hi];
    assert query == name + TokenParam + token;
    assert query == name + ['&'] + (TokenParam[1..] + token);
    IndexAfterPrefix(name, '&', TokenParam[1..] + token);
    assert query[|name|..|name| + |TokenParam|] == TokenParam;
    assert query[..|name|] == name;
    assert query[|name| + |TokenParam|..] == token;
  }

  /** Two names without '&' produce the same URL only with the same token. */
  lemma UrlInjective(name1: string, token1: string, name2: string, token2: string)
    requires '&' !in name1 && '&' !in name2
    requires UpdateUrl(name1, token1) == UpdateUrl(name2, token2)
    ensures name1 == name2 && token1 == token2
  {
    UrlRoundTrip(name1, token1);
    UrlRoundTrip(name2, token2);
  }

  /** A request failed when it could not be made, its body could not be read, or the body holds the marker. */
  predicate Failed(resp: Response)
  {
    resp.NetErr? || resp.ReadErr? || Contains(resp.text, FailureMarker)
  }

  /** The message recorded when the provider reports a failed update of `name`. */
  function RejectedMessage(name: string): string
  {
    "Error updating " + name + " with DuckDNS"
  }

  /** The message recorded for one name's response, if it failed. */
  function FailureOf(name: string, resp: Response): (r: Option<string>)
    ensures r.Some? <==> Failed(resp)
    ensures resp.NetErr? || resp.ReadErr? ==> r == Some(resp.msg)
    ensures resp.Body? && Failed(resp) ==> r == Some(RejectedMessage(name))
  {
    match resp
    case NetErr(m) => Some(m)
    case ReadErr(m) => Some(m)
    case Body(text) => if Contains(text, FailureMarker) then Some(RejectedMessage(name)) else None
  }

  /** The message for a rejected update names the subdomain. */
  lemma RejectedMessageMentionsName(name: string)
    ensures Contains(RejectedMessage(name), name)
  {
    var m := RejectedMessage(name);
    var at := |"Error updating "|;
    assert m[at..at + |name|] == name;
    assert OccursAt(m, name, at);
    ContainsIffOccurs(m, name);
  }

  /** The body "OK" is a success and the body "KO" a failure. */
  lemma MarkerExamples()
    ensures !Failed(Body("OK")) && Failed(Body("KO"))
  {
    assert "OK"[..2][0] != FailureMarker[0];
    assert "KO"[..2] == FailureMarker;
  }

  /** The failure messages of a run, in the order of the names. */
  function Failures(names: seq<string>, resps: seq<Response>): (errs: seq<string>)
    requires |names| == |resps|
    ensures |errs| <= |names|
    decreases |names|
  {
    if |names| == 0 then []
    else
      var n := |names| - 1;
      var earlier := Failures(names[..n], resps[..n]);
      match FailureOf(names[n], resps[n])
      case None => earlier
      case Some(m) => earlier + [m]
  }

  /** The positions of the names whose request failed, in increasing order. */
  function FailedIndices(resps: seq<Response>): (idx: seq<nat>)
    ensures forall k :: 0 <= k < |idx| ==> idx[k] < |resps| && Failed(resps[idx[k]])
    ensures forall k, l :: 0 <= k < l < |idx| ==> idx[k] < idx[l]
    ensures forall i :: 0 <= i < |resps| && Failed(resps[i]) ==> i in idx
    decreases |resps|
  {
    if |resps| == 0 then []
    else
      var n := |resps| - 1;
      var earlier := FailedIndices(resps[..n]);
      if Failed(resps[n]) then earlier + [n] else earlier
  }

  /**
   * The k-th message in `errs` is the one recorded for the name at position
   * `idx[k]`, and there is no other message.
   */
  predicate MessagesMatch(names: seq<string>, resps: seq<Response>, errs: seq<string>, idx: seq<nat>)
    requires |names| == |resps|
  {
    |errs| == |idx| &&
    forall k :: 0 <= k < |idx| ==> idx[k] < |names| && Some(errs[k]) == FailureOf(names[idx[k]], resps[idx[k]])
  }

  /**
   * There is one message per failed name, and the k-th message is the one
   * for the k-th failed name: the messages follow the order of the names.
   */
  lemma {:induction false} FailuresFollowNames(names: seq<string>, resps: seq<Response>)
    requires |names| == |resps|
    ensures MessagesMatch(names, resps, Failures(names, resps), FailedIndices(resps))
    decreases |names|
  {
    if |names| > 0 {
      var n := |names| - 1;
      var names', resps' := names[..n], resps[..n];
      FailuresFollowNames(names', resps');
      var earlier, idx' := Failures(names', resps'), FailedIndices(resps');
      var errs, idx := Failures(names, resps), FailedIndices(resps);
      if Failed(resps[n]) {
        assert idx == idx' + [n];
        assert errs == earlier + [FailureOf(names[n], resps[n]).value];
      } else {
        assert idx == idx';
        assert errs == earlier;
      }
      forall k | 0 <= k < |idx|
        ensures idx[k] < |names| && Some(errs[k]) == FailureOf(names[idx[k]], resps[idx[k]])
      {
        if k < |idx'| {
          assert idx[k] == idx'[k] && errs[k] == earlier[k];
          assert names'[idx'[k]] == names[idx'[k]] && resps'[idx'[k]] == resps[idx'[k]];
        }
      }
    }
  }

  /** A run reports no failure exactly when no request failed. */
  lemma NoFailuresIff(names: seq<string>, resps: seq<Response>)
    requires |names| == |resps|
    ensures Failures(names, resps) == [] <==> forall i :: 0 <= i < |resps| ==> !Failed(resps[i])
  {
    FailuresFollowNames(names, resps);
    var idx := FailedIndices(resps);
    if Failures(names, resps) == [] {
      assert forall i :: 0 <= i < |resps| ==> !Failed(resps[i]);
    } else {
      assert Failed(resps[idx[0]]);
    }
  }

  /** Of the names a, b and c, a is rejected, b updated and c unreachable: two messages, in order. */
  lemma TwoOfThreeExample()
    ensures Failures(["a", "b", "c"], [Body("KO"), Body("OK"), NetErr("timeout")]) ==
              [RejectedMessage("a"), "timeout"]
  {
    MarkerExamples();
    var names, resps := ["a", "b", "c"], [Body("KO"), Body("OK"), NetErr("timeout")];
    assert names[..2] == ["a", "b"] && resps[..2] == [Body("KO"), Body("OK")];
    assert names[..2][..1] == ["a"] && resps[..2][..1] == [Body("KO")];
  }

  /** A message with no newline of its own. */
  predicate SingleLine(m: string)
  {
    '\n' !in m
  }

  /** The message for a rejected update is one line when the name is. */
  lemma RejectedMessageSingleLine(name: string)
    requires SingleLine(name)
    ensures SingleLine(RejectedMessage(name))
  {
    assert SingleLine("Error updating ") && SingleLine(" with DuckDNS");
  }

  /** Every recorded message is one line when the names and the error texts are. */
  lemma FailuresSingleLine(names: seq<string>, resps: seq<Response>)
    requires |names| == |resps|
    requires forall i :: 0 <= i < |names| ==> SingleLine(names[i])
    requires forall i :: 0 <= i < |resps| ==> (resps[i].NetErr? || resps[i].ReadErr?) ==> SingleLine(resps[i].msg)
    ensures forall k :: 0 <= k < |Failures(names, resps)| ==> SingleLine(Failures(names, resps)[k])
  {
    var errs, idx := Failures(names, resps), FailedIndices(resps);
    FailuresFollowNames(names, resps);
    forall k | 0 <= k < |errs| ensures SingleLine(errs[k]) {
      var i := idx[k];
      assert Some(errs[k]) == FailureOf(names[i], resps[i]);
      if resps[i].Body? {
        RejectedMessageSingleLine(names[i]);
      }
    }
  }

  /**
   * The aggregate error has one line per failed name when neither the
   * names nor the network's error texts hold a newline: splitting it on
   * newlines gives back the messages, in order.
   */
  lemma OneLinePerFailure(names: seq<string>, resps: seq<Response>)
    requires |names| == |resps|
    requires forall i :: 0 <= i < |names| ==> SingleLine(names[i])
    requires forall i :: 0 <= i < |resps| ==> (resps[i].NetErr? || resps[i].ReadErr?) ==> SingleLine(resps[i].msg)
    requires Failures(names, resps) != []
    ensures Split(Join(Failures(names, resps), "\n"), '\n') == Failures(names, resps)
    ensures |Split(Join(Failures(names, resps), "\n"), '\n')| == |FailedIndices(resps)|
  {
    var errs := Failures(names, resps);
    FailuresSingleLine(names, resps);
    FailuresFollowNames(names, resps);
    SplitOfJoin(errs, '\n');
  }

  /**
   * Sends one update request per name, in order, and collects the failures.
   * An invalid update aborts before any request; otherwise the outcome is
   * success exactly when no request failed, and else carries the failure
   * messages joined with newlines.
   */
  method MakeUpdate(update: Update, resps: seq<Response>) returns (requests: seq<string>, outcome: Outcome)
    requires update.Valid() ==> |resps| == |update.names|
    ensures !update.Valid() ==> requests == [] && outcome == Aborted
    ensures update.Valid() ==>
              |requests| == |update.names| &&
              forall i :: 0 <= i < |requests| ==> requests[i] == UpdateUrl(update.names[i], update.token)
    ensures update.Valid() ==>
              outcome == (var errs := Failures(update.names, resps);
                          if errs == [] then Success else Failure(Join(errs, "\n")))
    ensures outcome == Success <==> update.Valid() && forall i :: 0 <= i < |resps| ==> !Failed(resps[i])
  {
    if !update.Valid() {
      return [], Aborted;
    }
    var errs: seq<string> := [];
    requests := [];
    var i := 0;
    while i < |update.names|
      invariant 0 <= i <= |update.names|
      invariant |requests| == i
      invariant forall k :: 0 <= k < i ==> requests[k] == UpdateUrl(update.names[k], update.token)
      invariant errs == Failures(update.names[..i], resps[..i])
    {
      var name := update.names[i];
      requests := requests + [UpdateUrl(name, update.token)];
      match resps[i] {
        case NetErr(m) =>
          errs := errs + [m];
        case ReadErr(m) =>
          errs := errs + [m];
        case Body(text) =>
          if Contains(text, FailureMarker) {
            errs := errs + [RejectedMessage(name)];
          }
      }
      assert update.names[..i + 1][..i] == update.names[..i];
      assert resps[..i + 1][..i] == resps[..i];
      i := i + 1;
    }
    assert update.names[..i] == update.names;
    assert resps[..i] == resps;
    NoFailuresIff(update.names, resps);
    if errs == [] {
      outcome := Success;
    } else {
      outcome := Failure(Join(errs, "\n"));
    }
  }
}
