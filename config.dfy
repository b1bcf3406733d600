/**
 * Where the updater's token and subdomain names come from. Three sources are
 * consulted in priority order: the command line, then the environment
 * variables DUCK_TOKEN and DUCK_NAMES, then a YAML configuration file. A
 * lower-priority source is consulted only while the update is still invalid,
 * and it fills only the fields that are still empty.
 *
 * The environment is passed in as the two variables' values ("" when unset),
 * and reading plus parsing the configuration file as an `Option<Update>`:
 * `None` stands for a file that could not be read or parsed.
 */
module Config {
  import opened Wrappers
  import opened Strings

  /** Everything the DDNS provider needs to update a set of records. */
  datatype Update = Update(token: string, names: seq<string>)
  {
    /** An update can be sent once it has a token and at least one name. */
    predicate Valid()
    {
      |names| > 0 && token != ""
    }
  }

  /** The command-line options after flag parsing. */
  datatype CLIOptions = CLIOptions(debug: bool, file: string, token: string, names: seq<string>)

  /** The separator of the names in DUCK_NAMES. */
  const NameSeparator: char := ' '

  /** The update built from the command line: its token and names, as given and in order. */
  function ConfigCLI(c: CLIOptions): (u: Update)
    ensures u.token == c.token && u.names == c.names
    ensures u.Valid() <==> c.token != "" && c.names != []
  {
    Update(c.token, c.names)
  }

  /**
   * The update after consulting the environment. An empty token is replaced
   * by DUCK_TOKEN (which may itself be empty); an empty name list is
   * replaced by DUCK_NAMES split on single spaces when DUCK_NAMES is set.
   * Fields that are already set are kept.
   */
  function WithEnv(u: Update, envToken: string, envNames: string): (r: Update)
    ensures u.token != "" ==> r.token == u.token
    ensures u.token == "" ==> r.token == envToken
    ensures u.names == [] && envNames != "" ==>
              r.names == Split(envNames, NameSeparator) &&
              r.names != [] &&
              Join(r.names, [NameSeparator]) == envNames &&
              forall i :: 0 <= i < |r.names| ==> NameSeparator !in r.names[i]
    ensures !(u.names == [] && envNames != "") ==> r.names == u.names
  {
    Update(if u.token == "" then envToken else u.token,
           if |u.names| == 0 && envNames != "" then Split(envNames, NameSeparator) else u.names)
  }

  /**
   * The update after consulting the configuration file. A file that could
   * not be read or parsed changes nothing; otherwise its token and its
   * names are taken each only when non-empty and when the update's own
   * field is still empty.
   */
  function WithFile(u: Update, file: Option<Update>): (r: Update)
    ensures file.None? ==> r == u
    ensures u.token != "" ==> r.token == u.token
    ensures u.names != [] ==> r.names == u.names
    ensures file.Some? && u.token == "" ==> r.token == file.value.token
    ensures file.Some? && u.names == [] ==> r.names == file.value.names
  {
    match file
    case None => u
    case Some(f) =>
      Update(if f.token != "" && u.token == "" then f.token else u.token,
             if |f.names| != 0 && |u.names| == 0 then f.names else u.names)
  }

  /** The token of a file that could be read, "" otherwise. */
  function FileToken(file: Option<Update>): string
  {
    if file.Some? then file.value.token else ""
  }

  /** The names of a file that could be read, none otherwise. */
  function FileNames(file: Option<Update>): seq<string>
  {
    if file.Some? then file.value.names else []
  }

  /**
   * The merged update: the CLI values, overlaid with the environment while
   * invalid, then with the file while still invalid. Each field ends up
   * with the value of the first source, in priority order, that has a
   * non-empty value for it; a valid CLI update is used as it is.
   */
  function Resolve(c: CLIOptions, envToken: string, envNames: string, file: Option<Update>): (u: Update)
    ensures ConfigCLI(c).Valid() ==> u == ConfigCLI(c)
    ensures u.token ==
              if c.token != "" then c.token
              else if envToken != "" then envToken
              else FileToken(file)
    ensures u.names ==
              if c.names != [] then c.names
              else if envNames != "" then Split(envNames, NameSeparator)
              else FileNames(file)
  {
    var fromCli := ConfigCLI(c);
    var fromEnv := if fromCli.Valid() then fromCli else WithEnv(fromCli, envToken, envNames);
    if fromEnv.Valid() then fromEnv else WithFile(fromEnv, file)
  }

  /** The file is not consulted once the command line and the environment give a valid update. */
  lemma FileIgnoredOnceValid(c: CLIOptions, envToken: string, envNames: string, file1: Option<Update>, file2: Option<Update>)
    requires ConfigCLI(c).Valid() || WithEnv(ConfigCLI(c), envToken, envNames).Valid()
    ensures Resolve(c, envToken, envNames, file1) == Resolve(c, envToken, envNames, file2)
  {
  }

  /** Neither the environment nor the file is consulted when the command line gives a valid update. */
  lemma CLIValidIgnoresRest(c: CLIOptions, envToken1: string, envNames1: string, file1: Option<Update>,
                            envToken2: string, envNames2: string, file2: Option<Update>)
    requires ConfigCLI(c).Valid()
    ensures Resolve(c, envToken1, envNames1, file1) == Resolve(c, envToken2, envNames2, file2) == ConfigCLI(c)
  {
  }

  /** DUCK_NAMES="a b c" gives the three names a, b and c. */
  lemma EnvNamesExample()
    ensures Split("a b c", NameSeparator) == ["a", "b", "c"]
  {
    var parts := ["a", "b", "c"];
    assert Join(parts, [NameSeparator]) == "a b c";
    SplitOfJoin(parts, NameSeparator);
  }

  /**
   * The update under construction, which the merge changes in place: the
   * environment and the file each overwrite fields of it.
   */
  class PendingUpdate {
    var token: string
    var names: seq<string>

    /** The current value of the update. */
    function Value(): Update
      reads this
    {
      Update(token, names)
    }

    constructor (u: Update)
      ensures Value() == u
    {
      token := u.token;
      names := u.names;
    }

    /** Fills empty fields from the environment variables' values. */
    method ApplyEnv(envToken: string, envNames: string)
      modifies this
      ensures Value() == WithEnv(old(Value()), envToken, envNames)
    {
      if token == "" {
        token := envToken;
      }
      if |names| == 0 && envNames != "" {
        names := Split(envNames, NameSeparator);
      }
    }

    /** Fills empty fields from the configuration file, if it could be read and parsed. */
    method ApplyFile(file: Option<Update>)
      modifies this
      ensures Value() == WithFile(old(Value()), file)
    {
      if file.None? {
        return;
      }
      var f := file.value;
      if f.token != "" && token == "" {
        token := f.token;
      }
      if |f.names| != 0 && |names| == 0 {
        names := f.names;
      }
    }
  }

  /**
   * The merge sequence of the program's entry point: start from the command
   * line, then consult the environment while the update is invalid, then
   * the file while it is still invalid.
   */
  method ResolveConfig(c: CLIOptions, envToken: string, envNames: string, file: Option<Update>) returns (u: Update)
    ensures u == Resolve(c, envToken, envNames, file)
    ensures ConfigCLI(c).Valid() ==> u == ConfigCLI(c)
  {
    var update := new PendingUpdate(ConfigCLI(c));
    if !update.Value().Valid() {
      update.ApplyEnv(envToken, envNames);
    }
    if !update.Value().Valid() {
      update.ApplyFile(file);
    }
    u := update.Value();
  }
}
