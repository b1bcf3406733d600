/**
 * The program's entry point: resolve the configuration, send the updates,
 * and exit with status 1 when the configuration is incomplete or any update
 * failed, 0 otherwise. Flag parsing, logging and the debug level are left
 * to the caller: the parsed options arrive as a `CLIOptions` value.
 */
module App {
  import opened Wrappers
  import opened Config
  import opened Dispatch

  /**
   * One run of the updater. `file` is the result of reading and parsing the
   * configuration file named by `cli.file`, and `resps` holds one response
   * per request the run issues.
   */
  method Run(cli: CLIOptions, envToken: string, envNames: string, file: Option<Update>, resps: seq<Response>)
    returns (requests: seq<string>, exitCode: int)
    requires Resolve(cli, envToken, envNames, file).Valid() ==>
               |resps| == |Resolve(cli, envToken, envNames, file).names|
    ensures exitCode == 0 || exitCode == 1
    ensures exitCode == 0 <==>
              Resolve(cli, envToken, envNames, file).Valid() &&
              forall i :: 0 <= i < |resps| ==> !Failed(resps[i])
    ensures !Resolve(cli, envToken, envNames, file).Valid() ==> requests == []
    ensures Resolve(cli, envToken, envNames, file).Valid() ==>
              |requests| == |Resolve(cli, envToken, envNames, file).names| &&
              forall i :: 0 <= i < |requests| ==>
                requests[i] == UpdateUrl(Resolve(cli, envToken, envNames, file).names[i],
                                         Resolve(cli, envToken, envNames, file).token)
    ensures ConfigCLI(cli).Valid() ==>
              |requests| == |cli.names| &&
              forall i :: 0 <= i < |requests| ==> requests[i] == UpdateUrl(cli.names[i], cli.token)
  {
    var update := ResolveConfig(cli, envToken, envNames, file);
    var outcome;
    requests, outcome := MakeUpdate(update, resps);
    exitCode := if outcome == Success then 0 else 1;
  }
}
