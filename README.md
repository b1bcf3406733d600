# duckdns updater — Dafny model

This project models the logic of a small dynamic-DNS updater for DuckDNS. The updater
builds an update request from a token and an ordered list of subdomain names. It takes
them from the command line, then from the environment variables `DUCK_TOKEN` and
`DUCK_NAMES`, then from a YAML configuration file, in that priority order. It then
sends one HTTP GET per name to the provider's update endpoint and collects the names
whose update failed.

The I/O is passed in as parameters:

- the parsed command-line options are a `CLIOptions` value;
- the two environment variables are two strings, with "" standing for an unset variable;
- reading and parsing the configuration file is an `Option<Update>`, where `None` is a read or parse error;
- the network is a sequence of `Response` values, one per issued request, in issue order.

A response is `NetErr(msg)`, `ReadErr(msg)` or `Body(text)`.

Modules:

- `Wrappers` holds the option type.
- `Strings` models the parts of Go's `strings` package that the program calls. These are
  `Split` with a one-character separator, `Join` and `Contains`. `IndexOf` is the
  single-character search that `Split` is built on. Splitting and joining are proved to be inverses.
- `Config` holds the `Update` value and its validity predicate `Update.Valid`
  (main.go:32-37: a non-empty name list and a non-empty token). It also holds the three
  configuration sources as functions (`ConfigCLI`, `WithEnv`, `WithFile`) and the merge
  `Resolve`. `Resolve`'s contract states the priority order field by field.
  `PendingUpdate` is the update that the program changes in place through a pointer.
  Its methods `ApplyEnv` and `ApplyFile` are proved against `WithEnv` and `WithFile`.
  `ResolveConfig` is the merge sequence of `main`.
- `Dispatch` holds the update URL, the classification of a response as failed, and the
  failure messages of a run. The messages are defined as a fold over the names (`Failures`)
  and proved to follow the order of the names. `MakeUpdate` is the dispatcher loop,
  proved against `Failures`.
- `App.Run` is the program's entry point, down to its exit status.

## Model

| member | source | states |
|---|---|---|
| `Strings.Split` | main.go:96-98 | splitting gives at least one piece (an empty string gives one empty piece), no piece holds the separator, and joining the pieces with the separator gives back the input |
| `Strings.SplitOfJoin` | main.go:98 | splitting the join of non-empty, separator-free pieces gives back those pieces, so the pieces of a string are unique |
| `Strings.ContainsIffOccurs` | main.go:135 | the substring test holds exactly when the substring occurs at some position |
| `Config.ConfigCLI` | main.go:41-50 | the CLI update carries the CLI token and names unchanged and in order; it is valid exactly when both are non-empty |
| `Config.WithEnv` | main.go:86-103 | an empty token is replaced by DUCK_TOKEN, even an empty one, and a set token is kept; an empty name list with DUCK_NAMES set becomes exactly DUCK_NAMES split on spaces, a non-empty list that joins back to DUCK_NAMES; in every other case the names are unchanged |
| `Config.WithFile` | main.go:53-82 | a read or parse error leaves the update unchanged; a set token or name list is never overwritten; an empty field takes the file's value (an empty file value leaves it empty) |
| `Config.Resolve` | main.go:170-181 | a valid CLI update is the result; otherwise each field comes from the first of CLI, environment and file that has a non-empty value for it |
| `Config.FileIgnoredOnceValid` | main.go:178-181 | once CLI plus environment give a valid update, the result is the same whatever the file holds |
| `Config.CLIValidIgnoresRest` | main.go:173-181 | a valid CLI update gives the same result whatever the environment and the file hold |
| `Config.EnvNamesExample` | main.go:96-98 | DUCK_NAMES "a b c" gives the names a, b, c |
| `Config.PendingUpdate.constructor` | main.go:171 | the in-place update starts as the given value |
| `Config.PendingUpdate.ApplyEnv` | main.go:86-103 | the in-place environment overlay leaves the update equal to `WithEnv` of its old value |
| `Config.PendingUpdate.ApplyFile` | main.go:53-82 | the in-place file overlay, with its early return on error, leaves the update equal to `WithFile` of its old value |
| `Config.ResolveConfig` | main.go:170-181 | the merge sequence, which consults the environment and then the file only while the update is invalid, computes `Resolve` |
| `Dispatch.UrlRoundTrip` | main.go:112-118 | the name and the token can be read back from the update URL when the name holds no '&' |
| `Dispatch.UrlInjective` | main.go:112-118 | two such names give the same URL only with the same name and the same token |
| `Dispatch.FailureOf` | main.go:120-138 | a response produces a message exactly when it is a network error, a read error or a body containing "KO"; error responses give their error text, a rejected body gives the "Error updating <name> with DuckDNS" message |
| `Dispatch.RejectedMessageMentionsName` | main.go:136 | the message for a rejected update contains the subdomain name |
| `Dispatch.MarkerExamples` | main.go:135 | the body "OK" is a success and the body "KO" a failure |
| `Dispatch.Failures` | main.go:116-142 | a run records at most one message per name |
| `Dispatch.FailedIndices` | main.go:116-142 | the failed positions are strictly increasing and in range, and every failed position is among them |
| `Dispatch.FailuresFollowNames` | main.go:116-142 | there is one message per failed name, and the k-th message is the one for the k-th failed name |
| `Dispatch.NoFailuresIff` | main.go:144-148 | a run records no message exactly when no request failed |
| `Dispatch.TwoOfThreeExample` | main.go:116-142 | with names a, b, c answered "KO", "OK" and a network error, the messages are a's rejection and then the error text |
| `Dispatch.OneLinePerFailure` | main.go:144-145 | if no name and no error text holds a newline, the aggregate error splits on newlines back into the messages: one line per failed name |
| `Dispatch.MakeUpdate` | main.go:105-149 | an invalid update aborts before any request; otherwise one URL per name, in order, is requested, and the result is success exactly when no request failed, else the messages joined with newlines |
| `App.Run` | main.go:151-188 | the exit status is 0 exactly when the merged update is valid and no request failed, and 1 otherwise; no request is sent without a valid update; a valid merged update, from whichever sources completed it, is sent as one URL per name, in order; a valid CLI update is sent as given |

## Left out

- Flag registration and parsing with `pflag` (main.go:154-163) is not modelled. The parsed options are an input. So is the comma splitting that `pflag`'s string-slice flags do.
- Logging with `logrus` and the debug level (main.go:165-168) are not modelled. They have no effect on the result.
- `logrus.Fatal` and `os.Exit` are modelled as outcomes. An invalid update gives `Dispatch.Outcome.Aborted`, and `App.Run` returns exit status 1.
- `env.String` is not modelled. The two variables' values are parameters.
- `ioutil.ReadFile` and `yaml.Unmarshal` (main.go:57-66) are not modelled. Their combined result is an `Option<Update>`.
- The YAML library's own behaviour is not modelled. This covers key matching and what a partly valid document yields.
- `http.Get`, `ioutil.ReadAll` and `res.Body.Close` (main.go:120-133) are not modelled. The response of each request is an input. The body that stays unclosed after a read error is not modelled either.
- The text of Go's network error messages is treated as opaque.
- Strings are sequences of characters, not bytes. The separators and the marker are ASCII, so this does not change any result.
- The model does not distinguish Go's `nil` slice from an empty slice. The source only tests their length.
- `Dispatch.UrlRoundTrip`: names are not URL-escaped, in the source or in the model. A name holding '&' therefore gives a URL whose name cannot be read back, so the lemma requires that the name holds no '&'.
