# lockfile-lint command line: validator registry, lockfile loop, messages

This project models the command line entry point of lockfile-lint, the
auditor that checks the package resolutions recorded in npm and yarn
lockfiles against a set of policies (allowed hosts, HTTPS only, allowed
schemes, allowed URLs, package-name syntax, integrity hashes). The entry
point does three things that are modelled here:

- **Registry** (`registry.dfy`): it walks the configuration object in entry
  order and turns every supported option with a truthy value into a
  validator spec `{name, values, options}`. The six supported option keys
  map to six validator identifiers. `allowed-urls` is skipped whenever
  `allowed-hosts` is truthy. Every spec carries the same four shared
  options: `emptyHostname`, `allowedHosts`, `allowedUrls` and
  `allowedPackageNameAliases`.
- **Lockfile loop** (`cli.dfy`): for each lockfile path it appends that
  selection to one `validators` list and calls the validation engine. It
  announces the outcome through the message helpers and stops with exit
  code 1 at the first lockfile that reports failures or whose run throws.
  The list is declared once, before the loop, and never cleared. So the
  k-th lockfile is checked with k copies of the selection. The model keeps
  this as the code does it.
- **Messages** (`report.dfy`): the success, warning and error helpers each
  lay out five slots: colour, symbol, message, newline and reset. Colour,
  symbol and reset are empty unless the format is `pretty`. The helpers
  drop the empty slots and join the rest with single spaces. A run records
  which helper it called with which message; `Cli.Printed` turns those
  into the lines printed, each tagged with its console stream.

The configuration object is a sequence of key/value entries with distinct
keys (`values.dfy`), whose values are JavaScript values judged by
truthiness. The validation engine (lockfile parser and validators) is a
function parameter from request to outcome: it either returns the three
counts or throws an error object carrying a message. The list of lockfile
paths, and whether the terminal supports the Unicode symbols, are also
parameters.

Three behaviours of the code worth knowing, all kept by the model:
- Each lockfile is not checked independently: the validator list grows from
  one lockfile to the next.
- A lockfile with failures stops the run. The remaining paths are not
  processed.
- `allowed-urls` is skipped whenever `allowed-hosts` is truthy, whether or
  not `allowed-urls` is set. The outcome is the same as skipping it only
  when both are set.

## Model

| member | source | states |
|---|---|---|
| JsValues.Get | packages/lockfile-lint/bin/lockfile-lint.js:78-81 | reading a key yields the value of the entry with that key, and `undefined` when no entry has it |
| Registry.Identifier | packages/lockfile-lint/bin/lockfile-lint.js:43-50 | the identifier string the engine receives for each validator; `IdentifierInjective` states that no two validators share one |
| Registry.IdentifierInjective | packages/lockfile-lint/bin/lockfile-lint.js:43-50 | two validators have the same identifier exactly when they are the same validator, so a spec named by its validator carries the same information as the source's identifier string |
| Registry.KeyOf | packages/lockfile-lint/bin/lockfile-lint.js:43-50 | the option key of each of the six validators is in the supported-validators map, and the map sends it back to that validator |
| Registry.SupportedValidatorsInvertKeyOf | packages/lockfile-lint/bin/lockfile-lint.js:43-50 | the supported-validators map sends a key to a validator exactly when that key is the validator's option key, so each of the six validators has one key |
| Registry.SelectFrom | packages/lockfile-lint/bin/lockfile-lint.js:59-85 | a pass over entries yields no more specs than entries; every spec has the shared options, a truthy value, and comes from an entry holding its key and value; no URL spec is built while hosts are allowed |
| Registry.SelectSpecs | packages/lockfile-lint/bin/lockfile-lint.js:59-85 | the specs one walk over the configuration pushes; `SelectSpecsShape`, `SelectSpecsCount` and `SelectSpecsInEntryOrder` state their options, values, multiplicity and order |
| Registry.SelectSpecsShape | packages/lockfile-lint/bin/lockfile-lint.js:59-85 | every spec's options are the four configuration fields `empty-hostname`, `allowed-hosts`, `allowed-urls`, `allowed-package-name-aliases`; its values are the truthy configuration value of the key that enabled it; no URL spec when `allowed-hosts` is truthy |
| Registry.SelectSpecsCount | packages/lockfile-lint/bin/lockfile-lint.js:68-76 | each validator occurs exactly once in a pass if its key holds a truthy value (and, for the URL validator, `allowed-hosts` is falsy), and not at all otherwise |
| Registry.UrlsSkippedWhenHostsAllowed | packages/lockfile-lint/bin/lockfile-lint.js:68-70 | with `allowed-hosts` truthy no URL validator is built, whatever `allowed-urls` holds |
| Registry.UrlsSelectedOnce | packages/lockfile-lint/bin/lockfile-lint.js:68-76 | with `allowed-hosts` falsy and `allowed-urls` truthy, exactly one URL validator is built per pass, and its values are the `allowed-urls` value |
| Registry.AtMostFiveSpecs | packages/lockfile-lint/bin/lockfile-lint.js:43-76 | a pass builds at most five specs, since the host and URL validators exclude each other |
| Registry.SelectSpecsInEntryOrder | packages/lockfile-lint/bin/lockfile-lint.js:59-74 | the k-th spec is built from the k-th entry that enables one; those entries are in increasing position; an entry enables a spec exactly when it is supported, truthy and not the skipped `allowed-urls` |
| Registry.PushOne | packages/lockfile-lint/bin/lockfile-lint.js:68-84 | one turn of the inner loop, with its skip test, truthiness test and map lookup as the tool writes them, appends exactly what the reference selection gains from one more entry |
| Registry.PushFrom | packages/lockfile-lint/bin/lockfile-lint.js:59-85 | the imperative walk over entries appends exactly the reference selection to the list it is given |
| Registry.PushSpecs | packages/lockfile-lint/bin/lockfile-lint.js:59-85 | walking a configuration appends exactly the selection of one pass to the list it is given, leaving what was there in front |
| Report.DropEmpty | packages/lockfile-lint/bin/lockfile-lint.js:123 | filtering keeps no empty string and never lengthens the list |
| Report.DropEmptyAppend | packages/lockfile-lint/bin/lockfile-lint.js:123 | filtering a concatenation gives the survivors of the first list, in order, followed by those of the second; with `DropEmptyCons` this fixes the result as the non-empty parts in their order |
| Report.DropEmptyKeepsAll | packages/lockfile-lint/bin/lockfile-lint.js:123 | a list with no empty part comes through the filter unchanged |
| Report.DropEmptyCounts | packages/lockfile-lint/bin/lockfile-lint.js:123 | every non-empty string occurs in the filtered list exactly as often as in the original |
| Report.Colour | packages/lockfile-lint/bin/lockfile-lint.js:25-28 | the escape sequence of each level (green for success, yellow for warnings, red for errors), built from the constants `GREEN`, `YELLOW`, `RED`, with `RESET` closing a pretty line; `FormatPretty` and `FormatPrettyEmpty` state where they appear |
| Report.Symbol | packages/lockfile-lint/bin/lockfile-lint.js:11-23 | the symbol of each level from the default set (✔, ℹ, ✖) when the terminal supports it and from the fallback set (√, i, ×) otherwise, the warning using the info symbol; `FormatPretty` and `CleanRunOutput` state where it appears |
| Report.Slots | packages/lockfile-lint/bin/lockfile-lint.js:117-122 | the five slots of a helper; `KeptSlots` states which of them survive the filter in each format |
| Report.Join | packages/lockfile-lint/bin/lockfile-lint.js:125 | `join(' ')`; `JoinTidy` states that joining tidy parts never doubles a space, and `FormatPlain` and `FormatPretty` give its value on the helpers' parts |
| Report.Format | packages/lockfile-lint/bin/lockfile-lint.js:116-150 | the line a helper prints; `FormatPlain`, `FormatPlainEmpty`, `FormatPretty` and `FormatPrettyEmpty` give it exactly for every level, format and message |
| Report.KeptSlots | packages/lockfile-lint/bin/lockfile-lint.js:116-123 | after filtering, colour and symbol remain only in pretty format, the message only when non-empty, the newline always, the reset only in pretty format |
| Report.FormatPlain | packages/lockfile-lint/bin/lockfile-lint.js:116-150 | in plain format a non-empty message prints as the message followed by a space and a newline |
| Report.FormatPlainEmpty | packages/lockfile-lint/bin/lockfile-lint.js:116-150 | in plain format an empty message prints as a lone newline |
| Report.FormatPretty | packages/lockfile-lint/bin/lockfile-lint.js:116-150 | in pretty format the line is colour, symbol, message, newline and reset, separated by single spaces |
| Report.FormatPrettyEmpty | packages/lockfile-lint/bin/lockfile-lint.js:116-150 | in pretty format an empty message leaves colour, symbol, newline and reset separated by single spaces, with no doubled space where it was |
| Report.JoinTidy | packages/lockfile-lint/bin/lockfile-lint.js:125 | joining non-empty parts that neither start nor end with a space, and hold no double space, with one space gives a string of the same kind |
| Report.FormatNoDoubleSpace | packages/lockfile-lint/bin/lockfile-lint.js:116-150 | for any message that is empty or free of surrounding and doubled spaces, no helper prints two spaces in a row, in either format |
| Cli.Passes | packages/lockfile-lint/bin/lockfile-lint.js:87-112 | a lockfile passes when the engine returned and reported zero failures; `LintVerdict` ties the exit code to it |
| Cli.Announce | packages/lockfile-lint/bin/lockfile-lint.js:94-113 | after a call the helpers print a single "No issues detected" exactly when the lockfile passed; otherwise the last message is an error |
| Cli.Lint | packages/lockfile-lint/bin/lockfile-lint.js:42-114 | the loop over lockfiles from an empty `validators` list; `LintLoop`, `ValidatorsAccumulate`, `LintVerdict` and `LintNotices` state its calls, verdict and messages |
| Cli.LintFrom | packages/lockfile-lint/bin/lockfile-lint.js:54-114 | the loop calls the engine at most once per remaining lockfile and ends with exit code 0 or 1 |
| Cli.Program | packages/lockfile-lint/bin/lockfile-lint.js:30-38 | a configuration that fails to load ends the process with exit code 1 before any engine call or message |
| Cli.LintLoop | packages/lockfile-lint/bin/lockfile-lint.js:42-114 | the imperative loop with its single shared `validators` list and early exit makes the same calls, announces the same messages and exits with the same code as the recursive definition |
| Cli.ValidatorsAccumulate | packages/lockfile-lint/bin/lockfile-lint.js:42-93 | the k-th engine call (from zero) gets the k-th path, the configured lockfile type, and k + 1 copies of the selection, so a list (k + 1) times as long |
| Cli.LintVerdict | packages/lockfile-lint/bin/lockfile-lint.js:87-113 | every engine call but the last passed; the exit code is 0 exactly when every lockfile was checked and reported zero failures, and 1 exactly when the last call threw or reported failures |
| Cli.LintNotices | packages/lockfile-lint/bin/lockfile-lint.js:94-113 | a run exiting with 0 announced "No issues detected" once per lockfile and nothing else; a run exiting with 1 announced "No issues detected" once for every lockfile before the last one checked, then "Error: security issues detected!" after failures, or the abort warning and "Error: command failed with exit code 1" after a throw |
| Cli.IsPrettyFormat | packages/lockfile-lint/bin/lockfile-lint.js:40 | the format is pretty exactly when the configuration's `format` is the string `pretty`; `Printed` and `CleanRunOutput` choose the helper layout by it |
| Cli.Printed | packages/lockfile-lint/bin/lockfile-lint.js:116-150 | each announced message becomes one line, success on standard output and warnings and errors on standard error, laid out by the helper of its level in the configured format |
| Cli.CleanRunOutput | packages/lockfile-lint/bin/lockfile-lint.js:108-126 | in a run exiting with 0 the message helpers print one line per lockfile on standard output: "No issues detected" with a trailing space and newline in plain format, wrapped in green, the success symbol and the reset in pretty format |

## Left out

- Expanding the `path` glob into lockfile paths: file-system access. The
  expanded paths are a parameter.
- Loading the configuration from the command line and configuration files:
  `src/config` is not part of this model. Its result is a parameter that is
  either a configuration or a load failure.
- The validation engine `runValidators`: `src/main`, the lockfile parsers
  and the validators are not part of this model. It is any function from
  request to outcome.
- Choosing the symbol set from the platform and environment variables:
  whether the terminal supports the Unicode symbols is a parameter.
- The `scanning` banner printed when there are several lockfiles, and the
  `debug` logging: presentation only.
- Printing the thrown error's message and stack with `console.error`: its
  output follows Node's argument formatting, which is not modelled. The
  warning and error lines around it are modelled.
- `process.exit` is a returned exit code. Output is a list of lines tagged
  with their stream; the console's trailing newline is not part of a line.
- LintNotices: the engine is taken to throw an error object. If it threw
  `null` or `undefined`, the tool would print the abort warning, then fail
  reading `message` inside its `catch` and die from the uncaught exception
  (exit code 1) without printing "Error: command failed with exit code 1".
  That outcome is not modelled.
- JsValues.Get: configuration values are integers, strings, booleans,
  arrays, plain objects, `null` and `undefined`. Fractional numbers and
  `NaN` are not modelled.
- Registry.PushSpecs: the tool reads `allowed-hosts` only when it reaches
  the `allowed-urls` entry (the `&&` at line 68 short-circuits), and reads
  the four shared options each time it pushes a spec. The model reads all
  five once per walk. The configuration does not change during the walk,
  so the pushed specs are the same.
- ValidatorsAccumulate: the tool hands its live `validators` array to the
  engine and keeps pushing onto that same array afterwards. The model
  passes the engine a snapshot of the list, so "k + 1 copies of the
  selection" assumes the engine never modifies the array it receives.
- Key order: the configuration is taken in the order `Object.entries`
  yields. Integer-like keys come first there; that reordering is not
  modelled, and no option key is integer-like.
