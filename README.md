# fio workload plugin, modelled in Dafny

The arcaflow fio plugin runs the `fio` benchmark for a list of jobs. It
writes the jobs to an INI job file, one section per job, and starts
`fio <job file> --output-format=json+`. It then splits the captured output
into the informational lines fio prints first and the JSON report that
follows them, and returns either `("success", report)` or
`("error", message)`. When the input asks for cleanup, it removes the job
file and the `<job name>.0.0` files fio leaves behind.

The project models that path, one file per part:

- `python.dfy`: the Python built-ins the code relies on. These are
  `str.splitlines` (every Python line break, with `\r\n` counted as one),
  `"\n".join`, and `str(int)`. `Option`, `Result` and the exceptions that
  can escape the step are here too.
- `schema.dfy` (module `FioSchema`): the enumerations with their literal
  string forms and `IoEngine.is_sync`. It also holds the job parameters in
  declaration order (`asdict`) and the validation constraints as
  predicates.
- `config.dfy` (module `JobConfig`): `write_jobs_to_file`. A
  `configparser.ConfigParser` is modelled as an ordered list of sections,
  each an ordered list of entries. Assigning `cfg[name] = {}` to an
  existing name clears that section where it stands. The outer loop is the
  method `BuildConfig` and the inner loop over one job's parameters is
  `AddJobSection`; both are proved against the function `Configure`. The
  properties of `Configure` are the lemmas `ConfigureSections`,
  `SectionsInFirstOccurrenceOrder`, `ConfigureDistinctNames` and
  `LastJobOfNameWins`. The written text is `ConfigText`.
- `split.dfy` (module `OutputSplit`): `split_json_and_errors`. The method
  `SplitJsonAndErrors` keeps the source's loop over
  `range(len(fio_output))`, proved against `SplitAsWritten` and `Scan`.
  `json.loads` is a parameter `loads` that gives `None` where it raises.
  Every member that concludes what the function as written returns or
  raises requires it to refuse `""`, as `json.loads` does: at
  `i == len(lines)` the loop tries the empty suffix before it indexes past
  the last line. `FirstParsing` and `Scan` need no such requirement, since
  they only try start indices below the number of lines.
- `plugin.dfy` (module `FioPlugin`): `run`. The outcome of starting fio is
  the datatype `ProcessOutcome`, classified by `Classify`. The working
  directory is the class `WorkDir`, whose field `files` maps paths to
  contents. `WorkDir.Run` writes the job file, starts fio through a
  parameter `exec`, classifies the outcome and runs the `finally` cleanup.

Three behaviours of the code are easy to overlook:

- Diagnostic lines come back terminated with `"\n"` whatever terminator
  they had. Within `run`, `check_output(..., text=True)` already reads the
  pipe with universal newlines, so "\r" and "\r\n" arrive as "\n". What
  still reaches the splitter there are the other breaks `splitlines`
  knows (\v, \f, \x1c-\x1e, \x85, \u2028, \u2029); the splitter on its
  own normalises "\r" and "\r\n" as well.
- `direct` and `buffered` are integers limited to 0 and 1, not booleans.
- A zero exit whose output holds no JSON document raises from the splitter
  instead of returning an error. As written, a non-zero exit without JSON
  raises as well (see "Findings"); with the correction the model uses, it
  is reported as an error.

## Model

| member | source | states |
|---|---|---|
| `Python.SplitLines` | arcaflow_plugin_fio/fio_plugin.py:24-25 | no line contains a line break, and there are never more lines than characters, so the bound `len(fio_output)` reaches every line index |
| `Python.SplitTerminated` | arcaflow_plugin_fio/fio_plugin.py:24 | splitting text written as lines each followed by "\n" gives back exactly those lines |
| `Python.SplitJoined` | arcaflow_plugin_fio/fio_plugin.py:24-26 | splitting `"\n".join(lines)` gives back `lines` when the last line is not empty |
| `Python.NatToString` | arcaflow_plugin_fio/fio_schema.py:226 | `str` of a non-negative integer is decimal digits, with a leading `0` only for zero |
| `Python.IntToStringRoundTrip` | arcaflow_plugin_fio/fio_plugin.py:85 | `str(i)` of any integer, negative exit statuses included, reads back as `i` |
| `OutputSplit.FirstParsing` | arcaflow_plugin_fio/fio_plugin.py:25-32 | the start index found parses, and no earlier start index parses; when none is found, no start index parses |
| `OutputSplit.Scan` | arcaflow_plugin_fio/fio_plugin.py:20-34 | a report is found exactly when some suffix of lines parses; otherwise every line, re-terminated, is diagnostic text |
| `OutputSplit.ScanFindsFirstDocument` | arcaflow_plugin_fio/fio_plugin.py:25-31 | with k leading lines that start no document, the result is the document from line k and those k lines each followed by "\n" |
| `OutputSplit.WholeTextHasNoDiagnostics` | arcaflow_plugin_fio/fio_plugin.py:23-29 | when the whole text parses, the diagnostics are empty, so nothing is printed on the success path |
| `OutputSplit.SplitJsonAndErrors` | arcaflow_plugin_fio/fio_plugin.py:20-34 | the loop returns the first parsing suffix's document with the skipped lines; without one it raises IndexError, or UnboundLocalError when the text has no more characters than lines |
| `OutputSplit.NoDocumentRaises` | arcaflow_plugin_fio/fio_plugin.py:24-34 | with no parsing suffix the function raises instead of returning; for empty text it is UnboundLocalError |
| `Python.SplitEnded` | arcaflow_plugin_fio/fio_plugin.py:24 | text whose lines end in any mix of terminators (any single line-break character, or "\r\n") splits back into exactly those lines, unless a "\r" is followed by an empty line ended by "\n", which reads as one "\r\n" |
| `OutputSplit.SplitAsWritten` | arcaflow_plugin_fio/fio_plugin.py:20-34 | it returns exactly when some suffix of lines parses, and then gives the first such suffix's document with the lines before it, each followed by "\n"; otherwise it raises IndexError or UnboundLocalError |
| `OutputSplit.DiagnosticsTerminatorsNormalised` | arcaflow_plugin_fio/fio_plugin.py:24-31 | for any output whose lines end in any mix of terminators (any single line-break character, or "\r\n"), the lines before the first document come back each followed by "\n" |
| `FioSchema.IoEngine.IsSync` | arcaflow_plugin_fio/fio_schema.py:44-56 | true exactly for sync and psync, false exactly for the asynchronous engines libaio and windowsaio |
| `FioSchema.EnumLiteralsRoundTrip` | arcaflow_plugin_fio/fio_schema.py:13-53 | each enumeration member's string form is its declared literal, which determines the member |
| `FioSchema.NewInput` | arcaflow_plugin_fio/fio_schema.py:212-218 | an input built without `cleanup` does not clean up |
| `FioSchema.AsDict` | arcaflow_plugin_fio/fio_schema.py:60-186 | one item per JobParams field, in declaration order |
| `FioSchema.StrReadsBack` | arcaflow_plugin_fio/fio_schema.py:226 | the function `Str`, Python's `str(value)`: `str` leaves a string unchanged, and writes an integer or an enumeration member in a form that reads back as that value |
| `FioSchema.ValidParams` | arcaflow_plugin_fio/fio_schema.py:60-186 | parameters all left at None are valid; in valid parameters `direct` and `buffered` are written as "0" or "1" |
| `FioSchema.ValidJob` | arcaflow_plugin_fio/fio_schema.py:189-201 | a job whose parameters are all None is valid exactly when its name is not empty |
| `JobConfig.PutSection` | arcaflow_plugin_fio/fio_schema.py:223 | afterwards the section named `name` holds exactly the given entries. It keeps its place if it existed and is appended otherwise. Every other section is unchanged |
| `JobConfig.SetEntry` | arcaflow_plugin_fio/fio_schema.py:226 | afterwards `key` maps to `value`. An existing key keeps its place, a new one is appended, and every other entry is unchanged |
| `JobConfig.SetOption` | arcaflow_plugin_fio/fio_schema.py:226 | only the named section changes, and in it `key` now maps to `value`; no section is added or renamed; the section's entries become exactly `SetEntry` of its old entries, so every other option keeps its value and place |
| `JobConfig.ConfigureSections` | arcaflow_plugin_fio/fio_schema.py:220-226 | the function `Configure`, the configuration the loops build: section names are distinct and every one is a job's name, every job's name has a section, and there are no more sections than jobs |
| `JobConfig.AddJobSection` | arcaflow_plugin_fio/fio_schema.py:223-226 | one pass of the outer loop leaves the job's section holding exactly the job's entries, wherever the section stands |
| `JobConfig.BuildConfig` | arcaflow_plugin_fio/fio_schema.py:220-226 | the nested loops of section creation and option setting produce `Configure(jobs)` |
| `JobConfig.ConfigureDistinctNames` | arcaflow_plugin_fio/fio_schema.py:222-223 | with distinct names, one section per job in job-list order, named by the job, holding that job's entries |
| `JobConfig.LastJobOfNameWins` | arcaflow_plugin_fio/fio_schema.py:222-226 | in any job list, the section of a name holds the entries of the last job with that name |
| `JobConfig.SectionsInFirstOccurrenceOrder` | arcaflow_plugin_fio/fio_schema.py:222-223 | sections come in the order in which their names first occur in the job list |
| `JobConfig.LaterJobWins` | arcaflow_plugin_fio/fio_schema.py:223 | two jobs with one name share a section, at the first job's place, holding only the second job's entries |
| `JobConfig.EntriesAreOrderedFilter` | arcaflow_plugin_fio/fio_schema.py:224-226 | the entries are exactly the non-None items, in field order, each value passed through `str` |
| `JobConfig.KeyPresentIffSet` | arcaflow_plugin_fio/fio_schema.py:224-226 | a parameter's key is in the section iff the parameter is not None, and its entry is then `str` of the value |
| `JobConfig.AllNoneNoEntries` | arcaflow_plugin_fio/fio_schema.py:225 | items that are all None give no entries |
| `JobConfig.DefaultJobEmptySection` | arcaflow_plugin_fio/fio_schema.py:222-226 | a job whose parameters are all None gets a section with only its header |
| `JobConfig.EntryLine` | arcaflow_plugin_fio/fio_schema.py:228-231 | an entry with a single-line value is written as `key=value`, with no spaces around `=` and no line break |
| `JobConfig.ConfigTextReadsBack` | arcaflow_plugin_fio/fio_schema.py:227-231 | the written lines, each followed by "\n", read back as exactly those lines when no name, key or value spans lines |
| `JobConfig.ConfigText` | arcaflow_plugin_fio/fio_schema.py:227-231 | when no name, key or value spans lines, the written file reads back line by line as, per section in order, `[name]`, one line per entry, and a blank line |
| `JobConfig.ConfigureAsWritten` | arcaflow_plugin_fio/fio_schema.py:220-231 | with the default interpolation it either succeeds with `Configure(jobs)` or raises ValueError; it succeeds whenever no value contains `%`, and it fails whenever some value ends in a lone `%` |
| `JobConfig.LonePercentRejected` | arcaflow_plugin_fio/fio_schema.py:226 | every value ending in a `%` that is not half of `%%` fails the check `before_set` makes when the option is set |
| `JobConfig.PercentageSizeAlwaysRejected` | arcaflow_plugin_fio/fio_schema.py:220-226 | any job list in which some job's size is a percentage raises ValueError as written |
| `JobConfig.PercentSizeRejected` | arcaflow_plugin_fio/fio_schema.py:224-226 | a size of "20%" raises ValueError as written, while the intended section holds `size=20%` |
| `FioPlugin.Classify` | arcaflow_plugin_fio/fio_plugin.py:72-86 | a missing `fio` gives the fixed install message, any other missing file the traceback; only a zero exit succeeds; an exception escapes exactly when the output holds no JSON |
| `FioPlugin.ClassifyIntended` | arcaflow_plugin_fio/fio_plugin.py:81-86 | a non-zero exit is always an error; without JSON its message carries the whole output as diagnostics |
| `FioPlugin.IntendedAgreesWithWritten` | arcaflow_plugin_fio/fio_plugin.py:72-86 | the two classifications differ exactly on a non-zero exit whose output holds no JSON |
| `FioPlugin.ExitReportsDiagnostics` | arcaflow_plugin_fio/fio_plugin.py:81-86 | a non-zero exit gives `fio failed with return code <code>:\n` followed by the lines before the JSON, and the JSON is dropped |
| `FioPlugin.OkReturnsFirstDocument` | arcaflow_plugin_fio/fio_plugin.py:61-70 | a zero exit gives "success" with the first JSON document in the output |
| `FioPlugin.ExitWithoutJsonRaises` | arcaflow_plugin_fio/fio_plugin.py:81-86 | exit status 1 with output "bad option\n" raises IndexError as written; the intended message is `fio failed with return code 1:\nbad option\n` |
| `FioPlugin.WorkDir.Unlink` | arcaflow_plugin_fio/fio_plugin.py:90 | the path is gone afterwards, whether or not it existed; nothing else changes |
| `FioPlugin.WorkDir.WriteJobsToFile` | arcaflow_plugin_fio/fio_schema.py:220-231 | the job file holds the text of the configuration built from the jobs; nothing else changes |
| `FioPlugin.WorkDir.Cleanup` | arcaflow_plugin_fio/fio_plugin.py:88-92 | with cleanup on, the job file and every `<name>.0.0` are removed; with it off or missing, nothing is |
| `FioPlugin.WorkDir.Run` | arcaflow_plugin_fio/fio_plugin.py:43-92 | fio is started with exactly `["fio", "fio-input-tmp.fio", "--output-format=json+"]`; the result is the classified outcome; on every path the generated files are removed iff cleanup is on |

## Left out

- Starting fio, writing and removing files: `exec` is a parameter from the argument list to the outcome; the files fio creates are a parameter; the directory is a map.
- `json.loads` is the parameter `loads`; the JSON grammar is not modelled.
- `fio_output_schema.unserialize` belongs to the plugin SDK: a success carries the loaded JSON unvalidated.
- The plugin SDK's registration (`plugin.step`, `build_object_schema`) and its field validation: the constraints are stated as predicates only.
- The result dataclasses (`JobResult`, `FioSuccessOutput` and the rest) are shape only.
- The entry points `__main__.py`, `main.py` and `cli.py` are not part of this model.
- The `print` of diagnostics on success is output only. `format_exc()` is the opaque `traceback` string of `NotFound`.
- configparser details: a job named `DEFAULT` is not modelled. configparser would put it in its defaults section, written first. Option-name lower-casing is also left out, because every key is already lower case.
- `JobConfig.ConfigureSections`: a job named "" is not modelled as configparser handles it. configparser would create an empty `[]` section and store that job's options in the defaults section. The schema's minimum name length of 1 rules such a job out, and `BuildConfig`, `WorkDir.WriteJobsToFile` and `WorkDir.Run` require valid jobs.
- `JobConfig.SetOption`: sets the value without the interpolation check of `RawConfigParser.set`, which raises ValueError on a bare `%`; `ConfigureAsWritten` models that failure.
- `JobConfig.AddJobSection`: always yields the job's full section; as written, setting a value with a bare `%` raises ValueError partway through, which `ConfigureAsWritten` models.
- `JobConfig.BuildConfig`: always returns `Configure(jobs)`, the corrected configuration of the second "Findings" row; as written, a value with a bare `%` raises ValueError, which `ConfigureAsWritten` models.
- `FioPlugin.WorkDir.WriteJobsToFile`: writes the corrected configuration, `Configure(jobs)`, for every input. The source raises ValueError on a bare `%` before the file is opened, so nothing is written there; `ConfigureAsWritten` models that failure.
- `FioSchema.IoEngine.IsSync`: the helper sets at fio_schema.py:45-46 are plain constants here. Under Python's Enum rules such attributes can become members of their own, and `in` then tests substrings of their string form. On the four engines the result is the same.
- `FioPlugin.WorkDir.Run`: writing the job file is assumed to succeed. A FileNotFoundError anywhere in the `try` block is the `NotFound` outcome.
- `FioPlugin.WorkDir.Run`: uses the corrected job file and the corrected exit classification from "Findings". So the two exceptions recorded there do not occur in it; `ConfigureAsWritten` and `Classify` model them.
- `FioPlugin.ClassifyIntended`: a zero exit with no JSON still raises, as in the source. No intended message is evident for it.
- Concurrent runs in one working directory (fixed file names) are out of scope. So is a subprocess timeout.

## Findings

| source | as written | input that shows it | evidently intended | confidence | as-written member | corrected member |
|---|---|---|---|---|---|---|
| arcaflow_plugin_fio/fio_plugin.py:81-86 | on a non-zero exit, `split_json_and_errors` runs over output that usually holds no JSON; it indexes past the last line and IndexError escapes the handler | exit status 1, output "bad option\n" | error output `fio failed with return code 1:\nbad option\n` | high; not executed | `FioPlugin.ExitWithoutJsonRaises` | `FioPlugin.ClassifyIntended` |
| arcaflow_plugin_fio/fio_schema.py:221-226 | `ConfigParser()` uses basic interpolation, which refuses a value with a bare `%`; setting it raises ValueError | a job with size "20%", the percentage form fio_schema.py:77-78 describes | the job file holds `size=20%` | medium; not executed | `JobConfig.PercentSizeRejected` | `JobConfig.KeyPresentIffSet` |
