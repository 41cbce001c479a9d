/**
  The `workload` step of the fio plugin: write the job file, start fio on
  it, turn what happened into a "success" or "error" output, and remove the
  generated files when asked to. Starting fio is a parameter `exec` from the
  argument list to what happened; the files fio leaves behind are a
  parameter too, and the working directory is a map from path to contents.
 */
module FioPlugin {
  import opened Wrappers
  import opened Python
  import opened FioSchema
  import opened JobConfig
  import opened OutputSplit

  /** The fixed name of the generated job file. */
  const ConfigPath: string := "fio-input-tmp.fio"

  const MissingFioMessage: string := "missing fio executable, please install fio package"

  /** The argument list fio is started with. */
  function Command(configPath: string): seq<string>
  {
    ["fio", configPath, "--output-format=json+"]
  }

  /**
    What starting fio can lead to: a FileNotFoundError (with the missing
    file's name and the formatted traceback), a non-zero exit status
    (CalledProcessError), or a zero exit status, each with the captured
    output, standard error merged into it.
   */
  datatype ProcessOutcome =
    | NotFound(filename: string, traceback: string)
    | Exit(code: int, output: string)
    | Ok(output: string)
  {
    /** `check_output` raises only for a non-zero status. */
    predicate WellFormed()
    {
      Exit? ==> code != 0
    }
  }

  /**
    The step's result: ("success", output), ("error", message), or an
    exception that escapes the step uncaught.
   */
  datatype StepResult<J> =
    | SuccessOutput(output: J)
    | ErrorOutput(message: string)
    | Uncaught(exception: Exception)

  function ExitMessage(program: string, code: int, diagnostics: string): string
  {
    program + " failed with return code " + IntToString(code) + ":\n" + diagnostics
  }

  /** Whether some suffix of the lines of `text` parses as one JSON document. */
  predicate HasDocument<J>(text: string, loads: string -> Option<J>)
  {
    exists k :: 0 <= k < |SplitLines(text)| && Parses(SplitLines(text), loads, k)
  }

  /**
    The except clauses of `run` as written. A non-zero exit runs the
    splitter over the output only for its diagnostics, so an output with no
    JSON in it raises from inside the handler.
   */
  function Classify<J>(outcome: ProcessOutcome, loads: string -> Option<J>): (r: StepResult<J>)
    requires loads("") == None
    requires outcome.WellFormed()
    ensures r.SuccessOutput? ==> outcome.Ok?
    ensures r.Uncaught? <==> !outcome.NotFound? && !HasDocument(outcome.output, loads)
    ensures outcome.NotFound? ==>
      r == ErrorOutput(if outcome.filename == "fio" then MissingFioMessage else outcome.traceback)
  {
    match outcome
    case NotFound(filename, traceback) =>
      ErrorOutput(if filename == "fio" then MissingFioMessage else traceback)
    case Exit(code, output) =>
      (match SplitAsWritten(output, loads)
       case Returned(_, diagnostics) => ErrorOutput(ExitMessage(Command(ConfigPath)[0], code, diagnostics))
       case Raised(e) => Uncaught(e))
    case Ok(output) =>
      (match SplitAsWritten(output, loads)
       case Returned(json, _) => SuccessOutput(json)
       case Raised(e) => Uncaught(e))
  }

  /**
    The classification with a non-zero exit always reported: when no JSON
    follows the diagnostics, the whole output is the diagnostic text.
   */
  function ClassifyIntended<J>(outcome: ProcessOutcome, loads: string -> Option<J>): (r: StepResult<J>)
    requires loads("") == None
    requires outcome.WellFormed()
    ensures r.SuccessOutput? ==> outcome.Ok?
    ensures r.Uncaught? <==> outcome.Ok? && !HasDocument(outcome.output, loads)
    ensures outcome.Exit? && !HasDocument(outcome.output, loads) ==>
      r == ErrorOutput(ExitMessage("fio", outcome.code, Terminated(SplitLines(outcome.output))))
  {
    match outcome
    case Exit(code, output) =>
      ErrorOutput(ExitMessage(Command(ConfigPath)[0], code, Scan(SplitLines(output), loads).diagnostics))
    case _ => Classify(outcome, loads)
  }

  /**
    The two classifications agree everywhere except on a non-zero exit
    whose output holds no JSON document.
   */
  lemma IntendedAgreesWithWritten<J>(outcome: ProcessOutcome, loads: string -> Option<J>)
    requires loads("") == None
    requires outcome.WellFormed()
    ensures ClassifyIntended(outcome, loads) == Classify(outcome, loads)
        <==> !(outcome.Exit? && !HasDocument(outcome.output, loads))
  {
  }

  /**
    A non-zero exit is reported with the program name, the status and the
    lines before the first JSON document; the JSON itself is dropped.
   */
  lemma ExitReportsDiagnostics<J>(code: int, output: string, loads: string -> Option<J>, k: nat)
    requires loads("") == None
    requires code != 0
    requires k < |SplitLines(output)| && Parses(SplitLines(output), loads, k)
    requires forall j :: 0 <= j < k ==> !Parses(SplitLines(output), loads, j)
    ensures var message := ExitMessage("fio", code, Terminated(SplitLines(output)[..k]));
      && Classify(Exit(code, output), loads) == ErrorOutput(message)
      && ClassifyIntended(Exit(code, output), loads) == ErrorOutput(message)
  {
    ScanFindsFirstDocument(SplitLines(output), loads, k);
  }

  /** A zero exit gives "success" with the first JSON document found. */
  lemma OkReturnsFirstDocument<J>(output: string, loads: string -> Option<J>, k: nat)
    requires loads("") == None
    requires k < |SplitLines(output)| && Parses(SplitLines(output), loads, k)
    requires forall j :: 0 <= j < k ==> !Parses(SplitLines(output), loads, j)
    ensures Classify(Ok(output), loads) == SuccessOutput(loads(JoinLines(SplitLines(output)[k..])).value)
  {
    ScanFindsFirstDocument(SplitLines(output), loads, k);
  }

  /**
    fio failing with only an error line on its output: the code as written
    raises IndexError instead of reporting the failure, which the intended
    classification reports with that line.
   */
  lemma ExitWithoutJsonRaises<J>(loads: string -> Option<J>)
    requires loads("") == None && loads("bad option") == None
    ensures Classify(Exit(1, "bad option\n"), loads) == Uncaught(IndexError)
    ensures ClassifyIntended(Exit(1, "bad option\n"), loads)
         == ErrorOutput("fio failed with return code 1:\nbad option\n")
  {
    var lines := ["bad option"];
    ErrorLineSplits();
    assert !Parses(lines, loads, 0) by {
      assert lines[0..] == lines;
    }
    assert !HasDocument("bad option\n", loads);
    assert Scan(lines, loads).diagnostics == "bad option\n";
    assert Command(ConfigPath)[0] == "fio";
    ExitMessageExample();
  }

  lemma ExitMessageExample()
    ensures ExitMessage("fio", 1, "bad option\n") == "fio failed with return code 1:\nbad option\n"
  {
    var code := IntToString(1);
    assert code == "1" by {
      assert NatToString(1) == [DigitChar(1)];
    }
    var pieces := "fio" + " failed with return code " + code + ":\n" + "bad option\n";
    assert pieces == "fio failed with return code 1:\nbad option\n";
  }

  /** The text "bad option\n" is one line, and writing that line back gives the text. */
  lemma ErrorLineSplits()
    ensures SplitLines("bad option\n") == ["bad option"]
    ensures Terminated(["bad option"]) == "bad option\n"
  {
    var text := "bad option\n";
    assert FirstBreak(text, 0) == 10;
    assert text[..10] == "bad option";
    assert text[11..] == "";
    assert ["bad option"][..0] == [];
  }

  /** The artifact fio leaves for each job. */
  function ArtifactsOf(jobs: seq<FioJob>): set<string>
  {
    set j | j in jobs :: j.name + ".0.0"
  }

  /** The paths the `finally` clause removes. */
  function CleanupPaths(input: FioInput, configPath: string): set<string>
  {
    if input.CleansUp() then {configPath} + ArtifactsOf(input.jobs) else {}
  }

  /** The working directory the step runs in: path to file contents. */
  class WorkDir {
    var files: map<string, string>

    constructor (files: map<string, string>)
      ensures this.files == files
    {
      this.files := files;
    }

    /** `Path(path).unlink(missing_ok=True)`: a missing file is not an error. */
    method Unlink(path: string)
      modifies this
      ensures files == old(files) - {path}
    {
      files := files - {path};
    }

    /** `write_jobs_to_file`: the configuration built from the jobs, written to `path`. */
    method WriteJobsToFile(jobs: seq<FioJob>, path: string)
      requires forall j :: j in jobs ==> ValidJob(j)
      modifies this
      ensures files == old(files)[path := ConfigText(Configure(jobs))]
    {
      var cfg := BuildConfig(jobs);
      files := files[path := ConfigText(cfg)];
    }

    /** The `finally` clause: with cleanup on, remove the job file and every artifact. */
    method Cleanup(input: FioInput, configPath: string)
      modifies this
      ensures files == old(files) - CleanupPaths(input, configPath)
    {
      if input.CleansUp() {
        Unlink(configPath);
        for i := 0 to |input.jobs|
          invariant files == old(files) - ({configPath} + ArtifactsOf(input.jobs[..i]))
        {
          assert ArtifactsOf(input.jobs[..i + 1]) == ArtifactsOf(input.jobs[..i]) + {input.jobs[i].name + ".0.0"} by {
            assert input.jobs[..i + 1] == input.jobs[..i] + [input.jobs[i]];
          }
          Unlink(input.jobs[i].name + ".0.0");
        }
        assert input.jobs[..|input.jobs|] == input.jobs;
      }
    }

    /**
      `run`: the job file is written, fio runs on it (leaving `produced`
      behind), its outcome is classified, and on every path the generated
      files are removed when cleanup is on and nothing is removed otherwise.
     */
    method Run<J>(input: FioInput, exec: seq<string> -> ProcessOutcome,
                  produced: map<string, string>, loads: string -> Option<J>)
      returns (r: StepResult<J>)
      requires ValidInput(input)
      requires exec(Command(ConfigPath)).WellFormed()
      requires exec(Command(ConfigPath)).NotFound? ==> produced == map[]
      requires loads("") == None
      modifies this
      ensures r == ClassifyIntended(exec(["fio", "fio-input-tmp.fio", "--output-format=json+"]), loads)
      ensures files == (old(files)[ConfigPath := ConfigText(Configure(input.jobs))] + produced)
                       - CleanupPaths(input, ConfigPath)
      ensures input.CleansUp() ==>
        ConfigPath !in files && forall j :: j in input.jobs ==> j.name + ".0.0" !in files
      ensures !input.CleansUp() ==>
        files == old(files)[ConfigPath := ConfigText(Configure(input.jobs))] + produced
    {
      WriteJobsToFile(input.jobs, ConfigPath);
      var cmd := Command(ConfigPath);
      var outcome := exec(cmd);
      files := files + produced;
      match outcome {
        case NotFound(filename, traceback) =>
          r := ErrorOutput(if filename == "fio" then MissingFioMessage else traceback);
        case Exit(code, output) =>
          var split := Scan(SplitLines(output), loads);
          r := ErrorOutput(ExitMessage(cmd[0], code, split.diagnostics));
        case Ok(output) =>
          var split := SplitJsonAndErrors(output, loads);
          r := match split
            case Returned(json, _) => SuccessOutput(json)
            case Raised(e) => Uncaught(e);
      }
      Cleanup(input, ConfigPath);
    }
  }
}
