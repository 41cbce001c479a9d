/**
  The input schema of the fio plugin: the enumerations with their string
  forms, the parameters of one job, a job, the whole input, and the
  constraints that the schema validates before the plugin sees a value.
 */
module FioSchema {
  import opened Wrappers
  import opened Python

  /** Access pattern of a job (`rw=` in fio's job file). */
  datatype IoPattern = Read | Write | RandRead | RandWrite | Rw | ReadWrite | RandRw
  {
    /** `__str__`: the declared literal value. */
    function ToString(): string
    {
      match this
      case Read => "read"
      case Write => "write"
      case RandRead => "randread"
      case RandWrite => "randwrite"
      case Rw => "rw"
      case ReadWrite => "readwrite"
      case RandRw => "randrw"
    }
  }

  /** Enum lookup by value, `IoPattern(s)`. */
  function ParseIoPattern(s: string): Option<IoPattern>
  {
    if s == "read" then Some(Read)
    else if s == "write" then Some(Write)
    else if s == "randread" then Some(RandRead)
    else if s == "randwrite" then Some(RandWrite)
    else if s == "rw" then Some(Rw)
    else if s == "readwrite" then Some(ReadWrite)
    else if s == "randrw" then Some(RandRw)
    else None
  }

  /** Distribution of the delay between I/O submissions. */
  datatype RateProcess = Linear | Poisson
  {
    function ToString(): string
    {
      match this
      case Linear => "linear"
      case Poisson => "poisson"
    }
  }

  function ParseRateProcess(s: string): Option<RateProcess>
  {
    if s == "linear" then Some(Linear)
    else if s == "poisson" then Some(Poisson)
    else None
  }

  /** How fio submits I/O to the engine. */
  datatype IoSubmitMode = Inline | Offload
  {
    function ToString(): string
    {
      match this
      case Inline => "inline"
      case Offload => "offload"
    }
  }

  function ParseIoSubmitMode(s: string): Option<IoSubmitMode>
  {
    if s == "inline" then Some(Inline)
    else if s == "offload" then Some(Offload)
    else None
  }

  /** The values an engine is counted as synchronous by. */
  const SyncIoEngines: set<string> := {"sync", "psync"}
  const AsyncIoEngines: set<string> := {"libaio", "windowsaio"}

  /** How a job issues I/O. */
  datatype IoEngine = Sync | Psync | Libaio | WindowsAio
  {
    function ToString(): string
    {
      match this
      case Sync => "sync"
      case Psync => "psync"
      case Libaio => "libaio"
      case WindowsAio => "windowsaio"
    }

    /** `is_sync`: whether the engine's value is one of the synchronous ones. */
    predicate IsSync()
      ensures IsSync() <==> this == Sync || this == Psync
      ensures IsSync() <==> ToString() !in AsyncIoEngines
    {
      ToString() in SyncIoEngines
    }
  }

  function ParseIoEngine(s: string): Option<IoEngine>
  {
    if s == "sync" then Some(Sync)
    else if s == "psync" then Some(Psync)
    else if s == "libaio" then Some(Libaio)
    else if s == "windowsaio" then Some(WindowsAio)
    else None
  }

  /**
    Each enumeration's string form is its declared literal, and the literal
    determines the member: looking the literal up gives the member back.
   */
  lemma EnumLiteralsRoundTrip(p: IoPattern, r: RateProcess, m: IoSubmitMode, e: IoEngine)
    ensures ParseIoPattern(p.ToString()) == Some(p)
    ensures ParseRateProcess(r.ToString()) == Some(r)
    ensures ParseIoSubmitMode(m.ToString()) == Some(m)
    ensures ParseIoEngine(e.ToString()) == Some(e)
  {
  }

  /** The parameters of one job; None leaves the option to fio's default. */
  datatype JobParams = JobParams(
    size: Option<string>,
    blocksize: Option<string>,
    blocksizeRange: Option<string>,
    direct: Option<int>,
    numjobs: Option<int>,
    runtime: Option<string>,
    startdelay: Option<string>,
    ioengine: Option<IoEngine>,
    iodepth: Option<int>,
    rateIops: Option<int>,
    ioSubmitMode: Option<IoSubmitMode>,
    buffered: Option<int>,
    readwrite: Option<IoPattern>,
    rateProcess: Option<RateProcess>)

  /** A job with every parameter left to fio's default. */
  const NoParams := JobParams(None, None, None, None, None, None, None,
                              None, None, None, None, None, None, None)

  datatype FioJob = FioJob(name: string, params: JobParams)

  /** The plugin's input; `cleanup` is optional and defaults to False. */
  datatype FioInput = FioInput(jobs: seq<FioJob>, cleanup: Option<bool>)
  {
    /** `if params.cleanup:`, where a missing value is falsy. */
    predicate CleansUp()
    {
      cleanup == Some(true)
    }
  }

  /** The input built with `cleanup` left at its default. */
  function NewInput(jobs: seq<FioJob>): (input: FioInput)
    ensures input.jobs == jobs && !input.CleansUp()
  {
    FioInput(jobs, Some(false))
  }

  /** A value of one parameter, before `str` is applied to it. */
  datatype Value =
    | Text(text: string)
    | Int(number: int)
    | Engine(engine: IoEngine)
    | SubmitMode(mode: IoSubmitMode)
    | Pattern(pattern: IoPattern)
    | Rate(process: RateProcess)

  /** Python's `str(value)` for every kind of parameter value. */
  function Str(v: Value): string
  {
    match v
    case Text(s) => s
    case Int(i) => IntToString(i)
    case Engine(e) => e.ToString()
    case SubmitMode(m) => m.ToString()
    case Pattern(p) => p.ToString()
    case Rate(r) => r.ToString()
  }

  /**
    `str` leaves a string as it is and writes every other value in a form
    that reads back as that value.
   */
  lemma StrReadsBack(v: Value)
    ensures v.Text? ==> Str(v) == v.text
    ensures v.Int? ==> ParseInt(Str(v)) == Some(v.number)
    ensures v.Engine? ==> ParseIoEngine(Str(v)) == Some(v.engine)
    ensures v.SubmitMode? ==> ParseIoSubmitMode(Str(v)) == Some(v.mode)
    ensures v.Pattern? ==> ParseIoPattern(Str(v)) == Some(v.pattern)
    ensures v.Rate? ==> ParseRateProcess(Str(v)) == Some(v.process)
  {
    if v.Int? {
      IntToStringRoundTrip(v.number);
    }
  }

  /** The field names of JobParams in declaration order. */
  const FieldNames: seq<string> := [
    "size", "blocksize", "blocksize_range", "direct", "numjobs", "runtime",
    "startdelay", "ioengine", "iodepth", "rate_iops", "io_submit_mode",
    "buffered", "readwrite", "rate_process"]

  function TextOf(o: Option<string>): Option<Value>
  {
    if o.Some? then Some(Text(o.value)) else None
  }

  function IntOf(o: Option<int>): Option<Value>
  {
    if o.Some? then Some(Int(o.value)) else None
  }

  /** `asdict(params).items()`: one (name, value) pair per field, in declaration order. */
  function AsDict(p: JobParams): (items: seq<(string, Option<Value>)>)
    ensures |items| == |FieldNames|
    ensures forall i :: 0 <= i < |items| ==> items[i].0 == FieldNames[i]
  {
    [ ("size", TextOf(p.size)),
      ("blocksize", TextOf(p.blocksize)),
      ("blocksize_range", TextOf(p.blocksizeRange)),
      ("direct", IntOf(p.direct)),
      ("numjobs", IntOf(p.numjobs)),
      ("runtime", TextOf(p.runtime)),
      ("startdelay", TextOf(p.startdelay)),
      ("ioengine", if p.ioengine.Some? then Some(Engine(p.ioengine.value)) else None),
      ("iodepth", IntOf(p.iodepth)),
      ("rate_iops", IntOf(p.rateIops)),
      ("io_submit_mode", if p.ioSubmitMode.Some? then Some(SubmitMode(p.ioSubmitMode.value)) else None),
      ("buffered", IntOf(p.buffered)),
      ("readwrite", if p.readwrite.Some? then Some(Pattern(p.readwrite.value)) else None),
      ("rate_process", if p.rateProcess.Some? then Some(Rate(p.rateProcess.value)) else None) ]
  }

  /** `validation.min(0)` and `validation.max(1)` on an optional integer. */
  predicate InUnitRange(o: Option<int>)
  {
    o.None? || 0 <= o.value <= 1
  }

  /** `validation.min(n)` on an optional string: its length. */
  predicate MinLength(o: Option<string>, n: nat)
  {
    o.None? || |o.value| >= n
  }

  /**
    The constraints the schema checks on a job's parameters. Leaving every
    parameter to fio's default is valid, and in valid parameters `direct`
    and `buffered` are written as the single digit "0" or "1".
   */
  predicate ValidParams(p: JobParams)
    ensures p == NoParams ==> ValidParams(p)
    ensures ValidParams(p) && p.direct.Some? ==> Str(Int(p.direct.value)) in {"0", "1"}
    ensures ValidParams(p) && p.buffered.Some? ==> Str(Int(p.buffered.value)) in {"0", "1"}
  {
    && MinLength(p.size, 2)
    && MinLength(p.blocksize, 2)
    && MinLength(p.blocksizeRange, 2)
    && InUnitRange(p.direct)
    && InUnitRange(p.buffered)
  }

  /** A job is valid when it is named and its parameters are valid. */
  predicate ValidJob(j: FioJob)
    ensures j.params == NoParams ==> (ValidJob(j) <==> j.name != "")
  {
    |j.name| >= 1 && ValidParams(j.params)
  }

  predicate ValidInput(input: FioInput)
  {
    forall j :: j in input.jobs ==> ValidJob(j)
  }
}
