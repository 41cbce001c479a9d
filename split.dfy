/**
  `split_json_and_errors`: fio may print informational lines before its
  JSON report. The captured text is split into lines and each suffix of
  lines, rejoined with "\n", is offered to the JSON parser; the first one
  that parses is the report and the lines skipped before it are the
  diagnostics. The JSON parser is a parameter `loads`, which returns None
  where `json.loads` raises, and must refuse the empty text as it does.
 */
module OutputSplit {
  import opened Wrappers
  import opened Python

  /** Whether the lines from `k` on, rejoined, form one JSON document. */
  predicate Parses<J>(lines: seq<string>, loads: string -> Option<J>, k: nat)
    requires k <= |lines|
  {
    loads(JoinLines(lines[k..])).Some?
  }

  /** The smallest start index at or after `from` whose suffix parses. */
  function FirstParsing<J>(lines: seq<string>, loads: string -> Option<J>, from: nat): (r: Option<nat>)
    requires from <= |lines|
    ensures r.Some? ==> from <= r.value < |lines| && Parses(lines, loads, r.value)
    ensures r.Some? ==> forall j :: from <= j < r.value ==> !Parses(lines, loads, j)
    ensures r.None? ==> forall j :: from <= j < |lines| ==> !Parses(lines, loads, j)
    decreases |lines| - from
  {
    if from == |lines| then None
    else if Parses(lines, loads, from) then Some(from)
    else FirstParsing(lines, loads, from + 1)
  }

  /** The outcome of the scan: the report and the lines before it, or no report at all. */
  datatype Split<J> = Found(json: J, diagnostics: string) | Exhausted(diagnostics: string)

  /**
    The scan over every start line: the report found first, with every line
    skipped before it re-terminated with "\n"; when no suffix parses, every
    line is diagnostic text.
   */
  function Scan<J>(lines: seq<string>, loads: string -> Option<J>): (r: Split<J>)
    ensures r.Found? <==> exists k :: 0 <= k < |lines| && Parses(lines, loads, k)
    ensures r.Exhausted? ==> r.diagnostics == Terminated(lines)
  {
    match FirstParsing(lines, loads, 0)
    case Some(k) => Found(loads(JoinLines(lines[k..])).value, Terminated(lines[..k]))
    case None => Exhausted(Terminated(lines))
  }

  /**
    For text made of k lines that do not start a JSON document followed by
    lines that do, the scan returns that document and exactly those k lines,
    each followed by "\n".
   */
  lemma ScanFindsFirstDocument<J>(lines: seq<string>, loads: string -> Option<J>, k: nat)
    requires k < |lines| && Parses(lines, loads, k)
    requires forall j :: 0 <= j < k ==> !Parses(lines, loads, j)
    ensures Scan(lines, loads) == Found(loads(JoinLines(lines[k..])).value, Terminated(lines[..k]))
  {
  }

  /** When the whole text parses, there are no diagnostics, so nothing is printed. */
  lemma WholeTextHasNoDiagnostics<J>(lines: seq<string>, loads: string -> Option<J>)
    requires |lines| > 0 && Parses(lines, loads, 0)
    ensures Scan(lines, loads).Found? && Scan(lines, loads).diagnostics == ""
  {
    ScanFindsFirstDocument(lines, loads, 0);
    assert lines[..0] == [];
  }

  /** What the Python function does: it returns a pair or raises. */
  datatype Outcome<J> = Returned(json: J, errors: string) | Raised(exception: Exception)

  /**
    `split_json_and_errors` as written. The loop runs `len(fio_output)`
    times, at least once per line. When no suffix parses it either indexes
    `lines[i]` one past the last line (IndexError) or, when the text has no
    more characters than lines, falls out of the loop with `json_data`
    never assigned (UnboundLocalError). The parser refuses "", as
    `json.loads` does: at `i == len(lines)` the loop tries the empty suffix
    before it indexes `lines[i]`.
   */
  function SplitAsWritten<J>(fioOutput: string, loads: string -> Option<J>): (r: Outcome<J>)
    requires loads("") == None
    ensures r.Returned? <==> exists k :: 0 <= k < |SplitLines(fioOutput)| && Parses(SplitLines(fioOutput), loads, k)
    ensures r.Returned? ==> exists k :: (
      && 0 <= k < |SplitLines(fioOutput)| && Parses(SplitLines(fioOutput), loads, k)
      && (forall j :: 0 <= j < k ==> !Parses(SplitLines(fioOutput), loads, j))
      && r.json == loads(JoinLines(SplitLines(fioOutput)[k..])).value
      && r.errors == Terminated(SplitLines(fioOutput)[..k]))
    ensures r.Raised? ==> r.exception == IndexError || r.exception == UnboundLocalError
  {
    var lines := SplitLines(fioOutput);
    match Scan(lines, loads)
    case Found(json, diagnostics) =>
      var first := FirstParsing(lines, loads, 0).value;
      assert first < |SplitLines(fioOutput)| && Parses(SplitLines(fioOutput), loads, first);
      Returned(json, diagnostics)
    case Exhausted(_) => Raised(if |fioOutput| > |lines| then IndexError else UnboundLocalError)
  }

  /**
    The loop of `split_json_and_errors`: `i` runs over `range(len(fio_output))`,
    `error_data` accumulates each line that did not start a document, and the
    loop breaks at the first suffix that parses.
   */
  method SplitJsonAndErrors<J>(fioOutput: string, loads: string -> Option<J>) returns (r: Outcome<J>)
    requires loads("") == None
    ensures r == SplitAsWritten(fioOutput, loads)
  {
    var errorData := "";
    var lines := SplitLines(fioOutput);
    var jsonData: Option<J> := None;
    var i := 0;
    while i < |fioOutput|
      invariant i <= |lines|
      invariant jsonData == None
      invariant errorData == Terminated(lines[..i])
      invariant forall j :: 0 <= j < i ==> !Parses(lines, loads, j)
    {
      var fileData := JoinLines(lines[i..]);
      var parsed := loads(fileData);
      if parsed.Some? {
        jsonData := parsed;
        break;
      }
      if i == |lines| {
        assert FirstParsing(lines, loads, 0).None?;
        return Raised(IndexError);
      }
      errorData := errorData + lines[i] + "\n";
      assert lines[..i + 1][..i] == lines[..i];
      i := i + 1;
    }
    if jsonData.None? {
      assert FirstParsing(lines, loads, 0).None?;
      return Raised(UnboundLocalError);
    }
    ScanFindsFirstDocument(lines, loads, i);
    r := Returned(jsonData.value, errorData);
  }

  /**
    When no suffix of the text parses, including the empty text, the
    function as written raises instead of returning.
   */
  lemma NoDocumentRaises<J>(fioOutput: string, loads: string -> Option<J>)
    requires loads("") == None
    requires forall k :: 0 <= k < |SplitLines(fioOutput)| ==> !Parses(SplitLines(fioOutput), loads, k)
    ensures SplitAsWritten(fioOutput, loads).Raised?
    ensures fioOutput == "" ==> SplitAsWritten(fioOutput, loads) == Raised(UnboundLocalError)
  {
  }

  /**
    Each diagnostic line is re-terminated with "\n" whatever terminator it
    had: for output whose lines end in any mix of "\n", "\r" and "\r\n",
    the lines before the first document come back each followed by "\n".
   */
  lemma DiagnosticsTerminatorsNormalised<J>(lines: seq<string>, ends: seq<string>,
                                            loads: string -> Option<J>, k: nat)
    requires loads("") == None
    requires ReadsBackAsWritten(lines, ends)
    requires k < |lines| && Parses(lines, loads, k)
    requires forall j :: 0 <= j < k ==> !Parses(lines, loads, j)
    ensures SplitAsWritten(Ended(lines, ends), loads)
         == Returned(loads(JoinLines(lines[k..])).value, Terminated(lines[..k]))
  {
    SplitEnded(lines, ends);
    ScanFindsFirstDocument(lines, loads, k);
  }
}
