/**
  `FioInput.write_jobs_to_file`: the job list becomes an INI configuration
  built the way Python's `configparser.ConfigParser` builds it, one section
  per job name and one `key=value` entry per parameter that is not None.
 */
module JobConfig {
  import opened Wrappers
  import opened Python
  import opened FioSchema

  /** One section of the configuration, its entries in insertion order. */
  datatype Section = Section(name: string, entries: seq<(string, string)>)

  function Keys<V>(pairs: seq<(string, V)>): (keys: seq<string>)
    ensures |keys| == |pairs|
    ensures forall i :: 0 <= i < |pairs| ==> keys[i] == pairs[i].0
  {
    seq(|pairs|, i requires 0 <= i < |pairs| => pairs[i].0)
  }

  predicate DistinctKeys<V>(pairs: seq<(string, V)>)
  {
    forall a, b :: 0 <= a < b < |pairs| ==> pairs[a].0 != pairs[b].0
  }

  /** Position of the section called `name`, or |cfg| when there is none. */
  function SectionIndex(cfg: seq<Section>, name: string): (k: nat)
    ensures k <= |cfg|
    ensures k < |cfg| ==> cfg[k].name == name
    ensures forall t :: 0 <= t < k ==> cfg[t].name != name
  {
    if cfg == [] then 0
    else if cfg[0].name == name then 0
    else 1 + SectionIndex(cfg[1..], name)
  }

  /** No two sections share a name. */
  predicate DistinctNames(cfg: seq<Section>)
  {
    forall a, b :: 0 <= a < b < |cfg| ==> cfg[a].name != cfg[b].name
  }

  /**
    `cfg[name] = entries`: an existing section of that name keeps its place
    and has its entries replaced; otherwise the section is added at the end.
    No other section changes.
   */
  function PutSection(cfg: seq<Section>, name: string, entries: seq<(string, string)>): (r: seq<Section>)
    ensures SectionIndex(r, name) < |r| && r[SectionIndex(r, name)] == Section(name, entries)
    ensures |r| == if SectionIndex(cfg, name) < |cfg| then |cfg| else |cfg| + 1
    ensures |r| > |cfg| ==> r[|cfg|] == Section(name, entries)
    ensures forall t :: 0 <= t < |cfg| ==> r[t].name == cfg[t].name
    ensures forall t :: 0 <= t < |cfg| && cfg[t].name != name ==> r[t] == cfg[t]
  {
    var k := SectionIndex(cfg, name);
    var r := if k < |cfg| then cfg[k := Section(name, entries)] else cfg + [Section(name, entries)];
    assert r[k].name == name;
    assert SectionIndex(r, name) == k;
    r
  }

  /** Position of the entry for `key`, or |entries| when there is none. */
  function EntryIndex(entries: seq<(string, string)>, key: string): (k: nat)
    ensures k <= |entries|
    ensures k < |entries| ==> entries[k].0 == key
    ensures forall t :: 0 <= t < k ==> entries[t].0 != key
  {
    if entries == [] then 0
    else if entries[0].0 == key then 0
    else 1 + EntryIndex(entries[1..], key)
  }

  /**
    `section[key] = value`: replaces an existing entry in place, or appends;
    afterwards `key` maps to `value` and every other entry is unchanged.
   */
  function SetEntry(entries: seq<(string, string)>, key: string, value: string): (r: seq<(string, string)>)
    ensures EntryIndex(r, key) < |r| && r[EntryIndex(r, key)] == (key, value)
    ensures |r| == if EntryIndex(entries, key) < |entries| then |entries| else |entries| + 1
    ensures forall t :: 0 <= t < |entries| ==> r[t].0 == entries[t].0
    ensures forall t :: 0 <= t < |entries| && entries[t].0 != key ==> r[t] == entries[t]
  {
    var k := EntryIndex(entries, key);
    var r := if k < |entries| then entries[k := (key, value)] else entries + [(key, value)];
    assert r[k].0 == key;
    assert EntryIndex(r, key) == k;
    r
  }

  /**
    `cfg[name][key] = value` on a section that exists: only that section
    changes, and in it `key` now maps to `value`.
   */
  function SetOption(cfg: seq<Section>, name: string, key: string, value: string): (r: seq<Section>)
    requires SectionIndex(cfg, name) < |cfg|
    ensures |r| == |cfg|
    ensures forall t :: 0 <= t < |cfg| ==> r[t].name == cfg[t].name
    ensures forall t :: 0 <= t < |cfg| && t != SectionIndex(cfg, name) ==> r[t] == cfg[t]
    ensures var e := r[SectionIndex(cfg, name)].entries;
      EntryIndex(e, key) < |e| && e[EntryIndex(e, key)] == (key, value)
    ensures r[SectionIndex(cfg, name)] == Section(name, SetEntry(cfg[SectionIndex(cfg, name)].entries, key, value))
  {
    var k := SectionIndex(cfg, name);
    cfg[k := Section(name, SetEntry(cfg[k].entries, key, value))]
  }

  /** The entries one job's items produce: each non-None value, through `str`. */
  function Entries(items: seq<(string, Option<Value>)>): seq<(string, string)>
  {
    if items == [] then []
    else
      var last := items[|items| - 1];
      Entries(items[..|items| - 1]) + if last.1.Some? then [(last.0, Str(last.1.value))] else []
  }

  function JobEntries(p: JobParams): seq<(string, string)>
  {
    Entries(AsDict(p))
  }

  /** The names of the jobs, as a set. */
  function JobNames(jobs: seq<FioJob>): (names: set<string>)
    ensures forall i :: 0 <= i < |jobs| ==> jobs[i].name in names
  {
    if jobs == [] then {}
    else
      var front := jobs[..|jobs| - 1];
      assert forall i :: 0 <= i < |front| ==> jobs[i] == front[i];
      JobNames(front) + {jobs[|jobs| - 1].name}
  }

  /** The configuration after every job, in list order, has been assigned its section. */
  function Configure(jobs: seq<FioJob>): seq<Section>
  {
    if jobs == [] then []
    else
      var last := jobs[|jobs| - 1];
      PutSection(Configure(jobs[..|jobs| - 1]), last.name, JobEntries(last.params))
  }

  /**
    There is exactly one section per distinct job name: section names are
    distinct, each is the name of some job, and every job's name has one.
   */
  lemma {:induction false} ConfigureSections(jobs: seq<FioJob>)
    ensures var cfg := Configure(jobs);
      && DistinctNames(cfg) && |cfg| <= |jobs|
      && (forall t :: 0 <= t < |cfg| ==> cfg[t].name in JobNames(jobs))
      && (forall i :: 0 <= i < |jobs| ==> SectionIndex(cfg, jobs[i].name) < |cfg|)
    decreases |jobs|
  {
    if jobs != [] {
      var front, last := jobs[..|jobs| - 1], jobs[|jobs| - 1];
      ConfigureSections(front);
      assert jobs == front + [last];
      ConfigureStep(front, last, Configure(front), JobEntries(last.params));
    }
  }

  /** The job names in list order, each kept at its first occurrence only. */
  function FirstOccurrences(jobs: seq<FioJob>): seq<string>
  {
    if jobs == [] then []
    else
      var names, last := FirstOccurrences(jobs[..|jobs| - 1]), jobs[|jobs| - 1].name;
      if last in names then names else names + [last]
  }

  function SectionNames(cfg: seq<Section>): (names: seq<string>)
    ensures |names| == |cfg|
    ensures forall t :: 0 <= t < |cfg| ==> names[t] == cfg[t].name
  {
    seq(|cfg|, t requires 0 <= t < |cfg| => cfg[t].name)
  }

  /**
    Sections come in the order in which their names first occur in the job
    list: a repeated name reuses the place its first job created.
   */
  lemma {:induction false} SectionsInFirstOccurrenceOrder(jobs: seq<FioJob>)
    ensures SectionNames(Configure(jobs)) == FirstOccurrences(jobs)
    decreases |jobs|
  {
    if jobs != [] {
      var front, last := jobs[..|jobs| - 1], jobs[|jobs| - 1];
      SectionsInFirstOccurrenceOrder(front);
      PutSectionNames(Configure(front), last.name, JobEntries(last.params));
    }
  }

  /** Putting a section keeps the names in place and appends the name only when it is new. */
  lemma PutSectionNames(cfg: seq<Section>, name: string, entries: seq<(string, string)>)
    ensures SectionNames(PutSection(cfg, name, entries))
         == if name in SectionNames(cfg) then SectionNames(cfg) else SectionNames(cfg) + [name]
  {
    var r, names := PutSection(cfg, name, entries), SectionNames(cfg);
    var k := SectionIndex(cfg, name);
    if k < |cfg| {
      assert names[k] == name;
      assert SectionNames(r) == names;
    } else {
      assert name !in names by {
        forall t | 0 <= t < |names| ensures names[t] != name {
          assert cfg[t].name != name;
        }
      }
      assert SectionNames(r) == names + [name];
    }
  }

  /** One more section put keeps the properties of `ConfigureSections`. */
  lemma ConfigureStep(front: seq<FioJob>, last: FioJob, prev: seq<Section>, entries: seq<(string, string)>)
    requires DistinctNames(prev) && |prev| <= |front|
    requires forall t :: 0 <= t < |prev| ==> prev[t].name in JobNames(front)
    requires forall i :: 0 <= i < |front| ==> SectionIndex(prev, front[i].name) < |prev|
    ensures var cfg := PutSection(prev, last.name, entries);
      && DistinctNames(cfg) && |cfg| <= |front| + 1
      && (forall t :: 0 <= t < |cfg| ==> cfg[t].name in JobNames(front + [last]))
      && (forall i :: 0 <= i < |front + [last]| ==> SectionIndex(cfg, (front + [last])[i].name) < |cfg|)
  {
    var cfg := PutSection(prev, last.name, entries);
    var jobs := front + [last];
    assert jobs[..|jobs| - 1] == front;
    forall i | 0 <= i < |jobs| ensures SectionIndex(cfg, jobs[i].name) < |cfg| {
      if i < |front| && front[i].name != last.name {
        var t := SectionIndex(prev, front[i].name);
        assert cfg[t].name == front[i].name;
      }
    }
    forall a, b | 0 <= a < b < |cfg| ensures cfg[a].name != cfg[b].name {
      if b == |prev| {
        assert prev[a].name != last.name;
      }
    }
  }

  /**
    The nested loops of `write_jobs_to_file`: for each job the section is
    (re)created empty, then each non-None parameter is set in it.
   */
  method BuildConfig(jobs: seq<FioJob>) returns (cfg: seq<Section>)
    requires forall j :: j in jobs ==> ValidJob(j)
    ensures cfg == Configure(jobs)
  {
    cfg := [];
    for i := 0 to |jobs|
      invariant cfg == Configure(jobs[..i])
    {
      var job := jobs[i];
      cfg := AddJobSection(cfg, job);
      assert jobs[..i + 1][..i] == jobs[..i];
    }
    assert jobs[..|jobs|] == jobs;
  }

  /**
    One pass of the outer loop: the job's section is (re)created empty,
    then each non-None parameter is set in it, in field order.
   */
  method AddJobSection(before: seq<Section>, job: FioJob) returns (cfg: seq<Section>)
    ensures cfg == PutSection(before, job.name, JobEntries(job.params))
  {
    cfg := PutSection(before, job.name, []);
    var items := AsDict(job.params);
    FieldNamesDistinct();
    for j := 0 to |items|
      invariant cfg == PutSection(before, job.name, Entries(items[..j]))
    {
      if items[j].1.Some? {
        AddEntryStep(before, job.name, items, j);
        cfg := SetOption(cfg, job.name, items[j].0, Str(items[j].1.value));
      } else {
        SkipEntryStep(items, j);
      }
    }
    assert items[..|items|] == items;
  }

  lemma FieldNamesDistinct()
    ensures forall a, b :: 0 <= a < b < |FieldNames| ==> FieldNames[a] != FieldNames[b]
  {
  }

  lemma PutThenSet(base: seq<Section>, name: string, entries: seq<(string, string)>, key: string, value: string)
    ensures SectionIndex(PutSection(base, name, entries), name) < |PutSection(base, name, entries)|
    ensures SetOption(PutSection(base, name, entries), name, key, value)
         == PutSection(base, name, SetEntry(entries, key, value))
  {
    var k := SectionIndex(base, name);
    var put := PutSection(base, name, entries);
    assert put[k].name == name;
    assert forall t :: 0 <= t < k ==> put[t].name != name;
    assert SectionIndex(put, name) == k;
  }

  lemma {:induction false} EntriesKeys(items: seq<(string, Option<Value>)>)
    ensures forall x :: x in Keys(Entries(items)) ==> x in Keys(items)
    decreases |items|
  {
    if items != [] {
      var front := items[..|items| - 1];
      EntriesKeys(front);
      forall x | x in Keys(front) ensures x in Keys(items) {
        var t :| 0 <= t < |front| && Keys(front)[t] == x;
        assert Keys(items)[t] == x;
      }
      assert Keys(items)[|items| - 1] == items[|items| - 1].0;
    }
  }

  /** One step of the inner loop: setting a fresh key appends it to the section. */
  lemma AddEntryStep(base: seq<Section>, name: string, items: seq<(string, Option<Value>)>, j: nat)
    requires DistinctKeys(items)
    requires j < |items| && items[j].1.Some?
    ensures SectionIndex(PutSection(base, name, Entries(items[..j])), name)
          < |PutSection(base, name, Entries(items[..j]))|
    ensures SetOption(PutSection(base, name, Entries(items[..j])), name, items[j].0, Str(items[j].1.value))
         == PutSection(base, name, Entries(items[..j + 1]))
  {
    var key, value := items[j].0, Str(items[j].1.value);
    var e := Entries(items[..j]);
    PutThenSet(base, name, e, key, value);
    EntriesKeys(items[..j]);
    assert key !in Keys(items[..j]);
    assert key !in Keys(e);
    assert EntryIndex(e, key) == |e|;
    assert items[..j + 1][..j] == items[..j];
  }

  /** One step of the inner loop over an item that is None: nothing is set. */
  lemma SkipEntryStep(items: seq<(string, Option<Value>)>, j: nat)
    requires j < |items| && items[j].1.None?
    ensures Entries(items[..j + 1]) == Entries(items[..j])
  {
    assert items[..j + 1][..j] == items[..j];
  }

  /** The indices of the items whose value is not None, in order. */
  function PresentIndices(items: seq<(string, Option<Value>)>): seq<nat>
  {
    if items == [] then []
    else PresentIndices(items[..|items| - 1]) + if items[|items| - 1].1.Some? then [|items| - 1] else []
  }

  /**
    The entries are exactly the non-None items, in their original order,
    each value rendered with `str`: entry t comes from item ix[t], the
    indices increase, and every non-None item is among them.
   */
  lemma {:induction false} EntriesAreOrderedFilter(items: seq<(string, Option<Value>)>)
    ensures var e, ix := Entries(items), PresentIndices(items);
      && |e| == |ix|
      && (forall t :: 0 <= t < |ix| ==>
            ix[t] < |items| && items[ix[t]].1.Some? &&
            e[t] == (items[ix[t]].0, Str(items[ix[t]].1.value)))
      && (forall s, t :: 0 <= s < t < |ix| ==> ix[s] < ix[t])
      && (forall i :: 0 <= i < |items| && items[i].1.Some? ==> i in ix)
    decreases |items|
  {
    if items != [] {
      var front, last := items[..|items| - 1], items[|items| - 1];
      EntriesAreOrderedFilter(front);
      var e0, ix0 := Entries(front), PresentIndices(front);
      var e, ix := Entries(items), PresentIndices(items);
      assert forall i :: 0 <= i < |front| ==> items[i] == front[i];
      if last.1.Some? {
        assert e == e0 + [(last.0, Str(last.1.value))];
        assert ix == ix0 + [|items| - 1];
      } else {
        assert e == e0 && ix == ix0;
      }
    }
  }

  /**
    A parameter's name is a key of the job's section exactly when the
    parameter is not None, and its entry then holds `str` of the value.
   */
  lemma KeyPresentIffSet(p: JobParams, i: nat)
    requires i < |FieldNames|
    ensures FieldNames[i] in Keys(JobEntries(p)) <==> AsDict(p)[i].1.Some?
    ensures AsDict(p)[i].1.Some? ==> (FieldNames[i], Str(AsDict(p)[i].1.value)) in JobEntries(p)
  {
    FieldNamesDistinct();
    ItemKeyPresentIffSet(AsDict(p), i);
  }

  /** `KeyPresentIffSet` for any item list with distinct keys. */
  lemma ItemKeyPresentIffSet(items: seq<(string, Option<Value>)>, i: nat)
    requires DistinctKeys(items) && i < |items|
    ensures items[i].0 in Keys(Entries(items)) <==> items[i].1.Some?
    ensures items[i].1.Some? ==> (items[i].0, Str(items[i].1.value)) in Entries(items)
  {
    var e, ix := Entries(items), PresentIndices(items);
    EntriesAreOrderedFilter(items);
    if items[i].1.Some? {
      var t :| 0 <= t < |ix| && ix[t] == i;
      assert e[t] == (items[i].0, Str(items[i].1.value));
      assert Keys(e)[t] == items[i].0;
    }
    if items[i].0 in Keys(e) {
      var t :| 0 <= t < |e| && Keys(e)[t] == items[i].0;
      assert items[ix[t]].0 == items[i].0;
    }
  }

  /** A job whose parameters are all None gets a section with no entries. */
  lemma {:induction false} AllNoneNoEntries(items: seq<(string, Option<Value>)>)
    requires forall i :: 0 <= i < |items| ==> items[i].1.None?
    ensures Entries(items) == []
    decreases |items|
  {
    if items != [] {
      AllNoneNoEntries(items[..|items| - 1]);
    }
  }

  lemma DefaultJobEmptySection(name: string)
    ensures Configure([FioJob(name, NoParams)]) == [Section(name, [])]
  {
    AllNoneNoEntries(AsDict(NoParams));
    assert [FioJob(name, NoParams)][..0] == [];
  }

  /**
    With distinct job names there is one section per job, in job-list
    order, named by the job and holding that job's entries.
   */
  lemma {:induction false} ConfigureDistinctNames(jobs: seq<FioJob>)
    requires forall a, b :: 0 <= a < b < |jobs| ==> jobs[a].name != jobs[b].name
    ensures |Configure(jobs)| == |jobs|
    ensures forall i :: 0 <= i < |jobs| ==>
      Configure(jobs)[i] == Section(jobs[i].name, JobEntries(jobs[i].params))
    decreases |jobs|
  {
    if jobs != [] {
      var front, last := jobs[..|jobs| - 1], jobs[|jobs| - 1];
      ConfigureDistinctNames(front);
      var prev := Configure(front);
      assert forall t :: 0 <= t < |prev| ==> prev[t].name == jobs[t].name;
      NewSectionAppended(prev, last.name, JobEntries(last.params));
      var cfg := Configure(jobs);
      assert cfg == prev + [Section(last.name, JobEntries(last.params))];
      forall i | 0 <= i < |jobs| ensures cfg[i] == Section(jobs[i].name, JobEntries(jobs[i].params)) {
        if i < |front| {
          assert cfg[i] == prev[i] && front[i] == jobs[i];
        }
      }
    }
  }

  /** Putting a section under a new name appends it. */
  lemma NewSectionAppended(cfg: seq<Section>, name: string, entries: seq<(string, string)>)
    requires forall t :: 0 <= t < |cfg| ==> cfg[t].name != name
    ensures PutSection(cfg, name, entries) == cfg + [Section(name, entries)]
  {
    assert SectionIndex(cfg, name) == |cfg|;
  }

  /**
    Jobs sharing a name share one section, which holds the entries of the
    last job with that name: each `cfg[name] = {}` empties what an earlier
    job set.
   */
  lemma {:induction false} LastJobOfNameWins(jobs: seq<FioJob>, i: nat)
    requires i < |jobs|
    requires forall later :: i < later < |jobs| ==> jobs[later].name != jobs[i].name
    ensures var cfg := Configure(jobs);
      && SectionIndex(cfg, jobs[i].name) < |cfg|
      && cfg[SectionIndex(cfg, jobs[i].name)] == Section(jobs[i].name, JobEntries(jobs[i].params))
    decreases |jobs|
  {
    var front, last := jobs[..|jobs| - 1], jobs[|jobs| - 1];
    if i < |jobs| - 1 {
      LastJobOfNameWins(front, i);
      ConfigureSections(front);
      var name := jobs[i].name;
      var prev := Configure(front);
      var k := SectionIndex(prev, name);
      var cfg := Configure(jobs);
      assert cfg == PutSection(prev, last.name, JobEntries(last.params));
      assert cfg[k] == prev[k];
      assert SectionIndex(cfg, name) == k;
    }
  }

  /**
    Two jobs with the same name share one section: it stays where the first
    job put it and holds only the second job's entries.
   */
  lemma LaterJobWins(first: FioJob, second: FioJob)
    requires first.name == second.name
    ensures Configure([first, second]) == [Section(first.name, JobEntries(second.params))]
  {
    assert [first, second][..1] == [first];
    assert [first][..0] == [];
    var one := Configure([first]);
    assert one == PutSection(Configure([]), first.name, JobEntries(first.params));
    assert SectionIndex([], first.name) == 0;
    assert one == [Section(first.name, JobEntries(first.params))];
    assert SectionIndex(one, second.name) == 0;
  }

  /** configparser's writer indents the continuation of a value spanning lines. */
  function Continued(v: string): string
  {
    if v == [] then []
    else (if v[0] == '\n' then "\n\t" else [v[0]]) + Continued(v[1..])
  }

  /**
    One entry as written with `space_around_delimiters=False`: a single-line
    value gives the line `key=value`, with nothing around the `=`.
   */
  function EntryLine(entry: (string, string)): (line: string)
    ensures NoBreaks(entry.1) ==> line == entry.0 + "=" + entry.1
    ensures NoBreaks(entry.0) && NoBreaks(entry.1) ==> NoBreaks(line)
  {
    SingleLineEntry(entry.0, entry.1);
    entry.0 + "=" + Continued(entry.1)
  }

  /** A single-line value is written unchanged, and with a single-line key the line has no break. */
  lemma SingleLineEntry(key: string, value: string)
    ensures NoBreaks(value) ==> Continued(value) == value
    ensures NoBreaks(key) && NoBreaks(value) ==> NoBreaks(key + "=" + value)
  {
    if NoBreaks(value) {
      ContinuedSingleLine(value);
      var line := key + "=" + value;
      assert forall i :: 0 <= i < |key| ==> line[i] == key[i];
      assert forall i :: |key| < i < |line| ==> line[i] == value[i - |key| - 1];
    }
  }

  function EntryLines(entries: seq<(string, string)>): seq<string>
  {
    seq(|entries|, i requires 0 <= i < |entries| => EntryLine(entries[i]))
  }

  /** The lines written for one section: header, entries, then a blank line. */
  function SectionLines(s: Section): seq<string>
  {
    ["[" + s.name + "]"] + EntryLines(s.entries) + [""]
  }

  function ConfigLines(cfg: seq<Section>): seq<string>
  {
    if cfg == [] then [] else ConfigLines(cfg[..|cfg| - 1]) + SectionLines(cfg[|cfg| - 1])
  }

  /**
    The text `cfg.write(temp, space_around_delimiters=False)` produces. When
    no name, key or value spans lines, reading it back line by line gives,
    for each section in order, its `[name]` header, one line per entry and
    a blank line.
   */
  function ConfigText(cfg: seq<Section>): (text: string)
    ensures SingleLineSections(cfg) ==> SplitLines(text) == ConfigLines(cfg)
  {
    ConfigTextReadsBack(cfg);
    Terminated(ConfigLines(cfg))
  }

  /** The lines written, each followed by "\n", read back as those lines when nothing spans lines. */
  lemma ConfigTextReadsBack(cfg: seq<Section>)
    ensures SingleLineSections(cfg) ==> SplitLines(Terminated(ConfigLines(cfg))) == ConfigLines(cfg)
  {
    if SingleLineSections(cfg) {
      ConfigLinesSingle(cfg);
      SplitTerminated(ConfigLines(cfg));
    }
  }

  predicate SingleLineSections(cfg: seq<Section>)
  {
    forall s :: s in cfg ==>
      NoBreaks(s.name) &&
      forall e :: e in s.entries ==> NoBreaks(e.0) && NoBreaks(e.1)
  }

  lemma {:induction false} ContinuedSingleLine(v: string)
    requires NoBreaks(v)
    ensures Continued(v) == v
    decreases |v|
  {
    if v != [] {
      ContinuedSingleLine(v[1..]);
    }
  }

  lemma {:induction false} ConfigLinesSingle(cfg: seq<Section>)
    requires SingleLineSections(cfg)
    ensures forall i :: 0 <= i < |ConfigLines(cfg)| ==> NoBreaks(ConfigLines(cfg)[i])
    decreases |cfg|
  {
    if cfg != [] {
      var front, s := cfg[..|cfg| - 1], cfg[|cfg| - 1];
      ConfigLinesSingle(front);
      var header := "[" + s.name + "]";
      assert NoBreaks(header) by {
        assert forall i :: 1 <= i < |header| - 1 ==> header[i] == s.name[i - 1];
      }
      var lines := SectionLines(s);
      forall i | 0 <= i < |lines| ensures NoBreaks(lines[i]) {
        if 0 < i < |lines| - 1 {
          assert lines[i] == EntryLine(s.entries[i - 1]);
        }
      }
    }
  }

  // ---- The configuration as written: the default interpolation check ----

  /** `value.replace('%%', '')`, left to right without overlaps. */
  function WithoutEscapedPercent(s: string): (r: string)
    ensures '%' !in s ==> r == s
  {
    if s == [] then []
    else if |s| >= 2 && s[0] == '%' && s[1] == '%' then WithoutEscapedPercent(s[2..])
    else [s[0]] + WithoutEscapedPercent(s[1..])
  }

  /** Index of the first `c` at or after `from`, or |s|. */
  function IndexOfChar(s: string, c: char, from: nat): (n: nat)
    requires from <= |s|
    ensures from <= n <= |s|
    ensures n < |s| ==> s[n] == c
    ensures forall j :: from <= j < n ==> s[j] != c
    decreases |s| - from
  {
    if from == |s| || s[from] == c then from else IndexOfChar(s, c, from + 1)
  }

  /**
    Removes every match of the reference pattern `%\(([^)]+)\)s`, scanning
    from the left as `re.sub` does.
   */
  function WithoutReferences(s: string): (r: string)
    ensures '%' !in s ==> r == s
    decreases |s|
  {
    if s == [] then []
    else if |s| >= 2 && s[0] == '%' && s[1] == '(' then
      var close := IndexOfChar(s, ')', 2);
      if 2 < close && close + 1 < |s| && s[close + 1] == 's' then WithoutReferences(s[close + 2..])
      else [s[0]] + WithoutReferences(s[1..])
    else [s[0]] + WithoutReferences(s[1..])
  }

  /** The check `BasicInterpolation.before_set` makes of every value set. */
  predicate InterpolationSyntaxOk(value: string)
  {
    '%' !in WithoutReferences(WithoutEscapedPercent(value))
  }

  /**
    `write_jobs_to_file` with the default `ConfigParser()`: setting any value
    whose `%` is neither `%%` nor part of a `%(name)s` reference raises
    ValueError before anything is written.
   */
  function ConfigureAsWritten(jobs: seq<FioJob>): (r: Result<seq<Section>, Exception>)
    ensures r.Success? ==> r.value == Configure(jobs)
    ensures r.Failure? ==> r.error == ValueError
    ensures (forall j, e :: j in jobs && e in JobEntries(j.params) ==> '%' !in e.1) ==> r.Success?
    ensures (exists j, e :: j in jobs && e in JobEntries(j.params) && EndsInLonePercent(e.1)) ==> r.Failure?
  {
    LonePercentRejected();
    if forall j, e :: j in jobs && e in JobEntries(j.params) ==> InterpolationSyntaxOk(e.1)
    then Success(Configure(jobs))
    else Failure(ValueError)
  }

  /** The value ends in a `%` that is not the second half of `%%`, as a percentage does. */
  predicate EndsInLonePercent(s: string)
  {
    |s| >= 1 && s[|s| - 1] == '%' && (|s| == 1 || s[|s| - 2] != '%')
  }

  /** Every value ending in a lone `%`, such as a percentage size, fails the interpolation check. */
  lemma LonePercentRejected()
    ensures forall s :: EndsInLonePercent(s) ==> !InterpolationSyntaxOk(s)
  {
    forall s | EndsInLonePercent(s) ensures !InterpolationSyntaxOk(s) {
      EscapesKeepLonePercent(s);
      ReferencesKeepFinalPercent(WithoutEscapedPercent(s));
      var r := WithoutReferences(WithoutEscapedPercent(s));
      assert r[|r| - 1] == '%';
    }
  }

  /** Removing `%%` pairs leaves a final lone `%` at the end. */
  lemma {:induction false} EscapesKeepLonePercent(s: string)
    requires EndsInLonePercent(s)
    ensures var r := WithoutEscapedPercent(s); |r| >= 1 && r[|r| - 1] == '%'
    decreases |s|
  {
    if |s| >= 2 {
      var rest := if s[0] == '%' && s[1] == '%' then s[2..] else s[1..];
      assert rest[|rest| - 1] == s[|s| - 1];
      assert |rest| >= 2 ==> rest[|rest| - 2] == s[|s| - 2];
      EscapesKeepLonePercent(rest);
    }
  }

  /** Removing `%(name)s` references keeps a final `%`, since a reference ends in `s`. */
  lemma {:induction false} ReferencesKeepFinalPercent(s: string)
    requires |s| >= 1 && s[|s| - 1] == '%'
    ensures var r := WithoutReferences(s); |r| >= 1 && r[|r| - 1] == '%'
    decreases |s|
  {
    if |s| >= 2 {
      var rest := ReferenceStep(s);
      ReferencesKeepFinalPercent(rest);
    }
  }

  /**
    One step of the reference removal on a text of two or more characters
    ending in `%`: what remains to scan still ends in that `%`.
   */
  lemma ReferenceStep(s: string) returns (rest: string)
    requires |s| >= 2 && s[|s| - 1] == '%'
    ensures 1 <= |rest| < |s| && rest[|rest| - 1] == '%'
    ensures WithoutReferences(s) == WithoutReferences(rest)
         || WithoutReferences(s) == [s[0]] + WithoutReferences(rest)
  {
    if s[0] == '%' && s[1] == '(' {
      var close := IndexOfChar(s, ')', 2);
      if 2 < close && close + 1 < |s| && s[close + 1] == 's' {
        rest := s[close + 2..];
        return;
      }
    }
    rest := s[1..];
  }

  /**
    Any job list in which some job's size is a percentage fails as written
    with ValueError, whatever else it holds.
   */
  lemma PercentageSizeAlwaysRejected(jobs: seq<FioJob>, i: nat, v: string)
    requires i < |jobs| && jobs[i].params.size == Some(v) && EndsInLonePercent(v)
    ensures ConfigureAsWritten(jobs) == Failure(ValueError)
  {
    var p := jobs[i].params;
    KeyPresentIffSet(p, 0);
    assert AsDict(p)[0].1 == Some(Text(v));
    assert jobs[i] in jobs;
    assert ("size", v) in JobEntries(p);
  }

  /** A job that sets only `size` gets the single entry `size=<value>`. */
  lemma OnlySizeEntries(v: string)
    ensures JobEntries(NoParams.(size := Some(v))) == [("size", v)]
  {
    var items := AsDict(NoParams.(size := Some(v)));
    assert items[..1][..0] == [];
    assert Entries(items[..1]) == [("size", v)];
    TailNoneKeepsEntries(items, 1);
  }

  lemma PercentFailsInterpolation()
    ensures !InterpolationSyntaxOk("20%")
  {
    assert WithoutEscapedPercent("%") == "%";
    assert WithoutEscapedPercent("0%") == "0%";
    assert WithoutEscapedPercent("20%") == "20%";
    assert WithoutReferences("%") == "%";
    assert WithoutReferences("0%") == "0%";
    assert WithoutReferences("20%") == "20%";
  }

  /**
    A size given as a percentage, as fio allows, is refused with ValueError
    by the code as written, while the intended configuration holds it as is.
   */
  lemma PercentSizeRejected(name: string)
    ensures var job := FioJob(name, NoParams.(size := Some("20%")));
      && ConfigureAsWritten([job]) == Failure(ValueError)
      && Configure([job]) == [Section(name, [("size", "20%")])]
  {
    var job := FioJob(name, NoParams.(size := Some("20%")));
    OnlySizeEntries("20%");
    PercentFailsInterpolation();
    assert ("size", "20%") in JobEntries(job.params);
    assert job in [job];
    assert [job][..0] == [];
  }

  lemma {:induction false} TailNoneKeepsEntries(items: seq<(string, Option<Value>)>, k: nat)
    requires k <= |items|
    requires forall i :: k <= i < |items| ==> items[i].1.None?
    ensures Entries(items) == Entries(items[..k])
    decreases |items| - k
  {
    if k < |items| {
      TailNoneKeepsEntries(items, k + 1);
      assert items[..k + 1][..k] == items[..k];
    } else {
      assert items[..k] == items;
    }
  }
}
