/**
 run_bench.sh: the status of one row, the two counts it reads back from the comparison's
 output, and the exit code of the whole run.
 */
module Bench {
  import opened Wrappers
  import opened Text
  import opened Reports
  import opened ConeCompare
  import opened Sublists
  import CallerChoice

  // ---------- the first line of the comparison's output ----------

  /** One `name=number` item of the line. */
  function Entry(name: string, n: nat): string {
    name + (['='] + Decimal(n))
  }

  /** compare_cone_reports.py, lines 53-56. */
  function SummaryLine(v: Verdict): string {
    Entry("inc", v.inc) + " " + Entry("scratch", v.scratch) + " " + Entry("cone", v.cone) + " "
    + Entry("invented", v.invented) + " " + Entry("missing", v.missing) + " " + Entry("workset", v.workset)
  }

  function NonEmpty(pieces: seq<string>): seq<string> {
    if pieces == [] then []
    else (if pieces[0] == "" then [] else [pieces[0]]) + NonEmpty(pieces[1..])
  }

  /** awk '{print $k}'. */
  function AwkField(line: string, k: nat): string
    requires k >= 1
  {
    var fields := NonEmpty(Split(line, ' '));
    if k <= |fields| then fields[k - 1] else ""
  }

  /** cut -d= -f2: a line without the delimiter is passed through. */
  function CutValue(s: string): string {
    var pieces := Split(s, '=');
    if |pieces| == 1 then s else pieces[1]
  }

  /** Lines 95-96: field `k` of the first line, after its `=`. */
  function ReadBack(output: string, k: nat): string
    requires k >= 1
  {
    CutValue(AwkField(Split(output, '\n')[0], k))
  }

  predicate Plain(s: string) {
    s != "" && ' ' !in s && '\n' !in s
  }

  lemma NumberPlain(n: nat)
    ensures ' ' !in Decimal(n) && '\n' !in Decimal(n) && '=' !in Decimal(n)
  {
    assert !IsDigit(' ') && !IsDigit('\n') && !IsDigit('=');
  }

  lemma EntryPlain(name: string, n: nat)
    requires ' ' !in name && '\n' !in name
    ensures Plain(Entry(name, n))
  {
    NumberPlain(n);
  }

  lemma EntryReads(name: string, n: nat)
    requires '=' !in name
    ensures CutValue(Entry(name, n)) == Decimal(n)
  {
    NumberPlain(n);
    SplitFirst(name, Decimal(n), '=');
    SplitOnePiece(Decimal(n), '=');
  }

  /** Items joined by single blanks. */
  function Joined(items: seq<string>): string
    requires items != []
  {
    if |items| == 1 then items[0] else items[0] + ([' '] + Joined(items[1..]))
  }

  lemma {:induction false} JoinedSplits(items: seq<string>)
    requires items != [] && forall s :: s in items ==> Plain(s)
    ensures Split(Joined(items), ' ') == items && NonEmpty(items) == items && '\n' !in Joined(items)
  {
    assert Plain(items[0]);
    if |items| == 1 {
      SplitOnePiece(items[0], ' ');
      assert NonEmpty(items[1..]) == [];
    } else {
      JoinedSplits(items[1..]);
      SplitFirst(items[0], Joined(items[1..]), ' ');
    }
  }

  lemma JoinedOfSix(a: string, b: string, c: string, d: string, e: string, f: string)
    ensures Joined([a, b, c, d, e, f]) == a + " " + b + " " + c + " " + d + " " + e + " " + f
  {
    assert [e, f][1..] == [f] && [d, e, f][1..] == [e, f] && [c, d, e, f][1..] == [d, e, f];
    assert [b, c, d, e, f][1..] == [c, d, e, f] && [a, b, c, d, e, f][1..] == [b, c, d, e, f];
    var ef := e + ([' '] + f);
    assert Joined([f]) == f && Joined([e, f]) == ef;
    var cdef := c + ([' '] + (d + ([' '] + ef)));
    assert Joined([c, d, e, f]) == cdef == c + " " + d + " " + e + " " + f;
    assert Joined([a, b, c, d, e, f]) == a + ([' '] + (b + ([' '] + cdef)));
  }

  /** The fields of the first line of six joined entries, when other lines follow. */
  lemma FieldsOfSix(items: seq<string>, details: string)
    requires |items| == 6 && forall s :: s in items ==> Plain(s)
    ensures forall k :: 1 <= k <= 6 ==>
              AwkField(Split(Joined(items) + (['\n'] + details), '\n')[0], k) == items[k - 1]
  {
    JoinedSplits(items);
    SplitFirst(Joined(items), details, '\n');
  }

  /** The six entries in the order in which they are printed. */
  function Printed(v: Verdict): seq<string> {
    [Entry("inc", v.inc), Entry("scratch", v.scratch), Entry("cone", v.cone),
     Entry("invented", v.invented), Entry("missing", v.missing), Entry("workset", v.workset)]
  }

  lemma EntriesPlain(v: Verdict)
    ensures Plain(Entry("inc", v.inc)) && Plain(Entry("scratch", v.scratch)) && Plain(Entry("cone", v.cone))
    ensures Plain(Entry("invented", v.invented)) && Plain(Entry("missing", v.missing)) &&
            Plain(Entry("workset", v.workset))
  {
    EntryPlain("inc", v.inc);
    EntryPlain("scratch", v.scratch);
    EntryPlain("cone", v.cone);
    EntryPlain("invented", v.invented);
    EntryPlain("missing", v.missing);
    EntryPlain("workset", v.workset);
  }

  /** The output of a comparison: its first line, then any details. */
  function Output(v: Verdict, details: string): string {
    SummaryLine(v) + (['\n'] + details)
  }

  lemma LineIsJoined(v: Verdict)
    ensures SummaryLine(v) == Joined(Printed(v)) && forall entry :: entry in Printed(v) ==> Plain(entry)
  {
    EntriesPlain(v);
    JoinedOfSix(Entry("inc", v.inc), Entry("scratch", v.scratch), Entry("cone", v.cone),
                Entry("invented", v.invented), Entry("missing", v.missing), Entry("workset", v.workset));
  }

  lemma FieldsReadBack(v: Verdict, details: string)
    ensures forall k :: 1 <= k <= 6 ==> AwkField(Split(Output(v, details), '\n')[0], k) == Printed(v)[k - 1]
  {
    LineIsJoined(v);
    FieldsOfSix(Printed(v), details);
  }

  /** For all counts and whatever lines follow, the first line has the six entries as its fields, and the
      shell reads back exactly the numbers of invented and missing traces that the comparison printed. */
  lemma CountsReadBack(v: Verdict, details: string)
    ensures forall k :: 1 <= k <= 6 ==> AwkField(Split(Output(v, details), '\n')[0], k) == Printed(v)[k - 1]
    ensures ReadBack(Output(v, details), 4) == Decimal(v.invented) && Value(Decimal(v.invented)) == v.invented
    ensures ReadBack(Output(v, details), 5) == Decimal(v.missing) && Value(Decimal(v.missing)) == v.missing
  {
    FieldsReadBack(v, details);
    var line := Split(Output(v, details), '\n')[0];
    assert AwkField(line, 4) == Printed(v)[3] && AwkField(line, 5) == Printed(v)[4];
    EntryReads("invented", v.invented);
    EntryReads("missing", v.missing);
    DecimalValue(v.invented);
    DecimalValue(v.missing);
  }

  /** Without output both fields are empty. */
  lemma NothingReadBack()
    ensures ReadBack("", 4) == "" && ReadBack("", 5) == ""
  {
    assert Split("", '\n') == [""] && Split("", ' ') == [""];
    assert NonEmpty([""]) == NonEmpty([""][1..]) == [];
    assert Split("", '=') == [""];
  }

  // ---------- one row ----------

  datatype Status = Ok | NoConeBug | StoreFail | Err | NoWorkset | ReportMismatch | LoadFail

  /** What running one sample produced: the two exit codes, the log fields as text, and the
      files the comparison is given (None: not there, or not readable as a report), and the lines
      the comparison prints after its first one. */
  datatype Sample = Sample(name: string, incRc: int, scrRc: int, loaded: string, recheck: string,
                           workset: Option<seq<string>>, inc: Option<Report>, scratch: Option<Report>,
                           details: string)

  datatype Row = Row(sample: string, loaded: string, recheck: string, invented: string, missing: string,
                     mutated: string, status: Status)

  /** The functions named in a work-set file. */
  function WorkNames(lines: seq<string>): set<string> {
    set line | line in lines && NamesFunction(line) :: Strip(line)
  }

  /** Both reports are there and agree inside the work set. */
  ghost predicate SampleAgrees(s: Sample) {
    && Compared(s)
    && Agrees(AllBugs(s.inc.value.bugTypes), AllBugs(s.scratch.value.bugTypes), WorkNames(s.workset.value))
  }

  /** Both reports could be read. */
  predicate Compared(s: Sample) {
    s.workset.Some? && s.inc.Some? && s.scratch.Some?
  }

  /** How many incremental traces the scratch report does not have, in decimal. */
  function Invented(s: Sample): string
    requires Compared(s)
  {
    Decimal(|ToSet(AllBugs(s.inc.value.bugTypes)) - ToSet(AllBugs(s.scratch.value.bugTypes))|)
  }

  /** How many scratch traces of the cone the incremental report does not have, in decimal. */
  function Missing(s: Sample): string
    requires Compared(s)
  {
    Decimal(|Cone(AllBugs(s.scratch.value.bugTypes), WorkNames(s.workset.value)) -
      ToSet(AllBugs(s.inc.value.bugTypes))|)
  }

  /** The comparison script as the shell sees it: its output and exit code.  A report that cannot
      be read ends it with an error and no output. */
  method CompareScript(s: Sample) returns (output: string, rc: int)
    requires s.workset.Some?
    ensures rc == 0 <==> SampleAgrees(s)
    ensures Compared(s) ==> ReadBack(output, 4) == Invented(s) && ReadBack(output, 5) == Missing(s)
    ensures !Compared(s) ==> output == ""
  {
    if s.inc.None? || s.scratch.None? {
      return "", 1;
    }
    var inc := Bugs(s.inc.value);
    var scratch := Bugs(s.scratch.value);
    var work := LoadWorkset(s.workset.value);
    var v := Compare(inc, scratch, work);
    CountsReadBack(v, s.details);
    return Output(v, s.details), v.rc;
  }

  /** Every field of the status decision: what a row with status ok stands for. */
  ghost predicate Good(s: Sample) {
    s.incRc == 0 && s.scrRc == 0 && SampleAgrees(s) && s.loaded != "0" && s.recheck in {"", "0"}
  }

  predicate Passing(status: Status) {
    status in {Ok, NoConeBug}
  }

  /** The row of one sample. */
  ghost function RowOf(s: Sample, name: string, mutated: string): Row {
    if s.incRc != 0 || s.scrRc != 0 then Row(name, s.loaded, s.recheck, "0", "0", mutated, Err)
    else if s.workset.None? then Row(name, s.loaded, s.recheck, "0", "0", mutated, NoWorkset)
    else
      var status := if Good(s) then Ok else if SampleAgrees(s) then LoadFail else ReportMismatch;
      if Compared(s) then Row(name, s.loaded, s.recheck, Invented(s), Missing(s), mutated, status)
      else Row(name, s.loaded, s.recheck, "?", "?", mutated, status)
  }

  /** Both runs of the sample exited with 0. */
  predicate BothRan(s: Sample) {
    s.incRc == 0 && s.scrRc == 0
  }

  /** The two reports are there, no incremental trace is new, and those that touch the work set are the same. */
  ghost predicate SameInCone(s: Sample) {
    s.workset.Some? && s.inc.Some? && s.scratch.Some? &&
    var inc, scratch := AllBugs(s.inc.value.bugTypes), AllBugs(s.scratch.value.bugTypes);
    && (forall bug :: bug in inc ==> bug in scratch)
    && (forall bug :: bug in scratch && Touches(bug, WorkNames(s.workset.value)) ==> bug in inc)
  }

  /** The status of a row, case by case. */
  ghost predicate IsStatusOf(status: Status, s: Sample) {
    && (status == Err <==> !BothRan(s))
    && (status == NoWorkset <==> BothRan(s) && s.workset.None?)
    && (status == ReportMismatch <==> BothRan(s) && s.workset.Some? && !SameInCone(s))
    && (status == LoadFail <==> BothRan(s) && SameInCone(s) && (s.loaded == "0" || s.recheck !in {"", "0"}))
    && (status == Ok <==> BothRan(s) && SameInCone(s) && s.loaded != "0" && s.recheck in {"", "0"})
  }

  /** The two counts of a row: 0 without a comparison, `?` when it could not read a report, and
      otherwise how many traces only the incremental report has, and how many of the cone it lacks. */
  ghost predicate AreCountsOf(invented: string, missing: string, s: Sample) {
    if !BothRan(s) || s.workset.None? then invented == missing == "0"
    else if s.inc.None? || s.scratch.None? then invented == missing == "?"
    else
      var inc, scratch := AllBugs(s.inc.value.bugTypes), AllBugs(s.scratch.value.bugTypes);
      var work := WorkNames(s.workset.value);
      && invented == Decimal(|set bug | bug in inc && bug !in scratch|)
      && missing == Decimal(|set bug | bug in scratch && Touches(bug, work) && bug !in inc|)
  }

  /** What the row of a sample holds. */
  ghost predicate IsRowOf(row: Row, s: Sample, name: string, mutated: string) {
    && row.sample == name && row.loaded == s.loaded && row.recheck == s.recheck && row.mutated == mutated
    && AreCountsOf(row.invented, row.missing, s) && IsStatusOf(row.status, s)
  }

  lemma AgreesInCone(s: Sample)
    ensures SampleAgrees(s) <==> SameInCone(s)
  {
    if Compared(s) {
      var inc, scratch := AllBugs(s.inc.value.bugTypes), AllBugs(s.scratch.value.bugTypes);
      AgreesIff(inc, scratch, WorkNames(s.workset.value));
      assert ToSet(inc) - ToSet(scratch) == {} <==> forall bug :: bug in inc ==> bug in scratch by {
        assert forall bug :: bug in ToSet(inc) - ToSet(scratch) <==> bug in inc && bug !in scratch;
      }
      assert Cone(scratch, WorkNames(s.workset.value)) - ToSet(inc) == {} <==>
             forall bug :: bug in scratch && Touches(bug, WorkNames(s.workset.value)) ==> bug in inc by {
        assert forall bug :: bug in Cone(scratch, WorkNames(s.workset.value)) - ToSet(inc) <==>
                 bug in scratch && Touches(bug, WorkNames(s.workset.value)) && bug !in inc;
      }
    }
  }

  lemma CountsAre(s: Sample)
    requires Compared(s)
    ensures BothRan(s) ==> AreCountsOf(Invented(s), Missing(s), s)
  {
    var inc, scratch := AllBugs(s.inc.value.bugTypes), AllBugs(s.scratch.value.bugTypes);
    var work := WorkNames(s.workset.value);
    assert ToSet(inc) - ToSet(scratch) == set bug | bug in inc && bug !in scratch;
    assert Cone(scratch, work) - ToSet(inc) == set bug | bug in scratch && Touches(bug, work) && bug !in inc;
  }

  lemma StatusIs(s: Sample, name: string, mutated: string, status: Status)
    ensures status == RowOf(s, name, mutated).status <==> IsStatusOf(status, s)
  {
    AgreesInCone(s);
  }

  lemma RowCounts(s: Sample, name: string, mutated: string)
    ensures AreCountsOf(RowOf(s, name, mutated).invented, RowOf(s, name, mutated).missing, s)
  {
    if Compared(s) {
      CountsAre(s);
    }
  }

  lemma CountsAreOne(s: Sample, a: string, b: string, c: string, d: string)
    requires AreCountsOf(a, b, s) && AreCountsOf(c, d, s)
    ensures a == c && b == d
  {}

  /** A sample has exactly one row under a name. */
  lemma RowIs(s: Sample, name: string, mutated: string, row: Row)
    ensures row == RowOf(s, name, mutated) <==> IsRowOf(row, s, name, mutated)
  {
    var full := RowOf(s, name, mutated);
    StatusIs(s, name, mutated, row.status);
    RowCounts(s, name, mutated);
    if AreCountsOf(row.invented, row.missing, s) {
      CountsAreOne(s, row.invented, row.missing, full.invented, full.missing);
    }
  }

  /** The counts read back, and the exit code: lines 92-96. */
  method CompareOne(s: Sample) returns (invented: string, missing: string, rc: int)
    requires s.workset.Some?
    ensures rc == 0 <==> SampleAgrees(s)
    ensures (invented, missing) == if Compared(s) then (Invented(s), Missing(s)) else ("", "")
  {
    var output;
    output, rc := CompareScript(s);
    NothingReadBack();
    invented, missing := ReadBack(output, 4), ReadBack(output, 5);
  }

  /** The status decision, lines 85-108, the row of line 110, and whether FAIL is set. */
  method Judge(s: Sample, name: string, mutated: string) returns (row: Row, failed: bool)
    ensures row == RowOf(s, name, mutated)
    ensures IsRowOf(row, s, name, mutated)
    ensures failed <==> row.status !in {Ok, NoConeBug}
  {
    var invented, missing, status := "0", "0", Err;
    failed := true;
    if s.incRc != 0 || s.scrRc != 0 {
    } else if s.workset.None? {
      status := NoWorkset;
    } else {
      var rc;
      invented, missing, rc := CompareOne(s);
      if rc != 0 {
        status := ReportMismatch;
      } else if s.loaded == "0" || (if s.recheck == "" then "0" else s.recheck) != "0" {
        status := LoadFail;
      } else {
        status, failed := Ok, false;
      }
    }
    row := Row(name, s.loaded, s.recheck, if invented == "" then "?" else invented,
               if missing == "" then "?" else missing, mutated, status);
    RowIs(s, name, mutated, row);
  }

  // ---------- the run ----------

  /** One project directory: what the store run gave, the disassembled old.bc, whether a changed
      text assembles, the run on the changed caller, and the runs on the samples.  A report that
      cannot be read and a file that cannot be disassembled are None. */
  datatype ProjectRun = ProjectRun(wanted: bool, hasOld: bool, storeRc: int,
                                   storeReport: Option<Report>, oldText: Option<string>, assembles: string -> bool,
                                   caller: Sample, samples: seq<Sample>)

  /** The caller that was changed, when one was and the result assembled. */
  ghost function ChangedCaller(p: ProjectRun): Option<string> {
    if p.storeReport.None? || p.oldText.None? then None
    else
      var chosen := CallerChoice.Chosen(p.storeReport.value, p.oldText.value);
      if chosen.Some? && p.assembles(chosen.value.1) then Some(chosen.value.0) else None
  }

  /** The caller can be changed, and the changed text assembles. */
  ghost predicate IsChangedCaller(p: ProjectRun, caller: string) {
    && p.storeReport.Some? && p.oldText.Some?
    && exists changed ::
         CallerChoice.IsChange(Items(p.storeReport.value.bugTypes), p.oldText.value, caller, changed)
         && p.assembles(changed)
  }

  lemma ChangedCallerIs(p: ProjectRun)
    ensures forall caller :: IsChangedCaller(p, caller) <==> ChangedCaller(p) == Some(caller)
  {
    if p.storeReport.Some? && p.oldText.Some? {
      forall caller, changed
        ensures CallerChoice.IsChange(Items(p.storeReport.value.bugTypes), p.oldText.value, caller, changed) <==>
                  CallerChoice.Chosen(p.storeReport.value, p.oldText.value) == Some((caller, changed))
      {
        CallerChoice.ChosenIs(p.storeReport.value, p.oldText.value, caller, changed);
      }
    }
  }

  /** make_caller_bc.py as the shell sees it. */
  method ChangeCaller(p: ProjectRun) returns (mutated: Option<string>)
    ensures mutated == ChangedCaller(p)
    ensures forall caller :: IsChangedCaller(p, caller) <==> mutated == Some(caller)
  {
    ChangedCallerIs(p);
    if p.storeReport.None? || p.oldText.None? {
      return None;
    }
    var outcome := CallerChoice.ChangeOneCaller(p.storeReport.value, p.oldText.value);
    ghost var items := Items(p.storeReport.value.bugTypes);
    if outcome.Mutated? {
      CallerChoice.ChosenIs(p.storeReport.value, p.oldText.value, outcome.caller, outcome.text);
    } else {
      CallerChoice.NoneIsChosen(p.storeReport.value, p.oldText.value);
    }
    if outcome.Mutated? && p.assembles(outcome.text) {
      return Some(outcome.caller);
    }
    return None;
  }

  /** The rows of the samples other than old.bc. */
  ghost function SampleRows(samples: seq<Sample>): seq<Row> {
    if samples == [] then []
    else
      var last := samples[|samples| - 1];
      SampleRows(samples[..|samples| - 1]) + OwnRow(last)
  }

  ghost function OwnRow(s: Sample): seq<Row> {
    if s.name == "old" then [] else [RowOf(s, s.name, "-")]
  }

  function BareRow(name: string, status: Status): Row {
    Row(name, "-", "-", "-", "-", "-", status)
  }

  /** The rows a project writes. */
  ghost function ProjectRows(p: ProjectRun): seq<Row> {
    if !p.wanted || !p.hasOld then []
    else if p.storeRc != 0 then [BareRow("old", StoreFail)]
    else StoredRows(p)
  }

  ghost function StoredRows(p: ProjectRun): seq<Row> {
    [CallerRow(p)] + SampleRows(p.samples)
  }

  ghost function CallerRow(p: ProjectRun): Row {
    var mutated := ChangedCaller(p);
    if mutated.Some? then RowOf(p.caller, "caller", mutated.value) else BareRow("caller", NoConeBug)
  }

  ghost function AllRows(projects: seq<ProjectRun>): seq<Row> {
    if projects == [] then []
    else AllRows(projects[..|projects| - 1]) + ProjectRows(projects[|projects| - 1])
  }

  predicate AllPass(rows: seq<Row>) {
    forall i :: 0 <= i < |rows| ==> Passing(rows[i].status)
  }

  lemma AllPassOne(row: Row)
    ensures AllPass([row]) <==> Passing(row.status)
  {
    assert AllPass([row]) ==> Passing([row][0].status);
  }

  lemma AllPassConcat(a: seq<Row>, b: seq<Row>)
    ensures AllPass(a + b) <==> AllPass(a) && AllPass(b)
  {
    if AllPass(a + b) {
      forall i | 0 <= i < |a| ensures Passing(a[i].status) { assert (a + b)[i] == a[i]; }
      forall i | 0 <= i < |b| ensures Passing(b[i].status) { assert (a + b)[|a| + i] == b[i]; }
    }
  }

  /** What a project must have done for the run to succeed. */
  ghost predicate ProjectGood(p: ProjectRun) {
    p.wanted && p.hasOld ==>
      && p.storeRc == 0
      && (ChangedCaller(p).Some? ==> Good(p.caller))
      && SamplesGood(p.samples)
  }

  ghost predicate SamplesGood(samples: seq<Sample>) {
    forall s :: s in samples && s.name != "old" ==> Good(s)
  }

  lemma OwnRowPasses(s: Sample)
    ensures AllPass(OwnRow(s)) <==> s.name == "old" || Good(s)
  {
    AllPassOne(RowOf(s, s.name, "-"));
  }

  lemma SamplesGoodPlus(rest: seq<Sample>, last: Sample)
    ensures SamplesGood(rest + [last]) <==> SamplesGood(rest) && (last.name == "old" || Good(last))
  {
    assert last in rest + [last];
    assert forall s :: s in rest ==> s in rest + [last];
  }

  lemma SampleRowsPlus(rest: seq<Sample>, last: Sample)
    ensures SampleRows(rest + [last]) == SampleRows(rest) + OwnRow(last)
  {
    assert (rest + [last])[..|rest|] == rest;
  }

  lemma {:induction false} SampleRowsPass(samples: seq<Sample>)
    ensures AllPass(SampleRows(samples)) <==> SamplesGood(samples)
  {
    if samples != [] {
      var rest, last := samples[..|samples| - 1], samples[|samples| - 1];
      assert samples == rest + [last];
      SampleRowsPass(rest);
      OwnRowPasses(last);
      SampleRowsPlus(rest, last);
      SamplesGoodPlus(rest, last);
      AllPassConcat(SampleRows(rest), OwnRow(last));
    }
  }

  lemma ProjectRowsPass(p: ProjectRun)
    ensures AllPass(ProjectRows(p)) <==> ProjectGood(p)
  {
    if p.wanted && p.hasOld {
      AllPassOne(BareRow("old", StoreFail));
      AllPassOne(CallerRow(p));
      SampleRowsPass(p.samples);
      AllPassConcat([CallerRow(p)], SampleRows(p.samples));
    }
  }

  ghost predicate AllGood(projects: seq<ProjectRun>) {
    forall p :: p in projects ==> ProjectGood(p)
  }

  lemma AllGoodPlus(rest: seq<ProjectRun>, last: ProjectRun)
    ensures AllGood(rest + [last]) <==> AllGood(rest) && ProjectGood(last)
  {
    assert last in rest + [last];
    assert forall p :: p in rest ==> p in rest + [last];
  }

  /** Every row passes exactly when every wanted project that has an old.bc was stored, and every
      comparison of its caller and its samples was good. */
  lemma {:induction false} AllRowsPass(projects: seq<ProjectRun>)
    ensures AllPass(AllRows(projects)) <==> AllGood(projects)
  {
    if projects != [] {
      var rest, last := projects[..|projects| - 1], projects[|projects| - 1];
      assert projects == rest + [last];
      AllRowsPass(rest);
      ProjectRowsPass(last);
      AllGoodPlus(rest, last);
      AllPassConcat(AllRows(rest), ProjectRows(last));
    }
  }

  lemma AppendTwice(a: seq<Row>, b: seq<Row>, c: seq<Row>)
    ensures (a + b) + c == a + (b + c)
  {}

  class Run {
    var rows: seq<Row>
    var fail: bool

    /** The sticky flag is set exactly when some row does not pass. */
    ghost predicate Valid()
      reads this
    {
      fail <==> !AllPass(rows)
    }

    constructor ()
      ensures Valid() && rows == []
    {
      rows, fail := [], false;
    }

    method Append(row: Row)
      requires fail <==> !Passing(row.status) || !AllPass(rows)
      modifies this`rows
      ensures Valid() && rows == old(rows) + [row]
    {
      AllPassOne(row);
      AllPassConcat(rows, [row]);
      rows := rows + [row];
    }

    /** bench_one, lines 81-111. */
    method BenchOne(s: Sample, name: string, mutated: string)
      requires Valid()
      modifies this
      ensures Valid() && rows == old(rows) + [RowOf(s, name, mutated)]
    {
      var row, failed := Judge(s, name, mutated);
      if failed {
        fail := true;
      }
      Append(row);
    }

    /** Lines 146-154: the changed caller. */
    method BenchCaller(p: ProjectRun)
      requires Valid()
      modifies this
      ensures Valid() && rows == old(rows) + [CallerRow(p)]
    {
      var mutated := ChangeCaller(p);
      if mutated.Some? {
        BenchOne(p.caller, "caller", mutated.value);
      } else {
        AllPassOne(BareRow("caller", NoConeBug));
        Append(BareRow("caller", NoConeBug));
      }
    }

    /** Lines 156-160: the samples. */
    method BenchSamples(samples: seq<Sample>)
      requires Valid()
      modifies this
      ensures Valid() && rows == old(rows) + SampleRows(samples)
    {
      for i := 0 to |samples|
        invariant Valid() && rows == old(rows) + SampleRows(samples[..i])
      {
        assert samples[..i + 1][..i] == samples[..i];
        if samples[i].name != "old" {
          BenchOne(samples[i], samples[i].name, "-");
        }
      }
      assert samples[..|samples|] == samples;
    }

    /** Lines 146-160: a project whose store run succeeded. */
    method BenchStored(p: ProjectRun)
      requires Valid()
      modifies this
      ensures Valid() && rows == old(rows) + StoredRows(p)
    {
      BenchCaller(p);
      BenchSamples(p.samples);
      AppendTwice(old(rows), [CallerRow(p)], SampleRows(p.samples));
    }

    /** Lines 118-162: one project directory. */
    method BenchProject(p: ProjectRun)
      requires Valid()
      modifies this
      ensures Valid() && rows == old(rows) + ProjectRows(p)
    {
      if !p.wanted || !p.hasOld { return; }
      if p.storeRc != 0 {
        fail := true;
        Append(BareRow("old", StoreFail));
        return;
      }
      BenchStored(p);
    }
  }

  // ---------- all rows, described ----------

  /** The row of the changed caller, or the one that says that there is none. */
  ghost predicate IsCallerRow(row: Row, p: ProjectRun) {
    if exists caller :: IsChangedCaller(p, caller)
    then exists caller :: IsChangedCaller(p, caller) && IsRowOf(row, p.caller, "caller", caller)
    else row == Row("caller", "-", "-", "-", "-", "-", NoConeBug)
  }

  /** A sample other than old.bc gives one row. */
  ghost function GivesRow(): (Sample, Row) -> bool {
    (s: Sample, row: Row) => s.name != "old" && IsRowOf(row, s, s.name, "-")
  }

  /** The rows of a project: none unless it is wanted and has an old.bc; one if its store fails; else
      that of its caller and those of its samples, in order. */
  ghost predicate AreProjectRows(rows: seq<Row>, p: ProjectRun) {
    if !p.wanted || !p.hasOld then rows == []
    else if p.storeRc != 0 then rows == [Row("old", "-", "-", "-", "-", "-", StoreFail)]
    else rows != [] && IsCallerRow(rows[0], p) && Sublist(rows[1..], p.samples, GivesRow())
  }

  /** The rows lie between consecutive cuts, project by project. */
  ghost predicate AreCut(rows: seq<Row>, projects: seq<ProjectRun>, cuts: seq<nat>) {
    && |cuts| == |projects| + 1 && cuts[0] == 0 && cuts[|projects|] == |rows|
    && forall i :: 0 <= i < |projects| ==> IsCut(rows, projects[i], cuts, i)
  }

  ghost predicate IsCut(rows: seq<Row>, p: ProjectRun, cuts: seq<nat>, i: nat)
    requires i + 1 < |cuts|
  {
    cuts[i] <= cuts[i + 1] <= |rows| && AreProjectRows(rows[cuts[i]..cuts[i + 1]], p)
  }

  ghost predicate AreRows(rows: seq<Row>, projects: seq<ProjectRun>) {
    exists cuts :: AreCut(rows, projects, cuts)
  }

  lemma {:induction false} SampleRowsAre(samples: seq<Sample>)
    ensures Sublist(SampleRows(samples), samples, GivesRow())
  {
    if samples == [] {
      SublistOfNone(GivesRow());
    } else {
      var rest, last := samples[..|samples| - 1], samples[|samples| - 1];
      assert samples == rest + [last];
      SampleRowsAre(rest);
      if last.name == "old" {
        SublistSkips(SampleRows(rest), rest, GivesRow(), last);
        assert SampleRows(samples) == SampleRows(rest);
      } else {
        RowIs(last, last.name, "-", RowOf(last, last.name, "-"));
        SublistGives(SampleRows(rest), rest, GivesRow(), last, RowOf(last, last.name, "-"));
      }
    }
  }

  lemma CallerRowIs(p: ProjectRun)
    ensures IsCallerRow(CallerRow(p), p)
  {
    ChangedCallerIs(p);
    if ChangedCaller(p).Some? {
      RowIs(p.caller, "caller", ChangedCaller(p).value, CallerRow(p));
      assert IsChangedCaller(p, ChangedCaller(p).value);
    }
  }

  lemma ProjectRowsAre(p: ProjectRun)
    ensures AreProjectRows(ProjectRows(p), p)
  {
    CallerRowIs(p);
    SampleRowsAre(p.samples);
    assert StoredRows(p)[1..] == SampleRows(p.samples);
  }

  lemma OneMoreCut(rows: seq<Row>, more: seq<Row>, projects: seq<ProjectRun>, p: ProjectRun, cuts: seq<nat>)
    requires AreCut(rows, projects, cuts) && AreProjectRows(more, p)
    ensures AreCut(rows + more, projects + [p], cuts + [|rows| + |more|])
  {
    var all, cuts' := rows + more, cuts + [|rows| + |more|];
    forall i | 0 <= i < |projects| ensures IsCut(all, projects[i], cuts', i) {
      assert IsCut(rows, projects[i], cuts, i) && cuts'[i] == cuts[i] && cuts'[i + 1] == cuts[i + 1];
      assert all[cuts[i]..cuts[i + 1]] == rows[cuts[i]..cuts[i + 1]];
    }
    assert IsCut(all, p, cuts', |projects|) by {
      assert all[|rows|..|all|] == more;
    }
  }

  lemma {:induction false} AllRowsAre(projects: seq<ProjectRun>)
    ensures AreRows(AllRows(projects), projects)
  {
    if projects == [] {
      assert AreCut([], projects, [0]);
    } else {
      var rest, last := projects[..|projects| - 1], projects[|projects| - 1];
      assert projects == rest + [last];
      AllRowsAre(rest);
      ProjectRowsAre(last);
      var cuts :| AreCut(AllRows(rest), rest, cuts);
      OneMoreCut(AllRows(rest), ProjectRows(last), rest, last, cuts);
    }
  }

  /** The whole script: the rows it writes, in order, and its exit code, which is 0 exactly when
      every row passes, that is, when every wanted project was stored and every comparison that
      was made found agreement in the cone with a loaded field that is not 0 and no recheck. */
  method BenchAll(projects: seq<ProjectRun>) returns (rows: seq<Row>, rc: int)
    ensures rows == AllRows(projects) && AreRows(rows, projects)
    ensures rc in {0, 1} && (rc == 0 <==> forall i :: 0 <= i < |rows| ==> rows[i].status in {Ok, NoConeBug})
    ensures rc == 0 <==> AllGood(projects)
  {
    var run := new Run();
    for i := 0 to |projects|
      invariant run.Valid() && run.rows == AllRows(projects[..i])
    {
      assert projects[..i + 1][..i] == projects[..i];
      run.BenchProject(projects[i]);
    }
    assert projects[..|projects|] == projects;
    AllRowsPass(projects);
    AllRowsAre(projects);
    return run.rows, if run.fail then 1 else 0;
  }

  // ---------- what the statuses stand for ----------

  /** A row is ok exactly for agreement in the cone, a loaded field that is not 0 and no recheck;
      then nothing is invented, and both reports have the same traces in the cone. */
  lemma OkMeans(s: Sample, name: string, mutated: string)
    ensures RowOf(s, name, mutated).status == Ok <==> Good(s)
    ensures Good(s) ==>
              Invented(s) == "0" && Missing(s) == "0"
              && ToSet(AllBugs(s.inc.value.bugTypes)) <= ToSet(AllBugs(s.scratch.value.bugTypes))
              && Cone(AllBugs(s.inc.value.bugTypes), WorkNames(s.workset.value)) ==
                 Cone(AllBugs(s.scratch.value.bugTypes), WorkNames(s.workset.value))
  {
    if Good(s) {
      var inc, scratch := AllBugs(s.inc.value.bugTypes), AllBugs(s.scratch.value.bugTypes);
      AgreesIff(inc, scratch, WorkNames(s.workset.value));
      assert Decimal(0) == "0";
    }
  }

  // ---------- what the log says ----------

  /** The numbers that the log of the incremental run gives; None: it has no such line. */
  datatype Log = Log(loaded: Option<nat>, recheck: Option<nat>)

  function Field(number: Option<nat>, missing: string): string {
    if number.None? then missing else Decimal(number.value)
  }

  /** The two fields are read from this log: lines 54-55. */
  predicate ReadFrom(s: Sample, log: Log) {
    s.loaded == Field(log.loaded, "?") && s.recheck == Field(log.recheck, "0")
  }

  lemma FieldIsZero(number: Option<nat>, missing: string)
    ensures Field(number, missing) == "0" <==> number == Some(0) || (number.None? && missing == "0")
  {
    if number.Some? {
      DecimalValue(number.value);
      DecimalValue(0);
    }
  }

  /** Both runs succeed, their reports agree in the cone, and the log counts no recheck. */
  ghost predicate AgreesWithoutRecheck(s: Sample, log: Log) {
    s.incRc == 0 && s.scrRc == 0 && SampleAgrees(s) && log.recheck in {None, Some(0)}
  }

  /** When the log has the line, a row is ok exactly if all that holds and a summary was loaded, as
      line 128 of README.md says; without the line it is ok whether or not one was. */
  lemma OkReadsTheLog(s: Sample, log: Log, name: string, mutated: string)
    requires ReadFrom(s, log)
    ensures log.loaded.Some? ==>
              (RowOf(s, name, mutated).status == Ok <==> AgreesWithoutRecheck(s, log) && log.loaded.value > 0)
    ensures log.loaded.None? ==>
              s.loaded == "?" && (RowOf(s, name, mutated).status == Ok <==> AgreesWithoutRecheck(s, log))
  {
    FieldIsZero(log.loaded, "?");
    FieldIsZero(log.recheck, "0");
    OkMeans(s, name, mutated);
    assert s.recheck != "" by {
      if log.recheck.Some? {
        assert Decimal(log.recheck.value) != "";
      }
    }
  }

  function Unlogged(): Sample {
    Sample("new", 0, 0, "?", "0", Some([]), Some(Report([], [])), Some(Report([], [])), "")
  }

  /** Two runs without a finding and without the line give such a row. */
  lemma OkWithoutTheLine(name: string, mutated: string)
    ensures ReadFrom(Unlogged(), Log(None, None)) && RowOf(Unlogged(), name, mutated).status == Ok
  {
    var s := Unlogged();
    assert AllBugs([]) == [];
    OkReadsTheLog(s, Log(None, None), name, mutated);
  }

  /** The status no_cone_bug is also written when the store did report traces of two functions:
      whenever the caller that the search finds cannot be changed, or none is found. */
  lemma NoConeBugIff(p: ProjectRun)
    ensures CallerRow(p).status == NoConeBug <==> forall caller :: !IsChangedCaller(p, caller)
  {
    ChangedCallerIs(p);
    if ChangedCaller(p).Some? {
      RowIs(p.caller, "caller", ChangedCaller(p).value, CallerRow(p));
    }
  }
}
