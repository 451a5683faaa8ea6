/**
 What the results table keeps over every history: no key is recorded twice, no row is lost,
 and running to completion reaches the same set of keys however often earlier invocations
 were killed.
 */
module AbTable {
  import opened Wrappers
  import opened AbHarness

  /** No two rows of the file, the first line included, share a key. */
  ghost predicate UniqueRows(lines: seq<Line>) {
    forall i, j :: 0 <= i < j < |lines| && lines[i].Row? && lines[j].Row? ==> lines[i].key != lines[j].key
  }

  /** A row that some call can append. */
  predicate Askable(line: Line) {
    line.Row? && line.key.branch in {"main", "perf"} && (line.key.mode == Store ==> line.key.sample == "old")
  }

  /** The file is absent, or it has a first line, which is no row that a call can append, such as a
      header, and repeats no key. */
  ghost predicate TableOk(out: Table) {
    out.Some? ==> out.value != [] && !Askable(out.value[0]) && UniqueRows(out.value)
  }

  predicate InStorePhase(c: Control) {
    c.loc in {StoreRmPdir, StoreRmSnap, StoreMkdir, StoreRun, StoreAppend}
  }

  predicate InIncPhase(c: Control) {
    c.loc in {IncRmPdir, IncRestore, IncRun, IncAppend}
  }

  /** Between the lookup and the append nothing records the key looked up. */
  ghost predicate PhaseInv(c: Control) {
    && (!AtRest(c) && c.loc != CreateTable ==> c.out.Some?)
    && (InStorePhase(c) && c.HasProject() ==> !Have(c.out, StoreKey(c.Branch(), c.Project())))
    && (InIncPhase(c) && c.HasProject() ==>
          c.HasSample() && !Have(c.out, IncKey(c.Branch(), c.Project(), c.Sample())))
  }

  predicate HasFirstLine(out: Table) {
    out.Some? ==> out.value != []
  }

  /** The lookup, which skips the first line, misses no row of the file. */
  ghost predicate FileInv(c: Control) {
    PhaseInv(c) && if c.loc == WriteHeader then c.out == Some([]) else HasFirstLine(c.out)
  }

  ghost predicate TableInv(c: Control) {
    FileInv(c) && (c.loc != WriteHeader ==> TableOk(c.out))
  }

  lemma AppendKeepsTableOk(out: Table, key: Key, ms: nat)
    requires TableOk(out) && out.Some? && !Have(out, key) && Askable(Row(key, ms))
    ensures TableOk(Append(out, Row(key, ms)))
  {
    var lines := out.value;
    var after := lines + [Row(key, ms)];
    forall i, j | 0 <= i < j < |after| && after[i].Row? && after[j].Row?
      ensures after[i].key != after[j].key
    {
      assert after[i] == lines[i];
    }
  }

  /** Appending forgets no key, and finds at most the key appended besides. */
  lemma AppendForgetsNone(out: Table, key: Key, ms: nat, other: Key)
    ensures Have(out, other) ==> Have(Append(out, Row(key, ms)), other)
    ensures Have(Append(out, Row(key, ms)), other) ==> Have(out, other) || other == key
  {
    if out.Some? {
      var after := Append(out, Row(key, ms)).value;
      assert forall i :: 0 <= i < |out.value| ==> after[i] == out.value[i];
    }
  }

  lemma HeaderRecordsNothing(out: Table, key: Key)
    ensures Have(out, key) ==> Have(Append(out, Header), key)
    ensures Have(Append(out, Header), key) ==> Have(out, key)
  {
    if out.Some? {
      var after := Append(out, Header).value;
      assert forall i :: 0 <= i < |out.value| ==> after[i] == out.value[i];
    }
  }

  /** Appending to a file that has a header, or any other first line, records the key appended. */
  lemma AppendRecords(out: Table, key: Key, ms: nat, other: Key)
    requires out.Some? && out.value != []
    ensures Have(Append(out, Row(key, ms)), other) <==> Have(out, other) || other == key
  {
    AppendForgetsNone(out, key, ms, other);
    assert Append(out, Row(key, ms)).value[|out.value|] == Row(key, ms);
  }

  /** A recorded key stays recorded. */
  lemma KeysStay(c: Control, e: Event, key: Key)
    requires PhaseInv(c) && Have(c.out, key)
    ensures Have(ControlNext(c, e).out, key)
  {
    if c.loc == WriteHeader {
      HeaderRecordsNothing(c.out, key);
    } else if c.HasProject() && c.loc == StoreAppend {
      AppendForgetsNone(c.out, StoreKey(c.Branch(), c.Project()), c.ms, key);
    } else if c.HasSample() && c.loc == IncAppend {
      AppendForgetsNone(c.out, IncKey(c.Branch(), c.Project(), c.Sample()), c.ms, key);
    }
  }

  lemma StoreAdvancedTable(c: Control, run: ToolRun)
    requires PhaseInv(c) && !AtRest(c) && c.loc !in {CreateTable, WriteHeader} && c.HasProject()
    ensures PhaseInv(StoreAdvanced(c, run)) && (HasFirstLine(c.out) ==> HasFirstLine(StoreAdvanced(c, run).out))
    ensures TableOk(c.out) ==> TableOk(StoreAdvanced(c, run).out)
  {
    if c.loc == StoreAppend && TableOk(c.out) {
      AppendKeepsTableOk(c.out, StoreKey(c.Branch(), c.Project()), c.ms);
    }
  }

  lemma IncAdvancedTable(c: Control, run: ToolRun)
    requires PhaseInv(c) && !AtRest(c) && c.loc !in {CreateTable, WriteHeader} && c.HasProject() && !InStorePhase(c)
    ensures PhaseInv(IncAdvanced(c, run)) && (HasFirstLine(c.out) ==> HasFirstLine(IncAdvanced(c, run).out))
    ensures TableOk(c.out) ==> TableOk(IncAdvanced(c, run).out)
  {
    if c.loc == IncAppend && TableOk(c.out) {
      AppendKeepsTableOk(c.out, IncKey(c.Branch(), c.Project(), c.Sample()), c.ms);
    }
  }

  predicate InStoreCommands(c: Control) {
    c.loc in {StoreCheck, StoreRmPdir, StoreRmSnap, StoreMkdir, StoreRun, StoreAppend, Snapshot}
  }

  lemma BeginTable(c: Control, run: ToolRun)
    requires PhaseInv(c) && c.loc in {CreateTable, WriteHeader, NextProject}
    ensures PhaseInv(Advanced(c, run))
    ensures FileInv(c) ==> FileInv(Advanced(c, run))
    ensures TableInv(c) ==> TableInv(Advanced(c, run))
  {}

  lemma AdvancedTable(c: Control, run: ToolRun)
    requires PhaseInv(c)
    ensures PhaseInv(Advanced(c, run))
    ensures FileInv(c) ==> FileInv(Advanced(c, run))
    ensures TableInv(c) ==> TableInv(Advanced(c, run))
  {
    if c.loc in {CreateTable, WriteHeader, NextProject} {
      BeginTable(c, run);
    } else if c.HasProject() && !AtRest(c) {
      if InStoreCommands(c) {
        StoreAdvancedTable(c, run);
        assert Advanced(c, run) == StoreAdvanced(c, run);
      } else {
        IncAdvancedTable(c, run);
        assert Advanced(c, run) == IncAdvanced(c, run);
      }
    }
  }

  lemma ControlPhase(c: Control, e: Event)
    requires PhaseInv(c)
    ensures PhaseInv(ControlNext(c, e))
  {
    if e.Step? {
      AdvancedTable(c, e.run);
    }
  }

  /** The file is left without a first line only by a kill between its opening and its header. */
  lemma ControlFile(c: Control, e: Event)
    requires FileInv(c)
    ensures ControlNext(c, e).headless || FileInv(ControlNext(c, e))
  {
    if e.Step? {
      AdvancedTable(c, e.run);
    }
  }

  lemma ControlTable(c: Control, e: Event)
    requires TableInv(c)
    ensures ControlNext(c, e).headless || TableInv(ControlNext(c, e))
  {
    if e.Step? {
      AdvancedTable(c, e.run);
    }
  }

  lemma UniqueStep(c: Control, e: Event)
    requires c.headless || TableInv(c)
    ensures ControlNext(c, e).headless || TableInv(ControlNext(c, e))
  {
    if c.headless {
      HeadlessStays(c, e);
    } else {
      ControlTable(c, e);
    }
  }

  lemma HeadlessStays(c: Control, e: Event)
    requires c.headless
    ensures ControlNext(c, e).headless
  {}

  lemma RunControl(w: World, events: seq<Event>)
    requires events != []
    ensures Run(w, events).ctl == ControlNext(Run(w, events[..|events| - 1]).ctl, events[|events| - 1])
  {}

  /** Over every history from a table that is absent, or repeats no key and has a first line that no
      call can append, whatever the repeat counts, tool results and kills, no two rows of the file
      share a key, unless a kill came between the opening of the file and its header. */
  lemma {:induction false} RowsStayUnique(w: World, events: seq<Event>)
    requires AtRest(w.ctl) && TableOk(w.ctl.out)
    ensures Run(w, events).ctl.headless || TableInv(Run(w, events).ctl)
  {
    if events == [] {
      assert Run(w, events) == w;
    } else {
      var last := |events| - 1;
      RowsStayUnique(w, events[..last]);
      UniqueStep(Run(w, events[..last]).ctl, events[last]);
      RunControl(w, events);
    }
  }

  /** That kill can only come to a file that was not there at the beginning. */
  lemma {:induction false} HeaderIsSafe(w: World, events: seq<Event>)
    requires AtRest(w.ctl) && w.ctl.out.Some? && !w.ctl.headless
    ensures var c := Run(w, events).ctl; c.out.Some? && !c.headless && c.loc != WriteHeader
  {
    if events != [] {
      HeaderIsSafe(w, events[..|events| - 1]);
      HeaderStaysSafe(Run(w, events[..|events| - 1]).ctl, events[|events| - 1]);
      RunControl(w, events);
    }
  }

  /** A first line stays the first line. */
  lemma {:induction false} FirstLineStays(w: World, events: seq<Event>)
    requires w.ctl.out.Some? && w.ctl.out.value != []
    ensures var out := Run(w, events).ctl.out; out.Some? && out.value != [] && out.value[0] == w.ctl.out.value[0]
  {
    if events != [] {
      FirstLineStays(w, events[..|events| - 1]);
      FirstLineStep(Run(w, events[..|events| - 1]).ctl, events[|events| - 1]);
      RunControl(w, events);
    }
  }

  lemma FirstLineStep(c: Control, e: Event)
    requires c.out.Some? && c.out.value != []
    ensures var out := ControlNext(c, e).out; out.Some? && out.value != [] && out.value[0] == c.out.value[0]
  {}

  lemma HeaderStaysSafe(c: Control, e: Event)
    requires c.out.Some? && !c.headless && c.loc != WriteHeader
    ensures var d := ControlNext(c, e); d.out.Some? && !d.headless && d.loc != WriteHeader
  {}
}
