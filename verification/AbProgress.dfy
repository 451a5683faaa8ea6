/**
 Resumption: a call that runs to its end without a failing tool run leaves exactly the keys
 it started from and the keys it was asked for, however many earlier attempts at the same
 call were killed, and wherever.
 */
module AbProgress {
  import opened Wrappers
  import opened AbHarness
  import opened AbTable

  /** The keys a call asks for. */
  predicate Asked(c: Call, key: Key) {
    && key.project in c.projects && key.project in c.bc
    && key.branch in {"main", "perf"}
    && match key.mode
       case Store => key.sample == "old"
       case Inc => c.runs > 0 && key.sample in c.bc[key.project]
  }

  // ---------- nothing but what was asked for ----------

  /** The positions at which a row is written belong to the call. */
  predicate CallInv(c: Control) {
    InIncPhase(c) ==> c.pos.r < c.call.runs
  }

  lemma StoreCallInv(c: Control, run: ToolRun)
    requires CallInv(c) && c.HasProject()
    ensures CallInv(StoreAdvanced(c, run))
  {}

  lemma IncCallInv(c: Control, run: ToolRun)
    requires CallInv(c) && c.HasProject()
    ensures CallInv(IncAdvanced(c, run))
  {}

  lemma ControlCallInv(c: Control, e: Event)
    requires CallInv(c)
    ensures CallInv(ControlNext(c, e))
  {
    if c.HasProject() && e.Step? {
      StoreCallInv(c, e.run);
      IncCallInv(c, e.run);
    }
  }

  lemma ControlKeepsCall(c: Control, e: Event)
    ensures !e.Start? ==> ControlNext(c, e).call == c.call && (c.loc == Idle ==> ControlNext(c, e).loc == Idle)
    ensures e.Start? ==> ControlNext(c, e).call in {c.call, e.call}
    ensures e.Start? && c.loc == Idle ==> ControlNext(c, e).call == e.call
  {}

  lemma StoreAppendAsked(c: Control, key: Key)
    requires c.HasProject() && c.loc == StoreAppend
    ensures Have(Append(c.out, Row(StoreKey(c.Branch(), c.Project()), c.ms)), key) ==>
            Have(c.out, key) || Asked(c.call, key)
  {
    AppendForgetsNone(c.out, StoreKey(c.Branch(), c.Project()), c.ms, key);
  }

  lemma IncAppendAsked(c: Control, key: Key)
    requires c.HasSample() && c.loc == IncAppend && CallInv(c)
    ensures Have(Append(c.out, Row(IncKey(c.Branch(), c.Project(), c.Sample()), c.ms)), key) ==>
              Have(c.out, key) || Asked(c.call, key)
  {
    AppendForgetsNone(c.out, IncKey(c.Branch(), c.Project(), c.Sample()), c.ms, key);
  }

  /** No event loses a key, and a key that appears is one the call asks for. */
  lemma ControlAppendsAsked(c: Control, e: Event, key: Key)
    requires PhaseInv(c) && CallInv(c)
    ensures Have(c.out, key) ==> Have(ControlNext(c, e).out, key)
    ensures Have(ControlNext(c, e).out, key) ==> Have(c.out, key) || Asked(c.call, key)
  {
    if Have(c.out, key) {
      KeysStay(c, e, key);
    } else if c.loc == WriteHeader {
      HeaderRecordsNothing(c.out, key);
    } else if c.HasProject() && c.loc == StoreAppend {
      StoreAppendAsked(c, key);
    } else if c.HasProject() && c.loc == IncAppend {
      IncAppendAsked(c, key);
    }
  }

  // ---------- everything that was asked for ----------

  ghost predicate BranchDone(out: Table, call: Call, b: string, p: string)
    requires p in call.bc
  {
    Have(out, StoreKey(b, p)) && (call.runs > 0 ==> forall s :: s in call.bc[p] ==> Have(out, IncKey(b, p, s)))
  }

  /** The first `n` projects are done for both branches. */
  ghost predicate ProjectsDone(out: Table, call: Call, n: nat) {
    forall i :: 0 <= i < n && i < |call.projects| && call.projects[i] in call.bc ==>
      BranchDone(out, call, "main", call.projects[i]) && BranchDone(out, call, "perf", call.projects[i])
  }

  /** The first `n` samples of the current branch and project are recorded. */
  ghost predicate SamplesDone(c: Control, n: nat)
    requires c.HasProject()
  {
    c.call.runs > 0 ==>
      forall j :: 0 <= j < n && j < |c.Samples()| ==> Have(c.out, IncKey(c.Branch(), c.Project(), c.Samples()[j]))
  }

  /** How far an invocation without failing tool runs has got. */
  ghost predicate Progress(c: Control) {
    match c.loc
    case Idle => true
    case CreateTable | WriteHeader => c.pos == Pos(0, false, 0, 0)
    case NextProject => c.pos == Pos(c.pos.i, false, 0, 0) && ProjectsDone(c.out, c.call, c.pos.i)
    case Finished => ProjectsDone(c.out, c.call, |c.call.projects|)
    case _ => c.HasProject() && ProjectsDone(c.out, c.call, c.pos.i) && BranchProgress(c)
  }

  ghost predicate BranchProgress(c: Control)
    requires c.HasProject()
  {
    && (c.pos.perf ==> BranchDone(c.out, c.call, "main", c.Project()))
    && if c.loc == StoreCheck || InStorePhase(c) then
         c.pos.j == 0 && c.pos.r == 0
       else
         && Have(c.out, StoreKey(c.Branch(), c.Project()))
         && SamplesDone(c, c.pos.j)
         && (c.loc == Snapshot ==> c.pos.j == 0 && c.pos.r == 0)
         && (c.loc in {EndRmPdir, EndRmSnap} ==> c.pos.j >= |c.Samples()|)
         && (c.pos.r > 0 && c.HasSample() ==> Have(c.out, IncKey(c.Branch(), c.Project(), c.Sample())))
  }

  lemma NextBranchProgress(c: Control)
    requires c.HasProject() && Progress(c) && c.loc == EndRmSnap
    ensures Progress(NextBranch(c))
  {
    forall s | s in c.Samples() && c.call.runs > 0
      ensures Have(c.out, IncKey(c.Branch(), c.Project(), s))
    {
      var j :| 0 <= j < |c.Samples()| && c.Samples()[j] == s;
    }
  }

  lemma StoreAdvancedProgress(c: Control, run: ToolRun)
    requires FileInv(c) && Progress(c) && c.HasProject()
    requires c.loc == StoreCheck || InStorePhase(c) || c.loc == Snapshot
    ensures !StoreAdvanced(c, run).failed ==> Progress(StoreAdvanced(c, run))
  {
    if c.loc == StoreAppend {
      forall key ensures Have(Append(c.out, Row(StoreKey(c.Branch(), c.Project()), c.ms)), key)
                         <==> Have(c.out, key) || key == StoreKey(c.Branch(), c.Project()) {
        AppendRecords(c.out, StoreKey(c.Branch(), c.Project()), c.ms, key);
      }
    }
  }

  lemma IncAppendProgress(c: Control, run: ToolRun)
    requires FileInv(c) && Progress(c) && c.HasProject() && c.loc == IncAppend
    ensures Progress(IncAdvanced(c, run))
  {
    var k := IncKey(c.Branch(), c.Project(), c.Sample());
    forall key ensures Have(Append(c.out, Row(k, c.ms)), key) <==> Have(c.out, key) || key == k {
      AppendRecords(c.out, k, c.ms, key);
    }
  }

  /** The same branch and project of the same call, and the same table. */
  predicate SameWork(c: Control, d: Control) {
    d.out == c.out && d.call == c.call && d.pos.i == c.pos.i && d.pos.perf == c.pos.perf
  }

  lemma WorkStaysDone(c: Control, d: Control, n: nat)
    requires SameWork(c, d) && c.HasProject() && SamplesDone(c, n)
    ensures d.HasProject() && SamplesDone(d, n)
    ensures c.pos.perf && BranchDone(c.out, c.call, "main", c.Project()) ==>
            BranchDone(d.out, d.call, "main", d.Project())
  {
    assert d.Samples() == c.Samples() && d.Branch() == c.Branch();
  }

  lemma SampleDone(c: Control, d: Control)
    requires Progress(c) && c.HasProject() && c.loc == IncCheck && c.pos.r >= c.call.runs && c.HasSample()
    requires SameWork(c, d)
    ensures d.HasProject() && SamplesDone(d, c.pos.j + 1)
  {
    WorkStaysDone(c, d, c.pos.j);
    assert d.Samples() == c.Samples() && d.Branch() == c.Branch();
  }

  lemma IncCheckProgress(c: Control)
    requires Progress(c) && c.HasProject() && c.loc == IncCheck
    ensures Progress(IncChecked(c))
  {
    WorkStaysDone(c, IncChecked(c), c.pos.j);
    if c.HasSample() && c.pos.r >= c.call.runs {
      SampleDone(c, IncChecked(c));
    }
  }

  lemma IncRestProgress(c: Control, run: ToolRun)
    requires Progress(c) && c.HasProject() && c.loc in {IncRmPdir, IncRestore, IncRun, EndRmPdir}
    ensures !IncAdvanced(c, run).failed ==> Progress(IncAdvanced(c, run))
  {
    WorkStaysDone(c, IncAdvanced(c, run), c.pos.j);
  }

  lemma IncAdvancedProgress(c: Control, run: ToolRun)
    requires FileInv(c) && Progress(c) && c.HasProject()
    requires c.loc == IncCheck || InIncPhase(c) || c.loc in {EndRmPdir, EndRmSnap}
    ensures !IncAdvanced(c, run).failed ==> Progress(IncAdvanced(c, run))
  {
    if c.loc == EndRmSnap {
      NextBranchProgress(c);
    } else if c.loc == IncAppend {
      IncAppendProgress(c, run);
    } else if c.loc == IncCheck {
      IncCheckProgress(c);
    } else {
      IncRestProgress(c, run);
    }
  }

  lemma AdvancedProgress(c: Control, run: ToolRun)
    requires FileInv(c) && Progress(c)
    ensures !Advanced(c, run).failed ==> Progress(Advanced(c, run))
  {
    if c.loc in {StoreCheck, StoreRmPdir, StoreRmSnap, StoreMkdir, StoreRun, StoreAppend, Snapshot} {
      StoreAdvancedProgress(c, run);
    } else if !AtRest(c) && c.loc !in {CreateTable, WriteHeader, NextProject} {
      IncAdvancedProgress(c, run);
    }
  }

  lemma ControlProgress(c: Control, e: Event)
    requires FileInv(c) && (!c.failed ==> Progress(c))
    ensures !ControlNext(c, e).failed ==> Progress(ControlNext(c, e))
  {
    if e.Step? && !c.failed {
      AdvancedProgress(c, e.run);
    }
  }

  // ---------- whole histories ----------

  /** Every invocation of the history is the same call. */
  predicate Repeats(events: seq<Event>, call: Call) {
    forall e :: e in events && e.Start? ==> e.call == call
  }

  ghost predicate HistoryInv(c: Control, call: Call) {
    && PhaseInv(c) && CallInv(c)
    && (!c.headless ==> FileInv(c) && (!c.failed ==> Progress(c)))
    && (c.loc != Idle ==> c.call == call)
  }

  lemma ControlHistory(c: Control, e: Event, call: Call)
    requires HistoryInv(c, call) && (e.Start? ==> e.call == call)
    ensures HistoryInv(ControlNext(c, e), call)
  {
    ControlPhase(c, e);
    if !c.headless {
      ControlFile(c, e);
      ControlProgress(c, e);
    }
    ControlCallInv(c, e);
    ControlKeepsCall(c, e);
  }

  lemma {:induction false} HistoryProgress(w: World, events: seq<Event>, call: Call, key: Key)
    requires w.ctl.loc == Idle && HasFirstLine(w.ctl.out) && Repeats(events, call)
    ensures var c := Run(w, events).ctl;
      && HistoryInv(c, call)
      && (Have(w.ctl.out, key) ==> Have(c.out, key))
      && (Have(c.out, key) ==> Have(w.ctl.out, key) || Asked(call, key))
  {
    if events == [] {
      assert CallInv(w.ctl) && Progress(w.ctl);
    } else {
      var last := |events| - 1;
      HistoryProgress(w, events[..last], call, key);
      var c := Run(w, events[..last]).ctl;
      ControlHistory(c, events[last], call);
      ControlAppendsAsked(c, events[last], key);
      assert Run(w, events).ctl == ControlNext(c, events[last]);
    }
  }

  lemma FinishedHasAsked(out: Table, call: Call, key: Key)
    requires ProjectsDone(out, call, |call.projects|) && Asked(call, key)
    ensures Have(out, key)
  {
    var i :| 0 <= i < |call.projects| && call.projects[i] == key.project;
    assert BranchDone(out, call, key.branch, call.projects[i]);
  }

  lemma FinishedIsExact(c: Control, before: Table, call: Call, key: Key)
    requires HistoryInv(c, call) && c.loc == Finished && !c.failed && !c.headless
    requires (Have(before, key) ==> Have(c.out, key)) && (Have(c.out, key) ==> Have(before, key) || Asked(call, key))
    ensures Have(c.out, key) <==> Have(before, key) || Asked(call, key)
  {
    if Asked(call, key) {
      FinishedHasAsked(c.out, call, key);
    }
  }

  /** The history repeats one call from this state and leads to its end without a failing tool run
      and without a table file that lost its first line. */
  ghost predicate Completes(w: World, events: seq<Event>, call: Call) {
    && w.ctl.loc == Idle && HasFirstLine(w.ctl.out) && Repeats(events, call)
    && var c := Run(w, events).ctl; c.loc == Finished && !c.failed && !c.headless
  }

  /** After any number of killed attempts, a call that finishes without a failing tool run
      leaves exactly the keys present at the beginning and the keys it asks for. */
  lemma CompletionIsExact(w: World, events: seq<Event>, call: Call, key: Key)
    requires Completes(w, events, call)
    ensures Have(Run(w, events).ctl.out, key) <==> Have(w.ctl.out, key) || Asked(call, key)
  {
    HistoryProgress(w, events, call, key);
    FinishedIsExact(Run(w, events).ctl, w.ctl.out, call, key);
  }

  /** Interruptions do not show: two histories of the same call from the same table, say one
      with many kills and one with none, end with the same keys. */
  lemma InterruptionsDoNotShow(w: World, interrupted: seq<Event>, straight: seq<Event>, call: Call, key: Key)
    requires Completes(w, interrupted, call) && Completes(w, straight, call)
    ensures Have(Run(w, interrupted).ctl.out, key) <==> Have(Run(w, straight).ctl.out, key)
  {
    CompletionIsExact(w, interrupted, call, key);
    CompletionIsExact(w, straight, call, key);
  }

  // ---------- every call can be completed ----------

  /** The loop counters fit the place in the script. */
  predicate Placed(c: Control) {
    && (c.loc in {CreateTable, WriteHeader} ==> c.pos == Pos(0, false, 0, 0))
    && (c.loc == NextProject ==> c.pos == Pos(c.pos.i, false, 0, 0) && c.pos.i <= |c.call.projects|)
    && (c.loc !in {Idle, Finished, CreateTable, WriteHeader, NextProject} ==> c.HasProject())
    && (c.loc == IncCheck ==> c.pos.j <= |c.Samples()|)
    && (InIncPhase(c) ==> c.HasSample() && c.pos.r < c.call.runs)
    && (InStoreCommands(c) ==> c.pos.j == 0 && c.pos.r == 0)
  }

  /** The phases of a branch and project, the last one first. */
  function Stage(loc: Loc): nat {
    match loc
    case CreateTable => 5
    case WriteHeader => 4
    case NextProject => 3
    case StoreCheck | StoreRmPdir | StoreRmSnap | StoreMkdir | StoreRun | StoreAppend | Snapshot => 2
    case IncCheck | IncRmPdir | IncRestore | IncRun | IncAppend => 1
    case _ => 0
  }

  /** The commands left in a phase or in one turn of its loop. */
  function Commands(loc: Loc): nat {
    match loc
    case StoreCheck => 6
    case StoreRmPdir => 5
    case StoreRmSnap | IncCheck => 4
    case StoreMkdir | IncRmPdir => 3
    case StoreRun | IncRestore => 2
    case StoreAppend | IncRun | EndRmPdir => 1
    case _ => 0
  }

  function ProjectsLeft(c: Control): int {
    |c.call.projects| - c.pos.i
  }

  function BranchesLeft(c: Control): nat {
    if c.pos.perf then 0 else 1
  }

  function SamplesLeft(c: Control): int {
    if c.HasProject() then |c.Samples()| - c.pos.j else 0
  }

  function RunsLeft(c: Control): int {
    c.call.runs - c.pos.r
  }

  /** Less is left to do, in the order of the nested loops. */
  predicate LessLeft(d: Control, c: Control) {
    && d.call == c.call
    && (ProjectsLeft(d) < ProjectsLeft(c) || (ProjectsLeft(d) == ProjectsLeft(c) &&
        (BranchesLeft(d) < BranchesLeft(c) || (BranchesLeft(d) == BranchesLeft(c) &&
         (Stage(d.loc) < Stage(c.loc) || (Stage(d.loc) == Stage(c.loc) &&
          (SamplesLeft(d) < SamplesLeft(c) || (SamplesLeft(d) == SamplesLeft(c) &&
           (RunsLeft(d) < RunsLeft(c) || (RunsLeft(d) == RunsLeft(c) && Commands(d.loc) < Commands(c.loc)))))))))))
  }

  lemma NextBranchGoesOn(c: Control)
    requires c.HasProject()
    ensures Placed(NextBranch(c)) && LessLeft(NextBranch(c), c) && !AtRest(NextBranch(c))
  {}

  /** The next command of the same phase, or a later phase, of the same place. */
  lemma SameTurnGoesOn(c: Control, d: Control)
    requires Placed(c) && InStoreCommands(c) && d.call == c.call && d.pos == c.pos
    requires d.loc == IncCheck || (InStoreCommands(d) && Commands(d.loc) < Commands(c.loc))
    ensures Placed(d) && LessLeft(d, c) && !AtRest(d)
  {}

  lemma StoreGoesOn(c: Control, run: ToolRun)
    requires Placed(c) && InStoreCommands(c)
    ensures Placed(StoreAdvanced(c, run)) && LessLeft(StoreAdvanced(c, run), c) && !AtRest(StoreAdvanced(c, run))
  {
    if c.loc == StoreRun && run.rc != 0 {
      NextBranchGoesOn(c.(failed := true));
    } else {
      SameTurnGoesOn(c, StoreAdvanced(c, run));
    }
  }

  lemma IncCheckGoesOn(c: Control)
    requires Placed(c) && c.loc == IncCheck
    ensures Placed(IncChecked(c)) && LessLeft(IncChecked(c), c) && !AtRest(IncChecked(c))
  {}

  lemma RetryGoesOn(c: Control, d: Control)
    requires Placed(c) && InIncPhase(c) && d.call == c.call && d.pos == c.pos.(r := c.pos.r + 1) && d.loc == IncCheck
    ensures Placed(d) && LessLeft(d, c) && !AtRest(d)
  {}

  lemma NextCommandGoesOn(c: Control, d: Control)
    requires Placed(c) && d.call == c.call && d.pos == c.pos && Commands(d.loc) < Commands(c.loc)
    requires (InIncPhase(c) && InIncPhase(d)) || (c.loc == EndRmPdir && d.loc == EndRmSnap)
    ensures Placed(d) && LessLeft(d, c) && !AtRest(d)
  {}

  lemma IncGoesOn(c: Control, run: ToolRun)
    requires Placed(c) && (InIncPhase(c) || c.loc in {EndRmPdir, EndRmSnap})
    ensures Placed(IncAdvanced(c, run)) && LessLeft(IncAdvanced(c, run), c) && !AtRest(IncAdvanced(c, run))
  {
    if c.loc == EndRmSnap {
      NextBranchGoesOn(c);
    } else if c.loc == IncAppend || (c.loc == IncRun && run.rc != 0) {
      RetryGoesOn(c, IncAdvanced(c, run));
    } else {
      NextCommandGoesOn(c, IncAdvanced(c, run));
    }
  }

  /** Whatever a tool run returns, every command leaves less to do. */
  lemma GoesOn(c: Control, run: ToolRun)
    requires Placed(c) && !AtRest(c)
    ensures var d := Advanced(c, run); Placed(d) && (d.loc == Finished || (!AtRest(d) && LessLeft(d, c)))
  {
    if InStoreCommands(c) {
      StoreGoesOn(c, run);
    } else if c.loc == IncCheck {
      IncCheckGoesOn(c);
    } else if InIncPhase(c) || c.loc in {EndRmPdir, EndRmSnap} {
      IncGoesOn(c, run);
    }
  }

  /** A tool run that succeeds. */
  const SUCCESS := ToolRun(0, None, 0)

  lemma Succeeds(c: Control)
    requires !c.failed && !c.headless
    ensures !Advanced(c, SUCCESS).failed && !Advanced(c, SUCCESS).headless
  {}

  /** Successful commands alone lead a call that is under way to its end. */
  lemma {:induction false} Finish(w: World, events: seq<Event>, call: Call) returns (all: seq<Event>)
    requires Repeats(events, call)
    requires var c := Run(w, events).ctl; Placed(c) && !AtRest(c) && !c.failed && !c.headless
    ensures Repeats(all, call)
    ensures var c := Run(w, all).ctl; c.loc == Finished && !c.failed && !c.headless
    decreases ProjectsLeft(Run(w, events).ctl), BranchesLeft(Run(w, events).ctl), Stage(Run(w, events).ctl.loc),
              SamplesLeft(Run(w, events).ctl), RunsLeft(Run(w, events).ctl), Commands(Run(w, events).ctl.loc)
  {
    var c := Run(w, events).ctl;
    all := events + [Step(SUCCESS)];
    GoesOn(c, SUCCESS);
    Succeeds(c);
    assert all[..|all| - 1] == events;
    RunControl(w, all);
    if Run(w, all).ctl.loc != Finished {
      all := Finish(w, all, call);
    }
  }

  /** From every idle state, whatever is in the table, every call has a course to its end, and it is
      one that completes if the table has a first line. */
  lemma CanComplete(w: World, call: Call)
    requires w.ctl.loc == Idle && HasFirstLine(w.ctl.out) && !w.ctl.headless
    ensures exists events :: Completes(w, events, call)
  {
    var begun := [Start(call)];
    assert begun[..0] == [] && Run(w, []) == w;
    RunControl(w, begun);
    var events := Finish(w, begun, call);
    assert Completes(w, events, call);
  }
}
