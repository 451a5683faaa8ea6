/**
 Which incremental runs have their store: what makes a recorded store's snapshot go for good, and the
 exact condition, on the state before a call, under which every run of that call starts on what its
 own store left.
 */
module AbStores {
  import opened Wrappers
  import opened AbHarness
  import opened AbTable
  import opened AbProgress
  import opened AbSnapshot
  import opened AbLimits

  // ---------- a snapshot once gone stays away ----------

  /** The store is recorded, its snapshot is gone, and no copy of it is under way. */
  ghost predicate Gone(w: World, b: string, p: string) {
    && Have(w.ctl.out, StoreKey(b, p)) && Snap(b, p) !in w.fs
    && !(w.ctl.loc == Snapshot && w.ctl.HasProject() && w.ctl.Branch() == b && w.ctl.Project() == p)
  }

  /** The cleanup at the end of a branch and project removes its snapshot for good. */
  lemma CleanupRemoves(w: World, run: ToolRun)
    requires w.ctl.HasProject() && w.ctl.loc == EndRmSnap && Have(w.ctl.out, StoreKey(w.ctl.Branch(), w.ctl.Project()))
    ensures Gone(Apply(w, Step(run)), w.ctl.Branch(), w.ctl.Project())
  {}

  lemma GoneThisStep(w: World, e: Event)
    requires PhaseInv(w.ctl) && Here(w) && w.ctl.HasProject() && !AtRest(w.ctl)
    requires Gone(w, w.ctl.Branch(), w.ctl.Project())
    ensures Snap(w.ctl.Branch(), w.ctl.Project()) !in Apply(w, e).fs
    ensures Apply(w, e).ctl.loc != Snapshot
  {
    PathsDistinct(w.ctl.Branch(), w.ctl.Project(), w.ctl.Branch(), w.ctl.Project());
  }

  lemma GoneElsewhere(w: World, e: Event, b: string, p: string)
    requires IsBranch(b) && Snap(b, p) !in w.fs
    requires w.ctl.HasProject() ==>
               Snap(b, p) !in {Pdir(w.ctl.Branch(), w.ctl.Project()), Snap(w.ctl.Branch(), w.ctl.Project())}
    ensures Snap(b, p) !in Apply(w, e).fs
  {
    WriteIsLocal(w, e, Snap(b, p));
  }

  lemma AtRestWritesNothing(w: World, e: Event)
    requires AtRest(w.ctl) || !w.ctl.HasProject()
    ensures Apply(w, e).fs == w.fs
  {}

  lemma GoneFromDisk(w: World, e: Event, projects: set<string>, b: string, p: string)
    requires NoAlias(projects) && Isolated(w, projects) && IsBranch(b) && p in projects && Gone(w, b, p)
    ensures Snap(b, p) !in Apply(w, e).fs
    ensures !AtRest(w.ctl) && w.ctl.HasProject() && w.ctl.Branch() == b && w.ctl.Project() == p ==>
              Apply(w, e).ctl.loc != Snapshot
  {
    if AtRest(w.ctl) || !w.ctl.HasProject() {
      AtRestWritesNothing(w, e);
    } else {
      HereSnapshotOk(w, projects);
      if w.ctl.Branch() == b && w.ctl.Project() == p {
        GoneThisStep(w, e);
      } else {
        PathsDistinct(b, p, w.ctl.Branch(), w.ctl.Project());
        GoneElsewhere(w, e, b, p);
      }
    }
  }

  lemma GoneStep(w: World, e: Event, projects: set<string>, b: string, p: string)
    requires NoAlias(projects) && Isolated(w, projects) && IsBranch(b) && p in projects && Gone(w, b, p)
    ensures Gone(Apply(w, e), b, p)
  {
    KeysStay(w.ctl, e, StoreKey(b, p));
    GoneFromDisk(w, e, projects, b, p);
    NewSnapshotCopy(w.ctl, e);
  }

  lemma StoreToSnapshot(c: Control, run: ToolRun)
    requires c.HasProject() && InStoreCommands(c)
    ensures var d := StoreAdvanced(c, run); d.loc == Snapshot ==>
            c.loc == StoreAppend && d.pos == c.pos && d.call == c.call
  {}

  lemma IncToSnapshot(c: Control, run: ToolRun)
    requires c.HasProject() && !InStoreCommands(c)
    ensures IncAdvanced(c, run).loc != Snapshot
  {}

  /** The snapshot copy is only reached from the append of its own store row. */
  lemma NewSnapshotCopy(c: Control, e: Event)
    ensures var d := ControlNext(c, e);
      d.loc == Snapshot && c.HasProject() ==>
        d == c || (c.loc == StoreAppend && d.pos == c.pos && d.call == c.call)
    ensures ControlNext(c, e).loc == Snapshot ==> c.HasProject() == ControlNext(c, e).HasProject()
  {
    if e.Step? && c.HasProject() {
      if InStoreCommands(c) {
        StoreToSnapshot(c, e.run);
      } else {
        IncToSnapshot(c, e.run);
      }
    }
  }

  /** Once a call has cleaned up after a branch and project whose store is recorded, every later
      incremental run of it, in any invocation, starts without any store. */
  lemma {:induction false} GoneForever(w: World, events: seq<Event>, projects: set<string>, b: string, p: string)
    requires NoAlias(projects) && Isolated(w, projects) && Within(events, projects)
    requires IsBranch(b) && p in projects && Gone(w, b, p)
    ensures var after := Run(w, events);
      && Isolated(after, projects) && Gone(after, b, p)
      && |w.log| <= |after.log|
      && forall i :: |w.log| <= i < |after.log| && after.log[i].branch == b && after.log[i].project == p
           ==> after.log[i].start == None
  {
    if events != [] {
      var last := |events| - 1;
      var before := Run(w, events[..last]);
      GoneForever(w, events[..last], projects, b, p);
      IsolationStep(before, events[last], projects);
      GoneStep(before, events[last], projects, b, p);
      GoneStarts(before, events[last], b, p);
    }
  }

  lemma GoneStarts(w: World, e: Event, b: string, p: string)
    requires Here(w) && Gone(w, b, p)
    ensures LogNext(w, e) == w.log
      || exists s :: LogNext(w, e) == w.log + [s] && (s.branch == b && s.project == p ==> s.start == None)
  {}

  // ---------- what makes it go ----------

  /** A kill between the row of a store and the copy of its snapshot: the store is recorded, and no
      snapshot of it was made. */
  lemma KillBeforeCopy(w: World)
    requires Here(w) && w.ctl.HasProject() && w.ctl.loc == Snapshot
    requires Have(w.ctl.out, StoreKey(w.ctl.Branch(), w.ctl.Project()))
    ensures Gone(Apply(w, Kill(None)), w.ctl.Branch(), w.ctl.Project())
  {}

  /** A first call killed there, with no directory torn: the store has succeeded, and every later run
      of that branch and project, in any invocation, starts without it. */
  lemma KilledBeforeCopy(p: string, projects: set<string>)
    requires NoAlias(projects) && p in projects
    ensures exists events :: Within(events, projects) && TearsOnlyAt(Fresh(p), events, {}) &&
              var w := Run(Fresh(p), events);
              AtRest(w.ctl) && Isolated(w, projects) && Gone(w, "main", p) &&
              StoredBy(w, "main", p) == Some(Some(Files(1)))
  {
    ghost var reach := ReachableFrom(Fresh(p), projects, {});
    ReachableIsClosed(Fresh(p), projects, {});
    var w := DiesBeforeCopy(reach, p, projects);
    var events :| Within(events, projects) && TearsOnlyAt(Fresh(p), events, {}) && Run(Fresh(p), events) == w;
    IsolationHolds(Fresh(p), events, projects);
  }

  lemma DiesBeforeCopy(reach: World -> bool, p: string, projects: set<string>) returns (after: World)
    requires ClosedUnder(reach, projects, {}) && reach(Fresh(p)) && p in projects
    ensures reach(after) && AtRest(after.ctl) && Gone(after, "main", p)
    ensures StoredBy(after, "main", p) == Some(Some(Files(1)))
  {
    PathsDistinct("main", p, "main", p);
    var w := ToSnapshot(reach, p, projects, {});
    OnlyStoreRowHas(w.ctl.out, p);
    after := Die(reach, w, projects, {});
  }

  // ---------- from a call to a run it owes ----------

  predicate NoStarts(events: seq<Event>) {
    forall e :: e in events ==> !e.Start?
  }

  /** The run of sample `j` of project `i` on branch `b` is asked for and not recorded, while its store is. */
  predicate Owes(out: Table, call: Call, i: nat, b: string, j: nat) {
    && i < |call.projects| && call.projects[i] in call.bc && j < |call.bc[call.projects[i]]| && call.runs > 0
    && Have(out, StoreKey(b, call.projects[i]))
    && !Have(out, IncKey(b, call.projects[i], call.bc[call.projects[i]][j]))
  }

  predicate Before(c: Control, i: nat, b: string) {
    c.pos.i < i || (c.pos.i == i && !c.pos.perf && b == "perf")
  }

  /** On the way to a run that is owed, with no append in between, and with no earlier turn of the same
      branch and project. */
  predicate Towards(c: Control, i: nat, b: string, j: nat) {
    && Placed(c) && !AtRest(c) && c.loc !in {WriteHeader, StoreAppend, Snapshot, IncAppend} && c.out.Some?
    && IsBranch(b) && Owes(c.out, c.call, i, b, j)
    && (forall k :: c.pos.i <= k < i && c.call.projects[k] == c.call.projects[i] ==>
          k == c.pos.i && c.pos.perf && b == "main")
    && (Before(c, i, b) || (c.pos.i == i && c.Branch() == b && OnTime(c, j)))
  }

  /** Not past the sample. */
  predicate OnTime(c: Control, j: nat) {
    && c.loc in {CreateTable, NextProject, StoreCheck, IncCheck, IncRmPdir, IncRestore, IncRun}
    && (AfterStore(c.loc) ==> c.pos.j < j || (c.pos.j == j && c.pos.r == 0))
  }

  predicate Arrived(c: Control, i: nat, b: string) {
    c.loc == IncRun && c.pos.i == i && c.Branch() == b
  }

  lemma NextBranchTowards(c: Control, i: nat, b: string, j: nat)
    requires Towards(c, i, b, j) && Before(c, i, b) && c.HasProject()
    ensures Towards(NextBranch(c), i, b, j) && NextBranch(c).out == c.out && NextBranch(c).call == c.call
  {
    NextBranchGoesOn(c);
  }

  lemma StoreTowards(c: Control, i: nat, b: string, j: nat)
    requires Towards(c, i, b, j) && InStoreCommands(c)
    ensures var d := StoreAdvanced(c, FAILED_RUN); Towards(d, i, b, j) && d.out == c.out && d.call == c.call
  {
    StoreGoesOn(c, FAILED_RUN);
    if c.loc == StoreRun {
      NextBranchTowards(c.(failed := true), i, b, j);
    }
  }

  lemma CheckTowards(c: Control, i: nat, b: string, j: nat)
    requires Towards(c, i, b, j) && c.loc == IncCheck
    ensures var d := IncChecked(c); Towards(d, i, b, j) && d.out == c.out && d.call == c.call
  {
    IncCheckGoesOn(c);
  }

  lemma CommandTowards(c: Control, i: nat, b: string, j: nat)
    requires Towards(c, i, b, j) && c.loc in {IncRmPdir, IncRestore, IncRun, EndRmPdir} && !Arrived(c, i, b)
    ensures var d := IncAdvanced(c, FAILED_RUN); Towards(d, i, b, j) && d.out == c.out && d.call == c.call
  {
    IncGoesOn(c, FAILED_RUN);
  }

  lemma IncTowards(c: Control, i: nat, b: string, j: nat)
    requires Towards(c, i, b, j) && AfterStore(c.loc) && !Arrived(c, i, b)
    ensures var d := IncAdvanced(c, FAILED_RUN); Towards(d, i, b, j) && d.out == c.out && d.call == c.call
  {
    if c.loc == EndRmSnap {
      NextBranchTowards(c, i, b, j);
    } else if c.loc == IncCheck {
      CheckTowards(c, i, b, j);
    } else {
      CommandTowards(c, i, b, j);
    }
  }

  lemma BeginTowards(c: Control, i: nat, b: string, j: nat)
    requires Towards(c, i, b, j) && c.loc in {CreateTable, NextProject}
    ensures var d := Advanced(c, FAILED_RUN); Towards(d, i, b, j) && d.out == c.out && d.call == c.call
  {
    GoesOn(c, FAILED_RUN);
  }

  /** With every tool run failing, each command leads on towards the run. */
  lemma FailingLeadsOn(c: Control, i: nat, b: string, j: nat)
    requires Towards(c, i, b, j) && !Arrived(c, i, b)
    ensures var d := Advanced(c, FAILED_RUN); Towards(d, i, b, j) && d.out == c.out && d.call == c.call
  {
    if InStoreCommands(c) {
      StoreTowards(c, i, b, j);
    } else if AfterStore(c.loc) {
      IncTowards(c, i, b, j);
    } else {
      BeginTowards(c, i, b, j);
    }
  }

  /** On the way nothing is stored, and the snapshot of the run's branch and project stays as it is. */
  lemma FailingKeeps(w: World, projects: set<string>, i: nat, b: string, j: nat)
    requires Towards(w.ctl, i, b, j) && !Arrived(w.ctl, i, b) && NoAlias(projects)
    requires forall p :: p in w.ctl.call.projects ==> p in projects
    ensures var after, p := Apply(w, Step(FAILED_RUN)), w.ctl.call.projects[i];
      after.stored == w.stored && DirAt(after.fs, Snap(b, p)) == DirAt(w.fs, Snap(b, p))
  {
    var p := w.ctl.call.projects[i];
    if w.ctl.HasProject() {
      assert w.ctl.Project() in w.ctl.call.projects && p in w.ctl.call.projects;
      PathsDistinct(b, p, w.ctl.Branch(), w.ctl.Project());
      if Before(w.ctl, i, b) {
        WriteIsLocal(w, Step(FAILED_RUN), Snap(b, p));
      }
    }
  }

  /** Failing tool runs alone lead to the run. */
  lemma {:induction false} ReachRun(w: World, events: seq<Event>, projects: set<string>, i: nat, b: string, j: nat)
    returns (all: seq<Event>)
    requires NoStarts(events) && Towards(Run(w, events).ctl, i, b, j) && NoAlias(projects)
    requires forall p :: p in Run(w, events).ctl.call.projects ==> p in projects
    ensures NoStarts(all) && Towards(Run(w, all).ctl, i, b, j) && Arrived(Run(w, all).ctl, i, b)
    ensures var before, after := Run(w, events), Run(w, all);
      && after.ctl.call == before.ctl.call && after.stored == before.stored
      && DirAt(after.fs, Snap(b, after.ctl.call.projects[i])) == DirAt(before.fs, Snap(b, after.ctl.call.projects[i]))
    decreases ProjectsLeft(Run(w, events).ctl), BranchesLeft(Run(w, events).ctl), Stage(Run(w, events).ctl.loc),
              SamplesLeft(Run(w, events).ctl), RunsLeft(Run(w, events).ctl), Commands(Run(w, events).ctl.loc)
  {
    var before := Run(w, events);
    all := events;
    if !Arrived(before.ctl, i, b) {
      var more := events + [Step(FAILED_RUN)];
      assert more[..|more| - 1] == events;
      assert Run(w, more) == Apply(before, Step(FAILED_RUN));
      FailingLeadsOn(before.ctl, i, b, j);
      GoesOn(before.ctl, FAILED_RUN);
      FailingKeeps(before, projects, i, b, j);
      all := ReachRun(w, more, projects, i, b, j);
    }
  }

  // ---------- the condition ----------

  /** What the last store left is what the snapshot is. */
  predicate Whole(w: World, b: string, p: string) {
    StoredBy(w, b, p) == Some(DirAt(w.fs, Snap(b, p)))
  }

  /** No store is recorded, or its snapshot is as it left it. */
  predicate Ready(w: World, b: string, p: string) {
    Have(w.ctl.out, StoreKey(b, p)) ==> Whole(w, b, p)
  }

  predicate ListsOnce(call: Call) {
    forall i, j :: 0 <= i < j < |call.projects| ==> call.projects[i] != call.projects[j]
  }

  /** The runs of this branch and project among the entries from number `n` on started on what their
      own store had left. */
  predicate OnOwnStore(log: seq<IncStart>, n: nat, b: string, p: string) {
    forall k :: n <= k < |log| && log[k].branch == b && log[k].project == p ==> log[k].own == Some(log[k].start)
  }

  /** Whatever the next call asks for, naming no project twice, and however it goes, each of its runs of
      this branch and project starts on what its own store left. */
  ghost predicate RunsHaveStore(w: World, projects: set<string>, b: string, p: string) {
    forall call, events ::
      ListsOnce(call) && (forall q :: q in call.projects ==> q in projects) && NoStarts(events) ==>
        OnOwnStore(Run(Apply(w, Start(call)), events).log, |w.log|, b, p)
  }

  predicate IsAt(c: Control, b: string, p: string) {
    c.HasProject() && c.Branch() == b && c.Project() == p
  }

  /** The call has not gone past this branch and project. */
  predicate StillToCome(c: Control, b: string, p: string) {
    forall i :: 0 <= i < |c.call.projects| && c.call.projects[i] == p ==>
      c.pos.i < i || (c.pos.i == i && (c.pos.perf ==> b == "perf"))
  }

  /** Until its turn is over, a snapshot in use is whole, but for its own copy. */
  ghost predicate KeepsStore(w: World, b: string, p: string) {
    !AtRest(w.ctl) && StillToCome(w.ctl, b, p) && InUse(w, b, p) && !(w.ctl.loc == Snapshot && IsAt(w.ctl, b, p)) ==>
      Whole(w, b, p)
  }

  lemma NeverBack(c: Control, e: Event, b: string, p: string)
    requires !AtRest(c) && !AtRest(ControlNext(c, e)) && StillToCome(ControlNext(c, e), b, p)
    ensures StillToCome(c, b, p)
  {
    OnlyForward(c, e);
  }

  lemma OnlyForward(c: Control, e: Event)
    requires !AtRest(c) && !AtRest(ControlNext(c, e))
    ensures var d := ControlNext(c, e);
      d.call == c.call && (d.pos.i > c.pos.i || (d.pos.i == c.pos.i && (c.pos.perf ==> d.pos.perf)))
  {
    if e.Step? && c.HasProject() {
      if InStoreCommands(c) {
        StoreForward(c, e.run);
      } else {
        IncForward(c, e.run);
      }
    }
  }

  lemma StoreForward(c: Control, run: ToolRun)
    requires c.HasProject()
    ensures var d := StoreAdvanced(c, run);
      d.call == c.call && (d.pos.i > c.pos.i || (d.pos.i == c.pos.i && (c.pos.perf ==> d.pos.perf)))
  {}

  lemma IncForward(c: Control, run: ToolRun)
    requires c.HasProject()
    ensures var d := IncAdvanced(c, run);
      d.call == c.call && (d.pos.i > c.pos.i || (d.pos.i == c.pos.i && (c.pos.perf ==> d.pos.perf)))
  {}

  /** The turn of a branch and project is over once its cleanup is. */
  lemma OverAfterCleanup(c: Control, b: string, p: string)
    requires IsAt(c, b, p) && c.loc == EndRmSnap
    ensures !StillToCome(NextBranch(c), b, p)
  {
    assert c.call.projects[c.pos.i] == p;
  }

  /** Its own copy makes the snapshot whole. */
  lemma CopyMakesWhole(w: World, run: ToolRun, b: string, p: string)
    requires Here(w) && IsBranch(b) && IsAt(w.ctl, b, p) && w.ctl.loc == Snapshot
    ensures Whole(Apply(w, Step(run)), b, p)
  {
    PathsDistinct(b, p, b, p);
  }

  /** Every other command of its turn, up to the cleanup, leaves a snapshot in use alone. */
  lemma TurnKeepsWhole(w: World, run: ToolRun, b: string, p: string)
    requires PhaseInv(w.ctl) && IsBranch(b) && IsAt(w.ctl, b, p) && Whole(w, b, p)
    requires w.ctl.loc in {StoreCheck, IncCheck, IncRmPdir, IncRestore, IncRun, IncAppend, EndRmPdir}
    ensures Whole(Apply(w, Step(run)), b, p)
  {
    PathsDistinct(b, p, b, p);
  }

  lemma KeepsHere(w: World, run: ToolRun, b: string, p: string)
    requires PhaseInv(w.ctl) && Here(w) && IsBranch(b) && IsAt(w.ctl, b, p) && !AtRest(w.ctl) && KeepsStore(w, b, p)
    requires w.ctl.loc !in {CreateTable, WriteHeader, NextProject}
    ensures KeepsStore(Apply(w, Step(run)), b, p)
  {
    var next := Apply(w, Step(run));
    if !AtRest(next.ctl) && StillToCome(next.ctl, b, p) && InUse(next, b, p)
       && !(next.ctl.loc == Snapshot && IsAt(next.ctl, b, p)) {
      NeverBack(w.ctl, Step(run), b, p);
      if w.ctl.loc == EndRmSnap {
        OverAfterCleanup(w.ctl, b, p);
      } else if w.ctl.loc == Snapshot {
        CopyMakesWhole(w, run, b, p);
      } else if InUse(w, b, p) {
        TurnKeepsWhole(w, run, b, p);
      } else {
        ComesIntoUse(w, Step(run), b, p);
      }
    }
  }

  lemma KeepsElsewhere(w: World, e: Event, b: string, p: string)
    requires PhaseInv(w.ctl) && !AtRest(w.ctl) && KeepsStore(w, b, p) && IsBranch(b)
    requires !IsAt(w.ctl, b, p) || w.ctl.loc in {CreateTable, WriteHeader, NextProject}
    requires w.ctl.HasProject() && !IsAt(w.ctl, b, p) ==>
      Snap(b, p) !in {Pdir(w.ctl.Branch(), w.ctl.Project()), Snap(w.ctl.Branch(), w.ctl.Project())}
    ensures KeepsStore(Apply(w, e), b, p)
  {
    var next := Apply(w, e);
    if !AtRest(next.ctl) && StillToCome(next.ctl, b, p) && InUse(next, b, p) {
      NeverBack(w.ctl, e, b, p);
      StoredStays(w, e, b, p);
      if w.ctl.HasProject() && !IsAt(w.ctl, b, p) {
        WriteIsLocal(w, e, Snap(b, p));
      }
      if !InUse(w, b, p) {
        ComesIntoUse(w, e, b, p);
      }
    }
  }

  lemma KeepsStep(w: World, e: Event, projects: set<string>, b: string, p: string)
    requires NoAlias(projects) && Isolated(w, projects) && IsBranch(b) && p in projects
    requires KeepsStore(w, b, p) && !e.Start?
    ensures KeepsStore(Apply(w, e), b, p)
  {
    if !AtRest(w.ctl) {
      if w.ctl.HasProject() {
        HereSnapshotOk(w, projects);
        PathsDistinct(b, p, w.ctl.Branch(), w.ctl.Project());
      }
      if e.Step? && IsAt(w.ctl, b, p) && w.ctl.loc !in {CreateTable, WriteHeader, NextProject} {
        KeepsHere(w, e.run, b, p);
      } else if e.Step? {
        KeepsElsewhere(w, e, b, p);
      }
    }
  }

  /** An entry of this branch and project is made during its turn. */
  lemma EntryHasStore(w: World, e: Event, b: string, p: string)
    requires Here(w) && KeepsStore(w, b, p) && ListsOnce(w.ctl.call)
    ensures LogNext(w, e) == w.log
      || exists s :: LogNext(w, e) == w.log + [s] && (s.branch == b && s.project == p ==> s.own == Some(s.start))
  {
    if LogNext(w, e) != w.log && IsAt(w.ctl, b, p) {
      assert w.ctl.call.projects[w.ctl.pos.i] == p && StillToCome(w.ctl, b, p) && InUse(w, b, p);
    }
  }

  lemma AddsOne(log: seq<IncStart>, next: seq<IncStart>, n: nat, b: string, p: string)
    requires n <= |log| && OnOwnStore(log, n, b, p)
    requires next == log ||
             exists s :: next == log + [s] && (s.branch == b && s.project == p ==> s.own == Some(s.start))
    ensures n <= |next| && OnOwnStore(next, n, b, p)
  {}

  lemma {:induction false} CallKeepsStore(w: World, events: seq<Event>, projects: set<string>, b: string, p: string,
                                          n: nat)
    requires NoAlias(projects) && Isolated(w, projects) && IsBranch(b) && p in projects && NoStarts(events)
    requires KeepsStore(w, b, p) && ListsOnce(w.ctl.call) && n <= |w.log| && OnOwnStore(w.log, n, b, p)
    ensures var after := Run(w, events);
      && Isolated(after, projects) && KeepsStore(after, b, p) && ListsOnce(after.ctl.call)
      && n <= |after.log| && OnOwnStore(after.log, n, b, p)
  {
    if events != [] {
      var last := |events| - 1;
      var before := Run(w, events[..last]);
      CallKeepsStore(w, events[..last], projects, b, p, n);
      assert events[last] in events;
      IsolationStep(before, events[last], projects);
      KeepsStep(before, events[last], projects, b, p);
      EntryHasStore(before, events[last], b, p);
      AddsOne(before.log, LogNext(before, events[last]), n, b, p);
      CallStays(before.ctl, events[last]);
    }
  }

  // ---------- a run without its store ----------

  /** A sample name that no row has. */
  lemma {:induction false} FreshSample(lines: seq<Line>) returns (sample: string)
    ensures forall i :: 0 <= i < |lines| && lines[i].Row? ==> |lines[i].key.sample| < |sample|
  {
    if lines == [] {
      sample := "x";
    } else {
      var n := |lines| - 1;
      sample := FreshSample(lines[..n]);
      if lines[n].Row? {
        sample := sample + lines[n].key.sample + "x";
      }
    }
  }

  lemma FreshIsNew(out: Table, sample: string, b: string, p: string)
    requires out.Some? ==>
               forall i :: 0 <= i < |out.value| && out.value[i].Row? ==> |out.value[i].key.sample| < |sample|
    ensures !Have(out, IncKey(b, p, sample))
  {}

  lemma {:induction false} IsolationKept(w: World, events: seq<Event>, projects: set<string>)
    requires NoAlias(projects) && Isolated(w, projects) && Within(events, projects)
    ensures Isolated(Run(w, events), projects) && |w.log| <= |Run(w, events).log|
  {
    if events != [] {
      IsolationKept(w, events[..|events| - 1], projects);
      IsolationStep(Run(w, events[..|events| - 1]), events[|events| - 1], projects);
    }
  }

  /** The entry that the run makes. */
  lemma ArrivedStarts(w: World, b: string, p: string)
    requires Here(w) && w.ctl.loc == IncRun && w.ctl.HasSample() && IsAt(w.ctl, b, p)
    ensures var log := Apply(w, Step(FAILED_RUN)).log;
      |log| == |w.log| + 1 && var s := log[|w.log|];
      s.branch == b && s.project == p && s.start == DirAt(w.fs, Snap(b, p)) && s.own == StoredBy(w, b, p)
  {}

  /** From the start of a call that owes a run of `p`, some course of it starts that run on the
      snapshot as it is now. */
  lemma StartsOnSnapshot(w: World, projects: set<string>, i: nat, b: string, j: nat) returns (events: seq<Event>)
    requires NoAlias(projects) && Isolated(w, projects) && Towards(w.ctl, i, b, j)
    ensures NoStarts(events)
    ensures var log, p := Run(w, events).log, w.ctl.call.projects[i];
      |w.log| < |log| && var s := log[|log| - 1];
      s.branch == b && s.project == p && s.start == DirAt(w.fs, Snap(b, p)) && s.own == StoredBy(w, b, p)
  {
    assert Run(w, []) == w;
    var way := ReachRun(w, [], projects, i, b, j);
    IsolationKept(w, way, projects);
    ArrivedStarts(Run(w, way), b, w.ctl.call.projects[i]);
    events := way + [Step(FAILED_RUN)];
    assert events[..|events| - 1] == way;
    assert Run(w, events) == Apply(Run(w, way), Step(FAILED_RUN));
  }

  /** A call for one new sample of one project. */
  function OneSample(p: string, sample: string): Call {
    Call([p], map[p := [sample]], 1)
  }

  lemma OneSampleTowards(w: World, p: string, sample: string, b: string)
    requires AtRest(w.ctl) && IsBranch(b) && Have(w.ctl.out, StoreKey(b, p)) && !Have(w.ctl.out, IncKey(b, p, sample))
    ensures Towards(Apply(w, Start(OneSample(p, sample))).ctl, 0, b, 0)
  {}

  lemma NotReadyIsSeen(w: World, projects: set<string>, b: string, p: string)
    requires AtRest(w.ctl) && Isolated(w, projects) && NoAlias(projects) && IsBranch(b) && p in projects
    requires !Ready(w, b, p)
    ensures !RunsHaveStore(w, projects, b, p)
  {
    var sample := FreshSample(w.ctl.out.value);
    FreshIsNew(w.ctl.out, sample, b, p);
    var call := OneSample(p, sample);
    var begun := Apply(w, Start(call));
    OneSampleTowards(w, p, sample, b);
    IsolationStep(w, Start(call), projects);
    AtRestWritesNothing(w, Start(call));
    StoredStays(w, Start(call), b, p);
    assert begun.log == w.log;
    var events := StartsOnSnapshot(begun, projects, 0, b, 0);
    assert !OnOwnStore(Run(begun, events).log, |w.log|, b, p);
  }

  /** Before any call that names no project twice: each run of this branch and project that the call
      comes to make, however it goes, starts on what its own store left, exactly when no store of it is
      recorded or the snapshot is as the store left it. */
  lemma StoreIffReady(w: World, projects: set<string>, b: string, p: string)
    requires AtRest(w.ctl) && Isolated(w, projects) && NoAlias(projects) && IsBranch(b) && p in projects
    ensures RunsHaveStore(w, projects, b, p) <==> Ready(w, b, p)
  {
    if Ready(w, b, p) {
      forall call, events | ListsOnce(call) && (forall q :: q in call.projects ==> q in projects) && NoStarts(events)
        ensures OnOwnStore(Run(Apply(w, Start(call)), events).log, |w.log|, b, p)
      {
        ReadyStarts(w, call, projects, b, p);
        CallKeepsStore(Apply(w, Start(call)), events, projects, b, p, |w.log|);
      }
    } else {
      NotReadyIsSeen(w, projects, b, p);
    }
  }

  lemma ReadyStarts(w: World, call: Call, projects: set<string>, b: string, p: string)
    requires AtRest(w.ctl) && Isolated(w, projects) && NoAlias(projects) && Ready(w, b, p)
    requires forall q :: q in call.projects ==> q in projects
    ensures var begun := Apply(w, Start(call));
      Isolated(begun, projects) && KeepsStore(begun, b, p) && begun.ctl.call == call && begun.log == w.log
  {
    IsolationStep(w, Start(call), projects);
    AtRestWritesNothing(w, Start(call));
    StoredStays(w, Start(call), b, p);
  }

  // ---------- a project named twice ----------

  /** The same call names the current project again, next at `i`, with a sample `j` still to do there. */
  predicate NamedAgain(c: Control, i: nat, j: nat) {
    && Placed(c) && c.HasProject() && c.out.Some? && c.pos.i < i && Owes(c.out, c.call, i, c.Branch(), j)
    && c.call.projects[i] == c.Project()
    && forall k :: c.pos.i < k < i ==> c.call.projects[k] != c.Project()
  }

  lemma CleanedUpTowards(c: Control, i: nat, j: nat)
    requires NamedAgain(c, i, j) && c.loc == EndRmSnap
    ensures Towards(NextBranch(c), i, c.Branch(), j)
  {
    NextBranchGoesOn(c);
  }

  lemma CleanupStep(w: World)
    requires w.ctl.HasProject() && w.ctl.loc == EndRmSnap
    ensures var after := Apply(w, Step(FAILED_RUN));
      after.ctl == NextBranch(w.ctl) && after.log == w.log && Snap(w.ctl.Branch(), w.ctl.Project()) !in after.fs
  {}

  /** The log has grown past `n`, last by a run of this branch and project that had no store. */
  predicate EndsBare(log: seq<IncStart>, n: nat, b: string, p: string) {
    n < |log| && log[|log| - 1].branch == b && log[|log| - 1].project == p && log[|log| - 1].start == None
  }

  lemma CleanedUpBare(w: World, projects: set<string>, i: nat, b: string, j: nat) returns (events: seq<Event>)
    requires NoAlias(projects) && Isolated(w, projects) && Towards(w.ctl, i, b, j)
    requires Snap(b, w.ctl.call.projects[i]) !in w.fs
    ensures NoStarts(events) && EndsBare(Run(w, events).log, |w.log|, b, w.ctl.call.projects[i])
  {
    events := StartsOnSnapshot(w, projects, i, b, j);
  }

  /** At the end of the cleanup of a branch and project that the same call names again: some course of
      the call then runs the sample without a store. */
  lemma NamedTwice(w: World, projects: set<string>, i: nat, j: nat) returns (events: seq<Event>)
    requires NoAlias(projects) && Isolated(w, projects) && NamedAgain(w.ctl, i, j) && w.ctl.loc == EndRmSnap
    ensures NoStarts(events) && EndsBare(Run(w, events).log, |w.log|, w.ctl.Branch(), w.ctl.Project())
  {
    CleanupStep(w);
    CleanedUpTowards(w.ctl, i, j);
    IsolationStep(w, Step(FAILED_RUN), projects);
    events := FirstThen(w, Step(FAILED_RUN), projects, i, w.ctl.Branch(), j, |w.log|);
  }

  lemma FirstThen(w: World, e: Event, projects: set<string>, i: nat, b: string, j: nat, n: nat)
    returns (events: seq<Event>)
    requires NoAlias(projects) && !e.Start? && Isolated(Apply(w, e), projects) && Towards(Apply(w, e).ctl, i, b, j)
    requires Snap(b, Apply(w, e).ctl.call.projects[i]) !in Apply(w, e).fs && n == |Apply(w, e).log|
    ensures NoStarts(events) && EndsBare(Run(w, events).log, n, b, Apply(w, e).ctl.call.projects[i])
  {
    var rest := CleanedUpBare(Apply(w, e), projects, i, b, j);
    events := [e] + rest;
    RunCons(w, e, rest);
  }
}
