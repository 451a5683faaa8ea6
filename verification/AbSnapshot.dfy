/**
 Isolation of the incremental runs: over every history of killed, resumed and completed
 invocations, an incremental run starts on the snapshot as it is at that moment, and that
 snapshot is absent, or exactly what the successful store left, or what a kill tore.
 */
module AbSnapshot {
  import opened Wrappers
  import opened AbHarness
  import opened AbTable

  predicate IsBranch(b: string) {
    b in {"main", "perf"}
  }

  /** No project name has a slash: its directories are single entries of /tmp. */
  ghost predicate PlainNames(projects: set<string>) {
    forall p :: p in projects ==> '/' !in p
  }

  /** The names are plain, and no project is named like another one's snapshot. */
  ghost predicate NoAlias(projects: set<string>) {
    PlainNames(projects) && forall p :: p in projects ==> p + "_snap" !in projects
  }

  // ---------- paths ----------

  lemma PathParts(b: string, p: string)
    requires |b| == 4
    ensures |Pdir(b, p)| == |p| + 13 && Pdir(b, p)[8..12] == b && Pdir(b, p)[13..] == p
    ensures Snap(b, p) == Pdir(b, p + "_snap")
  {
    var prefix := "/tmp/ab_";
    assert |prefix| == 8;
    assert Pdir(b, p) == prefix + b + "_" + p;
    assert prefix + b + "_" + (p + "_snap") == prefix + b + "_" + p + "_snap";
  }

  /** Two models directories coincide only for the same branch and project. */
  lemma PdirInjective(b: string, p: string, b': string, p': string)
    requires IsBranch(b) && IsBranch(b')
    ensures Pdir(b, p) == Pdir(b', p') <==> b == b' && p == p'
  {
    PathParts(b, p);
    PathParts(b', p');
  }

  /** Where the two kinds of directories meet. */
  lemma PathsDistinct(b: string, p: string, b': string, p': string)
    requires IsBranch(b) && IsBranch(b')
    ensures Snap(b, p) == Pdir(b', p') <==> b == b' && p' == p + "_snap"
    ensures Snap(b, p) == Snap(b', p') <==> b == b' && p == p'
    ensures Snap(b, p) != Pdir(b, p)
  {
    PathParts(b, p);
    PathParts(b', p');
    PdirInjective(b, p + "_snap", b', p');
    PdirInjective(b, p + "_snap", b', p' + "_snap");
    PdirInjective(b, p + "_snap", b, p);
    assert |p + "_snap"| == |p| + 5;
    if p + "_snap" == p' + "_snap" {
      assert |p| == |p'| && p == (p + "_snap")[..|p|] == (p' + "_snap")[..|p'|] == p';
    }
  }

  /** A path is a directory or lies inside it. */
  predicate Inside(path: string, dir: string) {
    path == dir || (|dir| < |path| && path[..|dir|] == dir && path[|dir|] == '/')
  }

  /** Which project's models directory is another one's snapshot or lies inside it: for names with
      slashes there are more of them. */
  lemma PathsNested(b: string, p: string, b': string, q: string)
    requires IsBranch(b) && IsBranch(b')
    ensures Inside(Pdir(b', q), Snap(b, p)) <==> b == b' && Inside(q, p + "_snap")
    ensures '/' !in q ==> (Inside(Pdir(b', q), Snap(b, p)) <==> b == b' && q == p + "_snap")
  {
    PathParts(b, p);
    PathParts(b', q);
    PathParts(b, p + "_snap");
    PdirInjective(b, p + "_snap", b', q);
  }

  /** For plain names, no models directory or snapshot lies inside another one. */
  lemma PlainPathsApart(b: string, p: string, b': string, q: string)
    requires IsBranch(b) && IsBranch(b') && '/' !in q
    ensures forall path, dir | path in {Pdir(b', q), Snap(b', q)} && dir in {Pdir(b, p), Snap(b, p)} ::
              Inside(path, dir) ==> path == dir
  {}

  // ---------- the invariant ----------

  /** A store has succeeded, and its snapshot is absent, pristine, or what a kill left. */
  ghost predicate Held(w: World, b: string, p: string) {
    && (b, p) in w.stored
    && (Snap(b, p) in w.torn || DirAt(w.fs, Snap(b, p)) in {None, w.stored[(b, p)]})
  }

  ghost predicate SnapshotOk(w: World, b: string, p: string) {
    Have(w.ctl.out, StoreKey(b, p)) ==> Held(w, b, p)
  }

  /** It started on the snapshot of its moment, which was absent, or what its own store left, or
      what a kill left. */
  ghost predicate StartOk(s: IncStart) {
    s.start == s.snapshot && s.own.Some? && (s.snapshotTorn || s.start in {None, s.own.value})
  }

  predicate AfterStore(loc: Loc) {
    loc in {IncCheck, IncRmPdir, IncRestore, IncRun, IncAppend, EndRmPdir, EndRmSnap}
  }

  /** What holds at the current command of the current branch and project. */
  ghost predicate Here(w: World) {
    w.ctl.HasProject() ==>
      var b, p, loc := w.ctl.Branch(), w.ctl.Project(), w.ctl.loc;
      var pdir, snap := DirAt(w.fs, Pdir(b, p)), DirAt(w.fs, Snap(b, p));
      && (loc in {StoreMkdir, StoreRun, StoreAppend, Snapshot} ==> snap == None && Snap(b, p) !in w.torn)
      && (loc in {StoreAppend, Snapshot} ==> (b, p) in w.stored && w.stored[(b, p)] == pdir)
      && (AfterStore(loc) ==> Held(w, b, p))
      && (loc == IncRestore ==> pdir == None)
      && (loc == IncRun ==> pdir == snap)
  }

  ghost predicate Isolated(w: World, projects: set<string>) {
    && PhaseInv(w.ctl)
    && (!AtRest(w.ctl) ==> forall p :: p in w.ctl.call.projects ==> p in projects)
    && Here(w)
    && (forall b, p :: IsBranch(b) && p in projects ==> SnapshotOk(w, b, p))
    && (forall s :: s in w.log ==> IsBranch(s.branch) && s.project in projects && StartOk(s))
  }

  // ---------- single events ----------

  /** An event writes no directory but the two of the current branch and project. */
  lemma WriteIsLocal(w: World, e: Event, path: string)
    requires w.ctl.HasProject() ==>
               path !in {Pdir(w.ctl.Branch(), w.ctl.Project()), Snap(w.ctl.Branch(), w.ctl.Project())}
    ensures DirAt(Apply(w, e).fs, path) == DirAt(w.fs, path)
    ensures path in Apply(w, e).torn <==> path in w.torn
  {}

  /** Only a store run changes what is stored, and only of its own branch and project. */
  lemma StoredStays(w: World, e: Event, b: string, p: string)
    requires w.ctl.loc == StoreRun && w.ctl.HasProject() ==> (b, p) != (w.ctl.Branch(), w.ctl.Project())
    ensures StoredBy(Apply(w, e), b, p) == StoredBy(w, b, p)
  {}

  /** Only its own append records a store. */
  lemma NewStoreKey(c: Control, e: Event, b: string, p: string)
    requires PhaseInv(c) && !Have(c.out, StoreKey(b, p))
    ensures Have(ControlNext(c, e).out, StoreKey(b, p)) ==>
              c.loc == StoreAppend && c.HasProject() && c.Branch() == b && c.Project() == p
  {
    if c.HasProject() && c.loc == StoreAppend {
      AppendForgetsNone(c.out, StoreKey(c.Branch(), c.Project()), c.ms, StoreKey(b, p));
    } else if c.HasProject() && c.loc == IncAppend {
      AppendForgetsNone(c.out, IncKey(c.Branch(), c.Project(), c.Sample()), c.ms, StoreKey(b, p));
    }
  }

  lemma OtherSnapshots(w: World, e: Event, b: string, p: string)
    requires PhaseInv(w.ctl) && SnapshotOk(w, b, p)
    requires w.ctl.HasProject() ==> (b, p) != (w.ctl.Branch(), w.ctl.Project())
    requires w.ctl.HasProject() ==>
      Snap(b, p) !in {Pdir(w.ctl.Branch(), w.ctl.Project()), Snap(w.ctl.Branch(), w.ctl.Project())}
    ensures SnapshotOk(Apply(w, e), b, p)
  {
    WriteIsLocal(w, e, Snap(b, p));
    StoredStays(w, e, b, p);
    if !Have(w.ctl.out, StoreKey(b, p)) {
      NewStoreKey(w.ctl, e, b, p);
    }
  }

  lemma ThisSnapshot(w: World, e: Event)
    requires PhaseInv(w.ctl) && w.ctl.HasProject() && Here(w) && SnapshotOk(w, w.ctl.Branch(), w.ctl.Project())
    ensures SnapshotOk(Apply(w, e), w.ctl.Branch(), w.ctl.Project())
  {
    var b, p := w.ctl.Branch(), w.ctl.Project();
    PathsDistinct(b, p, b, p);
    if !Have(w.ctl.out, StoreKey(b, p)) {
      NewStoreKey(w.ctl, e, b, p);
    }
  }

  /** The condition at the current command survives the command.  First the removals, the
      directory made and the lookups. */
  lemma HereRemoval(w: World, run: ToolRun)
    requires Here(w) && w.ctl.HasProject()
    requires w.ctl.loc in {StoreRmPdir, StoreRmSnap, IncRmPdir}
    ensures Here(Apply(w, Step(run)))
  {
    PathsDistinct(w.ctl.Branch(), w.ctl.Project(), w.ctl.Branch(), w.ctl.Project());
  }

  /** The cleanup. */
  lemma HereCleanup(w: World, run: ToolRun)
    requires Here(w) && w.ctl.HasProject() && w.ctl.loc in {EndRmPdir, EndRmSnap}
    ensures Here(Apply(w, Step(run)))
  {}

  lemma HereMkdir(w: World, run: ToolRun)
    requires Here(w) && w.ctl.HasProject() && w.ctl.loc == StoreMkdir
    ensures Here(Apply(w, Step(run)))
  {
    PathsDistinct(w.ctl.Branch(), w.ctl.Project(), w.ctl.Branch(), w.ctl.Project());
  }

  lemma HereStoreLookup(w: World, run: ToolRun)
    requires Here(w) && w.ctl.HasProject() && w.ctl.loc == StoreCheck
    requires SnapshotOk(w, w.ctl.Branch(), w.ctl.Project())
    ensures Here(Apply(w, Step(run)))
  {}

  lemma HereIncLookup(w: World, run: ToolRun)
    requires Here(w) && w.ctl.HasProject() && w.ctl.loc == IncCheck
    ensures Here(Apply(w, Step(run)))
  {}

  /** The two copies. */
  lemma HereSnapshot(w: World, run: ToolRun)
    requires Here(w) && w.ctl.HasProject() && w.ctl.loc == Snapshot
    ensures Here(Apply(w, Step(run)))
  {
    PathsDistinct(w.ctl.Branch(), w.ctl.Project(), w.ctl.Branch(), w.ctl.Project());
  }

  lemma HereRestore(w: World, run: ToolRun)
    requires Here(w) && w.ctl.HasProject() && w.ctl.loc == IncRestore
    ensures Here(Apply(w, Step(run)))
  {
    PathsDistinct(w.ctl.Branch(), w.ctl.Project(), w.ctl.Branch(), w.ctl.Project());
  }

  /** The two tool runs. */
  lemma HereStoreRun(w: World, run: ToolRun)
    requires Here(w) && w.ctl.HasProject() && w.ctl.loc == StoreRun
    ensures Here(Apply(w, Step(run)))
  {
    PathsDistinct(w.ctl.Branch(), w.ctl.Project(), w.ctl.Branch(), w.ctl.Project());
  }

  lemma HereIncRun(w: World, run: ToolRun)
    requires Here(w) && w.ctl.HasProject() && w.ctl.loc == IncRun
    ensures Here(Apply(w, Step(run)))
  {}

  /** The two appends. */
  lemma HereAppend(w: World, run: ToolRun)
    requires PhaseInv(w.ctl) && Here(w) && w.ctl.HasProject() && w.ctl.loc in {StoreAppend, IncAppend}
    ensures Here(Apply(w, Step(run)))
  {}

  /** A start or a kill, or a state without a branch and project, says nothing of the new place. */
  lemma HereAtRest(w: World, e: Event)
    requires Here(w) && (AtRest(w.ctl) || !e.Step?)
    ensures Here(Apply(w, e))
  {
    var next := ControlNext(w.ctl, e);
    if next != w.ctl {
      assert next.loc in {Idle, CreateTable};
    } else {
      assert Apply(w, e).fs == w.fs && Apply(w, e).stored == w.stored && Apply(w, e).torn == w.torn;
    }
  }

  lemma HereBetween(w: World, run: ToolRun)
    requires !AtRest(w.ctl) && (!w.ctl.HasProject() || w.ctl.loc in {CreateTable, WriteHeader, NextProject})
    ensures Here(Apply(w, Step(run)))
  {
    var next := Advanced(w.ctl, run);
    assert next.loc in {WriteHeader, NextProject, Finished, StoreCheck} || !next.HasProject();
  }

  lemma HereStays(w: World, e: Event)
    requires PhaseInv(w.ctl) && Here(w)
    requires w.ctl.HasProject() ==> SnapshotOk(w, w.ctl.Branch(), w.ctl.Project())
    ensures Here(Apply(w, e))
  {
    if !e.Step? || AtRest(w.ctl) {
      HereAtRest(w, e);
    } else if !w.ctl.HasProject() {
      HereBetween(w, e.run);
    } else {
      match w.ctl.loc
      case CreateTable | WriteHeader | NextProject => HereBetween(w, e.run);
      case StoreCheck => HereStoreLookup(w, e.run);
      case IncCheck => HereIncLookup(w, e.run);
      case StoreRmPdir | StoreRmSnap | IncRmPdir => HereRemoval(w, e.run);
      case EndRmPdir | EndRmSnap => HereCleanup(w, e.run);
      case StoreMkdir => HereMkdir(w, e.run);
      case Snapshot => HereSnapshot(w, e.run);
      case IncRestore => HereRestore(w, e.run);
      case StoreRun => HereStoreRun(w, e.run);
      case IncRun => HereIncRun(w, e.run);
      case StoreAppend | IncAppend => HereAppend(w, e.run);
    }
  }

  /** An incremental run that starts now starts as it should. */
  lemma NewStart(w: World, e: Event)
    requires w.ctl.HasProject() && Here(w) && LogNext(w, e) != w.log
    ensures |LogNext(w, e)| == |w.log| + 1 && LogNext(w, e)[..|w.log|] == w.log
    ensures var s := LogNext(w, e)[|w.log|];
      s.branch == w.ctl.Branch() && s.project == w.ctl.Project() && StartOk(s)
  {}

  lemma SnapshotsStayOk(w: World, e: Event, projects: set<string>, b: string, p: string)
    requires NoAlias(projects) && Isolated(w, projects) && IsBranch(b) && p in projects
    ensures SnapshotOk(Apply(w, e), b, p)
  {
    if w.ctl.HasProject() && !AtRest(w.ctl) {
      var b', p' := w.ctl.Branch(), w.ctl.Project();
      assert p' in w.ctl.call.projects;
      if (b, p) == (b', p') {
        ThisSnapshot(w, e);
      } else {
        PathsDistinct(b, p, b', p');
        OtherSnapshots(w, e, b, p);
      }
    } else {
      AtRestSnapshots(w, e, b, p);
    }
  }

  lemma AtRestSnapshots(w: World, e: Event, b: string, p: string)
    requires PhaseInv(w.ctl) && SnapshotOk(w, b, p) && (AtRest(w.ctl) || !w.ctl.HasProject())
    ensures SnapshotOk(Apply(w, e), b, p)
  {
    if !Have(w.ctl.out, StoreKey(b, p)) {
      NewStoreKey(w.ctl, e, b, p);
    }
  }

  lemma HereSnapshotOk(w: World, projects: set<string>)
    requires Isolated(w, projects) && !AtRest(w.ctl) && w.ctl.HasProject()
    ensures w.ctl.Project() in projects && SnapshotOk(w, w.ctl.Branch(), w.ctl.Project())
  {
    assert w.ctl.Project() in w.ctl.call.projects;
  }

  lemma IsolationStep(w: World, e: Event, projects: set<string>)
    requires NoAlias(projects) && Isolated(w, projects)
    requires e.Start? ==> forall p :: p in e.call.projects ==> p in projects
    ensures Isolated(Apply(w, e), projects)
  {
    ControlPhase(w.ctl, e);
    CallStays(w.ctl, e);
    if AtRest(w.ctl) {
      HereAtRest(w, e);
    } else {
      if w.ctl.HasProject() {
        HereSnapshotOk(w, projects);
      }
      HereStays(w, e);
    }
    forall b, p | IsBranch(b) && p in projects ensures SnapshotOk(Apply(w, e), b, p) {
      SnapshotsStayOk(w, e, projects, b, p);
    }
    forall s | s in Apply(w, e).log ensures IsBranch(s.branch) && s.project in projects && StartOk(s) {
      if s !in w.log {
        HereSnapshotOk(w, projects);
        NewStart(w, e);
      }
    }
  }

  lemma CallStays(c: Control, e: Event)
    ensures !e.Start? ==> ControlNext(c, e).call == c.call && (AtRest(c) ==> AtRest(ControlNext(c, e)))
    ensures e.Start? ==> ControlNext(c, e) == c || ControlNext(c, e).call == e.call
  {}

  // ---------- whole histories ----------

  /** A first use: nothing running, nothing recorded where a lookup sees it, no history; the disk
      may hold anything. */
  ghost predicate FirstUse(w: World) {
    AtRest(w.ctl) && w.ctl.out in {None, Some([]), Some([Header])} && w.log == [] && w.torn == {}
  }

  lemma {:induction false} IsolationHolds(w: World, events: seq<Event>, projects: set<string>)
    requires FirstUse(w) && Within(events, projects) && NoAlias(projects)
    ensures Isolated(Run(w, events), projects)
  {
    if events != [] {
      var last := |events| - 1;
      IsolationHolds(w, events[..last], projects);
      IsolationStep(Run(w, events[..last]), events[last], projects);
    }
  }

  /** Every incremental run ever started, whatever became of the table file's header: on the
      snapshot of that moment, which was absent, or what the last successful store of its branch
      and project had left, or what a kill had left. */
  lemma EveryStartIsIsolated(w: World, events: seq<Event>, projects: set<string>, s: IncStart)
    requires FirstUse(w) && Within(events, projects) && NoAlias(projects)
    requires s in Run(w, events).log
    ensures s.start == s.snapshot && s.own.Some?
    ensures s.snapshotTorn || s.start in {None, s.own.value}
  {
    IsolationHolds(w, events, projects);
  }
}
