/**
 Exactly which project names, and which kills that tear a directory, keep the incremental runs
 isolated, with the histories that break isolation otherwise.
 */
module AbLimits {
  import opened Wrappers
  import opened AbHarness
  import opened AbTable
  import opened AbSnapshot

  // ---------- histories ----------

  lemma RunLast(w: World, before: seq<Event>, e: Event)
    ensures Run(w, before + [e]) == Apply(Run(w, before), e)
  {
    assert (before + [e])[..|before|] == before;
  }

  lemma {:induction false} RunPlus(w: World, first: seq<Event>, second: seq<Event>)
    ensures Run(w, first + second) == Run(Run(w, first), second)
  {
    if second == [] {
      assert first + second == first;
    } else {
      var rest, last := second[..|second| - 1], second[|second| - 1];
      RunPlus(w, first, rest);
      RunLast(w, first + rest, last);
      RunLast(Run(w, first), rest, last);
      assert second == rest + [last] && first + second == (first + rest) + [last];
    }
  }

  lemma RunCons(w: World, e: Event, rest: seq<Event>)
    ensures Run(w, [e] + rest) == Run(Apply(w, e), rest)
  {
    assert [] + [e] == [e];
    RunLast(w, [], e);
    RunPlus(w, [e], rest);
  }

  // ---------- reachable states ----------

  /** Every kill that leaves its directory changed comes inside one of these commands. */
  ghost predicate TearsOnlyAt(w: World, events: seq<Event>, tearable: set<Loc>) {
    forall n :: 0 <= n < |events| && Tears(events[n]) ==> Run(w, events[..n]).ctl.loc in tearable
  }

  predicate Tears(e: Event) {
    e.Kill? && e.left.Some?
  }

  lemma TearsPlusAt(w: World, first: seq<Event>, second: seq<Event>, tearable: set<Loc>, n: nat)
    requires TearsOnlyAt(w, first, tearable) && TearsOnlyAt(Run(w, first), second, tearable)
    requires n < |first + second| && Tears((first + second)[n])
    ensures Run(w, (first + second)[..n]).ctl.loc in tearable
  {
    if n < |first| {
      assert (first + second)[..n] == first[..n] && Tears(first[n]);
    } else {
      var k := n - |first|;
      assert (first + second)[..n] == first + second[..k] && Tears(second[k]);
      RunPlus(w, first, second[..k]);
    }
  }

  lemma TearsPlus(w: World, first: seq<Event>, second: seq<Event>, tearable: set<Loc>)
    requires TearsOnlyAt(w, first, tearable) && TearsOnlyAt(Run(w, first), second, tearable)
    ensures TearsOnlyAt(w, first + second, tearable)
  {
    forall n | 0 <= n < |first + second| && Tears((first + second)[n])
      ensures Run(w, (first + second)[..n]).ctl.loc in tearable
    {
      TearsPlusAt(w, first, second, tearable, n);
    }
  }

  lemma TearsOne(w: World, e: Event, tearable: set<Loc>)
    requires Tears(e) ==> w.ctl.loc in tearable
    ensures TearsOnlyAt(w, [e], tearable) && Run(w, [e]) == Apply(w, e)
  {
    RunCons(w, e, []);
    assert [e] + [] == [e] && [e][..0] == [] && Run(w, []) == w;
  }

  /** Some history over these projects leads from `w` to `after`, tearing directories only at the
      given commands. */
  ghost predicate Reaches(w: World, after: World, projects: set<string>, tearable: set<Loc>) {
    exists events :: Within(events, projects) && TearsOnlyAt(w, events, tearable) && Run(w, events) == after
  }

  /** The event may happen in this state. */
  ghost predicate Allowed(w: World, e: Event, projects: set<string>, tearable: set<Loc>) {
    && (e.Start? ==> forall p :: p in e.call.projects ==> p in projects)
    && (Tears(e) ==> w.ctl.loc in tearable)
  }

  /** A set of states that no allowed event leaves. */
  ghost predicate ClosedUnder(reach: World -> bool, projects: set<string>, tearable: set<Loc>) {
    forall w, e :: reach(w) && Allowed(w, e, projects, tearable) ==> reach(Apply(w, e))
  }

  ghost function ReachableFrom(w: World, projects: set<string>, tearable: set<Loc>): World -> bool {
    (after: World) => Reaches(w, after, projects, tearable)
  }

  lemma ReachesNext(w: World, mid: World, e: Event, projects: set<string>, tearable: set<Loc>)
    requires Reaches(w, mid, projects, tearable) && Allowed(mid, e, projects, tearable)
    ensures Reaches(w, Apply(mid, e), projects, tearable)
  {
    var events :| Within(events, projects) && TearsOnlyAt(w, events, tearable) && Run(w, events) == mid;
    TearsOne(mid, e, tearable);
    TearsPlus(w, events, [e], tearable);
    RunPlus(w, events, [e]);
    assert Within(events + [e], projects);
  }

  lemma ReachableIsClosed(w: World, projects: set<string>, tearable: set<Loc>)
    ensures ClosedUnder(ReachableFrom(w, projects, tearable), projects, tearable)
    ensures ReachableFrom(w, projects, tearable)(w)
  {
    forall mid, e | Reaches(w, mid, projects, tearable) && Allowed(mid, e, projects, tearable)
      ensures Reaches(w, Apply(mid, e), projects, tearable)
    {
      ReachesNext(w, mid, e, projects, tearable);
    }
    assert Within([], projects) && TearsOnlyAt(w, [], tearable) && Run(w, []) == w;
  }

  /** One more event. */
  lemma Next(reach: World -> bool, w: World, e: Event, projects: set<string>, tearable: set<Loc>) returns (after: World)
    requires ClosedUnder(reach, projects, tearable) && reach(w) && Allowed(w, e, projects, tearable)
    ensures after == Apply(w, e) && reach(after)
  {
    after := Apply(w, e);
  }

  // ---------- single commands of short histories ----------

  const OK_RUN := ToolRun(0, Some(Files(1)), 0)

  /** A call on one project with one sample. */
  function OneProject(p: string): Call {
    Call([p], map[p := ["pr-1"]], 1)
  }

  /** Branch main, project `p`, first sample. */
  predicate At(c: Control, loc: Loc, p: string) {
    c.loc == loc && c.pos == Pos(0, false, 0, 0) && c.call == OneProject(p)
  }

  /** Nothing but the control state differs, and of that not the table. */
  predicate SameDisk(w: World, after: World) {
    after.(ctl := w.ctl) == w && after.ctl.out == w.ctl.out
  }

  /** The first three events of a call reach its first lookup and touch nothing. */
  lemma BeginSteps(w: World, p: string)
    requires AtRest(w.ctl) && w.ctl.out.Some?
    ensures var started := Apply(w, Start(OneProject(p)));
      var made := Apply(started, Step(OK_RUN));
      At(Apply(made, Step(OK_RUN)).ctl, StoreCheck, p) && SameDisk(w, Apply(made, Step(OK_RUN)))
  {
    var started := Apply(w, Start(OneProject(p)));
    assert At(started.ctl, CreateTable, p) && SameDisk(w, started);
    assert At(Apply(started, Step(OK_RUN)).ctl, NextProject, p) && SameDisk(w, Apply(started, Step(OK_RUN)));
  }

  lemma Begin(reach: World -> bool, w: World, p: string, projects: set<string>, tearable: set<Loc>)
    returns (after: World)
    requires ClosedUnder(reach, projects, tearable) && reach(w) && p in projects
    requires AtRest(w.ctl) && w.ctl.out.Some?
    ensures reach(after) && At(after.ctl, StoreCheck, p) && SameDisk(w, after)
  {
    after := Next(reach, w, Start(OneProject(p)), projects, tearable);
    after := Next(reach, after, Step(OK_RUN), projects, tearable);
    after := Next(reach, after, Step(OK_RUN), projects, tearable);
    BeginSteps(w, p);
  }

  lemma LookupStep(w: World, p: string)
    requires At(w.ctl, StoreCheck, p) || (At(w.ctl, IncCheck, p) && !Have(w.ctl.out, IncKey("main", p, "pr-1")))
    ensures var after := Apply(w, Step(OK_RUN));
      && SameDisk(w, after)
      && At(after.ctl, if w.ctl.loc == IncCheck then IncRmPdir
                       else if Have(w.ctl.out, StoreKey("main", p)) then IncCheck else StoreRmPdir, p)
  {
    assert w.ctl.HasSample() && w.ctl.Project() == p && w.ctl.Branch() == "main" && w.ctl.Sample() == "pr-1";
  }

  /** The two lookups, each with the answer the table gives. */
  lemma Lookup(reach: World -> bool, w: World, p: string, projects: set<string>, tearable: set<Loc>)
    returns (after: World)
    requires ClosedUnder(reach, projects, tearable) && reach(w)
    requires At(w.ctl, StoreCheck, p) || (At(w.ctl, IncCheck, p) && !Have(w.ctl.out, IncKey("main", p, "pr-1")))
    ensures reach(after) && SameDisk(w, after)
    ensures At(after.ctl, if w.ctl.loc == IncCheck then IncRmPdir
                          else if Have(w.ctl.out, StoreKey("main", p)) then IncCheck else StoreRmPdir, p)
  {
    LookupStep(w, p);
    after := Next(reach, w, Step(OK_RUN), projects, tearable);
  }

  function AfterRemove(loc: Loc): Loc {
    if loc == StoreRmPdir then StoreRmSnap else if loc == StoreRmSnap then StoreMkdir else IncRestore
  }

  lemma RemoveStep(w: World, p: string)
    requires At(w.ctl, StoreRmPdir, p) || At(w.ctl, StoreRmSnap, p) || At(w.ctl, IncRmPdir, p)
    ensures var path := if w.ctl.loc == StoreRmSnap then Snap("main", p) else Pdir("main", p);
      Apply(w, Step(OK_RUN)) ==
        w.(ctl := w.ctl.(loc := AfterRemove(w.ctl.loc)), fs := w.fs - {path}, torn := w.torn - {path})
  {
    assert w.ctl.HasProject() && w.ctl.Project() == p && w.ctl.Branch() == "main";
    assert WriteOf(w, Step(OK_RUN)) ==
      Some(Write(if w.ctl.loc == StoreRmSnap then Snap("main", p) else Pdir("main", p), None, false));
  }

  /** One of the removals. */
  lemma Remove(reach: World -> bool, w: World, p: string, projects: set<string>, tearable: set<Loc>)
    returns (after: World)
    requires ClosedUnder(reach, projects, tearable) && reach(w)
    requires At(w.ctl, StoreRmPdir, p) || At(w.ctl, StoreRmSnap, p) || At(w.ctl, IncRmPdir, p)
    ensures reach(after) && At(after.ctl, AfterRemove(w.ctl.loc), p)
    ensures var path := if w.ctl.loc == StoreRmSnap then Snap("main", p) else Pdir("main", p);
      after == w.(ctl := after.ctl, fs := w.fs - {path}, torn := w.torn - {path}) && after.ctl.out == w.ctl.out
  {
    RemoveStep(w, p);
    after := Next(reach, w, Step(OK_RUN), projects, tearable);
  }

  lemma Mkdir(reach: World -> bool, w: World, p: string, projects: set<string>, tearable: set<Loc>)
    returns (after: World)
    requires ClosedUnder(reach, projects, tearable) && reach(w)
    requires At(w.ctl, StoreMkdir, p) && Pdir("main", p) !in w.fs
    ensures reach(after) && At(after.ctl, StoreRun, p) && after.ctl.out == w.ctl.out
    ensures after == w.(ctl := after.ctl, fs := w.fs[Pdir("main", p) := Empty], torn := w.torn - {Pdir("main", p)})
  {
    after := Next(reach, w, Step(OK_RUN), projects, tearable);
  }

  /** A successful store, not yet recorded. */
  lemma StoreOk(reach: World -> bool, w: World, p: string, projects: set<string>, tearable: set<Loc>)
    returns (after: World)
    requires ClosedUnder(reach, projects, tearable) && reach(w) && At(w.ctl, StoreRun, p)
    ensures reach(after) && At(after.ctl, StoreAppend, p) && after.ctl.out == w.ctl.out
    ensures after == w.(ctl := after.ctl, fs := w.fs[Pdir("main", p) := Files(1)], torn := w.torn - {Pdir("main", p)},
                        stored := w.stored[("main", p) := Some(Files(1))])
  {
    after := Next(reach, w, Step(OK_RUN), projects, tearable);
  }

  lemma Record(reach: World -> bool, w: World, p: string, projects: set<string>, tearable: set<Loc>)
    returns (after: World)
    requires ClosedUnder(reach, projects, tearable) && reach(w) && At(w.ctl, StoreAppend, p) && w.ctl.out.Some?
    ensures reach(after) && At(after.ctl, Snapshot, p)
    ensures after == w.(ctl := after.ctl)
    ensures after.ctl.out == Append(w.ctl.out, Row(StoreKey("main", p), w.ctl.ms))
  {
    after := Next(reach, w, Step(OK_RUN), projects, tearable);
  }

  /** The snapshot command of a project whose directory is there and whose snapshot is not. */
  lemma CopyStep(w: World, p: string)
    requires At(w.ctl, Snapshot, p) && Pdir("main", p) in w.fs && Snap("main", p) !in w.fs
    ensures var after, path := Apply(w, Step(OK_RUN)), Snap("main", p);
      after == w.(ctl := w.ctl.(loc := IncCheck), fs := w.fs[path := w.fs[Pdir("main", p)]], torn := w.torn - {path})
  {
    assert w.ctl.HasProject() && w.ctl.Project() == p && w.ctl.Branch() == "main";
    assert WriteOf(w, Step(OK_RUN)) == Some(Write(Snap("main", p), Some(w.fs[Pdir("main", p)]), false));
  }

  lemma Copy(reach: World -> bool, w: World, p: string, projects: set<string>, tearable: set<Loc>)
    returns (after: World)
    requires ClosedUnder(reach, projects, tearable) && reach(w) && At(w.ctl, Snapshot, p)
    requires Pdir("main", p) in w.fs && Snap("main", p) !in w.fs
    ensures reach(after) && At(after.ctl, IncCheck, p) && after.ctl.out == w.ctl.out
    ensures after == w.(ctl := after.ctl, fs := w.fs[Snap("main", p) := w.fs[Pdir("main", p)]],
                        torn := w.torn - {Snap("main", p)})
  {
    CopyStep(w, p);
    after := Next(reach, w, Step(OK_RUN), projects, tearable);
  }

  lemma RestoreStep(w: World, p: string)
    requires At(w.ctl, IncRestore, p) && Snap("main", p) in w.fs && Pdir("main", p) !in w.fs
    ensures var after, path := Apply(w, Step(OK_RUN)), Pdir("main", p);
      after == w.(ctl := w.ctl.(loc := IncRun), fs := w.fs[path := w.fs[Snap("main", p)]], torn := w.torn - {path})
  {
    assert w.ctl.HasProject() && w.ctl.Project() == p && w.ctl.Branch() == "main";
    assert WriteOf(w, Step(OK_RUN)) == Some(Write(Pdir("main", p), Some(w.fs[Snap("main", p)]), false));
  }

  /** The restore of a snapshot that is there. */
  lemma Restore(reach: World -> bool, w: World, p: string, projects: set<string>, tearable: set<Loc>)
    returns (after: World)
    requires ClosedUnder(reach, projects, tearable) && reach(w) && At(w.ctl, IncRestore, p)
    requires Snap("main", p) in w.fs && Pdir("main", p) !in w.fs
    ensures reach(after) && At(after.ctl, IncRun, p) && after.ctl.out == w.ctl.out
    ensures after.fs == w.fs[Pdir("main", p) := w.fs[Snap("main", p)]]
    ensures after.stored == w.stored && after.log == w.log && after.torn == w.torn - {Pdir("main", p)}
  {
    RestoreStep(w, p);
    after := Next(reach, w, Step(OK_RUN), projects, tearable);
  }

  /** The log entry of a run of branch main on its first sample. */
  function StartHere(w: World, p: string): IncStart {
    IncStart("main", p, "pr-1", DirAt(w.fs, Pdir("main", p)), StoredBy(w, "main", p), DirAt(w.fs, Snap("main", p)),
             Snap("main", p) in w.torn)
  }

  lemma RunSample(reach: World -> bool, w: World, p: string, run: ToolRun, projects: set<string>, tearable: set<Loc>)
    returns (after: World)
    requires ClosedUnder(reach, projects, tearable) && reach(w) && At(w.ctl, IncRun, p)
    ensures reach(after) && after == Apply(w, Step(run))
    ensures after.log == w.log + [StartHere(w, p)] && after.stored == w.stored
  {
    after := Next(reach, w, Step(run), projects, tearable);
  }

  const FAILED_RUN := ToolRun(1, None, 0)

  /** Branch main, project `p`, past the last sample. */
  predicate AtEnd(c: Control, loc: Loc, p: string) {
    c.loc == loc && c.pos == Pos(0, false, 1, 0) && c.call == OneProject(p)
  }

  lemma FailedRunStep(w: World, p: string)
    requires At(w.ctl, IncRun, p)
    ensures var after := Apply(w, Step(FAILED_RUN));
      && after.ctl == w.ctl.(loc := IncCheck, pos := Pos(0, false, 0, 1), failed := true)
      && after.fs == w.fs - {Pdir("main", p)} && after.stored == w.stored
  {
    assert w.ctl.HasProject() && w.ctl.Project() == p && w.ctl.Branch() == "main";
  }

  /** The repeats of the only sample are used up. */
  lemma LoopHeadSteps(w: World, p: string)
    requires w.ctl.loc == IncCheck && w.ctl.pos == Pos(0, false, 0, 1) && w.ctl.call == OneProject(p)
    ensures Apply(w, Step(OK_RUN)) == w.(ctl := w.ctl.(pos := Pos(0, false, 1, 0)))
    ensures Apply(Apply(w, Step(OK_RUN)), Step(OK_RUN)) ==
            w.(ctl := w.ctl.(loc := EndRmPdir, pos := Pos(0, false, 1, 0)))
  {
    assert w.ctl.HasSample();
    assert Advanced(w.ctl, OK_RUN) == w.ctl.(pos := Pos(0, false, 1, 0));
  }

  lemma FirstCleanupStep(w: World, p: string)
    requires AtEnd(w.ctl, EndRmPdir, p)
    ensures var after := Apply(w, Step(OK_RUN));
      && AtEnd(after.ctl, EndRmSnap, p) && after.ctl.out == w.ctl.out
      && after.fs == w.fs - {Pdir("main", p)} && after.stored == w.stored
  {
    assert w.ctl.HasProject() && w.ctl.Project() == p && w.ctl.Branch() == "main";
  }

  /** From a failed run of the only sample to the removal of the snapshot. */
  lemma ToCleanup(reach: World -> bool, w: World, p: string, projects: set<string>, tearable: set<Loc>)
    returns (after: World)
    requires ClosedUnder(reach, projects, tearable) && reach(w) && At(w.ctl, IncRun, p)
    ensures reach(after) && AtEnd(after.ctl, EndRmSnap, p) && after.ctl.out == w.ctl.out
    ensures after.fs == w.fs - {Pdir("main", p)} && after.stored == w.stored
  {
    FailedRunStep(w, p);
    var w1 := Next(reach, w, Step(FAILED_RUN), projects, tearable);
    LoopHeadSteps(w1, p);
    var w2 := Next(reach, w1, Step(OK_RUN), projects, tearable);
    var w3 := Next(reach, w2, Step(OK_RUN), projects, tearable);
    FirstCleanupStep(w3, p);
    after := Next(reach, w3, Step(OK_RUN), projects, tearable);
  }

  /** A kill that touches nothing. */
  lemma Die(reach: World -> bool, w: World, projects: set<string>, tearable: set<Loc>) returns (after: World)
    requires ClosedUnder(reach, projects, tearable) && reach(w) && !AtRest(w.ctl) && w.ctl.loc !in {IncRun, WriteHeader}
    ensures reach(after) && after == w.(ctl := w.ctl.(loc := Idle))
  {
    after := Next(reach, w, Kill(None), projects, tearable);
  }

  /** A kill inside the snapshot copy, or inside the removal of a snapshot that is there. */
  lemma DieTearing(reach: World -> bool, w: World, p: string, c: Content, projects: set<string>, tearable: set<Loc>)
    returns (after: World)
    requires ClosedUnder(reach, projects, tearable) && reach(w) && w.ctl.loc in tearable
    requires At(w.ctl, Snapshot, p) || (AtEnd(w.ctl, EndRmSnap, p) && Snap("main", p) in w.fs)
    ensures reach(after) && after.ctl == w.ctl.(loc := Idle)
    ensures after.fs == w.fs[Snap("main", p) := c] && after.stored == w.stored && after.log == w.log
  {
    assert Target(w.ctl) == Some(Snap("main", p));
    after := Next(reach, w, Kill(Some(Some(c))), projects, tearable);
  }

  // ---------- the histories ----------

  /** A first use with an empty disk. */
  function Fresh(p: string): World {
    World(Control(Some([Header]), Idle, Pos(0, false, 0, 0), OneProject(p), 0, false, false), map[], map[], [], {})
  }

  /** A table holding the store row of branch main and nothing else. */
  predicate OnlyStoreRow(out: Table, p: string) {
    && out.Some? && |out.value| == 2 && out.value[0] == Header
    && out.value[1].Row? && out.value[1].key == StoreKey("main", p)
  }

  lemma OnlyStoreRowHas(out: Table, p: string)
    requires OnlyStoreRow(out, p)
    ensures Have(out, StoreKey("main", p)) && !Have(out, IncKey("main", p, "pr-1"))
    ensures forall q :: q != p ==> !Have(out, StoreKey("main", q))
  {
    assert out.value[1].key == StoreKey("main", p);
  }

  /** A first call up to its store run. */
  lemma ToStoreRun(reach: World -> bool, p: string, projects: set<string>, tearable: set<Loc>) returns (after: World)
    requires ClosedUnder(reach, projects, tearable) && reach(Fresh(p)) && p in projects
    ensures reach(after) && At(after.ctl, StoreRun, p) && after.ctl.out == Some([Header])
    ensures after.fs == map[Pdir("main", p) := Empty] && after.stored == map[] && after.log == []
  {
    var w := Fresh(p);
    after := Begin(reach, w, p, projects, tearable);
    after := Lookup(reach, after, p, projects, tearable);
    after := Remove(reach, after, p, projects, tearable);
    after := Remove(reach, after, p, projects, tearable);
    assert after.fs == map[];
    after := Mkdir(reach, after, p, projects, tearable);
  }

  /** A first call up to the snapshot copy. */
  lemma ToSnapshot(reach: World -> bool, p: string, projects: set<string>, tearable: set<Loc>) returns (after: World)
    requires ClosedUnder(reach, projects, tearable) && reach(Fresh(p)) && p in projects
    ensures reach(after) && At(after.ctl, Snapshot, p) && OnlyStoreRow(after.ctl.out, p)
    ensures after.fs == map[Pdir("main", p) := Files(1)] && after.stored == map[("main", p) := Some(Files(1))]
    ensures after.log == []
  {
    after := ToStoreRun(reach, p, projects, tearable);
    after := StoreOk(reach, after, p, projects, tearable);
    assert after.fs == map[Pdir("main", p) := Files(1)];
    after := Record(reach, after, p, projects, tearable);
  }

  /** The next call of the same project, up to the removal before its incremental run. */
  lemma ToIncRmPdir(reach: World -> bool, w: World, p: string, projects: set<string>, tearable: set<Loc>)
    returns (after: World)
    requires ClosedUnder(reach, projects, tearable) && reach(w) && p in projects && AtRest(w.ctl) &&
             OnlyStoreRow(w.ctl.out, p)
    ensures reach(after) && At(after.ctl, IncRmPdir, p) && SameDisk(w, after)
  {
    OnlyStoreRowHas(w.ctl.out, p);
    var w1 := Begin(reach, w, p, projects, tearable);
    var w2 := Lookup(reach, w1, p, projects, tearable);
    after := Lookup(reach, w2, p, projects, tearable);
  }

  /** The next call of the same project, through the start of its incremental run. */
  lemma ToIncrementalRun(reach: World -> bool, w: World, p: string, projects: set<string>, tearable: set<Loc>)
    returns (after: World)
    requires ClosedUnder(reach, projects, tearable) && reach(w) && p in projects && AtRest(w.ctl)
    requires OnlyStoreRow(w.ctl.out, p) && Snap("main", p) in w.fs
    ensures reach(after) && |after.log| == |w.log| + 1
    ensures var s := after.log[|w.log|];
      && s.branch == "main" && s.project == p && s.start == Some(w.fs[Snap("main", p)])
      && s.own == StoredBy(w, "main", p)
  {
    PathsDistinct("main", p, "main", p);
    var w1 := ToIncRmPdir(reach, w, p, projects, tearable);
    var w2 := Remove(reach, w1, p, projects, tearable);
    var w3 := Restore(reach, w2, p, projects, tearable);
    after := RunSample(reach, w3, p, OK_RUN, projects, tearable);
  }

  // ---------- torn snapshots ----------

  /** A run of `p` was started on `c`, although its store had left something else. */
  ghost predicate HasStartOn(w: World, p: string, c: Content) {
    exists s :: s in w.log && s.project == p && s.start == Some(c) && s.own == Some(Some(Files(1)))
  }

  /** Some history that tears directories only at these commands has such a start. */
  ghost predicate CanStartOn(p: string, c: Content, projects: set<string>, tearable: set<Loc>) {
    exists events ::
      Within(events, projects) && TearsOnlyAt(Fresh(p), events, tearable) && HasStartOn(Run(Fresh(p), events), p, c)
  }

  /** The call that follows hands the torn snapshot to its incremental run. */
  lemma TornIsHandedOn(reach: World -> bool, w: World, p: string, c: Content, projects: set<string>, tearable: set<Loc>)
    returns (after: World)
    requires ClosedUnder(reach, projects, tearable) && reach(w) && p in projects
    requires AtRest(w.ctl) && OnlyStoreRow(w.ctl.out, p) && w.stored == map[("main", p) := Some(Files(1))]
    requires Snap("main", p) in w.fs && w.fs[Snap("main", p)] == c
    ensures reach(after) && HasStartOn(after, p, c)
  {
    after := ToIncrementalRun(reach, w, p, projects, tearable);
    assert after.log[|w.log|] in after.log;
  }

  lemma StartsOn(after: World, p: string, c: Content, projects: set<string>, tearable: set<Loc>)
    requires ReachableFrom(Fresh(p), projects, tearable)(after) && HasStartOn(after, p, c)
    ensures CanStartOn(p, c, projects, tearable)
  {
    var events :| Within(events, projects) && TearsOnlyAt(Fresh(p), events, tearable) && Run(Fresh(p), events) == after;
  }

  /** A kill inside the snapshot copy can hand the next incremental run any directory at all. */
  lemma TornCopyIsUsed(p: string, c: Content, projects: set<string>, tearable: set<Loc>)
    requires p in projects && Snapshot in tearable
    ensures CanStartOn(p, c, projects, tearable)
  {
    ghost var reach := ReachableFrom(Fresh(p), projects, tearable);
    ReachableIsClosed(Fresh(p), projects, tearable);
    var w := TornCopy(reach, p, c, projects, tearable);
    StartsOn(w, p, c, projects, tearable);
  }

  lemma TornCopy(reach: World -> bool, p: string, c: Content, projects: set<string>, tearable: set<Loc>)
    returns (after: World)
    requires ClosedUnder(reach, projects, tearable) && reach(Fresh(p)) && p in projects && Snapshot in tearable
    ensures reach(after) && HasStartOn(after, p, c)
  {
    var w := ToSnapshot(reach, p, projects, tearable);
    w := DieTearing(reach, w, p, c, projects, tearable);
    after := TornIsHandedOn(reach, w, p, c, projects, tearable);
  }

  /** A first call up to its incremental run. */
  lemma ToFirstRun(reach: World -> bool, p: string, projects: set<string>, tearable: set<Loc>) returns (after: World)
    requires ClosedUnder(reach, projects, tearable) && reach(Fresh(p)) && p in projects
    ensures reach(after) && At(after.ctl, IncRun, p) && OnlyStoreRow(after.ctl.out, p)
    ensures Snap("main", p) in after.fs && after.stored == map[("main", p) := Some(Files(1))]
  {
    PathsDistinct("main", p, "main", p);
    var w := ToSnapshot(reach, p, projects, tearable);
    w := Copy(reach, w, p, projects, tearable);
    OnlyStoreRowHas(w.ctl.out, p);
    w := Lookup(reach, w, p, projects, tearable);
    w := Remove(reach, w, p, projects, tearable);
    after := Restore(reach, w, p, projects, tearable);
  }

  /** So can a kill inside the cleanup's removal of the snapshot, after a sample that failed. */
  lemma TornCleanupIsUsed(p: string, c: Content, projects: set<string>, tearable: set<Loc>)
    requires p in projects && EndRmSnap in tearable
    ensures CanStartOn(p, c, projects, tearable)
  {
    ghost var reach := ReachableFrom(Fresh(p), projects, tearable);
    ReachableIsClosed(Fresh(p), projects, tearable);
    var w := TornCleanup(reach, p, c, projects, tearable);
    StartsOn(w, p, c, projects, tearable);
  }

  lemma TornCleanup(reach: World -> bool, p: string, c: Content, projects: set<string>, tearable: set<Loc>)
    returns (after: World)
    requires ClosedUnder(reach, projects, tearable) && reach(Fresh(p)) && p in projects && EndRmSnap in tearable
    ensures reach(after) && HasStartOn(after, p, c)
  {
    PathsDistinct("main", p, "main", p);
    var w := ToFirstRun(reach, p, projects, tearable);
    w := ToCleanup(reach, w, p, projects, tearable);
    w := DieTearing(reach, w, p, c, projects, tearable);
    after := TornIsHandedOn(reach, w, p, c, projects, tearable);
  }

  // ---------- kills that can do no harm ----------

  /** The snapshot of this branch and project is one that an incremental run may be given. */
  ghost predicate InUse(w: World, b: string, p: string) {
    Have(w.ctl.out, StoreKey(b, p)) ||
    (AfterStore(w.ctl.loc) && w.ctl.HasProject() && w.ctl.Branch() == b && w.ctl.Project() == p)
  }

  /** No snapshot in use is torn, and no run was started on a torn one. */
  ghost predicate Untorn(w: World, projects: set<string>) {
    && (forall b, p :: IsBranch(b) && p in projects && InUse(w, b, p) ==> Snap(b, p) !in w.torn)
    && (forall s :: s in w.log ==> !s.snapshotTorn)
  }

  predicate SamePlace(c: Control, d: Control) {
    d.call == c.call && d.pos.i == c.pos.i && d.pos.perf == c.pos.perf
  }

  /** The incremental phase is entered from the snapshot copy or from a lookup that found the store. */
  lemma EntersIncPhase(c: Control, run: ToolRun)
    requires c.HasProject() && InStoreCommands(c)
    ensures AfterStore(StoreAdvanced(c, run).loc) ==>
      SamePlace(c, StoreAdvanced(c, run)) &&
      (c.loc == Snapshot || (c.loc == StoreCheck && Have(c.out, StoreKey(c.Branch(), c.Project()))))
  {}

  lemma StaysInIncPhase(c: Control, run: ToolRun)
    requires c.HasProject()
    ensures AfterStore(IncAdvanced(c, run).loc) ==> SamePlace(c, IncAdvanced(c, run))
  {}

  lemma EntersAfterStore(c: Control, e: Event)
    requires AfterStore(ControlNext(c, e).loc) && ControlNext(c, e).HasProject()
    ensures SamePlace(c, ControlNext(c, e))
    ensures AfterStore(c.loc) || c.loc == Snapshot ||
            (c.loc == StoreCheck && c.HasProject() && Have(c.out, StoreKey(c.Branch(), c.Project())))
  {
    if e.Step? && c.HasProject() {
      if InStoreCommands(c) {
        EntersIncPhase(c, e.run);
      } else {
        StaysInIncPhase(c, e.run);
      }
    }
  }

  /** A snapshot that comes into use was kept whole by its own append or copy just before. */
  lemma ComesIntoUse(w: World, e: Event, b: string, p: string)
    requires PhaseInv(w.ctl) && !InUse(w, b, p) && InUse(Apply(w, e), b, p)
    ensures w.ctl.loc in {StoreAppend, Snapshot} && w.ctl.HasProject() && w.ctl.Branch() == b && w.ctl.Project() == p
  {
    if Have(ControlNext(w.ctl, e).out, StoreKey(b, p)) {
      NewStoreKey(w.ctl, e, b, p);
    } else {
      EntersAfterStore(w.ctl, e);
    }
  }

  /** Tearing, outside the two commands, touches no snapshot in use. */
  lemma TearMisses(w: World, e: Event, projects: set<string>, b: string, p: string)
    requires NoAlias(projects) && Isolated(w, projects) && IsBranch(b) && p in projects && InUse(w, b, p)
    requires Tears(e) ==> w.ctl.loc !in {Snapshot, EndRmSnap}
    ensures Snap(b, p) in Apply(w, e).torn ==> Snap(b, p) in w.torn
  {
    if !AtRest(w.ctl) && w.ctl.HasProject() {
      assert w.ctl.Project() in w.ctl.call.projects;
      PathsDistinct(b, p, w.ctl.Branch(), w.ctl.Project());
    }
  }

  lemma UntornStep(w: World, e: Event, projects: set<string>)
    requires NoAlias(projects) && Isolated(w, projects) && Untorn(w, projects)
    requires Tears(e) ==> w.ctl.loc !in {Snapshot, EndRmSnap}
    ensures Untorn(Apply(w, e), projects)
  {
    forall b, p | IsBranch(b) && p in projects && InUse(Apply(w, e), b, p) ensures Snap(b, p) !in Apply(w, e).torn {
      if InUse(w, b, p) {
        TearMisses(w, e, projects, b, p);
      } else {
        ComesIntoUse(w, e, b, p);
      }
    }
    forall s | s in Apply(w, e).log && s !in w.log ensures !s.snapshotTorn {
      HereSnapshotOk(w, projects);
    }
  }

  lemma {:induction false} UntornHolds(w: World, events: seq<Event>, projects: set<string>, tearable: set<Loc>)
    requires FirstUse(w) && Within(events, projects) && NoAlias(projects)
    requires TearsOnlyAt(w, events, tearable) && Snapshot !in tearable && EndRmSnap !in tearable
    ensures Untorn(Run(w, events), projects)
  {
    if events != [] {
      var last := |events| - 1;
      forall n | 0 <= n < last && Tears(events[..last][n]) ensures Run(w, events[..last][..n]).ctl.loc in tearable {
        assert events[..last][..n] == events[..n] && Tears(events[n]);
      }
      UntornHolds(w, events[..last], projects, tearable);
      IsolationHolds(w, events[..last], projects);
      UntornStep(Run(w, events[..last]), events[last], projects);
    }
  }

  // ---------- exactly when runs are isolated ----------

  /** The run started without a store, or on exactly what its own store had left. */
  predicate OwnStore(s: IncStart) {
    s.start == None || s.own == Some(s.start)
  }

  /** Over every history from a first use in which kills tear directories only at these commands,
      every incremental run starts without a store or on its own store's output. */
  ghost predicate AlwaysIsolated(projects: set<string>, tearable: set<Loc>) {
    forall w, events, s ::
      FirstUse(w) && Within(events, projects) && TearsOnlyAt(w, events, tearable) && s in Run(w, events).log ==>
        OwnStore(s)
  }

  /** A first call killed right after the snapshot copy. */
  lemma ToKilledCopy(reach: World -> bool, p: string, projects: set<string>, tearable: set<Loc>) returns (after: World)
    requires ClosedUnder(reach, projects, tearable) && reach(Fresh(p)) && p in projects
    ensures reach(after) && after.ctl.loc == Idle && OnlyStoreRow(after.ctl.out, p)
    ensures after.stored == map[("main", p) := Some(Files(1))] && after.log == []
  {
    PathsDistinct("main", p, "main", p);
    var w := ToSnapshot(reach, p, projects, tearable);
    w := Copy(reach, w, p, projects, tearable);
    after := Die(reach, w, projects, tearable);
  }

  /** A project named like another one's snapshot: its store phase empties that snapshot. */
  lemma ToEmptiedSnapshot(reach: World -> bool, p: string, projects: set<string>, tearable: set<Loc>)
    returns (after: World)
    requires ClosedUnder(reach, projects, tearable) && reach(Fresh(p)) && p in projects && p + "_snap" in projects
    ensures reach(after) && AtRest(after.ctl) && OnlyStoreRow(after.ctl.out, p)
    ensures Snap("main", p) in after.fs && after.fs[Snap("main", p)] == Empty
    ensures after.stored == map[("main", p) := Some(Files(1))] && after.log == []
  {
    PathsDistinct("main", p, "main", p + "_snap");
    var w := ToKilledCopy(reach, p, projects, tearable);
    OtherNotRecorded(w.ctl.out, p, p + "_snap");
    after := OtherProjectClears(reach, w, p + "_snap", projects, tearable);
  }

  lemma OtherNotRecorded(out: Table, p: string, q: string)
    requires OnlyStoreRow(out, p) && p != q
    ensures !Have(out, StoreKey("main", q))
  {}

  /** The other project's next incremental run starts on it; no kill need tear anything. */
  lemma AliasedSnapshotIsUsed(p: string, projects: set<string>, tearable: set<Loc>)
    requires p in projects && p + "_snap" in projects
    ensures CanStartOn(p, Empty, projects, tearable)
  {
    ghost var reach := ReachableFrom(Fresh(p), projects, tearable);
    ReachableIsClosed(Fresh(p), projects, tearable);
    var w := ToEmptiedSnapshot(reach, p, projects, tearable);
    w := TornIsHandedOn(reach, w, p, Empty, projects, tearable);
    StartsOn(w, p, Empty, projects, tearable);
  }

  /** A call on a project whose store is not recorded, up to its store run. */
  lemma ToCleared(reach: World -> bool, w: World, q: string, projects: set<string>, tearable: set<Loc>)
    returns (after: World)
    requires ClosedUnder(reach, projects, tearable) && reach(w) && q in projects && AtRest(w.ctl)
    requires w.ctl.out.Some? && !Have(w.ctl.out, StoreKey("main", q))
    ensures reach(after) && At(after.ctl, StoreRun, q) && after.ctl.out == w.ctl.out
    ensures Pdir("main", q) in after.fs && after.fs[Pdir("main", q)] == Empty
    ensures after.stored == w.stored && after.log == w.log
  {
    var w1 := Begin(reach, w, q, projects, tearable);
    var w2 := Lookup(reach, w1, q, projects, tearable);
    var w3 := Remove(reach, w2, q, projects, tearable);
    var w4 := Remove(reach, w3, q, projects, tearable);
    after := Mkdir(reach, w4, q, projects, tearable);
  }

  /** A call on another project, killed before its store runs. */
  lemma OtherProjectClears(reach: World -> bool, w: World, q: string, projects: set<string>, tearable: set<Loc>)
    returns (after: World)
    requires ClosedUnder(reach, projects, tearable) && reach(w) && q in projects && AtRest(w.ctl)
    requires w.ctl.out.Some? && !Have(w.ctl.out, StoreKey("main", q))
    ensures reach(after) && AtRest(after.ctl) && after.ctl.out == w.ctl.out
    ensures Pdir("main", q) in after.fs && after.fs[Pdir("main", q)] == Empty
    ensures after.stored == w.stored && after.log == w.log
  {
    var w1 := ToCleared(reach, w, q, projects, tearable);
    after := Die(reach, w1, projects, tearable);
  }

  lemma StartIsNotIsolated(p: string, projects: set<string>, tearable: set<Loc>)
    requires CanStartOn(p, Empty, projects, tearable)
    ensures !AlwaysIsolated(projects, tearable)
  {
    var events :|
      Within(events, projects) && TearsOnlyAt(Fresh(p), events, tearable) &&
      HasStartOn(Run(Fresh(p), events), p, Empty);
    var s :| s in Run(Fresh(p), events).log && s.start == Some(Empty) && s.own == Some(Some(Files(1)));
    assert !OwnStore(s) && FirstUse(Fresh(p));
  }

  /** Isolation over every history holds exactly when no project is named like another one's
      snapshot and, unless there are no projects, kills tear neither the snapshot copy nor the
      cleanup's removal of the snapshot; they may tear whatever else the script writes. */
  lemma IsolationIff(projects: set<string>, tearable: set<Loc>)
    requires PlainNames(projects)
    ensures AlwaysIsolated(projects, tearable) <==>
              NoAlias(projects) && (projects == {} || tearable !! {Snapshot, EndRmSnap})
  {
    if p :| p in projects && p + "_snap" in projects {
      AliasedSnapshotIsUsed(p, projects, tearable);
      StartIsNotIsolated(p, projects, tearable);
    } else if projects != {} && Snapshot in tearable {
      var p :| p in projects;
      TornCopyIsUsed(p, Empty, projects, tearable);
      StartIsNotIsolated(p, projects, tearable);
    } else if projects != {} && EndRmSnap in tearable {
      var p :| p in projects;
      TornCleanupIsUsed(p, Empty, projects, tearable);
      StartIsNotIsolated(p, projects, tearable);
    } else {
      forall w, events, s | FirstUse(w) && Within(events, projects) && TearsOnlyAt(w, events, tearable)
                            && s in Run(w, events).log
        ensures OwnStore(s)
      {
        EveryStartIsIsolated(w, events, projects, s);
        IsolationHolds(w, events, projects);
        UntornHolds(w, events, projects, tearable);
      }
    }
  }
}
