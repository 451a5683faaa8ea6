/**
 The script itself: the table file and the directories it changes, command by command, where
 any command may be the last.  Every state it passes through is a state of the step machine,
 so what holds over every history of the machine holds of the script.
 */
module AbScript {
  import opened Wrappers
  import opened AbHarness
  import opened AbTable
  import opened AbSnapshot
  import opened AbLimits
  import opened AbUnique

  // ---------- reached states ----------

  /** The calls a history starts, in order. */
  function Calls(events: seq<Event>): seq<Call> {
    if events == [] then []
    else
      var last := events[|events| - 1];
      Calls(events[..|events| - 1]) + if last.Start? then [last.call] else []
  }

  /** Some history that starts exactly these calls leads from `origin` to `w`. */
  ghost predicate Reached(origin: World, w: World, calls: seq<Call>) {
    exists events :: Calls(events) == calls && Run(origin, events) == w
  }

  lemma {:induction false} CallsCover(events: seq<Event>, e: Event)
    requires e in events && e.Start?
    ensures e.call in Calls(events)
  {
    var last := |events| - 1;
    if e != events[last] {
      CallsCover(events[..last], e);
    }
  }

  /** The calls made once an event has happened. */
  function CallsNext(calls: seq<Call>, e: Event): seq<Call> {
    if e.Start? then calls + [e.call] else calls
  }

  /** A property of machine states, and of the calls made so far, that every event keeps. */
  ghost predicate Closed(keeps: (World, seq<Call>) -> bool) {
    forall w, calls, e :: keeps(w, calls) ==> keeps(Apply(w, e), CallsNext(calls, e))
  }

  lemma ReachedIsClosed(origin: World)
    ensures Closed(ReachedFrom(origin)) && ReachedFrom(origin)(origin, [])
  {
    forall w, calls, e | Reached(origin, w, calls) ensures Reached(origin, Apply(w, e), CallsNext(calls, e)) {
      var events :| Calls(events) == calls && Run(origin, events) == w;
      var all := events + [e];
      assert all[..|all| - 1] == events;
      assert Calls(all) == CallsNext(calls, e) && Run(origin, all) == Apply(w, e);
    }
    assert Calls([]) == [] && Run(origin, []) == origin;
  }

  ghost function ReachedFrom(origin: World): (World, seq<Call>) -> bool {
    (w: World, calls: seq<Call>) => Reached(origin, w, calls)
  }

  // ---------- what each command means to the machine ----------

  /** The result of the commands that run no tool. */
  const QUIET := ToolRun(0, None, 0)

  predicate Removing(c: Control, path: string) {
    Target(c) == Some(path) && c.loc in {StoreRmPdir, StoreRmSnap, IncRmPdir, EndRmPdir, EndRmSnap}
  }

  function AfterRemoval(loc: Loc): Loc {
    match loc
    case StoreRmPdir => StoreRmSnap
    case StoreRmSnap => StoreMkdir
    case IncRmPdir => IncRestore
    case _ => EndRmSnap
  }

  lemma Removed(keeps: (World, seq<Call>) -> bool, w: World, calls: seq<Call>, path: string) returns (next: World)
    requires Closed(keeps) && keeps(w, calls) && Removing(w.ctl, path)
    ensures keeps(next, calls) && next.fs == w.fs - {path}
    ensures next.ctl == if w.ctl.loc == EndRmSnap then NextBranch(w.ctl) else w.ctl.(loc := AfterRemoval(w.ctl.loc))
  {
    next := Apply(w, Step(QUIET));
    assert CallsNext(calls, Step(QUIET)) == calls;
  }

  lemma Made(keeps: (World, seq<Call>) -> bool, w: World, calls: seq<Call>, path: string) returns (next: World)
    requires Closed(keeps) && keeps(w, calls) && w.ctl.loc == StoreMkdir && Target(w.ctl) == Some(path)
    ensures keeps(next, calls) && next.ctl == w.ctl.(loc := StoreRun)
    ensures next.fs == if path in w.fs then w.fs else w.fs[path := Empty]
  {
    next := Apply(w, Step(QUIET));
    assert CallsNext(calls, Step(QUIET)) == calls;
  }

  /** Copying the store to the snapshot, or the snapshot back. */
  predicate Copying(c: Control, src: string, dst: string) {
    && c.HasProject()
    && var pdir, snap := Pdir(c.Branch(), c.Project()), Snap(c.Branch(), c.Project());
       (c.loc == Snapshot && src == pdir && dst == snap) || (c.loc == IncRestore && src == snap && dst == pdir)
  }

  lemma CopiedOver(keeps: (World, seq<Call>) -> bool, w: World, calls: seq<Call>, src: string, dst: string)
    returns (next: World)
    requires Closed(keeps) && keeps(w, calls) && Copying(w.ctl, src, dst)
    ensures keeps(next, calls)
    ensures next.ctl == w.ctl.(loc := if w.ctl.loc == Snapshot then IncCheck else IncRun)
    ensures next.fs == SetDir(w.fs, dst, Copied(w.fs, src, dst))
  {
    next := Apply(w, Step(QUIET));
    assert CallsNext(calls, Step(QUIET)) == calls;
  }

  /** A kill inside the command that writes `path`. */
  lemma Died(keeps: (World, seq<Call>) -> bool, w: World, calls: seq<Call>, path: string, left: Option<Dir>)
    returns (next: World)
    requires Closed(keeps) && keeps(w, calls) && !AtRest(w.ctl) && (left.Some? ==> Target(w.ctl) == Some(path))
    ensures keeps(next, calls)
    ensures next.ctl == w.ctl.(loc := Idle, headless := w.ctl.headless || w.ctl.loc == WriteHeader)
    ensures next.fs == if left.None? || RemovesNothing(w, path) then w.fs else SetDir(w.fs, path, left.value)
  {
    next := Apply(w, Kill(left));
    assert CallsNext(calls, Kill(left)) == calls;
  }

  predicate PassPoint(c: Control) {
    c.loc in {NextProject, StoreCheck, IncCheck}
  }

  /** A loop head or a lookup: only the program counter moves. */
  lemma Passed(keeps: (World, seq<Call>) -> bool, w: World, calls: seq<Call>) returns (next: World)
    requires Closed(keeps) && keeps(w, calls) && PassPoint(w.ctl)
    ensures keeps(next, calls) && next.fs == w.fs && next.ctl == Advanced(w.ctl, QUIET)
    ensures next.ctl.out == w.ctl.out
  {
    next := Apply(w, Step(QUIET));
    assert CallsNext(calls, Step(QUIET)) == calls;
  }

  /** A branch and project of a call, with the loop counters. */
  datatype Place = Place(call: Call, pos: Pos) {
    predicate Ok() {
      pos.i < |call.projects| && call.projects[pos.i] in call.bc
    }

    function Branch(): string {
      if pos.perf then "perf" else "main"
    }

    function Project(): string requires Ok() {
      call.projects[pos.i]
    }

    function Samples(): seq<string> requires Ok() {
      call.bc[Project()]
    }

    predicate HasSample() requires Ok() {
      pos.j < |Samples()|
    }

    function Pdir(): string requires Ok() {
      AbHarness.Pdir(Branch(), Project())
    }

    function Snap(): string requires Ok() {
      AbHarness.Snap(Branch(), Project())
    }

    function StoreKey(): Key requires Ok() {
      AbHarness.StoreKey(Branch(), Project())
    }

    function IncKey(): Key requires Ok() && HasSample() {
      AbHarness.IncKey(Branch(), Project(), Samples()[pos.j])
    }

    predicate Removes(loc: Loc, path: string) requires Ok() {
      if loc in {StoreRmPdir, IncRmPdir, EndRmPdir} then path == Pdir()
      else loc in {StoreRmSnap, EndRmSnap} && path == Snap()
    }

    /** The same branch and project at another turn of the loops. */
    function Turn(j: nat, r: nat): Place {
      Place(call, Pos(pos.i, pos.perf, j, r))
    }

    /** The next turn of the repeat loop. */
    function Retry(): Place {
      this.(pos := pos.(r := pos.r + 1))
    }

    /** Where the script goes on after this branch and project. */
    function Next(): (Loc, Pos) {
      if pos.perf then (NextProject, Pos(pos.i + 1, false, 0, 0)) else (StoreCheck, Pos(pos.i, true, 0, 0))
    }
  }

  /** The control state is at this place. */
  predicate AtPlace(c: Control, place: Place) {
    c.pos == place.pos && c.call == place.call && place.Ok()
  }

  lemma LookupControl(c: Control, place: Place)
    requires AtPlace(c, place)
    ensures c.loc == StoreCheck ==>
              Advanced(c, QUIET) == c.(loc := if Have(c.out, place.StoreKey()) then IncCheck else StoreRmPdir)
    ensures c.loc == IncCheck && place.HasSample() && place.pos.r < place.call.runs ==>
              Advanced(c, QUIET) == if Have(c.out, place.IncKey()) then c.(pos := place.Retry().pos)
                                    else c.(loc := IncRmPdir)
  {}

  lemma TurnSame(place: Place, j: nat, r: nat)
    requires place.Ok()
    ensures var turn := place.Turn(j, r);
      turn.Ok() && turn.Branch() == place.Branch() && turn.Project() == place.Project() && turn.Next() == place.Next()
  {}

  lemma PlaceTarget(c: Control, place: Place)
    requires AtPlace(c, place) && c.loc in {StoreRun, IncRun}
    ensures Target(c) == Some(place.Pdir())
  {}

  /** Where the script goes on after a tool run. */
  function AfterRun(loc: Loc, place: Place, rc: int): (Loc, Pos) {
    if rc == 0 then (if loc == StoreRun then StoreAppend else IncAppend, place.pos)
    else if loc == StoreRun then place.Next()
    else (IncCheck, place.Retry().pos)
  }

  lemma RanControl(c: Control, place: Place, run: ToolRun)
    requires AtPlace(c, place) && c.loc in {StoreRun, IncRun}
    ensures var next := Advanced(c, run);
      && next.out == c.out && next.call == c.call && (run.rc == 0 ==> next.ms == run.ms)
      && (next.loc, next.pos) == AfterRun(c.loc, place, run.rc)
  {}

  lemma Ran(keeps: (World, seq<Call>) -> bool, w: World, calls: seq<Call>, place: Place, run: ToolRun)
    returns (next: World)
    requires Closed(keeps) && keeps(w, calls) && AtPlace(w.ctl, place) && w.ctl.loc in {StoreRun, IncRun}
    ensures keeps(next, calls) && next.fs == SetDir(w.fs, place.Pdir(), run.after)
    ensures next.ctl == Advanced(w.ctl, run)
  {
    PlaceTarget(w.ctl, place);
    next := Apply(w, Step(run));
    assert CallsNext(calls, Step(run)) == calls;
  }

  /** The row that is appended at this place. */
  predicate Appending(c: Control, place: Place, row: Line) {
    AtPlace(c, place) &&
    if c.loc == StoreAppend then row == Row(place.StoreKey(), c.ms)
    else c.loc == IncAppend && place.HasSample() && row == Row(place.IncKey(), c.ms)
  }

  lemma AppendedControl(c: Control, place: Place, row: Line)
    requires Appending(c, place, row)
    ensures Advanced(c, QUIET) ==
      if c.loc == StoreAppend then c.(loc := Snapshot, out := Append(c.out, row))
      else c.(loc := IncCheck, out := Append(c.out, row), pos := place.Retry().pos)
  {}

  lemma Appended(keeps: (World, seq<Call>) -> bool, w: World, calls: seq<Call>) returns (next: World)
    requires Closed(keeps) && keeps(w, calls) && w.ctl.loc in {StoreAppend, IncAppend}
    ensures keeps(next, calls) && next.fs == w.fs && next.ctl == Advanced(w.ctl, QUIET)
  {
    next := Apply(w, Step(QUIET));
    assert CallsNext(calls, Step(QUIET)) == calls;
  }

  // ---------- the script ----------

  /** Nothing has run: the table and the disk as they are found. */
  function Beginning(out: Table, fs: Disk): World {
    World(Control(out, Idle, Pos(0, false, 0, 0), Call([], map[], 0), 0, false, false), fs, map[], [], {})
  }

  class Harness {
    var out: Table
    var fs: Disk
    var clock: nat                // the commands begun so far
    const dies: nat -> bool       // which of them a kill interrupts
    ghost var w: World
    ghost var calls: seq<Call>
    ghost const keeps: (World, seq<Call>) -> bool

    /** The real state is the machine's, and whatever property the machine keeps holds of it. */
    ghost predicate Valid()
      reads this
    {
      Closed(keeps) && keeps(w, calls) && out == w.ctl.out && fs == w.fs
    }

    /** Alive exactly if no command begun since then has been interrupted. */
    ghost predicate Lives(since: nat, alive: bool)
      reads this`clock
    {
      since <= clock && (alive <==> forall k :: since <= k < clock ==> !dies(k))
    }

    constructor (out: Table, fs: Disk, dies: nat -> bool, ghost keeps: (World, seq<Call>) -> bool)
      requires Closed(keeps) && keeps(Beginning(out, fs), [])
      ensures Valid() && this.out == out && this.fs == fs && this.dies == dies && this.keeps == keeps
      ensures w == Beginning(out, fs) && calls == []
    {
      this.out, this.fs, this.dies, this.keeps := out, fs, dies, keeps;
      clock := 0;
      w, calls := Beginning(out, fs), [];
    }

    /** The next command is `loc` of this branch and project, in the loops at `pos`. */
    ghost predicate At(loc: Loc, place: Place)
      reads this
    {
      w.ctl.loc == loc && w.ctl.pos == place.pos && w.ctl.call == place.call && place.Ok()
    }

    /** The next command begins; it comes to its end unless a kill interrupts it. */
    method Survives() returns (alive: bool)
      modifies this`clock
      ensures clock == old(clock) + 1 && (alive <==> !dies(old(clock)))
    {
      alive := !dies(clock);
      clock := clock + 1;
    }

    /** The invocation dies in the command that writes `path`, leaving anything there; a removal
        of what is not there leaves nothing. */
    method Die(path: string, removal: bool)
      requires Valid() && Target(w.ctl) == Some(path) && !AtRest(w.ctl) && (removal <==> Removing(w.ctl, path))
      modifies this`fs, this`w
      ensures Valid() && w.ctl == old(w.ctl).(loc := Idle)
      ensures forall other :: other != path ==> DirAt(fs, other) == DirAt(old(fs), other)
      ensures removal && path !in old(fs) ==> path !in fs
    {
      var left: Option<Dir> :| left.None? || left.Some?;
      assert RemovesNothing(w, path) <==> removal && path !in fs;
      w := Died(keeps, w, calls, path, left);
      if left.Some? && !(removal && path !in fs) {
        fs := SetDir(fs, path, left.value);
      }
    }

    method RmRf(path: string, ghost place: Place) returns (alive: bool)
      requires Valid() && At(w.ctl.loc, place) && place.Removes(w.ctl.loc, path)
      modifies this`fs, this`w, this`clock
      ensures Valid() && w.ctl.call == place.call && (!alive ==> w.ctl.loc == Idle)
      ensures alive && old(w.ctl.loc) != EndRmSnap ==> At(AfterRemoval(old(w.ctl.loc)), place)
      ensures alive && old(w.ctl.loc) == EndRmSnap ==> (w.ctl.loc, w.ctl.pos) == place.Next()
      ensures alive ==> fs == old(fs) - {path}
      ensures Lives(old(clock), alive)
    {
      alive := Survives();
      if !alive {
        Die(path, true);
      } else {
        w := Removed(keeps, w, calls, path);
        fs := fs - {path};
      }
    }

    method MkdirP(path: string, ghost place: Place) returns (alive: bool)
      requires Valid() && At(StoreMkdir, place) && path == place.Pdir()
      modifies this`fs, this`w, this`clock
      ensures Valid() && w.ctl.call == place.call && (!alive ==> w.ctl.loc == Idle)
      ensures alive ==> At(StoreRun, place)
      ensures alive ==> fs == if path in old(fs) then old(fs) else old(fs)[path := Empty]
      ensures Lives(old(clock), alive)
    {
      alive := Survives();
      if !alive {
        Die(path, false);
      } else {
        w := Made(keeps, w, calls, path);
        if path !in fs {
          fs := fs[path := Empty];
        }
      }
    }

    /** `cp -r`: nothing happens without a source, and an existing target receives a nested copy. */
    method CpR(src: string, dst: string, ghost place: Place) returns (alive: bool)
      requires Valid() && At(w.ctl.loc, place)
      requires (w.ctl.loc == Snapshot && src == place.Pdir() && dst == place.Snap())
            || (w.ctl.loc == IncRestore && src == place.Snap() && dst == place.Pdir())
      modifies this`fs, this`w, this`clock
      ensures Valid() && w.ctl.call == place.call && (!alive ==> w.ctl.loc == Idle)
      ensures alive ==> At(if old(w.ctl.loc) == Snapshot then IncCheck else IncRun, place)
      ensures alive ==> fs == SetDir(old(fs), dst, Copied(old(fs), src, dst))
      ensures alive ==>
        fs == if src !in old(fs) then old(fs)
              else old(fs)[dst := if dst in old(fs) then Nested(old(fs)[dst], old(fs)[src]) else old(fs)[src]]
      ensures Lives(old(clock), alive)
    {
      alive := Survives();
      if !alive {
        Die(dst, false);
      } else {
        w := CopiedOver(keeps, w, calls, src, dst);
        if src in fs {
          fs := fs[dst := if dst in fs then Nested(fs[dst], fs[src]) else fs[src]];
        }
      }
    }

    /** The analyzer, with whatever exit code, directory and time it chooses. */
    method RunTool(path: string, ghost place: Place) returns (alive: bool, run: ToolRun)
      requires Valid() && w.ctl.loc in {StoreRun, IncRun} && At(w.ctl.loc, place) && path == place.Pdir()
      modifies this`fs, this`w, this`clock
      ensures Valid() && w.ctl.call == place.call && (!alive ==> w.ctl.loc == Idle)
      ensures alive ==> fs == SetDir(old(fs), path, run.after)
      ensures alive && run.rc == 0 ==>
                At(if old(w.ctl.loc) == StoreRun then StoreAppend else IncAppend, place) && w.ctl.ms == run.ms
      ensures alive && run.rc != 0 && old(w.ctl.loc) == StoreRun ==> (w.ctl.loc, w.ctl.pos) == place.Next()
      ensures alive && run.rc != 0 && old(w.ctl.loc) == IncRun ==> At(IncCheck, place.Retry())
      ensures Lives(old(clock), alive)
    {
      alive := Survives();
      run := *;
      PlaceTarget(w.ctl, place);
      RanControl(w.ctl, place, run);
      if !alive {
        Die(path, false);
      } else {
        w := Ran(keeps, w, calls, place, run);
        fs := SetDir(fs, path, run.after);
      }
    }

    method AppendRow(row: Line, ghost place: Place) returns (alive: bool)
      requires Valid() && Appending(w.ctl, place, row)
      modifies this`out, this`w, this`clock
      ensures Valid() && w.ctl.call == place.call && (!alive ==> w.ctl.loc == Idle)
      ensures alive ==> if old(w.ctl.loc) == StoreAppend then At(Snapshot, place) else At(IncCheck, place.Retry())
      ensures out == if alive then Append(old(out), row) else old(out)
      ensures Lives(old(clock), alive)
    {
      alive := Survives();
      if !alive {
        w := Died(keeps, w, calls, "", None);
      } else {
        AppendedControl(w.ctl, place, row);
        w := Appended(keeps, w, calls);
        out := Append(out, row);
      }
    }

    /** A loop head or a lookup. */
    ghost method Pass()
      requires Valid() && PassPoint(w.ctl)
      modifies this`w
      ensures Valid() && w.ctl == Advanced(old(w.ctl), QUIET)
    {
      w := Passed(keeps, w, calls);
    }

    /** Line 36. */
    method ClearDirs(pdir: string, snap: string, ghost place: Place) returns (alive: bool)
      requires Valid() && At(StoreRmPdir, place) && pdir == place.Pdir() && snap == place.Snap()
      modifies this`fs, this`w, this`clock
      ensures Valid() && w.ctl.call == place.call && (!alive ==> w.ctl.loc == Idle)
      ensures alive ==> At(StoreRun, place)
      ensures Lives(old(clock), alive)
    {
      alive := RmRf(pdir, place);
      if !alive { return; }
      alive := RmRf(snap, place);
      if !alive { return; }
      alive := MkdirP(pdir, place);
    }

    /** Lines 36-47: a store that is not recorded.  `ok` is false when the function returns early. */
    method StoreOnce(branch: string, project: string, ghost place: Place) returns (alive: bool, ok: bool)
      requires Valid() && At(StoreRmPdir, place) && branch == place.Branch() && project == place.Project()
      modifies this`out, this`fs, this`w, this`clock
      ensures Valid() && w.ctl.call == place.call && (!alive ==> w.ctl.loc == Idle)
      ensures alive && ok ==> At(IncCheck, place)
      ensures alive && !ok ==> (w.ctl.loc, w.ctl.pos) == place.Next()
      ensures Lives(old(clock), alive)
    {
      ok := true;
      var pdir, snap := Pdir(branch, project), Snap(branch, project);
      alive := ClearDirs(pdir, snap, place);
      if !alive { return; }
      var run;
      alive, run := RunTool(pdir, place);
      if !alive { return; }
      if run.rc != 0 {
        ok := false;
        return;
      }
      alive := AppendRow(Row(StoreKey(branch, project), run.ms), place);
      if !alive { return; }
      alive := CpR(pdir, snap, place);
    }

    /** Lines 35-48. */
    method StorePhase(branch: string, project: string, ghost place: Place) returns (alive: bool, ok: bool)
      requires Valid() && At(StoreCheck, place) && branch == place.Branch() && project == place.Project()
      modifies this`out, this`fs, this`w, this`clock
      ensures Valid() && w.ctl.call == place.call && (!alive ==> w.ctl.loc == Idle)
      ensures alive && ok ==> At(IncCheck, place)
      ensures alive && !ok ==> (w.ctl.loc, w.ctl.pos) == place.Next()
      ensures Lives(old(clock), alive)
    {
      alive, ok := true, true;
      var recorded := Have(out, StoreKey(branch, project));
      LookupControl(w.ctl, place);
      Pass();
      if !recorded {
        alive, ok := StoreOnce(branch, project, place);
      }
    }

    /** Line 58. */
    method RestoreStore(pdir: string, snap: string, ghost place: Place) returns (alive: bool)
      requires Valid() && At(IncRmPdir, place) && pdir == place.Pdir() && snap == place.Snap()
      modifies this`fs, this`w, this`clock
      ensures Valid() && w.ctl.call == place.call && (!alive ==> w.ctl.loc == Idle)
      ensures alive ==> At(IncRun, place)
      ensures Lives(old(clock), alive)
    {
      alive := RmRf(pdir, place);
      if !alive { return; }
      alive := CpR(snap, pdir, place);
    }

    /** Lines 57-68: an incremental run that is not recorded. */
    method IncOnce(branch: string, project: string, sample: string, ghost place: Place) returns (alive: bool)
      requires Valid() && At(IncRmPdir, place) && branch == place.Branch() && project == place.Project()
      requires place.HasSample() && place.Samples()[place.pos.j] == sample
      modifies this`out, this`fs, this`w, this`clock
      ensures Valid() && w.ctl.call == place.call && (!alive ==> w.ctl.loc == Idle)
      ensures alive ==> At(IncCheck, place.Retry())
      ensures Lives(old(clock), alive)
    {
      var pdir, snap := Pdir(branch, project), Snap(branch, project);
      alive := RestoreStore(pdir, snap, place);
      if !alive { return; }
      var run;
      alive, run := RunTool(pdir, place);
      if !alive { return; }
      if run.rc == 0 {
        alive := AppendRow(Row(IncKey(branch, project, sample), run.ms), place);
      }
    }

    /** Lines 56-68: one turn of the repeat loop. */
    method IncTurn(branch: string, project: string, sample: string, ghost place: Place) returns (alive: bool)
      requires Valid() && At(IncCheck, place) && branch == place.Branch() && project == place.Project()
      requires place.HasSample() && place.Samples()[place.pos.j] == sample && place.pos.r < place.call.runs
      modifies this`out, this`fs, this`w, this`clock
      ensures Valid() && w.ctl.call == place.call && (!alive ==> w.ctl.loc == Idle)
      ensures alive ==> At(IncCheck, place.Retry())
      ensures Lives(old(clock), alive)
    {
      alive := true;
      var recorded := Have(out, IncKey(branch, project, sample));
      LookupControl(w.ctl, place);
      Pass();
      if !recorded {
        alive := IncOnce(branch, project, sample, place);
      }
    }

    /** Lines 51-70: every sample, every repeat. */
    method IncPhase(branch: string, project: string, samples: seq<string>, runs: nat, ghost place: Place)
      returns (alive: bool)
      requires Valid() && At(IncCheck, place) && branch == place.Branch() && project == place.Project()
      requires place == place.Turn(0, 0) && place.Samples() == samples && runs == place.call.runs
      modifies this`out, this`fs, this`w, this`clock
      ensures Valid() && w.ctl.call == place.call && (!alive ==> w.ctl.loc == Idle)
      ensures alive ==> At(EndRmPdir, place.Turn(|samples|, 0))
      ensures Lives(old(clock), alive)
    {
      alive := true;
      for j := 0 to |samples|
        invariant Valid() && alive && Lives(old(clock), true) && At(IncCheck, place.Turn(j, 0))
      {
        for r := 0 to runs
          invariant Valid() && alive && Lives(old(clock), true) && At(IncCheck, place.Turn(j, r))
        {
          alive := IncTurn(branch, project, samples[j], place.Turn(j, r));
          if !alive { return; }
        }
        Pass();
      }
      Pass();
    }

    /** Line 71. */
    method Cleanup(branch: string, project: string, ghost place: Place) returns (alive: bool)
      requires Valid() && At(EndRmPdir, place) && branch == place.Branch() && project == place.Project()
      modifies this`fs, this`w, this`clock
      ensures Valid() && w.ctl.call == place.call && (!alive ==> w.ctl.loc == Idle)
      ensures alive ==> (w.ctl.loc, w.ctl.pos) == place.Next()
      ensures Lives(old(clock), alive)
    {
      alive := RmRf(Pdir(branch, project), place);
      if !alive { return; }
      alive := RmRf(Snap(branch, project), place);
    }

    /** Lines 51-71. */
    method IncAndCleanup(branch: string, project: string, samples: seq<string>, runs: nat, ghost place: Place)
      returns (alive: bool)
      requires Valid() && At(IncCheck, place) && branch == place.Branch() && project == place.Project()
      requires place == place.Turn(0, 0) && place.Samples() == samples && runs == place.call.runs
      modifies this`out, this`fs, this`w, this`clock
      ensures Valid() && w.ctl.call == place.call && (!alive ==> w.ctl.loc == Idle)
      ensures alive ==> (w.ctl.loc, w.ctl.pos) == place.Next()
      ensures Lives(old(clock), alive)
    {
      alive := IncPhase(branch, project, samples, runs, place);
      TurnSame(place, |samples|, 0);
      if alive {
        alive := Cleanup(branch, project, place.Turn(|samples|, 0));
      }
    }

    /** Lines 28-72. */
    method RunBranchProject(branch: string, project: string, samples: seq<string>, runs: nat, ghost place: Place)
      returns (alive: bool)
      requires Valid() && At(StoreCheck, place) && branch == place.Branch() && project == place.Project()
      requires place == place.Turn(0, 0) && place.Samples() == samples && runs == place.call.runs
      modifies this`out, this`fs, this`w, this`clock
      ensures Valid() && w.ctl.call == place.call && (!alive ==> w.ctl.loc == Idle)
      ensures alive ==> (w.ctl.loc, w.ctl.pos) == place.Next()
      ensures Lives(old(clock), alive)
    {
      var ok;
      alive, ok := StorePhase(branch, project, place);
      if alive && ok {
        alive := IncAndCleanup(branch, project, samples, runs, place);
      }
    }

    /** Line 25: a table file that is not there is opened, then gets its header; a kill may come
        before, between or after the two. */
    method Begin(call: Call) returns (alive: bool)
      requires Valid() && AtRest(w.ctl)
      modifies this`out, this`w, this`calls, this`clock
      ensures Valid() && calls == old(calls) + [call] && w.ctl.call == call
      ensures alive ==> w.ctl.loc == NextProject && w.ctl.pos == Pos(0, false, 0, 0)
      ensures !alive ==> w.ctl.loc == Idle
      ensures out == old(out) || (old(out) == None && out == Some([Header]))
           || (old(out) == None && out == Some([]) && !alive && w.ctl.headless)
      ensures Lives(old(clock), alive)
    {
      alive := Enter(call);
      if !alive { return; }
      var created := OpenTable();
      if created {
        alive := PutHeader();
      }
    }

    /** The script starts. */
    method Enter(call: Call) returns (alive: bool)
      requires Valid() && AtRest(w.ctl)
      modifies this`w, this`calls, this`clock
      ensures Valid() && calls == old(calls) + [call] && w.ctl.call == call
      ensures if alive then w.ctl.loc == CreateTable && w.ctl.pos == Pos(0, false, 0, 0) else w.ctl.loc == Idle
      ensures Lives(old(clock), alive)
    {
      assert CallsNext(calls, Start(call)) == calls + [call];
      w, calls := Apply(w, Start(call)), calls + [call];
      alive := Survives();
      if !alive {
        w := Died(keeps, w, calls, "", None);
      }
    }

    /** The header of a file just opened. */
    method PutHeader() returns (alive: bool)
      requires Valid() && w.ctl.loc == WriteHeader && out == Some([])
      modifies this`out, this`w, this`clock
      ensures Valid() && w.ctl.call == old(w.ctl.call) && w.ctl.pos == old(w.ctl.pos)
      ensures if alive then w.ctl.loc == NextProject && out == Some([Header])
              else w.ctl.loc == Idle && out == Some([]) && w.ctl.headless
      ensures Lives(old(clock), alive)
    {
      alive := Survives();
      if !alive {
        w := Died(keeps, w, calls, "", None);
        return;
      }
      out := Append(out, Header);
      assert out.value == [Header];
      assert CallsNext(calls, Step(QUIET)) == calls;
      w := Apply(w, Step(QUIET));
    }

    /** The shell opens a file that is not there before anything is written to it. */
    method OpenTable() returns (created: bool)
      requires Valid() && w.ctl.loc == CreateTable
      modifies this`out, this`w
      ensures Valid() && w.ctl.call == old(w.ctl.call) && w.ctl.pos == old(w.ctl.pos)
      ensures created <==> old(out) == None
      ensures out == if created then Some([]) else old(out)
      ensures w.ctl.loc == if created then WriteHeader else NextProject
    {
      created := out == None;
      assert CallsNext(calls, Step(QUIET)) == calls;
      w := Apply(w, Step(QUIET));
      if created {
        out := Some([]);
      }
    }

    /** The whole script: the table, then the project loop; false when it was killed. */
    method Invocation(call: Call) returns (alive: bool)
      requires Valid() && AtRest(w.ctl)
      modifies this
      ensures Valid() && calls == old(calls) + [call] && AtRest(w.ctl)
      ensures w.ctl.loc == if alive then Finished else Idle
      ensures Lives(old(clock), alive)
    {
      alive := Begin(call);
      if !alive { return; }
      for i := 0 to |call.projects|
        invariant Valid() && alive && Lives(old(clock), true) && calls == old(calls) + [call]
        invariant w.ctl.loc == NextProject && w.ctl.pos == Pos(i, false, 0, 0) && w.ctl.call == call
      {
        var project := call.projects[i];
        Pass();
        if project in call.bc {
          alive := RunBranchProject("main", project, call.bc[project], call.runs, Place(call, Pos(i, false, 0, 0)));
          if !alive { return; }
          alive := RunBranchProject("perf", project, call.bc[project], call.runs, Place(call, Pos(i, true, 0, 0)));
          if !alive { return; }
        }
      }
      Pass();
    }
  }

  // ---------- what the machine's theorems say of the script ----------

  /** One invocation after the other. */
  method RunAll(h: Harness, invocations: seq<Call>)
    requires h.Valid() && AtRest(h.w.ctl) && h.calls == []
    modifies h
    ensures h.Valid() && AtRest(h.w.ctl) && h.calls == invocations
    ensures invocations != [] && (forall k :: !h.dies(k)) ==> h.w.ctl.loc == Finished
  {
    for n := 0 to |invocations|
      invariant h.Valid() && AtRest(h.w.ctl) && h.calls == invocations[..n]
      invariant n > 0 && (forall k :: !h.dies(k)) ==> h.w.ctl.loc == Finished
    {
      var alive := h.Invocation(invocations[n]);
    }
  }

  /** Any number of invocations on a first table, each killed anywhere or completed: without kills the
      last one comes to its end; no incremental run starts on what another one wrote, and the table
      never repeats a key, unless a kill came between the opening of a new table file and its header. */
  method AnySession(table: Table, disk: Disk, dies: nat -> bool, invocations: seq<Call>, ghost projects: set<string>)
    returns (h: Harness)
    requires table in {None, Some([]), Some([Header])} && NoAlias(projects)
    requires forall c, p :: c in invocations && p in c.projects ==> p in projects
    ensures h.Valid() && h.calls == invocations
    ensures invocations != [] && (forall k :: !dies(k)) ==> h.w.ctl.loc == Finished
    ensures table != Some([]) ==> h.w.ctl.headless || NoRowTwice(h.out)
    ensures table.Some? ==> !h.w.ctl.headless
    ensures forall s :: s in h.w.log ==> s.start == s.snapshot && (s.snapshotTorn || OwnStore(s))
  {
    ghost var origin := Beginning(table, disk);
    ReachedIsClosed(origin);
    h := new Harness(table, disk, dies, ReachedFrom(origin));
    RunAll(h, invocations);
    assert ReachedFrom(origin)(h.w, h.calls);
    ghost var events :| Calls(events) == h.calls && Run(origin, events) == h.w;
    SessionFacts(origin, events, projects);
  }

  lemma SessionFacts(origin: World, events: seq<Event>, projects: set<string>)
    requires FirstUse(origin) && !origin.ctl.headless
    requires NoAlias(projects) && forall c, p :: c in Calls(events) && p in c.projects ==> p in projects
    ensures var w := Run(origin, events);
      && (origin.ctl.out != Some([]) ==> w.ctl.headless || NoRowTwice(w.ctl.out))
      && (origin.ctl.out.Some? ==> !w.ctl.headless)
      && forall s :: s in w.log ==> s.start == s.snapshot && (s.snapshotTorn || OwnStore(s))
  {
    forall e: Event, p | e in events && e.Start? && p in e.call.projects ensures p in projects {
      CallsCover(events, e);
    }
    if origin.ctl.out != Some([]) {
      RowsStayUnique(origin, events);
    }
    if origin.ctl.out.Some? {
      HeaderIsSafe(origin, events);
    }
    forall s | s in Run(origin, events).log ensures s.start == s.snapshot && (s.snapshotTorn || OwnStore(s)) {
      EveryStartIsIsolated(origin, events, projects, s);
    }
  }
}
