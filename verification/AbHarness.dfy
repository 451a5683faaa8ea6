/**
 The resumable A/B harness (scripts/ab_branches.sh) as a step machine.

 One `Step` is one command of the script; `Kill` may come at any moment and may leave the
 directory it interrupts in any state; `Start` is a new invocation, with its own projects,
 samples and repeat count.  A history is any sequence of such events.
 */
module AbHarness {
  import opened Wrappers

  datatype Mode = Store | Inc

  datatype Key = Key(branch: string, project: string, mode: Mode, sample: string)

  /** One line of the results table. */
  datatype Line = Header | Row(key: Key, ms: nat)

  type Table = Option<seq<Line>>   // None: the file does not exist

  /** What a directory holds; `Nested` is what `cp -r` leaves when its target already exists. */
  datatype Content = Empty | Files(id: int) | Nested(outer: Content, inner: Content)

  type Dir = Option<Content>

  type Disk = map<string, Content>

  function DirAt(fs: Disk, path: string): Dir {
    if path in fs then Some(fs[path]) else None
  }

  function SetDir(fs: Disk, path: string, d: Dir): Disk {
    if d.Some? then fs[path := d.value] else fs - {path}
  }

  /** One run of the analyzer: exit code, models directory afterwards, milliseconds. */
  datatype ToolRun = ToolRun(rc: int, after: Dir, ms: nat)

  /** One call of the script; `bc` holds the pr-*.bc samples of each project directory that exists. */
  datatype Call = Call(projects: seq<string>, bc: map<string, seq<string>>, runs: nat)

  /** The next command of the script. */
  datatype Loc =
    | Idle | CreateTable | WriteHeader | NextProject
    | StoreCheck | StoreRmPdir | StoreRmSnap | StoreMkdir | StoreRun | StoreAppend | Snapshot
    | IncCheck | IncRmPdir | IncRestore | IncRun | IncAppend
    | EndRmPdir | EndRmSnap
    | Finished

  /** The loop counters: project, branch, sample, repeat. */
  datatype Pos = Pos(i: nat, perf: bool, j: nat, r: nat)

  /** The start of an incremental run: its directory, what the last successful store of its branch
      and project left, the snapshot at that moment, and whether that snapshot is what a kill left. */
  datatype IncStart = IncStart(branch: string, project: string, sample: string,
                               start: Dir, own: Option<Dir>, snapshot: Dir, snapshotTorn: bool)

  /** The control state: the table, the program counter and the call being served. */
  datatype Control = Control(
    out: Table,
    loc: Loc,
    pos: Pos,
    call: Call,
    ms: nat,        // the time just measured
    failed: bool,   // history: a tool run of this call exited nonzero
    headless: bool) // history: a kill came between the opening of the table file and its header
  {
    function Branch(): string {
      if pos.perf then "perf" else "main"
    }

    predicate HasProject() {
      pos.i < |call.projects| && call.projects[pos.i] in call.bc
    }

    function Project(): string
      requires HasProject()
    {
      call.projects[pos.i]
    }

    function Samples(): seq<string>
      requires HasProject()
    {
      call.bc[Project()]
    }

    predicate HasSample() {
      HasProject() && pos.j < |Samples()|
    }

    function Sample(): string
      requires HasSample()
    {
      Samples()[pos.j]
    }
  }

  /** The control state together with the directories under /tmp. */
  datatype World = World(
    ctl: Control,
    fs: Disk,
    stored: map<(string, string), Dir>,   // history: what the last successful store left
    log: seq<IncStart>,                   // history: incremental runs started
    torn: set<string>)                    // history: directories that are as a kill left them

  function Pdir(branch: string, project: string): string {
    "/tmp/ab_" + branch + "_" + project
  }

  function Snap(branch: string, project: string): string {
    "/tmp/ab_" + branch + "_" + project + "_snap"
  }

  function StoreKey(branch: string, project: string): Key {
    Key(branch, project, Store, "old")
  }

  function IncKey(branch: string, project: string, sample: string): Key {
    Key(branch, project, Inc, sample)
  }

  /** The lookup of line 26 skips the first line of the file, whatever that line is. */
  predicate Have(out: Table, key: Key) {
    out.Some? && exists i :: 1 <= i < |out.value| && out.value[i].Row? && out.value[i].key == key
  }

  function Append(out: Table, line: Line): Table {
    Some((if out.Some? then out.value else []) + [line])
  }

  /** What `cp -r src dst` makes of `dst`: it fails without a source and nests inside a target that exists. */
  function Copied(fs: Disk, src: string, dst: string): Dir {
    if src !in fs then DirAt(fs, dst)
    else if dst in fs then Some(Nested(fs[dst], fs[src]))
    else Some(fs[src])
  }

  datatype Event =
    | Start(call: Call)
    | Step(run: ToolRun)      // the tool result matters only to the two commands that run the tool
    | Kill(left: Option<Dir>) // None: the interrupted command had not touched its directory

  // ---------- control ----------

  function NextBranch(c: Control): Control {
    if c.pos.perf then c.(loc := NextProject, pos := Pos(c.pos.i + 1, false, 0, 0))
    else c.(loc := StoreCheck, pos := Pos(c.pos.i, true, 0, 0))
  }

  /** The store phase, lines 35-48. */
  function StoreAdvanced(c: Control, run: ToolRun): Control
    requires c.HasProject()
  {
    var key := StoreKey(c.Branch(), c.Project());
    match c.loc
    case StoreCheck => c.(loc := if Have(c.out, key) then IncCheck else StoreRmPdir)
    case StoreRmPdir => c.(loc := StoreRmSnap)
    case StoreRmSnap => c.(loc := StoreMkdir)
    case StoreMkdir => c.(loc := StoreRun)
    case StoreRun =>
      if run.rc != 0 then NextBranch(c.(failed := true)) else c.(loc := StoreAppend, ms := run.ms)
    case StoreAppend => c.(loc := Snapshot, out := Append(c.out, Row(key, c.ms)))
    case Snapshot => c.(loc := IncCheck)
    case _ => c
  }

  /** The loop heads of lines 51 and 55 and the lookup of line 56. */
  function IncChecked(c: Control): Control
    requires c.HasProject()
  {
    if !c.HasSample() then c.(loc := EndRmPdir)
    else if c.pos.r >= c.call.runs then c.(pos := c.pos.(j := c.pos.j + 1, r := 0))
    else if Have(c.out, IncKey(c.Branch(), c.Project(), c.Sample())) then c.(pos := c.pos.(r := c.pos.r + 1))
    else c.(loc := IncRmPdir)
  }

  /** The incremental phase, lines 51-70, and the cleanup of line 71. */
  function IncAdvanced(c: Control, run: ToolRun): Control
    requires c.HasProject()
  {
    match c.loc
    case IncCheck => IncChecked(c)
    case IncRmPdir => c.(loc := IncRestore)
    case IncRestore => c.(loc := IncRun)
    case IncRun =>
      if run.rc != 0 then c.(loc := IncCheck, failed := true, pos := c.pos.(r := c.pos.r + 1))
      else c.(loc := IncAppend, ms := run.ms)
    case IncAppend =>
      if !c.HasSample() then c
      else
        c.(loc := IncCheck, pos := c.pos.(r := c.pos.r + 1),
           out := Append(c.out, Row(IncKey(c.Branch(), c.Project(), c.Sample()), c.ms)))
    case EndRmPdir => c.(loc := EndRmSnap)
    case EndRmSnap => NextBranch(c)
    case _ => c
  }

  /** The table and the program counter after the next command. */
  function Advanced(c: Control, run: ToolRun): Control {
    match c.loc
    case Idle | Finished => c
    case CreateTable =>
      if c.out.Some? then c.(loc := NextProject) else c.(out := Some([]), loc := WriteHeader)
    case WriteHeader => c.(out := Append(c.out, Header), loc := NextProject)
    case NextProject =>
      if c.pos.i >= |c.call.projects| then c.(loc := Finished)
      else if !c.HasProject() then c.(pos := Pos(c.pos.i + 1, false, 0, 0))
      else c.(loc := StoreCheck)
    case StoreCheck | StoreRmPdir | StoreRmSnap | StoreMkdir | StoreRun | StoreAppend | Snapshot =>
      if c.HasProject() then StoreAdvanced(c, run) else c
    case _ =>
      if c.HasProject() then IncAdvanced(c, run) else c
  }

  predicate AtRest(c: Control) {
    c.loc in {Idle, Finished}
  }

  /** The control state after an event. */
  function ControlNext(c: Control, e: Event): Control {
    match e
    case Start(call) =>
      if AtRest(c) then c.(loc := CreateTable, call := call, pos := Pos(0, false, 0, 0), failed := false) else c
    case Step(run) => Advanced(c, run)
    case Kill(_) => if AtRest(c) then c else c.(loc := Idle, headless := c.headless || c.loc == WriteHeader)
  }

  // ---------- directories ----------

  /** The directory the next command writes, if it writes one. */
  function Target(c: Control): Option<string> {
    if !c.HasProject() then None
    else
      match c.loc
      case StoreRmPdir | StoreMkdir | StoreRun | IncRmPdir | IncRestore | IncRun | EndRmPdir =>
        Some(Pdir(c.Branch(), c.Project()))
      case StoreRmSnap | Snapshot | EndRmSnap => Some(Snap(c.Branch(), c.Project()))
      case _ => None
  }

  /** What the next command makes of its target directory. */
  function Outcome(w: World, path: string, run: ToolRun): Dir
    requires w.ctl.HasProject()
  {
    match w.ctl.loc
    case StoreMkdir => Some(if path in w.fs then w.fs[path] else Empty)
    case StoreRun | IncRun => run.after
    case Snapshot => Copied(w.fs, Pdir(w.ctl.Branch(), w.ctl.Project()), path)
    case IncRestore => Copied(w.fs, Snap(w.ctl.Branch(), w.ctl.Project()), path)
    case _ => None
  }

  /** Removing what is not there leaves nothing behind, killed or not. */
  predicate RemovesNothing(w: World, path: string) {
    w.ctl.loc in {StoreRmPdir, StoreRmSnap, IncRmPdir, EndRmPdir, EndRmSnap} && path !in w.fs
  }

  /** The directory an event rewrites, what it makes of it, and whether a kill did it. */
  datatype Write = Write(path: string, dir: Dir, byKill: bool)

  function WriteOf(w: World, e: Event): Option<Write> {
    var target := Target(w.ctl);
    if target.None? then None
    else
      match e
      case Start(_) => None
      case Step(run) => Some(Write(target.value, Outcome(w, target.value, run), false))
      case Kill(left) =>
        if left.None? || RemovesNothing(w, target.value) then None
        else Some(Write(target.value, left.value, true))
  }

  function StoredNext(w: World, e: Event): map<(string, string), Dir> {
    if w.ctl.loc == StoreRun && w.ctl.HasProject() && e.Step? && e.run.rc == 0
    then w.stored[(w.ctl.Branch(), w.ctl.Project()) := e.run.after]
    else w.stored
  }

  /** What the last successful store of a branch and project left. */
  function StoredBy(w: World, b: string, p: string): Option<Dir> {
    if (b, p) in w.stored then Some(w.stored[(b, p)]) else None
  }

  function LogNext(w: World, e: Event): seq<IncStart> {
    if w.ctl.loc == IncRun && w.ctl.HasSample() && !e.Start? then
      var b, p := w.ctl.Branch(), w.ctl.Project();
      w.log + [IncStart(b, p, w.ctl.Sample(), DirAt(w.fs, Pdir(b, p)), StoredBy(w, b, p),
                        DirAt(w.fs, Snap(b, p)), Snap(b, p) in w.torn)]
    else w.log
  }

  // ---------- the machine ----------

  function Apply(w: World, e: Event): World {
    var write := WriteOf(w, e);
    World(
      ControlNext(w.ctl, e),
      if write.Some? then SetDir(w.fs, write.value.path, write.value.dir) else w.fs,
      StoredNext(w, e),
      LogNext(w, e),
      if write.None? then w.torn
      else if write.value.byKill then w.torn + {write.value.path}
      else w.torn - {write.value.path})
  }

  /** The state after a history. */
  function Run(w: World, events: seq<Event>): World {
    if events == [] then w
    else Apply(Run(w, events[..|events| - 1]), events[|events| - 1])
  }

  /** Every invocation of the history names only projects in `projects`. */
  predicate Within(events: seq<Event>, projects: set<string>) {
    forall e :: e in events && e.Start? ==> forall p :: p in e.call.projects ==> p in projects
  }
}
