/**
 Where the rows of the table come from: over every history each row that is appended stands for a run
 of the analyzer that exited with 0, for its own branch, project and sample, and holds the time of that run.
 */
module AbRows {
  import opened Wrappers
  import opened AbHarness
  import opened AbTable

  /** Here the event is a run for this key, which exits with 0 after this time. */
  predicate IsRunOf(c: Control, e: Event, key: Key, ms: nat) {
    && e.Step? && e.run.rc == 0 && e.run.ms == ms && c.HasProject()
    && (if c.loc == StoreRun then key == StoreKey(c.Branch(), c.Project())
        else c.loc == IncRun && c.HasSample() && key == IncKey(c.Branch(), c.Project(), c.Sample()))
  }

  ghost predicate WasRun(w: World, events: seq<Event>, key: Key, ms: nat) {
    exists m :: 0 <= m < |events| && IsRunOf(Run(w, events[..m]).ctl, events[m], key, ms)
  }

  lemma WasRunStays(w: World, events: seq<Event>, key: Key, ms: nat)
    requires events != [] && WasRun(w, events[..|events| - 1], key, ms)
    ensures WasRun(w, events, key, ms)
  {
    var before := events[..|events| - 1];
    var m :| 0 <= m < |before| && IsRunOf(Run(w, before[..m]).ctl, before[m], key, ms);
    assert before[..m] == events[..m] && before[m] == events[m];
  }

  /** The next command appends this row. */
  predicate Pending(c: Control, key: Key, ms: nat) {
    && ms == c.ms && c.HasProject()
    && (if c.loc == StoreAppend then key == StoreKey(c.Branch(), c.Project())
        else c.loc == IncAppend && c.HasSample() && key == IncKey(c.Branch(), c.Project(), c.Sample()))
  }

  /** A row to be appended is that of the run just made. */
  lemma PendingStep(c: Control, e: Event, key: Key, ms: nat)
    requires Pending(ControlNext(c, e), key, ms)
    ensures Pending(c, key, ms) || IsRunOf(c, e, key, ms)
  {
    if e.Step? && c.HasProject() {
      StorePending(c, e.run);
      IncPending(c, e.run);
    }
  }

  lemma StorePending(c: Control, run: ToolRun)
    requires c.HasProject()
    ensures var d := StoreAdvanced(c, run);
      d.loc in {StoreAppend, IncAppend} ==>
        d == c || (c.loc == StoreRun && run.rc == 0 && d == c.(loc := StoreAppend, ms := run.ms))
  {}

  lemma IncPending(c: Control, run: ToolRun)
    requires c.HasProject()
    ensures var d := IncAdvanced(c, run);
      d.loc in {StoreAppend, IncAppend} ==>
        d == c || (c.loc == IncRun && run.rc == 0 && d == c.(loc := IncAppend, ms := run.ms))
  {}

  /** What an event may do to the table. */
  ghost predicate Grows(c: Control, after: Table) {
    || after == c.out || after == Append(c.out, Header) || (c.out == None && after == Some([]))
    || exists key :: Pending(c, key, c.ms) && after == Append(c.out, Row(key, c.ms))
  }

  lemma TableGrows(c: Control, e: Event)
    ensures Grows(c, ControlNext(c, e).out)
  {
    if c.HasProject() && c.loc == StoreAppend {
      assert Pending(c, StoreKey(c.Branch(), c.Project()), c.ms);
    } else if c.HasSample() && c.loc == IncAppend {
      assert Pending(c, IncKey(c.Branch(), c.Project(), c.Sample()), c.ms);
    }
  }

  function Lines(out: Table): seq<Line> {
    if out.Some? then out.value else []
  }

  /** Behind what the file held before, every row is that of a run. */
  ghost predicate RowsFrom(w: World, events: seq<Event>, lines: seq<Line>) {
    && Lines(w.ctl.out) <= lines
    && forall i :: |Lines(w.ctl.out)| <= i < |lines| && lines[i].Row? ==> WasRun(w, events, lines[i].key, lines[i].ms)
  }

  lemma RowsStay(w: World, events: seq<Event>, lines: seq<Line>)
    requires events != [] && RowsFrom(w, events[..|events| - 1], lines)
    ensures RowsFrom(w, events, lines)
  {
    forall i | |Lines(w.ctl.out)| <= i < |lines| && lines[i].Row?
      ensures WasRun(w, events, lines[i].key, lines[i].ms)
    {
      WasRunStays(w, events, lines[i].key, lines[i].ms);
    }
  }

  lemma PendingWasRun(w: World, events: seq<Event>, key: Key, ms: nat)
    requires events != []
    requires Pending(Run(w, events[..|events| - 1]).ctl, key, ms) ==> WasRun(w, events[..|events| - 1], key, ms)
    requires Pending(Run(w, events).ctl, key, ms)
    ensures WasRun(w, events, key, ms)
  {
    var last := |events| - 1;
    RunControl(w, events);
    PendingStep(Run(w, events[..last]).ctl, events[last], key, ms);
    if Pending(Run(w, events[..last]).ctl, key, ms) {
      WasRunStays(w, events, key, ms);
    }
  }

  lemma OneMoreRow(w: World, events: seq<Event>, lines: seq<Line>, line: Line)
    requires RowsFrom(w, events, lines) && (line.Row? ==> WasRun(w, events, line.key, line.ms))
    ensures RowsFrom(w, events, lines + [line])
  {
    var more := lines + [line];
    forall i | |Lines(w.ctl.out)| <= i < |more| && more[i].Row? ensures WasRun(w, events, more[i].key, more[i].ms) {
      assert i < |lines| ==> more[i] == lines[i];
    }
  }

  /** The row about to be appended is that of a run. */
  ghost predicate NextIsRun(w: World, events: seq<Event>, c: Control) {
    forall key, ms :: Pending(c, key, ms) ==> WasRun(w, events, key, ms)
  }

  lemma TableStep(w: World, events: seq<Event>, c: Control, after: Table)
    requires RowsFrom(w, events, Lines(c.out)) && NextIsRun(w, events, c) && Grows(c, after)
    ensures RowsFrom(w, events, Lines(after))
  {
    if after == Append(c.out, Header) {
      OneMoreRow(w, events, Lines(c.out), Header);
    } else if key :| Pending(c, key, c.ms) && after == Append(c.out, Row(key, c.ms)) {
      OneMoreRow(w, events, Lines(c.out), Row(key, c.ms));
    }
  }

  lemma NextStays(w: World, events: seq<Event>, c: Control)
    requires events != [] && NextIsRun(w, events[..|events| - 1], c)
    ensures NextIsRun(w, events, c)
  {
    forall key, ms | Pending(c, key, ms) ensures WasRun(w, events, key, ms) {
      WasRunStays(w, events, key, ms);
    }
  }

  /** Over every history, nothing the file held is lost, and every row that it gains stands for a run that
      exited with 0, with the time of that run; so does the row about to be appended. */
  lemma {:induction false} RowsAreRuns(w: World, events: seq<Event>)
    requires AtRest(w.ctl)
    ensures RowsFrom(w, events, Lines(Run(w, events).ctl.out)) && NextIsRun(w, events, Run(w, events).ctl)
  {
    if events != [] {
      var last := |events| - 1;
      var c := Run(w, events[..last]).ctl;
      RowsAreRuns(w, events[..last]);
      RowsStay(w, events, Lines(c.out));
      NextStays(w, events, c);
      TableGrows(c, events[last]);
      RunControl(w, events);
      TableStep(w, events, c, ControlNext(c, events[last]).out);
      forall key, ms | Pending(Run(w, events).ctl, key, ms) ensures WasRun(w, events, key, ms) {
        PendingWasRun(w, events, key, ms);
      }
    }
  }

  // ---------- the repeats ----------

  function OneIf(b: bool): nat {
    if b then 1 else 0
  }

  predicate IsStartOf(s: IncStart, key: Key) {
    key == IncKey(s.branch, s.project, s.sample)
  }

  /** How many of the runs logged from number `n` on were for this key. */
  function Tries(log: seq<IncStart>, n: nat, key: Key): nat {
    if |log| <= n then 0 else Tries(log[..|log| - 1], n, key) + OneIf(IsStartOf(log[|log| - 1], key))
  }

  /** The key of a sample of the current branch and project. */
  function SampleKey(c: Control, j: nat): Key
    requires c.HasProject() && j < |c.Samples()|
  {
    IncKey(c.Branch(), c.Project(), c.Samples()[j])
  }

  /** Recorded, or run so many times since the log had `n` entries. */
  predicate TriedTimes(w: World, n: nat, key: Key, times: nat) {
    Have(w.ctl.out, key) || Tries(w.log, n, key) >= times
  }

  predicate InSampleLoop(c: Control) {
    c.HasProject() && c.loc in {IncCheck, IncRmPdir, IncRestore, IncRun, IncAppend}
  }

  /** The repeats of the current sample so far. */
  function Repeats(c: Control): nat {
    c.pos.r + OneIf(c.loc == IncAppend)
  }

  /** The samples the loops have passed are recorded or have had all their repeats, the current one its share. */
  ghost predicate LoopInv(w: World, n: nat) {
    && n <= |w.log| && w.ctl.HasProject() && w.ctl.pos.j <= |w.ctl.Samples()|
    && (forall j :: 0 <= j < w.ctl.pos.j ==> TriedTimes(w, n, SampleKey(w.ctl, j), w.ctl.call.runs))
    && (w.ctl.HasSample() ==> TriedTimes(w, n, SampleKey(w.ctl, w.ctl.pos.j), Repeats(w.ctl)))
  }

  lemma TriesPlus(log: seq<IncStart>, s: IncStart, n: nat, key: Key)
    requires n <= |log|
    ensures Tries(log + [s], n, key) == Tries(log, n, key) + OneIf(IsStartOf(s, key))
  {
    assert (log + [s])[..|log|] == log;
  }

  /** Nothing is forgotten, and a run that starts counts. */
  lemma TriesGrow(w: World, e: Event, n: nat, key: Key)
    requires n <= |w.log| && PhaseInv(w.ctl)
    ensures n <= |LogNext(w, e)| && Tries(LogNext(w, e), n, key) >= Tries(w.log, n, key)
    ensures Have(w.ctl.out, key) ==> Have(ControlNext(w.ctl, e).out, key)
    ensures w.ctl.loc == IncRun && w.ctl.HasSample() && e.Step? && key == SampleKey(w.ctl, w.ctl.pos.j) ==>
              Tries(LogNext(w, e), n, key) > Tries(w.log, n, key)
  {
    if LogNext(w, e) != w.log {
      TriesPlus(w.log, LogNext(w, e)[|w.log|], n, key);
      assert LogNext(w, e) == w.log + [LogNext(w, e)[|w.log|]];
    }
    if Have(w.ctl.out, key) {
      KeysStay(w.ctl, e, key);
    }
  }

  /** Where a step of the loops leads. */
  lemma LoopMoves(c: Control, run: ToolRun)
    requires InSampleLoop(c) && PhaseInv(c) && c.pos.j <= |c.Samples()|
    ensures var d := Advanced(c, run);
      d.HasProject() && d.call == c.call && d.pos.i == c.pos.i && d.pos.perf == c.pos.perf && d.pos.j <= |c.Samples()|
      && (d.pos.j == c.pos.j || (d.pos.j == c.pos.j + 1 && d.pos.r == 0 && c.loc == IncCheck && c.pos.r >= c.call.runs))
      && (d.loc == EndRmPdir ==> d.pos.j == |c.Samples()|)
  {}

  lemma LoopCounts(c: Control, run: ToolRun)
    requires InSampleLoop(c) && PhaseInv(c) && c.HasSample() && Advanced(c, run).pos.j == c.pos.j
    ensures Repeats(Advanced(c, run)) <= Repeats(c) + OneIf(c.loc == IncRun) + OneIf(c.loc == IncCheck)
    ensures c.loc == IncCheck && Repeats(Advanced(c, run)) > Repeats(c) ==> Have(c.out, SampleKey(c, c.pos.j))
  {}

  lemma CurrentSample(w: World, run: ToolRun, n: nat)
    requires InSampleLoop(w.ctl) && PhaseInv(w.ctl) && LoopInv(w, n) && w.ctl.HasSample()
    ensures var next, key := Apply(w, Step(run)), SampleKey(w.ctl, w.ctl.pos.j);
      if next.ctl.pos.j == w.ctl.pos.j then TriedTimes(next, n, key, Repeats(next.ctl))
      else TriedTimes(next, n, key, w.ctl.call.runs)
  {
    TriesGrow(w, Step(run), n, SampleKey(w.ctl, w.ctl.pos.j));
    LoopMoves(w.ctl, run);
    if Advanced(w.ctl, run).pos.j == w.ctl.pos.j {
      LoopCounts(w.ctl, run);
    }
  }

  lemma PastSample(w: World, run: ToolRun, n: nat, j: nat)
    requires InSampleLoop(w.ctl) && PhaseInv(w.ctl) && LoopInv(w, n) && j < w.ctl.pos.j
    ensures TriedTimes(Apply(w, Step(run)), n, SampleKey(w.ctl, j), w.ctl.call.runs)
  {
    TriesGrow(w, Step(run), n, SampleKey(w.ctl, j));
  }

  /** In the loops, or just behind them with every sample passed. */
  ghost predicate InLoop(w: World, n: nat, call: Call) {
    && PhaseInv(w.ctl) && LoopInv(w, n) && w.ctl.call == call
    && (w.ctl.loc == EndRmPdir ==> w.ctl.pos.j == |w.ctl.Samples()|)
  }

  lemma PassedSample(w: World, run: ToolRun, n: nat)
    requires InSampleLoop(w.ctl) && PhaseInv(w.ctl) && LoopInv(w, n) && w.ctl.HasSample()
    requires Advanced(w.ctl, run).pos.j != w.ctl.pos.j
    ensures TriedTimes(Apply(w, Step(run)), n, SampleKey(w.ctl, w.ctl.pos.j), w.ctl.call.runs)
  {
    CurrentSample(w, run, n);
  }

  lemma PastSamples(w: World, run: ToolRun, n: nat, j: nat)
    requires InSampleLoop(w.ctl) && PhaseInv(w.ctl) && LoopInv(w, n) && j < |w.ctl.Samples()|
    requires j < w.ctl.pos.j || (j == w.ctl.pos.j && Advanced(w.ctl, run).pos.j != j)
    ensures TriedTimes(Apply(w, Step(run)), n, SampleKey(w.ctl, j), w.ctl.call.runs)
  {
    if j < w.ctl.pos.j {
      PastSample(w, run, n, j);
    } else {
      PassedSample(w, run, n);
    }
  }

  lemma LoopStep(w: World, run: ToolRun, n: nat, call: Call)
    requires InSampleLoop(w.ctl) && InLoop(w, n, call)
    ensures InLoop(Apply(w, Step(run)), n, call)
  {
    var next := Apply(w, Step(run));
    LoopMoves(w.ctl, run);
    ControlPhase(w.ctl, Step(run));
    LogGrows(w, Step(run));
    forall j | 0 <= j < next.ctl.pos.j ensures TriedTimes(next, n, SampleKey(next.ctl, j), call.runs) {
      PastSamples(w, run, n, j);
    }
    if next.ctl.HasSample() && next.ctl.pos.j == w.ctl.pos.j {
      CurrentSample(w, run, n);
    }
  }

  lemma LogGrows(w: World, e: Event)
    ensures |w.log| <= |LogNext(w, e)|
  {}

  /** Every sample is recorded or has been run as often as the call asks for. */
  ghost predicate AllTried(w: World, n: nat, runs: nat) {
    w.ctl.HasProject() &&
    forall j :: 0 <= j < |w.ctl.Samples()| ==> TriedTimes(w, n, SampleKey(w.ctl, j), runs)
  }

  lemma {:induction false} StaysInLoop(w: World, events: seq<Event>, n: nat)
    requires InLoop(w, n, w.ctl.call) && forall e :: e in events ==> e.Step?
    requires forall m :: 0 <= m < |events| ==> InSampleLoop(Run(w, events[..m]).ctl)
    ensures InLoop(Run(w, events), n, w.ctl.call)
  {
    if events != [] {
      var last := |events| - 1;
      assert forall m :: 0 <= m < last ==> events[..last][..m] == events[..m];
      StaysInLoop(w, events[..last], n);
      assert events[last] in events && InSampleLoop(Run(w, events[..last]).ctl);
      LoopStep(Run(w, events[..last]), events[last].run, n, w.ctl.call);
    }
  }

  /** From the beginning of the loops over samples and repeats, whatever the runs return, until the
      cleanup is reached. */
  lemma EverySampleIsTried(w: World, events: seq<Event>)
    requires PhaseInv(w.ctl) && w.ctl.HasProject() && w.ctl.loc == IncCheck && w.ctl.pos.j == 0 && w.ctl.pos.r == 0
    requires forall e :: e in events ==> e.Step?
    requires forall m :: 0 <= m < |events| ==> InSampleLoop(Run(w, events[..m]).ctl)
    requires Run(w, events).ctl.loc == EndRmPdir
    ensures AllTried(Run(w, events), |w.log|, w.ctl.call.runs)
  {
    StaysInLoop(w, events, |w.log|);
  }
}
