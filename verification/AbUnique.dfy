/**
 Exactly which table files can never come to hold a row twice: the lookup skips the first line,
 whatever it is, so a first line that a call can append is appended again.
 */
module AbUnique {
  import opened Wrappers
  import opened AbHarness
  import opened AbTable
  import opened AbProgress
  import opened AbLimits

  /** Over every history from this table, no two rows of the file share a key. */
  ghost predicate AlwaysUnique(out: Table) {
    forall w: World, events :: AtRest(w.ctl) && !w.ctl.headless && w.ctl.out == out ==>
      NoRowTwice(Run(w, events).ctl.out)
  }

  ghost predicate NoRowTwice(out: Table) {
    out.Some? ==> UniqueRows(out.value)
  }

  /** From an empty file its first row is never found again: two calls, each killed after its first
      row, record that row twice. */
  lemma EmptyFileRepeats(reach: World -> bool, w: World, p: string) returns (after: World)
    requires ClosedUnder(reach, {p}, {}) && reach(w) && AtRest(w.ctl) && w.ctl.out == Some([])
    ensures reach(after) && !NoRowTwice(after.ctl.out)
  {
    var w1 := RecordOnce(reach, w, p);
    after := RecordOnce(reach, w1, p);
    assert after.ctl.out.value[0].key == after.ctl.out.value[1].key;
  }

  lemma RecordOnce(reach: World -> bool, w: World, p: string) returns (after: World)
    requires ClosedUnder(reach, {p}, {}) && reach(w) && AtRest(w.ctl)
    requires w.ctl.out.Some? && !Have(w.ctl.out, StoreKey("main", p))
    ensures reach(after) && AtRest(after.ctl)
    ensures exists ms: nat :: after.ctl.out == Append(w.ctl.out, Row(StoreKey("main", p), ms))
  {
    var w1 := ToCleared(reach, w, p, {p}, {});
    var w2 := StoreOk(reach, w1, p, {p}, {});
    var w3 := Record(reach, w2, p, {p}, {});
    after := Die(reach, w3, {p}, {});
    assert after.ctl.out == Append(w.ctl.out, Row(StoreKey("main", p), w2.ctl.ms));
  }

  /** A first call killed between the opening of the table file and its header leaves it empty. */
  lemma HeaderLost(reach: World -> bool, w: World, p: string) returns (after: World)
    requires ClosedUnder(reach, {p}, {}) && reach(w) && AtRest(w.ctl) && w.ctl.out == None
    ensures reach(after) && AtRest(after.ctl) && after.ctl.out == Some([])
  {
    after := Next(reach, w, Start(OneProject(p)), {p}, {});
    assert after.ctl.loc == CreateTable && after.ctl.out == None;
    after := Next(reach, after, Step(OK_RUN), {p}, {});
    assert after.ctl.loc == WriteHeader && after.ctl.out == Some([]);
    after := Next(reach, after, Kill(None), {p}, {});
  }

  /** From an absent file or an empty one some history records a row twice. */
  lemma CanRepeat(w: World, p: string)
    requires AtRest(w.ctl) && !w.ctl.headless && w.ctl.out in {None, Some([])}
    ensures !AlwaysUnique(w.ctl.out)
  {
    ghost var reach := ReachableFrom(w, {p}, {});
    ReachableIsClosed(w, {p}, {});
    var mid := w;
    if w.ctl.out == None {
      mid := HeaderLost(reach, w, p);
    }
    var after := EmptyFileRepeats(reach, mid, p);
    var events :| Within(events, {p}) && Run(w, events) == after;
  }

  /** A call that asks for a key. */
  function AskFor(key: Key): Call {
    Call([key.project], map[key.project := if key.mode == Inc then [key.sample] else []], 1)
  }

  /** A first line that a call can append: that call, once completed, has appended it again. */
  lemma FirstRowRepeats(w: World)
    requires w.ctl.loc == Idle && !w.ctl.headless && w.ctl.out.Some? && w.ctl.out.value != [] &&
             Askable(w.ctl.out.value[0])
    ensures !AlwaysUnique(w.ctl.out)
  {
    var key := w.ctl.out.value[0].key;
    CanComplete(w, AskFor(key));
    var events :| Completes(w, events, AskFor(key));
    CompletionIsExact(w, events, AskFor(key), key);
    FirstLineStays(w, events);
    var out := Run(w, events).ctl.out;
    assert Asked(AskFor(key), key) && Have(out, key);
    var i :| 1 <= i < |out.value| && out.value[i].Row? && out.value[i].key == key;
    assert out.value[0].key == out.value[i].key && !NoRowTwice(out);
  }

  /** An idle state with this table. */
  function Idling(out: Table): World {
    Fresh("p").(ctl := Fresh("p").ctl.(out := out))
  }

  /** Of all tables, exactly those can never come to hold a row twice that are there, repeat no key and
      have a first line that no call can append, such as a header. */
  lemma UniqueIff(out: Table)
    ensures AlwaysUnique(out) <==> out.Some? && TableOk(out)
  {
    var w := Idling(out);
    if out in {None, Some([])} {
      CanRepeat(w, "p");
    } else if !UniqueRows(out.value) {
      assert Run(w, []) == w;
    } else if Askable(out.value[0]) {
      FirstRowRepeats(w);
    } else {
      forall w: World, events | AtRest(w.ctl) && !w.ctl.headless && w.ctl.out == out
        ensures NoRowTwice(Run(w, events).ctl.out)
      {
        RowsStayUnique(w, events);
        HeaderIsSafe(w, events);
      }
    }
  }
}
