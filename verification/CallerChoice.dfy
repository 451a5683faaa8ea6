/** make_caller_bc.py: the functions of each report and the caller that receives the probe. */
module CallerChoice {
  import opened Wrappers
  import opened Reports
  import opened Sublists
  import opened CallerProbe

  datatype Trace = Trace(name: string, funcs: seq<string>)

  /** The function a step names, when it names one. */
  predicate Names(step: Step, func: string) {
    FuncOf(step) == Some(func) && func != ""
  }

  /** The functions of a step list, each at its first occurrence. */
  function Functions(steps: seq<Step>): seq<string> {
    if steps == [] then []
    else
      var before, func := Functions(steps[..|steps| - 1]), FuncOf(steps[|steps| - 1]);
      if func.Some? && func.value != "" && func.value !in before then before + [func.value] else before
  }

  /** The steps before step `k` do not name the function, and step `k` does. */
  predicate FirstNamed(steps: seq<Step>, func: string, k: nat) {
    k < |steps| && Names(steps[k], func) && forall i :: 0 <= i < k ==> !Names(steps[i], func)
  }

  ghost predicate FirstNamedBefore(steps: seq<Step>, f: string, g: string) {
    forall i, j :: FirstNamed(steps, f, i) && FirstNamed(steps, g, j) ==> i < j
  }

  /** Exactly the named functions, without duplicates, in the order of their first occurrences. */
  lemma {:induction false} FunctionsInOrder(steps: seq<Step>)
    ensures forall func :: func in Functions(steps) <==> exists k :: 0 <= k < |steps| && Names(steps[k], func)
    ensures forall a, b :: 0 <= a < b < |Functions(steps)| ==> Functions(steps)[a] != Functions(steps)[b]
    ensures forall a, b :: 0 <= a < b < |Functions(steps)| ==>
              FirstNamedBefore(steps, Functions(steps)[a], Functions(steps)[b])
  {
    if steps != [] {
      var last := |steps| - 1;
      var rest := steps[..last];
      FunctionsInOrder(rest);
      forall func ensures (exists k :: 0 <= k < |steps| && Names(steps[k], func)) <==>
                          (exists k :: 0 <= k < last && Names(rest[k], func)) || Names(steps[last], func) {
        if k :| 0 <= k < last && Names(rest[k], func) {
          assert Names(steps[k], func);
        }
        if k :| 0 <= k < |steps| && Names(steps[k], func) {
          assert k == last || Names(rest[k], func);
        }
      }
      forall func, i: nat | FirstNamed(steps, func, i) && i < last ensures FirstNamed(rest, func, i) {
        forall m | 0 <= m < i ensures !Names(rest[m], func) { assert steps[m] == rest[m]; }
      }
      forall func, i: nat | FirstNamed(steps, func, i) && func in Functions(rest) ensures i < last {
        var k :| 0 <= k < last && Names(rest[k], func);
        assert Names(steps[k], func);
      }
    }
  }

  /** The steps name two different functions. */
  ghost predicate NamesTwo(steps: seq<Step>) {
    exists f, g :: f != g && Mentions(steps, f) && Mentions(steps, g)
  }

  ghost predicate Mentions(steps: seq<Step>, func: string) {
    exists k :: 0 <= k < |steps| && Names(steps[k], func)
  }

  /** The function is first named at a step from which on no further one is: the last distinct function. */
  ghost predicate IsLastNamed(steps: seq<Step>, func: string) {
    exists k: nat :: FirstNamed(steps, func, k) && NoneNewAfter(steps, k)
  }

  ghost predicate NoneNewAfter(steps: seq<Step>, k: nat) {
    forall func, j: nat :: FirstNamed(steps, func, j) ==> j <= k
  }

  lemma TwoFunctions(steps: seq<Step>)
    ensures |Functions(steps)| >= 2 <==> NamesTwo(steps)
  {
    FunctionsInOrder(steps);
    var funcs := Functions(steps);
    forall func ensures func in funcs <==> Mentions(steps, func) {}
    if |funcs| >= 2 {
      assert funcs[0] in funcs && funcs[1] in funcs;
    }
  }

  lemma {:induction false} FirstMention(steps: seq<Step>, func: string, n: nat) returns (k: nat)
    requires n < |steps| && Names(steps[n], func)
    ensures k <= n && FirstNamed(steps, func, k)
  {
    if i: nat :| i < n && Names(steps[i], func) {
      k := FirstMention(steps, func, i);
    } else {
      k := n;
    }
  }

  /** The last function of the list is the one named last. */
  lemma LastFunction(steps: seq<Step>)
    requires Functions(steps) != []
    ensures IsLastNamed(steps, Functions(steps)[|Functions(steps)| - 1])
  {
    FunctionsInOrder(steps);
    var funcs := Functions(steps);
    var last := funcs[|funcs| - 1];
    assert last in funcs;
    var n: nat :| n < |steps| && Names(steps[n], last);
    var k := FirstMention(steps, last, n);
    forall func, j: nat | FirstNamed(steps, func, j) ensures j <= k {
      assert func in funcs;
      var i :| 0 <= i < |funcs| && funcs[i] == func;
      if i < |funcs| - 1 {
        assert FirstNamedBefore(steps, func, last);
      }
    }
  }

  lemma LastNamedIsOne(steps: seq<Step>, f: string, g: string)
    requires IsLastNamed(steps, f) && IsLastNamed(steps, g)
    ensures f == g
  {
    var i: nat :| FirstNamed(steps, f, i) && NoneNewAfter(steps, i);
    var j: nat :| FirstNamed(steps, g, j) && NoneNewAfter(steps, j);
    assert i == j;
  }

  // ---------- the traces ----------

  function NameOf(bugType: BugType): string {
    var name := Or(bugType.name, Some(""));
    name.value
  }

  /** The traces of a list of items. */
  function TracesOf(items: seq<TypedItem>): seq<Trace> {
    if items == [] then []
    else TracesOf(items[..|items| - 1]) + OwnTrace(items[|items| - 1])
  }

  /** The trace of an item, if it names at least two functions. */
  function OwnTrace(item: TypedItem): seq<Trace> {
    var funcs := Functions(item.1.steps);
    if |funcs| >= 2 then [Trace(NameOf(item.0), funcs)] else []
  }

  function AllTraces(bugTypes: seq<BugType>): seq<Trace> {
    TracesOf(Items(bugTypes))
  }

  /** An item that names two functions gives a trace under the name of its bug type, if it has one. */
  ghost predicate IsTraceOf(item: TypedItem, t: Trace) {
    && NamesTwo(item.1.steps) && t.funcs == Functions(item.1.steps)
    && t.name == if item.0.name.Some? then item.0.name.value else ""
  }

  ghost function GivesTrace(): (TypedItem, Trace) -> bool {
    (item: TypedItem, t: Trace) => IsTraceOf(item, t)
  }

  lemma TracesPlus(items: seq<TypedItem>, item: TypedItem)
    ensures TracesOf(items + [item]) == TracesOf(items) + OwnTrace(item)
  {
    assert (items + [item])[..|items|] == items;
  }

  /** The traces are, one for one and in order, those of the items that name two functions. */
  lemma {:induction false} TracesInOrder(items: seq<TypedItem>)
    ensures Sublist(TracesOf(items), items, GivesTrace())
  {
    if items == [] {
      SublistOfNone(GivesTrace());
    } else {
      var rest, last := items[..|items| - 1], items[|items| - 1];
      assert items == rest + [last];
      TracesInOrder(rest);
      TracesPlus(rest, last);
      TwoFunctions(last.1.steps);
      if |Functions(last.1.steps)| >= 2 {
        SublistGives(TracesOf(rest), rest, GivesTrace(), last, OwnTrace(last)[0]);
      } else {
        SublistSkips(TracesOf(rest), rest, GivesTrace(), last);
        assert TracesOf(items) == TracesOf(rest);
      }
    }
  }

  lemma {:induction false} TracesNameTwo(items: seq<TypedItem>, t: Trace)
    requires t in TracesOf(items)
    ensures |t.funcs| >= 2
  {
    var rest := items[..|items| - 1];
    if t in TracesOf(rest) {
      TracesNameTwo(rest, t);
    }
  }

  // ---------- the loops ----------

  /** The inner loop of `traces`. */
  method CollectFunctions(steps: seq<Step>) returns (funcs: seq<string>)
    ensures funcs == Functions(steps)
  {
    funcs := [];
    for i := 0 to |steps|
      invariant funcs == Functions(steps[..i])
    {
      var func := FuncOf(steps[i]);
      if func.Some? && func.value != "" && func.value !in funcs {
        funcs := funcs + [func.value];
      }
      assert steps[..i + 1][..i] == steps[..i];
    }
    assert steps[..|steps|] == steps;
  }

  /** The middle loop of `traces`, for one bug type. */
  method CollectTraces(bugType: BugType, before: seq<Trace>, ghost items: seq<TypedItem>) returns (out: seq<Trace>)
    requires before == TracesOf(items)
    ensures out == TracesOf(items + TypedItems(bugType, bugType.items))
  {
    out := before;
    var reports := bugType.items;
    assert items + TypedItems(bugType, []) == items;
    for i := 0 to |reports|
      invariant out == TracesOf(items + TypedItems(bugType, reports[..i]))
    {
      var funcs := CollectFunctions(reports[i].steps);
      if |funcs| >= 2 {
        out := out + [Trace(NameOf(bugType), funcs)];
      }
      TypedItemsPlus(items, bugType, reports, i);
      TracesPlus(items + TypedItems(bugType, reports[..i]), (bugType, reports[i]));
    }
    assert reports[..|reports|] == reports;
  }

  /** traces. */
  method Traces(report: Report) returns (out: seq<Trace>)
    ensures out == AllTraces(report.bugTypes)
    ensures Sublist(out, Items(report.bugTypes), GivesTrace())
  {
    var bugTypes := report.bugTypes;
    out := [];
    for b := 0 to |bugTypes|
      invariant out == TracesOf(Items(bugTypes[..b]))
    {
      ItemsPlus(bugTypes, b);
      out := CollectTraces(bugTypes[b], out, Items(bugTypes[..b]));
    }
    assert bugTypes[..|bugTypes|] == bugTypes;
    TracesInOrder(Items(bugTypes));
  }

  // ---------- the choice ----------

  /** A trace is usable when the probe can be inserted into its last function. */
  ghost predicate Usable(t: Trace, text: string) {
    t.funcs != [] && ProbeSpec(text, t.funcs[|t.funcs| - 1]).Some?
  }

  /** The earliest usable trace. */
  ghost predicate IsChoice(found: seq<Trace>, text: string, i: nat) {
    i < |found| && Usable(found[i], text) && NoneUsable(found, text, i)
  }

  /** Nothing before `n` is usable. */
  ghost predicate NoneUsable(found: seq<Trace>, text: string, n: nat) {
    n <= |found| && forall e :: 0 <= e < n ==> !Usable(found[e], text)
  }

  lemma OneMoreUnusable(found: seq<Trace>, text: string, n: nat)
    requires n < |found| && NoneUsable(found, text, n) && !Usable(found[n], text)
    ensures NoneUsable(found, text, n + 1)
  {}

  /** The choice loop of main: the index of the deciding trace, its caller and the changed text. */
  method ChooseCaller(found: seq<Trace>, text: string) returns (choice: Option<(nat, string, string)>)
    requires forall t :: t in found ==> t.funcs != []
    ensures choice.None? ==> NoneUsable(found, text, |found|)
    ensures choice.Some? ==>
              var (i, caller, changed) := choice.value;
              && IsChoice(found, text, i) && caller == found[i].funcs[|found[i].funcs| - 1]
              && Probed(text, caller, changed)
  {
    for i := 0 to |found|
      invariant NoneUsable(found, text, i)
    {
      var caller := found[i].funcs[|found[i].funcs| - 1];
      var mutated := InsertProbe(text, caller);
      if mutated.Some? {
        return Some((i, caller, mutated.value));
      }
      OneMoreUnusable(found, text, i);
    }
    return None;
  }

  /** The item names two functions, and the probe can be inserted into the last of them. */
  ghost predicate CanTake(item: Item, func: string, text: string) {
    NamesTwo(item.steps) && IsLastNamed(item.steps, func) && exists out :: Probed(text, func, out)
  }

  /** The earliest item of the report into whose last function the probe can be inserted. */
  ghost predicate Decides(items: seq<TypedItem>, text: string, n: nat, func: string) {
    && n < |items| && CanTake(items[n].1, func, text)
    && forall m, f :: 0 <= m < n ==> !CanTake(items[m].1, f, text)
  }

  lemma DecidesOnce(items: seq<TypedItem>, text: string, m: nat, f: string, n: nat, g: string)
    requires Decides(items, text, m, f) && Decides(items, text, n, g)
    ensures m == n && f == g
  {
    assert !(m < n) && !(n < m);
    LastNamedIsOne(items[n].1.steps, f, g);
  }

  /** The caller to change and the changed text. */
  ghost predicate IsChange(items: seq<TypedItem>, text: string, caller: string, changed: string) {
    Probed(text, caller, changed) && exists n :: Decides(items, text, n, caller)
  }

  lemma UsableIsTaken(item: TypedItem, t: Trace, text: string, func: string)
    requires IsTraceOf(item, t)
    ensures CanTake(item.1, func, text) <==> Usable(t, text) && func == t.funcs[|t.funcs| - 1]
  {
    TwoFunctions(item.1.steps);
    LastFunction(item.1.steps);
    if IsLastNamed(item.1.steps, func) {
      LastNamedIsOne(item.1.steps, func, t.funcs[|t.funcs| - 1]);
    }
    forall out ensures ProbeSpec(text, func) == Some(out) <==> Probed(text, func, out) {
      ProbeMeans(text, func, out);
    }
  }

  /** The earliest usable trace is that of the earliest item that can be used. */
  lemma ChoiceDecides(found: seq<Trace>, items: seq<TypedItem>, text: string, i: nat, caller: string)
    requires Sublist(found, items, GivesTrace()) && IsChoice(found, text, i)
    requires caller == found[i].funcs[|found[i].funcs| - 1]
    ensures exists n :: Decides(items, text, n, caller)
  {
    var at :| IsSublist(found, items, GivesTrace(), at);
    ChosenItem(found, items, text, at, i, caller);
  }

  lemma ChosenItem(found: seq<Trace>, items: seq<TypedItem>, text: string, at: seq<nat>, i: nat, caller: string)
    requires IsSublist(found, items, GivesTrace(), at) && IsChoice(found, text, i)
    requires caller == found[i].funcs[|found[i].funcs| - 1]
    ensures i < |at| && Decides(items, text, at[i], caller)
  {
    var n, t := at[i], found[i];
    assert GivesTrace()(items[n], t);
    UsableIsTaken(items[n], t, text, caller);
    forall m, f | 0 <= m < n ensures !CanTake(items[m].1, f, text) {
      NotTakenBefore(found, items, text, at, i, m, f);
    }
  }

  lemma NotTakenBefore(found: seq<Trace>, items: seq<TypedItem>, text: string, at: seq<nat>, i: nat, m: nat, f: string)
    requires IsSublist(found, items, GivesTrace(), at) && i <= |found| && NoneUsable(found, text, i)
    requires m < |items| && (i < |found| ==> m < at[i])
    ensures !CanTake(items[m].1, f, text)
  {
    if CanTake(items[m].1, f, text) {
      var t := Trace(NameOf(items[m].0), Functions(items[m].1.steps));
      assert GivesTrace()(items[m], t);
      var k :| 0 <= k < |at| && at[k] == m;
      assert GivesTrace()(items[m], found[k]) && k < i;
      UsableIsTaken(items[m], found[k], text, f);
      assert false;
    }
  }

  ghost predicate NoneCanTake(items: seq<TypedItem>, text: string) {
    forall n, f :: 0 <= n < |items| ==> !CanTake(items[n].1, f, text)
  }

  lemma NoneDecides(found: seq<Trace>, items: seq<TypedItem>, text: string)
    requires Sublist(found, items, GivesTrace()) && NoneUsable(found, text, |found|)
    ensures NoneCanTake(items, text)
  {
    var at :| IsSublist(found, items, GivesTrace(), at);
    forall m, f | 0 <= m < |items| ensures !CanTake(items[m].1, f, text) {
      NotTakenBefore(found, items, text, at, |found|, m, f);
    }
  }

  ghost predicate NoneNamesTwo(items: seq<TypedItem>) {
    forall n :: 0 <= n < |items| ==> !NamesTwo(items[n].1.steps)
  }

  lemma {:induction false} NoTraces(items: seq<TypedItem>)
    ensures TracesOf(items) == [] <==> NoneNamesTwo(items)
  {
    if items != [] {
      var rest, last := items[..|items| - 1], items[|items| - 1];
      assert items == rest + [last];
      NoTraces(rest);
      TwoFunctions(last.1.steps);
    }
  }

  datatype Outcome = Mutated(caller: string, text: string) | NoTrace | NoDefine

  /** main, from the decoded report and the disassembled text on: it changes the function that the
      earliest item that can be used names last, and fails exactly when no item names two functions,
      or none of those that do can be used. */
  method ChangeOneCaller(report: Report, text: string) returns (outcome: Outcome)
    ensures var items := Items(report.bugTypes);
      && (outcome == NoTrace <==> NoneNamesTwo(items))
      && (outcome.Mutated? ==> IsChange(items, text, outcome.caller, outcome.text))
      && (!outcome.Mutated? ==> NoneCanTake(items, text))
  {
    var found := Traces(report);
    ghost var items := Items(report.bugTypes);
    NoTraces(items);
    forall t | t in found ensures t.funcs != [] {
      TracesNameTwo(items, t);
    }
    if found == [] {
      NoneDecides(found, items, text);
      return NoTrace;
    }
    var choice := ChooseCaller(found, text);
    if choice.None? {
      NoneDecides(found, items, text);
      return NoDefine;
    }
    ChoiceDecides(found, items, text, choice.value.0, choice.value.1);
    return Mutated(choice.value.1, choice.value.2);
  }

  /** The caller to change and the changed text, said without a loop. */
  ghost function Chosen(report: Report, text: string): Option<(string, string)> {
    if caller, changed :| IsChange(Items(report.bugTypes), text, caller, changed) then Some((caller, changed)) else None
  }

  lemma ChosenIs(report: Report, text: string, caller: string, changed: string)
    ensures IsChange(Items(report.bugTypes), text, caller, changed) <==> Chosen(report, text) == Some((caller, changed))
  {
    var items := Items(report.bugTypes);
    forall f, out | IsChange(items, text, caller, changed) && IsChange(items, text, f, out)
      ensures f == caller && out == changed
    {
      var m :| Decides(items, text, m, caller);
      var n :| Decides(items, text, n, f);
      DecidesOnce(items, text, m, caller, n, f);
      ProbeMeans(text, caller, changed);
      ProbeMeans(text, caller, out);
    }
  }

  lemma NoneIsChosen(report: Report, text: string)
    requires NoneCanTake(Items(report.bugTypes), text)
    ensures Chosen(report, text) == None
  {
    forall caller, changed ensures !IsChange(Items(report.bugTypes), text, caller, changed) {}
  }
}
