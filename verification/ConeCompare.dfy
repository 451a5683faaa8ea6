/** compare_cone_reports.py: agreement of an incremental and a scratch report inside a work set. */
module ConeCompare {
  import opened Wrappers
  import opened Reports

  /** A diagnostic step as the comparison sees it. */
  type Mark = (Option<string>, Option<int>)

  datatype Bug = Bug(name: string, steps: seq<Mark>)

  function Marks(steps: seq<Step>): seq<Mark> {
    seq(|steps|, i requires 0 <= i < |steps| => (FuncOf(steps[i]), steps[i].line))
  }

  function BugOf(item: TypedItem): Bug {
    Bug(Or(item.0.name, Some("")).value, Marks(item.1.steps))
  }

  /** The traces of a report, one for each item. */
  function AllBugs(bugTypes: seq<BugType>): seq<Bug> {
    BugsOf(Items(bugTypes))
  }

  function BugsOf(items: seq<TypedItem>): seq<Bug> {
    seq(|items|, i requires 0 <= i < |items| => BugOf(items[i]))
  }

  /** The trace of an item is under the name of its bug type and has the item's steps. */
  predicate IsBugOf(item: TypedItem, bug: Bug) {
    bug.name == (if item.0.name.Some? then item.0.name.value else "") && SameSteps(bug.steps, item.1.steps)
  }

  /** Step by step the same line and the same function: the key of the step, or its name without one. */
  predicate SameSteps(marks: seq<Mark>, steps: seq<Step>) {
    |marks| == |steps| && forall k :: 0 <= k < |steps| ==> MarkOf(marks[k], steps[k])
  }

  predicate MarkOf(mark: Mark, step: Step) {
    && mark.1 == step.line
    && mark.0 == if step.funcKey in {None, Some("")} then step.funcName else step.funcKey
  }

  /** An item has exactly one trace. */
  lemma BugIs(item: TypedItem, bug: Bug)
    ensures bug == BugOf(item) <==> IsBugOf(item, bug)
  {
    if IsBugOf(item, bug) {
      assert bug.steps == Marks(item.1.steps);
    }
  }

  /** Item by item, in the order of the report. */
  ghost predicate AreBugs(bugs: seq<Bug>, items: seq<TypedItem>) {
    |bugs| == |items| && forall i :: 0 <= i < |items| ==> IsBugOf(items[i], bugs[i])
  }

  /** The traces compared are exactly those of the report's items, one for one and in order. */
  lemma BugsAre(items: seq<TypedItem>, bugs: seq<Bug>)
    ensures bugs == BugsOf(items) <==> AreBugs(bugs, items)
  {
    forall i | 0 <= i < |items| && |bugs| == |items|
      ensures bugs[i] == BugOf(items[i]) <==> IsBugOf(items[i], bugs[i])
    {
      BugIs(items[i], bugs[i]);
    }
    if AreBugs(bugs, items) {
      assert bugs == BugsOf(items);
    }
  }

  /** bugs. */
  method Bugs(report: Report) returns (out: seq<Bug>)
    ensures out == AllBugs(report.bugTypes) && AreBugs(out, Items(report.bugTypes))
  {
    var bugTypes := report.bugTypes;
    out := [];
    for b := 0 to |bugTypes|
      invariant out == BugsOf(Items(bugTypes[..b]))
    {
      ghost var before := Items(bugTypes[..b]);
      var name, items := Or(bugTypes[b].name, Some("")).value, bugTypes[b].items;
      ItemsPlus(bugTypes, b);
      for i := 0 to |items|
        invariant out == BugsOf(before + TypedItems(bugTypes[b], items[..i]))
      {
        TypedItemsPlus(before, bugTypes[b], items, i);
        out := out + [Bug(name, Marks(items[i].steps))];
      }
      assert items[..|items|] == items;
    }
    assert bugTypes[..|bugTypes|] == bugTypes;
    BugsAre(Items(bugTypes), out);
  }

  // ---------- the work set ----------

  predicate IsSpace(c: char) {
    c == ' ' || '\t' <= c <= '\r' || '\U{1c}' <= c <= '\U{1f}'
  }

  function StripLeft(s: string): string {
    if s != "" && IsSpace(s[0]) then StripLeft(s[1..]) else s
  }

  function StripRight(s: string): string {
    if s != "" && IsSpace(s[|s| - 1]) then StripRight(s[..|s| - 1]) else s
  }

  function Strip(s: string): string {
    StripRight(StripLeft(s))
  }

  predicate AllSpace(s: string, i: nat, j: nat) {
    i <= j <= |s| && forall k :: i <= k < j ==> IsSpace(s[k])
  }

  /** The line without the white space around it. */
  ghost predicate IsStripped(s: string, r: string) {
    exists i: nat, j: nat :: StripsTo(s, i, j, r)
  }

  predicate StripsTo(s: string, i: nat, j: nat, r: string) {
    i <= j && AllSpace(s, 0, i) && AllSpace(s, j, |s|) && r == s[i..j] && IsTrimmed(r)
  }

  predicate IsTrimmed(r: string) {
    r != "" ==> !IsSpace(r[0]) && !IsSpace(r[|r| - 1])
  }

  lemma {:induction false} LeftIs(s: string) returns (i: nat)
    ensures AllSpace(s, 0, i) && StripLeft(s) == s[i..] && (i < |s| ==> !IsSpace(s[i]))
  {
    if s != "" && IsSpace(s[0]) {
      var j := LeftIs(s[1..]);
      i := j + 1;
      assert s[1..][j..] == s[i..];
      forall k | 0 <= k < i ensures IsSpace(s[k]) {
        assert k > 0 ==> s[k] == s[1..][k - 1];
      }
    } else {
      i := 0;
    }
  }

  lemma {:induction false} RightIs(s: string) returns (j: nat)
    ensures AllSpace(s, j, |s|) && StripRight(s) == s[..j] && (0 < j ==> !IsSpace(s[j - 1]))
  {
    if s != "" && IsSpace(s[|s| - 1]) {
      j := RightIs(s[..|s| - 1]);
      assert s[..|s| - 1][..j] == s[..j];
    } else {
      j := |s|;
    }
  }

  lemma StripIs(s: string)
    ensures IsStripped(s, Strip(s))
  {
    var i := LeftIs(s);
    var j := RightIs(s[i..]);
    assert s[i..][..j] == s[i..i + j];
    assert AllSpace(s, i + j, |s|);
    if j > 0 {
      assert s[i..][j - 1] == s[i + j - 1] && s[i..][0] == s[i];
    }
    assert StripsTo(s, i, i + j, Strip(s));
  }

  lemma StrippedIsOne(s: string, r: string, t: string)
    requires IsStripped(s, r) && IsStripped(s, t)
    ensures r == t
  {
    var i: nat, j: nat :| StripsTo(s, i, j, r);
    var k: nat, l: nat :| StripsTo(s, k, l, t);
    TrimmedEnds(s, i, j, r);
    TrimmedEnds(s, k, l, t);
  }

  lemma TrimmedEnds(s: string, i: nat, j: nat, r: string)
    requires StripsTo(s, i, j, r)
    ensures i <= j <= |s| && r == s[i..j] && (i < j ==> !IsSpace(s[i]) && !IsSpace(s[j - 1]))
  {
    if i < j {
      assert r[0] == s[i] && r[|r| - 1] == s[j - 1];
    }
  }

  /** A line names a function unless it is blank or a comment. */
  predicate NamesFunction(line: string) {
    Strip(line) != "" && Strip(line)[0] != '#'
  }

  /** load_workset. */
  method LoadWorkset(lines: seq<string>) returns (names: set<string>)
    ensures names == set line | line in lines && NamesFunction(line) :: Strip(line)
    ensures forall name :: name in names <==>
              name != "" && name[0] != '#' && exists line :: line in lines && IsStripped(line, name)
  {
    names := {};
    for i := 0 to |lines|
      invariant names == set line | line in lines[..i] && NamesFunction(line) :: Strip(line)
    {
      assert lines[..i + 1] == lines[..i] + [lines[i]];
      var line := Strip(lines[i]);
      if line != "" && line[0] != '#' {
        names := names + {line};
      }
    }
    assert lines[..|lines|] == lines;
    forall line, name | line in lines ensures IsStripped(line, name) <==> name == Strip(line) {
      StripIs(line);
      if IsStripped(line, name) {
        StrippedIsOne(line, name, Strip(line));
      }
    }
  }

  // ---------- the comparison ----------

  predicate Touches(bug: Bug, work: set<string>) {
    exists i :: 0 <= i < |bug.steps| && bug.steps[i].0.Some? && bug.steps[i].0.value in work
  }

  function ToSet(bugs: seq<Bug>): set<Bug> {
    set bug | bug in bugs
  }

  /** The traces of a report that touch the work set. */
  function Cone(bugs: seq<Bug>, work: set<string>): set<Bug> {
    set bug | bug in bugs && Touches(bug, work)
  }

  /** The numbers on the first line of output, and the exit code. */
  datatype Verdict = Verdict(inc: nat, scratch: nat, cone: nat, invented: nat, missing: nat, workset: nat, rc: int)

  /** main, from the decoded inputs on. */
  method Compare(inc: seq<Bug>, scratch: seq<Bug>, work: set<string>) returns (v: Verdict)
    ensures v.inc == |inc| && v.scratch == |scratch| && v.workset == |work|
    ensures v.cone == |Cone(scratch, work)|
    ensures v.invented == |ToSet(inc) - ToSet(scratch)|
    ensures v.missing == |Cone(scratch, work) - ToSet(inc)|
    ensures v.rc == if v.invented > 0 || v.missing > 0 then 1 else 0
    ensures v.rc == 0 <==> Agrees(inc, scratch, work)
  {
    var cone: seq<Bug> := [];
    for i := 0 to |scratch|
      invariant forall bug :: bug in cone <==> bug in scratch[..i] && Touches(bug, work)
    {
      assert scratch[..i + 1] == scratch[..i] + [scratch[i]];
      if Touches(scratch[i], work) {
        cone := cone + [scratch[i]];
      }
    }
    assert scratch[..|scratch|] == scratch && ToSet(cone) == Cone(scratch, work);
    var invented := ToSet(inc) - ToSet(scratch);
    var missing := ToSet(cone) - ToSet(inc);
    v := Verdict(|inc|, |scratch|, |ToSet(cone)|, |invented|, |missing|, |work|,
                 if invented != {} || missing != {} then 1 else 0);
    AgreesIff(inc, scratch, work);
    EmptyIff(invented);
    EmptyIff(missing);
  }

  lemma EmptyIff<T>(s: set<T>)
    ensures |s| == 0 <==> s == {}
  {}

  /** What agreement means: the incremental report invents nothing, and both reports have the
      same traces inside the cone. */
  ghost predicate Agrees(inc: seq<Bug>, scratch: seq<Bug>, work: set<string>) {
    ToSet(inc) <= ToSet(scratch) && Cone(inc, work) == Cone(scratch, work)
  }

  /** Nothing invented and nothing missing is the same as agreement. */
  lemma AgreesIff(inc: seq<Bug>, scratch: seq<Bug>, work: set<string>)
    ensures Agrees(inc, scratch, work) <==>
              ToSet(inc) - ToSet(scratch) == {} && Cone(scratch, work) - ToSet(inc) == {}
  {
    if ToSet(inc) - ToSet(scratch) == {} && Cone(scratch, work) - ToSet(inc) == {} {
      forall bug | bug in inc ensures bug in scratch {
        assert bug !in ToSet(inc) - ToSet(scratch);
      }
      forall bug | bug in Cone(scratch, work) ensures bug in inc {
        assert bug !in Cone(scratch, work) - ToSet(inc);
      }
      assert Cone(inc, work) == Cone(scratch, work);
    }
  }

  // ---------- agreement over several work sets ----------

  /** Agreement on a union is agreement on both parts. */
  lemma AgreesOnUnion(inc: seq<Bug>, scratch: seq<Bug>, first: set<string>, second: set<string>)
    ensures Agrees(inc, scratch, first + second) <==> Agrees(inc, scratch, first) && Agrees(inc, scratch, second)
  {
    ConeOfUnion(inc, first, second);
    ConeOfUnion(scratch, first, second);
    AgreesIff(inc, scratch, first);
    AgreesIff(inc, scratch, second);
    AgreesIff(inc, scratch, first + second);
  }

  lemma ConeOfUnion(bugs: seq<Bug>, first: set<string>, second: set<string>)
    ensures Cone(bugs, first + second) == Cone(bugs, first) + Cone(bugs, second)
  {
    forall bug: Bug ensures Touches(bug, first + second) <==> Touches(bug, first) || Touches(bug, second) {
      if i :| 0 <= i < |bug.steps| && bug.steps[i].0.Some? && bug.steps[i].0.value in first + second {
        assert bug.steps[i].0.value in first || bug.steps[i].0.value in second;
      }
    }
  }

  /** Agreement on a work set is inherited by every part of it. */
  lemma AgreesOnSubset(inc: seq<Bug>, scratch: seq<Bug>, work: set<string>, part: set<string>)
    requires Agrees(inc, scratch, work) && part <= work
    ensures Agrees(inc, scratch, part)
  {
    assert work == part + (work - part);
    AgreesOnUnion(inc, scratch, part, work - part);
  }

  /** When every scratch trace touches the work set, agreement is equality of the two reports. */
  lemma FullConeIsEquality(inc: seq<Bug>, scratch: seq<Bug>, work: set<string>)
    requires forall bug :: bug in scratch ==> Touches(bug, work)
    ensures Agrees(inc, scratch, work) <==> ToSet(inc) == ToSet(scratch)
  {
    assert Cone(scratch, work) == ToSet(scratch);
    AgreesIff(inc, scratch, work);
  }
}
