/**
 ab_summarize.py: store totals, pooled medians and the sorted-pair win count.
 */
module Summarize {
  import opened Wrappers
  import opened Sorting
  import opened Sublists
  import opened AbHarness
  import opened AbTable

  function Leq(): (int, int) -> bool {
    (x: int, y: int) => x <= y
  }

  function InOrder(v: seq<int>): (s: seq<int>)
    ensures |s| == |v|
  {
    SortSorts(v, Leq());
    Sort(v, Leq())
  }

  lemma SortedFacts(v: seq<int>)
    ensures TotalPreorder(Leq()) && multiset(InOrder(v)) == multiset(v) && |InOrder(v)| == |v|
    ensures forall i, j :: 0 <= i <= j < |v| ==> InOrder(v)[i] <= InOrder(v)[j]
  {
    SortSorts(v, Leq());
    forall i, j | 0 <= i <= j < |v| ensures InOrder(v)[i] <= InOrder(v)[j] {
      assert i == j || Leq()(InOrder(v)[i], InOrder(v)[j]);
    }
  }

  // ---------- the win count ----------

  /** How many of the first `n` positions have perf strictly smaller. */
  function WinsUpTo(a: seq<int>, b: seq<int>, n: nat): nat
    requires n <= |a| && n <= |b|
  {
    if n == 0 then 0 else WinsUpTo(a, b, n - 1) + if b[n - 1] < a[n - 1] then 1 else 0
  }

  /** The sum over zip(sorted(am), sorted(ap)) of line 57. */
  function Wins(am: seq<int>, ap: seq<int>): nat {
    SortedFacts(am);
    SortedFacts(ap);
    WinsUpTo(InOrder(am), InOrder(ap), if |am| <= |ap| then |am| else |ap|)
  }

  /** The positions among the first `n` at which the second list is strictly smaller. */
  function SmallerAt(a: seq<int>, b: seq<int>, n: nat): set<nat> {
    set i: nat | i < n && i < |a| && i < |b| && b[i] < a[i]
  }

  lemma {:induction false} WinsAreCounted(a: seq<int>, b: seq<int>, n: nat)
    requires n <= |a| && n <= |b|
    ensures WinsUpTo(a, b, n) == |SmallerAt(a, b, n)|
  {
    if n > 0 {
      WinsAreCounted(a, b, n - 1);
      var before := SmallerAt(a, b, n - 1);
      assert SmallerAt(a, b, n) == if b[n - 1] < a[n - 1] then before + {n - 1} else before;
    }
  }

  /** The win count is the number of positions at which perf's sorted times are strictly smaller than
      main's, up to the end of the shorter list. */
  lemma WinsArePositions(am: seq<int>, ap: seq<int>)
    ensures Wins(am, ap) == |set i: nat | i < |am| && i < |ap| && InOrder(ap)[i] < InOrder(am)[i]|
  {
    var n := if |am| <= |ap| then |am| else |ap|;
    WinsAreCounted(InOrder(am), InOrder(ap), n);
    assert SmallerAt(InOrder(am), InOrder(ap), n) ==
           set i: nat | i < |am| && i < |ap| && InOrder(ap)[i] < InOrder(am)[i];
  }

  lemma {:induction false} AllWin(a: seq<int>, b: seq<int>, n: nat)
    requires n <= |a| && n <= |b|
    ensures WinsUpTo(a, b, n) <= n
    ensures WinsUpTo(a, b, n) == n <==> forall i :: 0 <= i < n ==> b[i] < a[i]
  {
    if n > 0 {
      AllWin(a, b, n - 1);
    }
  }

  type Pairs = seq<(int, int)>

  function Firsts(pairs: Pairs): seq<int> {
    seq(|pairs|, i requires 0 <= i < |pairs| => pairs[i].0)
  }

  function Seconds(pairs: Pairs): seq<int> {
    seq(|pairs|, i requires 0 <= i < |pairs| => pairs[i].1)
  }

  /** Each main time is paired with a perf time of its own. */
  ghost predicate Pairing(pairs: Pairs, am: seq<int>, ap: seq<int>) {
    multiset(Firsts(pairs)) == multiset(am) && multiset(Seconds(pairs)) <= multiset(ap)
  }

  ghost predicate PerfFaster(pairs: Pairs) {
    forall i :: 0 <= i < |pairs| ==> pairs[i].1 < pairs[i].0
  }

  ghost predicate CanPair(am: seq<int>, ap: seq<int>) {
    exists pairs :: Pairing(pairs, am, ap) && PerfFaster(pairs)
  }

  // ---------- counting below a value ----------

  function AtMost(v: int): int -> bool {
    (x: int) => x <= v
  }

  function LessThan(v: int): int -> bool {
    (x: int) => x < v
  }

  /** With perf faster in every pair, as many perf times lie below a value as main times up to it. */
  lemma {:induction false} PairsCount(pairs: Pairs, v: int)
    requires PerfFaster(pairs)
    ensures Count(Firsts(pairs), AtMost(v)) <= Count(Seconds(pairs), LessThan(v))
  {
    if pairs != [] {
      var rest := pairs[..|pairs| - 1];
      PairsCount(rest, v);
      assert Firsts(pairs)[..|pairs| - 1] == Firsts(rest);
      assert Seconds(pairs)[..|pairs| - 1] == Seconds(rest);
    }
  }

  lemma CancelContained(a: multiset<int>, b: multiset<int>, x: int)
    requires a + multiset{x} <= b + multiset{x}
    ensures a <= b
  {
    forall y ensures a[y] <= b[y] {
      assert (a + multiset{x})[y] <= (b + multiset{x})[y];
    }
  }

  lemma {:induction false} CountContained(s: seq<int>, t: seq<int>, p: int -> bool)
    requires multiset(s) <= multiset(t)
    ensures Count(s, p) <= Count(t, p)
  {
    if s != [] {
      var x := s[|s| - 1];
      LastSplit(s);
      assert x in multiset(t);
      var i :| 0 <= i < |t| && t[i] == x;
      CountWithout(t, i, p);
      CancelContained(multiset(s[..|s| - 1]), multiset(Without(t, i)), x);
      CountContained(s[..|s| - 1], Without(t, i), p);
    }
  }

  lemma {:induction false} CountAtLeast(s: seq<int>, p: int -> bool, k: nat)
    requires k <= |s| && forall j :: 0 <= j < k ==> p(s[j])
    ensures Count(s, p) >= k
  {
    if |s| > 0 {
      CountAtLeast(s[..|s| - 1], p, if k == |s| then k - 1 else k);
    }
  }

  lemma {:induction false} CountNoMore(s: seq<int>, p: int -> bool, k: nat)
    requires k <= |s| && forall j :: k <= j < |s| ==> !p(s[j])
    ensures Count(s, p) <= k
  {
    if |s| > 0 {
      CountNoMore(s[..|s| - 1], p, if k == |s| then k - 1 else k);
    }
  }

  /** A winning pairing of the two lists makes every position of the sorted lists a win. */
  lemma PairingWinsAt(am: seq<int>, ap: seq<int>, pairs: Pairs, i: nat)
    requires Pairing(pairs, am, ap) && PerfFaster(pairs) && i < |am| <= |ap|
    ensures |InOrder(ap)| == |ap| && |InOrder(am)| == |am| && InOrder(ap)[i] < InOrder(am)[i]
  {
    SortedFacts(am);
    SortedFacts(ap);
    var a, b := InOrder(am), InOrder(ap);
    var v := a[i];
    CountAtLeast(a, AtMost(v), i + 1);
    CountPermutation(a, Firsts(pairs), AtMost(v));
    PairsCount(pairs, v);
    CountContained(Seconds(pairs), b, LessThan(v));
    if b[i] >= v {
      CountNoMore(b, LessThan(v), i);
    }
  }

  lemma PairingLengths(am: seq<int>, ap: seq<int>, pairs: Pairs)
    requires Pairing(pairs, am, ap)
    ensures |pairs| == |am| <= |ap|
  {
    assert |multiset(Firsts(pairs))| == |pairs| && |multiset(am)| == |am|;
    var rest := multiset(ap) - multiset(Seconds(pairs));
    assert multiset(ap) == multiset(Seconds(pairs)) + rest;
    assert |multiset(ap)| == |ap| && |multiset(Seconds(pairs))| == |pairs|;
  }

  /** zip of two lists, up to the end of the first. */
  function Zip(a: seq<int>, b: seq<int>): (pairs: Pairs)
    requires |a| <= |b|
  {
    seq(|a|, i requires 0 <= i < |a| => (a[i], b[i]))
  }

  lemma ZipPairs(a: seq<int>, b: seq<int>)
    requires |a| <= |b|
    ensures Firsts(Zip(a, b)) == a && multiset(Seconds(Zip(a, b))) <= multiset(b)
  {
    assert Seconds(Zip(a, b)) == b[..|a|];
    assert b == b[..|a|] + b[|a|..];
  }

  /** The sorted lists paired position by position. */
  lemma SortedPairing(am: seq<int>, ap: seq<int>) returns (pairs: Pairs)
    requires |am| <= |ap|
    ensures Pairing(pairs, am, ap) && |pairs| == |am| && |InOrder(am)| == |am| && |InOrder(ap)| == |ap|
    ensures forall i :: 0 <= i < |am| ==> pairs[i] == (InOrder(am)[i], InOrder(ap)[i])
  {
    SortedFacts(am);
    SortedFacts(ap);
    pairs := Zip(InOrder(am), InOrder(ap));
    ZipPairs(InOrder(am), InOrder(ap));
  }

  /** The win count reaches the number of main times exactly when some pairing gives each main
      time a perf time of its own that is strictly smaller; for any two lists. */
  lemma FullWinsIffPairing(am: seq<int>, ap: seq<int>)
    ensures Wins(am, ap) == |am| <==> CanPair(am, ap)
  {
    SortedFacts(am);
    SortedFacts(ap);
    var n := if |am| <= |ap| then |am| else |ap|;
    AllWin(InOrder(am), InOrder(ap), n);
    if CanPair(am, ap) {
      var pairs :| Pairing(pairs, am, ap) && PerfFaster(pairs);
      PairingLengths(am, ap, pairs);
      forall i | 0 <= i < n ensures InOrder(ap)[i] < InOrder(am)[i] {
        PairingWinsAt(am, ap, pairs, i);
      }
    } else if |am| <= |ap| {
      var pairs := SortedPairing(am, ap);
      assert !PerfFaster(pairs);
    }
  }

  /** The count depends only on the times, not on the order in which the rows list them. */
  lemma WinsIgnoreOrder(am: seq<int>, ap: seq<int>, am': seq<int>, ap': seq<int>)
    requires multiset(am) == multiset(am') && multiset(ap) == multiset(ap')
    ensures Wins(am, ap) == Wins(am', ap')
  {
    SameSort(am, am');
    SameSort(ap, ap');
    assert |multiset(am)| == |am| && |multiset(am')| == |am'| && |multiset(ap)| == |ap| && |multiset(ap')| == |ap'|;
  }

  lemma SameSort(v: seq<int>, v': seq<int>)
    requires multiset(v) == multiset(v')
    ensures InOrder(v) == InOrder(v')
  {
    SortedFacts(v);
    SortSorts(v, Leq());
    SortSorts(v', Leq());
    SortedUnique(InOrder(v), InOrder(v'), Leq());
  }

  // ---------- the median ----------

  /** statistics.median, and 0 of nothing. */
  function Median(v: seq<int>): real {
    SortedFacts(v);
    var s, n := InOrder(v), |v|;
    if n == 0 then 0.0
    else if n % 2 == 1 then s[n / 2] as real
    else (s[n / 2 - 1] + s[n / 2]) as real / 2.0
  }

  /** The value has rank `k` among these: no more than `k` are smaller, and more than `k` are no greater. */
  predicate HasRank(v: seq<int>, x: int, k: nat) {
    x in v && Count(v, LessThan(x)) <= k < Count(v, AtMost(x))
  }

  lemma SortedHasRank(v: seq<int>, k: nat)
    requires k < |v|
    ensures HasRank(v, InOrder(v)[k], k)
  {
    SortedFacts(v);
    var s, x := InOrder(v), InOrder(v)[k];
    CountAtLeast(s, AtMost(x), k + 1);
    CountNoMore(s, LessThan(x), k);
    CountPermutation(s, v, AtMost(x));
    CountPermutation(s, v, LessThan(x));
    assert x in multiset(s) && x in multiset(v);
  }

  /** It lies in the middle between the value of the lower and that of the upper middle rank. */
  ghost predicate IsMedian(v: seq<int>, m: real) {
    if v == [] then m == 0.0 else exists low, high :: IsMiddle(v, m, low, high)
  }

  predicate IsMiddle(v: seq<int>, m: real, low: int, high: int)
    requires v != []
  {
    HasRank(v, low, (|v| - 1) / 2) && HasRank(v, high, |v| / 2) && m == (low + high) as real / 2.0
  }

  lemma MedianIs(v: seq<int>)
    ensures IsMedian(v, Median(v))
  {
    if v != [] {
      var low, high := InOrder(v)[(|v| - 1) / 2], InOrder(v)[|v| / 2];
      SortedHasRank(v, (|v| - 1) / 2);
      SortedHasRank(v, |v| / 2);
      assert IsMiddle(v, Median(v), low, high);
    }
  }

  /** Ranks, and so medians, are unique. */
  lemma RankIsUnique(v: seq<int>, x: int, y: int, k: nat)
    requires HasRank(v, x, k) && HasRank(v, y, k)
    ensures x == y
  {
    if x < y {
      CountLess(v, AtMost(x), LessThan(y));
    } else if y < x {
      CountLess(v, AtMost(y), LessThan(x));
    }
  }

  lemma {:induction false} CountLess(v: seq<int>, p: int -> bool, q: int -> bool)
    requires forall x :: p(x) ==> q(x)
    ensures Count(v, p) <= Count(v, q)
  {
    if v != [] {
      CountLess(v[..|v| - 1], p, q);
    }
  }

  /** A full win count over equally many times puts perf's median strictly below main's. */
  lemma FullWinsLowerMedian(am: seq<int>, ap: seq<int>)
    requires |am| == |ap| > 0 && CanPair(am, ap)
    ensures Median(ap) < Median(am)
  {
    var pairs :| Pairing(pairs, am, ap) && PerfFaster(pairs);
    var n := |am|;
    PairingWinsAt(am, ap, pairs, n / 2);
    if n % 2 == 0 {
      PairingWinsAt(am, ap, pairs, n / 2 - 1);
    }
  }

  // ---------- reading the table ----------

  /** The store times: a later row of the same project and branch replaces an earlier one. */
  function StoreOf(lines: seq<Line>): map<(string, string), nat> {
    if lines == [] then map[]
    else
      var before, last := StoreOf(lines[..|lines| - 1]), lines[|lines| - 1];
      if last.Row? && last.key.mode == Store then before[(last.key.project, last.key.branch) := last.ms] else before
  }

  predicate IsInc(line: Line, project: string, branch: string) {
    line.Row? && line.key.mode == Inc && line.key.project == project && line.key.branch == branch
  }

  /** The incremental time of a row, if it is one of this project and branch. */
  function OwnTime(line: Line, project: string, branch: string): seq<int> {
    if IsInc(line, project, branch) then [line.ms] else []
  }

  /** The incremental times of one project and branch, in row order. */
  function IncOf(lines: seq<Line>, project: string, branch: string): seq<int> {
    if lines == [] then []
    else
      var last := lines[|lines| - 1];
      IncOf(lines[..|lines| - 1], project, branch) + OwnTime(last, project, branch)
  }

  // ---------- store totals ----------

  function StoreAt(store: map<(string, string), nat>, project: string, branch: string): nat {
    if (project, branch) in store then store[(project, branch)] else 0
  }

  /** The sum that lines 28-30 accumulate for one branch. */
  function Total(store: map<(string, string), nat>, projects: seq<string>, branch: string): nat {
    if projects == [] then 0
    else Total(store, projects[..|projects| - 1], branch) + StoreAt(store, projects[|projects| - 1], branch)
  }

  /** The sum of all store rows of a branch. */
  function StoreRowSum(lines: seq<Line>, branch: string): nat {
    if lines == [] then 0
    else
      var last := lines[|lines| - 1];
      StoreRowSum(lines[..|lines| - 1], branch)
      + if last.Row? && last.key.mode == Store && last.key.branch == branch then last.ms else 0
  }

  predicate Distinct(s: seq<string>) {
    forall i, j :: 0 <= i < j < |s| ==> s[i] != s[j]
  }

  predicate Lists(projects: seq<string>, lines: seq<Line>) {
    forall line :: line in lines && line.Row? ==> line.key.project in projects
  }

  predicate HasHeader(lines: seq<Line>) {
    lines != [] && lines[0].Header?
  }

  /** A table as the harness writes it: a header, no key twice, and stores of old.bc only. */
  ghost predicate HarnessTable(lines: seq<Line>) {
    HasHeader(lines) && HarnessRows(lines)
  }

  ghost predicate HarnessRows(lines: seq<Line>) {
    UniqueRows(lines) &&
    forall line :: line in lines && line.Row? && line.key.mode == Store ==> line.key.sample == "old"
  }

  predicate IsStore(line: Line, project: string, branch: string) {
    line.Row? && line.key.mode == Store && line.key.project == project && line.key.branch == branch
  }

  /** The last store row of a project and branch. */
  predicate IsLastStore(lines: seq<Line>, project: string, branch: string, i: nat) {
    && i < |lines| && IsStore(lines[i], project, branch)
    && forall j :: i < j < |lines| ==> !IsStore(lines[j], project, branch)
  }

  /** The store time is that of the last store row of the project and branch, if there is one. */
  ghost predicate IsStoreTime(store: map<(string, string), nat>, lines: seq<Line>, project: string, branch: string) {
    if (project, branch) in store
    then exists i: nat :: IsLastStore(lines, project, branch, i) && store[(project, branch)] == lines[i].ms
    else forall line :: line in lines ==> !IsStore(line, project, branch)
  }

  lemma LastStorePlus(rest: seq<Line>, last: Line, project: string, branch: string, i: nat)
    ensures IsLastStore(rest + [last], project, branch, i) <==>
              if IsStore(last, project, branch) then i == |rest| else IsLastStore(rest, project, branch, i)
  {
    var lines := rest + [last];
    assert lines[|rest|] == last && forall j :: 0 <= j < |rest| ==> lines[j] == rest[j];
  }

  lemma {:induction false} StoreTimeIs(lines: seq<Line>, project: string, branch: string)
    ensures IsStoreTime(StoreOf(lines), lines, project, branch)
  {
    if lines != [] {
      var rest, last := lines[..|lines| - 1], lines[|lines| - 1];
      assert lines == rest + [last];
      StoreTimeIs(rest, project, branch);
      if IsStore(last, project, branch) {
        assert IsLastStore(lines, project, branch, |rest|);
      } else if (project, branch) in StoreOf(rest) {
        var i: nat :| IsLastStore(rest, project, branch, i) && StoreOf(rest)[(project, branch)] == rest[i].ms;
        LastStorePlus(rest, last, project, branch, i);
        assert lines[i] == rest[i];
      }
    }
  }

  /** A row of the table gives a time of its own project and branch. */
  ghost function GivesTime(project: string, branch: string): (Line, int) -> bool {
    (line: Line, ms: int) => IsInc(line, project, branch) && ms == line.ms
  }

  /** The incremental times are those of the rows of the project and branch, in row order. */
  lemma {:induction false} IncTimesAre(lines: seq<Line>, project: string, branch: string)
    ensures Sublist(IncOf(lines, project, branch), lines, GivesTime(project, branch))
  {
    if lines == [] {
      SublistOfNone(GivesTime(project, branch));
    } else {
      var rest, last := lines[..|lines| - 1], lines[|lines| - 1];
      assert lines == rest + [last];
      IncTimesAre(rest, project, branch);
      if IsInc(last, project, branch) {
        SublistGives(IncOf(rest, project, branch), rest, GivesTime(project, branch), last, last.ms);
      } else {
        SublistSkips(IncOf(rest, project, branch), rest, GivesTime(project, branch), last);
        assert IncOf(lines, project, branch) == IncOf(rest, project, branch);
      }
    }
  }

  /** One new entry raises the total by its value, since its project is listed once. */
  lemma {:induction false} TotalPlus(store: map<(string, string), nat>, projects: seq<string>, branch: string,
                                     project: string, b: string, ms: nat)
    requires Distinct(projects) && (project, b) !in store
    ensures Total(store[(project, b) := ms], projects, branch) ==
            Total(store, projects, branch) + if b == branch && project in projects then ms else 0
  {
    if projects != [] {
      var rest := projects[..|projects| - 1];
      TotalPlus(store, rest, branch, project, b, ms);
      assert projects == rest + [projects[|projects| - 1]];
    }
  }

  /** In a harness table no store row is overwritten: the total is the sum of the rows. */
  lemma {:induction false} TotalIsRowSum(lines: seq<Line>, projects: seq<string>, branch: string)
    requires HarnessRows(lines) && Distinct(projects) && Lists(projects, lines)
    ensures Total(StoreOf(lines), projects, branch) == StoreRowSum(lines, branch)
  {
    if lines == [] {
      NothingStored(projects, branch);
    } else {
      var n := |lines| - 1;
      var rest, last := lines[..n], lines[n];
      assert lines == rest + [last];
      TotalIsRowSum(rest, projects, branch);
      if last.Row? && last.key.mode == Store {
        StoreTimeIs(rest, last.key.project, last.key.branch);
        forall i | 0 <= i < n ensures !IsStore(rest[i], last.key.project, last.key.branch) {
          assert lines[i] == rest[i] && lines[i] in lines && lines[n] in lines;
        }
        TotalPlus(StoreOf(rest), projects, branch, last.key.project, last.key.branch, last.ms);
        assert last in lines;
      }
    }
  }

  lemma {:induction false} NothingStored(projects: seq<string>, branch: string)
    ensures Total(map[], projects, branch) == 0
  {
    if projects != [] {
      NothingStored(projects[..|projects| - 1], branch);
    }
  }

  /** Every table the harness leaves, after any history from a first use, is of this kind, unless a
      kill came between the opening of the file and its header. */
  lemma HarnessLeavesSuchTables(w: World, events: seq<Event>)
    requires AtRest(w.ctl) && w.ctl.out in {None, Some([Header])}
    ensures var c := Run(w, events).ctl;
      c.out.Some? && c.loc != WriteHeader && !c.headless ==> HarnessTable(c.out.value)
  {
    RowsStayUnique(w, events);
    StoresAreOld(w, events);
    HeaderComesFirst(w, events);
  }

  predicate HeaderFirst(out: Table) {
    out.Some? && out.value != [] ==> out.value[0].Header?
  }

  lemma {:induction false} HeaderComesFirst(w: World, events: seq<Event>)
    requires AtRest(w.ctl) && w.ctl.out in {None, Some([Header])}
    ensures Run(w, events).ctl.headless || HeaderFirst(Run(w, events).ctl.out)
  {
    if events != [] {
      var before := events[..|events| - 1];
      HeaderComesFirst(w, before);
      RowsStayUnique(w, before);
      RunControl(w, events);
      if Run(w, before).ctl.headless {
        HeadlessStays(Run(w, before).ctl, events[|events| - 1]);
      } else {
        HeaderFirstStep(Run(w, before).ctl, events[|events| - 1]);
      }
    }
  }

  lemma HeaderFirstStep(c: Control, e: Event)
    requires FileInv(c) && HeaderFirst(c.out)
    ensures HeaderFirst(ControlNext(c, e).out)
  {}

  predicate OldStores(out: Table) {
    out.Some? ==> forall line :: line in out.value && line.Row? && line.key.mode == Store ==> line.key.sample == "old"
  }

  lemma {:induction false} StoresAreOld(w: World, events: seq<Event>)
    requires OldStores(w.ctl.out)
    ensures OldStores(Run(w, events).ctl.out)
  {
    if events != [] {
      StoresAreOld(w, events[..|events| - 1]);
      OldStoresStep(Run(w, events[..|events| - 1]).ctl, events[|events| - 1]);
    }
  }

  lemma OldStoresAppend(out: Table, line: Line)
    requires OldStores(out) && (line.Row? && line.key.mode == Store ==> line.key.sample == "old")
    ensures OldStores(Append(out, line))
  {}

  lemma OldStoresStep(c: Control, e: Event)
    requires OldStores(c.out)
    ensures OldStores(ControlNext(c, e).out)
  {
    OldStoresAppend(c.out, Header);
    if c.HasProject() {
      OldStoresAppend(c.out, Row(StoreKey(c.Branch(), c.Project()), c.ms));
      if c.HasSample() {
        OldStoresAppend(c.out, Row(IncKey(c.Branch(), c.Project(), c.Sample()), c.ms));
      }
    }
  }

  // ---------- pooled times ----------

  predicate Measured(lines: seq<Line>, project: string) {
    IncOf(lines, project, "main") != [] && IncOf(lines, project, "perf") != []
  }

  /** The times of `lines` that line 49 pools for one branch: those of projects that `all` measures
      on both branches. */
  function Pooled(all: seq<Line>, lines: seq<Line>, projects: seq<string>, branch: string): seq<int> {
    if projects == [] then []
    else
      var p := projects[|projects| - 1];
      Pooled(all, lines, projects[..|projects| - 1], branch)
      + if Measured(all, p) then IncOf(lines, p, branch) else []
  }

  /** The same times row by row. */
  function PooledRows(all: seq<Line>, lines: seq<Line>, branch: string): seq<int> {
    if lines == [] then []
    else
      var last := lines[|lines| - 1];
      PooledRows(all, lines[..|lines| - 1], branch)
      + if last.Row? && IsInc(last, last.key.project, branch) && Measured(all, last.key.project) then [last.ms] else []
  }

  /** The project of this row is measured on both branches. */
  ghost predicate IsMeasured(lines: seq<Line>, project: string) {
    && (exists line :: line in lines && IsInc(line, project, "main"))
    && (exists line :: line in lines && IsInc(line, project, "perf"))
  }

  ghost function GivesPooled(lines: seq<Line>, branch: string): (Line, int) -> bool {
    (line: Line, ms: int) =>
      line.Row? && IsInc(line, line.key.project, branch) && IsMeasured(lines, line.key.project) && ms == line.ms
  }

  lemma {:induction false} HasTime(lines: seq<Line>, project: string, branch: string)
    ensures IncOf(lines, project, branch) != [] <==> exists line :: line in lines && IsInc(line, project, branch)
  {
    if lines != [] {
      var rest, last := lines[..|lines| - 1], lines[|lines| - 1];
      assert lines == rest + [last];
      HasTime(rest, project, branch);
      assert forall line :: line in lines <==> line in rest || line == last;
    }
  }

  lemma MeasuredIs(lines: seq<Line>, project: string)
    ensures Measured(lines, project) <==> IsMeasured(lines, project)
  {
    HasTime(lines, project, "main");
    HasTime(lines, project, "perf");
  }

  /** Row by row, the times of the projects that are measured on both branches. */
  lemma {:induction false} PooledRowsAre(all: seq<Line>, lines: seq<Line>, branch: string)
    ensures Sublist(PooledRows(all, lines, branch), lines, GivesPooled(all, branch))
  {
    if lines == [] {
      SublistOfNone(GivesPooled(all, branch));
    } else {
      var rest, last := lines[..|lines| - 1], lines[|lines| - 1];
      assert lines == rest + [last];
      PooledRowsAre(all, rest, branch);
      if last.Row? {
        MeasuredIs(all, last.key.project);
      }
      if last.Row? && IsInc(last, last.key.project, branch) && Measured(all, last.key.project) {
        SublistGives(PooledRows(all, rest, branch), rest, GivesPooled(all, branch), last, last.ms);
      } else {
        SublistSkips(PooledRows(all, rest, branch), rest, GivesPooled(all, branch), last);
        assert PooledRows(all, lines, branch) == PooledRows(all, rest, branch);
      }
    }
  }

  /** The list holds, in some order, the times of one branch that are pooled. */
  ghost predicate ArePooled(times: seq<int>, lines: seq<Line>, branch: string) {
    exists byRow :: Sublist(byRow, lines, GivesPooled(lines, branch)) && multiset(times) == multiset(byRow)
  }

  /** What one more row adds to the pool. */
  function Added(all: seq<Line>, line: Line, projects: seq<string>, branch: string): multiset<int> {
    if line.Row? && line.key.project in projects && IsInc(line, line.key.project, branch) &&
       Measured(all, line.key.project)
    then multiset{line.ms as int} else multiset{}
  }

  lemma IncOfPlus(lines: seq<Line>, line: Line, project: string, branch: string)
    ensures IncOf(lines + [line], project, branch) ==
            IncOf(lines, project, branch) + OwnTime(line, project, branch)
  {
    assert (lines + [line])[..|lines|] == lines;
  }

  lemma PooledLast(all: seq<Line>, lines: seq<Line>, rest: seq<string>, p: string, branch: string)
    ensures multiset(Pooled(all, lines, rest + [p], branch)) ==
            multiset(Pooled(all, lines, rest, branch)) +
              multiset(if Measured(all, p) then IncOf(lines, p, branch) else [])
  {
    assert (rest + [p])[..|rest|] == rest;
  }

  lemma AddedLast(all: seq<Line>, line: Line, rest: seq<string>, p: string, branch: string)
    requires p !in rest
    ensures Added(all, line, rest + [p], branch) == Added(all, line, rest, branch)
              + if Measured(all, p) && IsInc(line, p, branch) then multiset{line.ms as int} else multiset{}
  {}

  lemma {:induction false} PooledPlus(all: seq<Line>, lines: seq<Line>, line: Line, projects: seq<string>,
                                      branch: string)
    requires Distinct(projects)
    ensures multiset(Pooled(all, lines + [line], projects, branch)) ==
            multiset(Pooled(all, lines, projects, branch)) + Added(all, line, projects, branch)
  {
    if projects != [] {
      var rest, p := projects[..|projects| - 1], projects[|projects| - 1];
      assert projects == rest + [p];
      PooledPlus(all, lines, line, rest, branch);
      PooledLast(all, lines, rest, p, branch);
      PooledLast(all, lines + [line], rest, p, branch);
      IncOfPlus(lines, line, p, branch);
      AddedLast(all, line, rest, p, branch);
    }
  }

  /** No measured time is lost or counted twice by pooling project by project. */
  lemma {:induction false} PoolingKeepsEveryTime(all: seq<Line>, lines: seq<Line>, projects: seq<string>,
                                                 branch: string)
    requires Distinct(projects) && Lists(projects, lines)
    ensures multiset(Pooled(all, lines, projects, branch)) == multiset(PooledRows(all, lines, branch))
  {
    if lines == [] {
      NothingPooled(all, projects, branch);
    } else {
      var rest, last := lines[..|lines| - 1], lines[|lines| - 1];
      assert lines == rest + [last] && last in lines;
      PoolingKeepsEveryTime(all, rest, projects, branch);
      PooledPlus(all, rest, last, projects, branch);
    }
  }

  lemma {:induction false} NothingPooled(all: seq<Line>, projects: seq<string>, branch: string)
    ensures Pooled(all, [], projects, branch) == []
  {
    if projects != [] {
      NothingPooled(all, projects[..|projects| - 1], branch);
    }
  }

  function IncAt(inc: map<(string, string), seq<int>>, project: string, branch: string): seq<int> {
    if (project, branch) in inc then inc[(project, branch)] else []
  }

  /** One row of the table, lines 14-17. */
  method ReadRow(line: Line, store: map<(string, string), nat>, inc: map<(string, string), seq<int>>)
    returns (storeAfter: map<(string, string), nat>, incAfter: map<(string, string), seq<int>>)
    ensures storeAfter ==
      if line.Row? && line.key.mode == Store then store[(line.key.project, line.key.branch) := line.ms] else store
    ensures forall project, branch ::
              IncAt(incAfter, project, branch) == IncAt(inc, project, branch) + OwnTime(line, project, branch)
  {
    storeAfter, incAfter := store, inc;
    if line.Row? {
      var p, b := line.key.project, line.key.branch;
      match line.key.mode
      case Store => storeAfter := store[(p, b) := line.ms];
      case Inc => incAfter := inc[(p, b) := IncAt(inc, p, b) + [line.ms]];
    }
  }

  lemma ReadNext(lines: seq<Line>, i: nat)
    requires i < |lines|
    ensures StoreOf(lines[..i + 1]) ==
      if lines[i].Row? && lines[i].key.mode == Store
      then StoreOf(lines[..i])[(lines[i].key.project, lines[i].key.branch) := lines[i].ms] else StoreOf(lines[..i])
    ensures forall project, branch ::
              IncOf(lines[..i + 1], project, branch) ==
                IncOf(lines[..i], project, branch) + OwnTime(lines[i], project, branch)
  {
    assert lines[..i + 1][..i] == lines[..i];
  }

  /** Lines 13-17. */
  method ReadTable(lines: seq<Line>)
    returns (store: map<(string, string), nat>, inc: map<(string, string), seq<int>>)
    requires HasHeader(lines)
    ensures store == StoreOf(lines)
    ensures forall project, branch :: IsStoreTime(store, lines, project, branch)
    ensures forall project, branch :: IncAt(inc, project, branch) == IncOf(lines, project, branch)
    ensures forall project, branch ::
              Sublist(IncAt(inc, project, branch), lines, GivesTime(project, branch))
  {
    store, inc := map[], map[];
    for i := 0 to |lines|
      invariant store == StoreOf(lines[..i])
      invariant forall project, branch :: IncAt(inc, project, branch) == IncOf(lines[..i], project, branch)
    {
      ReadNext(lines, i);
      store, inc := ReadRow(lines[i], store, inc);
    }
    assert lines[..|lines|] == lines;
    forall project, branch ensures IsStoreTime(store, lines, project, branch) {
      StoreTimeIs(lines, project, branch);
    }
    forall project, branch ensures Sublist(IncOf(lines, project, branch), lines, GivesTime(project, branch)) {
      IncTimesAre(lines, project, branch);
    }
  }

  /** Lines 27-30. */
  method StoreTotals(store: map<(string, string), nat>, projects: seq<string>) returns (tm: nat, tp: nat)
    ensures tm == Total(store, projects, "main") && tp == Total(store, projects, "perf")
  {
    tm, tp := 0, 0;
    for i := 0 to |projects|
      invariant tm == Total(store, projects[..i], "main") && tp == Total(store, projects[..i], "perf")
    {
      assert projects[..i + 1][..i] == projects[..i];
      tm, tp := tm + StoreAt(store, projects[i], "main"), tp + StoreAt(store, projects[i], "perf");
    }
    assert projects[..|projects|] == projects;
  }

  lemma PooledNext(all: seq<Line>, projects: seq<string>, i: nat, branch: string)
    requires i < |projects|
    ensures Pooled(all, all, projects[..i + 1], branch) == Pooled(all, all, projects[..i], branch)
              + if Measured(all, projects[i]) then IncOf(all, projects[i], branch) else []
  {
    assert projects[..i + 1][..i] == projects[..i];
  }

  /** Lines 43-49. */
  method PoolTimes(inc: map<(string, string), seq<int>>, projects: seq<string>, ghost lines: seq<Line>)
    returns (am: seq<int>, ap: seq<int>)
    requires forall project, branch :: IncAt(inc, project, branch) == IncOf(lines, project, branch)
    ensures am == Pooled(lines, lines, projects, "main") && ap == Pooled(lines, lines, projects, "perf")
  {
    am, ap := [], [];
    for i := 0 to |projects|
      invariant am == Pooled(lines, lines, projects[..i], "main") && ap == Pooled(lines, lines, projects[..i], "perf")
    {
      PooledNext(lines, projects, i, "main");
      PooledNext(lines, projects, i, "perf");
      var ml, pl := IncAt(inc, projects[i], "main"), IncAt(inc, projects[i], "perf");
      if ml != [] && pl != [] {
        am, ap := am + ml, ap + pl;
      }
    }
    assert projects[..|projects|] == projects;
  }

  datatype Summary = Summary(tm: nat, tp: nat, am: seq<int>, ap: seq<int>, mm: real, pm: real, wins: nat)

  /** The whole script.  Without any main store time it stops at the percentage of line 36. */
  method Summarize(lines: seq<Line>, projects: seq<string>) returns (r: Option<Summary>)
    requires HasHeader(lines) && Distinct(projects) && Lists(projects, lines)
    ensures var store := StoreOf(lines);
      && (r.None? <==> Total(store, projects, "main") == 0)
      && (r.Some? ==> r.value.tm == Total(store, projects, "main") && r.value.tp == Total(store, projects, "perf"))
    ensures r.Some? && HarnessRows(lines) ==>
      r.value.tm == StoreRowSum(lines, "main") && r.value.tp == StoreRowSum(lines, "perf")
    ensures r.Some? ==> ArePooled(r.value.am, lines, "main") && ArePooled(r.value.ap, lines, "perf")
    ensures r.Some? ==> IsMedian(r.value.am, r.value.mm) && IsMedian(r.value.ap, r.value.pm)
    ensures r.Some? ==>
      var am, ap := InOrder(r.value.am), InOrder(r.value.ap);
      r.value.wins == |set i: nat | i < |am| && i < |ap| && ap[i] < am[i]|
    ensures r.Some? ==> (r.value.wins == |r.value.am| <==> CanPair(r.value.am, r.value.ap))
  {
    var store, inc := ReadTable(lines);
    var tm, tp := StoreTotals(store, projects);
    if HarnessRows(lines) {
      TotalIsRowSum(lines, projects, "main");
      TotalIsRowSum(lines, projects, "perf");
    }
    if tm == 0 {
      return None;
    }
    var am, ap := PoolTimes(inc, projects, lines);
    PoolingKeepsEveryTime(lines, lines, projects, "main");
    PoolingKeepsEveryTime(lines, lines, projects, "perf");
    PooledRowsAre(lines, lines, "main");
    PooledRowsAre(lines, lines, "perf");
    FullWinsIffPairing(am, ap);
    WinsArePositions(am, ap);
    MedianIs(am);
    MedianIs(ap);
    return Some(Summary(tm, tp, am, ap, Median(am), Median(ap), Wins(am, ap)));
  }
}
