/**
 run_bug_regression.py: the sinks of a report, the comparison with the expected findings, and
 the collection of results from a pool of parallel cases.
 */
module Regression {
  import opened Wrappers
  import opened Text
  import opened Reports
  import opened Sorting
  import opened Sublists

  // ---------- sinks ----------

  /** A finding: the key of lines 69-70, and the function, which the key leaves out. */
  datatype Sink = Sink(tag: Option<string>, file: string, line: int, func: string)

  type Key = (Option<string>, string, int)

  function SinkKey(s: Sink): Key {
    (s.tag, s.file, s.line)
  }

  /** The key is the type, the file and the line; the function does not count. */
  lemma SameKeyIff(s: Sink, t: Sink)
    ensures SinkKey(s) == SinkKey(t) <==> s.tag == t.tag && s.file == t.file && s.line == t.line
  {}

  function TagOf(name: Option<string>): (tag: Option<string>)
    ensures IsTag(name, tag)
  {
    match name
    case Some("Null Pointer Dereference") => Some("NPD")
    case Some("Use After Free") => Some("UAF")
    case Some("Memory Leak") => Some("ML")
    case Some("Invalid Use of Stack Address") => Some("IUSA")
    case Some("Use of Uninitialized Variable") => Some("UUV")
    case _ => name
  }

  /** Lines 27-33: the short names of the known types. */
  const TAGS: map<string, string> := map[
    "Null Pointer Dereference" := "NPD", "Use After Free" := "UAF", "Memory Leak" := "ML",
    "Invalid Use of Stack Address" := "IUSA", "Use of Uninitialized Variable" := "UUV"]

  predicate IsTag(name: Option<string>, tag: Option<string>) {
    tag == if name.Some? && name.value in TAGS then Some(TAGS[name.value]) else name
  }

  /** os.path.basename: what follows the last slash. */
  function Basename(path: string): string {
    var pieces := Split(path, '/');
    pieces[|pieces| - 1]
  }

  lemma BasenamePlus(rest: string, c: char)
    ensures Basename(rest + [c]) == if c == '/' then "" else Basename(rest) + [c]
  {
    SplitPlus(rest, c, '/');
  }

  predicate EndsIn(path: string, name: string) {
    |name| <= |path| && path[|path| - |name|..] == name && (|name| < |path| ==> path[|path| - |name| - 1] == '/')
  }

  /** A basename has no slash, and the path is the basename behind nothing or behind a slash. */
  lemma BasenameIs(path: string)
    ensures '/' !in Basename(path) && EndsIn(path, Basename(path))
  {
    BasenameNoSlash(path);
    BasenameEnds(path);
  }

  lemma {:induction false} BasenameNoSlash(path: string)
    ensures '/' !in Basename(path)
  {
    if path != "" {
      BasenameNoSlash(path[..|path| - 1]);
      BasenamePlus(path[..|path| - 1], path[|path| - 1]);
      assert path == path[..|path| - 1] + [path[|path| - 1]];
    }
  }

  lemma {:induction false} BasenameEnds(path: string)
    ensures EndsIn(path, Basename(path))
  {
    if path != "" {
      var rest, c := path[..|path| - 1], path[|path| - 1];
      BasenameEnds(rest);
      BasenamePlus(rest, c);
      assert path == rest + [c];
      EndsInPlus(rest, Basename(rest), c);
    }
  }

  lemma EndsInPlus(rest: string, name: string, c: char)
    requires EndsIn(rest, name)
    ensures if c == '/' then EndsIn(rest + [c], "") else EndsIn(rest + [c], name + [c])
  {
    assert (rest + [c])[|rest| - |name|..] == rest[|rest| - |name|..] + [c];
  }

  /** There is no other such end of a path. */
  lemma BasenameIsOne(path: string, name: string)
    requires '/' !in name && EndsIn(path, name)
    ensures name == Basename(path)
  {
    BasenameIs(path);
    var base := Basename(path);
    assert forall k :: 0 <= k < |base| ==> path[|path| - |base| + k] == base[k] && base[k] != '/';
    assert forall k :: 0 <= k < |name| ==> path[|path| - |name| + k] == name[k] && name[k] != '/';
  }

  /** str(i) of an integer. */
  function IntText(i: int): string {
    if i < 0 then "-" + Decimal(-i) else Decimal(i)
  }

  /** A digit string with a dash in front of it for a negative number, which reads back as that number. */
  predicate IsInt(i: int, text: string) {
    var digits := if i < 0 && text != "" && text[0] == '-' then text[1..] else text;
    && digits != "" && (forall c :: c in digits ==> IsDigit(c))
    && (|digits| > 1 ==> digits[0] != '0')
    && Value(digits) == (if i < 0 then -i else i) && (i < 0 ==> |text| == |digits| + 1)
  }

  lemma IntTextIs(i: int)
    ensures IsInt(i, IntText(i))
  {
    DecimalValue(if i < 0 then -i else i);
    if i < 0 {
      assert IntText(i)[1..] == Decimal(-i);
    }
  }

  /** Line 57. */
  function PathOf(srcFiles: seq<string>, file: FileRef): string {
    match file
    case FileIndex(i) => if 0 <= i < |srcFiles| then srcFiles[i] else IntText(i)
    case OtherFile(text) => text
  }

  /** The last step that has a line. */
  ghost predicate IsSinkStep(steps: seq<Step>, i: nat) {
    i < |steps| && steps[i].line.Some? && forall j :: i < j < |steps| ==> steps[j].line.None?
  }

  /** Lines 50-53. */
  method FindSink(steps: seq<Step>) returns (sink: Option<Step>)
    ensures sink == LastWithLine(steps)
    ensures sink.None? <==> forall i :: 0 <= i < |steps| ==> steps[i].line.None?
    ensures sink.Some? ==> exists i: nat :: IsSinkStep(steps, i) && sink.value == steps[i]
  {
    sink := None;
    ghost var at: nat := 0;
    for n := 0 to |steps|
      invariant sink == LastWithLine(steps[..n])
      invariant sink.None? ==> forall i :: 0 <= i < n ==> steps[i].line.None?
      invariant sink.Some? ==> at < n && IsSinkStep(steps[..n], at) && sink.value == steps[at]
    {
      assert steps[..n + 1][..n] == steps[..n];
      if steps[n].line.Some? {
        sink, at := Some(steps[n]), n;
      }
    }
    assert steps[..|steps|] == steps;
  }

  function LastWithLine(steps: seq<Step>): (sink: Option<Step>)
    ensures sink.Some? ==> sink.value.line.Some?
  {
    if steps == [] then None
    else if steps[|steps| - 1].line.Some? then Some(steps[|steps| - 1])
    else LastWithLine(steps[..|steps| - 1])
  }

  /** The finding of one report item, if it counts. */
  function OwnSinks(srcFiles: seq<string>, item: TypedItem): seq<Sink> {
    var sink := LastWithLine(item.1.steps);
    if item.1.valid == Some(false) || sink.None? then []
    else
      [Sink(TagOf(Or(item.0.name, item.0.bugType)), Basename(PathOf(srcFiles, sink.value.file)),
            sink.value.line.value, Or(Or(sink.value.funcName, sink.value.funcKey), Some("")).value)]
  }

  function SinksOf(srcFiles: seq<string>, items: seq<TypedItem>): seq<Sink> {
    if items == [] then []
    else SinksOf(srcFiles, items[..|items| - 1]) + OwnSinks(srcFiles, items[|items| - 1])
  }

  function Sinks(srcFiles: seq<string>, bugTypes: seq<BugType>): seq<Sink> {
    SinksOf(srcFiles, Items(bugTypes))
  }

  lemma SinksPlus(srcFiles: seq<string>, items: seq<TypedItem>, item: TypedItem)
    ensures SinksOf(srcFiles, items + [item]) == SinksOf(srcFiles, items) + OwnSinks(srcFiles, item)
  {
    assert (items + [item])[..|items|] == items;
  }

  /** Lines 47-66, for one report: its finding, if it has one. */
  method CollectItem(srcFiles: seq<string>, tag: Option<string>, item: Item, ghost bugType: BugType)
    returns (found: seq<Sink>)
    requires tag == TagOf(Or(bugType.name, bugType.bugType))
    ensures found == OwnSinks(srcFiles, (bugType, item))
  {
    if item.valid == Some(false) {
      return [];
    }
    var sink := FindSink(item.steps);
    if sink.None? {
      return [];
    }
    var path := PathOf(srcFiles, sink.value.file);
    var func := Or(Or(sink.value.funcName, sink.value.funcKey), Some("")).value;
    return [Sink(tag, Basename(path), sink.value.line.value, func)];
  }

  /** The loop over the reports of one bug type. */
  method CollectType(srcFiles: seq<string>, bugType: BugType, before: seq<Sink>, ghost items: seq<TypedItem>)
    returns (out: seq<Sink>)
    requires before == SinksOf(srcFiles, items)
    ensures out == SinksOf(srcFiles, items + TypedItems(bugType, bugType.items))
  {
    out := before;
    var tag, reports := TagOf(Or(bugType.name, bugType.bugType)), bugType.items;
    assert items + TypedItems(bugType, []) == items;
    for i := 0 to |reports|
      invariant out == SinksOf(srcFiles, items + TypedItems(bugType, reports[..i]))
    {
      var found := CollectItem(srcFiles, tag, reports[i], bugType);
      out := out + found;
      TypedItemsPlus(items, bugType, reports, i);
      SinksPlus(srcFiles, items + TypedItems(bugType, reports[..i]), (bugType, reports[i]));
    }
    assert reports[..|reports|] == reports;
  }

  /** extract_sinks. */
  method ExtractSinks(report: Report) returns (out: seq<Sink>)
    ensures out == Sinks(report.srcFiles, report.bugTypes)
    ensures Sublist(out, Items(report.bugTypes), GivesSink(report.srcFiles))
  {
    var srcFiles, bugTypes := report.srcFiles, report.bugTypes;
    out := [];
    for b := 0 to |bugTypes|
      invariant out == SinksOf(srcFiles, Items(bugTypes[..b]))
    {
      ItemsPlus(bugTypes, b);
      out := CollectType(srcFiles, bugTypes[b], out, Items(bugTypes[..b]));
    }
    assert bugTypes[..|bugTypes|] == bugTypes;
    SinksAre(srcFiles, Items(bugTypes));
  }

  // ---------- what the findings are ----------

  predicate IsBasename(path: string, name: string) {
    '/' !in name && EndsIn(path, name)
  }

  /** The file of a step: of the source file with its index, when there is one. */
  ghost predicate IsFileOf(srcFiles: seq<string>, file: FileRef, name: string) {
    match file
    case FileIndex(i) =>
      if 0 <= i < |srcFiles| then IsBasename(srcFiles[i], name)
      else exists text :: IsInt(i, text) && IsBasename(text, name)
    case OtherFile(text) => IsBasename(text, name)
  }

  /** A finding describes a step of a report of this bug type. */
  ghost predicate Describes(s: Sink, srcFiles: seq<string>, bugType: BugType, step: Step) {
    && step.line == Some(s.line) && IsFileOf(srcFiles, step.file, s.file)
    && IsTag(if bugType.name in {None, Some("")} then bugType.bugType else bugType.name, s.tag)
    && s.func == if step.funcName !in {None, Some("")} then step.funcName.value
                 else if step.funcKey.Some? then step.funcKey.value else ""
  }

  /** A finding comes from this report: it is not marked invalid, and the finding describes its
      last step that has a line. */
  ghost predicate ComesFrom(s: Sink, srcFiles: seq<string>, item: TypedItem) {
    item.1.valid != Some(false) &&
    exists i: nat :: IsSinkStep(item.1.steps, i) && Describes(s, srcFiles, item.0, item.1.steps[i])
  }

  ghost function GivesSink(srcFiles: seq<string>): (TypedItem, Sink) -> bool {
    (item: TypedItem, s: Sink) => ComesFrom(s, srcFiles, item)
  }

  lemma {:induction false} LastIsSinkStep(steps: seq<Step>)
    ensures forall i: nat :: IsSinkStep(steps, i) ==> LastWithLine(steps) == Some(steps[i])
    ensures LastWithLine(steps).Some? ==> exists j: nat :: IsSinkStep(steps, j)
  {
    if steps != [] {
      var last := |steps| - 1;
      if steps[last].line.Some? {
        assert IsSinkStep(steps, last);
        assert forall i: nat :: IsSinkStep(steps, i) ==> i == last;
      } else {
        LastIsSinkStep(steps[..last]);
        forall i: nat | IsSinkStep(steps, i) ensures IsSinkStep(steps[..last], i) {}
        if LastWithLine(steps).Some? {
          var j: nat :| IsSinkStep(steps[..last], j);
          assert IsSinkStep(steps, j);
        }
      }
    }
  }

  lemma FileIs(srcFiles: seq<string>, file: FileRef)
    ensures IsFileOf(srcFiles, file, Basename(PathOf(srcFiles, file)))
  {
    BasenameIs(PathOf(srcFiles, file));
    if file.FileIndex? {
      IntTextIs(file.index);
    }
  }

  lemma OwnSinksAre(srcFiles: seq<string>, item: TypedItem)
    ensures OwnSinks(srcFiles, item) == [] ==> forall s :: !ComesFrom(s, srcFiles, item)
    ensures OwnSinks(srcFiles, item) != [] ==> ComesFrom(OwnSinks(srcFiles, item)[0], srcFiles, item)
  {
    LastIsSinkStep(item.1.steps);
    if OwnSinks(srcFiles, item) != [] {
      var i: nat :| IsSinkStep(item.1.steps, i);
      FileIs(srcFiles, item.1.steps[i].file);
      assert Describes(OwnSinks(srcFiles, item)[0], srcFiles, item.0, item.1.steps[i]);
    }
  }

  /** The findings are, one for one and in order, those of the reports that are not marked invalid. */
  lemma {:induction false} SinksAre(srcFiles: seq<string>, items: seq<TypedItem>)
    ensures Sublist(SinksOf(srcFiles, items), items, GivesSink(srcFiles))
  {
    if items == [] {
      SublistOfNone(GivesSink(srcFiles));
    } else {
      var rest, last := items[..|items| - 1], items[|items| - 1];
      assert items == rest + [last];
      SinksAre(srcFiles, rest);
      OwnSinksAre(srcFiles, last);
      if OwnSinks(srcFiles, last) == [] {
        SublistSkips(SinksOf(srcFiles, rest), rest, GivesSink(srcFiles), last);
        assert SinksOf(srcFiles, items) == SinksOf(srcFiles, rest);
      } else {
        SublistGives(SinksOf(srcFiles, rest), rest, GivesSink(srcFiles), last, OwnSinks(srcFiles, last)[0]);
      }
    }
  }

  /** The same number of source files, with the same basenames. */
  predicate SameBasenames(a: seq<string>, b: seq<string>) {
    |a| == |b| && forall i :: 0 <= i < |a| ==> Basename(a[i]) == Basename(b[i])
  }

  /** Moving the source tree does not change the findings. */
  lemma {:induction false} DirectoriesDoNotMatter(a: seq<string>, b: seq<string>, items: seq<TypedItem>)
    requires SameBasenames(a, b)
    ensures SinksOf(a, items) == SinksOf(b, items)
  {
    if items != [] {
      DirectoriesDoNotMatter(a, b, items[..|items| - 1]);
      var sink := LastWithLine(items[|items| - 1].1.steps);
      if sink.Some? && sink.value.file.FileIndex? && 0 <= sink.value.file.index < |a| {
        assert Basename(a[sink.value.file.index]) == Basename(b[sink.value.file.index]);
      }
    }
  }

  // ---------- the comparison ----------

  datatype Gap = Gap(key: Key, expected: nat, found: nat)

  ghost predicate DistinctKeys(gaps: seq<Gap>) {
    forall i, j :: 0 <= i < j < |gaps| ==> gaps[i].key != gaps[j].key
  }

  /** One entry with both counts for each key in shortfall, and no other entry. */
  ghost predicate AreMissing(gaps: seq<Gap>, exp: multiset<Key>, act: multiset<Key>) {
    && DistinctKeys(gaps)
    && (forall g :: g in gaps ==> g.expected == exp[g.key] > g.found == act[g.key])
    && (forall k :: exp[k] > act[k] ==> Gap(k, exp[k], act[k]) in gaps)
  }

  /** One entry with both counts for each key in surplus, and no other entry. */
  ghost predicate AreExtra(gaps: seq<Gap>, exp: multiset<Key>, act: multiset<Key>) {
    && DistinctKeys(gaps)
    && (forall g :: g in gaps ==> g.found == act[g.key] > g.expected == exp[g.key])
    && (forall k :: act[k] > exp[k] ==> Gap(k, exp[k], act[k]) in gaps)
  }

  /** Counter(keys): the distinct keys in order of first occurrence, and their counts. */
  method CountKeys(keys: seq<Key>) returns (order: seq<Key>, counts: map<Key, nat>)
    ensures forall i, j :: 0 <= i < j < |order| ==> order[i] != order[j]
    ensures forall k :: k in order <==> k in keys
    ensures forall k :: CountOf(counts, k) == multiset(keys)[k]
  {
    order, counts := [], map[];
    for n := 0 to |keys|
      invariant forall i, j :: 0 <= i < j < |order| ==> order[i] != order[j]
      invariant forall k :: k in order <==> k in keys[..n]
      invariant forall k :: k in order <==> k in counts
      invariant forall k :: CountOf(counts, k) == multiset(keys[..n])[k]
    {
      assert keys[..n + 1] == keys[..n] + [keys[n]];
      if keys[n] !in counts {
        order := order + [keys[n]];
      }
      counts := counts[keys[n] := CountOf(counts, keys[n]) + 1];
    }
    assert keys[..|keys|] == keys;
  }

  /** A Counter gives 0 for a key it does not hold. */
  function CountOf(counts: map<Key, nat>, k: Key): nat {
    if k in counts then counts[k] else 0
  }

  function Keys(sinks: seq<Sink>): seq<Key> {
    seq(|sinks|, i requires 0 <= i < |sinks| => SinkKey(sinks[i]))
  }

  /** Lines 79-82: the keys of which fewer are found than expected. */
  method CollectMissing(order: seq<Key>, exp: map<Key, nat>, act: map<Key, nat>) returns (missing: seq<Gap>)
    requires forall i, j :: 0 <= i < j < |order| ==> order[i] != order[j]
    ensures DistinctKeys(missing)
    ensures forall g :: g in missing ==>
      g.key in order && g.expected == CountOf(exp, g.key) > g.found == CountOf(act, g.key)
    ensures forall k :: k in order && CountOf(exp, k) > CountOf(act, k) ==>
      Gap(k, CountOf(exp, k), CountOf(act, k)) in missing
  {
    missing := [];
    for i := 0 to |order|
      invariant DistinctKeys(missing)
      invariant forall g :: g in missing ==>
        g.key in order[..i] && g.expected == CountOf(exp, g.key) > g.found == CountOf(act, g.key)
      invariant forall k :: k in order[..i] && CountOf(exp, k) > CountOf(act, k) ==>
        Gap(k, CountOf(exp, k), CountOf(act, k)) in missing
    {
      var k := order[i];
      assert order[..i + 1] == order[..i] + [k];
      if CountOf(act, k) < CountOf(exp, k) {
        missing := missing + [Gap(k, CountOf(exp, k), CountOf(act, k))];
      }
    }
    assert order[..|order|] == order;
  }

  /** Lines 84-87: the keys of which more are found than expected. */
  method CollectExtra(order: seq<Key>, exp: map<Key, nat>, act: map<Key, nat>) returns (extra: seq<Gap>)
    requires forall i, j :: 0 <= i < j < |order| ==> order[i] != order[j]
    ensures DistinctKeys(extra)
    ensures forall g :: g in extra ==>
      g.key in order && g.found == CountOf(act, g.key) > g.expected == CountOf(exp, g.key)
    ensures forall k :: k in order && CountOf(act, k) > CountOf(exp, k) ==>
      Gap(k, CountOf(exp, k), CountOf(act, k)) in extra
  {
    extra := [];
    for i := 0 to |order|
      invariant DistinctKeys(extra)
      invariant forall g :: g in extra ==>
        g.key in order[..i] && g.found == CountOf(act, g.key) > g.expected == CountOf(exp, g.key)
      invariant forall k :: k in order[..i] && CountOf(act, k) > CountOf(exp, k) ==>
        Gap(k, CountOf(exp, k), CountOf(act, k)) in extra
    {
      var k := order[i];
      assert order[..i + 1] == order[..i] + [k];
      if CountOf(act, k) > CountOf(exp, k) {
        extra := extra + [Gap(k, CountOf(exp, k), CountOf(act, k))];
      }
    }
    assert order[..|order|] == order;
  }

  /** compare: it passes exactly when the expected keys, with multiplicity, are among the actual ones. */
  method Compare(expected: seq<Key>, actual: seq<Key>) returns (missing: seq<Gap>, extra: seq<Gap>, ok: bool)
    ensures AreMissing(missing, multiset(expected), multiset(actual))
    ensures AreExtra(extra, multiset(expected), multiset(actual))
    ensures ok <==> multiset(expected) <= multiset(actual)
  {
    var expOrder, exp := CountKeys(expected);
    var actOrder, act := CountKeys(actual);
    missing := CollectMissing(expOrder, exp, act);
    extra := CollectExtra(actOrder, exp, act);
    ok := missing == [];
    MissingNone(missing, multiset(expected), multiset(actual));
  }

  /** Nothing is missing exactly when the expected multiset is contained in the actual one. */
  lemma MissingNone(missing: seq<Gap>, exp: multiset<Key>, act: multiset<Key>)
    requires AreMissing(missing, exp, act)
    ensures missing == [] <==> exp <= act
  {
    if missing != [] {
      assert missing[0] in missing;
    }
  }

  /** No key is both missing and extra. */
  lemma MissingAndExtraDisjoint(missing: seq<Gap>, extra: seq<Gap>, exp: multiset<Key>, act: multiset<Key>)
    requires AreMissing(missing, exp, act) && AreExtra(extra, exp, act)
    ensures forall m, e :: m in missing && e in extra ==> m.key != e.key
  {}

  /** Both lists are empty exactly when the key lists are permutations of each other. */
  lemma NoGapsIffPermutation(missing: seq<Gap>, extra: seq<Gap>, exp: multiset<Key>, act: multiset<Key>)
    requires AreMissing(missing, exp, act) && AreExtra(extra, exp, act)
    ensures missing == [] && extra == [] <==> exp == act
  {
    if missing != [] {
      assert missing[0] in missing;
    }
    if extra != [] {
      assert extra[0] in extra;
    }
  }

  /** By how much the two counts of an entry differ. */
  function Size(g: Gap): nat {
    if g.expected > g.found then g.expected - g.found else g.found - g.expected
  }

  function TotalSize(gaps: seq<Gap>): nat {
    if gaps == [] then 0 else TotalSize(gaps[..|gaps| - 1]) + Size(gaps[|gaps| - 1])
  }

  /** The entries are for the distinct keys of a multiset and differ by its counts. */
  ghost predicate Measure(gaps: seq<Gap>, m: multiset<Key>) {
    && DistinctKeys(gaps)
    && (forall g :: g in gaps ==> Size(g) == m[g.key])
    && (forall k :: k in m ==> exists g :: g in gaps && g.key == k)
  }

  lemma MeasureRest(gaps: seq<Gap>, m: multiset<Key>)
    requires gaps != [] && Measure(gaps, m)
    ensures Measure(gaps[..|gaps| - 1], m[gaps[|gaps| - 1].key := 0])
  {
    var rest, last := gaps[..|gaps| - 1], gaps[|gaps| - 1];
    var less := m[last.key := 0];
    assert gaps == rest + [last];
    forall k | k in less ensures exists g :: g in rest && g.key == k {
      var g :| g in gaps && g.key == k;
      assert g in rest;
    }
  }

  lemma {:induction false} MeasureTotal(gaps: seq<Gap>, m: multiset<Key>)
    requires Measure(gaps, m)
    ensures TotalSize(gaps) == |m|
  {
    if gaps == [] {
      assert m == multiset{};
    } else {
      var last := gaps[|gaps| - 1];
      MeasureRest(gaps, m);
      MeasureTotal(gaps[..|gaps| - 1], m[last.key := 0]);
      assert last in gaps && Size(last) == m[last.key];
    }
  }

  /** What the actual list has more than the expected one is the surplus less the shortfall. */
  lemma GapsBalance(missing: seq<Gap>, extra: seq<Gap>, expected: seq<Key>, actual: seq<Key>)
    requires AreMissing(missing, multiset(expected), multiset(actual))
    requires AreExtra(extra, multiset(expected), multiset(actual))
    ensures |actual| - |expected| == TotalSize(extra) - TotalSize(missing)
  {
    var exp, act := multiset(expected), multiset(actual);
    forall k | k in exp - act ensures exists g :: g in missing && g.key == k {
      assert Gap(k, exp[k], act[k]) in missing;
    }
    forall k | k in act - exp ensures exists g :: g in extra && g.key == k {
      assert Gap(k, exp[k], act[k]) in extra;
    }
    MeasureTotal(missing, exp - act);
    MeasureTotal(extra, act - exp);
    assert |exp| == |exp - act| + |exp * act| && |act| == |act - exp| + |exp * act|;
    assert |exp| == |expected| && |act| == |actual|;
  }

  /** Recording the sinks of a report as the expected findings and comparing a report of the same
      findings, from whatever source directory, passes with nothing missing and nothing extra. */
  method RecordAndCompare(recorded: Report, rerun: Report) returns (missing: seq<Gap>, extra: seq<Gap>, ok: bool)
    requires recorded.bugTypes == rerun.bugTypes && SameBasenames(recorded.srcFiles, rerun.srcFiles)
    ensures ok && missing == [] && extra == []
  {
    var expected := ExtractSinks(recorded);
    var actual := ExtractSinks(rerun);
    DirectoriesDoNotMatter(recorded.srcFiles, rerun.srcFiles, Items(recorded.bugTypes));
    missing, extra, ok := Compare(Keys(expected), Keys(actual));
    NoGapsIffPermutation(missing, extra, multiset(Keys(expected)), multiset(Keys(actual)));
  }

  // ---------- collecting the cases ----------

  /** The result of one case, as far as the verdict needs it. */
  datatype CaseResult = CaseResult(project: string, ok: bool, detail: int)

  /** The sort key of line 268. */
  function ByProject(): (CaseResult, CaseResult) -> bool {
    (x: CaseResult, y: CaseResult) => TextLeq(x.project, y.project)
  }

  lemma ByProjectIsOrder()
    ensures TotalPreorder(ByProject())
  {
    forall x: CaseResult, y: CaseResult ensures ByProject()(x, y) || ByProject()(y, x) {
      TextTotal(x.project, y.project);
    }
    forall x: CaseResult, y: CaseResult, z: CaseResult | ByProject()(x, y) && ByProject()(y, z)
      ensures ByProject()(x, z)
    {
      TextTransitive(x.project, y.project, z.project);
    }
  }

  /** results.sort(key=...), line 268. */
  function SortResults(completed: seq<CaseResult>): seq<CaseResult> {
    Sort(completed, ByProject())
  }

  lemma SortResultsKeeps(completed: seq<CaseResult>)
    ensures multiset(SortResults(completed)) == multiset(completed) && |SortResults(completed)| == |completed|
  {
    ByProjectIsOrder();
    SortSorts(completed, ByProject());
  }

  function Passed(): CaseResult -> bool {
    (r: CaseResult) => r.ok
  }

  datatype Outcome = Outcome(results: seq<CaseResult>, passes: nat, fails: nat, rc: int)

  function OutcomeOf(completed: seq<CaseResult>): Outcome {
    var results := SortResults(completed);
    var passes := Count(results, Passed());
    CountBound(results, Passed());
    Outcome(results, passes, |results| - passes, if passes == |results| then 0 else 1)
  }

  lemma {:induction false} CountBound(s: seq<CaseResult>, p: CaseResult -> bool)
    ensures Count(s, p) <= |s|
    ensures Count(s, p) == |s| <==> forall r :: r in s ==> p(r)
  {
    if s != [] {
      LastSplit(s);
      CountBound(s[..|s| - 1], p);
    }
  }

  /** The counters over sorted results are those over the results as they came. */
  lemma OutcomeFacts(completed: seq<CaseResult>)
    ensures var o := OutcomeOf(completed);
      o.passes + o.fails == |completed| && o.passes == Count(completed, Passed())
      && (o.rc == 0 <==> forall r :: r in completed ==> r.ok)
  {
    SortResultsKeeps(completed);
    CountPermutation(SortResults(completed), completed, Passed());
    CountBound(completed, Passed());
  }

  /** The results by project, those of one project as they came; how many passed; 0 when all did. */
  ghost predicate IsOutcome(o: Outcome, completed: seq<CaseResult>) {
    && multiset(o.results) == multiset(completed)
    && (forall i, j :: 0 <= i < j < |o.results| ==> TextLeq(o.results[i].project, o.results[j].project))
    && (forall x :: Ties(o.results, x, ByProject()) == Ties(completed, x, ByProject()))
    && o.passes == |PassedAt(completed)| && o.passes + o.fails == |completed|
    && o.rc in {0, 1} && (o.rc == 0 <==> forall r :: r in completed ==> r.ok)
  }

  function PassedAt(results: seq<CaseResult>): set<nat> {
    set i: nat | i < |results| && results[i].ok
  }

  lemma {:induction false} PassesAre(results: seq<CaseResult>)
    ensures Count(results, Passed()) == |PassedAt(results)|
  {
    if results != [] {
      var n := |results| - 1;
      PassesAre(results[..n]);
      var before := PassedAt(results[..n]);
      assert PassedAt(results) == if results[n].ok then before + {n} else before;
    }
  }

  lemma OutcomeIs(completed: seq<CaseResult>)
    ensures IsOutcome(OutcomeOf(completed), completed)
  {
    OutcomeFacts(completed);
    PassesAre(completed);
    ByProjectIsOrder();
    SortSorts(completed, ByProject());
    var results := SortResults(completed);
    forall i, j | 0 <= i < j < |results| ensures TextLeq(results[i].project, results[j].project) {
      assert ByProject()(results[i], results[j]);
    }
    forall x ensures Ties(results, x, ByProject()) == Ties(completed, x, ByProject()) {
      SortIsStable(completed, x, ByProject());
    }
  }

  /** The collection loop and the lines after it, for results in the order in which they complete. */
  method Collect(completed: seq<CaseResult>) returns (o: Outcome)
    ensures o == OutcomeOf(completed)
    ensures IsOutcome(o, completed)
  {
    var results: seq<CaseResult> := [];
    for i := 0 to |completed|
      invariant results == completed[..i]
    {
      results := results + [completed[i]];
    }
    assert completed[..|completed|] == completed;
    results := SortResults(results);
    var passes := 0;
    for i := 0 to |results|
      invariant passes == Count(results[..i], Passed())
    {
      assert results[..i + 1][..i] == results[..i];
      if results[i].ok {
        passes := passes + 1;
      }
    }
    assert results[..|results|] == results;
    CountBound(results, Passed());
    OutcomeFacts(completed);
    o := Outcome(results, passes, |results| - passes, if |results| - passes == 0 then 0 else 1);
    assert o == OutcomeOf(completed);
    OutcomeIs(completed);
  }

  /** The counts and the exit code are those of the sequential run, in whatever order cases complete. */
  lemma VerdictIgnoresOrder(sequential: seq<CaseResult>, completed: seq<CaseResult>)
    requires multiset(completed) == multiset(sequential)
    ensures var o, p := OutcomeOf(sequential), OutcomeOf(completed);
      o.passes == p.passes && o.fails == p.fails && o.rc == p.rc
  {
    OutcomeFacts(sequential);
    OutcomeFacts(completed);
    CountPermutation(sequential, completed, Passed());
    assert |multiset(sequential)| == |sequential| && |multiset(completed)| == |completed|;
  }

  /** The whole outcome is the same for every order of completion. */
  ghost predicate OrderIndependent(results: seq<CaseResult>) {
    forall completed: seq<CaseResult> | multiset(completed) == multiset(results) ::
      OutcomeOf(completed) == OutcomeOf(results)
  }

  ghost predicate SameProjectSameResult(results: seq<CaseResult>) {
    forall x, y :: x in results && y in results && x.project == y.project ==> x == y
  }

  /** The outcome, sorted list included, is the same for every order of completion exactly when no
      two different results carry the same project name. */
  lemma OrderIndependentIff(results: seq<CaseResult>)
    ensures OrderIndependent(results) <==> SameProjectSameResult(results)
  {
    if SameProjectSameResult(results) {
      forall completed: seq<CaseResult> | multiset(completed) == multiset(results)
        ensures OutcomeOf(completed) == OutcomeOf(results)
      {
        SameSorted(completed, results);
      }
    } else {
      var x, y :| x in results && y in results && x.project == y.project && x != y;
      DifferentResultsShow(results, x, y);
    }
  }

  lemma TwoOutcomes(results: seq<CaseResult>, a: seq<CaseResult>, b: seq<CaseResult>)
    requires multiset(a) == multiset(results) == multiset(b) && OutcomeOf(a) != OutcomeOf(b)
    ensures !OrderIndependent(results)
  {}

  lemma PairFirst(x: CaseResult, y: CaseResult, rest: seq<CaseResult>)
    ensures multiset([x, y] + rest) == multiset(rest) + multiset{x, y}
  {}

  lemma DifferentResultsShow(results: seq<CaseResult>, x: CaseResult, y: CaseResult)
    requires x in results && y in results && x.project == y.project && x != y
    ensures !OrderIndependent(results)
  {
    var rest := TakeTwo(results, x, y);
    OrdersDiffer(x, y, rest);
    PairFirst(x, y, rest);
    PairFirst(y, x, rest);
    TwoOutcomes(results, [x, y] + rest, [y, x] + rest);
  }

  lemma SameSorted(a: seq<CaseResult>, b: seq<CaseResult>)
    requires multiset(a) == multiset(b) && SameProjectSameResult(b)
    ensures SortResults(a) == SortResults(b)
  {
    ByProjectIsOrder();
    SortSorts(a, ByProject());
    SortSorts(b, ByProject());
    var s := SortResults(a);
    forall x, y | x in s && y in s && ByProject()(x, y) && ByProject()(y, x) ensures x == y {
      TextTotal(x.project, y.project);
      assert x in multiset(s) && x in multiset(b) && y in multiset(s) && y in multiset(b);
    }
    SortedUnique(s, SortResults(b), ByProject());
  }

  lemma TakeTwo(results: seq<CaseResult>, x: CaseResult, y: CaseResult) returns (rest: seq<CaseResult>)
    requires x in results && y in results && x != y
    ensures multiset(results) == multiset(rest) + multiset{x, y}
  {
    var i :| 0 <= i < |results| && results[i] == x;
    CountWithout(results, i, Passed());
    var others := Without(results, i);
    assert y in multiset(results) && y in multiset(others);
    var j :| 0 <= j < |others| && others[j] == y;
    CountWithout(others, j, Passed());
    rest := Without(others, j);
  }

  /** Two different results of one project keep the order in which they completed. */
  lemma OrdersDiffer(x: CaseResult, y: CaseResult, rest: seq<CaseResult>)
    requires x.project == y.project && x != y
    ensures OutcomeOf([x, y] + rest) != OutcomeOf([y, x] + rest)
  {
    ByProjectIsOrder();
    SortIsStable([x, y] + rest, x, ByProject());
    SortIsStable([y, x] + rest, x, ByProject());
    TiesOfPair(x, x, y, rest);
    TiesOfPair(x, y, x, rest);
    var ties := Ties(rest, x, ByProject());
    assert ([x, y] + ties)[0] != ([y, x] + ties)[0];
  }

  lemma {:induction false} TiesOfPair(like: CaseResult, x: CaseResult, y: CaseResult, rest: seq<CaseResult>)
    requires like.project == x.project == y.project
    ensures Ties([x, y] + rest, like, ByProject()) == [x, y] + Ties(rest, like, ByProject())
  {
    TextTotal(like.project, like.project);
    var all := [x, y] + rest;
    if rest == [] {
      TiesPlus([], x, like, ByProject());
      TiesPlus([x], y, like, ByProject());
      assert [] + [x] == [x] && [x] + [y] == all;
    } else {
      var last := rest[|rest| - 1];
      TiesOfPair(like, x, y, rest[..|rest| - 1]);
      TiesPlus([x, y] + rest[..|rest| - 1], last, like, ByProject());
      assert all == ([x, y] + rest[..|rest| - 1]) + [last];
    }
  }
}
