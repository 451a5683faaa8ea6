/**
 The synthetic edit of scripts/build_pr_bc.sh: one of the C files of a tree, chosen by index, gets a
 comment after its first brace at the beginning or end of a line.
 */
module SyntheticTouch {
  import opened Wrappers
  import opened Text
  import opened PrBuilder
  import opened PrIsolation
  import opened PrExact

  // ---------- the candidates ----------

  /** Python's order of lists of strings. */
  predicate PartsLeq(a: seq<string>, b: seq<string>) {
    a == [] || (b != [] && if a[0] == b[0] then PartsLeq(a[1..], b[1..]) else TextLeq(a[0], b[0]))
  }

  /** Python's order of paths: by their parts. */
  predicate PathLeq(a: Path, b: Path) {
    PartsLeq(Split(a, '/'), Split(b, '/'))
  }

  lemma {:induction false} PartsTotal(a: seq<string>, b: seq<string>)
    ensures PartsLeq(a, b) || PartsLeq(b, a)
  {
    if a != [] && b != [] {
      PartsTotal(a[1..], b[1..]);
      TextTotal(a[0], b[0]);
    }
  }

  lemma {:induction false} PartsTransitive(a: seq<string>, b: seq<string>, c: seq<string>)
    requires PartsLeq(a, b) && PartsLeq(b, c)
    ensures PartsLeq(a, c)
  {
    if a != [] {
      if a[0] == b[0] == c[0] {
        PartsTransitive(a[1..], b[1..], c[1..]);
      } else if a[0] != b[0] && b[0] != c[0] {
        TextTransitive(a[0], b[0], c[0]);
        TextTotal(a[0], b[0]);
      }
    }
  }

  /** One list is the other's beginning, or has the earlier text where they first differ. */
  ghost predicate PartsInOrder(a: seq<string>, b: seq<string>) {
    a <= b || exists k: nat :: FirstPart(a, b, k) && InDictionaryOrder(a[k], b[k])
  }

  predicate FirstPart(a: seq<string>, b: seq<string>, k: nat) {
    k < |a| && k < |b| && a[..k] == b[..k] && a[k] != b[k]
  }

  lemma {:induction false} PartsLeqMeans(a: seq<string>, b: seq<string>)
    ensures PartsLeq(a, b) <==> PartsInOrder(a, b)
  {
    if a != [] && b != [] {
      if a[0] == b[0] {
        PartsLeqMeans(a[1..], b[1..]);
        OrderOfOthers(a, b);
      } else {
        TextLeqMeans(a[0], b[0]);
        FirstPartsDiffer(a, b);
      }
    }
  }

  lemma FirstPartsDiffer(a: seq<string>, b: seq<string>)
    requires a != [] && b != [] && a[0] != b[0]
    ensures PartsInOrder(a, b) <==> InDictionaryOrder(a[0], b[0])
  {
    assert FirstPart(a, b, 0);
    forall k: nat | 0 < k < |a| && k < |b| ensures a[..k] != b[..k] {
      assert a[..k][0] == a[0] && b[..k][0] == b[0];
    }
  }

  lemma OrderOfOthers(a: seq<string>, b: seq<string>)
    requires a != [] && b != [] && a[0] == b[0]
    ensures PartsInOrder(a, b) <==> PartsInOrder(a[1..], b[1..])
  {
    var s, t := a[1..], b[1..];
    assert a == [a[0]] + s && b == [b[0]] + t;
    if k: nat :| FirstPart(s, t, k) && InDictionaryOrder(s[k], t[k]) {
      PartsDifferLater(a, b, k);
      assert a[k + 1] == s[k] && b[k + 1] == t[k];
    }
    if k: nat :| FirstPart(a, b, k) && InDictionaryOrder(a[k], b[k]) {
      PartsDifferLater(a, b, k - 1);
      assert s[k - 1] == a[k] && t[k - 1] == b[k];
    }
  }

  lemma PartsDifferLater(a: seq<string>, b: seq<string>, k: nat)
    requires a != [] && b != [] && a[0] == b[0]
    ensures FirstPart(a, b, k + 1) <==> FirstPart(a[1..], b[1..], k)
  {
    if k + 1 < |a| && k + 1 < |b| {
      assert a[..k + 1] == [a[0]] + a[1..][..k] && b[..k + 1] == [b[0]] + b[1..][..k];
      assert a[..k + 1][1..] == a[1..][..k] && b[..k + 1][1..] == b[1..][..k];
    }
  }

  lemma PathTotal(a: Path, b: Path)
    ensures PathLeq(a, b) || PathLeq(b, a)
  {
    PartsTotal(Split(a, '/'), Split(b, '/'));
  }

  lemma PathTransitive(a: Path, b: Path, c: Path)
    requires PathLeq(a, b) && PathLeq(b, c)
    ensures PathLeq(a, c)
  {
    PartsTransitive(Split(a, '/'), Split(b, '/'), Split(c, '/'));
  }

  const EXCLUDED: seq<string> := ["test", "doc", "example", "3rdparty", "deps", "vendor"]

  /** Lines 329-330: a C file without any of the words in its path. */
  predicate IsCandidate(path: Path) {
    EndsWith(path, ".c") && forall k :: 0 <= k < |EXCLUDED| ==> Find(path, EXCLUDED[k], 0) < 0
  }

  lemma CandidateIs(path: Path)
    ensures IsCandidate(path) <==>
      && |path| >= 2 && path[|path| - 2] == '.' && path[|path| - 1] == 'c'
      && Nowhere(path, "test") && Nowhere(path, "doc") && Nowhere(path, "example")
      && Nowhere(path, "3rdparty") && Nowhere(path, "deps") && Nowhere(path, "vendor")
  {
    assert |path| >= 2 ==> path[|path| - 2..] == [path[|path| - 2], path[|path| - 1]];
    forall k | 0 <= k < |EXCLUDED| ensures Find(path, EXCLUDED[k], 0) < 0 <==> Nowhere(path, EXCLUDED[k]) {
      FoundIffSomewhere(path, EXCLUDED[k]);
    }
    assert EXCLUDED[0] == "test" && EXCLUDED[1] == "doc" && EXCLUDED[2] == "example";
    assert EXCLUDED[3] == "3rdparty" && EXCLUDED[4] == "deps" && EXCLUDED[5] == "vendor" && |EXCLUDED| == 6;
  }

  predicate IsLeast(p: Path, s: set<Path>) {
    p in s && forall q :: q in s ==> PathLeq(p, q)
  }

  lemma {:induction false} LeastExists(s: set<Path>)
    requires s != {}
    ensures exists p :: IsLeast(p, s)
  {
    var x :| x in s;
    PathTotal(x, x);
    if s == {x} {
      assert IsLeast(x, s);
    } else {
      LeastExists(s - {x});
      var p :| IsLeast(p, s - {x});
      PathTotal(p, x);
      if PathLeq(p, x) {
        assert IsLeast(p, s);
      } else {
        forall q | q in s ensures PathLeq(x, q) {
          if q != x {
            PathTransitive(x, p, q);
          }
        }
        assert IsLeast(x, s);
      }
    }
  }

  /** The paths of a set in order. */
  ghost function Sorted(s: set<Path>): (r: seq<Path>)
    ensures |r| == |s|
    ensures forall p :: p in r <==> p in s
  {
    if s == {} then []
    else
      LeastExists(s);
      var p :| IsLeast(p, s);
      [p] + Sorted(s - {p})
  }

  /** In the order of their parts, each part by code points. */
  lemma {:induction false} SortedIsInOrder(s: set<Path>)
    ensures forall i, j :: 0 <= i < j < |s| ==> PathLeq(Sorted(s)[i], Sorted(s)[j])
    ensures forall i, j :: 0 <= i < j < |s| ==> PartsInOrder(Split(Sorted(s)[i], '/'), Split(Sorted(s)[j], '/'))
  {
    forall a: Path, b: Path ensures PathLeq(a, b) <==> PartsInOrder(Split(a, '/'), Split(b, '/')) {
      PartsLeqMeans(Split(a, '/'), Split(b, '/'));
    }
    if s != {} {
      var r := Sorted(s);
      SortedIsInOrder(s - {r[0]});
      forall j | 0 < j < |s| ensures PathLeq(r[0], r[j]) {
        assert r[j] in s;
      }
    }
  }

  ghost function Candidates(t: Tree): (r: seq<Path>)
    ensures forall p :: p in r <==> p in t && IsCandidate(p)
  {
    Sorted(set path | path in t && IsCandidate(path))
  }

  // ---------- the edit ----------

  predicate IsFirst(text: string, key: string, at: int) {
    0 <= at && Occurs(text, key, at) && forall i :: 0 <= i < at ==> !Occurs(text, key, i)
  }

  ghost predicate Nowhere(text: string, key: string) {
    forall i: nat :: !Occurs(text, key, i)
  }

  /** Line 333: the end of the first brace that begins a line, or else of the first that ends one. */
  function AfterBrace(text: string): (at: Option<nat>)
    ensures at.Some? ==> at.value <= |text|
    ensures at.Some? ==>
              IsFirst(text, "\n{", at.value - 2) || (Nowhere(text, "\n{") && IsFirst(text, "{\n", at.value - 2))
    ensures at.None? <==> Nowhere(text, "\n{") && Nowhere(text, "{\n")
  {
    var a, b := Find(text, "\n{", 0), Find(text, "{\n", 0);
    if a >= 0 then Some(a + 2) else if b >= 0 then Some(b + 2) else None
  }

  function Mark(index: nat, again: string): string {
    "/* incremental-bench-touch-" + Decimal(index) + again + " */"
  }

  /** A new text differs from the old one in one piece put in, which ends its line: the comment with the
      index, where the old text does not have that comment yet, or else with `-b` behind the index.  In
      front of it stands the first brace that begins a line, or, where there is none, the first that ends one. */
  ghost predicate HasMark(text: string, index: nat, out: string) {
    exists at: nat, comment :: IsMarkAt(text, index, out, at, comment)
  }

  ghost predicate IsMarkAt(text: string, index: nat, out: string, at: nat, comment: string) {
    && at <= |text| && HasBraceBefore(text, at) && IsComment(text, index, comment)
    && out == text[..at] + ("  " + comment + "\n") + text[at..]
  }

  ghost predicate IsComment(text: string, index: nat, comment: string) {
    var plain := "/* incremental-bench-touch-" + Decimal(index) + " */";
    comment == if Nowhere(text, plain) then plain else "/* incremental-bench-touch-" + Decimal(index) + "-b */"
  }

  ghost predicate HasBraceBefore(text: string, at: nat) {
    IsFirst(text, "\n{", at - 2) || (Nowhere(text, "\n{") && IsFirst(text, "{\n", at - 2))
  }

  /** Lines 333-337: the text with the mark inserted, if it has a place for it. */
  function Marked(text: string, index: nat): (r: Option<string>)
    ensures r.Some? ==> |r.value| > |text|
  {
    var at := AfterBrace(text);
    var mark := Mark(index, if Find(text, Mark(index, ""), 0) >= 0 then "-b" else "");
    if at.None? then None else Some(text[..at.value] + ("  " + mark + "\n") + text[at.value..])
  }

  lemma MarkIs(index: nat)
    ensures Mark(index, "") == "/* incremental-bench-touch-" + Decimal(index) + " */"
    ensures Mark(index, "-b") == "/* incremental-bench-touch-" + Decimal(index) + "-b */"
  {
    var begin, number := "/* incremental-bench-touch-", Decimal(index);
    assert begin + number + "" == begin + number;
    assert "-b" + " */" == "-b */";
    assert (begin + number) + "-b" + " */" == (begin + number) + ("-b" + " */");
  }

  lemma FoundIffSomewhere(text: string, key: string)
    ensures Find(text, key, 0) < 0 <==> Nowhere(text, key)
  {}

  /** The result of the edit, and none exactly when the text has no such brace. */
  lemma MarkedIs(text: string, index: nat)
    ensures Marked(text, index).Some? ==> HasMark(text, index, Marked(text, index).value)
    ensures Marked(text, index).None? <==> Nowhere(text, "\n{") && Nowhere(text, "{\n")
  {
    MarkIs(index);
    var plain := Mark(index, "");
    FoundIffSomewhere(text, plain);
    var at := AfterBrace(text);
    if at.Some? {
      var comment := if Find(text, plain, 0) >= 0 then Mark(index, "-b") else plain;
      assert IsMarkAt(text, index, Marked(text, index).value, at.value, comment);
    }
  }

  /** Deleting the piece gives the old text back. */
  lemma MarkComesOut(text: string, index: nat, out: string)
    requires HasMark(text, index, out)
    ensures |out| > |text| && exists at: nat :: at <= |text| && text == out[..at] + out[at + |out| - |text|..]
  {
    var at: nat, comment :| IsMarkAt(text, index, out, at, comment);
    TakeOut(text, at, "  " + comment + "\n", out);
  }

  lemma TakeOut(text: string, at: nat, piece: string, out: string)
    requires at <= |text| && piece != "" && out == text[..at] + piece + text[at..]
    ensures |out| == |text| + |piece| && text == out[..at] + out[at + |piece|..]
  {}

  /** Lines 331-332: the candidate at the index, counted round and round. */
  function RoundRobin(paths: seq<Path>, index: nat): (path: Option<Path>)
    ensures path.Some? ==> path.value in paths
  {
    if paths == [] then None else Some(paths[index % |paths|])
  }

  lemma FirstRound(paths: seq<Path>, i: nat)
    requires i < |paths|
    ensures RoundRobin(paths, i) == Some(paths[i])
  {}

  lemma AlternateTurns(paths: seq<Path>, i: nat)
    requires |paths| == 2
    ensures RoundRobin(paths, i) == Some(if i % 2 == 0 then paths[0] else paths[1])
  {}

  ghost function Choice(index: nat, t: Tree): (path: Option<Path>)
    ensures path.Some? ==> path.value in t && IsCandidate(path.value)
  {
    RoundRobin(Candidates(t), index)
  }

  ghost function Touch(index: nat, t: Tree): (r: Option<(Path, string)>)
    ensures r.Some? ==> r.value.0 in t && IsCandidate(r.value.0) && |r.value.1| > |t[r.value.0]|
  {
    var path := Choice(index, t);
    if path.None? || Marked(t[path.value], index).None? then None
    else Some((path.value, Marked(t[path.value], index).value))
  }

  /** The candidate at the index gets the mark; there is no edit exactly without a candidate, or when
      the one chosen has no brace at the beginning or end of a line. */
  ghost predicate IsTouchOf(t: Tree, index: nat, r: Option<(Path, string)>) {
    var paths := Candidates(t);
    if paths == [] then r == None
    else
      var path := paths[index % |paths|];
      path in t &&
      if Nowhere(t[path], "\n{") && Nowhere(t[path], "{\n") then r == None
      else r.Some? && r.value.0 == path && HasMark(t[path], index, r.value.1)
  }

  lemma TouchIs(t: Tree, index: nat)
    ensures IsTouchOf(t, index, Touch(index, t))
  {
    var paths := Candidates(t);
    if paths != [] {
      var path := paths[index % |paths|];
      assert path in paths;
      MarkedIs(t[path], index);
    }
  }

  // ---------- what the choice depends on ----------

  /** An edit makes a candidate longer. */
  ghost predicate Lengthens(touch: (nat, Tree) -> Option<(Path, string)>) {
    forall i, t :: touch(i, t).Some? ==>
      var (path, text) := touch(i, t).value; path in t && IsCandidate(path) && |text| > |t[path]|
  }

  /** The candidates among the files of the two trees are the same. */
  predicate SameCandidates(t: Tree, u: Tree) {
    && (forall path :: path in t && IsCandidate(path) ==> path in u && t[path] == u[path])
    && (forall path :: path in u && IsCandidate(path) ==> path in t)
  }

  /** An edit depends on the candidates only. */
  ghost predicate SeesCandidates(touch: (nat, Tree) -> Option<(Path, string)>) {
    forall i, t, u :: SameCandidates(t, u) ==> touch(i, t) == touch(i, u)
  }

  /** A tree with one more file, in which an edit finds a brace. */
  function Next(base: Tree, path: Path): Tree {
    base[path := "\n{"]
  }

  predicate Chooses(touch: (nat, Tree) -> Option<(Path, string)>, i: nat, t: Tree, path: Path) {
    touch(i, t).Some? && touch(i, t).value.0 == path
  }

  /** A new candidate is chosen by some index. */
  ghost predicate ReachesAll(touch: (nat, Tree) -> Option<(Path, string)>) {
    forall t, path :: path !in t && IsCandidate(path) ==> exists i :: Chooses(touch, i, Next(t, path), path)
  }

  ghost predicate IsTouch(touch: (nat, Tree) -> Option<(Path, string)>) {
    forall i, t :: touch(i, t) == Touch(i, t)
  }

  lemma TouchLengthens(touch: (nat, Tree) -> Option<(Path, string)>)
    requires IsTouch(touch)
    ensures Lengthens(touch)
  {
    forall i, t | touch(i, t).Some?
      ensures var (path, text) := touch(i, t).value; path in t && IsCandidate(path) && |text| > |t[path]|
    {
      assert touch(i, t) == Touch(i, t);
    }
  }

  lemma TouchAlike(i: nat, t: Tree, u: Tree)
    requires SameCandidates(t, u)
    ensures Touch(i, t) == Touch(i, u)
  {
    assert (set path | path in t && IsCandidate(path)) == (set path | path in u && IsCandidate(path));
    assert Choice(i, t) == Choice(i, u);
  }

  lemma HasPlace(text: string, i: nat, index: nat)
    requires Occurs(text, "\n{", i)
    ensures Marked(text, index).Some?
  {}

  lemma ChoiceReaches(t: Tree, path: Path) returns (i: nat)
    requires path in t && IsCandidate(path)
    ensures Choice(i, t) == Some(path)
  {
    assert path in Candidates(t);
    i :| i < |Candidates(t)| && Candidates(t)[i] == path;
    FirstRound(Candidates(t), i);
  }

  lemma TouchReaches(t: Tree, path: Path) returns (i: nat)
    requires path in t && IsCandidate(path) && Occurs(t[path], "\n{", 0)
    ensures Touch(i, t).Some? && Touch(i, t).value.0 == path
  {
    i := ChoiceReaches(t, path);
    HasPlace(t[path], 0, i);
  }

  lemma TouchIsSuch(touch: (nat, Tree) -> Option<(Path, string)>)
    requires IsTouch(touch)
    ensures Lengthens(touch) && SeesCandidates(touch) && ReachesAll(touch)
  {
    TouchLengthens(touch);
    forall i, t, u | SameCandidates(t, u) ensures touch(i, t) == touch(i, u) {
      TouchAlike(i, t, u);
      assert touch(i, t) == Touch(i, t) && touch(i, u) == Touch(i, u);
    }
    forall t, path | path !in t && IsCandidate(path) ensures exists i :: Chooses(touch, i, Next(t, path), path) {
      assert Next(t, path)[path] == "\n{";
      var i := TouchReaches(Next(t, path), path);
      assert touch(i, Next(t, path)) == Touch(i, Next(t, path));
      assert Chooses(touch, i, Next(t, path), path);
    }
  }

  // ---------- when products do not show ----------

  /** A product of builds that resets keep and that the edit may choose. */
  predicate KeptCandidate(prj: Project, path: Path) {
    prj.Product(path) && prj.Kept(path) && IsCandidate(path)
  }

  ghost predicate NoKeptCandidate(prj: Project) {
    forall path :: !KeptCandidate(prj, path)
  }

  lemma SameTouch(prj: Project, id: string, t: Tree)
    requires SeesCandidates(prj.touch) && Lengthens(prj.touch) && NoKeptCandidate(prj)
    requires prj.edit(id).Synthetic? && IsBaseWithProducts(prj, t)
    ensures SameEdit(prj, t, prj.base, id)
  {
    forall path | path in t && IsCandidate(path) ensures path in prj.base && t[path] == prj.base[path] {
      assert !KeptCandidate(prj, path);
    }
    assert SameCandidates(t, prj.base);
    assert prj.touch(prj.edit(id).index, t) == prj.touch(prj.edit(id).index, prj.base);
    assert prj.Source(ApplyEdit(prj, t, id).0) == prj.Source(ApplyEdit(prj, prj.base, id).0);
  }

  /** An edit of a product leaves the sources as they are; one of the baseline changes them. */
  lemma TouchedProductShows(prj: Project, id: string, path: Path)
    requires Lengthens(prj.touch) && prj.edit(id).Synthetic? && KeptCandidate(prj, path)
    requires Chooses(prj.touch, prj.edit(id).index, Next(prj.base, path), path)
    ensures !SeesNoProducts(prj, id)
  {
    var t, i := Next(prj.base, path), prj.edit(id).index;
    assert IsBaseWithProducts(prj, t);
    var (a, ok) := ApplyEdit(prj, t, id);
    var (b, okToo) := ApplyEdit(prj, prj.base, id);
    assert prj.Source(a) == prj.base;
    if okToo {
      var edited := prj.touch(i, prj.base).value;
      assert |prj.Source(b)[edited.0]| == |edited.1| > |prj.base[edited.0]|;
    }
    assert !SameEdit(prj, t, prj.base, id);
  }

  /** The id of a synthetic edit. */
  function Syn(index: nat): string {
    "syn" + Decimal(index)
  }

  /** Line 394: what follows `syn` is the index. */
  ghost predicate ByIndex(prj: Project) {
    forall i: nat :: prj.edit(Syn(i)) == Synthetic(i)
  }

  /** With the products that builds leave, the edit by any index is as without them exactly when no
      product that resets keep is a candidate. */
  lemma SeesNoProductsIff(prj: Project)
    requires IsTouch(prj.touch) && ByIndex(prj)
    ensures (forall i :: SeesNoProducts(prj, Syn(i))) <==> NoKeptCandidate(prj)
  {
    TouchIsSuch(prj.touch);
    if NoKeptCandidate(prj) {
      forall i, t | IsBaseWithProducts(prj, t) ensures SameEdit(prj, t, prj.base, Syn(i)) {
        assert prj.edit(Syn(i)) == Synthetic(i);
        SameTouch(prj, Syn(i), t);
      }
    } else {
      var path :| KeptCandidate(prj, path);
      var i :| Chooses(prj.touch, i, Next(prj.base, path), path);
      assert prj.edit(Syn(i)) == Synthetic(i);
      TouchedProductShows(prj, Syn(i), path);
    }
  }

  lemma NoCandidateIsIsolated(prj: Project, ids: set<string>)
    requires IsTouch(prj.touch) && NoKeptCandidate(prj) && LeavesNothing(prj, ids)
    ensures IsolatedForEveryBuild(prj, ids)
  {
    TouchIsSuch(prj.touch);
    forall y | y in ids && prj.edit(y).Synthetic? ensures SeesNothingKept(prj, ids, y) {
      NothingLeftButProducts(prj, ids, y);
      forall t | IsBaseWithProducts(prj, t) ensures SameEdit(prj, t, prj.base, y) {
        SameTouch(prj, y, t);
      }
    }
    IsolatedIffSafe(prj, ids);
  }

  lemma CandidateIsNotIsolated(prj: Project)
    requires IsTouch(prj.touch) && ByIndex(prj) && !NoKeptCandidate(prj)
    requires forall id :: Leaves(prj, id) == {}
    ensures exists ids :: !IsolatedForEveryBuild(prj, ids)
  {
    SeesNoProductsIff(prj);
    var i :| !SeesNoProducts(prj, Syn(i));
    assert prj.edit(Syn(i)) == Synthetic(i);
    NothingLeftButProducts(prj, {Syn(i)}, Syn(i));
    TouchLengthens(prj.touch);
    IsolatedIffSafe(prj, {Syn(i)});
    assert !IsolatedForEveryBuild(prj, {Syn(i)});
  }

  /** Lists in which no pull request leaves a source file are exact, for every build and from every tree
      that killed runs may have left, exactly when no product that resets keep is a candidate. */
  lemma SyntheticIsolatedIff(prj: Project)
    requires IsTouch(prj.touch) && ByIndex(prj) && forall id :: Leaves(prj, id) == {}
    ensures (forall ids :: IsolatedForEveryBuild(prj, ids)) <==> NoKeptCandidate(prj)
  {
    if NoKeptCandidate(prj) {
      forall ids ensures IsolatedForEveryBuild(prj, ids) {
        NoCandidateIsIsolated(prj, ids);
      }
    } else {
      CandidateIsNotIsolated(prj);
    }
  }

  // ---------- the order of synthetic edits ----------

  /** One source file, and builds that make another one of the same text in a build directory that
      resets keep; the bitcode is the source file's text. */
  function WithBuildDirectory(text: string, touch: (nat, Tree) -> Option<(Path, string)>): Project {
    Project(map["a.c" := text], _ => false, (path: Path) => path == "b/c.c", (path: Path) => path == "b/c.c",
            (id: string) => Synthetic(IndexOf(id)), touch,
            (t: Tree) => if "a.c" in t then Some(t["a.c"]) else None, (t: Tree) => t["b/c.c" := text])
  }

  function IndexOf(id: string): nat {
    if id == "syn0" then 0 else 1
  }

  lemma BuildDirectoryIsSound(text: string, touch: (nat, Tree) -> Option<(Path, string)>)
    requires Lengthens(touch)
    ensures WithBuildDirectory(text, touch).Sound()
  {
    var prj := WithBuildDirectory(text, touch);
    forall t: Tree, u: Tree | prj.Source(t) == prj.Source(u) ensures prj.build(t) == prj.build(u) {
      assert "a.c" in t <==> "a.c" in prj.Source(t);
      assert "a.c" in u <==> "a.c" in prj.Source(u);
      if "a.c" in t {
        assert t["a.c"] == prj.Source(t)["a.c"] == prj.Source(u)["a.c"] == u["a.c"];
      }
    }
    forall t: Tree ensures prj.Strays(prj.after(t)) == prj.Strays(t) {}
  }

  function Clean(text: string): Tree {
    map["a.c" := text]
  }

  function Used(text: string): Tree {
    map["a.c" := text, "b/c.c" := text]
  }

  /** The edit of the clean tree and of the one that a build has used. */
  ghost predicate TakesTurns(text: string, touch: (nat, Tree) -> Option<(Path, string)>, edited: nat -> string) {
    forall i: nat ::
      && |edited(i)| > |text|
      && touch(i, Clean(text)) == Some(("a.c", edited(i)))
      && touch(i, Used(text)) == Some((if i % 2 == 0 then "a.c" else "b/c.c", edited(i)))
  }

  lemma CleanTurn(text: string, touch: (nat, Tree) -> Option<(Path, string)>, edited: nat -> string, id: string)
    requires TakesTurns(text, touch, edited)
    ensures var prj, after := WithBuildDirectory(text, touch), edited(IndexOf(id));
      && Expected(prj, id) == Some(after)
      && BuildOne(prj, Result(prj.base, map[], 0, 0), id) ==
         Result(map["a.c" := after, "b/c.c" := text], map[id := after], 1, 0)
  {
    var prj, after := WithBuildDirectory(text, touch), edited(IndexOf(id));
    assert prj.Foreign(prj.base) == {};
    ResetForeign(prj, prj.base);
    assert prj.base == Clean(text);
    assert prj.base["a.c" := after]["b/c.c" := text] == map["a.c" := after, "b/c.c" := text];
  }

  lemma UsedTurn(text: string, touch: (nat, Tree) -> Option<(Path, string)>, edited: nat -> string,
                 r: Result, id: string)
    requires TakesTurns(text, touch, edited)
    requires r.tree.Keys == {"a.c", "b/c.c"} && r.tree["b/c.c"] == text && !Built(r.outputs, id)
    ensures BuildOne(WithBuildDirectory(text, touch), r, id).outputs ==
            r.outputs[id := if id == "syn0" then edited(0) else text]
  {
    var prj, i := WithBuildDirectory(text, touch), IndexOf(id);
    assert Reset(prj, r.tree) == Used(text);
    assert touch(i, Used(text)) == Some((if i % 2 == 0 then "a.c" else "b/c.c", edited(i)));
  }

  /** When every id builds, a run over two of them whose first output is right is exact if the second is. */
  lemma ExactIfExpected(prj: Project, start: Tree, x: string, y: string, first: Bitcode, second: Bitcode)
    requires first != "" && second != "" && x != y && forall id :: Buildable(prj, id)
    requires Expected(prj, x) == Some(first)
    requires BuildAll(prj, Result(start, map[], 0, 0), [x, y]).outputs == map[x := first, y := second]
    ensures RunIsExact(prj, start, [x, y]) <==> Expected(prj, y) == Some(second)
  {
    var outputs := map[x := first, y := second];
    assert Built(outputs, y) && outputs[y] == second;
    assert OutputOk(prj, y, second, false) <==> Expected(prj, y) == Some(second);
    forall id ensures Built(outputs, id) <==> id in [x, y] && Buildable(prj, id) {}
  }

  lemma TwoOutputs(text: string, touch: (nat, Tree) -> Option<(Path, string)>, edited: nat -> string,
                   x: string, y: string)
    requires TakesTurns(text, touch, edited) && x != y
    ensures var prj := WithBuildDirectory(text, touch);
      BuildAll(prj, Result(prj.base, map[], 0, 0), [x, y]).outputs ==
        map[x := edited(IndexOf(x)), y := if y == "syn0" then edited(0) else text]
  {
    var prj, first := WithBuildDirectory(text, touch), edited(IndexOf(x));
    TwoTurns(prj, prj.base, x, y);
    CleanTurn(text, touch, edited, x);
    UsedTurn(text, touch, edited, Result(map["a.c" := first, "b/c.c" := text], map[x := first], 1, 0), y);
  }

  /** Two synthetic edits, one after the other: the second one, if its index is odd, edits what the
      build of the first has made, and its bitcode is that of the baseline. */
  lemma OneOrder(text: string, touch: (nat, Tree) -> Option<(Path, string)>, edited: nat -> string,
                 x: string, y: string)
    requires TakesTurns(text, touch, edited) && text != "" && x != y
    ensures var prj := WithBuildDirectory(text, touch);
      RunIsExact(prj, prj.base, [x, y]) <==> y == "syn0"
  {
    var prj := WithBuildDirectory(text, touch);
    forall id ensures Expected(prj, id) == Some(edited(IndexOf(id))) && |edited(IndexOf(id))| > |text| {
      CleanTurn(text, touch, edited, id);
    }
    TwoOutputs(text, touch, edited, x, y);
    ExactIfExpected(prj, prj.base, x, y, edited(IndexOf(x)), if y == "syn0" then edited(0) else text);
  }

  lemma FoundIsIn(path: Path, word: string, at: nat, j: nat)
    requires Occurs(path, word, at) && j < |word|
    ensures word[j] in path
  {
    assert path[at + j] == path[at..at + |word|][j];
  }

  lemma NotFound(path: Path, word: string)
    requires word != "" && word[0] !in path
    ensures Find(path, word, 0) < 0
  {
    forall at: nat ensures !Occurs(path, word, at) {
      if Occurs(path, word, at) {
        FoundIsIn(path, word, at, 0);
        assert false;
      }
    }
  }

  lemma ShortIsCandidate(path: Path)
    requires EndsWith(path, ".c") && forall c :: c in path ==> c in "./abc"
    ensures IsCandidate(path)
  {
    forall k | 0 <= k < |EXCLUDED| ensures Find(path, EXCLUDED[k], 0) < 0 {
      var word := EXCLUDED[k];
      assert word in ["test", "doc", "example", "3rdparty", "deps", "vendor"];
      NotFound(path, word);
    }
  }

  lemma InOrder(a: Path, dir: string, b: string, path: Path)
    requires a != "" && dir != "" && '/' !in a && '/' !in dir && '/' !in b
    requires a[0] < dir[0] && path == dir + (['/'] + b)
    ensures !PathLeq(path, a)
  {
    SplitOnePiece(a, '/');
    SplitFirst(dir, b, '/');
  }

  lemma OneSorted(a: Path)
    ensures Sorted({a}) == [a]
  {
    assert Sorted({a})[0] in {a};
  }

  lemma TwoSorted(a: Path, b: Path)
    requires a != b && !PathLeq(b, a)
    ensures Sorted({a, b}) == [a, b]
  {
    SortedIsInOrder({a, b});
    var r := Sorted({a, b});
    assert a in r && b in r && r == [r[0], r[1]];
  }

  lemma OneCandidate(a: Path, i: nat, t: Tree)
    requires t.Keys == {a} && IsCandidate(a)
    ensures Choice(i, t) == Some(a)
  {
    assert (set path | path in t && IsCandidate(path)) == {a};
    OneSorted(a);
    assert i % 1 == 0;
  }

  lemma TwoCandidates(a: Path, b: Path, i: nat, t: Tree)
    requires t.Keys == {a, b} && IsCandidate(a) && IsCandidate(b) && a != b && !PathLeq(b, a)
    ensures Choice(i, t) == Some(if i % 2 == 0 then a else b)
  {
    assert (set path | path in t && IsCandidate(path)) == {a, b};
    TwoSorted(a, b);
    AlternateTurns([a, b], i);
  }

  lemma BothAreCandidates()
    ensures IsCandidate("a.c") && IsCandidate("b/c.c") && !PathLeq("b/c.c", "a.c")
  {
    ShortIsCandidate("a.c");
    ShortIsCandidate("b/c.c");
    assert "b/c.c" == "b" + (['/'] + "c.c");
    InOrder("a.c", "b", "c.c", "b/c.c");
  }

  /** The edits of two files with the same text that has a place for the mark. */
  lemma TouchTakesTurns(text: string, touch: (nat, Tree) -> Option<(Path, string)>, edited: nat -> string)
    requires IsTouch(touch) && forall i: nat :: Marked(text, i) == Some(edited(i))
    ensures TakesTurns(text, touch, edited)
  {
    BothAreCandidates();
    forall i: nat ensures Marked(text, i) == Some(edited(i)) && |edited(i)| > |text| {}
    forall i: nat ensures touch(i, Clean(text)) == Some(("a.c", edited(i))) {
      OneCandidate("a.c", i, Clean(text));
      assert touch(i, Clean(text)) == Touch(i, Clean(text)) && Marked(text, i) == Some(edited(i));
    }
    forall i: nat ensures touch(i, Used(text)) == Some((if i % 2 == 0 then "a.c" else "b/c.c", edited(i))) {
      TwoCandidates("a.c", "b/c.c", i, Used(text));
      assert touch(i, Used(text)) == Touch(i, Used(text)) && Marked(text, i) == Some(edited(i));
    }
  }

  const MAIN: string := "int main(void)\n{\n}\n"

  lemma MainHasPlace(i: nat)
    ensures Marked(MAIN, i).Some?
  {
    assert MAIN[14..16] == "\n{";
    HasPlace(MAIN, 14, i);
  }

  /** With the script's own edit, such a run is exact in one order and not in the other. */
  lemma SyntheticOrderMatters(touch: (nat, Tree) -> Option<(Path, string)>)
    requires IsTouch(touch)
    ensures var prj := WithBuildDirectory(MAIN, touch);
      prj.Sound() && RunIsExact(prj, prj.base, ["syn1", "syn0"]) && !RunIsExact(prj, prj.base, ["syn0", "syn1"])
  {
    TouchLengthens(touch);
    BuildDirectoryIsSound(MAIN, touch);
    forall i: nat ensures Marked(MAIN, i).Some? {
      MainHasPlace(i);
    }
    var edited := (i: nat) => Marked(MAIN, i).value;
    TouchTakesTurns(MAIN, touch, edited);
    assert "syn0"[3] != "syn1"[3];
    OneOrder(MAIN, touch, edited, "syn1", "syn0");
    OneOrder(MAIN, touch, edited, "syn0", "syn1");
  }
}
