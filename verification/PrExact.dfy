/**
 The exact condition on a list of edits under which every run of the builder is exact: for every build
 and given synthetic edits, and for all of them.
 */
module PrExact {
  import opened Wrappers
  import opened PrBuilder
  import opened PrIsolation

  // ---------- exact runs ----------

  /** Besides what was right before, the run records exactly the builds of the baseline overlaid
      with each listed edit. */
  ghost predicate RunIsExact(prj: Project, start: Tree, listed: seq<string>) {
    var outputs := BuildAll(prj, Result(start, map[], 0, 0), listed).outputs;
    OutputsOk(prj, outputs, {}) && forall id :: Built(outputs, id) <==> id in listed && Buildable(prj, id)
  }

  function With(prj: Project, touch: (nat, Tree) -> Option<(Path, string)>, build: Tree -> Option<Bitcode>,
                after: Tree -> Tree): Project {
    prj.(touch := touch, build := build, after := after)
  }

  /** With these tools, runs from a clean tree and from one that the baseline's own build has used
      are exact. */
  ghost predicate ExactWith(prj: Project, touch: (nat, Tree) -> Option<(Path, string)>,
                            build: Tree -> Option<Bitcode>, after: Tree -> Tree, listed: seq<string>) {
    var q := With(prj, touch, build, after);
    q.Sound() ==> RunIsExact(q, q.base, listed) && RunIsExact(q, after(q.base), listed)
  }

  /** So is a run from this tree, if killed runs may have left it. */
  ghost predicate ExactFrom(prj: Project, touch: (nat, Tree) -> Option<(Path, string)>, build: Tree -> Option<Bitcode>,
                            after: Tree -> Tree, ids: set<string>, start: Tree, listed: seq<string>) {
    var q := With(prj, touch, build, after);
    q.Sound() && TreeOk(q, start, ids) ==> RunIsExact(q, start, listed)
  }

  /** From every tree that killed runs may have left, every run is exact, whatever the build makes of
      sources and leaves as products. */
  ghost predicate IsolatedForEveryBuild(prj: Project, ids: set<string>) {
    forall build: Tree -> Option<Bitcode>, after: Tree -> Tree, start: Tree, listed: seq<string> |
      (forall id :: id in listed ==> id in ids) :: ExactFrom(prj, prj.touch, build, after, ids, start, listed)
  }

  /** So it is, whatever the synthetic edits do as well. */
  ghost predicate IsolatedForAll(prj: Project, ids: set<string>) {
    forall touch: (nat, Tree) -> Option<(Path, string)>, build: Tree -> Option<Bitcode>, after: Tree -> Tree,
           start: Tree, listed: seq<string> |
      (forall id :: id in listed ==> id in ids) :: ExactFrom(prj, touch, build, after, ids, start, listed)
  }

  /** The same of runs from scratch, or after the baseline's own build, only. */
  ghost predicate IsolatedFromScratch(prj: Project, ids: set<string>) {
    forall touch: (nat, Tree) -> Option<(Path, string)>, build: Tree -> Option<Bitcode>, after: Tree -> Tree,
           listed: seq<string> |
      (forall id :: id in listed ==> id in ids) :: ExactWith(prj, touch, build, after, listed)
  }

  lemma ScratchIsATree(prj: Project, touch: (nat, Tree) -> Option<(Path, string)>, build: Tree -> Option<Bitcode>,
                       after: Tree -> Tree, ids: set<string>, listed: seq<string>)
    ensures (forall start :: ExactFrom(prj, touch, build, after, ids, start, listed)) ==>
              ExactWith(prj, touch, build, after, listed)
  {
    var q := With(prj, touch, build, after);
    if q.Sound() {
      assert q.Strays(after(q.base)) == q.Strays(q.base) == {};
      assert ExactFrom(prj, touch, build, after, ids, after(q.base), listed) ==> RunIsExact(q, after(q.base), listed);
      assert ExactFrom(prj, touch, build, after, ids, q.base, listed) ==> RunIsExact(q, q.base, listed);
    }
  }

  /** The tools decide neither what pull requests write nor what is kept. */
  lemma SamePulls(prj: Project, q: Project, ids: set<string>)
    requires q == With(prj, q.touch, q.build, q.after)
    ensures forall id :: Leaves(q, id) == Leaves(prj, id)
    ensures forall id :: Writes(q, id) == Writes(prj, id)
    ensures LeavesNothing(q, ids) == LeavesNothing(prj, ids)
    ensures Covered(q, ids) == Covered(prj, ids)
  {
    forall id ensures Writes(q, id) == Writes(prj, id) {}
    forall id ensures Leaves(q, id) == Leaves(prj, id) {}
  }

  lemma SameKept(prj: Project, q: Project, ids: set<string>, t: Tree)
    requires q == With(prj, q.touch, q.build, q.after)
    ensures IsBaseWithKept(q, ids, t) <==> IsBaseWithKept(prj, ids, t)
  {
    forall path ensures LeftBySome(q, ids, path) <==> LeftBySome(prj, ids, path) {
      SamePulls(prj, q, ids);
    }
    assert forall path :: q.Kept(path) == prj.Kept(path) && q.product(path) == prj.product(path);
  }

  lemma SameTouches(prj: Project, q: Project, ids: set<string>, id: string)
    requires q == With(prj, prj.touch, q.build, q.after) && SeesNothingKept(prj, ids, id)
    ensures SeesNothingKept(q, ids, id)
  {
    forall t | IsBaseWithKept(q, ids, t) ensures SameEdit(q, t, q.base, id) {
      SameKept(prj, q, ids, t);
      SameEditAlike(prj, q, t, id);
    }
  }

  lemma SameEditAlike(prj: Project, q: Project, t: Tree, id: string)
    requires q == With(prj, prj.touch, q.build, q.after)
    ensures SameEdit(q, t, q.base, id) <==> SameEdit(prj, t, prj.base, id)
  {
    EditedAlike(prj, q, t, id);
    EditedAlike(prj, q, prj.base, id);
  }

  lemma EditedAlike(prj: Project, q: Project, t: Tree, id: string)
    requires q == With(prj, prj.touch, q.build, q.after)
    ensures ApplyEdit(q, t, id) == ApplyEdit(prj, t, id)
    ensures q.Source(ApplyEdit(q, t, id).0) == prj.Source(ApplyEdit(prj, t, id).0)
  {}

  lemma SameSafety(prj: Project, q: Project, ids: set<string>)
    requires q == With(prj, prj.touch, q.build, q.after) && Safe(prj, ids)
    ensures Safe(q, ids)
  {
    SamePulls(prj, q, ids);
    forall y | y in ids && q.edit(y).Synthetic? ensures SeesNothingKept(q, ids, y) {
      SameTouches(prj, q, ids, y);
    }
  }

  /** A safe list is exact from every tree that killed runs may have left. */
  lemma SafeIsExact(q: Project, ids: set<string>, start: Tree, listed: seq<string>)
    requires q.Sound() && Safe(q, ids) && TreeOk(q, start, ids) && forall id :: id in listed ==> id in ids
    ensures RunIsExact(q, start, listed)
  {
    BuildAllOk(q, Result(start, map[], 0, 0), ids, {}, listed);
  }

  // ---------- what goes wrong otherwise ----------

  /** A build that tells whether the tree has one file. */
  function Looks(path: Path): Tree -> Option<Bitcode> {
    (t: Tree) => Some(if path in t then "with" else "without")
  }

  lemma LooksAt(path: Path, t: Tree)
    ensures Looks(path)(t) == Some(if path in t then "with" else "without")
  {}

  function Unchanged(): Tree -> Tree {
    (t: Tree) => t
  }

  lemma LooksIsSound(prj: Project, touch: (nat, Tree) -> Option<(Path, string)>, path: Path)
    requires !prj.Product(path) && With(prj, touch, Looks(path), Unchanged()).TouchesFiles()
    ensures With(prj, touch, Looks(path), Unchanged()).Sound()
  {
    var q := With(prj, touch, Looks(path), Unchanged());
    forall t: Tree, u: Tree | q.Source(t) == q.Source(u) ensures q.build(t) == q.build(u) {
      assert path in t <==> path in q.Source(t);
      assert path in u <==> path in q.Source(u);
    }
  }

  /** A run over two ids is one turn after the other. */
  lemma TwoTurns(q: Project, start: Tree, x: string, y: string)
    ensures BuildAll(q, Result(start, map[], 0, 0), [x, y]) ==
            BuildOne(q, BuildOne(q, Result(start, map[], 0, 0), x), y)
  {
    var r0 := Result(start, map[], 0, 0);
    assert [x, y][..1] == [x] && [x][..0] == [];
    assert BuildAll(q, r0, [x]) == BuildOne(q, BuildAll(q, r0, []), x);
  }

  /** After the turn of a pull request that leaves a stray, the stray is in the tree. */
  lemma FirstLeaves(q: Project, x: string, path: Path)
    requires q.build == Looks(path) && q.after == Unchanged() && path in Leaves(q, x)
    ensures var r := BuildOne(q, Result(q.base, map[], 0, 0), x);
      path in q.Strays(r.tree) && forall y :: Built(r.outputs, y) ==> y == x
  {
    assert q.Foreign(q.base) == {};
    ResetForeign(q, q.base);
    WritesOrNot(q, q.base, x);
    LooksAt(path, ApplyEdit(q, q.base, x).0);
  }

  /** A second id that meets the stray, does not write it and would build without it, is not exact. */
  lemma StrayIsSeen(q: Project, x: string, y: string, path: Path)
    requires q.build == Looks(path) && q.after == Unchanged() && path in Leaves(q, x) && y != x
    requires var (a, ok) := ApplyEdit(q, Reset(q, BuildOne(q, Result(q.base, map[], 0, 0), x).tree), y);
      ok ==> path in a
    requires var (b, ok) := ApplyEdit(q, q.base, y); ok ==> path !in b
    requires ApplyEdit(q, Reset(q, BuildOne(q, Result(q.base, map[], 0, 0), x).tree), y).1 || ApplyEdit(q, q.base, y).1
    ensures !RunIsExact(q, q.base, [x, y])
  {
    var r := BuildOne(q, Result(q.base, map[], 0, 0), x);
    FirstLeaves(q, x, path);
    TwoTurns(q, q.base, x, y);
    LooksAt(path, ApplyEdit(q, Reset(q, r.tree), y).0);
    LooksAt(path, ApplyEdit(q, q.base, y).0);
    var outputs := BuildOne(q, r, y).outputs;
    assert !Built(r.outputs, y);
    if ApplyEdit(q, Reset(q, r.tree), y).1 {
      assert Built(outputs, y) && outputs[y] == "with" && Expected(q, y) in {None, Some("without")};
      assert !OutputOk(q, y, outputs[y], false);
    } else {
      assert !Built(outputs, y) && Buildable(q, y) && y in [x, y];
    }
  }

  lemma StrayStays(q: Project, x: string, path: Path)
    requires q.build == Looks(path) && q.after == Unchanged() && path in Leaves(q, x)
    ensures path in Reset(q, BuildOne(q, Result(q.base, map[], 0, 0), x).tree)
  {
    FirstLeaves(q, x, path);
  }

  /** A stray that another pull request does not write shows in that one's bitcode. */
  lemma UncoveredIsSeen(prj: Project, ids: set<string>, touch: (nat, Tree) -> Option<(Path, string)>)
    requires !Covered(prj, ids) && prj.(touch := touch).TouchesFiles()
    ensures exists x, y, path :: x in ids && y in ids && !ExactWith(prj, touch, Looks(path), Unchanged(), [x, y])
  {
    var x, y :| x in ids && y in ids && prj.edit(y).PullRequest? && Writes(prj, y) != {} &&
      !(Leaves(prj, x) <= Writes(prj, y));
    var path :| path in Leaves(prj, x) && path !in Writes(prj, y);
    var q := With(prj, touch, Looks(path), Unchanged());
    SamePulls(prj, q, ids);
    LooksIsSound(prj, touch, path);
    StrayStays(q, x, path);
    WritesOrNot(q, Reset(q, BuildOne(q, Result(q.base, map[], 0, 0), x).tree), y);
    WritesOrNot(q, q.base, y);
    StrayIsSeen(q, x, y, path);
    assert !ExactWith(prj, touch, Looks(path), Unchanged(), [x, y]);
  }

  /** A stray shows in the bitcode of a synthetic edit, if that edit applies with it or without it. */
  lemma StraySeenByTouch(prj: Project, ids: set<string>, touch: (nat, Tree) -> Option<(Path, string)>,
                         x: string, y: string, path: Path)
    requires x in ids && y in ids && prj.edit(y).Synthetic? && path in Leaves(prj, x)
    requires prj.(touch := touch).TouchesFiles()
    requires touch(prj.edit(y).index, prj.base).Some? ||
             forall t: Tree :: path in t ==> touch(prj.edit(y).index, t).Some?
    ensures !ExactWith(prj, touch, Looks(path), Unchanged(), [x, y])
  {
    var q := With(prj, touch, Looks(path), Unchanged());
    SamePulls(prj, q, ids);
    LooksIsSound(prj, touch, path);
    StrayStays(q, x, path);
    TouchKeepsPaths(q, Reset(q, BuildOne(q, Result(q.base, map[], 0, 0), x).tree), y);
    TouchKeepsPaths(q, q.base, y);
    StrayIsSeen(q, x, y, path);
  }

  lemma TouchKeepsPaths(q: Project, t: Tree, y: string)
    requires q.TouchesFiles() && q.edit(y).Synthetic?
    ensures ApplyEdit(q, t, y).0.Keys == t.Keys && (ApplyEdit(q, t, y).1 <==> q.touch(q.edit(y).index, t).Some?)
  {}

  /** A build that tells whether the sources are these. */
  function Recognizes(prj: Project, source: Tree): Tree -> Option<Bitcode> {
    (t: Tree) => Some(if prj.Source(t) == source then "same" else "other")
  }

  /** A build of the baseline that leaves this tree. */
  function LeavesTree(base: Tree, left: Tree): Tree -> Tree {
    (t: Tree) => if t == base then left else t
  }

  lemma RecognizesIsSound(prj: Project, touch: (nat, Tree) -> Option<(Path, string)>, source: Tree, t: Tree)
    requires prj.(touch := touch).TouchesFiles() && IsBaseWithProducts(prj, t)
    ensures With(prj, touch, Recognizes(prj, source), LeavesTree(prj.base, t)).Sound()
  {
    var q := With(prj, touch, Recognizes(prj, source), LeavesTree(prj.base, t));
    forall u: Tree ensures q.Source(u) == prj.Source(u) {}
    assert q.Strays(t) == {} == q.Strays(q.base);
  }

  lemma ResetOfKept(prj: Project, ids: set<string>, t: Tree)
    requires IsBaseWithKept(prj, ids, t)
    ensures Reset(prj, t) == t && TreeOk(prj, t, ids)
  {
    forall path | path in prj.Strays(t) ensures LeftBySome(prj, ids, path) {}
  }

  /** One turn on a used tree: recorded exactly when the edit applies there, as another build than
      expected unless the sources are the expected ones. */
  lemma TurnOnKept(q: Project, ids: set<string>, source: Tree, y: string, t: Tree)
    requires q.edit(y).Synthetic? && forall u: Tree :: q.build(u) == Recognizes(q, source)(u)
    requires IsBaseWithKept(q, ids, t) && source == q.Source(ApplyEdit(q, q.base, y).0) && !SameEdit(q, t, q.base, y)
    ensures !RunIsExact(q, t, [y])
  {
    ResetOfKept(q, ids, t);
    var r0 := Result(t, map[], 0, 0);
    assert [y][..0] == [] && BuildAll(q, r0, [y]) == BuildOne(q, BuildAll(q, r0, []), y);
    var outputs := BuildOne(q, r0, y).outputs;
    if ApplyEdit(q, t, y).1 {
      assert Built(outputs, y) && !OutputOk(q, y, outputs[y], false);
    } else {
      assert !Built(outputs, y) && Buildable(q, y) && y in [y];
    }
  }

  /** The same function, said of a project with other tools. */
  lemma RecognizesAlike(prj: Project, q: Project, source: Tree)
    requires q == With(prj, q.touch, q.build, q.after)
    ensures forall t :: Recognizes(q, source)(t) == Recognizes(prj, source)(t)
  {
    forall t: Tree ensures q.Source(t) == prj.Source(t) {}
  }

  /** A synthetic edit that depends on the products of earlier builds is not exact after the
      baseline's own build. */
  lemma ProductsAreSeen(prj: Project, y: string, t: Tree)
    requires prj.TouchesFiles() && prj.edit(y).Synthetic?
    requires IsBaseWithProducts(prj, t) && !SameEdit(prj, t, prj.base, y)
    ensures exists build, after :: !ExactWith(prj, prj.touch, build, after, [y])
  {
    var source := prj.Source(ApplyEdit(prj, prj.base, y).0);
    var build, after := Recognizes(prj, source), LeavesTree(prj.base, t);
    var q := With(prj, prj.touch, build, after);
    RecognizesIsSound(prj, prj.touch, source, t);
    RecognizesAlike(prj, q, source);
    EditedAlike(prj, q, t, y);
    EditedAlike(prj, q, prj.base, y);
    assert IsBaseWithKept(q, {}, t);
    TurnOnKept(q, {}, source, y, t);
    assert q.after(q.base) == t;
    assert !ExactWith(prj, prj.touch, build, after, [y]);
  }

  lemma UnchangedIsSound(prj: Project, touch: (nat, Tree) -> Option<(Path, string)>, source: Tree)
    requires prj.(touch := touch).TouchesFiles()
    ensures With(prj, touch, Recognizes(prj, source), Unchanged()).Sound()
  {
    var q := With(prj, touch, Recognizes(prj, source), Unchanged());
    forall u: Tree ensures q.Source(u) == prj.Source(u) {}
  }

  /** A synthetic edit that depends on what a reset can leave is not exact from such a tree. */
  lemma KeptIsSeen(prj: Project, ids: set<string>, y: string)
    requires prj.TouchesFiles() && y in ids && prj.edit(y).Synthetic? && !SeesNothingKept(prj, ids, y)
    ensures !IsolatedForEveryBuild(prj, ids)
  {
    var t :| IsBaseWithKept(prj, ids, t) && !SameEdit(prj, t, prj.base, y);
    var source := prj.Source(ApplyEdit(prj, prj.base, y).0);
    KeptIsSeenFrom(prj, ids, y, t, source);
    assert !ExactFrom(prj, prj.touch, Recognizes(prj, source), Unchanged(), ids, t, [y]);
  }

  lemma KeptIsSeenFrom(prj: Project, ids: set<string>, y: string, t: Tree, source: Tree)
    requires prj.TouchesFiles() && prj.edit(y).Synthetic? && IsBaseWithKept(prj, ids, t)
    requires !SameEdit(prj, t, prj.base, y) && source == prj.Source(ApplyEdit(prj, prj.base, y).0)
    ensures !ExactFrom(prj, prj.touch, Recognizes(prj, source), Unchanged(), ids, t, [y])
  {
    var q := With(prj, prj.touch, Recognizes(prj, source), Unchanged());
    UnchangedIsSound(prj, prj.touch, source);
    RecognizesAlike(prj, q, source);
    EditedAlike(prj, q, prj.base, y);
    SameEditAlike(prj, q, t, y);
    SameKept(prj, q, ids, t);
    ResetOfKept(q, ids, t);
    TurnOnKept(q, ids, source, y, t);
  }

  lemma SafeIsIsolated(prj: Project, ids: set<string>)
    requires Safe(prj, ids)
    ensures IsolatedForEveryBuild(prj, ids)
  {
    forall build: Tree -> Option<Bitcode>, after: Tree -> Tree, start: Tree, listed: seq<string>
      | forall id :: id in listed ==> id in ids
      ensures ExactFrom(prj, prj.touch, build, after, ids, start, listed)
    {
      var q := With(prj, prj.touch, build, after);
      SameSafety(prj, q, ids);
      if q.Sound() && TreeOk(q, start, ids) {
        SafeIsExact(q, ids, start, listed);
      }
    }
  }

  lemma OwnUncoveredIsSeen(prj: Project, ids: set<string>)
    requires prj.TouchesFiles() && !Covered(prj, ids)
    ensures !IsolatedForEveryBuild(prj, ids)
  {
    UncoveredIsSeen(prj, ids, prj.touch);
    var x, y, path :| x in ids && y in ids && !ExactWith(prj, prj.touch, Looks(path), Unchanged(), [x, y]);
    ScratchIsATree(prj, prj.touch, Looks(path), Unchanged(), ids, [x, y]);
    var start :| !ExactFrom(prj, prj.touch, Looks(path), Unchanged(), ids, start, [x, y]);
    assert forall id :: id in [x, y] ==> id in ids;
  }

  /** For given synthetic edits: every run from every tree that killed runs may have left is exact for
      every build exactly when the list is safe. */
  lemma IsolatedIffSafe(prj: Project, ids: set<string>)
    requires prj.TouchesFiles()
    ensures IsolatedForEveryBuild(prj, ids) <==> Safe(prj, ids)
  {
    if Safe(prj, ids) {
      SafeIsIsolated(prj, ids);
    } else if !Covered(prj, ids) {
      OwnUncoveredIsSeen(prj, ids);
    } else {
      var y :| y in ids && prj.edit(y).Synthetic? && !SeesNothingKept(prj, ids, y);
      KeptIsSeen(prj, ids, y);
    }
  }

  /** When no pull request leaves a source file, the condition on a synthetic edit is that it does not
      depend on products. */
  lemma NothingLeftButProducts(prj: Project, ids: set<string>, id: string)
    requires LeavesNothing(prj, ids)
    ensures SeesNothingKept(prj, ids, id) <==> SeesNoProducts(prj, id)
  {
    forall t ensures IsBaseWithKept(prj, ids, t) <==> IsBaseWithProducts(prj, t) {
      assert forall x :: x in ids ==> Leaves(prj, x) == {};
    }
  }

  /** When some pull request does, a synthetic edit that applies to the baseline fails the condition. */
  lemma AppliesNextToLeaves(prj: Project, ids: set<string>, id: string)
    requires prj.TouchesFiles() && prj.edit(id).Synthetic? && ApplyEdit(prj, prj.base, id).1 && !LeavesNothing(prj, ids)
    ensures !SeesNothingKept(prj, ids, id)
  {
    var x :| x in ids && Leaves(prj, x) != {};
    var path :| path in Leaves(prj, x);
    LeftIsKept(prj, ids, x, path);
    StrayChangesEdit(prj, id, prj.base[path := ""], path);
  }

  lemma LeftIsKept(prj: Project, ids: set<string>, x: string, path: Path)
    requires x in ids && path in Leaves(prj, x)
    ensures IsBaseWithKept(prj, ids, prj.base[path := ""]) && path !in prj.base && !prj.Product(path)
  {
    assert LeftBySome(prj, ids, path);
  }

  lemma StrayChangesEdit(prj: Project, id: string, t: Tree, path: Path)
    requires prj.TouchesFiles() && prj.edit(id).Synthetic? && ApplyEdit(prj, prj.base, id).1
    requires path in t && path !in prj.base && !prj.Product(path)
    ensures !SameEdit(prj, t, prj.base, id)
  {
    TouchKeepsPaths(prj, t, id);
    TouchKeepsPaths(prj, prj.base, id);
    var a, b := ApplyEdit(prj, t, id).0, ApplyEdit(prj, prj.base, id).0;
    assert path in prj.Source(a) && path !in prj.Source(b);
  }

  /** A synthetic edit that looks at source files only, and chooses one of them, meets the condition. */
  lemma SourceTouchSeesNoProducts(prj: Project, id: string)
    requires prj.TouchesFiles() && prj.edit(id).Synthetic?
    requires forall t: Tree :: prj.touch(prj.edit(id).index, t) == prj.touch(prj.edit(id).index, prj.Source(t))
    ensures SeesNoProducts(prj, id)
  {
    forall t | IsBaseWithProducts(prj, t) ensures SameEdit(prj, t, prj.base, id) {
      assert prj.Source(t) == prj.base == prj.Source(prj.base);
    }
  }

  // ---------- whatever the synthetic edits do ----------

  ghost predicate HasSynthetic(prj: Project, ids: set<string>) {
    exists y :: y in ids && prj.edit(y).Synthetic?
  }

  /** Resets keep no product of a build. */
  ghost predicate NoKeptProducts(prj: Project) {
    forall path :: prj.Product(path) ==> !prj.Kept(path)
  }

  /** An edit that needs one file to be there, and rewrites it with its own contents. */
  function Needs(path: Path): (nat, Tree) -> Option<(Path, string)> {
    (i: nat, t: Tree) => if path in t then Some((path, t[path])) else None
  }

  lemma OnlyTheBaseline(prj: Project, t: Tree)
    requires NoKeptProducts(prj) && IsBaseWithProducts(prj, t)
    ensures t == prj.base
  {
    forall path | path in t ensures path in prj.base {
      assert path !in prj.base ==> prj.Product(path);
    }
  }

  lemma NeedsSeesProduct(prj: Project, y: string, path: Path)
    requires prj.touch == Needs(path) && prj.edit(y).Synthetic? && prj.Product(path) && prj.Kept(path)
    ensures prj.TouchesFiles() && IsBaseWithProducts(prj, prj.base[path := ""])
    ensures !SameEdit(prj, prj.base[path := ""], prj.base, y)
  {}

  lemma ExactAlike(prj: Project, touch: (nat, Tree) -> Option<(Path, string)>,
                   build: Tree -> Option<Bitcode>, after: Tree -> Tree, listed: seq<string>)
    ensures ExactWith(prj.(touch := touch), touch, build, after, listed) == ExactWith(prj, touch, build, after, listed)
  {
    assert With(prj.(touch := touch), touch, build, after) == With(prj, touch, build, after);
  }

  lemma KeptProductIsSeen(prj: Project, y: string, path: Path)
    requires prj.edit(y).Synthetic? && prj.Product(path) && prj.Kept(path)
    ensures exists build, after :: !ExactWith(prj, Needs(path), build, after, [y])
  {
    var needy := prj.(touch := Needs(path));
    NeedsSeesProduct(needy, y, path);
    ProductsAreSeen(needy, y, prj.base[path := ""]);
    var build, after :| !ExactWith(needy, needy.touch, build, after, [y]);
    ExactAlike(prj, Needs(path), build, after, [y]);
  }

  lemma OnlyBaseIsKept(q: Project, ids: set<string>, y: string)
    requires LeavesNothing(q, ids) && NoKeptProducts(q)
    ensures SeesNothingKept(q, ids, y)
  {
    NothingLeftButProducts(q, ids, y);
    forall t | IsBaseWithProducts(q, t) ensures SameEdit(q, t, q.base, y) {
      OnlyTheBaseline(q, t);
    }
  }

  /** What the listed edits and the resets must be like. */
  ghost predicate Isolating(prj: Project, ids: set<string>) {
    Covered(prj, ids) && (HasSynthetic(prj, ids) ==> LeavesNothing(prj, ids) && NoKeptProducts(prj))
  }

  lemma CoveredIsIsolated(prj: Project, ids: set<string>)
    requires Isolating(prj, ids)
    ensures IsolatedForAll(prj, ids)
  {
    forall touch: (nat, Tree) -> Option<(Path, string)>, build: Tree -> Option<Bitcode>, after: Tree -> Tree,
           start: Tree, listed: seq<string> | forall id :: id in listed ==> id in ids
      ensures ExactFrom(prj, touch, build, after, ids, start, listed)
    {
      var q := With(prj, touch, build, after);
      SamePulls(prj, q, ids);
      forall y | y in ids && q.edit(y).Synthetic? ensures SeesNothingKept(q, ids, y) {
        assert forall path :: q.Product(path) == prj.Product(path) && q.Kept(path) == prj.Kept(path);
        OnlyBaseIsKept(q, ids, y);
      }
      if q.Sound() && TreeOk(q, start, ids) {
        SafeIsExact(q, ids, start, listed);
      }
    }
  }

  lemma AllIsScratch(prj: Project, ids: set<string>)
    requires IsolatedForAll(prj, ids)
    ensures IsolatedFromScratch(prj, ids)
  {
    forall touch: (nat, Tree) -> Option<(Path, string)>, build: Tree -> Option<Bitcode>, after: Tree -> Tree,
           listed: seq<string> | forall id :: id in listed ==> id in ids
      ensures ExactWith(prj, touch, build, after, listed)
    {
      assert forall start :: ExactFrom(prj, touch, build, after, ids, start, listed);
      ScratchIsATree(prj, touch, build, after, ids, listed);
    }
  }

  lemma StrayNextToSynthetic(prj: Project, ids: set<string>)
    requires HasSynthetic(prj, ids) && !LeavesNothing(prj, ids)
    ensures !IsolatedFromScratch(prj, ids)
  {
    var y :| y in ids && prj.edit(y).Synthetic?;
    var x :| x in ids && Leaves(prj, x) != {};
    var path :| path in Leaves(prj, x);
    assert prj.(touch := Needs(path)).TouchesFiles();
    StraySeenByTouch(prj, ids, Needs(path), x, y, path);
    assert forall id :: id in [x, y] ==> id in ids;
  }

  lemma ProductNextToSynthetic(prj: Project, ids: set<string>)
    requires HasSynthetic(prj, ids) && !NoKeptProducts(prj)
    ensures !IsolatedFromScratch(prj, ids)
  {
    var y :| y in ids && prj.edit(y).Synthetic?;
    var path :| prj.Product(path) && prj.Kept(path);
    KeptProductIsSeen(prj, y, path);
    var build, after :| !ExactWith(prj, Needs(path), build, after, [y]);
  }

  lemma UncoveredIsNotIsolated(prj: Project, ids: set<string>)
    requires !Covered(prj, ids)
    ensures !IsolatedFromScratch(prj, ids)
  {
    assert prj.(touch := Needs("")).TouchesFiles();
    UncoveredIsSeen(prj, ids, Needs(""));
    var x, y, path :| x in ids && y in ids && !ExactWith(prj, Needs(""), Looks(path), Unchanged(), [x, y]);
    assert forall id :: id in [x, y] ==> id in ids;
  }

  /** For any list of pull requests and synthetic edits: every run, from scratch or from any tree that
      killed runs may have left, is exact, whatever the builds and the synthetic edits do, exactly
      when each kept source file that a pull request creates is written by every other one that
      applies and, if there is a synthetic edit, no pull request creates any and resets keep no
      product of a build. */
  lemma IsolatedIffCovered(prj: Project, ids: set<string>)
    ensures IsolatedForAll(prj, ids) <==> Isolating(prj, ids)
    ensures IsolatedFromScratch(prj, ids) <==> Isolating(prj, ids)
  {
    if !Covered(prj, ids) {
      UncoveredIsNotIsolated(prj, ids);
    } else if Isolating(prj, ids) {
      CoveredIsIsolated(prj, ids);
    } else if !LeavesNothing(prj, ids) {
      StrayNextToSynthetic(prj, ids);
    } else {
      ProductNextToSynthetic(prj, ids);
    }
    if IsolatedForAll(prj, ids) {
      AllIsScratch(prj, ids);
    }
  }
}
