/**
 The resumable per-PR builder (scripts/build_pr_bc.sh): source trees are maps from paths to
 contents, and the build is an uninterpreted function of the tree.
 */
module PrBuilder {
  import opened Wrappers

  type Path = string
  type Tree = map<Path, string>
  type Bitcode = string   // the empty string is an empty file, which `-s` takes for missing

  /** What a listed id stands for.  A pull request is its fetch result, the paths changed since
      the merge base, and the files of its head; a synthetic entry edits one file by index. */
  datatype Edit =
    | PullRequest(fetched: bool, changed: seq<Path>, head: Tree)
    | Synthetic(index: nat)

  datatype Project = Project(
    base: Tree,                                      // the commit HEAD points at
    ignored: Path -> bool,                           // untracked paths git clean never removes
    excluded: Path -> bool,                          // untracked paths kept by the -e patterns
    product: Path -> bool,                           // what builds make: build directories, objects
    edit: string -> Edit,
    touch: (nat, Tree) -> Option<(Path, string)>,    // the synthetic edit of a tree
    build: Tree -> Option<Bitcode>,
    after: Tree -> Tree)                             // the tree once a build has run in it
  {
    predicate Kept(path: Path) {
      ignored(path) || excluded(path)
    }

    predicate Product(path: Path) {
      path !in base && product(path)
    }

    /** The untracked files that no reset removes. */
    function Foreign(t: Tree): set<Path> {
      set path | path in t && path !in base && Kept(path)
    }

    /** Those of them that no build makes. */
    function Strays(t: Tree): set<Path> {
      set path | path in t && path !in base && Kept(path) && !product(path)
    }

    /** A tree without the products of builds. */
    function Source(t: Tree): Tree {
      map path | path in t && !Product(path) :: t[path]
    }

    /** A build looks at no product of earlier builds and leaves nothing but products that resets
        keep; a synthetic edit rewrites a file that is there. */
    ghost predicate Sound() {
      && (forall t: Tree, u: Tree :: Source(t) == Source(u) ==> build(t) == build(u))
      && (forall t: Tree :: Strays(after(t)) == Strays(t))
      && TouchesFiles()
    }

    ghost predicate TouchesFiles() {
      forall i: nat, t: Tree :: touch(i, t).Some? ==> touch(i, t).value.0 in t
    }
  }

  // ---------- the commands ----------

  /** Lines 388-389: tracked files are restored, other files are removed unless kept. */
  function Reset(prj: Project, t: Tree): Tree {
    map path | path in prj.base.Keys + prj.Foreign(t) :: if path in prj.base then prj.base[path] else t[path]
  }

  predicate EndsWith(s: string, suffix: string) {
    |suffix| <= |s| && s[|s| - |suffix|..] == suffix
  }

  predicate IsSource(path: Path) {
    EndsWith(path, ".c") || EndsWith(path, ".h") || EndsWith(path, ".cc") || EndsWith(path, ".cpp")
  }

  function Sources(changed: seq<Path>): seq<Path> {
    if changed == [] then []
    else
      var last := changed[|changed| - 1];
      Sources(changed[..|changed| - 1]) + if IsSource(last) then [last] else []
  }

  /** The copy loop of lines 313-318 over a list of files. */
  function CopyFiles(t: Tree, files: seq<Path>, head: Tree): Tree {
    if files == [] then t
    else
      var last := files[|files| - 1];
      var before := CopyFiles(t, files[..|files| - 1], head);
      if last in head then before[last := head[last]] else before
  }

  predicate AnyIn(files: seq<Path>, head: Tree) {
    exists f :: f in files && f in head
  }

  /** Lines 305-340: the edit applied to a tree, and whether it succeeded. */
  function ApplyEdit(prj: Project, t: Tree, id: string): (Tree, bool) {
    match prj.edit(id)
    case PullRequest(fetched, changed, head) =>
      var files := Sources(changed);
      if fetched then (CopyFiles(t, files, head), AnyIn(files, head)) else (t, false)
    case Synthetic(index) =>
      var edited := prj.touch(index, t);
      if edited.None? then (t, false) else (t[edited.value.0 := edited.value.1], true)
  }

  /** The paths an edit is sure to write, whatever tree it meets. */
  function Writes(prj: Project, id: string): set<Path> {
    match prj.edit(id)
    case PullRequest(fetched, changed, head) =>
      if fetched then set path | path in Sources(changed) && path in head else {}
    case Synthetic(_) => {}
  }

  /** Line 383: the output file exists and is not empty. */
  predicate Built(outputs: map<string, Bitcode>, id: string) {
    id in outputs && outputs[id] != ""
  }

  datatype Result = Result(tree: Tree, outputs: map<string, Bitcode>, got: nat, fail: nat)

  /** One turn of the PR loop, lines 381-405. */
  function BuildOne(prj: Project, r: Result, id: string): Result {
    if Built(r.outputs, id) then r.(got := r.got + 1)
    else
      var (edited, ok) := ApplyEdit(prj, Reset(prj, r.tree), id);
      if !ok then r.(tree := edited, fail := r.fail + 1)
      else
        var bitcode := prj.build(edited);
        if bitcode.None? then r.(tree := prj.after(edited), fail := r.fail + 1)
        else Result(prj.after(edited), r.outputs[id := bitcode.value], r.got + 1, r.fail)
  }

  /** The PR loop run to its end. */
  function BuildAll(prj: Project, r: Result, ids: seq<string>): Result {
    if ids == [] then r
    else BuildOne(prj, BuildAll(prj, r, ids[..|ids| - 1]), ids[|ids| - 1])
  }

  // ---------- what every output should be ----------

  /** The bitcode of the baseline overlaid with one edit, if it applies and builds. */
  function Expected(prj: Project, id: string): Option<Bitcode> {
    var (edited, ok) := ApplyEdit(prj, prj.base, id);
    if ok then prj.build(edited) else None
  }

  predicate Buildable(prj: Project, id: string) {
    Expected(prj, id) !in {None, Some("")}
  }

  /** Every output that exists is the build of the baseline overlaid with its own edit, or, for the
      torn ones, a proper prefix of it that a kill inside the copy left. */
  ghost predicate OutputsOk(prj: Project, outputs: map<string, Bitcode>, torn: set<string>) {
    && (forall id :: Built(outputs, id) ==> OutputOk(prj, id, outputs[id], id in torn))
    && (forall id :: id in torn ==> Built(outputs, id))
  }

  predicate OutputOk(prj: Project, id: string, bitcode: Bitcode, torn: bool) {
    Expected(prj, id).Some? &&
    if torn then bitcode < Expected(prj, id).value else bitcode == Expected(prj, id).value
  }

  // ---------- what one edit leaves for the next ----------

  /** The kept source files that a pull request creates. */
  function Leaves(prj: Project, id: string): set<Path> {
    set path | path in Writes(prj, id) && path !in prj.base && prj.Kept(path) && !prj.product(path)
  }

  ghost predicate LeavesNothing(prj: Project, ids: set<string>) {
    forall x :: x in ids ==> Leaves(prj, x) == {}
  }

  /** Whatever one pull request leaves, every other one that applies overwrites. */
  ghost predicate Covered(prj: Project, ids: set<string>) {
    forall x, y :: x in ids && y in ids && prj.edit(y).PullRequest? && Writes(prj, y) != {} ==>
      Leaves(prj, x) <= Writes(prj, y)
  }

  /** The edit succeeds on both trees or on neither, and makes the same sources of them. */
  predicate SameEdit(prj: Project, t: Tree, u: Tree, id: string) {
    var (a, ok) := ApplyEdit(prj, t, id);
    var (b, okToo) := ApplyEdit(prj, u, id);
    ok == okToo && (ok ==> prj.Source(a) == prj.Source(b))
  }

  /** The baseline, besides which there are only kept products. */
  ghost predicate IsBaseWithProducts(prj: Project, t: Tree) {
    && (forall path :: path in prj.base ==> path in t && t[path] == prj.base[path])
    && (forall path :: path in t && path !in prj.base ==> prj.Kept(path) && prj.product(path))
  }

  /** The edit is the same whatever products earlier builds have left. */
  ghost predicate SeesNoProducts(prj: Project, id: string) {
    forall t :: IsBaseWithProducts(prj, t) ==> SameEdit(prj, t, prj.base, id)
  }

  ghost predicate LeftBySome(prj: Project, ids: set<string>, path: Path) {
    exists x :: x in ids && path in Leaves(prj, x)
  }

  /** The baseline, besides which there are only kept files that builds make or pull requests of `ids`
      leave: what a reset can leave. */
  ghost predicate IsBaseWithKept(prj: Project, ids: set<string>, t: Tree) {
    && (forall path :: path in prj.base ==> path in t && t[path] == prj.base[path])
    && (forall path :: path in t && path !in prj.base ==>
          prj.Kept(path) && (prj.product(path) || LeftBySome(prj, ids, path)))
  }

  /** The edit is the same whatever a reset has left. */
  ghost predicate SeesNothingKept(prj: Project, ids: set<string>, id: string) {
    forall t :: IsBaseWithKept(prj, ids, t) ==> SameEdit(prj, t, prj.base, id)
  }

  /** Pull requests overwrite what others leave, and synthetic edits do not depend on it. */
  ghost predicate Safe(prj: Project, ids: set<string>) {
    && Covered(prj, ids)
    && forall y :: y in ids && prj.edit(y).Synthetic? ==> SeesNothingKept(prj, ids, y)
  }

  /** No kept source file in the tree but what the pull requests of `ids` leave. */
  ghost predicate TreeOk(prj: Project, t: Tree, ids: set<string>) {
    forall path :: path in prj.Strays(t) ==> LeftBySome(prj, ids, path)
  }
}
