/**
 The builder's promises, for lists of safe edits: every recorded bitcode is the build of the baseline
 overlaid with its own edit, whatever was built, failed or was killed before, and the outputs of a
 finished run depend only on the set of ids listed.
 */
module PrIsolation {
  import opened Wrappers
  import opened PrBuilder

  // ---------- applying one edit ----------

  lemma {:induction false} SourcesAre(changed: seq<Path>, path: Path)
    ensures path in Sources(changed) <==> path in changed && IsSource(path)
  {
    if changed != [] {
      SourcesAre(changed[..|changed| - 1], path);
      assert changed == changed[..|changed| - 1] + [changed[|changed| - 1]];
    }
  }

  /** What the pattern of line 311 matches: a dot and one of four extensions at the end. */
  ghost predicate HasExtension(path: Path) {
    exists dot: nat :: dot < |path| && path[dot] == '.' && path[dot + 1..] in {"c", "h", "cc", "cpp"}
  }

  lemma EndsInExtension(path: Path, extension: string)
    ensures EndsWith(path, "." + extension) <==>
              exists dot: nat :: dot < |path| && path[dot] == '.' && path[dot + 1..] == extension
  {
    if EndsWith(path, "." + extension) {
      var dot: nat := |path| - |extension| - 1;
      assert path[dot..] == "." + extension && path[dot] == path[dot..][0];
      assert path[dot + 1..] == path[dot..][1..];
    }
    forall dot: nat | dot < |path| && path[dot] == '.' && path[dot + 1..] == extension
      ensures EndsWith(path, "." + extension)
    {
      assert path[dot..] == "." + extension;
    }
  }

  lemma SourceHasExtension(path: Path)
    ensures IsSource(path) <==> HasExtension(path)
  {
    assert "." + "c" == ".c" && "." + "h" == ".h" && "." + "cc" == ".cc" && "." + "cpp" == ".cpp";
    EndsInExtension(path, "c");
    EndsInExtension(path, "h");
    EndsInExtension(path, "cc");
    EndsInExtension(path, "cpp");
  }

  /** The copy loop writes the head's contents at the listed paths it has, and nothing else. */
  lemma {:induction false} CopyFilesExact(t: Tree, files: seq<Path>, head: Tree)
    ensures CopyFiles(t, files, head) ==
      map path | path in t.Keys + head.Keys && (path in t || path in files)
               :: if path in files && path in head then head[path] else t[path]
  {
    if files != [] {
      CopyFilesExact(t, files[..|files| - 1], head);
      assert files == files[..|files| - 1] + [files[|files| - 1]];
    }
  }

  /** A pull request that applies gives exactly its changed C and C++ sources the contents of its
      head, except those it deletes, which keep their baseline contents like every other path. */
  lemma AppliedExactly(prj: Project, t: Tree, id: string, path: Path)
    requires prj.edit(id).PullRequest? && ApplyEdit(prj, t, id).1
    ensures var e, applied := prj.edit(id), ApplyEdit(prj, t, id).0;
      var copied := path in e.changed && HasExtension(path) && path in e.head;
      && (path in applied <==> copied || path in t)
      && (copied ==> applied[path] == e.head[path])
      && (!copied && path in t ==> applied[path] == t[path])
  {
    var e := prj.edit(id);
    CopyFilesExact(t, Sources(e.changed), e.head);
    SourcesAre(e.changed, path);
    SourceHasExtension(path);
  }

  /** It applies exactly when it can be fetched and still has one of its changed sources. */
  lemma AppliesIff(prj: Project, t: Tree, id: string)
    requires prj.edit(id).PullRequest?
    ensures var e := prj.edit(id);
      ApplyEdit(prj, t, id).1 <==>
        e.fetched && exists path :: path in e.changed && HasExtension(path) && path in e.head
  {
    var e := prj.edit(id);
    forall path ensures path in Sources(e.changed) <==> path in e.changed && HasExtension(path) {
      SourcesAre(e.changed, path);
      SourceHasExtension(path);
    }
  }

  // ---------- from a tree earlier edits have used ----------

  /** What a reset leaves of a tree: the baseline, and its untracked files that are ignored or excluded. */
  lemma ResetLeaves(prj: Project, t: Tree, path: Path)
    ensures var left := Reset(prj, t);
      && (path in left <==> path in prj.base || (path in t && (prj.ignored(path) || prj.excluded(path))))
      && (path in prj.base ==> left[path] == prj.base[path])
      && (path in left && path !in prj.base ==> left[path] == t[path])
  {}

  lemma ResetForeign(prj: Project, t: Tree)
    ensures prj.Foreign(Reset(prj, t)) == prj.Foreign(t) && prj.Strays(Reset(prj, t)) == prj.Strays(t)
    ensures prj.Foreign(t) == {} ==> Reset(prj, t) == prj.base
  {}

  lemma ResetIsBaseWithKept(prj: Project, ids: set<string>, t: Tree)
    requires TreeOk(prj, t, ids)
    ensures IsBaseWithKept(prj, ids, Reset(prj, t))
  {
    forall path | path in Reset(prj, t) && path !in prj.base && !prj.product(path)
      ensures LeftBySome(prj, ids, path)
    {
      assert path in prj.Strays(t);
    }
  }

  /** A pull request overwrites all strays of a used tree. */
  lemma StraysAreWritten(prj: Project, t: Tree, ids: set<string>, id: string)
    requires Safe(prj, ids) && TreeOk(prj, t, ids) && id in ids && prj.edit(id).PullRequest? && Writes(prj, id) != {}
    ensures prj.Strays(t) <= Writes(prj, id)
  {
    forall path | path in prj.Strays(t) ensures path in Writes(prj, id) {
      var x :| x in ids && path in Leaves(prj, x);
    }
  }

  lemma WritesOrNot(prj: Project, t: Tree, id: string)
    requires prj.edit(id).PullRequest?
    ensures ApplyEdit(prj, t, id).1 <==> Writes(prj, id) != {}
    ensures Writes(prj, id) == {} ==> ApplyEdit(prj, t, id).0 == t
    ensures ApplyEdit(prj, t, id).0.Keys == t.Keys + Writes(prj, id)
    ensures forall path | path in Writes(prj, id) ::
              path in prj.edit(id).head && ApplyEdit(prj, t, id).0[path] == prj.edit(id).head[path]
    ensures forall path :: path in t && path !in Writes(prj, id) ==> ApplyEdit(prj, t, id).0[path] == t[path]
  {
    var e := prj.edit(id);
    CopyFilesExact(t, Sources(e.changed), e.head);
    if e.fetched && AnyIn(Sources(e.changed), e.head) {
      var f :| f in Sources(e.changed) && f in e.head;
      assert f in Writes(prj, id);
    }
    if path :| path in Writes(prj, id) {
      assert AnyIn(Sources(e.changed), e.head);
    } else {
      assert ApplyEdit(prj, t, id).0 == t;
    }
  }

  lemma PullOnUsedTree(prj: Project, t: Tree, id: string)
    requires prj.edit(id).PullRequest? && (Writes(prj, id) != {} ==> prj.Strays(t) <= Writes(prj, id))
    ensures SameEdit(prj, Reset(prj, t), prj.base, id)
    ensures prj.Strays(ApplyEdit(prj, Reset(prj, t), id).0) <= prj.Strays(t) + Leaves(prj, id)
  {
    WritesOrNot(prj, Reset(prj, t), id);
    WritesOrNot(prj, prj.base, id);
    var a, b := ApplyEdit(prj, Reset(prj, t), id).0, ApplyEdit(prj, prj.base, id).0;
    if Writes(prj, id) != {} {
      forall path ensures path in prj.Source(a) <==> path in prj.Source(b) {
        assert path in Reset(prj, t) && path !in prj.base && !prj.Product(path) ==> path in prj.Strays(t);
      }
    }
  }

  /** An edit applied to a used tree makes the sources it makes of the baseline, and leaves no
      strays but what a listed pull request leaves. */
  lemma UsedTreeDoesNotShow(prj: Project, t: Tree, ids: set<string>, id: string)
    requires prj.TouchesFiles() && Safe(prj, ids) && TreeOk(prj, t, ids) && id in ids
    ensures SameEdit(prj, Reset(prj, t), prj.base, id)
    ensures TreeOk(prj, ApplyEdit(prj, Reset(prj, t), id).0, ids)
  {
    ResetForeign(prj, t);
    if prj.edit(id).Synthetic? {
      ResetIsBaseWithKept(prj, ids, t);
      assert prj.Strays(ApplyEdit(prj, Reset(prj, t), id).0) == prj.Strays(t);
    } else {
      if Writes(prj, id) != {} {
        StraysAreWritten(prj, t, ids, id);
      }
      PullOnUsedTree(prj, t, id);
    }
  }

  /** Invariant of the PR loop. */
  ghost predicate LoopOk(prj: Project, r: Result, ids: set<string>, torn: set<string>) {
    TreeOk(prj, r.tree, ids) && OutputsOk(prj, r.outputs, torn)
  }

  /** One turn from a used tree records what one turn from the baseline would. */
  lemma BuildsExpected(prj: Project, t: Tree, ids: set<string>, id: string)
    requires prj.Sound() && Safe(prj, ids) && TreeOk(prj, t, ids) && id in ids
    ensures var (edited, ok) := ApplyEdit(prj, Reset(prj, t), id);
      && Expected(prj, id) == (if ok then prj.build(edited) else None)
      && TreeOk(prj, edited, ids) && TreeOk(prj, prj.after(edited), ids)
  {
    UsedTreeDoesNotShow(prj, t, ids, id);
    var edited := ApplyEdit(prj, Reset(prj, t), id).0;
    assert prj.Strays(prj.after(edited)) == prj.Strays(edited);
  }

  lemma BuildOneOk(prj: Project, r: Result, ids: set<string>, torn: set<string>, id: string)
    requires prj.Sound() && Safe(prj, ids) && id in ids && LoopOk(prj, r, ids, torn)
    ensures var r' := BuildOne(prj, r, id);
      && LoopOk(prj, r', ids, torn) && r'.got + r'.fail == r.got + r.fail + 1 && r.outputs.Keys <= r'.outputs.Keys
      && (r'.got == r.got + 1 <==> Built(r.outputs, id) || Expected(prj, id).Some?)
      && forall other :: Built(r'.outputs, other) <==> Built(r.outputs, other) || (other == id && Buildable(prj, id))
  {
    if !Built(r.outputs, id) {
      BuildsExpected(prj, r.tree, ids, id);
    }
  }

  /** A finished loop: nothing lost, every listed id that can be built is, and every id is counted once. */
  lemma {:induction false} BuildAllOk(prj: Project, r: Result, ids: set<string>, torn: set<string>, listed: seq<string>)
    requires prj.Sound() && Safe(prj, ids) && LoopOk(prj, r, ids, torn)
    requires forall id :: id in listed ==> id in ids
    ensures var r' := BuildAll(prj, r, listed);
      && LoopOk(prj, r', ids, torn) && r'.got + r'.fail == r.got + r.fail + |listed|
      && r.outputs.Keys <= r'.outputs.Keys
      && forall id :: Built(r'.outputs, id) <==> Built(r.outputs, id) || (id in listed && Buildable(prj, id))
  {
    if listed != [] {
      var rest, last := listed[..|listed| - 1], listed[|listed| - 1];
      assert listed == rest + [last];
      BuildAllOk(prj, r, ids, torn, rest);
      BuildOneOk(prj, BuildAll(prj, r, rest), ids, torn, last);
      assert BuildAll(prj, r, listed) == BuildOne(prj, BuildAll(prj, r, rest), last);
    }
  }

  /** The outputs that count: the nonempty ones. */
  function Recorded(outputs: map<string, Bitcode>): map<string, Bitcode> {
    map id | id in outputs && outputs[id] != "" :: outputs[id]
  }

  /** An output that is there, right or torn, is of an id that can be built. */
  lemma BuiltIsBuildable(prj: Project, outputs: map<string, Bitcode>, torn: set<string>, id: string)
    requires OutputsOk(prj, outputs, torn) && Built(outputs, id)
    ensures Buildable(prj, id)
  {
    assert OutputOk(prj, id, outputs[id], id in torn);
  }

  /** Two finished runs that list the same ids, in any order, any number of times, from any trees
      and outputs that earlier interrupted runs over these ids may have left, record the same
      outputs, apart from those that a kill had torn. */
  lemma OrderDoesNotMatter(prj: Project, first: Result, second: Result, ids: set<string>,
                           torn: set<string>, tornToo: set<string>, listed: seq<string>, reordered: seq<string>)
    requires prj.Sound() && Safe(prj, ids)
    requires LoopOk(prj, first, ids, torn) && LoopOk(prj, second, ids, tornToo)
    requires forall id :: id !in listed ==> (Built(first.outputs, id) <==> Built(second.outputs, id))
    requires forall id :: id in listed ==> id in ids
    requires forall id :: id in listed <==> id in reordered
    ensures var a := Recorded(BuildAll(prj, first, listed).outputs);
      var b := Recorded(BuildAll(prj, second, reordered).outputs);
      a.Keys == b.Keys && a - (torn + tornToo) == b - (torn + tornToo)
  {
    BuildAllOk(prj, first, ids, torn, listed);
    BuildAllOk(prj, second, ids, tornToo, reordered);
    var a, b := BuildAll(prj, first, listed).outputs, BuildAll(prj, second, reordered).outputs;
    forall id ensures Built(a, id) <==> Built(b, id) {
      if Built(first.outputs, id) {
        BuiltIsBuildable(prj, first.outputs, torn, id);
      }
      if Built(second.outputs, id) {
        BuiltIsBuildable(prj, second.outputs, tornToo, id);
      }
    }
    SameRecorded(prj, a, b, torn, tornToo);
  }

  lemma SameRecorded(prj: Project, a: map<string, Bitcode>, b: map<string, Bitcode>, torn: set<string>,
                     tornToo: set<string>)
    requires OutputsOk(prj, a, torn) && OutputsOk(prj, b, tornToo) && forall id :: Built(a, id) <==> Built(b, id)
    ensures Recorded(a).Keys == Recorded(b).Keys
    ensures Recorded(a) - (torn + tornToo) == Recorded(b) - (torn + tornToo)
  {
    forall id ensures id in Recorded(a) <==> id in Recorded(b) {
      assert Built(a, id) <==> Built(b, id);
    }
    forall id | Built(a, id) && id !in torn + tornToo ensures a[id] == b[id] {
      assert Built(b, id) && OutputOk(prj, id, a[id], false) && OutputOk(prj, id, b[id], false);
    }
  }

  // ---------- a kill inside the copy of an output ----------

  /** A kill while an output is being copied leaves its first `n` characters.  Any finished later run
      that lists it, next to any other outputs, right or torn, repairs it exactly when nothing or
      everything had been copied. */
  lemma TornOutputRepairedIff(prj: Project, r: Result, ids: set<string>, torn: set<string>, listed: seq<string>,
                              id: string, n: nat)
    requires prj.Sound() && Safe(prj, ids) && TreeOk(prj, r.tree, ids)
    requires id in listed && forall x :: x in listed ==> x in ids
    requires Expected(prj, id).Some? && n <= |Expected(prj, id).value|
    requires id in r.outputs && r.outputs[id] == Expected(prj, id).value[..n] && OutputsOk(prj, r.outputs - {id}, torn)
    ensures var outputs := BuildAll(prj, r, listed).outputs;
      id in outputs && (outputs[id] == Expected(prj, id).value <==> n in {0, |Expected(prj, id).value|})
  {
    var full := Expected(prj, id).value;
    var all := if n in {0, |full|} then torn else torn + {id};
    assert !Built(r.outputs - {id}, id);
    forall other | Built(r.outputs, other) ensures OutputOk(prj, other, r.outputs[other], other in all) {
      if other != id {
        assert Built(r.outputs - {id}, other);
      }
    }
    forall other | other in torn ensures Built(r.outputs, other) {
      assert Built(r.outputs - {id}, other);
    }
    BuildAllOk(prj, r, ids, all, listed);
  }
}
