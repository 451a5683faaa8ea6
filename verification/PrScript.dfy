/**
 The builder itself: a source tree and an output directory changed in place, where a kill may
 come inside any command.
 */
module PrScript {
  import opened Wrappers
  import opened PrBuilder
  import opened PrIsolation

  /** How one call of the script ends. */
  datatype Ending = Finished | NoBaseline | Killed

  /** A kill inside an edit leaves no strays but those its pull request would leave. */
  lemma KilledEditTreeOk(prj: Project, t: Tree, ids: set<string>, id: string, left: Tree)
    requires TreeOk(prj, t, ids) && id in ids && prj.Strays(left) <= prj.Strays(t) + Leaves(prj, id)
    ensures TreeOk(prj, left, ids)
  {
    forall path | path in prj.Strays(left) && path !in prj.Strays(t) ensures path in Leaves(prj, id) {}
  }

  /** Files copied from a head add no strays but those among them. */
  lemma CopiedStrays(prj: Project, t: Tree, files: seq<Path>, head: Tree)
    ensures prj.Strays(CopyFiles(t, files, head)) <= prj.Strays(t) + New(prj, files, head)
  {
    CopyFilesExact(t, files, head);
  }

  /** The kept untracked source files among those of a list that a head has. */
  function New(prj: Project, files: seq<Path>, head: Tree): set<Path> {
    set path | path in files && path in head && path !in prj.base && prj.Kept(path) && !prj.product(path)
  }

  /** A kill inside the copy of an output has left its first so many characters, or has come before it. */
  ghost predicate KilledCopy(before: map<string, Bitcode>, tornBefore: set<string>, id: string,
                             bitcode: Option<Bitcode>, after: map<string, Bitcode>, tornAfter: set<string>) {
    (after == before && tornAfter == tornBefore) ||
    (bitcode.Some? && exists n :: CopyLeft(before, tornBefore, id, bitcode.value, n, after, tornAfter))
  }

  ghost predicate CopyLeft(before: map<string, Bitcode>, tornBefore: set<string>, id: string, full: Bitcode, n: int,
                           after: map<string, Bitcode>, tornAfter: set<string>) {
    && 0 <= n <= |full| && after == before[id := full[..n]]
    && tornAfter == if n in {0, |full|} then tornBefore else tornBefore + {id}
  }

  /** What is left is right, missing or torn. */
  lemma KilledCopyOk(prj: Project, before: map<string, Bitcode>, tornBefore: set<string>, id: string,
                     after: map<string, Bitcode>, tornAfter: set<string>)
    requires OutputsOk(prj, before, tornBefore) && !Built(before, id)
    requires KilledCopy(before, tornBefore, id, Expected(prj, id), after, tornAfter)
    ensures OutputsOk(prj, after, tornAfter)
    ensures forall other :: other != id ==> (Built(after, other) <==> Built(before, other))
  {
    if after != before || tornAfter != tornBefore {
      var full := Expected(prj, id).value;
      var n :| CopyLeft(before, tornBefore, id, full, n, after, tornAfter);
      assert full[..|full|] == full;
      forall other | Built(after, other) && other != id ensures OutputOk(prj, other, after[other], other in tornAfter) {
        assert Built(before, other);
      }
    }
  }

  /** A turn that does something, spelled out. */
  lemma OneTurn(prj: Project, t: Tree, outputs: map<string, Bitcode>, id: string)
    requires !Built(outputs, id)
    ensures var (edited, ok) := ApplyEdit(prj, Reset(prj, t), id);
      BuildOne(prj, Result(t, outputs, 0, 0), id) ==
        if !ok then Result(edited, outputs, 0, 1)
        else if prj.build(edited).None? then Result(prj.after(edited), outputs, 0, 1)
        else Result(prj.after(edited), outputs[id := prj.build(edited).value], 1, 0)
  {}

  /** The edit applies, and its build succeeds. */
  predicate Succeeds(prj: Project, id: string) {
    Expected(prj, id).Some?
  }

  /** The positions at which the edit and its build succeed. */
  function Succeeding(prj: Project, listed: seq<string>): set<nat> {
    set i: nat | i < |listed| && Succeeds(prj, listed[i])
  }

  function Positions(p: nat -> bool, n: nat): set<nat> {
    set i: nat | i < n && p(i)
  }

  lemma OneMorePosition(p: nat -> bool, n: nat)
    ensures |Positions(p, n + 1)| == |Positions(p, n)| + if p(n) then 1 else 0
  {
    assert Positions(p, n + 1) == if p(n) then Positions(p, n) + {n} else Positions(p, n);
  }

  lemma SucceedingPlus(prj: Project, rest: seq<string>, last: string)
    ensures |Succeeding(prj, rest + [last])| == |Succeeding(prj, rest)| + if Succeeds(prj, last) then 1 else 0
  {
    var p := (i: nat) => i <= |rest| && Succeeds(prj, (rest + [last])[i]);
    OneMorePosition(p, |rest|);
    assert Positions(p, |rest|) == Succeeding(prj, rest);
    assert Positions(p, |rest| + 1) == Succeeding(prj, rest + [last]);
  }

  /** An id is counted as built exactly when its edit applies and its build succeeds, now or before. */
  lemma CountedIff(prj: Project, r: Result, ids: set<string>, torn: set<string>, id: string)
    requires prj.Sound() && Safe(prj, ids) && id in ids && LoopOk(prj, r, ids, torn)
    ensures BuildOne(prj, r, id).got == r.got + if Succeeds(prj, id) then 1 else 0
  {
    BuildOneOk(prj, r, ids, torn, id);
    if Built(r.outputs, id) {
      BuiltIsBuildable(prj, r.outputs, torn, id);
    }
  }

  lemma {:induction false} AllCounted(prj: Project, r: Result, ids: set<string>, torn: set<string>, listed: seq<string>)
    requires prj.Sound() && Safe(prj, ids) && LoopOk(prj, r, ids, torn)
    requires forall id :: id in listed ==> id in ids
    ensures BuildAll(prj, r, listed).got == r.got + |Succeeding(prj, listed)|
  {
    if listed != [] {
      var rest, last := listed[..|listed| - 1], listed[|listed| - 1];
      assert listed == rest + [last];
      AllCounted(prj, r, ids, torn, rest);
      BuildAllOk(prj, r, ids, torn, rest);
      CountedIff(prj, BuildAll(prj, r, rest), ids, torn, last);
      SucceedingPlus(prj, rest, last);
      assert BuildAll(prj, r, listed) == BuildOne(prj, BuildAll(prj, r, rest), last);
    }
  }

  class Builder {
    const prj: Project
    var tree: Tree
    var baseline: Bitcode                 // old.bc, empty when missing
    var outputs: map<string, Bitcode>     // the pr-*.bc files
    var clock: nat                        // the commands begun so far
    const dies: nat -> bool               // which of them a kill interrupts
    ghost var torn: set<string>           // the outputs that are as a kill inside their copy left them
    ghost var baselineTorn: bool          // so is old.bc
    ghost const ids: set<string>          // every id that is ever listed

    ghost predicate Valid()
      reads this
    {
      && prj.Sound() && Safe(prj, ids)
      && TreeOk(prj, tree, ids) && OutputsOk(prj, outputs, torn) && BaselineOk()
    }

    /** old.bc is the build of the baseline itself, or what a kill inside its copy left of that, and was
        made before any edit was applied (unless that build counts as missing because it is empty). */
    ghost predicate BaselineOk()
      reads this
    {
      prj.build(prj.base) != Some("") ==>
        if baseline == "" then prj.Strays(tree) == {}
        else prj.build(prj.base).Some? &&
             if baselineTorn then baseline < prj.build(prj.base).value else baseline == prj.build(prj.base).value
    }

    /** Alive exactly if no command begun since then has been interrupted. */
    ghost predicate Lives(since: nat, alive: bool)
      reads this`clock
    {
      since <= clock && (alive <==> forall k :: since <= k < clock ==> !dies(k))
    }

    constructor (prj: Project, tree: Tree, dies: nat -> bool, ghost ids: set<string>)
      requires prj.Sound() && Safe(prj, ids) && prj.Strays(tree) == {}
      ensures Valid() && this.prj == prj && this.tree == tree && this.dies == dies && this.ids == ids
      ensures outputs == map[] && baseline == "" && torn == {}
    {
      this.prj, this.tree, this.dies, this.ids := prj, tree, dies, ids;
      clock := 0;
      baseline, outputs, torn, baselineTorn := "", map[], {}, false;
    }

    /** The next command begins; it comes to its end unless a kill interrupts it. */
    method Survives() returns (alive: bool)
      modifies this`clock
      ensures clock == old(clock) + 1 && (alive <==> !dies(old(clock)))
    {
      alive := !dies(clock);
      clock := clock + 1;
    }

    /** A kill inside a command that may write the strays `written`, restores tracked files, removes
        untracked ones or makes products: any tree may be left, but no other stray. */
    method Die(written: set<Path>)
      modifies this`tree
      ensures prj.Strays(tree) <= prj.Strays(old(tree)) + written
    {
      var left: Tree := *;
      if prj.Strays(left) <= prj.Strays(tree) + written {
        tree := left;
      }
    }

    /** Lines 388-389. */
    method ResetTree() returns (alive: bool)
      modifies this`tree, this`clock
      ensures prj.Strays(tree) <= prj.Strays(old(tree))
      ensures alive ==> tree == Reset(prj, old(tree))
      ensures Lives(old(clock), alive)
    {
      ResetForeign(prj, tree);
      alive := Survives();
      if alive {
        tree := Reset(prj, tree);
      } else {
        Die({});
      }
    }

    /** Lines 305-322 for a fetched pull request: the copy loop with its flag. */
    method CopyPrFiles(files: seq<Path>, head: Tree) returns (alive: bool, ok: bool)
      modifies this`tree, this`clock
      ensures alive ==> tree == CopyFiles(old(tree), files, head) && ok == AnyIn(files, head)
      ensures prj.Strays(tree) <= prj.Strays(old(tree)) + New(prj, files, head)
      ensures Lives(old(clock), alive)
    {
      alive, ok := true, false;
      for i := 0 to |files|
        invariant tree == CopyFiles(old(tree), files[..i], head) && alive && Lives(old(clock), true)
        invariant ok == AnyIn(files[..i], head)
      {
        assert files[..i + 1][..i] == files[..i] && files[..i + 1] == files[..i] + [files[i]];
        if files[i] in head {
          alive := Survives();
          if !alive {
            CopiedStrays(prj, old(tree), files[..i], head);
            Die(New(prj, [files[i]], head));
            return;
          }
          tree := tree[files[i] := head[files[i]]];
          ok := true;
        }
      }
      assert files[..|files|] == files;
      CopiedStrays(prj, old(tree), files, head);
    }

    /** Lines 391-397: the edit of one id, synthetic or fetched. */
    method Edit(id: string) returns (alive: bool, ok: bool)
      requires prj.TouchesFiles()
      modifies this`tree, this`clock
      ensures alive ==> (tree, ok) == ApplyEdit(prj, old(tree), id)
      ensures prj.Strays(tree) <= prj.Strays(old(tree)) + Leaves(prj, id)
      ensures Lives(old(clock), alive)
    {
      match prj.edit(id) {
        case PullRequest(fetched, changed, head) =>
          alive, ok := true, false;
          if fetched {
            assert New(prj, Sources(changed), head) == Leaves(prj, id);
            alive, ok := CopyPrFiles(Sources(changed), head);
          }
        case Synthetic(index) =>
          var edited := prj.touch(index, tree);
          alive, ok := true, edited.Some?;
          if ok {
            alive := Survives();
            if alive {
              tree := tree[edited.value.0 := edited.value.1];
            } else {
              Die({});
            }
          }
      }
    }

    /** The build. */
    method RunBuild() returns (alive: bool, bitcode: Option<Bitcode>)
      requires prj.Sound()
      modifies this`tree, this`clock
      ensures prj.Strays(tree) <= prj.Strays(old(tree))
      ensures alive ==> tree == prj.after(old(tree)) && bitcode == prj.build(old(tree))
      ensures Lives(old(clock), alive)
    {
      bitcode := None;
      alive := Survives();
      if !alive {
        Die({});
        return;
      }
      bitcode := prj.build(tree);
      assert prj.Strays(prj.after(tree)) == prj.Strays(tree);
      tree := prj.after(tree);
    }

    /** Lines 399-404: the build, and the copy of its result; a kill inside the copy leaves the first
        so many characters of it. */
    method Build(id: string) returns (alive: bool, ok: bool)
      requires prj.Sound() && !Built(outputs, id) && id !in torn
      modifies this`tree, this`outputs, this`torn, this`clock
      ensures prj.Strays(tree) <= prj.Strays(old(tree))
      ensures alive ==> tree == prj.after(old(tree)) && ok == prj.build(old(tree)).Some? && torn == old(torn)
      ensures alive ==> outputs == if ok then old(outputs)[id := prj.build(old(tree)).value] else old(outputs)
      ensures !alive ==> KilledCopy(old(outputs), old(torn), id, prj.build(old(tree)), outputs, torn)
      ensures Lives(old(clock), alive)
    {
      var bitcode;
      alive, bitcode := RunBuild();
      ok := alive && bitcode.Some?;
      if ok {
        ghost var before, tornBefore := outputs, torn;
        var full := bitcode.value;
        var n :| 0 <= n <= |full|;
        alive := Survives();
        ok := alive;
        if alive {
          outputs := outputs[id := full];
        } else {
          outputs := outputs[id := full[..n]];
          torn := if n in {0, |full|} then torn else torn + {id};
          assert CopyLeft(before, tornBefore, id, full, n, outputs, torn);
        }
      }
    }

    /** Lines 391-405, on the tree that a reset of `t` has left. */
    method EditAndBuild(id: string, ghost t: Tree) returns (alive: bool, ok: bool)
      requires prj.Sound() && Safe(prj, ids) && TreeOk(prj, t, ids) && id in ids && tree == Reset(prj, t)
      requires OutputsOk(prj, outputs, torn) && !Built(outputs, id)
      modifies this`tree, this`outputs, this`torn, this`clock
      ensures TreeOk(prj, tree, ids)
      ensures alive ==> torn == old(torn)
      ensures alive ==> BuildOne(prj, Result(t, old(outputs), 0, 0), id) ==
                        Result(tree, outputs, if ok then 1 else 0, if ok then 0 else 1)
      ensures !alive ==> KilledCopy(old(outputs), old(torn), id, Expected(prj, id), outputs, torn)
      ensures Lives(old(clock), alive)
    {
      BuildsExpected(prj, t, ids, id);
      ResetForeign(prj, t);
      OneTurn(prj, t, outputs, id);
      alive, ok := Edit(id);
      KilledEditTreeOk(prj, t, ids, id, tree);
      if !alive || !ok { return; }
      ghost var edited := tree;
      alive, ok := Build(id);
      KilledEditTreeOk(prj, edited, ids, id, tree);
    }

    /** One turn of the PR loop, lines 381-405. */
    method Turn(id: string) returns (alive: bool, ok: bool)
      requires Valid() && HasBaseline() && id in ids
      modifies this`tree, this`outputs, this`torn, this`clock
      ensures Valid() && (alive ==> torn == old(torn))
      ensures forall other :: other != id ==> (Built(outputs, other) <==> Built(old(outputs), other))
      ensures alive ==> BuildOne(prj, Result(old(tree), old(outputs), 0, 0), id) ==
                        Result(tree, outputs, if ok then 1 else 0, if ok then 0 else 1)
      ensures Lives(old(clock), alive)
    {
      alive, ok := true, true;
      if Built(outputs, id) { return; }
      ghost var before, tornBefore := outputs, torn;
      BuildOneOk(prj, Result(tree, outputs, 0, 0), ids, torn, id);
      ghost var used := tree;
      alive := ResetTree();
      if !alive {
        KilledEditTreeOk(prj, used, ids, id, tree);
        return;
      }
      alive, ok := EditAndBuild(id, used);
      if !alive {
        KilledCopyOk(prj, before, tornBefore, id, outputs, torn);
      }
    }

    ghost predicate HasBaseline()
      reads this
    {
      prj.build(prj.base) != Some("") ==> baseline != ""
    }

    /** Line 368: the reset before the baseline's build keeps only ignored files. */
    method ResetToBaseline() returns (alive: bool)
      modifies this`tree, this`clock
      ensures prj.Strays(tree) <= prj.Strays(old(tree))
      ensures alive && prj.Strays(old(tree)) == {} ==> IsBaseWithProducts(prj, tree)
      ensures Lives(old(clock), alive)
    {
      alive := Survives();
      if !alive {
        Die({});
        return;
      }
      tree := map path | path in prj.base.Keys + prj.Foreign(tree) && (path in prj.base || prj.ignored(path))
                       :: if path in prj.base then prj.base[path] else tree[path];
      OnlyKept(old(tree), tree);
    }

    lemma OnlyKept(before: Tree, after: Tree)
      requires forall path :: path in after <==> path in prj.base || (path in before && prj.ignored(path))
      requires forall path :: path in prj.base ==> after[path] == prj.base[path]
      ensures prj.Strays(after) <= prj.Strays(before)
      ensures prj.Strays(before) == {} ==> IsBaseWithProducts(prj, after)
    {
      forall path | path in after && path !in prj.base && prj.Strays(before) == {} ensures prj.product(path) {
        assert path !in prj.Strays(before);
      }
    }

    /** Products do not show in the baseline's build. */
    lemma BaselineBuild(t: Tree)
      requires prj.Sound() && IsBaseWithProducts(prj, t)
      ensures prj.build(t) == prj.build(prj.base)
    {
      assert prj.Source(t) == prj.Source(prj.base);
    }

    /** What a finished call makes of old.bc: it is the whole build of the baseline exactly when the call
        found nothing or that. */
    ghost predicate BaselineKept(before: Bitcode)
      reads this`baseline
    {
      && baseline != ""
      && (before != "" ==> baseline == before)
      && (Some(baseline) == prj.build(prj.base) <==> before == "" || Some(before) == prj.build(prj.base))
    }

    /** Lines 368-369: the build of the baseline. */
    method BuildClean() returns (alive: bool, bitcode: Option<Bitcode>)
      requires Valid() && baseline == ""
      modifies this`tree, this`clock
      ensures Valid()
      ensures alive && prj.build(prj.base) != Some("") ==> bitcode == prj.build(prj.base)
      ensures Lives(old(clock), alive)
    {
      bitcode := None;
      alive := ResetToBaseline();
      if !alive { return; }
      ghost var clean := tree;
      alive, bitcode := RunBuild();
      if alive && prj.build(prj.base) != Some("") {
        BaselineBuild(clean);
      }
    }

    /** Lines 366-372: old.bc, built once. */
    method BuildBaseline() returns (ending: Ending)
      requires Valid()
      modifies this`tree, this`baseline, this`baselineTorn, this`clock
      ensures Valid()
      ensures ending == Finished ==> HasBaseline()
      ensures ending == NoBaseline ==> prj.build(prj.base).None? || prj.build(prj.base) == Some("")
      ensures old(baseline) != "" ==> baseline == old(baseline)
      ensures ending == Finished && prj.build(prj.base) != Some("") ==> BaselineKept(old(baseline))
      ensures Lives(old(clock), ending != Killed)
    {
      if baseline != "" {
        return Finished;
      }
      var alive, bitcode := BuildClean();
      if !alive {
        return Killed;
      }
      if bitcode.None? {
        return NoBaseline;
      }
      var full := bitcode.value;
      var n :| 0 <= n <= |full|;
      alive := Survives();
      if !alive {
        baseline, baselineTorn := full[..n], n < |full|;
        assert full[..|full|] == full;
        return Killed;
      }
      baseline, baselineTorn := full, false;
      return Finished;
    }

    /** The PR loop with its two counters, lines 380-406: a finished one is the loop as a function, it has
        counted the ids that apply and build, and has recorded those of them that were not yet. */
    method BuildListed(listed: seq<string>) returns (alive: bool, got: nat, fail: nat)
      requires Valid() && HasBaseline() && forall id :: id in listed ==> id in ids
      modifies this`tree, this`outputs, this`torn, this`clock
      ensures Valid() && (alive ==> torn == old(torn))
      ensures forall id :: Built(outputs, id) ==> Built(old(outputs), id) || id in listed
      ensures alive ==>
        Result(tree, outputs, got, fail) == BuildAll(prj, Result(old(tree), old(outputs), 0, 0), listed)
      ensures alive ==> got == |Succeeding(prj, listed)| && got + fail == |listed|
      ensures alive ==>
        forall id :: Built(outputs, id) <==> Built(old(outputs), id) || (id in listed && Buildable(prj, id))
      ensures Lives(old(clock), alive)
    {
      alive, got, fail := true, 0, 0;
      ghost var begun := Result(tree, outputs, 0, 0);
      for i := 0 to |listed|
        invariant Valid() && HasBaseline() && alive && Lives(old(clock), true) && torn == old(torn)
        invariant Result(tree, outputs, got, fail) == BuildAll(prj, begun, listed[..i])
        invariant forall id :: Built(outputs, id) ==> Built(old(outputs), id) || id in listed
      {
        assert listed[..i + 1][..i] == listed[..i];
        ghost var before := Result(tree, outputs, got, fail);
        var ok;
        alive, ok := Turn(listed[i]);
        if !alive { return; }
        if ok { got := got + 1; } else { fail := fail + 1; }
        CountersShift(prj, before, listed[i]);
      }
      assert listed[..|listed|] == listed;
      BuildAllOk(prj, begun, ids, torn, listed);
      AllCounted(prj, begun, ids, torn, listed);
    }

    /** Lines 355-407: the baseline, then the PR loop. */
    method DoProject(listed: seq<string>, onlyOld: bool) returns (ending: Ending, got: nat, fail: nat)
      requires Valid() && forall id :: id in listed ==> id in ids
      modifies this
      ensures Valid()
      ensures forall id :: Built(outputs, id) ==> Built(old(outputs), id) || id in listed
      ensures ending != Killed ==> torn == old(torn)
      ensures ending == Finished && !onlyOld ==>
        got == |set i: nat | i < |listed| && Succeeds(prj, listed[i])| && got + fail == |listed|
      ensures ending == Finished && !onlyOld ==>
        forall id :: Built(outputs, id) <==> Built(old(outputs), id) || (id in listed && Buildable(prj, id))
      ensures ending == NoBaseline || onlyOld ==> outputs == old(outputs)
      ensures old(baseline) != "" ==> baseline == old(baseline)
      ensures ending == Finished && prj.build(prj.base) != Some("") ==> BaselineKept(old(baseline))
      ensures Lives(old(clock), ending != Killed)
    {
      got, fail := 0, 0;
      ending := BuildBaseline();
      if ending != Finished || onlyOld { return; }
      var alive;
      alive, got, fail := BuildListed(listed);
      if !alive {
        ending := Killed;
      }
      assert Succeeding(prj, listed) == set i: nat | i < |listed| && Succeeds(prj, listed[i]);
    }
  }

  /** The counters do not influence a turn. */
  lemma CountersShift(prj: Project, r: Result, id: string)
    ensures var one, all := BuildOne(prj, r.(got := 0, fail := 0), id), BuildOne(prj, r, id);
      all == one.(got := r.got + one.got, fail := r.fail + one.fail)
  {}

  /** Any number of calls listing the same ids, each in its own order and killed anywhere, then
      one that finishes: there is an output for exactly the edits that apply and build, and it is the
      build of the baseline overlaid with the edit, or, where a kill came inside its copy, a proper
      prefix of that.  A nonempty old.bc, whole or torn, stays as it is. */
  method Resume(b: Builder, attempts: seq<seq<string>>, last: seq<string>) returns (ending: Ending)
    requires b.Valid() && b.outputs == map[] && forall id :: id in last ==> id in b.ids
    requires forall listed :: listed in attempts ==> forall id :: id in listed ==> id in last
    modifies b
    ensures b.Valid()
    ensures old(b.baseline) != "" ==> b.baseline == old(b.baseline)
    ensures (forall k :: !b.dies(k)) ==> ending != Killed
    ensures ending == Finished ==> forall id :: Built(b.outputs, id) <==> id in last && Buildable(b.prj, id)
    ensures forall id :: Built(b.outputs, id) ==>
      if id in b.torn then b.outputs[id] < Expected(b.prj, id).value else Expected(b.prj, id) == Some(b.outputs[id])
  {
    for n := 0 to |attempts|
      invariant b.Valid() && forall id :: Built(b.outputs, id) ==> id in last
      invariant old(b.baseline) != "" ==> b.baseline == old(b.baseline)
    {
      assert attempts[n] in attempts;
      var _, _, _ := b.DoProject(attempts[n], false);
    }
    var got, fail;
    ending, got, fail := b.DoProject(last, false);
  }
}
