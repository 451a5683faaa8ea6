/** Lists made of one result for each element of another list that gives one, in order. */
module Sublists {

  /** `at` names, in order, the elements of `s` that give a result, and `out` lists their results. */
  ghost predicate IsSublist<A, R(!new)>(out: seq<R>, s: seq<A>, gives: (A, R) -> bool, at: seq<nat>) {
    && |at| == |out|
    && (forall k :: 0 <= k < |at| ==> at[k] < |s| && gives(s[at[k]], out[k]))
    && (forall j, k :: 0 <= j < k < |at| ==> at[j] < at[k])
    && (forall i: nat, r :: i < |s| && gives(s[i], r) ==> i in at)
  }

  /** `out` lists, in order, one result for each element of `s` that gives one. */
  ghost predicate Sublist<A, R(!new)>(out: seq<R>, s: seq<A>, gives: (A, R) -> bool) {
    exists at :: IsSublist(out, s, gives, at)
  }

  /** An element gives no more than one result. */
  ghost predicate GivesOne<A(!new), R(!new)>(gives: (A, R) -> bool) {
    forall a, r, r' :: gives(a, r) && gives(a, r') ==> r == r'
  }

  lemma SublistOfNone<A, R(!new)>(gives: (A, R) -> bool)
    ensures Sublist([], [], gives)
  {
    assert IsSublist([], [], gives, []);
  }

  lemma PlaceAdded<A, R(!new)>(out: seq<R>, s: seq<A>, gives: (A, R) -> bool, at: seq<nat>, a: A, r: R)
    requires IsSublist(out, s, gives, at) && gives(a, r)
    ensures IsSublist(out + [r], s + [a], gives, at + [|s|])
  {
    var out', s', at' := out + [r], s + [a], at + [|s|];
    assert forall k :: 0 <= k < |at| ==> at[k] < |s| && s'[at[k]] == s[at[k]] && gives(s[at[k]], out[k]);
    forall i: nat, x | i < |s'| && gives(s'[i], x) ensures i in at' {
      if i < |s| {
        assert s'[i] == s[i] && i in at;
      } else {
        assert at'[|at|] == i;
      }
    }
  }

  /** One more element that gives a result. */
  lemma SublistGives<A, R(!new)>(out: seq<R>, s: seq<A>, gives: (A, R) -> bool, a: A, r: R)
    requires Sublist(out, s, gives) && gives(a, r)
    ensures Sublist(out + [r], s + [a], gives)
  {
    var at :| IsSublist(out, s, gives, at);
    PlaceAdded(out, s, gives, at, a, r);
  }

  /** One more element that gives none. */
  lemma SublistSkips<A, R(!new)>(out: seq<R>, s: seq<A>, gives: (A, R) -> bool, a: A)
    requires Sublist(out, s, gives) && forall r :: !gives(a, r)
    ensures Sublist(out, s + [a], gives)
  {
    var at :| IsSublist(out, s, gives, at);
    forall i: nat, x | i < |s + [a]| && gives((s + [a])[i], x) ensures i in at {
      assert i < |s| && s[i] == (s + [a])[i];
    }
    assert IsSublist(out, s + [a], gives, at);
  }

  /** The list is determined by the elements and what they give. */
  lemma {:induction false} SublistIsUnique<A(!new), R(!new)>(out: seq<R>, other: seq<R>, s: seq<A>,
                                                                  gives: (A, R) -> bool)
    requires Sublist(out, s, gives) && Sublist(other, s, gives) && GivesOne(gives)
    ensures out == other
  {
    var at :| IsSublist(out, s, gives, at);
    var at' :| IsSublist(other, s, gives, at');
    SamePositions(at, at');
    forall k | 0 <= k < |out| ensures |other| == |out| && out[k] == other[k] {}
  }

  ghost predicate Ascends(at: seq<nat>) {
    forall j, k :: 0 <= j < k < |at| ==> at[j] < at[k]
  }

  lemma {:induction false} SamePositions(at: seq<nat>, other: seq<nat>)
    requires Ascends(at) && Ascends(other) && forall i :: i in at <==> i in other
    ensures at == other
  {
    if |at| > 0 {
      LastIsGreatest(at, 0);
    }
    if |other| > 0 {
      LastIsGreatest(other, 0);
    }
    if at != [] && other != [] {
      var n, m := |at| - 1, |other| - 1;
      LastIsGreatest(at, other[m]);
      LastIsGreatest(other, at[n]);
      assert at[n] == other[m];
      forall i ensures i in at[..n] <==> i in other[..m] {
        assert i in at[..n] <==> i in at && i != at[n];
        assert i in other[..m] <==> i in other && i != other[m];
      }
      SamePositions(at[..n], other[..m]);
      assert at == at[..n] + [at[n]] && other == other[..m] + [other[m]];
    }
  }

  lemma LastIsGreatest(at: seq<nat>, i: nat)
    requires Ascends(at) && at != []
    ensures i in at ==> i <= at[|at| - 1]
    ensures at[|at| - 1] in at
  {}
}
