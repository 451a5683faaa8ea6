/** Python's stable sort by a key order, and counting that ignores order. */
module Sorting {

  ghost predicate TotalPreorder<T(!new)>(leq: (T, T) -> bool) {
    && (forall x, y :: leq(x, y) || leq(y, x))
    && (forall x, y, z :: leq(x, y) && leq(y, z) ==> leq(x, z))
  }

  ghost predicate Sorted<T>(s: seq<T>, leq: (T, T) -> bool) {
    forall i, j :: 0 <= i < j < |s| ==> leq(s[i], s[j])
  }

  /** Puts `x` behind the last element that does not exceed it. */
  function Insert<T>(s: seq<T>, x: T, leq: (T, T) -> bool): seq<T> {
    if s == [] || leq(s[|s| - 1], x) then s + [x]
    else Insert(s[..|s| - 1], x, leq) + [s[|s| - 1]]
  }

  function Sort<T>(s: seq<T>, leq: (T, T) -> bool): seq<T> {
    if s == [] then [] else Insert(Sort(s[..|s| - 1], leq), s[|s| - 1], leq)
  }

  lemma LastSplit<T>(s: seq<T>)
    requires s != []
    ensures s == s[..|s| - 1] + [s[|s| - 1]] && multiset(s) == multiset(s[..|s| - 1]) + multiset{s[|s| - 1]}
  {
    assert s == s[..|s| - 1] + [s[|s| - 1]];
  }

  lemma {:induction false} InsertAdds<T>(s: seq<T>, x: T, leq: (T, T) -> bool)
    ensures multiset(Insert(s, x, leq)) == multiset(s) + multiset{x}
  {
    if s != [] && !leq(s[|s| - 1], x) {
      InsertAdds(s[..|s| - 1], x, leq);
      LastSplit(s);
    }
  }

  lemma SortedPlus<T>(s: seq<T>, x: T, leq: (T, T) -> bool)
    requires Sorted(s, leq) && forall y :: y in s ==> leq(y, x)
    ensures Sorted(s + [x], leq)
  {}

  lemma {:induction false} InsertSorted<T(!new)>(s: seq<T>, x: T, leq: (T, T) -> bool)
    requires TotalPreorder(leq) && Sorted(s, leq)
    ensures Sorted(Insert(s, x, leq), leq)
  {
    if s == [] {
    } else if leq(s[|s| - 1], x) {
      forall y | y in s ensures leq(y, x) {
        LastIsGreatest(s, y, leq);
      }
      SortedPlus(s, x, leq);
    } else {
      var rest, last := s[..|s| - 1], s[|s| - 1];
      InsertSorted(rest, x, leq);
      InsertAdds(rest, x, leq);
      forall y | y in Insert(rest, x, leq) ensures leq(y, last) {
        assert y in multiset(rest) + multiset{x};
        if y != x {
          assert y in s;
          LastIsGreatest(s, y, leq);
        }
      }
      SortedPlus(Insert(rest, x, leq), last, leq);
    }
  }

  lemma LastIsGreatest<T(!new)>(s: seq<T>, x: T, leq: (T, T) -> bool)
    requires TotalPreorder(leq) && Sorted(s, leq) && x in s
    ensures s != [] && leq(x, s[|s| - 1])
  {
    var i :| 0 <= i < |s| && s[i] == x;
    assert i == |s| - 1 || leq(s[i], s[|s| - 1]);
  }

  /** The result is sorted and a permutation. */
  lemma {:induction false} SortSorts<T(!new)>(s: seq<T>, leq: (T, T) -> bool)
    requires TotalPreorder(leq)
    ensures Sorted(Sort(s, leq), leq) && multiset(Sort(s, leq)) == multiset(s) && |Sort(s, leq)| == |s|
  {
    if s != [] {
      SortSorts(s[..|s| - 1], leq);
      InsertSorted(Sort(s[..|s| - 1], leq), s[|s| - 1], leq);
      InsertAdds(Sort(s[..|s| - 1], leq), s[|s| - 1], leq);
      LastSplit(s);
    }
    assert |multiset(Sort(s, leq))| == |multiset(s)|;
  }

  // ---------- stability ----------

  /** The elements that the order does not tell from `x`, in sequence. */
  function Ties<T>(s: seq<T>, x: T, leq: (T, T) -> bool): seq<T> {
    if s == [] then []
    else
      var y := s[|s| - 1];
      Ties(s[..|s| - 1], x, leq) + if leq(x, y) && leq(y, x) then [y] else []
  }

  lemma TiesPlus<T>(s: seq<T>, y: T, x: T, leq: (T, T) -> bool)
    ensures Ties(s + [y], x, leq) == Ties(s, x, leq) + if leq(x, y) && leq(y, x) then [y] else []
  {
    assert (s + [y])[..|s|] == s;
  }

  /** Inserting keeps equals in order: the new element comes last among them. */
  lemma {:induction false} InsertKeepsTies<T(!new)>(s: seq<T>, y: T, x: T, leq: (T, T) -> bool)
    requires TotalPreorder(leq) && Sorted(s, leq)
    ensures Ties(Insert(s, y, leq), x, leq) == Ties(s, x, leq) + if leq(x, y) && leq(y, x) then [y] else []
  {
    if s == [] || leq(s[|s| - 1], y) {
      TiesPlus(s, y, x, leq);
    } else {
      var rest, last := s[..|s| - 1], s[|s| - 1];
      InsertKeepsTies(rest, y, x, leq);
      TiesPlus(Insert(rest, y, leq), last, x, leq);
      if leq(x, y) && leq(y, x) {
        assert !leq(last, x);
      }
    }
  }

  /** Sorting keeps elements with equal keys in their original order. */
  lemma {:induction false} SortIsStable<T(!new)>(s: seq<T>, x: T, leq: (T, T) -> bool)
    requires TotalPreorder(leq)
    ensures Ties(Sort(s, leq), x, leq) == Ties(s, x, leq)
  {
    if s != [] {
      SortIsStable(s[..|s| - 1], x, leq);
      SortSorts(s[..|s| - 1], leq);
      InsertKeepsTies(Sort(s[..|s| - 1], leq), s[|s| - 1], x, leq);
    }
  }

  // ---------- uniqueness ----------

  lemma Cancel<T>(a: multiset<T>, b: multiset<T>, x: T)
    requires a + multiset{x} == b + multiset{x}
    ensures a == b
  {
    assert a == a + multiset{x} - multiset{x};
    assert b == b + multiset{x} - multiset{x};
  }

  /** Two sorted permutations of each other are equal when elements with equal keys are equal. */
  lemma {:induction false} SortedUnique<T(!new)>(a: seq<T>, b: seq<T>, leq: (T, T) -> bool)
    requires TotalPreorder(leq) && Sorted(a, leq) && Sorted(b, leq) && multiset(a) == multiset(b)
    requires forall x, y :: x in a && y in a && leq(x, y) && leq(y, x) ==> x == y
    ensures a == b
  {
    assert |a| == |multiset(a)| == |multiset(b)| == |b|;
    if a != [] {
      var last := |a| - 1;
      SameLast(a, b, leq);
      LastSplit(a);
      LastSplit(b);
      Cancel(multiset(a[..last]), multiset(b[..last]), a[last]);
      SortedUnique(a[..last], b[..last], leq);
    }
  }

  lemma SameLast<T(!new)>(a: seq<T>, b: seq<T>, leq: (T, T) -> bool)
    requires TotalPreorder(leq) && Sorted(a, leq) && Sorted(b, leq) && multiset(a) == multiset(b)
    requires a != [] && |a| == |b|
    requires forall x, y :: x in a && y in a && leq(x, y) && leq(y, x) ==> x == y
    ensures a[|a| - 1] == b[|b| - 1]
  {
    var x, y := a[|a| - 1], b[|b| - 1];
    assert x in multiset(a) && y in multiset(b);
    LastIsGreatest(a, y, leq);
    LastIsGreatest(b, x, leq);
  }

  // ---------- counting ----------

  function Count<T>(s: seq<T>, p: T -> bool): nat {
    if s == [] then 0 else Count(s[..|s| - 1], p) + if p(s[|s| - 1]) then 1 else 0
  }

  /** The count is the number of positions. */
  lemma {:induction false} CountIsSize<T>(s: seq<T>, p: T -> bool)
    ensures Count(s, p) == |set i: nat | i < |s| && p(s[i])|
  {
    if s != [] {
      var n := |s| - 1;
      CountIsSize(s[..n], p);
      var before := set i: nat | i < n && p(s[..n][i]);
      assert (set i: nat | i < |s| && p(s[i])) == if p(s[n]) then before + {n} else before;
    }
  }

  lemma {:induction false} CountAppend<T>(a: seq<T>, b: seq<T>, p: T -> bool)
    ensures Count(a + b, p) == Count(a, p) + Count(b, p)
  {
    if b == [] {
      assert a + b == a;
    } else {
      CountAppend(a, b[..|b| - 1], p);
      assert (a + b)[..|a + b| - 1] == a + b[..|b| - 1];
    }
  }

  function Without<T>(s: seq<T>, i: nat): seq<T>
    requires i < |s|
  {
    s[..i] + s[i + 1..]
  }

  lemma Parts<T>(s: seq<T>, i: nat)
    requires i < |s|
    ensures s == (s[..i] + [s[i]]) + s[i + 1..]
  {}

  lemma MultisetWithout<T>(s: seq<T>, i: nat)
    requires i < |s|
    ensures multiset(s) == multiset(Without(s, i)) + multiset{s[i]}
  {
    Parts(s, i);
  }

  lemma CountOne<T>(x: T, p: T -> bool)
    ensures Count([x], p) == if p(x) then 1 else 0
  {
    assert [x][..0] == [];
  }

  lemma CountWithout<T>(s: seq<T>, i: nat, p: T -> bool)
    requires i < |s|
    ensures Count(s, p) == Count(Without(s, i), p) + if p(s[i]) then 1 else 0
    ensures multiset(s) == multiset(Without(s, i)) + multiset{s[i]}
  {
    MultisetWithout(s, i);
    Parts(s, i);
    CountAppend(s[..i], s[i + 1..], p);
    CountAppend(s[..i] + [s[i]], s[i + 1..], p);
    CountAppend(s[..i], [s[i]], p);
    CountOne(s[i], p);
  }

  /** Counting does not depend on the order. */
  lemma {:induction false} CountPermutation<T>(a: seq<T>, b: seq<T>, p: T -> bool)
    requires multiset(a) == multiset(b)
    ensures Count(a, p) == Count(b, p)
  {
    assert |a| == |multiset(a)| == |multiset(b)| == |b|;
    if a != [] {
      var x := a[|a| - 1];
      LastSplit(a);
      assert x in multiset(b);
      var i :| 0 <= i < |b| && b[i] == x;
      CountWithout(b, i, p);
      Cancel(multiset(a[..|a| - 1]), multiset(Without(b, i)), x);
      CountPermutation(a[..|a| - 1], Without(b, i), p);
    }
  }
}
