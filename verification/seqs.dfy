/** Sequence combinators from `samber/lo` (`Filter`, `Uniq`, `SomeBy`) and the
    facts about them the rest of the model relies on. */
module Seqs {

  /** `a` is `b` with some elements left out, the rest in their original order. */
  predicate IsSubseq<T(==,!new)>(a: seq<T>, b: seq<T>)
    decreases |b|
  {
    |a| == 0 || (|b| > 0 && ((a[0] == b[0] && IsSubseq(a[1..], b[1..])) || IsSubseq(a, b[1..])))
  }

  lemma {:induction false} IsSubseqRefl<T(!new)>(s: seq<T>)
    ensures IsSubseq(s, s)
    decreases |s|
  {
    if |s| > 0 {
      IsSubseqRefl(s[1..]);
    }
  }

  lemma {:induction false} SubseqMembers<T(!new)>(a: seq<T>, b: seq<T>)
    requires IsSubseq(a, b)
    ensures forall x :: x in a ==> x in b
    decreases |b|
  {
    if |a| > 0 {
      if a[0] == b[0] && IsSubseq(a[1..], b[1..]) {
        SubseqMembers(a[1..], b[1..]);
        assert forall x :: x in a ==> x == a[0] || x in a[1..];
      } else {
        SubseqMembers(a, b[1..]);
      }
    }
  }

  /** `lo.Filter`: the elements satisfying `p`, in order. */
  function Filter<T(==,!new)>(s: seq<T>, p: T -> bool): (r: seq<T>)
    ensures |r| <= |s|
    ensures forall x :: x in r <==> x in s && p(x)
    ensures forall x :: multiset(r)[x] == if p(x) then multiset(s)[x] else 0
    ensures IsSubseq(r, s)
    decreases |s|
  {
    if |s| == 0 then []
    else
      var rest := Filter(s[1..], p);
      assert s == [s[0]] + s[1..];
      assert multiset(s) == multiset{s[0]} + multiset(s[1..]);
      if p(s[0]) then
        assert ([s[0]] + rest)[1..] == rest;
        [s[0]] + rest
      else
        rest
  }

  /** Any rearrangement of a filtered sequence holds only elements that pass. */
  lemma PermutedFilterHolds<T(!new)>(r: seq<T>, s: seq<T>, p: T -> bool)
    requires multiset(r) == multiset(Filter(s, p))
    ensures forall i :: 0 <= i < |r| ==> p(r[i])
  {
    forall i | 0 <= i < |r| ensures p(r[i]) {
      assert r[i] in multiset(r);
      assert r[i] in Filter(s, p);
    }
  }

  /** One step of `Filter`: the head is kept exactly when it satisfies `p`. */
  lemma FilterCons<T(!new)>(s: seq<T>, p: T -> bool)
    requires |s| > 0
    ensures p(s[0]) ==> Filter(s, p) == [s[0]] + Filter(s[1..], p)
    ensures !p(s[0]) ==> Filter(s, p) == Filter(s[1..], p)
  {
  }

  /** A loop that, element by element, appends something related to each
      element that qualifies: if the rest's results are related in order
      to the rest's qualifying elements, so are the whole list's. */
  lemma FilterPairedStep<T(!new), U>(s: seq<T>, p: T -> bool, rel: (T, U) -> bool, rest: seq<U>, r: seq<U>)
    requires |s| > 0
    requires |rest| == |Filter(s[1..], p)|
    requires forall i :: 0 <= i < |rest| ==> rel(Filter(s[1..], p)[i], rest[i])
    requires p(s[0]) ==> |r| == |rest| + 1 && rel(s[0], r[0]) && r[1..] == rest
    requires !p(s[0]) ==> r == rest
    ensures |r| == |Filter(s, p)|
    ensures forall i :: 0 <= i < |r| ==> rel(Filter(s, p)[i], r[i])
  {
    FilterCons(s, p);
    if p(s[0]) {
      var f := Filter(s, p);
      var ft := Filter(s[1..], p);
      forall i | 0 <= i < |r|
        ensures rel(f[i], r[i])
      {
        if i > 0 {
          assert f[i] == ft[i - 1] && r[i] == rest[i - 1];
        }
      }
    }
  }

  /** When every element qualifies, filtering changes nothing. */
  lemma {:induction false} FilterAll<T(!new)>(s: seq<T>, p: T -> bool)
    requires forall x :: x in s ==> p(x)
    ensures Filter(s, p) == s
    decreases |s|
  {
    if |s| > 0 {
      assert forall x :: x in s[1..] ==> x in s;
      FilterAll(s[1..], p);
      assert s[0] in s;
      FilterCons(s, p);
      assert s == [s[0]] + s[1..];
    }
  }

  /** Two predicates that agree on the elements filter alike. */
  lemma {:induction false} FilterCongruent<T(!new)>(s: seq<T>, p: T -> bool, q: T -> bool)
    requires forall x :: x in s ==> p(x) == q(x)
    ensures Filter(s, p) == Filter(s, q)
    decreases |s|
  {
    if |s| > 0 {
      assert forall x :: x in s[1..] ==> x in s;
      FilterCongruent(s[1..], p, q);
    }
  }

  /** Filtering distributes over concatenation. */
  lemma {:induction false} FilterAppend<T(!new)>(a: seq<T>, b: seq<T>, p: T -> bool)
    ensures Filter(a + b, p) == Filter(a, p) + Filter(b, p)
    decreases |a|
  {
    if |a| == 0 {
      assert a + b == b;
    } else {
      assert (a + b)[1..] == a[1..] + b;
      FilterAppend(a[1..], b, p);
    }
  }

  /** `lo.SomeBy`: some element satisfies `p`. */
  predicate SomeBy<T(==,!new)>(s: seq<T>, p: T -> bool) {
    exists i :: 0 <= i < |s| && p(s[i])
  }

  predicate NoDuplicates<T(==,!new)>(s: seq<T>) {
    forall i, j :: 0 <= i < j < |s| ==> s[i] != s[j]
  }

  /** Filtering a sequence without duplicates leaves none. */
  lemma {:induction false} FilterNoDuplicates<T(!new)>(s: seq<T>, p: T -> bool)
    requires NoDuplicates(s)
    ensures NoDuplicates(Filter(s, p))
    decreases |s|
  {
    if |s| > 0 {
      assert NoDuplicates(s[1..]);
      FilterNoDuplicates(s[1..], p);
      assert s[0] !in s[1..];
    }
  }

  /** An element at two positions is counted at least twice. */
  lemma CountTwice<T>(s: seq<T>, i: nat, j: nat)
    requires i < j < |s|
    ensures s[i] == s[j] ==> multiset(s)[s[i]] >= 2
  {
    assert s == s[..j] + s[j..];
    assert s[..j][i] == s[i];
    assert s[j..][0] == s[j];
  }

  /** A sequence whose elements are related by `same` only when equal, and
      that holds each element once, has no two positions related by `same`.
      Both hypotheses survive any permutation. */
  lemma ApartBy<T(!new)>(s: seq<T>, same: (T, T) -> bool)
    requires forall x, y :: x in s && y in s && same(x, y) ==> x == y
    requires forall x :: multiset(s)[x] <= 1
    ensures forall i, j :: 0 <= i < j < |s| ==> !same(s[i], s[j])
  {
    forall i, j | 0 <= i < j < |s|
      ensures !same(s[i], s[j])
    {
      CountTwice(s, i, j);
    }
  }

  /** Without duplicates every element is counted at most once. */
  lemma {:induction false} NoDuplicatesOnce<T(!new)>(s: seq<T>)
    requires NoDuplicates(s)
    ensures forall x :: multiset(s)[x] <= 1
    decreases |s|
  {
    if |s| > 0 {
      assert NoDuplicates(s[1..]);
      NoDuplicatesOnce(s[1..]);
      assert s == [s[0]] + s[1..];
      assert s[0] !in s[1..];
    }
  }

  /** Position of the first occurrence of `x` in `s`. */
  function FirstIndex<T(==,!new)>(s: seq<T>, x: T): (r: nat)
    requires x in s
    ensures r < |s| && s[r] == x && x !in s[..r]
    decreases |s|
  {
    if s[0] == x then 0
    else
      var k := FirstIndex(s[1..], x);
      assert s[..k + 1] == [s[0]] + s[1..][..k];
      k + 1
  }

  lemma FirstIndexUnique<T(!new)>(s: seq<T>, x: T, k: nat)
    requires k < |s| && s[k] == x && x !in s[..k]
    ensures FirstIndex(s, x) == k
  {
    var f := FirstIndex(s, x);
    assert forall i :: 0 <= i < k ==> s[..k][i] == s[i];
    assert forall i :: 0 <= i < f ==> s[..f][i] == s[i];
  }

  /** `lo.Uniq`: the first occurrence of every element, in order of first
      occurrence. Written as the source's loop is: element `i` is kept when it
      was not seen among the elements before it. */
  function Uniq<T(==,!new)>(s: seq<T>): (r: seq<T>)
    ensures NoDuplicates(r)
    ensures forall x :: x in r <==> x in s
    ensures forall i, j :: 0 <= i < j < |r| ==> FirstIndex(s, r[i]) < FirstIndex(s, r[j])
    decreases |s|
  {
    if |s| == 0 then []
    else
      var n := |s| - 1;
      var u := Uniq(s[..n]);
      assert forall i :: 0 <= i < |u| ==> u[i] in u;
      UniqStep(s, u);
      if s[n] in s[..n] then u else u + [s[n]]
  }

  /** One step of `Uniq`: from the first occurrences of all but the last
      element, the last is appended exactly when it is new. */
  lemma UniqStep<T(!new)>(s: seq<T>, u: seq<T>)
    requires |s| > 0
    requires NoDuplicates(u)
    requires forall x :: x in u <==> x in s[..|s| - 1]
    requires forall i :: 0 <= i < |u| ==> u[i] in s[..|s| - 1]
    requires forall i, j :: 0 <= i < j < |u| ==> FirstIndex(s[..|s| - 1], u[i]) < FirstIndex(s[..|s| - 1], u[j])
    ensures var r := if s[|s| - 1] in s[..|s| - 1] then u else u + [s[|s| - 1]];
      && NoDuplicates(r)
      && (forall x :: x in r <==> x in s)
      && forall i, j :: 0 <= i < j < |r| ==> FirstIndex(s, r[i]) < FirstIndex(s, r[j])
  {
    var n := |s| - 1;
    var init := s[..n];
    assert s == init + [s[n]];
    assert forall x :: x in s <==> x in init || x == s[n];
    forall x | x in init
      ensures FirstIndex(s, x) == FirstIndex(init, x)
    {
      var k := FirstIndex(init, x);
      assert s[..k] == init[..k];
      FirstIndexUnique(s, x, k);
    }
    if s[n] !in init {
      FirstIndexUnique(s, s[n], n);
      var r := u + [s[n]];
      forall i, j | 0 <= i < j < |r|
        ensures r[i] != r[j] && FirstIndex(s, r[i]) < FirstIndex(s, r[j])
      {
        assert r[i] == u[i] && u[i] in init;
        if j < |u| {
          assert r[j] == u[j];
        }
      }
    }
  }

  /** Number of elements satisfying `p`. */
  function CountWhere<T(==,!new)>(s: seq<T>, p: T -> bool): nat
    decreases |s|
  {
    if |s| == 0 then 0 else (if p(s[0]) then 1 else 0) + CountWhere(s[1..], p)
  }

  lemma {:induction false} CountWhereAppend<T(!new)>(a: seq<T>, b: seq<T>, p: T -> bool)
    ensures CountWhere(a + b, p) == CountWhere(a, p) + CountWhere(b, p)
    decreases |a|
  {
    if |a| == 0 {
      assert a + b == b;
    } else {
      assert (a + b)[1..] == a[1..] + b;
      CountWhereAppend(a[1..], b, p);
    }
  }
}
