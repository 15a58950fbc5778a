/** A Go `map[string]V` whose values are later collected: a list of
    (key, value) pairs with distinct keys. Insertion order stands for one of
    the iteration orders Go may choose; nothing proved depends on it. */
module AssocList {
  import opened Outcomes

  type Entries<V> = seq<(string, V)>

  predicate DistinctKeys<V>(m: Entries<V>) {
    forall i, j :: 0 <= i < j < |m| ==> m[i].0 != m[j].0
  }

  /** `v, ok := m[k]`. */
  function Get<V>(m: Entries<V>, k: string): (r: Option<V>)
    ensures r.Some? <==> exists i :: 0 <= i < |m| && m[i].0 == k
    ensures r.Some? ==> exists i :: 0 <= i < |m| && m[i] == (k, r.value)
    decreases |m|
  {
    if |m| == 0 then None
    else if m[0].0 == k then Some(m[0].1)
    else
      var r := Get(m[1..], k);
      assert forall i :: 1 <= i < |m| ==> m[i] == m[1..][i - 1];
      r
  }

  /** In a map with distinct keys, the entry at any position is what `Get` finds. */
  lemma {:induction false} GetAt<V>(m: Entries<V>, i: nat)
    requires DistinctKeys(m) && i < |m|
    ensures Get(m, m[i].0) == Some(m[i].1)
    decreases i
  {
    if i > 0 {
      GetAt(m[1..], i - 1);
    }
  }

  /** `m[k] = v`: replaces the value of an existing key in place, otherwise
      adds the key. */
  function Put<V>(m: Entries<V>, k: string, v: V): (r: Entries<V>)
    ensures |r| == if Get(m, k).Some? then |m| else |m| + 1
    ensures forall i :: 0 <= i < |r| ==> r[i] == (k, v) || r[i] in m
    decreases |m|
  {
    if |m| == 0 then [(k, v)]
    else if m[0].0 == k then [(k, v)] + m[1..]
    else
      assert forall k' :: k' != m[0].0 ==> Get(m, k') == Get(m[1..], k');
      [m[0]] + Put(m[1..], k, v)
  }

  /** After `m[k] = v`, looking up `k` gives `v` and every other key is unchanged. */
  lemma {:induction false} PutGet<V>(m: Entries<V>, k: string, v: V)
    ensures Get(Put(m, k, v), k) == Some(v)
    ensures forall k' :: k' != k ==> Get(Put(m, k, v), k') == Get(m, k')
    decreases |m|
  {
    if |m| > 0 && m[0].0 != k {
      PutGet(m[1..], k, v);
    }
  }

  /** Assignment keeps the keys distinct. */
  lemma {:induction false} PutDistinct<V>(m: Entries<V>, k: string, v: V)
    requires DistinctKeys(m)
    ensures DistinctKeys(Put(m, k, v))
    decreases |m|
  {
    if |m| > 0 && m[0].0 != k {
      PutDistinct(m[1..], k, v);
      var rest := Put(m[1..], k, v);
      assert forall i :: 0 <= i < |rest| ==> rest[i] == (k, v) || rest[i] in m[1..];
      assert forall x :: x in m[1..] ==> x.0 != m[0].0;
    }
  }

  /** `slices.Collect(maps.Values(m))`. */
  function Values<V>(m: Entries<V>): (r: seq<V>)
    ensures |r| == |m|
    ensures forall i :: 0 <= i < |m| ==> r[i] == m[i].1
  {
    seq(|m|, i requires 0 <= i < |m| => m[i].1)
  }

  /** Every collected value is the value of its key, and every key's value is collected. */
  lemma ValuesAreMapped<V>(m: Entries<V>)
    requires DistinctKeys(m)
    ensures forall i :: 0 <= i < |m| ==> Get(m, m[i].0) == Some(Values(m)[i])
    ensures forall k :: Get(m, k).Some? ==> Get(m, k).value in Values(m)
  {
    forall i | 0 <= i < |m|
      ensures Get(m, m[i].0) == Some(Values(m)[i])
    {
      GetAt(m, i);
    }
    forall k | Get(m, k).Some?
      ensures Get(m, k).value in Values(m)
    {
      var i :| 0 <= i < |m| && m[i] == (k, Get(m, k).value);
      assert Values(m)[i] == m[i].1;
    }
  }

  /** One step of a fold that, for each item `x` in turn, may file `val(x)`
      under `key(x)`, replacing what was there, and changes nothing else.
      If the first item's step does so and the fold over the rest changes
      only keys of its items, to their values, and files every item that has
      a value, then so does the whole fold. */
  lemma FileEachStep<X, V>(xs: seq<X>, key: X -> string, val: X -> Option<V>,
                           m: Entries<V>, next: Entries<V>, r: Entries<V>)
    requires |xs| > 0
    requires forall k :: k != key(xs[0]) ==> Get(next, k) == Get(m, k)
    requires Get(m, key(xs[0])).Some? ==> Get(next, key(xs[0])).Some?
    requires Get(next, key(xs[0])) != Get(m, key(xs[0])) ==> Get(next, key(xs[0])) == val(xs[0])
    requires val(xs[0]).Some? ==> Get(next, key(xs[0])).Some?
    requires forall k :: Get(next, k).Some? ==> Get(r, k).Some?
    requires forall k :: Get(r, k) != Get(next, k) ==>
      exists i :: 0 <= i < |xs[1..]| && k == key(xs[1..][i]) && Get(r, k) == val(xs[1..][i])
    requires forall i :: 0 <= i < |xs[1..]| && val(xs[1..][i]).Some? ==> Get(r, key(xs[1..][i])).Some?
    ensures forall k :: Get(m, k).Some? ==> Get(r, k).Some?
    ensures forall k :: Get(r, k) != Get(m, k) ==>
      exists i :: 0 <= i < |xs| && k == key(xs[i]) && Get(r, k) == val(xs[i])
    ensures forall i :: 0 <= i < |xs| && val(xs[i]).Some? ==> Get(r, key(xs[i])).Some?
  {
    var tail := xs[1..];
    forall k | Get(r, k) != Get(m, k)
      ensures exists i :: 0 <= i < |xs| && k == key(xs[i]) && Get(r, k) == val(xs[i])
    {
      if Get(r, k) != Get(next, k) {
        var i :| 0 <= i < |tail| && k == key(tail[i]) && Get(r, k) == val(tail[i]);
        assert xs[i + 1] == tail[i];
      } else {
        assert k == key(xs[0]);
      }
    }
    forall i | 0 <= i < |xs| && val(xs[i]).Some?
      ensures Get(r, key(xs[i])).Some?
    {
      if i > 0 {
        assert tail[i - 1] == xs[i];
      }
    }
  }
}
