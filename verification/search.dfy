/** The lookup every store does by (Dept, Number): `sort.Search` for the first
    record at or after the key, then an equality check on that one record. */
module Search {
  import opened Outcomes
  import opened Text
  import opened Keys

  /** `s` is ordered by (Dept, Number). */
  predicate KeySorted<T>(s: seq<T>, key: T -> CourseKey) {
    forall i, j :: 0 <= i < j < |s| ==> KeyLe(key(s[i]), key(s[j]))
  }

  /** The closure given to `sort.Search`: the record's department is greater
      than the target's, or equal with a number that is not smaller. */
  predicate AtOrAfter(k: CourseKey, target: CourseKey) {
    if LexLt(target.dept, k.dept) then true
    else if k.dept == target.dept then LexLe(target.number, k.number)
    else false
  }

  /** On a sorted sequence the predicate is monotone: once true, true after. */
  lemma AtOrAfterMonotone<T>(s: seq<T>, key: T -> CourseKey, target: CourseKey, m: nat, h: nat)
    requires KeySorted(s, key) && m <= h < |s|
    ensures AtOrAfter(key(s[m]), target) ==> AtOrAfter(key(s[h]), target)
  {
    if m < h {
      KeyLeTrans(target, key(s[m]), key(s[h]));
    }
  }

  /** `sort.Search(len(s), f)` with `f` the closure above. Whatever the order
      of `s`, the predicate is false just before the result and true at it;
      on a sorted `s` it is false on the whole prefix and true on the rest. */
  method LowerBound<T>(s: seq<T>, key: T -> CourseKey, target: CourseKey) returns (index: nat)
    ensures index <= |s|
    ensures index == 0 || !AtOrAfter(key(s[index - 1]), target)
    ensures index == |s| || AtOrAfter(key(s[index]), target)
    ensures KeySorted(s, key) ==> forall m :: 0 <= m < index ==> !AtOrAfter(key(s[m]), target)
    ensures KeySorted(s, key) ==> forall m :: index <= m < |s| ==> AtOrAfter(key(s[m]), target)
  {
    ghost var sorted := KeySorted(s, key);
    var i, j := 0, |s|;
    while i < j
      invariant 0 <= i <= j <= |s|
      invariant i == 0 || !AtOrAfter(key(s[i - 1]), target)
      invariant j == |s| || AtOrAfter(key(s[j]), target)
      invariant sorted ==> forall m :: 0 <= m < i ==> !AtOrAfter(key(s[m]), target)
      invariant sorted ==> forall m :: j <= m < |s| ==> AtOrAfter(key(s[m]), target)
      decreases j - i
    {
      var h := i + (j - i) / 2;
      if !AtOrAfter(key(s[h]), target) {
        if sorted {
          forall m | 0 <= m <= h
            ensures !AtOrAfter(key(s[m]), target)
          {
            AtOrAfterMonotone(s, key, target, m, h);
          }
        }
        i := h + 1;
      } else {
        if sorted {
          forall m | h <= m < |s|
            ensures AtOrAfter(key(s[m]), target)
          {
            AtOrAfterMonotone(s, key, target, h, m);
          }
        }
        j := h;
      }
    }
    index := i;
  }

  /** The reference lookup: the first record with the key, scanning from the front. */
  function FirstWithKey<T>(s: seq<T>, key: T -> CourseKey, target: CourseKey): (r: Option<T>)
    ensures r.Some? ==> r.value in s && key(r.value) == target
    ensures r.None? ==> forall j :: 0 <= j < |s| ==> key(s[j]) != target
    decreases |s|
  {
    if |s| == 0 then None
    else if key(s[0]) == target then Some(s[0])
    else
      var r := FirstWithKey(s[1..], key, target);
      assert forall j :: 1 <= j < |s| ==> s[j] == s[1..][j - 1];
      r
  }

  /** The linear scan stops at the first record that has the key. */
  lemma {:induction false} FirstWithKeyAt<T>(s: seq<T>, key: T -> CourseKey, target: CourseKey, i: nat)
    requires i < |s| && key(s[i]) == target
    requires forall m :: 0 <= m < i ==> key(s[m]) != target
    ensures FirstWithKey(s, key, target) == Some(s[i])
    decreases i
  {
    if i > 0 {
      assert forall m :: 0 <= m < i - 1 ==> s[1..][m] == s[m + 1];
      FirstWithKeyAt(s[1..], key, target, i - 1);
    }
  }

  /** The store lookup: the record at the lower bound, if it has the key. It
      never returns a record with another key; on a sorted sequence it finds
      the same record as the linear scan, so it finds one exactly when one
      exists. */
  method FindByKey<T>(s: seq<T>, key: T -> CourseKey, target: CourseKey) returns (r: Option<T>)
    ensures r.Some? ==> r.value in s && key(r.value) == target
    ensures KeySorted(s, key) ==> r == FirstWithKey(s, key, target)
    ensures KeySorted(s, key) ==> (r.Some? <==> exists j :: 0 <= j < |s| && key(s[j]) == target)
  {
    var index := LowerBound(s, key, target);
    if index < |s| && key(s[index]) == target {
      r := Some(s[index]);
      if KeySorted(s, key) {
        forall m | 0 <= m < index
          ensures key(s[m]) != target
        {
          KeyLeRefl(target);
        }
        FirstWithKeyAt(s, key, target, index);
      }
    } else {
      r := None;
      if KeySorted(s, key) {
        forall j | 0 <= j < |s|
          ensures key(s[j]) != target
        {
          KeyLeRefl(target);
          if index < j {
            KeyLeAntisym(key(s[index]), key(s[j]));
          }
        }
      }
    }
  }
}
