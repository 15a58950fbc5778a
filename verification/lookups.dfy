/** The three reads every course store offers over its snapshot: by term
    code, by department within a term, and by (Dept, Number) within a term. */
module Lookups {
  import opened Outcomes
  import opened Text
  import opened Seqs
  import opened Keys
  import opened Search
  import opened Snapshot

  /** The snapshot key of a request: `year + "-" + lower(term)`. */
  function TermKey(year: string, term: string): string {
    year + "-" + ToLower(term)
  }

  /** `GetByTerm`: the courses stored under the request's key, or `ErrNotFound`. */
  function ByTerm<T>(terms: map<string, seq<T>>, year: string, term: string): (r: Result<seq<T>, StoreError>)
    ensures r.Ok? <==> TermKey(year, term) in terms
    ensures r.Ok? ==> r.value == terms[TermKey(year, term)]
    ensures r.Err? ==> r.error == NotFound
  {
    var key := TermKey(year, term);
    if key in terms then Ok(terms[key]) else Err(NotFound)
  }

  /** `lo.Filter` on `Dept == upper(dept)`, `ErrNotFound` when nothing is left.
      The result is the order-preserving subsequence of exactly the matching
      records, each as often as in the input. */
  function ByDept<T(==,!new)>(courses: seq<T>, key: T -> CourseKey, dept: string): (r: Result<seq<T>, StoreError>)
    ensures r.Err? <==> forall i :: 0 <= i < |courses| ==> key(courses[i]).dept != ToUpper(dept)
    ensures r.Err? ==> r.error == NotFound
    ensures r.Ok? ==> IsSubseq(r.value, courses)
    ensures r.Ok? ==> forall x :: x in r.value <==> x in courses && key(x).dept == ToUpper(dept)
    ensures r.Ok? ==> forall x :: key(x).dept == ToUpper(dept) ==> multiset(r.value)[x] == multiset(courses)[x]
  {
    var d := ToUpper(dept);
    var kept := Filter(courses, (c: T) => key(c).dept == d);
    assert forall i :: 0 <= i < |courses| ==> courses[i] in courses;
    if |kept| == 0 then Err(NotFound) else Ok(kept)
  }

  /** `GetByTermAndDeptAndNumber`'s search on one term's courses, with both
      parts of the key upper-cased. A found record always has the requested
      key; on a sorted term it is found exactly when one exists, and it is
      the first one, as a linear scan would find. */
  method ByDeptAndNumber<T>(courses: seq<T>, key: T -> CourseKey, dept: string, number: string)
    returns (r: Result<T, StoreError>)
    ensures r.Ok? ==> r.value in courses && key(r.value) == CourseKey(ToUpper(dept), ToUpper(number))
    ensures r.Err? ==> r.error == NotFound
    ensures KeySorted(courses, key) ==>
      (r.Ok? <==> exists j :: 0 <= j < |courses| && key(courses[j]) == CourseKey(ToUpper(dept), ToUpper(number)))
    ensures KeySorted(courses, key) && r.Ok? ==>
      FirstWithKey(courses, key, CourseKey(ToUpper(dept), ToUpper(number))) == Some(r.value)
  {
    var found := FindByKey(courses, key, CourseKey(ToUpper(dept), ToUpper(number)));
    match found
    case Some(c) => r := Ok(c);
    case None => r := Err(NotFound);
  }

  /** The search applied to a term read: the read's error passed on, else
      `ByDeptAndNumber` over the term's courses. */
  method InTerm<T>(found: Result<seq<T>, StoreError>, key: T -> CourseKey, dept: string, number: string)
    returns (r: Result<T, StoreError>)
    ensures found.Err? ==> r == Err(found.error)
    ensures r.Ok? ==> found.Ok? && r.value in found.value && key(r.value) == CourseKey(ToUpper(dept), ToUpper(number))
    ensures found.Ok? && r.Err? ==> r.error == NotFound
    ensures found.Ok? && KeySorted(found.value, key) ==>
      (r.Ok? <==> exists j :: 0 <= j < |found.value| && key(found.value[j]) == CourseKey(ToUpper(dept), ToUpper(number)))
    ensures found.Ok? && KeySorted(found.value, key) && r.Ok? ==>
      FirstWithKey(found.value, key, CourseKey(ToUpper(dept), ToUpper(number))) == Some(r.value)
  {
    match found
    case Err(e) => r := Err(e);
    case Ok(cs) => r := ByDeptAndNumber(cs, key, dept, number);
  }
}
