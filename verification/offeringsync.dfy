/** `scripts/syncOfferings` and `scripts/syncInstructors`: rebuild every
    outline's offerings from the term files. Offerings are first cleared; then
    for each course of each term one offering (the term's label and the
    course's instructors) is appended to the outline with the course's
    "dept-number" key. `syncInstructors` also keeps each outline's offerings
    newest first. The result goes through the outline writer. */
module OfferingSync {
  import opened Outcomes
  import opened Seqs
  import opened Sorting
  import opened Records
  import opened AssocList
  import opened Snapshot
  import opened TermLabels
  import opened Harvest
  import JoinedStore

  /** Which of the two scripts runs: they differ only in the sort after each append. */
  datatype Script = SyncOfferings | SyncInstructors

  /** The terms both scripts read. */
  const SyncTerms: seq<string> := ["2024-spring", "2024-summer", "2024-fall", "2025-spring", "2025-summer"]

  /** `syncOfferings` reads a term's courses from here ... */
  function CoursesFilePath(code: string): string {
    "./internal/store/json/courses/" + code + ".json"
  }

  /** ... and `syncInstructors` from the term's section file. */
  function TermFilePath(script: Script, code: string): string {
    match script
    case SyncOfferings => CoursesFilePath(code)
    case SyncInstructors => "./internal/store/json/sections/" + code + ".json"
  }

  /** `ReadCoursesFromJSON` with its error ignored: a file that cannot be read
      or parsed contributes no courses. */
  function ReadOrEmpty(disk: Disk<seq<CourseWithSectionDetails>>, path: string): (r: seq<CourseWithSectionDetails>)
    ensures ReadJson(disk, path).Ok? ==> r == disk[path].value
    ensures ReadJson(disk, path).Err? ==> r == []
  {
    match ReadJson(disk, path)
    case Ok(cs) => cs
    case Err(_) => []
  }

  /** `coursesMap`: each sync term with its courses. Go visits this map in an
      order of its own choosing; the list order here stands for one of them. */
  function TermCourses(script: Script, disk: Disk<seq<CourseWithSectionDetails>>): (r: Entries<seq<CourseWithSectionDetails>>)
    ensures |r| == |SyncTerms|
    ensures forall i :: 0 <= i < |r| ==>
      r[i].0 == SyncTerms[i] && r[i].1 == ReadOrEmpty(disk, TermFilePath(script, SyncTerms[i]))
  {
    seq(|SyncTerms|, i requires 0 <= i < |SyncTerms| => (SyncTerms[i], ReadOrEmpty(disk, TermFilePath(script, SyncTerms[i]))))
  }

  // ---------------------------------------------------------------------------
  // Outlines and their index

  /** An outline without its offerings: everything the sync leaves alone. */
  function Bare(o: CourseOutline): CourseOutline {
    o.(offerings := [])
  }

  /** The reset loop: every outline's offerings cleared, nothing else touched. */
  function ResetOfferings(outlines: seq<CourseOutline>): (r: seq<CourseOutline>)
    ensures |r| == |outlines|
    ensures forall i :: 0 <= i < |r| ==> r[i].offerings == [] && Bare(r[i]) == Bare(outlines[i])
  {
    seq(|outlines|, i requires 0 <= i < |outlines| => Bare(outlines[i]))
  }

  /** `outlineMap`: the outlines filed under "dept-number", a later outline
      replacing an earlier one with the same key. */
  function IndexOutlines(outlines: seq<CourseOutline>): (m: Entries<CourseOutline>)
    ensures DistinctKeys(m)
    decreases |outlines|
  {
    if |outlines| == 0 then []
    else
      var n := |outlines| - 1;
      var rest := IndexOutlines(outlines[..n]);
      PutDistinct(rest, JoinedStore.OutlineDashKey(outlines[n]), outlines[n]);
      Put(rest, JoinedStore.OutlineDashKey(outlines[n]), outlines[n])
  }

  /** Every indexed outline is one of the outlines. */
  lemma {:induction false} IndexFrom(outlines: seq<CourseOutline>, i: nat)
    requires i < |IndexOutlines(outlines)|
    ensures IndexOutlines(outlines)[i].1 in outlines
    decreases |outlines|
  {
    var n := |outlines| - 1;
    var init := outlines[..n];
    var rest := IndexOutlines(init);
    var m := IndexOutlines(outlines);
    assert m == Put(rest, JoinedStore.OutlineDashKey(outlines[n]), outlines[n]);
    if m[i] != (JoinedStore.OutlineDashKey(outlines[n]), outlines[n]) {
      var j :| 0 <= j < |rest| && rest[j] == m[i];
      IndexFrom(init, j);
      assert forall x :: x in init ==> x in outlines;
    }
  }

  /** An outline whose key no other outline shares is what the index files under it. */
  lemma {:induction false} IndexUnique(outlines: seq<CourseOutline>, i: nat)
    requires i < |outlines|
    requires forall j :: 0 <= j < |outlines| && j != i ==>
      JoinedStore.OutlineDashKey(outlines[j]) != JoinedStore.OutlineDashKey(outlines[i])
    ensures Get(IndexOutlines(outlines), JoinedStore.OutlineDashKey(outlines[i])) == Some(outlines[i])
    decreases |outlines|
  {
    var n := |outlines| - 1;
    var init := outlines[..n];
    var key := JoinedStore.OutlineDashKey(outlines[n]);
    PutGet(IndexOutlines(init), key, outlines[n]);
    if i < n {
      assert forall j :: 0 <= j < |init| ==> init[j] == outlines[j];
      IndexUnique(init, i);
    }
  }

  // ---------------------------------------------------------------------------
  // One offering

  /** Every instructor name of a list of sections, section by section. */
  function Names(details: seq<SectionDetail>): seq<string>
    decreases |details|
  {
    if |details| == 0 then []
    else
      seq(|details[0].instructors|, j requires 0 <= j < |details[0].instructors| => details[0].instructors[j].name)
        + Names(details[1..])
  }

  /** `n` is the name of an instructor of one of the sections. */
  predicate Teaches(details: seq<SectionDetail>, n: string) {
    exists k, j :: 0 <= k < |details| && 0 <= j < |details[k].instructors| && details[k].instructors[j].name == n
  }

  lemma {:induction false} NamesTeach(details: seq<SectionDetail>, n: string)
    ensures n in Names(details) <==> Teaches(details, n)
    decreases |details|
  {
    if |details| > 0 {
      NamesTeach(details[1..], n);
      var first := seq(|details[0].instructors|, j requires 0 <= j < |details[0].instructors| => details[0].instructors[j].name);
      assert Names(details) == first + Names(details[1..]);
      if Teaches(details, n) {
        var k, j :| 0 <= k < |details| && 0 <= j < |details[k].instructors| && details[k].instructors[j].name == n;
        if k == 0 {
          assert first[j] == n;
        } else {
          assert details[1..][k - 1] == details[k];
        }
      }
      if n in Names(details[1..]) {
        var k, j :| 0 <= k < |details[1..]| && 0 <= j < |details[1..][k].instructors| && details[1..][k].instructors[j].name == n;
        assert details[k + 1] == details[1..][k];
      }
    }
  }

  predicate Named(n: string) {
    n != ""
  }

  /** The instructors of an offering: the course's instructor names without
      repeats and without empty names, in order of first appearance. */
  function InstructorNames(c: CourseWithSectionDetails): (r: seq<string>)
    ensures NoDuplicates(r) && "" !in r
    ensures forall n :: n in r <==> n != "" && Teaches(c.sectionDetails, n)
    ensures IsSubseq(r, Uniq(Names(c.sectionDetails)))
  {
    var u := Uniq(Names(c.sectionDetails));
    FilterNoDuplicates(u, Named);
    NamesTeachAll(c.sectionDetails);
    Filter(u, Named)
  }

  lemma NamesTeachAll(details: seq<SectionDetail>)
    ensures forall n :: n in Names(details) <==> Teaches(details, n)
  {
    forall n ensures n in Names(details) <==> Teaches(details, n) {
      NamesTeach(details, n);
    }
  }

  function NewOffering(term: string, c: CourseWithSectionDetails): (o: CourseOffering)
    ensures o.term == FormatTermCode(term) && o.instructors == InstructorNames(c)
  {
    CourseOffering(FormatTermCode(term), InstructorNames(c))
  }

  /** The `sort.Slice` order of `syncInstructors`: larger term value first. */
  predicate NewestFirst(a: CourseOffering, b: CourseOffering) {
    SortableValue(a.term) >= SortableValue(b.term)
  }

  lemma NewestFirstTotalPreorder()
    ensures TotalPreorder(NewestFirst)
  {
  }

  /** The outline a course's offering goes to: the one under its key, or
      Go's zero outline when there is none. */
  function Prior(m: Entries<CourseOutline>, key: string): CourseOutline {
    Get(m, key).GetOr(ZeroOutline)
  }

  /** One course of one term: the offering is appended to the outline under
      the course's key and the outline stored back. `syncOfferings` appends
      exactly one offering; `syncInstructors` then sorts newest first. An
      outline keeps all its other fields, and a course without an outline
      leaves a record with no department or number. */
  function AddOffering(script: Script, m: Entries<CourseOutline>, term: string, c: CourseWithSectionDetails)
    : (r: Entries<CourseOutline>)
    ensures Get(r, JoinedStore.CourseDashKey(c)).Some?
    ensures script == SyncOfferings ==>
      Get(r, JoinedStore.CourseDashKey(c)).value.offerings
        == Prior(m, JoinedStore.CourseDashKey(c)).offerings + [NewOffering(term, c)]
    ensures script == SyncInstructors ==>
      && multiset(Get(r, JoinedStore.CourseDashKey(c)).value.offerings)
           == multiset(Prior(m, JoinedStore.CourseDashKey(c)).offerings) + multiset{NewOffering(term, c)}
      && SortedBy(Get(r, JoinedStore.CourseDashKey(c)).value.offerings, NewestFirst)
    ensures Bare(Get(r, JoinedStore.CourseDashKey(c)).value) == Bare(Prior(m, JoinedStore.CourseDashKey(c)))
    ensures Get(m, JoinedStore.CourseDashKey(c)).None? ==> !HasOutlineKey(Get(r, JoinedStore.CourseDashKey(c)).value)
    ensures forall k :: k != JoinedStore.CourseDashKey(c) ==> Get(r, k) == Get(m, k)
    ensures DistinctKeys(m) ==> DistinctKeys(r)
  {
    var key := JoinedStore.CourseDashKey(c);
    var o := Prior(m, key);
    var appended := o.offerings + [NewOffering(term, c)];
    NewestFirstTotalPreorder();
    var offerings := match script
      case SyncOfferings => appended
      case SyncInstructors => Sort(appended, NewestFirst);
    var v := o.(offerings := offerings);
    PutGet(m, key, v);
    if DistinctKeys(m) then PutDistinct(m, key, v); Put(m, key, v)
    else Put(m, key, v)
  }

  /** The course loop of one term: a key that has an outline keeps one, with
      its fields unchanged. */
  function FoldCourses(script: Script, m: Entries<CourseOutline>, term: string, courses: seq<CourseWithSectionDetails>)
    : (r: Entries<CourseOutline>)
    ensures forall k :: Get(m, k).Some? ==> Get(r, k).Some? && Bare(Get(r, k).value) == Bare(Get(m, k).value)
    ensures DistinctKeys(m) ==> DistinctKeys(r)
    decreases |courses|
  {
    if |courses| == 0 then m
    else FoldCourses(script, AddOffering(script, m, term, courses[0]), term, courses[1..])
  }

  /** The term loop over `coursesMap`. */
  function FoldTerms(script: Script, m: Entries<CourseOutline>, terms: Entries<seq<CourseWithSectionDetails>>)
    : (r: Entries<CourseOutline>)
    ensures forall k :: Get(m, k).Some? ==> Get(r, k).Some? && Bare(Get(r, k).value) == Bare(Get(m, k).value)
    ensures DistinctKeys(m) ==> DistinctKeys(r)
    decreases |terms|
  {
    if |terms| == 0 then m
    else FoldTerms(script, FoldCourses(script, m, terms[0].0, terms[0].1), terms[1..])
  }

  // ---------------------------------------------------------------------------
  // What every stored outline keeps

  predicate CleanOffering(o: CourseOffering) {
    NoDuplicates(o.instructors) && "" !in o.instructors
  }

  /** A stored outline is an input outline or a zero record, apart from its
      offerings; its offerings name distinct, non-empty instructors; and under
      `syncInstructors` they are newest first. */
  predicate Good(script: Script, outlines: seq<CourseOutline>, o: CourseOutline) {
    && (Bare(o) == ZeroOutline || exists j :: 0 <= j < |outlines| && Bare(o) == Bare(outlines[j]))
    && (forall j :: 0 <= j < |o.offerings| ==> CleanOffering(o.offerings[j]))
    && (script == SyncInstructors ==> SortedBy(o.offerings, NewestFirst))
  }

  predicate AllGood(script: Script, outlines: seq<CourseOutline>, m: Entries<CourseOutline>) {
    DistinctKeys(m) && forall i :: 0 <= i < |m| ==> Good(script, outlines, m[i].1)
  }

  lemma IndexGood(script: Script, outlines: seq<CourseOutline>)
    ensures AllGood(script, outlines, IndexOutlines(ResetOfferings(outlines)))
  {
    var reset := ResetOfferings(outlines);
    var m := IndexOutlines(reset);
    forall i | 0 <= i < |m|
      ensures Good(script, outlines, m[i].1)
    {
      IndexFrom(reset, i);
      var j :| 0 <= j < |reset| && reset[j] == m[i].1;
      assert Bare(m[i].1) == Bare(outlines[j]);
      assert m[i].1.offerings == [];
    }
  }

  lemma PriorGood(script: Script, outlines: seq<CourseOutline>, m: Entries<CourseOutline>, key: string)
    requires AllGood(script, outlines, m)
    ensures Good(script, outlines, Prior(m, key))
  {
    if Get(m, key).Some? {
      var i :| 0 <= i < |m| && m[i] == (key, Get(m, key).value);
    }
  }

  /** Appending a clean offering to clean offerings keeps them clean. */
  lemma AppendedClean(offs: seq<CourseOffering>, off: CourseOffering)
    requires forall j :: 0 <= j < |offs| ==> CleanOffering(offs[j])
    requires CleanOffering(off)
    ensures forall j :: 0 <= j < |offs + [off]| ==> CleanOffering((offs + [off])[j])
  {
    forall j | 0 <= j < |offs + [off]|
      ensures CleanOffering((offs + [off])[j])
    {
      if j < |offs| {
        assert (offs + [off])[j] == offs[j];
      }
    }
  }

  /** Reordering clean offerings keeps them clean. */
  lemma PermutedClean(r: seq<CourseOffering>, s: seq<CourseOffering>)
    requires multiset(r) == multiset(s)
    requires forall j :: 0 <= j < |s| ==> CleanOffering(s[j])
    ensures forall j :: 0 <= j < |r| ==> CleanOffering(r[j])
  {
    forall j | 0 <= j < |r|
      ensures CleanOffering(r[j])
    {
      assert r[j] in multiset(r);
      assert r[j] in multiset(s);
      var k :| 0 <= k < |s| && s[k] == r[j];
    }
  }

  lemma StoredGood(script: Script, outlines: seq<CourseOutline>, m: Entries<CourseOutline>,
                   term: string, c: CourseWithSectionDetails)
    requires AllGood(script, outlines, m)
    ensures Good(script, outlines, Get(AddOffering(script, m, term, c), JoinedStore.CourseDashKey(c)).value)
  {
    var key := JoinedStore.CourseDashKey(c);
    var o := Prior(m, key);
    var v := Get(AddOffering(script, m, term, c), key).value;
    PriorGood(script, outlines, m, key);
    var off := NewOffering(term, c);
    var appended := o.offerings + [off];
    AppendedClean(o.offerings, off);
    if script == SyncInstructors {
      PermutedClean(v.offerings, appended);
    } else {
      assert v.offerings == appended;
    }
    assert Bare(v) == Bare(o);
    if Bare(o) != ZeroOutline {
      var j :| 0 <= j < |outlines| && Bare(o) == Bare(outlines[j]);
    }
  }

  lemma AddOfferingGood(script: Script, outlines: seq<CourseOutline>, m: Entries<CourseOutline>,
                        term: string, c: CourseWithSectionDetails)
    requires AllGood(script, outlines, m)
    ensures AllGood(script, outlines, AddOffering(script, m, term, c))
  {
    var key := JoinedStore.CourseDashKey(c);
    var r := AddOffering(script, m, term, c);
    StoredGood(script, outlines, m, term, c);
    forall i | 0 <= i < |r|
      ensures Good(script, outlines, r[i].1)
    {
      GetAt(r, i);
      if r[i].0 != key {
        var j :| 0 <= j < |m| && m[j] == (r[i].0, Get(m, r[i].0).value);
      }
    }
  }

  lemma {:induction false} FoldCoursesGood(script: Script, outlines: seq<CourseOutline>, m: Entries<CourseOutline>,
                                           term: string, courses: seq<CourseWithSectionDetails>)
    requires AllGood(script, outlines, m)
    ensures AllGood(script, outlines, FoldCourses(script, m, term, courses))
    decreases |courses|
  {
    if |courses| > 0 {
      AddOfferingGood(script, outlines, m, term, courses[0]);
      FoldCoursesGood(script, outlines, AddOffering(script, m, term, courses[0]), term, courses[1..]);
    }
  }

  lemma {:induction false} FoldTermsGood(script: Script, outlines: seq<CourseOutline>, m: Entries<CourseOutline>,
                                         terms: Entries<seq<CourseWithSectionDetails>>)
    requires AllGood(script, outlines, m)
    ensures AllGood(script, outlines, FoldTerms(script, m, terms))
    decreases |terms|
  {
    if |terms| > 0 {
      FoldCoursesGood(script, outlines, m, terms[0].0, terms[0].1);
      FoldTermsGood(script, outlines, FoldCourses(script, m, terms[0].0, terms[0].1), terms[1..]);
    }
  }

  // ---------------------------------------------------------------------------
  // The offerings each key receives

  /** The offerings one term's courses give key `k`, in course order. */
  function Offered(term: string, courses: seq<CourseWithSectionDetails>, k: string): seq<CourseOffering>
    decreases |courses|
  {
    if |courses| == 0 then []
    else
      (if JoinedStore.CourseDashKey(courses[0]) == k then [NewOffering(term, courses[0])] else [])
        + Offered(term, courses[1..], k)
  }

  /** The offerings every term gives key `k`, term by term. */
  function TermsOffered(terms: Entries<seq<CourseWithSectionDetails>>, k: string): seq<CourseOffering>
    decreases |terms|
  {
    if |terms| == 0 then [] else Offered(terms[0].0, terms[0].1, k) + TermsOffered(terms[1..], k)
  }

  lemma OfferedOne(term: string, c: CourseWithSectionDetails, k: string)
    ensures Offered(term, [c], k) == if JoinedStore.CourseDashKey(c) == k then [NewOffering(term, c)] else []
  {
    assert [c][1..] == [];
  }

  /** One course adds its offering to its own key and to no other. */
  lemma AddOfferingOffered(script: Script, m: Entries<CourseOutline>, term: string, c: CourseWithSectionDetails, k: string)
    ensures multiset(Prior(AddOffering(script, m, term, c), k).offerings)
      == multiset(Prior(m, k).offerings) + multiset(Offered(term, [c], k))
    ensures script == SyncOfferings ==>
      Prior(AddOffering(script, m, term, c), k).offerings == Prior(m, k).offerings + Offered(term, [c], k)
  {
    OfferedOne(term, c, k);
    if JoinedStore.CourseDashKey(c) == k {
      AddOfferingOwn(script, m, term, c);
    } else {
      assert Get(AddOffering(script, m, term, c), k) == Get(m, k);
    }
  }

  lemma AddOfferingOwn(script: Script, m: Entries<CourseOutline>, term: string, c: CourseWithSectionDetails)
    ensures multiset(Prior(AddOffering(script, m, term, c), JoinedStore.CourseDashKey(c)).offerings)
      == multiset(Prior(m, JoinedStore.CourseDashKey(c)).offerings) + multiset([NewOffering(term, c)])
    ensures script == SyncOfferings ==>
      Prior(AddOffering(script, m, term, c), JoinedStore.CourseDashKey(c)).offerings
        == Prior(m, JoinedStore.CourseDashKey(c)).offerings + [NewOffering(term, c)]
  {
    var key := JoinedStore.CourseDashKey(c);
    var r := AddOffering(script, m, term, c);
    assert Prior(r, key) == Get(r, key).value;
    if script == SyncOfferings {
      assert multiset(Prior(m, key).offerings + [NewOffering(term, c)])
        == multiset(Prior(m, key).offerings) + multiset([NewOffering(term, c)]);
    }
  }

  lemma OfferedCons(term: string, courses: seq<CourseWithSectionDetails>, k: string)
    requires |courses| > 0
    ensures Offered(term, courses, k) == Offered(term, [courses[0]], k) + Offered(term, courses[1..], k)
  {
    assert [courses[0]][1..] == [];
  }

  /** Two appends in a row: `a` then `b` gives `mid`, `mid` then `c` gives
      `r`; as multisets, and as sequences when `inOrder`. */
  lemma Appended<T>(inOrder: bool, a: seq<T>, b: seq<T>, c: seq<T>, mid: seq<T>, r: seq<T>)
    requires multiset(mid) == multiset(a) + multiset(b) && multiset(r) == multiset(mid) + multiset(c)
    requires inOrder ==> mid == a + b && r == mid + c
    ensures multiset(r) == multiset(a) + multiset(b + c)
    ensures inOrder ==> r == a + (b + c)
  {
    assert multiset(b + c) == multiset(b) + multiset(c);
    if inOrder {
      assert (a + b) + c == a + (b + c);
    }
  }

  /** The course loop appends to key `k` exactly the offerings of the
      courses with that key; `syncOfferings` keeps their order. */
  lemma {:induction false} FoldCoursesOffered(script: Script, m: Entries<CourseOutline>, term: string,
                                              courses: seq<CourseWithSectionDetails>, k: string)
    ensures multiset(Prior(FoldCourses(script, m, term, courses), k).offerings)
      == multiset(Prior(m, k).offerings) + multiset(Offered(term, courses, k))
    ensures script == SyncOfferings ==>
      Prior(FoldCourses(script, m, term, courses), k).offerings == Prior(m, k).offerings + Offered(term, courses, k)
    decreases |courses|
  {
    if |courses| > 0 {
      var m1 := AddOffering(script, m, term, courses[0]);
      AddOfferingOffered(script, m, term, courses[0], k);
      FoldCoursesOffered(script, m1, term, courses[1..], k);
      OfferedCons(term, courses, k);
      Appended(script == SyncOfferings, Prior(m, k).offerings, Offered(term, [courses[0]], k), Offered(term, courses[1..], k),
               Prior(m1, k).offerings, Prior(FoldCourses(script, m, term, courses), k).offerings);
    }
  }

  /** The term loop appends to key `k` the offerings of every term in turn. */
  lemma {:induction false} FoldTermsOffered(script: Script, m: Entries<CourseOutline>,
                                            terms: Entries<seq<CourseWithSectionDetails>>, k: string)
    ensures multiset(Prior(FoldTerms(script, m, terms), k).offerings)
      == multiset(Prior(m, k).offerings) + multiset(TermsOffered(terms, k))
    ensures script == SyncOfferings ==>
      Prior(FoldTerms(script, m, terms), k).offerings == Prior(m, k).offerings + TermsOffered(terms, k)
    decreases |terms|
  {
    if |terms| > 0 {
      var m1 := FoldCourses(script, m, terms[0].0, terms[0].1);
      FoldCoursesOffered(script, m, terms[0].0, terms[0].1, k);
      FoldTermsOffered(script, m1, terms[1..], k);
      assert TermsOffered(terms, k) == Offered(terms[0].0, terms[0].1, k) + TermsOffered(terms[1..], k);
      Appended(script == SyncOfferings, Prior(m, k).offerings, Offered(terms[0].0, terms[0].1, k), TermsOffered(terms[1..], k),
               Prior(m1, k).offerings, Prior(FoldTerms(script, m, terms), k).offerings);
    }
  }

  // ---------------------------------------------------------------------------
  // The run

  /** The merged map before writing. */
  function Merge(script: Script, outlines: seq<CourseOutline>, terms: Entries<seq<CourseWithSectionDetails>>)
    : Entries<CourseOutline>
  {
    FoldTerms(script, IndexOutlines(ResetOfferings(outlines)), terms)
  }

  /** The outlines the script writes: keyed and sorted by (Dept, Number). */
  function Sync(script: Script, outlines: seq<CourseOutline>, terms: Entries<seq<CourseWithSectionDetails>>)
    : (r: seq<CourseOutline>)
    ensures forall i :: 0 <= i < |r| ==> HasOutlineKey(r[i])
    ensures SortedBy(r, OutlineLe)
  {
    ProcessOutlines(Merge(script, outlines, terms))
  }

  /** Every written outline is an input outline with new offerings, each
      naming distinct, non-empty instructors, newest first under
      `syncInstructors`; records made for courses without an outline are
      not written. */
  lemma SyncSound(script: Script, outlines: seq<CourseOutline>, terms: Entries<seq<CourseWithSectionDetails>>, o: CourseOutline)
    requires o in Sync(script, outlines, terms)
    ensures exists j :: 0 <= j < |outlines| && Bare(o) == Bare(outlines[j])
    ensures forall j :: 0 <= j < |o.offerings| ==> CleanOffering(o.offerings[j])
    ensures script == SyncInstructors ==> SortedBy(o.offerings, NewestFirst)
  {
    var m := Merge(script, outlines, terms);
    IndexGood(script, outlines);
    FoldTermsGood(script, outlines, IndexOutlines(ResetOfferings(outlines)), terms);
    ProcessOutlinesSound(m, o);
    var k :| Get(m, k) == Some(o);
    PriorGood(script, outlines, m, k);
    assert Prior(m, k) == o;
    assert Bare(o).dept == o.dept != "";
  }

  /** Every input outline with a department, a number and a key of its own is
      written, with its fields. */
  lemma SyncComplete(script: Script, outlines: seq<CourseOutline>, terms: Entries<seq<CourseWithSectionDetails>>, i: nat)
    requires i < |outlines| && HasOutlineKey(outlines[i])
    requires forall j :: 0 <= j < |outlines| && j != i ==>
      JoinedStore.OutlineDashKey(outlines[j]) != JoinedStore.OutlineDashKey(outlines[i])
    ensures exists o :: o in Sync(script, outlines, terms) && Bare(o) == Bare(outlines[i])
  {
    var reset := ResetOfferings(outlines);
    var key := JoinedStore.OutlineDashKey(outlines[i]);
    assert forall j :: 0 <= j < |reset| ==> JoinedStore.OutlineDashKey(reset[j]) == JoinedStore.OutlineDashKey(outlines[j]);
    IndexUnique(reset, i);
    var m := Merge(script, outlines, terms);
    var v := Get(m, key).value;
    assert Bare(v) == Bare(outlines[i]);
    assert HasOutlineKey(v);
    ProcessOutlinesComplete(m, key);
  }

  /** Before writing, the merged map files a keyed input outline with a key
      of its own under that key, with its fields and exactly the offerings of
      the term courses with that key. */
  lemma MergeOffered(script: Script, outlines: seq<CourseOutline>, terms: Entries<seq<CourseWithSectionDetails>>, i: nat)
    requires i < |outlines|
    requires forall j :: 0 <= j < |outlines| && j != i ==>
      JoinedStore.OutlineDashKey(outlines[j]) != JoinedStore.OutlineDashKey(outlines[i])
    ensures Get(Merge(script, outlines, terms), JoinedStore.OutlineDashKey(outlines[i])).Some?
    ensures Bare(Get(Merge(script, outlines, terms), JoinedStore.OutlineDashKey(outlines[i])).value) == Bare(outlines[i])
    ensures multiset(Prior(Merge(script, outlines, terms), JoinedStore.OutlineDashKey(outlines[i])).offerings)
      == multiset(TermsOffered(terms, JoinedStore.OutlineDashKey(outlines[i])))
    ensures script == SyncOfferings ==>
      Prior(Merge(script, outlines, terms), JoinedStore.OutlineDashKey(outlines[i])).offerings
        == TermsOffered(terms, JoinedStore.OutlineDashKey(outlines[i]))
  {
    var reset := ResetOfferings(outlines);
    var key := JoinedStore.OutlineDashKey(outlines[i]);
    assert forall j :: 0 <= j < |reset| ==> JoinedStore.OutlineDashKey(reset[j]) == JoinedStore.OutlineDashKey(outlines[j]);
    IndexUnique(reset, i);
    var m0 := IndexOutlines(reset);
    assert Prior(m0, key).offerings == [];
    FoldTermsOffered(script, m0, terms, key);
  }

  /** The outline a keyed input outline with a key of its own is written as
      carries exactly the offerings of the term courses with that key: as a
      multiset under both scripts, and term by term, course by course under
      `syncOfferings`. */
  lemma SyncOffered(script: Script, outlines: seq<CourseOutline>, terms: Entries<seq<CourseWithSectionDetails>>, i: nat)
    requires i < |outlines| && HasOutlineKey(outlines[i])
    requires forall j :: 0 <= j < |outlines| && j != i ==>
      JoinedStore.OutlineDashKey(outlines[j]) != JoinedStore.OutlineDashKey(outlines[i])
    ensures exists o :: && o in Sync(script, outlines, terms) && Bare(o) == Bare(outlines[i])
                        && multiset(o.offerings) == multiset(TermsOffered(terms, JoinedStore.OutlineDashKey(outlines[i])))
                        && (script == SyncOfferings ==> o.offerings == TermsOffered(terms, JoinedStore.OutlineDashKey(outlines[i])))
  {
    var key := JoinedStore.OutlineDashKey(outlines[i]);
    MergeOffered(script, outlines, terms, i);
    var m := Merge(script, outlines, terms);
    IndexGood(script, outlines);
    FoldTermsGood(script, outlines, IndexOutlines(ResetOfferings(outlines)), terms);
    var v := Get(m, key).value;
    assert Prior(m, key) == v;
    assert HasOutlineKey(v) by { assert Bare(v).dept == outlines[i].dept; assert Bare(v).number == outlines[i].number; }
    ProcessOutlinesComplete(m, key);
  }
}
