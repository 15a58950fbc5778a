/** `scripts/fetchSections`: one term's departments, courses and sections
    folded into a map of courses with their section details, then the map's
    values cleaned and sorted for the term's section file. Sections with an
    empty title, courses with an empty title and departments with an empty
    value are skipped; a failed request for one course or department is
    reported and skipped. */
module FetchSections {
  import opened Outcomes
  import opened Seqs
  import opened Sorting
  import opened Records
  import opened AssocList
  import opened Catalog

  predicate TitledSection(s: SectionRes) { s.title != "" }

  /** What every entry of the map keeps: distinct keys, and each course has
      at least one section, in section-code order. */
  predicate WellFormed(m: Entries<CourseWithSectionDetails>) {
    && DistinctKeys(m)
    && forall i :: 0 <= i < |m| ==>
         |m[i].1.sectionDetails| > 0 && SortedBy(m[i].1.sectionDetails, SectionLe)
  }

  /** The details this script collects for a course: those of its titled
      sections whose fetch succeeds. */
  function Raws(cat: Catalog, dept: string, number: string, sections: seq<SectionRes>): seq<SectionDetailRaw> {
    Collect(cat, dept, number, Filter(sections, TitledSection))
  }

  /** The course `processSectionDetails` files for "dept number": refused for
      an empty department or number; otherwise, when the section listing
      arrives and at least one titled section's detail does, their fold
      with its sections sorted by code. */
  function FiledCourse(cat: Catalog, transformDate: string -> Option<string>, dept: string, number: string)
    : Option<CourseWithSectionDetails>
  {
    if dept == "" || number == "" then None
    else
      match cat.sections(dept, number)
      case FetchFailed => None
      case Fetched(sections) =>
        match ToCourseWithSectionDetails(transformDate, Raws(cat, dept, number, sections))
        case None => None
        case Some(folded) => Some(SortSections(folded))
  }

  /** `processSectionDetails`: an empty department or number is refused before
      any request; a failed section listing is an error; otherwise, when at
      least one titled section's detail arrives, the folded course with its
      sections sorted by code is filed under "dept number", replacing what was
      there, and with no detail the map is unchanged. */
  function ProcessSectionDetails(cat: Catalog, transformDate: string -> Option<string>,
                                 dept: string, number: string, m: Entries<CourseWithSectionDetails>)
    : (r: Result<Entries<CourseWithSectionDetails>, HarvestError>)
    ensures dept == "" || number == "" ==> r == Err(EmptyKey(dept, number))
    ensures dept != "" && number != "" ==>
      (r.Err? <==> cat.sections(dept, number).FetchFailed?)
    ensures r.Err? && dept != "" && number != "" ==> r.error == SectionsFailed(dept, number)
    ensures r.Ok? ==> forall k :: k != CourseMapKey(dept, number) ==> Get(r.value, k) == Get(m, k)
    ensures r.Ok? ==>
      var raws := Raws(cat, dept, number, cat.sections(dept, number).value);
      && (|raws| == 0 ==> r.value == m)
      && (|raws| > 0 ==>
            && Get(r.value, CourseMapKey(dept, number)).Some?
            && var c := Get(r.value, CourseMapKey(dept, number)).value;
            && var folded := ToCourseWithSectionDetails(transformDate, raws).value;
            && c.dept == folded.dept && c.number == folded.number && c.title == folded.title
            && c.units == folded.units && c.term == folded.term
            && SortedBy(c.sectionDetails, SectionLe)
            && multiset(c.sectionDetails) == multiset(folded.sectionDetails))
    ensures FiledCourse(cat, transformDate, dept, number).Some? ==>
      r.Ok? && Get(r.value, CourseMapKey(dept, number)) == FiledCourse(cat, transformDate, dept, number)
    ensures r.Ok? && FiledCourse(cat, transformDate, dept, number).None? ==> r.value == m
    ensures r.Ok? && WellFormed(m) ==> WellFormed(r.value)
  {
    if dept == "" || number == "" then Err(EmptyKey(dept, number))
    else
      match cat.sections(dept, number)
      case FetchFailed => Err(SectionsFailed(dept, number))
      case Fetched(sections) =>
        var raws := Raws(cat, dept, number, sections);
        match ToCourseWithSectionDetails(transformDate, raws)
        case None => Ok(m)
        case Some(folded) =>
          var c := SortSections(folded);
          var key := CourseMapKey(dept, number);
          PutGet(m, key, c);
          if WellFormed(m) then PutWellFormed(m, key, c); Ok(Put(m, key, c))
          else Ok(Put(m, key, c))
  }

  /** Filing a course with sorted, non-empty sections keeps the map well formed. */
  lemma PutWellFormed(m: Entries<CourseWithSectionDetails>, k: string, c: CourseWithSectionDetails)
    requires WellFormed(m)
    requires |c.sectionDetails| > 0 && SortedBy(c.sectionDetails, SectionLe)
    ensures WellFormed(Put(m, k, c))
  {
    PutDistinct(m, k, c);
    var r := Put(m, k, c);
    forall i | 0 <= i < |r|
      ensures |r[i].1.sectionDetails| > 0 && SortedBy(r[i].1.sectionDetails, SectionLe)
    {
      if r[i] != (k, c) {
        var j :| 0 <= j < |m| && m[j] == r[i];
      }
    }
  }

  /** The course loop of `processDepartment`: untitled courses are skipped and
      a failed course is skipped. Entries are added or replaced, never
      removed; each changed entry holds the filed course of a titled course
      of this department with that key; every titled course that files a
      course has an entry; and the map stays well formed. */
  function FoldCourses(cat: Catalog, transformDate: string -> Option<string>, dept: string,
                       courses: seq<CourseRes>, m: Entries<CourseWithSectionDetails>)
    : (r: Entries<CourseWithSectionDetails>)
    ensures forall k :: Get(m, k).Some? ==> Get(r, k).Some?
    ensures forall k :: Get(r, k) != Get(m, k) ==>
      exists i :: 0 <= i < |courses| && k == CourseKey(dept)(courses[i]) && Get(r, k) == CourseFiled(cat, transformDate, dept)(courses[i])
    ensures forall i :: 0 <= i < |courses| && CourseFiled(cat, transformDate, dept)(courses[i]).Some? ==>
      Get(r, CourseKey(dept)(courses[i])).Some?
    ensures WellFormed(m) ==> WellFormed(r)
    decreases |courses|
  {
    if |courses| == 0 then m
    else
      var next :=
        if courses[0].title == "" then m
        else match ProcessSectionDetails(cat, transformDate, dept, courses[0].value, m)
          case Ok(m') => m'
          case Err(_) => m;
      var r := FoldCourses(cat, transformDate, dept, courses[1..], next);
      FileEachStep(courses, CourseKey(dept), CourseFiled(cat, transformDate, dept), m, next, r);
      r
  }

  /** What the course loop files for a course of `dept`: nothing for an
      untitled course, otherwise its filed course. */
  function CourseFiled(cat: Catalog, transformDate: string -> Option<string>, dept: string)
    : CourseRes -> Option<CourseWithSectionDetails>
  {
    (c: CourseRes) => if c.title == "" then None else FiledCourse(cat, transformDate, dept, c.value)
  }

  /** `processDepartment`: an empty department is refused, a failed course
      listing is an error, and otherwise the courses are folded in. */
  function ProcessDepartment(cat: Catalog, transformDate: string -> Option<string>, dept: string,
                             m: Entries<CourseWithSectionDetails>)
    : (r: Result<Entries<CourseWithSectionDetails>, HarvestError>)
    ensures dept == "" ==> r == Err(EmptyDepartment)
    ensures dept != "" ==> (r.Err? <==> cat.courses(dept).FetchFailed?)
    ensures r.Err? && dept != "" ==> r.error == CoursesFailed(dept)
    ensures r.Ok? ==> r.value == FoldCourses(cat, transformDate, dept, cat.courses(dept).value, m)
  {
    if dept == "" then Err(EmptyDepartment)
    else
      match cat.courses(dept)
      case FetchFailed => Err(CoursesFailed(dept))
      case Fetched(courses) => Ok(FoldCourses(cat, transformDate, dept, courses, m))
  }

  /** `dept`'s course listing was fetched and lists a titled course `number`. */
  predicate TitledCourseListed(cat: Catalog, dept: string, number: string) {
    cat.courses(dept).Fetched?
    && exists i :: 0 <= i < |cat.courses(dept).value|
                   && cat.courses(dept).value[i].value == number && cat.courses(dept).value[i].title != ""
  }

  /** The course `dept number` is one this script processes from the listing
      `depts`: a department with a non-empty value, whose course listing
      arrived and lists the course with a title. */
  predicate Processed(cat: Catalog, depts: seq<DepartmentRes>, dept: string, number: string) {
    dept != "" && DeptListed(depts, dept) && TitledCourseListed(cat, dept, number)
  }

  /** The department loop of `processTerm`: departments with an empty value
      are skipped, and a failed department is skipped; neither stops the
      departments after it. Entries are never removed and the map stays well
      formed; `FoldDepartmentsSound` and `FoldDepartmentsComplete` say which
      courses it files. */
  function FoldDepartments(cat: Catalog, transformDate: string -> Option<string>,
                           depts: seq<DepartmentRes>, m: Entries<CourseWithSectionDetails>)
    : (r: Entries<CourseWithSectionDetails>)
    ensures forall k :: Get(m, k).Some? ==> Get(r, k).Some?
    ensures WellFormed(m) ==> WellFormed(r)
    decreases |depts|
  {
    if |depts| == 0 then m
    else FoldDepartments(cat, transformDate, depts[1..], DepartmentStep(cat, transformDate, depts[0].value, m))
  }

  /** One department of the loop: skipped when its value is empty or its
      course listing fails, otherwise its courses are folded in. */
  function DepartmentStep(cat: Catalog, transformDate: string -> Option<string>, dept: string,
                          m: Entries<CourseWithSectionDetails>)
    : (r: Entries<CourseWithSectionDetails>)
    ensures dept == "" || cat.courses(dept).FetchFailed? ==> r == m
    ensures dept != "" && cat.courses(dept).Fetched? ==>
      r == FoldCourses(cat, transformDate, dept, cat.courses(dept).value, m)
  {
    if dept == "" then m
    else match ProcessDepartment(cat, transformDate, dept, m)
      case Ok(m') => m'
      case Err(_) => m
  }

  /** Every entry the department loop changes holds the filed course of a
      course it processes, one from a department with a non-empty value. */
  lemma {:induction false} FoldDepartmentsSound(cat: Catalog, transformDate: string -> Option<string>,
                                                depts: seq<DepartmentRes>, m: Entries<CourseWithSectionDetails>,
                                                k: string)
    requires Get(FoldDepartments(cat, transformDate, depts, m), k) != Get(m, k)
    ensures exists d, c :: Processed(cat, depts, d, c) && k == CourseMapKey(d, c)
                           && Get(FoldDepartments(cat, transformDate, depts, m), k) == FiledCourse(cat, transformDate, d, c)
    decreases |depts|
  {
    var d0 := depts[0].value;
    var next := DepartmentStep(cat, transformDate, d0, m);
    var r := FoldDepartments(cat, transformDate, depts, m);
    assert r == FoldDepartments(cat, transformDate, depts[1..], next);
    if Get(r, k) != Get(next, k) {
      FoldDepartmentsSound(cat, transformDate, depts[1..], next, k);
      var d, c :| Processed(cat, depts[1..], d, c) && k == CourseMapKey(d, c)
                  && Get(r, k) == FiledCourse(cat, transformDate, d, c);
      ProcessedTail(cat, depts, d, c);
    } else {
      FirstDepartmentSound(cat, transformDate, depts, m, k);
    }
  }

  /** A course processed from the rest of the listing is processed from the listing. */
  lemma ProcessedTail(cat: Catalog, depts: seq<DepartmentRes>, dept: string, number: string)
    requires |depts| > 0 && Processed(cat, depts[1..], dept, number)
    ensures Processed(cat, depts, dept, number)
  {
    DeptListedCons(depts, dept);
  }

  /** An entry the first department changes holds the filed course of a
      course processed from the listing. */
  lemma FirstDepartmentSound(cat: Catalog, transformDate: string -> Option<string>, depts: seq<DepartmentRes>,
                             m: Entries<CourseWithSectionDetails>, k: string)
    requires |depts| > 0
    requires Get(DepartmentStep(cat, transformDate, depts[0].value, m), k) != Get(m, k)
    ensures exists c :: Processed(cat, depts, depts[0].value, c) && k == CourseMapKey(depts[0].value, c)
                        && Get(DepartmentStep(cat, transformDate, depts[0].value, m), k)
                           == FiledCourse(cat, transformDate, depts[0].value, c)
  {
    var d0 := depts[0].value;
    DepartmentStepSound(cat, transformDate, d0, m, k);
    var courses := cat.courses(d0).value;
    var next := DepartmentStep(cat, transformDate, d0, m);
    var i :| 0 <= i < |courses| && k == CourseKey(d0)(courses[i])
             && Get(next, k) == CourseFiled(cat, transformDate, d0)(courses[i]);
    ListedCourseSound(cat, transformDate, depts, i, Get(m, k), Get(next, k));
  }

  /** A value the first department's course loop filed for its `i`-th course
      in place of an older one, never removing it, is the filed course of a
      course processed from the listing. */
  lemma ListedCourseSound(cat: Catalog, transformDate: string -> Option<string>, depts: seq<DepartmentRes>, i: int,
                          before: Option<CourseWithSectionDetails>, after: Option<CourseWithSectionDetails>)
    requires |depts| > 0 && depts[0].value != "" && cat.courses(depts[0].value).Fetched?
    requires 0 <= i < |cat.courses(depts[0].value).value|
    requires after != before && (before.Some? ==> after.Some?)
    requires after == CourseFiled(cat, transformDate, depts[0].value)(cat.courses(depts[0].value).value[i])
    ensures Processed(cat, depts, depts[0].value, cat.courses(depts[0].value).value[i].value)
    ensures after == FiledCourse(cat, transformDate, depts[0].value, cat.courses(depts[0].value).value[i].value)
  {
    var x := cat.courses(depts[0].value).value[i];
    CourseFiledChanged(cat, transformDate, depts[0].value, x, before, after);
    assert TitledCourseListed(cat, depts[0].value, x.value);
  }

  /** An entry one department changes comes from its fetched course listing:
      it is filed under one of its courses' keys with what the course loop
      files for that course. */
  lemma DepartmentStepSound(cat: Catalog, transformDate: string -> Option<string>, dept: string,
                            m: Entries<CourseWithSectionDetails>, k: string)
    requires Get(DepartmentStep(cat, transformDate, dept, m), k) != Get(m, k)
    ensures dept != "" && cat.courses(dept).Fetched?
    ensures exists i :: 0 <= i < |cat.courses(dept).value| && k == CourseKey(dept)(cat.courses(dept).value[i])
                        && Get(DepartmentStep(cat, transformDate, dept, m), k)
                           == CourseFiled(cat, transformDate, dept)(cat.courses(dept).value[i])
  {
  }

  /** A value the course loop filed in place of an older one, never removing
      it, is the filed course of a titled course. */
  lemma CourseFiledChanged(cat: Catalog, transformDate: string -> Option<string>, dept: string, x: CourseRes,
                           before: Option<CourseWithSectionDetails>, after: Option<CourseWithSectionDetails>)
    requires after != before && (before.Some? ==> after.Some?)
    requires after == CourseFiled(cat, transformDate, dept)(x)
    ensures x.title != "" && after == FiledCourse(cat, transformDate, dept, x.value)
  {
  }

  /** Every course the department loop processes and that files a course has
      an entry. */
  lemma {:induction false} FoldDepartmentsComplete(cat: Catalog, transformDate: string -> Option<string>,
                                                   depts: seq<DepartmentRes>, m: Entries<CourseWithSectionDetails>,
                                                   d: string, c: string)
    requires Processed(cat, depts, d, c) && FiledCourse(cat, transformDate, d, c).Some?
    ensures Get(FoldDepartments(cat, transformDate, depts, m), CourseMapKey(d, c)).Some?
    decreases |depts|
  {
    var d0 := depts[0].value;
    var next := DepartmentStep(cat, transformDate, d0, m);
    assert FoldDepartments(cat, transformDate, depts, m) == FoldDepartments(cat, transformDate, depts[1..], next);
    DeptListedCons(depts, d);
    if d0 == d {
      var courses := cat.courses(d).value;
      var i :| 0 <= i < |courses| && courses[i].value == c && courses[i].title != "";
      assert CourseFiled(cat, transformDate, d)(courses[i]).Some?;
      assert Get(next, CourseMapKey(d, c)).Some?;
    } else {
      assert Processed(cat, depts[1..], d, c);
      FoldDepartmentsComplete(cat, transformDate, depts[1..], next, d, c);
    }
  }

  /** The course is one `processTerm` processes from the term's own listing. */
  predicate ProcessedInTerm(cat: Catalog, dept: string, number: string) {
    cat.departments.Fetched? && Processed(cat, cat.departments.value, dept, number)
  }

  /** `processTerm`: fails only when the department listing does, and
      otherwise folds its departments in. */
  function ProcessTerm(cat: Catalog, transformDate: string -> Option<string>, m: Entries<CourseWithSectionDetails>)
    : (r: Result<Entries<CourseWithSectionDetails>, HarvestError>)
    ensures r.Err? <==> cat.departments.FetchFailed?
    ensures r.Err? ==> r.error == DepartmentsFailed
    ensures r.Ok? ==> r.value == FoldDepartments(cat, transformDate, cat.departments.value, m)
  {
    match cat.departments
    case FetchFailed => Err(DepartmentsFailed)
    case Fetched(depts) => Ok(FoldDepartments(cat, transformDate, depts, m))
  }

  /** After `processTerm`, every course it processes that files a course has
      an entry, whatever the map held before. */
  lemma ProcessTermComplete(cat: Catalog, transformDate: string -> Option<string>,
                            m: Entries<CourseWithSectionDetails>, d: string, n: string)
    requires ProcessedInTerm(cat, d, n) && FiledCourse(cat, transformDate, d, n).Some?
    ensures ProcessTerm(cat, transformDate, m).Ok?
    ensures Get(ProcessTerm(cat, transformDate, m).value, CourseMapKey(d, n)).Some?
  {
    FoldDepartmentsComplete(cat, transformDate, cat.departments.value, m, d, n);
  }

  // ---------------------------------------------------------------------------
  // Writing the term's section file

  predicate HasCourseKey(c: CourseWithSectionDetails) {
    c.dept != "" && c.number != ""
  }

  /** The map's values with an empty department or number dropped and each
      course's sections sorted by code, in map order. */
  function Kept(m: Entries<CourseWithSectionDetails>): (r: seq<CourseWithSectionDetails>)
    ensures |r| == |Filter(Values(m), HasCourseKey)|
    ensures forall i :: 0 <= i < |r| ==> r[i] == SortSections(Filter(Values(m), HasCourseKey)[i])
    ensures forall i :: 0 <= i < |r| ==> HasCourseKey(r[i]) && SortedBy(r[i].sectionDetails, SectionLe)
  {
    var kept := Filter(Values(m), HasCourseKey);
    assert forall i :: 0 <= i < |kept| ==> kept[i] in kept;
    seq(|kept|, i requires 0 <= i < |kept| => SortSections(kept[i]))
  }

  /** `main` after the fold: the kept courses sorted by (Dept, Number). Every
      written course has a department and a number and its sections in code
      order, and the list is a sorted permutation of the kept courses. */
  function Finalize(m: Entries<CourseWithSectionDetails>): (r: seq<CourseWithSectionDetails>)
    ensures forall i :: 0 <= i < |r| ==> HasCourseKey(r[i])
    ensures forall i :: 0 <= i < |r| ==> SortedBy(r[i].sectionDetails, SectionLe)
    ensures SortedBy(r, CourseLe)
    ensures multiset(r) == multiset(Kept(m))
  {
    CourseLeTotalPreorder();
    var each := Kept(m);
    var r := Sort(each, CourseLe);
    SortedMembers(r, each);
    r
  }

  /** A permutation of the kept courses keeps their keys and their section order. */
  lemma SortedMembers(r: seq<CourseWithSectionDetails>, each: seq<CourseWithSectionDetails>)
    requires multiset(r) == multiset(each)
    requires forall j :: 0 <= j < |each| ==> HasCourseKey(each[j]) && SortedBy(each[j].sectionDetails, SectionLe)
    ensures forall i :: 0 <= i < |r| ==> HasCourseKey(r[i]) && SortedBy(r[i].sectionDetails, SectionLe)
  {
    MultisetMembers(r, each);
    forall i | 0 <= i < |r|
      ensures HasCourseKey(r[i]) && SortedBy(r[i].sectionDetails, SectionLe)
    {
      assert r[i] in each;
    }
  }

  /** A course kept from a well-formed map has a section. */
  lemma KeptNonEmpty(m: Entries<CourseWithSectionDetails>, j: nat)
    requires WellFormed(m)
    requires j < |Kept(m)|
    ensures |Kept(m)[j].sectionDetails| > 0
  {
    var vs := Values(m);
    var kept := Filter(vs, HasCourseKey);
    assert kept[j] in kept;
    var i :| 0 <= i < |vs| && vs[i] == kept[j];
    assert |m[i].1.sectionDetails| > 0;
    var sorted := SortSections(kept[j]);
    assert |multiset(sorted.sectionDetails)| == |multiset(kept[j].sectionDetails)|;
  }

  /** From a well-formed map every written course has a section. */
  lemma FinalizeNonEmpty(m: Entries<CourseWithSectionDetails>, c: CourseWithSectionDetails)
    requires WellFormed(m)
    requires c in Finalize(m)
    ensures |c.sectionDetails| > 0
  {
    var each := Kept(m);
    MultisetMembers(Finalize(m), each);
    var j :| 0 <= j < |each| && each[j] == c;
    KeptNonEmpty(m, j);
  }

  lemma FinalizeAllNonEmpty(m: Entries<CourseWithSectionDetails>)
    requires WellFormed(m)
    ensures forall i :: 0 <= i < |Finalize(m)| ==> |Finalize(m)[i].sectionDetails| > 0
  {
    forall i | 0 <= i < |Finalize(m)|
      ensures |Finalize(m)[i].sectionDetails| > 0
    {
      FinalizeNonEmpty(m, Finalize(m)[i]);
    }
  }

  /** Every course the map holds under a department and a number is written,
      with its sections re-sorted. */
  lemma FinalizeComplete(m: Entries<CourseWithSectionDetails>, k: string)
    requires DistinctKeys(m)
    requires Get(m, k).Some? && HasCourseKey(Get(m, k).value)
    ensures SortSections(Get(m, k).value) in Finalize(m)
  {
    KeptComplete(m, k);
    MultisetMembers(Finalize(m), Kept(m));
  }

  /** A course the map holds under a department and a number is kept. */
  lemma KeptComplete(m: Entries<CourseWithSectionDetails>, k: string)
    requires DistinctKeys(m)
    requires Get(m, k).Some? && HasCourseKey(Get(m, k).value)
    ensures SortSections(Get(m, k).value) in Kept(m)
  {
    var v := Get(m, k).value;
    var vs := Values(m);
    var i :| 0 <= i < |m| && m[i] == (k, v);
    assert vs[i] == v;
    var kept := Filter(vs, HasCourseKey);
    assert v in kept;
    var j :| 0 <= j < |kept| && kept[j] == v;
    assert Kept(m)[j] == SortSections(v);
  }

  /** The whole run: the term fold from an empty map, then the written list.
      Fails exactly when the department listing does; otherwise every
      written course has a key and at least one section, sections in code
      order, courses in (Dept, Number) order. */
  function Run(cat: Catalog, transformDate: string -> Option<string>)
    : (r: Result<seq<CourseWithSectionDetails>, HarvestError>)
    ensures r.Err? <==> cat.departments.FetchFailed?
    ensures r.Ok? ==> SortedBy(r.value, CourseLe)
    ensures r.Ok? ==> forall i :: 0 <= i < |r.value| ==>
      && HasCourseKey(r.value[i])
      && |r.value[i].sectionDetails| > 0
      && SortedBy(r.value[i].sectionDetails, SectionLe)
  {
    match ProcessTerm(cat, transformDate, [])
    case Err(e) => Err(e)
    case Ok(m) =>
      FinalizeAllNonEmpty(m);
      Ok(Finalize(m))
  }

  /** Every kept course is a map entry with a department and a number, its
      sections re-sorted. */
  lemma KeptSound(m: Entries<CourseWithSectionDetails>, c: CourseWithSectionDetails)
    requires DistinctKeys(m) && c in Kept(m)
    ensures exists k :: Get(m, k).Some? && HasCourseKey(Get(m, k).value) && c == SortSections(Get(m, k).value)
  {
    var j :| 0 <= j < |Kept(m)| && Kept(m)[j] == c;
    var kept := Filter(Values(m), HasCourseKey);
    var v := kept[j];
    assert v in kept;
    var i :| 0 <= i < |m| && Values(m)[i] == v;
    GetAt(m, i);
    assert Get(m, m[i].0).Some? && HasCourseKey(Get(m, m[i].0).value) && c == SortSections(Get(m, m[i].0).value);
  }

  /** Every written course is a map entry with a department and a number,
      its sections re-sorted. */
  lemma FinalizeSound(m: Entries<CourseWithSectionDetails>, c: CourseWithSectionDetails)
    requires DistinctKeys(m) && c in Finalize(m)
    ensures exists k :: Get(m, k).Some? && HasCourseKey(Get(m, k).value) && c == SortSections(Get(m, k).value)
  {
    MultisetMembers(Finalize(m), Kept(m));
    KeptSound(m, c);
  }

  /** Every course the term fold from an empty map holds is the filed course
      of a course processed from the term's listing. */
  lemma TermFiledSound(cat: Catalog, transformDate: string -> Option<string>, k: string, v: CourseWithSectionDetails)
    requires cat.departments.Fetched?
    requires Get(FoldDepartments(cat, transformDate, cat.departments.value, []), k) == Some(v)
    ensures exists d, n :: ProcessedInTerm(cat, d, n) && k == CourseMapKey(d, n)
                           && FiledCourse(cat, transformDate, d, n) == Some(v)
  {
    FoldDepartmentsSound(cat, transformDate, cat.departments.value, [], k);
  }

  /** The term fold from an empty map holds the filed course of every
      processed course that files one, when no other processed course shares
      its map key. */
  lemma TermFiledComplete(cat: Catalog, transformDate: string -> Option<string>, d: string, n: string)
    requires ProcessedInTerm(cat, d, n) && FiledCourse(cat, transformDate, d, n).Some?
    requires forall d', n' :: ProcessedInTerm(cat, d', n') && CourseMapKey(d', n') == CourseMapKey(d, n) ==>
      d' == d && n' == n
    ensures Get(FoldDepartments(cat, transformDate, cat.departments.value, []), CourseMapKey(d, n))
            == FiledCourse(cat, transformDate, d, n)
  {
    var k := CourseMapKey(d, n);
    FoldDepartmentsComplete(cat, transformDate, cat.departments.value, [], d, n);
    TermFiledSound(cat, transformDate, k, Get(FoldDepartments(cat, transformDate, cat.departments.value, []), k).value);
  }

  /** The run's list is the written list of the term fold from an empty map. */
  lemma RunFinalizes(cat: Catalog, transformDate: string -> Option<string>)
    requires cat.departments.Fetched?
    ensures Run(cat, transformDate)
            == Ok(Finalize(FoldDepartments(cat, transformDate, cat.departments.value, [])))
    ensures WellFormed(FoldDepartments(cat, transformDate, cat.departments.value, []))
  {
  }

  /** Every course the run writes is, with its sections re-sorted, the filed
      course of a course it processes: one listed with a title under a
      department with a non-empty value in the term's listing. */
  lemma RunSound(cat: Catalog, transformDate: string -> Option<string>, c: CourseWithSectionDetails)
    requires Run(cat, transformDate).Ok? && c in Run(cat, transformDate).value
    ensures exists d, n :: ProcessedInTerm(cat, d, n) && FiledCourse(cat, transformDate, d, n).Some?
                           && c == SortSections(FiledCourse(cat, transformDate, d, n).value)
  {
    RunFinalizes(cat, transformDate);
    var m := FoldDepartments(cat, transformDate, cat.departments.value, []);
    FinalizeSound(m, c);
    var k :| Get(m, k).Some? && HasCourseKey(Get(m, k).value) && c == SortSections(Get(m, k).value);
    TermFiledSound(cat, transformDate, k, Get(m, k).value);
  }

  /** Every course the run processes, whose filed course has a department
      and a number, is written with its sections re-sorted, provided no
      other processed course shares its map key. */
  lemma RunComplete(cat: Catalog, transformDate: string -> Option<string>, d: string, n: string)
    requires ProcessedInTerm(cat, d, n) && FiledCourse(cat, transformDate, d, n).Some?
    requires HasCourseKey(FiledCourse(cat, transformDate, d, n).value)
    requires forall d', n' :: ProcessedInTerm(cat, d', n') && CourseMapKey(d', n') == CourseMapKey(d, n) ==>
      d' == d && n' == n
    ensures Run(cat, transformDate).Ok?
    ensures SortSections(FiledCourse(cat, transformDate, d, n).value) in Run(cat, transformDate).value
  {
    RunFinalizes(cat, transformDate);
    TermFiledComplete(cat, transformDate, d, n);
    FinalizeComplete(FoldDepartments(cat, transformDate, cat.departments.value, []), CourseMapKey(d, n));
  }
}
