/** The shared harvest of `scripts/utils.go`: a term's departments, courses
    and sections folded into a map of outlines or of courses with sections,
    and the writer that turns the outline map into `outlines.json`. Requests
    run one after another; a failed request for one course or department is
    reported and skipped. */
module Harvest {
  import opened Outcomes
  import opened Seqs
  import opened Sorting
  import opened Records
  import opened AssocList
  import opened Catalog

  // ---------------------------------------------------------------------------
  // Outline mode

  /** The outline `processCourseOutline` files for a course: the outline of
      its first section, when the section listing and that outline arrive. */
  function OutlineOf(cat: Catalog, dept: string, number: string): Option<CourseOutline> {
    match cat.sections(dept, number)
    case FetchFailed => None
    case Fetched(sections) =>
      if |sections| == 0 then None
      else
        match cat.outline(dept, number, sections[0].value)
        case Fetched(o) => Some(o)
        case FetchFailed => None
  }

  /** `processCourseOutline`: the outline of the course's first section, filed
      under "dept number". No sections: nothing filed. */
  function ProcessCourseOutline(cat: Catalog, dept: string, number: string, m: Entries<CourseOutline>)
    : (r: Result<Entries<CourseOutline>, HarvestError>)
    ensures cat.sections(dept, number).FetchFailed? ==> r == Err(SectionsFailed(dept, number))
    ensures r.Err? <==>
      || cat.sections(dept, number).FetchFailed?
      || (|cat.sections(dept, number).value| > 0
          && cat.outline(dept, number, cat.sections(dept, number).value[0].value).FetchFailed?)
    ensures r.Ok? ==> forall k :: k != CourseMapKey(dept, number) ==> Get(r.value, k) == Get(m, k)
    ensures OutlineOf(cat, dept, number).Some? ==>
      r.Ok? && Get(r.value, CourseMapKey(dept, number)) == OutlineOf(cat, dept, number)
    ensures r.Ok? && OutlineOf(cat, dept, number).None? ==> r.value == m
    ensures r.Ok? && DistinctKeys(m) ==> DistinctKeys(r.value)
  {
    match cat.sections(dept, number)
    case FetchFailed => Err(SectionsFailed(dept, number))
    case Fetched(sections) =>
      if |sections| == 0 then Ok(m)
      else
        match cat.outline(dept, number, sections[0].value)
        case FetchFailed => Err(OutlineFailed(dept, number))
        case Fetched(o) =>
          PutGet(m, CourseMapKey(dept, number), o);
          if DistinctKeys(m) then PutDistinct(m, CourseMapKey(dept, number), o); Ok(Put(m, CourseMapKey(dept, number), o))
          else Ok(Put(m, CourseMapKey(dept, number), o))
  }

  /** The outline-mode loop of `processDepartment`: courses already in the map
      are not fetched again, and a failed course is skipped. So an entry,
      once made, is never replaced; every new entry is the outline of a
      listed course of this department, filed under its key; and every listed
      course whose outline arrives ends up with an entry. */
  function FoldOutlineCourses(cat: Catalog, dept: string, courses: seq<CourseRes>, m: Entries<CourseOutline>)
    : (r: Entries<CourseOutline>)
    ensures forall k :: Get(m, k).Some? ==> Get(r, k) == Get(m, k)
    ensures forall k :: Get(r, k).Some? && Get(m, k).None? ==>
      exists i :: 0 <= i < |courses| && k == CourseMapKey(dept, courses[i].value)
                  && Get(r, k) == OutlineOf(cat, dept, courses[i].value)
    ensures forall i :: 0 <= i < |courses| && OutlineOf(cat, dept, courses[i].value).Some? ==>
      Get(r, CourseMapKey(dept, courses[i].value)).Some?
    ensures DistinctKeys(m) ==> DistinctKeys(r)
    decreases |courses|
  {
    if |courses| == 0 then m
    else
      var key := CourseMapKey(dept, courses[0].value);
      var next :=
        if Get(m, key).Some? then m
        else match ProcessCourseOutline(cat, dept, courses[0].value, m)
          case Ok(m') => m'
          case Err(_) => m;
      var r := FoldOutlineCourses(cat, dept, courses[1..], next);
      OutlineCoursesStep(cat, dept, courses, m, next, r);
      r
  }

  /** One step of `FoldOutlineCourses`, from what the first course's step
      does and what the rest of the fold promises. */
  lemma OutlineCoursesStep(cat: Catalog, dept: string, courses: seq<CourseRes>,
                           m: Entries<CourseOutline>, next: Entries<CourseOutline>, r: Entries<CourseOutline>)
    requires |courses| > 0
    requires forall k :: Get(m, k).Some? ==> Get(next, k) == Get(m, k)
    requires forall k :: Get(next, k).Some? && Get(m, k).None? ==>
      k == CourseMapKey(dept, courses[0].value) && Get(next, k) == OutlineOf(cat, dept, courses[0].value)
    requires OutlineOf(cat, dept, courses[0].value).Some? ==> Get(next, CourseMapKey(dept, courses[0].value)).Some?
    requires forall k :: Get(next, k).Some? ==> Get(r, k) == Get(next, k)
    requires forall k :: Get(r, k).Some? && Get(next, k).None? ==>
      exists i :: 0 <= i < |courses[1..]| && k == CourseMapKey(dept, courses[1..][i].value)
                  && Get(r, k) == OutlineOf(cat, dept, courses[1..][i].value)
    requires forall i :: 0 <= i < |courses[1..]| && OutlineOf(cat, dept, courses[1..][i].value).Some? ==>
      Get(r, CourseMapKey(dept, courses[1..][i].value)).Some?
    ensures forall k :: Get(m, k).Some? ==> Get(r, k) == Get(m, k)
    ensures forall k :: Get(r, k).Some? && Get(m, k).None? ==>
      exists i :: 0 <= i < |courses| && k == CourseMapKey(dept, courses[i].value)
                  && Get(r, k) == OutlineOf(cat, dept, courses[i].value)
    ensures forall i :: 0 <= i < |courses| && OutlineOf(cat, dept, courses[i].value).Some? ==>
      Get(r, CourseMapKey(dept, courses[i].value)).Some?
  {
    var tail := courses[1..];
    assert forall i :: 1 <= i < |courses| ==> courses[i] == tail[i - 1];
    forall k | Get(r, k).Some? && Get(m, k).None?
      ensures exists i :: 0 <= i < |courses| && k == CourseMapKey(dept, courses[i].value)
                          && Get(r, k) == OutlineOf(cat, dept, courses[i].value)
    {
      if Get(next, k).None? {
        var i :| 0 <= i < |tail| && k == CourseMapKey(dept, tail[i].value) && Get(r, k) == OutlineOf(cat, dept, tail[i].value);
        assert courses[i + 1] == tail[i];
      }
    }
    forall i | 0 <= i < |courses| && OutlineOf(cat, dept, courses[i].value).Some?
      ensures Get(r, CourseMapKey(dept, courses[i].value)).Some?
    {
      if i > 0 {
        assert tail[i - 1] == courses[i];
      }
    }
  }

  /** `processDepartment` in outline mode. */
  function ProcessDepartmentOutlines(cat: Catalog, dept: string, m: Entries<CourseOutline>)
    : (r: Result<Entries<CourseOutline>, HarvestError>)
    ensures r.Err? <==> cat.courses(dept).FetchFailed?
    ensures r.Err? ==> r.error == CoursesFailed(dept)
    ensures r.Ok? ==> r.value == FoldOutlineCourses(cat, dept, cat.courses(dept).value, m)
  {
    match cat.courses(dept)
    case FetchFailed => Err(CoursesFailed(dept))
    case Fetched(courses) => Ok(FoldOutlineCourses(cat, dept, courses, m))
  }

  /** The department loop of `ProcessTerm` in outline mode. A failed
      department is skipped: it adds nothing, and the departments after it
      are still processed. Entries are never replaced; every new entry is the
      outline of a course of a listed department whose course listing
      arrived; and every such course whose outline arrives has an entry. */
  function FoldOutlineDepartments(cat: Catalog, depts: seq<DepartmentRes>, m: Entries<CourseOutline>)
    : (r: Entries<CourseOutline>)
    ensures forall k :: Get(m, k).Some? ==> Get(r, k) == Get(m, k)
    ensures forall k :: Get(r, k).Some? && Get(m, k).None? ==>
      exists d, c :: ListedIn(cat, depts, d, c) && k == CourseMapKey(d, c) && Get(r, k) == OutlineOf(cat, d, c)
    ensures forall d, c :: ListedIn(cat, depts, d, c) && OutlineOf(cat, d, c).Some? ==> Get(r, CourseMapKey(d, c)).Some?
    ensures DistinctKeys(m) ==> DistinctKeys(r)
    decreases |depts|
  {
    if |depts| == 0 then m
    else
      var next := match ProcessDepartmentOutlines(cat, depts[0].value, m)
        case Ok(m') => m'
        case Err(_) => m;
      var r := FoldOutlineDepartments(cat, depts[1..], next);
      OutlineDepartmentsStep(cat, depts, m, next, r);
      r
  }

  /** What the first department's step does: it changes nothing unless its
      course listing arrived, and then acts as the course fold over it. */
  lemma OutlineDepartmentStep(cat: Catalog, dept: string, m: Entries<CourseOutline>, next: Entries<CourseOutline>)
    requires next == match ProcessDepartmentOutlines(cat, dept, m) case Ok(m') => m' case Err(_) => m
    ensures forall k :: Get(m, k).Some? ==> Get(next, k) == Get(m, k)
    ensures forall k :: Get(next, k).Some? && Get(m, k).None? ==>
      exists c :: CourseListed(cat, dept, c) && k == CourseMapKey(dept, c) && Get(next, k) == OutlineOf(cat, dept, c)
    ensures forall c :: CourseListed(cat, dept, c) && OutlineOf(cat, dept, c).Some? ==> Get(next, CourseMapKey(dept, c)).Some?
  {
    if cat.courses(dept).Fetched? {
      var courses := cat.courses(dept).value;
      forall k | Get(next, k).Some? && Get(m, k).None?
        ensures exists c :: CourseListed(cat, dept, c) && k == CourseMapKey(dept, c) && Get(next, k) == OutlineOf(cat, dept, c)
      {
        var i :| 0 <= i < |courses| && k == CourseMapKey(dept, courses[i].value) && Get(next, k) == OutlineOf(cat, dept, courses[i].value);
        assert CourseListed(cat, dept, courses[i].value);
      }
      forall c | CourseListed(cat, dept, c) && OutlineOf(cat, dept, c).Some?
        ensures Get(next, CourseMapKey(dept, c)).Some?
      {
        var i :| 0 <= i < |courses| && courses[i].value == c;
      }
    }
  }

  /** One step of `FoldOutlineDepartments`. */
  lemma OutlineDepartmentsStep(cat: Catalog, depts: seq<DepartmentRes>,
                               m: Entries<CourseOutline>, next: Entries<CourseOutline>, r: Entries<CourseOutline>)
    requires |depts| > 0
    requires next == match ProcessDepartmentOutlines(cat, depts[0].value, m) case Ok(m') => m' case Err(_) => m
    requires forall k :: Get(next, k).Some? ==> Get(r, k) == Get(next, k)
    requires forall k :: Get(r, k).Some? && Get(next, k).None? ==>
      exists d, c :: ListedIn(cat, depts[1..], d, c) && k == CourseMapKey(d, c) && Get(r, k) == OutlineOf(cat, d, c)
    requires forall d, c :: ListedIn(cat, depts[1..], d, c) && OutlineOf(cat, d, c).Some? ==> Get(r, CourseMapKey(d, c)).Some?
    ensures forall k :: Get(m, k).Some? ==> Get(r, k) == Get(m, k)
    ensures forall k :: Get(r, k).Some? && Get(m, k).None? ==>
      exists d, c :: ListedIn(cat, depts, d, c) && k == CourseMapKey(d, c) && Get(r, k) == OutlineOf(cat, d, c)
    ensures forall d, c :: ListedIn(cat, depts, d, c) && OutlineOf(cat, d, c).Some? ==> Get(r, CourseMapKey(d, c)).Some?
  {
    var d0 := depts[0].value;
    OutlineDepartmentStep(cat, d0, m, next);
    forall k | Get(r, k).Some? && Get(m, k).None?
      ensures exists d, c :: ListedIn(cat, depts, d, c) && k == CourseMapKey(d, c) && Get(r, k) == OutlineOf(cat, d, c)
    {
      if Get(next, k).Some? {
        var c :| CourseListed(cat, d0, c) && k == CourseMapKey(d0, c) && Get(next, k) == OutlineOf(cat, d0, c);
        DeptListedCons(depts, d0);
        assert ListedIn(cat, depts, d0, c);
      } else {
        var d, c :| ListedIn(cat, depts[1..], d, c) && k == CourseMapKey(d, c) && Get(r, k) == OutlineOf(cat, d, c);
        DeptListedCons(depts, d);
        assert ListedIn(cat, depts, d, c);
      }
    }
    forall d, c | ListedIn(cat, depts, d, c) && OutlineOf(cat, d, c).Some?
      ensures Get(r, CourseMapKey(d, c)).Some?
    {
      DeptListedCons(depts, d);
      if d != d0 {
        assert ListedIn(cat, depts[1..], d, c);
      }
    }
  }

  /** `ProcessTerm` in outline mode: fails only when the department listing
      does; otherwise it adds outlines and never replaces one, so over a run
      of terms the first term to supply a course's outline wins. What it
      adds is exactly what the department fold promises over the listing. */
  function ProcessTermOutlines(cat: Catalog, m: Entries<CourseOutline>)
    : (r: Result<Entries<CourseOutline>, HarvestError>)
    ensures r.Err? <==> cat.departments.FetchFailed?
    ensures r.Err? ==> r.error == DepartmentsFailed
    ensures r.Ok? ==> forall k :: Get(m, k).Some? ==> Get(r.value, k) == Get(m, k)
    ensures r.Ok? ==> forall k :: Get(r.value, k).Some? && Get(m, k).None? ==>
      exists d, c :: ListedInTerm(cat, d, c) && k == CourseMapKey(d, c) && Get(r.value, k) == OutlineOf(cat, d, c)
    ensures r.Ok? ==> forall d, c :: ListedInTerm(cat, d, c) && OutlineOf(cat, d, c).Some? ==>
      Get(r.value, CourseMapKey(d, c)).Some?
    ensures r.Ok? && DistinctKeys(m) ==> DistinctKeys(r.value)
  {
    match cat.departments
    case FetchFailed => Err(DepartmentsFailed)
    case Fetched(depts) => Ok(FoldOutlineDepartments(cat, depts, m))
  }

  /** Over several terms, processed in order with a failed term skipped: an
      outline found in an earlier term is the one that is kept; every new
      entry is the outline of a course some term lists; and every course a
      term lists whose outline arrives in that term has an entry. */
  function ProcessTermsOutlines(cats: seq<Catalog>, m: Entries<CourseOutline>): (r: Entries<CourseOutline>)
    ensures forall k :: Get(m, k).Some? ==> Get(r, k) == Get(m, k)
    ensures forall k :: Get(r, k).Some? && Get(m, k).None? ==>
      exists t, d, c :: 0 <= t < |cats| && ListedInTerm(cats[t], d, c) && k == CourseMapKey(d, c)
                        && Get(r, k) == OutlineOf(cats[t], d, c)
    ensures forall t, d, c :: 0 <= t < |cats| && ListedInTerm(cats[t], d, c) && OutlineOf(cats[t], d, c).Some? ==>
      Get(r, CourseMapKey(d, c)).Some?
    ensures DistinctKeys(m) ==> DistinctKeys(r)
    decreases |cats|
  {
    if |cats| == 0 then m
    else
      var next := match ProcessTermOutlines(cats[0], m)
        case Ok(m') => m'
        case Err(_) => m;
      var r := ProcessTermsOutlines(cats[1..], next);
      TermsOutlinesStep(cats, m, next, r);
      r
  }

  /** One step of `ProcessTermsOutlines`. */
  lemma TermsOutlinesStep(cats: seq<Catalog>, m: Entries<CourseOutline>, next: Entries<CourseOutline>, r: Entries<CourseOutline>)
    requires |cats| > 0
    requires next == match ProcessTermOutlines(cats[0], m) case Ok(m') => m' case Err(_) => m
    requires forall k :: Get(next, k).Some? ==> Get(r, k) == Get(next, k)
    requires forall k :: Get(r, k).Some? && Get(next, k).None? ==>
      exists t, d, c :: 0 <= t < |cats[1..]| && ListedInTerm(cats[1..][t], d, c) && k == CourseMapKey(d, c)
                        && Get(r, k) == OutlineOf(cats[1..][t], d, c)
    requires forall t, d, c :: 0 <= t < |cats[1..]| && ListedInTerm(cats[1..][t], d, c) && OutlineOf(cats[1..][t], d, c).Some? ==>
      Get(r, CourseMapKey(d, c)).Some?
    ensures forall k :: Get(m, k).Some? ==> Get(r, k) == Get(m, k)
    ensures forall k :: Get(r, k).Some? && Get(m, k).None? ==>
      exists t, d, c :: 0 <= t < |cats| && ListedInTerm(cats[t], d, c) && k == CourseMapKey(d, c)
                        && Get(r, k) == OutlineOf(cats[t], d, c)
    ensures forall t, d, c :: 0 <= t < |cats| && ListedInTerm(cats[t], d, c) && OutlineOf(cats[t], d, c).Some? ==>
      Get(r, CourseMapKey(d, c)).Some?
  {
    var tail := cats[1..];
    forall k | Get(r, k).Some? && Get(m, k).None?
      ensures exists t, d, c :: 0 <= t < |cats| && ListedInTerm(cats[t], d, c) && k == CourseMapKey(d, c)
                                && Get(r, k) == OutlineOf(cats[t], d, c)
    {
      if Get(next, k).Some? {
        var d, c :| ListedInTerm(cats[0], d, c) && k == CourseMapKey(d, c) && Get(next, k) == OutlineOf(cats[0], d, c);
      } else {
        var t, d, c :| 0 <= t < |tail| && ListedInTerm(tail[t], d, c) && k == CourseMapKey(d, c) && Get(r, k) == OutlineOf(tail[t], d, c);
        assert cats[t + 1] == tail[t];
      }
    }
    forall t, d, c | 0 <= t < |cats| && ListedInTerm(cats[t], d, c) && OutlineOf(cats[t], d, c).Some?
      ensures Get(r, CourseMapKey(d, c)).Some?
    {
      if t > 0 {
        assert tail[t - 1] == cats[t];
      }
    }
  }

  // ---------------------------------------------------------------------------
  // Writing outlines.json

  predicate HasOutlineKey(o: CourseOutline) {
    o.dept != "" && o.number != ""
  }

  /** `ProcessAndWriteOutlines` before marshalling: the map's values, those
      with an empty department or number dropped, sorted by (Dept, Number):
      a sorted permutation of the kept values. */
  function ProcessOutlines(m: Entries<CourseOutline>): (r: seq<CourseOutline>)
    ensures forall i :: 0 <= i < |r| ==> r[i].dept != "" && r[i].number != ""
    ensures SortedBy(r, OutlineLe)
    ensures multiset(r) == multiset(Filter(Values(m), HasOutlineKey))
  {
    OutlineLeTotalPreorder();
    var kept := Filter(Values(m), HasOutlineKey);
    var r := Sort(kept, OutlineLe);
    PermutedFilterHolds(r, Values(m), HasOutlineKey);
    r
  }

  /** Every written outline is the value of some key of the map. */
  lemma ProcessOutlinesSound(m: Entries<CourseOutline>, o: CourseOutline)
    requires DistinctKeys(m)
    requires o in ProcessOutlines(m)
    ensures HasOutlineKey(o) && exists k :: Get(m, k) == Some(o)
  {
    var vs := Values(m);
    MultisetMembers(ProcessOutlines(m), Filter(vs, HasOutlineKey));
    assert o in vs;
    var i :| 0 <= i < |vs| && vs[i] == o;
    GetAt(m, i);
  }

  /** Every outline of the map with a department and a number is written. */
  lemma ProcessOutlinesComplete(m: Entries<CourseOutline>, k: string)
    requires DistinctKeys(m)
    requires Get(m, k).Some? && HasOutlineKey(Get(m, k).value)
    ensures Get(m, k).value in ProcessOutlines(m)
  {
    var vs := Values(m);
    var i :| 0 <= i < |m| && m[i] == (k, Get(m, k).value);
    assert vs[i] == Get(m, k).value;
    MultisetMembers(ProcessOutlines(m), Filter(vs, HasOutlineKey));
  }

  // ---------------------------------------------------------------------------
  // Section mode

  /** The course `processSectionDetails` files: the fold of the details of
      the course's sections that arrive, when its section listing arrives
      and at least one detail does. */
  function DetailsOf(cat: Catalog, transformDate: string -> Option<string>, dept: string, number: string)
    : Option<CourseWithSectionDetails>
  {
    match cat.sections(dept, number)
    case FetchFailed => None
    case Fetched(sections) => ToCourseWithSectionDetails(transformDate, Collect(cat, dept, number, sections))
  }

  /** `processSectionDetails` of `scripts/utils.go`: every section's detail is
      requested, failures skipped; with at least one detail the folded course
      is filed under "dept number", replacing what was there. */
  function ProcessSectionDetails(cat: Catalog, transformDate: string -> Option<string>,
                                 dept: string, number: string, m: Entries<CourseWithSectionDetails>)
    : (r: Result<Entries<CourseWithSectionDetails>, HarvestError>)
    ensures r.Err? <==> cat.sections(dept, number).FetchFailed?
    ensures r.Err? ==> r.error == SectionsFailed(dept, number)
    ensures r.Ok? ==> forall k :: k != CourseMapKey(dept, number) ==> Get(r.value, k) == Get(m, k)
    ensures r.Ok? ==>
      var raws := Collect(cat, dept, number, cat.sections(dept, number).value);
      && (|raws| == 0 ==> r.value == m)
      && (|raws| > 0 ==> Get(r.value, CourseMapKey(dept, number)) == ToCourseWithSectionDetails(transformDate, raws))
    ensures DetailsOf(cat, transformDate, dept, number).Some? ==>
      r.Ok? && Get(r.value, CourseMapKey(dept, number)) == DetailsOf(cat, transformDate, dept, number)
    ensures r.Ok? && DetailsOf(cat, transformDate, dept, number).None? ==> r.value == m
    ensures r.Ok? && DistinctKeys(m) ==> DistinctKeys(r.value)
  {
    match cat.sections(dept, number)
    case FetchFailed => Err(SectionsFailed(dept, number))
    case Fetched(sections) =>
      var raws := Collect(cat, dept, number, sections);
      match ToCourseWithSectionDetails(transformDate, raws)
      case None => Ok(m)
      case Some(c) =>
        PutGet(m, CourseMapKey(dept, number), c);
        if DistinctKeys(m) then PutDistinct(m, CourseMapKey(dept, number), c); Ok(Put(m, CourseMapKey(dept, number), c))
        else Ok(Put(m, CourseMapKey(dept, number), c))
  }

  /** The section-mode loop of `processDepartment`; a failed course is skipped.
      Entries are added or replaced, never removed; each changed entry holds
      the folded details of a listed course of this department with that
      key; and every listed course with at least one detail has an entry. */
  function FoldSectionCourses(cat: Catalog, transformDate: string -> Option<string>, dept: string,
                              courses: seq<CourseRes>, m: Entries<CourseWithSectionDetails>)
    : (r: Entries<CourseWithSectionDetails>)
    ensures forall k :: Get(m, k).Some? ==> Get(r, k).Some?
    ensures forall k :: Get(r, k) != Get(m, k) ==>
      exists i :: 0 <= i < |courses| && k == CourseKey(dept)(courses[i])
                  && Get(r, k) == CourseDetails(cat, transformDate, dept)(courses[i])
    ensures forall i :: 0 <= i < |courses| && CourseDetails(cat, transformDate, dept)(courses[i]).Some? ==>
      Get(r, CourseKey(dept)(courses[i])).Some?
    ensures DistinctKeys(m) ==> DistinctKeys(r)
    decreases |courses|
  {
    if |courses| == 0 then m
    else
      var next := match ProcessSectionDetails(cat, transformDate, dept, courses[0].value, m)
        case Ok(m') => m'
        case Err(_) => m;
      var r := FoldSectionCourses(cat, transformDate, dept, courses[1..], next);
      FileEachStep(courses, CourseKey(dept), CourseDetails(cat, transformDate, dept), m, next, r);
      r
  }

  /** What the section-mode course loop files for a course of `dept`. */
  function CourseDetails(cat: Catalog, transformDate: string -> Option<string>, dept: string)
    : CourseRes -> Option<CourseWithSectionDetails>
  {
    (c: CourseRes) => DetailsOf(cat, transformDate, dept, c.value)
  }

  /** `processDepartment` in section mode. */
  function ProcessDepartmentSections(cat: Catalog, transformDate: string -> Option<string>, dept: string,
                                     m: Entries<CourseWithSectionDetails>)
    : (r: Result<Entries<CourseWithSectionDetails>, HarvestError>)
    ensures r.Err? <==> cat.courses(dept).FetchFailed?
    ensures r.Err? ==> r.error == CoursesFailed(dept)
    ensures r.Ok? ==> r.value == FoldSectionCourses(cat, transformDate, dept, cat.courses(dept).value, m)
  {
    match cat.courses(dept)
    case FetchFailed => Err(CoursesFailed(dept))
    case Fetched(courses) => Ok(FoldSectionCourses(cat, transformDate, dept, courses, m))
  }

  /** The department loop of `ProcessTerm` in section mode. A failed
      department is skipped: it changes nothing, and the departments after
      it are still processed. Entries are never removed and keys stay
      distinct; `FoldSectionDepartmentsSound` and
      `FoldSectionDepartmentsComplete` say which courses it files. */
  function FoldSectionDepartments(cat: Catalog, transformDate: string -> Option<string>,
                                  depts: seq<DepartmentRes>, m: Entries<CourseWithSectionDetails>)
    : (r: Entries<CourseWithSectionDetails>)
    ensures forall k :: Get(m, k).Some? ==> Get(r, k).Some?
    ensures DistinctKeys(m) ==> DistinctKeys(r)
    decreases |depts|
  {
    if |depts| == 0 then m
    else FoldSectionDepartments(cat, transformDate, depts[1..], SectionDepartmentStep(cat, transformDate, depts[0].value, m))
  }

  /** One department of the section-mode loop: skipped when its course
      listing fails, otherwise its courses are folded in. */
  function SectionDepartmentStep(cat: Catalog, transformDate: string -> Option<string>, dept: string,
                                 m: Entries<CourseWithSectionDetails>)
    : (r: Entries<CourseWithSectionDetails>)
    ensures cat.courses(dept).FetchFailed? ==> r == m
    ensures cat.courses(dept).Fetched? ==>
      r == FoldSectionCourses(cat, transformDate, dept, cat.courses(dept).value, m)
  {
    match ProcessDepartmentSections(cat, transformDate, dept, m)
    case Ok(m') => m'
    case Err(_) => m
  }

  /** Every entry the section-mode department loop changes holds the folded
      details of a course listed under a department of the listing. */
  lemma {:induction false} FoldSectionDepartmentsSound(cat: Catalog, transformDate: string -> Option<string>,
                                                       depts: seq<DepartmentRes>,
                                                       m: Entries<CourseWithSectionDetails>, k: string)
    requires Get(FoldSectionDepartments(cat, transformDate, depts, m), k) != Get(m, k)
    ensures exists d, c :: ListedIn(cat, depts, d, c) && k == CourseMapKey(d, c)
                           && Get(FoldSectionDepartments(cat, transformDate, depts, m), k) == DetailsOf(cat, transformDate, d, c)
    decreases |depts|
  {
    var next := SectionDepartmentStep(cat, transformDate, depts[0].value, m);
    var r := FoldSectionDepartments(cat, transformDate, depts, m);
    assert r == FoldSectionDepartments(cat, transformDate, depts[1..], next);
    if Get(r, k) != Get(next, k) {
      FoldSectionDepartmentsSound(cat, transformDate, depts[1..], next, k);
      var d, c :| ListedIn(cat, depts[1..], d, c) && k == CourseMapKey(d, c)
                  && Get(r, k) == DetailsOf(cat, transformDate, d, c);
      ListedInTail(cat, depts, d, c);
    } else {
      FirstSectionDepartmentSound(cat, transformDate, depts, m, k);
    }
  }

  /** A course reachable from the rest of the listing is reachable from the listing. */
  lemma ListedInTail(cat: Catalog, depts: seq<DepartmentRes>, dept: string, number: string)
    requires |depts| > 0 && ListedIn(cat, depts[1..], dept, number)
    ensures ListedIn(cat, depts, dept, number)
  {
    DeptListedCons(depts, dept);
  }

  /** An entry the first department changes holds the folded details of a
      course it lists. */
  lemma FirstSectionDepartmentSound(cat: Catalog, transformDate: string -> Option<string>, depts: seq<DepartmentRes>,
                                    m: Entries<CourseWithSectionDetails>, k: string)
    requires |depts| > 0
    requires Get(SectionDepartmentStep(cat, transformDate, depts[0].value, m), k) != Get(m, k)
    ensures exists c :: ListedIn(cat, depts, depts[0].value, c) && k == CourseMapKey(depts[0].value, c)
                        && Get(SectionDepartmentStep(cat, transformDate, depts[0].value, m), k)
                           == DetailsOf(cat, transformDate, depts[0].value, c)
  {
    var d0 := depts[0].value;
    SectionDepartmentStepSound(cat, transformDate, d0, m, k);
    var courses := cat.courses(d0).value;
    var next := SectionDepartmentStep(cat, transformDate, d0, m);
    var i :| 0 <= i < |courses| && k == CourseKey(d0)(courses[i])
             && Get(next, k) == CourseDetails(cat, transformDate, d0)(courses[i]);
    ListedSectionCourse(cat, transformDate, depts, i, Get(next, k));
  }

  /** What the first department's course loop files for its `i`-th course is
      the folded details of a course reachable from the listing. */
  lemma ListedSectionCourse(cat: Catalog, transformDate: string -> Option<string>, depts: seq<DepartmentRes>, i: int,
                            filed: Option<CourseWithSectionDetails>)
    requires |depts| > 0 && cat.courses(depts[0].value).Fetched?
    requires 0 <= i < |cat.courses(depts[0].value).value|
    requires filed == CourseDetails(cat, transformDate, depts[0].value)(cat.courses(depts[0].value).value[i])
    ensures ListedIn(cat, depts, depts[0].value, cat.courses(depts[0].value).value[i].value)
    ensures filed == DetailsOf(cat, transformDate, depts[0].value, cat.courses(depts[0].value).value[i].value)
  {
    assert CourseListed(cat, depts[0].value, cat.courses(depts[0].value).value[i].value);
  }

  /** An entry one department changes comes from its fetched course listing:
      it is filed under one of its courses' keys with that course's details. */
  lemma SectionDepartmentStepSound(cat: Catalog, transformDate: string -> Option<string>, dept: string,
                                   m: Entries<CourseWithSectionDetails>, k: string)
    requires Get(SectionDepartmentStep(cat, transformDate, dept, m), k) != Get(m, k)
    ensures cat.courses(dept).Fetched?
    ensures exists i :: 0 <= i < |cat.courses(dept).value| && k == CourseKey(dept)(cat.courses(dept).value[i])
                        && Get(SectionDepartmentStep(cat, transformDate, dept, m), k)
                           == CourseDetails(cat, transformDate, dept)(cat.courses(dept).value[i])
  {
  }

  /** Every course listed under a department of the listing and with at
      least one detail has an entry after the section-mode department loop. */
  lemma {:induction false} FoldSectionDepartmentsComplete(cat: Catalog, transformDate: string -> Option<string>,
                                                          depts: seq<DepartmentRes>,
                                                          m: Entries<CourseWithSectionDetails>, d: string, c: string)
    requires ListedIn(cat, depts, d, c) && DetailsOf(cat, transformDate, d, c).Some?
    ensures Get(FoldSectionDepartments(cat, transformDate, depts, m), CourseMapKey(d, c)).Some?
    decreases |depts|
  {
    var d0 := depts[0].value;
    var next := SectionDepartmentStep(cat, transformDate, d0, m);
    assert FoldSectionDepartments(cat, transformDate, depts, m) == FoldSectionDepartments(cat, transformDate, depts[1..], next);
    DeptListedCons(depts, d);
    if d0 == d {
      var courses := cat.courses(d).value;
      var i :| 0 <= i < |courses| && courses[i].value == c;
      assert CourseDetails(cat, transformDate, d)(courses[i]).Some?;
      assert Get(next, CourseMapKey(d, c)).Some?;
    } else {
      assert ListedIn(cat, depts[1..], d, c);
      FoldSectionDepartmentsComplete(cat, transformDate, depts[1..], next, d, c);
    }
  }

  /** `ProcessTerm` in section mode: fails only when the department listing
      does, and otherwise folds its departments in. */
  function ProcessTermSections(cat: Catalog, transformDate: string -> Option<string>, m: Entries<CourseWithSectionDetails>)
    : (r: Result<Entries<CourseWithSectionDetails>, HarvestError>)
    ensures r.Err? <==> cat.departments.FetchFailed?
    ensures r.Err? ==> r.error == DepartmentsFailed
    ensures r.Ok? ==> r.value == FoldSectionDepartments(cat, transformDate, cat.departments.value, m)
  {
    match cat.departments
    case FetchFailed => Err(DepartmentsFailed)
    case Fetched(depts) => Ok(FoldSectionDepartments(cat, transformDate, depts, m))
  }

  /** Every entry a section-mode term changes holds the folded details of a
      course reachable from the term's listing. */
  lemma ProcessTermSectionsSound(cat: Catalog, transformDate: string -> Option<string>,
                                 m: Entries<CourseWithSectionDetails>, k: string)
    requires ProcessTermSections(cat, transformDate, m).Ok?
    requires Get(ProcessTermSections(cat, transformDate, m).value, k) != Get(m, k)
    ensures exists d, c :: ListedInTerm(cat, d, c) && k == CourseMapKey(d, c)
                           && Get(ProcessTermSections(cat, transformDate, m).value, k) == DetailsOf(cat, transformDate, d, c)
  {
    FoldSectionDepartmentsSound(cat, transformDate, cat.departments.value, m, k);
  }

  /** After a section-mode term every course reachable from its listing and
      with at least one detail has an entry. */
  lemma ProcessTermSectionsComplete(cat: Catalog, transformDate: string -> Option<string>,
                                    m: Entries<CourseWithSectionDetails>, d: string, c: string)
    requires ListedInTerm(cat, d, c) && DetailsOf(cat, transformDate, d, c).Some?
    ensures ProcessTermSections(cat, transformDate, m).Ok?
    ensures Get(ProcessTermSections(cat, transformDate, m).value, CourseMapKey(d, c)).Some?
  {
    FoldSectionDepartmentsComplete(cat, transformDate, cat.departments.value, m, d, c);
  }
}
