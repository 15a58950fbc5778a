/** The university's course-outline service as the harvest scripts see it:
    each listing or detail request either answers with decoded JSON or fails.
    Which requests fail, and what they answer, are inputs. Also the fold of a
    course's raw sections into one course record. */
module Catalog {
  import opened Outcomes
  import opened Text
  import opened Sorting
  import opened Records
  import opened Seqs

  /** The outcome of one request. */
  datatype Fetch<+T> = Fetched(value: T) | FetchFailed

  datatype DepartmentRes = DepartmentRes(name: string, value: string)
  datatype CourseRes = CourseRes(title: string, value: string)
  datatype SectionRes = SectionRes(title: string, value: string)

  /** The answers of the service for one term: the department listing, the
      courses of a department, the sections of a course, and the outline or
      detail of one section (the detail's `info` is the outline's). */
  datatype Catalog = Catalog(
    departments: Fetch<seq<DepartmentRes>>,
    courses: string -> Fetch<seq<CourseRes>>,
    sections: (string, string) -> Fetch<seq<SectionRes>>,
    outline: (string, string, string) -> Fetch<CourseOutline>,
    sectionDetail: (string, string, string) -> Fetch<SectionDetailRaw>)

  /** Why a step of a harvest gave up. */
  datatype HarvestError =
    | DepartmentsFailed
    | EmptyDepartment
    | EmptyKey(dept: string, number: string)
    | CoursesFailed(dept: string)
    | SectionsFailed(dept: string, number: string)
    | OutlineFailed(dept: string, number: string)

  /** The harvest maps' key, `fmt.Sprintf("%s %s", dept, number)`. */
  function CourseMapKey(dept: string, number: string): string {
    dept + " " + number
  }

  /** Where a harvest files a course of `dept`. */
  function CourseKey(dept: string): CourseRes -> string {
    (c: CourseRes) => CourseMapKey(dept, c.value)
  }

  /** `dept` is the value of some department of the listing. */
  predicate DeptListed(depts: seq<DepartmentRes>, dept: string) {
    exists j :: 0 <= j < |depts| && depts[j].value == dept
  }

  /** `dept`'s course listing was fetched and lists a course `number`. */
  predicate CourseListed(cat: Catalog, dept: string, number: string) {
    cat.courses(dept).Fetched? && exists i :: 0 <= i < |cat.courses(dept).value| && cat.courses(dept).value[i].value == number
  }

  /** The course `dept number` is reachable from the department listing `depts`. */
  predicate ListedIn(cat: Catalog, depts: seq<DepartmentRes>, dept: string, number: string) {
    DeptListed(depts, dept) && CourseListed(cat, dept, number)
  }

  /** The course is reachable from the term's own department listing. */
  predicate ListedInTerm(cat: Catalog, dept: string, number: string) {
    cat.departments.Fetched? && ListedIn(cat, cat.departments.value, dept, number)
  }

  /** A department is listed by a non-empty listing exactly when it is the
      first one or listed by the rest. */
  lemma DeptListedCons(depts: seq<DepartmentRes>, dept: string)
    requires |depts| > 0
    ensures DeptListed(depts, dept) <==> depts[0].value == dept || DeptListed(depts[1..], dept)
  {
    if DeptListed(depts[1..], dept) {
      var j :| 0 <= j < |depts[1..]| && depts[1..][j].value == dept;
      assert depts[j + 1].value == dept;
    }
    if DeptListed(depts, dept) && depts[0].value != dept {
      var j :| 0 <= j < |depts| && depts[j].value == dept;
      assert depts[1..][j - 1].value == dept;
    }
  }

  // ---------------------------------------------------------------------------
  // ToCourseWithSectionDetails

  /** One schedule with its dates passed through `TransformDate`, which is an
      input here; a date it rejects becomes "". Everything else is copied. */
  function ToSchedule(transformDate: string -> Option<string>, s: Schedule): (r: Schedule)
    ensures r.campus == s.campus && r.days == s.days && r.sectionCode == s.sectionCode
    ensures r.startTime == s.startTime && r.endTime == s.endTime
    ensures transformDate(s.startDate).None? ==> r.startDate == ""
    ensures transformDate(s.startDate).Some? ==> r.startDate == transformDate(s.startDate).value
    ensures transformDate(s.endDate).None? ==> r.endDate == ""
    ensures transformDate(s.endDate).Some? ==> r.endDate == transformDate(s.endDate).value
  {
    Schedule(transformDate(s.startDate).GetOr(""), transformDate(s.endDate).GetOr(""),
             s.campus, s.days, s.startTime, s.endTime, s.sectionCode)
  }

  /** One raw section as a stored section: a `null` instructor or schedule
      list becomes the empty list; schedules are transformed one for one. */
  function ToSectionDetail(transformDate: string -> Option<string>, raw: SectionDetailRaw): (d: SectionDetail)
    ensures d.section == raw.info.section
    ensures d.deliveryMethod == raw.info.deliveryMethod && d.classNumber == raw.info.classNumber
    ensures raw.instructor.None? ==> d.instructors == []
    ensures raw.instructor.Some? ==> d.instructors == raw.instructor.value
    ensures raw.courseSchedule.None? ==> d.schedules == []
    ensures raw.courseSchedule.Some? ==>
      |d.schedules| == |raw.courseSchedule.value|
      && forall k :: 0 <= k < |d.schedules| ==> d.schedules[k] == ToSchedule(transformDate, raw.courseSchedule.value[k])
  {
    var schedules := raw.courseSchedule.GetOr([]);
    SectionDetail(
      raw.info.section, raw.info.deliveryMethod, raw.info.classNumber,
      raw.instructor.GetOr([]),
      seq(|schedules|, k requires 0 <= k < |schedules| => ToSchedule(transformDate, schedules[k])))
  }

  /** `ToCourseWithSectionDetails`: nothing for no sections; otherwise the
      course fields of the first raw section and one stored section per raw
      section, in order. */
  function ToCourseWithSectionDetails(transformDate: string -> Option<string>, raws: seq<SectionDetailRaw>)
    : (r: Option<CourseWithSectionDetails>)
    ensures r.None? <==> |raws| == 0
    ensures r.Some? ==>
      && r.value.dept == raws[0].info.dept && r.value.number == raws[0].info.number
      && r.value.title == raws[0].info.title && r.value.units == raws[0].info.units
      && r.value.term == raws[0].info.term
    ensures r.Some? ==>
      |r.value.sectionDetails| == |raws|
      && forall i :: 0 <= i < |raws| ==> r.value.sectionDetails[i] == ToSectionDetail(transformDate, raws[i])
  {
    if |raws| == 0 then None
    else
      var info := raws[0].info;
      Some(CourseWithSectionDetails(
        info.dept, info.number, info.title, info.units, info.term,
        seq(|raws|, i requires 0 <= i < |raws| => ToSectionDetail(transformDate, raws[i]))))
  }

  // ---------------------------------------------------------------------------
  // Collecting section details

  /** The sections whose detail request succeeds. */
  function DetailFetched(cat: Catalog, dept: string, number: string): SectionRes -> bool {
    (s: SectionRes) => cat.sectionDetail(dept, number, s.value).Fetched?
  }

  /** The details of the sections whose fetch succeeded, in listing order:
      the `i`th detail is the answer for the `i`th section whose request
      succeeded; failed fetches are skipped. */
  function Collect(cat: Catalog, dept: string, number: string, sections: seq<SectionRes>)
    : (raws: seq<SectionDetailRaw>)
    ensures |raws| == |Filter(sections, DetailFetched(cat, dept, number))|
    ensures forall i :: 0 <= i < |raws| ==>
      cat.sectionDetail(dept, number, Filter(sections, DetailFetched(cat, dept, number))[i].value) == Fetched(raws[i])
    ensures forall x :: x in raws <==> exists s :: s in sections && cat.sectionDetail(dept, number, s.value) == Fetched(x)
    decreases |sections|
  {
    if |sections| == 0 then []
    else
      var rest := Collect(cat, dept, number, sections[1..]);
      CollectStepOrder(cat, dept, number, sections, rest);
      CollectStepMembers(cat, dept, number, sections, rest);
      match cat.sectionDetail(dept, number, sections[0].value)
      case Fetched(raw) => [raw] + rest
      case FetchFailed => rest
  }

  /** One step of `Collect`, in order: the head section's detail, when it
      arrives, goes in front of the details of the others. */
  lemma CollectStepOrder(cat: Catalog, dept: string, number: string, sections: seq<SectionRes>, rest: seq<SectionDetailRaw>)
    requires |sections| > 0
    requires |rest| == |Filter(sections[1..], DetailFetched(cat, dept, number))|
    requires forall i :: 0 <= i < |rest| ==>
      cat.sectionDetail(dept, number, Filter(sections[1..], DetailFetched(cat, dept, number))[i].value) == Fetched(rest[i])
    ensures var raws := match cat.sectionDetail(dept, number, sections[0].value)
                        case Fetched(raw) => [raw] + rest
                        case FetchFailed => rest;
      && |raws| == |Filter(sections, DetailFetched(cat, dept, number))|
      && (forall i :: 0 <= i < |raws| ==>
            cat.sectionDetail(dept, number, Filter(sections, DetailFetched(cat, dept, number))[i].value) == Fetched(raws[i]))
  {
    var raws := match cat.sectionDetail(dept, number, sections[0].value)
                case Fetched(raw) => [raw] + rest
                case FetchFailed => rest;
    FilterPairedStep(sections, DetailFetched(cat, dept, number), Answers(cat, dept, number), rest, raws);
  }

  /** The detail request for section `s` answered `raw`. */
  function Answers(cat: Catalog, dept: string, number: string): (SectionRes, SectionDetailRaw) -> bool {
    (s: SectionRes, raw: SectionDetailRaw) => cat.sectionDetail(dept, number, s.value) == Fetched(raw)
  }

  /** One step of `Collect`, as a set: the details are those of the head
      section and of the others. */
  lemma CollectStepMembers(cat: Catalog, dept: string, number: string, sections: seq<SectionRes>, rest: seq<SectionDetailRaw>)
    requires |sections| > 0
    requires forall x :: x in rest <==> exists s :: s in sections[1..] && cat.sectionDetail(dept, number, s.value) == Fetched(x)
    ensures var raws := match cat.sectionDetail(dept, number, sections[0].value)
                        case Fetched(raw) => [raw] + rest
                        case FetchFailed => rest;
      forall x :: x in raws <==> exists s :: s in sections && cat.sectionDetail(dept, number, s.value) == Fetched(x)
  {
    assert forall s :: s in sections <==> s == sections[0] || s in sections[1..];
  }

  /** The order `slices.SortFunc` sorts a course's sections by: the section code. */
  predicate SectionLe(a: SectionDetail, b: SectionDetail) {
    LexLe(a.section, b.section)
  }

  lemma SectionLeTotalPreorder()
    ensures TotalPreorder(SectionLe)
  {
    forall a: SectionDetail, b: SectionDetail { LexLeTotal(a.section, b.section); }
    forall a: SectionDetail, b: SectionDetail, c: SectionDetail { LexLeTrans(a.section, b.section, c.section); }
  }

  /** A course with its sections sorted by section code. */
  function SortSections(c: CourseWithSectionDetails): (r: CourseWithSectionDetails)
    ensures r.dept == c.dept && r.number == c.number && r.title == c.title
    ensures r.units == c.units && r.term == c.term
    ensures SortedBy(r.sectionDetails, SectionLe)
    ensures multiset(r.sectionDetails) == multiset(c.sectionDetails)
  {
    SectionLeTotalPreorder();
    c.(sectionDetails := Sort(c.sectionDetails, SectionLe))
  }
}
