/** The records the service reads, writes and serves, with the fields the code
    actually uses. JSON fields the code only carries along are not modelled. */
module Records {
  import opened Outcomes
  import opened Keys
  import opened Sorting

  /** An instructor of a section. */
  datatype Instructor = Instructor(name: string, email: string)

  /** One meeting pattern of a section. */
  datatype Schedule = Schedule(
    startDate: string, endDate: string, campus: string, days: string,
    startTime: string, endTime: string, sectionCode: string)

  /** The descriptive part of a section as the catalog returns it. */
  datatype SectionInfo = SectionInfo(
    dept: string, number: string, title: string, units: string, term: string,
    section: string, deliveryMethod: string, classNumber: string)

  /** A section as fetched; a JSON `null` instructor or schedule list is `None`. */
  datatype SectionDetailRaw = SectionDetailRaw(
    info: SectionInfo,
    instructor: Option<seq<Instructor>>,
    courseSchedule: Option<seq<Schedule>>)

  /** A section as stored under its course. */
  datatype SectionDetail = SectionDetail(
    section: string, deliveryMethod: string, classNumber: string,
    instructors: seq<Instructor>, schedules: seq<Schedule>)

  /** One course in one term with all its sections: an element of a
      `sections/<term>.json` or `courses/<term>.json` file. */
  datatype CourseWithSectionDetails = CourseWithSectionDetails(
    dept: string, number: string, title: string, units: string, term: string,
    sectionDetails: seq<SectionDetail>)

  /** A term in which a course ran, with the names of its instructors. */
  datatype CourseOffering = CourseOffering(term: string, instructors: seq<string>)

  /** A course description: an element of `outlines.json`. */
  datatype CourseOutline = CourseOutline(
    dept: string, number: string, title: string, units: string,
    description: string, designation: string, deliveryMethod: string,
    prerequisites: string, corequisites: string,
    offerings: seq<CourseOffering>)

  /** A course of one term joined with its outline. */
  datatype CourseOutlineWithSectionDetails = CourseOutlineWithSectionDetails(
    dept: string, number: string, title: string, units: string,
    description: string, designation: string, deliveryMethod: string,
    prerequisites: string, corequisites: string,
    term: string, sectionDetails: seq<SectionDetail>)

  /** A course an instructor taught in a term. */
  datatype InstructorOffering = InstructorOffering(
    dept: string, number: string, term: string, title: string)

  /** An element of `instructors.json`. */
  datatype InstructorResponse = InstructorResponse(
    name: string, offerings: seq<InstructorOffering>)

  /** Go's zero `CourseOutline`, which a map lookup of a missing key yields. */
  const ZeroOutline: CourseOutline := CourseOutline("", "", "", "", "", "", "", "", "", [])

  // ---------------------------------------------------------------------------
  // Keys and the (Dept, Number) order on each record kind

  function OutlineKey(o: CourseOutline): CourseKey {
    CourseKey(o.dept, o.number)
  }

  function CourseKeyOf(c: CourseWithSectionDetails): CourseKey {
    CourseKey(c.dept, c.number)
  }

  function JoinedKey(j: CourseOutlineWithSectionDetails): CourseKey {
    CourseKey(j.dept, j.number)
  }

  predicate OutlineLe(a: CourseOutline, b: CourseOutline) {
    KeyLe(OutlineKey(a), OutlineKey(b))
  }

  predicate CourseLe(a: CourseWithSectionDetails, b: CourseWithSectionDetails) {
    KeyLe(CourseKeyOf(a), CourseKeyOf(b))
  }

  lemma OutlineLeTotalPreorder()
    ensures TotalPreorder(OutlineLe)
  {
    forall a, b { KeyLeTotal(OutlineKey(a), OutlineKey(b)); }
    forall a, b, c { KeyLeTrans(OutlineKey(a), OutlineKey(b), OutlineKey(c)); }
  }

  lemma CourseLeTotalPreorder()
    ensures TotalPreorder(CourseLe)
  {
    forall a, b { KeyLeTotal(CourseKeyOf(a), CourseKeyOf(b)); }
    forall a, b, c { KeyLeTrans(CourseKeyOf(a), CourseKeyOf(b), CourseKeyOf(c)); }
  }
}
