/** The sections handler of `cmd/api/sections.go`: the `yearTerm` split, the
    `withOutlines` flag, and the routing to one of two stores. */
module SectionsApi {
  import opened Outcomes
  import opened GoInt
  import opened Text
  import opened Snapshot
  import opened Records
  import opened Http

  /** `splitYearTerm`: the two pieces around the only '-'; no pieces when
      there is no '-' or more than one. */
  function SplitYearTerm(yearTerm: string): (r: Option<(string, string)>)
    ensures r.Some? <==> Count(yearTerm, '-') == 1
    ensures r.Some? ==> r.value.0 + "-" + r.value.1 == yearTerm
    ensures r.Some? ==> '-' !in r.value.0 && '-' !in r.value.1
  {
    var parts := Split(yearTerm, '-');
    SplitCount(yearTerm, '-');
    if |parts| != 2 then None
    else
      SplitJoin(yearTerm, '-');
      SplitPiecesFree(yearTerm, '-');
      assert parts[0] in parts && parts[1] in parts;
      assert Join(parts[1..], '-') == parts[1];
      Some((parts[0], parts[1]))
  }

  /** Joining a year and a term free of '-' and splitting again gives them back. */
  lemma SplitYearTermOfJoin(year: string, term: string)
    requires '-' !in year && '-' !in term
    ensures SplitYearTerm(year + "-" + term) == Some((year, term))
  {
    SplitAt(year, '-', term);
    SplitFree(term, '-');
    assert year + "-" + term == year + ['-'] + term;
  }

  /** `getWithOutlines`: false when absent, otherwise `strconv.ParseBool`;
      `None` stands for the 400 it writes on a value ParseBool rejects. */
  function WithOutlines(q: Query): (r: Option<bool>)
    ensures QueryGet(q, "withOutlines") == "" ==> r == Some(false)
    ensures QueryGet(q, "withOutlines") != "" ==> r == ParseBool(QueryGet(q, "withOutlines"))
  {
    var s := QueryGet(q, "withOutlines");
    if s == "" then Some(false) else ParseBool(s)
  }

  /** The two bodies the handler can send. */
  datatype SectionsBody =
    | Plain(courses: seq<CourseWithSectionDetails>)
    | Joined(joinedCourses: seq<CourseOutlineWithSectionDetails>)

  /** `Sections.Get` and `SectionsWithOutlines.Get`, keyed by year, term,
      dept and number. */
  type PlainGet = (string, string, string, string) -> Result<seq<CourseWithSectionDetails>, StoreError>
  type JoinedGet = (string, string, string, string) -> Result<seq<CourseOutlineWithSectionDetails>, StoreError>

  /** `getSections`: a missing or malformed `yearTerm`, or a `withOutlines`
      that does not parse, is a 400; a true flag asks the joined store and
      anything else the plain one, whose error is a 404 or a 500. */
  function GetSections(q: Query, plain: PlainGet, joined: JoinedGet): (r: Reply<SectionsBody>)
    ensures QueryGet(q, "yearTerm") == "" ==> r == BadRequest
    ensures Count(QueryGet(q, "yearTerm"), '-') != 1 ==> r == BadRequest
    ensures WithOutlines(q).None? ==> r == BadRequest
    ensures r != BadRequest <==> Count(QueryGet(q, "yearTerm"), '-') == 1 && WithOutlines(q).Some?
    ensures r != BadRequest ==>
      var (year, term) := SplitYearTerm(QueryGet(q, "yearTerm")).value;
      var dept := QueryGet(q, "dept");
      var number := QueryGet(q, "number");
      && year + "-" + term == QueryGet(q, "yearTerm")
      && (WithOutlines(q) == Some(true) ==>
            && (r.Success? <==> joined(year, term, dept, number).Ok?)
            && (r.Success? ==> r.body == Joined(joined(year, term, dept, number).value))
            && (r.Status() == 404 <==> joined(year, term, dept, number) == Err(NotFound)))
      && (WithOutlines(q) == Some(false) ==>
            && (r.Success? <==> plain(year, term, dept, number).Ok?)
            && (r.Success? ==> r.body == Plain(plain(year, term, dept, number).value))
            && (r.Status() == 404 <==> plain(year, term, dept, number) == Err(NotFound)))
  {
    var yearTerm := QueryGet(q, "yearTerm");
    var dept := QueryGet(q, "dept");
    var number := QueryGet(q, "number");
    if yearTerm == "" then BadRequest
    else
      match SplitYearTerm(yearTerm)
      case None => BadRequest
      case Some((year, term)) =>
        match WithOutlines(q)
        case None => BadRequest
        case Some(true) =>
          (match joined(year, term, dept, number)
           case Ok(v) => Success(Joined(v))
           case Err(NotFound) => NotFoundReply
           case Err(LoadFailed(_)) => InternalError)
        case Some(false) =>
          (match plain(year, term, dept, number)
           case Ok(v) => Success(Plain(v))
           case Err(NotFound) => NotFoundReply
           case Err(LoadFailed(_)) => InternalError)
  }

  /** "2024-fall" reaches the stores as year "2024" and term "fall";
      "2024fall" has no '-' and is a 400. */
  lemma SplitYearTermExamples()
    ensures SplitYearTerm("2024-fall") == Some(("2024", "fall"))
    ensures SplitYearTerm("2024fall").None?
  {
    SplitYearTermOfJoin("2024", "fall");
    assert "2024" + "-" + "fall" == "2024-fall";
    CountZero("2024fall", '-');
  }
}
