/** The outline handlers of `cmd/api/outlines.go`: query validation, the
    paging link, and the error statuses over the outline store. */
module OutlinesApi {
  import opened Outcomes
  import opened GoInt
  import opened Text
  import opened Keys
  import opened Snapshot
  import opened Records
  import opened Search
  import opened Lookups
  import opened Http
  import opened OutlineStore

  /** A pagination parameter: not given, given and valid, or rejected. */
  datatype Param = Absent | Given(value: int) | Invalid {
    function AsOption(): (o: Option<int>)
      ensures o.Some? <==> this.Given?
      ensures o.Some? ==> o.value == this.value
    {
      if this.Given? then Some(value) else None
    }
  }

  /** `limit`: absent when empty; rejected unless `strconv.Atoi` accepts it
      and it is at least 1. */
  function ParseLimit(s: string): (p: Param)
    ensures p == Absent <==> s == ""
    ensures p == Invalid <==> s != "" && (Atoi(s).None? || Atoi(s).value < 1)
    ensures p.Given? ==> Atoi(s) == Some(p.value) && 1 <= p.value
  {
    if s == "" then Absent
    else match Atoi(s)
      case None => Invalid
      case Some(v) => if v < 1 then Invalid else Given(v)
  }

  /** `offset`: absent when empty; rejected unless `strconv.Atoi` accepts it
      and it is not negative. */
  function ParseOffset(s: string): (p: Param)
    ensures p == Absent <==> s == ""
    ensures p == Invalid <==> s != "" && (Atoi(s).None? || Atoi(s).value < 0)
    ensures p.Given? ==> Atoi(s) == Some(p.value) && 0 <= p.value
  {
    if s == "" then Absent
    else match Atoi(s)
      case None => Invalid
      case Some(v) => if v < 0 then Invalid else Given(v)
  }

  /** The query `nextURL` carries: the same limit and the offset after this page. */
  datatype NextPage = NextPage(limit: int, offset: int)

  /** `model.CourseOutlinesResponse`; `next` is `None` where `NextURL` is empty. */
  datatype OutlinesResponse = OutlinesResponse(data: seq<CourseOutline>, totalCount: int, next: Option<NextPage>)

  /** The next-page rule: only with a limit, and only while
      `offset + limit` is below the total. */
  function NextOf(limitOpt: Option<int>, offsetOpt: Option<int>, totalCount: int): (n: Option<NextPage>)
    ensures n.Some? <==> limitOpt.Some? && offsetOpt.GetOr(0) + limitOpt.value < totalCount
    ensures n.Some? ==> n.value == NextPage(limitOpt.value, offsetOpt.GetOr(0) + limitOpt.value)
  {
    if limitOpt.None? then None
    else
      var nextOffset := offsetOpt.GetOr(0) + limitOpt.value;
      if nextOffset < totalCount then Some(NextPage(limitOpt.value, nextOffset)) else None
  }

  /** The next-page rule as written, on Go's 64-bit `int`: `offset + limit`
      wraps round before it is compared with the total. */
  function NextOfAsWritten(limitOpt: Option<int>, offsetOpt: Option<int>, totalCount: int): (n: Option<NextPage>)
    ensures n.Some? <==> limitOpt.Some? && Wrap64(offsetOpt.GetOr(0) + limitOpt.value) < totalCount
    ensures n.Some? ==> n.value == NextPage(limitOpt.value, Wrap64(offsetOpt.GetOr(0) + limitOpt.value))
  {
    if limitOpt.None? then None
    else
      var nextOffset := Wrap64(offsetOpt.GetOr(0) + limitOpt.value);
      if nextOffset < totalCount then Some(NextPage(limitOpt.value, nextOffset)) else None
  }

  /** While `offset + limit` fits in an `int`, the rule as written gives the
      exact link. */
  lemma NextOfAsWrittenAgrees(limitOpt: Option<int>, offsetOpt: Option<int>, totalCount: int)
    requires limitOpt.Some? ==> IsInt64(offsetOpt.GetOr(0) + limitOpt.value)
    ensures NextOfAsWritten(limitOpt, offsetOpt, totalCount) == NextOf(limitOpt, offsetOpt, totalCount)
  {
  }

  /** The wrapped link: `limit=9223372036854775807&offset=5` over two outlines
      is past the end, so the page is empty with a count of 0; the wrapped
      next offset is negative, hence below 0, and a link appears whose offset
      the handler itself rejects. Exactly, there is no link. */
  lemma WrappedNextLink()
    ensures OutlineStore.Paginate([ZeroOutline, ZeroOutline], Some(MaxInt64), Some(5)) == Page([], 0)
    ensures NextOfAsWritten(Some(MaxInt64), Some(5), 0).Some?
    ensures NextOfAsWritten(Some(MaxInt64), Some(5), 0).value.offset < 0
    ensures ParseOffset(IntToDecimal(NextOfAsWritten(Some(MaxInt64), Some(5), 0).value.offset)) == Invalid
    ensures NextOf(Some(MaxInt64), Some(5), 0).None?
  {
    assert Wrap64(5 + MaxInt64) == MinInt64 + 4;
    AtoiRoundTrip(MinInt64 + 4);
  }

  /** Every exact link is a valid request again: its limit and offset,
      written by `strconv.Itoa`, pass the handler's own rules, for any total a
      Go `int` can count. */
  lemma NextLinkValid(limitOpt: Option<int>, offsetOpt: Option<int>, totalCount: int)
    requires limitOpt.Some? ==> limitOpt.value >= 1
    requires offsetOpt.Some? ==> offsetOpt.value >= 0
    requires totalCount <= MaxInt64
    requires NextOf(limitOpt, offsetOpt, totalCount).Some?
    ensures ParseLimit(IntToDecimal(NextOf(limitOpt, offsetOpt, totalCount).value.limit))
            == Given(NextOf(limitOpt, offsetOpt, totalCount).value.limit)
    ensures ParseOffset(IntToDecimal(NextOf(limitOpt, offsetOpt, totalCount).value.offset))
            == Given(NextOf(limitOpt, offsetOpt, totalCount).value.offset)
  {
    NextPageParses(NextOf(limitOpt, offsetOpt, totalCount).value);
  }

  /** `getAllCourseOutlines`. A bad limit, then a bad offset, is a 400 before
      the store is touched; otherwise the store's page, its error as 404/500,
      or the page with its total and next link. */
  function GetAllCourseOutlines(c: State, disk: Disk<seq<CourseOutline>>, now: int, q: Query)
    : (r: (State, Reply<OutlinesResponse>))
    ensures ParseLimit(QueryGet(q, "limit")) == Invalid ==> r == (c, BadRequest)
    ensures ParseOffset(QueryGet(q, "offset")) == Invalid ==> r == (c, BadRequest)
    ensures r.1 == BadRequest ==> r.0 == c
    ensures r.1 == BadRequest <==>
      ParseLimit(QueryGet(q, "limit")) == Invalid || ParseOffset(QueryGet(q, "offset")) == Invalid
    ensures r.1 != BadRequest ==>
      var limitOpt := ParseLimit(QueryGet(q, "limit")).AsOption();
      var offsetOpt := ParseOffset(QueryGet(q, "offset")).AsOption();
      var (c', res) := GetAll(c, disk, now, limitOpt, offsetOpt);
      && r.0 == c'
      && (res.Err? ==> r.1 != BadRequest && r.1.Status() == ReplyOf(res).Status())
      && (res.Ok? ==> r.1 == Success(OutlinesResponse(res.value.outlines, res.value.totalCount,
                                                      NextOf(limitOpt, offsetOpt, res.value.totalCount))))
  {
    var lp := ParseLimit(QueryGet(q, "limit"));
    var op := ParseOffset(QueryGet(q, "offset"));
    if lp == Invalid || op == Invalid then (c, BadRequest)
    else
      var (c', res) := GetAll(c, disk, now, lp.AsOption(), op.AsOption());
      match res
      case Err(NotFound) => (c', NotFoundReply)
      case Err(LoadFailed(_)) => (c', InternalError)
      case Ok(page) =>
        (c', Success(OutlinesResponse(page.outlines, page.totalCount, NextOf(lp.AsOption(), op.AsOption(), page.totalCount))))
  }

  /** A next link follows on without gap or overlap: this page is a full
      `limit` outlines and the link's offset is just past them. */
  lemma NextPageAdjacent(c: State, disk: Disk<seq<CourseOutline>>, now: int, q: Query)
    requires GetAllCourseOutlines(c, disk, now, q).1.Success?
    requires GetAllCourseOutlines(c, disk, now, q).1.body.next.Some?
    ensures var body := GetAllCourseOutlines(c, disk, now, q).1.body;
            var offset := ParseOffset(QueryGet(q, "offset")).AsOption().GetOr(0);
            && |body.data| == body.next.value.limit
            && body.next.value.offset == offset + |body.data|
            && body.next.value.offset < body.totalCount
  {
  }

  /** The link is itself a valid request: `strconv.Itoa` of its limit and
      offset parse back to them under the handler's own rules. */
  lemma NextPageParses(n: NextPage)
    requires 1 <= n.limit && 0 <= n.offset && IsInt64(n.limit) && IsInt64(n.offset)
    ensures ParseLimit(IntToDecimal(n.limit)) == Given(n.limit)
    ensures ParseOffset(IntToDecimal(n.offset)) == Given(n.offset)
  {
    AtoiRoundTrip(n.limit);
    AtoiRoundTrip(n.offset);
  }

  /** A limit of 0, a negative offset and text that is not a number are all
      rejected, while "+5" is accepted as `strconv.Atoi` accepts it. */
  lemma ParseExamples()
    ensures ParseLimit("0") == Invalid
    ensures ParseOffset("-1") == Invalid
    ensures ParseLimit("ten") == Invalid
    ensures ParseLimit("+5") == Given(5)
  {
    assert Atoi("0") == Some(0) by { AtoiRoundTrip(0); assert IntToDecimal(0) == "0"; }
    assert Atoi("-1") == Some(-1) by { AtoiRoundTrip(-1); assert IntToDecimal(-1) == "-1"; }
    assert Atoi("+5") == Some(5) by { assert "+5"[1..] == "5"; assert Atoi("5") == Some(5) by { AtoiRoundTrip(5); assert IntToDecimal(5) == "5"; } }
  }

  /** `getCourseOutlinesByDept`: the store's outlines of the department, or its error as 404/500. */
  function GetCourseOutlinesByDept(c: State, disk: Disk<seq<CourseOutline>>, now: int, dept: string)
    : (r: (State, Reply<seq<CourseOutline>>))
    ensures r.0 == ReloadIfNeeded(c, disk, now).0
    ensures r.1.Success? ==>
      |r.1.body| > 0 && forall x :: x in r.1.body ==> x in r.0.snapshot && x.dept == ToUpper(dept)
    ensures ReloadIfNeeded(c, disk, now).1.None? ==>
      (r.1.Status() == 404 <==> forall i :: 0 <= i < |r.0.snapshot| ==> r.0.snapshot[i].dept != ToUpper(dept))
    ensures ReloadIfNeeded(c, disk, now).1.Some? ==> r.1.Status() == 500
  {
    var (c', res) := GetByDept(c, disk, now, dept);
    (c', ReplyOf(res))
  }

  /** `getCourseOutlinesByDeptAndNumber`: the outline found by the store's
      search, or its error as 404/500. */
  method GetCourseOutlinesByDeptAndNumber(c: State, disk: Disk<seq<CourseOutline>>, now: int, dept: string, number: string)
    returns (c': State, r: Reply<CourseOutline>)
    ensures c' == ReloadIfNeeded(c, disk, now).0
    ensures r.Success? ==> r.body in c'.snapshot && r.body.dept == ToUpper(dept) && r.body.number == ToUpper(number)
    ensures ReloadIfNeeded(c, disk, now).1.Some? ==> r.Status() == 500
    ensures ReloadIfNeeded(c, disk, now).1.None? && KeySorted(c'.snapshot, OutlineKey) ==>
      (r.Success? <==> exists j :: 0 <= j < |c'.snapshot| && OutlineKey(c'.snapshot[j]) == CourseKey(ToUpper(dept), ToUpper(number)))
    ensures ReloadIfNeeded(c, disk, now).1.None? ==> r.Success? || r.Status() == 404
  {
    var res;
    c', res := GetByDeptAndNumber(c, disk, now, dept, number);
    r := ReplyOf(res);
  }
}
