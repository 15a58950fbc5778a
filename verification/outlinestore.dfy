/** The outline store: the decoded `outlines.json`, reloaded when older than
    an hour, served whole, as a page, by department or by (Dept, Number). */
module OutlineStore {
  import opened Outcomes
  import opened GoInt
  import opened Text
  import opened Keys
  import opened Search
  import opened Snapshot
  import opened Records
  import opened Lookups

  const OutlinesPath: string := "./internal/store/json/outlines.json"

  type State = Cache<seq<CourseOutline>>

  /** `loadOutlines` before the swap: read, then parse. */
  function Load(disk: Disk<seq<CourseOutline>>): Result<seq<CourseOutline>, LoadError> {
    ReadJson(disk, OutlinesPath)
  }

  /** `NewOutlineStore`: fails when the file cannot be read or parsed. */
  function New(disk: Disk<seq<CourseOutline>>, now: int): (r: Result<State, LoadError>)
    ensures r.Ok? <==> OutlinesPath in disk && disk[OutlinesPath].Json?
    ensures r.Ok? ==> r.value.snapshot == disk[OutlinesPath].value && r.value.lastLoaded == now
  {
    match Load(disk)
    case Ok(s) => Ok(Cache(s, now))
    case Err(e) => Err(e)
  }

  /** `ForceReload`: a failed read or parse leaves snapshot and stamp unchanged;
      a successful one installs the file's outlines stamped `now`. */
  function ForceReload(c: State, disk: Disk<seq<CourseOutline>>, now: int): (r: (State, Option<LoadError>))
    ensures r.1.None? <==> OutlinesPath in disk && disk[OutlinesPath].Json?
    ensures r.1.Some? ==> r.0 == c
    ensures r.1.None? ==> r.0.snapshot == disk[OutlinesPath].value && r.0.lastLoaded == now
  {
    Install(c, Load(disk), now)
  }

  /** `reloadIfNeeded`: reloads exactly when more than an hour has passed. */
  function ReloadIfNeeded(c: State, disk: Disk<seq<CourseOutline>>, now: int): (r: (State, Option<LoadError>))
    ensures now - c.lastLoaded <= Hour ==> r == (c, None)
    ensures now - c.lastLoaded > Hour ==> r == ForceReload(c, disk, now)
  {
    Refresh(c, Load(disk), now, Hour)
  }

  // ---------------------------------------------------------------------------
  // Pagination

  datatype Page = Page(outlines: seq<CourseOutline>, totalCount: int)

  /** What `GetAll` needs of its caller so that its slice expression stays in
      bounds: present limits and offsets are not negative. */
  predicate WindowInRange(limitOpt: Option<int>, offsetOpt: Option<int>) {
    (limitOpt.Some? ==> limitOpt.value >= 0) && (offsetOpt.Some? ==> offsetOpt.value >= 0)
  }

  function Min(a: int, b: int): int {
    if a <= b then a else b
  }

  /** `GetAll`'s window over the snapshot, with `offset + limit` computed
      exactly. No options: everything and its count. Otherwise a missing limit
      means the total and a missing offset means 0; an offset at or past the
      end gives no outlines and a count of 0; any other offset gives the
      outlines from `offset` on, at most `limit` of them, and the total. */
  function Paginate(cached: seq<CourseOutline>, limitOpt: Option<int>, offsetOpt: Option<int>): (p: Page)
    requires WindowInRange(limitOpt, offsetOpt)
    ensures limitOpt.None? && offsetOpt.None? ==> p == Page(cached, |cached|)
    ensures (limitOpt.Some? || offsetOpt.Some?) && offsetOpt.GetOr(0) >= |cached| ==> p == Page([], 0)
    ensures (limitOpt.Some? || offsetOpt.Some?) && offsetOpt.GetOr(0) < |cached| ==>
      && p.totalCount == |cached|
      && |p.outlines| == Min(limitOpt.GetOr(|cached|), |cached| - offsetOpt.GetOr(0))
      && forall i :: 0 <= i < |p.outlines| ==> p.outlines[i] == cached[offsetOpt.GetOr(0) + i]
    ensures |p.outlines| <= limitOpt.GetOr(|cached|)
  {
    var total := |cached|;
    if limitOpt.None? && offsetOpt.None? then Page(cached, total)
    else
      var limit := limitOpt.GetOr(total);
      var offset := offsetOpt.GetOr(0);
      if offset >= total then Page([], 0)
      else
        var end := if offset + limit > total then total else offset + limit;
        Page(cached[offset..end], total)
  }

  /** `GetAll` as written, on Go's 64-bit `int`: `offset + limit` wraps round,
      and when the wrapped end falls below `offset` the slice expression
      panics, shown here as `None`. */
  function PaginateAsWritten(cached: seq<CourseOutline>, limitOpt: Option<int>, offsetOpt: Option<int>): (r: Option<Page>)
    requires WindowInRange(limitOpt, offsetOpt)
    requires limitOpt.Some? ==> IsInt64(limitOpt.value)
    requires offsetOpt.Some? ==> IsInt64(offsetOpt.value)
    requires |cached| <= MaxInt64
    ensures r.None? ==>
      && (limitOpt.Some? || offsetOpt.Some?)
      && offsetOpt.GetOr(0) < |cached|
      && offsetOpt.GetOr(0) + limitOpt.GetOr(|cached|) > MaxInt64
  {
    var total := |cached|;
    if limitOpt.None? && offsetOpt.None? then Some(Page(cached, total))
    else
      var limit := limitOpt.GetOr(total);
      var offset := offsetOpt.GetOr(0);
      if offset >= total then Some(Page([], 0))
      else
        var sum := Wrap64(offset + limit);
        var end := if sum > total then total else sum;
        if end < offset then None else Some(Page(cached[offset..end], total))
  }

  /** While `offset + limit` fits in an `int`, the code as written pages exactly
      as the intended definition does. */
  lemma PaginateAsWrittenAgrees(cached: seq<CourseOutline>, limitOpt: Option<int>, offsetOpt: Option<int>)
    requires WindowInRange(limitOpt, offsetOpt)
    requires limitOpt.Some? ==> IsInt64(limitOpt.value)
    requires offsetOpt.Some? ==> IsInt64(offsetOpt.value)
    requires |cached| <= MaxInt64
    requires offsetOpt.GetOr(0) + limitOpt.GetOr(|cached|) <= MaxInt64
    ensures PaginateAsWritten(cached, limitOpt, offsetOpt) == Some(Paginate(cached, limitOpt, offsetOpt))
  {
  }

  /** The overflow: the handler accepts `limit=9223372036854775807&offset=1`;
      with two outlines the wrapped end is negative and the request panics,
      where the intended page is the second outline with a count of 2. */
  lemma PaginateOverflowPanics()
    ensures PaginateAsWritten([ZeroOutline, ZeroOutline], Some(MaxInt64), Some(1)) == None
    ensures Paginate([ZeroOutline, ZeroOutline], Some(MaxInt64), Some(1)) == Page([ZeroOutline], 2)
  {
    assert Wrap64(1 + MaxInt64) == MinInt64;
  }

  // ---------------------------------------------------------------------------
  // Reads: each first refreshes the snapshot and fails with the load error

  /** `GetAll`: the load error, or the page of the refreshed snapshot. */
  function GetAll(c: State, disk: Disk<seq<CourseOutline>>, now: int, limitOpt: Option<int>, offsetOpt: Option<int>)
    : (r: (State, Result<Page, StoreError>))
    requires WindowInRange(limitOpt, offsetOpt)
    ensures r.0 == ReloadIfNeeded(c, disk, now).0
    ensures r.1.Err? <==> ReloadIfNeeded(c, disk, now).1.Some?
    ensures r.1.Err? ==> r.1.error == LoadFailed(ReloadIfNeeded(c, disk, now).1.value)
    ensures r.1.Ok? ==> r.1.value == Paginate(r.0.snapshot, limitOpt, offsetOpt)
  {
    var (c', err) := ReloadIfNeeded(c, disk, now);
    if err.Some? then (c', Err(LoadFailed(err.value)))
    else (c', Ok(Paginate(c'.snapshot, limitOpt, offsetOpt)))
  }

  /** `GetByDept`: the refreshed snapshot's outlines of `upper(dept)`, in order,
      or `ErrNotFound` when there are none. */
  function GetByDept(c: State, disk: Disk<seq<CourseOutline>>, now: int, dept: string)
    : (r: (State, Result<seq<CourseOutline>, StoreError>))
    ensures r.0 == ReloadIfNeeded(c, disk, now).0
    ensures ReloadIfNeeded(c, disk, now).1.Some? ==> r.1 == Err(LoadFailed(ReloadIfNeeded(c, disk, now).1.value))
    ensures ReloadIfNeeded(c, disk, now).1.None? ==> r.1 == ByDept(r.0.snapshot, OutlineKey, dept)
  {
    var (c', err) := ReloadIfNeeded(c, disk, now);
    if err.Some? then (c', Err(LoadFailed(err.value)))
    else (c', ByDept(c'.snapshot, OutlineKey, dept))
  }

  /** `GetByDeptAndNumber`: the lower-bound search on the refreshed snapshot. */
  method GetByDeptAndNumber(c: State, disk: Disk<seq<CourseOutline>>, now: int, dept: string, number: string)
    returns (c': State, r: Result<CourseOutline, StoreError>)
    ensures c' == ReloadIfNeeded(c, disk, now).0
    ensures ReloadIfNeeded(c, disk, now).1.Some? ==> r == Err(LoadFailed(ReloadIfNeeded(c, disk, now).1.value))
    ensures r.Ok? ==> r.value in c'.snapshot && OutlineKey(r.value) == CourseKey(ToUpper(dept), ToUpper(number))
    ensures ReloadIfNeeded(c, disk, now).1.None? && KeySorted(c'.snapshot, OutlineKey) ==>
      (r.Ok? <==> exists j :: 0 <= j < |c'.snapshot| && OutlineKey(c'.snapshot[j]) == CourseKey(ToUpper(dept), ToUpper(number)))
    ensures r.Err? && ReloadIfNeeded(c, disk, now).1.None? ==> r.error == NotFound
    ensures ReloadIfNeeded(c, disk, now).1.None? && KeySorted(c'.snapshot, OutlineKey) && r.Ok? ==>
      FirstWithKey(c'.snapshot, OutlineKey, CourseKey(ToUpper(dept), ToUpper(number))) == Some(r.value)
  {
    var err;
    c', err := ReloadIfNeeded(c, disk, now).0, ReloadIfNeeded(c, disk, now).1;
    if err.Some? {
      r := Err(LoadFailed(err.value));
    } else {
      r := ByDeptAndNumber(c'.snapshot, OutlineKey, dept, number);
    }
  }
}
