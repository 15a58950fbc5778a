/** The sections store: six term files of courses with their section
    details, keyed by term code and reloaded when older than five minutes. */
module SectionsStore {
  import opened Outcomes
  import opened Text
  import opened Keys
  import opened Search
  import opened Snapshot
  import opened Records
  import opened Lookups

  /** The terms `loadSections` reads, as the literal lists them. */
  const ScheduleFiles: seq<(string, string)> := [
    ("2025-fall", "./internal/store/json/sections/2025-fall.json"),
    ("2025-summer", "./internal/store/json/sections/2025-summer.json"),
    ("2025-spring", "./internal/store/json/sections/2025-spring.json"),
    ("2024-fall", "./internal/store/json/sections/2024-fall.json"),
    ("2024-summer", "./internal/store/json/sections/2024-summer.json"),
    ("2024-spring", "./internal/store/json/sections/2024-spring.json")
  ]

  const Ttl: int := 5 * Minute

  type Terms = map<string, seq<CourseWithSectionDetails>>
  type State = Cache<Terms>

  lemma ScheduleFilesDistinct()
    ensures DistinctNames(ScheduleFiles)
  {
  }

  /** The literal names exactly the six terms. */
  lemma ScheduleFileNames()
    ensures (set i | 0 <= i < |ScheduleFiles| :: ScheduleFiles[i].0)
         == {"2025-fall", "2025-summer", "2025-spring", "2024-fall", "2024-summer", "2024-spring"}
  {
    var names := set i | 0 <= i < |ScheduleFiles| :: ScheduleFiles[i].0;
    var six := {"2025-fall", "2025-summer", "2025-spring", "2024-fall", "2024-summer", "2024-spring"};
    forall x | x in names ensures x in six {
      var i :| 0 <= i < |ScheduleFiles| && ScheduleFiles[i].0 == x;
      if i == 0 {} else if i == 1 {} else if i == 2 {} else if i == 3 {} else if i == 4 {} else {}
    }
    forall x | x in six ensures x in names {
      var i := if x == "2025-fall" then 0 else if x == "2025-summer" then 1 else if x == "2025-spring" then 2
               else if x == "2024-fall" then 3 else if x == "2024-summer" then 4 else 5;
      assert ScheduleFiles[i].0 == x;
    }
  }

  function Identity(courses: seq<CourseWithSectionDetails>): seq<CourseWithSectionDetails> {
    courses
  }

  /** `loadSections` before the swap: all six files or the first failure. On
      success the terms are the schedule's names, each holding its file. */
  function Load(disk: Disk<seq<CourseWithSectionDetails>>): (r: Result<Terms, LoadError>)
    ensures r.Ok? <==> forall i :: 0 <= i < |ScheduleFiles| ==> ReadJson(disk, ScheduleFiles[i].1).Ok?
    ensures r.Ok? ==> r.value.Keys == (set i | 0 <= i < |ScheduleFiles| :: ScheduleFiles[i].0)
    ensures r.Ok? ==> forall i :: 0 <= i < |ScheduleFiles| ==> r.value[ScheduleFiles[i].0] == disk[ScheduleFiles[i].1].value
    ensures r.Err? ==> exists i :: 0 <= i < |ScheduleFiles| && ReadJson(disk, ScheduleFiles[i].1) == Err(r.error)
  {
    ScheduleFilesDistinct();
    var r := LoadEach(ScheduleFiles, disk, Identity);
    r
  }

  /** `NewSectionStore`. */
  function New(disk: Disk<seq<CourseWithSectionDetails>>, now: int): (r: Result<State, LoadError>)
    ensures r.Ok? <==> Load(disk).Ok?
    ensures r.Ok? ==> r.value == Cache(Load(disk).value, now)
  {
    match Load(disk)
    case Ok(t) => Ok(Cache(t, now))
    case Err(e) => Err(e)
  }

  /** `ForceReload`. */
  function ForceReload(c: State, disk: Disk<seq<CourseWithSectionDetails>>, now: int): (r: (State, Option<LoadError>))
    ensures r.1.None? <==> Load(disk).Ok?
    ensures r.1.Some? ==> r.0 == c
    ensures r.1.None? ==> r.0 == Cache(Load(disk).value, now)
  {
    Install(c, Load(disk), now)
  }

  /** `reloadIfNeeded`: reloads exactly when more than five minutes have passed. */
  function ReloadIfNeeded(c: State, disk: Disk<seq<CourseWithSectionDetails>>, now: int): (r: (State, Option<LoadError>))
    ensures now - c.lastLoaded <= Ttl ==> r == (c, None)
    ensures now - c.lastLoaded > Ttl ==> r == ForceReload(c, disk, now)
  {
    Refresh(c, Load(disk), now, Ttl)
  }

  /** `GetByTerm`: the load error, else the term's courses or `ErrNotFound`. */
  function GetByTerm(c: State, disk: Disk<seq<CourseWithSectionDetails>>, now: int, year: string, term: string)
    : (r: (State, Result<seq<CourseWithSectionDetails>, StoreError>))
    ensures r.0 == ReloadIfNeeded(c, disk, now).0
    ensures ReloadIfNeeded(c, disk, now).1.Some? ==> r.1 == Err(LoadFailed(ReloadIfNeeded(c, disk, now).1.value))
    ensures ReloadIfNeeded(c, disk, now).1.None? ==> r.1 == ByTerm(r.0.snapshot, year, term)
  {
    var (c', err) := ReloadIfNeeded(c, disk, now);
    if err.Some? then (c', Err(LoadFailed(err.value)))
    else (c', ByTerm(c'.snapshot, year, term))
  }

  /** `GetByTermAndDept`: `GetByTerm`'s error, else the term's courses of
      `upper(dept)` or `ErrNotFound`. */
  function GetByTermAndDept(c: State, disk: Disk<seq<CourseWithSectionDetails>>, now: int, year: string, term: string, dept: string)
    : (r: (State, Result<seq<CourseWithSectionDetails>, StoreError>))
    ensures r.0 == GetByTerm(c, disk, now, year, term).0
    ensures GetByTerm(c, disk, now, year, term).1.Err? ==> r.1 == GetByTerm(c, disk, now, year, term).1
    ensures GetByTerm(c, disk, now, year, term).1.Ok? ==>
      r.1 == ByDept(GetByTerm(c, disk, now, year, term).1.value, CourseKeyOf, dept)
  {
    var (c', courses) := GetByTerm(c, disk, now, year, term);
    match courses
    case Err(e) => (c', Err(e))
    case Ok(cs) => (c', ByDept(cs, CourseKeyOf, dept))
  }

  /** `GetByTermAndDeptAndNumber`: `GetByTerm`'s error, else the lower-bound
      search over the term's courses. */
  method GetByTermAndDeptAndNumber(c: State, disk: Disk<seq<CourseWithSectionDetails>>, now: int,
                                   year: string, term: string, dept: string, number: string)
    returns (c': State, r: Result<CourseWithSectionDetails, StoreError>)
    ensures c' == GetByTerm(c, disk, now, year, term).0
    ensures GetByTerm(c, disk, now, year, term).1.Err? ==> r == Err(GetByTerm(c, disk, now, year, term).1.error)
    ensures r.Ok? ==>
      && GetByTerm(c, disk, now, year, term).1.Ok?
      && r.value in GetByTerm(c, disk, now, year, term).1.value
      && CourseKeyOf(r.value) == CourseKey(ToUpper(dept), ToUpper(number))
    ensures GetByTerm(c, disk, now, year, term).1.Ok? && KeySorted(GetByTerm(c, disk, now, year, term).1.value, CourseKeyOf) ==>
      var cs := GetByTerm(c, disk, now, year, term).1.value;
      r.Ok? <==> exists j :: 0 <= j < |cs| && CourseKeyOf(cs[j]) == CourseKey(ToUpper(dept), ToUpper(number))
    ensures GetByTerm(c, disk, now, year, term).1.Ok? && r.Err? ==> r.error == NotFound
    ensures GetByTerm(c, disk, now, year, term).1.Ok? && KeySorted(GetByTerm(c, disk, now, year, term).1.value, CourseKeyOf) && r.Ok? ==>
      FirstWithKey(GetByTerm(c, disk, now, year, term).1.value, CourseKeyOf, CourseKey(ToUpper(dept), ToUpper(number))) == Some(r.value)
  {
    var got := GetByTerm(c, disk, now, year, term);
    c' := got.0;
    r := InTerm(got.1, CourseKeyOf, dept, number);
  }
}
