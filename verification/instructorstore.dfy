/** The instructor store: `instructors.json` sorted by lower-cased name,
    reloaded when older than an hour, and queried by name, department or
    course. */
module InstructorStore {
  import opened Outcomes
  import opened Text
  import opened Seqs
  import opened Sorting
  import opened Snapshot
  import opened Records

  const InstructorsPath: string := "./internal/store/json/instructors.json"

  type State = Cache<seq<InstructorResponse>>

  /** The load order: `strings.ToLower(name)` compared byte-wise. */
  predicate NameLe(a: InstructorResponse, b: InstructorResponse) {
    LexLe(ToLower(a.name), ToLower(b.name))
  }

  lemma NameLeTotalPreorder()
    ensures TotalPreorder(NameLe)
  {
    forall a: InstructorResponse, b: InstructorResponse { LexLeTotal(ToLower(a.name), ToLower(b.name)); }
    forall a: InstructorResponse, b: InstructorResponse, c: InstructorResponse { LexLeTrans(ToLower(a.name), ToLower(b.name), ToLower(c.name)); }
  }

  /** `loadInstructors` before the swap: the file's instructors, sorted by
      lower-cased name. */
  function Load(disk: Disk<seq<InstructorResponse>>): (r: Result<seq<InstructorResponse>, LoadError>)
    ensures r.Ok? <==> InstructorsPath in disk && disk[InstructorsPath].Json?
    ensures r.Err? ==> r == ReadJson(disk, InstructorsPath)
    ensures r.Ok? ==> SortedBy(r.value, NameLe) && multiset(r.value) == multiset(disk[InstructorsPath].value)
  {
    NameLeTotalPreorder();
    match ReadJson(disk, InstructorsPath)
    case Err(e) => Err(e)
    case Ok(instructors) => Ok(Sort(instructors, NameLe))
  }

  /** `NewInstructorStore`. */
  function New(disk: Disk<seq<InstructorResponse>>, now: int): (r: Result<State, LoadError>)
    ensures r.Ok? <==> Load(disk).Ok?
    ensures r.Ok? ==> SortedBy(r.value.snapshot, NameLe) && r.value.lastLoaded == now
    ensures r.Ok? ==> multiset(r.value.snapshot) == multiset(disk[InstructorsPath].value)
  {
    match Load(disk)
    case Ok(s) => Ok(Cache(s, now))
    case Err(e) => Err(e)
  }

  /** `ForceReload`. */
  function ForceReload(c: State, disk: Disk<seq<InstructorResponse>>, now: int): (r: (State, Option<LoadError>))
    ensures r.1.None? <==> Load(disk).Ok?
    ensures r.1.Some? ==> r.0 == c
    ensures r.1.None? ==> r.0 == Cache(Load(disk).value, now)
  {
    Install(c, Load(disk), now)
  }

  /** `reloadIfNeeded`: reloads exactly when more than an hour has passed. */
  function ReloadIfNeeded(c: State, disk: Disk<seq<InstructorResponse>>, now: int): (r: (State, Option<LoadError>))
    ensures now - c.lastLoaded <= Hour ==> r == (c, None)
    ensures now - c.lastLoaded > Hour ==> r == ForceReload(c, disk, now)
  {
    Refresh(c, Load(disk), now, Hour)
  }

  /** Whether a reloaded snapshot is sorted: a reload sorts, a kept one is as it was. */
  lemma ReloadKeepsSorted(c: State, disk: Disk<seq<InstructorResponse>>, now: int)
    requires SortedBy(c.snapshot, NameLe)
    ensures SortedBy(ReloadIfNeeded(c, disk, now).0.snapshot, NameLe)
  {
  }

  /** The instructor's name contains the query, ignoring ASCII case. */
  predicate NameMatches(i: InstructorResponse, name: string) {
    Contains(ToLower(i.name), ToLower(name))
  }

  /** Some offering of the instructor is in department `dept`. */
  predicate TaughtDept(i: InstructorResponse, dept: string) {
    exists k :: 0 <= k < |i.offerings| && i.offerings[k].dept == dept
  }

  /** Some offering of the instructor is the course `dept number`. */
  predicate TaughtCourse(i: InstructorResponse, dept: string, number: string) {
    exists k :: 0 <= k < |i.offerings| && i.offerings[k].dept == dept && i.offerings[k].number == number
  }

  /** The body of `Get` after the reload. With no parameters: everything. A
      name wins over department and number and keeps the instructors whose
      name contains it; else a department alone keeps those who taught in it;
      a department and number keep those who taught that course; a number
      without a department is `ErrNotFound`. Every answer keeps the snapshot
      order and each kept instructor's multiplicity. */
  function Select(cached: seq<InstructorResponse>, dept: string, number: string, name: string)
    : (r: Result<seq<InstructorResponse>, StoreError>)
    ensures r.Err? <==> name == "" && dept == "" && number != ""
    ensures r.Err? ==> r.error == NotFound
    ensures dept == "" && number == "" && name == "" ==> r == Ok(cached)
    ensures r.Ok? ==> IsSubseq(r.value, cached)
    ensures name != "" ==> r.Ok? && forall x :: x in r.value <==> x in cached && NameMatches(x, name)
    ensures name == "" && dept != "" && number == "" ==>
      r.Ok? && forall x :: x in r.value <==> x in cached && TaughtDept(x, ToUpper(dept))
    ensures name == "" && dept != "" && number != "" ==>
      r.Ok? && forall x :: x in r.value <==> x in cached && TaughtCourse(x, ToUpper(dept), ToUpper(number))
    ensures name != "" ==> r.Ok? && forall x ::
      multiset(r.value)[x] == if NameMatches(x, name) then multiset(cached)[x] else 0
    ensures name == "" && dept != "" && number == "" ==> r.Ok? && forall x ::
      multiset(r.value)[x] == if TaughtDept(x, ToUpper(dept)) then multiset(cached)[x] else 0
    ensures name == "" && dept != "" && number != "" ==> r.Ok? && forall x ::
      multiset(r.value)[x] == if TaughtCourse(x, ToUpper(dept), ToUpper(number)) then multiset(cached)[x] else 0
  {
    if dept == "" && number == "" && name == "" then
      IsSubseqRefl(cached);
      Ok(cached)
    else
      var d := ToUpper(dept);
      var n := ToUpper(number);
      if name != "" then
        Ok(Filter(cached, (i: InstructorResponse) => NameMatches(i, name)))
      else if d != "" && n == "" then
        Ok(Filter(cached, (i: InstructorResponse) => TaughtDept(i, d)))
      else if d != "" && n != "" then
        Ok(Filter(cached, (i: InstructorResponse) => TaughtCourse(i, d, n)))
      else
        Err(NotFound)
  }

  /** The name query ignores ASCII case. */
  lemma NameQueryIgnoresCase(cached: seq<InstructorResponse>, dept: string, number: string, name: string)
    ensures Select(cached, dept, number, ToUpper(name)) == Select(cached, dept, number, name)
  {
    ToLowerOfUpper(name);
    if name != "" {
      FilterCongruent(cached, (i: InstructorResponse) => NameMatches(i, ToUpper(name)),
                              (i: InstructorResponse) => NameMatches(i, name));
    }
  }

  /** A name query matches every instructor whose name holds it verbatim. */
  lemma ExactNameMatches(cached: seq<InstructorResponse>, dept: string, number: string, k: nat)
    requires k < |cached| && cached[k].name != ""
    ensures cached[k] in Select(cached, dept, number, cached[k].name).value
  {
    var s := ToLower(cached[k].name);
    assert s[0..] == s;
    ContainsAt(s, s);
  }

  /** `Get`: the reload error, or `Select` on the refreshed snapshot. */
  function Get(c: State, disk: Disk<seq<InstructorResponse>>, now: int, dept: string, number: string, name: string)
    : (r: (State, Result<seq<InstructorResponse>, StoreError>))
    ensures r.0 == ReloadIfNeeded(c, disk, now).0
    ensures ReloadIfNeeded(c, disk, now).1.Some? ==> r.1 == Err(LoadFailed(ReloadIfNeeded(c, disk, now).1.value))
    ensures ReloadIfNeeded(c, disk, now).1.None? ==> r.1 == Select(r.0.snapshot, dept, number, name)
  {
    var (c', err) := ReloadIfNeeded(c, disk, now);
    if err.Some? then (c', Err(LoadFailed(err.value)))
    else (c', Select(c'.snapshot, dept, number, name))
  }
}
