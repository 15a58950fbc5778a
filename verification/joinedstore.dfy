/** The sections-with-outlines store: every term's courses joined with their
    outlines on the text `Dept-Number`, reloaded when older than five minutes. */
module JoinedStore {
  import opened Outcomes
  import opened Text
  import opened Keys
  import opened Sorting
  import opened Search
  import opened Snapshot
  import opened TermCodes
  import opened Records
  import opened Lookups
  import opened Seqs
  import OutlineStore

  /** The terms `loadSectionsWithOutlines` reads, as its literal lists them. */
  const ScheduleFiles: seq<(string, string)> := [
    ("2025-spring", "./internal/store/json/sections/2025-spring.json"),
    ("2024-fall", "./internal/store/json/sections/2024-fall.json"),
    ("2024-summer", "./internal/store/json/sections/2024-summer.json"),
    ("2024-spring", "./internal/store/json/sections/2024-spring.json"),
    ("2025-summer", "./internal/store/json/sections/2025-summer.json"),
    ("2025-fall", "./internal/store/json/sections/2025-fall.json")
  ]

  const Ttl: int := 5 * Minute

  type Terms = map<string, seq<CourseOutlineWithSectionDetails>>
  type State = Cache<Terms>

  lemma ScheduleFilesDistinct()
    ensures DistinctNames(ScheduleFiles)
  {
  }

  /** The join key, `fmt.Sprintf("%s-%s", dept, number)`. */
  function DashKey(dept: string, number: string): string {
    dept + "-" + number
  }

  function OutlineDashKey(o: CourseOutline): string {
    DashKey(o.dept, o.number)
  }

  function CourseDashKey(c: CourseWithSectionDetails): string {
    DashKey(c.dept, c.number)
  }

  /** `outlineMap` as its loop builds it: every outline filed under its key,
      a later outline overwriting an earlier one with the same key. */
  function FileOutlines(outlines: seq<CourseOutline>): map<string, CourseOutline>
    decreases |outlines|
  {
    if |outlines| == 0 then map[]
    else
      var n := |outlines| - 1;
      FileOutlines(outlines[..n])[OutlineDashKey(outlines[n]) := outlines[n]]
  }

  /** The map's keys are the outlines' keys, and each holds an outline filed
      under its own key. */
  lemma {:induction false} FileOutlinesKeys(outlines: seq<CourseOutline>)
    ensures FileOutlines(outlines).Keys == set i | 0 <= i < |outlines| :: OutlineDashKey(outlines[i])
    ensures forall k :: k in FileOutlines(outlines) ==>
      FileOutlines(outlines)[k] in outlines && OutlineDashKey(FileOutlines(outlines)[k]) == k
    decreases |outlines|
  {
    if |outlines| > 0 {
      var n := |outlines| - 1;
      var init := outlines[..n];
      FileOutlinesKeys(init);
      assert forall x :: x in init ==> x in outlines;
      assert (set i | 0 <= i < |outlines| :: OutlineDashKey(outlines[i]))
          == (set i | 0 <= i < |init| :: OutlineDashKey(init[i])) + {OutlineDashKey(outlines[n])} by {
        assert forall i :: 0 <= i < n ==> init[i] == outlines[i];
      }
    }
  }

  /** The outline filed under a key is the last outline with that key. */
  lemma {:induction false} FileOutlinesLastWins(outlines: seq<CourseOutline>, i: nat)
    requires i < |outlines|
    requires forall j :: i < j < |outlines| ==> OutlineDashKey(outlines[j]) != OutlineDashKey(outlines[i])
    ensures OutlineDashKey(outlines[i]) in FileOutlines(outlines)
    ensures FileOutlines(outlines)[OutlineDashKey(outlines[i])] == outlines[i]
    decreases |outlines|
  {
    var n := |outlines| - 1;
    if i < n {
      var init := outlines[..n];
      assert init[i] == outlines[i];
      assert forall j :: i < j < |init| ==> init[j] == outlines[j];
      FileOutlinesLastWins(init, i);
    }
  }

  /** The outline map, with what it holds. */
  function OutlineIndex(outlines: seq<CourseOutline>): (index: map<string, CourseOutline>)
    ensures index.Keys == set i | 0 <= i < |outlines| :: OutlineDashKey(outlines[i])
    ensures forall k :: k in index ==> index[k] in outlines && OutlineDashKey(index[k]) == k
  {
    FileOutlinesKeys(outlines);
    FileOutlines(outlines)
  }

  /** The outline filed under a key is the last outline with that key. */
  lemma OutlineIndexLastWins(outlines: seq<CourseOutline>, i: nat)
    requires i < |outlines|
    requires forall j :: i < j < |outlines| ==> OutlineDashKey(outlines[j]) != OutlineDashKey(outlines[i])
    ensures OutlineIndex(outlines)[OutlineDashKey(outlines[i])] == outlines[i]
  {
    FileOutlinesLastWins(outlines, i);
  }

  /** The joined record: the outline's descriptive fields, the course's term
      and sections. */
  function JoinOne(o: CourseOutline, c: CourseWithSectionDetails): CourseOutlineWithSectionDetails {
    CourseOutlineWithSectionDetails(
      o.dept, o.number, o.title, o.units, o.description, o.designation,
      o.deliveryMethod, o.prerequisites, o.corequisites, c.term, c.sectionDetails)
  }

  /** A term's join: each course that has an outline, joined with it, in the
      course order; courses without an outline are dropped. */
  function JoinTerm(index: map<string, CourseOutline>, courses: seq<CourseWithSectionDetails>)
    : (r: seq<CourseOutlineWithSectionDetails>)
    ensures |r| <= |courses|
    ensures forall x :: x in r ==>
      exists c :: c in courses && CourseDashKey(c) in index && x == JoinOne(index[CourseDashKey(c)], c)
    ensures forall c :: c in courses && CourseDashKey(c) in index ==> JoinOne(index[CourseDashKey(c)], c) in r
    ensures (forall i :: 0 <= i < |courses| ==> CourseDashKey(courses[i]) in index) ==>
      |r| == |courses| && forall i :: 0 <= i < |courses| ==> r[i] == JoinOne(index[CourseDashKey(courses[i])], courses[i])
    ensures |r| == |Filter(courses, Joinable(index))|
    ensures forall i :: 0 <= i < |r| ==> JoinedFrom(index)(Filter(courses, Joinable(index))[i], r[i])
    decreases |courses|
  {
    if |courses| == 0 then []
    else
      var c := courses[0];
      var tail := courses[1..];
      var rest := JoinTerm(index, tail);
      JoinTermStepMembers(index, courses, rest);
      JoinTermStepAll(index, courses, rest);
      FilterPairedStep(courses, Joinable(index), JoinedFrom(index), rest, JoinCons(index, c, rest));
      JoinCons(index, c, rest)
  }

  /** The course has an outline in the index. */
  function Joinable(index: map<string, CourseOutline>): CourseWithSectionDetails -> bool {
    (c: CourseWithSectionDetails) => CourseDashKey(c) in index
  }

  /** `x` is the course `c` joined with its outline. */
  function JoinedFrom(index: map<string, CourseOutline>): (CourseWithSectionDetails, CourseOutlineWithSectionDetails) -> bool {
    (c: CourseWithSectionDetails, x: CourseOutlineWithSectionDetails) =>
      CourseDashKey(c) in index && x == JoinOne(index[CourseDashKey(c)], c)
  }

  /** The join of the head course, when it has an outline, in front of `rest`. */
  function JoinCons(index: map<string, CourseOutline>, c: CourseWithSectionDetails,
                    rest: seq<CourseOutlineWithSectionDetails>): seq<CourseOutlineWithSectionDetails> {
    if CourseDashKey(c) in index then [JoinOne(index[CourseDashKey(c)], c)] + rest else rest
  }

  /** One step of `JoinTerm` on members: every record comes from a course
      with an outline, and every such course gives its record. */
  lemma JoinTermStepMembers(index: map<string, CourseOutline>, courses: seq<CourseWithSectionDetails>,
                            rest: seq<CourseOutlineWithSectionDetails>)
    requires |courses| > 0
    requires forall x :: x in rest ==>
      exists c :: c in courses[1..] && CourseDashKey(c) in index && x == JoinOne(index[CourseDashKey(c)], c)
    requires forall c :: c in courses[1..] && CourseDashKey(c) in index ==> JoinOne(index[CourseDashKey(c)], c) in rest
    ensures forall x :: x in JoinCons(index, courses[0], rest) ==>
      exists c :: c in courses && CourseDashKey(c) in index && x == JoinOne(index[CourseDashKey(c)], c)
    ensures forall c :: c in courses && CourseDashKey(c) in index ==>
      JoinOne(index[CourseDashKey(c)], c) in JoinCons(index, courses[0], rest)
  {
    var head := courses[0];
    var tail := courses[1..];
    var r := JoinCons(index, head, rest);
    assert head in courses;
    forall x | x in r
      ensures exists c :: c in courses && CourseDashKey(c) in index && x == JoinOne(index[CourseDashKey(c)], c)
    {
      if x in rest {
        var d :| d in tail && CourseDashKey(d) in index && x == JoinOne(index[CourseDashKey(d)], d);
        assert d in courses;
      }
    }
    forall c | c in courses && CourseDashKey(c) in index
      ensures JoinOne(index[CourseDashKey(c)], c) in r
    {
      if c != head {
        var m :| 0 <= m < |courses| && courses[m] == c;
        assert tail[m - 1] == c;
      }
    }
  }

  /** One step of `JoinTerm` when every course has an outline: the records
      line up with the courses. */
  lemma JoinTermStepAll(index: map<string, CourseOutline>, courses: seq<CourseWithSectionDetails>,
                        rest: seq<CourseOutlineWithSectionDetails>)
    requires |courses| > 0
    requires (forall i :: 0 <= i < |courses[1..]| ==> CourseDashKey(courses[1..][i]) in index) ==>
      |rest| == |courses[1..]| &&
      forall i :: 0 <= i < |courses[1..]| ==> rest[i] == JoinOne(index[CourseDashKey(courses[1..][i])], courses[1..][i])
    ensures (forall i :: 0 <= i < |courses| ==> CourseDashKey(courses[i]) in index) ==>
      |JoinCons(index, courses[0], rest)| == |courses| &&
      forall i :: 0 <= i < |courses| ==>
        JoinCons(index, courses[0], rest)[i] == JoinOne(index[CourseDashKey(courses[i])], courses[i])
  {
    var tail := courses[1..];
    if forall i :: 0 <= i < |courses| ==> CourseDashKey(courses[i]) in index {
      assert forall i :: 0 <= i < |tail| ==> tail[i] == courses[i + 1];
      var r := JoinCons(index, courses[0], rest);
      assert r == [JoinOne(index[CourseDashKey(courses[0])], courses[0])] + rest;
      forall i | 0 <= i < |courses|
        ensures r[i] == JoinOne(index[CourseDashKey(courses[i])], courses[i])
      {
        if i > 0 {
          assert r[i] == rest[i - 1];
        }
      }
    }
  }

  /** With dash-free departments, equal join keys mean equal (Dept, Number),
      so the joined record keeps the course's key. */
  lemma JoinKeepsKey(o: CourseOutline, c: CourseWithSectionDetails)
    requires OutlineDashKey(o) == CourseDashKey(c)
    requires '-' !in o.dept && '-' !in c.dept
    ensures JoinedKey(JoinOne(o, c)) == CourseKeyOf(c)
  {
    SplitTermCodeOfJoin(o.dept, o.number);
    SplitTermCodeOfJoin(c.dept, c.number);
  }

  /** The joined record's (Dept, Number) comes from the outline: when a
      department holds a '-', a course can pick up another key's outline. */
  lemma DashedDepartmentsCollide()
    ensures var o := CourseOutline("A-B", "1", "", "", "", "", "", "", "", []);
            var c := CourseWithSectionDetails("A", "B-1", "", "", "", []);
            JoinTerm(OutlineIndex([o]), [c]) == [JoinOne(o, c)]
            && JoinedKey(JoinOne(o, c)) != CourseKeyOf(c)
  {
    var o := CourseOutline("A-B", "1", "", "", "", "", "", "", "", []);
    var c := CourseWithSectionDetails("A", "B-1", "", "", "", []);
    assert OutlineDashKey(o) == CourseDashKey(c);
    assert OutlineIndex([o]) == map[OutlineDashKey(o) := o];
  }

  predicate JoinedLe(a: CourseOutlineWithSectionDetails, b: CourseOutlineWithSectionDetails) {
    KeyLe(JoinedKey(a), JoinedKey(b))
  }

  /** Over dash-free departments every joined record carries the key of the
      course it was joined from. */
  lemma JoinedKeysOfTerm(outlines: seq<CourseOutline>, courses: seq<CourseWithSectionDetails>)
    requires forall o :: o in outlines ==> '-' !in o.dept
    requires forall c :: c in courses ==> '-' !in c.dept
    ensures forall x :: x in JoinTerm(OutlineIndex(outlines), courses) ==>
      exists c :: c in courses && JoinedKey(x) == CourseKeyOf(c)
  {
    var index := OutlineIndex(outlines);
    forall x | x in JoinTerm(index, courses)
      ensures exists c :: c in courses && JoinedKey(x) == CourseKeyOf(c)
    {
      var c :| c in courses && CourseDashKey(c) in index && x == JoinOne(index[CourseDashKey(c)], c);
      JoinKeepsKey(index[CourseDashKey(c)], c);
    }
  }

  /** The first course of a sorted term is at or before every record joined
      from the others. */
  lemma JoinHeadFirst(outlines: seq<CourseOutline>, courses: seq<CourseWithSectionDetails>)
    requires |courses| > 0 && SortedBy(courses, CourseLe)
    requires forall o :: o in outlines ==> '-' !in o.dept
    requires forall c :: c in courses ==> '-' !in c.dept
    ensures forall x :: x in JoinTerm(OutlineIndex(outlines), courses[1..]) ==>
      KeyLe(CourseKeyOf(courses[0]), JoinedKey(x))
  {
    var tail := courses[1..];
    assert forall d :: d in tail ==> d in courses;
    JoinedKeysOfTerm(outlines, tail);
    SortedHead(courses, CourseLe);
  }

  /** Joining keeps the order: a term sorted by (Dept, Number) joins, over
      dash-free departments, to a sorted term, so the store's binary search
      still applies to it. */
  lemma {:induction false} JoinSorted(outlines: seq<CourseOutline>, courses: seq<CourseWithSectionDetails>)
    requires SortedBy(courses, CourseLe)
    requires forall o :: o in outlines ==> '-' !in o.dept
    requires forall c :: c in courses ==> '-' !in c.dept
    ensures SortedBy(JoinTerm(OutlineIndex(outlines), courses), JoinedLe)
    decreases |courses|
  {
    var index := OutlineIndex(outlines);
    if |courses| > 0 {
      var c := courses[0];
      var tail := courses[1..];
      assert forall d :: d in tail ==> d in courses;
      assert SortedBy(tail, CourseLe) by {
        assert forall i :: 0 <= i < |tail| ==> tail[i] == courses[i + 1];
      }
      JoinSorted(outlines, tail);
      var rest := JoinTerm(index, tail);
      if CourseDashKey(c) in index {
        var head := JoinOne(index[CourseDashKey(c)], c);
        JoinKeepsKey(index[CourseDashKey(c)], c);
        JoinHeadFirst(outlines, courses);
        assert forall k :: 0 <= k < |rest| ==> rest[k] in rest;
        SortedCons(head, rest, JoinedLe);
      }
    }
  }

  lemma ScheduleFileNames()
    ensures (set i | 0 <= i < |ScheduleFiles| :: ScheduleFiles[i].0)
         == {"2025-spring", "2024-fall", "2024-summer", "2024-spring", "2025-summer", "2025-fall"}
  {
    assert ScheduleFiles[0].0 == "2025-spring";
    assert ScheduleFiles[1].0 == "2024-fall";
    assert ScheduleFiles[2].0 == "2024-summer";
    assert ScheduleFiles[3].0 == "2024-spring";
    assert ScheduleFiles[4].0 == "2025-summer";
    assert ScheduleFiles[5].0 == "2025-fall";
  }

  /** `loadSectionsWithOutlines` before the swap: the outlines file, then the
      six term files, all or nothing. On success the terms are the
      schedule's names, each holding its file's courses joined with the outlines. */
  function Load(outlineDisk: Disk<seq<CourseOutline>>, sectionDisk: Disk<seq<CourseWithSectionDetails>>)
    : (r: Result<Terms, LoadError>)
    ensures r.Ok? <==>
      && OutlineStore.Load(outlineDisk).Ok?
      && forall i :: 0 <= i < |ScheduleFiles| ==> ReadJson(sectionDisk, ScheduleFiles[i].1).Ok?
    ensures OutlineStore.Load(outlineDisk).Err? ==> r == Err(OutlineStore.Load(outlineDisk).error)
    ensures r.Ok? ==> r.value.Keys == (set i | 0 <= i < |ScheduleFiles| :: ScheduleFiles[i].0)
    ensures r.Ok? ==> forall i :: 0 <= i < |ScheduleFiles| ==>
      r.value[ScheduleFiles[i].0]
        == JoinTerm(OutlineIndex(OutlineStore.Load(outlineDisk).value), sectionDisk[ScheduleFiles[i].1].value)
    ensures r.Err? && OutlineStore.Load(outlineDisk).Ok? ==>
      exists i :: 0 <= i < |ScheduleFiles| && ReadJson(sectionDisk, ScheduleFiles[i].1) == Err(r.error)
  {
    match OutlineStore.Load(outlineDisk)
    case Err(e) => Err(e)
    case Ok(outlines) =>
      ScheduleFilesDistinct();
      var index := OutlineIndex(outlines);
      LoadEach(ScheduleFiles, sectionDisk, (cs: seq<CourseWithSectionDetails>) => JoinTerm(index, cs))
  }

  /** `ForceReload`. */
  function ForceReload(c: State, outlineDisk: Disk<seq<CourseOutline>>,
                       sectionDisk: Disk<seq<CourseWithSectionDetails>>, now: int): (r: (State, Option<LoadError>))
    ensures r.1.None? <==> Load(outlineDisk, sectionDisk).Ok?
    ensures r.1.Some? ==> r.0 == c
    ensures r.1.None? ==> r.0 == Cache(Load(outlineDisk, sectionDisk).value, now)
  {
    Install(c, Load(outlineDisk, sectionDisk), now)
  }

  /** `reloadIfNeeded` as written: it holds the read lock while the loader
      takes the write lock. A stale read whose files fail to load returns the
      error, which the loader reports before asking for the lock; a stale
      read whose files load never returns (`None`). */
  function ReloadIfNeededAsWritten(c: State, outlineDisk: Disk<seq<CourseOutline>>,
                                   sectionDisk: Disk<seq<CourseWithSectionDetails>>, now: int)
    : (r: Option<(State, Option<LoadError>)>)
    ensures r.None? <==> IsStale(c, now, Ttl) && Load(outlineDisk, sectionDisk).Ok?
    ensures !IsStale(c, now, Ttl) ==> r == Some((c, None))
    ensures IsStale(c, now, Ttl) && Load(outlineDisk, sectionDisk).Err? ==>
      r == Some((c, Some(Load(outlineDisk, sectionDisk).error)))
  {
    if IsStale(c, now, Ttl) then
      if Load(outlineDisk, sectionDisk).Err? then Some((c, Some(Load(outlineDisk, sectionDisk).error))) else None
    else Some((c, None))
  }

  /** `reloadIfNeeded` as intended, with the read lock released before
      reloading as the sections store does: reloads exactly when more than
      five minutes have passed. */
  function ReloadIfNeeded(c: State, outlineDisk: Disk<seq<CourseOutline>>,
                          sectionDisk: Disk<seq<CourseWithSectionDetails>>, now: int): (r: (State, Option<LoadError>))
    ensures now - c.lastLoaded <= Ttl ==> r == (c, None)
    ensures now - c.lastLoaded > Ttl ==> r == ForceReload(c, outlineDisk, sectionDisk, now)
    ensures r.1.None? ==> !IsStale(r.0, now, Ttl)
  {
    Refresh(c, Load(outlineDisk, sectionDisk), now, Ttl)
  }

  /** The lock-order fault: a store loaded at time 0 and read one nanosecond
      after its five minutes, with files that load, blocks as written; as
      intended the read reloads. */
  lemma StaleReadBlocks(c: State, outlineDisk: Disk<seq<CourseOutline>>,
                        sectionDisk: Disk<seq<CourseWithSectionDetails>>)
    requires c.lastLoaded == 0
    requires Load(outlineDisk, sectionDisk).Ok?
    ensures ReloadIfNeededAsWritten(c, outlineDisk, sectionDisk, Ttl + 1).None?
    ensures ReloadIfNeeded(c, outlineDisk, sectionDisk, Ttl + 1) == ForceReload(c, outlineDisk, sectionDisk, Ttl + 1)
    ensures ReloadIfNeeded(c, outlineDisk, sectionDisk, Ttl + 1).1.None?
  {
  }

  /** Whenever the code as written returns, it returns what the intended
      version does: the two differ only in the read that blocks. */
  lemma AsWrittenAgrees(c: State, outlineDisk: Disk<seq<CourseOutline>>,
                        sectionDisk: Disk<seq<CourseWithSectionDetails>>, now: int)
    requires ReloadIfNeededAsWritten(c, outlineDisk, sectionDisk, now).Some?
    ensures ReloadIfNeededAsWritten(c, outlineDisk, sectionDisk, now).value == ReloadIfNeeded(c, outlineDisk, sectionDisk, now)
  {
  }

  /** `GetByTerm`. */
  function GetByTerm(c: State, outlineDisk: Disk<seq<CourseOutline>>, sectionDisk: Disk<seq<CourseWithSectionDetails>>,
                     now: int, year: string, term: string)
    : (r: (State, Result<seq<CourseOutlineWithSectionDetails>, StoreError>))
    ensures r.0 == ReloadIfNeeded(c, outlineDisk, sectionDisk, now).0
    ensures ReloadIfNeeded(c, outlineDisk, sectionDisk, now).1.Some? ==>
      r.1 == Err(LoadFailed(ReloadIfNeeded(c, outlineDisk, sectionDisk, now).1.value))
    ensures ReloadIfNeeded(c, outlineDisk, sectionDisk, now).1.None? ==> r.1 == ByTerm(r.0.snapshot, year, term)
  {
    var (c', err) := ReloadIfNeeded(c, outlineDisk, sectionDisk, now);
    if err.Some? then (c', Err(LoadFailed(err.value)))
    else (c', ByTerm(c'.snapshot, year, term))
  }

  /** `GetByTermAndDept`. */
  function GetByTermAndDept(c: State, outlineDisk: Disk<seq<CourseOutline>>, sectionDisk: Disk<seq<CourseWithSectionDetails>>,
                            now: int, year: string, term: string, dept: string)
    : (r: (State, Result<seq<CourseOutlineWithSectionDetails>, StoreError>))
    ensures r.0 == GetByTerm(c, outlineDisk, sectionDisk, now, year, term).0
    ensures GetByTerm(c, outlineDisk, sectionDisk, now, year, term).1.Err? ==>
      r.1 == GetByTerm(c, outlineDisk, sectionDisk, now, year, term).1
    ensures GetByTerm(c, outlineDisk, sectionDisk, now, year, term).1.Ok? ==>
      r.1 == ByDept(GetByTerm(c, outlineDisk, sectionDisk, now, year, term).1.value, JoinedKey, dept)
  {
    var (c', courses) := GetByTerm(c, outlineDisk, sectionDisk, now, year, term);
    match courses
    case Err(e) => (c', Err(e))
    case Ok(cs) => (c', ByDept(cs, JoinedKey, dept))
  }

  /** `GetByTermAndDeptAndNumber`. */
  method GetByTermAndDeptAndNumber(c: State, outlineDisk: Disk<seq<CourseOutline>>,
                                   sectionDisk: Disk<seq<CourseWithSectionDetails>>, now: int,
                                   year: string, term: string, dept: string, number: string)
    returns (c': State, r: Result<CourseOutlineWithSectionDetails, StoreError>)
    ensures c' == GetByTerm(c, outlineDisk, sectionDisk, now, year, term).0
    ensures GetByTerm(c, outlineDisk, sectionDisk, now, year, term).1.Err? ==>
      r == Err(GetByTerm(c, outlineDisk, sectionDisk, now, year, term).1.error)
    ensures r.Ok? ==>
      && GetByTerm(c, outlineDisk, sectionDisk, now, year, term).1.Ok?
      && r.value in GetByTerm(c, outlineDisk, sectionDisk, now, year, term).1.value
      && JoinedKey(r.value) == CourseKey(ToUpper(dept), ToUpper(number))
    ensures GetByTerm(c, outlineDisk, sectionDisk, now, year, term).1.Ok?
            && KeySorted(GetByTerm(c, outlineDisk, sectionDisk, now, year, term).1.value, JoinedKey) ==>
      var cs := GetByTerm(c, outlineDisk, sectionDisk, now, year, term).1.value;
      r.Ok? <==> exists j :: 0 <= j < |cs| && JoinedKey(cs[j]) == CourseKey(ToUpper(dept), ToUpper(number))
    ensures GetByTerm(c, outlineDisk, sectionDisk, now, year, term).1.Ok? && r.Err? ==> r.error == NotFound
    ensures GetByTerm(c, outlineDisk, sectionDisk, now, year, term).1.Ok?
            && KeySorted(GetByTerm(c, outlineDisk, sectionDisk, now, year, term).1.value, JoinedKey) && r.Ok? ==>
      FirstWithKey(GetByTerm(c, outlineDisk, sectionDisk, now, year, term).1.value, JoinedKey,
                   CourseKey(ToUpper(dept), ToUpper(number))) == Some(r.value)
  {
    var got := GetByTerm(c, outlineDisk, sectionDisk, now, year, term);
    c' := got.0;
    r := InTerm(got.1, JoinedKey, dept, number);
  }
}
