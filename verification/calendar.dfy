/** The API's notion of "now" in terms of the academic calendar, and the
    hourly data sync that harvests the current and the next term and then
    reloads every store. */
module Calendar {
  import opened Outcomes
  import opened GoInt
  import opened Seqs
  import opened Snapshot
  import opened Records
  import OutlineStore
  import SectionsStore
  import JoinedStore
  import InstructorStore

  /** The part of a `time.Time` the calendar reads. */
  datatype Date = Date(year: int, month: int)

  /** `getTermForDate`: the year as `%d` writes it, and the season of the
      month: January to April spring, May to August summer, September to
      December fall. A month outside 1..12 (which `time.Month` never is)
      falls through the switch with no season. */
  function TermForDate(d: Date): (r: (string, string))
    ensures r.0 == IntToDecimal(d.year)
    ensures r.1 == "spring" <==> 1 <= d.month <= 4
    ensures r.1 == "summer" <==> 5 <= d.month <= 8
    ensures r.1 == "fall" <==> 9 <= d.month <= 12
    ensures r.1 == "" <==> !(1 <= d.month <= 12)
  {
    var term :=
      if 1 <= d.month <= 4 then "spring"
      else if 5 <= d.month <= 8 then "summer"
      else if 9 <= d.month <= 12 then "fall"
      else "";
    (IntToDecimal(d.year), term)
  }

  /** The first day of the term after `term`; Go's zero `time.Time` (year 1,
      January) for a season the switch does not list. */
  function NextStart(year: int, term: string): Date {
    if term == "spring" then Date(year, 5)
    else if term == "summer" then Date(year, 9)
    else if term == "fall" then Date(year + 1, 1)
    else Date(1, 1)
  }

  /** The body of `getNextTerm` after its first line: the year is read back
      with `strconv.Atoi` (0 when it does not parse) and the term containing
      the next term's first day is returned. */
  function NextTermOf(year: string, term: string): (string, string) {
    TermForDate(NextStart(Atoi(year).GetOr(0), term))
  }

  /** `getNextTerm` for the clock reading `now`. */
  function NextTerm(now: Date): (string, string) {
    var (year, term) := TermForDate(now);
    NextTermOf(year, term)
  }

  /** The three successor steps: spring to summer and summer to fall in the
      same year, fall to spring of the following year. */
  lemma NextTermOfSeason(year: int, term: string)
    requires IsInt64(year)
    ensures term == "spring" ==> NextTermOf(IntToDecimal(year), term) == (IntToDecimal(year), "summer")
    ensures term == "summer" ==> NextTermOf(IntToDecimal(year), term) == (IntToDecimal(year), "fall")
    ensures term == "fall" ==> NextTermOf(IntToDecimal(year), term) == (IntToDecimal(year + 1), "spring")
  {
    AtoiRoundTrip(year);
  }

  /** Every month has a term and the next term of a date is the successor of
      the date's own term. */
  lemma NextTermOfDate(now: Date)
    requires 1 <= now.month <= 12 && IsInt64(now.year)
    ensures TermForDate(now).1 in {"spring", "summer", "fall"}
    ensures now.month <= 4 ==> NextTerm(now) == (IntToDecimal(now.year), "summer")
    ensures 5 <= now.month <= 8 ==> NextTerm(now) == (IntToDecimal(now.year), "fall")
    ensures 9 <= now.month ==> NextTerm(now) == (IntToDecimal(now.year + 1), "spring")
  {
    NextTermOfSeason(now.year, TermForDate(now).1);
  }

  /** Three steps come back to the same season one year later. */
  lemma {:induction false} NextTermThrice(year: int, term: string)
    requires IsInt64(year) && IsInt64(year + 1)
    requires term in {"spring", "summer", "fall"}
    ensures var (y1, t1) := NextTermOf(IntToDecimal(year), term);
            var (y2, t2) := NextTermOf(y1, t1);
            NextTermOf(y2, t2) == (IntToDecimal(year + 1), term)
  {
    NextTermOfSeason(year, "spring");
    NextTermOfSeason(year, "summer");
    NextTermOfSeason(year, "fall");
    NextTermOfSeason(year + 1, "spring");
    NextTermOfSeason(year + 1, "summer");
  }

  // ---------------------------------------------------------------------------
  // runDataSync

  /** One harvest binary and its arguments. */
  datatype Command = Command(name: string, args: seq<string>)

  /** The five commands, in order: the sections of the current and of the
      next term, then the three sync scripts. */
  function SyncCommands(now: Date): (cmds: seq<Command>)
    ensures |cmds| == 5
    ensures cmds[0] == Command("fetch-sections", [TermForDate(now).0, TermForDate(now).1])
    ensures cmds[1] == Command("fetch-sections", [NextTerm(now).0, NextTerm(now).1])
    ensures cmds[2].name == "sync-offerings" && cmds[3].name == "sync-instructors" && cmds[4].name == "fetch-instructors"
    ensures forall i :: 2 <= i < 5 ==> cmds[i].args == []
  {
    var (year, term) := TermForDate(now);
    var (nextYear, nextTerm) := NextTerm(now);
    [ Command("fetch-sections", [year, term]),
      Command("fetch-sections", [nextYear, nextTerm]),
      Command("sync-offerings", []),
      Command("sync-instructors", []),
      Command("fetch-instructors", []) ]
  }

  /** The four reloading stores of `Storage`. */
  datatype Stores = Stores(
    outlines: OutlineStore.State,
    sections: SectionsStore.State,
    joined: JoinedStore.State,
    instructors: InstructorStore.State)

  /** The files the stores read once the scripts have run. */
  datatype Disks = Disks(
    outlines: Disk<seq<CourseOutline>>,
    sections: Disk<seq<CourseWithSectionDetails>>,
    instructors: Disk<seq<InstructorResponse>>)

  /** The reloads after the commands, in order, each error logged and ignored. */
  function ReloadAll(s: Stores, d: Disks, now: int): (r: Stores)
    ensures OutlineStore.Load(d.outlines).Ok? ==> r.outlines == Cache(OutlineStore.Load(d.outlines).value, now)
    ensures OutlineStore.Load(d.outlines).Err? ==> r.outlines == s.outlines
    ensures SectionsStore.Load(d.sections).Ok? ==> r.sections == Cache(SectionsStore.Load(d.sections).value, now)
    ensures SectionsStore.Load(d.sections).Err? ==> r.sections == s.sections
    ensures JoinedStore.Load(d.outlines, d.sections).Ok? ==>
      r.joined == Cache(JoinedStore.Load(d.outlines, d.sections).value, now)
    ensures JoinedStore.Load(d.outlines, d.sections).Err? ==> r.joined == s.joined
    ensures InstructorStore.Load(d.instructors).Ok? ==>
      r.instructors == Cache(InstructorStore.Load(d.instructors).value, now)
    ensures InstructorStore.Load(d.instructors).Err? ==> r.instructors == s.instructors
  {
    Stores(
      OutlineStore.ForceReload(s.outlines, d.outlines, now).0,
      SectionsStore.ForceReload(s.sections, d.sections, now).0,
      JoinedStore.ForceReload(s.joined, d.outlines, d.sections, now).0,
      InstructorStore.ForceReload(s.instructors, d.instructors, now).0)
  }

  /** `runDataSync`: runs every command in order whatever the earlier ones
      did, counts those that succeeded, then reloads the stores. `succeeds`
      says which commands exit cleanly; `after` is what they leave on disk. */
  method RunDataSync(s: Stores, today: Date, clock: int, succeeds: Command -> bool, after: Disks)
    returns (ran: seq<Command>, successCount: nat, totalCommands: nat, r: Stores)
    ensures ran == SyncCommands(today)
    ensures totalCommands == 5 && successCount <= totalCommands
    ensures successCount == CountWhere(SyncCommands(today), succeeds)
    ensures r == ReloadAll(s, after, clock)
  {
    var commands := SyncCommands(today);
    successCount := 0;
    totalCommands := |commands|;
    ran := [];
    for i := 0 to |commands|
      invariant ran == commands[..i]
      invariant successCount == CountWhere(commands[..i], succeeds)
      invariant successCount <= i
    {
      ran := ran + [commands[i]];
      if succeeds(commands[i]) {
        successCount := successCount + 1;
      }
      CountWhereAppend(commands[..i], [commands[i]], succeeds);
      assert commands[..i + 1] == commands[..i] + [commands[i]];
      assert CountWhere([commands[i]], succeeds) == (if succeeds(commands[i]) then 1 else 0);
    }
    assert commands[..|commands|] == commands;
    r := ReloadAll(s, after, clock);
  }
}
