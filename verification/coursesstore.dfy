/** The courses store: four term files compiled into the binary, decoded
    once at start-up and never reloaded. */
module CoursesStore {
  import opened Outcomes
  import opened Text
  import opened Keys
  import opened Search
  import opened Snapshot
  import opened Records
  import opened Lookups

  /** The embedded files, as the schedule map lists them. */
  const EmbeddedFiles: seq<(string, string)> := [
    ("2025-spring", "json/courses/2025-spring.json"),
    ("2024-fall", "json/courses/2024-fall.json"),
    ("2024-summer", "json/courses/2024-summer.json"),
    ("2024-spring", "json/courses/2024-spring.json")
  ]

  type Terms = map<string, seq<CourseWithSectionDetails>>

  /** The build embeds every listed file, so none can be missing. */
  predicate Embedded(files: Disk<seq<CourseWithSectionDetails>>) {
    forall i :: 0 <= i < |EmbeddedFiles| ==> EmbeddedFiles[i].1 in files
  }

  lemma EmbeddedFilesDistinct()
    ensures DistinctNames(EmbeddedFiles)
  {
  }

  /** The schedule map names exactly the four terms. */
  lemma EmbeddedFileNames()
    ensures (set i | 0 <= i < |EmbeddedFiles| :: EmbeddedFiles[i].0)
         == {"2025-spring", "2024-fall", "2024-summer", "2024-spring"}
  {
    assert EmbeddedFiles[0].0 == "2025-spring";
    assert EmbeddedFiles[1].0 == "2024-fall";
    assert EmbeddedFiles[2].0 == "2024-summer";
    assert EmbeddedFiles[3].0 == "2024-spring";
  }

  function Identity(courses: seq<CourseWithSectionDetails>): seq<CourseWithSectionDetails> {
    courses
  }

  /** `NewCourseStore`: decodes all four files or fails on the first that
      does not parse. On success the terms are the names of the
      embedded files, each holding its decoded file. */
  function New(embedded: Disk<seq<CourseWithSectionDetails>>): (r: Result<Terms, LoadError>)
    requires Embedded(embedded)
    ensures r.Ok? <==> forall i :: 0 <= i < |EmbeddedFiles| ==> embedded[EmbeddedFiles[i].1].Json?
    ensures r.Ok? ==> r.value.Keys == (set i | 0 <= i < |EmbeddedFiles| :: EmbeddedFiles[i].0)
    ensures r.Ok? ==> forall i :: 0 <= i < |EmbeddedFiles| ==> r.value[EmbeddedFiles[i].0] == embedded[EmbeddedFiles[i].1].value
    ensures r.Err? ==> exists i :: 0 <= i < |EmbeddedFiles| && r.error == ParseFailed(EmbeddedFiles[i].1)
  {
    EmbeddedFilesDistinct();
    var r := LoadEach(EmbeddedFiles, embedded, Identity);
    EmbeddedLoadFails(embedded, r);
    EmbeddedReads(embedded);
    r
  }

  /** An embedded file reads exactly when it parses. */
  lemma EmbeddedReads(embedded: Disk<seq<CourseWithSectionDetails>>)
    requires Embedded(embedded)
    ensures forall i :: 0 <= i < |EmbeddedFiles| ==>
      (ReadJson(embedded, EmbeddedFiles[i].1).Ok? <==> embedded[EmbeddedFiles[i].1].Json?)
  {
  }

  /** Every embedded file is present, so a failed load can only be a parse failure. */
  lemma EmbeddedLoadFails(embedded: Disk<seq<CourseWithSectionDetails>>, r: Result<Terms, LoadError>)
    requires Embedded(embedded)
    requires r.Err? ==> exists i :: 0 <= i < |EmbeddedFiles| && ReadJson(embedded, EmbeddedFiles[i].1) == Err(r.error)
    ensures r.Err? ==> exists i :: 0 <= i < |EmbeddedFiles| && r.error == ParseFailed(EmbeddedFiles[i].1)
  {
    if r.Err? {
      var i :| 0 <= i < |EmbeddedFiles| && ReadJson(embedded, EmbeddedFiles[i].1) == Err(r.error);
      assert EmbeddedFiles[i].1 in embedded;
    }
  }

  /** `GetByTerm`: the courses under `year-lower(term)`, or `ErrNotFound`. */
  function GetByTerm(terms: Terms, year: string, term: string): (r: Result<seq<CourseWithSectionDetails>, StoreError>)
    ensures r.Ok? <==> year + "-" + ToLower(term) in terms
    ensures r.Ok? ==> r.value == terms[year + "-" + ToLower(term)]
    ensures r.Err? ==> r.error == NotFound
  {
    ByTerm(terms, year, term)
  }

  /** `GetByTermAndDept`: `GetByTerm`'s error, else the department's courses. */
  function GetByTermAndDept(terms: Terms, year: string, term: string, dept: string)
    : (r: Result<seq<CourseWithSectionDetails>, StoreError>)
    ensures TermKey(year, term) !in terms ==> r == Err(NotFound)
    ensures TermKey(year, term) in terms ==> r == ByDept(terms[TermKey(year, term)], CourseKeyOf, dept)
  {
    match ByTerm(terms, year, term)
    case Err(e) => Err(e)
    case Ok(cs) => ByDept(cs, CourseKeyOf, dept)
  }

  /** `GetByTermAndDeptAndNumber`: `GetByTerm`'s error, else the search. */
  method GetByTermAndDeptAndNumber(terms: Terms, year: string, term: string, dept: string, number: string)
    returns (r: Result<CourseWithSectionDetails, StoreError>)
    ensures TermKey(year, term) !in terms ==> r == Err(NotFound)
    ensures r.Ok? ==>
      && TermKey(year, term) in terms
      && r.value in terms[TermKey(year, term)]
      && CourseKeyOf(r.value) == CourseKey(ToUpper(dept), ToUpper(number))
    ensures TermKey(year, term) in terms && KeySorted(terms[TermKey(year, term)], CourseKeyOf) ==>
      var cs := terms[TermKey(year, term)];
      r.Ok? <==> exists j :: 0 <= j < |cs| && CourseKeyOf(cs[j]) == CourseKey(ToUpper(dept), ToUpper(number))
    ensures TermKey(year, term) in terms && r.Err? ==> r.error == NotFound
    ensures TermKey(year, term) in terms && KeySorted(terms[TermKey(year, term)], CourseKeyOf) && r.Ok? ==>
      FirstWithKey(terms[TermKey(year, term)], CourseKeyOf, CourseKey(ToUpper(dept), ToUpper(number))) == Some(r.value)
  {
    r := InTerm(ByTerm(terms, year, term), CourseKeyOf, dept, number);
  }
}
