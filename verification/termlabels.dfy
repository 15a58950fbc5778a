/** Term labels of the sync scripts: a term code "2025-spring" shown as
    "Spring 2025", and a label turned into a number that orders terms
    chronologically (year * 100 + month of the season's start). */
module TermLabels {
  import opened Outcomes
  import opened GoInt
  import opened Text

  /** `lo.Capitalize` on one ASCII word: first letter upper case, the rest lower. */
  function Capitalize(s: string): (r: string)
    ensures |r| == |s|
    ensures |s| > 0 ==> r[0] == UpperChar(s[0]) && r[1..] == ToLower(s[1..])
  {
    if |s| == 0 then "" else [UpperChar(s[0])] + ToLower(s[1..])
  }

  /** `formatTermCode`: "year-season" becomes "Season year"; a code that does
      not split into exactly two pieces at '-' comes back unchanged. */
  function FormatTermCode(code: string): (r: string)
    ensures Count(code, '-') != 1 ==> r == code
  {
    var parts := Split(code, '-');
    SplitCount(code, '-');
    if |parts| != 2 then code else Capitalize(parts[1]) + " " + parts[0]
  }

  /** On a well-formed code the label is the capitalised season, a space and the year. */
  lemma FormatTermCodeOfJoin(year: string, season: string)
    requires '-' !in year && '-' !in season
    ensures FormatTermCode(year + "-" + season) == Capitalize(season) + " " + year
  {
    SplitAt(year, '-', season);
    SplitFree(season, '-');
  }

  /** A lower-case word keeps its tail and upper-cases its first letter. */
  lemma CapitalizeLowerWord(s: string)
    requires |s| > 0 && forall i :: 0 <= i < |s| ==> 'a' <= s[i] <= 'z'
    ensures Capitalize(s) == [UpperChar(s[0])] + s[1..]
  {
    var tail := s[1..];
    assert forall i :: 0 <= i < |tail| ==> ToLower(tail)[i] == tail[i];
  }

  lemma CapitalizeSpring()
    ensures Capitalize("spring") == "Spring"
  {
    CapitalizeLowerWord("spring");
    assert [UpperChar('s')] + "spring"[1..] == "Spring";
  }

  lemma CapitalizeSummer()
    ensures Capitalize("summer") == "Summer"
  {
    CapitalizeLowerWord("summer");
    assert [UpperChar('s')] + "summer"[1..] == "Summer";
  }

  lemma CapitalizeFall()
    ensures Capitalize("fall") == "Fall"
  {
    CapitalizeLowerWord("fall");
    assert [UpperChar('f')] + "fall"[1..] == "Fall";
  }

  // ---------------------------------------------------------------------------
  // termToSortableValue

  /** The month a season starts in: 1, 5 and 9; any other season 0. */
  function SeasonMonth(season: string): (m: int)
    ensures season == "Spring" <==> m == 1
    ensures season == "Summer" <==> m == 5
    ensures season == "Fall" <==> m == 9
    ensures season !in {"Spring", "Summer", "Fall"} <==> m == 0
  {
    if season == "Spring" then 1
    else if season == "Summer" then 5
    else if season == "Fall" then 9
    else 0
  }

  predicate KnownSeason(season: string) {
    season in {"Spring", "Summer", "Fall"}
  }

  /** The value of a label whose year reads as `year`: year * 100 + month
      in Go's 64-bit `int`. */
  function YearValue(season: string, year: int): (v: int)
    ensures IsInt64(v)
    ensures ValueFits(year) ==> v == year * 100 + SeasonMonth(season)
  {
    Wrap64(year * 100 + SeasonMonth(season))
  }

  /** `termToSortableValue` of `scripts/syncInstructors`: a label that is not
      exactly two space-separated pieces, or whose year `strconv.Atoi`
      rejects, is 0; otherwise year * 100 + month in Go's 64-bit `int`. */
  function SortableValue(term: string): (v: int)
    ensures IsInt64(v)
    ensures |Split(term, ' ')| != 2 ==> v == 0
    ensures |Split(term, ' ')| == 2 && Atoi(Split(term, ' ')[1]).None? ==> v == 0
    ensures |Split(term, ' ')| == 2 && Atoi(Split(term, ' ')[1]).Some? ==>
      v == YearValue(Split(term, ' ')[0], Atoi(Split(term, ' ')[1]).value)
  {
    var parts := Split(term, ' ');
    if |parts| != 2 then 0
    else
      match Atoi(parts[1])
      case None => 0
      case Some(year) => YearValue(parts[0], year)
  }

  /** `termToSortableValue` of `scripts/fetchInstructors`, which reads the
      year with `fmt.Sscanf("%d")` instead. */
  function SortableValueScanned(term: string): (v: int)
    ensures IsInt64(v)
    ensures |Split(term, ' ')| != 2 ==> v == 0
    ensures |Split(term, ' ')| == 2 && ScanDecimal(Split(term, ' ')[1]).None? ==> v == 0
    ensures |Split(term, ' ')| == 2 && ScanDecimal(Split(term, ' ')[1]).Some? ==>
      v == YearValue(Split(term, ' ')[0], ScanDecimal(Split(term, ' ')[1]).value)
  {
    var parts := Split(term, ' ');
    if |parts| != 2 then 0
    else
      match ScanDecimal(parts[1])
      case None => 0
      case Some(year) => YearValue(parts[0], year)
  }

  /** The label "Season year" of a season free of spaces. */
  function Label(season: string, year: int): string {
    season + " " + IntToDecimal(year)
  }

  /** A year whose value does not wrap. */
  predicate ValueFits(year: int) {
    0 <= year && year * 100 + 9 <= MaxInt64
  }

  /** The value of a label is year * 100 + the season's month. */
  lemma SortableValueOfLabel(season: string, year: int)
    requires ' ' !in season && ValueFits(year)
    ensures SortableValue(Label(season, year)) == year * 100 + SeasonMonth(season)
  {
    NatToDecimalPlain(year);
    SplitAt(season, ' ', IntToDecimal(year));
    SplitFree(IntToDecimal(year), ' ');
    assert Label(season, year) == season + [' '] + IntToDecimal(year);
    AtoiRoundTrip(year);
  }

  /** For labels of known seasons the value orders terms chronologically:
      one value is below another exactly when its year is earlier, or the
      year is the same and its season starts earlier. */
  lemma SortableValueChronological(s1: string, y1: int, s2: string, y2: int)
    requires KnownSeason(s1) && KnownSeason(s2) && ValueFits(y1) && ValueFits(y2)
    ensures SortableValue(Label(s1, y1)) < SortableValue(Label(s2, y2)) <==>
      y1 < y2 || (y1 == y2 && SeasonMonth(s1) < SeasonMonth(s2))
  {
    SortableValueOfLabel(s1, y1);
    SortableValueOfLabel(s2, y2);
  }

  /** The season words of the term codes. */
  predicate CodeSeason(season: string) {
    season in {"spring", "summer", "fall"}
  }

  /** A term code's label has the value year * 100 + its season's month, so
      offerings labelled from term codes sort chronologically. */
  lemma SortableValueOfCode(year: int, season: string)
    requires ValueFits(year) && CodeSeason(season)
    ensures KnownSeason(Capitalize(season))
    ensures SortableValue(FormatTermCode(IntToDecimal(year) + "-" + season))
      == year * 100 + SeasonMonth(Capitalize(season))
  {
    NatToDecimalPlain(year);
    FormatTermCodeOfJoin(IntToDecimal(year), season);
    CapitalizeCodeSeason(season);
    SortableValueOfLabel(Capitalize(season), year);
  }

  /** The season words capitalise to the label seasons. */
  lemma CapitalizeCodeSeason(season: string)
    requires CodeSeason(season)
    ensures KnownSeason(Capitalize(season)) && ' ' !in Capitalize(season) && '-' !in season
  {
    if season == "spring" {
      CapitalizeSpring();
    } else if season == "summer" {
      CapitalizeSummer();
    } else {
      CapitalizeFall();
    }
  }

  /** Both readings of the year agree whenever `Atoi` accepts it. */
  lemma ScannedAgrees(term: string)
    requires |Split(term, ' ')| == 2 && Atoi(Split(term, ' ')[1]).Some?
    ensures SortableValueScanned(term) == SortableValue(term)
  {
    ScanExtendsAtoi(Split(term, ' ')[1]);
  }

  /** They differ on a year with trailing text, which only `%d` accepts:
      `Atoi` rejects "2024x" ... */
  lemma AtoiRejectsTrailingText()
    ensures SortableValue("Fall 2024x") == 0
  {
    FallPieces();
    ScanAcceptsTrailingText();
  }

  /** ... while `%d` reads 2024 from it. */
  lemma ScanReadsTrailingText()
    ensures SortableValueScanned("Fall 2024x") == 202409
  {
    FallPieces();
    ScanAcceptsTrailingText();
    var v := SortableValueScanned("Fall 2024x");
    assert SeasonMonth("Fall") == 9;
    assert v == YearValue("Fall", 2024);
  }

  /** They also differ on a tab in front of the year: `strings.Split` on ' '
      keeps it, `%d` skips it and `Atoi` rejects it, so "Fall \t2024" is
      202409 under the scanned rule and 0 under the other. */
  lemma ScanSkipsTabInLabel(season: string, year: string)
    requires ' ' !in season && ' ' !in year && Atoi(year).Some?
    ensures SortableValueScanned(season + " " + ("\t" + year)) == SortableValue(season + " " + year)
    ensures SortableValue(season + " " + ("\t" + year)) == 0
  {
    var tabbed := "\t" + year;
    TabbedFree(year);
    ScanSkipsTab(year);
    ScannedValueOf(season, tabbed);
    ValueOf(season, year);
    ValueOf(season, tabbed);
  }

  lemma TabbedFree(year: string)
    requires ' ' !in year
    ensures ' ' !in "\t" + year
  {
    var tabbed := "\t" + year;
    assert forall i :: 0 < i < |tabbed| ==> tabbed[i] == year[i - 1];
  }

  lemma ScannedValueOf(season: string, year: string)
    requires ' ' !in season && ' ' !in year
    ensures ScanDecimal(year).None? ==> SortableValueScanned(season + " " + year) == 0
    ensures ScanDecimal(year).Some? ==>
      SortableValueScanned(season + " " + year) == YearValue(season, ScanDecimal(year).value)
  {
    TwoPieces(season, year);
  }

  lemma ValueOf(season: string, year: string)
    requires ' ' !in season && ' ' !in year
    ensures Atoi(year).None? ==> SortableValue(season + " " + year) == 0
    ensures Atoi(year).Some? ==>
      SortableValue(season + " " + year) == YearValue(season, Atoi(year).value)
  {
    TwoPieces(season, year);
  }

  lemma TwoPieces(season: string, year: string)
    requires ' ' !in season && ' ' !in year
    ensures Split(season + " " + year, ' ') == [season, year]
  {
    SplitAt(season, ' ', year);
    SplitFree(year, ' ');
    assert season + " " + year == season + [' '] + year;
  }

  lemma FallPieces()
    ensures Split("Fall 2024x", ' ') == ["Fall", "2024x"]
  {
    SplitAt("Fall", ' ', "2024x");
    SplitFree("2024x", ' ');
    assert "Fall" + [' '] + "2024x" == "Fall 2024x";
  }
}
