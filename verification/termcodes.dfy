/** Term codes ("YYYY-season") and the section files named after them. */
module TermCodes {
  import opened Text
  import opened Seqs
  import opened Outcomes

  /** The term codes the service knows, oldest first. */
  const KnownTermCodes: seq<string> := [
    "2024-spring", "2024-summer", "2024-fall",
    "2025-spring", "2025-summer", "2025-fall",
    "2026-spring", "2026-summer"
  ]

  const SectionsDir: string := "./internal/store/json/sections/"
  const JsonSuffix: string := ".json"

  /** `GetSectionFilePath`: the section file of a term code. */
  function SectionFilePath(termCode: string): (path: string)
    ensures |path| == |SectionsDir| + |termCode| + |JsonSuffix|
    ensures SectionsDir <= path
  {
    SectionsDir + termCode + JsonSuffix
  }

  /** The text between `prefix` and `suffix`, when `s` has both. */
  function Between(prefix: string, suffix: string, s: string): Option<string> {
    if |s| >= |prefix| + |suffix| && s[..|prefix|] == prefix && s[|s| - |suffix|..] == suffix
    then Some(s[|prefix|..|s| - |suffix|])
    else None
  }

  lemma BetweenOfJoin(prefix: string, middle: string, suffix: string)
    ensures Between(prefix, suffix, prefix + middle + suffix) == Some(middle)
  {
    var s := prefix + middle + suffix;
    assert s[..|prefix|] == prefix;
    assert s[|s| - |suffix|..] == suffix;
    assert s[|prefix|..|s| - |suffix|] == middle;
  }

  /** Reads the term code back out of a section file path. */
  function TermCodeOfPath(path: string): Option<string> {
    Between(SectionsDir, JsonSuffix, path)
  }

  /** The path names its term code: distinct codes have distinct files. */
  lemma SectionFilePathRoundTrip(termCode: string)
    ensures TermCodeOfPath(SectionFilePath(termCode)) == Some(termCode)
  {
    BetweenOfJoin(SectionsDir, termCode, JsonSuffix);
  }

  /** `GetSectionFilePaths` over a list of codes: each code mapped to its file. */
  function SectionFilePathsOf(codes: seq<string>): (paths: map<string, string>)
    ensures paths.Keys == set c | c in codes
    ensures forall c :: c in paths ==> paths[c] == SectionFilePath(c)
    decreases |codes|
  {
    if |codes| == 0 then map[]
    else SectionFilePathsOf(codes[..|codes| - 1])[codes[|codes| - 1] := SectionFilePath(codes[|codes| - 1])]
  }

  /** `GetSectionFilePaths`. */
  function SectionFilePaths(): (paths: map<string, string>)
    ensures paths.Keys == set c | c in KnownTermCodes
    ensures forall c :: c in paths ==> paths[c] == SectionFilePath(c)
  {
    SectionFilePathsOf(KnownTermCodes)
  }

  /** `SplitTermCode`: the text before and after the first '-', or nothing
      when there is no '-'. */
  function SplitTermCode(termCode: string): (parts: seq<string>)
    ensures '-' !in termCode <==> parts == []
    ensures parts != [] ==> |parts| == 2 && '-' !in parts[0] && parts[0] + "-" + parts[1] == termCode
  {
    var i := IndexOf(termCode, '-');
    if i < 0 then []
    else
      assert termCode == termCode[..i] + "-" + termCode[i + 1..];
      [termCode[..i], termCode[i + 1..]]
  }

  /** `SplitTermCode` undoes joining a dash-free year to any season. */
  lemma SplitTermCodeOfJoin(year: string, season: string)
    requires '-' !in year
    ensures SplitTermCode(year + "-" + season) == [year, season]
  {
    var s := year + "-" + season;
    var parts := SplitTermCode(s);
    assert s[|year|] == '-';
    assert '-' !in s[..|year|] by { assert s[..|year|] == year; }
    var i := IndexOf(s, '-');
    assert forall j :: 0 <= j < |year| ==> s[j] == year[j];
    assert forall j :: 0 <= j < i ==> s[..i][j] == s[j];
    assert i == |year|;
    assert s[..|year|] == year;
    assert s[|year| + 1..] == season;
  }

  predicate HasDash(code: string) {
    '-' in code
  }

  /** `GetTermCodesAsYearTerm` over a list of codes. */
  function YearTermsOf(codes: seq<string>): (pairs: seq<seq<string>>)
    ensures |pairs| == CountWhere(codes, HasDash)
    decreases |codes|
  {
    if |codes| == 0 then []
    else
      var parts := SplitTermCode(codes[0]);
      var rest := YearTermsOf(codes[1..]);
      assert HasDash(codes[0]) <==> |parts| == 2;
      if |parts| == 2 then [[parts[0], parts[1]]] + rest else rest
  }

  /** Each pair joins back, with '-', to one of the codes. */
  lemma {:induction false} YearTermsOfJoin(codes: seq<string>)
    ensures forall i :: 0 <= i < |YearTermsOf(codes)| ==>
      |YearTermsOf(codes)[i]| == 2 && YearTermsOf(codes)[i][0] + "-" + YearTermsOf(codes)[i][1] in codes
    decreases |codes|
  {
    if |codes| > 0 {
      var pairs := YearTermsOf(codes);
      var tail := codes[1..];
      var rest := YearTermsOf(tail);
      var parts := SplitTermCode(codes[0]);
      var skip := if |parts| == 2 then 1 else 0;
      YearTermsOfJoin(tail);
      forall i | 0 <= i < |pairs| ensures |pairs[i]| == 2 && pairs[i][0] + "-" + pairs[i][1] in codes {
        if i < skip {
          assert pairs[i] == [parts[0], parts[1]];
          assert pairs[i][0] + "-" + pairs[i][1] == codes[0];
        } else {
          assert pairs[i] == rest[i - skip];
          var j :| 0 <= j < |tail| && tail[j] == rest[i - skip][0] + "-" + rest[i - skip][1];
          assert codes[j + 1] == tail[j];
        }
      }
    }
  }

  /** When every code contains '-', there is one pair per code, in order: the
      code's split. */
  lemma {:induction false} YearTermsOfAllDashes(codes: seq<string>)
    requires forall i :: 0 <= i < |codes| ==> '-' in codes[i]
    ensures |YearTermsOf(codes)| == |codes|
    ensures forall i :: 0 <= i < |codes| ==> YearTermsOf(codes)[i] == SplitTermCode(codes[i])
    decreases |codes|
  {
    if |codes| > 0 {
      var tail := codes[1..];
      assert forall i :: 0 <= i < |tail| ==> tail[i] == codes[i + 1];
      YearTermsOfAllDashes(tail);
      var parts := SplitTermCode(codes[0]);
      assert '-' in codes[0];
      assert |parts| == 2 && [parts[0], parts[1]] == parts;
      var pairs := YearTermsOf(codes);
      var rest := YearTermsOf(tail);
      assert pairs == [parts] + rest;
      forall i | 0 <= i < |codes| ensures pairs[i] == SplitTermCode(codes[i]) {
        if i > 0 {
          assert pairs[i] == rest[i - 1];
          assert tail[i - 1] == codes[i];
        }
      }
    }
  }

  /** Prepending a code and its split keeps the pairs lined up with the codes. */
  lemma SplitsCons(pairs: seq<seq<string>>, kept: seq<string>, code: string)
    requires |pairs| == |kept|
    requires forall i :: 0 <= i < |pairs| ==> pairs[i] == SplitTermCode(kept[i])
    ensures forall i :: 0 <= i < |pairs| + 1 ==>
      ([SplitTermCode(code)] + pairs)[i] == SplitTermCode(([code] + kept)[i])
  {
    forall i | 0 <= i < |pairs| + 1
      ensures ([SplitTermCode(code)] + pairs)[i] == SplitTermCode(([code] + kept)[i])
    {
      if i > 0 {
        assert ([SplitTermCode(code)] + pairs)[i] == pairs[i - 1];
        assert ([code] + kept)[i] == kept[i - 1];
      }
    }
  }

  /** One pair per code containing '-', in the codes' order: the split of
      each such code; codes without '-' are skipped. */
  lemma {:induction false} YearTermsOfFilter(codes: seq<string>)
    ensures |YearTermsOf(codes)| == |Filter(codes, HasDash)|
    ensures forall i :: 0 <= i < |YearTermsOf(codes)| ==>
      YearTermsOf(codes)[i] == SplitTermCode(Filter(codes, HasDash)[i])
    decreases |codes|
  {
    if |codes| > 0 {
      var tail := codes[1..];
      YearTermsOfFilter(tail);
      FilterCons(codes, HasDash);
      var parts := SplitTermCode(codes[0]);
      if HasDash(codes[0]) {
        assert [parts[0], parts[1]] == parts;
        assert YearTermsOf(codes) == [parts] + YearTermsOf(tail);
        SplitsCons(YearTermsOf(tail), Filter(tail, HasDash), codes[0]);
      }
    }
  }

  /** `GetTermCodesAsYearTerm`: the [year, season] pair of every known code
      that has a '-', oldest first. */
  function YearTerms(): (pairs: seq<seq<string>>)
    ensures |pairs| == |Filter(KnownTermCodes, HasDash)|
    ensures forall i :: 0 <= i < |pairs| ==> pairs[i] == SplitTermCode(Filter(KnownTermCodes, HasDash)[i])
  {
    YearTermsOfFilter(KnownTermCodes);
    YearTermsOf(KnownTermCodes)
  }
}
