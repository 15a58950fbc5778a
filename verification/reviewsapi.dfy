/** The instructor-review handler of `cmd/api/reviews.go`: the file-name
    spellings tried for an instructor and the name taken from the path. */
module ReviewsApi {
  import opened Outcomes
  import opened Text
  import opened Seqs
  import opened Snapshot
  import opened Http

  /** `normalizeName`: lower case, every space an underscore. */
  function NormalizeName(name: string): (r: string)
    ensures |r| == |name|
    ensures forall i :: 0 <= i < |name| ==> r[i] == if name[i] == ' ' then '_' else LowerChar(name[i])
    ensures ' ' !in r
  {
    ReplaceCharOne(ToLower(name), ' ', '_');
    ReplaceChar(ToLower(name), ' ', "_")
  }

  /** Normalising a normalised name changes nothing. */
  lemma NormalizeNameIdempotent(name: string)
    ensures NormalizeName(NormalizeName(name)) == NormalizeName(name)
  {
    var once := NormalizeName(name);
    var twice := NormalizeName(once);
    assert forall i :: 0 <= i < |once| ==> twice[i] == once[i];
  }

  /** The spellings `findInstructorFile` tries, in order: normalised, spaces
      as underscores, spaces removed. */
  function Variations(name: string): (r: seq<string>)
    ensures |r| == 3 && r[0] == NormalizeName(name)
    ensures forall k :: 0 <= k < 3 ==> ' ' !in r[k]
    ensures |r[1]| == |name| && forall i :: 0 <= i < |name| ==> r[1][i] == if name[i] == ' ' then '_' else name[i]
    ensures r[2] == Filter(name, Except(' '))
    ensures |r[2]| == |name| - Count(name, ' ')
    ensures forall x :: x != ' ' ==> (x in r[2] <==> x in name)
  {
    [NormalizeName(name), SpacesAsUnderscores(name), SpacesRemoved(name)]
  }

  /** `strings.ReplaceAll(name, " ", "_")`. */
  function SpacesAsUnderscores(name: string): (r: string)
    ensures |r| == |name| && forall i :: 0 <= i < |name| ==> r[i] == if name[i] == ' ' then '_' else name[i]
    ensures ' ' !in r
  {
    ReplaceCharOne(name, ' ', '_');
    ReplaceChar(name, ' ', "_")
  }

  /** `strings.ReplaceAll(name, " ", "")`. */
  function SpacesRemoved(name: string): (r: string)
    ensures r == Filter(name, Except(' '))
    ensures |r| == |name| - Count(name, ' ')
    ensures forall x :: x != ' ' ==> (x in r <==> x in name)
    ensures ' ' !in r
  {
    ReplaceCharRemoves(name, ' ');
    ReplaceChar(name, ' ', "")
  }

  /** The first two spellings differ only in case, so under the
      case-insensitive match of the file walk they find the same files. */
  lemma VariationsFoldAlike(name: string)
    ensures ToLower(Variations(name)[1]) == Variations(name)[0]
  {
    var v := Variations(name);
    assert forall i :: 0 <= i < |name| ==> ToLower(v[1])[i] == v[0][i];
  }

  /** The position of the first `key` segment that has a segment after it. */
  function FirstKeyBeforeLast(parts: seq<string>, key: string): (r: Option<nat>)
    ensures r.None? <==> forall j :: 0 <= j < |parts| - 1 ==> parts[j] != key
    ensures r.Some? ==> r.value + 1 < |parts| && parts[r.value] == key
    ensures r.Some? ==> forall j :: 0 <= j < r.value ==> parts[j] != key
    decreases |parts|
  {
    if |parts| < 2 then None
    else if parts[0] == key then Some(0)
    else
      match FirstKeyBeforeLast(parts[1..], key)
      case None => None
      case Some(i) => Some(i + 1)
  }

  /** The first `key` segment with a segment after it is the one found. */
  lemma FirstKeyBeforeLastAt(parts: seq<string>, key: string)
    ensures forall i :: (0 <= i < |parts| - 1 && parts[i] == key
      && (forall j :: 0 <= j < i ==> parts[j] != key)) ==> FirstKeyBeforeLast(parts, key) == Some(i)
  {
    var r := FirstKeyBeforeLast(parts, key);
    forall i | 0 <= i < |parts| - 1 && parts[i] == key && (forall j :: 0 <= j < i ==> parts[j] != key)
      ensures r == Some(i)
    {
      assert r.Some? && parts[r.value] == key && parts[i] == key;
    }
  }

  /** The instructor name of a review request: the segment right after the
      first "instructors" segment of the path, or "" when there is none. */
  function InstructorNameOf(path: string): (name: string)
    ensures var parts := Split(path, '/');
      && ((forall j :: 0 <= j < |parts| - 1 ==> parts[j] != "instructors") ==> name == "")
      && (forall i :: (0 <= i < |parts| - 1 && parts[i] == "instructors"
            && (forall j :: 0 <= j < i ==> parts[j] != "instructors")) ==> name == parts[i + 1])
    ensures '/' !in name
  {
    var parts := Split(path, '/');
    SplitPiecesFree(path, '/');
    FirstKeyBeforeLastAt(parts, "instructors");
    match FirstKeyBeforeLast(parts, "instructors")
    case None => ""
    case Some(i) =>
      assert parts[i + 1] in parts;
      parts[i + 1]
  }

  /** `getInstructorReviews`. `find` is the file walk: the path of a review
      file matching one of the spellings, if any. No name is a 400, no file
      a 404, a file that cannot be read or parsed a 500. */
  function GetInstructorReviews<T>(path: string, find: seq<string> -> Option<string>, disk: Disk<T>): (r: Reply<T>)
    ensures InstructorNameOf(path) == "" <==> r == BadRequest
    ensures InstructorNameOf(path) != "" ==>
      var found := find(Variations(InstructorNameOf(path)));
      && (found.None? <==> r == NotFoundReply)
      && (found.Some? ==> (r.Success? <==> ReadJson(disk, found.value).Ok?))
      && (found.Some? && r.Success? ==> r.body == disk[found.value].value)
  {
    var name := InstructorNameOf(path);
    if name == "" then BadRequest
    else
      match find(Variations(name))
      case None => NotFoundReply
      case Some(p) =>
        match ReadJson(disk, p)
        case Ok(v) => Success(v)
        case Err(_) => InternalError
  }

  /** A request path `/instructors/<name>`, for a name without '/', names
      that instructor. */
  lemma InstructorNameOfPath(name: string)
    requires '/' !in name
    ensures InstructorNameOf(['/'] + "instructors" + ['/'] + name) == name
  {
    var tail := "instructors" + ['/'] + name;
    SplitFree(name, '/');
    SplitAt("instructors", '/', name);
    SplitAt([], '/', tail);
    assert [] + ['/'] + tail == ['/'] + "instructors" + ['/'] + name;
    var parts := Split(['/'] + "instructors" + ['/'] + name, '/');
    assert parts == ["", "instructors", name];
    assert parts[0] != "instructors" && parts[1] == "instructors" && parts[2] == name;
  }
}
