/** What the reloading stores share: a decoded snapshot stamped with the
    time it was loaded, a time-to-live check against a clock, and the
    replace-on-success rule. Files are modelled by their decoded contents. */
module Snapshot {
  import opened Outcomes

  /** A JSON file as the decoder sees it: unparsable, or holding a value. */
  datatype FileContent<T> = Malformed | Json(value: T)

  /** The files a loader can read; a path missing from the map cannot be read. */
  type Disk<T> = map<string, FileContent<T>>

  /** Why a load gave up, naming the file. */
  datatype LoadError = ReadFailed(path: string) | ParseFailed(path: string)

  /** The errors a store read returns: `ErrNotFound`, or the load failure. */
  datatype StoreError = NotFound | LoadFailed(cause: LoadError)

  /** Durations in nanoseconds, Go's `time.Duration` unit. */
  const Minute: int := 60_000_000_000
  const Hour: int := 60 * Minute

  /** The guarded state of a reloading store. */
  datatype Cache<S> = Cache(snapshot: S, lastLoaded: int)

  /** `os.ReadFile` followed by `json.Unmarshal`. */
  function ReadJson<T>(disk: Disk<T>, path: string): (r: Result<T, LoadError>)
    ensures r.Ok? <==> path in disk && disk[path].Json?
    ensures r.Ok? ==> r.value == disk[path].value
    ensures r == Err(ReadFailed(path)) <==> path !in disk
    ensures r == Err(ParseFailed(path)) <==> path in disk && disk[path].Malformed?
  {
    if path !in disk then Err(ReadFailed(path))
    else match disk[path]
      case Malformed => Err(ParseFailed(path))
      case Json(v) => Ok(v)
  }

  /** `time.Since(lastLoaded) > ttl`. */
  predicate IsStale<S>(c: Cache<S>, now: int, ttl: int) {
    now - c.lastLoaded > ttl
  }

  /** Installs a load outcome: a successful load replaces the snapshot and
      restamps it; a failed one leaves snapshot and stamp as they were. */
  function Install<S>(c: Cache<S>, loaded: Result<S, LoadError>, now: int): (r: (Cache<S>, Option<LoadError>))
    ensures r.1.None? <==> loaded.Ok?
    ensures loaded.Ok? ==> r.0.snapshot == loaded.value && r.0.lastLoaded == now
    ensures loaded.Err? ==> r.0 == c && r.1 == Some(loaded.error)
  {
    match loaded
    case Ok(s) => (Cache(s, now), None)
    case Err(e) => (c, Some(e))
  }

  /** `reloadIfNeeded`: the loader runs only when the snapshot is stale. */
  function Refresh<S>(c: Cache<S>, loaded: Result<S, LoadError>, now: int, ttl: int): (r: (Cache<S>, Option<LoadError>))
    ensures !IsStale(c, now, ttl) ==> r == (c, None)
    ensures IsStale(c, now, ttl) ==> r == Install(c, loaded, now)
    ensures r.0 != c ==> IsStale(c, now, ttl) && loaded.Ok?
    ensures ttl >= 0 && r.1.None? ==> !IsStale(r.0, now, ttl)
  {
    if IsStale(c, now, ttl) then Install(c, loaded, now) else (c, None)
  }

  /** The names of a list of (name, path) pairs are distinct, as the keys of
      a Go map literal are. */
  predicate DistinctNames(files: seq<(string, string)>) {
    forall i, j :: 0 <= i < j < |files| ==> files[i].0 != files[j].0
  }

  /** Reads every listed file and files its decoded value, passed through
      `f`, under the file's name. All or nothing: the first file that cannot
      be read or parsed ends the load with its error. */
  function LoadEach<T, U>(files: seq<(string, string)>, disk: Disk<T>, f: T -> U): (r: Result<map<string, U>, LoadError>)
    requires DistinctNames(files)
    ensures r.Ok? <==> forall i :: 0 <= i < |files| ==> ReadJson(disk, files[i].1).Ok?
    ensures r.Ok? ==> r.value.Keys == set i | 0 <= i < |files| :: files[i].0
    ensures r.Ok? ==> forall i :: 0 <= i < |files| ==> r.value[files[i].0] == f(disk[files[i].1].value)
    ensures r.Err? ==> exists i :: 0 <= i < |files| && ReadJson(disk, files[i].1) == Err(r.error)
    decreases |files|
  {
    if |files| == 0 then Ok(map[])
    else
      assert forall i :: 1 <= i < |files| ==> files[i] == files[1..][i - 1];
      match ReadJson(disk, files[0].1)
      case Err(e) => Err(e)
      case Ok(v) =>
        match LoadEach(files[1..], disk, f)
        case Err(e) => Err(e)
        case Ok(rest) =>
          LoadEachStep(files, disk, f, v, rest);
          Ok(rest[files[0].0 := f(v)])
  }

  /** One step of `LoadEach`: the head file's value filed in front of the rest. */
  lemma LoadEachStep<T, U>(files: seq<(string, string)>, disk: Disk<T>, f: T -> U, v: T, rest: map<string, U>)
    requires |files| > 0 && DistinctNames(files)
    requires ReadJson(disk, files[0].1) == Ok(v)
    requires forall i :: 0 <= i < |files| ==> files[i].1 in disk && disk[files[i].1].Json?
    requires rest.Keys == set i | 0 <= i < |files[1..]| :: files[1..][i].0
    requires forall i :: 1 <= i < |files| ==> files[i].0 in rest && rest[files[i].0] == f(disk[files[i].1].value)
    ensures rest[files[0].0 := f(v)].Keys == set i | 0 <= i < |files| :: files[i].0
    ensures forall i :: 0 <= i < |files| ==> rest[files[0].0 := f(v)][files[i].0] == f(disk[files[i].1].value)
  {
    var tail := files[1..];
    assert forall i :: 1 <= i < |files| ==> files[i] == tail[i - 1];
    assert (set i | 0 <= i < |files| :: files[i].0) == {files[0].0} + (set i | 0 <= i < |tail| :: tail[i].0);
    forall i | 0 <= i < |files|
      ensures rest[files[0].0 := f(v)][files[i].0] == f(disk[files[i].1].value)
    {
      if i > 0 {
        assert files[i].0 != files[0].0;
      }
    }
  }
}
