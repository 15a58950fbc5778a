/** The instructor-name handler of `cmd/api/instructors.go`: every
    instructor whose name contains the query, ignoring ASCII case. */
module InstructorsApi {
  import opened Outcomes
  import opened Text
  import opened Seqs
  import opened Snapshot
  import opened Records
  import opened Http
  import opened InstructorStore

  /** `getInstructorsByName` over the outcome of `Instructors.GetAll`: the
      store's error as 404/500; otherwise a 200 with the matching
      instructors in store order, possibly none. */
  function GetInstructorsByName(all: Result<seq<InstructorResponse>, StoreError>, name: string)
    : (r: Reply<seq<InstructorResponse>>)
    ensures r.Success? <==> all.Ok?
    ensures r.Status() == 404 <==> all == Err(NotFound)
    ensures r.Status() == 500 <==> all.Err? && all.error.LoadFailed?
    ensures r.Success? ==> IsSubseq(r.body, all.value)
    ensures r.Success? ==> forall x :: x in r.body <==> x in all.value && NameMatches(x, name)
    ensures r.Success? ==> forall x ::
      multiset(r.body)[x] == if NameMatches(x, name) then multiset(all.value)[x] else 0
  {
    match all
    case Err(e) => ReplyOf(Err(e))
    case Ok(instructors) => Success(Filter(instructors, (i: InstructorResponse) => NameMatches(i, name)))
  }

  /** The empty query matches every instructor, so the whole list comes back. */
  lemma EmptyNameMatchesAll(instructors: seq<InstructorResponse>)
    ensures GetInstructorsByName(Ok(instructors), "") == Success(instructors)
  {
    forall x | x in instructors
      ensures NameMatches(x, "")
    {
      ContainsAt(ToLower(x.name), "");
      assert "" <= ToLower(x.name)[0..];
    }
    FilterAll(instructors, (i: InstructorResponse) => NameMatches(i, ""));
  }

  /** A query nobody matches is still a 200, with an empty list. */
  lemma NoMatchIsEmptySuccess(instructors: seq<InstructorResponse>, name: string)
    requires forall x :: x in instructors ==> !NameMatches(x, name)
    ensures GetInstructorsByName(Ok(instructors), name) == Success([])
  {
    var r := GetInstructorsByName(Ok(instructors), name).body;
    assert forall x :: multiset(r)[x] == 0;
    assert multiset(r) == multiset{};
  }
}
