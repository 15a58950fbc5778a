/** `scripts/fetchInstructors`: outlines inverted into one record per
    instructor listing what they taught. Names are trimmed and blank ones
    skipped, outlines without a department or number are skipped, an
    instructor gets a (Dept, Number, Term) offering at most once, offerings
    are sorted newest term first then by (Dept, Number), and instructors by
    name. */
module InstructorIndex {
  import opened Outcomes
  import opened Text
  import opened Seqs
  import opened Sorting
  import opened Keys
  import opened Records
  import opened AssocList
  import opened TermLabels
  import opened Harvest

  /** The offering an outline's term contributes to each of its instructors. */
  function Slot(o: CourseOutline, term: string): InstructorOffering {
    InstructorOffering(o.dept, o.number, term, o.title)
  }

  /** The duplicate test of the script: same department, number and term. */
  predicate SameSlot(a: InstructorOffering, b: InstructorOffering) {
    a.dept == b.dept && a.number == b.number && a.term == b.term
  }

  /** `lo.ContainsBy(offerings, SameSlot(_, x))`. */
  predicate Covers(s: seq<InstructorOffering>, x: InstructorOffering) {
    exists k :: 0 <= k < |s| && SameSlot(s[k], x)
  }

  /** No two listed offerings share a slot and none is listed twice: stated
      so that any reordering keeps it. */
  ghost predicate SlotsUnique(s: seq<InstructorOffering>) {
    && (forall x, y :: x in s && y in s && SameSlot(x, y) ==> x == y)
    && (forall x :: multiset(s)[x] <= 1)
  }

  /** What every entry of `instructorMap` keeps: it is filed under its own
      name, which is trimmed and not blank, and it has at least one offering,
      no two in the same slot. */
  ghost predicate EntryOk(k: string, v: InstructorResponse) {
    && v.name == k && k != "" && TrimSpace(k) == k
    && |v.offerings| >= 1 && SlotsUnique(v.offerings)
  }

  ghost predicate Inv(m: Entries<InstructorResponse>) {
    DistinctKeys(m) && forall i :: 0 <= i < |m| ==> EntryOk(m[i].0, m[i].1)
  }

  /** Entries only grow: a filed instructor stays, with its offerings as a prefix. */
  ghost predicate Grows(m: Entries<InstructorResponse>, r: Entries<InstructorResponse>) {
    forall k :: Get(m, k).Some? ==> Get(r, k).Some? && Get(m, k).value.offerings <= Get(r, k).value.offerings
  }

  lemma GrowsTrans(a: Entries<InstructorResponse>, b: Entries<InstructorResponse>, c: Entries<InstructorResponse>)
    requires Grows(a, b) && Grows(b, c)
    ensures Grows(a, c)
  {
  }

  /** The instructor filed under `name`, or a fresh one with no offerings. */
  function Current(m: Entries<InstructorResponse>, name: string): (v: InstructorResponse)
    ensures Get(m, name).Some? ==> v == Get(m, name).value
    ensures Get(m, name).None? ==> v == InstructorResponse(name, [])
  {
    Get(m, name).GetOr(InstructorResponse(name, []))
  }

  /** The instructor with offering `x` appended unless its slot is covered. */
  function Extend(cur: InstructorResponse, x: InstructorOffering): (v: InstructorResponse)
    ensures v.name == cur.name && cur.offerings <= v.offerings
    ensures Covers(v.offerings, x)
    ensures Covers(cur.offerings, x) ==> v == cur
    ensures !Covers(cur.offerings, x) ==> v.offerings == cur.offerings + [x]
  {
    if Covers(cur.offerings, x) then cur
    else
      var v := cur.(offerings := cur.offerings + [x]);
      assert SameSlot(v.offerings[|cur.offerings|], x);
      v
  }

  /** One name of one offering of one outline: a blank name is skipped;
      otherwise the trimmed name gets an entry and, unless it already has one
      in the same slot, the outline's offering. */
  function AddName(m: Entries<InstructorResponse>, o: CourseOutline, term: string, raw: string)
    : (r: Entries<InstructorResponse>)
    ensures TrimSpace(raw) == "" ==> r == m
    ensures TrimSpace(raw) != "" ==>
      && Get(r, TrimSpace(raw)).Some?
      && Covers(Get(r, TrimSpace(raw)).value.offerings, Slot(o, term))
      && forall k :: k != TrimSpace(raw) ==> Get(r, k) == Get(m, k)
    ensures Grows(m, r)
    ensures DistinctKeys(m) ==> DistinctKeys(r)
  {
    var name := TrimSpace(raw);
    if name == "" then m
    else
      var v := Extend(Current(m, name), Slot(o, term));
      PutGet(m, name, v);
      if DistinctKeys(m) then PutDistinct(m, name, v); Put(m, name, v)
      else Put(m, name, v)
  }

  /** An offering in the list covers its own slot. */
  lemma CoveredIfIn(s: seq<InstructorOffering>, x: InstructorOffering)
    ensures x in s ==> Covers(s, x)
  {
    if x in s {
      var k :| 0 <= k < |s| && s[k] == x;
      assert SameSlot(s[k], x);
    }
  }

  /** No listed offering shares the slot of an uncovered one. */
  lemma NotCoveredApart(s: seq<InstructorOffering>, x: InstructorOffering)
    requires !Covers(s, x)
    ensures forall y :: y in s ==> !SameSlot(y, x) && !SameSlot(x, y)
  {
    forall y | y in s
      ensures !SameSlot(y, x)
    {
      var k :| 0 <= k < |s| && s[k] == y;
    }
  }

  lemma AppendSlotsUnique(s: seq<InstructorOffering>, x: InstructorOffering)
    requires SlotsUnique(s) && !Covers(s, x)
    ensures SlotsUnique(s + [x])
  {
    CoveredIfIn(s, x);
    NotCoveredApart(s, x);
    assert multiset(s + [x]) == multiset(s) + multiset{x};
    assert forall y :: y in s + [x] <==> y in s || y == x;
  }

  lemma CurrentOk(m: Entries<InstructorResponse>, name: string)
    requires Inv(m) && name != ""
    ensures Current(m, name).name == name && SlotsUnique(Current(m, name).offerings)
  {
    if Get(m, name).Some? {
      var i :| 0 <= i < |m| && m[i] == (name, Get(m, name).value);
    }
  }

  lemma PutInv(m: Entries<InstructorResponse>, k: string, v: InstructorResponse)
    requires Inv(m) && EntryOk(k, v)
    ensures Inv(Put(m, k, v))
  {
    PutDistinct(m, k, v);
    var r := Put(m, k, v);
    forall i | 0 <= i < |r|
      ensures EntryOk(r[i].0, r[i].1)
    {
      if r[i] != (k, v) {
        var j :| 0 <= j < |m| && m[j] == r[i];
      }
    }
  }

  lemma AddNameInv(m: Entries<InstructorResponse>, o: CourseOutline, term: string, raw: string)
    requires Inv(m)
    ensures Inv(AddName(m, o, term, raw))
  {
    var name := TrimSpace(raw);
    if name != "" {
      TrimSpaceIdempotent(raw);
      var cur := Current(m, name);
      var x := Slot(o, term);
      CurrentOk(m, name);
      if !Covers(cur.offerings, x) {
        AppendSlotsUnique(cur.offerings, x);
      }
      var v := Extend(cur, x);
      assert |v.offerings| >= 1;
      PutInv(m, name, v);
    }
  }

  /** The names of one offering of one outline. */
  function FoldNames(m: Entries<InstructorResponse>, o: CourseOutline, term: string, names: seq<string>)
    : (r: Entries<InstructorResponse>)
    ensures Grows(m, r)
    ensures DistinctKeys(m) ==> DistinctKeys(r)
    decreases |names|
  {
    if |names| == 0 then m
    else
      var next := AddName(m, o, term, names[0]);
      var r := FoldNames(next, o, term, names[1..]);
      GrowsTrans(m, next, r);
      r
  }

  /** The offerings of one outline. */
  function FoldOfferings(m: Entries<InstructorResponse>, o: CourseOutline, offerings: seq<CourseOffering>)
    : (r: Entries<InstructorResponse>)
    ensures Grows(m, r)
    ensures DistinctKeys(m) ==> DistinctKeys(r)
    decreases |offerings|
  {
    if |offerings| == 0 then m
    else
      var next := FoldNames(m, o, offerings[0].term, offerings[0].instructors);
      var r := FoldOfferings(next, o, offerings[1..]);
      GrowsTrans(m, next, r);
      r
  }

  /** The outline loop: an outline without a department or number adds nothing. */
  function FoldOutlines(m: Entries<InstructorResponse>, outlines: seq<CourseOutline>)
    : (r: Entries<InstructorResponse>)
    ensures Grows(m, r)
    ensures DistinctKeys(m) ==> DistinctKeys(r)
    decreases |outlines|
  {
    if |outlines| == 0 then m
    else
      var o := outlines[0];
      var next := if HasOutlineKey(o) then FoldOfferings(m, o, o.offerings) else m;
      var r := FoldOutlines(next, outlines[1..]);
      GrowsTrans(m, next, r);
      r
  }

  lemma {:induction false} FoldNamesInv(m: Entries<InstructorResponse>, o: CourseOutline, term: string, names: seq<string>)
    requires Inv(m)
    ensures Inv(FoldNames(m, o, term, names))
    decreases |names|
  {
    if |names| > 0 {
      AddNameInv(m, o, term, names[0]);
      FoldNamesInv(AddName(m, o, term, names[0]), o, term, names[1..]);
    }
  }

  lemma {:induction false} FoldOfferingsInv(m: Entries<InstructorResponse>, o: CourseOutline, offerings: seq<CourseOffering>)
    requires Inv(m)
    ensures Inv(FoldOfferings(m, o, offerings))
    decreases |offerings|
  {
    if |offerings| > 0 {
      FoldNamesInv(m, o, offerings[0].term, offerings[0].instructors);
      FoldOfferingsInv(FoldNames(m, o, offerings[0].term, offerings[0].instructors), o, offerings[1..]);
    }
  }

  lemma {:induction false} FoldOutlinesInv(m: Entries<InstructorResponse>, outlines: seq<CourseOutline>)
    requires Inv(m)
    ensures Inv(FoldOutlines(m, outlines))
    decreases |outlines|
  {
    if |outlines| > 0 {
      var o := outlines[0];
      if HasOutlineKey(o) {
        FoldOfferingsInv(m, o, o.offerings);
      }
      FoldOutlinesInv(if HasOutlineKey(o) then FoldOfferings(m, o, o.offerings) else m, outlines[1..]);
    }
  }

  // ---------------------------------------------------------------------------
  // Completeness: every non-blank name of a keyed outline gets its offering

  /** A filed instructor whose offerings cover `x`. */
  ghost predicate Filed(m: Entries<InstructorResponse>, name: string, x: InstructorOffering) {
    Get(m, name).Some? && Covers(Get(m, name).value.offerings, x)
  }

  lemma FiledGrows(m: Entries<InstructorResponse>, r: Entries<InstructorResponse>, name: string, x: InstructorOffering)
    requires Filed(m, name, x) && Grows(m, r)
    ensures Filed(r, name, x)
  {
    var s := Get(m, name).value.offerings;
    var k :| 0 <= k < |s| && SameSlot(s[k], x);
    assert Get(r, name).value.offerings[k] == s[k];
  }

  lemma {:induction false} FoldNamesFiles(m: Entries<InstructorResponse>, o: CourseOutline, term: string,
                                          names: seq<string>, raw: string)
    requires raw in names && TrimSpace(raw) != ""
    ensures Filed(FoldNames(m, o, term, names), TrimSpace(raw), Slot(o, term))
    decreases |names|
  {
    var next := AddName(m, o, term, names[0]);
    var r := FoldNames(next, o, term, names[1..]);
    if names[0] == raw {
      FiledGrows(next, r, TrimSpace(raw), Slot(o, term));
    } else {
      FoldNamesFiles(next, o, term, names[1..], raw);
    }
  }

  lemma {:induction false} FoldOfferingsFiles(m: Entries<InstructorResponse>, o: CourseOutline,
                                              offerings: seq<CourseOffering>, f: CourseOffering, raw: string)
    requires f in offerings && raw in f.instructors && TrimSpace(raw) != ""
    ensures Filed(FoldOfferings(m, o, offerings), TrimSpace(raw), Slot(o, f.term))
    decreases |offerings|
  {
    var next := FoldNames(m, o, offerings[0].term, offerings[0].instructors);
    var r := FoldOfferings(next, o, offerings[1..]);
    if offerings[0] == f {
      FoldNamesFiles(m, o, f.term, f.instructors, raw);
      FiledGrows(next, r, TrimSpace(raw), Slot(o, f.term));
    } else {
      FoldOfferingsFiles(next, o, offerings[1..], f, raw);
    }
  }

  lemma {:induction false} FoldOutlinesFiles(m: Entries<InstructorResponse>, outlines: seq<CourseOutline>,
                                             o: CourseOutline, f: CourseOffering, raw: string)
    requires o in outlines && HasOutlineKey(o)
    requires f in o.offerings && raw in f.instructors && TrimSpace(raw) != ""
    ensures Filed(FoldOutlines(m, outlines), TrimSpace(raw), Slot(o, f.term))
    decreases |outlines|
  {
    var first := outlines[0];
    var next := if HasOutlineKey(first) then FoldOfferings(m, first, first.offerings) else m;
    var r := FoldOutlines(next, outlines[1..]);
    if first == o {
      FoldOfferingsFiles(m, o, o.offerings, f, raw);
      FiledGrows(next, r, TrimSpace(raw), Slot(o, f.term));
    } else {
      FoldOutlinesFiles(next, outlines[1..], o, f, raw);
    }
  }

  // ---------------------------------------------------------------------------
  // Soundness: every filed offering comes from a name on a keyed outline

  /** `x` is the offering that a name trimming to `name`, on an offering of
      an outline with a department and a number, contributes. */
  ghost predicate From(outlines: seq<CourseOutline>, name: string, x: InstructorOffering) {
    exists o, f, raw :: o in outlines && HasOutlineKey(o) && f in o.offerings && raw in f.instructors
                        && TrimSpace(raw) == name && x == Slot(o, f.term)
  }

  /** Every offering the map files comes from the outlines. */
  ghost predicate AllFrom(m: Entries<InstructorResponse>, outlines: seq<CourseOutline>) {
    forall k, x :: Get(m, k).Some? && x in Get(m, k).value.offerings ==> From(outlines, k, x)
  }

  lemma AddNameSound(m: Entries<InstructorResponse>, outlines: seq<CourseOutline>, o: CourseOutline,
                     f: CourseOffering, raw: string)
    requires AllFrom(m, outlines)
    requires o in outlines && HasOutlineKey(o) && f in o.offerings && raw in f.instructors
    ensures AllFrom(AddName(m, o, f.term, raw), outlines)
  {
    var name := TrimSpace(raw);
    if name != "" {
      var cur := Current(m, name);
      var v := Extend(cur, Slot(o, f.term));
      PutGet(m, name, v);
      var r := AddName(m, o, f.term, raw);
      forall k, x | Get(r, k).Some? && x in Get(r, k).value.offerings
        ensures From(outlines, k, x)
      {
        if k == name && x !in cur.offerings {
          assert x == Slot(o, f.term);
        }
      }
    }
  }

  lemma {:induction false} FoldNamesSound(m: Entries<InstructorResponse>, outlines: seq<CourseOutline>,
                                          o: CourseOutline, f: CourseOffering, names: seq<string>)
    requires AllFrom(m, outlines)
    requires o in outlines && HasOutlineKey(o) && f in o.offerings
    requires forall raw :: raw in names ==> raw in f.instructors
    ensures AllFrom(FoldNames(m, o, f.term, names), outlines)
    decreases |names|
  {
    if |names| > 0 {
      AddNameSound(m, outlines, o, f, names[0]);
      FoldNamesSound(AddName(m, o, f.term, names[0]), outlines, o, f, names[1..]);
    }
  }

  lemma {:induction false} FoldOfferingsSound(m: Entries<InstructorResponse>, outlines: seq<CourseOutline>,
                                              o: CourseOutline, offerings: seq<CourseOffering>)
    requires AllFrom(m, outlines)
    requires o in outlines && HasOutlineKey(o)
    requires forall f :: f in offerings ==> f in o.offerings
    ensures AllFrom(FoldOfferings(m, o, offerings), outlines)
    decreases |offerings|
  {
    if |offerings| > 0 {
      var f := offerings[0];
      FoldNamesSound(m, outlines, o, f, f.instructors);
      FoldOfferingsSound(FoldNames(m, o, f.term, f.instructors), outlines, o, offerings[1..]);
    }
  }

  lemma {:induction false} FoldOutlinesSound(m: Entries<InstructorResponse>, outlines: seq<CourseOutline>,
                                             rest: seq<CourseOutline>)
    requires AllFrom(m, outlines)
    requires forall o :: o in rest ==> o in outlines
    ensures AllFrom(FoldOutlines(m, rest), outlines)
    decreases |rest|
  {
    if |rest| > 0 {
      var o := rest[0];
      if HasOutlineKey(o) {
        FoldOfferingsSound(m, outlines, o, o.offerings);
      }
      FoldOutlinesSound(if HasOutlineKey(o) then FoldOfferings(m, o, o.offerings) else m, outlines, rest[1..]);
    }
  }

  /** Every offering of every written instructor was contributed by a name
      that trims to the instructor's name, on an offering of an outline with
      a department and a number: outlines without either contribute nothing. */
  lemma BuildSound(outlines: seq<CourseOutline>, v: InstructorResponse, x: InstructorOffering)
    requires v in Build(outlines) && x in v.offerings
    ensures exists o, f, raw :: o in outlines && HasOutlineKey(o) && f in o.offerings && raw in f.instructors
                                && TrimSpace(raw) == v.name && x == Slot(o, f.term)
  {
    var m := FoldOutlines([], outlines);
    FoldOutlinesSound([], outlines, outlines);
    FoldOutlinesInv([], outlines);
    WrittenFromOutlines(m, outlines, v, x);
  }

  /** A written offering of a written instructor is one the map filed under
      the instructor's name. */
  lemma WrittenFromOutlines(m: Entries<InstructorResponse>, outlines: seq<CourseOutline>,
                            v: InstructorResponse, x: InstructorOffering)
    requires Inv(m) && AllFrom(m, outlines)
    requires v in Finalize(m) && x in v.offerings
    ensures From(outlines, v.name, x)
  {
    WrittenFrom(m, v);
    var j :| 0 <= j < |m| && v == SortOfferings(m[j].1);
    assert EntryOk(m[j].0, m[j].1);
    GetAt(m, j);
    MultisetMembers(v.offerings, m[j].1.offerings);
    assert x in Get(m, m[j].0).value.offerings;
  }

  // ---------------------------------------------------------------------------
  // Sorting and writing

  /** The offering order: larger term value first (`termB - termA`), then
      (Dept, Number). */
  predicate OfferingLe(a: InstructorOffering, b: InstructorOffering) {
    var va := SortableValueScanned(a.term);
    var vb := SortableValueScanned(b.term);
    va > vb || (va == vb && KeyLe(CourseKey(a.dept, a.number), CourseKey(b.dept, b.number)))
  }

  lemma OfferingLeTotalPreorder()
    ensures TotalPreorder(OfferingLe)
  {
    forall a: InstructorOffering, b: InstructorOffering {
      KeyLeTotal(CourseKey(a.dept, a.number), CourseKey(b.dept, b.number));
    }
    forall a: InstructorOffering, b: InstructorOffering, c: InstructorOffering {
      KeyLeTrans(CourseKey(a.dept, a.number), CourseKey(b.dept, b.number), CourseKey(c.dept, c.number));
    }
  }

  /** The instructor order: `strings.Compare` on the name. */
  predicate ByName(a: InstructorResponse, b: InstructorResponse) {
    LexLe(a.name, b.name)
  }

  lemma ByNameTotalPreorder()
    ensures TotalPreorder(ByName)
  {
    forall a: InstructorResponse, b: InstructorResponse { LexLeTotal(a.name, b.name); }
    forall a: InstructorResponse, b: InstructorResponse, c: InstructorResponse { LexLeTrans(a.name, b.name, c.name); }
  }

  /** One instructor with offerings sorted: same name, a sorted permutation. */
  function SortOfferings(v: InstructorResponse): (r: InstructorResponse)
    ensures r.name == v.name
    ensures SortedBy(r.offerings, OfferingLe)
    ensures multiset(r.offerings) == multiset(v.offerings)
  {
    OfferingLeTotalPreorder();
    v.(offerings := Sort(v.offerings, OfferingLe))
  }

  /** The map's instructors, each with offerings sorted, in map order. */
  function SortedEach(m: Entries<InstructorResponse>): (r: seq<InstructorResponse>)
    ensures |r| == |m|
    ensures forall i :: 0 <= i < |m| ==> r[i] == SortOfferings(m[i].1)
  {
    seq(|m|, i requires 0 <= i < |m| => SortOfferings(m[i].1))
  }

  /** The list the script writes: the instructors sorted by name. */
  function Finalize(m: Entries<InstructorResponse>): (r: seq<InstructorResponse>)
    ensures SortedBy(r, ByName)
    ensures forall i :: 0 <= i < |r| ==> SortedBy(r[i].offerings, OfferingLe)
    ensures multiset(r) == multiset(SortedEach(m))
  {
    ByNameTotalPreorder();
    var each := SortedEach(m);
    var r := Sort(each, ByName);
    EachSorted(m);
    PermutedSorted(r, each);
    r
  }

  /** Every instructor of `SortedEach` has its offerings sorted. */
  lemma EachSorted(m: Entries<InstructorResponse>)
    ensures forall x :: x in SortedEach(m) ==> SortedBy(x.offerings, OfferingLe)
  {
  }

  /** Reordering a list keeps every instructor's offerings sorted. */
  lemma PermutedSorted(r: seq<InstructorResponse>, each: seq<InstructorResponse>)
    requires multiset(r) == multiset(each)
    requires forall x :: x in each ==> SortedBy(x.offerings, OfferingLe)
    ensures forall i :: 0 <= i < |r| ==> SortedBy(r[i].offerings, OfferingLe)
  {
    MultisetMembers(r, each);
    assert forall i :: 0 <= i < |r| ==> r[i] in each;
  }

  /** `fetchInstructors` from the outlines to the written list. */
  function Build(outlines: seq<CourseOutline>): seq<InstructorResponse> {
    Finalize(FoldOutlines([], outlines))
  }

  /** Sorting an instructor's offerings keeps what the map guaranteed. */
  lemma SortOfferingsOk(v: InstructorResponse)
    requires |v.offerings| >= 1 && SlotsUnique(v.offerings)
    ensures |SortOfferings(v).offerings| >= 1 && SlotsUnique(SortOfferings(v).offerings)
  {
    var r := SortOfferings(v);
    MultisetMembers(r.offerings, v.offerings);
    assert |multiset(r.offerings)| == |multiset(v.offerings)|;
  }

  /** Every written instructor is a map entry with its offerings sorted. */
  lemma WrittenFrom(m: Entries<InstructorResponse>, v: InstructorResponse)
    requires v in Finalize(m)
    ensures exists j :: 0 <= j < |m| && v == SortOfferings(m[j].1)
  {
    MultisetMembers(Finalize(m), SortedEach(m));
    var j :| 0 <= j < |SortedEach(m)| && SortedEach(m)[j] == v;
  }

  /** Every written instructor has a trimmed, non-blank name and at least
      one offering, no two in one slot. */
  lemma FinalizeEntriesOk(m: Entries<InstructorResponse>)
    requires Inv(m)
    ensures forall v :: v in Finalize(m) ==>
      v.name != "" && TrimSpace(v.name) == v.name && |v.offerings| >= 1 && SlotsUnique(v.offerings)
  {
    forall v | v in Finalize(m)
      ensures v.name != "" && TrimSpace(v.name) == v.name && |v.offerings| >= 1 && SlotsUnique(v.offerings)
    {
      WrittenFrom(m, v);
      var j :| 0 <= j < |m| && v == SortOfferings(m[j].1);
      assert EntryOk(m[j].0, m[j].1);
      SortOfferingsOk(m[j].1);
    }
  }

  predicate SameName(a: InstructorResponse, b: InstructorResponse) {
    a.name == b.name
  }

  /** No two instructors share a name and none is listed twice: stated so
      that any reordering keeps it. */
  ghost predicate NamesUnique(s: seq<InstructorResponse>) {
    && (forall x, y :: x in s && y in s && SameName(x, y) ==> x == y)
    && (forall x :: multiset(s)[x] <= 1)
  }

  lemma EachNamesApart(m: Entries<InstructorResponse>)
    requires Inv(m)
    ensures forall i, j :: 0 <= i < j < |SortedEach(m)| ==> SortedEach(m)[i].name != SortedEach(m)[j].name
  {
    var each := SortedEach(m);
    forall i | 0 <= i < |each|
      ensures each[i].name == m[i].0
    {
      assert EntryOk(m[i].0, m[i].1);
    }
  }

  lemma EachOnce(m: Entries<InstructorResponse>)
    requires Inv(m)
    ensures forall x :: multiset(SortedEach(m))[x] <= 1
  {
    var each := SortedEach(m);
    EachNamesApart(m);
    assert NoDuplicates(each);
    NoDuplicatesOnce(each);
  }

  lemma EachSameNameEqual(m: Entries<InstructorResponse>)
    requires Inv(m)
    ensures forall x, y :: x in SortedEach(m) && y in SortedEach(m) && SameName(x, y) ==> x == y
  {
    EachNamesApart(m);
    ApartSameNameEqual(SortedEach(m));
  }

  /** Names apart by position means two members with one name are one. */
  lemma ApartSameNameEqual(each: seq<InstructorResponse>)
    requires forall i, j :: 0 <= i < j < |each| ==> each[i].name != each[j].name
    ensures forall x, y :: x in each && y in each && SameName(x, y) ==> x == y
  {
    forall x, y | x in each && y in each && SameName(x, y)
      ensures x == y
    {
      var i :| 0 <= i < |each| && each[i] == x;
      var j :| 0 <= j < |each| && each[j] == y;
      assert i == j;
    }
  }

  lemma EachNamesUnique(m: Entries<InstructorResponse>)
    requires Inv(m)
    ensures NamesUnique(SortedEach(m))
  {
    EachOnce(m);
    EachSameNameEqual(m);
  }

  lemma NamesUniquePermuted(a: seq<InstructorResponse>, b: seq<InstructorResponse>)
    requires multiset(a) == multiset(b) && NamesUnique(b)
    ensures NamesUnique(a)
  {
    MultisetMembers(a, b);
  }

  /** The written names are strictly ascending, so no name appears twice. */
  lemma FinalizeNamesAscending(m: Entries<InstructorResponse>)
    requires Inv(m)
    ensures forall i, j :: 0 <= i < j < |Finalize(m)| ==> LexLt(Finalize(m)[i].name, Finalize(m)[j].name)
  {
    var r := Finalize(m);
    EachNamesUnique(m);
    NamesUniquePermuted(r, SortedEach(m));
    ApartBy(r, SameName);
    forall i, j | 0 <= i < j < |r|
      ensures LexLt(r[i].name, r[j].name)
    {
      assert !SameName(r[i], r[j]);
    }
  }

  /** Offerings sharing a slot never both appear in a written instructor. */
  lemma SlotsApart(s: seq<InstructorOffering>)
    requires SlotsUnique(s)
    ensures forall i, j :: 0 <= i < j < |s| ==> !SameSlot(s[i], s[j])
  {
    ApartBy(s, SameSlot);
  }

  /** A filed instructor's sorted record covers the same slots. */
  lemma SortedCovers(v: InstructorResponse, x: InstructorOffering)
    requires Covers(v.offerings, x)
    ensures Covers(SortOfferings(v).offerings, x)
  {
    var s := v.offerings;
    var t := SortOfferings(v).offerings;
    var k :| 0 <= k < |s| && SameSlot(s[k], x);
    MultisetMembers(t, s);
    assert s[k] in t;
    var k' :| 0 <= k' < |t| && t[k'] == s[k];
    assert SameSlot(t[k'], x);
  }

  /** A filed instructor is written with an offering in each covered slot. */
  lemma FiledWritten(m: Entries<InstructorResponse>, name: string, x: InstructorOffering)
    requires Inv(m) && Filed(m, name, x)
    ensures exists v :: v in Finalize(m) && v.name == name && Covers(v.offerings, x)
  {
    var i :| 0 <= i < |m| && m[i] == (name, Get(m, name).value);
    var v := SortedEach(m)[i];
    SortedCovers(m[i].1, x);
    assert v in SortedEach(m);
    MultisetMembers(Finalize(m), SortedEach(m));
    assert v in Finalize(m);
  }

  /** Every non-blank name on an offering of an outline with a department and
      a number is written, trimmed, with an offering in that slot. */
  lemma BuildComplete(outlines: seq<CourseOutline>, o: CourseOutline, f: CourseOffering, raw: string)
    requires o in outlines && HasOutlineKey(o)
    requires f in o.offerings && raw in f.instructors && TrimSpace(raw) != ""
    ensures exists v :: v in Build(outlines) && v.name == TrimSpace(raw) && Covers(v.offerings, Slot(o, f.term))
  {
    FoldOutlinesFiles([], outlines, o, f, raw);
    FoldOutlinesInv([], outlines);
    FiledWritten(FoldOutlines([], outlines), TrimSpace(raw), Slot(o, f.term));
  }

  /** A written list is sorted by name with unique, trimmed, non-blank names,
      and every instructor has at least one offering, newest first, never two
      in one slot. */
  lemma BuildGood(outlines: seq<CourseOutline>)
    ensures var r := Build(outlines);
      && (forall i, j :: 0 <= i < j < |r| ==> LexLt(r[i].name, r[j].name))
      && forall i :: 0 <= i < |r| ==>
           && r[i].name != "" && TrimSpace(r[i].name) == r[i].name
           && |r[i].offerings| >= 1
           && SortedBy(r[i].offerings, OfferingLe)
           && (forall p, q :: 0 <= p < q < |r[i].offerings| ==> !SameSlot(r[i].offerings[p], r[i].offerings[q]))
  {
    var m := FoldOutlines([], outlines);
    FoldOutlinesInv([], outlines);
    FinalizeEntriesOk(m);
    FinalizeNamesAscending(m);
    var r := Build(outlines);
    forall i | 0 <= i < |r|
      ensures forall p, q :: 0 <= p < q < |r[i].offerings| ==> !SameSlot(r[i].offerings[p], r[i].offerings[q])
    {
      assert r[i] in r;
      SlotsApart(r[i].offerings);
    }
  }
}
