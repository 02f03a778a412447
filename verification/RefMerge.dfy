/** Merging a bunch of new entries into a stored one: ids in both get the union of their refs, a new
    entry without refs removes its id, everything else stays. */
module RefMerge {
  import opened GoInts
  import opened SortedLists
  import opened IdRefsCodec
  import opened RefBunch

  function InsertAll(refs: seq<int64>, more: seq<int64>): (r: seq<int64>)
    decreases |more|
  {
    if more == [] then refs else InsertAll(Inserted(refs, more[0]), more[1..])
  }

  lemma {:induction false} InsertAllIsUnion(refs: seq<int64>, more: seq<int64>)
    requires GoodRefs(refs) && forall r <- more :: r != NEVER
    ensures GoodRefs(InsertAll(refs, more))
    ensures ToSet(InsertAll(refs, more)) == ToSet(refs) + ToSet(more)
    decreases |more|
  {
    hide Inserted;
    if more != [] {
      assert more[0] in more;
      InsertedIsUnion(refs, more[0]);
      InsertedGood(refs, more[0]);
      assert forall r <- more[1..] :: r in more;
      InsertAllIsUnion(Inserted(refs, more[0]), more[1..]);
      assert more == [more[0]] + more[1..];
      SetOfConcat([more[0]], more[1..]);
    }
  }

  /** The bunch without the entry of an id. */
  function Without(list: seq<IDRefs>, id: int64): (r: seq<IDRefs>)
  {
    var i := Position(Ids(list), id);
    if i < |list| && list[i].id == id then list[..i] + list[i + 1..] else list
  }

  /** One round of the merge loop. */
  function MergeOne(list: seq<IDRefs>, e: IDRefs): (r: seq<IDRefs>)
  {
    if e.refs == [] then Without(list, e.id)
    else if Has(list, e.id) then With(list, e.id, InsertAll(RefsIn(list, e.id), e.refs))
    else With(list, e.id, e.refs)
  }

  function Merge(list: seq<IDRefs>, more: seq<IDRefs>): (r: seq<IDRefs>)
    decreases |more|
  {
    if more == [] then list else Merge(MergeOne(list, more[0]), more[1..])
  }

  lemma HasMiddle(a: seq<IDRefs>, e: IDRefs, b: seq<IDRefs>, x: int64)
    ensures Has(a + ([e] + b), x) <==> Has(a, x) || e.id == x || Has(b, x)
  {
    HasConcat(a, [e] + b, x);
    HasConcat([e], b, x);
    assert [e][0].id == e.id;
  }

  lemma HasConcat(a: seq<IDRefs>, b: seq<IDRefs>, x: int64)
    ensures Has(a + b, x) <==> Has(a, x) || Has(b, x)
  {
    if Has(b, x) {
      var k :| 0 <= k < |b| && b[k].id == x;
      assert (a + b)[|a| + k].id == x;
    }
    if Has(a, x) {
      var k :| 0 <= k < |a| && a[k].id == x;
      assert (a + b)[k].id == x;
    }
  }

  lemma WithHas(list: seq<IDRefs>, id: int64, refs: seq<int64>, x: int64)
    requires Sorted(Ids(list))
    ensures Has(With(list, id, refs), x) <==> x == id || Has(list, x)
  {
    hide Has, Position;
    var i := Position(Ids(list), id);
    var e := IDRefs(id, refs);
    if i < |list| && list[i].id == id {
      var a, b := list[..i], list[i + 1..];
      assert list[i := e] == a + ([e] + b);
      assert list == a + ([list[i]] + b);
      HasMiddle(a, e, b, x);
      HasMiddle(a, list[i], b, x);
    } else {
      var a, b := list[..i], list[i..];
      assert a + [e] + b == a + ([e] + b);
      assert list == a + b;
      HasMiddle(a, e, b, x);
      HasConcat(a, b, x);
    }
  }

  /** `Without` removes one id and nothing else. */
  lemma WithoutRefs(list: seq<IDRefs>, id: int64, x: int64)
    requires Sorted(Ids(list))
    ensures Has(Without(list, id), x) <==> x != id && Has(list, x)
    ensures RefsIn(Without(list, id), x) == if x == id then [] else RefsIn(list, x)
  {
    hide Has, RefsIn, Position;
    var i := Position(Ids(list), id);
    SplitAt(list, i, id);
    if i < |list| && list[i].id == id {
      var a, b := list[..i], list[i + 1..];
      assert list == a + ([list[i]] + b);
      HasMiddle(a, list[i], b, x);
      HasConcat(a, b, x);
      RefsInMiddle(a, list[i], b, x);
      RefsInConcat(a, b, x);
      RefsInMissing(b, id);
    } else {
      RefsInMissing(list, id);
    }
  }

  lemma WithoutWellFormed(k: int, list: seq<IDRefs>, id: int64)
    requires WellFormed(k, list)
    ensures WellFormed(k, Without(list, id))
  {
    var i := Position(Ids(list), id);
    hide Position;
    if i < |list| && list[i].id == id {
      RemoveAt(Ids(list), i);
      assert Ids(list[..i] + list[i + 1..]) == Ids(list)[..i] + Ids(list)[i + 1..];
    }
  }

  /** What one new entry does to the refs of an id. */
  function MergedRefs(before: set<int64>, e: IDRefs, x: int64): (r: set<int64>)
  {
    if e.id != x then before else if e.refs == [] then {} else before + ToSet(e.refs)
  }

  lemma MergeOneCorrect(k: int, list: seq<IDRefs>, e: IDRefs, x: int64)
    requires WellFormed(k, list) && BunchId(e.id) == k && GoodRefs(e.refs)
    ensures WellFormed(k, MergeOne(list, e))
    ensures ToSet(RefsIn(MergeOne(list, e), x)) == MergedRefs(ToSet(RefsIn(list, x)), e, x)
    ensures Has(MergeOne(list, e), x) <==> if x == e.id then e.refs != [] else Has(list, x)
  {
    hide Has, RefsIn, With, Without, GoodRefs;
    if e.refs == [] {
      WithoutRefs(list, e.id, x);
      WithoutWellFormed(k, list, e.id);
    } else {
      RefsInGood(k, list, e.id);
      GoodMembers(e.refs);
      InsertAllIsUnion(RefsIn(list, e.id), e.refs);
      var refs := if Has(list, e.id) then InsertAll(RefsIn(list, e.id), e.refs) else e.refs;
      WithRefs(list, e.id, refs, x);
      WithHas(list, e.id, refs, x);
      WithWellFormed(k, list, e.id, refs);
      if !Has(list, e.id) { RefsInMissing(list, e.id); }
    }
  }

  lemma GoodMembers(refs: seq<int64>)
    requires GoodRefs(refs)
    ensures forall r <- refs :: r != NEVER
  {
  }

  lemma TailWellFormed(k: int, list: seq<IDRefs>)
    requires WellFormed(k, list) && list != []
    ensures WellFormed(k, list[1..]) && !Has(list[1..], list[0].id)
  {
    assert Ids(list[1..]) == Ids(list)[1..];
    assert forall i :: 0 < i < |list| ==> Ids(list)[0] < Ids(list)[i];
  }

  /** The whole merge, id by id. */
  lemma {:induction false} MergeCorrect(k: int, list: seq<IDRefs>, more: seq<IDRefs>, x: int64)
    requires WellFormed(k, list) && WellFormed(k, more)
    ensures WellFormed(k, Merge(list, more))
    ensures Has(Merge(list, more), x) <==> if Has(more, x) then RefsIn(more, x) != [] else Has(list, x)
    ensures ToSet(RefsIn(Merge(list, more), x)) ==
      if !Has(more, x) then ToSet(RefsIn(list, x))
      else if RefsIn(more, x) == [] then {} else ToSet(RefsIn(list, x)) + ToSet(RefsIn(more, x))
    decreases |more|
  {
    if more != [] {
      hide Has, MergeOne;
      TailWellFormed(k, more);
      HasTail(more, x);
      MergeOneCorrect(k, list, more[0], x);
      MergeCorrect(k, MergeOne(list, more[0]), more[1..], x);
    }
  }

  /** Everything before the place where the last scan stopped is below the next new id. */
  predicate Resumable(list: seq<IDRefs>, lastIdx: nat, id: int64)
  {
    lastIdx <= |list| && forall j :: 0 <= j < lastIdx ==> list[j].id < id
  }

  /** The inner loop: from `lastIdx` on, the first entry that is not below the id. */
  method Scan(list: seq<IDRefs>, lastIdx: nat, id: int64) returns (i: nat)
    requires Sorted(Ids(list)) && Resumable(list, lastIdx, id)
    ensures i == Position(Ids(list), id) && lastIdx <= i
    ensures Resumable(list, i, id)
  {
    i := lastIdx;
    while i < |list| && list[i].id < id
      invariant lastIdx <= i <= |list|
      invariant forall j :: 0 <= j < i ==> list[j].id < id
    {
      i := i + 1;
    }
    PositionUnique(Ids(list), id, i);
  }

  lemma PositionUnique(s: seq<int>, x: int, i: nat)
    requires i <= |s| && (forall j :: 0 <= j < i ==> s[j] < x) && (i < |s| ==> x <= s[i])
    requires Sorted(s)
    ensures i == Position(s, x)
  {
  }

  method AddAll(refs: seq<int64>, more: seq<int64>) returns (r: seq<int64>)
    requires GoodRefs(refs) && forall x <- more :: x != NEVER
    ensures r == InsertAll(refs, more)
  {
    hide Inserted;
    r := refs;
    assert more[0..] == more;
    for i := 0 to |more|
      invariant GoodRefs(r)
      invariant InsertAll(refs, more) == InsertAll(r, more[i..])
    {
      assert more[i..][1..] == more[i + 1..];
      assert more[i] in more;
      InsertedGood(r, more[i]);
      r := Add(r, more[i]);
    }
  }

  /** The bunch edited at the place the scan found for an entry. */
  function EditAt(list: seq<IDRefs>, i: nat, e: IDRefs): (r: seq<IDRefs>)
    requires i <= |list|
  {
    if i < |list| && list[i].id == e.id then
      if e.refs == [] then list[..i] + list[i + 1..]
      else list[i := IDRefs(e.id, InsertAll(list[i].refs, e.refs))]
    else if e.refs == [] then list
    else list[..i] + [e] + list[i..]
  }

  lemma EditAtIsMergeOne(list: seq<IDRefs>, i: nat, e: IDRefs)
    requires Sorted(Ids(list)) && i == Position(Ids(list), e.id)
    ensures EditAt(list, i, e) == MergeOne(list, e)
  {
    hide Position, Has, RefsIn, InsertAll;
    SplitAt(list, i, e.id);
  }

  lemma EditAtResumable(list: seq<IDRefs>, i: nat, e: IDRefs)
    requires Resumable(list, i, e.id)
    ensures Resumable(EditAt(list, i, e), i, e.id)
  {
  }

  /** One new entry merged in; the scan resumes where the last one stopped. */
  method MergeEntry(k: int, list: seq<IDRefs>, lastIdx: nat, e: IDRefs) returns (r: seq<IDRefs>, next: nat)
    requires WellFormed(k, list) && BunchId(e.id) == k && GoodRefs(e.refs)
    requires Resumable(list, lastIdx, e.id)
    ensures r == MergeOne(list, e) && WellFormed(k, r)
    ensures Resumable(r, next, e.id)
  {
    hide Position, MergeOne, InsertAll;
    MergeOneCorrect(k, list, e, e.id);
    GoodMembers(e.refs);
    var i := Scan(list, lastIdx, e.id);
    EditAtIsMergeOne(list, i, e);
    EditAtResumable(list, i, e);
    hide Resumable, WellFormed, Sorted, Ids;
    if i < |list| {
      next := i;
      if list[i].id == e.id {
        if |e.refs| == 0 {
          r := list[..i] + list[i + 1..];
        } else {
          var refs := AddAll(list[i].refs, e.refs);
          r := list[i := IDRefs(e.id, refs)];
        }
      } else {
        r := list;
        if |e.refs| > 0 {
          r := list[..i] + [e] + list[i..];
        }
      }
    } else {
      r, next := list, lastIdx;
      if |e.refs| > 0 {
        r := list + [e];
        assert r == list[..i] + [e] + list[i..];
        next := |r| - 1;
      }
    }
  }

  /** `mergeBunch`. */
  method MergeBunch(k: int, bunch: seq<IDRefs>, newBunch: seq<IDRefs>) returns (r: seq<IDRefs>)
    requires WellFormed(k, bunch) && WellFormed(k, newBunch)
    ensures r == Merge(bunch, newBunch) && WellFormed(k, r)
    ensures forall x: int64 :: Has(r, x) <==> if Has(newBunch, x) then RefsIn(newBunch, x) != [] else Has(bunch, x)
    ensures forall x: int64 ::
      ToSet(RefsIn(r, x)) ==
        if !Has(newBunch, x) then ToSet(RefsIn(bunch, x))
        else if RefsIn(newBunch, x) == [] then {} else ToSet(RefsIn(bunch, x)) + ToSet(RefsIn(newBunch, x))
  {
    hide MergeOne, Has, RefsIn, ToSet;
    r := bunch;
    var lastIdx := 0;
    assert newBunch[0..] == newBunch;
    for n := 0 to |newBunch|
      invariant WellFormed(k, r)
      invariant Merge(bunch, newBunch) == Merge(r, newBunch[n..])
      invariant n < |newBunch| ==> Resumable(r, lastIdx, newBunch[n].id)
    {
      assert newBunch[n..][1..] == newBunch[n + 1..];
      assert n + 1 < |newBunch| ==> Ids(newBunch)[n] < Ids(newBunch)[n + 1];
      r, lastIdx := MergeEntry(k, r, lastIdx, newBunch[n]);
    }
    forall x: int64 { MergeCorrect(k, bunch, newBunch, x); }
  }
}
