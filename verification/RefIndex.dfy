/** A bunch of the reverse index: entries strictly ordered by id, each with strictly ordered refs. */
module RefBunch {
  import opened GoInts
  import opened SortedLists
  import opened IdRefsCodec

  function BunchId(id: int64): (r: int)
  {
    TruncDiv(id, 64)
  }

  /** Any number, it does not matter which, that is never used as a ref: there are not 2^64 of them, so the number
      of refs always fits a uint64. */
  const NEVER: int64

  predicate GoodRefs(refs: seq<int64>)
  {
    Sorted(refs) && forall r <- refs :: r != NEVER
  }

  /** What is true of every bunch `k` the index stores or builds. */
  predicate WellFormed(k: int, list: seq<IDRefs>)
  {
    && Sorted(Ids(list))
    && forall i :: 0 <= i < |list| ==> BunchId(list[i].id) == k && GoodRefs(list[i].refs)
  }

  /** The refs of the first entry with that id, as `Get` looks for it. */
  function RefsIn(list: seq<IDRefs>, id: int64): (r: seq<int64>)
  {
    if list == [] then [] else if list[0].id == id then list[0].refs else RefsIn(list[1..], id)
  }

  predicate Has(list: seq<IDRefs>, id: int64)
  {
    exists k :: 0 <= k < |list| && list[k].id == id
  }

  lemma HasTail(list: seq<IDRefs>, id: int64)
    requires list != []
    ensures Has(list, id) <==> list[0].id == id || Has(list[1..], id)
  {
    if Has(list, id) && list[0].id != id {
      var k :| 0 <= k < |list| && list[k].id == id;
      assert list[1..][k - 1].id == id;
    }
  }

  lemma {:induction false} RefsInConcat(a: seq<IDRefs>, b: seq<IDRefs>, id: int64)
    ensures RefsIn(a + b, id) == if Has(a, id) then RefsIn(a, id) else RefsIn(b, id)
  {
    if a == [] {
      assert a + b == b;
    } else {
      assert (a + b)[1..] == a[1..] + b;
      RefsInConcat(a[1..], b, id);
      HasTail(a, id);
    }
  }

  lemma {:induction false} RefsInMissing(list: seq<IDRefs>, id: int64)
    requires !Has(list, id)
    ensures RefsIn(list, id) == []
  {
    if list != [] {
      HasTail(list, id);
      RefsInMissing(list[1..], id);
    }
  }

  /** Ids below and above a position do not occur on its other side. */
  lemma SplitAt(list: seq<IDRefs>, i: nat, id: int64)
    requires Sorted(Ids(list)) && i <= |list|
    requires (i > 0 ==> list[i - 1].id < id) && (i < |list| ==> id <= list[i].id)
    ensures !Has(list[..i], id)
    ensures i == |list| || id < list[i].id ==> !Has(list[i..], id) && !Has(list, id)
    ensures i < |list| ==> !Has(list[i + 1..], id)
    ensures i < |list| && list[i].id == id ==> RefsIn(list, id) == list[i].refs && Has(list, id)
  {
    hide RefsIn;
    var ids := Ids(list);
    assert (i > 0 ==> ids[i - 1] < id) && (i < |list| ==> id <= ids[i]);
    assert forall k :: 0 <= k < i ==> list[k].id == ids[k] < id;
    assert forall k :: i < k < |list| ==> id < ids[k] == list[k].id;
    if i < |list| && list[i].id == id { FoundAt(list, i); }
  }

  lemma FoundAt(list: seq<IDRefs>, i: nat)
    requires i < |list| && !Has(list[..i], list[i].id)
    ensures RefsIn(list, list[i].id) == list[i].refs
  {
    hide Has;
    assert list == list[..i] + list[i..];
    RefsInConcat(list[..i], list[i..], list[i].id);
  }

  /** The bunch with the refs of one id replaced; an entry is made for a new id. */
  function With(list: seq<IDRefs>, id: int64, refs: seq<int64>): (r: seq<IDRefs>)
  {
    var i := Position(Ids(list), id);
    if i < |list| && list[i].id == id then list[i := IDRefs(id, refs)]
    else list[..i] + [IDRefs(id, refs)] + list[i..]
  }

  lemma WithSorted(list: seq<IDRefs>, id: int64, refs: seq<int64>)
    requires Sorted(Ids(list))
    ensures Sorted(Ids(With(list, id, refs)))
  {
    var ids, i := Ids(list), Position(Ids(list), id);
    hide Position;
    if i < |list| && list[i].id == id {
      assert Ids(With(list, id, refs)) == ids;
    } else {
      InsertKeepsSorted(ids, i, id);
      assert Ids(With(list, id, refs)) == ids[..i] + [id] + ids[i..];
    }
  }

  lemma RefsInMiddle(a: seq<IDRefs>, e: IDRefs, b: seq<IDRefs>, x: int64)
    ensures RefsIn(a + ([e] + b), x) ==
      if Has(a, x) then RefsIn(a, x) else if e.id == x then e.refs else RefsIn(b, x)
  {
    RefsInConcat(a, [e] + b, x);
    assert ([e] + b)[1..] == b;
  }

  lemma ReplaceAt(list: seq<IDRefs>, i: nat, e: IDRefs, x: int64)
    requires i < |list| && list[i].id == e.id && !Has(list[..i], e.id)
    ensures RefsIn(list[i := e], x) == if x == e.id then e.refs else RefsIn(list, x)
  {
    hide *;
    var a, b := list[..i], list[i + 1..];
    assert list[i := e] == a + ([e] + b);
    RefsInMiddle(a, e, b, x);
    assert list == a + ([list[i]] + b);
    RefsInMiddle(a, list[i], b, x);
  }

  lemma InsertAt(list: seq<IDRefs>, i: nat, e: IDRefs, x: int64)
    requires i <= |list| && !Has(list[..i], e.id)
    ensures RefsIn(list[..i] + [e] + list[i..], x) == if x == e.id then e.refs else RefsIn(list, x)
  {
    hide *;
    var a, b := list[..i], list[i..];
    assert a + [e] + b == a + ([e] + b);
    RefsInMiddle(a, e, b, x);
    assert list == a + b;
    RefsInConcat(a, b, x);
  }

  /** `With` changes what one id maps to and nothing else. */
  lemma WithRefs(list: seq<IDRefs>, id: int64, refs: seq<int64>, x: int64)
    requires Sorted(Ids(list))
    ensures RefsIn(With(list, id, refs), x) == if x == id then refs else RefsIn(list, x)
  {
    hide RefsIn, Has, Position;
    var i := Position(Ids(list), id);
    SplitAt(list, i, id);
    if i < |list| && list[i].id == id {
      ReplaceAt(list, i, IDRefs(id, refs), x);
    } else {
      InsertAt(list, i, IDRefs(id, refs), x);
    }
  }

  lemma WithWellFormed(k: int, list: seq<IDRefs>, id: int64, refs: seq<int64>)
    requires WellFormed(k, list) && BunchId(id) == k && GoodRefs(refs)
    ensures WellFormed(k, With(list, id, refs))
  {
    WithSorted(list, id, refs);
  }

  /** A well-formed bunch can be encoded: it has at most 127 ids, and its refs can be counted. */
  lemma SortedBetween(s: seq<int>, low: int, high: int)
    requires Sorted(s) && low <= high && forall x <- s :: low <= x < high
    ensures |s| <= high - low
  {
    if s != [] {
      SortedLength(s, |s| - 1);
      assert s[0] in s && s[|s| - 1] in s;
    }
  }

  lemma GoodLength(refs: seq<int64>)
    requires GoodRefs(refs)
    ensures |refs| < TWO64
  {
    var i := Position(refs, NEVER);
    SortedBetween(refs[..i], -TWO63, NEVER);
    forall x <- refs[i..] ensures NEVER < x {
      assert x in refs && refs[i] <= x;
    }
    SortedBetween(refs[i..], NEVER + 1, TWO63);
  }

  lemma WellFormedCountable(k: int, list: seq<IDRefs>)
    requires WellFormed(k, list)
    ensures Countable(list)
  {
    forall e <- list ensures |e.refs| < TWO64 { GoodLength(e.refs); }
    if |list| > 0 {
      SortedLength(Ids(list), |list| - 1);
    }
  }

  lemma {:induction false} RefsInGood(k: int, list: seq<IDRefs>, id: int64)
    requires forall e <- list :: GoodRefs(e.refs)
    ensures GoodRefs(RefsIn(list, id))
  {
    if list != [] && list[0].id != id {
      assert forall e <- list[1..] :: e in list;
      RefsInGood(k, list[1..], id);
    }
  }

  lemma InsertedGood(refs: seq<int64>, ref: int64)
    requires GoodRefs(refs) && ref != NEVER
    ensures GoodRefs(Inserted(refs, ref))
  {
    InsertedIsUnion(refs, ref);
    hide Inserted;
    forall r <- Inserted(refs, ref) ensures r != NEVER {
      assert r in ToSet(Inserted(refs, ref));
    }
  }

  lemma RemovedGood(refs: seq<int64>, ref: int64)
    requires GoodRefs(refs)
    ensures GoodRefs(Removed(refs, ref))
  {
    RemovedIsDifference(refs, ref);
    hide Removed;
    forall r <- Removed(refs, ref) ensures r != NEVER {
      assert r in ToSet(Removed(refs, ref));
    }
  }

  /** Writing through the pointer to an entry is the same as replacing its refs. */
  lemma SetEntry(list: seq<IDRefs>, id: int64, before: seq<int64>, refs: seq<int64>)
    ensures var i := Position(Ids(list), id);
      i < |With(list, id, before)| && With(list, id, before)[i := IDRefs(id, refs)] == With(list, id, refs)
  {
    hide Position;
  }

  /** `idRefBunch.getCreate`: the bunch with an entry for the id, and where that entry is. */
  method GetCreate(list: seq<IDRefs>, id: int64) returns (r: seq<IDRefs>, i: nat)
    requires Sorted(Ids(list))
    ensures r == With(list, id, RefsIn(list, id))
    ensures i == Position(Ids(list), id) < |r| && r[i] == IDRefs(id, RefsIn(list, id))
  {
    hide Position, RefsIn, Has;
    i := Search(Ids(list), id);
    SplitAt(list, i, id);
    if i < |list| && list[i].id >= id {
      if list[i].id == id {
        r := list;
      } else {
        RefsInMissing(list, id);
        r := list[..i] + [IDRefs(id, [])] + list[i..];
      }
    } else {
      RefsInMissing(list, id);
      r := list + [IDRefs(id, [])];
      assert r == list[..i] + [IDRefs(id, [])] + list[i..];
    }
  }

  /** `idRefBunch.get`: where the entry of the id is, if there is one. */
  method Get(list: seq<IDRefs>, id: int64) returns (r: Option<nat>)
    requires Sorted(Ids(list))
    ensures r == None <==> !Has(list, id)
    ensures r.Some? ==> r.value == Position(Ids(list), id) < |list| && list[r.value] == IDRefs(id, RefsIn(list, id))
    ensures r.Some? ==> list == With(list, id, RefsIn(list, id))
  {
    hide Position, RefsIn, Has;
    var i := Search(Ids(list), id);
    SplitAt(list, i, id);
    if i < |list| && list[i].id == id { r := Some(i); } else { r := None; }
  }
}

/** The reverse index outside linear import: which ways use a node, which relations use a way. Every
    operation reads a bunch from the store, decodes it, changes one entry and writes it back. */
module RefIndex {
  import opened GoInts
  import opened SortedLists
  import opened IdRefsCodec
  import opened RefBunch

  type Db = map<int, bytes>

  ghost predicate ValidDb(db: Db)
  {
    forall k <- db :: Decode(db[k]).Bunch? && WellFormed(k, Decode(db[k]).list)
  }

  function BunchOf(db: Db, k: int): (r: seq<IDRefs>)
    requires ValidDb(db)
    ensures WellFormed(k, r)
  {
    if k in db then Decode(db[k]).list else []
  }

  /** What the index means: a set of refs for every id, empty for most of them. */
  function RefsOf(db: Db, id: int64): (r: set<int64>)
    requires ValidDb(db)
  {
    ToSet(RefsIn(BunchOf(db, BunchId(id)), id))
  }

  /** A bunch written to the store is the bunch read next time. */
  lemma StoreBunch(db: Db, k: int, list: seq<IDRefs>)
    requires ValidDb(db) && WellFormed(k, list)
    ensures ValidDb(db[k := Encode(list)])
    ensures BunchOf(db[k := Encode(list)], k) == list
    ensures forall j :: j != k ==> BunchOf(db[k := Encode(list)], j) == BunchOf(db, j)
  {
    hide Encode, Decode, WellFormed;
    WellFormedCountable(k, list);
    DecodeEncode(list);
  }

  /** The store after the refs of one id have been replaced. */
  function Stored(db: Db, id: int64, refs: seq<int64>): (r: Db)
    requires ValidDb(db)
  {
    db[BunchId(id) := Encode(With(BunchOf(db, BunchId(id)), id, refs))]
  }

  /** Writing back a bunch with other refs for one id changes the index at that id only. */
  lemma StoreRefs(db: Db, id: int64, refs: seq<int64>)
    requires ValidDb(db) && GoodRefs(refs)
    ensures ValidDb(Stored(db, id, refs))
    ensures forall x: int64 :: RefsOf(Stored(db, id, refs), x) == if x == id then ToSet(refs) else RefsOf(db, x)
  {
    hide With, WellFormed, RefsIn, Encode, ToSet, BunchId, BunchOf, ValidDb;
    var k := BunchId(id);
    var list := BunchOf(db, k);
    WithWellFormed(k, list, id, refs);
    StoreBunch(db, k, With(list, id, refs));
    forall x: int64 ensures RefsOf(Stored(db, id, refs), x) == if x == id then ToSet(refs) else RefsOf(db, x) {
      WellFormedSorted(k, list);
      WithRefs(list, id, refs, x);
    }
  }

  lemma WellFormedSorted(k: int, list: seq<IDRefs>)
    requires WellFormed(k, list)
    ensures Sorted(Ids(list))
  {
  }

  datatype Op = Add(id: int64, ref: int64) | DeleteRef(id: int64, ref: int64) | Delete(id: int64) | Get(id: int64)
  {
    /** What the operation does to the set of refs of `id` in a plain map. */
    function Apply(refs: set<int64>, id: int64): (r: set<int64>)
    {
      match this
      case Add(i, ref) => if i == id then refs + {ref} else refs
      case DeleteRef(i, ref) => if i == id then refs - {ref} else refs
      case Delete(i) => if i == id then {} else refs
      case Get(_) => refs
    }
  }

  function After(refs: set<int64>, ops: seq<Op>, id: int64): (r: set<int64>)
  {
    if ops == [] then refs else ops[|ops| - 1].Apply(After(refs, ops[..|ops| - 1], id), id)
  }

  lemma AfterSnoc(refs: set<int64>, ops: seq<Op>, op: Op, id: int64)
    ensures After(refs, ops + [op], id) == op.Apply(After(refs, ops, id), id)
  {
    assert (ops + [op])[..|ops|] == ops;
  }

  /** The operations leave the ref with the id: it was added, or there before, and nothing has deleted it since. */
  ghost predicate Remains(before: set<int64>, ops: seq<Op>, id: int64, ref: int64)
  {
    || (ref in before && DeleteRef(id, ref) !in ops && Delete(id) !in ops)
    || (exists i :: 0 <= i < |ops| && ops[i] == Add(id, ref) &&
         DeleteRef(id, ref) !in ops[i..] && Delete(id) !in ops[i..])
  }

  lemma RemainsBefore(before: set<int64>, id: int64, ref: int64)
    ensures Remains(before, [], id, ref) <==> ref in before
  {
  }

  lemma RemainsOne(before: set<int64>, ops: seq<Op>, op: Op, id: int64, ref: int64)
    ensures Remains(before, ops + [op], id, ref) <==>
      || op == Add(id, ref)
      || (op != DeleteRef(id, ref) && op != Delete(id) && Remains(before, ops, id, ref))
  {
    var all := ops + [op];
    assert forall o :: o in all <==> o in ops || o == op;
    forall i | 0 <= i < |ops| ensures all[i] == ops[i] && forall o :: o in all[i..] <==> o in ops[i..] || o == op {
      assert all[i..] == ops[i..] + [op];
    }
    assert all[|ops|..] == [op];
    if op == Add(id, ref) { assert all[|ops|] == Add(id, ref); }
  }

  /** The plain map has just the refs that remain. */
  lemma {:induction false} AfterIs(before: set<int64>, ops: seq<Op>, id: int64, ref: int64)
    ensures ref in After(before, ops, id) <==> Remains(before, ops, id, ref)
    decreases |ops|
  {
    hide Remains;
    if ops == [] {
      RemainsBefore(before, id, ref);
    } else {
      var n := |ops| - 1;
      AfterIs(before, ops[..n], id, ref);
      RemainsOne(before, ops[..n], ops[n], id, ref);
      assert ops[..n] + [ops[n]] == ops;
    }
  }

  lemma AnswerIs(before: set<int64>, ops: seq<Op>, id: int64, answer: seq<int64>, ref: int64)
    requires ToSet(answer) == After(before, ops, id)
    ensures ref in answer <==> Remains(before, ops, id, ref)
  {
    AfterIs(before, ops, id, ref);
    hide Remains, After;
    assert ref in answer <==> ref in ToSet(answer);
  }

  class RefCache {
    var db: Db
    var linearImport: bool

    ghost predicate Valid()
      reads this
    {
      ValidDb(db)
    }

    ghost function Refs(id: int64): (r: set<int64>)
      reads this
      requires Valid()
    {
      RefsOf(db, id)
    }

    constructor ()
      ensures Valid() && !linearImport
      ensures forall id: int64 :: Refs(id) == {}
    {
      db, linearImport := map[], false;
    }

    method Load(k: int) returns (list: seq<IDRefs>)
      requires Valid()
      ensures list == BunchOf(db, k) && WellFormed(k, list)
    {
      list := [];
      if k in db {
        var decoded := UnmarshalIDRefsBunch(db[k]);
        list := decoded.list;
      }
    }

    method Store(k: int, list: seq<IDRefs>)
      requires WellFormed(k, list)
      modifies `db
      ensures db == old(db)[k := Encode(list)]
    {
      WellFormedCountable(k, list);
      var data := MarshalIDRefsBunch(list);
      db := db[k := data];
    }

    /** The new bunch goes into the store in place of the old one. */
    method Replace(id: int64, list: seq<IDRefs>, refs: seq<int64>)
      requires Valid() && GoodRefs(refs)
      requires list == With(BunchOf(db, BunchId(id)), id, refs)
      modifies `db
      ensures Valid()
      ensures forall x: int64 :: Refs(x) == if x == id then ToSet(refs) else old(Refs(x))
    {
      hide With, BunchId, BunchOf, WellFormed, Encode, GoodRefs, RefsOf, ValidDb;
      StoreRefs(db, id, refs);
      WithWellFormed(BunchId(id), BunchOf(db, BunchId(id)), id, refs);
      Store(BunchId(id), list);
    }

    /** `Get`; it panics during linear import. */
    method Get(id: int64) returns (refs: seq<int64>)
      requires Valid() && !linearImport
      ensures Sorted(refs) && ToSet(refs) == Refs(id)
    {
      var list := Load(BunchId(id));
      RefsInGood(BunchId(id), list, id);
      assert list[0..] == list;
      for i := 0 to |list|
        invariant RefsIn(list, id) == RefsIn(list[i..], id)
      {
        if list[i].id == id { return list[i].refs; }
        assert list[i..][1..] == list[i + 1..];
      }
      refs := [];
    }

    method Add(id: int64, ref: int64)
      requires Valid() && ref != NEVER
      modifies `db
      ensures Valid()
      ensures forall x: int64 :: Refs(x) == if x == id then old(Refs(x)) + {ref} else old(Refs(x))
    {
      hide With, RefsIn, BunchId, BunchOf, ToSet, Position;
      var list := Load(BunchId(id));
      RefsInGood(BunchId(id), list, id);
      var created, i := GetCreate(list, id);
      var refs := SortedLists.Add(created[i].refs, ref);
      SetEntry(list, id, created[i].refs, refs);
      InsertedGood(created[i].refs, ref);
      Replace(id, created[i := IDRefs(id, refs)], refs);
    }

    method DeleteRef(id: int64, ref: int64)
      requires Valid() && !linearImport
      modifies `db
      ensures Valid()
      ensures forall x: int64 :: Refs(x) == if x == id then old(Refs(x)) - {ref} else old(Refs(x))
    {
      hide With, RefsIn, BunchId, BunchOf, Position, Has;
      var list := Load(BunchId(id));
      var i := RefBunch.Get(list, id);
      if i.Some? {
        RefsInGood(BunchId(id), list, id);
        var refs := SortedLists.Delete(list[i.value].refs, ref);
        SetEntry(list, id, list[i.value].refs, refs);
        RemovedGood(list[i.value].refs, ref);
        Replace(id, list[i.value := IDRefs(id, refs)], refs);
      } else {
        RefsInMissing(list, id);
        assert Refs(id) == {};
      }
    }

    method Delete(id: int64)
      requires Valid() && !linearImport
      modifies `db
      ensures Valid()
      ensures forall x: int64 :: Refs(x) == if x == id then {} else old(Refs(x))
    {
      hide With, RefsIn, BunchId, BunchOf, Position, Has;
      var list := Load(BunchId(id));
      var i := RefBunch.Get(list, id);
      if i.Some? {
        SetEntry(list, id, list[i.value].refs, []);
        Replace(id, list[i.value := IDRefs(id, [])], []);
      } else {
        RefsInMissing(list, id);
        assert Refs(id) == {};
      }
    }

    method Do(op: Op) returns (refs: seq<int64>)
      requires Valid() && !linearImport && (op.Add? ==> op.ref != NEVER)
      modifies `db
      ensures Valid() && forall x: int64 :: Refs(x) == op.Apply(old(Refs(x)), x)
      ensures op.Get? ==> Sorted(refs) && ToSet(refs) == old(Refs(op.id))
    {
      hide RefsOf, ValidDb, ToSet, Sorted;
      refs := [];
      match op {
        case Add(id, ref) => Add(id, ref);
        case DeleteRef(id, ref) => DeleteRef(id, ref);
        case Delete(id) => Delete(id);
        case Get(id) => refs := Get(id);
      }
    }

    /** Any run of operations: the index ends up as a plain map would, and every `Get` on the way is
        answered with the refs, in order, that the map holds at that moment. */
    method Run(ops: seq<Op>) returns (answers: map<nat, seq<int64>>)
      requires Valid() && !linearImport
      requires forall op <- ops :: op.Add? ==> op.ref != NEVER
      modifies `db
      ensures Valid()
      ensures forall x: int64 :: Refs(x) == After(old(Refs(x)), ops, x)
      ensures forall i :: 0 <= i < |ops| && ops[i].Get? ==>
        i in answers && Sorted(answers[i]) && ToSet(answers[i]) == After(old(Refs(ops[i].id)), ops[..i], ops[i].id)
      ensures forall i, ref: int64 :: 0 <= i < |ops| && ops[i].Get? ==>
        (ref in answers[i] <==> Remains(old(Refs(ops[i].id)), ops[..i], ops[i].id, ref))
    {
      hide RefsOf, ValidDb, ToSet, Sorted, Remains, Op.Apply;
      answers := map[];
      for i := 0 to |ops|
        invariant Valid()
        invariant forall x: int64 :: Refs(x) == After(old(Refs(x)), ops[..i], x)
        invariant forall j :: 0 <= j < i && ops[j].Get? ==>
          j in answers && Sorted(answers[j]) && ToSet(answers[j]) == After(old(Refs(ops[j].id)), ops[..j], ops[j].id)
      {
        assert ops[..i + 1] == ops[..i] + [ops[i]];
        assert forall x: int64 ::
          After(old(Refs(x)), ops[..i + 1], x) == ops[i].Apply(After(old(Refs(x)), ops[..i], x), x) by {
          forall x: int64 { AfterSnoc(old(Refs(x)), ops[..i], ops[i], x); }
        }
        assert ops[i] in ops;
        var refs := Do(ops[i]);
        if ops[i].Get? { answers := answers[i := refs]; }
      }
      assert ops[..|ops|] == ops;
      forall i, ref: int64 | 0 <= i < |ops| && ops[i].Get?
        ensures ref in answers[i] <==> Remains(old(Refs(ops[i].id)), ops[..i], ops[i].id, ref)
      {
        AnswerIs(old(Refs(ops[i].id)), ops[..i], ops[i].id, answers[i], ref);
      }
    }
  }
}
