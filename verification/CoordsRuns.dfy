/** Whole runs of the coordinate cache, compared with a plain map from ids to coordinates. */
module CoordsRuns {
  import opened GoInts
  import opened SortedLists
  import opened DeltaNodes
  import opened NodeList
  import opened Batches
  import opened CoordsCache

  datatype Op = Put(nodes: seq<Node>) | Delete(id: int64) | Get(id: int64) | Fill(refs: seq<int64>) | Flush

  datatype Answer = Done | Coordinate(fix: Option<Fix>) | Way(fixes: seq<Fix>) | WayNotFound | Panicked

  /** What a plain map holds for an id after some operations, nothing at the beginning. */
  function Plain(ops: seq<Op>, x: int64): (r: Option<Fix>)
  {
    if ops == [] then None
    else
      var before := Plain(ops[..|ops| - 1], x);
      match ops[|ops| - 1]
      case Put(nodes) => AfterPuts(before, NotSkipped(nodes), x)
      case Delete(id) => if x == id then None else before
      case _ => before
  }

  /** The operation changes what is known about an id. */
  predicate Touches(op: Op, x: int64)
  {
    match op
    case Put(nodes) => x != -1 && exists i :: 0 <= i < |nodes| && nodes[i].id == x
    case Delete(id) => id == x
    case _ => false
  }

  /** Operation `i` is the last one to change what is known about an id. */
  ghost predicate LastTouch(ops: seq<Op>, x: int64, i: int)
  {
    0 <= i < |ops| && Touches(ops[i], x) && forall j :: i < j < |ops| ==> !Touches(ops[j], x)
  }

  /** What is known about an id: the node that was last put under it, unless it has been deleted since. */
  ghost predicate Known(ops: seq<Op>, x: int64, r: Option<Fix>)
  {
    if forall i :: 0 <= i < |ops| ==> !Touches(ops[i], x) then r == None
    else exists i :: LastTouch(ops, x, i) && TouchedBy(ops[i], x, r)
  }

  ghost predicate TouchedBy(op: Op, x: int64, r: Option<Fix>)
  {
    match op
    case Put(nodes) => exists j :: LastAt(nodes, x, j) && r == Some(FixOf(nodes[j]))
    case _ => r == None
  }

  lemma KnownOne(ops: seq<Op>, op: Op, x: int64, before: Option<Fix>, r: Option<Fix>)
    requires Known(ops, x, before) && if Touches(op, x) then TouchedBy(op, x, r) else r == before
    ensures Known(ops + [op], x, r)
  {
    hide Touches, TouchedBy;
    var more := ops + [op];
    assert more[|ops|] == op && forall i :: 0 <= i < |ops| ==> more[i] == ops[i];
    if Touches(op, x) {
      assert LastTouch(more, x, |ops|);
    } else if i :| LastTouch(ops, x, i) && TouchedBy(ops[i], x, before) {
      assert LastTouch(more, x, i) && TouchedBy(more[i], x, r);
    }
  }

  lemma PlainOne(ops: seq<Op>, op: Op, x: int64)
    ensures if Touches(op, x) then TouchedBy(op, x, Plain(ops + [op], x)) else Plain(ops + [op], x) == Plain(ops, x)
  {
    hide FixOf, AfterPuts, NotSkipped;
    assert (ops + [op])[..|ops|] == ops;
    if op.Put? { PutsLast(Plain(ops, x), op.nodes, x); }
  }

  /** The plain map holds just what is known. */
  lemma {:induction false} PlainIsKnown(ops: seq<Op>, x: int64)
    ensures Known(ops, x, Plain(ops, x))
    decreases |ops|
  {
    if ops != [] {
      hide *;
      var n := |ops| - 1;
      PlainIsKnown(ops[..n], x);
      assert ops == ops[..n] + [ops[n]];
      PlainOne(ops[..n], ops[n], x);
      KnownOne(ops[..n], ops[n], x, Plain(ops[..n], x), Plain(ops, x));
    }
  }

  /** What the operation after `ops` has to answer. */
  ghost predicate Answers(ops: seq<Op>, op: Op, bunchSize: int64, a: Answer)
    requires bunchSize > 0
  {
    match op
    case Get(id) => a == Coordinate(Plain(ops, id))
    case Fill(refs) =>
      if refs != [] && BunchId(refs[0], bunchSize) == -1 then a == Panicked
      else if forall i :: 0 <= i < |refs| ==> Plain(ops, refs[i]).Some? then
        a == Way(seq(|refs|, i requires 0 <= i < |refs| && Plain(ops, refs[i]).Some? => Plain(ops, refs[i]).value))
      else a == WayNotFound
    case _ => a == Done
  }

  /** The same, without the plain map. */
  ghost predicate AnswersKnown(ops: seq<Op>, op: Op, a: Answer)
  {
    match op
    case Get(id) => a.Coordinate? && Known(ops, id, a.fix)
    case Fill(refs) =>
      match a {
        case Way(fixes) => |fixes| == |refs| && forall i :: 0 <= i < |refs| ==> Known(ops, refs[i], Some(fixes[i]))
        case WayNotFound => exists i :: 0 <= i < |refs| && Known(ops, refs[i], None)
        case _ => a == Panicked
      }
    case _ => a == Done
  }

  lemma AnswersAreKnown(ops: seq<Op>, op: Op, bunchSize: int64, a: Answer)
    requires bunchSize > 0 && Answers(ops, op, bunchSize, a)
    ensures AnswersKnown(ops, op, a)
  {
    hide Known, Plain, BunchId;
    forall x: int64 ensures Known(ops, x, Plain(ops, x)) { PlainIsKnown(ops, x); }
  }

  /** The cache after some operations. */
  ghost predicate Agrees(cache: DeltaCoordsCache, ops: seq<Op>)
    reads cache, cache.table.Values
  {
    cache.Valid() && forall x: int64 :: cache.Coord(x) == Plain(ops, x)
  }

  function Fixes(nodes: seq<Node>): (r: seq<Fix>)
  {
    seq(|nodes|, i requires 0 <= i < |nodes| => FixOf(nodes[i]))
  }

  method Answer1(cache: DeltaCoordsCache, ghost ops: seq<Op>, op: Op) returns (a: Answer)
    requires Agrees(cache, ops) && !cache.linearImport
    modifies cache, cache.table.Values
    ensures Agrees(cache, ops + [op]) && !cache.linearImport
    ensures cache.bunchSize > 0 && Answers(ops, op, cache.bunchSize, a)
    ensures Kept(cache.table, old(cache.table))
  {
    hide DeltaCoordsCache.Valid, DeltaCoordsCache.Coord, AfterPuts, NotSkipped, BunchId, FixOf;
    cache.ValidSize();
    assert (ops + [op])[..|ops|] == ops;
    a := Done;
    match op {
      case Put(nodes) =>
        var buffer := new Node[|nodes|](i requires 0 <= i < |nodes| => nodes[i]);
        assert buffer[..] == nodes;
        cache.PutCoords(buffer);
      case Delete(id) =>
        cache.DeleteCoord(id);
      case Get(id) =>
        var r := cache.GetCoord(id);
        a := Coordinate(if r.Some? then Some(FixOf(r.value)) else None);
      case Fill(refs) =>
        var r := cache.FillWay(refs);
        match r {
          case Panic => a := Panicked;
          case NotFound => a := WayNotFound;
          case Filled(found) =>
            a := Way(Fixes(found));
        }
      case Flush =>
        cache.Flush();
    }
  }

  /** Every run: whatever is evicted, written and reloaded on the way, and however small the table is, the
      cache answers like the plain map. */
  method Run(capacity: int, bunchSize: int64, ops: seq<Op>) returns (answers: seq<Answer>)
    requires capacity >= 1 && bunchSize > 0
    ensures |answers| == |ops|
    ensures forall i :: 0 <= i < |ops| ==> Answers(ops[..i], ops[i], bunchSize, answers[i])
    ensures forall i :: 0 <= i < |ops| ==> AnswersKnown(ops[..i], ops[i], answers[i])
  {
    hide Plain, Answers, AnswersKnown, Agrees, DeltaCoordsCache.Valid, DeltaCoordsCache.Coord;
    var cache := new DeltaCoordsCache(capacity, bunchSize);
    answers := [];
    NothingYet(cache);
    for i := 0 to |ops|
      invariant |answers| == i
      invariant fresh(cache) && forall b <- cache.table.Values :: fresh(b)
      invariant cache.bunchSize == bunchSize && !cache.linearImport && Agrees(cache, ops[..i])
      invariant forall j :: 0 <= j < i ==> Answers(ops[..j], ops[j], bunchSize, answers[j])
    {
      var a := Answer1(cache, ops[..i], ops[i]);
      assert ops[..i] + [ops[i]] == ops[..i + 1];
      answers := answers + [a];
    }
    forall i | 0 <= i < |ops| ensures AnswersKnown(ops[..i], ops[i], answers[i]) {
      AnswersAreKnown(ops[..i], ops[i], bunchSize, answers[i]);
    }
  }

  lemma NothingYet(cache: DeltaCoordsCache)
    requires cache.Valid() && cache.table == map[] && cache.db == map[]
    ensures Agrees(cache, [])
  {
  }

  // Linear import

  /** Apart from skipped nodes the ids increase, and none is negative. */
  predicate ValidBatch(batch: seq<Node>)
  {
    && (forall i :: 0 <= i < |batch| && batch[i].id != -1 ==> batch[i].id >= 0)
    && (forall i, j :: 0 <= i < j < |batch| && batch[i].id != -1 && batch[j].id != -1 ==> batch[i].id < batch[j].id)
  }

  /** The id is between two of a batch. */
  predicate Between(batch: seq<Node>, x: int64)
  {
    exists i, j :: 0 <= i < |batch| && 0 <= j < |batch| && batch[i].id != -1 && batch[j].id != -1 &&
      batch[i].id <= x <= batch[j].id
  }

  /** No id is in the ranges of two of the batches. */
  ghost predicate Disjoint(batches: seq<seq<Node>>)
  {
    forall a, b, x: int64 :: 0 <= a < b < |batches| && Between(batches[a], x) ==> !Between(batches[b], x)
  }

  lemma ValidIncreasing(batch: seq<Node>)
    requires ValidBatch(batch)
    ensures Increasing(NotSkipped(batch))
    ensures forall x: int64 :: Spans(NotSkipped(batch), x) ==> Between(batch, x)
  {
    hide NotSkipped;
    var at := KeepsAllButSkipped(batch);
    var kept := NotSkipped(batch);
    forall i, j | 0 <= i < j < |kept| ensures Ids(kept)[i] < Ids(kept)[j] {
      assert at[i] < at[j] && kept[i] == batch[at[i]] && kept[j] == batch[at[j]];
    }
    if kept != [] {
      assert kept[0] == batch[at[0]] && kept[|kept| - 1] == batch[at[|kept| - 1]];
    }
  }

  ghost predicate ValidBatches(batches: seq<seq<Node>>)
  {
    && (forall b :: 0 <= b < |batches| ==> Increasing(NotSkipped(batches[b])))
    && forall a, b, x: int64 :: 0 <= a < b < |batches| && Spans(NotSkipped(batches[a]), x) ==>
         !Spans(NotSkipped(batches[b]), x)
  }

  lemma BatchesValid(batches: seq<seq<Node>>)
    requires (forall b :: 0 <= b < |batches| ==> ValidBatch(batches[b])) && Disjoint(batches)
    ensures ValidBatches(batches)
  {
    hide NotSkipped, Between, Spans, ValidBatch, Increasing;
    forall b | 0 <= b < |batches|
      ensures Increasing(NotSkipped(batches[b]))
      ensures forall x: int64 :: Spans(NotSkipped(batches[b]), x) ==> Between(batches[b], x)
    {
      ValidIncreasing(batches[b]);
    }
  }

  /** What the store knows about an id. */
  function Lookup(db: Db, bunchSize: int64, x: int64): (r: Option<Fix>)
    requires bunchSize > 0
  {
    FindFix(Stored(db, BunchId(x, bunchSize)), x)
  }

  function InBatches(batches: seq<seq<Node>>, x: int64): (r: Option<Fix>)
  {
    if batches == [] then None
    else AfterPuts(InBatches(batches[..|batches| - 1], x), NotSkipped(batches[|batches| - 1]), x)
  }

  lemma SpansOwn(batch: seq<Node>, i: nat)
    requires Increasing(batch) && i < |batch|
    ensures Spans(batch, batch[i].id)
  {
    Ordered(batch, 0, i);
    Ordered(batch, i, |batch| - 1);
  }

  lemma OutsideOf(before: Option<Fix>, batch: seq<Node>, x: int64)
    requires Increasing(batch) && !Spans(batch, x)
    ensures AfterPuts(before, batch, x) == before
  {
    hide Increasing, Spans, AfterPuts;
    forall i | 0 <= i < |batch| ensures batch[i].id != x { SpansOwn(batch, i); }
    AfterPutsOther(before, batch, x);
  }

  lemma {:induction false} NotInBatches(batches: seq<seq<Node>>, x: int64)
    requires forall b :: 0 <= b < |batches| ==> Increasing(NotSkipped(batches[b])) && !Spans(NotSkipped(batches[b]), x)
    ensures InBatches(batches, x) == None
  {
    hide Spans, Increasing, NotSkipped, AfterPuts;
    if batches != [] {
      NotInBatches(batches[..|batches| - 1], x);
      OutsideOf(None, NotSkipped(batches[|batches| - 1]), x);
    }
  }

  lemma {:induction false} AfterOwnPut(before: Option<Fix>, batch: seq<Node>, i: nat)
    requires Sorted(Ids(batch)) && i < |batch|
    ensures AfterPuts(before, batch, batch[i].id) == Some(FixOf(batch[i]))
  {
    var last := |batch| - 1;
    if i < last {
      assert Ids(batch)[i] < Ids(batch)[last];
      assert Ids(batch[..last]) == Ids(batch)[..last];
      AfterOwnPut(before, batch[..last], i);
    }
  }

  lemma {:induction false} EachIsIn(batches: seq<seq<Node>>, b: nat, i: nat)
    requires ValidBatches(batches) && b < |batches| && i < |NotSkipped(batches[b])|
    ensures InBatches(batches, NotSkipped(batches[b])[i].id) == Some(FixOf(NotSkipped(batches[b])[i]))
  {
    hide Spans, NotSkipped, AfterPuts, FixOf;
    var last := |batches| - 1;
    var n := NotSkipped(batches[b])[i];
    var before := InBatches(batches[..last], n.id);
    if b == last {
      AfterOwnPut(before, NotSkipped(batches[last]), i);
    } else {
      EachIsIn(batches[..last], b, i);
      SpansOwn(NotSkipped(batches[b]), i);
      OutsideOf(before, NotSkipped(batches[last]), n.id);
    }
  }

  lemma {:induction false} PutSomewhere(before: Option<Fix>, batch: seq<Node>, x: int64)
    requires AfterPuts(before, batch, x) != before
    ensures x in Ids(batch)
  {
    var last := |batch| - 1;
    if batch != [] && batch[last].id == x {
      assert Ids(batch)[last] == x;
    } else if batch != [] {
      PutSomewhere(before, batch[..last], x);
      assert Ids(batch)[..last] == Ids(batch[..last]);
    }
  }

  lemma {:induction false} NothingElse(batches: seq<seq<Node>>, x: int64)
    requires InBatches(batches, x) != None
    ensures exists b :: 0 <= b < |batches| && x in Ids(NotSkipped(batches[b]))
  {
    hide NotSkipped, AfterPuts, Ids;
    var last := |batches| - 1;
    if InBatches(batches[..last], x) == None {
      PutSomewhere(None, NotSkipped(batches[last]), x);
    } else {
      NothingElse(batches[..last], x);
    }
  }

  /** Linear import: batches of increasing ids over disjoint ranges, in any order, starting with an empty
      cache and flushed at the end. The store holds every node of every batch and nothing else, although
      bunches inside of a batch are written past the table. */
  method ImportLinear(capacity: int, bunchSize: int64, batches: seq<seq<Node>>) returns (db: Db)
    requires capacity >= 1 && bunchSize > 0
    requires (forall b :: 0 <= b < |batches| ==> ValidBatch(batches[b])) && Disjoint(batches)
    ensures ValidDb(db, bunchSize)
    ensures forall b, i :: 0 <= b < |batches| && 0 <= i < |batches[b]| && batches[b][i].id != -1 ==>
      Lookup(db, bunchSize, batches[b][i].id) == Some(FixOf(batches[b][i]))
    ensures forall b, i :: 0 <= b < |batches| && 0 <= i < |batches[b]| && batches[b][i].id != -1 ==>
      (OnEarth(batches[b][i]) ==> HasNode(db, bunchSize, batches[b][i]))
    ensures Lookup(db, bunchSize, -1) == None
    ensures forall x: int64 :: Lookup(db, bunchSize, x) != None ==>
      exists b, i :: 0 <= b < |batches| && 0 <= i < |batches[b]| && batches[b][i].id == x
  {
    BatchesValid(batches);
    hide ValidBatch, Disjoint, HasNode, OnEarth, InBatches, NotSkipped, AfterPuts, Increasing, Spans, FixOf,
      BunchId, Ids;
    var cache := new DeltaCoordsCache(capacity, bunchSize);
    NothingYet(cache);
    cache.linearImport := true;
    forall x: int64 ensures InBatches([], x) == None { NotInBatches([], x); }
    for b := 0 to |batches|
      invariant fresh(cache) && forall bunch <- cache.table.Values :: fresh(bunch)
      invariant cache.bunchSize == bunchSize && cache.Valid() && cache.NoEmpty()
      invariant forall x: int64 :: cache.Coord(x) == InBatches(batches[..b], x)
    {
      PutBatch(cache, batches, b);
    }
    cache.Flush();
    db := cache.db;
    assert batches[..|batches|] == batches;
    assert forall x: int64 :: Lookup(db, bunchSize, x) == cache.Coord(x);
    AllStored(db, bunchSize, batches);
    NothingElseStored(db, bunchSize, batches);
  }

  lemma AllStored(db: Db, bunchSize: int64, batches: seq<seq<Node>>)
    requires bunchSize > 0 && ValidBatches(batches)
    requires forall x: int64 :: Lookup(db, bunchSize, x) == InBatches(batches, x)
    ensures forall b, i :: 0 <= b < |batches| && 0 <= i < |batches[b]| && batches[b][i].id != -1 ==>
      Lookup(db, bunchSize, batches[b][i].id) == Some(FixOf(batches[b][i]))
    ensures forall b, i :: 0 <= b < |batches| && 0 <= i < |batches[b]| && batches[b][i].id != -1 ==>
      (OnEarth(batches[b][i]) ==> HasNode(db, bunchSize, batches[b][i]))
  {
    hide *;
    forall b, i | 0 <= b < |batches| && 0 <= i < |batches[b]| && batches[b][i].id != -1
      ensures Lookup(db, bunchSize, batches[b][i].id) == Some(FixOf(batches[b][i]))
      ensures OnEarth(batches[b][i]) ==> HasNode(db, bunchSize, batches[b][i])
    {
      NodeIsIn(batches, b, i);
      if OnEarth(batches[b][i]) { StoredNear(db, bunchSize, batches[b][i]); }
    }
  }

  lemma NothingElseStored(db: Db, bunchSize: int64, batches: seq<seq<Node>>)
    requires bunchSize > 0
    requires forall x: int64 :: Lookup(db, bunchSize, x) == InBatches(batches, x)
    ensures Lookup(db, bunchSize, -1) == None
    ensures forall x: int64 :: Lookup(db, bunchSize, x) != None ==>
      exists b, i :: 0 <= b < |batches| && 0 <= i < |batches[b]| && batches[b][i].id == x
  {
    hide *;
    forall x: int64 | Lookup(db, bunchSize, x) != None
      ensures x != -1 && exists b, i :: 0 <= b < |batches| && 0 <= i < |batches[b]| && batches[b][i].id == x
    {
      NothingElse(batches, x);
      var b :| 0 <= b < |batches| && x in Ids(NotSkipped(batches[b]));
      var i := PlaceOf(batches[b], x);
    }
  }

  lemma PlaceOf(batch: seq<Node>, x: int64) returns (i: nat)
    requires x in Ids(NotSkipped(batch))
    ensures x != -1 && i < |batch| && batch[i].id == x
  {
    hide NotSkipped;
    var at := KeepsAllButSkipped(batch);
    var j :| 0 <= j < |Ids(NotSkipped(batch))| && Ids(NotSkipped(batch))[j] == x;
    i := at[j];
  }

  lemma NodeIsIn(batches: seq<seq<Node>>, b: nat, i: nat)
    requires ValidBatches(batches) && b < |batches| && i < |batches[b]| && batches[b][i].id != -1
    ensures InBatches(batches, batches[b][i].id) == Some(FixOf(batches[b][i]))
  {
    hide NotSkipped, InBatches, FixOf, ValidBatches;
    var at := KeepsAllButSkipped(batches[b]);
    var j :| 0 <= j < |at| && at[j] == i;
    EachIsIn(batches, b, j);
  }

  /** The store has the node, less than 10^-7 degrees off. */
  predicate HasNode(db: Db, bunchSize: int64, node: Node)
    requires bunchSize > 0
  {
    var r := Find(Stored(db, BunchId(node.id, bunchSize)), node.id);
    r.Some? && Near(r.value, node)
  }

  lemma StoredNear(db: Db, bunchSize: int64, node: Node)
    requires bunchSize > 0 && OnEarth(node) && Lookup(db, bunchSize, node.id) == Some(FixOf(node))
    ensures HasNode(db, bunchSize, node)
  {
    hide CoordToInt, IntToCoord, BunchId, Decode, Near, Quantise, Find;
    var k := BunchId(node.id, bunchSize);
    var r := Find(Stored(db, k), node.id).value;
    StoredIsQuantised(db, k, r);
    QuantiseIsNear(node);
    assert Near(r, node) by { SameQuantised(r, node); }
  }

  lemma SameQuantised(r: Node, node: Node)
    requires r.id == node.id && FixOf(r) == FixOf(node) && Quantise(r) == r
    ensures r == Quantise(node)
  {
    hide CoordToInt, IntToCoord;
  }

  lemma StoredIsQuantised(db: Db, k: int, n: Node)
    requires n in Stored(db, k)
    ensures Quantise(n) == n
  {
    hide CoordToInt, IntToCoord;
    DecodedIsQuantised(db[k], n);
  }

  method PutBatch(cache: DeltaCoordsCache, batches: seq<seq<Node>>, b: nat)
    requires ValidBatches(batches) && b < |batches|
    requires cache.Valid() && cache.NoEmpty()
    requires forall x: int64 :: cache.Coord(x) == InBatches(batches[..b], x)
    modifies cache, cache.table.Values
    ensures cache.Valid() && cache.NoEmpty() && Kept(cache.table, old(cache.table))
    ensures forall x: int64 :: cache.Coord(x) == InBatches(batches[..b + 1], x)
  {
    hide NotSkipped, AfterPuts, Increasing, Spans, FixOf, BunchId, Ids;
    hide DeltaCoordsCache.Valid, DeltaCoordsCache.Coord, DeltaCoordsCache.NoEmpty;
    cache.ValidSize();
    var batch := batches[b];
    var buffer := new Node[|batch|](i requires 0 <= i < |batch| => batch[i]);
    assert buffer[..] == batch;
    forall x: int64 | Spans(NotSkipped(batch), x) ensures cache.Coord(x) == None {
      NotInBatches(batches[..b], x);
    }
    cache.PutCoords(buffer);
    assert batches[..b + 1][..b] == batches[..b];
  }
}
