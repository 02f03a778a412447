/** The batches of nodes that are put into the coordinate cache, and the bunches they fall into. */
module Batches {
  import opened GoInts
  import opened SortedLists
  import opened DeltaNodes
  import opened NodeList

  /** Strictly increasing ids, none of them negative. */
  predicate Increasing(batch: seq<Node>)
  {
    Sorted(Ids(batch)) && (batch != [] ==> batch[0].id >= 0)
  }

  lemma Ordered(batch: seq<Node>, i: nat, j: nat)
    requires Increasing(batch) && i <= j < |batch|
    ensures 0 <= batch[i].id <= batch[j].id && (i < j ==> batch[i].id < batch[j].id)
  {
    var ids := Ids(batch);
    assert ids[0] <= ids[i] <= ids[j];
  }

  /** An id between the first and the last of a batch. */
  predicate Spans(batch: seq<Node>, x: int64)
  {
    batch != [] && batch[0].id <= x <= batch[|batch| - 1].id
  }

  lemma {:induction false} Times(n: int, p: int, q: int)
    requires n > 0 && q < p
    ensures n * q + n <= n * p
    decreases p - q
  {
    assert n * p == n * (p - 1) + n;
    if p - 1 > q { Times(n, p - 1, q); }
  }

  lemma BunchMonotone(a: int64, b: int64, bunchSize: int64)
    requires bunchSize > 0 && 0 <= a <= b
    ensures 0 <= BunchId(a, bunchSize) <= BunchId(b, bunchSize)
  {
    hide TruncDiv;
    var p, q := BunchId(a, bunchSize), BunchId(b, bunchSize);
    if q < p { Times(bunchSize, p, q); }
    if p < 0 { Times(bunchSize, 0, p); }
  }

  /** Only negative ids are in a bunch below 0, and bunch 0 is the only one with ids of both signs. */
  lemma PositiveBunch(x: int64, bunchSize: int64)
    requires bunchSize > 0 && BunchId(x, bunchSize) > 0
    ensures x >= 0
  {
    hide TruncDiv;
    Times(bunchSize, BunchId(x, bunchSize), 0);
  }

  /** Ids of one bunch, none negative, are less than a bunch size apart. */
  lemma BunchWidth(a: int64, b: int64, bunchSize: int64)
    requires bunchSize > 0 && 0 <= a <= b && BunchId(a, bunchSize) == BunchId(b, bunchSize)
    ensures b - a < bunchSize
  {
  }

  /** `batch[start..i]` is one whole run of nodes of bunch `k`. */
  predicate Group(batch: seq<Node>, bunchSize: int64, start: nat, i: nat, k: int)
    requires bunchSize > 0
  {
    && start < i <= |batch|
    && (forall j :: start <= j < i ==> BunchId(batch[j].id, bunchSize) == k)
    && (start > 0 ==> BunchId(batch[start - 1].id, bunchSize) != k)
  }

  lemma FirstGroup(batch: seq<Node>, bunchSize: int64)
    requires bunchSize > 0 && batch != []
    ensures Group(batch, bunchSize, 0, 1, BunchId(batch[0].id, bunchSize))
  {
  }

  lemma SameGroup(batch: seq<Node>, bunchSize: int64, start: nat, i: nat, k: int)
    requires bunchSize > 0 && Group(batch, bunchSize, start, i, k)
    requires i < |batch| && BunchId(batch[i].id, bunchSize) == k
    ensures Group(batch, bunchSize, start, i + 1, k)
  {
    hide BunchId;
  }

  lemma NextGroup(batch: seq<Node>, bunchSize: int64, start: nat, i: nat, k: int)
    requires bunchSize > 0 && Group(batch, bunchSize, start, i, k)
    requires i < |batch| && BunchId(batch[i].id, bunchSize) != k
    ensures Group(batch, bunchSize, i, i + 1, BunchId(batch[i].id, bunchSize))
  {
    hide BunchId;
  }

  lemma AtMostBunchSize(batch: seq<Node>, bunchSize: int64, start: nat, i: nat, k: int)
    requires bunchSize > 0 && Increasing(batch) && Group(batch, bunchSize, start, i, k)
    ensures i - start <= bunchSize
  {
    var ids := Ids(batch)[start..i];
    SortedLength(ids, i - start - 1);
    BunchWidth(batch[start].id, batch[i - 1].id, bunchSize);
  }

  /** Nothing before the run belongs to its bunch. */
  lemma BeforeGroup(batch: seq<Node>, bunchSize: int64, start: nat, i: nat, k: int, j: nat)
    requires bunchSize > 0 && Increasing(batch) && Group(batch, bunchSize, start, i, k) && j < start
    ensures BunchId(batch[j].id, bunchSize) < k
  {
    var ids := Ids(batch);
    assert ids[0] <= ids[j] <= ids[start - 1] < ids[start];
    BunchMonotone(batch[j].id, batch[start - 1].id, bunchSize);
    BunchMonotone(batch[start - 1].id, batch[start].id, bunchSize);
  }

  /** The test for a direct write: a run of nodes that ends more than a bunch size after the beginning and
      before the end of the batch is a whole bunch inside of the range of the batch. */
  lemma DirectBunchInside(batch: seq<Node>, bunchSize: int64, start: nat, i: nat, k: int, x: int64)
    requires bunchSize > 0 && Increasing(batch) && Group(batch, bunchSize, start, i, k)
    requires bunchSize < i < |batch| && BunchId(batch[i].id, bunchSize) != k
    requires BunchId(x, bunchSize) == k
    ensures Spans(batch, x)
  {
    hide BunchId, Sorted;
    AtMostBunchSize(batch, bunchSize, start, i, k);
    BeforeGroup(batch, bunchSize, start, i, k, 0);
    Ordered(batch, 0, i - 1);
    Ordered(batch, i - 1, i);
    Ordered(batch, i, |batch| - 1);
    BunchMonotone(batch[0].id, batch[0].id, bunchSize);
    BunchMonotone(batch[i - 1].id, batch[i].id, bunchSize);
    PositiveBunch(x, bunchSize);
    if x < batch[0].id { BunchMonotone(x, batch[0].id, bunchSize); }
    if batch[i].id < x { BunchMonotone(batch[i].id, x, bunchSize); }
  }

  /** So no batch with a disjoint range touches a bunch that is written directly. */
  lemma DirectBunchIsPrivate(batch: seq<Node>, bunchSize: int64, start: nat, i: nat, k: int, other: seq<Node>, j: nat)
    requires bunchSize > 0 && Increasing(batch) && Group(batch, bunchSize, start, i, k)
    requires bunchSize < i < |batch| - bunchSize && BunchId(batch[i].id, bunchSize) != k
    requires forall x: int64 :: Spans(batch, x) ==> !Spans(other, x)
    requires Increasing(other) && j < |other|
    ensures BunchId(other[j].id, bunchSize) != k
  {
    var ids := Ids(other);
    assert ids[0] <= ids[j] <= ids[|other| - 1];
    assert Spans(other, other[j].id);
    if BunchId(other[j].id, bunchSize) == k {
      DirectBunchInside(batch, bunchSize, start, i, k, other[j].id);
    }
  }
}
