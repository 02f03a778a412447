/** The coordinate cache: bunches of nodes in a table, a list of the recently used ones, dirty flags, and
    a key/value store that dirty bunches are written to when they are evicted. Each public operation is
    one atomic step. Between them the cache must answer like a plain map from ids to coordinates. */
module CoordsCache {
  import opened GoInts
  import opened SortedLists
  import opened DeltaNodes
  import opened NodeList
  import opened Batches

  type Db = map<int, bytes>

  const SKIP: int64 := -1

  // The store

  ghost predicate ValidDb(db: Db, bunchSize: int64)
    requires bunchSize > 0
  {
    forall k <- db ::
      Decode(db[k]).Some? && WellFormed(k, bunchSize, Decode(db[k]).value) && Decode(db[k]).value != []
  }

  /** `getCoordsPacked`. */
  function Stored(db: Db, k: int): (r: seq<Node>)
  {
    if k in db && Decode(db[k]).Some? then Decode(db[k]).value else []
  }

  /** `putCoordsPacked`: an empty bunch is deleted from the store. */
  function Packed(db: Db, k: int, list: seq<Node>): (r: Db)
  {
    if list == [] then db - {k} else db[k := Encode(list)]
  }

  /** Two bunches that say the same about every id. */
  ghost predicate SameFixes(a: seq<Node>, b: seq<Node>)
  {
    forall x: int64 :: FindFix(a, x) == FindFix(b, x)
  }

  lemma SameItself(a: seq<Node>)
    ensures SameFixes(a, a)
  {
  }

  lemma StoredIsWellFormed(db: Db, k: int, bunchSize: int64)
    requires bunchSize > 0 && ValidDb(db, bunchSize)
    ensures WellFormed(k, bunchSize, Stored(db, k))
  {
    hide Decode, BunchId;
  }

  lemma PackedCorrect(db: Db, k: int, bunchSize: int64, list: seq<Node>)
    requires bunchSize > 0 && ValidDb(db, bunchSize) && WellFormed(k, bunchSize, list)
    ensures ValidDb(Packed(db, k, list), bunchSize)
    ensures SameFixes(Stored(Packed(db, k, list), k), list)
    ensures forall j :: j != k ==> Stored(Packed(db, k, list), j) == Stored(db, j)
    ensures list == [] <==> k !in Packed(db, k, list)
  {
    hide Decode, Encode, WellFormed, FindFix;
    StoredWellFormed(k, bunchSize, list);
    assert |QuantiseAll(list)| == |list|;
  }

  // The list of recently used bunches

  predicate NoDup(s: seq<int>)
  {
    forall i, j :: 0 <= i < j < |s| ==> s[i] != s[j]
  }

  function Unlinked(s: seq<int>, k: int): (r: seq<int>)
  {
    if s == [] then [] else if s[0] == k then s[1..] else [s[0]] + Unlinked(s[1..], k)
  }

  lemma {:induction false} UnlinkedCorrect(s: seq<int>, k: int)
    requires NoDup(s)
    ensures NoDup(Unlinked(s, k))
    ensures ToSet(Unlinked(s, k)) == ToSet(s) - {k}
  {
    if s != [] {
      assert s == [s[0]] + s[1..];
      assert s[0] !in s[1..];
      SetOfConcat([s[0]], s[1..]);
      if s[0] != k {
        UnlinkedCorrect(s[1..], k);
        SetOfConcat([s[0]], Unlinked(s[1..], k));
        assert s[0] !in ToSet(Unlinked(s[1..], k));
      }
    }
  }

  lemma FrontCorrect(s: seq<int>, keys: set<int>, k: int)
    requires NoDup(s) && ToSet(s) == keys && k !in keys
    ensures NoDup([k] + s) && ToSet([k] + s) == keys + {k}
  {
  }

  lemma MoveToFrontCorrect(s: seq<int>, keys: set<int>, k: int)
    requires NoDup(s) && ToSet(s) == keys && k in keys
    ensures NoDup([k] + Unlinked(s, k)) && ToSet([k] + Unlinked(s, k)) == keys
  {
    UnlinkedCorrect(s, k);
    FrontCorrect(Unlinked(s, k), keys - {k}, k);
  }

  lemma BackCorrect(s: seq<int>)
    requires NoDup(s) && s != []
    ensures NoDup(s[..|s| - 1]) && ToSet(s[..|s| - 1]) == ToSet(s) - {s[|s| - 1]}
  {
    assert s == s[..|s| - 1] + [s[|s| - 1]];
  }

  lemma {:induction false} SetSize(s: seq<int>)
    ensures |ToSet(s)| <= |s|
  {
    if s != [] {
      SetSize(s[1..]);
      assert s == [s[0]] + s[1..];
      SetOfConcat([s[0]], s[1..]);
      assert ToSet([s[0]]) == {s[0]};
    }
  }

  // Puts

  /** Ids that differ from each other and from those of a bunch. */
  predicate AllNew(list: seq<Node>, nodes: seq<Node>)
  {
    && (forall i :: 0 <= i < |nodes| ==> Find(list, nodes[i].id) == None)
    && (forall i, j :: 0 <= i < j < |nodes| ==> nodes[i].id != nodes[j].id)
  }

  lemma WithMultiset(list: seq<Node>, n: Node)
    requires Sorted(Ids(list)) && Find(list, n.id) == None
    ensures multiset(With(list, n)) == multiset(list) + multiset{n}
  {
    hide Position, Find, Sorted;
    Around(list, n.id);
    var i := Position(Ids(list), n.id);
    assert list == list[..i] + list[i..];
  }

  /** What a plain map holds for an id after nodes have been put into it one after the other. */
  function AfterPuts(before: Option<Fix>, nodes: seq<Node>, x: int64): (r: Option<Fix>)
  {
    if nodes == [] then before
    else if nodes[|nodes| - 1].id == x then Some(FixOf(nodes[|nodes| - 1]))
    else AfterPuts(before, nodes[..|nodes| - 1], x)
  }

  lemma {:induction false} AfterPutsConcat(before: Option<Fix>, a: seq<Node>, b: seq<Node>, x: int64)
    ensures AfterPuts(before, a + b, x) == AfterPuts(AfterPuts(before, a, x), b, x)
    decreases |b|
  {
    if b == [] {
      assert a + b == a;
    } else {
      assert (a + b)[..|a + b| - 1] == a + b[..|b| - 1];
      AfterPutsConcat(before, a, b[..|b| - 1], x);
    }
  }

  lemma {:induction false} AfterPutsOther(before: Option<Fix>, nodes: seq<Node>, x: int64)
    requires forall i :: 0 <= i < |nodes| ==> nodes[i].id != x
    ensures AfterPuts(before, nodes, x) == before
  {
    if nodes != [] { AfterPutsOther(before, nodes[..|nodes| - 1], x); }
  }

  function PutAll(list: seq<Node>, nodes: seq<Node>): (r: seq<Node>)
  {
    if nodes == [] then list else With(PutAll(list, nodes[..|nodes| - 1]), nodes[|nodes| - 1])
  }

  predicate InBunch(k: int, bunchSize: int64, nodes: seq<Node>)
    requires bunchSize > 0
  {
    forall i :: 0 <= i < |nodes| ==> BunchId(nodes[i].id, bunchSize) == k
  }

  lemma {:induction false} PutAllCorrect(k: int, bunchSize: int64, list: seq<Node>, nodes: seq<Node>, x: int64)
    requires bunchSize > 0 && WellFormed(k, bunchSize, list) && InBunch(k, bunchSize, nodes)
    ensures WellFormed(k, bunchSize, PutAll(list, nodes))
    ensures FindFix(PutAll(list, nodes), x) == AfterPuts(FindFix(list, x), nodes, x)
  {
    hide BunchId, With, Sorted, Ids, FixOf, Find;
    if nodes != [] {
      PutAllCorrect(k, bunchSize, list, nodes[..|nodes| - 1], x);
      WithWellFormed(k, bunchSize, PutAll(list, nodes[..|nodes| - 1]), nodes[|nodes| - 1]);
      WithFind(PutAll(list, nodes[..|nodes| - 1]), nodes[|nodes| - 1], x);
    }
  }

  /** `removeSkippedNodes` on the list. */
  function NotSkipped(nodes: seq<Node>): (r: seq<Node>)
  {
    if nodes == [] then []
    else NotSkipped(nodes[..|nodes| - 1]) + if nodes[|nodes| - 1].id != SKIP then [nodes[|nodes| - 1]] else []
  }

  /** `kept` are the nodes of `all` whose id is not -1, each at its place `at[j]`, in order. */
  ghost predicate KeptFrom(all: seq<Node>, kept: seq<Node>, at: seq<nat>)
  {
    && |at| == |kept|
    && (forall j :: 0 <= j < |at| ==> at[j] < |all| && kept[j] == all[at[j]] && all[at[j]].id != -1)
    && (forall j, l :: 0 <= j < l < |at| ==> at[j] < at[l])
    && (forall i :: 0 <= i < |all| && all[i].id != -1 ==> i in at)
  }

  lemma KeepOne(all: seq<Node>, kept: seq<Node>, at: seq<nat>, n: Node)
    requires KeptFrom(all, kept, at)
    ensures n.id == -1 ==> KeptFrom(all + [n], kept, at)
    ensures n.id != -1 ==> KeptFrom(all + [n], kept + [n], at + [|all|])
  {
    var more := all + [n];
    assert forall i :: 0 <= i < |all| ==> more[i] == all[i];
    if n.id != -1 {
      assert forall i :: i in at ==> i in at + [|all|];
      assert (at + [|all|])[|at|] == |all|;
    }
  }

  lemma SkipStep(nodes: seq<Node>, n: Node)
    ensures NotSkipped(nodes + [n]) == if n.id != -1 then NotSkipped(nodes) + [n] else NotSkipped(nodes)
  {
    assert (nodes + [n])[..|nodes|] == nodes;
    assert NotSkipped(nodes) + [] == NotSkipped(nodes);
  }

  /** All nodes stay but those with id -1, and they stay in order. */
  lemma {:induction false} KeepsAllButSkipped(nodes: seq<Node>) returns (at: seq<nat>)
    ensures KeptFrom(nodes, NotSkipped(nodes), at)
    decreases |nodes|
  {
    at := [];
    if nodes != [] {
      hide *;
      var n := |nodes| - 1;
      at := KeepsAllButSkipped(nodes[..n]);
      assert nodes == nodes[..n] + [nodes[n]];
      SkipStep(nodes[..n], nodes[n]);
      KeepOne(nodes[..n], NotSkipped(nodes[..n]), at, nodes[n]);
      if nodes[n].id != -1 { at := at + [n]; }
    }
  }

  /** `removeSkippedNodes`, in place: the nodes that stay move to the front, in order. */
  method RemoveSkippedNodes(nodes: array<Node>) returns (n: nat)
    modifies nodes
    ensures n <= nodes.Length && nodes[..n] == NotSkipped(old(nodes[..]))
    ensures exists at :: KeptFrom(old(nodes[..]), nodes[..n], at)
  {
    ghost var at := KeepsAllButSkipped(nodes[..]);
    hide KeptFrom;
    n := 0;
    ghost var all := nodes[..];
    for i := 0 to nodes.Length
      invariant n <= i && nodes[..n] == NotSkipped(all[..i])
      invariant forall k :: i <= k < nodes.Length ==> nodes[k] == all[k]
    {
      assert all[..i + 1][..i] == all[..i];
      ghost var front := nodes[..n];
      if i != n {
        nodes[n] := nodes[i];
      }
      if nodes[i].id != SKIP {
        n := n + 1;
        assert nodes[..n] == front + [all[i]];
      }
    }
    assert all[..nodes.Length] == all;
  }

  /** `r` is what is known about an id after nodes have been put: the last node with that id if there is one, where
      -1 is not an id, and what was known before if there is none. */
  ghost predicate PutLast(before: Option<Fix>, nodes: seq<Node>, x: int64, r: Option<Fix>)
  {
    if x == -1 || forall i :: 0 <= i < |nodes| ==> nodes[i].id != x then r == before
    else exists i :: LastAt(nodes, x, i) && r == Some(FixOf(nodes[i]))
  }

  /** The last place of an id. */
  predicate LastAt(nodes: seq<Node>, x: int64, i: int)
  {
    0 <= i < |nodes| && nodes[i].id == x && forall j :: i < j < |nodes| ==> nodes[j].id != x
  }

  lemma PutLastOne(before: Option<Fix>, nodes: seq<Node>, n: Node, x: int64, r: Option<Fix>)
    requires PutLast(before, nodes, x, r)
    ensures PutLast(before, nodes + [n], x, if n.id == x && x != -1 then Some(FixOf(n)) else r)
  {
    hide FixOf;
    var more := nodes + [n];
    assert forall i :: 0 <= i < |nodes| ==> more[i] == nodes[i];
    assert more[|nodes|] == n;
    if x != -1 {
      if n.id == x {
        assert LastAt(more, x, |nodes|);
      } else if i :| LastAt(nodes, x, i) && r == Some(FixOf(nodes[i])) {
        assert LastAt(more, x, i);
      }
    }
  }

  lemma AfterOne(before: Option<Fix>, kept: seq<Node>, n: Node, x: int64)
    ensures AfterPuts(before, kept + [n], x) == if n.id == x then Some(FixOf(n)) else AfterPuts(before, kept, x)
  {
    hide FixOf;
    assert (kept + [n])[..|kept|] == kept;
  }

  lemma {:induction false} PutsLast(before: Option<Fix>, nodes: seq<Node>, x: int64)
    ensures PutLast(before, nodes, x, AfterPuts(before, NotSkipped(nodes), x))
    decreases |nodes|
  {
    if nodes != [] {
      hide *;
      var n := |nodes| - 1;
      var kept := NotSkipped(nodes[..n]);
      PutsLast(before, nodes[..n], x);
      assert nodes == nodes[..n] + [nodes[n]];
      SkipStep(nodes[..n], nodes[n]);
      AfterOne(before, kept, nodes[n], x);
      PutLastOne(before, nodes[..n], nodes[n], x, AfterPuts(before, kept, x));
    }
  }

  /** The ids of bunch -1; there are such ids, whatever the size. */
  lemma BunchBelowZero(id: int64, size: int64)
    requires size > 0
    ensures BunchId(id, size) == -1 <==> -2 * size < id <= -size
    ensures BunchId(-size, size) == -1
  {
    Quotient(-size, size, -1);
    if -2 * size < id <= -size { Quotient(id, size, -1); }
  }

  lemma Quotient(a: int, b: int, r: int)
    requires b > 0 && a < 0 && 0 <= b * r - a < b
    ensures TruncDiv(a, b) == r
  {
    var q := TruncDiv(a, b);
    assert 0 <= b * q - a < b;
    assert -b < b * (q - r) < b;
    Multiple(b, q - r);
  }

  lemma Multiple(b: int, n: int)
    requires b > 0
    ensures (n >= 1 ==> b * n >= b) && (n <= -1 ==> b * n <= -b)
  {
  }

  /** What becomes of filling in the nodes of a way. */
  datatype Fill = Panic | NotFound | Filled(nodes: seq<Node>)

  class CoordsBunch {
    var coords: seq<Node>
    var needsWrite: bool

    constructor ()
      ensures coords == [] && !needsWrite
    {
      coords, needsWrite := [], false;
    }

    method GetCoord(id: int64) returns (r: Option<Node>)
      requires Sorted(Ids(coords))
      ensures r == Find(coords, id)
    {
      hide Position, Find;
      Around(coords, id);
      var i := Search(Ids(coords), id);
      if i < |coords| && coords[i].id == id { r := Some(coords[i]); } else { r := None; }
    }

    method DeleteCoord(id: int64)
      requires Sorted(Ids(coords))
      modifies `coords
      ensures coords == Without(old(coords), id)
    {
      hide Position;
      var i := Search(Ids(coords), id);
      if i < |coords| && coords[i].id == id {
        coords := coords[..i] + coords[i + 1..];
      }
    }

    method PutCoord(node: Node)
      requires Sorted(Ids(coords))
      modifies `coords
      ensures coords == With(old(coords), node)
    {
      hide Position;
      var i := Search(Ids(coords), node.id);
      if i < |coords| {
        if coords[i].id == node.id {
          coords := coords[i := node];
        } else {
          coords := coords[..i] + [node] + coords[i..];
        }
      } else {
        assert coords + [node] == coords[..i] + [node] + coords[i..];
        coords := coords + [node];
      }
    }

    /** The bulk put of linear import: append and sort. New ids only, so there is one strictly ordered
        arrangement of the nodes, the one that single puts would have made. */
    method PutCoords(nodes: seq<Node>)
      requires Sorted(Ids(coords)) && AllNew(coords, nodes)
      modifies `coords
      ensures coords == PutAll(old(coords), nodes)
      ensures Arrangement(coords, multiset(old(coords)) + multiset(nodes))
    {
      hide With, Sorted, Ids, Find, Arrangement;
      assert nodes[..0] == [];
      for i := 0 to |nodes|
        invariant Sorted(Ids(coords)) && coords == PutAll(old(coords), nodes[..i])
        invariant multiset(coords) == multiset(old(coords)) + multiset(nodes[..i])
        invariant forall j :: i <= j < |nodes| ==> Find(coords, nodes[j].id) == None
      {
        assert nodes[..i + 1] == nodes[..i] + [nodes[i]];
        assert nodes[..i + 1][..i] == nodes[..i];
        WithSorted(coords, nodes[i]);
        WithMultiset(coords, nodes[i]);
        forall j | i < j < |nodes| ensures Find(With(coords, nodes[i]), nodes[j].id) == None {
          WithFind(coords, nodes[i], nodes[j].id);
        }
        coords := With(coords, nodes[i]);
      }
      assert nodes[..|nodes|] == nodes;
      ArrangementOf(coords);
    }
  }

  class DeltaCoordsCache {
    var db: Db
    var lruList: seq<int>
    var table: map<int, CoordsBunch>
    var linearImport: bool
    const capacity: int
    const bunchSize: int64

    /** A bunch in memory is well-formed, and it equals the stored one unless it has to be written. */
    ghost predicate BunchOk(k: int)
      requires k in table && bunchSize > 0
      reads this, table[k]
    {
      WellFormed(k, bunchSize, table[k].coords) && (!table[k].needsWrite ==> table[k].coords == Stored(db, k))
    }

    /** Everything that holds between operations, except for the size of the table and for bunch `k`. */
    ghost predicate ValidBut(k: int)
      reads this, table.Values
    {
      && bunchSize > 0 && capacity >= 1
      && NoDup(lruList) && ToSet(lruList) == table.Keys
      && (forall i, j :: i in table && j in table && i != j ==> table[i] != table[j])
      && ValidDb(db, bunchSize)
      && (forall j <- table :: j != k ==> BunchOk(j))
    }

    ghost predicate Valid()
      reads this, table.Values
    {
      && bunchSize > 0 && capacity >= 1
      && NoDup(lruList) && ToSet(lruList) == table.Keys
      && (forall i, j :: i in table && j in table && i != j ==> table[i] != table[j])
      && ValidDb(db, bunchSize)
      && (forall j <- table :: BunchOk(j))
      && |table| <= capacity
    }

    /** The nodes of a bunch, wherever they are. */
    ghost function View(k: int): (r: seq<Node>)
      reads this, table.Values
    {
      if k in table then table[k].coords else Stored(db, k)
    }

    /** What the cache knows about an id. */
    ghost function Coord(id: int64): (r: Option<Fix>)
      requires bunchSize > 0
      reads this, table.Values
    {
      FindFix(View(BunchId(id, bunchSize)), id)
    }

    constructor (capacity: int, bunchSize: int64)
      requires capacity >= 1 && bunchSize > 0
      ensures Valid() && table == map[] && db == map[] && !linearImport
      ensures this.capacity == capacity && this.bunchSize == bunchSize
    {
      db, lruList, table, linearImport := map[], [], map[], false;
      this.capacity, this.bunchSize := capacity, bunchSize;
    }

    /** A bunch that is not in the table yet: made empty, in front of the list. */
    method AddToFront(k: int) returns (bunch: CoordsBunch)
      requires Valid() && k !in table
      modifies `lruList, `table
      ensures ValidBut(k) && k in table && table[k] == bunch && lruList != [] && lruList[0] == k
      ensures fresh(bunch) && !bunch.needsWrite
      ensures forall j <- table :: (j in old(table) && table[j] == old(table)[j]) || j == k
      ensures forall j :: j != k ==> View(j) == old(View(j))
    {
      hide WellFormed, FindFix, Stored, ValidDb, NoDup, ToSet;
      FrontCorrect(lruList, table.Keys, k);
      lruList := [k] + lruList;
      bunch := new CoordsBunch();
      table := table[k := bunch];
      assert table.Keys == old(table.Keys) + {k};
    }

    method MoveToFront(k: int) returns (bunch: CoordsBunch)
      requires Valid() && k in table
      modifies `lruList
      ensures ValidBut(k) && BunchOk(k) && table[k] == bunch && lruList != [] && lruList[0] == k
    {
      hide WellFormed, Stored, ValidDb, NoDup, ToSet;
      bunch := table[k];
      MoveToFrontCorrect(lruList, table.Keys, k);
      lruList := [k] + Unlinked(lruList, k);
    }

    /** `getBunch`: the bunch is in the table and in front of the list afterwards, loaded from the store
        if it was not there, and no coordinate changes whatever had to be evicted. */
    method GetBunch(k: int) returns (bunch: CoordsBunch)
      requires Valid()
      modifies `db, `lruList, `table
      ensures Valid() && k in table && table[k] == bunch && lruList != [] && lruList[0] == k
      ensures forall j <- table :: (j in old(table) && table[j] == old(table)[j]) || (j == k && fresh(bunch))
      ensures Kept(table, old(table))
      ensures forall j :: SameFixes(View(j), old(View(j)))
    {
      hide WellFormed, FindFix, Stored, ValidDb, SameFixes, NoDup, ToSet, Kept;
      var needsGet := k !in table;
      if needsGet {
        bunch := AddToFront(k);
      } else {
        bunch := MoveToFront(k);
      }
      label front:
      CheckCapacity(k);
      if needsGet {
        StoredIsWellFormed(db, k, bunchSize);
        bunch.coords := Stored(db, k);
      }
      KeptByKey(table, old(table));
      assert Valid();
      assert View(k) == old(View(k));
      assert forall j :: j != k ==> View(j) == if j in table then old@front(View(j)) else View(j);
      forall j ensures SameFixes(View(j), old(View(j))) {
        SameItself(View(j));
      }
    }

    /** `CheckCapacity`: evicts from the back of the list; the bunch in front, just fetched, stays. */
    method CheckCapacity(ghost keep: int)
      requires ValidBut(keep) && lruList != [] && lruList[0] == keep
      modifies `db, `lruList, `table
      ensures ValidBut(keep) && lruList != [] && lruList[0] == keep && keep in table
      ensures |table| <= capacity
      ensures table.Keys <= old(table.Keys) && forall j <- table :: table[j] == old(table)[j]
      ensures Stored(db, keep) == old(Stored(db, keep))
      ensures forall j :: j != keep ==> SameFixes(View(j), old(View(j)))
    {
      while |table| > capacity
        invariant ValidBut(keep) && lruList != [] && lruList[0] == keep && keep in table
        invariant table.Keys <= old(table.Keys) && forall j <- table :: table[j] == old(table)[j]
        invariant Stored(db, keep) == old(Stored(db, keep))
        invariant forall j :: j != keep ==> SameFixes(View(j), old(View(j)))
        decreases |table|
      {
        Evict(keep);
      }
    }

    method Evict(ghost keep: int)
      requires ValidBut(keep) && lruList != [] && lruList[0] == keep && |table| > capacity
      modifies `db, `lruList, `table
      ensures ValidBut(keep) && lruList != [] && lruList[0] == keep && keep in table
      ensures |table| < old(|table|)
      ensures table.Keys <= old(table.Keys) && forall j <- table :: table[j] == old(table)[j]
      ensures Stored(db, keep) == old(Stored(db, keep))
      ensures forall j :: j != keep ==> SameFixes(View(j), old(View(j)))
    {
      hide WellFormed, FindFix, Stored, Packed, ValidDb, SameFixes, NoDup;
      SetSize(lruList);
      BackCorrect(lruList);
      var k := lruList[|lruList| - 1];
      lruList := lruList[..|lruList| - 1];
      assert k in table;
      var bunch := table[k];
      PackedCorrect(db, k, bunchSize, bunch.coords);
      if bunch.needsWrite {
        db := Packed(db, k, bunch.coords);
      }
      table := table - {k};
      assert table.Keys == old(table.Keys) - {k};
      forall j | j != keep ensures SameFixes(View(j), old(View(j))) {
        SameItself(View(j));
      }
    }

    method GetCoord(id: int64) returns (r: Option<Node>)
      requires Valid()
      modifies `db, `lruList, `table
      ensures Valid() && Kept(table, old(table)) && forall x: int64 :: Coord(x) == old(Coord(x))
      ensures match r
              case Some(n) => n.id == id && Coord(id) == Some(FixOf(n))
              case None => Coord(id) == None
    {
      hide FixOf, BunchId, Coord, Kept, FindFix, Sorted, Find;
      var bunch := FetchBunch(BunchId(id, bunchSize));
      CoordIn(BunchId(id, bunchSize), id);
      r := bunch.GetCoord(id);
    }

    method DeleteCoord(id: int64)
      requires Valid()
      modifies `db, `lruList, `table, table.Values
      ensures Valid()
      ensures forall x: int64 :: Coord(x) == if x == id then None else old(Coord(x))
      ensures Kept(table, old(table))
    {
      hide FixOf, BunchId, ValidDb, Stored, NoDup, ToSet, WellFormed, FindFix, Without, Kept;
      var k := BunchId(id, bunchSize);
      var bunch: CoordsBunch := GetBunch(k);
      ghost var before := bunch.coords;
      SortedBunch(k, bunchSize, before);
      bunch.DeleteCoord(id);
      WithoutWellFormed(k, bunchSize, before, id);
      bunch.needsWrite := true;
      forall x: int64 ensures Coord(x) == if x == id then None else old(Coord(x)) {
        WithoutFix(before, id, x);
      }
    }

    /** `Flush`: dirty bunches are written, in whatever order the table is walked, and the table is emptied. */
    method Flush()
      requires Valid()
      modifies `db, `lruList, `table
      ensures Valid() && table == map[] && forall x: int64 :: Coord(x) == old(Coord(x))
    {
      hide WellFormed, FindFix, Stored, Packed, ValidDb, SameFixes, BunchId;
      var todo := table.Keys;
      forall k ensures SameFixes(Stored(db, k), Stored(db, k)) { SameItself(Stored(db, k)); }
      while todo != {}
        invariant todo <= table.Keys && ValidDb(db, bunchSize)
        invariant forall k :: k in todo || k !in table ==> Stored(db, k) == old(Stored(db, k))
        invariant forall k <- table :: k !in todo ==> SameFixes(Stored(db, k), table[k].coords)
        decreases |todo|
        modifies `db
      {
        var k := AnyOf(todo);
        if table[k].needsWrite {
          PackedCorrect(db, k, bunchSize, table[k].coords);
          db := Packed(db, k, table[k].coords);
        } else {
          SameItself(table[k].coords);
        }
        todo := todo - {k};
      }
      lruList, table := [], map[];
      forall x: int64 ensures Coord(x) == old(Coord(x)) {
        var k := BunchId(x, bunchSize);
        if k in old(table) { SameFixesAt(View(k), old(View(k)), x); }
      }
    }

    /** `getBunch` again, in terms of coordinates. */
    method FetchBunch(k: int) returns (bunch: CoordsBunch)
      requires Valid()
      modifies `db, `lruList, `table
      ensures Valid() && k in table && table[k] == bunch
      ensures Kept(table, old(table)) && forall x: int64 :: Coord(x) == old(Coord(x))
    {
      hide FixOf, BunchId, ValidDb, Stored, NoDup, ToSet, FindFix, Kept;
      bunch := GetBunch(k);
    }

    lemma CoordIn(k: int, id: int64)
      requires Valid() && k in table && BunchId(id, bunchSize) == k
      ensures Sorted(Ids(table[k].coords))
      ensures match Find(table[k].coords, id)
              case Some(n) => n.id == id && Coord(id) == Some(FixOf(n))
              case None => Coord(id) == None
    {
      hide BunchId, ValidDb, Stored, NoDup, ToSet, FixOf;
      assert BunchOk(k);
    }

    /** `FillWay`. A bunch is fetched when the bunch id changes; `lastBunchID` is -1 before there is one, so
        a way that begins in bunch -1 asks a bunch that was never fetched, and panics. */
    method FillWay(refs: seq<int64>) returns (r: Fill)
      requires Valid()
      modifies `db, `lruList, `table
      ensures Valid() && Kept(table, old(table)) && forall x: int64 :: Coord(x) == old(Coord(x))
      ensures r.Panic? <==> refs != [] && BunchId(refs[0], bunchSize) == -1
      ensures r.Filled? ==> Ids(r.nodes) == refs
      ensures r.Filled? ==> forall i :: 0 <= i < |refs| ==> Coord(refs[i]) == Some(FixOf(r.nodes[i]))
      ensures r.NotFound? ==> exists i :: 0 <= i < |refs| && Coord(refs[i]) == None
    {
      hide FixOf, BunchId, Valid, Coord, FindFix, Sorted, Find;
      ValidSize();
      var nodes: seq<Node> := [];
      var bunch: CoordsBunch? := null;
      var lastBunchID := -1;
      KeptByKey(table, old(table));
      for i := 0 to |refs|
        invariant Valid() && |nodes| == i && Ids(nodes) == refs[..i]
        invariant Kept(table, old(table)) && forall x: int64 :: Coord(x) == old(Coord(x))
        invariant forall j :: 0 <= j < i ==> Coord(refs[j]) == Some(FixOf(nodes[j]))
        invariant bunch == null <==> i == 0
        invariant i == 0 ==> lastBunchID == -1
        invariant bunch != null ==> lastBunchID in table && table[lastBunchID] == bunch
        invariant i > 0 ==> BunchId(refs[0], bunchSize) != -1
      {
        var id := refs[i];
        var bunchID := BunchId(id, bunchSize);
        if bunchID != lastBunchID {
          bunch := FetchBunch(bunchID);
        }
        lastBunchID := bunchID;
        if bunch == null {
          return Panic;
        }
        CoordIn(bunchID, id);
        var nd := bunch.GetCoord(id);
        if nd == None {
          return NotFound;
        }
        nodes := nodes + [nd.value];
      }
      return Filled(nodes);
    }

    /** Every bunch in memory has a node: so after any number of `PutCoords` on a fresh cache. */
    ghost predicate NoEmpty()
      reads this, table.Values
    {
      forall k <- table :: table[k].coords != []
    }

    /** The nodes of one bunch: one by one, or in bulk during linear import. */
    method PutGroup(k: int, group: seq<Node>)
      requires Valid() && InBunch(k, bunchSize, group) && group != []
      requires linearImport ==> Sorted(Ids(group)) && forall i :: 0 <= i < |group| ==> Coord(group[i].id) == None
      modifies `db, `lruList, `table, table.Values
      ensures Valid()
      ensures forall x: int64 :: Coord(x) == AfterPuts(old(Coord(x)), group, x)
      ensures Kept(table, old(table)) && (old(NoEmpty()) ==> NoEmpty())
    {
      hide FixOf, BunchId, ValidDb, Stored, NoDup, ToSet, WellFormed, FindFix, With, InBunch, AfterPuts, Sorted, Kept,
        Arrangement;
      var bunch: CoordsBunch := GetBunch(k);
      ghost var before := bunch.coords;
      assert WellFormed(k, bunchSize, before);
      if linearImport {
        forall i | 0 <= i < |group| ensures FindFix(before, group[i].id) == None {
          InBunchAt(k, bunchSize, group, i);
          SameFixesAt(before, old(View(k)), group[i].id);
        }
        BulkIsNew(k, bunchSize, before, group);
        bunch.PutCoords(group);
      } else {
        PutOneByOne(k, bunch, group);
      }
      PutAllCorrect(k, bunchSize, before, group, 0);
      PutAllNotEmpty(before, group);
      bunch.needsWrite := true;
      assert Valid();
      forall x: int64 ensures Coord(x) == AfterPuts(old(Coord(x)), group, x) {
        if BunchId(x, bunchSize) == k {
          PutAllCorrect(k, bunchSize, before, group, x);
        } else {
          OtherBunch(k, bunchSize, group, x);
          AfterPutsOther(old(Coord(x)), group, x);
        }
      }
    }

    method PutOneByOne(k: int, bunch: CoordsBunch, group: seq<Node>)
      requires bunchSize > 0 && WellFormed(k, bunchSize, bunch.coords) && InBunch(k, bunchSize, group)
      modifies bunch`coords
      ensures bunch.coords == PutAll(old(bunch.coords), group)
    {
      hide FixOf, BunchId, WellFormed, FindFix, With, InBunch;
      ghost var before := bunch.coords;
      PutNothing(before);
      for i := 0 to |group|
        invariant bunch.coords == PutAll(before, group[..i])
      {
        assert group[..i + 1][..i] == group[..i];
        InBunchPrefix(k, bunchSize, group, i);
        PutAllCorrect(k, bunchSize, before, group[..i], 0);
        SortedBunch(k, bunchSize, bunch.coords);
        bunch.PutCoord(group[i]);
      }
      assert group[..|group|] == group;
    }

    /** The direct write of linear import, past the table. */
    method PutDirect(k: int, group: seq<Node>)
      requires Valid() && NoEmpty() && InBunch(k, bunchSize, group) && group != [] && Sorted(Ids(group))
      requires forall x: int64 :: BunchId(x, bunchSize) == k ==> Coord(x) == None
      modifies `db
      ensures Valid() && NoEmpty()
      ensures forall x: int64 :: Coord(x) == AfterPuts(old(Coord(x)), group, x)
    {
      hide FixOf, BunchId, ValidDb, Stored, Packed, NoDup, ToSet, WellFormed, FindFix, AfterPuts, InBunch, SameFixes;
      ghost var before := View(k);
      assert WellFormed(k, bunchSize, before) by { StoredIsWellFormed(db, k, bunchSize); }
      NothingFound(k, bunchSize, before);
      assert k !in table;
      SortedGroup(k, bunchSize, group);
      PackedCorrect(db, k, bunchSize, group);
      db := Packed(db, k, group);
      assert Valid();
      forall x: int64 ensures Coord(x) == AfterPuts(old(Coord(x)), group, x) {
        if BunchId(x, bunchSize) == k {
          SameFixesAt(View(k), group, x);
          SortedAfterPuts(group, x);
        } else {
          OtherBunch(k, bunchSize, group, x);
          AfterPutsOther(old(Coord(x)), group, x);
        }
      }
    }

    /** What linear import promises about a batch: strictly increasing ids from 0 on, all in a range of ids
        of which nothing has been put before. */
    ghost predicate LinearOk(batch: seq<Node>)
      requires bunchSize > 0
      reads this, table.Values
    {
      && NoEmpty() && Increasing(batch)
      && forall x: int64 :: Spans(batch, x) ==> Coord(x) == None
    }

    /** `PutCoords`: afterwards the cache answers like a map into which the nodes have been put in order,
        whether they went through the table or, in linear import, partly straight to the store. */
    method PutCoords(nodes: array<Node>)
      requires Valid()
      requires linearImport ==> LinearOk(NotSkipped(nodes[..]))
      modifies nodes, `db, `lruList, `table, table.Values
      ensures Valid()
      ensures forall x: int64 :: Coord(x) == AfterPuts(old(Coord(x)), NotSkipped(old(nodes[..])), x)
      ensures forall x: int64 :: PutLast(old(Coord(x)), old(nodes[..]), x, Coord(x))
      ensures Kept(table, old(table)) && (old(NoEmpty()) ==> NoEmpty())
    {
      hide PutLast, KeptFrom, AfterPuts, LinearOk, ValidDb, NoDup, ToSet, NotSkipped, View, BunchOk, FindFix, BunchId;
      var n := RemoveSkippedNodes(nodes);
      if n > 0 {
        PutKept(nodes[..n]);
      } else {
        forall x: int64 ensures AfterPuts(Coord(x), [], x) == Coord(x) { AfterPutsOther(Coord(x), [], x); }
      }
      forall x: int64 ensures PutLast(old(Coord(x)), old(nodes[..]), x, Coord(x)) {
        PutsLast(old(Coord(x)), old(nodes[..]), x);
      }
    }

    /** A whole run of nodes of one bunch, followed by a node of another bunch or by the end of the batch. */
    method PutRun(nodes: seq<Node>, start: nat, i: nat, k: int)
      requires Valid() && Group(nodes, bunchSize, start, i, k)
      requires i < |nodes| ==> BunchId(nodes[i].id, bunchSize) != k
      requires linearImport ==> NoEmpty() && Increasing(nodes)
      requires linearImport ==> forall x: int64 :: Spans(nodes, x) ==> Coord(x) == AfterPuts(None, nodes[..start], x)
      modifies `db, `lruList, `table, table.Values
      ensures Valid() && linearImport == old(linearImport)
      ensures forall x: int64 :: Coord(x) == AfterPuts(old(Coord(x)), nodes[start..i], x)
      ensures Kept(table, old(table)) && (old(NoEmpty()) ==> NoEmpty())
    {
      hide AfterPuts, Valid, FindFix, BunchId, Coord, NoEmpty, InBunch, Increasing, Spans, Sorted, Ids;
      ValidSize();
      GroupInBunch(nodes, bunchSize, start, i, k);
      if linearImport { GroupIsNew(nodes, bunchSize, start, i, k); }
      if linearImport && i > bunchSize && i < |nodes| - bunchSize {
        DirectIsNew(nodes, bunchSize, start, i, k);
        PutDirect(k, nodes[start..i]);
      } else {
        PutGroup(k, nodes[start..i]);
      }
    }

    lemma ValidSize()
      requires Valid()
      ensures bunchSize > 0
    {
    }

    /** The loop of `PutCoords`. */
    method PutKept(nodes: seq<Node>)
      requires Valid() && nodes != []
      requires linearImport ==> LinearOk(nodes)
      modifies `db, `lruList, `table, table.Values
      ensures Valid()
      ensures forall x: int64 :: Coord(x) == AfterPuts(old(Coord(x)), nodes, x)
      ensures Kept(table, old(table)) && (old(NoEmpty()) ==> NoEmpty())
    {
      hide AfterPuts, Valid, BunchId, Coord, NoEmpty, Group, Increasing, Spans;
      ValidSize();
      var currentBunchID, start := BunchId(nodes[0].id, bunchSize), 0;
      forall x: int64 ensures Coord(x) == AfterPuts(old(Coord(x)), nodes[..0], x) {
        AfterPutsOther(Coord(x), nodes[..0], x);
      }
      FirstGroup(nodes, bunchSize);
      for i := 1 to |nodes|
        invariant start < i && Valid() && Group(nodes, bunchSize, start, i, currentBunchID)
        invariant linearImport == old(linearImport)
        invariant forall x: int64 :: Coord(x) == AfterPuts(old(Coord(x)), nodes[..start], x)
        invariant Kept(table, old(table)) && (old(NoEmpty()) ==> NoEmpty())
      {
        var bunchID := BunchId(nodes[i].id, bunchSize);
        if bunchID != currentBunchID {
          PutRun(nodes, start, i, currentBunchID);
          forall x: int64 ensures Coord(x) == AfterPuts(old(Coord(x)), nodes[..i], x) {
            assert nodes[..i] == nodes[..start] + nodes[start..i];
            AfterPutsConcat(old(Coord(x)), nodes[..start], nodes[start..i], x);
          }
          NextGroup(nodes, bunchSize, start, i, currentBunchID);
          currentBunchID, start := bunchID, i;
        } else {
          SameGroup(nodes, bunchSize, start, i, currentBunchID);
        }
      }
      PutRun(nodes, start, |nodes|, currentBunchID);
      forall x: int64 ensures Coord(x) == AfterPuts(old(Coord(x)), nodes, x) {
        assert nodes == nodes[..start] + nodes[start..|nodes|];
        AfterPutsConcat(old(Coord(x)), nodes[..start], nodes[start..|nodes|], x);
      }
    }
  }

  /** Every bunch in the table was there before or is new. */
  twostate predicate Kept(new table: map<int, CoordsBunch>, before: map<int, CoordsBunch>)
  {
    forall bunch <- table.Values :: bunch in before.Values || fresh(bunch)
  }

  twostate lemma KeptByKey(new table: map<int, CoordsBunch>, before: map<int, CoordsBunch>)
    requires forall j <- table :: (j in before && table[j] == before[j]) || fresh(table[j])
    ensures Kept(table, before)
  {
    forall bunch | bunch in table.Values ensures bunch in before.Values || fresh(bunch) {
      var j := KeyOf(table, bunch);
      if j in before && table[j] == before[j] { assert before[j] in before.Values; }
    }
  }

  lemma SortedBunch(k: int, bunchSize: int64, list: seq<Node>)
    requires bunchSize > 0 && WellFormed(k, bunchSize, list)
    ensures Sorted(Ids(list))
  {
  }

  lemma WithoutFix(list: seq<Node>, id: int64, x: int64)
    requires Sorted(Ids(list))
    ensures FindFix(Without(list, id), x) == if x == id then None else FindFix(list, x)
  {
    WithoutFind(list, id, x);
  }

  lemma PutNothing(list: seq<Node>)
    ensures PutAll(list, []) == list
  {
  }

  lemma InBunchPrefix(k: int, bunchSize: int64, nodes: seq<Node>, i: nat)
    requires bunchSize > 0 && InBunch(k, bunchSize, nodes) && i <= |nodes|
    ensures InBunch(k, bunchSize, nodes[..i])
  {
  }

  lemma OtherBunch(k: int, bunchSize: int64, nodes: seq<Node>, x: int64)
    requires bunchSize > 0 && InBunch(k, bunchSize, nodes) && BunchId(x, bunchSize) != k
    ensures forall i :: 0 <= i < |nodes| ==> nodes[i].id != x
  {
  }

  lemma PutAllNotEmpty(list: seq<Node>, nodes: seq<Node>)
    requires nodes != []
    ensures PutAll(list, nodes) != []
  {
  }

  lemma FoundFix(list: seq<Node>, x: int64)
    ensures FindFix(list, x) == None <==> Find(list, x) == None
  {
  }

  lemma BulkIsNew(k: int, bunchSize: int64, list: seq<Node>, group: seq<Node>)
    requires bunchSize > 0 && WellFormed(k, bunchSize, list) && Sorted(Ids(group))
    requires forall i :: 0 <= i < |group| ==> FindFix(list, group[i].id) == None
    ensures Sorted(Ids(list)) && AllNew(list, group)
  {
    hide FindFix, Find;
    forall i | 0 <= i < |group| ensures Find(list, group[i].id) == None { FoundFix(list, group[i].id); }
    forall i, j | 0 <= i < j < |group| ensures group[i].id != group[j].id {
      assert Ids(group)[i] < Ids(group)[j];
    }
  }

  /** A bunch in which no id of it is found is empty. */
  lemma NothingFound(k: int, bunchSize: int64, list: seq<Node>)
    requires bunchSize > 0 && WellFormed(k, bunchSize, list)
    requires forall x: int64 :: BunchId(x, bunchSize) == k ==> FindFix(list, x) == None
    ensures list == []
  {
    if list != [] { FoundFix(list, list[0].id); }
  }

  lemma SortedGroup(k: int, bunchSize: int64, group: seq<Node>)
    requires bunchSize > 0 && InBunch(k, bunchSize, group) && Sorted(Ids(group))
    ensures WellFormed(k, bunchSize, group)
  {
  }

  lemma SameFixesAt(a: seq<Node>, b: seq<Node>, x: int64)
    requires SameFixes(a, b)
    ensures FindFix(a, x) == FindFix(b, x)
  {
  }

  /** Ids all different: it does not matter whether the first or the last node with an id is looked for. */
  lemma {:induction false} SortedAfterPuts(group: seq<Node>, x: int64)
    requires Sorted(Ids(group))
    ensures FindFix(group, x) == AfterPuts(None, group, x)
  {
    if group != [] {
      var front, last := group[..|group| - 1], group[|group| - 1];
      assert Ids(group)[..|front|] == Ids(front);
      SortedAfterPuts(front, x);
      assert group == front + [last];
      FindConcat(front, [last], x);
      if last.id == x {
        forall i | 0 <= i < |front| ensures front[i].id != x { assert Ids(group)[i] < Ids(group)[|front|]; }
        FindNothing(front, x);
      }
    }
  }

  lemma InBunchAt(k: int, bunchSize: int64, nodes: seq<Node>, i: nat)
    requires bunchSize > 0 && InBunch(k, bunchSize, nodes) && i < |nodes|
    ensures BunchId(nodes[i].id, bunchSize) == k
  {
  }

  lemma GroupInBunch(nodes: seq<Node>, bunchSize: int64, start: nat, i: nat, k: int)
    requires bunchSize > 0 && Group(nodes, bunchSize, start, i, k)
    ensures start < i <= |nodes| && InBunch(k, bunchSize, nodes[start..i])
  {
    hide BunchId;
  }

  /** The nodes of a group are put for the first time when no id in the range of the batch was known. */
  lemma GroupIsNew(nodes: seq<Node>, bunchSize: int64, start: nat, i: nat, k: int)
    requires bunchSize > 0 && Increasing(nodes) && Group(nodes, bunchSize, start, i, k)
    ensures start < i <= |nodes| && Sorted(Ids(nodes[start..i]))
    ensures forall j :: 0 <= j < i - start ==>
      Spans(nodes, nodes[start..i][j].id) && AfterPuts(None, nodes[..start], nodes[start..i][j].id) == None
  {
    hide BunchId, AfterPuts;
    assert Ids(nodes[start..i]) == Ids(nodes)[start..i];
    forall j | 0 <= j < i - start
      ensures Spans(nodes, nodes[start..i][j].id) && AfterPuts(None, nodes[..start], nodes[start..i][j].id) == None
    {
      var ids := Ids(nodes);
      assert ids[0] <= ids[start + j] <= ids[|nodes| - 1];
      forall m | 0 <= m < start ensures nodes[m].id != nodes[start + j].id { assert ids[m] < ids[start + j]; }
      AfterPutsOther(None, nodes[..start], nodes[start..i][j].id);
    }
  }

  lemma DirectIsNew(nodes: seq<Node>, bunchSize: int64, start: nat, i: nat, k: int)
    requires bunchSize > 0 && Increasing(nodes) && Group(nodes, bunchSize, start, i, k)
    requires bunchSize < i < |nodes| && BunchId(nodes[i].id, bunchSize) != k
    ensures start < |nodes|
    ensures forall x: int64 :: BunchId(x, bunchSize) == k ==>
      Spans(nodes, x) && AfterPuts(None, nodes[..start], x) == None
  {
    hide BunchId, AfterPuts;
    forall x: int64 | BunchId(x, bunchSize) == k
      ensures Spans(nodes, x) && AfterPuts(None, nodes[..start], x) == None
    {
      DirectBunchInside(nodes, bunchSize, start, i, k, x);
      forall j | 0 <= j < start ensures nodes[j].id != x { BeforeGroup(nodes, bunchSize, start, i, k, j); }
      AfterPutsOther(None, nodes[..start], x);
    }
  }
}
