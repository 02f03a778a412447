/** A bunch of nodes strictly ordered by id, and the store it is kept in. */
module NodeList {
  import opened GoInts
  import opened SortedLists
  import opened DeltaNodes

  function Find(list: seq<Node>, id: int64): (r: Option<Node>)
    ensures r.Some? ==> r.value in list && r.value.id == id
  {
    if list == [] then None else if list[0].id == id then Some(list[0]) else Find(list[1..], id)
  }

  lemma {:induction false} FindConcat(a: seq<Node>, b: seq<Node>, id: int64)
    ensures Find(a + b, id) == if Find(a, id).Some? then Find(a, id) else Find(b, id)
  {
    if a == [] {
      assert a + b == b;
    } else {
      assert (a + b)[1..] == a[1..] + b;
      FindConcat(a[1..], b, id);
    }
  }

  lemma {:induction false} FindNothing(list: seq<Node>, id: int64)
    requires forall k :: 0 <= k < |list| ==> list[k].id != id
    ensures Find(list, id) == None
  {
    if list != [] { FindNothing(list[1..], id); }
  }

  lemma FindMiddle(a: seq<Node>, n: Node, b: seq<Node>, x: int64)
    ensures Find(a + ([n] + b), x) == if Find(a, x).Some? then Find(a, x) else if n.id == x then Some(n) else Find(b, x)
  {
    FindConcat(a, [n] + b, x);
    assert ([n] + b)[1..] == b;
  }

  /** Around the place of an id, nothing else has that id. */
  predicate Only(list: seq<Node>, i: nat, id: int64)
    requires i <= |list|
  {
    && Find(list[..i], id) == None
    && (i < |list| ==> Find(list[i + 1..], id) == None)
    && (i == |list| || list[i].id != id ==> Find(list[i..], id) == None)
    && Find(list, id) == if i < |list| && list[i].id == id then Some(list[i]) else None
  }

  lemma OnlyAt(list: seq<Node>, i: nat, id: int64)
    requires i <= |list|
    requires forall k :: 0 <= k < i ==> list[k].id != id
    requires forall k :: i < k < |list| ==> list[k].id != id
    ensures Only(list, i, id)
  {
    hide Find;
    FindNothing(list[..i], id);
    if i < |list| {
      FindNothing(list[i + 1..], id);
      assert list == list[..i] + ([list[i]] + list[i + 1..]);
      FindMiddle(list[..i], list[i], list[i + 1..], id);
      if list[i].id != id { FindNothing(list[i..], id); }
    } else {
      assert list[..i] == list;
      FindNothing(list[i..], id);
    }
  }

  lemma Around(list: seq<Node>, id: int64)
    requires Sorted(Ids(list))
    ensures Only(list, Position(Ids(list), id), id)
  {
    hide Find;
    var i, ids := Position(Ids(list), id), Ids(list);
    assert forall k :: 0 <= k < i ==> list[k].id == ids[k] < id;
    assert forall k :: i < k < |list| ==> id <= ids[i] < ids[k] == list[k].id;
    OnlyAt(list, i, id);
  }

  /** The list with a node put in, replacing one with the same id. */
  function With(list: seq<Node>, n: Node): (r: seq<Node>)
  {
    var i := Position(Ids(list), n.id);
    if i < |list| && list[i].id == n.id then list[i := n] else list[..i] + [n] + list[i..]
  }

  function Without(list: seq<Node>, id: int64): (r: seq<Node>)
  {
    var i := Position(Ids(list), id);
    if i < |list| && list[i].id == id then list[..i] + list[i + 1..] else list
  }

  lemma WithSorted(list: seq<Node>, n: Node)
    requires Sorted(Ids(list))
    ensures Sorted(Ids(With(list, n)))
  {
    var ids, i := Ids(list), Position(Ids(list), n.id);
    hide Position;
    if i < |list| && list[i].id == n.id {
      assert Ids(With(list, n)) == ids;
    } else {
      InsertKeepsSorted(ids, i, n.id);
      assert Ids(With(list, n)) == ids[..i] + [n.id] + ids[i..];
    }
  }

  lemma WithoutSorted(list: seq<Node>, id: int64)
    requires Sorted(Ids(list))
    ensures Sorted(Ids(Without(list, id)))
  {
    var ids, i := Ids(list), Position(Ids(list), id);
    hide Position;
    if i < |list| && list[i].id == id {
      RemoveAt(ids, i);
      assert Ids(Without(list, id)) == ids[..i] + ids[i + 1..];
    }
  }

  lemma ReplaceFind(list: seq<Node>, i: nat, n: Node, x: int64)
    requires i < |list| && list[i].id == n.id && Find(list[..i], n.id) == None
    ensures Find(list[i := n], x) == if x == n.id then Some(n) else Find(list, x)
  {
    hide *;
    var a, b := list[..i], list[i + 1..];
    assert list[i := n] == a + ([n] + b);
    assert list == a + ([list[i]] + b);
    FindMiddle(a, n, b, x);
    FindMiddle(a, list[i], b, x);
  }

  lemma InsertFind(list: seq<Node>, i: nat, n: Node, x: int64)
    requires i <= |list| && Find(list[..i], n.id) == None
    ensures Find(list[..i] + [n] + list[i..], x) == if x == n.id then Some(n) else Find(list, x)
  {
    hide *;
    var a, b := list[..i], list[i..];
    assert a + [n] + b == a + ([n] + b);
    assert list == a + b;
    FindMiddle(a, n, b, x);
    FindConcat(a, b, x);
  }

  lemma RemoveFind(list: seq<Node>, i: nat, x: int64)
    requires i < |list| && Find(list[..i], list[i].id) == None && Find(list[i + 1..], list[i].id) == None
    ensures Find(list[..i] + list[i + 1..], x) == if x == list[i].id then None else Find(list, x)
  {
    hide *;
    var a, b := list[..i], list[i + 1..];
    assert list == a + ([list[i]] + b);
    FindMiddle(a, list[i], b, x);
    FindConcat(a, b, x);
  }

  lemma WithFind(list: seq<Node>, n: Node, x: int64)
    requires Sorted(Ids(list))
    ensures Find(With(list, n), x) == if x == n.id then Some(n) else Find(list, x)
  {
    hide Position, Find, Ids, Sorted;
    Around(list, n.id);
    var i := Position(Ids(list), n.id);
    if i < |list| && list[i].id == n.id { ReplaceFind(list, i, n, x); } else { InsertFind(list, i, n, x); }
  }

  lemma WithoutFind(list: seq<Node>, id: int64, x: int64)
    requires Sorted(Ids(list))
    ensures Find(Without(list, id), x) == if x == id then None else Find(list, x)
  {
    hide Position, Find, Ids, Sorted;
    Around(list, id);
    var i := Position(Ids(list), id);
    if i < |list| && list[i].id == id { RemoveFind(list, i, x); }
  }

  /** The nodes of `all`, strictly ordered by id, and no other list is that. */
  ghost predicate Arrangement(list: seq<Node>, all: multiset<Node>)
  {
    && Sorted(Ids(list)) && multiset(list) == all
    && forall other: seq<Node> :: Sorted(Ids(other)) && multiset(other) == all ==> other == list
  }

  lemma IdOf(list: seq<Node>, n: Node) returns (i: nat)
    requires n in multiset(list)
    ensures i < |list| && list[i] == n && Ids(list)[i] == n.id
  {
    i :| i < |list| && list[i] == n;
  }

  lemma IdsIncluded(a: seq<Node>, b: seq<Node>)
    requires multiset(a) == multiset(b)
    ensures ToSet(Ids(a)) <= ToSet(Ids(b))
  {
    forall id <- ToSet(Ids(a)) ensures id in ToSet(Ids(b)) {
      var i :| 0 <= i < |a| && Ids(a)[i] == id;
      assert a[i] in multiset(a);
      var j := IdOf(b, a[i]);
    }
  }

  /** The same nodes have one arrangement that is strictly ordered by id. */
  lemma OneArrangement(a: seq<Node>, b: seq<Node>)
    requires Sorted(Ids(a)) && Sorted(Ids(b)) && multiset(a) == multiset(b)
    ensures a == b
  {
    IdsIncluded(a, b);
    IdsIncluded(b, a);
    SortedUnique(Ids(a), Ids(b));
    assert |Ids(a)| == |a| && |Ids(b)| == |b|;
    forall i | 0 <= i < |a| ensures a[i] == b[i] {
      assert a[i] in multiset(a);
      var j := IdOf(b, a[i]);
      assert Ids(a)[i] == Ids(b)[i] == Ids(b)[j];
    }
  }

  lemma ArrangementOf(list: seq<Node>)
    requires Sorted(Ids(list))
    ensures Arrangement(list, multiset(list))
  {
    forall other: seq<Node> | Sorted(Ids(other)) && multiset(other) == multiset(list) ensures other == list {
      OneArrangement(other, list);
    }
  }

  // Coordinates as the cache stores them

  datatype Fix = Fix(long: uint32, lat: uint32)

  function FixOf(n: Node): (r: Fix)
  {
    Fix(CoordToInt(n.long), CoordToInt(n.lat))
  }

  /** Nodes are stored alike just if both their numbers are the same; then they are less than 10^-7 degrees apart. */
  lemma FixTells(a: Node, b: Node)
    ensures FixOf(a) == FixOf(b) <==> CoordToInt(a.long) == CoordToInt(b.long) && CoordToInt(a.lat) == CoordToInt(b.lat)
    ensures FixOf(a) == FixOf(b) && OnEarth(a) && OnEarth(b) ==>
      -0.0000001 < a.long - b.long < 0.0000001 && -0.0000001 < a.lat - b.lat < 0.0000001
  {
    hide CoordToInt;
    if FixOf(a) == FixOf(b) && OnEarth(a) && OnEarth(b) {
      StoredAlike(a.long, b.long);
      StoredAlike(a.lat, b.lat);
    }
  }

  /** The stored coordinate of an id in a bunch. */
  function FindFix(list: seq<Node>, id: int64): (r: Option<Fix>)
  {
    match Find(list, id)
    case Some(n) => Some(FixOf(n))
    case None => None
  }

  function BunchId(id: int64, bunchSize: int64): (r: int)
    requires bunchSize > 0
  {
    TruncDiv(id, bunchSize)
  }

  predicate WellFormed(k: int, bunchSize: int64, list: seq<Node>)
    requires bunchSize > 0
  {
    && Sorted(Ids(list))
    && forall i :: 0 <= i < |list| ==> BunchId(list[i].id, bunchSize) == k
  }

  lemma WithWellFormed(k: int, bunchSize: int64, list: seq<Node>, n: Node)
    requires bunchSize > 0 && WellFormed(k, bunchSize, list) && BunchId(n.id, bunchSize) == k
    ensures WellFormed(k, bunchSize, With(list, n))
  {
    WithSorted(list, n);
    hide Position, BunchId;
  }

  lemma WithoutWellFormed(k: int, bunchSize: int64, list: seq<Node>, id: int64)
    requires bunchSize > 0 && WellFormed(k, bunchSize, list)
    ensures WellFormed(k, bunchSize, Without(list, id))
  {
    WithoutSorted(list, id);
    hide Position, BunchId;
  }

  lemma WellFormedLength(k: int, bunchSize: int64, list: seq<Node>)
    requires bunchSize > 0 && WellFormed(k, bunchSize, list)
    ensures |list| < TWO64
  {
    if list != [] {
      SortedLength(Ids(list), |list| - 1);
      SameBunch(list[0].id, list[|list| - 1].id, bunchSize);
    }
  }

  lemma SameBunch(a: int64, b: int64, bunchSize: int64)
    requires bunchSize > 0 && BunchId(a, bunchSize) == BunchId(b, bunchSize)
    ensures b - a < 2 * bunchSize
  {
    var k := BunchId(a, bunchSize);
    assert a - bunchSize * k > -bunchSize;
    assert b - bunchSize * k < bunchSize;
  }

  lemma {:induction false} QuantiseFind(list: seq<Node>, x: int64)
    ensures FindFix(QuantiseAll(list), x) == FindFix(list, x)
  {
    if list != [] {
      assert QuantiseAll(list)[1..] == QuantiseAll(list[1..]);
      hide CoordToInt, IntToCoord;
      QuantiseFind(list[1..], x);
      RequantisesExactly(list[0].long);
      RequantisesExactly(list[0].lat);
    }
  }

  /** What comes back from the store has the same ids and the same stored coordinates. */
  lemma StoredWellFormed(k: int, bunchSize: int64, list: seq<Node>)
    requires bunchSize > 0 && WellFormed(k, bunchSize, list)
    ensures Decode(Encode(list)) == Some(QuantiseAll(list))
    ensures WellFormed(k, bunchSize, QuantiseAll(list))
    ensures forall x: int64 :: FindFix(QuantiseAll(list), x) == FindFix(list, x)
  {
    WellFormedLength(k, bunchSize, list);
    DecodeEncode(list);
    assert Ids(QuantiseAll(list)) == Ids(list);
    hide Decode, Encode, CoordToInt, IntToCoord, BunchId, FindFix;
    forall x: int64 ensures FindFix(QuantiseAll(list), x) == FindFix(list, x) {
      QuantiseFind(list, x);
    }
  }
}
