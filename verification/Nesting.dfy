/** Shells and holes: complete rings, sorted by area, are nested by a test for containment. */
module Nesting {
  /** Rings are numbers, the largest is 0; -1 is the parent of a ring that is in no other. */
  type Parents = seq<int>

  predicate Ordered(cb: Parents)
  {
    forall j :: 0 <= j < |cb| ==> -1 <= cb[j] < j
  }

  /** How many rings there are around a ring, from parent to parent. */
  function Depth(cb: Parents, j: nat): (d: nat)
    requires Ordered(cb) && j < |cb|
  {
    if cb[j] == -1 then 0 else 1 + Depth(cb, cb[j])
  }

  /** `ringIsHole`. The way up ends, since a parent comes before its rings. */
  method RingIsHole(containedBy: array<int>, start: nat) returns (hole: bool)
    requires Ordered(containedBy[..]) && start < containedBy.Length
    ensures hole == (Depth(containedBy[..], start) % 2 == 1)
  {
    var containedCounter, idx := 0, start as int;
    ghost var cb := containedBy[..];
    while true
      invariant 0 <= idx < |cb| && containedCounter + Depth(cb, idx) == Depth(cb, start)
      decreases idx
    {
      idx := containedBy[idx];
      if idx == -1 {
        break;
      }
      containedCounter := containedCounter + 1;
    }
    hole := containedCounter % 2 == 1;
  }

  /** The last of the first `bound` rings that comes before ring `j` and contains it. */
  function Parent(contains: (nat, nat) -> bool, j: nat, bound: nat): (p: int)
    ensures -1 <= p < j && p < bound
    ensures p >= 0 ==> contains(p, j)
    ensures forall i: nat :: i < bound && i < j && contains(i, j) ==> i <= p
  {
    if bound == 0 then -1
    else if bound - 1 < j && contains(bound - 1, j) then bound - 1
    else Parent(contains, j, bound - 1)
  }

  /** One ring: in the list of shells, or in the list of holes of its parent, as its depth says. Without a
      parent it is a shell once it has been looked at. */
  ghost predicate Placed(cb: Parents, holes: seq<set<nat>>, shells: set<nat>, seen: nat, j: nat)
    requires Ordered(cb) && j < |cb| == |holes|
  {
    && (forall i :: 0 <= i < |holes| ==> (j in holes[i] <==> i == cb[j] && Depth(cb, j) % 2 == 1))
    && (j in shells <==> if cb[j] == -1 then j < seen || j == 0 else Depth(cb, j) % 2 == 0)
  }

  ghost predicate AllPlaced(cb: Parents, holes: seq<set<nat>>, shells: set<nat>, seen: nat)
  {
    && Ordered(cb) && |cb| == |holes| && (forall j <- shells :: j < |cb|)
    && (forall i, j :: 0 <= i < |holes| && j in holes[i] ==> j < |cb|)
    && forall j: nat :: j < |cb| ==> Placed(cb, holes, shells, seen, j)
  }

  lemma {:induction false} DepthUnchanged(cb: Parents, j: nat, p: int, k: nat)
    requires Ordered(cb) && k < |cb| && j < |cb| && -1 <= p < j && k != j
    requires forall i :: 0 <= i < |cb| ==> cb[i] != j
    ensures Depth(cb[j := p], k) == Depth(cb, k)
  {
    if cb[k] != -1 { DepthUnchanged(cb, j, p, cb[k]); }
  }

  /** Ring `i` turns out to contain ring `j`. */
  method Contained(containedBy: array<int>, holes: array<set<nat>>, shells: set<nat>, i: nat, j: nat)
      returns (r: set<nat>)
    requires AllPlaced(containedBy[..], holes[..], shells, i) && i < j < containedBy.Length
    requires forall k :: 0 <= k < containedBy.Length ==> containedBy[k] <= i
    modifies containedBy, holes
    ensures containedBy[..] == old(containedBy[..])[j := i]
    ensures AllPlaced(containedBy[..], holes[..], r, i)
  {
    hide AllPlaced, Depth;
    InRange(containedBy[..], holes[..], shells, i);
    r := shells;
    ghost var cb, hs := containedBy[..], holes[..];
    if containedBy[j] != -1 {
      holes[containedBy[j]] := holes[containedBy[j]] - {j};
      r := r - {j};
    }
    assert holes[..] == Unhung(cb, hs, j);
    ghost var mid := holes[..];
    containedBy[j] := i;
    assert containedBy[..] == cb[j := i];
    var hole := RingIsHole(containedBy, j);
    if hole {
      holes[i] := holes[i] + {j};
      assert holes[..] == mid[i := mid[i] + {j}];
    } else {
      r := r + {j};
    }
    Rehung(cb, hs, shells, i, j);
  }

  lemma InRange(cb: Parents, holes: seq<set<nat>>, shells: set<nat>, seen: nat)
    requires AllPlaced(cb, holes, shells, seen)
    ensures Ordered(cb) && |cb| == |holes|
  {
  }

  /** The lists of holes without ring `j` in that of its parent. */
  ghost function Unhung(cb: Parents, holes: seq<set<nat>>, j: nat): (r: seq<set<nat>>)
    requires Ordered(cb) && j < |cb| == |holes|
  {
    if cb[j] == -1 then holes else holes[cb[j] := holes[cb[j]] - {j}]
  }

  /** Ring `j` gets a new parent `i`: what happens to ring `k`. */
  lemma RehungAt(cb: Parents, holes: seq<set<nat>>, shells: set<nat>, i: nat, j: nat, k: nat)
    requires Ordered(cb) && |cb| == |holes| && i < j < |cb| && k < |cb|
    requires Placed(cb, holes, shells, i, j) && Placed(cb, holes, shells, i, k)
    requires k != j ==> Depth(cb[j := i], k) == Depth(cb, k)
    ensures var hs := Unhung(cb, holes, j);
      if Depth(cb[j := i], j) % 2 == 1 then
        Placed(cb[j := i], hs[i := hs[i] + {j}], if cb[j] == -1 then shells else shells - {j}, i, k)
      else
        Placed(cb[j := i], hs, (if cb[j] == -1 then shells else shells - {j}) + {j}, i, k)
  {
    hide Depth;
  }

  lemma Rehung(cb: Parents, holes: seq<set<nat>>, shells: set<nat>, i: nat, j: nat)
    requires AllPlaced(cb, holes, shells, i) && i < j < |cb|
    requires forall k :: 0 <= k < |cb| ==> cb[k] <= i
    ensures var hs := Unhung(cb, holes, j);
      if Depth(cb[j := i], j) % 2 == 1 then
        AllPlaced(cb[j := i], hs[i := hs[i] + {j}], if cb[j] == -1 then shells else shells - {j}, i)
      else
        AllPlaced(cb[j := i], hs, (if cb[j] == -1 then shells else shells - {j}) + {j}, i)
  {
    hide Depth, Placed;
    forall k: nat | k < |cb| ensures k != j ==> Depth(cb[j := i], k) == Depth(cb, k) {
      if k != j { DepthUnchanged(cb, j, i, k); }
    }
    var hs, sh, now := Unhung(cb, holes, j), if cb[j] == -1 then shells else shells - {j}, cb[j := i];
    if Depth(now, j) % 2 == 1 {
      var hs' := hs[i := hs[i] + {j}];
      forall k: nat | k < |cb| ensures Placed(now, hs', sh, i, k) { RehungAt(cb, holes, shells, i, j, k); }
    } else {
      var sh' := sh + {j};
      forall k: nat | k < |cb| ensures Placed(now, hs, sh', i, k) { RehungAt(cb, holes, shells, i, j, k); }
    }
  }

  /** Ring `i` has been compared with all others. */
  lemma Seen(cb: Parents, holes: seq<set<nat>>, shells: set<nat>, i: nat)
    requires AllPlaced(cb, holes, shells, i) && i < |cb|
    ensures AllPlaced(cb, holes, if cb[i] == -1 then shells + {i} else shells, i + 1)
  {
    hide Depth;
    var r, next := if cb[i] == -1 then shells + {i} else shells, i + 1;
    forall k: nat | k < |cb| ensures Placed(cb, holes, r, next, k) { assert Placed(cb, holes, shells, i, k); }
  }

  /** Nothing changes for a ring after all that come before it. */
  lemma {:induction false} ParentSettled(contains: (nat, nat) -> bool, j: nat, bound: nat)
    requires j <= bound
    ensures Parent(contains, j, bound) == Parent(contains, j, j)
  {
    if j < bound { ParentSettled(contains, j, bound - 1); }
  }

  /** The parents that all comparisons lead to. */
  function AllParents(contains: (nat, nat) -> bool, n: nat): (cb: Parents)
    ensures |cb| == n && Ordered(cb)
  {
    seq(n, j requires 0 <= j < n => Parent(contains, j, j))
  }

  /** Ring `i` is compared with all smaller rings. */
  method CompareAll(contains: (nat, nat) -> bool, containedBy: array<int>, holes: array<set<nat>>, before: set<nat>,
                    i: nat) returns (shells: set<nat>)
    requires AllPlaced(containedBy[..], holes[..], before, i) && i < containedBy.Length
    requires forall j :: 0 <= j < containedBy.Length ==> containedBy[j] == Parent(contains, j, i)
    modifies containedBy, holes
    ensures AllPlaced(containedBy[..], holes[..], shells, i)
    ensures forall j :: 0 <= j < containedBy.Length ==> containedBy[j] == Parent(contains, j, i + 1)
  {
    hide AllPlaced;
    shells := before;
    for j := i + 1 to containedBy.Length
      invariant AllPlaced(containedBy[..], holes[..], shells, i)
      invariant forall k :: 0 <= k < containedBy.Length ==>
        containedBy[k] == Parent(contains, k, if k < j then i + 1 else i)
    {
      if contains(i, j) {
        ghost var cb := containedBy[..];
        shells := Contained(containedBy, holes, shells, i, j);
        assert forall k :: 0 <= k < |cb| ==> containedBy[k] == if k == j then i else cb[k];
      }
    }
  }

  /** The nesting loops: for any test whatever, rings of even depth are shells, and rings of odd depth are
      holes of their parents and of no other ring. */
  method Classify(n: nat, contains: (nat, nat) -> bool) returns (holes: seq<set<nat>>, shells: set<nat>)
    requires n > 0
    ensures |holes| == n && forall i :: 0 <= i < n ==>
      forall j :: j in holes[i] <==>
        0 <= j < n && Parent(contains, j, j) == i && Depth(AllParents(contains, n), j) % 2 == 1
    ensures forall j: nat :: j in shells <==> j < n && Depth(AllParents(contains, n), j) % 2 == 0
  {
    hide AllPlaced, Depth;
    var containedBy := new int[n](_ => -1);
    var holeList := new set<nat>[n](_ => {});
    shells := {0};
    Beginning(containedBy[..], holeList[..]);
    for i := 0 to n
      invariant AllPlaced(containedBy[..], holeList[..], shells, i)
      invariant forall j :: 0 <= j < n ==> containedBy[j] == Parent(contains, j, i)
    {
      shells := CompareAll(contains, containedBy, holeList, shells, i);
      Seen(containedBy[..], holeList[..], shells, i);
      if containedBy[i] == -1 {
        shells := shells + {i};
      }
    }
    holes := holeList[..];
    forall j: nat | j < n ensures containedBy[j] == Parent(contains, j, j) { ParentSettled(contains, j, n); }
    assert containedBy[..] == AllParents(contains, n);
    Finished(containedBy[..], holes, shells);
  }

  lemma Beginning(cb: Parents, holes: seq<set<nat>>)
    requires |cb| == |holes| > 0 && (forall i :: 0 <= i < |cb| ==> cb[i] == -1 && holes[i] == {})
    ensures AllPlaced(cb, holes, {0}, 0)
  {
  }

  lemma Finished(cb: Parents, holes: seq<set<nat>>, shells: set<nat>)
    requires AllPlaced(cb, holes, shells, |cb|)
    ensures |cb| == |holes| && Ordered(cb)
    ensures forall i :: 0 <= i < |cb| ==>
      forall j :: j in holes[i] <==> 0 <= j < |cb| && cb[j] == i && Depth(cb, j) % 2 == 1
    ensures forall j: nat :: j in shells <==> j < |cb| && Depth(cb, j) % 2 == 0
  {
    forall j: nat | j < |cb| ensures j in shells <==> Depth(cb, j) % 2 == 0 {
      assert Placed(cb, holes, shells, |cb|, j);
    }
    forall i, j: nat | 0 <= i < |cb| && j < |cb| ensures j in holes[i] <==> cb[j] == i && Depth(cb, j) % 2 == 1 {
      assert Placed(cb, holes, shells, |cb|, j);
    }
  }

  /** `i` is the shell that ring `j` is a hole of. */
  predicate HoleOf(holes: seq<set<nat>>, shells: set<nat>, j: nat, i: nat)
  {
    i in shells && i < |holes| && j in holes[i]
  }

  /** For any test, every ring is a shell or a hole of exactly one shell, never both. */
  lemma Partition(contains: (nat, nat) -> bool, n: nat, holes: seq<set<nat>>, shells: set<nat>, j: nat)
    requires j < n == |holes|
    requires forall i :: 0 <= i < n ==>
      forall j :: j in holes[i] <==>
        0 <= j < n && Parent(contains, j, j) == i && Depth(AllParents(contains, n), j) % 2 == 1
    requires forall j: nat :: j in shells <==> j < n && Depth(AllParents(contains, n), j) % 2 == 0
    ensures j in shells <==> !exists i :: HoleOf(holes, shells, j, i)
    ensures forall i, k :: HoleOf(holes, shells, j, i) && HoleOf(holes, shells, j, k) ==> i == k
    ensures forall i :: 0 <= i < n && j in holes[i] ==> HoleOf(holes, shells, j, i)
  {
    var cb := AllParents(contains, n);
    if j !in shells { assert HoleOf(holes, shells, j, cb[j]); }
  }

  // Rings that nest

  /** Containment is transitive, only larger rings contain smaller ones, and two rings around the same ring
      are one in the other. */
  ghost predicate Nested(contains: (nat, nat) -> bool, n: nat)
  {
    && (forall i: nat, j: nat :: i < n && j < n && contains(i, j) ==> i < j)
    && (forall i: nat, j: nat, k: nat :: i < n && j < n && k < n && contains(i, j) && contains(j, k) ==> contains(i, k))
    && (forall i: nat, j: nat, k: nat :: i < j < n && k < n && contains(i, k) && contains(j, k) ==> contains(i, j))
  }

  ghost function Around(contains: (nat, nat) -> bool, n: nat, j: nat): (r: set<nat>)
  {
    set i: nat | i < n && contains(i, j)
  }

  /** The parent is the innermost ring around a ring: all others are around the parent too. */
  lemma ParentIsSmallest(contains: (nat, nat) -> bool, n: nat, j: nat)
    requires Nested(contains, n) && j < n
    ensures Parent(contains, j, j) == -1 <==> Around(contains, n, j) == {}
    ensures Parent(contains, j, j) != -1 ==>
      Around(contains, n, j) == Around(contains, n, Parent(contains, j, j)) + {Parent(contains, j, j)}
  {
    var p := Parent(contains, j, j);
    assert forall i <- Around(contains, n, j) :: i < j && i <= p;
    if p != -1 { assert p in Around(contains, n, j); }
  }

  lemma {:induction false} DepthCounts(contains: (nat, nat) -> bool, n: nat, j: nat)
    requires Nested(contains, n) && j < n
    ensures Depth(AllParents(contains, n), j) == |Around(contains, n, j)|
  {
    hide Nested;
    ParentIsSmallest(contains, n, j);
    var p := Parent(contains, j, j);
    if p != -1 {
      DepthCounts(contains, n, p);
      assert p !in Around(contains, n, p) by { NotInItself(contains, n, p); }
    }
  }

  lemma NotInItself(contains: (nat, nat) -> bool, n: nat, p: nat)
    requires Nested(contains, n) && p < n
    ensures !contains(p, p)
  {
  }

  /** When rings nest, a ring is a shell just if an even number of rings is around it, and otherwise a hole of
      the innermost of them. */
  method ClassifyNested(n: nat, contains: (nat, nat) -> bool) returns (holes: seq<set<nat>>, shells: set<nat>)
    requires n > 0 && Nested(contains, n)
    ensures forall j: nat :: j in shells <==> j < n && |Around(contains, n, j)| % 2 == 0
    ensures |holes| == n && forall i, j :: 0 <= i < n && j in holes[i] ==>
      && 0 <= j < n && contains(i, j) && |Around(contains, n, j)| % 2 == 1
      && forall k <- Around(contains, n, j) :: k == i || contains(k, i)
  {
    hide Around, Nested;
    holes, shells := Classify(n, contains);
    forall j: nat | j < n ensures Depth(AllParents(contains, n), j) == |Around(contains, n, j)| {
      DepthCounts(contains, n, j);
    }
    forall i, j | 0 <= i < n && j in holes[i] ensures forall k <- Around(contains, n, j) :: k == i || contains(k, i) {
      ParentIsSmallest(contains, n, j);
      AroundIs(contains, n, i);
    }
  }

  lemma AroundIs(contains: (nat, nat) -> bool, n: nat, i: nat)
    ensures forall k <- Around(contains, n, i) :: contains(k, i)
  {
  }
}
