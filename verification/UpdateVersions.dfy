/** Which version of an element is cached after a diff, told from the diff alone: that of the last change to it that
    was accepted. */
module UpdateVersions {
  import opened GoInts
  import opened UpdateRows
  import opened UpdateReasons

  function Opt<T>(m: map<int, T>, id: int): (r: Option<T>)
  {
    if id in m then Some(m[id]) else None
  }

  predicate InLimits(limiter: Limiter, long: real, lat: real)
  {
    limiter == None || limiter.value(long, lat)
  }

  // Coordinates

  /** The diff deletes the node, or has coordinates for it inside of the limits. */
  predicate SetsCoord(limiter: Limiter, d: Diff, n: int)
  {
    && d.change.NodeChange? && d.change.id == n
    && (d.action.Delete? || InLimits(limiter, d.change.long, d.change.lat))
  }

  function CoordIn(d: Diff): (r: Option<Coord>)
    requires d.change.NodeChange?
  {
    if d.action.Delete? then None else Some(Coord(d.change.long, d.change.lat))
  }

  predicate LastCoord(limiter: Limiter, diffs: seq<Diff>, n: int, i: int)
  {
    && 0 <= i < |diffs| && SetsCoord(limiter, diffs[i], n)
    && forall j :: i < j < |diffs| ==> !SetsCoord(limiter, diffs[j], n)
  }

  /** The coordinates of a node after a diff: those of the last of these, or as they were. */
  ghost predicate CoordHeld(cache: Caches, limiter: Limiter, diffs: seq<Diff>, n: int, r: Option<Coord>)
  {
    if forall i :: 0 <= i < |diffs| ==> !SetsCoord(limiter, diffs[i], n) then r == Opt(cache.coords, n)
    else exists i :: LastCoord(limiter, diffs, n, i) && r == CoordIn(diffs[i])
  }

  lemma CoordOnce(cache: Caches, limiter: Limiter, diffs: seq<Diff>, n: int, r: Option<Coord>, s: Option<Coord>)
    requires CoordHeld(cache, limiter, diffs, n, r) && CoordHeld(cache, limiter, diffs, n, s)
    ensures r == s
  {
    hide SetsCoord;
  }

  lemma CoordStep(cache: Caches, limiter: Limiter, diffs: seq<Diff>, d: Diff, n: int, r: Option<Coord>)
    requires CoordHeld(cache, limiter, diffs, n, r)
    ensures CoordHeld(cache, limiter, diffs + [d], n, if SetsCoord(limiter, d, n) then CoordIn(d) else r)
  {
    var more := diffs + [d];
    assert more[|diffs|] == d && forall i :: 0 <= i < |diffs| ==> more[i] == diffs[i];
    if SetsCoord(limiter, d, n) {
      assert LastCoord(limiter, more, n, |diffs|);
    } else if i :| LastCoord(limiter, diffs, n, i) && r == CoordIn(diffs[i]) {
      assert LastCoord(limiter, more, n, i);
    }
  }

  lemma CoordAfter(cache: Caches, limiter: Limiter, d: Diff, n: int)
    requires d.change.id > 0
    ensures Opt(AfterDiff(cache, limiter, d).coords, n) ==
      if SetsCoord(limiter, d, n) then CoordIn(d) else Opt(cache.coords, n)
  {
  }

  lemma {:induction false} CoordsHeld(cache: Caches, limiter: Limiter, diffs: seq<Diff>, n: int)
    requires GoodDiffs(diffs)
    ensures CoordHeld(cache, limiter, diffs, n, Opt(AfterDiffs(cache, limiter, diffs).coords, n))
    decreases |diffs|
  {
    if diffs != [] {
      var last := |diffs| - 1;
      var before := AfterDiffs(cache, limiter, diffs[..last]);
      hide AfterDiff, CoordHeld, SetsCoord;
      CoordsHeld(cache, limiter, diffs[..last], n);
      CoordAfter(before, limiter, diffs[last], n);
      CoordStep(cache, limiter, diffs[..last], diffs[last], n, Opt(before.coords, n));
      assert diffs == diffs[..last] + [diffs[last]];
    }
  }

  /** The node has coordinates after a diff. */
  ghost predicate HasCoord(cache: Caches, limiter: Limiter, diffs: seq<Diff>, n: int)
  {
    exists p :: CoordHeld(cache, limiter, diffs, n, Some(p))
  }

  lemma HasCoordIff(cache: Caches, limiter: Limiter, diffs: seq<Diff>, n: int)
    requires GoodDiffs(diffs)
    ensures HasCoord(cache, limiter, diffs, n) <==> n in AfterDiffs(cache, limiter, diffs).coords
  {
    hide CoordHeld, AfterDiffs;
    var r := Opt(AfterDiffs(cache, limiter, diffs).coords, n);
    CoordsHeld(cache, limiter, diffs, n);
    if p :| CoordHeld(cache, limiter, diffs, n, Some(p)) { CoordOnce(cache, limiter, diffs, n, r, Some(p)); }
  }

  // Tagged nodes

  /** The diff deletes the node, drops its tags, or has tags for it and coordinates inside of the limits. */
  predicate SetsNode(limiter: Limiter, d: Diff, n: int)
  {
    d.change.NodeChange? && d.change.id == n && (
      || d.action.Delete?
      || (d.action.Modify? && d.change.tags == None)
      || (d.change.tags.Some? && InLimits(limiter, d.change.long, d.change.lat)))
  }

  function NodeIn(d: Diff): (r: Option<NodeElem>)
    requires d.change.NodeChange?
  {
    if d.action.Delete? || d.change.tags == None then None
    else Some(NodeElem(d.change.tags.value, d.change.long, d.change.lat))
  }

  predicate LastNode(limiter: Limiter, diffs: seq<Diff>, n: int, i: int)
  {
    && 0 <= i < |diffs| && SetsNode(limiter, diffs[i], n)
    && forall j :: i < j < |diffs| ==> !SetsNode(limiter, diffs[j], n)
  }

  ghost predicate NodeHeld(cache: Caches, limiter: Limiter, diffs: seq<Diff>, n: int, r: Option<NodeElem>)
  {
    if forall i :: 0 <= i < |diffs| ==> !SetsNode(limiter, diffs[i], n) then r == Opt(cache.nodes, n)
    else exists i :: LastNode(limiter, diffs, n, i) && r == NodeIn(diffs[i])
  }

  lemma NodeStep(cache: Caches, limiter: Limiter, diffs: seq<Diff>, d: Diff, n: int, r: Option<NodeElem>)
    requires NodeHeld(cache, limiter, diffs, n, r)
    ensures NodeHeld(cache, limiter, diffs + [d], n, if SetsNode(limiter, d, n) then NodeIn(d) else r)
  {
    var more := diffs + [d];
    assert more[|diffs|] == d && forall i :: 0 <= i < |diffs| ==> more[i] == diffs[i];
    if SetsNode(limiter, d, n) {
      assert LastNode(limiter, more, n, |diffs|);
    } else if i :| LastNode(limiter, diffs, n, i) && r == NodeIn(diffs[i]) {
      assert LastNode(limiter, more, n, i);
    }
  }

  lemma NodeAfter(cache: Caches, limiter: Limiter, d: Diff, n: int)
    requires d.change.id > 0
    ensures Opt(AfterDiff(cache, limiter, d).nodes, n) ==
      if SetsNode(limiter, d, n) then NodeIn(d) else Opt(cache.nodes, n)
  {
  }

  lemma {:induction false} NodesHeld(cache: Caches, limiter: Limiter, diffs: seq<Diff>, n: int)
    requires GoodDiffs(diffs)
    ensures NodeHeld(cache, limiter, diffs, n, Opt(AfterDiffs(cache, limiter, diffs).nodes, n))
    decreases |diffs|
  {
    if diffs != [] {
      var last := |diffs| - 1;
      var before := AfterDiffs(cache, limiter, diffs[..last]);
      hide AfterDiff, NodeHeld, SetsNode;
      NodesHeld(cache, limiter, diffs[..last], n);
      NodeAfter(before, limiter, diffs[last], n);
      NodeStep(cache, limiter, diffs[..last], diffs[last], n, Opt(before.nodes, n));
      assert diffs == diffs[..last] + [diffs[last]];
    }
  }

  // Ways

  /** After `before`, the diff deletes the way, or has a version of it whose first node has coordinates. */
  ghost predicate SetsWay(cache: Caches, limiter: Limiter, before: seq<Diff>, d: Diff, w: int)
  {
    d.change.WayChange? && d.change.id == w && (
      || d.action.Delete?
      || (d.change.way.refs != [] && HasCoord(cache, limiter, before, d.change.way.refs[0])))
  }

  function WayIn(d: Diff): (r: Option<WayElem>)
    requires d.change.WayChange?
  {
    if d.action.Delete? then None else Some(d.change.way)
  }

  ghost predicate LastWay(cache: Caches, limiter: Limiter, diffs: seq<Diff>, w: int, i: int)
  {
    && 0 <= i < |diffs| && SetsWay(cache, limiter, diffs[..i], diffs[i], w)
    && forall j :: i < j < |diffs| ==> !SetsWay(cache, limiter, diffs[..j], diffs[j], w)
  }

  ghost predicate WayHeld(cache: Caches, limiter: Limiter, diffs: seq<Diff>, w: int, r: Option<WayElem>)
  {
    if forall i :: 0 <= i < |diffs| ==> !SetsWay(cache, limiter, diffs[..i], diffs[i], w) then r == Opt(cache.ways, w)
    else exists i :: LastWay(cache, limiter, diffs, w, i) && r == WayIn(diffs[i])
  }

  lemma WayOnce(cache: Caches, limiter: Limiter, diffs: seq<Diff>, w: int, r: Option<WayElem>, s: Option<WayElem>)
    requires WayHeld(cache, limiter, diffs, w, r) && WayHeld(cache, limiter, diffs, w, s)
    ensures r == s
  {
    hide SetsWay;
  }

  lemma WayStep(cache: Caches, limiter: Limiter, diffs: seq<Diff>, d: Diff, w: int, r: Option<WayElem>)
    requires WayHeld(cache, limiter, diffs, w, r)
    ensures SetsWay(cache, limiter, diffs, d, w) ==> WayHeld(cache, limiter, diffs + [d], w, WayIn(d))
    ensures !SetsWay(cache, limiter, diffs, d, w) ==> WayHeld(cache, limiter, diffs + [d], w, r)
  {
    hide HasCoord;
    var more := diffs + [d];
    assert more[|diffs|] == d && more[..|diffs|] == diffs;
    assert forall i :: 0 <= i < |diffs| ==> more[i] == diffs[i] && more[..i] == diffs[..i];
    if SetsWay(cache, limiter, diffs, d, w) {
      assert LastWay(cache, limiter, more, w, |diffs|);
    } else if i :| LastWay(cache, limiter, diffs, w, i) && r == WayIn(diffs[i]) {
      assert LastWay(cache, limiter, more, w, i);
    }
  }

  lemma WayAfter(cache: Caches, limiter: Limiter, before: seq<Diff>, d: Diff, w: int)
    requires GoodDiffs(before) && d.change.id > 0
    ensures var known := AfterDiffs(cache, limiter, before);
      && (SetsWay(cache, limiter, before, d, w) ==> Opt(AfterDiff(known, limiter, d).ways, w) == WayIn(d))
      && (!SetsWay(cache, limiter, before, d, w) ==> Opt(AfterDiff(known, limiter, d).ways, w) == Opt(known.ways, w))
  {
    hide HasCoord, AfterDiffs, GoodDiffs;
    if d.change.WayChange? && d.change.way.refs != [] { HasCoordIff(cache, limiter, before, d.change.way.refs[0]); }
  }

  lemma {:induction false} WaysHeld(cache: Caches, limiter: Limiter, diffs: seq<Diff>, w: int)
    requires GoodDiffs(diffs)
    ensures WayHeld(cache, limiter, diffs, w, Opt(AfterDiffs(cache, limiter, diffs).ways, w))
    decreases |diffs|
  {
    if diffs != [] {
      var last := |diffs| - 1;
      var before := AfterDiffs(cache, limiter, diffs[..last]);
      hide AfterDiff, WayHeld, SetsWay;
      WaysHeld(cache, limiter, diffs[..last], w);
      WayAfter(cache, limiter, diffs[..last], diffs[last], w);
      WayStep(cache, limiter, diffs[..last], diffs[last], w, Opt(before.ways, w));
      assert diffs == diffs[..last] + [diffs[last]];
    }
  }

  ghost predicate HasWay(cache: Caches, limiter: Limiter, diffs: seq<Diff>, w: int)
  {
    exists way :: WayHeld(cache, limiter, diffs, w, Some(way))
  }

  lemma HasWayIff(cache: Caches, limiter: Limiter, diffs: seq<Diff>, w: int)
    requires GoodDiffs(diffs)
    ensures HasWay(cache, limiter, diffs, w) <==> w in AfterDiffs(cache, limiter, diffs).ways
  {
    hide WayHeld, AfterDiffs;
    var r := Opt(AfterDiffs(cache, limiter, diffs).ways, w);
    WaysHeld(cache, limiter, diffs, w);
    if way :| WayHeld(cache, limiter, diffs, w, Some(way)) { WayOnce(cache, limiter, diffs, w, r, Some(way)); }
  }

  // Relations

  /** All members are relations, or the first that is not is known. */
  ghost predicate FirstKnown(cache: Caches, limiter: Limiter, diffs: seq<Diff>, members: seq<Member>)
  {
    || (forall i :: 0 <= i < |members| ==> members[i].kind.RelationMember?)
    || exists i :: IsFirstMember(members, i) &&
         if members[i].kind.WayMember? then HasWay(cache, limiter, diffs, members[i].id)
         else HasCoord(cache, limiter, diffs, members[i].id)
  }

  predicate IsFirstMember(members: seq<Member>, i: int)
  {
    && 0 <= i < |members| && !members[i].kind.RelationMember?
    && forall j :: 0 <= j < i ==> members[j].kind.RelationMember?
  }

  /** `FirstMemberIsCached` asks for just that member. */
  lemma {:induction false} FirstMemberIs(cache: Caches, members: seq<Member>)
    ensures (forall i :: 0 <= i < |members| ==> members[i].kind.RelationMember?) ==> FirstMemberIsCached(cache, members)
    ensures forall i :: IsFirstMember(members, i) ==> (FirstMemberIsCached(cache, members) <==>
      if members[i].kind.WayMember? then members[i].id in cache.ways else members[i].id in cache.coords)
  {
    if members != [] && members[0].kind.RelationMember? {
      FirstMemberIs(cache, members[1..]);
      forall i | IsFirstMember(members, i) ensures IsFirstMember(members[1..], i - 1) {}
    }
  }

  lemma FirstOrNone(members: seq<Member>) returns (i: int)
    ensures (forall j :: 0 <= j < |members| ==> members[j].kind.RelationMember?) || IsFirstMember(members, i)
  {
    i := 0;
    while i < |members| && members[i].kind.RelationMember?
      invariant 0 <= i <= |members| && forall j :: 0 <= j < i ==> members[j].kind.RelationMember?
    {
      i := i + 1;
    }
  }

  lemma FirstKnownIff(cache: Caches, limiter: Limiter, diffs: seq<Diff>, members: seq<Member>)
    requires GoodDiffs(diffs)
    ensures FirstKnown(cache, limiter, diffs, members) <==>
      FirstMemberIsCached(AfterDiffs(cache, limiter, diffs), members)
  {
    hide HasWay, HasCoord, AfterDiffs, FirstMemberIsCached, GoodDiffs;
    FirstMemberIs(AfterDiffs(cache, limiter, diffs), members);
    var i := FirstOrNone(members);
    if IsFirstMember(members, i) {
      HasWayIff(cache, limiter, diffs, members[i].id);
      HasCoordIff(cache, limiter, diffs, members[i].id);
      assert forall j :: IsFirstMember(members, j) ==> j == i;
    }
  }

  /** After `before`, the diff deletes the relation, or has a version of it whose first way or node is known. */
  ghost predicate SetsRel(cache: Caches, limiter: Limiter, before: seq<Diff>, d: Diff, r: int)
  {
    d.change.RelChange? && d.change.id == r &&
    (d.action.Delete? || FirstKnown(cache, limiter, before, d.change.rel.members))
  }

  function RelIn(d: Diff): (r: Option<RelElem>)
    requires d.change.RelChange?
  {
    if d.action.Delete? then None else Some(d.change.rel)
  }

  ghost predicate LastRel(cache: Caches, limiter: Limiter, diffs: seq<Diff>, r: int, i: int)
  {
    && 0 <= i < |diffs| && SetsRel(cache, limiter, diffs[..i], diffs[i], r)
    && forall j :: i < j < |diffs| ==> !SetsRel(cache, limiter, diffs[..j], diffs[j], r)
  }

  ghost predicate RelHeld(cache: Caches, limiter: Limiter, diffs: seq<Diff>, r: int, version: Option<RelElem>)
  {
    if forall i :: 0 <= i < |diffs| ==> !SetsRel(cache, limiter, diffs[..i], diffs[i], r)
    then version == Opt(cache.rels, r)
    else exists i :: LastRel(cache, limiter, diffs, r, i) && version == RelIn(diffs[i])
  }

  lemma RelStep(cache: Caches, limiter: Limiter, diffs: seq<Diff>, d: Diff, r: int, version: Option<RelElem>)
    requires RelHeld(cache, limiter, diffs, r, version)
    ensures SetsRel(cache, limiter, diffs, d, r) ==> RelHeld(cache, limiter, diffs + [d], r, RelIn(d))
    ensures !SetsRel(cache, limiter, diffs, d, r) ==> RelHeld(cache, limiter, diffs + [d], r, version)
  {
    hide FirstKnown;
    var more := diffs + [d];
    assert more[|diffs|] == d && more[..|diffs|] == diffs;
    assert forall i :: 0 <= i < |diffs| ==> more[i] == diffs[i] && more[..i] == diffs[..i];
    if SetsRel(cache, limiter, diffs, d, r) {
      assert LastRel(cache, limiter, more, r, |diffs|);
    } else if i :| LastRel(cache, limiter, diffs, r, i) && version == RelIn(diffs[i]) {
      assert LastRel(cache, limiter, more, r, i);
    }
  }

  lemma RelAfter(cache: Caches, limiter: Limiter, before: seq<Diff>, d: Diff, r: int)
    requires GoodDiffs(before) && d.change.id > 0
    ensures var known := AfterDiffs(cache, limiter, before);
      && (SetsRel(cache, limiter, before, d, r) ==> Opt(AfterDiff(known, limiter, d).rels, r) == RelIn(d))
      && (!SetsRel(cache, limiter, before, d, r) ==> Opt(AfterDiff(known, limiter, d).rels, r) == Opt(known.rels, r))
  {
    hide FirstKnown, FirstMemberIsCached, AfterDiffs, GoodDiffs;
    if d.change.RelChange? { FirstKnownIff(cache, limiter, before, d.change.rel.members); }
  }

  lemma {:induction false} RelsHeld(cache: Caches, limiter: Limiter, diffs: seq<Diff>, r: int)
    requires GoodDiffs(diffs)
    ensures RelHeld(cache, limiter, diffs, r, Opt(AfterDiffs(cache, limiter, diffs).rels, r))
    decreases |diffs|
  {
    if diffs != [] {
      var last := |diffs| - 1;
      var before := AfterDiffs(cache, limiter, diffs[..last]);
      hide AfterDiff, RelHeld, SetsRel;
      RelsHeld(cache, limiter, diffs[..last], r);
      RelAfter(cache, limiter, diffs[..last], diffs[last], r);
      RelStep(cache, limiter, diffs[..last], diffs[last], r, Opt(before.rels, r));
      assert diffs == diffs[..last] + [diffs[last]];
    }
  }

  // What is queued

  /** Element `i` of the diff is created or modified and accepted: a node inside of the limits, a way whose first node
      has coordinates, a relation whose first way or node is known. */
  ghost predicate AcceptedAt(cache: Caches, limiter: Limiter, diffs: seq<Diff>, i: int)
  {
    0 <= i < |diffs| && !diffs[i].action.Delete? && match diffs[i].change
      case NodeChange(_, _, long, lat) => InLimits(limiter, long, lat)
      case WayChange(_, way) => way.refs != [] && HasCoord(cache, limiter, diffs[..i], way.refs[0])
      case RelChange(_, rel) => FirstKnown(cache, limiter, diffs[..i], rel.members)
  }

  lemma AcceptedIff(cache: Caches, limiter: Limiter, diffs: seq<Diff>, i: nat)
    requires GoodDiffs(diffs) && i < |diffs|
    ensures AcceptedAt(cache, limiter, diffs, i) <==>
      Accepted(AfterDiffs(cache, limiter, diffs[..i]), limiter, diffs[i])
  {
    assert GoodDiffs(diffs[..i]);
    hide HasCoord, FirstKnown, AfterDiffs, FirstMemberIsCached, GoodDiffs;
    match diffs[i].change {
      case WayChange(_, way) => if way.refs != [] { HasCoordIff(cache, limiter, diffs[..i], way.refs[0]); }
      case RelChange(_, rel) => FirstKnownIff(cache, limiter, diffs[..i], rel.members);
      case _ =>
    }
  }

  ghost predicate SomeAccepted(cache: Caches, limiter: Limiter, diffs: seq<Diff>, e: Elem)
  {
    exists i :: AcceptedAt(cache, limiter, diffs, i) && ElemOf(diffs[i].change) == e
  }

  lemma AcceptedBefore(cache: Caches, limiter: Limiter, diffs: seq<Diff>, n: nat, i: int)
    requires n <= |diffs| && i < n
    ensures AcceptedAt(cache, limiter, diffs[..n], i) <==> AcceptedAt(cache, limiter, diffs, i)
  {
    hide HasCoord, FirstKnown;
    if i >= 0 { assert diffs[..n][..i] == diffs[..i]; }
  }

  /** The diff itself queues just what it creates or modifies and what is accepted. */
  lemma {:induction false} DirectIff(cache: Caches, limiter: Limiter, diffs: seq<Diff>, e: Elem)
    requires GoodDiffs(diffs)
    ensures e in Direct(cache, limiter, diffs) <==> SomeAccepted(cache, limiter, diffs, e)
    decreases |diffs|
  {
    if diffs != [] {
      var n := |diffs| - 1;
      assert GoodDiffs(diffs[..n]);
      hide AcceptedAt, Accepted, GoodDiffs, AfterDiffs;
      DirectIff(cache, limiter, diffs[..n], e);
      AcceptedIff(cache, limiter, diffs, n);
      forall i | i < n ensures AcceptedAt(cache, limiter, diffs[..n], i) <==> AcceptedAt(cache, limiter, diffs, i) {
        AcceptedBefore(cache, limiter, diffs, n, i);
      }
      InDiffs(cache, limiter, diffs);
      InDiffs(cache, limiter, diffs[..n]);
    }
  }

  lemma InDiffs(cache: Caches, limiter: Limiter, diffs: seq<Diff>)
    ensures forall i :: AcceptedAt(cache, limiter, diffs, i) ==> 0 <= i < |diffs|
  {
  }

  // All of the cache

  /** `after` holds the last accepted version of every element of the diff, and all else as it was. */
  ghost predicate UpToDate(cache: Caches, limiter: Limiter, diffs: seq<Diff>, after: Caches)
  {
    && (forall n :: CoordHeld(cache, limiter, diffs, n, Opt(after.coords, n)))
    && (forall n :: NodeHeld(cache, limiter, diffs, n, Opt(after.nodes, n)))
    && (forall w :: WayHeld(cache, limiter, diffs, w, Opt(after.ways, w)))
    && (forall r :: RelHeld(cache, limiter, diffs, r, Opt(after.rels, r)))
  }

  lemma CacheUpToDate(cache: Caches, limiter: Limiter, diffs: seq<Diff>)
    requires GoodDiffs(diffs)
    ensures UpToDate(cache, limiter, diffs, AfterDiffs(cache, limiter, diffs))
  {
    hide CoordHeld, NodeHeld, WayHeld, RelHeld, AfterDiffs, GoodDiffs;
    var after := AfterDiffs(cache, limiter, diffs);
    forall n ensures CoordHeld(cache, limiter, diffs, n, Opt(after.coords, n)) { CoordsHeld(cache, limiter, diffs, n); }
    forall n ensures NodeHeld(cache, limiter, diffs, n, Opt(after.nodes, n)) { NodesHeld(cache, limiter, diffs, n); }
    forall w ensures WayHeld(cache, limiter, diffs, w, Opt(after.ways, w)) { WaysHeld(cache, limiter, diffs, w); }
    forall r ensures RelHeld(cache, limiter, diffs, r, Opt(after.rels, r)) { RelsHeld(cache, limiter, diffs, r); }
  }
}
