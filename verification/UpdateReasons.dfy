/** What a diff update has to keep track of: the caches after each element of the diff, the rows that are left,
    and the reasons for deleting what is not in the diff. */
module UpdateReasons {
  import opened GoInts
  import opened UpdateRows

  const SKIP := -1

  // Diffs

  /** The three actions of a diff; `Tags == nil` of a node is `None`. */
  datatype Action = Create | Modify | Delete

  datatype Change =
    | NodeChange(id: int, tags: Option<Tags>, long: real, lat: real)
    | WayChange(id: int, way: WayElem)
    | RelChange(id: int, rel: RelElem)

  datatype Diff = Diff(action: Action, change: Change)

  type Limiter = Option<(real, real) -> bool>

  function ElemOf(change: Change): (e: Elem)
  {
    match change
    case NodeChange(id, _, _, _) => N(id)
    case WayChange(id, _) => W(id)
    case RelChange(id, _) => R(id)
  }

  /** The elements that a diff creates or modifies. */
  function Changed(diffs: seq<Diff>): (r: set<Elem>)
  {
    if diffs == [] then {}
    else
      var d := diffs[|diffs| - 1];
      Changed(diffs[..|diffs| - 1]) + if d.action.Delete? then {} else {ElemOf(d.change)}
  }

  /** The elements that a diff deletes. */
  function Removed(diffs: seq<Diff>): (r: set<Elem>)
  {
    if diffs == [] then {}
    else
      var d := diffs[|diffs| - 1];
      Removed(diffs[..|diffs| - 1]) + if d.action.Delete? then {ElemOf(d.change)} else {}
  }

  predicate GoodDiffs(diffs: seq<Diff>)
  {
    forall i :: 0 <= i < |diffs| ==> OsmId(ElemOf(diffs[i].change).id)
  }

  /** `FirstMemberIsCached`: the first way or node member. */
  predicate FirstMemberIsCached(cache: Caches, members: seq<Member>)
  {
    if members == [] then true
    else match members[0].kind
      case WayMember => members[0].id in cache.ways
      case NodeMember => members[0].id in cache.coords
      case RelationMember => FirstMemberIsCached(cache, members[1..])
  }

  predicate FirstRefIsCached(cache: Caches, refs: seq<int>)
  {
    refs != [] && refs[0] in cache.coords
  }

  /** The element is cached and queued for insertion. */
  predicate Accepted(cache: Caches, limiter: Limiter, d: Diff)
  {
    !d.action.Delete? && match d.change
      case NodeChange(_, _, long, lat) => limiter == None || limiter.value(long, lat)
      case WayChange(_, way) => FirstRefIsCached(cache, way.refs)
      case RelChange(_, rel) => FirstMemberIsCached(cache, rel.members)
  }

  /** The caches after one element of the diff. */
  function AfterDiff(cache: Caches, limiter: Limiter, d: Diff): (r: Caches)
  {
    var put := Accepted(cache, limiter, d) && d.change.id != SKIP;
    match d.change
    case NodeChange(id, tags, long, lat) =>
      if d.action.Delete? then cache.(nodes := cache.nodes - {id}, coords := cache.coords - {id})
      else
        var nodes := if d.action.Modify? && tags == None then cache.nodes - {id} else cache.nodes;
        if !put then cache.(nodes := nodes)
        else cache.(nodes := if tags == None then nodes else nodes[id := NodeElem(tags.value, long, lat)],
                    coords := cache.coords[id := Coord(long, lat)])
    case WayChange(id, way) =>
      if d.action.Delete? then cache.(ways := cache.ways - {id})
      else if put then cache.(ways := cache.ways[id := way]) else cache
    case RelChange(id, rel) =>
      if d.action.Delete? then cache.(rels := cache.rels - {id})
      else if put then cache.(rels := cache.rels[id := rel]) else cache
  }

  function AfterDiffs(cache: Caches, limiter: Limiter, diffs: seq<Diff>): (r: Caches)
  {
    if diffs == [] then cache
    else AfterDiff(AfterDiffs(cache, limiter, diffs[..|diffs| - 1]), limiter, diffs[|diffs| - 1])
  }

  /** The elements that the diff itself puts into the queues. */
  function Direct(cache: Caches, limiter: Limiter, diffs: seq<Diff>): (r: set<Elem>)
  {
    if diffs == [] then {}
    else
      var d, before := diffs[|diffs| - 1], diffs[..|diffs| - 1];
      Direct(cache, limiter, before) +
      if Accepted(AfterDiffs(cache, limiter, before), limiter, d) then {ElemOf(d.change)} else {}
  }

  /** Every element that is created or modified is accepted: it is inside of the limits and has its first ref or
      member cached. */
  predicate AllAccepted(cache: Caches, limiter: Limiter, diffs: seq<Diff>)
  {
    forall i :: 0 <= i < |diffs| && !diffs[i].action.Delete? ==>
      Accepted(AfterDiffs(cache, limiter, diffs[..i]), limiter, diffs[i])
  }

  lemma {:induction false} AcceptedIsDirect(cache: Caches, limiter: Limiter, diffs: seq<Diff>)
    requires AllAccepted(cache, limiter, diffs)
    ensures Changed(diffs) == Direct(cache, limiter, diffs)
  {
    hide Accepted, AfterDiffs;
    if diffs != [] {
      var n := |diffs| - 1;
      forall i | 0 <= i < n && !diffs[i].action.Delete?
        ensures Accepted(AfterDiffs(cache, limiter, diffs[..n][..i]), limiter, diffs[i])
      {
        assert diffs[..n][..i] == diffs[..i];
      }
      AcceptedIsDirect(cache, limiter, diffs[..n]);
      NotAccepted(AfterDiffs(cache, limiter, diffs[..n]), limiter, diffs[n]);
    }
  }

  lemma NotAccepted(cache: Caches, limiter: Limiter, d: Diff)
    ensures d.action.Delete? ==> !Accepted(cache, limiter, d)
  {
  }

  lemma GoodAfter(cache: Caches, limiter: Limiter, d: Diff)
    requires GoodCache(cache) && OsmId(ElemOf(d.change).id)
    ensures GoodCache(AfterDiff(cache, limiter, d))
  {
    hide Accepted, OsmId;
  }

  /** What has only been deleted is not cached, and all nodes of the diff have been deleted. */
  ghost predicate Tidy(changed: set<Elem>, removed: set<Elem>, cache: Caches, nodes: set<int>)
  {
    && (forall w :: W(w) in removed && W(w) !in changed ==> w !in cache.ways)
    && (forall r :: R(r) in removed && R(r) !in changed ==> r !in cache.rels)
    && (forall n :: n in nodes <==> N(n) in changed || N(n) in removed)
  }

  lemma TidyAfter(changed: set<Elem>, removed: set<Elem>, cache: Caches, nodes: set<int>, limiter: Limiter, d: Diff)
    requires Tidy(changed, removed, cache, nodes)
    ensures var e := ElemOf(d.change);
      Tidy(changed + if d.action.Delete? then {} else {e}, removed + if d.action.Delete? then {e} else {},
           AfterDiff(cache, limiter, d), if e.N? then nodes + {e.id} else nodes)
  {
    hide Accepted;
  }

  /** Only the element itself is cached differently. */
  lemma OthersAfter(c: Config, cache: Caches, limiter: Limiter, d: Diff, x: Elem)
    requires x != ElemOf(d.change)
    ensures CachedTables(c, AfterDiff(cache, limiter, d), x) == CachedTables(c, cache, x)
  {
    hide Accepted, WayTables, RelTables;
  }

  // Rows

  /** What phase one keeps about the rows: they belong to cached elements, and none is left of what has been
      deleted or is to be inserted again. */
  ghost predicate AllGone(c: Config, cache: Caches, rows: set<Row>, ways: set<int>, rels: set<int>, nodes: set<int>)
  {
    && RowsOk(c, cache, rows) && SeparateTables(c) && GoodCache(cache)
    && (forall w <- ways :: NoRows(c, rows, W(w)))
    && (forall r <- rels :: NoRows(c, rows, R(r)))
    && (forall n <- nodes :: NoRows(c, rows, N(n)))
  }

  lemma NoneOfLess(c: Config, rows: set<Row>, rest: set<Row>, e: Elem)
    requires rest <= rows && NoRows(c, rows, e)
    ensures NoRows(c, rest, e)
  {
  }

  lemma GoneFromLess(c: Config, cache: Caches, rows: set<Row>, rest: set<Row>,
                     ways: set<int>, rels: set<int>, nodes: set<int>)
    requires AllGone(c, cache, rows, ways, rels, nodes) && rest <= rows && RowsOk(c, cache, rest)
    ensures AllGone(c, cache, rest, ways, rels, nodes)
  {
    hide RowsOk, NoRows;
    forall w <- ways ensures NoRows(c, rest, W(w)) { NoneOfLess(c, rows, rest, W(w)); }
    forall r <- rels ensures NoRows(c, rest, R(r)) { NoneOfLess(c, rows, rest, R(r)); }
    forall n <- nodes ensures NoRows(c, rest, N(n)) { NoneOfLess(c, rows, rest, N(n)); }
  }

  lemma GoneElem(c: Config, cache: Caches, rows: set<Row>, ways: set<int>, rels: set<int>, nodes: set<int>, e: Elem)
    requires AllGone(c, cache, rows, ways, rels, nodes)
    requires match e case N(n) => n in nodes case W(w) => w in ways case R(r) => r in rels
    ensures NoRows(c, rows, e)
  {
    hide NoRows;
  }

  /** The rows of what has not been deleted. */
  ghost function Remaining(c: Config, before: set<Row>, nodes: set<int>, ways: set<int>, rels: set<int>): (r: set<Row>)
  {
    set row <- before | !Touched(Owner(c, row), nodes, ways, rels)
  }

  predicate Touched(e: Elem, nodes: set<int>, ways: set<int>, rels: set<int>)
  {
    match e
    case N(n) => n in nodes
    case W(w) => w in ways
    case R(r) => r in rels
  }

  lemma RemainingLess(c: Config, before: set<Row>, nodes: set<int>, ways: set<int>, rels: set<int>, e: Elem)
    ensures Without(c, Remaining(c, before, nodes, ways, rels), e) ==
      match e
      case N(n) => Remaining(c, before, nodes + {n}, ways, rels)
      case W(w) => Remaining(c, before, nodes, ways + {w}, rels)
      case R(r) => Remaining(c, before, nodes, ways, rels + {r})
  {
    hide Owner;
  }

  lemma NothingDeleted(c: Config, before: set<Row>)
    ensures Remaining(c, before, {}, {}, {}) == before
  {
    hide Owner;
  }

  /** Whatever phase two is led to has been deleted: from nodes to ways and relations, and from ways to
      relations. */
  ghost predicate AllFollowed(index: Indexes, ways: set<int>, rels: set<int>, members: set<int>,
                              nodeIDs: set<int>, wayIDs: set<int>, relIDs: set<int>, but: set<int>)
  {
    && members <= ways && wayIDs <= ways && relIDs <= rels
    && (forall n <- nodeIDs :: Get(index.coords, n) <= ways && Get(index.coordsRel, n) <= rels)
    && (forall w <- ways :: w !in but ==> Get(index.ways, w) <= rels)
  }

  /** The diff so far, what was created or modified and what was deleted, and the references that are left of
      those at the beginning. */
  datatype Context = Context(changed: set<Elem>, removed: set<Elem>, index: Indexes, members: set<int>, start: Indexes)
  {
    predicate InDiff(e: Elem)
    {
      e in changed || e in removed
    }

    /** An element depends on a changed one by a reference that phase two will find. */
    predicate Because(why: Elem, e: Elem)
    {
      match (why, e)
      case (N(n), W(w)) =>
        why in changed && w in Get(start.coords, n) && (w in Get(index.coords, n) || why in removed)
      case (N(n), R(r)) =>
        why in changed && r in Get(start.coordsRel, n) && r in Get(index.coordsRel, n)
      case (W(w), R(r)) =>
        (why in changed || w in members) && r in Get(start.ways, w) && (r in Get(index.ways, w) || why in removed)
      case _ => false
    }

    /** Later in the same update: references are only lost when one of the two elements is in the diff. */
    ghost predicate Later(next: Context)
    {
      && changed <= next.changed && removed <= next.removed && members <= next.members && start == next.start
      && (forall n, w :: w in Get(index.coords, n) && w !in Get(next.index.coords, n) ==>
            next.InDiff(W(w)) || N(n) in next.removed)
      && (forall n, r :: r in Get(index.coordsRel, n) && r !in Get(next.index.coordsRel, n) ==> next.InDiff(R(r)))
      && (forall w, r :: r in Get(index.ways, w) && r !in Get(next.index.ways, w) ==>
            next.InDiff(R(r)) || W(w) in next.removed)
      && next.Within(index)
    }

    /** Of the references at the beginning those are lost of which one of the two elements is in the diff. */
    ghost predicate LostByDiff()
    {
      && (forall n, w :: w in Get(start.coords, n) && w !in Get(index.coords, n) ==> InDiff(W(w)) || N(n) in removed)
      && (forall n, r :: r in Get(start.coordsRel, n) && r !in Get(index.coordsRel, n) ==> InDiff(R(r)))
      && (forall w, r :: r in Get(start.ways, w) && r !in Get(index.ways, w) ==> InDiff(R(r)) || W(w) in removed)
    }

    /** The references that are left were there before. */
    ghost predicate Within(before: Indexes)
    {
      && (forall k :: Get(index.coords, k) <= Get(before.coords, k))
      && (forall k :: Get(index.coordsRel, k) <= Get(before.coordsRel, k))
      && (forall k :: Get(index.ways, k) <= Get(before.ways, k))
    }
  }

  /** An element that was deleted is in the diff, or there is a reason for it. */
  ghost predicate Explained(x: Context, cause: map<Elem, Elem>, e: Elem)
  {
    x.InDiff(e) || (e in cause && x.Because(cause[e], e))
  }

  ghost predicate AllExplained(x: Context, cause: map<Elem, Elem>, ways: set<int>, rels: set<int>)
  {
    && (forall w <- ways :: Explained(x, cause, W(w))) && (forall r <- rels :: Explained(x, cause, R(r)))
    && x.Within(x.start) && x.LostByDiff()
  }

  lemma ExplainedOne(x: Context, cause: map<Elem, Elem>, ways: set<int>, rels: set<int>, e: Elem, why: Elem)
    requires AllExplained(x, cause, ways, rels) && x.Because(why, e)
    ensures e.W? ==> AllExplained(x, cause[e := why], ways + {e.id}, rels)
    ensures e.R? ==> AllExplained(x, cause[e := why], ways, rels + {e.id})
  {
    hide Context.Because, Context.LostByDiff;
    var next := cause[e := why];
    forall w <- ways ensures Explained(x, next, W(w)) { assert Explained(x, cause, W(w)); }
    forall r <- rels ensures Explained(x, next, R(r)) { assert Explained(x, cause, R(r)); }
    assert Explained(x, next, e);
  }

  lemma StillExplained(x: Context, next: Context, cause: map<Elem, Elem>, e: Elem)
    requires Explained(x, cause, e) && x.Later(next)
    ensures Explained(next, cause, e)
  {
  }

  lemma StillLostByDiff(x: Context, next: Context)
    requires x.LostByDiff() && x.Later(next)
    ensures next.LostByDiff()
  {
  }

  lemma AllStillExplained(x: Context, next: Context, cause: map<Elem, Elem>, ways: set<int>, rels: set<int>)
    requires AllExplained(x, cause, ways, rels) && x.Later(next)
    ensures AllExplained(next, cause, ways, rels)
  {
    hide Explained;
    StillLostByDiff(x, next);
    forall w <- ways ensures Explained(next, cause, W(w)) { StillExplained(x, next, cause, W(w)); }
    forall r <- rels ensures Explained(next, cause, R(r)) { StillExplained(x, next, cause, R(r)); }
  }

  lemma FollowedMore(index: Indexes, ways: set<int>, rels: set<int>, members: set<int>,
                     nodeIDs: set<int>, wayIDs: set<int>, relIDs: set<int>, way: int,
                     rels': set<int>, members': set<int>)
    requires AllFollowed(index, ways, rels, members, nodeIDs, wayIDs, relIDs, {})
    requires rels <= rels' && members' <= members + {way} && Get(index.ways, way) <= rels'
    ensures AllFollowed(index, ways + {way}, rels', members', nodeIDs, wayIDs, relIDs, {})
  {
  }

  /** The references from the members of a relation to it are gone. */
  function LessRelation(index: Indexes, id: int, members: seq<Member>): (r: Indexes)
  {
    index.(ways := WithoutRefs(index.ways, MemberIds(members, WayMember), id),
           coordsRel := WithoutRefs(index.coordsRel, MemberIds(members, NodeMember), id))
  }

  /** Just the references from ways and nodes that are members are gone. */
  lemma LessRelationIs(index: Indexes, id: int, members: seq<Member>, k: int, r: int)
    ensures var less := LessRelation(index, id, members);
      && less.coords == index.coords
      && (r in Get(less.ways, k) <==> r in Get(index.ways, k) && !(r == id && Member(WayMember, k) in members))
      && (r in Get(less.coordsRel, k) <==>
          r in Get(index.coordsRel, k) && !(r == id && Member(NodeMember, k) in members))
  {
  }

  lemma LessOneMore(index: Indexes, id: int, members: seq<Member>, i: nat)
    requires i < |members|
    ensures var before, after := LessRelation(index, id, members[..i]), LessRelation(index, id, members[..i + 1]);
      after == match members[i].kind
        case WayMember => before.(ways := WithoutRef(before.ways, members[i].id, id))
        case NodeMember => before.(coordsRel := WithoutRef(before.coordsRel, members[i].id, id))
        case RelationMember => before
  {
    assert members[..i + 1][..i] == members[..i];
    SnocRefs(index.ways, MemberIds(members[..i], WayMember), members[i].id, id);
    SnocRefs(index.coordsRel, MemberIds(members[..i], NodeMember), members[i].id, id);
  }

  lemma SnocRefs(ix: Index, keys: seq<int>, k: int, ref: int)
    ensures WithoutRefs(ix, keys + [k], ref) == WithoutRef(WithoutRefs(ix, keys, ref), k, ref)
    ensures keys + [] == keys
  {
    assert (keys + [k])[..|keys|] == keys;
  }

  lemma LessRelationRefs(index: Indexes, id: int, members: seq<Member>)
    ensures var r := LessRelation(index, id, members);
      r.coords == index.coords && LessRef(r.ways, index.ways, id) && LessRef(r.coordsRel, index.coordsRel, id)
  {
  }

  lemma LessOfRelation(x: Context, next: Context, id: int)
    requires next == x.(index := next.index) && next.index.coords == x.index.coords && x.InDiff(R(id))
    requires LessRef(next.index.ways, x.index.ways, id) && LessRef(next.index.coordsRel, x.index.coordsRel, id)
    ensures x.Later(next)
  {
  }

  lemma LessOfWay(x: Context, next: Context, id: int)
    requires next == x.(index := x.index.(coords := next.index.coords)) && x.InDiff(W(id))
    requires LessRef(next.index.coords, x.index.coords, id)
    ensures x.Later(next)
  {
  }

  lemma MoreMembers(x: Context, next: Context)
    requires next == x.(members := next.members) && x.members <= next.members
    ensures x.Later(next)
  {
  }

  /** The references of an element that is in the diff or a member of a relation are reasons. */
  lemma MembersOf(x: Context, cause: map<Elem, Elem>, ways: set<int>, rels: set<int>, way: int)
    requires AllExplained(x, cause, ways, rels) && (Get(x.index.ways, way) != {} ==> way in x.members)
    ensures forall r <- Get(x.index.ways, way) :: x.Because(W(way), R(r))
  {
  }

  lemma WayDependers(x: Context, cause: map<Elem, Elem>, ways: set<int>, rels: set<int>, way: int)
    requires AllExplained(x, cause, ways, rels) && W(way) in x.changed
    ensures forall r <- Get(x.index.ways, way) :: x.Because(W(way), R(r))
  {
  }

  lemma DependentWay(x: Context, cause: map<Elem, Elem>, ways: set<int>, rels: set<int>, n: int, way: int)
    requires AllExplained(x, cause, ways, rels) && N(n) in x.changed && way in Get(x.index.coords, n)
    ensures x.Because(N(n), W(way))
  {
  }

  lemma NodeDependers(x: Context, cause: map<Elem, Elem>, ways: set<int>, rels: set<int>, n: int)
    requires AllExplained(x, cause, ways, rels) && N(n) in x.changed
    ensures forall r <- Get(x.index.coordsRel, n) :: x.Because(N(n), R(r))
  {
  }

  lemma ExplainedInDiff(x: Context, cause: map<Elem, Elem>, ways: set<int>, rels: set<int>, e: Elem)
    requires AllExplained(x, cause, ways, rels) && x.InDiff(e)
    ensures e.W? ==> AllExplained(x, cause, ways + {e.id}, rels)
    ensures e.R? ==> AllExplained(x, cause, ways, rels + {e.id})
  {
  }

  lemma GoneCache(c: Config, cache: Caches, rows: set<Row>, ways: set<int>, rels: set<int>, nodes: set<int>,
                  e: Elem, next: Caches)
    requires AllGone(c, cache, rows, ways, rels, nodes) && NoRows(c, rows, e) && GoodCache(next)
    requires forall x :: x != e ==> CachedTables(c, next, x) == CachedTables(c, cache, x)
    ensures AllGone(c, next, rows, ways, rels, nodes)
  {
    hide RowsOk, NoRows, GoodCache, SeparateTables;
    CacheChanged(c, cache, rows, e, next);
  }

  // Queues

  ghost function Dependents(ix: Index, keys: set<int>): (r: set<int>)
  {
    set k, v | k in keys && v in Get(ix, k) :: v
  }

  lemma DependentsOne(ix: Index, keys: set<int>, k: int)
    ensures Dependents(ix, keys + {k}) == Dependents(ix, keys) + Get(ix, k)
  {
    var more := Dependents(ix, keys + {k});
    forall v | v in Get(ix, k) ensures v in more { assert k in keys + {k}; }
    forall v | v in Dependents(ix, keys) ensures v in more {
      var j :| j in keys && v in Get(ix, j);
      assert j in keys + {k};
    }
  }

  predicate InQueue(e: Elem, nodeIDs: set<int>, wayIDs: set<int>, relIDs: set<int>)
  {
    match e
    case N(n) => n in nodeIDs
    case W(w) => w in wayIDs
    case R(r) => r in relIDs
  }
}
