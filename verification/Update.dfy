/** A diff update: phase one removes changed elements and what depends on them from the database, phase two
    inserts again. The caches, the indexes and the database are values here. */
module Update {
  import opened GoInts
  import opened UpdateRows
  import opened UpdateReasons
  import opened UpdateVersions

  class Updater {
    const c: Config
    const limiter: Limiter

    var cache: Caches
    var index: Indexes
    var rows: set<Row>

    var deletedWays: set<int>
    var deletedRelations: set<int>
    var deletedMembers: set<int>

    var nodeIDs: set<int>
    var wayIDs: set<int>
    var relIDs: set<int>

    // The diff so far: what was created or modified, and what was deleted
    ghost var changed: set<Elem>
    ghost var removed: set<Elem>

    // The nodes that have been deleted
    ghost var deletedNodes: set<int>

    // Why an element was deleted that is not in the diff: the node or way it depends on
    ghost var cause: map<Elem, Elem>

    // The references and the rows at the beginning
    ghost const start: Indexes
    ghost const startRows: set<Row>

    constructor (c: Config, limiter: Limiter, cache: Caches, index: Indexes, rows: set<Row>)
      ensures this.c == c && this.limiter == limiter && this.cache == cache && this.index == index && this.rows == rows
      ensures deletedWays == deletedRelations == deletedMembers == deletedNodes == nodeIDs == wayIDs == relIDs == {}
      ensures changed == removed == {} && cause == map[] && start == index && startRows == rows
    {
      this.c, this.limiter, this.cache, this.index, this.rows := c, limiter, cache, index, rows;
      deletedWays, deletedRelations, deletedMembers, nodeIDs, wayIDs, relIDs := {}, {}, {}, {}, {}, {};
      changed, removed, cause, deletedNodes, start, startRows := {}, {}, map[], {}, index, rows;
    }

    /** Exactly the rows of deleted elements are gone, and those that are left belong to cached elements. */
    ghost predicate Gone()
      reads this
    {
      && AllGone(c, cache, rows, deletedWays, deletedRelations, nodeIDs)
      && rows == Remaining(c, startRows, deletedNodes, deletedWays, deletedRelations)
    }

    ghost predicate Followed(but: set<int>)
      reads this
    {
      AllFollowed(index, deletedWays, deletedRelations, deletedMembers, nodeIDs, wayIDs, relIDs, but)
    }

    ghost function Now(): (x: Context)
      reads this
    {
      Context(changed, removed, index, deletedMembers, start)
    }

    ghost predicate Reasoned()
      reads this
    {
      AllExplained(Now(), cause, deletedWays, deletedRelations)
    }

    // Deleting one element

    /** `deleteRelation`: all rows of the relation are deleted and no others, and on demand the references from its
        members to it. */
    method DeleteRelation(id: int, deleteRefs: bool)
      requires RowsOk(c, cache, rows) && SeparateTables(c) && GoodCache(cache)
      modifies `rows, `deletedRelations, `index
      ensures rows == Without(c, old(rows), R(id)) && RowsOk(c, cache, rows) && NoRows(c, rows, R(id))
      ensures deletedRelations == old(deletedRelations) + {id}
      ensures index ==
        if deleteRefs && id in cache.rels then LessRelation(old(index), id, cache.rels[id].members) else old(index)
    {
      hide RowsOk, NoRows, SeparateTables, GoodCache, Without, DbId;
      deletedRelations := deletedRelations + {id};
      DeletedAll(c, cache, rows, R(id), Deleted(rows, DbId(c, R(id)), CachedTables(c, cache, R(id))));
      if id !in cache.rels {
        assert Deleted(rows, DbId(c, R(id)), {}) == rows;
        return;
      }
      var elem := cache.rels[id];
      rows := Deleted(rows, DbId(c, R(id)), c.matchRelPolygon(elem));
      rows := Deleted(rows, DbId(c, R(id)), c.matchRelation(elem));
      rows := Deleted(rows, DbId(c, R(id)), c.matchRelMember(elem));
      assert rows == Deleted(old(rows), DbId(c, R(id)), RelTables(c, elem));
      if deleteRefs {
        DeleteMemberRefs(id, elem.members);
      }
    }

    method DeleteMemberRefs(id: int, members: seq<Member>)
      modifies `index
      ensures index == LessRelation(old(index), id, members)
    {
      ghost var before := index;
      assert members[..0] == [];
      for i := 0 to |members|
        invariant index == LessRelation(before, id, members[..i])
      {
        var m := members[i];
        LessOneMore(before, id, members, i);
        if m.kind.WayMember? {
          index := index.(ways := WithoutRef(index.ways, m.id, id));
        } else if m.kind.NodeMember? {
          index := index.(coordsRel := WithoutRef(index.coordsRel, m.id, id));
        }
      }
      assert members[..|members|] == members;
    }

    /** `deleteWay`: all rows of the way are deleted and no others, and on demand the references from its nodes to it,
        if it matches any table. */
    method DeleteWay(id: int, deleteRefs: bool)
      requires RowsOk(c, cache, rows) && SeparateTables(c) && GoodCache(cache)
      modifies `rows, `deletedWays, `index
      ensures rows == Without(c, old(rows), W(id)) && RowsOk(c, cache, rows) && NoRows(c, rows, W(id))
      ensures deletedWays == old(deletedWays) + {id}
      ensures index ==
        if deleteRefs && CachedTables(c, cache, W(id)) != {} then
          old(index).(coords := WithoutRefs(old(index).coords, cache.ways[id].refs, id))
        else old(index)
    {
      hide RowsOk, NoRows, SeparateTables, GoodCache, Without, DbId;
      deletedWays := deletedWays + {id};
      DeletedAll(c, cache, rows, W(id), Deleted(rows, DbId(c, W(id)), CachedTables(c, cache, W(id))));
      if id !in cache.ways {
        assert Deleted(rows, DbId(c, W(id)), {}) == rows;
        return;
      }
      var elem := cache.ways[id];
      var deleted := c.matchPolygon(elem) != {} || c.matchLine(elem) != {};
      rows := Deleted(rows, DbId(c, W(id)), c.matchPolygon(elem));
      rows := Deleted(rows, DbId(c, W(id)), c.matchLine(elem));
      assert rows == Deleted(old(rows), DbId(c, W(id)), WayTables(c, elem));
      if deleted && deleteRefs {
        assert elem.refs[..0] == [];
        for i := 0 to |elem.refs|
          invariant index == old(index).(coords := WithoutRefs(old(index).coords, elem.refs[..i], id))
          modifies `index
        {
          assert elem.refs[..i + 1][..i] == elem.refs[..i];
          index := index.(coords := WithoutRef(index.coords, elem.refs[i], id));
        }
        assert elem.refs[..|elem.refs|] == elem.refs;
      }
    }

    /** `deleteNode`: all rows of the node are deleted and no others. */
    method DeleteNode(id: int)
      requires RowsOk(c, cache, rows) && SeparateTables(c) && GoodCache(cache)
      modifies `rows, `deletedNodes
      ensures rows == Without(c, old(rows), N(id)) && RowsOk(c, cache, rows) && NoRows(c, rows, N(id))
      ensures deletedNodes == old(deletedNodes) + {id}
    {
      hide RowsOk, NoRows, SeparateTables, GoodCache, Without, DbId;
      deletedNodes := deletedNodes + {id};
      DeletedAll(c, cache, rows, N(id), Deleted(rows, DbId(c, N(id)), CachedTables(c, cache, N(id))));
      if id in cache.nodes {
        rows := Deleted(rows, DbId(c, N(id)), c.matchNode(cache.nodes[id]));
      } else {
        assert Deleted(rows, DbId(c, N(id)), {}) == rows;
      }
    }

    // Deleting what depends on it

    /** The relations that depend on an element. */
    method DeleteRelations(dependers: set<int>, ghost why: Elem)
      requires Gone() && Reasoned() && forall r <- dependers :: Now().Because(why, R(r))
      modifies `rows, `deletedRelations, `index, `cause
      ensures Gone() && Reasoned() && index == old(index) && rows <= old(rows)
      ensures deletedRelations == old(deletedRelations) + dependers
    {
      hide AllGone, AllExplained, Context.Because, Remaining;
      var todo := dependers;
      while todo != {}
        invariant Gone() && Reasoned() && index == old(index) && rows <= old(rows) && todo <= dependers
        invariant deletedRelations == old(deletedRelations) + (dependers - todo)
        decreases |todo|
      {
        var rel := AnyOf(todo);
        todo := todo - {rel};
        if rel !in deletedRelations {
          DeleteDependent(rel, why);
        }
      }
    }

    method DeleteDependent(rel: int, ghost why: Elem)
      requires Gone() && Reasoned() && Now().Because(why, R(rel))
      modifies `rows, `deletedRelations, `index, `cause
      ensures Gone() && Reasoned() && index == old(index) && rows <= old(rows)
      ensures deletedRelations == old(deletedRelations) + {rel}
    {
      hide RowsOk, NoRows, AllExplained, Context.Because, Remaining, SeparateTables, GoodCache;
      ExplainedOne(Now(), cause, deletedWays, deletedRelations, R(rel), why);
      cause := cause[R(rel) := why];
      DeleteRelation(rel, false);
      RemainingLess(c, startRows, deletedNodes, deletedWays, old(deletedRelations), R(rel));
      GoneFromLess(c, cache, old(rows), rows, deletedWays, old(deletedRelations), nodeIDs);
    }

    /** A way that depends on a changed node, and the relations that depend on the way. */
    method DeleteDependentWay(way: int, ghost n: int)
      requires Gone() && Reasoned() && Followed({}) && Now().Because(N(n), W(way))
      modifies `rows, `deletedWays, `deletedRelations, `deletedMembers, `index, `cause
      ensures Gone() && Reasoned() && Followed({}) && index == old(index) && rows <= old(rows)
      ensures deletedWays == old(deletedWays) + {way} && old(deletedRelations) <= deletedRelations
      ensures old(deletedMembers) <= deletedMembers
    {
      hide AllGone, AllExplained, Context.Because, Context.Later, AllFollowed, Remaining;
      DeleteOneWay(way, n);
      var dependers := Get(index.ways, way);
      ghost var before := Now();
      if |dependers| >= 1 {
        deletedMembers := deletedMembers + {way};
      }
      MoreMembers(before, Now());
      AllStillExplained(before, Now(), cause, deletedWays, deletedRelations);
      MembersOf(Now(), cause, deletedWays, deletedRelations, way);
      DeleteRelations(dependers, W(way));
      FollowedMore(index, old(deletedWays), old(deletedRelations), old(deletedMembers), nodeIDs, wayIDs, relIDs,
                   way, deletedRelations, deletedMembers);
    }

    method DeleteOneWay(way: int, ghost n: int)
      requires Gone() && Reasoned() && Now().Because(N(n), W(way))
      modifies `rows, `deletedWays, `index, `cause
      ensures Gone() && Reasoned() && index == old(index) && rows <= old(rows)
      ensures deletedWays == old(deletedWays) + {way}
    {
      hide RowsOk, NoRows, AllExplained, Context.Because, Remaining, SeparateTables, GoodCache;
      ExplainedOne(Now(), cause, deletedWays, deletedRelations, W(way), N(n));
      cause := cause[W(way) := N(n)];
      DeleteWay(way, false);
      RemainingLess(c, startRows, deletedNodes, old(deletedWays), deletedRelations, W(way));
      GoneFromLess(c, cache, old(rows), rows, old(deletedWays), deletedRelations, nodeIDs);
    }

    method DeleteDependentWays(dependers: set<int>, ghost n: int)
      requires Gone() && Reasoned() && Followed({}) && N(n) in changed && dependers == Get(index.coords, n)
      modifies `rows, `deletedWays, `deletedRelations, `deletedMembers, `index, `cause
      ensures Gone() && Reasoned() && Followed({}) && index == old(index) && rows <= old(rows)
      ensures deletedWays == old(deletedWays) + dependers && old(deletedRelations) <= deletedRelations
      ensures old(deletedMembers) <= deletedMembers
    {
      hide AllGone, AllExplained, AllFollowed, Context.Because, Remaining;
      var todo := dependers;
      while todo != {}
        invariant Gone() && Reasoned() && Followed({}) && index == old(index) && rows <= old(rows) && todo <= dependers
        invariant deletedWays == old(deletedWays) + (dependers - todo) && old(deletedRelations) <= deletedRelations
        invariant old(deletedMembers) <= deletedMembers
        decreases |todo|
      {
        var way := AnyOf(todo);
        todo := todo - {way};
        if way !in deletedWays {
          DependentWay(Now(), cause, deletedWays, deletedRelations, n, way);
          DeleteDependentWay(way, n);
        }
      }
    }

    // Deleting the element of a diff

    /** The relation of a diff. */
    method DeleteRel(id: int)
      requires Gone() && Reasoned() && Followed({}) && Now().InDiff(R(id))
      modifies `rows, `deletedRelations, `index
      ensures Gone() && Reasoned() && Followed({}) && deletedRelations == old(deletedRelations) + {id}
      ensures index == if id in cache.rels then LessRelation(old(index), id, cache.rels[id].members) else old(index)
    {
      hide RowsOk, NoRows, AllExplained, Context.Because, Context.Later, Remaining, SeparateTables, GoodCache,
        LessRelation;
      ghost var before := Now();
      DeleteRelation(id, true);
      RemainingLess(c, startRows, deletedNodes, deletedWays, old(deletedRelations), R(id));
      GoneFromLess(c, cache, old(rows), rows, deletedWays, old(deletedRelations), nodeIDs);
      if id in cache.rels { LessRelationRefs(old(index), id, cache.rels[id].members); }
      LessOfRelation(before, Now(), id);
      AllStillExplained(before, Now(), cause, deletedWays, old(deletedRelations));
      ExplainedInDiff(Now(), cause, deletedWays, old(deletedRelations), R(id));
    }

    /** The way of a diff. Relations that depend on it are deleted unless the way is to be deleted itself. */
    method DeleteWayAnd(id: int, dependers: bool)
      requires Gone() && Reasoned() && Followed({}) && Now().InDiff(W(id)) && (dependers ==> W(id) in changed)
      modifies `rows, `deletedWays, `deletedRelations, `index, `cause
      ensures Gone() && Reasoned() && Followed(if dependers then {} else {id}) && deletedWays == old(deletedWays) + {id}
      ensures deletedRelations == old(deletedRelations) + if dependers then Get(index.ways, id) else {}
      ensures index.ways == old(index).ways
    {
      hide AllGone, AllExplained, Context.Because, Context.Later, Remaining;
      DeleteDirectWay(id);
      if dependers {
        WayDependers(Now(), cause, deletedWays, deletedRelations, id);
        DeleteRelations(Get(index.ways, id), W(id));
      }
    }

    method DeleteDirectWay(id: int)
      requires Gone() && Reasoned() && Followed({}) && Now().InDiff(W(id))
      modifies `rows, `deletedWays, `index
      ensures Gone() && Reasoned() && Followed({id}) && deletedWays == old(deletedWays) + {id}
      ensures index.ways == old(index).ways && index.coordsRel == old(index).coordsRel
    {
      hide RowsOk, NoRows, AllExplained, Context.Because, Context.Later, Remaining, SeparateTables, GoodCache;
      ghost var before := Now();
      DeleteWay(id, true);
      RemainingLess(c, startRows, deletedNodes, old(deletedWays), deletedRelations, W(id));
      GoneFromLess(c, cache, old(rows), rows, old(deletedWays), deletedRelations, nodeIDs);
      LessOfWay(before, Now(), id);
      AllStillExplained(before, Now(), cause, old(deletedWays), deletedRelations);
      ExplainedInDiff(Now(), cause, old(deletedWays), deletedRelations, W(id));
    }

    /** The node of a diff. */
    method DeleteNodeAnd(id: int, dependers: bool)
      requires Gone() && Reasoned() && Followed({}) && (if dependers then N(id) in changed else N(id) in removed)
      modifies `rows, `deletedNodes, `deletedWays, `deletedRelations, `deletedMembers, `index, `cause
      ensures Gone() && Reasoned() && Followed({}) && NoRows(c, rows, N(id)) && deletedNodes == old(deletedNodes) + {id}
      ensures Get(index.coords, id) <= deletedWays
      ensures dependers ==> Get(index.coordsRel, id) <= deletedRelations
      ensures index == if dependers then old(index) else old(index).(coords := WithoutKey(old(index).coords, id))
    {
      hide RowsOk, NoRows, AllExplained, Context.Because, Remaining, SeparateTables, GoodCache;
      DeleteNode(id);
      RemainingLess(c, startRows, old(deletedNodes), deletedWays, deletedRelations, N(id));
      GoneFromLess(c, cache, old(rows), rows, deletedWays, deletedRelations, nodeIDs);
      ghost var rest := rows;
      if dependers {
        DeleteDependentWays(Get(index.coords, id), id);
        NodeDependers(Now(), cause, deletedWays, deletedRelations, id);
        DeleteRelations(Get(index.coordsRel, id), N(id));
      } else {
        ghost var before := Now();
        index := index.(coords := WithoutKey(index.coords, id));
        AllStillExplained(before, Now(), cause, deletedWays, deletedRelations);
      }
      NoneOfLess(c, rest, rows, N(id));
    }

    // Phase one

    /** What all of phase one keeps. */
    ghost predicate Inv()
      reads this
    {
      Gone() && Reasoned() && Followed({}) && Tidy(changed, removed, cache, deletedNodes)
    }

    /** Another element of the diff. */
    ghost method Note(e: Elem, action: Action)
      requires Reasoned()
      modifies `changed, `removed
      ensures Reasoned()
      ensures changed == old(changed) + if action.Delete? then {} else {e}
      ensures removed == old(removed) + if action.Delete? then {e} else {}
    {
      hide AllExplained, Context.Because;
      var before := Now();
      if action.Delete? { removed := removed + {e}; } else { changed := changed + {e}; }
      AllStillExplained(before, Now(), cause, deletedWays, deletedRelations);
    }

    method ProcessRelation(action: Action, id: int, rel: RelElem)
      requires Inv() && OsmId(id)
      modifies `cache, `index, `rows, `deletedRelations, `relIDs, `changed, `removed
      ensures Inv()
      ensures changed == old(changed) + if action.Delete? then {} else {R(id)}
      ensures removed == old(removed) + if action.Delete? then {R(id)} else {}
      ensures cache == AfterDiff(old(cache), limiter, Diff(action, RelChange(id, rel)))
      ensures relIDs == old(relIDs) +
        if Accepted(old(cache), limiter, Diff(action, RelChange(id, rel))) then {id} else {}
    {
      hide AllGone, AllExplained, AllFollowed, Remaining, AfterDiff, Accepted, OsmId, Tidy;
      TidyAfter(changed, removed, cache, deletedNodes, limiter, Diff(action, RelChange(id, rel)));
      Note(R(id), action);
      DeleteRel(id);
      GoneElem(c, cache, rows, deletedWays, deletedRelations, nodeIDs, R(id));
      Recache(Diff(action, RelChange(id, rel)));
      var queue := CacheRelation(action, id, rel);
      if queue {
        QueueRel(id);
      }
    }

    method CacheRelation(action: Action, id: int, rel: RelElem) returns (queue: bool)
      modifies `cache
      ensures cache == AfterDiff(old(cache), limiter, Diff(action, RelChange(id, rel)))
      ensures queue == Accepted(old(cache), limiter, Diff(action, RelChange(id, rel)))
    {
      hide FirstMemberIsCached;
      queue := false;
      if action.Delete? {
        cache := cache.(rels := cache.rels - {id});
        return;
      }
      var cached := FirstMemberCached(cache, rel.members);
      if cached {
        if id != SKIP {
          cache := cache.(rels := cache.rels[id := rel]);
        }
        queue := true;
      }
    }

    method ProcessWay(action: Action, id: int, way: WayElem)
      requires Inv() && OsmId(id)
      modifies `cache, `index, `rows, `deletedWays, `deletedRelations, `wayIDs, `changed, `removed, `cause
      ensures Inv()
      ensures changed == old(changed) + if action.Delete? then {} else {W(id)}
      ensures removed == old(removed) + if action.Delete? then {W(id)} else {}
      ensures cache == AfterDiff(old(cache), limiter, Diff(action, WayChange(id, way)))
      ensures wayIDs == old(wayIDs) +
        if Accepted(old(cache), limiter, Diff(action, WayChange(id, way))) then {id} else {}
    {
      hide AllGone, AllExplained, AllFollowed, Remaining, AfterDiff, Accepted, OsmId, Tidy;
      TidyAfter(changed, removed, cache, deletedNodes, limiter, Diff(action, WayChange(id, way)));
      Note(W(id), action);
      DeleteWayAnd(id, !action.Delete?);
      GoneElem(c, cache, rows, deletedWays, deletedRelations, nodeIDs, W(id));
      Recache(Diff(action, WayChange(id, way)));
      var queue := CacheWay(action, id, way);
      if action.Delete? {
        ForgetWay(id);
      }
      if queue {
        QueueWay(id);
      }
    }

    method CacheWay(action: Action, id: int, way: WayElem) returns (queue: bool)
      modifies `cache
      ensures cache == AfterDiff(old(cache), limiter, Diff(action, WayChange(id, way)))
      ensures queue == Accepted(old(cache), limiter, Diff(action, WayChange(id, way)))
    {
      hide FirstRefIsCached;
      queue := false;
      if action.Delete? {
        cache := cache.(ways := cache.ways - {id});
      } else if FirstRefIsCached(cache, way.refs) {
        if id != SKIP {
          cache := cache.(ways := cache.ways[id := way]);
        }
        queue := true;
      }
    }

    method ProcessNode(action: Action, id: int, tags: Option<Tags>, long: real, lat: real)
      requires Inv() && OsmId(id)
      modifies `cache, `index, `rows, `deletedNodes, `deletedWays, `deletedRelations, `deletedMembers, `nodeIDs,
               `changed, `removed, `cause
      ensures Inv()
      ensures changed == old(changed) + if action.Delete? then {} else {N(id)}
      ensures removed == old(removed) + if action.Delete? then {N(id)} else {}
      ensures cache == AfterDiff(old(cache), limiter, Diff(action, NodeChange(id, tags, long, lat)))
      ensures nodeIDs ==
        old(nodeIDs) + if Accepted(old(cache), limiter, Diff(action, NodeChange(id, tags, long, lat))) then {id} else {}
    {
      hide AllGone, AllExplained, AllFollowed, NoRows, Remaining, AfterDiff, Accepted, OsmId, Tidy;
      TidyAfter(changed, removed, cache, deletedNodes, limiter, Diff(action, NodeChange(id, tags, long, lat)));
      NotAccepted(cache, limiter, Diff(action, NodeChange(id, tags, long, lat)));
      Note(N(id), action);
      DeleteNodeAnd(id, !action.Delete?);
      Recache(Diff(action, NodeChange(id, tags, long, lat)));
      var queue := CacheNode(action, id, tags, long, lat);
      if queue {
        QueueNode(id);
      }
    }

    method CacheNode(action: Action, id: int, tags: Option<Tags>, long: real, lat: real) returns (queue: bool)
      modifies `cache
      ensures cache == AfterDiff(old(cache), limiter, Diff(action, NodeChange(id, tags, long, lat)))
      ensures queue == Accepted(old(cache), limiter, Diff(action, NodeChange(id, tags, long, lat)))
    {
      queue := false;
      if action.Delete? {
        cache := cache.(nodes := cache.nodes - {id});
        cache := cache.(coords := cache.coords - {id});
      }
      if action.Modify? && tags == None {
        cache := cache.(nodes := cache.nodes - {id});
      }
      if !action.Delete? && (limiter == None || limiter.value(long, lat)) {
        if id != SKIP {
          if tags != None {
            cache := cache.(nodes := cache.nodes[id := NodeElem(tags.value, long, lat)]);
          }
          cache := cache.(coords := cache.coords[id := Coord(long, lat)]);
        }
        queue := true;
      }
    }

    /** The rows are right for the next state of the caches too, there being none of the element that changes. */
    lemma Recache(d: Diff)
      requires Gone() && OsmId(ElemOf(d.change).id) && NoRows(c, rows, ElemOf(d.change))
      ensures AllGone(c, AfterDiff(cache, limiter, d), rows, deletedWays, deletedRelations, nodeIDs)
    {
      hide RowsOk, NoRows, SeparateTables, GoodCache, AfterDiff, OsmId;
      GoodAfter(cache, limiter, d);
      forall x | x != ElemOf(d.change)
        ensures CachedTables(c, AfterDiff(cache, limiter, d), x) == CachedTables(c, cache, x)
      {
        OthersAfter(c, cache, limiter, d, x);
      }
      GoneCache(c, cache, rows, deletedWays, deletedRelations, nodeIDs, ElemOf(d.change), AfterDiff(cache, limiter, d));
    }

    method QueueRel(id: int)
      requires Followed({}) && id in deletedRelations
      modifies `relIDs
      ensures Followed({}) && relIDs == old(relIDs) + {id}
    {
      relIDs := relIDs + {id};
    }

    method QueueWay(id: int)
      requires Followed({}) && id in deletedWays
      modifies `wayIDs
      ensures Followed({}) && wayIDs == old(wayIDs) + {id}
    {
      wayIDs := wayIDs + {id};
    }

    method QueueNode(id: int)
      requires Gone() && Followed({}) && NoRows(c, rows, N(id))
      requires Get(index.coords, id) <= deletedWays && Get(index.coordsRel, id) <= deletedRelations
      modifies `nodeIDs
      ensures Gone() && Followed({}) && nodeIDs == old(nodeIDs) + {id}
    {
      hide RowsOk, NoRows, SeparateTables, GoodCache, Remaining;
      nodeIDs := nodeIDs + {id};
    }

    /** The references to the relations of a way are deleted. */
    method ForgetWay(id: int)
      requires Reasoned() && Followed({id}) && W(id) in removed
      modifies `index
      ensures Reasoned() && Followed({}) && index == old(index).(ways := WithoutKey(old(index).ways, id))
    {
      hide AllExplained, Context.Because;
      ghost var before := Now();
      index := index.(ways := WithoutKey(index.ways, id));
      AllStillExplained(before, Now(), cause, deletedWays, deletedRelations);
    }

    method Process(d: Diff)
      requires Inv() && OsmId(ElemOf(d.change).id)
      modifies this
      ensures Inv()
      ensures changed == old(changed) + if d.action.Delete? then {} else {ElemOf(d.change)}
      ensures removed == old(removed) + if d.action.Delete? then {ElemOf(d.change)} else {}
      ensures cache == AfterDiff(old(cache), limiter, d)
      ensures forall e :: InQueue(e, nodeIDs, wayIDs, relIDs) <==>
        || InQueue(e, old(nodeIDs), old(wayIDs), old(relIDs))
        || (Accepted(old(cache), limiter, d) && e == ElemOf(d.change))
    {
      hide AllGone, AllExplained, AllFollowed, Remaining, OsmId, AfterDiff, Accepted, Tidy;
      match d.change {
        case NodeChange(id, tags, long, lat) => ProcessNode(d.action, id, tags, long, lat);
        case WayChange(id, way) => ProcessWay(d.action, id, way);
        case RelChange(id, rel) => ProcessRelation(d.action, id, rel);
      }
    }

    /** The loop over the diff. */
    method PhaseOne(diffs: seq<Diff>)
      requires Inv() && changed == removed == {} && nodeIDs == wayIDs == relIDs == {} && GoodDiffs(diffs)
      modifies this
      ensures Inv() && changed == Changed(diffs) && removed == Removed(diffs)
      ensures cache == AfterDiffs(old(cache), limiter, diffs)
      ensures forall e :: InQueue(e, nodeIDs, wayIDs, relIDs) <==> e in Direct(old(cache), limiter, diffs)
    {
      hide AllGone, AllExplained, AllFollowed, Remaining, OsmId, AfterDiff, Accepted, Tidy;
      assert diffs[..0] == [];
      for i := 0 to |diffs|
        invariant Inv() && changed == Changed(diffs[..i]) && removed == Removed(diffs[..i])
        invariant cache == AfterDiffs(old(cache), limiter, diffs[..i])
        invariant forall e :: InQueue(e, nodeIDs, wayIDs, relIDs) <==> e in Direct(old(cache), limiter, diffs[..i])
      {
        Process(diffs[i]);
        assert diffs[..i + 1][..i] == diffs[..i];
      }
      assert diffs[..|diffs|] == diffs;
    }

    // Phase two

    /** Between the phases: what depends on changed elements is queued too, and nothing else. */
    method Mark()
      requires Inv()
      modifies `wayIDs, `relIDs
      ensures wayIDs == old(wayIDs) + deletedMembers + Dependents(index.coords, nodeIDs) <= deletedWays
      ensures relIDs == old(relIDs) + Dependents(index.coordsRel, nodeIDs) + Dependents(index.ways, wayIDs)
      ensures relIDs <= deletedRelations
    {
      hide AllGone, AllExplained, Dependents, Remaining;
      wayIDs := wayIDs + deletedMembers;
      var ways := MarkFrom(index.coords, nodeIDs, deletedWays);
      wayIDs := wayIDs + ways;
      var rels := MarkFrom(index.coordsRel, nodeIDs, deletedRelations);
      relIDs := relIDs + rels;
      rels := MarkFrom(index.ways, wayIDs, deletedRelations);
      relIDs := relIDs + rels;
    }

    /** A writer inserts a cached element: into those of the tables it matches that `written` names, since
        building a geometry or clipping it may leave nothing to insert. There must not be a row yet. */
    method Insert(e: Elem, written: Elem -> set<Table>)
      requires RowsOk(c, cache, rows) && NoRows(c, rows, e) && OsmId(e.id) && SeparateTables(c)
      modifies `rows
      ensures RowsOk(c, cache, rows)
      ensures forall row :: row in rows <==> row in old(rows) || (Owner(c, row) == e && Fits(c, cache, written, row))
    {
      hide OsmId, DbId, CachedTables, Owner;
      var tables := CachedTables(c, cache, e) * written(e);
      forall t <- tables ensures Owner(c, Row(DbId(c, e), t)) == e {
        CachedTableFor(c, cache, e, t);
        OwnerOfDbId(c, e, t);
      }
      rows := rows + set t <- tables :: Row(DbId(c, e), t);
      forall row | Owner(c, row) == e && Fits(c, cache, written, row) ensures row in rows {
        assert row == Row(DbId(c, e), row.table);
      }
    }

    /** One of the three sending loops of phase two. */
    method InsertAll(ids: set<int>, kind: Elem, written: Elem -> set<Table>)
      requires RowsOk(c, cache, rows) && SeparateTables(c)
      requires forall i <- ids :: OsmId(i) && NoRows(c, rows, As(kind, i))
      modifies `rows
      ensures RowsOk(c, cache, rows)
      ensures forall row ::
        row in rows <==> row in old(rows) || (Among(Owner(c, row), kind, ids) && Fits(c, cache, written, row))
    {
      hide RowsOk, OsmId, SeparateTables, Owner, Fits;
      var todo := ids;
      while todo != {}
        invariant todo <= ids && RowsOk(c, cache, rows) && forall i <- todo :: NoRows(c, rows, As(kind, i))
        invariant forall row ::
          row in rows <==> row in old(rows) || (Among(Owner(c, row), kind, ids - todo) && Fits(c, cache, written, row))
        decreases |todo|
      {
        var i := AnyOf(todo);
        todo := todo - {i};
        Insert(As(kind, i), written);
      }
    }

    /** The cached elements among those queued are sent to the writers. */
    method PhaseTwo(written: Elem -> set<Table>)
      requires AllGone(c, cache, rows, deletedWays, deletedRelations, nodeIDs)
      requires wayIDs <= deletedWays && relIDs <= deletedRelations
      modifies `rows
      ensures RowsOk(c, cache, rows)
      ensures forall row :: row in rows <==>
        row in old(rows) || (Sent(cache, nodeIDs, wayIDs, relIDs, Owner(c, row)) && Fits(c, cache, written, row))
    {
      hide RowsOk, OsmId, SeparateTables, Owner, Fits;
      InsertAll(relIDs * cache.rels.Keys, R(0), written);
      InsertAll(wayIDs * cache.ways.Keys, W(0), written);
      InsertAll(nodeIDs * cache.nodes.Keys, N(0), written);
    }
  }

  /** `FirstMemberIsCached`: the loop. */
  method FirstMemberCached(cache: Caches, members: seq<Member>) returns (cached: bool)
    ensures cached == FirstMemberIsCached(cache, members)
  {
    assert members[0..] == members;
    for i := 0 to |members|
      invariant FirstMemberIsCached(cache, members) == FirstMemberIsCached(cache, members[i..])
    {
      assert members[i..][1..] == members[i + 1..];
      if members[i].kind.WayMember? {
        return members[i].id in cache.ways;
      } else if members[i].kind.NodeMember? {
        return members[i].id in cache.coords;
      }
    }
    return true;
  }

  /** One of the marking loops: all that some elements lead to. */
  method MarkFrom(ix: Index, ids: set<int>, ghost bound: set<int>) returns (marked: set<int>)
    requires forall i <- ids :: Get(ix, i) <= bound
    ensures marked == Dependents(ix, ids) <= bound
  {
    hide Dependents;
    marked := {};
    var todo := ids;
    NoDependents(ix);
    assert ids - todo == {};
    while todo != {}
      invariant todo <= ids && marked == Dependents(ix, ids - todo) <= bound
      decreases |todo|
    {
      var i := AnyOf(todo);
      DependentsOne(ix, ids - todo, i);
      assert ids - (todo - {i}) == ids - todo + {i};
      marked := marked + Get(ix, i);
      todo := todo - {i};
    }
    assert ids - {} == ids;
  }

  lemma NoDependents(ix: Index)
    ensures Dependents(ix, {}) == {}
  {
  }

  /** The element of the same kind with another id. */
  function As(kind: Elem, id: int): (e: Elem)
  {
    match kind
    case N(_) => N(id)
    case W(_) => W(id)
    case R(_) => R(id)
  }

  /** One of some elements of a kind. */
  predicate Among(e: Elem, kind: Elem, ids: set<int>)
  {
    e == As(kind, e.id) && e.id in ids
  }

  /** A row that a writer makes of the cached element. */
  predicate Fits(c: Config, cache: Caches, written: Elem -> set<Table>, row: Row)
  {
    row.table in CachedTables(c, cache, Owner(c, row)) && row.table in written(Owner(c, row))
  }

  /** The element is queued and still cached. */
  predicate Sent(cache: Caches, nodeIDs: set<int>, wayIDs: set<int>, relIDs: set<int>, e: Elem)
  {
    match e
    case N(n) => n in nodeIDs && n in cache.nodes
    case W(w) => w in wayIDs && w in cache.ways
    case R(r) => r in relIDs && r in cache.rels
  }

  // A whole update

  /** `emptied` are the rows between the two phases. */
  datatype Outcome = Outcome(cache: Caches, emptied: set<Row>, rows: set<Row>, deletedWays: set<int>,
                             deletedRelations: set<int>,
                             nodeIDs: set<int>, wayIDs: set<int>, relIDs: set<int>)

  /** The element is sent to a writer. */
  predicate Queued(o: Outcome, e: Elem)
  {
    Sent(o.cache, o.nodeIDs, o.wayIDs, o.relIDs, e)
  }

  /** The element is a node of the diff, or a way or relation that was deleted. */
  predicate Taken(diffs: seq<Diff>, o: Outcome, e: Elem)
  {
    match e
    case N(_) => e in Changed(diffs) || e in Removed(diffs)
    case W(w) => w in o.deletedWays
    case R(r) => r in o.deletedRelations
  }

  /** The element is in the diff, or it depends on a changed element or on a way that was deleted. */
  ghost predicate HasReason(diffs: seq<Diff>, index: Indexes, o: Outcome, e: Elem)
  {
    || e in Changed(diffs) || e in Removed(diffs)
    || match e
       case N(_) => false
       case W(w) => exists n :: N(n) in Changed(diffs) && w in Get(index.coords, n)
       case R(r) =>
         || (exists n :: N(n) in Changed(diffs) && r in Get(index.coordsRel, n))
         || (exists w :: (W(w) in Changed(diffs) || w in o.deletedWays) && r in Get(index.ways, w))
  }

  ghost predicate AllHaveReasons(diffs: seq<Diff>, index: Indexes, o: Outcome)
  {
    && (forall w <- o.deletedWays :: HasReason(diffs, index, o, W(w)))
    && (forall r <- o.deletedRelations :: HasReason(diffs, index, o, R(r)))
  }

  /** No element is both changed and deleted, and relations with a deleted way are in the diff themselves. */
  ghost predicate Consistent(diffs: seq<Diff>, ways: Index)
  {
    && Changed(diffs) !! Removed(diffs)
    && forall w, r :: W(w) in Removed(diffs) && r in Get(ways, w) ==> R(r) in Changed(diffs) || R(r) in Removed(diffs)
  }

  /** What the update takes out of the database and still has in the cache is put back. */
  predicate NothingDropped(o: Outcome)
  {
    && (forall w <- o.deletedWays :: w in o.cache.ways ==> w in o.wayIDs)
    && (forall r <- o.deletedRelations :: r in o.cache.rels ==> r in o.relIDs)
  }

  /** No row of an element is there: neither by owner nor by the id it would be inserted with. */
  lemma NoSecondCopy(c: Config, rows: set<Row>, e: Elem, t: Table)
    requires NoRows(c, rows, e) && OsmId(e.id) && TableFor(c, e, t)
    ensures Row(DbId(c, e), t) !in rows
  {
    OwnerOfDbId(c, e, t);
  }

  /** The row is one of the last accepted version of an element, in a table that this version matches. */
  ghost predicate RowFrom(c: Config, cache: Caches, limiter: Limiter, diffs: seq<Diff>, written: Elem -> set<Table>,
                          row: Row)
  {
    || (exists n, v :: NodeHeld(cache, limiter, diffs, n, Some(v)) && row.id == n &&
          row.table in c.matchNode(v) && row.table in written(N(n)))
    || (exists w, v :: WayHeld(cache, limiter, diffs, w, Some(v)) && row.id == (if c.singleIDSpace then -w else w) &&
          (row.table in c.matchPolygon(v) || row.table in c.matchLine(v)) && row.table in written(W(w)))
    || (exists r, v :: RelHeld(cache, limiter, diffs, r, Some(v)) &&
          row.id == (if c.singleIDSpace then -100_000_000_000_000_000 - r else -r) &&
          (row.table in c.matchRelPolygon(v) || row.table in c.matchRelation(v) || row.table in c.matchRelMember(v)) &&
          row.table in written(R(r)))
  }

  lemma InsertedFrom(c: Config, cache: Caches, limiter: Limiter, diffs: seq<Diff>, written: Elem -> set<Table>,
                     o: Outcome, row: Row)
    requires UpToDate(cache, limiter, diffs, o.cache) && Queued(o, Owner(c, row)) && Fits(c, o.cache, written, row)
    ensures RowFrom(c, cache, limiter, diffs, written, row)
  {
    hide Owner, NodeHeld, WayHeld, RelHeld, CoordHeld;
    match Owner(c, row) {
      case N(n) => assert NodeHeld(cache, limiter, diffs, n, Opt(o.cache.nodes, n));
      case W(w) => assert WayHeld(cache, limiter, diffs, w, Opt(o.cache.ways, w));
      case R(r) => assert RelHeld(cache, limiter, diffs, r, Opt(o.cache.rels, r));
    }
  }

  /** What is queued has all rows of its version. */
  ghost predicate AllInserted(c: Config, written: Elem -> set<Table>, o: Outcome)
  {
    && (forall n, t :: n in o.nodeIDs && n in o.cache.nodes ==>
         (t in written(N(n)) * c.matchNode(o.cache.nodes[n]) ==> Row(n, t) in o.rows))
    && (forall w, t :: w in o.wayIDs && w in o.cache.ways ==>
         (t in written(W(w)) * (c.matchPolygon(o.cache.ways[w]) + c.matchLine(o.cache.ways[w])) ==>
          Row(if c.singleIDSpace then -w else w, t) in o.rows))
    && (forall r, t :: r in o.relIDs && r in o.cache.rels ==>
         var v := o.cache.rels[r];
         (t in written(R(r)) * (c.matchRelPolygon(v) + c.matchRelation(v) + c.matchRelMember(v)) ==>
          Row(if c.singleIDSpace then -100_000_000_000_000_000 - r else -r, t) in o.rows))
  }

  lemma InsertedOne(c: Config, written: Elem -> set<Table>, o: Outcome, e: Elem, t: Table)
    requires SeparateTables(c) && GoodCache(o.cache) && Queued(o, e)
    requires forall row :: Queued(o, Owner(c, row)) && Fits(c, o.cache, written, row) ==> row in o.rows
    requires t in CachedTables(c, o.cache, e) && t in written(e)
    ensures Row(DbId(c, e), t) in o.rows
  {
    hide CachedTables, Owner, DbId, SeparateTables;
    CachedTableFor(c, o.cache, e, t);
    OwnerOfDbId(c, e, t);
  }

  lemma Inserted(c: Config, written: Elem -> set<Table>, o: Outcome)
    requires SeparateTables(c) && GoodCache(o.cache)
    requires forall row :: Queued(o, Owner(c, row)) && Fits(c, o.cache, written, row) ==> row in o.rows
    ensures AllInserted(c, written, o)
  {
    forall e, t | Queued(o, e) && t in CachedTables(c, o.cache, e) && t in written(e)
      ensures Row(DbId(c, e), t) in o.rows
    {
      hide *;
      InsertedOne(c, written, o, e, t);
    }
    hide SeparateTables, GoodCache, Fits, Owner;
    forall n, t | n in o.nodeIDs && n in o.cache.nodes && t in written(N(n)) * c.matchNode(o.cache.nodes[n])
      ensures Row(n, t) in o.rows
    {
      assert Queued(o, N(n)) && t in CachedTables(c, o.cache, N(n)) && DbId(c, N(n)) == n;
    }
    forall w, t | w in o.wayIDs && w in o.cache.ways &&
                  t in written(W(w)) * (c.matchPolygon(o.cache.ways[w]) + c.matchLine(o.cache.ways[w]))
      ensures Row(if c.singleIDSpace then -w else w, t) in o.rows
    {
      assert Queued(o, W(w)) && t in CachedTables(c, o.cache, W(w));
      assert DbId(c, W(w)) == if c.singleIDSpace then -w else w;
    }
    forall r, t | r in o.relIDs && r in o.cache.rels &&
                  var v := o.cache.rels[r];
                  t in written(R(r)) * (c.matchRelPolygon(v) + c.matchRelation(v) + c.matchRelMember(v))
      ensures Row(if c.singleIDSpace then -100_000_000_000_000_000 - r else -r, t) in o.rows
    {
      assert Queued(o, R(r)) && t in CachedTables(c, o.cache, R(r));
      assert DbId(c, R(r)) == if c.singleIDSpace then -100_000_000_000_000_000 - r else -r;
    }
  }

  lemma NoneLeft(c: Config, o: Outcome)
    requires AllGone(c, o.cache, o.emptied, o.deletedWays, o.deletedRelations, o.nodeIDs)
    requires o.wayIDs <= o.deletedWays && o.relIDs <= o.deletedRelations
    ensures forall e, t :: Queued(o, e) && TableFor(c, e, t) ==> Row(DbId(c, e), t) !in o.emptied
  {
    hide RowsOk, NoRows, OsmId, TableFor, DbId, SeparateTables;
    forall e, t | Queued(o, e) && TableFor(c, e, t) ensures Row(DbId(c, e), t) !in o.emptied {
      NoSecondCopy(c, o.emptied, e, t);
    }
  }

  lemma Taking(c: Config, rows: set<Row>, diffs: seq<Diff>, o: Outcome, nodes: set<int>)
    requires o.emptied == Remaining(c, rows, nodes, o.deletedWays, o.deletedRelations)
    requires forall n :: n in nodes <==> N(n) in Changed(diffs) || N(n) in Removed(diffs)
    ensures forall row :: row in o.emptied <==> row in rows && !Taken(diffs, o, Owner(c, row))
  {
    hide Owner, Changed, Removed;
  }

  lemma Reasons(x: Context, cause: map<Elem, Elem>, diffs: seq<Diff>, o: Outcome)
    requires AllExplained(x, cause, o.deletedWays, o.deletedRelations) && x.members <= o.deletedWays
    requires x.changed == Changed(diffs) && x.removed == Removed(diffs)
    ensures AllHaveReasons(diffs, x.start, o)
  {
    hide Changed, Removed;
    forall w <- o.deletedWays ensures HasReason(diffs, x.start, o, W(w)) { assert Explained(x, cause, W(w)); }
    forall r <- o.deletedRelations ensures HasReason(diffs, x.start, o, R(r)) { assert Explained(x, cause, R(r)); }
  }

  /** A deleted dependent is found again from the changed element it depends on. */
  lemma WayPutBack(x: Context, cause: map<Elem, Elem>, w: int, nodeIDs: set<int>, wayIDs: set<int>)
    requires Explained(x, cause, W(w)) && W(w) !in x.removed && x.changed !! x.removed
    requires Dependents(x.index.coords, nodeIDs) <= wayIDs
    requires forall n :: N(n) in x.changed ==> n in nodeIDs
    requires forall v :: W(v) in x.changed ==> v in wayIDs
    ensures w in wayIDs
  {
  }

  lemma RelationPutBack(x: Context, cause: map<Elem, Elem>, r: int, nodeIDs: set<int>,
                        wayIDs: set<int>, relIDs: set<int>)
    requires Explained(x, cause, R(r)) && R(r) !in x.removed
    requires forall w :: W(w) in x.removed && r in Get(x.start.ways, w) ==> R(r) in x.changed
    requires x.members <= wayIDs && Dependents(x.index.coordsRel, nodeIDs) + Dependents(x.index.ways, wayIDs) <= relIDs
    requires forall n :: N(n) in x.changed ==> n in nodeIDs
    requires forall v :: W(v) in x.changed ==> v in wayIDs
    requires R(r) in x.changed ==> r in relIDs
    ensures r in relIDs
  {
  }

  lemma PutBack(x: Context, cause: map<Elem, Elem>, diffs: seq<Diff>, nodes: set<int>, o: Outcome)
    requires AllExplained(x, cause, o.deletedWays, o.deletedRelations)
    requires x.changed == Changed(diffs) && x.removed == Removed(diffs) && Consistent(diffs, x.start.ways)
    requires Tidy(x.changed, x.removed, o.cache, nodes)
    requires forall e <- x.changed :: InQueue(e, o.nodeIDs, o.wayIDs, o.relIDs)
    requires x.members <= o.wayIDs && Dependents(x.index.coords, o.nodeIDs) <= o.wayIDs
    requires Dependents(x.index.coordsRel, o.nodeIDs) + Dependents(x.index.ways, o.wayIDs) <= o.relIDs
    ensures NothingDropped(o)
  {
    hide Explained, Context.Because, Dependents, Changed, Removed;
    forall n | N(n) in x.changed ensures n in o.nodeIDs { assert InQueue(N(n), o.nodeIDs, o.wayIDs, o.relIDs); }
    forall w | W(w) in x.changed ensures w in o.wayIDs { assert InQueue(W(w), o.nodeIDs, o.wayIDs, o.relIDs); }
    forall r | R(r) in x.changed ensures r in o.relIDs { assert InQueue(R(r), o.nodeIDs, o.wayIDs, o.relIDs); }
    forall w <- o.deletedWays ensures w in o.cache.ways ==> w in o.wayIDs {
      if w in o.cache.ways { WayPutBack(x, cause, w, o.nodeIDs, o.wayIDs); }
    }
    forall r <- o.deletedRelations ensures r in o.cache.rels ==> r in o.relIDs {
      if r in o.cache.rels { RelationPutBack(x, cause, r, o.nodeIDs, o.wayIDs, o.relIDs); }
    }
  }

  lemma Beginning(c: Config, cache: Caches, rows: set<Row>, x: Context)
    requires RowsOk(c, cache, rows) && SeparateTables(c) && GoodCache(cache)
    requires x.start == x.index && x.changed == x.removed == {}
    ensures AllGone(c, cache, rows, {}, {}, {}) && rows == Remaining(c, rows, {}, {}, {})
    ensures AllExplained(x, map[], {}, {}) && AllFollowed(x.index, {}, {}, {}, {}, {}, {}, {})
    ensures Tidy(x.changed, x.removed, cache, {})
  {
    NothingDeleted(c, rows);
  }

  /** One update. The caches hold the last accepted version of every element of the diff, and all else as it was. What
      is accepted is put in again, with all that depends on it. If every row belongs to a cached element that matches
      its table, so it does afterwards. Phase one takes out exactly the rows of what is in the diff and of what
      depends on it, so that nothing which is sent to the writers has a row left in any table: no second copy is
      inserted. Phase two inserts exactly what is sent. With a consistent diff in which everything is accepted,
      whatever was taken out as a dependent of something else and is still cached is sent: no dependent is dropped. */
  method RunUpdate(c: Config, limiter: Limiter, cache: Caches, index: Indexes, rows: set<Row>, diffs: seq<Diff>,
                   written: Elem -> set<Table>) returns (o: Outcome)
    requires RowsOk(c, cache, rows) && SeparateTables(c) && GoodCache(cache) && GoodDiffs(diffs)
    ensures RowsOk(c, o.cache, o.rows) && o.cache == AfterDiffs(cache, limiter, diffs)
    ensures UpToDate(cache, limiter, diffs, o.cache)
    ensures forall row :: row in o.emptied <==> row in rows && !Taken(diffs, o, Owner(c, row))
    ensures AllHaveReasons(diffs, index, o)
    ensures forall e, t :: Queued(o, e) && TableFor(c, e, t) ==> Row(DbId(c, e), t) !in o.emptied
    ensures forall row :: row in o.rows <==>
      row in o.emptied || (Queued(o, Owner(c, row)) && Fits(c, o.cache, written, row))
    ensures forall row :: row in o.rows && row !in o.emptied ==> RowFrom(c, cache, limiter, diffs, written, row)
    ensures AllInserted(c, written, o)
    ensures forall e :: SomeAccepted(cache, limiter, diffs, e) ==> InQueue(e, o.nodeIDs, o.wayIDs, o.relIDs)
    ensures forall n :: n in o.nodeIDs <==> SomeAccepted(cache, limiter, diffs, N(n))
    ensures NoneMissed(diffs, index, o)
    ensures Consistent(diffs, index.ways) && AllAccepted(cache, limiter, diffs) ==> NothingDropped(o)
  {
    hide RowsOk, SeparateTables, GoodCache, GoodDiffs, AllGone, AllExplained, AllFollowed, Remaining, Tidy, Dependents,
         Taken, AllHaveReasons, TableFor, DbId, Owner, Fits, Sent, Consistent, AllAccepted, NothingDropped, AfterDiffs,
         Changed, Removed, Direct, InQueue, NoneMissed, SomeAccepted, UpToDate, RowFrom, AllInserted;
    var u := new Updater(c, limiter, cache, index, rows);
    Beginning(c, cache, rows, u.Now());
    u.PhaseOne(diffs);
    ghost var x, wayIDs, relIDs := u.Now(), u.wayIDs, u.relIDs;
    u.Mark();
    var emptied := u.rows;
    u.PhaseTwo(written);
    o := Outcome(u.cache, emptied, u.rows, u.deletedWays, u.deletedRelations, u.nodeIDs, u.wayIDs, u.relIDs);
    NoneLeft(c, o);
    CacheUpToDate(cache, limiter, diffs);
    QueuedAccepted(cache, limiter, diffs, o, wayIDs, relIDs);
    forall row | row in o.rows && row !in o.emptied ensures RowFrom(c, cache, limiter, diffs, written, row) {
      InsertedFrom(c, cache, limiter, diffs, written, o, row);
    }
    GoneIsGood(c, o);
    Inserted(c, written, o);
    TakingDiff(c, rows, diffs, o, u.deletedNodes);
    Reasons(x, u.cause, diffs, o);
    ExplainedLost(x, u.cause, o.deletedWays, o.deletedRelations);
    AllFound(x, diffs, o);
    if Consistent(diffs, index.ways) && AllAccepted(cache, limiter, diffs) {
      AcceptedIsDirect(cache, limiter, diffs);
      forall e <- x.changed ensures InQueue(e, o.nodeIDs, o.wayIDs, o.relIDs) {
        QueueGrows(e, o.nodeIDs, wayIDs, relIDs, o.wayIDs, o.relIDs);
      }
      PutBack(x, u.cause, diffs, u.deletedNodes, o);
    }
  }

  lemma QueuedAccepted(cache: Caches, limiter: Limiter, diffs: seq<Diff>, o: Outcome,
                       wayIDs: set<int>, relIDs: set<int>)
    requires GoodDiffs(diffs) && wayIDs <= o.wayIDs && relIDs <= o.relIDs
    requires forall e :: InQueue(e, o.nodeIDs, wayIDs, relIDs) <==> e in Direct(cache, limiter, diffs)
    ensures forall e :: SomeAccepted(cache, limiter, diffs, e) ==> InQueue(e, o.nodeIDs, o.wayIDs, o.relIDs)
    ensures forall n :: n in o.nodeIDs <==> SomeAccepted(cache, limiter, diffs, N(n))
  {
    hide GoodDiffs, Direct, SomeAccepted;
    forall e ensures e in Direct(cache, limiter, diffs) <==> SomeAccepted(cache, limiter, diffs, e) {
      DirectIff(cache, limiter, diffs, e);
    }
    forall n ensures n in o.nodeIDs <==> SomeAccepted(cache, limiter, diffs, N(n)) {
      assert InQueue(N(n), o.nodeIDs, wayIDs, relIDs) <==> n in o.nodeIDs;
    }
  }

  lemma GoneIsGood(c: Config, o: Outcome)
    requires AllGone(c, o.cache, o.emptied, o.deletedWays, o.deletedRelations, o.nodeIDs)
    ensures SeparateTables(c) && GoodCache(o.cache)
  {
  }

  /** Every way and relation that depends on something which is put in again, by a reference from before the update,
      is taken out and put in again too, unless it is in the diff itself or what it depends on is deleted by it. */
  ghost predicate NoneMissed(diffs: seq<Diff>, index: Indexes, o: Outcome)
  {
    && (forall n, w ::
          n in o.nodeIDs && w in Get(index.coords, n) && !Touched(diffs, W(w)) && N(n) !in Removed(diffs) ==>
          w in o.deletedWays && w in o.wayIDs)
    && (forall n, r :: n in o.nodeIDs && r in Get(index.coordsRel, n) && !Touched(diffs, R(r)) ==>
          r in o.deletedRelations && r in o.relIDs)
    && (forall w, r :: w in o.wayIDs && r in Get(index.ways, w) && !Touched(diffs, R(r)) && W(w) !in Removed(diffs) ==>
          r in o.deletedRelations && r in o.relIDs)
  }

  predicate Touched(diffs: seq<Diff>, e: Elem)
  {
    e in Changed(diffs) || e in Removed(diffs)
  }

  lemma AllFound(x: Context, diffs: seq<Diff>, o: Outcome)
    requires x.LostByDiff() && x.changed == Changed(diffs) && x.removed == Removed(diffs)
    requires Dependents(x.index.coords, o.nodeIDs) <= o.wayIDs <= o.deletedWays
    requires Dependents(x.index.coordsRel, o.nodeIDs) + Dependents(x.index.ways, o.wayIDs) <= o.relIDs
    requires o.relIDs <= o.deletedRelations
    ensures NoneMissed(diffs, x.start, o)
  {
    hide Changed, Removed;
    forall n, w | n in o.nodeIDs && w in Get(x.index.coords, n) ensures w in Dependents(x.index.coords, o.nodeIDs) {}
    var nodeRels := Dependents(x.index.coordsRel, o.nodeIDs);
    forall n, r | n in o.nodeIDs && r in Get(x.index.coordsRel, n) ensures r in nodeRels {}
    forall w, r | w in o.wayIDs && r in Get(x.index.ways, w) ensures r in Dependents(x.index.ways, o.wayIDs) {}
    hide Dependents;
  }

  lemma ExplainedLost(x: Context, cause: map<Elem, Elem>, ways: set<int>, rels: set<int>)
    requires AllExplained(x, cause, ways, rels)
    ensures x.LostByDiff()
  {
  }

  lemma QueueGrows(e: Elem, nodeIDs: set<int>, wayIDs: set<int>, relIDs: set<int>,
                   moreWays: set<int>, moreRels: set<int>)
    requires InQueue(e, nodeIDs, wayIDs, relIDs) && wayIDs <= moreWays && relIDs <= moreRels
    ensures InQueue(e, nodeIDs, moreWays, moreRels)
  {
  }

  lemma TakingDiff(c: Config, rows: set<Row>, diffs: seq<Diff>, o: Outcome, nodes: set<int>)
    requires o.emptied == Remaining(c, rows, nodes, o.deletedWays, o.deletedRelations)
    requires Tidy(Changed(diffs), Removed(diffs), o.cache, nodes)
    ensures forall row :: row in o.emptied <==> row in rows && !Taken(diffs, o, Owner(c, row))
  {
    hide Remaining, Taken, Owner, Changed, Removed;
    Taking(c, rows, diffs, o, nodes);
  }
}
