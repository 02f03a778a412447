/** What a diff update works on: cached elements, reference indexes, and the rows of the database. */
module UpdateRows {
  type Tags = map<string, string>
  type Table = string

  datatype NodeElem = NodeElem(tags: Tags, long: real, lat: real)
  datatype WayElem = WayElem(tags: Tags, refs: seq<int>)
  datatype MemberType = NodeMember | WayMember | RelationMember
  datatype Member = Member(kind: MemberType, id: int)
  datatype RelElem = RelElem(tags: Tags, members: seq<Member>)

  datatype Elem = N(id: int) | W(id: int) | R(id: int)

  /** The matchers are any functions of an element; `points` are the tables that nodes go to. */
  datatype Config = Config(
    matchNode: NodeElem -> set<Table>,
    matchPolygon: WayElem -> set<Table>, matchLine: WayElem -> set<Table>,
    matchRelPolygon: RelElem -> set<Table>, matchRelation: RelElem -> set<Table>, matchRelMember: RelElem -> set<Table>,
    singleIDSpace: bool, points: set<Table>)

  datatype Coord = Coord(long: real, lat: real)

  datatype Caches = Caches(nodes: map<int, NodeElem>, coords: map<int, Coord>,
                           ways: map<int, WayElem>, rels: map<int, RelElem>)

  /** A row in a table of the database, with the id it was inserted with. */
  datatype Row = Row(id: int, table: Table)

  const RelIDOffset := -100_000_000_000_000_000

  function WayTables(c: Config, w: WayElem): (r: set<Table>)
  {
    c.matchPolygon(w) + c.matchLine(w)
  }

  function RelTables(c: Config, r: RelElem): (t: set<Table>)
  {
    c.matchRelPolygon(r) + c.matchRelation(r) + c.matchRelMember(r)
  }

  // Ids

  /** `nodeID`, `WayID` and `RelID`. */
  function DbId(c: Config, e: Elem): (id: int)
  {
    match e
    case N(n) => n
    case W(w) => if c.singleIDSpace then -w else w
    case R(r) => if c.singleIDSpace then RelIDOffset - r else -r
  }

  /** The element a row is about. */
  function Owner(c: Config, row: Row): (e: Elem)
    ensures DbId(c, e) == row.id
  {
    if c.singleIDSpace then
      if row.id > 0 then N(row.id) else if row.id > RelIDOffset then W(-row.id) else R(RelIDOffset - row.id)
    else if row.table in c.points then N(row.id)
    else if row.id > 0 then W(row.id) else R(-row.id)
  }

  /** Ids as OpenStreetMap has them, and small enough for a single id space. */
  predicate OsmId(id: int)
  {
    0 < id < -RelIDOffset
  }

  /** Without a single id space, the tables of nodes are not those of ways and relations. */
  predicate TableFor(c: Config, e: Elem, t: Table)
  {
    c.singleIDSpace || (e.N? <==> t in c.points)
  }

  /** The ids in the database tell nodes, ways and relations apart. */
  lemma OwnerOfDbId(c: Config, e: Elem, t: Table)
    requires OsmId(e.id) && TableFor(c, e, t)
    ensures Owner(c, Row(DbId(c, e), t)) == e
  {
  }

  /** Every table is one for the elements that are matched to it. */
  ghost predicate SeparateTables(c: Config)
  {
    c.singleIDSpace || (
      && (forall n, t :: t in c.matchNode(n) ==> t in c.points)
      && (forall w, t :: t in WayTables(c, w) ==> t !in c.points)
      && (forall r, t :: t in RelTables(c, r) ==> t !in c.points))
  }

  // Rows

  /** The tables that the cached element matches. */
  function CachedTables(c: Config, cache: Caches, e: Elem): (r: set<Table>)
  {
    match e
    case N(n) => if n in cache.nodes then c.matchNode(cache.nodes[n]) else {}
    case W(w) => if w in cache.ways then WayTables(c, cache.ways[w]) else {}
    case R(r) => if r in cache.rels then RelTables(c, cache.rels[r]) else {}
  }

  lemma CachedTableFor(c: Config, cache: Caches, e: Elem, t: Table)
    requires SeparateTables(c) && t in CachedTables(c, cache, e)
    ensures TableFor(c, e, t)
  {
    hide WayTables, RelTables;
  }

  /** Every row belongs to a cached element that matches its table. */
  ghost predicate RowsOk(c: Config, cache: Caches, rows: set<Row>)
  {
    forall row <- rows :: row.table in CachedTables(c, cache, Owner(c, row))
  }

  ghost predicate NoRows(c: Config, rows: set<Row>, e: Elem)
  {
    forall row <- rows :: Owner(c, row) != e
  }

  /** `Delete` of the database. */
  function Deleted(rows: set<Row>, id: int, tables: set<Table>): (r: set<Row>)
  {
    set row <- rows | !(row.id == id && row.table in tables)
  }

  /** The rows of all other elements. */
  function Without(c: Config, rows: set<Row>, e: Elem): (r: set<Row>)
  {
    set row <- rows | Owner(c, row) != e
  }

  predicate GoodCache(cache: Caches)
  {
    && (forall n <- cache.nodes :: OsmId(n)) && (forall w <- cache.ways :: OsmId(w))
    && (forall r <- cache.rels :: OsmId(r))
  }

  /** Deleting an element from the tables that its cached version matches deletes all of its rows and no others. */
  lemma DeletedAll(c: Config, cache: Caches, rows: set<Row>, e: Elem, rest: set<Row>)
    requires RowsOk(c, cache, rows) && SeparateTables(c) && GoodCache(cache)
    requires rest == Deleted(rows, DbId(c, e), CachedTables(c, cache, e))
    ensures rest == Without(c, rows, e) && NoRows(c, rest, e) && RowsOk(c, cache, rest)
  {
    hide Owner, CachedTables, OsmId, GoodCache, SeparateTables, DbId;
    forall row <- rows ensures row in rest <==> row in Without(c, rows, e) {
      if row !in rest {
        CachedId(cache, c, e, row.table);
        CachedTableFor(c, cache, e, row.table);
        OwnerOfDbId(c, e, row.table);
        assert row == Row(DbId(c, e), row.table);
      } else if Owner(c, row) == e {
        assert row.table in CachedTables(c, cache, e);
      }
    }
  }

  lemma CachedId(cache: Caches, c: Config, e: Elem, t: Table)
    requires GoodCache(cache) && t in CachedTables(c, cache, e)
    ensures OsmId(e.id)
  {
  }

  /** The cache may change where there are no rows. */
  lemma CacheChanged(c: Config, cache: Caches, rows: set<Row>, e: Elem, next: Caches)
    requires RowsOk(c, cache, rows) && NoRows(c, rows, e)
    requires forall x :: x != e ==> CachedTables(c, next, x) == CachedTables(c, cache, x)
    ensures RowsOk(c, next, rows)
  {
  }

  // Indexes

  type Index = map<int, set<int>>

  function Get(ix: Index, k: int): (r: set<int>)
  {
    if k in ix then ix[k] else {}
  }

  function WithoutRef(ix: Index, k: int, ref: int): (r: Index)
    ensures forall j :: Get(r, j) == if j == k then Get(ix, k) - {ref} else Get(ix, j)
  {
    if k in ix then ix[k := ix[k] - {ref}] else ix
  }

  function WithoutKey(ix: Index, k: int): (r: Index)
    ensures forall j :: Get(r, j) == if j == k then {} else Get(ix, j)
  {
    ix - {k}
  }

  /** One ref is deleted from several entries, one after the other. */
  function WithoutRefs(ix: Index, keys: seq<int>, ref: int): (r: Index)
    ensures forall k :: Get(r, k) == if k in keys then Get(ix, k) - {ref} else Get(ix, k)
  {
    if keys == [] then ix else WithoutRef(WithoutRefs(ix, keys[..|keys| - 1], ref), keys[|keys| - 1], ref)
  }

  /** The ids of the members of one kind. */
  function MemberIds(members: seq<Member>, kind: MemberType): (r: seq<int>)
    ensures forall id :: id in r <==> Member(kind, id) in members
  {
    if members == [] then []
    else
      var m := members[|members| - 1];
      MemberIds(members[..|members| - 1], kind) + if m.kind == kind then [m.id] else []
  }

  /** Some entries for `ref` are gone, and no others. */
  ghost predicate LessRef(less: Index, more: Index, ref: int)
  {
    forall k :: Get(less, k) <= Get(more, k) <= Get(less, k) + {ref}
  }

  datatype Indexes = Indexes(coords: Index, coordsRel: Index, ways: Index)
}
