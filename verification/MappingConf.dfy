/** The matchers and the tag filters that are made from a mapping configuration. */
module MappingConf {
  import opened GoInts
  import opened Matching
  import opened FilterImpact

  datatype Kind = Point | LineString | Polygon | Geometry | Relation | RelationMember

  datatype OrderedValue = OrderedValue(value: string, order: int)
  type KeyValues = map<string, seq<OrderedValue>>

  datatype Table = Table(
    kind: Kind, mapping: KeyValues, mappings: map<string, KeyValues>,
    points: KeyValues, lines: KeyValues, polygons: KeyValues,
    columnKeys: seq<string>, excludeTags: seq<(string, string)>, tests: seq<Test>, relationTypes: Option<seq<string>>)

  datatype Conf = Conf(tables: map<string, Table>, includeTags: seq<string>,
                       areaTags: Option<set<string>>, linearTags: Option<set<string>>)

  /** A table takes part in what is made for a kind of tables. */
  predicate For(t: Table, kind: Kind)
  {
    t.kind == Geometry || t.kind == kind
  }

  // Mappings

  predicate MapsTo(mapping: KeyValues, k: string, v: string, order: int)
  {
    k in mapping && OrderedValue(v, order) in mapping[k]
  }

  predicate Mapped(tt: TagTableMapping, k: string, v: string, e: Entry)
  {
    e in Entries(tt, k, v)
  }

  /** A key has a value, with or without entries. */
  predicate InTable(tt: TagTableMapping, k: string, v: string)
  {
    k in tt && v in tt[k]
  }

  /** `more` has the values of `less`, and others only where it has entries. */
  ghost predicate Grown(less: TagTableMapping, more: TagTableMapping)
  {
    && (forall k, v :: InTable(less, k, v) ==> InTable(more, k, v))
    && (forall k, v :: InTable(more, k, v) ==> InTable(less, k, v) || exists e :: Mapped(more, k, v, e))
  }

  lemma GrownTwice(a: TagTableMapping, b: TagTableMapping, c: TagTableMapping)
    requires Grown(a, b) && Grown(b, c) && (forall k, v, e :: Mapped(b, k, v, e) ==> Mapped(c, k, v, e))
    ensures Grown(a, c)
  {
    hide Mapped, InTable;
    forall k, v | InTable(c, k, v) ensures InTable(a, k, v) || exists e :: Mapped(c, k, v, e) {
      if InTable(b, k, v) && !InTable(a, k, v) {
        var e :| Mapped(b, k, v, e);
        assert Mapped(c, k, v, e);
      }
    }
  }

  /** One more entry. */
  function Appended(tt: TagTableMapping, k: string, v: string, e: Entry): (r: TagTableMapping)
  {
    var vals := if k in tt then tt[k] else map[];
    tt[k := vals[v := Entries(tt, k, v) + [e]]]
  }

  lemma AppendedOne(tt: TagTableMapping, k: string, v: string, e: Entry)
    ensures forall j, w, d ::
      Mapped(Appended(tt, k, v, e), j, w, d) <==> Mapped(tt, j, w, d) || (j == k && w == v && d == e)
    ensures Grown(tt, Appended(tt, k, v, e))
  {
    var r := Appended(tt, k, v, e);
    forall j, w, d ensures Mapped(r, j, w, d) <==> Mapped(tt, j, w, d) || (j == k && w == v && d == e) {
      assert Entries(r, j, w) == if j == k && w == v then Entries(tt, k, v) + [e] else Entries(tt, j, w);
    }
    assert Mapped(r, k, v, e);
  }

  lemma GrownNot(tt: TagTableMapping)
    ensures Grown(tt, tt)
  {
  }

  /** The entries for some values of a key are added. */
  method AddValues(tt: TagTableMapping, k: string, vals: seq<OrderedValue>, dest: DestTable)
      returns (r: TagTableMapping)
    ensures forall j, w, e ::
      Mapped(r, j, w, e) <==> Mapped(tt, j, w, e) || (j == k && e.dest == dest && OrderedValue(w, e.order) in vals)
    ensures Grown(tt, r)
  {
    hide Mapped, Grown, Appended;
    r := tt;
    GrownNot(tt);
    for i := 0 to |vals|
      invariant forall j, w, e ::
        Mapped(r, j, w, e) <==>
          Mapped(tt, j, w, e) || (j == k && e.dest == dest && OrderedValue(w, e.order) in vals[..i])
      invariant Grown(tt, r)
    {
      assert forall x :: x in vals[..i + 1] <==> x in vals[..i] || x == vals[i];
      AppendedOne(r, k, vals[i].value, Entry(dest, vals[i].order));
      GrownTwice(tt, r, Appended(r, k, vals[i].value, Entry(dest, vals[i].order)));
      r := Appended(r, k, vals[i].value, Entry(dest, vals[i].order));
    }
    assert vals[..|vals|] == vals;
  }

  /** `addFromMapping`. */
  method AddFromMapping(tt: TagTableMapping, mapping: KeyValues, dest: DestTable) returns (r: TagTableMapping)
    ensures forall k, v, e ::
      Mapped(r, k, v, e) <==> Mapped(tt, k, v, e) || (e.dest == dest && MapsTo(mapping, k, v, e.order))
    ensures Grown(tt, r)
  {
    hide Mapped, Grown;
    r := tt;
    GrownNot(tt);
    var todo := mapping.Keys;
    while todo != {}
      invariant todo <= mapping.Keys && Grown(tt, r)
      invariant forall k, v, e ::
        Mapped(r, k, v, e) <==> Mapped(tt, k, v, e) || (e.dest == dest && k !in todo && MapsTo(mapping, k, v, e.order))
      decreases |todo|
    {
      var k := AnyOf(todo);
      todo := todo - {k};
      ghost var before := r;
      r := AddValues(r, k, mapping[k], dest);
      GrownTwice(tt, before, r);
    }
  }

  /** The entries of a table for a kind. */
  predicate TableMaps(name: string, t: Table, kind: Kind, k: string, v: string, e: Entry)
  {
    For(t, kind) && e.dest.name == name && (
      || (e.dest.subMapping == "" && MapsTo(t.mapping, k, v, e.order))
      || (e.dest.subMapping in t.mappings && MapsTo(t.mappings[e.dest.subMapping], k, v, e.order))
      || (e.dest.subMapping == "" && MapsTo(Typed(t, kind), k, v, e.order)))
  }

  function Typed(t: Table, kind: Kind): (r: KeyValues)
  {
    match kind
    case Point => t.points
    case LineString => t.lines
    case Polygon => t.polygons
    case _ => map[]
  }

  ghost predicate Maps(conf: Conf, kind: Kind, k: string, v: string, e: Entry)
  {
    e.dest.name in conf.tables && TableMaps(e.dest.name, conf.tables[e.dest.name], kind, k, v, e)
  }

  /** By field of the configuration: a table of the kind, or a geometry table, has the pair at this place of its
      mapping, of the submapping, or of its type mapping for points, lines or polygons. */
  ghost predicate FieldMaps(conf: Conf, kind: Kind, dest: DestTable, k: string, v: string, order: int)
  {
    dest.name in conf.tables &&
    var t := conf.tables[dest.name];
    (t.kind == Geometry || t.kind == kind) && (
      || (dest.subMapping == "" && MapsTo(t.mapping, k, v, order))
      || (dest.subMapping in t.mappings && MapsTo(t.mappings[dest.subMapping], k, v, order))
      || (dest.subMapping == "" && kind == Point && MapsTo(t.points, k, v, order))
      || (dest.subMapping == "" && kind == LineString && MapsTo(t.lines, k, v, order))
      || (dest.subMapping == "" && kind == Polygon && MapsTo(t.polygons, k, v, order)))
  }

  lemma MapsByField(conf: Conf, kind: Kind, k: string, v: string, e: Entry)
    ensures Maps(conf, kind, k, v, e) <==> FieldMaps(conf, kind, e.dest, k, v, e.order)
  {
  }

  // The order of the values

  /** A part of the YAML file: a text, or anything else. */
  datatype Scalar = Text(text: string) | NoText
  datatype Item = Item(key: Scalar, values: Option<seq<Scalar>>)

  predicate IsText(item: Item)
  {
    item.key.Text? && item.values.Some? && forall v <- item.values.value :: v.Text?
  }

  /** The pairs of an item, in the order of the file. */
  function PairsOf(item: Item): (r: seq<(string, string)>)
    requires IsText(item)
    ensures |r| == |item.values.value|
  {
    var vs := item.values.value;
    seq(|vs|, i requires 0 <= i < |vs| => (item.key.text, vs[i].text))
  }

  function Pairs(items: seq<Item>): (r: seq<(string, string)>)
    requires forall item <- items :: IsText(item)
  {
    if items == [] then [] else Pairs(items[..|items| - 1]) + PairsOf(items[|items| - 1])
  }

  /** The order of a pair is its position. */
  ghost predicate InOrder(kv: KeyValues, pairs: seq<(string, string)>)
  {
    forall k, v, order :: MapsTo(kv, k, v, order) <==> 0 <= order < |pairs| && pairs[order] == (k, v)
  }

  lemma NextPair(kv: KeyValues, pairs: seq<(string, string)>, k: string, v: string)
    requires InOrder(kv, pairs)
    ensures InOrder(kv[k := (if k in kv then kv[k] else []) + [OrderedValue(v, |pairs|)]], pairs + [(k, v)])
  {
    var was := if k in kv then kv[k] else [];
    var next := kv[k := was + [OrderedValue(v, |pairs|)]];
    forall j, w, order
      ensures MapsTo(next, j, w, order) <==> MapsTo(kv, j, w, order) || (j == k && w == v && order == |pairs|)
    {
    }
  }

  lemma NoPairs()
    ensures InOrder(map[], [])
  {
  }

  /** `KeyValues.UnmarshalYAML`: the values are numbered through, in the order of the file. */
  method ReadKeyValues(items: seq<Item>) returns (r: Option<KeyValues>)
    ensures r.Some? <==> forall item <- items :: IsText(item)
    ensures r.Some? ==> InOrder(r.value, Pairs(items))
  {
    hide InOrder, MapsTo;
    var kv, order: nat := map[], 0;
    NoPairs();
    for i := 0 to |items|
      invariant forall item <- items[..i] :: IsText(item)
      invariant order == |Pairs(items[..i])| && InOrder(kv, Pairs(items[..i]))
    {
      var item := items[i];
      assert items[..i + 1] == items[..i] + [item] && item in items;
      if !item.key.Text? || item.values.None? { return None; }
      var k, values := item.key.text, item.values.value;
      ghost var before := Pairs(items[..i]);
      ghost var done: seq<(string, string)> := [];
      assert before + done == before;
      for n := 0 to |values|
        invariant forall j :: 0 <= j < n ==> values[j].Text?
        invariant |done| == n && forall j :: 0 <= j < n ==> done[j] == (k, values[j].text)
        invariant order == |before + done| && InOrder(kv, before + done)
      {
        if !values[n].Text? { return None; }
        var v := values[n].text;
        NextPair(kv, before + done, k, v);
        assert before + done + [(k, v)] == before + (done + [(k, v)]);
        kv := kv[k := (if k in kv then kv[k] else []) + [OrderedValue(v, order)]];
        done := done + [(k, v)];
        order := order + 1;
      }
      assert IsText(item) && done == PairsOf(item);
    }
    assert items[..|items|] == items;
    r := Some(kv);
  }

  /** No place in the order belongs to two keys. */
  ghost predicate OneKey(a: KeyValues, b: KeyValues)
  {
    forall j, v, k, w, order :: MapsTo(a, j, v, order) && MapsTo(b, k, w, order) ==> j == k
  }

  /** The mappings that lead to one destination. */
  function Sources(t: Table, kind: Kind, sub: string): (r: set<KeyValues>)
  {
    (if sub == "" then {t.mapping, Typed(t, kind)} else {}) + if sub in t.mappings then {t.mappings[sub]} else {}
  }

  /** No two keys of a table have the same place in the order, in none of its destinations. */
  ghost predicate Unambiguous(t: Table, kind: Kind)
  {
    forall sub, a, b :: a in Sources(t, kind, sub) && b in Sources(t, kind, sub) ==> OneKey(a, b)
  }

  ghost predicate AllUnambiguous(conf: Conf, kind: Kind)
  {
    forall name <- conf.tables :: For(conf.tables[name], kind) ==> Unambiguous(conf.tables[name], kind)
  }

  lemma MapsFrom(conf: Conf, kind: Kind, k: string, v: string, e: Entry) returns (source: KeyValues)
    requires Maps(conf, kind, k, v, e)
    ensures e.dest.name in conf.tables && For(conf.tables[e.dest.name], kind)
    ensures source in Sources(conf.tables[e.dest.name], kind, e.dest.subMapping) && MapsTo(source, k, v, e.order)
  {
    var t, sub := conf.tables[e.dest.name], e.dest.subMapping;
    source :=
      if sub == "" && MapsTo(t.mapping, k, v, e.order) then t.mapping
      else if sub == "" && MapsTo(Typed(t, kind), k, v, e.order) then Typed(t, kind)
      else t.mappings[sub];
  }

  lemma MapsIfFrom(conf: Conf, kind: Kind, name: string, sub: string, source: KeyValues,
                   k: string, v: string, order: int)
    requires name in conf.tables && For(conf.tables[name], kind)
    requires source in Sources(conf.tables[name], kind, sub) && MapsTo(source, k, v, order)
    ensures Maps(conf, kind, k, v, Entry(DestTable(name, sub), order))
  {
  }

  ghost predicate EntriesOf(conf: Conf, kind: Kind, tt: TagTableMapping)
  {
    forall k, v, e :: Mapped(tt, k, v, e) <==> Maps(conf, kind, k, v, e)
  }

  lemma OrdersDistinct(conf: Conf, kind: Kind, tt: TagTableMapping)
    requires EntriesOf(conf, kind, tt) && AllUnambiguous(conf, kind)
    ensures DistinctOrders(tt)
  {
    hide Maps, Sources, Entries, MapsTo;
    forall j, v, k, w, e | e in Entries(tt, j, v) && e in Entries(tt, k, w) ensures j == k {
      assert Mapped(tt, j, v, e) && Mapped(tt, k, w, e);
      var a := MapsFrom(conf, kind, j, v, e);
      var b := MapsFrom(conf, kind, k, w, e);
      assert OneKey(a, b);
    }
  }

  lemma OrdersTell(conf: Conf, kind: Kind, tt: TagTableMapping)
    requires EntriesOf(conf, kind, tt) && DistinctOrders(tt)
    ensures AllUnambiguous(conf, kind)
  {
    hide Maps, Sources, Entries, MapsTo;
    forall name, sub, a, b, j, v, k, w, order |
      && name in conf.tables && For(conf.tables[name], kind)
      && a in Sources(conf.tables[name], kind, sub) && b in Sources(conf.tables[name], kind, sub)
      && MapsTo(a, j, v, order) && MapsTo(b, k, w, order)
      ensures j == k
    {
      MapsIfFrom(conf, kind, name, sub, a, j, v, order);
      MapsIfFrom(conf, kind, name, sub, b, k, w, order);
      var e := Entry(DestTable(name, sub), order);
      assert Mapped(tt, j, v, e) && Mapped(tt, k, w, e);
    }
  }

  lemma OrdersIff(conf: Conf, kind: Kind, tt: TagTableMapping)
    requires EntriesOf(conf, kind, tt)
    ensures DistinctOrders(tt) <==> AllUnambiguous(conf, kind)
  {
    hide *;
    if AllUnambiguous(conf, kind) { OrdersDistinct(conf, kind, tt); }
    if DistinctOrders(tt) { OrdersTell(conf, kind, tt); }
  }

  /** A mapping as it is read from a file. */
  ghost predicate FromFile(kv: KeyValues)
  {
    exists pairs :: InOrder(kv, pairs)
  }

  /** Every destination of a table has its values from one mapping of the file. */
  ghost predicate OneMapping(t: Table, kind: Kind)
  {
    && (forall sub, kv :: kv in Sources(t, kind, sub) ==> FromFile(kv))
    && (forall sub, a, b :: a in Sources(t, kind, sub) && b in Sources(t, kind, sub) && a != b ==>
          a == map[] || b == map[])
  }

  lemma FileHasOneKey(kv: KeyValues)
    requires FromFile(kv)
    ensures OneKey(kv, kv)
  {
    hide MapsTo;
    var pairs: seq<(string, string)> :| InOrder(kv, pairs);
  }

  lemma OneMappingIsEnough(t: Table, kind: Kind)
    requires OneMapping(t, kind)
    ensures Unambiguous(t, kind)
  {
    hide Sources;
    forall sub, a, b | a in Sources(t, kind, sub) && b in Sources(t, kind, sub) ensures OneKey(a, b) {
      if a == b { FileHasOneKey(a); }
    }
  }

  /** `prepare` takes no geometry table that has other mappings than those by type, so these have no ties. */
  lemma GeometryHasOneMapping(t: Table, kind: Kind)
    requires t.kind.Geometry? && t.mapping == map[] && t.mappings == map[] && FromFile(Typed(t, kind))
    ensures OneMapping(t, kind) && Unambiguous(t, kind)
  {
    NoPairs();
    assert FromFile(map[]);
    OneMappingIsEnough(t, kind);
  }

  method AddTable(tt: TagTableMapping, name: string, t: Table, kind: Kind) returns (r: TagTableMapping)
    requires For(t, kind)
    ensures forall k, v, e :: Mapped(r, k, v, e) <==> Mapped(tt, k, v, e) || TableMaps(name, t, kind, k, v, e)
    ensures Grown(tt, r)
  {
    hide Mapped, Grown, MapsTo;
    r := AddFromMapping(tt, t.mapping, DestTable(name, ""));
    var todo := t.mappings.Keys;
    while todo != {}
      invariant todo <= t.mappings.Keys && Grown(tt, r)
      invariant forall k, v, e ::
        Mapped(r, k, v, e) <==>
          || Mapped(tt, k, v, e)
          || (e.dest == DestTable(name, "") && MapsTo(t.mapping, k, v, e.order))
          || (e.dest.name == name && e.dest.subMapping in t.mappings && e.dest.subMapping !in todo &&
              MapsTo(t.mappings[e.dest.subMapping], k, v, e.order))
      decreases |todo|
    {
      var sub := AnyOf(todo);
      todo := todo - {sub};
      ghost var before := r;
      r := AddFromMapping(r, t.mappings[sub], DestTable(name, sub));
      GrownTwice(tt, before, r);
    }
    ghost var before := r;
    r := AddFromMapping(r, Typed(t, kind), DestTable(name, ""));
    GrownTwice(tt, before, r);
  }

  /** `mappings`: the entries of all tables of a kind, whatever the order of the tables. */
  method AddMappings(conf: Conf, kind: Kind, tt: TagTableMapping) returns (r: TagTableMapping)
    ensures forall k, v, e :: Mapped(r, k, v, e) <==> Mapped(tt, k, v, e) || Maps(conf, kind, k, v, e)
    ensures Grown(tt, r)
  {
    hide Mapped, Grown;
    r := tt;
    GrownNot(tt);
    var todo := conf.tables.Keys;
    while todo != {}
      invariant todo <= conf.tables.Keys && Grown(tt, r)
      invariant forall k, v, e ::
        Mapped(r, k, v, e) <==> Mapped(tt, k, v, e) || (e.dest.name !in todo && Maps(conf, kind, k, v, e))
      decreases |todo|
    {
      var name := AnyOf(todo);
      todo := todo - {name};
      if For(conf.tables[name], kind) {
        ghost var before := r;
        r := AddTable(r, name, conf.tables[name], kind);
        GrownTwice(tt, before, r);
      }
    }
  }

  // Extra tags

  /** The keys that a table of some kind needs besides those it maps. */
  predicate TableNeeds(t: Table, kind: Kind, k: string)
  {
    For(t, kind) && (
      || k in t.columnKeys
      || (exists i :: 0 <= i < |t.excludeTags| && t.excludeTags[i].0 == k)
      || (k == "type" && (kind.Polygon? || kind.Relation? || kind.RelationMember?) && t.relationTypes.Some?))
  }

  predicate Extra(conf: Conf, kind: Kind, k: string)
  {
    k == "area" || k in conf.includeTags || exists name <- conf.tables :: TableNeeds(conf.tables[name], kind, k)
  }

  method TableExtraTags(t: Table, kind: Kind, tags: set<string>) returns (r: set<string>)
    requires For(t, kind)
    ensures forall k :: k in r <==> k in tags || TableNeeds(t, kind, k)
  {
    r := tags;
    for i := 0 to |t.columnKeys|
      invariant forall k :: k in r <==> k in tags || k in t.columnKeys[..i]
    {
      assert t.columnKeys[..i + 1] == t.columnKeys[..i] + [t.columnKeys[i]];
      r := r + {t.columnKeys[i]};
    }
    assert t.columnKeys[..|t.columnKeys|] == t.columnKeys;
    for i := 0 to |t.excludeTags|
      invariant forall k :: k in r <==>
        k in tags || k in t.columnKeys || exists j :: 0 <= j < i && t.excludeTags[j].0 == k
    {
      r := r + {t.excludeTags[i].0};
    }
    if (kind.Polygon? || kind.Relation? || kind.RelationMember?) && t.relationTypes.Some? {
      r := r + {"type"};
    }
  }

  /** `extraTags`. */
  method ExtraTags(conf: Conf, kind: Kind, tags: set<string>) returns (r: set<string>)
    ensures forall k :: k in r <==> k in tags || Extra(conf, kind, k)
  {
    hide TableNeeds;
    r := tags;
    var todo := conf.tables.Keys;
    while todo != {}
      invariant todo <= conf.tables.Keys
      invariant forall k ::
        k in r <==> k in tags || exists name <- conf.tables :: name !in todo && TableNeeds(conf.tables[name], kind, k)
      decreases |todo|
    {
      var name := AnyOf(todo);
      todo := todo - {name};
      OnlyFor(conf.tables[name], kind);
      if For(conf.tables[name], kind) {
        r := TableExtraTags(conf.tables[name], kind, r);
      }
    }
    for i := 0 to |conf.includeTags|
      invariant forall k :: k in r <==>
        || k in tags || k in conf.includeTags[..i]
        || exists name <- conf.tables :: TableNeeds(conf.tables[name], kind, k)
    {
      assert conf.includeTags[..i + 1] == conf.includeTags[..i] + [conf.includeTags[i]];
      r := r + {conf.includeTags[i]};
    }
    assert conf.includeTags[..|conf.includeTags|] == conf.includeTags;
    r := r + {"area"};
  }

  lemma OnlyFor(t: Table, kind: Kind)
    ensures forall k :: TableNeeds(t, kind, k) ==> For(t, kind)
  {
  }

  // Element filters

  /** An `exclude_tags` pair rejects one value, or any. */
  function Exclude(pair: (string, string)): (t: Test)
  {
    Test(pair.0, (v: Option<string>) => v == None || (pair.1 != ANY && v != Some(pair.1)))
  }

  function Tests(t: Table): (r: seq<Test>)
    ensures |r| == |t.excludeTags| + |t.tests|
    ensures forall i :: 0 <= i < |t.excludeTags| ==> r[i].key == t.excludeTags[i].0
    ensures forall i :: |t.excludeTags| <= i < |r| ==> r[i] == t.tests[i - |t.excludeTags|]
  {
    seq(|t.excludeTags|, i requires 0 <= i < |t.excludeTags| => Exclude(t.excludeTags[i])) + t.tests
  }

  /** `addFilters`, for one table. */
  function TestFilters(t: Table): (r: seq<Filter>)
    ensures |r| == |Tests(t)|
    ensures forall i :: 0 <= i < |r| ==> r[i] == KeyFilter(Tests(t)[i].key, Tests(t)[i].test)
  {
    seq(|Tests(t)|, i requires 0 <= i < |Tests(t)| => KeyFilter(Tests(t)[i].key, Tests(t)[i].test))
  }

  /** `addTypedFilters`, for one table. */
  function TypedFilters(conf: Conf, kind: Kind, t: Table): (r: seq<Filter>)
  {
    if !For(t, kind) then []
    else if t.kind.LineString? && conf.areaTags.Some? then [LineFilter(conf.areaTags.value)]
    else if t.kind.Polygon? && conf.linearTags.Some? then [PolygonFilter(conf.linearTags.value)]
    else []
  }

  /** `addRelationFilters`, for one table. */
  function RelationFilters(t: Table): (r: seq<Filter>)
  {
    if t.relationTypes.Some? then [TypeFilter(t.relationTypes.value)]
    else if t.kind.Polygon? then [TypeFilter(["multipolygon", "boundary", "land_area"])]
    else []
  }

  /** Filters are appended for every table. */
  method AddFilters(conf: Conf, per: Table -> seq<Filter>, filters: map<string, seq<Filter>>)
      returns (r: map<string, seq<Filter>>)
    ensures forall name ::
      FiltersOf(r, name) == FiltersOf(filters, name) + if name in conf.tables then per(conf.tables[name]) else []
  {
    r := filters;
    var todo := conf.tables.Keys;
    while todo != {}
      invariant todo <= conf.tables.Keys
      invariant forall name ::
        FiltersOf(r, name) == FiltersOf(filters, name) +
          if name in conf.tables && name !in todo then per(conf.tables[name]) else []
      decreases |todo|
    {
      var name := AnyOf(todo);
      todo := todo - {name};
      r := r[name := FiltersOf(r, name) + per(conf.tables[name])];
    }
  }

  // Matchers

  /** The tests of every table of a kind, and those for closed ways. */
  ghost predicate FiltersFor(conf: Conf, kind: Kind, filters: map<string, seq<Filter>>)
  {
    forall name <- conf.tables :: For(conf.tables[name], kind) ==>
      FiltersOf(filters, name) == TestFilters(conf.tables[name]) + TypedFilters(conf, kind, conf.tables[name])
  }

  ghost predicate MatcherFor(conf: Conf, kind: Kind, tm: TagMatcher)
  {
    && EntriesOf(conf, kind, tm.mappings)
    && FiltersFor(conf, kind, tm.filters)
  }

  ghost predicate RelationMatcherFor(conf: Conf, kind: Kind, tm: TagMatcher)
  {
    MatcherFor(conf, kind, tm) &&
    forall name <- conf.tables :: FiltersOf(tm.relFilters, name) == RelationFilters(conf.tables[name])
  }

  lemma NoFilters()
    ensures forall name :: FiltersOf(map[], name) == []
  {
  }

  method MakeFilters(conf: Conf, kind: Kind) returns (filters: map<string, seq<Filter>>)
    ensures FiltersFor(conf, kind, filters)
  {
    hide FiltersOf, TestFilters, TypedFilters;
    NoFilters();
    filters := AddFilters(conf, TestFilters, map[]);
    if kind.Relation? {
      // for polygon tables, which are not among those that relations match
      forall t: Table | For(t, kind) ensures TypedFilters(conf, Polygon, t) == [] { NotPolygon(conf, t); }
      filters := AddFilters(conf, t => TypedFilters(conf, Polygon, t), filters);
    }
    filters := AddFilters(conf, t => TypedFilters(conf, kind, t), filters);
  }

  lemma NotPolygon(conf: Conf, t: Table)
    requires For(t, Relation)
    ensures TypedFilters(conf, Polygon, t) == []
  {
  }

  /** `pointMatcher` and `lineStringMatcher`. */
  method SimpleMatcher(conf: Conf, kind: Kind) returns (tm: TagMatcher)
    ensures MatcherFor(conf, kind, tm) && !tm.matchAreas && tm.relFilters == map[]
  {
    hide Mapped, Grown, Maps, FiltersFor;
    EmptyMapping();
    var mappings := AddMappings(conf, kind, map[]);
    var filters := MakeFilters(conf, kind);
    tm := TagMatcher(mappings, filters, map[], false);
  }

  lemma EmptyMapping()
    ensures forall k, v, e :: !Mapped(map[], k, v, e)
  {
  }

  /** `polygonMatcher`, `relationMatcher` and `relationMemberMatcher`. */
  method AreaMatcher(conf: Conf, kind: Kind) returns (tm: TagMatcher)
    ensures RelationMatcherFor(conf, kind, tm) && tm.matchAreas
  {
    hide Mapped, Grown, Maps, FiltersFor, FiltersOf, RelationFilters;
    EmptyMapping();
    var mappings := AddMappings(conf, kind, map[]);
    var filters := MakeFilters(conf, kind);
    NoFilters();
    var relFilters := AddFilters(conf, RelationFilters, map[]);
    tm := TagMatcher(mappings, filters, relFilters, true);
  }

  // Tag filters

  /** `asTagMap`. */
  function AsTagMap(tt: TagTableMapping): (r: map<string, set<string>>)
    ensures forall k, v :: InTable(tt, k, v) <==> k in r && v in r[k]
  {
    map k <- tt :: tt[k].Keys
  }

  /** The types of common relations, which are always kept. */
  const COMMON_TYPES := {"multipolygon", "boundary", "land_area"}

  ghost predicate MapsSome(conf: Conf, mapped: set<Kind>, k: string, v: string)
  {
    exists kind, e :: kind in mapped && Maps(conf, kind, k, v, e)
  }

  /** A tag filter keeps exactly what the tables of some kinds map, what those of others need, and some types. */
  ghost predicate FilterFor(conf: Conf, mapped: set<Kind>, needed: set<Kind>, types: set<string>, f: TagFilter)
  {
    && (forall k, v :: HasValue(f, k, v) <==> (k == "type" && v in types) || MapsSome(conf, mapped, k, v))
    && (forall k :: k in f.extraTags <==> exists kind <- needed :: Extra(conf, kind, k))
  }

  ghost predicate NodeFilterFor(conf: Conf, f: TagFilter)
  {
    FilterFor(conf, {Point}, {Point, RelationMember}, {}, f)
  }

  ghost predicate WayFilterFor(conf: Conf, f: TagFilter)
  {
    FilterFor(conf, {LineString, Polygon}, {LineString, Polygon, RelationMember}, {}, f)
  }

  ghost predicate RelationFilterFor(conf: Conf, f: TagFilter)
  {
    var kinds := {LineString, Polygon, Relation, RelationMember};
    FilterFor(conf, kinds, kinds, COMMON_TYPES, f)
  }

  /** A mapping that has grown from the values of some types. */
  ghost predicate GrownFor(conf: Conf, mapped: set<Kind>, types: set<string>, tt: TagTableMapping)
  {
    && (forall k, v, e :: Mapped(tt, k, v, e) <==> exists kind :: kind in mapped && Maps(conf, kind, k, v, e))
    && (forall k, v :: InTable(tt, k, v) <==> (k == "type" && v in types) || MapsSome(conf, mapped, k, v))
  }

  lemma GrowFor(conf: Conf, mapped: set<Kind>, types: set<string>, less: TagTableMapping, kind: Kind,
                more: TagTableMapping)
    requires GrownFor(conf, mapped, types, less) && Grown(less, more)
    requires forall k, v, e :: Mapped(more, k, v, e) <==> Mapped(less, k, v, e) || Maps(conf, kind, k, v, e)
    ensures GrownFor(conf, mapped + {kind}, types, more)
  {
    hide Maps;
    forall k, v | InTable(more, k, v)
      ensures (k == "type" && v in types) || MapsSome(conf, mapped + {kind}, k, v)
    {
      if !InTable(less, k, v) {
        var e :| Mapped(more, k, v, e);
      }
    }
    forall k, v | MapsSome(conf, mapped + {kind}, k, v) ensures InTable(more, k, v) {
      var some, e :| some in mapped + {kind} && Maps(conf, some, k, v, e);
      assert Mapped(more, k, v, e);
    }
  }

  lemma GrowFromTypes(conf: Conf, types: set<string>, tt: TagTableMapping)
    requires forall k, v :: InTable(tt, k, v) <==> k == "type" && v in types
    requires forall k, v, e :: !Mapped(tt, k, v, e)
    ensures GrownFor(conf, {}, types, tt)
  {
  }

  lemma FilterGrown(conf: Conf, mapped: set<Kind>, needed: set<Kind>, types: set<string>, tt: TagTableMapping,
                    f: TagFilter)
    requires GrownFor(conf, mapped, types, tt) && f.mappings == AsTagMap(tt)
    requires forall k :: k in f.extraTags <==> exists kind <- needed :: Extra(conf, kind, k)
    ensures FilterFor(conf, mapped, needed, types, f)
  {
    hide Extra, Maps, Mapped, MapsSome;
    assert forall k, v :: HasValue(f, k, v) <==> InTable(tt, k, v);
  }

  /** `NodeTagFilter`. */
  method NodeTagFilter(conf: Conf) returns (f: TagFilter)
    ensures NodeFilterFor(conf, f)
  {
    GrowFromTypes(conf, {}, map[]);
    hide Grown, GrownFor, Maps, Mapped, Extra, FilterFor;
    var mappings := AddMappings(conf, Point, map[]);
    GrowFor(conf, {}, {}, map[], Point, mappings);
    var tags := ExtraTags(conf, Point, {});
    tags := ExtraTags(conf, RelationMember, tags);
    f := TagFilter(AsTagMap(mappings), tags);
    assert {Point} == {} + {Point};
    FilterGrown(conf, {Point}, {Point, RelationMember}, {}, mappings, f);
  }

  /** `WayTagFilter`. */
  method WayTagFilter(conf: Conf) returns (f: TagFilter)
    ensures WayFilterFor(conf, f)
  {
    GrowFromTypes(conf, {}, map[]);
    hide Grown, GrownFor, Maps, Mapped, Extra, FilterFor;
    var lines := AddMappings(conf, LineString, map[]);
    GrowFor(conf, {}, {}, map[], LineString, lines);
    var mappings := AddMappings(conf, Polygon, lines);
    GrowFor(conf, {} + {LineString}, {}, lines, Polygon, mappings);
    var tags := ExtraTags(conf, LineString, {});
    tags := ExtraTags(conf, Polygon, tags);
    tags := ExtraTags(conf, RelationMember, tags);
    f := TagFilter(AsTagMap(mappings), tags);
    assert {LineString, Polygon} == {} + {LineString} + {Polygon};
    FilterGrown(conf, {LineString, Polygon}, {LineString, Polygon, RelationMember}, {}, mappings, f);
  }

  /** `RelationTagFilter`: the types of common relations are kept. */
  method RelationTagFilter(conf: Conf) returns (f: TagFilter)
    ensures RelationFilterFor(conf, f)
  {
    var start: TagTableMapping := map["type" := map["multipolygon" := [], "boundary" := [], "land_area" := []]];
    GrowFromTypes(conf, COMMON_TYPES, start);
    hide Grown, GrownFor, Maps, Mapped, Extra, FilterFor;
    var lines := AddMappings(conf, LineString, start);
    GrowFor(conf, {}, COMMON_TYPES, start, LineString, lines);
    var areas := AddMappings(conf, Polygon, lines);
    GrowFor(conf, {} + {LineString}, COMMON_TYPES, lines, Polygon, areas);
    var relations := AddMappings(conf, Relation, areas);
    GrowFor(conf, {} + {LineString} + {Polygon}, COMMON_TYPES, areas, Relation, relations);
    var mappings := AddMappings(conf, RelationMember, relations);
    GrowFor(conf, {} + {LineString} + {Polygon} + {Relation}, COMMON_TYPES, relations, RelationMember, mappings);
    var tags := ExtraTags(conf, LineString, {});
    tags := ExtraTags(conf, Polygon, tags);
    tags := ExtraTags(conf, Relation, tags);
    tags := ExtraTags(conf, RelationMember, tags);
    f := TagFilter(AsTagMap(mappings), tags);
    ghost var kinds := {LineString, Polygon, Relation, RelationMember};
    assert kinds == {} + {LineString} + {Polygon} + {Relation} + {RelationMember};
    FilterGrown(conf, kinds, kinds, COMMON_TYPES, mappings, f);
  }

  /** The outcome of `require`, `reject` and their regular expressions, in tables of a kind, is that of all tags. */
  ghost predicate TestsKept(conf: Conf, kind: Kind, f: TagFilter)
  {
    forall name <- conf.tables :: For(conf.tables[name], kind) ==> TableTestsKept(conf.tables[name], f)
  }

  ghost predicate TableTestsKept(t: Table, f: TagFilter)
  {
    forall i :: 0 <= i < |t.tests| ==> Unaffected(f, t.tests[i].key, t.tests[i].test)
  }

  lemma ExcludedKept(conf: Conf, mapped: set<Kind>, needed: set<Kind>, types: set<string>, f: TagFilter,
                     kind: Kind, name: string, i: nat)
    requires FilterFor(conf, mapped, needed, types, f) && kind in needed
    requires name in conf.tables && For(conf.tables[name], kind) && i < |conf.tables[name].excludeTags|
    ensures conf.tables[name].excludeTags[i].0 in f.extraTags
  {
    hide Maps;
    assert TableNeeds(conf.tables[name], kind, conf.tables[name].excludeTags[i].0);
  }

  lemma AreaKept(conf: Conf, mapped: set<Kind>, needed: set<Kind>, types: set<string>, f: TagFilter, kind: Kind)
    requires FilterFor(conf, mapped, needed, types, f) && kind in needed
    ensures "area" in f.extraTags
  {
    assert Extra(conf, kind, "area");
  }

  lemma TableCovered(conf: Conf, mapped: set<Kind>, needed: set<Kind>, types: set<string>, f: TagFilter,
                     kind: Kind, tm: TagMatcher, name: string)
    requires FilterFor(conf, mapped, needed, types, f) && kind in needed && TestsKept(conf, kind, f)
    requires name in conf.tables && For(conf.tables[name], kind) && FiltersFor(conf, kind, tm.filters)
    ensures ReadsTable(f, tm, false, name)
  {
    hide FilterFor;
    var t := conf.tables[name];
    AreaKept(conf, mapped, needed, types, f, kind);
    forall i | 0 <= i < |t.excludeTags| ensures t.excludeTags[i].0 in f.extraTags {
      ExcludedKept(conf, mapped, needed, types, f, kind, name, i);
    }
  }

  lemma TypeKept(conf: Conf, mapped: set<Kind>, needed: set<Kind>, types: set<string>, f: TagFilter,
                 kind: Kind, name: string)
    requires FilterFor(conf, mapped, needed, types, f) && kind in needed
    requires name in conf.tables && For(conf.tables[name], kind)
    requires kind.Polygon? || kind.Relation? || kind.RelationMember?
    requires COMMON_TYPES <= types
    ensures forall filter <- RelationFilters(conf.tables[name]) :: Reads(f, filter)
  {
    hide Maps;
    var t := conf.tables[name];
    if t.relationTypes.Some? { assert TableNeeds(t, kind, "type"); }
  }

  lemma EntriesKept(conf: Conf, mapped: set<Kind>, needed: set<Kind>, types: set<string>, f: TagFilter,
                    kind: Kind, tm: TagMatcher)
    requires FilterFor(conf, mapped, needed, types, f) && kind in mapped && EntriesOf(conf, kind, tm.mappings)
    ensures KeepsEntries(f, tm)
  {
    hide Extra, Entries;
    forall k, v, e | e in Entries(tm.mappings, k, v) ensures HasValue(f, k, v) {
      assert Mapped(tm.mappings, k, v, e);
    }
  }

  /** A filter for all kinds of an element covers a matcher for one of them. */
  lemma MatcherCovered(conf: Conf, mapped: set<Kind>, needed: set<Kind>, types: set<string>, f: TagFilter,
                       kind: Kind, tm: TagMatcher)
    requires FilterFor(conf, mapped, needed, types, f) && kind in mapped && kind in needed && TestsKept(conf, kind, f)
    requires MatcherFor(conf, kind, tm)
    ensures Covers(f, tm, false)
  {
    hide FiltersFor, ReadsTable, TestsKept, Extra, Entries;
    AreaKept(conf, mapped, needed, types, f, kind);
    EntriesKept(conf, mapped, needed, types, f, kind, tm);
    forall k, v, e | e in Entries(tm.mappings, k, v) ensures ReadsTable(f, tm, false, e.dest.name) {
      assert Mapped(tm.mappings, k, v, e);
      TableCovered(conf, mapped, needed, types, f, kind, tm, e.dest.name);
    }
  }

  lemma RelationMatcherCovered(conf: Conf, mapped: set<Kind>, needed: set<Kind>, types: set<string>, f: TagFilter,
                               kind: Kind, tm: TagMatcher)
    requires FilterFor(conf, mapped, needed, types, f) && kind in mapped && kind in needed && TestsKept(conf, kind, f)
    requires kind.Polygon? || kind.Relation? || kind.RelationMember?
    requires COMMON_TYPES <= types
    requires RelationMatcherFor(conf, kind, tm)
    ensures Covers(f, tm, true)
  {
    hide FiltersFor, TestsKept, Extra, Entries, FilterFor, FiltersOf, RelationFilters, Reads;
    MatcherCovered(conf, mapped, needed, types, f, kind, tm);
    forall k, v, e | e in Entries(tm.mappings, k, v) ensures ReadsTable(f, tm, true, e.dest.name) {
      assert Mapped(tm.mappings, k, v, e);
      assert ReadsTable(f, tm, false, e.dest.name);
      TypeKept(conf, mapped, needed, types, f, kind, e.dest.name);
    }
  }

  // What is read with a filter is matched like the original

  lemma NodesCovered(conf: Conf, f: TagFilter, tm: TagMatcher)
    requires NodeFilterFor(conf, f) && TestsKept(conf, Point, f) && MatcherFor(conf, Point, tm)
    ensures Covers(f, tm, false)
  {
    hide FilterFor, TestsKept, MatcherFor, RelationMatcherFor, Covers;
    MatcherCovered(conf, {Point}, {Point, RelationMember}, {}, f, Point, tm);
  }

  /** For lines and for polygons. */
  lemma WaysCovered(conf: Conf, f: TagFilter, kind: Kind, tm: TagMatcher)
    requires WayFilterFor(conf, f) && TestsKept(conf, kind, f)
    requires (kind.LineString? || kind.Polygon?) && MatcherFor(conf, kind, tm)
    ensures Covers(f, tm, false)
  {
    hide FilterFor, TestsKept, MatcherFor, RelationMatcherFor, Covers;
    MatcherCovered(conf, {LineString, Polygon}, {LineString, Polygon, RelationMember}, {}, f, kind, tm);
  }

  /** For polygons, relations and relation members. */
  lemma RelationsCovered(conf: Conf, f: TagFilter, kind: Kind, tm: TagMatcher)
    requires RelationFilterFor(conf, f)
    requires TestsKept(conf, kind, f) && (kind.Polygon? || kind.Relation? || kind.RelationMember?)
    requires RelationMatcherFor(conf, kind, tm)
    ensures Covers(f, tm, true)
  {
    hide FilterFor, TestsKept, MatcherFor, RelationMatcherFor, Covers;
    var kinds := {LineString, Polygon, Relation, RelationMember};
    RelationMatcherCovered(conf, kinds, kinds, COMMON_TYPES, f, kind, tm);
  }

  lemma NodesKeepMatches(conf: Conf, f: TagFilter, tm: TagMatcher, tags: Tags, m: Match)
    requires NodeFilterFor(conf, f) && TestsKept(conf, Point, f) && MatcherFor(conf, Point, tm)
    ensures Selected(tm, Filtered(f, tags), false, false, m) <==> Selected(tm, tags, false, false, m)
  {
    hide *;
    NodesCovered(conf, f, tm);
    FilterKeepsMatches(f, tm, false, tags, false, m);
  }

  lemma WaysKeepMatches(conf: Conf, f: TagFilter, kind: Kind, tm: TagMatcher, tags: Tags, closed: bool, m: Match)
    requires WayFilterFor(conf, f) && TestsKept(conf, kind, f)
    requires (kind.LineString? || kind.Polygon?) && MatcherFor(conf, kind, tm)
    ensures WaySelected(tm, Filtered(f, tags), closed, m) <==> WaySelected(tm, tags, closed, m)
  {
    hide *;
    WaysCovered(conf, f, kind, tm);
    FilterKeepsWay(f, tm, tags, closed, m);
  }

  lemma RelationsKeepMatches(conf: Conf, f: TagFilter, kind: Kind, tm: TagMatcher, tags: Tags, m: Match)
    requires RelationFilterFor(conf, f)
    requires TestsKept(conf, kind, f) && (kind.Polygon? || kind.Relation? || kind.RelationMember?)
    requires RelationMatcherFor(conf, kind, tm)
    ensures Selected(tm, Filtered(f, tags), true, true, m) <==> Selected(tm, tags, true, true, m)
  {
    hide *;
    RelationsCovered(conf, f, kind, tm);
    FilterKeepsMatches(f, tm, true, tags, true, m);
  }

  // Exactly when it is

  ghost predicate SameSelected(f: TagFilter, tm: TagMatcher, closed: bool, relation: bool, dest: DestTable, tags: Tags)
  {
    forall m: Match :: m.table == dest ==>
      (Selected(tm, Filtered(f, tags), closed, relation, m) <==> Selected(tm, tags, closed, relation, m))
  }

  ghost predicate SameWay(f: TagFilter, tm: TagMatcher, closed: bool, dest: DestTable, tags: Tags)
  {
    forall m: Match :: m.table == dest ==>
      (WaySelected(tm, Filtered(f, tags), closed, m) <==> WaySelected(tm, tags, closed, m))
  }

  /** The filters for closed ways of a table. */
  function TypedGate(conf: Conf, kind: Kind, t: Table, closed: bool): (gate: Gate)
  {
    (key: string, area: Option<string>) =>
      if !For(t, kind) then true
      else if t.kind.LineString? && conf.areaTags.Some? then
        closed ==> area != Some("yes") && (area != Some("no") ==> key !in conf.areaTags.value)
      else if t.kind.Polygon? && conf.linearTags.Some? then
        !(closed && area == Some("no")) && (area != Some("yes") ==> key !in conf.linearTags.value)
      else true
  }

  /** Those and what a matcher makes of the area tag of a way. */
  function WayGate(conf: Conf, kind: Kind, t: Table, areas: bool, closed: bool): (gate: Gate)
  {
    (key: string, area: Option<string>) =>
      && (if areas then closed && area != Some("no") else !(closed && area == Some("yes")))
      && TypedGate(conf, kind, t, closed)(key, area)
  }

  function RelationTests(t: Table): (r: seq<Test>)
  {
    if t.relationTypes.Some? then [OfType(t.relationTypes.value)]
    else if t.kind.Polygon? then [OfType(["multipolygon", "boundary", "land_area"])]
    else []
  }

  function OfType(types: seq<string>): (t: Test)
  {
    Test("type", (v: Option<string>) => v.Some? && v.value in types)
  }

  lemma TestsHold(t: Table, tags: Tags, key: string, closed: bool)
    ensures HoldAll(TestFilters(t), tags, key, closed) <==> Met(Tests(t), tags)
  {
    hide TestFilters, Tests, Lookup;
    var filters, tests := TestFilters(t), Tests(t);
    forall i | 0 <= i < |tests|
      ensures Holds(filters[i], tags, key, closed) <==> tests[i].test(Lookup(tags, tests[i].key))
    {
    }
  }

  lemma TypedHold(conf: Conf, kind: Kind, t: Table, tags: Tags, key: string, closed: bool)
    ensures HoldAll(TypedFilters(conf, kind, t), tags, key, closed) <==>
      TypedGate(conf, kind, t, closed)(key, Lookup(tags, "area"))
  {
    var filters := TypedFilters(conf, kind, t);
    assert filters != [] ==> (HoldAll(filters, tags, key, closed) <==> Holds(filters[0], tags, key, closed));
  }

  lemma RelationHold(t: Table, tags: Tags, key: string, closed: bool)
    ensures HoldAll(RelationFilters(t), tags, key, closed) <==> Met(RelationTests(t), tags)
  {
    if t.relationTypes.Some? {
      TypeHolds(t.relationTypes.value, tags, key, closed);
    } else if t.kind.Polygon? {
      TypeHolds(["multipolygon", "boundary", "land_area"], tags, key, closed);
    }
  }

  lemma TypeHolds(types: seq<string>, tags: Tags, key: string, closed: bool)
    ensures HoldAll([TypeFilter(types)], tags, key, closed) <==> Met([OfType(types)], tags)
  {
    var f, t := TypeFilter(types), OfType(types);
    assert HoldAll([f], tags, key, closed) <==> Holds([f][0], tags, key, closed);
    assert Met([t], tags) <==> [t][0].test(Lookup(tags, [t][0].key));
  }

  lemma HoldBoth(a: seq<Filter>, b: seq<Filter>, tags: Tags, key: string, closed: bool)
    ensures HoldAll(a + b, tags, key, closed) <==> HoldAll(a, tags, key, closed) && HoldAll(b, tags, key, closed)
  {
    hide Holds;
    var c := a + b;
    if HoldAll(c, tags, key, closed) {
      forall i | 0 <= i < |a| ensures Holds(a[i], tags, key, closed) { assert c[i] == a[i]; }
      forall i | 0 <= i < |b| ensures Holds(b[i], tags, key, closed) { assert c[|a| + i] == b[i]; }
    }
  }

  lemma MetBoth(a: seq<Test>, b: seq<Test>, tags: Tags)
    ensures Met(a + b, tags) <==> Met(a, tags) && Met(b, tags)
  {
    var c := a + b;
    if Met(c, tags) {
      forall i | 0 <= i < |a| ensures a[i].test(Lookup(tags, a[i].key)) { assert c[i] == a[i]; }
      forall i | 0 <= i < |b| ensures b[i].test(Lookup(tags, b[i].key)) { assert c[|a| + i] == b[i]; }
    }
  }

  /** An element passes the filters of a table if and only if it meets the tests and passes the gate. */
  lemma PassIff(conf: Conf, kind: Kind, tm: TagMatcher, name: string, tags: Tags, key: string, closed: bool)
    requires FiltersFor(conf, kind, tm.filters) && name in conf.tables && For(conf.tables[name], kind)
    ensures HoldAll(FiltersOf(tm.filters, name), tags, key, closed) <==>
      Met(Tests(conf.tables[name]), tags) && TypedGate(conf, kind, conf.tables[name], closed)(key, Lookup(tags, "area"))
  {
    hide HoldAll, Met, TypedFilters, TestFilters, Tests, TypedGate;
    var t := conf.tables[name];
    HoldBoth(TestFilters(t), TypedFilters(conf, kind, t), tags, key, closed);
    TestsHold(t, tags, key, closed);
    TypedHold(conf, kind, t, tags, key, closed);
  }

  lemma SelectedIsPicked(conf: Conf, kind: Kind, tm: TagMatcher, tags: Tags, closed: bool, m: Match)
    requires FiltersFor(conf, kind, tm.filters)
    requires m.table.name in conf.tables && For(conf.tables[m.table.name], kind)
    ensures var t := conf.tables[m.table.name];
      Selected(tm, tags, closed, false, m) <==> PickedAt(tm, Tests(t), TypedGate(conf, kind, t, closed), tags, m)
  {
    hide FiltersFor, Wins, HoldAll, Met, Tests, TypedGate, FiltersOf;
    PassIff(conf, kind, tm, m.table.name, tags, m.key, closed);
  }

  lemma WayIsPicked(conf: Conf, kind: Kind, tm: TagMatcher, tags: Tags, closed: bool, m: Match)
    requires FiltersFor(conf, kind, tm.filters)
    requires m.table.name in conf.tables && For(conf.tables[m.table.name], kind)
    ensures var t := conf.tables[m.table.name];
      WaySelected(tm, tags, closed, m) <==>
        PickedAt(tm, Tests(t), WayGate(conf, kind, t, tm.matchAreas, closed), tags, m)
  {
    hide FiltersFor, Selected, Met, Tests, TypedGate, Winner;
    SelectedIsPicked(conf, kind, tm, tags, closed, m);
  }

  lemma RelationIsPicked(conf: Conf, kind: Kind, tm: TagMatcher, tags: Tags, m: Match)
    requires RelationMatcherFor(conf, kind, tm)
    requires m.table.name in conf.tables && For(conf.tables[m.table.name], kind)
    ensures var t := conf.tables[m.table.name];
      Selected(tm, tags, true, true, m) <==>
        PickedAt(tm, Tests(t) + RelationTests(t), TypedGate(conf, kind, t, true), tags, m)
  {
    hide FiltersFor, Wins, HoldAll, Met, Tests, RelationTests, RelationFilters, TypedGate, FiltersOf, EntriesOf;
    var t := conf.tables[m.table.name];
    PassIff(conf, kind, tm, m.table.name, tags, m.key, true);
    RelationHold(t, tags, m.key, true);
    MetBoth(Tests(t), RelationTests(t), tags);
  }

  /** What leads to a table by the configuration. */
  ghost function ConfAccess(conf: Conf, kind: Kind, dest: DestTable): (r: Access)
  {
    Access(exists e: Entry :: e.dest == dest && Maps(conf, kind, ANY, ANY, e),
           iset k: string, v: string | LeadsTo(conf, kind, dest, k, v) :: (k, v))
  }

  ghost predicate LeadsTo(conf: Conf, kind: Kind, dest: DestTable, k: string, v: string)
  {
    exists e: Entry :: e.dest == dest && (Maps(conf, kind, k, ANY, e) || Maps(conf, kind, k, v, e))
  }

  lemma SameAccess(conf: Conf, kind: Kind, tm: TagMatcher, dest: DestTable)
    requires EntriesOf(conf, kind, tm.mappings)
    ensures AccessTo(tm, dest) == ConfAccess(conf, kind, dest)
  {
    hide Maps, Entries;
    var a, b := AccessTo(tm, dest), ConfAccess(conf, kind, dest);
    forall k, v, e ensures e in Entries(tm.mappings, k, v) <==> Maps(conf, kind, k, v, e) {
      assert Mapped(tm.mappings, k, v, e) <==> Maps(conf, kind, k, v, e);
    }
    forall k: string, v: string ensures (k, v) in a.tags <==> (k, v) in b.tags {
      assert (exists e <- TagEntries(tm, k, v) :: e.dest == dest) <==> LeadsTo(conf, kind, dest, k, v);
    }
    assert a.tags == b.tags;
  }

  /** Nodes: the matches for a table are the same on what the filter leaves, for all tags, if and only if the filter
      drops no value that makes a difference to the tests of its key while the tests of all other keys can be met and
      another tag leads to the table. */
  lemma NodesAlikeIff(conf: Conf, f: TagFilter, tm: TagMatcher, dest: DestTable)
    requires NodeFilterFor(conf, f) && MatcherFor(conf, Point, tm)
    requires dest.name in conf.tables && For(conf.tables[dest.name], Point)
    ensures (forall tags: Tags :: SameSelected(f, tm, false, false, dest, tags)) <==>
      !Noticed(f, ConfAccess(conf, Point, dest), DemandOf(Tests(conf.tables[dest.name])))
  {
    hide FilterFor, EntriesOf, FiltersFor, KeepsEntries, Filtered, Selected, Picked, Noticed, ConfAccess, AccessTo,
      Tests;
    var tests := Tests(conf.tables[dest.name]);
    EntriesKept(conf, {Point}, {Point, RelationMember}, {}, f, Point, tm);
    PickedAlikeIff(f, tm, tests, dest);
    SameAccess(conf, Point, tm, dest);
    forall tags: Tags, m: Match | m.table == dest
      ensures Selected(tm, tags, false, false, m) <==> Picked(tm, tests, tags, m)
    {
      NodeIsPicked(conf, tm, tags, m);
    }
    forall tags: Tags ensures SameSelected(f, tm, false, false, dest, tags) <==> SamePicked(f, tm, tests, dest, tags) {}
  }

  lemma NodeIsPicked(conf: Conf, tm: TagMatcher, tags: Tags, m: Match)
    requires FiltersFor(conf, Point, tm.filters)
    requires m.table.name in conf.tables && For(conf.tables[m.table.name], Point)
    ensures Selected(tm, tags, false, false, m) <==> Picked(tm, Tests(conf.tables[m.table.name]), tags, m)
  {
    hide FiltersFor, Selected, Met, Tests, Winner;
    SelectedIsPicked(conf, Point, tm, tags, false, m);
  }

  /** Ways, as lines and as polygons: the same for a candidate that can win and passes the filters for closed ways. */
  lemma WaysAlikeIff(conf: Conf, f: TagFilter, kind: Kind, tm: TagMatcher, closed: bool, dest: DestTable)
    requires WayFilterFor(conf, f) && (kind.LineString? || kind.Polygon?) && MatcherFor(conf, kind, tm)
    requires dest.name in conf.tables && For(conf.tables[dest.name], kind)
    ensures var t := conf.tables[dest.name];
      (forall tags: Tags :: SameWay(f, tm, closed, dest, tags)) <==> !exists c, asTag ::
        NoticedFor(f, tm, Tests(t), WayGate(conf, kind, t, tm.matchAreas, closed), dest, c, asTag)
  {
    hide FilterFor, EntriesOf, FiltersFor, KeepsEntries, Filtered, WaySelected, PickedAt, NoticedFor, Tests, WayGate;
    var kinds, t := {LineString, Polygon}, conf.tables[dest.name];
    EntriesKept(conf, kinds, {LineString, Polygon, RelationMember}, {}, f, kind, tm);
    AreaKept(conf, kinds, {LineString, Polygon, RelationMember}, {}, f, kind);
    var gate := WayGate(conf, kind, t, tm.matchAreas, closed);
    PickedAtAlikeIff(f, tm, Tests(t), gate, dest);
    forall tags: Tags, m: Match | m.table == dest
      ensures WaySelected(tm, tags, closed, m) <==> PickedAt(tm, Tests(t), gate, tags, m)
    {
      WayIsPicked(conf, kind, tm, tags, closed, m);
    }
    forall tags: Tags ensures SameWay(f, tm, closed, dest, tags) <==> SamePickedAt(f, tm, Tests(t), gate, dest, tags) {}
  }

  /** Relations, in all three matchers: the same, with the test of the type besides. */
  lemma RelationsAlikeIff(conf: Conf, f: TagFilter, kind: Kind, tm: TagMatcher, dest: DestTable)
    requires RelationFilterFor(conf, f) && RelationMatcherFor(conf, kind, tm)
    requires kind.Polygon? || kind.Relation? || kind.RelationMember?
    requires dest.name in conf.tables && For(conf.tables[dest.name], kind)
    ensures var t := conf.tables[dest.name];
      (forall tags: Tags :: SameSelected(f, tm, true, true, dest, tags)) <==> !exists c, asTag ::
        NoticedFor(f, tm, Tests(t) + RelationTests(t), TypedGate(conf, kind, t, true), dest, c, asTag)
  {
    hide FilterFor, EntriesOf, FiltersFor, FiltersOf, KeepsEntries, Filtered, Selected, PickedAt, NoticedFor, Tests,
      RelationTests, TypedGate;
    var kinds, t := {LineString, Polygon, Relation, RelationMember}, conf.tables[dest.name];
    EntriesKept(conf, kinds, kinds, COMMON_TYPES, f, kind, tm);
    AreaKept(conf, kinds, kinds, COMMON_TYPES, f, kind);
    var tests, gate := Tests(t) + RelationTests(t), TypedGate(conf, kind, t, true);
    PickedAtAlikeIff(f, tm, tests, gate, dest);
    forall tags: Tags, m: Match | m.table == dest
      ensures Selected(tm, tags, true, true, m) <==> PickedAt(tm, tests, gate, tags, m)
    {
      RelationIsPicked(conf, kind, tm, tags, m);
    }
    forall tags: Tags
      ensures SameSelected(f, tm, true, true, dest, tags) <==> SamePickedAt(f, tm, tests, gate, dest, tags)
    {
    }
  }

  // What the configuration asks for, spelled out

  /** The element has none of the tags that the table excludes. */
  predicate NoneExcluded(t: Table, tags: Tags)
  {
    forall i :: 0 <= i < |t.excludeTags| ==>
      var (k, v) := t.excludeTags[i];
      !(k in tags && (v == "__any__" || tags[k] == v))
  }

  lemma TestsMetIff(t: Table, tags: Tags)
    ensures Met(Tests(t), tags) <==> NoneExcluded(t, tags) && Met(t.tests, tags)
  {
    var tests, n := Tests(t), |t.excludeTags|;
    assert forall i :: 0 <= i < |t.tests| ==> tests[n + i] == t.tests[i];
    assert forall i :: 0 <= i < n ==> tests[i] == Exclude(t.excludeTags[i]);
    if Met(tests, tags) {
      forall i | 0 <= i < n ensures tests[i].test(Lookup(tags, tests[i].key)) {}
      forall i | 0 <= i < |t.tests| ensures t.tests[i].test(Lookup(tags, t.tests[i].key)) {
        assert tests[n + i].test(Lookup(tags, tests[n + i].key));
      }
    }
  }

  /** A node is matched to a table just if it wins, has no excluded tag and meets all other tests of the table. */
  lemma NodeSelectedIff(conf: Conf, tm: TagMatcher, tags: Tags, m: Match)
    requires MatcherFor(conf, Point, tm) && m.table.name in conf.tables && For(conf.tables[m.table.name], Point)
    ensures var t := conf.tables[m.table.name];
      Selected(tm, tags, false, false, m) <==> Winner(tm, tags, m) && NoneExcluded(t, tags) && Met(t.tests, tags)
  {
    hide EntriesOf, FiltersFor, Selected, Winner, Met, Tests;
    NodeIsPicked(conf, tm, tags, m);
    TestsMetIff(conf.tables[m.table.name], tags);
  }

  /** In no matcher an element with an excluded tag is matched to the table, nor one that fails a test. */
  lemma NeverExcluded(conf: Conf, kind: Kind, tm: TagMatcher, tags: Tags, closed: bool, relation: bool, m: Match)
    requires MatcherFor(conf, kind, tm) && m.table.name in conf.tables && For(conf.tables[m.table.name], kind)
    requires Selected(tm, tags, closed, relation, m)
    ensures NoneExcluded(conf.tables[m.table.name], tags) && Met(conf.tables[m.table.name].tests, tags)
  {
    hide EntriesOf, FiltersFor, Wins, HoldAll, Met, Tests, FiltersOf, TypedGate;
    PassIff(conf, kind, tm, m.table.name, tags, m.key, closed);
    TestsMetIff(conf.tables[m.table.name], tags);
  }

  /** A relation is matched to a table only if it has one of the types of the table, where there are any. */
  lemma OfItsTypes(conf: Conf, kind: Kind, tm: TagMatcher, tags: Tags, m: Match)
    requires RelationMatcherFor(conf, kind, tm) && m.table.name in conf.tables
    requires Selected(tm, tags, true, true, m)
    ensures var t := conf.tables[m.table.name];
      && (t.relationTypes.Some? ==> "type" in tags && tags["type"] in t.relationTypes.value)
      && (t.relationTypes.None? && t.kind.Polygon? ==>
          "type" in tags && tags["type"] in ["multipolygon", "boundary", "land_area"])
  {
    hide EntriesOf, FiltersFor, Wins, FiltersOf;
    var t := conf.tables[m.table.name];
    if RelationFilters(t) != [] { assert Holds(RelationFilters(t)[0], tags, m.key, true); }
  }

  /** What columns are made from is not dropped, nor is what the configuration includes. */
  lemma ColumnsKept(conf: Conf, mapped: set<Kind>, needed: set<Kind>, types: set<string>, f: TagFilter,
                    kind: Kind, tags: Tags, k: string)
    requires FilterFor(conf, mapped, needed, types, f) && kind in needed
    requires k in conf.includeTags || exists name <- conf.tables ::
      (conf.tables[name].kind == Geometry || conf.tables[name].kind == kind) && k in conf.tables[name].columnKeys
    ensures Lookup(Filtered(f, tags), k) == Lookup(tags, k)
  {
    hide Maps;
    if k !in conf.includeTags {
      var name :| name in conf.tables && (conf.tables[name].kind == Geometry || conf.tables[name].kind == kind) &&
        k in conf.tables[name].columnKeys;
      assert TableNeeds(conf.tables[name], kind, k);
    }
    assert Extra(conf, kind, k);
  }

  /** The match is for a pair of tags, a key or anything that one of the fields for the kind leads to the table. */
  ghost predicate FieldMatch(conf: Conf, kind: Kind, tags: Tags, m: Match)
  {
    || (m.key == "__any__" && m.value == "__any__" &&
        exists order :: FieldMaps(conf, kind, m.table, "__any__", "__any__", order))
    || (m.key in tags && tags[m.key] == m.value &&
        exists v, order :: v in ["__any__", m.value] && FieldMaps(conf, kind, m.table, m.key, v, order))
  }

  lemma MatchFromField(conf: Conf, kind: Kind, tm: TagMatcher, tags: Tags, c: Candidate)
    requires EntriesOf(conf, kind, tm.mappings) && IsCandidate(tm, tags, c)
    ensures FieldMatch(conf, kind, tags, MatchOf(c))
  {
    hide Maps, Entries, FieldMaps;
    var k, v, e := c.key, c.value, c.entry;
    if FromAny(tm, c) {
      assert Mapped(tm.mappings, ANY, ANY, e);
      MapsByField(conf, kind, ANY, ANY, e);
    } else if e in Entries(tm.mappings, k, ANY) {
      assert Mapped(tm.mappings, k, ANY, e);
      MapsByField(conf, kind, k, ANY, e);
    } else {
      assert Mapped(tm.mappings, k, v, e);
      MapsByField(conf, kind, k, v, e);
    }
  }

  /** And where a field leads from a tag to a table, there is a match that can be taken for it. */
  lemma FieldReaches(conf: Conf, kind: Kind, tm: TagMatcher, tags: Tags, dest: DestTable, k: string, order: int)
    requires EntriesOf(conf, kind, tm.mappings) && k in tags
    requires FieldMaps(conf, kind, dest, k, "__any__", order) || FieldMaps(conf, kind, dest, k, tags[k], order)
    ensures exists m: Match :: m.table == dest && Winner(tm, tags, m)
  {
    hide Maps, Entries, FieldMaps, Wins, AccessTo;
    var e := Entry(dest, order);
    MapsByField(conf, kind, k, ANY, e);
    MapsByField(conf, kind, k, tags[k], e);
    assert Mapped(tm.mappings, k, ANY, e) || Mapped(tm.mappings, k, tags[k], e);
    assert IsCandidate(tm, tags, Candidate(k, tags[k], e));
    ReachedIff(tm, dest, tags);
    var c := SomeWinner(tm, dest, tags);
    IsWinner(tm, tags, c);
    assert MatchOf(c).table == dest;
  }

  lemma ResultFromFields(conf: Conf, kind: Kind, tm: TagMatcher, tags: Tags, closed: bool, relation: bool,
                         matches: seq<Match>)
    requires EntriesOf(conf, kind, tm.mappings) && Result(tm, tags, closed, relation, matches)
    ensures forall m <- matches :: FieldMatch(conf, kind, tags, m)
  {
    hide EntriesOf, FieldMatch, OrderOf, Walk, FromTag, FromAny, IsFirst;
    var order :| OrderOf(tags, order) && ResultOf(tm, tags, closed, relation, Walk(tm, tags, order), matches);
    WalkIsChoice(tm, tags, order);
    forall m <- matches ensures FieldMatch(conf, kind, tags, m) {
      var c := Walk(tm, tags, order)[m.table];
      assert IsCandidate(tm, tags, c) by { WinnerIsCandidate(tm, tags, c); }
      MatchFromField(conf, kind, tm, tags, c);
    }
  }

  lemma WinnerIsCandidate(tm: TagMatcher, tags: Tags, c: Candidate)
    requires Wins(tm, tags, c)
    ensures IsCandidate(tm, tags, c)
  {
  }

  /** Fewer tags give no other fields. */
  lemma FieldMatchMore(conf: Conf, kind: Kind, f: TagFilter, tags: Tags, m: Match)
    requires FieldMatch(conf, kind, Filtered(f, tags), m)
    ensures FieldMatch(conf, kind, tags, m)
  {
    hide FieldMaps;
  }

  lemma ReadFromFields(conf: Conf, kind: Kind, f: TagFilter, tm: TagMatcher, tags: Tags, closed: bool, relation: bool,
                       matches: seq<Match>)
    requires MatcherFor(conf, kind, tm) && Result(tm, Filtered(f, tags), closed, relation, matches)
    ensures forall m <- matches :: FieldMatch(conf, kind, tags, m)
  {
    hide EntriesOf, FiltersFor, Result, FieldMatch, Filtered;
    ResultFromFields(conf, kind, tm, Filtered(f, tags), closed, relation, matches);
    forall m <- matches ensures FieldMatch(conf, kind, tags, m) { FieldMatchMore(conf, kind, f, tags, m); }
  }

  // From the configuration to the matches of what was read

  /** What a filter leaves of an element is matched like the whole of it, ties included; without ties, the matches
      are those that the order of the mapping selects. */
  ghost predicate ResultFor(conf: Conf, kind: Kind, tm: TagMatcher, tags: Tags, closed: bool, relation: bool,
                            matches: seq<Match>)
  {
    && Result(tm, tags, closed, relation, matches)
    && (AllUnambiguous(conf, kind) ==>
        forall m :: m in matches <==> Selected(tm, tags, closed, relation, m))
  }

  lemma MatchedAsRead(conf: Conf, kind: Kind, f: TagFilter, tm: TagMatcher, tags: Tags, closed: bool, relation: bool,
                      matches: seq<Match>)
    requires Covers(f, tm, relation) && MatcherFor(conf, kind, tm)
    requires Result(tm, Filtered(f, tags), closed, relation, matches)
    ensures ResultFor(conf, kind, tm, tags, closed, relation, matches)
  {
    hide Covers, Choice, ResultOf, Selected, Settled, Filtered, EntriesOf, FiltersFor, DistinctOrders, OrderOf, Walk;
    FilterKeepsResult(f, tm, relation, tags, closed, matches);
    if AllUnambiguous(conf, kind) {
      OrdersIff(conf, kind, tm.mappings);
      DistinctIsSettled(tm, tags, closed, relation);
      var order :| OrderOf(tags, order) && ResultOf(tm, tags, closed, relation, Walk(tm, tags, order), matches);
      WalkIsChoice(tm, tags, order);
      AllSelected(tm, tags, closed, relation, Walk(tm, tags, order), matches);
    }
  }

  /** A node: filtered when it is read, matched when it is written. */
  method MatchNode(conf: Conf, tags: Tags) returns (f: TagFilter, tm: TagMatcher, matches: seq<Match>)
    ensures NodeFilterFor(conf, f) && MatcherFor(conf, Point, tm)
    ensures TestsKept(conf, Point, f) ==> ResultFor(conf, Point, tm, tags, false, false, matches)
    ensures forall m <- matches :: FieldMatch(conf, Point, tags, m)
  {
    hide *;
    f := NodeTagFilter(conf);
    tm := SimpleMatcher(conf, Point);
    var read := FilterTags(f, tags);
    matches := MatchTags(tm, read, false, false);
    ReadFromFields(conf, Point, f, tm, tags, false, false, matches);
    if TestsKept(conf, Point, f) {
      NodesCovered(conf, f, tm);
      MatchedAsRead(conf, Point, f, tm, tags, false, false, matches);
    }
  }

  /** A way, as a line or as a polygon. */
  method MatchWayAs(conf: Conf, kind: Kind, tags: Tags, closed: bool)
      returns (f: TagFilter, tm: TagMatcher, matches: seq<Match>)
    requires kind.LineString? || kind.Polygon?
    ensures WayFilterFor(conf, f) && MatcherFor(conf, kind, tm) && tm.matchAreas == kind.Polygon?
    ensures TestsKept(conf, kind, f) ==>
      if TakesWay(tm, tags, closed) then ResultFor(conf, kind, tm, tags, closed, false, matches)
      else matches == []
    ensures forall m <- matches :: FieldMatch(conf, kind, tags, m)
  {
    hide *;
    f := WayTagFilter(conf);
    if kind.LineString? {
      tm := SimpleMatcher(conf, kind);
    } else {
      tm := AreaMatcher(conf, kind);
      IsMatcher(conf, kind, tm);
    }
    var read := FilterTags(f, tags);
    matches := MatchWay(tm, read, closed);
    if TakesWay(tm, read, closed) { ReadFromFields(conf, kind, f, tm, tags, closed, false, matches); }
    if TestsKept(conf, kind, f) {
      WaysCovered(conf, f, kind, tm);
      SameArea(f, tm, tags, closed);
      if TakesWay(tm, tags, closed) {
        MatchedAsRead(conf, kind, f, tm, tags, closed, false, matches);
      }
    }
  }

  lemma IsMatcher(conf: Conf, kind: Kind, tm: TagMatcher)
    requires RelationMatcherFor(conf, kind, tm)
    ensures MatcherFor(conf, kind, tm)
  {
  }

  lemma SameArea(f: TagFilter, tm: TagMatcher, tags: Tags, closed: bool)
    requires Covers(f, tm, false)
    ensures TakesWay(tm, Filtered(f, tags), closed) <==> TakesWay(tm, tags, closed)
  {
    assert Lookup(Filtered(f, tags), "area") == Lookup(tags, "area");
  }

  /** A relation, as a polygon, as itself or by its members. */
  method MatchRelationAs(conf: Conf, kind: Kind, tags: Tags)
      returns (f: TagFilter, tm: TagMatcher, matches: seq<Match>)
    requires kind.Polygon? || kind.Relation? || kind.RelationMember?
    ensures RelationFilterFor(conf, f) && RelationMatcherFor(conf, kind, tm)
    ensures TestsKept(conf, kind, f) ==> ResultFor(conf, kind, tm, tags, true, true, matches)
    ensures forall m <- matches :: FieldMatch(conf, kind, tags, m)
  {
    hide *;
    f := RelationTagFilter(conf);
    tm := AreaMatcher(conf, kind);
    var read := FilterTags(f, tags);
    matches := MatchTags(tm, read, true, true);
    IsMatcher(conf, kind, tm);
    ReadFromFields(conf, kind, f, tm, tags, true, true, matches);
    if TestsKept(conf, kind, f) {
      RelationsCovered(conf, f, kind, tm);
      MatchedAsRead(conf, kind, f, tm, tags, true, true, matches);
    }
  }

  // Some configurations

  /** A mapping and a type mapping for points lead to the same table. */
  function BothMappings(): (conf: Conf)
  {
    var amenity := map["amenity" := [OrderedValue("bar", 0)]];
    var shop := map["shop" := [OrderedValue("food", 0)]];
    Conf(map["t" := Table(Point, amenity, map[], shop, map[], map[], [], [], [], None)], [], None, None)
  }

  /** A table for bars that are in buildings, without a column for buildings. */
  function Required(): (conf: Conf)
  {
    var amenity := map["amenity" := [OrderedValue("bar", 0)]];
    var test := Test("building", (v: Option<string>) => v.Some?);
    Conf(map["t" := Table(Point, amenity, map[], map[], map[], map[], [], [], [test], None)], [], None, None)
  }

  const T := DestTable("t", "")

  lemma OnlyFirst(conf: Conf, tm: TagMatcher, tags: Tags, k: string, v: string)
    requires conf in {BothMappings(), Required()} && EntriesOf(conf, Point, tm.mappings)
    requires k in tags && tags[k] == v && Maps(conf, Point, k, v, Entry(T, 0))
    ensures var c := Candidate(k, v, Entry(T, 0)); FromTag(tm, tags, c) && IsFirst(tm, tags, c)
  {
    hide Entries;
    assert Mapped(tm.mappings, k, v, Entry(T, 0));
    forall d | IsCandidate(tm, tags, d) ensures d.entry.order == 0 {
      assert || Mapped(tm.mappings, d.key, ANY, d.entry) || Mapped(tm.mappings, d.key, d.value, d.entry);
    }
  }

  /** The source takes such a configuration, and two matches compete for one place. */
  lemma Tie(tm: TagMatcher)
    requires MatcherFor(BothMappings(), Point, tm)
    ensures !DistinctOrders(tm.mappings)
    ensures var tags := map["amenity" := "bar", "shop" := "food"];
      && Selected(tm, tags, false, false, Match("amenity", "bar", T))
      && Selected(tm, tags, false, false, Match("shop", "food", T))
      && !Settled(tm, tags, false, false)
  {
    var conf, tags := BothMappings(), map["amenity" := "bar", "shop" := "food"];
    var e := Entry(T, 0);
    var bar, food := Candidate("amenity", "bar", e), Candidate("shop", "food", e);
    assert Mapped(tm.mappings, "amenity", "bar", e) && Mapped(tm.mappings, "shop", "food", e);
    OnlyFirst(conf, tm, tags, "amenity", "bar");
    OnlyFirst(conf, tm, tags, "shop", "food");
    assert FiltersOf(tm.filters, "t") == [];
    assert MatchOf(bar) == Match("amenity", "bar", T) && MatchOf(food) == Match("shop", "food", T);
    assert Tied(tm, tags, bar, food);
  }

  /** An entry for any key and one for a tag, at the same place. */
  function AnyAndTag(): (conf: Conf)
  {
    var all := map[ANY := [OrderedValue(ANY, 0)]];
    var amenity := map["amenity" := [OrderedValue("cafe", 0)]];
    Conf(map["t" := Table(Point, all, map[], amenity, map[], map[], [], [], [], None)], [], None, None)
  }

  /** They have the same place, but do not compete. */
  lemma NoTie(tm: TagMatcher)
    requires MatcherFor(AnyAndTag(), Point, tm)
    ensures !DistinctOrders(tm.mappings)
    ensures AnyOrder(tm, map["amenity" := "cafe"], false, false)
  {
    var e := Entry(T, 0);
    assert Mapped(tm.mappings, ANY, ANY, e) && Mapped(tm.mappings, "amenity", "cafe", e);
    OneResult(tm, map["amenity" := "cafe"], false, false);
  }

  lemma BuildingDropped(f: TagFilter, v: string)
    requires NodeFilterFor(Required(), f)
    ensures !Keeps(f, "building", v)
  {
    assert !MapsSome(Required(), {Point}, "building", v) && !MapsSome(Required(), {Point}, "building", ANY);
    assert forall kind :: !Extra(Required(), kind, "building");
  }

  lemma RequiredFilters(tm: TagMatcher)
    requires MatcherFor(Required(), Point, tm)
    ensures FiltersOf(tm.filters, "t") == [KeyFilter("building", Required().tables["t"].tests[0].test)]
  {
    assert TestFilters(Required().tables["t"]) == [KeyFilter("building", Required().tables["t"].tests[0].test)];
  }

  lemma RequiredNotSelected(tm: TagMatcher, tags: Tags, m: Match)
    requires MatcherFor(Required(), Point, tm) && "building" !in tags
    ensures !Selected(tm, tags, false, false, m)
  {
    hide Entries;
    RequiredFilters(tm);
    forall c | IsCandidate(tm, tags, c) ensures !Passes(tm, tags, c.key, false, false, c.entry.dest.name) {
      assert || Mapped(tm.mappings, c.key, ANY, c.entry) || Mapped(tm.mappings, c.key, c.value, c.entry);
      assert !Holds(FiltersOf(tm.filters, "t")[0], tags, c.key, false);
    }
  }

  /** The filter drops what a `require` filter asks for, so that nothing passes it. */
  lemma RequiredDropped(f: TagFilter, tm: TagMatcher)
    requires NodeFilterFor(Required(), f) && MatcherFor(Required(), Point, tm)
    ensures !TestsKept(Required(), Point, f)
    ensures Noticed(f, ConfAccess(Required(), Point, T), DemandOf(Tests(Required().tables["t"])))
    ensures var tags := map["amenity" := "bar", "building" := "yes"];
      && Selected(tm, tags, false, false, Match("amenity", "bar", T))
      && forall m :: !Selected(tm, Filtered(f, tags), false, false, m)
  {
    var tags := map["amenity" := "bar", "building" := "yes"];
    BuildingDropped(f, "yes");
    assert !Unaffected(f, "building", Required().tables["t"].tests[0].test);
    assert !TableTestsKept(Required().tables["t"], f);
    forall m ensures !Selected(tm, Filtered(f, tags), false, false, m) {
      RequiredNotSelected(tm, Filtered(f, tags), m);
    }
    RequiredFilters(tm);
    OnlyFirst(Required(), tm, tags, "amenity", "bar");
    assert MatchOf(Candidate("amenity", "bar", Entry(T, 0))) == Match("amenity", "bar", T);
    assert !SameSelected(f, tm, false, false, T, tags);
    NodesAlikeIff(Required(), f, tm, T);
  }
}
