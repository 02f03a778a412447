/** Matching tags to tables, and dropping tags that no table needs when elements are read. */
module Matching {
  import opened GoInts
  import opened Orders

  type Tags = map<string, string>

  const ANY := "__any__"

  datatype DestTable = DestTable(name: string, subMapping: string)
  datatype Entry = Entry(dest: DestTable, order: int)
  type TagTableMapping = map<string, map<string, seq<Entry>>>

  /** The tables for a key and a value of the mapping. */
  function Entries(tt: TagTableMapping, k: string, v: string): (r: seq<Entry>)
  {
    if k in tt && v in tt[k] then tt[k][v] else []
  }

  // Element filters

  /** The tests that a mapping puts on an element: those for closed ways, those for the type of a relation, and
      those of `require`, `reject` and regular expressions, which look at the value of one key. */
  datatype Filter =
    | LineFilter(areaTags: set<string>)
    | PolygonFilter(linearTags: set<string>)
    | TypeFilter(types: seq<string>)
    | KeyFilter(key: string, test: Option<string> -> bool)

  function Lookup(tags: Tags, k: string): (r: Option<string>)
  {
    if k in tags then Some(tags[k]) else None
  }

  /** Whether an element passes, given the key it was matched by. */
  predicate Holds(f: Filter, tags: Tags, key: string, closed: bool)
  {
    var area := Lookup(tags, "area");
    match f
    case LineFilter(areaTags) => closed ==> area != Some("yes") && (area != Some("no") ==> key !in areaTags)
    case PolygonFilter(linearTags) => !(closed && area == Some("no")) && (area != Some("yes") ==> key !in linearTags)
    case TypeFilter(types) => "type" in tags && tags["type"] in types
    case KeyFilter(k, test) => test(Lookup(tags, k))
  }

  datatype TagMatcher = TagMatcher(mappings: TagTableMapping, filters: map<string, seq<Filter>>,
                                   relFilters: map<string, seq<Filter>>, matchAreas: bool)

  function FiltersOf(filters: map<string, seq<Filter>>, name: string): (r: seq<Filter>)
  {
    if name in filters then filters[name] else []
  }

  predicate HoldAll(filters: seq<Filter>, tags: Tags, key: string, closed: bool)
  {
    forall i :: 0 <= i < |filters| ==> Holds(filters[i], tags, key, closed)
  }

  predicate Passes(tm: TagMatcher, tags: Tags, key: string, closed: bool, relation: bool, name: string)
  {
    && HoldAll(FiltersOf(tm.filters, name), tags, key, closed)
    && (relation ==> HoldAll(FiltersOf(tm.relFilters, name), tags, key, closed))
  }

  // What a match is

  datatype Match = Match(key: string, value: string, table: DestTable)
  datatype Candidate = Candidate(key: string, value: string, entry: Entry)

  /** The entries for a tag: those for any value of the key, and those for the value. */
  function TagEntries(tm: TagMatcher, k: string, v: string): (r: seq<Entry>)
  {
    Entries(tm.mappings, k, ANY) + Entries(tm.mappings, k, v)
  }

  /** A tag matches an entry of the mapping. */
  predicate FromTag(tm: TagMatcher, tags: Tags, c: Candidate)
  {
    c.key in tags && tags[c.key] == c.value && c.entry in TagEntries(tm, c.key, c.value)
  }

  /** The entry is for any key. */
  predicate FromAny(tm: TagMatcher, c: Candidate)
  {
    c.key == ANY && c.value == ANY && c.entry in Entries(tm.mappings, ANY, ANY)
  }

  predicate IsCandidate(tm: TagMatcher, tags: Tags, c: Candidate)
  {
    FromAny(tm, c) || FromTag(tm, tags, c)
  }

  /** The first in the order of the mapping among those for the same table. */
  ghost predicate IsFirst(tm: TagMatcher, tags: Tags, c: Candidate)
  {
    IsCandidate(tm, tags, c) &&
    forall d :: IsCandidate(tm, tags, d) && d.entry.dest == c.entry.dest ==> c.entry.order <= d.entry.order
  }

  /** A first candidate that can be taken: an entry for any key gives way to a tag at the same place in the order. */
  ghost predicate Wins(tm: TagMatcher, tags: Tags, c: Candidate)
  {
    IsFirst(tm, tags, c) && (FromTag(tm, tags, c) || forall d :: FromTag(tm, tags, d) ==> d.entry != c.entry)
  }

  ghost predicate Selected(tm: TagMatcher, tags: Tags, closed: bool, relation: bool, m: Match)
  {
    exists c :: Wins(tm, tags, c) && MatchOf(c) == m && Passes(tm, tags, m.key, closed, relation, m.table.name)
  }

  function MatchOf(c: Candidate): (m: Match)
  {
    Match(c.key, c.value, c.entry.dest)
  }

  // The walk over the tags

  type Chosen = map<DestTable, Candidate>

  /** A later entry wins over one that is not before it in the order. */
  function Put(tables: Chosen, c: Candidate): (r: Chosen)
  {
    var t := c.entry.dest;
    if t in tables && tables[t].entry.order < c.entry.order then tables else tables[t := c]
  }

  function Added(tables: Chosen, k: string, v: string, tbls: seq<Entry>): (r: Chosen)
  {
    if tbls == [] then tables
    else Put(Added(tables, k, v, tbls[..|tbls| - 1]), Candidate(k, v, tbls[|tbls| - 1]))
  }

  /** What was there for a table stays if it is before all new entries; else the first of these takes its place. */
  ghost predicate Laid(before: Chosen, k: string, v: string, tbls: seq<Entry>, r: Chosen, t: DestTable)
  {
    && (t in r <==> t in before || exists e <- tbls :: e.dest == t)
    && (t in r ==>
        || (t in before && r[t] == before[t] && forall e <- tbls :: e.dest == t ==> before[t].entry.order < e.order)
        || (r[t].key == k && r[t].value == v && r[t].entry in tbls && r[t].entry.dest == t &&
            (t in before ==> r[t].entry.order <= before[t].entry.order) &&
            forall e <- tbls :: e.dest == t ==> r[t].entry.order <= e.order))
  }

  lemma {:induction false} AddedLaid(tables: Chosen, k: string, v: string, tbls: seq<Entry>, t: DestTable)
    ensures Laid(tables, k, v, tbls, Added(tables, k, v, tbls), t)
  {
    if tbls != [] {
      var n := |tbls| - 1;
      AddedLaid(tables, k, v, tbls[..n], t);
      assert forall e :: e in tbls <==> e in tbls[..n] || e == tbls[n];
    }
  }

  lemma {:induction false} AddedConcat(tables: Chosen, k: string, v: string, a: seq<Entry>, b: seq<Entry>)
    ensures Added(tables, k, v, a + b) == Added(Added(tables, k, v, a), k, v, b)
    decreases |b|
  {
    if b == [] {
      assert a + b == a;
    } else {
      var n := |b| - 1;
      assert (a + b)[..|a + b| - 1] == a + b[..n];
      AddedConcat(tables, k, v, a, b[..n]);
    }
  }

  /** `addTables`. */
  method AddTables(before: Chosen, k: string, v: string, tbls: seq<Entry>) returns (tables: Chosen)
    ensures tables == Added(before, k, v, tbls) && forall t :: Laid(before, k, v, tbls, tables, t)
  {
    tables := before;
    for i := 0 to |tbls|
      invariant tables == Added(before, k, v, tbls[..i])
    {
      assert tbls[..i + 1][..i] == tbls[..i];
      var best := Candidate(k, v, tbls[i]);
      if tbls[i].dest in tables && tables[tbls[i].dest].entry.order < tbls[i].order {
        best := tables[tbls[i].dest];
      }
      tables := tables[tbls[i].dest := best];
    }
    assert tbls[..|tbls|] == tbls;
    forall t ensures Laid(before, k, v, tbls, tables, t) {
      AddedLaid(before, k, v, tbls, t);
    }
  }

  /** One more tag. */
  function TagAdded(tm: TagMatcher, tables: Chosen, k: string, v: string): (r: Chosen)
  {
    Added(tables, k, v, TagEntries(tm, k, v))
  }

  /** Entries for any key come first, then those for the tags in the given order. */
  function Walk(tm: TagMatcher, tags: Tags, order: seq<string>): (r: Chosen)
    requires forall k <- order :: k in tags
  {
    if order == [] then Added(map[], ANY, ANY, Entries(tm.mappings, ANY, ANY))
    else
      var n := |order| - 1;
      TagAdded(tm, Walk(tm, tags, order[..n]), order[n], tags[order[n]])
  }

  /** One candidate for every table that the tags match, as it can be taken. */
  ghost predicate Choice(tm: TagMatcher, tags: Tags, chosen: Chosen)
  {
    && (forall t <- chosen :: chosen[t].entry.dest == t && Wins(tm, tags, chosen[t]))
    && (forall c :: IsCandidate(tm, tags, c) ==> c.entry.dest in chosen)
  }

  lemma ChoiceOfAny(tm: TagMatcher)
    ensures Choice(tm, map[], Added(map[], ANY, ANY, Entries(tm.mappings, ANY, ANY)))
  {
    hide Entries, Added;
    var tbls := Entries(tm.mappings, ANY, ANY);
    var r := Added(map[], ANY, ANY, tbls);
    forall t ensures Laid(map[], ANY, ANY, tbls, r, t) { AddedLaid(map[], ANY, ANY, tbls, t); }
    forall c | FromAny(tm, c) ensures c.entry.dest in r { assert Laid(map[], ANY, ANY, tbls, r, c.entry.dest); }
    forall t <- r ensures r[t].entry.dest == t && Wins(tm, map[], r[t]) { assert Laid(map[], ANY, ANY, tbls, r, t); }
  }

  lemma MoreCandidates(tm: TagMatcher, tags: Tags, k: string, v: string, c: Candidate)
    requires k !in tags
    ensures FromTag(tm, tags[k := v], c) <==>
      FromTag(tm, tags, c) || (c.key == k && c.value == v && c.entry in TagEntries(tm, k, v))
  {
  }

  lemma ChoiceStep(tm: TagMatcher, tags: Tags, chosen: Chosen, k: string, v: string)
    requires Choice(tm, tags, chosen) && k !in tags
    ensures Choice(tm, tags[k := v], TagAdded(tm, chosen, k, v))
  {
    hide TagEntries, FromTag, FromAny, Added;
    var more, r, tbls := tags[k := v], TagAdded(tm, chosen, k, v), TagEntries(tm, k, v);
    forall c ensures FromTag(tm, more, c) <==>
      FromTag(tm, tags, c) || (c.key == k && c.value == v && c.entry in tbls)
    {
      MoreCandidates(tm, tags, k, v, c);
    }
    forall t ensures Laid(chosen, k, v, tbls, r, t) { AddedLaid(chosen, k, v, tbls, t); }
    forall c | IsCandidate(tm, more, c) ensures c.entry.dest in r { assert Laid(chosen, k, v, tbls, r, c.entry.dest); }
    forall t <- r ensures r[t].entry.dest == t && Wins(tm, more, r[t]) {
      assert Laid(chosen, k, v, tbls, r, t);
    }
  }

  /** The tags of some keys. */
  function Only(tags: Tags, keys: seq<string>): (r: Tags)
  {
    map k <- tags | k in keys :: tags[k]
  }

  lemma {:induction false} WalkChooses(tm: TagMatcher, tags: Tags, order: seq<string>)
    requires NoDup(order) && forall k <- order :: k in tags
    ensures Choice(tm, Only(tags, order), Walk(tm, tags, order))
    decreases |order|
  {
    hide Choice, TagAdded;
    if order == [] {
      ChoiceOfAny(tm);
      assert Only(tags, order) == map[];
    } else {
      var n := |order| - 1;
      WalkChooses(tm, tags, order[..n]);
      assert forall k :: k in order <==> k in order[..n] || k == order[n];
      assert order[n] !in order[..n];
      assert Only(tags, order) == Only(tags, order[..n])[order[n] := tags[order[n]]];
      ChoiceStep(tm, Only(tags, order[..n]), Walk(tm, tags, order[..n]), order[n], tags[order[n]]);
    }
  }

  /** An order of all tags. */
  ghost predicate OrderOf(tags: Tags, order: seq<string>)
    ensures OrderOf(tags, order) ==> forall k <- order :: k in tags
  {
    assert forall k :: k in order <==> k in (set x | x in order);
    Lists(order, tags.Keys)
  }

  lemma WalkIsChoice(tm: TagMatcher, tags: Tags, order: seq<string>)
    requires OrderOf(tags, order)
    ensures Choice(tm, tags, Walk(tm, tags, order))
  {
    assert forall k :: k in order <==> k in (set x | x in order);
    assert Only(tags, order) == tags;
    hide Choice, Walk, Only;
    WalkChooses(tm, tags, order);
  }

  /** The tables that the tags match, in some order, each with its candidate. */
  method Collect(tm: TagMatcher, tags: Tags) returns (tables: Chosen)
    ensures exists order :: OrderOf(tags, order) && tables == Walk(tm, tags, order)
    ensures Choice(tm, tags, tables)
  {
    hide Choice, Entries, Added, Laid, Lists, Walk;
    NothingWalked(tm, tags);
    tables := AddTables(map[], ANY, ANY, Entries(tm.mappings, ANY, ANY));
    var todo := tags.Keys;
    ghost var order: seq<string> := [];
    NothingListed();
    assert tags.Keys - todo == {};
    while todo != {}
      invariant todo <= tags.Keys && Lists(order, tags.Keys - todo) && (forall k <- order :: k in tags)
      invariant tables == Walk(tm, tags, order)
      decreases |todo|
    {
      var k := AnyOf(todo);
      var v := tags[k];
      ListsMore(order, tags.Keys - todo, k);
      assert tags.Keys - (todo - {k}) == tags.Keys - todo + {k};
      todo := todo - {k};
      WalkOn(tm, tags, order, k);
      tables := AddTables(tables, k, v, Entries(tm.mappings, k, ANY));
      tables := AddTables(tables, k, v, Entries(tm.mappings, k, v));
      order := order + [k];
    }
    assert tags.Keys - {} == tags.Keys;
    assert OrderOf(tags, order);
    WalkIsChoice(tm, tags, order);
  }

  lemma NothingWalked(tm: TagMatcher, tags: Tags)
    ensures Walk(tm, tags, []) == Added(map[], ANY, ANY, Entries(tm.mappings, ANY, ANY))
  {
  }

  lemma WalkOn(tm: TagMatcher, tags: Tags, order: seq<string>, k: string)
    requires k in tags && forall x <- order :: x in tags
    ensures Walk(tm, tags, order + [k]) ==
      Added(Added(Walk(tm, tags, order), k, tags[k], Entries(tm.mappings, k, ANY)),
            k, tags[k], Entries(tm.mappings, k, tags[k]))
  {
    hide Entries, Added;
    assert (order + [k])[..|order|] == order;
    AddedConcat(Walk(tm, tags, order), k, tags[k], Entries(tm.mappings, k, ANY), Entries(tm.mappings, k, tags[k]));
  }

  lemma NothingListed()
    ensures Lists([], {})
  {
  }

  method PassesAll(filters: seq<Filter>, tags: Tags, key: string, closed: bool) returns (r: bool)
    ensures r == HoldAll(filters, tags, key, closed)
  {
    for i := 0 to |filters|
      invariant forall j :: 0 <= j < i ==> Holds(filters[j], tags, key, closed)
    {
      if !Holds(filters[i], tags, key, closed) {
        return false;
      }
    }
    return true;
  }

  /** The match is the chosen one of its table, and passes the filters of the table. */
  predicate Matched(tm: TagMatcher, tags: Tags, closed: bool, relation: bool, chosen: Chosen, m: Match)
  {
    && m.table in chosen && MatchOf(chosen[m.table]) == m
    && Passes(tm, tags, m.key, closed, relation, m.table.name)
  }

  ghost predicate ResultOf(tm: TagMatcher, tags: Tags, closed: bool, relation: bool, chosen: Chosen,
                           matches: seq<Match>)
  {
    forall m :: m in matches <==> Matched(tm, tags, closed, relation, chosen, m)
  }

  /** The result is what passes of that which the tags leave when they are walked in some order. */
  ghost predicate Result(tm: TagMatcher, tags: Tags, closed: bool, relation: bool, matches: seq<Match>)
  {
    exists order :: OrderOf(tags, order) && ResultOf(tm, tags, closed, relation, Walk(tm, tags, order), matches)
  }

  /** `match`: every table has a first match in the order of the mapping, which is in the result if it passes the
      filters of the table. Where two have the same place in the order, a tag is taken rather than an entry for any
      key, and of two tags the one that is walked later. */
  method MatchTags(tm: TagMatcher, tags: Tags, closed: bool, relation: bool) returns (matches: seq<Match>)
    ensures Result(tm, tags, closed, relation, matches)
    ensures forall i, j :: 0 <= i < j < |matches| ==> matches[i].table != matches[j].table
    ensures Settled(tm, tags, closed, relation) ==>
      forall m :: m in matches <==> Selected(tm, tags, closed, relation, m)
  {
    hide Wins, IsCandidate, HoldAll, FiltersOf, Selected, Settled, Walk;
    var tables := Collect(tm, tags);
    matches := [];
    var todo := tables.Keys;
    while todo != {}
      invariant todo <= tables.Keys
      invariant forall i :: 0 <= i < |matches| ==> matches[i].table in tables && matches[i].table !in todo
      invariant forall i, j :: 0 <= i < j < |matches| ==> matches[i].table != matches[j].table
      invariant forall m :: m in matches <==> m.table !in todo && Matched(tm, tags, closed, relation, tables, m)
      decreases |todo|
    {
      var t := AnyOf(todo);
      todo := todo - {t};
      var m := MatchOf(tables[t]);
      var passed := PassesAll(FiltersOf(tm.filters, t.name), tags, m.key, closed);
      if relation && passed {
        passed := PassesAll(FiltersOf(tm.relFilters, t.name), tags, m.key, closed);
      }
      if passed {
        matches := matches + [m];
      }
    }
    assert ResultOf(tm, tags, closed, relation, tables, matches);
    if Settled(tm, tags, closed, relation) { AllSelected(tm, tags, closed, relation, tables, matches); }
  }

  lemma AllSelected(tm: TagMatcher, tags: Tags, closed: bool, relation: bool, chosen: Chosen, matches: seq<Match>)
    requires Choice(tm, tags, chosen) && Settled(tm, tags, closed, relation)
    requires ResultOf(tm, tags, closed, relation, chosen, matches)
    ensures forall m :: m in matches <==> Selected(tm, tags, closed, relation, m)
  {
    hide Settled, Choice, Matched, Selected;
    forall m ensures m in matches <==> Selected(tm, tags, closed, relation, m) {
      OnlySelected(tm, tags, closed, relation, chosen, m);
    }
  }

  // Ties

  /** Two tags compete for the first place of a table. */
  ghost predicate Tied(tm: TagMatcher, tags: Tags, c: Candidate, d: Candidate)
  {
    && FromTag(tm, tags, c) && IsFirst(tm, tags, c) && FromTag(tm, tags, d) && IsFirst(tm, tags, d)
    && c.entry.dest == d.entry.dest && c.key != d.key
  }

  /** No two tags compete of which one passes the filters. */
  ghost predicate Settled(tm: TagMatcher, tags: Tags, closed: bool, relation: bool)
  {
    forall c, d :: Tied(tm, tags, c, d) ==> !Passes(tm, tags, c.key, closed, relation, c.entry.dest.name)
  }

  /** Entries of one table have the same place in the order only under the same key. */
  ghost predicate DistinctOrders(tt: TagTableMapping)
  {
    forall j, v, k, w, e :: e in Entries(tt, j, v) && e in Entries(tt, k, w) ==> j == k
  }

  lemma DistinctIsSettled(tm: TagMatcher, tags: Tags, closed: bool, relation: bool)
    requires DistinctOrders(tm.mappings)
    ensures Settled(tm, tags, closed, relation)
  {
    hide Entries, Passes;
    forall c, d | FromTag(tm, tags, c) && FromTag(tm, tags, d) && c.entry == d.entry ensures c.key == d.key {}
  }

  lemma SameWinner(tm: TagMatcher, tags: Tags, c: Candidate, d: Candidate)
    requires Wins(tm, tags, c) && Wins(tm, tags, d) && c.entry.dest == d.entry.dest
    ensures c.entry == d.entry && (MatchOf(c) == MatchOf(d) || Tied(tm, tags, c, d))
  {
    hide TagEntries, Entries;
  }

  lemma OnlySelected(tm: TagMatcher, tags: Tags, closed: bool, relation: bool, chosen: Chosen, m: Match)
    requires Settled(tm, tags, closed, relation) && Choice(tm, tags, chosen)
    ensures Selected(tm, tags, closed, relation, m) <==> Matched(tm, tags, closed, relation, chosen, m)
  {
    hide FromTag, FromAny, Passes;
    if Selected(tm, tags, closed, relation, m) {
      var c :| Wins(tm, tags, c) && MatchOf(c) == m && Passes(tm, tags, m.key, closed, relation, m.table.name);
      assert IsCandidate(tm, tags, c);
      SameWinner(tm, tags, c, chosen[m.table]);
    }
  }

  /** Of tags that compete, the one that is walked last is taken. */
  lemma LastWins(tm: TagMatcher, tags: Tags, rest: seq<string>, c: Candidate)
    requires OrderOf(tags, rest + [c.key]) && FromTag(tm, tags, c) && IsFirst(tm, tags, c)
    ensures var w := Walk(tm, tags, rest + [c.key]);
      c.entry.dest in w && MatchOf(w[c.entry.dest]) == MatchOf(c)
  {
    var order, t := rest + [c.key], c.entry.dest;
    assert order[..|rest|] == rest && forall k <- rest :: k in order;
    assert NoDup(rest);
    hide TagEntries, Added, Entries;
    var before := Walk(tm, tags, rest);
    WalkChooses(tm, tags, rest);
    AddedLaid(before, c.key, c.value, TagEntries(tm, c.key, c.value), t);
    if t in before {
      assert Wins(tm, Only(tags, rest), before[t]);
      assert IsCandidate(tm, tags, before[t]);
    }
  }

  /** At the same place in the order a tag is taken, never the entry for any key. */
  lemma TagBeatsAny(tm: TagMatcher, tags: Tags, order: seq<string>, c: Candidate)
    requires OrderOf(tags, order) && FromTag(tm, tags, c) && IsFirst(tm, tags, c)
    ensures var w := Walk(tm, tags, order); c.entry.dest in w && FromTag(tm, tags, w[c.entry.dest])
  {
    hide TagEntries, Walk, Entries;
    WalkIsChoice(tm, tags, order);
  }

  ghost predicate SameResult(tm: TagMatcher, tags: Tags, closed: bool, relation: bool, chosen: Chosen, other: Chosen)
  {
    forall m :: Matched(tm, tags, closed, relation, chosen, m) <==> Matched(tm, tags, closed, relation, other, m)
  }

  /** Whatever the order of the tags, the result is the same. */
  ghost predicate AnyOrder(tm: TagMatcher, tags: Tags, closed: bool, relation: bool)
  {
    forall a, b :: OrderOf(tags, a) && OrderOf(tags, b) ==>
      SameResult(tm, tags, closed, relation, Walk(tm, tags, a), Walk(tm, tags, b))
  }

  lemma SettledSame(tm: TagMatcher, tags: Tags, closed: bool, relation: bool, chosen: Chosen, other: Chosen)
    requires Choice(tm, tags, chosen) && Choice(tm, tags, other) && Settled(tm, tags, closed, relation)
    ensures SameResult(tm, tags, closed, relation, chosen, other)
  {
    hide Choice, Settled, Selected, Matched;
    forall m ensures Matched(tm, tags, closed, relation, chosen, m) <==> Matched(tm, tags, closed, relation, other, m) {
      OnlySelected(tm, tags, closed, relation, chosen, m);
      OnlySelected(tm, tags, closed, relation, other, m);
    }
  }

  lemma LastTwo(tags: Tags, j: string, k: string) returns (rest: seq<string>)
    requires j in tags && k in tags && j != k
    ensures OrderOf(tags, rest + [j] + [k]) && OrderOf(tags, rest + [k] + [j])
  {
    rest := SomeOrder(tags.Keys - {j, k});
    ListsMore(rest, tags.Keys - {j, k}, j);
    ListsMore(rest + [j], tags.Keys - {j, k} + {j}, k);
    assert tags.Keys - {j, k} + {j} + {k} == tags.Keys;
    ListsMore(rest, tags.Keys - {j, k}, k);
    ListsMore(rest + [k], tags.Keys - {j, k} + {k}, j);
    assert tags.Keys - {j, k} + {k} + {j} == tags.Keys;
  }

  lemma TieShows(tm: TagMatcher, tags: Tags, closed: bool, relation: bool, c: Candidate, d: Candidate)
    requires Tied(tm, tags, c, d) && Passes(tm, tags, c.key, closed, relation, c.entry.dest.name)
    ensures !AnyOrder(tm, tags, closed, relation)
  {
    hide TagEntries, IsFirst, Walk, Passes, OrderOf;
    var rest := LastTwo(tags, c.key, d.key);
    LastWins(tm, tags, rest + [d.key], c);
    LastWins(tm, tags, rest + [c.key], d);
    var a, b := Walk(tm, tags, rest + [d.key] + [c.key]), Walk(tm, tags, rest + [c.key] + [d.key]);
    assert Matched(tm, tags, closed, relation, a, MatchOf(c));
    assert !Matched(tm, tags, closed, relation, b, MatchOf(c));
    assert !SameResult(tm, tags, closed, relation, a, b);
  }

  /** The order in which the tags are walked does not change the result, if and only if no two tags compete for a
      place of which one passes the filters. */
  lemma OneResult(tm: TagMatcher, tags: Tags, closed: bool, relation: bool)
    ensures AnyOrder(tm, tags, closed, relation) <==> Settled(tm, tags, closed, relation)
  {
    if Settled(tm, tags, closed, relation) {
      hide *;
      assert AnyOrder(tm, tags, closed, relation) by { AnyOrderIfSettled(tm, tags, closed, relation); }
    } else {
      var c, d :| Tied(tm, tags, c, d) && Passes(tm, tags, c.key, closed, relation, c.entry.dest.name);
      hide *;
      TieShows(tm, tags, closed, relation, c, d);
    }
  }

  lemma AnyOrderIfSettled(tm: TagMatcher, tags: Tags, closed: bool, relation: bool)
    requires Settled(tm, tags, closed, relation)
    ensures AnyOrder(tm, tags, closed, relation)
  {
    hide Settled, Choice, SameResult, Walk, OrderOf;
    forall a, b | OrderOf(tags, a) && OrderOf(tags, b)
      ensures SameResult(tm, tags, closed, relation, Walk(tm, tags, a), Walk(tm, tags, b))
    {
      WalkIsChoice(tm, tags, a);
      WalkIsChoice(tm, tags, b);
      SettledSame(tm, tags, closed, relation, Walk(tm, tags, a), Walk(tm, tags, b));
    }
  }

  ghost predicate MatchedIn(tm: TagMatcher, tags: Tags, closed: bool, relation: bool, order: seq<string>, m: Match)
  {
    OrderOf(tags, order) && Matched(tm, tags, closed, relation, Walk(tm, tags, order), m)
  }

  /** A match is selected if and only if some order of the tags gives it. */
  lemma SelectedIff(tm: TagMatcher, tags: Tags, closed: bool, relation: bool, m: Match)
    ensures Selected(tm, tags, closed, relation, m) <==> exists order :: MatchedIn(tm, tags, closed, relation, order, m)
  {
    hide FromTag, FromAny, IsFirst, Passes, Walk, OrderOf;
    if order :| MatchedIn(tm, tags, closed, relation, order, m) {
      WalkIsChoice(tm, tags, order);
    }
    if Selected(tm, tags, closed, relation, m) {
      var c :| Wins(tm, tags, c) && MatchOf(c) == m && Passes(tm, tags, m.key, closed, relation, m.table.name);
      var order := OrderFor(tm, tags, c);
      assert MatchedIn(tm, tags, closed, relation, order, m);
    }
  }

  lemma OrderFor(tm: TagMatcher, tags: Tags, c: Candidate) returns (order: seq<string>)
    requires Wins(tm, tags, c)
    ensures OrderOf(tags, order)
    ensures var w := Walk(tm, tags, order); c.entry.dest in w && MatchOf(w[c.entry.dest]) == MatchOf(c)
  {
    hide TagEntries, Walk, Entries;
    if FromTag(tm, tags, c) {
      var rest := LastOrder(tags.Keys, c.key);
      order := rest + [c.key];
      LastWins(tm, tags, rest, c);
    } else {
      order := SomeOrder(tags.Keys);
      WalkIsChoice(tm, tags, order);
      SameWinner(tm, tags, c, Walk(tm, tags, order)[c.entry.dest]);
    }
  }

  /** One matcher is for areas and takes closed ways that are not marked otherwise, one is for lines and takes all
      but closed ways that are marked as areas. */
  predicate TakesWay(tm: TagMatcher, tags: Tags, closed: bool)
  {
    if tm.matchAreas then closed && Lookup(tags, "area") != Some("no")
    else !(closed && Lookup(tags, "area") == Some("yes"))
  }

  ghost predicate WaySelected(tm: TagMatcher, tags: Tags, closed: bool, m: Match)
  {
    TakesWay(tm, tags, closed) && Selected(tm, tags, closed, false, m)
  }

  method MatchWay(tm: TagMatcher, tags: Tags, isClosed: bool) returns (matches: seq<Match>)
    ensures if TakesWay(tm, tags, isClosed) then Result(tm, tags, isClosed, false, matches) else matches == []
    ensures Settled(tm, tags, isClosed, false) ==>
      forall m :: m in matches <==> WaySelected(tm, tags, isClosed, m)
  {
    hide Settled, Selected, Result;
    matches := [];
    if tm.matchAreas {
      if isClosed {
        if "area" in tags && tags["area"] == "no" {
          return;
        }
        matches := MatchTags(tm, tags, true, false);
      }
    } else {
      if isClosed {
        if "area" in tags && tags["area"] == "yes" {
          return;
        }
        matches := MatchTags(tm, tags, true, false);
      } else {
        matches := MatchTags(tm, tags, false, false);
      }
    }
  }

  // Filtering

  datatype TagFilter = TagFilter(mappings: map<string, set<string>>, extraTags: set<string>)

  predicate HasValue(f: TagFilter, k: string, v: string)
  {
    k in f.mappings && v in f.mappings[k]
  }

  predicate Keeps(f: TagFilter, k: string, v: string)
  {
    HasValue(f, k, ANY) || HasValue(f, k, v) || k in f.extraTags
  }

  function Filtered(f: TagFilter, tags: Tags): (r: Tags)
  {
    map k <- tags | Keeps(f, k, tags[k]) :: tags[k]
  }

  /** `Filter`, which deletes from the tags while it walks them. */
  method FilterTags(f: TagFilter, tags: Tags) returns (r: Tags)
    ensures r == Filtered(f, tags)
  {
    r := tags;
    var todo := tags.Keys;
    while todo != {}
      invariant todo <= tags.Keys
      invariant forall k :: k in r <==> k in tags && (k in todo || Keeps(f, k, tags[k]))
      invariant forall k <- r :: r[k] == tags[k]
      decreases |todo|
    {
      var k := AnyOf(todo);
      var v := tags[k];
      todo := todo - {k};
      if k in f.mappings {
        var values := f.mappings[k];
        if ANY in values {
          continue;
        } else if v in values {
          continue;
        } else if k !in f.extraTags {
          r := r - {k};
        }
      } else if k !in f.extraTags {
        r := r - {k};
      }
    }
  }

  /** The filter drops no value of a key that makes a difference to a test. */
  ghost predicate Unaffected(f: TagFilter, k: string, test: Option<string> -> bool)
  {
    forall v: string :: Keeps(f, k, v) || test(Some(v)) == test(None)
  }

  /** That is exactly what it takes for the test to come out the same on all tags. */
  lemma UnaffectedIff(f: TagFilter, k: string, test: Option<string> -> bool)
    ensures Unaffected(f, k, test) <==>
      forall tags: Tags :: test(Lookup(Filtered(f, tags), k)) == test(Lookup(tags, k))
  {
    if forall tags: Tags :: test(Lookup(Filtered(f, tags), k)) == test(Lookup(tags, k)) {
      forall v: string ensures Keeps(f, k, v) || test(Some(v)) == test(None) {
        assert Lookup(Filtered(f, map[k := v]), k) == if Keeps(f, k, v) then Some(v) else None;
        assert Lookup(map[k := v], k) == Some(v);
      }
    }
  }

  /** The filter leaves what an element filter looks at. */
  ghost predicate Reads(f: TagFilter, filter: Filter)
  {
    match filter
    case LineFilter(_) => "area" in f.extraTags
    case PolygonFilter(_) => "area" in f.extraTags
    case TypeFilter(types) => "type" in f.extraTags || forall t <- types :: HasValue(f, "type", t)
    case KeyFilter(k, test) => Unaffected(f, k, test)
  }

  /** The filter leaves all tags that the matcher has entries for. */
  ghost predicate KeepsEntries(f: TagFilter, tm: TagMatcher)
  {
    forall k, v, e :: e in Entries(tm.mappings, k, v) ==> HasValue(f, k, v)
  }

  /** The filter leaves what a matcher looks at, in the tables it knows. */
  ghost predicate Covers(f: TagFilter, tm: TagMatcher, relation: bool)
  {
    && "area" in f.extraTags
    && KeepsEntries(f, tm)
    && (forall k, v, e :: e in Entries(tm.mappings, k, v) ==> ReadsTable(f, tm, relation, e.dest.name))
  }

  ghost predicate ReadsTable(f: TagFilter, tm: TagMatcher, relation: bool, name: string)
  {
    && (forall filter <- FiltersOf(tm.filters, name) :: Reads(f, filter))
    && (relation ==> forall filter <- FiltersOf(tm.relFilters, name) :: Reads(f, filter))
  }

  lemma SameCandidates(f: TagFilter, tm: TagMatcher, tags: Tags, c: Candidate)
    requires KeepsEntries(f, tm)
    ensures FromTag(tm, Filtered(f, tags), c) <==> FromTag(tm, tags, c)
  {
    hide Entries;
  }

  lemma CoversEntries(f: TagFilter, tm: TagMatcher, relation: bool)
    requires Covers(f, tm, relation)
    ensures KeepsEntries(f, tm)
  {
  }

  lemma SameTest(f: TagFilter, filter: Filter, tags: Tags, key: string, closed: bool)
    requires Reads(f, filter)
    ensures Holds(filter, Filtered(f, tags), key, closed) <==> Holds(filter, tags, key, closed)
  {
    var less := Filtered(f, tags);
    match filter {
      case TypeFilter(types) =>
        if "type" in tags && tags["type"] in types { assert Keeps(f, "type", tags["type"]); }
      case KeyFilter(k, test) =>
        UnaffectedIff(f, k, test);
      case _ =>
        assert Lookup(less, "area") == Lookup(tags, "area");
    }
  }

  lemma SameTests(f: TagFilter, filters: seq<Filter>, tags: Tags, key: string, closed: bool)
    requires forall filter <- filters :: Reads(f, filter)
    ensures HoldAll(filters, Filtered(f, tags), key, closed) <==> HoldAll(filters, tags, key, closed)
  {
    hide Reads, Holds;
    forall i | 0 <= i < |filters|
      ensures Holds(filters[i], Filtered(f, tags), key, closed) <==> Holds(filters[i], tags, key, closed)
    {
      SameTest(f, filters[i], tags, key, closed);
    }
  }

  lemma SamePass(f: TagFilter, tm: TagMatcher, relation: bool, tags: Tags, closed: bool, c: Candidate)
    requires Covers(f, tm, relation) && IsCandidate(tm, tags, c)
    ensures Passes(tm, Filtered(f, tags), c.key, closed, relation, c.entry.dest.name)
       <==> Passes(tm, tags, c.key, closed, relation, c.entry.dest.name)
  {
    hide HoldAll, Entries, Reads;
    var name := c.entry.dest.name;
    SameTests(f, FiltersOf(tm.filters, name), tags, c.key, closed);
    if relation { SameTests(f, FiltersOf(tm.relFilters, name), tags, c.key, closed); }
  }

  lemma SameFirst(f: TagFilter, tm: TagMatcher, tags: Tags)
    requires KeepsEntries(f, tm)
    ensures forall c :: IsCandidate(tm, Filtered(f, tags), c) <==> IsCandidate(tm, tags, c)
    ensures forall c :: IsFirst(tm, Filtered(f, tags), c) <==> IsFirst(tm, tags, c)
    ensures forall c :: Wins(tm, Filtered(f, tags), c) <==> Wins(tm, tags, c)
  {
    hide FromTag, FromAny, KeepsEntries, Filtered;
    forall c ensures FromTag(tm, Filtered(f, tags), c) <==> FromTag(tm, tags, c) {
      SameCandidates(f, tm, tags, c);
    }
  }

  /** Reading with a filter that covers a matcher: the matches of the filtered tags are those of all tags. */
  lemma FilterKeepsMatches(f: TagFilter, tm: TagMatcher, relation: bool, tags: Tags, closed: bool, m: Match)
    requires Covers(f, tm, relation)
    ensures Selected(tm, Filtered(f, tags), closed, relation, m) <==> Selected(tm, tags, closed, relation, m)
  {
    CoversEntries(f, tm, relation);
    hide IsCandidate, FromTag, Passes, Covers, Filtered;
    SameFirst(f, tm, tags);
    forall c | IsCandidate(tm, tags, c)
      ensures Passes(tm, Filtered(f, tags), c.key, closed, relation, c.entry.dest.name)
         <==> Passes(tm, tags, c.key, closed, relation, c.entry.dest.name)
    {
      SamePass(f, tm, relation, tags, closed, c);
    }
  }

  /** And so it is for ties, whichever way they are decided. */
  lemma FilterKeepsChoice(f: TagFilter, tm: TagMatcher, relation: bool, tags: Tags, closed: bool,
                          chosen: Chosen)
    requires Covers(f, tm, relation)
    ensures Choice(tm, Filtered(f, tags), chosen) <==> Choice(tm, tags, chosen)
    ensures Choice(tm, tags, chosen) ==> forall m ::
      Matched(tm, Filtered(f, tags), closed, relation, chosen, m) <==> Matched(tm, tags, closed, relation, chosen, m)
  {
    CoversEntries(f, tm, relation);
    hide IsCandidate, FromTag, Passes, Covers, Filtered;
    SameFirst(f, tm, tags);
    forall m: Match | m.table in chosen && MatchOf(chosen[m.table]) == m && IsCandidate(tm, tags, chosen[m.table])
      ensures Passes(tm, Filtered(f, tags), m.key, closed, relation, m.table.name)
         <==> Passes(tm, tags, m.key, closed, relation, m.table.name)
    {
      SamePass(f, tm, relation, tags, closed, chosen[m.table]);
    }
  }

  /** What is left of an order. */
  function Left(f: TagFilter, tags: Tags, order: seq<string>): (r: seq<string>)
    ensures forall k <- r :: k in Filtered(f, tags)
  {
    if order == [] then []
    else
      var n := |order| - 1;
      Left(f, tags, order[..n]) + if order[n] in Filtered(f, tags) then [order[n]] else []
  }

  lemma {:induction false} LeftIn(f: TagFilter, tags: Tags, order: seq<string>, k: string)
    ensures k in Left(f, tags, order) <==> k in order && k in Filtered(f, tags)
    decreases |order|
  {
    hide Filtered;
    if order != [] {
      var n := |order| - 1;
      LeftIn(f, tags, order[..n], k);
      assert k in order <==> k in order[..n] || k == order[n];
    }
  }

  lemma {:induction false} LeftNoDup(f: TagFilter, tags: Tags, order: seq<string>)
    requires NoDup(order)
    ensures NoDup(Left(f, tags, order))
    decreases |order|
  {
    hide Filtered;
    if order != [] {
      var n := |order| - 1;
      assert order[n] !in order[..n];
      LeftNoDup(f, tags, order[..n]);
      LeftIn(f, tags, order[..n], order[n]);
    }
  }

  lemma LeftOrder(f: TagFilter, tags: Tags, order: seq<string>)
    requires OrderOf(tags, order)
    ensures OrderOf(Filtered(f, tags), Left(f, tags, order))
  {
    LeftNoDup(f, tags, order);
    ListsIn(order, tags.Keys);
    forall k ensures k in Left(f, tags, order) <==> k in order && k in Filtered(f, tags) { LeftIn(f, tags, order, k); }
    assert (set k | k in Left(f, tags, order)) == Filtered(f, tags).Keys;
  }

  lemma HeadIn<T>(s: seq<T>)
    ensures s == [] || s[0] in s
  {
  }

  /** A tag that is dropped has no entries. */
  lemma NoEntries(f: TagFilter, tm: TagMatcher, k: string, v: string)
    requires KeepsEntries(f, tm) && !Keeps(f, k, v)
    ensures TagEntries(tm, k, v) == []
  {
    hide Entries;
    HeadIn(Entries(tm.mappings, k, ANY));
    HeadIn(Entries(tm.mappings, k, v));
  }

  lemma DroppedAddsNothing(f: TagFilter, tm: TagMatcher, tables: Chosen, k: string, v: string)
    requires KeepsEntries(f, tm) && !Keeps(f, k, v)
    ensures TagAdded(tm, tables, k, v) == tables
  {
    NoEntries(f, tm, k, v);
  }

  lemma {:induction false} WalkLeft(f: TagFilter, tm: TagMatcher, tags: Tags, order: seq<string>)
    requires KeepsEntries(f, tm) && forall k <- order :: k in tags
    ensures Walk(tm, tags, order) == Walk(tm, Filtered(f, tags), Left(f, tags, order))
    decreases |order|
  {
    hide KeepsEntries, TagAdded, Keeps;
    if order != [] {
      var n := |order| - 1;
      var k, rest := order[n], Left(f, tags, order[..n]);
      WalkLeft(f, tm, tags, order[..n]);
      if k in Filtered(f, tags) {
        assert (rest + [k])[..|rest|] == rest;
      } else {
        DroppedAddsNothing(f, tm, Walk(tm, tags, order[..n]), k, tags[k]);
        assert rest + [] == rest;
      }
    }
  }

  lemma LeftStep(f: TagFilter, tags: Tags, order: seq<string>, k: string)
    ensures Left(f, tags, order + [k]) == Left(f, tags, order) + if k in Filtered(f, tags) then [k] else []
  {
    hide Filtered;
    assert (order + [k])[..|order|] == order;
  }

  lemma {:induction false} LeftAll(f: TagFilter, tags: Tags, order: seq<string>)
    requires forall k <- order :: k in Filtered(f, tags)
    ensures Left(f, tags, order) == order
    decreases |order|
  {
    if order != [] {
      hide *;
      var n := |order| - 1;
      LeftAll(f, tags, order[..n]);
      LeftStep(f, tags, order[..n], order[n]);
      assert order == order[..n] + [order[n]];
    }
  }

  lemma {:induction false} LeftNone(f: TagFilter, tags: Tags, order: seq<string>, more: seq<string>)
    requires forall k <- more :: k !in Filtered(f, tags)
    ensures Left(f, tags, order + more) == Left(f, tags, order)
    decreases |more|
  {
    hide *;
    if more == [] {
      assert order + more == order;
    } else {
      var n := |more| - 1;
      LeftNone(f, tags, order, more[..n]);
      LeftStep(f, tags, order + more[..n], more[n]);
      assert order + more == order + more[..n] + [more[n]];
    }
  }

  /** Every order of the tags that are left is what is left of an order of all. */
  lemma LeftOf(f: TagFilter, tags: Tags, order: seq<string>) returns (whole: seq<string>)
    requires OrderOf(Filtered(f, tags), order)
    ensures OrderOf(tags, whole) && Left(f, tags, whole) == order
  {
    var dropped := tags.Keys - Filtered(f, tags).Keys;
    var more := SomeOrder(dropped);
    whole := order + more;
    ListsJoin(order, Filtered(f, tags).Keys, more, dropped);
    assert Filtered(f, tags).Keys + dropped == tags.Keys;
    ListsIn(more, dropped);
    ListsIn(order, Filtered(f, tags).Keys);
    hide *;
    LeftAll(f, tags, order);
    LeftNone(f, tags, order, more);
  }

  lemma FilterKeepsResult(f: TagFilter, tm: TagMatcher, relation: bool, tags: Tags, closed: bool, matches: seq<Match>)
    requires Covers(f, tm, relation)
    ensures Result(tm, Filtered(f, tags), closed, relation, matches) <==> Result(tm, tags, closed, relation, matches)
  {
    hide ResultOf, Covers, Filtered, OrderOf, Walk;
    if order :| OrderOf(tags, order) && ResultOf(tm, tags, closed, relation, Walk(tm, tags, order), matches) {
      LeftOrder(f, tags, order);
      SameWalkResult(f, tm, relation, tags, closed, order, matches);
    }
    var less := Filtered(f, tags);
    if order :| OrderOf(less, order) && ResultOf(tm, less, closed, relation, Walk(tm, less, order), matches) {
      var whole := LeftOf(f, tags, order);
      SameWalkResult(f, tm, relation, tags, closed, whole, matches);
    }
  }

  /** Walking what is left of an order gives the result of walking all of it. */
  lemma SameWalkResult(f: TagFilter, tm: TagMatcher, relation: bool, tags: Tags, closed: bool, order: seq<string>,
                       matches: seq<Match>)
    requires Covers(f, tm, relation) && OrderOf(tags, order) && OrderOf(Filtered(f, tags), Left(f, tags, order))
    ensures var less := Filtered(f, tags);
      ResultOf(tm, less, closed, relation, Walk(tm, less, Left(f, tags, order)), matches) <==>
        ResultOf(tm, tags, closed, relation, Walk(tm, tags, order), matches)
  {
    CoversEntries(f, tm, relation);
    hide Covers, Filtered, OrderOf, Walk, Choice, Matched;
    WalkLeft(f, tm, tags, order);
    WalkIsChoice(tm, tags, order);
    FilterKeepsChoice(f, tm, relation, tags, closed, Walk(tm, tags, order));
  }

  lemma FilterKeepsWay(f: TagFilter, tm: TagMatcher, tags: Tags, closed: bool, m: Match)
    requires Covers(f, tm, false)
    ensures WaySelected(tm, Filtered(f, tags), closed, m) <==> WaySelected(tm, tags, closed, m)
  {
    hide Selected;
    assert Lookup(Filtered(f, tags), "area") == Lookup(tags, "area");
    hide Covers, Filtered;
    FilterKeepsMatches(f, tm, false, tags, closed, m);
  }
}
