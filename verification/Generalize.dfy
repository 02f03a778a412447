/** Generalised tables: each is made from a table or from another generalised table. */
module Generalize {
  import opened GoInts
  import opened Orders

  /** The source of each generalised table, by name. */
  type Sources = map<string, string>

  // Chains of sources

  /** The source of `t` is a table, after at most `n` generalised tables in between. */
  ghost predicate Rooted(roots: set<string>, gen: Sources, t: string, n: nat)
    requires t in gen
    decreases n
  {
    gen[t] in roots || (n > 0 && gen[t] in gen && Rooted(roots, gen, gen[t], n - 1))
  }

  /** The table at the end of the chain. */
  ghost function Root(roots: set<string>, gen: Sources, t: string, n: nat): (r: string)
    requires t in gen && Rooted(roots, gen, t, n)
    ensures r in roots
    decreases n
  {
    if gen[t] in roots then gen[t] else Root(roots, gen, gen[t], n - 1)
  }

  ghost predicate HasRoot(roots: set<string>, gen: Sources, t: string)
    requires t in gen
  {
    exists n: nat :: Rooted(roots, gen, t, n)
  }

  /** `r` is the table that `t` is made from in the end. */
  ghost predicate IsRoot(roots: set<string>, gen: Sources, t: string, r: string)
    requires t in gen
  {
    exists n: nat :: Rooted(roots, gen, t, n) && Root(roots, gen, t, n) == r
  }

  lemma {:induction false} RootUnique(roots: set<string>, gen: Sources, t: string, m: nat, n: nat)
    requires t in gen && Rooted(roots, gen, t, m) && Rooted(roots, gen, t, n)
    ensures Root(roots, gen, t, m) == Root(roots, gen, t, n)
    decreases m
  {
    if gen[t] !in roots { RootUnique(roots, gen, gen[t], m - 1, n - 1); }
  }

  ghost predicate AllRooted(roots: set<string>, gen: Sources)
  {
    forall t <- gen :: HasRoot(roots, gen, t)
  }

  /** A walk from source to source. */
  ghost predicate Walk(roots: set<string>, gen: Sources, path: seq<string>)
  {
    && (forall i :: 0 <= i < |path| ==> path[i] in gen)
    && (forall i :: 0 <= i < |path| - 1 ==> gen[path[i]] !in roots && path[i + 1] == gen[path[i]])
  }

  /** No generalised table is made from itself, directly or not. */
  ghost predicate Acyclic(roots: set<string>, gen: Sources)
  {
    forall path :: Walk(roots, gen, path) && |path| > 1 ==> path[0] != path[|path| - 1]
  }

  /** No source is missing. */
  predicate Complete(roots: set<string>, gen: Sources)
  {
    forall t <- gen :: gen[t] in roots || gen[t] in gen
  }

  lemma NextRooted(roots: set<string>, gen: Sources, t: string)
    requires t in gen && gen[t] !in roots && gen[t] in gen && HasRoot(roots, gen, gen[t])
    ensures HasRoot(roots, gen, t)
  {
    var n: nat :| Rooted(roots, gen, gen[t], n);
    assert Rooted(roots, gen, t, n + 1);
  }

  lemma WalkOn(roots: set<string>, gen: Sources, path: seq<string>, i: nat)
    requires Walk(roots, gen, path) && i < |path|
    requires gen[path[|path| - 1]] !in roots && gen[path[|path| - 1]] in gen
    ensures Walk(roots, gen, path[i..] + [gen[path[|path| - 1]]])
  {
  }

  /** Whoever walks on among finitely many tables without cycles comes to a root. */
  lemma {:induction false} WalkEnds(roots: set<string>, gen: Sources, path: seq<string>, seen: set<string>)
    requires Complete(roots, gen) && Acyclic(roots, gen) && Walk(roots, gen, path) && path != []
    requires seen <= gen.Keys && forall x <- seen :: x in path
    ensures HasRoot(roots, gen, path[|path| - 1])
    decreases |gen.Keys - seen|
  {
    hide Walk, HasRoot;
    var t := path[|path| - 1];
    LastIn(roots, gen, path);
    if gen[t] in roots {
      RootedNow(roots, gen, t);
    } else {
      var next := gen[t];
      if next in path {
        NoReturn(roots, gen, path);
      }
      WalkOn(roots, gen, path, 0);
      assert path[0..] == path;
      assert gen.Keys - seen == gen.Keys - (seen + {next}) + {next};
      WalkEnds(roots, gen, path + [next], seen + {next});
      NextRooted(roots, gen, t);
    }
  }

  lemma LastIn(roots: set<string>, gen: Sources, path: seq<string>)
    requires Walk(roots, gen, path) && path != []
    ensures path[|path| - 1] in gen
  {
  }

  lemma RootedNow(roots: set<string>, gen: Sources, t: string)
    requires t in gen && gen[t] in roots
    ensures HasRoot(roots, gen, t)
  {
    assert Rooted(roots, gen, t, 0);
  }

  lemma NoReturn(roots: set<string>, gen: Sources, path: seq<string>)
    requires Acyclic(roots, gen) && Walk(roots, gen, path) && path != []
    requires gen[path[|path| - 1]] !in roots && gen[path[|path| - 1]] in gen
    ensures gen[path[|path| - 1]] !in path
  {
    hide Walk;
    LastIn(roots, gen, path);
    var next := gen[path[|path| - 1]];
    if next in path {
      var i :| 0 <= i < |path| && path[i] == next;
      WalkOn(roots, gen, path, i);
    }
  }

  lemma AcyclicIsRooted(roots: set<string>, gen: Sources)
    requires Complete(roots, gen) && Acyclic(roots, gen)
    ensures AllRooted(roots, gen)
  {
    forall t <- gen ensures HasRoot(roots, gen, t) { WalkEnds(roots, gen, [t], {t}); }
  }

  lemma {:induction false} RootedAlong(roots: set<string>, gen: Sources, path: seq<string>, n: nat)
    requires Walk(roots, gen, path) && path != [] && Rooted(roots, gen, path[0], n)
    ensures n >= |path| - 1 && Rooted(roots, gen, path[|path| - 1], n - (|path| - 1))
    decreases |path|
  {
    if |path| > 1 {
      assert Walk(roots, gen, path[1..]);
      RootedAlong(roots, gen, path[1..], n - 1);
    }
  }

  lemma {:induction false} NeverRooted(roots: set<string>, gen: Sources, path: seq<string>, n: nat)
    requires Walk(roots, gen, path) && |path| > 1 && path[0] == path[|path| - 1]
    ensures !Rooted(roots, gen, path[0], n)
    decreases n
  {
    if Rooted(roots, gen, path[0], n) {
      RootedAlong(roots, gen, path, n);
      NeverRooted(roots, gen, path, n - (|path| - 1));
    }
  }

  /** Every chain ends at a table just if there are no cycles. */
  lemma RootedIffAcyclic(roots: set<string>, gen: Sources)
    requires Complete(roots, gen)
    ensures AllRooted(roots, gen) <==> Acyclic(roots, gen)
  {
    if Acyclic(roots, gen) {
      AcyclicIsRooted(roots, gen);
    }
    if AllRooted(roots, gen) {
      hide Walk, Rooted;
      forall path | Walk(roots, gen, path) && |path| > 1 ensures path[0] != path[|path| - 1] {
        if path[0] == path[|path| - 1] {
          LastIn(roots, gen, path);
          assert HasRoot(roots, gen, path[0]);
          var n: nat :| Rooted(roots, gen, path[0], n);
          NeverRooted(roots, gen, path, n);
        }
      }
    }
  }

  // Filling in the sources

  /** The tables that have been found so far are the right ones. */
  ghost predicate Found(roots: set<string>, gen: Sources, source: Sources)
  {
    forall t <- source :: t in gen && IsRoot(roots, gen, t, source[t])
  }

  lemma DirectRoot(roots: set<string>, gen: Sources, t: string)
    requires t in gen && gen[t] in roots
    ensures IsRoot(roots, gen, t, gen[t])
  {
    assert Rooted(roots, gen, t, 0);
  }

  lemma InheritedRoot(roots: set<string>, gen: Sources, t: string, r: string)
    requires t in gen && gen[t] !in roots && gen[t] in gen && IsRoot(roots, gen, gen[t], r)
    ensures IsRoot(roots, gen, t, r)
  {
    var n: nat :| Rooted(roots, gen, gen[t], n) && Root(roots, gen, gen[t], n) == r;
    assert Rooted(roots, gen, t, n + 1) && Root(roots, gen, t, n + 1) == r;
  }

  /** Among tables without a source yet there is one whose source has one: the nearest to its root. */
  lemma {:induction false} Nearest(roots: set<string>, gen: Sources, source: Sources, t: string, n: nat)
      returns (x: string)
    requires t in gen && t !in source && Rooted(roots, gen, t, n)
    requires forall u <- gen :: gen[u] in roots ==> u in source
    ensures x in gen && x !in source && gen[x] !in roots && gen[x] in source
    decreases n
  {
    if gen[t] in source { x := t; } else { x := Nearest(roots, gen, source, gen[t], n - 1); }
  }

  /** One pass over the generalised tables, in any order. `filled` says that some had no source. */
  method FillPass(roots: set<string>, gen: Sources, before: Sources) returns (source: Sources, filled: bool)
    requires Found(roots, gen, before) && forall t <- gen :: gen[t] in roots ==> t in before
    ensures Found(roots, gen, source) && before.Keys <= source.Keys
    ensures filled <==> !(gen.Keys <= before.Keys)
    ensures forall t <- gen :: gen[t] in before ==> t in source
  {
    hide IsRoot;
    source, filled := before, false;
    var todo := gen.Keys;
    while todo != {}
      invariant todo <= gen.Keys && Found(roots, gen, source) && before.Keys <= source.Keys
      invariant forall t <- todo :: t in source ==> t in before
      invariant filled <==> exists t <- gen :: t !in todo && t !in before
      invariant forall t <- gen :: t !in todo && gen[t] in before ==> t in source
      decreases |todo|
    {
      var t := AnyOf(todo);
      todo := todo - {t};
      if t !in source {
        if gen[t] in gen && gen[t] in source {
          InheritedRoot(roots, gen, t, source[gen[t]]);
          source := source[t := source[gen[t]]];
        }
        filled := true;
      }
    }
  }

  /** The first loop: the sources that are tables, or nothing if a source is missing. */
  method DirectSources(roots: set<string>, gen: Sources) returns (source: Option<Sources>)
    ensures source.None? <==> !Complete(roots, gen)
    ensures source.Some? ==> Found(roots, gen, source.value) && forall t <- gen :: gen[t] in roots ==> t in source.value
  {
    hide IsRoot;
    var found: Sources := map[];
    var todo := gen.Keys;
    while todo != {}
      invariant todo <= gen.Keys && Found(roots, gen, found)
      invariant forall t <- gen :: t !in todo ==> gen[t] in roots || gen[t] in gen
      invariant forall t <- gen :: t !in todo && gen[t] in roots ==> t in found
      decreases |todo|
    {
      var t := AnyOf(todo);
      todo := todo - {t};
      if gen[t] in roots {
        DirectRoot(roots, gen, t);
        found := found[t := gen[t]];
      } else if gen[t] !in gen {
        return None;
      }
    }
    source := Some(found);
  }

  /** The tables that have no source yet. */
  ghost function Missing(gen: Sources, source: Sources): (r: set<string>)
  {
    gen.Keys - source.Keys
  }

  /** The second loop, stopped after a number of passes. Without a cycle it has stopped by itself after at most one
      pass for each table and one more; with a cycle it never stops. */
  method FillFor(roots: set<string>, gen: Sources, start: Sources, passes: nat) returns (source: Sources, stopped: bool)
    requires Complete(roots, gen) && Found(roots, gen, start) && forall t <- gen :: gen[t] in roots ==> t in start
    ensures Found(roots, gen, source)
    ensures stopped ==> source.Keys == gen.Keys
    ensures !Acyclic(roots, gen) ==> !stopped
    ensures Acyclic(roots, gen) && passes > |gen| ==> stopped
  {
    hide IsRoot, Acyclic, Complete, AllRooted;
    source, stopped := start, false;
    RootedIffAcyclic(roots, gen);
    ghost var i := 0;
    var left := passes;
    Subset(Missing(gen, source), gen.Keys);
    while left > 0
      invariant left + i == passes && Found(roots, gen, source) && forall t <- gen :: gen[t] in roots ==> t in source
      invariant Acyclic(roots, gen) ==> |Missing(gen, source)| + i <= |gen|
    {
      ghost var before := source;
      var filled;
      source, filled := FillPass(roots, gen, source);
      if !filled {
        stopped := true;
        if !Acyclic(roots, gen) { NeverAllFound(roots, gen, before); }
        return;
      }
      if Acyclic(roots, gen) { Progress(roots, gen, before, source); }
      left, i := left - 1, i + 1;
    }
  }

  /** A table in or behind a cycle does not get a source. */
  lemma NeverAllFound(roots: set<string>, gen: Sources, source: Sources)
    requires Found(roots, gen, source) && !AllRooted(roots, gen)
    ensures !(gen.Keys <= source.Keys)
  {
    forall t <- source ensures HasRoot(roots, gen, t) { assert IsRoot(roots, gen, t, source[t]); }
  }

  /** Two tables that are made from each other: no number of passes is enough. */
  method Endless(passes: nat) returns (gen: Sources, stopped: bool)
    ensures gen == map["gen1" := "gen2", "gen2" := "gen1"] && Complete({"roads"}, gen) && !stopped
  {
    gen := map["gen1" := "gen2", "gen2" := "gen1"];
    ghost var path := ["gen1", "gen2", "gen1"];
    assert Walk({"roads"}, gen, path) && path[0] == path[|path| - 1];
    var start := DirectSources({"roads"}, gen);
    var source;
    source, stopped := FillFor({"roads"}, gen, start.value, passes);
  }

  datatype Prepared = MissingSource | Prepared(source: Sources)

  /** `prepareGeneralizedTableSources`: an error if a source is missing, whether there are cycles or not, and
      otherwise, without cycles, the root of its chain for every table, of which there is one. */
  method PrepareSources(roots: set<string>, gen: Sources) returns (r: Prepared)
    requires Complete(roots, gen) ==> Acyclic(roots, gen)
    ensures r.MissingSource? <==> !Complete(roots, gen)
    ensures r.Prepared? ==> r.source.Keys == gen.Keys
    ensures r.Prepared? ==> forall t <- gen, x :: IsRoot(roots, gen, t, x) <==> x == r.source[t]
  {
    hide IsRoot, Acyclic, Complete, AllRooted;
    var direct := DirectSources(roots, gen);
    if direct.None? {
      return MissingSource;
    }
    var source := direct.value;
    RootedIffAcyclic(roots, gen);
    var filled := true;
    while filled
      invariant Found(roots, gen, source) && forall t <- gen :: gen[t] in roots ==> t in source
      invariant !filled ==> gen.Keys <= source.Keys
      decreases |Missing(gen, source)|, filled
    {
      ghost var before := source;
      source, filled := FillPass(roots, gen, source);
      if filled {
        Progress(roots, gen, before, source);
      }
    }
    forall t <- gen, x ensures IsRoot(roots, gen, t, x) <==> x == source[t] {
      if IsRoot(roots, gen, t, x) { OneRoot(roots, gen, t, x, source[t]); }
    }
    return Prepared(source);
  }

  lemma OneRoot(roots: set<string>, gen: Sources, t: string, x: string, y: string)
    requires t in gen && IsRoot(roots, gen, t, x) && IsRoot(roots, gen, t, y)
    ensures x == y
  {
    var m: nat :| Rooted(roots, gen, t, m) && Root(roots, gen, t, m) == x;
    var n: nat :| Rooted(roots, gen, t, n) && Root(roots, gen, t, n) == y;
    RootUnique(roots, gen, t, m, n);
  }

  /** As long as a table has no source, a pass without cycles finds one. */
  lemma Progress(roots: set<string>, gen: Sources, before: Sources, source: Sources)
    requires AllRooted(roots, gen) && !(gen.Keys <= before.Keys) && before.Keys <= source.Keys
    requires forall t <- gen :: gen[t] in roots ==> t in before
    requires forall t <- gen :: gen[t] in before ==> t in source
    ensures |Missing(gen, source)| < |Missing(gen, before)|
  {
    hide Rooted;
    var t :| t in gen.Keys && t !in before.Keys;
    var n := StepsToRoot(roots, gen, t);
    var x := Nearest(roots, gen, before, t, n);
    Smaller(Missing(gen, source), Missing(gen, before), x);
  }

  lemma StepsToRoot(roots: set<string>, gen: Sources, t: string) returns (n: nat)
    requires AllRooted(roots, gen) && t in gen
    ensures Rooted(roots, gen, t, n)
  {
    assert HasRoot(roots, gen, t);
    n :| Rooted(roots, gen, t, n);
  }

  lemma Smaller<T>(a: set<T>, b: set<T>, x: T)
    requires a <= b && x in b && x !in a
    ensures |a| < |b|
  {
    Subset(a, b - {x});
  }

  lemma {:induction false} Subset<T>(a: set<T>, b: set<T>)
    requires a <= b
    ensures |a| <= |b|
    decreases a
  {
    if a != {} {
      var y := Element(a);
      Subset(a - {y}, b - {y});
    }
  }

  // Generalisations of a table

  function ListOf(lists: map<string, seq<string>>, k: string): (r: seq<string>)
  {
    if k in lists then lists[k] else []
  }

  function Added(lists: map<string, seq<string>>, k: string, t: string): (r: map<string, seq<string>>)
    ensures forall j :: ListOf(r, j) == if j == k then ListOf(lists, k) + [t] else ListOf(lists, j)
  {
    lists[k := ListOf(lists, k) + [t]]
  }

  /** Those of some tables that are made from `r`. */
  ghost function MadeFrom(source: Sources, among: set<string>, r: string): (s: set<string>)
  {
    set t | t in among && t in source && source[t] == r
  }

  ghost predicate AllListed(lists: map<string, seq<string>>, source: Sources, among: set<string>)
  {
    forall r :: Lists(ListOf(lists, r), MadeFrom(source, among, r))
  }

  lemma OneListed(lists: map<string, seq<string>>, source: Sources, among: set<string>, t: string)
    requires AllListed(lists, source, among) && t in source && t !in among
    ensures AllListed(Added(lists, source[t], t), source, among + {t})
  {
    hide Added, Lists, ListOf;
    var more := Added(lists, source[t], t);
    forall r ensures Lists(ListOf(more, r), MadeFrom(source, among + {t}, r)) {
      if r == source[t] {
        ListsMore(ListOf(lists, r), MadeFrom(source, among, r), t);
        assert MadeFrom(source, among + {t}, r) == MadeFrom(source, among, r) + {t};
      } else {
        assert MadeFrom(source, among + {t}, r) == MadeFrom(source, among, r);
      }
    }
  }

  lemma NoneListed(lists: map<string, seq<string>>, source: Sources, among: set<string>, t: string)
    requires AllListed(lists, source, among) && t !in source
    ensures AllListed(lists, source, among + {t})
  {
    hide Lists;
    forall r ensures MadeFrom(source, among + {t}, r) == MadeFrom(source, among, r) {}
  }

  /** `prepareGeneralizations`: a table lists all generalised tables that are made from it in the end, each once,
      and a generalised table those that are made from it directly. */
  method PrepareGeneralizations(gen: Sources, source: Sources)
      returns (ofTables: map<string, seq<string>>, ofGeneralized: map<string, seq<string>>)
    requires source.Keys == gen.Keys
    ensures forall r :: Lists(ListOf(ofTables, r), MadeFrom(source, gen.Keys, r))
    ensures forall g :: Lists(ListOf(ofGeneralized, g), if g in gen then MadeFrom(gen, gen.Keys, g) else {})
  {
    hide AllListed, ListOf, Added;
    ofTables, ofGeneralized := map[], map[];
    ghost var direct := map t <- gen | gen[t] in gen :: gen[t];
    var todo := gen.Keys;
    NothingListed(source, gen.Keys - todo);
    NothingListed(direct, gen.Keys - todo);
    while todo != {}
      invariant todo <= gen.Keys
      invariant AllListed(ofTables, source, gen.Keys - todo) && AllListed(ofGeneralized, direct, gen.Keys - todo)
      decreases |todo|
    {
      var t := AnyOf(todo);
      OneListed(ofTables, source, gen.Keys - todo, t);
      ofTables := Added(ofTables, source[t], t);
      if gen[t] in gen {
        OneListed(ofGeneralized, direct, gen.Keys - todo, t);
        ofGeneralized := Added(ofGeneralized, gen[t], t);
      } else {
        NoneListed(ofGeneralized, direct, gen.Keys - todo, t);
      }
      assert gen.Keys - (todo - {t}) == gen.Keys - todo + {t};
      todo := todo - {t};
    }
    assert gen.Keys - {} == gen.Keys;
    Listed(ofTables, source, gen.Keys);
    Listed(ofGeneralized, direct, gen.Keys);
    forall g ensures MadeFrom(direct, gen.Keys, g) == if g in gen then MadeFrom(gen, gen.Keys, g) else {} {}
  }

  lemma NothingListed(source: Sources, among: set<string>)
    requires among == {}
    ensures AllListed(map[], source, among)
  {
  }

  lemma Listed(lists: map<string, seq<string>>, source: Sources, among: set<string>)
    requires AllListed(lists, source, among)
    ensures forall r :: Lists(ListOf(lists, r), MadeFrom(source, among, r))
  {
  }

  // Creating the tables

  /** Every table once, and after the table it is made from. */
  ghost predicate InOrder(roots: set<string>, gen: Sources, created: seq<string>)
  {
    && NoDup(created)
    && forall i :: 0 <= i < |created| ==>
      created[i] in gen && (gen[created[i]] in roots || gen[created[i]] in created[..i])
  }

  lemma OneMore(roots: set<string>, gen: Sources, created: seq<string>, t: string)
    requires InOrder(roots, gen, created) && t in gen && t !in created && (gen[t] in roots || gen[t] in created)
    ensures InOrder(roots, gen, created + [t])
  {
    var more := created + [t];
    forall i | 0 <= i < |more| ensures more[i] in gen && (gen[more[i]] in roots || gen[more[i]] in more[..i]) {
      assert i < |created| ==> more[..i] == created[..i];
      assert i == |created| ==> more[..i] == created;
    }
  }

  /** One round: a loop hands tables to workers, and the workers finish them, in any order and at any time. What
      the loop sees of a source depends on how far the workers have come. */
  method Round(roots: set<string>, gen: Sources, before: seq<string>, first: bool) returns (created: seq<string>)
    requires InOrder(roots, gen, before)
    requires (if first then before == [] else forall t <- gen :: gen[t] in roots ==> t in before)
    ensures InOrder(roots, gen, created) && before <= created
    ensures first ==> forall t <- gen :: gen[t] in roots ==> t in created
    ensures !first ==> forall t <- gen :: gen[t] in before ==> t in created
  {
    hide InOrder;
    created := before;
    var todo, running := gen.Keys, {};
    while todo != {} || running != {}
      invariant todo <= gen.Keys && running <= gen.Keys && running !! todo
      invariant InOrder(roots, gen, created) && before <= created
      invariant forall t <- running :: t !in created && (gen[t] in roots || gen[t] in created)
      invariant forall t <- todo :: t in created ==> t in before
      invariant first ==> forall t <- gen :: t !in todo && gen[t] in roots ==> t in running || t in created
      invariant !first ==> forall t <- gen :: t !in todo && gen[t] in before ==> t in running || t in created
      decreases |todo| + |todo| + |running|
    {
      var visit := *;
      if todo != {} && (visit || running == {}) {
        var t := AnyOf(todo);
        todo := todo - {t};
        // a table that is not created yet has a generalised source to look at
        assert !first && t !in created ==> gen[t] !in roots;
        var ready := if first then gen[t] in roots else t !in created && gen[t] in created;
        if ready {
          running := running + {t};
        }
      } else {
        var t := AnyOf(running);
        running := running - {t};
        OneMore(roots, gen, created, t);
        created := created + [t];
      }
    }
  }

  /** `Generalize`: first the tables that are made from other tables, then rounds until one has created nothing.
      However the workers are scheduled, every table is created once, after its source, and none is left out. */
  method CreateTables(roots: set<string>, gen: Sources) returns (created: seq<string>)
    requires Complete(roots, gen) && Acyclic(roots, gen)
    ensures InOrder(roots, gen, created) && Lists(created, gen.Keys)
  {
    hide Acyclic, Complete;
    AcyclicIsRooted(roots, gen);
    created := Round(roots, gen, [], true);
    var more := true;
    while more
      invariant InOrder(roots, gen, created) && forall t <- gen :: gen[t] in roots ==> t in created
      invariant !more ==> gen.Keys <= Names(created)
      decreases |gen.Keys - Names(created)|, more
    {
      var before := created;
      created := Round(roots, gen, before, false);
      more := |created| > |before|;
      if gen.Keys <= Names(before) {
        NoMore(roots, gen, before, created);
      } else {
        Created(roots, gen, before, created);
      }
    }
  }

  ghost function Names(s: seq<string>): (r: set<string>)
  {
    set x | x in s
  }

  /** As long as a table is missing, a round creates one. */
  lemma Created(roots: set<string>, gen: Sources, before: seq<string>, created: seq<string>)
    requires AllRooted(roots, gen) && !(gen.Keys <= Names(before)) && before <= created
    requires InOrder(roots, gen, before) && InOrder(roots, gen, created)
    requires forall t <- gen :: gen[t] in roots ==> t in before
    requires forall t <- gen :: gen[t] in before ==> t in created
    ensures |gen.Keys - Names(created)| < |gen.Keys - Names(before)| && |created| > |before|
  {
    hide Rooted;
    var t :| t in gen.Keys && t !in Names(before);
    var n := StepsToRoot(roots, gen, t);
    var seen := map x | x in before :: x;
    var x := Nearest(roots, gen, seen, t, n);
    Smaller(gen.Keys - Names(created), gen.Keys - Names(before), x);
    Longer(before, created, x);
  }

  lemma Longer(before: seq<string>, created: seq<string>, x: string)
    requires before <= created && x in created && x !in before
    ensures |created| > |before|
  {
  }

  lemma NoMore(roots: set<string>, gen: Sources, before: seq<string>, created: seq<string>)
    requires gen.Keys <= Names(before) && before <= created
    requires InOrder(roots, gen, before) && InOrder(roots, gen, created)
    ensures created == before
  {
    SizeOf(before);
    SizeOf(created);
    Subset(Names(created), Names(before));
  }

  // The order of later updates

  /** `sortedGeneralizedTables`. Every table has got its source by then, so the first pass takes all tables, in
      the order in which the map happens to be walked. */
  method SortedTables(gen: Sources, source: Sources, order: seq<string>) returns (sorted: seq<string>)
    requires source.Keys == gen.Keys && Lists(order, gen.Keys)
    ensures sorted == order
  {
    sorted := [];
    ListSize(order);
    while |gen| > |sorted|
      invariant |gen| == |order| && (sorted == [] || sorted == order)
      decreases |gen| - |sorted|
    {
      for i := 0 to |order|
        invariant sorted == order[..i]
      {
        var t := order[i];
        if t !in sorted {
          if t in source || gen[t] in sorted {
            sorted := sorted + [t];
          }
        }
      }
      assert order[..|order|] == order;
    }
    if sorted == [] { assert order == []; }
  }

  lemma {:induction false} SizeOf(s: seq<string>)
    requires NoDup(s)
    ensures |set x | x in s| == |s|
  {
    if s != [] {
      var n := |s| - 1;
      SizeOf(s[..n]);
      assert (set x | x in s) == (set x | x in s[..n]) + {s[n]};
    }
  }

  lemma ListSize(order: seq<string>)
    requires NoDup(order)
    ensures forall members :: Lists(order, members) ==> |members| == |order|
  {
    SizeOf(order);
  }

  lemma FrontOrder(names: set<string>, t: string) returns (order: seq<string>)
    requires t in names
    ensures Lists(order, names) && order != [] && order[0] == t
  {
    var rest := SomeOrder(names - {t});
    order := [t] + rest;
    forall x ensures x in order <==> x in names { assert x in rest <==> x in names - {t}; }
    assert t !in rest;
  }

  /** Sources come before the tables that are made from them, whatever the order of the map, just if all generalised
      tables are made from tables. */
  lemma SourceFirstIff(roots: set<string>, gen: Sources)
    ensures (forall order :: Lists(order, gen.Keys) ==> InOrder(roots, gen, order)) <==>
      forall t <- gen :: gen[t] in roots
  {
    if forall t <- gen :: gen[t] in roots {
      forall order | Lists(order, gen.Keys) ensures InOrder(roots, gen, order) {
        forall i | 0 <= i < |order| ensures order[i] in gen { assert order[i] in (set x | x in order); }
      }
    } else {
      var t :| t in gen && gen[t] !in roots;
      var order := FrontOrder(gen.Keys, t);
      assert gen[order[0]] !in order[..0];
    }
  }

  /** Two tables, one made from the other, without a cycle and with no source missing, for which the order of the
      map decides. */
  lemma NotSourceFirst() returns (roots: set<string>, gen: Sources, order: seq<string>)
    ensures Complete(roots, gen) && Lists(order, gen.Keys) && Acyclic(roots, gen) && !InOrder(roots, gen, order)
  {
    roots, gen, order := {"roads"}, map["gen1" := "roads", "gen2" := "gen1"], ["gen2", "gen1"];
    forall path | Walk(roots, gen, path) && |path| > 1 ensures path[0] != path[|path| - 1] {
      assert path[1] == gen[path[0]] == "gen1";
    }
    assert order[0] == "gen2";
  }
}
