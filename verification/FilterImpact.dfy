/** When dropping tags while reading changes what an element matches: the exact conditions. */
module FilterImpact {
  import opened GoInts
  import opened Orders
  import opened Matching

  /** A test of `require`, `reject` or one of their regular expressions: what it makes of the value of a key. */
  datatype Test = Test(key: string, test: Option<string> -> bool)

  predicate Met(tests: seq<Test>, tags: Tags)
  {
    forall i :: 0 <= i < |tests| ==> tests[i].test(Lookup(tags, tests[i].key))
  }

  /** All tests of one key. */
  predicate MetOn(tests: seq<Test>, k: string, value: Option<string>)
  {
    forall i :: 0 <= i < |tests| && tests[i].key == k ==> tests[i].test(value)
  }

  // Demands

  /** What is asked of the value of each key; something only of some keys. */
  datatype Demand = Demand(keys: set<string>, met: (string, Option<string>) -> bool)
  {
    ghost predicate Valid()
    {
      forall k, value :: k !in keys ==> met(k, value)
    }

    ghost predicate CanMeet(k: string)
    {
      exists value :: met(k, value)
    }

    function And(other: Demand): (d: Demand)
      ensures Valid() && other.Valid() ==> d.Valid()
    {
      Demand(keys + other.keys, (k, value) => met(k, value) && other.met(k, value))
    }
  }

  ghost predicate Satisfied(d: Demand, tags: Tags)
  {
    forall k: string :: d.met(k, Lookup(tags, k))
  }

  function DemandOf(tests: seq<Test>): (d: Demand)
    ensures d.Valid()
  {
    var keys := set i | 0 <= i < |tests| :: tests[i].key;
    assert forall i :: 0 <= i < |tests| ==> tests[i].key in keys;
    Demand(keys, (k, value) => MetOn(tests, k, value))
  }

  lemma MetIff(tests: seq<Test>, tags: Tags)
    ensures Met(tests, tags) <==> Satisfied(DemandOf(tests), tags)
  {
    if Satisfied(DemandOf(tests), tags) {
      forall i | 0 <= i < |tests| ensures tests[i].test(Lookup(tags, tests[i].key)) {
        assert DemandOf(tests).met(tests[i].key, Lookup(tags, tests[i].key));
      }
    }
  }

  lemma BothSatisfied(d: Demand, e: Demand, tags: Tags)
    ensures Satisfied(d.And(e), tags) <==> Satisfied(d, tags) && Satisfied(e, tags)
  {
    var both := d.And(e);
    forall k: string
      ensures both.met(k, Lookup(tags, k)) <==> d.met(k, Lookup(tags, k)) && e.met(k, Lookup(tags, k))
    {
    }
  }

  // Reaching a table

  /** What leads to a table: anything, or some tags. */
  datatype Access = Access(any: bool, tags: iset<(string, string)>)

  ghost predicate Reached(access: Access, tags: Tags)
  {
    access.any || exists k <- tags :: (k, tags[k]) in access.tags
  }

  /** A tag with another key than `k` leads to the table, and is as it is asked for. */
  ghost predicate ReachedWithout(access: Access, d: Demand, k: string)
  {
    access.any || exists h: string, w: string :: h != k && (h, w) in access.tags && d.met(h, Some(w))
  }

  /** The filter drops a value that makes a difference to what is asked of its key, while what is asked of all other
      keys can be met and the table can be reached by another tag. */
  ghost predicate NoticedAt(f: TagFilter, access: Access, d: Demand, k: string, v: string)
  {
    && !Keeps(f, k, v) && d.met(k, Some(v)) != d.met(k, None)
    && (forall j: string :: j != k ==> d.CanMeet(j))
    && ReachedWithout(access, d, k)
  }

  ghost predicate Noticed(f: TagFilter, access: Access, d: Demand)
  {
    exists k, v :: NoticedAt(f, access, d, k, v)
  }

  ghost predicate AccessKept(f: TagFilter, access: Access)
  {
    forall k, v :: (k, v) in access.tags ==> Keeps(f, k, v)
  }

  /** On tags that reach the table the demand comes out the same. */
  ghost predicate SameOutcome(f: TagFilter, access: Access, d: Demand, tags: Tags)
  {
    Reached(access, tags) ==> (Satisfied(d, Filtered(f, tags)) <==> Satisfied(d, tags))
  }

  // A difference is noticed

  lemma LookupFiltered(f: TagFilter, tags: Tags, k: string)
    ensures Lookup(Filtered(f, tags), k) == if k in tags && !Keeps(f, k, tags[k]) then None else Lookup(tags, k)
  {
  }

  lemma TaggedLookup(tags: Tags)
    ensures forall k <- tags :: Lookup(tags, k) == Some(tags[k])
  {
  }

  lemma DifferenceNoticed(f: TagFilter, access: Access, d: Demand, tags: Tags)
    requires AccessKept(f, access) && !SameOutcome(f, access, d, tags)
    ensures Noticed(f, access, d)
  {
    hide Keeps, Filtered, Lookup;
    var less := Filtered(f, tags);
    forall j ensures Lookup(less, j) == if j in tags && !Keeps(f, j, tags[j]) then None else Lookup(tags, j) {
      LookupFiltered(f, tags, j);
    }
    var met, other := tags, less;
    if !Satisfied(d, tags) { met, other := less, tags; }
    var k: string :| !d.met(k, Lookup(other, k));
    forall j: string ensures d.CanMeet(j) { assert d.met(j, Lookup(met, j)); }
    assert d.met(k, Lookup(met, k));
    TaggedLookup(tags);
    if !access.any {
      var h :| h in tags && (h, tags[h]) in access.tags;
      assert d.met(h, Lookup(met, h));
    }
    assert NoticedAt(f, access, d, k, tags[k]);
  }

  // What is noticed is a difference

  ghost function Meeting(d: Demand, k: string): (value: Option<string>)
    requires d.CanMeet(k)
    ensures d.met(k, value)
  {
    var value :| d.met(k, value);
    value
  }

  /** Tags as they are asked for, but for `k`, which is not among them. */
  ghost predicate MeetsOthers(d: Demand, k: string, tags: Tags)
  {
    k !in tags && forall j: string :: j != k ==> d.met(j, Lookup(tags, j))
  }

  lemma Others(d: Demand, k: string) returns (tags: Tags)
    requires d.Valid() && forall j: string :: j != k ==> d.CanMeet(j)
    ensures MeetsOthers(d, k, tags)
  {
    tags := map j | j in d.keys && j != k && Meeting(d, j).Some? :: Meeting(d, j).value;
    forall j: string | j != k ensures d.met(j, Lookup(tags, j)) {
      if j in d.keys { assert Lookup(tags, j) == Meeting(d, j); }
    }
  }

  lemma WithTag(d: Demand, k: string, tags: Tags, h: string, w: string)
    requires MeetsOthers(d, k, tags) && h != k && d.met(h, Some(w))
    ensures MeetsOthers(d, k, tags[h := w])
  {
    var more := tags[h := w];
    forall j: string | j != k ensures d.met(j, Lookup(more, j)) {
      assert j != h ==> Lookup(more, j) == Lookup(tags, j);
    }
  }

  lemma ReachingOthers(access: Access, d: Demand, k: string, v: string) returns (tags: Tags)
    requires d.Valid() && (forall j: string :: j != k ==> d.CanMeet(j)) && ReachedWithout(access, d, k)
    ensures MeetsOthers(d, k, tags) && Reached(access, tags) && Reached(access, tags[k := v])
  {
    hide MeetsOthers;
    tags := Others(d, k);
    if !access.any {
      var h: string, w: string :| h != k && (h, w) in access.tags && d.met(h, Some(w));
      WithTag(d, k, tags, h, w);
      tags := tags[h := w];
      assert tags[k := v][h] == w && tags[h] == w;
    }
  }

  lemma SatisfiedWith(d: Demand, k: string, v: string, tags: Tags)
    requires MeetsOthers(d, k, tags)
    ensures Satisfied(d, tags) <==> d.met(k, None)
    ensures Satisfied(d, tags[k := v]) <==> d.met(k, Some(v))
  {
    var more := tags[k := v];
    assert Lookup(tags, k) == None && Lookup(more, k) == Some(v);
    forall j: string ensures d.met(j, Lookup(more, j)) <==> j != k || d.met(k, Some(v)) {
      assert j != k ==> Lookup(more, j) == Lookup(tags, j);
    }
  }

  lemma DroppedFails(f: TagFilter, d: Demand, k: string, tags: Tags)
    requires MeetsOthers(d, k, tags) && !d.met(k, None)
    ensures !Satisfied(d, Filtered(f, tags))
  {
    assert Lookup(Filtered(f, tags), k) == None;
  }

  lemma SameWhenDropped(f: TagFilter, d: Demand, k: string, v: string, tags: Tags)
    requires MeetsOthers(d, k, tags) && !Keeps(f, k, v)
    ensures Filtered(f, tags[k := v]) == Filtered(f, tags)
  {
  }

  lemma NoticedDiffers(f: TagFilter, access: Access, d: Demand, k: string, v: string) returns (tags: Tags)
    requires d.Valid() && NoticedAt(f, access, d, k, v)
    ensures !SameOutcome(f, access, d, tags)
  {
    hide Satisfied, ReachedWithout, Reached, MeetsOthers, Filtered;
    var others := ReachingOthers(access, d, k, v);
    SatisfiedWith(d, k, v, others);
    SameWhenDropped(f, d, k, v, others);
    if d.met(k, Some(v)) {
      DroppedFails(f, d, k, others);
      tags := others[k := v];
    } else {
      tags := if Satisfied(d, Filtered(f, others)) then others[k := v] else others;
    }
  }

  /** The demand comes out the same on all tags that reach the table, if and only if nothing is noticed. */
  lemma OutcomeIff(f: TagFilter, access: Access, d: Demand)
    requires d.Valid() && AccessKept(f, access)
    ensures (forall tags: Tags :: SameOutcome(f, access, d, tags)) <==> !Noticed(f, access, d)
  {
    hide SameOutcome, NoticedAt, AccessKept;
    if k: string, v: string :| NoticedAt(f, access, d, k, v) {
      var tags := NoticedDiffers(f, access, d, k, v);
    } else {
      forall tags: Tags ensures SameOutcome(f, access, d, tags) {
        if !SameOutcome(f, access, d, tags) { DifferenceNoticed(f, access, d, tags); }
      }
    }
  }

  /** Where a demand can never be met, dropping tags makes no difference. */
  lemma HopelessUnnoticed(f: TagFilter, access: Access, d: Demand, j: string)
    requires !d.CanMeet(j)
    ensures !Noticed(f, access, d)
  {
    forall k: string, v: string ensures !NoticedAt(f, access, d, k, v) {
      assert !d.met(j, Some(v)) && !d.met(j, None);
    }
  }

  // Tables whose filters are tests

  /** What leads to a table by the entries of a matcher. */
  ghost function AccessTo(tm: TagMatcher, dest: DestTable): (r: Access)
  {
    Access(exists e <- Entries(tm.mappings, ANY, ANY) :: e.dest == dest,
           iset k: string, v: string | exists e <- TagEntries(tm, k, v) :: e.dest == dest :: (k, v))
  }

  lemma AccessToKept(f: TagFilter, tm: TagMatcher, dest: DestTable)
    requires KeepsEntries(f, tm)
    ensures AccessKept(f, AccessTo(tm, dest))
  {
    hide Entries;
  }

  lemma ReachedIff(tm: TagMatcher, dest: DestTable, tags: Tags)
    ensures Reached(AccessTo(tm, dest), tags) <==> exists c :: IsCandidate(tm, tags, c) && c.entry.dest == dest
  {
    hide Entries, TagEntries;
    var access := AccessTo(tm, dest);
    if access.any {
      var e :| e in Entries(tm.mappings, ANY, ANY) && e.dest == dest;
      assert IsCandidate(tm, tags, Candidate(ANY, ANY, e));
    } else if Reached(access, tags) {
      var k :| k in tags && (k, tags[k]) in access.tags;
      var e :| e in TagEntries(tm, k, tags[k]) && e.dest == dest;
      assert IsCandidate(tm, tags, Candidate(k, tags[k], e));
    }
    if c :| IsCandidate(tm, tags, c) && c.entry.dest == dest {
      if FromTag(tm, tags, c) { assert (c.key, tags[c.key]) in access.tags; }
    }
  }

  lemma SomeWinner(tm: TagMatcher, dest: DestTable, tags: Tags) returns (c: Candidate)
    requires Reached(AccessTo(tm, dest), tags)
    ensures Wins(tm, tags, c) && c.entry.dest == dest
  {
    hide FromTag, FromAny, Reached, AccessTo, Walk;
    ReachedIff(tm, dest, tags);
    var order := SomeOrder(tags.Keys);
    WalkIsChoice(tm, tags, order);
    c := Walk(tm, tags, order)[dest];
  }

  ghost predicate Winner(tm: TagMatcher, tags: Tags, m: Match)
  {
    exists c :: Wins(tm, tags, c) && MatchOf(c) == m
  }

  /** A match that can be taken, of an element that meets the tests. */
  ghost predicate Picked(tm: TagMatcher, tests: seq<Test>, tags: Tags, m: Match)
  {
    Winner(tm, tags, m) && Met(tests, tags)
  }

  ghost predicate SamePicked(f: TagFilter, tm: TagMatcher, tests: seq<Test>, dest: DestTable, tags: Tags)
  {
    forall m: Match :: m.table == dest ==> (Picked(tm, tests, Filtered(f, tags), m) <==> Picked(tm, tests, tags, m))
  }

  lemma SameWinners(f: TagFilter, tm: TagMatcher, tags: Tags)
    requires KeepsEntries(f, tm)
    ensures forall m :: Winner(tm, Filtered(f, tags), m) <==> Winner(tm, tags, m)
  {
    hide Wins, IsCandidate, Filtered, KeepsEntries;
    SameFirst(f, tm, tags);
  }

  lemma WinnerReached(tm: TagMatcher, tags: Tags, m: Match)
    requires Winner(tm, tags, m)
    ensures Reached(AccessTo(tm, m.table), tags)
  {
    hide FromAny, FromTag, Reached, AccessTo;
    var c :| Wins(tm, tags, c) && MatchOf(c) == m;
    assert IsCandidate(tm, tags, c);
    ReachedIff(tm, m.table, tags);
  }

  lemma PickedIff(f: TagFilter, tm: TagMatcher, tests: seq<Test>, dest: DestTable, tags: Tags)
    requires KeepsEntries(f, tm)
    ensures SamePicked(f, tm, tests, dest, tags) <==> SameOutcome(f, AccessTo(tm, dest), DemandOf(tests), tags)
  {
    hide Met, Wins, Filtered, KeepsEntries, Reached, AccessTo, Satisfied, Winner;
    SameWinners(f, tm, tags);
    MetIff(tests, tags);
    MetIff(tests, Filtered(f, tags));
    forall m: Match | Winner(tm, tags, m) ensures Reached(AccessTo(tm, m.table), tags) { WinnerReached(tm, tags, m); }
    if Reached(AccessTo(tm, dest), tags) {
      var c := SomeWinner(tm, dest, tags);
      assert Winner(tm, tags, MatchOf(c)) by { IsWinner(tm, tags, c); }
    }
  }

  lemma IsWinner(tm: TagMatcher, tags: Tags, c: Candidate)
    requires Wins(tm, tags, c)
    ensures Winner(tm, tags, MatchOf(c))
  {
    hide Wins;
  }

  /** The matches of a table are the same on filtered tags, for all tags, if and only if nothing is noticed. */
  lemma PickedAlikeIff(f: TagFilter, tm: TagMatcher, tests: seq<Test>, dest: DestTable)
    requires KeepsEntries(f, tm)
    ensures (forall tags: Tags :: SamePicked(f, tm, tests, dest, tags)) <==>
      !Noticed(f, AccessTo(tm, dest), DemandOf(tests))
  {
    hide SamePicked, SameOutcome, KeepsEntries, AccessKept, AccessTo, Noticed;
    AccessToKept(f, tm, dest);
    OutcomeIff(f, AccessTo(tm, dest), DemandOf(tests));
    forall tags: Tags
      ensures SamePicked(f, tm, tests, dest, tags) <==> SameOutcome(f, AccessTo(tm, dest), DemandOf(tests), tags)
    {
      PickedIff(f, tm, tests, dest, tags);
    }
  }

  // Tables with filters for closed ways, which look at the matching key and at the area tag

  type Gate = (string, Option<string>) -> bool

  /** The value of a key leads to no entry before the candidate's, or at its place. */
  predicate Behind(tm: TagMatcher, c: Candidate, strict: bool, k: string, value: Option<string>)
  {
    value.Some? ==> forall e <- TagEntries(tm, k, value.value) ::
      e.dest == c.entry.dest ==> c.entry.order <= e.order && (strict ==> c.entry.order != e.order)
  }

  /** The candidate is one, as that of a tag or as that of any key, and no entry for any key is before it. */
  predicate MayWin(tm: TagMatcher, c: Candidate, asTag: bool)
  {
    && (forall e <- Entries(tm.mappings, ANY, ANY) :: e.dest == c.entry.dest ==> c.entry.order <= e.order)
    && if asTag then c.entry in TagEntries(tm, c.key, c.value) else FromAny(tm, c)
  }

  /** What is asked of the tags for the candidate to win. */
  function ToWin(tm: TagMatcher, c: Candidate, asTag: bool): (d: Demand)
    ensures d.Valid()
  {
    Demand(tm.mappings.Keys + {c.key}, (k, value) =>
      Behind(tm, c, !asTag, k, value) && (asTag && k == c.key ==> value == Some(c.value)))
  }

  lemma ToWinMet(tm: TagMatcher, c: Candidate, asTag: bool, k: string, value: Option<string>)
    ensures ToWin(tm, c, asTag).met(k, value) <==>
      Behind(tm, c, !asTag, k, value) && (asTag && k == c.key ==> value == Some(c.value))
  {
  }

  lemma WinsAsTag(tm: TagMatcher, tags: Tags, c: Candidate)
    ensures Wins(tm, tags, c) && FromTag(tm, tags, c) <==> MayWin(tm, c, true) && Satisfied(ToWin(tm, c, true), tags)
  {
    hide Entries, TagEntries, ToWin;
    var d := ToWin(tm, c, true);
    if Wins(tm, tags, c) && FromTag(tm, tags, c) {
      forall k: string ensures d.met(k, Lookup(tags, k)) {
        forall e | k in tags && e in TagEntries(tm, k, tags[k]) && e.dest == c.entry.dest
          ensures c.entry.order <= e.order
        {
          assert IsCandidate(tm, tags, Candidate(k, tags[k], e));
        }
        ToWinMet(tm, c, true, k, Lookup(tags, k));
      }
      forall e | e in Entries(tm.mappings, ANY, ANY) && e.dest == c.entry.dest ensures c.entry.order <= e.order {
        assert IsCandidate(tm, tags, Candidate(ANY, ANY, e));
      }
    }
    if MayWin(tm, c, true) && Satisfied(d, tags) {
      assert d.met(c.key, Lookup(tags, c.key));
      ToWinMet(tm, c, true, c.key, Lookup(tags, c.key));
      forall b | FromTag(tm, tags, b) && b.entry.dest == c.entry.dest ensures c.entry.order <= b.entry.order {
        assert d.met(b.key, Lookup(tags, b.key));
        ToWinMet(tm, c, true, b.key, Lookup(tags, b.key));
      }
    }
  }

  lemma WinsAsAny(tm: TagMatcher, tags: Tags, c: Candidate)
    ensures Wins(tm, tags, c) && !FromTag(tm, tags, c) <==> MayWin(tm, c, false) && Satisfied(ToWin(tm, c, false), tags)
  {
    hide Entries, TagEntries, ToWin;
    var d := ToWin(tm, c, false);
    if Wins(tm, tags, c) && !FromTag(tm, tags, c) {
      forall k: string ensures d.met(k, Lookup(tags, k)) {
        forall e | k in tags && e in TagEntries(tm, k, tags[k]) && e.dest == c.entry.dest
          ensures c.entry.order < e.order
        {
          var b := Candidate(k, tags[k], e);
          assert FromTag(tm, tags, b) && IsCandidate(tm, tags, b);
        }
        ToWinMet(tm, c, false, k, Lookup(tags, k));
      }
      forall e | e in Entries(tm.mappings, ANY, ANY) && e.dest == c.entry.dest ensures c.entry.order <= e.order {
        assert IsCandidate(tm, tags, Candidate(ANY, ANY, e));
      }
    }
    if MayWin(tm, c, false) && Satisfied(d, tags) {
      forall b | FromTag(tm, tags, b) && b.entry.dest == c.entry.dest ensures c.entry.order < b.entry.order {
        assert d.met(b.key, Lookup(tags, b.key));
        ToWinMet(tm, c, false, b.key, Lookup(tags, b.key));
      }
    }
  }

  function AtGate(gate: Gate, key: string): (d: Demand)
    ensures d.Valid()
  {
    Demand({"area"}, (k, value) => k == "area" ==> gate(key, value))
  }

  lemma AtGateIff(gate: Gate, key: string, tags: Tags)
    ensures Satisfied(AtGate(gate, key), tags) <==> gate(key, Lookup(tags, "area"))
  {
    if Satisfied(AtGate(gate, key), tags) { assert AtGate(gate, key).met("area", Lookup(tags, "area")); }
  }

  /** What is asked besides the tests for the candidate to win and pass. */
  function ToPass(tm: TagMatcher, gate: Gate, c: Candidate, asTag: bool): (d: Demand)
    ensures d.Valid()
  {
    ToWin(tm, c, asTag).And(AtGate(gate, c.key))
  }

  /** A match that can be taken, of an element that meets the tests and passes the gate. */
  ghost predicate PickedAt(tm: TagMatcher, tests: seq<Test>, gate: Gate, tags: Tags, m: Match)
  {
    Winner(tm, tags, m) && Met(tests, tags) && gate(m.key, Lookup(tags, "area"))
  }

  ghost predicate SamePickedAt(f: TagFilter, tm: TagMatcher, tests: seq<Test>, gate: Gate, dest: DestTable, tags: Tags)
  {
    forall m: Match :: m.table == dest ==>
      (PickedAt(tm, tests, gate, Filtered(f, tags), m) <==> PickedAt(tm, tests, gate, tags, m))
  }

  const ALL := Access(true, iset{})

  /** For some candidate of the table that can win, and that passes the gate, a dropped value makes a difference. */
  ghost predicate NoticedFor(f: TagFilter, tm: TagMatcher, tests: seq<Test>, gate: Gate, dest: DestTable,
                             c: Candidate, asTag: bool)
  {
    && c.entry.dest == dest && MayWin(tm, c, asTag)
    && Noticed(f, ALL, DemandOf(tests).And(ToPass(tm, gate, c, asTag)))
  }

  /** The filter drops no value that makes a difference to winning or to the gate. */
  lemma PassKept(f: TagFilter, tm: TagMatcher, gate: Gate, c: Candidate, asTag: bool, k: string, v: string)
    requires KeepsEntries(f, tm) && "area" in f.extraTags && MayWin(tm, c, asTag) && !Keeps(f, k, v)
    ensures ToPass(tm, gate, c, asTag).met(k, Some(v)) == ToPass(tm, gate, c, asTag).met(k, None)
  {
    hide Entries, ToWin;
    ToWinMet(tm, c, asTag, k, Some(v));
    ToWinMet(tm, c, asTag, k, None);
    assert TagEntries(tm, k, v) == [] by { NoEntries(f, tm, k, v); }
    assert asTag && k == c.key ==> v != c.value;
  }

  lemma SamePasses(f: TagFilter, tm: TagMatcher, gate: Gate, c: Candidate, asTag: bool, tags: Tags)
    requires KeepsEntries(f, tm) && "area" in f.extraTags && MayWin(tm, c, asTag)
    ensures Satisfied(ToPass(tm, gate, c, asTag), Filtered(f, tags)) <==> Satisfied(ToPass(tm, gate, c, asTag), tags)
  {
    hide ToPass, MayWin, KeepsEntries, Keeps, Filtered;
    var d, less := ToPass(tm, gate, c, asTag), Filtered(f, tags);
    forall k: string ensures d.met(k, Lookup(less, k)) <==> d.met(k, Lookup(tags, k)) {
      LookupFiltered(f, tags, k);
      if k in tags && !Keeps(f, k, tags[k]) { PassKept(f, tm, gate, c, asTag, k, tags[k]); }
    }
  }

  /** The outcome for one candidate: on tags with which it wins and passes, the tests come out the same. */
  lemma OutcomeFor(f: TagFilter, tm: TagMatcher, tests: seq<Test>, gate: Gate, c: Candidate, asTag: bool, tags: Tags)
    requires KeepsEntries(f, tm) && "area" in f.extraTags && MayWin(tm, c, asTag)
    ensures SameOutcome(f, ALL, DemandOf(tests).And(ToPass(tm, gate, c, asTag)), tags) <==>
      (Satisfied(ToPass(tm, gate, c, asTag), tags) ==> (Met(tests, Filtered(f, tags)) <==> Met(tests, tags)))
  {
    hide ToPass, MayWin, KeepsEntries, Filtered, Satisfied, Met;
    SamePasses(f, tm, gate, c, asTag, tags);
    BothSatisfied(DemandOf(tests), ToPass(tm, gate, c, asTag), tags);
    BothSatisfied(DemandOf(tests), ToPass(tm, gate, c, asTag), Filtered(f, tags));
    MetIff(tests, tags);
    MetIff(tests, Filtered(f, tags));
  }

  /** A match can be taken and passes the gate if and only if some candidate for it does. */
  lemma WinnerIff(tm: TagMatcher, gate: Gate, tags: Tags, m: Match)
    ensures Winner(tm, tags, m) && gate(m.key, Lookup(tags, "area")) <==> exists c, asTag ::
      MatchOf(c) == m && MayWin(tm, c, asTag) && Satisfied(ToPass(tm, gate, c, asTag), tags)
  {
    hide MayWin, Satisfied, Wins;
    forall c ensures Wins(tm, tags, c) && gate(c.key, Lookup(tags, "area")) <==>
      exists asTag :: MayWin(tm, c, asTag) && Satisfied(ToPass(tm, gate, c, asTag), tags)
    {
      PassesIff(tm, gate, tags, c);
    }
  }

  lemma PassesIff(tm: TagMatcher, gate: Gate, tags: Tags, c: Candidate)
    ensures Wins(tm, tags, c) && gate(c.key, Lookup(tags, "area")) <==>
      exists asTag :: MayWin(tm, c, asTag) && Satisfied(ToPass(tm, gate, c, asTag), tags)
  {
    hide MayWin, Satisfied, Wins, FromTag;
    AtGateIff(gate, c.key, tags);
    BothSatisfied(ToWin(tm, c, true), AtGate(gate, c.key), tags);
    BothSatisfied(ToWin(tm, c, false), AtGate(gate, c.key), tags);
    WinsAsTag(tm, tags, c);
    WinsAsAny(tm, tags, c);
    assert MayWin(tm, c, true) && Satisfied(ToPass(tm, gate, c, true), tags) <==>
      Wins(tm, tags, c) && FromTag(tm, tags, c) && gate(c.key, Lookup(tags, "area"));
    assert MayWin(tm, c, false) && Satisfied(ToPass(tm, gate, c, false), tags) <==>
      Wins(tm, tags, c) && !FromTag(tm, tags, c) && gate(c.key, Lookup(tags, "area"));
  }

  lemma AreaSeen(f: TagFilter, tags: Tags)
    requires "area" in f.extraTags
    ensures Lookup(Filtered(f, tags), "area") == Lookup(tags, "area")
  {
  }

  /** For every match of the table that can be taken and passes the gate, the tests come out the same. */
  ghost predicate SameTested(f: TagFilter, tm: TagMatcher, tests: seq<Test>, gate: Gate, dest: DestTable, tags: Tags)
  {
    forall m: Match :: m.table == dest && Winner(tm, tags, m) && gate(m.key, Lookup(tags, "area")) ==>
      (Met(tests, Filtered(f, tags)) <==> Met(tests, tags))
  }

  lemma SameTestedIff(f: TagFilter, tm: TagMatcher, tests: seq<Test>, gate: Gate, dest: DestTable, tags: Tags)
    requires KeepsEntries(f, tm) && "area" in f.extraTags
    ensures SamePickedAt(f, tm, tests, gate, dest, tags) <==> SameTested(f, tm, tests, gate, dest, tags)
  {
    hide Winner, Met, Filtered, KeepsEntries, Lookup;
    SameWinners(f, tm, tags);
    AreaSeen(f, tags);
  }

  lemma AlikeIfUnnoticed(f: TagFilter, tm: TagMatcher, tests: seq<Test>, gate: Gate, dest: DestTable, tags: Tags)
    requires KeepsEntries(f, tm) && "area" in f.extraTags
    requires !exists c, asTag :: NoticedFor(f, tm, tests, gate, dest, c, asTag)
    ensures SameTested(f, tm, tests, gate, dest, tags)
  {
    hide Winner, Met, Filtered, KeepsEntries, MayWin, ToPass, Noticed, SameOutcome, Satisfied;
    forall m: Match | m.table == dest && Winner(tm, tags, m) && gate(m.key, Lookup(tags, "area"))
      ensures Met(tests, Filtered(f, tags)) <==> Met(tests, tags)
    {
      WinnerIff(tm, gate, tags, m);
      var c, asTag :|
        MatchOf(c) == m && MayWin(tm, c, asTag) && Satisfied(ToPass(tm, gate, c, asTag), tags);
      assert !NoticedFor(f, tm, tests, gate, dest, c, asTag);
      OutcomeIff(f, ALL, DemandOf(tests).And(ToPass(tm, gate, c, asTag)));
      OutcomeFor(f, tm, tests, gate, c, asTag, tags);
    }
  }

  lemma NoticedNotAlike(f: TagFilter, tm: TagMatcher, tests: seq<Test>, gate: Gate, dest: DestTable,
                        c: Candidate, asTag: bool) returns (tags: Tags)
    requires KeepsEntries(f, tm) && "area" in f.extraTags && NoticedFor(f, tm, tests, gate, dest, c, asTag)
    ensures !SameTested(f, tm, tests, gate, dest, tags)
  {
    hide Winner, Met, Filtered, KeepsEntries, MayWin, ToPass, Noticed, SameOutcome, Satisfied;
    var d := DemandOf(tests).And(ToPass(tm, gate, c, asTag));
    OutcomeIff(f, ALL, d);
    tags :| !SameOutcome(f, ALL, d, tags);
    OutcomeFor(f, tm, tests, gate, c, asTag, tags);
    WinnerIff(tm, gate, tags, MatchOf(c));
  }

  /** The matches of a table are the same on filtered tags, for all tags, if and only if for no candidate anything is
      noticed. */
  lemma PickedAtAlikeIff(f: TagFilter, tm: TagMatcher, tests: seq<Test>, gate: Gate, dest: DestTable)
    requires KeepsEntries(f, tm) && "area" in f.extraTags
    ensures (forall tags: Tags :: SamePickedAt(f, tm, tests, gate, dest, tags)) <==>
      !exists c, asTag :: NoticedFor(f, tm, tests, gate, dest, c, asTag)
  {
    hide SamePickedAt, SameTested, KeepsEntries, NoticedFor;
    forall tags: Tags
      ensures SamePickedAt(f, tm, tests, gate, dest, tags) <==> SameTested(f, tm, tests, gate, dest, tags)
    {
      SameTestedIff(f, tm, tests, gate, dest, tags);
    }
    if c, asTag :| NoticedFor(f, tm, tests, gate, dest, c, asTag) {
      var tags := NoticedNotAlike(f, tm, tests, gate, dest, c, asTag);
    } else {
      forall tags: Tags ensures SameTested(f, tm, tests, gate, dest, tags) {
        AlikeIfUnnoticed(f, tm, tests, gate, dest, tags);
      }
    }
  }
}
