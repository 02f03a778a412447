/** `mergeRings`: open rings are joined through a map from end references to the rings that end there.
    A ring is identified by its index in the list, as a pointer would. */
module RingMerge {
  import opened GoInts
  import opened DeltaNodes
  import opened Rings
  import opened Segments
  import RingEnds

  datatype State = State(pool: seq<Ring>, endpoints: map<int64, nat>)

  /** Every entry of the map leads to a ring that ends there. */
  predicate Sane(st: State)
  {
    && (forall i :: 0 <= i < |st.pool| ==> Aligned(st.pool[i]))
    && forall e <- st.endpoints :: EndsAt(st, e)
  }

  predicate EndsAt(st: State, e: int64)
    requires e in st.endpoints
  {
    var o := st.endpoints[e];
    o < |st.pool| && Long(st.pool[o]) && (e == First(st.pool[o]) || e == Last(st.pool[o]))
  }

  /** The ring found at the left end of `ring`, with `ring` appended. */
  function JoinLeft(orig: Ring, ring: Ring): (r: Ring)
    requires Long(orig) && Long(ring)
  {
    Append(if First(ring) == Last(orig) then orig else Turned(orig), ring)
  }

  /** `joined`, with the ring found at its right end appended. */
  function JoinBoth(joined: Ring, right: Ring): (r: Ring)
    requires Long(joined) && Long(right)
  {
    if Last(joined) == First(right) then Append(joined, right) else Attach(joined, Turned(right))
  }

  /** The ring found at the right end of `ring`, with `ring` before or, reversed, after it. */
  function JoinRight(orig: Ring, ring: Ring): (r: Ring)
    requires Long(orig) && Long(ring)
  {
    if Last(ring) == First(orig) then Attach(ring, orig).(ways := orig.ways + ring.ways)
    else Attach(orig, Turned(ring))
  }

  /** Ring `k` meets a ring at its left end, and none, or the same ring, at its right end. */
  function StepLeft(st: State, k: nat): (r: State)
    requires Sane(st) && k < |st.pool| && Long(st.pool[k]) && First(st.pool[k]) in st.endpoints
  {
    assert EndsAt(st, First(st.pool[k]));
    var ring, o := st.pool[k], st.endpoints[First(st.pool[k])];
    State(st.pool[o := JoinLeft(st.pool[o], ring)], (st.endpoints - {First(ring)})[Last(ring) := o])
  }

  /** Ring `k` meets two different rings, which become one. */
  function StepBoth(st: State, k: nat): (r: State)
    requires Sane(st) && k < |st.pool| && Long(st.pool[k])
    requires First(st.pool[k]) in st.endpoints && Last(st.pool[k]) in st.endpoints
  {
    assert EndsAt(st, First(st.pool[k])) && EndsAt(st, Last(st.pool[k]));
    var ring, o := st.pool[k], st.endpoints[First(st.pool[k])];
    var whole := JoinBoth(JoinLeft(st.pool[o], ring), st.pool[st.endpoints[Last(ring)]]);
    State(st.pool[o := whole], (st.endpoints - {First(ring), Last(ring)})[Last(whole) := o])
  }

  /** Ring `k` meets a ring at its right end only. */
  function StepRight(st: State, k: nat): (r: State)
    requires Sane(st) && k < |st.pool| && Long(st.pool[k]) && Last(st.pool[k]) in st.endpoints
  {
    assert EndsAt(st, Last(st.pool[k]));
    var ring, o := st.pool[k], st.endpoints[Last(st.pool[k])];
    State(st.pool[o := JoinRight(st.pool[o], ring)], (st.endpoints - {Last(ring)})[First(ring) := o])
  }

  /** Ring `k` is not connected, yet. */
  function StepNew(st: State, k: nat): (r: State)
    requires k < |st.pool| && Long(st.pool[k])
  {
    State(st.pool, st.endpoints[First(st.pool[k]) := k][Last(st.pool[k]) := k])
  }

  /** Ring `k` meets two different rings. */
  predicate MeetsTwo(st: State, k: nat)
    requires k < |st.pool| && Long(st.pool[k])
  {
    var left, right := First(st.pool[k]), Last(st.pool[k]);
    left != right && left in st.endpoints && right in st.endpoints && st.endpoints[left] != st.endpoints[right]
  }

  /** What becomes of the map and of the rings when ring `k` is added. */
  function Step(st: State, k: nat): (r: State)
    requires Sane(st) && k < |st.pool|
  {
    var ring, E := st.pool[k], st.endpoints;
    if |ring.refs| < 2 then st
    else if MeetsTwo(st, k) then StepBoth(st, k)
    else if First(ring) in E then StepLeft(st, k)
    else if Last(ring) in E then StepRight(st, k)
    else StepNew(st, k)
  }

  lemma JoinLeftCorrect(orig: Ring, ring: Ring)
    requires Long(orig) && Long(ring) && (First(ring) == First(orig) || First(ring) == Last(orig))
    ensures var r := JoinLeft(orig, ring);
            && Long(r) && Parts(r) == Parts(orig) + Parts(ring) && Last(r) == Last(ring)
            && First(r) == if First(ring) == Last(orig) then First(orig) else Last(orig)
  {
    hide Parts, Append, Turned;
    TurnedParts(orig);
    AppendParts(if First(ring) == Last(orig) then orig else Turned(orig), ring);
  }

  lemma JoinBothCorrect(joined: Ring, right: Ring)
    requires Long(joined) && Long(right) && (Last(joined) == First(right) || Last(joined) == Last(right))
    ensures var r := JoinBoth(joined, right);
            && Long(r) && Parts(r) == Parts(joined) + Parts(right) && First(r) == First(joined)
            && Last(r) == if Last(joined) == First(right) then Last(right) else First(right)
  {
    hide Parts, Append, Attach, Turned;
    TurnedParts(right);
    AppendParts(joined, if Last(joined) == First(right) then right else Turned(right));
  }

  lemma JoinRightCorrect(orig: Ring, ring: Ring)
    requires Long(orig) && Long(ring) && (Last(ring) == First(orig) || Last(ring) == Last(orig))
    ensures var r := JoinRight(orig, ring);
            && Long(r) && Parts(r) == Parts(orig) + Parts(ring)
            && (Last(ring) == First(orig) ==> First(r) == First(ring) && Last(r) == Last(orig))
            && (Last(ring) != First(orig) ==> First(r) == First(orig) && Last(r) == First(ring))
  {
    hide WaysOf, Edges, Append, Turned;
    if Last(ring) == First(orig) {
      AppendParts(ring, orig);
      WaysCommute(orig.ways, ring.ways);
    } else {
      TurnedParts(ring);
      AppendParts(orig, Turned(ring));
    }
  }

  // What every step keeps

  /** The rings that the map leads to. */
  ghost function Live(E: map<int64, nat>): (r: set<nat>)
  {
    set e | e in E :: E[e]
  }

  lemma StepLeftSane(st: State, k: nat)
    requires Sane(st) && k < |st.pool| && Long(st.pool[k]) && First(st.pool[k]) in st.endpoints && !MeetsTwo(st, k)
    ensures Sane(StepLeft(st, k)) && Live(StepLeft(st, k).endpoints) == Live(st.endpoints)
  {
    hide JoinLeft;
    var ring, o := st.pool[k], st.endpoints[First(st.pool[k])];
    assert EndsAt(st, First(ring));
    JoinLeftCorrect(st.pool[o], ring);
    var r := StepLeft(st, k);
    forall e | e in r.endpoints ensures EndsAt(r, e) {
      if e != Last(ring) { assert EndsAt(st, e); }
    }
    assert Last(ring) in r.endpoints && r.endpoints[Last(ring)] == o;
    forall i | i in Live(st.endpoints) ensures i in Live(r.endpoints) {
      var e :| e in st.endpoints && st.endpoints[e] == i;
      if e != First(ring) && e != Last(ring) { assert r.endpoints[e] == i; }
    }
  }

  lemma StepRightSane(st: State, k: nat)
    requires Sane(st) && k < |st.pool| && Long(st.pool[k])
    requires First(st.pool[k]) !in st.endpoints && Last(st.pool[k]) in st.endpoints
    ensures Sane(StepRight(st, k)) && Live(StepRight(st, k).endpoints) == Live(st.endpoints)
  {
    hide JoinRight;
    var ring, o := st.pool[k], st.endpoints[Last(st.pool[k])];
    assert EndsAt(st, Last(ring));
    JoinRightCorrect(st.pool[o], ring);
    var r := StepRight(st, k);
    forall e | e in r.endpoints ensures EndsAt(r, e) {
      if e != First(ring) { assert EndsAt(st, e); }
    }
    assert First(ring) in r.endpoints && r.endpoints[First(ring)] == o;
    forall i | i in Live(st.endpoints) ensures i in Live(r.endpoints) {
      var e :| e in st.endpoints && st.endpoints[e] == i;
      if e != Last(ring) { assert r.endpoints[e] == i; }
    }
  }

  lemma StepNewSane(st: State, k: nat)
    requires Sane(st) && k < |st.pool| && Long(st.pool[k])
    requires First(st.pool[k]) !in st.endpoints && Last(st.pool[k]) !in st.endpoints
    ensures Sane(StepNew(st, k)) && Live(StepNew(st, k).endpoints) == Live(st.endpoints) + {k}
  {
    var ring, r := st.pool[k], StepNew(st, k);
    forall e | e in r.endpoints ensures EndsAt(r, e) {
      if e in st.endpoints { assert EndsAt(st, e); }
    }
    assert r.endpoints[Last(ring)] == k;
    forall i | i in Live(st.endpoints) ensures i in Live(r.endpoints) {
      var e :| e in st.endpoints && st.endpoints[e] == i;
      assert r.endpoints[e] == i;
    }
  }

  /** The other end of the ring that ring `k` meets with its right end. */
  function FarEnd(st: State, k: nat): (e: int64)
    requires Sane(st) && k < |st.pool| && Long(st.pool[k]) && Last(st.pool[k]) in st.endpoints
  {
    assert EndsAt(st, Last(st.pool[k]));
    var p := st.pool[st.endpoints[Last(st.pool[k])]];
    if Last(st.pool[k]) == First(p) then Last(p) else First(p)
  }

  /** Ring `k` meets two rings, and the far end of the second one leads to a third ring to which nothing else leads:
      that entry of the map is overwritten. */
  predicate Overwrites(st: State, k: nat)
  {
    && Sane(st) && k < |st.pool| && Long(st.pool[k]) && MeetsTwo(st, k)
    && var E, far := st.endpoints, FarEnd(st, k);
    && far in E && E[far] != E[First(st.pool[k])] && E[far] != E[Last(st.pool[k])]
    && forall e <- E :: E[e] == E[far] ==> e == far
  }

  /** The ring that is lost then. */
  function Dropped(st: State, k: nat): (r: set<nat>)
  {
    if Overwrites(st, k) then {st.endpoints[FarEnd(st, k)]} else {}
  }

  lemma StepBothEnds(st: State, k: nat)
    requires Sane(st) && k < |st.pool| && Long(st.pool[k]) && MeetsTwo(st, k)
    ensures Sane(StepBoth(st, k))
    ensures StepBoth(st, k).endpoints ==
      (st.endpoints - {First(st.pool[k]), Last(st.pool[k])})[FarEnd(st, k) := st.endpoints[First(st.pool[k])]]
    ensures forall e <- st.endpoints ::
      st.endpoints[e] == st.endpoints[Last(st.pool[k])] ==> e == Last(st.pool[k]) || e == FarEnd(st, k)
  {
    hide JoinLeft, JoinBoth;
    var ring, o, p := st.pool[k], st.endpoints[First(st.pool[k])], st.endpoints[Last(st.pool[k])];
    assert EndsAt(st, First(ring)) && EndsAt(st, Last(ring));
    JoinLeftCorrect(st.pool[o], ring);
    JoinBothCorrect(JoinLeft(st.pool[o], ring), st.pool[p]);
    var r := StepBoth(st, k);
    forall e <- st.endpoints ensures EndsAt(st, e) {}
    forall e <- r.endpoints ensures EndsAt(r, e) {
      if r.endpoints[e] != o || e in st.endpoints { assert EndsAt(st, e); }
    }
  }

  /** Two rings become one: nothing leads to the second one any more, and a third one is lost exactly when its only
      entry is overwritten. */
  lemma StepBothSane(st: State, k: nat)
    requires Sane(st) && k < |st.pool| && Long(st.pool[k]) && MeetsTwo(st, k)
    ensures Sane(StepBoth(st, k))
    ensures Dropped(st, k) <= Live(st.endpoints) - {st.endpoints[First(st.pool[k])], st.endpoints[Last(st.pool[k])]}
    ensures Live(StepBoth(st, k).endpoints) == Live(st.endpoints) - {st.endpoints[Last(st.pool[k])]} - Dropped(st, k)
  {
    hide JoinLeft, JoinBoth, Sane, StepBoth;
    StepBothEnds(st, k);
    LiveAfterOverwrite(st.endpoints, First(st.pool[k]), Last(st.pool[k]), FarEnd(st, k));
  }

  /** The values of a map after two keys are gone and a third one is set. */
  lemma LiveAfterOverwrite(E: map<int64, nat>, left: int64, right: int64, far: int64)
    requires left in E && right in E && E[left] != E[right]
    requires forall e <- E :: E[e] == E[right] ==> e == right || e == far
    ensures var other := far in E && E[far] != E[left] && E[far] != E[right];
      var lost := if other && (forall e <- E :: E[e] == E[far] ==> e == far) then {E[far]} else {};
      Live((E - {left, right})[far := E[left]]) == Live(E) - {E[right]} - lost
  {
    var r := (E - {left, right})[far := E[left]];
    assert r[far] == E[left];
    forall i | i in Live(E) && i != E[right] && i !in Live(r)
      ensures far in E && i == E[far] && forall e <- E :: E[e] == i ==> e == far
    {
      forall e <- E | E[e] == i ensures e == far { assert e in r ==> r[e] in Live(r); }
    }
    forall e <- r ensures r[e] in Live(E) { assert E[left] in Live(E); }
  }

  lemma Cancel<T>(a: multiset<T>, b: multiset<T>, c: multiset<T>)
    requires a + c == b + c
    ensures a == b
  {
    forall x ensures a[x] == b[x] { assert (a + c)[x] == (b + c)[x]; }
  }

  /** The parts of the rings when ring `o` has taken over those of another ring. */
  lemma Absorb(pool: seq<Ring>, live: set<nat>, o: nat, r: Ring, more: multiset<Part>)
    requires o < |pool| && o in live && Parts(r) == Parts(pool[o]) + more
    ensures Total(pool[o := r], live) == Total(pool, live) + more
  {
    hide Parts, Total;
    TotalUpdate(pool, live, o, r);
    assert Total(pool, live) + more + Parts(pool[o]) == Total(pool, live) + Parts(r);
    Cancel(Total(pool[o := r], live), Total(pool, live) + more, Parts(pool[o]));
  }

  lemma StepLeftTotal(st: State, k: nat)
    requires Sane(st) && k < |st.pool| && Long(st.pool[k]) && First(st.pool[k]) in st.endpoints
    ensures Total(StepLeft(st, k).pool, Live(st.endpoints)) == Total(st.pool, Live(st.endpoints)) + Parts(st.pool[k])
  {
    hide JoinLeft, Parts, Total, Long;
    var ring, o := st.pool[k], st.endpoints[First(st.pool[k])];
    assert EndsAt(st, First(ring));
    JoinLeftCorrect(st.pool[o], ring);
    Absorb(st.pool, Live(st.endpoints), o, JoinLeft(st.pool[o], ring), Parts(ring));
  }

  lemma StepRightTotal(st: State, k: nat)
    requires Sane(st) && k < |st.pool| && Long(st.pool[k]) && Last(st.pool[k]) in st.endpoints
    ensures Total(StepRight(st, k).pool, Live(st.endpoints)) == Total(st.pool, Live(st.endpoints)) + Parts(st.pool[k])
  {
    hide JoinRight, Parts, Total, Long;
    var ring, o := st.pool[k], st.endpoints[Last(st.pool[k])];
    assert EndsAt(st, Last(ring));
    JoinRightCorrect(st.pool[o], ring);
    Absorb(st.pool, Live(st.endpoints), o, JoinRight(st.pool[o], ring), Parts(ring));
  }

  lemma StepBothTotal(st: State, k: nat)
    requires Sane(st) && k < |st.pool| && Long(st.pool[k]) && MeetsTwo(st, k)
    ensures Total(StepBoth(st, k).pool, Live(st.endpoints) - {st.endpoints[Last(st.pool[k])]})
         == Total(st.pool, Live(st.endpoints)) + Parts(st.pool[k])
  {
    hide JoinLeft, JoinBoth, Parts, Total, Long;
    var ring, o, p := st.pool[k], st.endpoints[First(st.pool[k])], st.endpoints[Last(st.pool[k])];
    assert EndsAt(st, First(ring)) && EndsAt(st, Last(ring));
    var joined, live := JoinLeft(st.pool[o], ring), Live(st.endpoints);
    JoinLeftCorrect(st.pool[o], ring);
    JoinBothCorrect(joined, st.pool[p]);
    SumAssoc(Parts(st.pool[o]), Parts(ring), Parts(st.pool[p]));
    Absorb(st.pool, live, o, JoinBoth(joined, st.pool[p]), Parts(ring) + Parts(st.pool[p]));
    var pool := StepBoth(st, k).pool;
    TotalAdd(pool, live - {p}, p);
    assert live - {p} + {p} == live;
    SumAssoc(Total(st.pool, live), Parts(ring), Parts(st.pool[p]));
    Cancel(Total(pool, live - {p}), Total(st.pool, live) + Parts(ring), Parts(st.pool[p]));
  }

  /** The rings that have been added, those with less than two references left out. */
  ghost function Added(rings: seq<Ring>, k: nat): (r: set<nat>)
  {
    set i | 0 <= i < k && i < |rings| && |rings[i].refs| >= 2
  }

  /** After `k` rings: nothing is in the rings that has not been in one of those. */
  ghost predicate Inv(rings: seq<Ring>, k: nat, st: State)
  {
    && Sane(st) && |st.pool| == |rings| && k <= |rings|
    && (forall i :: k <= i < |rings| ==> st.pool[i] == rings[i])
    && (forall e <- st.endpoints :: st.endpoints[e] < k)
    && Total(st.pool, Live(st.endpoints)) <= Total(rings, Added(rings, k))
  }

  lemma AddOne(rings: seq<Ring>, k: nat)
    requires k < |rings|
    ensures Total(rings, Added(rings, k + 1))
         == Total(rings, Added(rings, k)) + if |rings[k].refs| >= 2 then Parts(rings[k]) else multiset{}
  {
    hide Parts, Total;
    if |rings[k].refs| >= 2 {
      assert Added(rings, k + 1) == Added(rings, k) + {k};
      TotalAdd(rings, Added(rings, k), k);
    } else {
      assert Added(rings, k + 1) == Added(rings, k);
    }
  }

  lemma StepKeepsInv(rings: seq<Ring>, k: nat, st: State)
    requires k < |rings| && Inv(rings, k, st)
    ensures Inv(rings, k + 1, Step(st, k))
    ensures |Step(st, k).pool| == |st.pool|
  {
    hide Parts, Total, Aligned, First, Last, JoinLeft, JoinRight, JoinBoth, Live;
    AddOne(rings, k);
    var ring, r, live := st.pool[k], Step(st, k), Live(st.endpoints);
    assert ring == rings[k] && Aligned(ring);
    if |ring.refs| >= 2 {
      if MeetsTwo(st, k) {
        StepBothSane(st, k);
        StepBothTotal(st, k);
        TotalSubset(r.pool, Live(r.endpoints), live - {st.endpoints[Last(ring)]});
      } else if First(ring) in st.endpoints {
        StepLeftSane(st, k);
        StepLeftTotal(st, k);
      } else if Last(ring) in st.endpoints {
        StepRightSane(st, k);
        StepRightTotal(st, k);
      } else {
        StepNewSane(st, k);
        NotYetLive(st, k);
        TotalAdd(st.pool, live, k);
      }
    }
  }

  // What is lost

  /** The parts of the ring that adding ring `k` loses. */
  ghost function LostParts(st: State, k: nat): (r: multiset<Part>)
  {
    if Overwrites(st, k) && st.endpoints[FarEnd(st, k)] < |st.pool| then Parts(st.pool[st.endpoints[FarEnd(st, k)]])
    else multiset{}
  }

  lemma LongHasParts(r: Ring)
    requires Long(r)
    ensures Parts(r) != multiset{}
  {
    EdgesCons(r.refs);
    assert EdgeOf(r.refs[0], r.refs[1]) in Parts(r);
  }

  lemma LostSomething(st: State, k: nat)
    ensures LostParts(st, k) == multiset{} <==> !Overwrites(st, k)
  {
    hide Parts;
    if Overwrites(st, k) {
      assert EndsAt(st, FarEnd(st, k));
      LongHasParts(st.pool[st.endpoints[FarEnd(st, k)]]);
    }
  }

  lemma StepBothLoses(st: State, k: nat)
    requires Sane(st) && k < |st.pool| && Long(st.pool[k]) && MeetsTwo(st, k)
    ensures Total(StepBoth(st, k).pool, Live(StepBoth(st, k).endpoints)) + LostParts(st, k)
         == Total(st.pool, Live(st.endpoints)) + Parts(st.pool[k])
  {
    hide Parts, Total, JoinLeft, JoinBoth, Live;
    StepBothSane(st, k);
    StepBothTotal(st, k);
    var r, left := StepBoth(st, k), Live(st.endpoints) - {st.endpoints[Last(st.pool[k])]};
    if Overwrites(st, k) {
      var q := st.endpoints[FarEnd(st, k)];
      assert EndsAt(st, FarEnd(st, k));
      assert Live(r.endpoints) + {q} == left;
      assert r.pool[q] == st.pool[q];
      TotalAdd(r.pool, Live(r.endpoints), q);
    } else {
      assert Live(r.endpoints) == left;
    }
  }

  /** Nothing is lost or gained by a step but for those parts. */
  lemma StepLoses(rings: seq<Ring>, k: nat, st: State, lost: multiset<Part>)
    requires k < |rings| && Inv(rings, k, st)
    requires Total(st.pool, Live(st.endpoints)) + lost == Total(rings, Added(rings, k))
    ensures Total(Step(st, k).pool, Live(Step(st, k).endpoints)) + (lost + LostParts(st, k))
         == Total(rings, Added(rings, k + 1))
  {
    hide Parts, Total, Aligned, First, Last, JoinLeft, JoinRight, JoinBoth, Live, LostParts, FarEnd;
    AddOne(rings, k);
    LostSomething(st, k);
    var ring, r, live := st.pool[k], Step(st, k), Live(st.endpoints);
    assert ring == rings[k] && Aligned(ring);
    if |ring.refs| >= 2 {
      if MeetsTwo(st, k) {
        StepBothLoses(st, k);
      } else if First(ring) in st.endpoints {
        StepLeftSane(st, k);
        StepLeftTotal(st, k);
      } else if Last(ring) in st.endpoints {
        StepRightSane(st, k);
        StepRightTotal(st, k);
      } else {
        StepNewSane(st, k);
        NotYetLive(st, k);
        TotalAdd(st.pool, live, k);
      }
      Reorder(Total(r.pool, Live(r.endpoints)), LostParts(st, k), Total(st.pool, live), Parts(ring), lost);
    }
  }

  lemma Reorder<T>(a: multiset<T>, b: multiset<T>, c: multiset<T>, d: multiset<T>, e: multiset<T>)
    requires a + b == c + d
    ensures a + (e + b) == c + e + d
  {
    assert a + (e + b) == a + b + e;
    assert c + e + d == c + d + e;
  }

  lemma NotYetLive(st: State, k: nat)
    requires forall e <- st.endpoints :: st.endpoints[e] < k
    ensures k !in Live(st.endpoints)
  {
  }

  // Nodes

  lemma JoinsMadeOf(a: Ring, b: Ring, c: Ring, all: set<Node>)
    requires Long(a) && Long(b) && Long(c) && NodesIn(a, all) && NodesIn(b, all) && NodesIn(c, all)
    ensures NodesIn(JoinLeft(a, b), all) && NodesIn(JoinRight(a, b), all)
    ensures Long(JoinLeft(a, b)) && NodesIn(JoinBoth(JoinLeft(a, b), c), all)
  {
    hide NodesIn, Append, Attach, Turned, Aligned;
    JoinedNodes(a, b, all);
    JoinedNodes(b, a, all);
    JoinedNodes(c, a, all);
    JoinedNodes(Turned(a), b, all);
    JoinedNodes(a, Turned(b), all);
    JoinedNodes(b, Turned(a), all);
    JoinedNodes(JoinLeft(a, b), c, all);
    JoinedNodes(JoinLeft(a, b), Turned(c), all);
    AttachedNodes(b, a, all);
  }

  lemma AttachedNodes(b: Ring, a: Ring, all: set<Node>)
    requires Long(a) && Long(b) && NodesIn(Attach(b, a), all)
    ensures NodesIn(Attach(b, a).(ways := a.ways + b.ways), all)
  {
  }

  /** A step makes no nodes. */
  lemma StepMadeOf(st: State, k: nat, all: set<Node>)
    requires Sane(st) && k < |st.pool| && MadeOf(st.pool, all)
    ensures MadeOf(Step(st, k).pool, all)
  {
    hide NodesIn, JoinLeft, JoinRight, JoinBoth, Aligned;
    var ring, E := st.pool[k], st.endpoints;
    assert Aligned(ring);
    if |ring.refs| >= 2 {
      if First(ring) in E {
        assert EndsAt(st, First(ring));
        var left := st.pool[E[First(ring)]];
        if Last(ring) in E {
          assert EndsAt(st, Last(ring));
          JoinsMadeOf(left, ring, st.pool[E[Last(ring)]], all);
        } else {
          JoinsMadeOf(left, ring, ring, all);
        }
      } else if Last(ring) in E {
        assert EndsAt(st, Last(ring));
        JoinsMadeOf(st.pool[E[Last(ring)]], ring, ring, all);
      }
    }
  }

  // When no reference is the end of more than two rings

  function EndOf(r: Ring): (e: (int64, int64))
  {
    if r.refs == [] then (0, 0) else (r.refs[0], r.refs[|r.refs| - 1])
  }

  function EndsOf(pool: seq<Ring>): (r: RingEnds.Ends)
  {
    seq(|pool|, i requires 0 <= i < |pool| => EndOf(pool[i]))
  }

  /** How often a reference is an end of the first `k` rings. */
  ghost function Met(rings: seq<Ring>, k: nat): (r: multiset<int64>)
    requires k <= |rings|
  {
    if k == 0 then multiset{}
    else if |rings[k - 1].refs| < 2 then Met(rings, k - 1)
    else Met(rings, k - 1) + multiset{EndOf(rings[k - 1]).0, EndOf(rings[k - 1]).1}
  }

  ghost predicate Paired(st: State, n: multiset<int64>)
  {
    RingEnds.Paired(st.endpoints, EndsOf(st.pool), n)
  }

  /** The end of a ring that is not `e`. */
  function Other(r: Ring, e: int64): (x: int64)
    requires Long(r)
  {
    if e == Last(r) then First(r) else Last(r)
  }

  lemma StepLeftPaired(st: State, k: nat, n: multiset<int64>)
    requires Sane(st) && k < |st.pool| && Long(st.pool[k]) && Paired(st, n)
    requires RingEnds.AtMostTwice(n + multiset{First(st.pool[k]), Last(st.pool[k])})
    requires First(st.pool[k]) in st.endpoints && !MeetsTwo(st, k)
    ensures Paired(StepLeft(st, k), n + multiset{First(st.pool[k]), Last(st.pool[k])})
  {
    hide JoinLeft, RingEnds.AtMostTwice, RingEnds.Paired;
    var ring := st.pool[k];
    assert EndsAt(st, First(ring));
    var o := st.endpoints[First(ring)];
    JoinLeftCorrect(st.pool[o], ring);
    var joined := JoinLeft(st.pool[o], ring);
    assert EndsOf(st.pool[o := joined]) == EndsOf(st.pool)[o := EndOf(joined)];
    RingEnds.Extended(st.endpoints, EndsOf(st.pool), n, First(ring), Last(ring),
                      Other(st.pool[o], First(ring)), EndOf(joined));
  }

  lemma StepRightPaired(st: State, k: nat, n: multiset<int64>)
    requires Sane(st) && k < |st.pool| && Long(st.pool[k]) && Paired(st, n)
    requires RingEnds.AtMostTwice(n + multiset{First(st.pool[k]), Last(st.pool[k])})
    requires First(st.pool[k]) !in st.endpoints && Last(st.pool[k]) in st.endpoints
    ensures Paired(StepRight(st, k), n + multiset{First(st.pool[k]), Last(st.pool[k])})
  {
    hide JoinRight, RingEnds.AtMostTwice, RingEnds.Paired;
    var ring := st.pool[k];
    assert EndsAt(st, Last(ring));
    var o := st.endpoints[Last(ring)];
    JoinRightCorrect(st.pool[o], ring);
    var joined := JoinRight(st.pool[o], ring);
    assert EndsOf(st.pool[o := joined]) == EndsOf(st.pool)[o := EndOf(joined)];
    assert multiset{First(ring), Last(ring)} == multiset{Last(ring), First(ring)};
    var x := if Last(ring) == First(st.pool[o]) then Last(st.pool[o]) else First(st.pool[o]);
    RingEnds.Extended(st.endpoints, EndsOf(st.pool), n, Last(ring), First(ring), x, EndOf(joined));
  }

  lemma StepNewPaired(st: State, k: nat, n: multiset<int64>)
    requires Sane(st) && k < |st.pool| && Long(st.pool[k]) && Paired(st, n)
    requires forall e <- st.endpoints :: st.endpoints[e] < k
    requires RingEnds.AtMostTwice(n + multiset{First(st.pool[k]), Last(st.pool[k])})
    requires First(st.pool[k]) !in st.endpoints && Last(st.pool[k]) !in st.endpoints
    ensures Paired(StepNew(st, k), n + multiset{First(st.pool[k]), Last(st.pool[k])})
  {
    hide RingEnds.AtMostTwice, RingEnds.Paired;
    RingEnds.NewRing(st.endpoints, EndsOf(st.pool), n, k);
  }

  lemma StepBothPaired(st: State, k: nat, n: multiset<int64>)
    requires Sane(st) && k < |st.pool| && Long(st.pool[k]) && Paired(st, n) && MeetsTwo(st, k)
    requires RingEnds.AtMostTwice(n + multiset{First(st.pool[k]), Last(st.pool[k])})
    ensures Paired(StepBoth(st, k), n + multiset{First(st.pool[k]), Last(st.pool[k])})
    ensures Live(StepBoth(st, k).endpoints) == Live(st.endpoints) - {st.endpoints[Last(st.pool[k])]}
  {
    hide JoinLeft, JoinBoth, RingEnds.AtMostTwice, RingEnds.Paired;
    var ring := st.pool[k];
    var left, right := First(ring), Last(ring);
    assert EndsAt(st, left) && EndsAt(st, right);
    var o, p := st.endpoints[left], st.endpoints[right];
    JoinLeftCorrect(st.pool[o], ring);
    JoinBothCorrect(JoinLeft(st.pool[o], ring), st.pool[p]);
    var whole := JoinBoth(JoinLeft(st.pool[o], ring), st.pool[p]);
    assert EndsOf(st.pool[o := whole]) == EndsOf(st.pool)[o := EndOf(whole)];
    RingEnds.Joined(st.endpoints, EndsOf(st.pool), n, left, right, Other(st.pool[o], left), Last(whole), EndOf(whole));
    StepBothSane(st, k);
    StillLive(st.endpoints, left, right, Other(st.pool[o], left), Last(whole));
  }

  lemma StillLive(E: map<int64, nat>, left: int64, right: int64, x: int64, y: int64)
    requires left in E && right in E && x in E && y in E && E[left] != E[right]
    requires E[x] == E[left] && E[y] == E[right] && x != left && y != right
    ensures Live(E) - {E[right]} <= Live((E - {left, right})[y := E[left]])
  {
    var E' := (E - {left, right})[y := E[left]];
    forall i | i in Live(E) - {E[right]} ensures i in Live(E') {
      var e :| e in E && E[e] == i;
      if e == left { assert x in E' && E'[x] == i; } else { assert e in E' && E'[e] == i; }
    }
  }

  /** After `k` rings, as long as no reference is the end of more than two of them: nothing is lost either. */
  ghost predicate Strict(rings: seq<Ring>, k: nat, st: State)
    requires k <= |rings|
  {
    Paired(st, Met(rings, k)) && Total(st.pool, Live(st.endpoints)) == Total(rings, Added(rings, k))
  }

  lemma StepKeepsStrict(rings: seq<Ring>, k: nat, st: State)
    requires k < |rings| && Inv(rings, k, st) && Strict(rings, k, st) && RingEnds.AtMostTwice(Met(rings, k + 1))
    ensures Strict(rings, k + 1, Step(st, k))
  {
    hide Parts, Total, Aligned, JoinLeft, JoinRight, JoinBoth, Live, Paired, RingEnds.AtMostTwice;
    AddOne(rings, k);
    var ring, live, n := st.pool[k], Live(st.endpoints), Met(rings, k);
    assert ring == rings[k] && Aligned(ring);
    if |ring.refs| >= 2 {
      if MeetsTwo(st, k) {
        StepBothPaired(st, k, n);
        StepBothTotal(st, k);
      } else if First(ring) in st.endpoints {
        StepLeftSane(st, k);
        StepLeftPaired(st, k, n);
        StepLeftTotal(st, k);
      } else if Last(ring) in st.endpoints {
        StepRightSane(st, k);
        StepRightPaired(st, k, n);
        StepRightTotal(st, k);
      } else {
        StepNewSane(st, k);
        StepNewPaired(st, k, n);
        NotYetLive(st, k);
        TotalAdd(st.pool, live, k);
      }
    }
  }

  lemma Beginning(rings: seq<Ring>)
    requires forall i :: 0 <= i < |rings| ==> Aligned(rings[i])
    ensures Inv(rings, 0, State(rings, map[])) && Strict(rings, 0, State(rings, map[]))
  {
    hide Parts, Aligned;
    TotalSame(rings, Live(map[]), rings, Added(rings, 0));
  }

  // The loop itself

  /** The states of the loop over some rings, one after the other. */
  ghost predicate Trace(rings: seq<Ring>, states: seq<State>)
  {
    && |states| == |rings| + 1 && states[0] == State(rings, map[])
    && forall k :: 0 <= k < |rings| ==> Follows(states[k], k, states[k + 1])
  }

  ghost predicate Follows(st: State, k: nat, next: State)
  {
    Sane(st) && k < |st.pool| && next == Step(st, k)
  }

  method ReverseRing(r: Ring) returns (t: Ring)
    requires Aligned(r)
    ensures t == Turned(r)
  {
    hide Reversed, Aligned;
    var refs := new int64[|r.refs|](i requires 0 <= i < |r.refs| => r.refs[i]);
    var nodes := new Node[|r.nodes|](i requires 0 <= i < |r.nodes| => r.nodes[i]);
    assert refs[..] == r.refs && nodes[..] == r.nodes;
    Reverse(refs);
    Reverse(nodes);
    t := Ring(r.ways, refs[..], nodes[..]);
  }

  method AddRing(rings: array<Ring>, endpoints: map<int64, nat>, k: nat) returns (E: map<int64, nat>)
    requires k < rings.Length && Sane(State(rings[..], endpoints))
    modifies rings
    ensures State(rings[..], E) == Step(old(State(rings[..], endpoints)), k)
  {
    hide Turned, Append, Attach, Aligned;
    ghost var st := State(rings[..], endpoints);
    var ring := rings[k];
    assert Aligned(st.pool[k]);
    E := endpoints;
    if |ring.refs| < 2 {
      return;
    }
    var left, right := ring.refs[0], ring.refs[|ring.refs| - 1];
    if left in E {
      assert EndsAt(st, left);
      var o := E[left];
      var orig := rings[o];
      E := E - {left};
      if left != orig.refs[|orig.refs| - 1] {
        orig := ReverseRing(orig);
      }
      orig := Append(orig, ring);
      if right in E && E[right] != o {
        assert EndsAt(st, right);
        var rightRing := rings[E[right]];
        E := E - {right};
        if right == rightRing.refs[0] {
          orig := Append(orig, rightRing);
        } else {
          rightRing := ReverseRing(rightRing);
          orig := Attach(orig, rightRing);
        }
        E := E[Last(orig) := o];
        assert endpoints - {left} - {right} == endpoints - {left, right};
      } else {
        E := E[right := o];
      }
      rings[o] := orig;
    } else if right in E {
      assert EndsAt(st, right);
      var o := E[right];
      var orig := rings[o];
      E := E - {right};
      if right == orig.refs[0] {
        orig := Attach(ring, orig).(ways := orig.ways + ring.ways);
      } else {
        var turned := ReverseRing(ring);
        orig := Attach(orig, turned);
      }
      E := E[left := o];
      rings[o] := orig;
    } else {
      E := E[left := k][right := k];
    }
  }

  /** `x` and `y` are next to each other in one of the rings, in either direction. */
  ghost predicate Adjacent(rings: seq<Ring>, x: int64, y: int64)
  {
    exists i, j :: NextTo(rings, i, j, x, y)
  }

  predicate NextTo(rings: seq<Ring>, i: int, j: int, x: int64, y: int64)
  {
    && 0 <= i < |rings| && 0 <= j < |rings[i].refs| - 1
    && ((rings[i].refs[j] == x && rings[i].refs[j + 1] == y) || (rings[i].refs[j] == y && rings[i].refs[j + 1] == x))
  }

  lemma {:induction false} EdgeFound(refs: seq<int64>, e: Part) returns (j: nat)
    requires e in Edges(refs)
    ensures j < |refs| - 1 && e == EdgeOf(refs[j], refs[j + 1])
  {
    if e == EdgeOf(refs[0], refs[1]) {
      j := 0;
    } else {
      j := EdgeFound(refs[1..], e);
      j := j + 1;
    }
  }

  lemma {:induction false} EdgeThere(refs: seq<int64>, j: nat)
    requires j < |refs| - 1
    ensures EdgeOf(refs[j], refs[j + 1]) in Edges(refs)
  {
    if j > 0 { EdgeThere(refs[1..], j - 1); }
  }

  lemma {:induction false} PartFound(rings: seq<Ring>, live: set<nat>, p: Part) returns (i: nat)
    requires p in Total(rings, live)
    ensures i < |rings| && i in live && p in Parts(rings[i])
  {
    hide Parts;
    var n := |rings| - 1;
    if n in live && p in Parts(rings[n]) { i := n; } else { i := PartFound(rings[..n], live, p); }
  }

  lemma {:induction false} PartThere(rings: seq<Ring>, live: set<nat>, i: nat, p: Part)
    requires i < |rings| && i in live && p in Parts(rings[i])
    ensures p in Total(rings, live)
  {
    hide Parts;
    if i < |rings| - 1 { PartThere(rings[..|rings| - 1], live, i, p); }
  }

  /** When nothing has been added, neighbours in the result have been neighbours before. */
  lemma NeighboursFrom(rings: seq<Ring>, added: set<nat>, pool: seq<Ring>, live: set<nat>, i: nat, j: nat)
    requires Total(pool, live) <= Total(rings, added) && i in live && i < |pool| && j < |pool[i].refs| - 1
    ensures Adjacent(rings, pool[i].refs[j], pool[i].refs[j + 1])
  {
    hide Total, WaysOf, Edges;
    var x, y := pool[i].refs[j], pool[i].refs[j + 1];
    EdgeThere(pool[i].refs, j);
    PartThere(pool, live, i, EdgeOf(x, y));
    var a := PartFound(rings, added, EdgeOf(x, y));
    assert EdgeOf(x, y) !in WaysOf(rings[a].ways) by { hide *; NoEdge(rings[a].ways, EdgeOf(x, y)); }
    var b := EdgeFound(rings[a].refs, EdgeOf(x, y));
    assert NextTo(rings, a, b, x, y);
  }

  lemma NoEdge(ways: seq<int64>, e: Part)
    requires e.Edge?
    ensures e !in WaysOf(ways)
  {
  }

  ghost function Members(result: seq<nat>): (r: set<nat>)
  {
    set i | i in result
  }

  /** Every entry of the map exactly once, in whatever order the map is walked. */
  method Unique(E: map<int64, nat>) returns (result: seq<nat>)
    ensures Members(result) == Live(E)
    ensures forall i, j :: 0 <= i < j < |result| ==> result[i] != result[j]
  {
    var todo := E.Keys;
    result := [];
    while todo != {}
      invariant todo <= E.Keys
      invariant forall e <- E :: e !in todo ==> E[e] in result
      invariant forall i <- result :: i in Live(E)
      invariant forall i, j :: 0 <= i < j < |result| ==> result[i] != result[j]
      decreases |todo|
    {
      var e := AnyOf(todo);
      todo := todo - {e};
      if E[e] !in result {
        result := result + [E[e]];
      }
    }
  }

  ghost predicate NoCommonEnd(pool: seq<Ring>, result: seq<nat>)
    requires forall i :: 0 <= i < |result| ==> result[i] < |pool|
  {
    forall i, j :: 0 <= i < j < |result| ==>
      var a, b := EndOf(pool[result[i]]), EndOf(pool[result[j]]);
      a.0 != b.0 && a.0 != b.1 && a.1 != b.0 && a.1 != b.1
  }

  ghost predicate AllClosed(pool: seq<Ring>, result: seq<nat>)
    requires forall i :: 0 <= i < |result| ==> result[i] < |pool|
  {
    forall i :: 0 <= i < |result| ==> EndOf(pool[result[i]]).0 == EndOf(pool[result[i]]).1
  }

  lemma PairedEnds(st: State, n: multiset<int64>, o: nat)
    requires Sane(st) && Paired(st, n) && o in Live(st.endpoints)
    ensures o < |st.pool|
    ensures EndOf(st.pool[o]).0 in st.endpoints && st.endpoints[EndOf(st.pool[o]).0] == o
    ensures EndOf(st.pool[o]).1 in st.endpoints && st.endpoints[EndOf(st.pool[o]).1] == o
    ensures n[EndOf(st.pool[o]).0] == 2 ==> EndOf(st.pool[o]).0 == EndOf(st.pool[o]).1
  {
    hide Long;
    var e :| e in st.endpoints && st.endpoints[e] == o;
    assert EndsAt(st, e) && RingEnds.Leads(st.endpoints, EndsOf(st.pool), n, e);
    assert RingEnds.Leads(st.endpoints, EndsOf(st.pool), n, EndOf(st.pool[o]).0);
  }

  /** `mergeRings`. Whatever the rings: the results are aligned and made of parts of them, no part more often
      than before, and their nodes are nodes of them. Where ids tell nodes apart, the same holds of neighbouring nodes
      with their coordinates. Parts are lost exactly when some step overwrites the only entry of a ring. If no
      reference is the end of more than two rings, that does not happen, and no two results end at the same reference.
      If every end is that of exactly two, all results are closed. */
  method MergeRings(rings: array<Ring>) returns (result: seq<nat>, ghost states: seq<State>)
    requires forall i :: 0 <= i < rings.Length ==> Aligned(rings[i])
    modifies rings
    ensures Trace(old(rings[..]), states) && rings[..] == states[rings.Length].pool
    ensures Members(result) == Live(states[rings.Length].endpoints)
    ensures forall i, j :: 0 <= i < j < |result| ==> result[i] != result[j]
    ensures forall i :: 0 <= i < |result| ==> result[i] < rings.Length && Long(rings[result[i]])
    ensures Total(rings[..], Members(result)) <= Total(old(rings[..]), Added(old(rings[..]), rings.Length))
    ensures Total(rings[..], Members(result)) == Total(old(rings[..]), Added(old(rings[..]), rings.Length)) <==>
      NoneLost(states, rings.Length)
    ensures AllAdjacent(old(rings[..]), rings[..], result)
    ensures forall i, n :: 0 <= i < |result| && n in rings[result[i]].nodes ==>
      exists j :: 0 <= j < rings.Length && n in old(rings[..])[j].nodes
    ensures OneEach(NodesOf(old(rings[..]))) ==>
      SegmentTotal(rings[..], Members(result)) <= SegmentTotal(old(rings[..]), Added(old(rings[..]), rings.Length))
    ensures OneEach(NodesOf(old(rings[..]))) && NoneLost(states, rings.Length) ==>
      SegmentTotal(rings[..], Members(result)) == SegmentTotal(old(rings[..]), Added(old(rings[..]), rings.Length))
    ensures RingEnds.AtMostTwice(Met(old(rings[..]), rings.Length)) ==>
      && Total(rings[..], Members(result)) == Total(old(rings[..]), Added(old(rings[..]), rings.Length))
      && NoCommonEnd(rings[..], result)
    ensures (forall e <- Met(old(rings[..]), rings.Length) :: Met(old(rings[..]), rings.Length)[e] == 2) ==>
      AllClosed(rings[..], result)
  {
    hide *;
    ghost var all := rings[..];
    ghost var strict := RingEnds.AtMostTwice(Met(all, |all|));
    var endpoints: map<int64, nat> := map[];
    Beginning(all);
    states := [State(all, endpoints)];
    ghost var lost := multiset{};
    StrictTotal(all, 0, State(all, endpoints));
    NoneLostAtFirst(states);
    ghost var nodes := NodesOf(all);
    for k := 0 to rings.Length
      invariant |states| == k + 1 && states[0] == State(all, map[]) && states[k] == State(rings[..], endpoints)
      invariant forall j :: 0 <= j < k ==> Follows(states[j], j, states[j + 1])
      invariant Inv(all, k, State(rings[..], endpoints))
      invariant strict ==> Strict(all, k, State(rings[..], endpoints))
      invariant Total(rings[..], Live(endpoints)) + lost == Total(all, Added(all, k))
      invariant lost == multiset{} <==> NoneLost(states, k)
      invariant MadeOf(rings[..], nodes)
    {
      ghost var st := State(rings[..], endpoints);
      InvIsSane(all, k, st);
      StepKeepsInv(all, k, st);
      if strict {
        MetGrows(all, k + 1);
        StepKeepsStrict(all, k, st);
      }
      StepLoses(all, k, st, lost);
      StepMadeOf(st, k, nodes);
      LostSomething(st, k);
      lost := lost + LostParts(st, k);
      endpoints := AddRing(rings, endpoints, k);
      FollowsNow(st, k, State(rings[..], endpoints));
      LostSoFar(states, k, State(rings[..], endpoints));
      states := states + [State(rings[..], endpoints)];
    }
    Traced(all, states);
    result := Unique(endpoints);
    SameWithout(Total(rings[..], Live(endpoints)), lost);
    Outcome(all, State(rings[..], endpoints), result);
    NodesOutcome(all, State(rings[..], endpoints), result, nodes);
    if strict { StrictOutcome(all, State(rings[..], endpoints), result); }
    if forall e <- Met(all, |all|) :: Met(all, |all|)[e] == 2 {
      Exactly(Met(all, |all|));
      StrictOutcome(all, State(rings[..], endpoints), result);
    }
  }

  /** No step up to the `k`-th overwrites the only entry of a ring. */
  ghost predicate NoneLost(states: seq<State>, k: nat)
  {
    forall j :: 0 <= j < k && j < |states| ==> !Overwrites(states[j], j)
  }

  lemma NoneLostAtFirst(states: seq<State>)
    ensures NoneLost(states, 0)
  {
  }

  lemma LostSoFar(states: seq<State>, k: nat, next: State)
    requires |states| == k + 1
    ensures NoneLost(states + [next], k + 1) <==> NoneLost(states, k) && !Overwrites(states[k], k)
  {
    var all := states + [next];
    assert forall j :: 0 <= j <= k ==> all[j] == states[j];
  }

  lemma StrictTotal(rings: seq<Ring>, k: nat, st: State)
    requires k <= |rings| && Strict(rings, k, st)
    ensures Total(st.pool, Live(st.endpoints)) == Total(rings, Added(rings, k))
  {
  }

  lemma SameWithout<T>(a: multiset<T>, lost: multiset<T>)
    ensures a + lost == a <==> lost == multiset{}
  {
    if a + lost == a { Cancel(lost, multiset{}, a); }
  }

  lemma FollowsNow(st: State, k: nat, next: State)
    requires Sane(st) && k < |st.pool| && next == Step(st, k)
    ensures Follows(st, k, next)
  {
  }

  lemma Traced(rings: seq<Ring>, states: seq<State>)
    requires |states| == |rings| + 1 && states[0] == State(rings, map[])
    requires forall k :: 0 <= k < |rings| ==> Follows(states[k], k, states[k + 1])
    ensures Trace(rings, states)
  {
  }

  lemma InvIsSane(rings: seq<Ring>, k: nat, st: State)
    requires Inv(rings, k, st)
    ensures Sane(st) && |st.pool| == |rings|
  {
  }

  lemma Exactly(n: multiset<int64>)
    requires forall e <- n :: n[e] == 2
    ensures RingEnds.AtMostTwice(n)
  {
    forall e: int64 ensures n[e] <= 2 { if e in n { assert n[e] == 2; } }
  }

  ghost predicate AllAdjacent(rings: seq<Ring>, pool: seq<Ring>, result: seq<nat>)
    requires forall i :: 0 <= i < |result| ==> result[i] < |pool|
  {
    forall i, j :: 0 <= i < |result| && 0 <= j < |pool[result[i]].refs| - 1 ==>
      Adjacent(rings, pool[result[i]].refs[j], pool[result[i]].refs[j + 1])
  }

  lemma Outcome(rings: seq<Ring>, st: State, result: seq<nat>)
    requires Inv(rings, |rings|, st) && Members(result) == Live(st.endpoints)
    ensures |st.pool| == |rings|
    ensures forall i :: 0 <= i < |result| ==> result[i] < |st.pool| && Long(st.pool[result[i]])
    ensures Total(st.pool, Members(result)) <= Total(rings, Added(rings, |rings|))
    ensures AllAdjacent(rings, st.pool, result)
  {
    hide Total, Added, Adjacent, Long, Aligned, Live;
    forall i | 0 <= i < |result| ensures result[i] < |st.pool| && Long(st.pool[result[i]]) {
      assert result[i] in Members(result);
      LiveIsLong(st, result[i]);
    }
    forall i, j | 0 <= i < |result| && 0 <= j < |st.pool[result[i]].refs| - 1
      ensures Adjacent(rings, st.pool[result[i]].refs[j], st.pool[result[i]].refs[j + 1])
    {
      assert result[i] in Members(result);
      NeighboursFrom(rings, Added(rings, |rings|), st.pool, Live(st.endpoints), result[i], j);
    }
  }

  lemma NodesOutcome(rings: seq<Ring>, st: State, result: seq<nat>, nodes: set<Node>)
    requires Inv(rings, |rings|, st) && Members(result) == Live(st.endpoints)
    requires (forall i :: 0 <= i < |rings| ==> Aligned(rings[i])) && nodes == NodesOf(rings) && MadeOf(st.pool, nodes)
    ensures |st.pool| == |rings| && forall i :: 0 <= i < |result| ==> result[i] < |st.pool|
    ensures forall i, n :: 0 <= i < |result| && n in st.pool[result[i]].nodes ==>
      exists j :: 0 <= j < |rings| && n in rings[j].nodes
    ensures OneEach(nodes) ==>
      SegmentTotal(st.pool, Members(result)) <= SegmentTotal(rings, Added(rings, |rings|))
    ensures OneEach(nodes) && Total(st.pool, Members(result)) == Total(rings, Added(rings, |rings|)) ==>
      SegmentTotal(st.pool, Members(result)) == SegmentTotal(rings, Added(rings, |rings|))
  {
    hide Total, SegmentTotal, Added, OneEach, NodesOf, Aligned, Live;
    assert forall i :: 0 <= i < |result| ==> result[i] in Members(result);
    forall i | 0 <= i < |result| ensures result[i] < |st.pool| { LiveIsLong(st, result[i]); }
    forall i, n | 0 <= i < |result| && n in st.pool[result[i]].nodes
      ensures exists j :: 0 <= j < |rings| && n in rings[j].nodes
    {
      assert NodesIn(st.pool[result[i]], nodes);
    }
    if OneEach(nodes) {
      SegmentsFollow(st.pool, Members(result), rings, Added(rings, |rings|), nodes);
    }
  }

  lemma StrictOutcome(rings: seq<Ring>, st: State, result: seq<nat>)
    requires Inv(rings, |rings|, st) && Strict(rings, |rings|, st) && Members(result) == Live(st.endpoints)
    requires forall i, j :: 0 <= i < j < |result| ==> result[i] != result[j]
    ensures forall i :: 0 <= i < |result| ==> result[i] < |st.pool|
    ensures Total(st.pool, Members(result)) == Total(rings, Added(rings, |rings|))
    ensures NoCommonEnd(st.pool, result)
    ensures (forall e <- Met(rings, |rings|) :: Met(rings, |rings|)[e] == 2) ==> AllClosed(st.pool, result)
  {
    hide Total, Added, Met, Live, Paired, NoCommonEnd, AllClosed;
    var n := Met(rings, |rings|);
    assert forall i :: 0 <= i < |result| ==> result[i] in Members(result);
    ResultsApart(st, n, result);
    if forall e <- n :: n[e] == 2 { ResultsClosed(st, n, result); }
  }

  lemma LiveIsLong(st: State, o: nat)
    requires Sane(st) && o in Live(st.endpoints)
    ensures o < |st.pool| && Long(st.pool[o])
  {
    var e :| e in st.endpoints && st.endpoints[e] == o;
    assert EndsAt(st, e);
  }

  lemma ResultsApart(st: State, n: multiset<int64>, result: seq<nat>)
    requires Sane(st) && Paired(st, n) && (forall i :: 0 <= i < |result| ==> result[i] in Live(st.endpoints))
    requires forall i, j :: 0 <= i < j < |result| ==> result[i] != result[j]
    ensures (forall i :: 0 <= i < |result| ==> result[i] < |st.pool|) && NoCommonEnd(st.pool, result)
  {
    hide Paired, Sane, Live, EndOf;
    forall i | 0 <= i < |result| ensures result[i] < |st.pool| { PairedEnds(st, n, result[i]); }
    forall i, j | 0 <= i < j < |result|
      ensures var a, b := EndOf(st.pool[result[i]]), EndOf(st.pool[result[j]]);
              a.0 != b.0 && a.0 != b.1 && a.1 != b.0 && a.1 != b.1
    {
      PairedEnds(st, n, result[i]);
      PairedEnds(st, n, result[j]);
    }
  }

  lemma ResultsClosed(st: State, n: multiset<int64>, result: seq<nat>)
    requires Sane(st) && Paired(st, n) && (forall i :: 0 <= i < |result| ==> result[i] in Live(st.endpoints))
    requires forall e <- n :: n[e] == 2
    ensures (forall i :: 0 <= i < |result| ==> result[i] < |st.pool|) && AllClosed(st.pool, result)
  {
    hide Sane, Live, EndOf;
    forall i | 0 <= i < |result|
      ensures result[i] < |st.pool| && EndOf(st.pool[result[i]]).0 == EndOf(st.pool[result[i]]).1
    {
      PairedEnds(st, n, result[i]);
      MetEnd(st, n, EndOf(st.pool[result[i]]).0);
    }
  }

  lemma MetEnd(st: State, n: multiset<int64>, e: int64)
    requires Paired(st, n) && e in st.endpoints
    ensures e in n
  {
    assert RingEnds.Leads(st.endpoints, EndsOf(st.pool), n, e);
  }

  lemma {:induction false} MetGrows(rings: seq<Ring>, k: nat)
    requires k <= |rings| && RingEnds.AtMostTwice(Met(rings, |rings|))
    ensures RingEnds.AtMostTwice(Met(rings, k))
    decreases |rings| - k
  {
    if k < |rings| {
      MetGrows(rings, k + 1);
      assert forall e: int64 :: Met(rings, k)[e] <= Met(rings, k + 1)[e];
    }
  }

  // Why two

  function Line(refs: seq<int64>): (r: Ring)
    ensures Aligned(r) && r.refs == refs
  {
    Ring([], refs, seq(|refs|, i requires 0 <= i < |refs| => Node(refs[i], 0.0, 0.0)))
  }

  lemma LineJoin(a: seq<int64>, b: seq<int64>)
    requires |a| >= 2 && |b| >= 2
    ensures Append(Line(a), Line(b)) == Line(a + b[1..])
    ensures Attach(Line(a), Line(b)) == Line(a[..|a| - 1] + b)
    ensures Turned(Line(a)) == Line(Reversed(a))
  {
    LineAppend(a, b);
    LineAttach(a, b);
    LineTurned(a);
  }

  lemma LineAppend(a: seq<int64>, b: seq<int64>)
    requires |a| >= 2 && |b| >= 2
    ensures Append(Line(a), Line(b)) == Line(a + b[1..])
  {
    assert Append(Line(a), Line(b)).nodes == Line(a + b[1..]).nodes;
  }

  lemma LineAttach(a: seq<int64>, b: seq<int64>)
    requires |a| >= 2 && |b| >= 2
    ensures Attach(Line(a), Line(b)) == Line(a[..|a| - 1] + b)
  {
    assert Attach(Line(a), Line(b)).nodes == Line(a[..|a| - 1] + b).nodes;
  }

  lemma LineTurned(a: seq<int64>)
    ensures Turned(Line(a)) == Line(Reversed(a))
  {
    hide Reversed;
    assert Turned(Line(a)).nodes == Line(Reversed(a)).nodes;
  }

  lemma LostLeft(c: Ring, d: Ring, e: Ring)
    requires Aligned(c) && Aligned(d) && Aligned(e)
    ensures Follows(State([Line([1, 2, 1]), Line([1, 3]), c, d, e], map[1 := 0]), 1,
                    State([Line([1, 2, 1, 3]), Line([1, 3]), c, d, e], map[3 := 0]))
  {
    hide Aligned, Append, Attach, Turned;
    LineJoin([1, 2, 1], [1, 3]);
    assert [1, 2, 1] + [1, 3][1..] == [1, 2, 1, 3];
    assert (map[1 := 0] - {1})[3 := 0] == map[3 := 0];
  }

  lemma LostHalf()
    ensures JoinLeft(Line([5, 6]), Line([5, 3])) == Line([6, 5, 3])
  {
    hide Append, Attach, Turned, Line, Reversed;
    var edge: seq<int64> := [5, 6];
    LineTurned(edge);
    assert Reversed(edge) == [6, 5];
    LineAppend([6, 5], [5, 3]);
    assert [6, 5] + [5, 3][1..] == [6, 5, 3];
  }

  lemma LostWhole()
    ensures JoinBoth(Line([6, 5, 3]), Line([1, 2, 1, 3])) == Line([6, 5, 3, 1, 2, 1])
  {
    hide Append, Attach, Turned, Line, Reversed;
    var loop: seq<int64> := [1, 2, 1, 3];
    LineTurned(loop);
    assert Reversed(loop) == [3, 1, 2, 1];
    LineAttach([6, 5, 3], [3, 1, 2, 1]);
    assert [6, 5, 3][..2] + [3, 1, 2, 1] == [6, 5, 3, 1, 2, 1];
  }

  lemma LostBoth(b: Ring, c: Ring)
    requires Aligned(b) && Aligned(c) && Long(c) && First(c) == 1
    ensures Overwrites(State([Line([1, 2, 1, 3]), b, c, Line([5, 6]), Line([5, 3])],
                             map[3 := 0, 1 := 2, 5 := 3, 6 := 3]), 4)
    ensures Follows(State([Line([1, 2, 1, 3]), b, c, Line([5, 6]), Line([5, 3])],
                          map[3 := 0, 1 := 2, 5 := 3, 6 := 3]), 4,
                    State([Line([1, 2, 1, 3]), b, c, Line([6, 5, 3, 1, 2, 1]), Line([5, 3])], map[1 := 3, 6 := 3]))
  {
    hide JoinLeft, JoinBoth, Aligned, Line;
    var st := State([Line([1, 2, 1, 3]), b, c, Line([5, 6]), Line([5, 3])], map[3 := 0, 1 := 2, 5 := 3, 6 := 3]);
    LostHalf();
    LostWhole();
    assert (st.endpoints - {5, 3})[1 := 3] == map[1 := 3, 6 := 3];
  }

  lemma LostNew(pool: seq<Ring>, E: map<int64, nat>, k: nat, next: map<int64, nat>)
    requires Sane(State(pool, E)) && k < |pool| && Long(pool[k]) && First(pool[k]) !in E && Last(pool[k]) !in E
    requires next == E[First(pool[k]) := k][Last(pool[k]) := k]
    ensures Follows(State(pool, E), k, State(pool, next)) && Sane(State(pool, next))
  {
    hide Aligned;
    StepNewSane(State(pool, E), k);
  }

  /** References at which more than two rings end: a ring is overwritten in the map, and lost. */
  lemma LostRing() returns (rings: seq<Ring>, states: seq<State>)
    ensures (forall i :: 0 <= i < |rings| ==> Aligned(rings[i])) && Trace(rings, states)
    ensures |rings| == 5 && rings[2].refs == [1, 4, 1]
    ensures Live(states[5].endpoints) == {3} && |states[5].pool| == 5 && states[5].pool[3].refs == [6, 5, 3, 1, 2, 1]
    ensures Overwrites(states[4], 4)
  {
    hide Follows, Line, Step;
    var a, b, c, d, e := Line([1, 2, 1]), Line([1, 3]), Line([1, 4, 1]), Line([5, 6]), Line([5, 3]);
    var x, y := Line([1, 2, 1, 3]), Line([6, 5, 3, 1, 2, 1]);
    rings := [a, b, c, d, e];
    var later := [x, b, c, d, e];
    LostNew(rings, map[], 0, map[1 := 0]);
    LostLeft(c, d, e);
    LostNew(later, map[3 := 0], 2, map[3 := 0, 1 := 2]);
    LostNew(later, map[3 := 0, 1 := 2], 3, map[3 := 0, 1 := 2, 5 := 3, 6 := 3]);
    LostBoth(b, c);
    var last: map<int64, nat> := map[1 := 3, 6 := 3];
    states := [State(rings, map[]), State(rings, map[1 := 0]), State(later, map[3 := 0]),
               State(later, map[3 := 0, 1 := 2]), State(later, map[3 := 0, 1 := 2, 5 := 3, 6 := 3]),
               State([x, b, c, y, e], last)];
    assert last[6] == 3;
  }
}
