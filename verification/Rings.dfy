/** Rings: the ways of a multipolygon relation, joined end to end. */
module Rings {
  import opened GoInts
  import opened DeltaNodes

  datatype Ring = Ring(ways: seq<int64>, refs: seq<int64>, nodes: seq<Node>)

  /** One node for each reference, the node it refers to. */
  predicate Aligned(r: Ring)
  {
    |r.refs| == |r.nodes| && forall i :: 0 <= i < |r.refs| ==> r.nodes[i].id == r.refs[i]
  }

  /** A ring with two ends. */
  predicate Long(r: Ring)
  {
    Aligned(r) && |r.refs| >= 2
  }

  function First(r: Ring): (ref: int64)
    requires Long(r)
  {
    r.refs[0]
  }

  function Last(r: Ring): (ref: int64)
    requires Long(r)
  {
    r.refs[|r.refs| - 1]
  }

  // Reversal

  function Reversed<T>(s: seq<T>): (r: seq<T>)
    ensures |r| == |s| && forall i :: 0 <= i < |s| ==> r[i] == s[|s| - 1 - i]
  {
    if s == [] then [] else Reversed(s[1..]) + [s[0]]
  }

  /** `reverseRefs` and `reverseNodes`: swaps from both ends towards the middle. */
  method Reverse<T>(a: array<T>)
    modifies a
    ensures a[..] == Reversed(old(a[..]))
  {
    var i, j := 0, a.Length - 1;
    while i < j
      invariant 0 <= i && j == a.Length - 1 - i && i <= j + 1
      invariant forall k :: 0 <= k < i ==> a[k] == old(a[a.Length - 1 - k]) && a[a.Length - 1 - k] == old(a[k])
      invariant forall k :: i <= k <= j ==> a[k] == old(a[k])
    {
      a[i], a[j] := a[j], a[i];
      i, j := i + 1, j - 1;
    }
    assert forall k :: 0 <= k < a.Length ==> a[..][k] == Reversed(old(a[..]))[k];
  }

  function Turned(r: Ring): (t: Ring)
    requires Aligned(r)
    ensures Aligned(t) && |t.refs| == |r.refs|
    ensures Long(r) ==> First(t) == Last(r) && Last(t) == First(r)
  {
    Ring(r.ways, Reversed(r.refs), Reversed(r.nodes))
  }

  // What a ring is made of

  /** A way, or the edge between two neighbouring references, whichever its direction. */
  datatype Part = Way(id: int64) | Edge(low: int64, high: int64)

  function EdgeOf(a: int64, b: int64): (e: Part)
  {
    if a <= b then Edge(a, b) else Edge(b, a)
  }

  ghost function Edges(refs: seq<int64>): (r: multiset<Part>)
  {
    if |refs| < 2 then multiset{} else multiset{EdgeOf(refs[0], refs[1])} + Edges(refs[1..])
  }

  ghost function WaysOf(ways: seq<int64>): (r: multiset<Part>)
  {
    multiset(seq(|ways|, i requires 0 <= i < |ways| => Way(ways[i])))
  }

  ghost function Parts(r: Ring): (p: multiset<Part>)
  {
    WaysOf(r.ways) + Edges(r.refs)
  }

  lemma SumAssoc<T>(x: multiset<T>, y: multiset<T>, z: multiset<T>)
    ensures x + y + z == x + (y + z)
  {
  }

  lemma Shuffle<T>(a: multiset<T>, p: multiset<T>, b: multiset<T>, q: multiset<T>, t: multiset<T>)
    requires a + p == b + q
    ensures a + t + p == b + t + q
  {
    assert a + t + p == a + p + t;
    assert b + t + q == b + q + t;
  }

  lemma Regroup<T>(w: multiset<T>, x: multiset<T>, y: multiset<T>, z: multiset<T>)
    ensures w + x + (y + z) == w + y + (x + z)
  {
  }

  lemma EdgesShort(refs: seq<int64>)
    requires |refs| < 2
    ensures Edges(refs) == multiset{}
  {
  }

  lemma EdgesCons(refs: seq<int64>)
    requires |refs| >= 2
    ensures Edges(refs) == multiset{EdgeOf(refs[0], refs[1])} + Edges(refs[1..])
  {
  }

  lemma {:induction false} EdgesJoin(a: seq<int64>, b: seq<int64>)
    requires a != [] && b != [] && a[|a| - 1] == b[0]
    ensures Edges(a + b[1..]) == Edges(a) + Edges(b)
  {
    hide *;
    if |a| == 1 {
      assert a + b[1..] == b;
      EdgesShort(a);
    } else {
      EdgesJoin(a[1..], b);
      assert (a + b[1..])[1..] == a[1..] + b[1..];
      EdgesCons(a);
      EdgesCons(a + b[1..]);
      SumAssoc(multiset{EdgeOf(a[0], a[1])}, Edges(a[1..]), Edges(b));
    }
  }

  lemma {:induction false} EdgesReversed(s: seq<int64>)
    ensures Edges(Reversed(s)) == Edges(s)
  {
    hide Edges;
    if |s| >= 2 {
      EdgesReversed(s[1..]);
      var back := Reversed(s[1..]);
      assert back[|back| - 1] == s[1];
      EdgesJoin(back, [s[1], s[0]]);
      EdgesCons([s[1], s[0]]);
      assert [s[1], s[0]][1..] == [s[0]];
      EdgesShort([s[0]]);
      EdgesCons(s);
    } else {
      EdgesShort(s);
      EdgesShort(Reversed(s));
    }
  }

  lemma WaysJoin(a: seq<int64>, b: seq<int64>)
    ensures WaysOf(a + b) == WaysOf(a) + WaysOf(b)
  {
    var f := (s: seq<int64>) => seq(|s|, i requires 0 <= i < |s| => Way(s[i]));
    assert f(a + b) == f(a) + f(b);
  }

  lemma TurnedParts(r: Ring)
    requires Aligned(r)
    ensures Parts(Turned(r)) == Parts(r)
  {
    EdgesReversed(r.refs);
  }

  // Two rings that meet

  /** `b` after `a`, with the node of `a` where they meet. */
  function Append(a: Ring, b: Ring): (r: Ring)
    requires Long(a) && Long(b)
    ensures Long(r) && First(r) == First(a) && Last(r) == Last(b)
  {
    Ring(a.ways + b.ways, a.refs + b.refs[1..], a.nodes + b.nodes[1..])
  }

  /** `b` after `a`, with the node of `b` where they meet. */
  function Attach(a: Ring, b: Ring): (r: Ring)
    requires Long(a) && Long(b)
    ensures Long(r) && First(r) == First(a) && Last(r) == Last(b)
  {
    Ring(a.ways + b.ways, a.refs[..|a.refs| - 1] + b.refs, a.nodes[..|a.nodes| - 1] + b.nodes)
  }

  lemma AppendParts(a: Ring, b: Ring)
    requires Long(a) && Long(b) && Last(a) == First(b)
    ensures Parts(Append(a, b)) == Parts(a) + Parts(b)
    ensures Parts(Attach(a, b)) == Parts(a) + Parts(b)
  {
    hide Edges, WaysOf;
    EdgesJoin(a.refs, b.refs);
    WaysJoin(a.ways, b.ways);
    Regroup(WaysOf(a.ways), WaysOf(b.ways), Edges(a.refs), Edges(b.refs));
    assert a.refs[..|a.refs| - 1] + b.refs == a.refs + b.refs[1..];
  }

  lemma WaysCommute(a: seq<int64>, b: seq<int64>)
    ensures WaysOf(a + b) == WaysOf(b + a)
  {
    WaysJoin(a, b);
    WaysJoin(b, a);
  }

  // The parts of several rings

  ghost function Total(pool: seq<Ring>, live: set<nat>): (t: multiset<Part>)
  {
    if pool == [] then multiset{}
    else
      var n := |pool| - 1;
      Total(pool[..n], live) + if n in live then Parts(pool[n]) else multiset{}
  }

  lemma {:induction false} TotalUpdate(pool: seq<Ring>, live: set<nat>, o: nat, r: Ring)
    requires o < |pool| && o in live
    ensures Total(pool[o := r], live) + Parts(pool[o]) == Total(pool, live) + Parts(r)
  {
    hide Parts;
    var n := |pool| - 1;
    if o == n {
      assert pool[o := r][..n] == pool[..n];
    } else {
      assert pool[o := r][..n] == pool[..n][o := r];
      TotalUpdate(pool[..n], live, o, r);
      Shuffle(Total(pool[..n][o := r], live), Parts(pool[o]), Total(pool[..n], live), Parts(r),
              if n in live then Parts(pool[n]) else multiset{});
    }
  }

  lemma {:induction false} TotalAdd(pool: seq<Ring>, live: set<nat>, k: nat)
    requires k < |pool| && k !in live
    ensures Total(pool, live + {k}) == Total(pool, live) + Parts(pool[k])
  {
    hide Parts;
    var n := |pool| - 1;
    if k == n {
      TotalSame(pool[..n], live, pool[..n], live + {k});
    } else {
      TotalAdd(pool[..n], live, k);
    }
  }

  lemma {:induction false} TotalSame(a: seq<Ring>, s: set<nat>, b: seq<Ring>, t: set<nat>)
    requires |a| == |b|
    requires forall i :: 0 <= i < |a| ==> (i in s <==> i in t) && (i in s ==> a[i] == b[i])
    ensures Total(a, s) == Total(b, t)
  {
    hide Parts;
    var n := |a| - 1;
    if n >= 0 { TotalSame(a[..n], s, b[..n], t); }
  }

  lemma {:induction false} TotalSubset(pool: seq<Ring>, s: set<nat>, t: set<nat>)
    requires s <= t
    ensures Total(pool, s) <= Total(pool, t)
  {
    hide Parts;
    if pool != [] { TotalSubset(pool[..|pool| - 1], s, t); }
  }
}
