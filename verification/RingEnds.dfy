/** The ends of rings and the map that leads from them to the rings, when no reference is the end of more
    than two of the ways. Rings are numbers here, with two ends each. */
module RingEnds {
  import opened GoInts

  type Ends = seq<(int64, int64)>

  /** Number `e` is one end of a ring, and `x` the other. */
  predicate Between(r: (int64, int64), e: int64, x: int64)
  {
    r == (e, x) || r == (x, e)
  }

  /** Both ends of the ring at `e` lead to it. The ends of an open ring have been met once, those of a closed
      one twice. */
  predicate Leads(E: map<int64, nat>, A: Ends, n: multiset<int64>, e: int64)
    requires e in E
  {
    && E[e] < |A|
    && var r := A[E[e]];
    && (e == r.0 || e == r.1)
    && r.0 in E && E[r.0] == E[e]
    && r.1 in E && E[r.1] == E[e]
    && n[e] == if r.0 == r.1 then 2 else 1
  }

  /** All other references have been ends twice or never. */
  predicate Paired(E: map<int64, nat>, A: Ends, n: multiset<int64>)
  {
    && (forall e <- E :: Leads(E, A, n, e))
    && forall e: int64 :: e !in E ==> n[e] == 0 || n[e] == 2
  }

  predicate AtMostTwice(n: multiset<int64>)
  {
    forall e: int64 :: n[e] <= 2
  }

  lemma Met(n: multiset<int64>, a: int64, b: int64, e: int64)
    requires AtMostTwice(n + multiset{a, b})
    ensures n[e] + (if e == a then 1 else 0) + (if e == b then 1 else 0) == (n + multiset{a, b})[e] <= 2
  {
  }

  /** Reference `e` is where it has to be. */
  predicate Fine(E: map<int64, nat>, A: Ends, n: multiset<int64>, e: int64)
  {
    if e in E then Leads(E, A, n, e) else n[e] == 0 || n[e] == 2
  }

  lemma AllFine(E: map<int64, nat>, A: Ends, n: multiset<int64>)
    requires forall e: int64 :: Fine(E, A, n, e)
    ensures Paired(E, A, n)
  {
    forall e: int64 ensures e !in E ==> n[e] == 0 || n[e] == 2 { assert Fine(E, A, n, e); }
    forall e | e in E ensures Leads(E, A, n, e) { assert Fine(E, A, n, e); }
  }

  lemma NewRingAt(E: map<int64, nat>, A: Ends, n: multiset<int64>, k: nat, e: int64)
    requires k < |A| && (e in E ==> E[e] != k) && Fine(E, A, n, e) && Fine(E, A, n, A[k].0) && Fine(E, A, n, A[k].1)
    requires A[k].0 !in E && A[k].1 !in E && AtMostTwice(n + multiset{A[k].0, A[k].1})
    ensures Fine(E[A[k].0 := k][A[k].1 := k], A, n + multiset{A[k].0, A[k].1}, e)
  {
    hide AtMostTwice;
    Met(n, A[k].0, A[k].1, e);
  }

  /** Both ends are new. */
  lemma NewRing(E: map<int64, nat>, A: Ends, n: multiset<int64>, k: nat)
    requires Paired(E, A, n) && k < |A| && (forall e <- E :: E[e] != k)
    requires A[k].0 !in E && A[k].1 !in E && AtMostTwice(n + multiset{A[k].0, A[k].1})
    ensures Paired(E[A[k].0 := k][A[k].1 := k], A, n + multiset{A[k].0, A[k].1})
  {
    hide AtMostTwice, Leads;
    var E', m := E[A[k].0 := k][A[k].1 := k], n + multiset{A[k].0, A[k].1};
    forall e: int64 ensures Fine(E', A, m, e) { NewRingAt(E, A, n, k, e); }
    AllFine(E', A, m);
  }

  lemma ExtendedAt(E: map<int64, nat>, A: Ends, n: multiset<int64>, gone: int64, next: int64, x: int64,
                   r: (int64, int64), e: int64)
    requires Fine(E, A, n, gone) && Fine(E, A, n, next) && Fine(E, A, n, x) && Fine(E, A, n, e)
    requires gone in E && AtMostTwice(n + multiset{gone, next})
    requires next in E ==> E[next] == E[gone]
    requires E[gone] < |A| && Between(A[E[gone]], gone, x) && Between(r, next, x)
    ensures Fine((E - {gone})[next := E[gone]], A[E[gone] := r], n + multiset{gone, next}, e)
  {
    hide AtMostTwice;
    Met(n, gone, next, gone);
    Met(n, gone, next, next);
    Met(n, gone, next, e);
    assert gone != next && gone != x;
  }

  /** The ring at `gone` is extended from there to `next`. */
  lemma Extended(E: map<int64, nat>, A: Ends, n: multiset<int64>, gone: int64, next: int64, x: int64, r: (int64, int64))
    requires Paired(E, A, n) && gone in E && AtMostTwice(n + multiset{gone, next})
    requires next in E ==> E[next] == E[gone]
    requires E[gone] < |A| && Between(A[E[gone]], gone, x) && Between(r, next, x)
    ensures Paired((E - {gone})[next := E[gone]], A[E[gone] := r], n + multiset{gone, next})
  {
    hide AtMostTwice, Leads, Between;
    var E', A', m := (E - {gone})[next := E[gone]], A[E[gone] := r], n + multiset{gone, next};
    forall e: int64 ensures Fine(E', A', m, e) { ExtendedAt(E, A, n, gone, next, x, r, e); }
    AllFine(E', A', m);
  }

  lemma JoinedAt(E: map<int64, nat>, A: Ends, n: multiset<int64>, left: int64, right: int64, x: int64, y: int64,
                 r: (int64, int64), e: int64)
    requires Fine(E, A, n, left) && Fine(E, A, n, right) && Fine(E, A, n, x) && Fine(E, A, n, y) && Fine(E, A, n, e)
    requires left in E && right in E && E[left] != E[right] && AtMostTwice(n + multiset{left, right})
    requires E[left] < |A| && Between(A[E[left]], left, x) && E[right] < |A| && Between(A[E[right]], right, y)
    requires Between(r, x, y)
    ensures Fine((E - {left, right})[y := E[left]], A[E[left] := r], n + multiset{left, right}, e)
    ensures y in E && E[y] == E[right] && x in E && E[x] == E[left] && y != right && x != left
  {
    hide AtMostTwice;
    Met(n, left, right, left);
    Met(n, left, right, right);
    Met(n, left, right, e);
    assert left != x && right != y;
  }

  /** The rings at `left` and `right` become one, from the other end of the first to that of the second. */
  lemma Joined(E: map<int64, nat>, A: Ends, n: multiset<int64>, left: int64, right: int64, x: int64, y: int64,
               r: (int64, int64))
    requires Paired(E, A, n) && left in E && right in E && E[left] != E[right]
    requires AtMostTwice(n + multiset{left, right})
    requires E[left] < |A| && Between(A[E[left]], left, x) && E[right] < |A| && Between(A[E[right]], right, y)
    requires Between(r, x, y)
    ensures Paired((E - {left, right})[y := E[left]], A[E[left] := r], n + multiset{left, right})
    ensures y in E && E[y] == E[right] && x in E && E[x] == E[left] && y != right && x != left
  {
    hide AtMostTwice, Leads, Between;
    var E', A', m := (E - {left, right})[y := E[left]], A[E[left] := r], n + multiset{left, right};
    JoinedAt(E, A, n, left, right, x, y, r, left);
    forall e: int64 ensures Fine(E', A', m, e) { JoinedAt(E, A, n, left, right, x, y, r, e); }
    AllFine(E', A', m);
  }
}
