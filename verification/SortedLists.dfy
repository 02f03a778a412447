/** Strictly increasing lists of 64-bit numbers, kept that way by a binary search before every
    change: the refs of an index entry, and the ids that key every bunch. */
module SortedLists {
  import opened GoInts

  predicate Sorted(s: seq<int>)
  {
    forall i, j :: 0 <= i < j < |s| ==> s[i] < s[j]
  }

  function ToSet<T>(s: seq<T>): (r: set<T>)
  {
    set x <- s
  }

  /** The first position whose key is at least `x`: what `sort.Search` finds in a sorted list. */
  function Position(s: seq<int>, x: int): (i: nat)
    ensures i <= |s|
    ensures forall j :: 0 <= j < i ==> s[j] < x
    ensures i < |s| ==> x <= s[i]
  {
    if s == [] || x <= s[0] then 0 else
      var i := Position(s[1..], x) + 1;
      assert forall j :: 0 < j < i ==> s[j] == s[1..][j - 1];
      i
  }

  /** `sort.Search` over the keys of a list. */
  method Search(s: seq<int>, x: int) returns (i: nat)
    requires Sorted(s)
    ensures i == Position(s, x)
  {
    i := 0;
    var j := |s|;
    while i < j
      invariant 0 <= i <= j <= |s|
      invariant i <= Position(s, x) <= j
    {
      var h := (i + j) / 2;
      if s[h] < x {
        i := h + 1;
      } else {
        j := h;
      }
    }
  }

  function Inserted(s: seq<int64>, x: int64): (r: seq<int64>)
  {
    var i := Position(s, x);
    if i < |s| && s[i] == x then s else s[..i] + [x] + s[i..]
  }

  function Removed(s: seq<int64>, x: int64): (r: seq<int64>)
  {
    var i := Position(s, x);
    if i < |s| && s[i] == x then s[..i] + s[i + 1..] else s
  }

  lemma SetOfConcat<T>(a: seq<T>, b: seq<T>)
    ensures ToSet(a + b) == ToSet(a) + ToSet(b)
  {
  }

  lemma InsertKeepsSorted(s: seq<int>, i: nat, x: int)
    requires Sorted(s) && i <= |s|
    requires (i > 0 ==> s[i - 1] < x) && (i < |s| ==> x < s[i])
    ensures Sorted(s[..i] + [x] + s[i..])
  {
    var r := s[..i] + [x] + s[i..];
    assert forall k :: 0 <= k < |r| ==> r[k] == if k < i then s[k] else if k == i then x else s[k - 1];
  }

  lemma InsertAddsToSet<T>(s: seq<T>, i: nat, x: T)
    requires i <= |s|
    ensures ToSet(s[..i] + [x] + s[i..]) == ToSet(s) + {x}
  {
    assert s == s[..i] + s[i..];
    SetOfConcat(s[..i], s[i..]);
    SetOfConcat(s[..i], [x]);
    SetOfConcat(s[..i] + [x], s[i..]);
    hide ToSet;
  }

  lemma RemoveAt(s: seq<int>, i: nat)
    requires Sorted(s) && i < |s|
    ensures Sorted(s[..i] + s[i + 1..])
    ensures ToSet(s[..i] + s[i + 1..]) == ToSet(s) - {s[i]}
  {
    var r := s[..i] + s[i + 1..];
    assert forall k :: 0 <= k < |r| ==> r[k] == if k < i then s[k] else s[k + 1];
    assert s == s[..i] + [s[i]] + s[i + 1..];
  }

  lemma InsertedIsUnion(s: seq<int64>, x: int64)
    requires Sorted(s)
    ensures Sorted(Inserted(s, x))
    ensures ToSet(Inserted(s, x)) == ToSet(s) + {x}
  {
    var i := Position(s, x);
    hide Position;
    if i == |s| || s[i] != x {
      InsertKeepsSorted(s, i, x);
      InsertAddsToSet(s, i, x);
    }
  }

  lemma RemovedIsDifference(s: seq<int64>, x: int64)
    requires Sorted(s)
    ensures Sorted(Removed(s, x))
    ensures ToSet(Removed(s, x)) == ToSet(s) - {x}
  {
    var i := Position(s, x);
    hide Position;
    if i < |s| && s[i] == x { RemoveAt(s, i); }
  }

  lemma TailSet(s: seq<int64>)
    requires Sorted(s) && s != []
    ensures Sorted(s[1..]) && ToSet(s[1..]) == ToSet(s) - {s[0]}
  {
    RemoveAt(s, 0);
    assert s[..0] + s[1..] == s[1..];
  }

  lemma FirstIsLeast(s: seq<int64>, x: int64)
    requires Sorted(s) && x in ToSet(s)
    ensures s != [] && s[0] <= x
  {
  }

  /** Two strictly increasing lists with the same elements are the same list. */
  lemma {:induction false} SortedUnique(s: seq<int64>, t: seq<int64>)
    requires Sorted(s) && Sorted(t) && ToSet(s) == ToSet(t)
    ensures s == t
  {
    assert t != [] ==> t[0] in ToSet(t);
    if s != [] {
      assert s[0] in ToSet(s);
      FirstIsLeast(t, s[0]);
      FirstIsLeast(s, t[0]);
      hide *;
      TailSet(s);
      TailSet(t);
      SortedUnique(s[1..], t[1..]);
      assert s == [s[0]] + s[1..] && t == [t[0]] + t[1..];
    }
  }

  /** There are only so many numbers between the ends of a strictly increasing list. */
  lemma {:induction false} SortedLength(s: seq<int>, k: nat)
    requires Sorted(s) && k < |s|
    ensures s[0] + k <= s[k]
  {
    if k > 0 { SortedLength(s, k - 1); }
  }

  /** `IDRefs.Add`. */
  method Add(refs: seq<int64>, ref: int64) returns (r: seq<int64>)
    requires Sorted(refs)
    ensures r == Inserted(refs, ref)
    ensures Sorted(r) && ToSet(r) == ToSet(refs) + {ref}
  {
    InsertedIsUnion(refs, ref);
    var i := Search(refs, ref);
    if i < |refs| && refs[i] >= ref {
      if refs[i] > ref {
        r := refs[..i] + [ref] + refs[i..];
      } else {
        r := refs;
      }
    } else {
      r := refs + [ref];
      assert r == refs[..i] + [ref] + refs[i..];
    }
  }

  /** `IDRefs.Delete`. */
  method Delete(refs: seq<int64>, ref: int64) returns (r: seq<int64>)
    requires Sorted(refs)
    ensures r == Removed(refs, ref)
    ensures Sorted(r) && ToSet(r) == ToSet(refs) - {ref}
  {
    RemovedIsDifference(refs, ref);
    var i := Search(refs, ref);
    r := refs;
    if i < |refs| && refs[i] == ref {
      r := refs[..i] + refs[i + 1..];
    }
  }
}
