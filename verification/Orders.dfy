/** Iteration orders of a Go map: its keys in any order, each once. */
module Orders {
  import opened GoInts

  predicate NoDup(s: seq<string>)
  {
    forall i, j :: 0 <= i < j < |s| ==> s[i] != s[j]
  }

  /** The list has the members of the set, each once. */
  ghost predicate Lists(list: seq<string>, members: set<string>)
  {
    NoDup(list) && (set x | x in list) == members
  }

  lemma ListsMore(list: seq<string>, members: set<string>, t: string)
    requires Lists(list, members) && t !in members
    ensures Lists(list + [t], members + {t})
  {
  }

  lemma ListsIn(list: seq<string>, members: set<string>)
    requires Lists(list, members)
    ensures forall x :: x in list <==> x in members
  {
    forall x ensures x in list <==> x in members { assert x in list <==> x in (set y | y in list); }
  }

  lemma ListsJoin(a: seq<string>, inA: set<string>, b: seq<string>, inB: set<string>)
    requires Lists(a, inA) && Lists(b, inB) && inA !! inB
    ensures Lists(a + b, inA + inB)
  {
    ListsIn(a, inA);
    ListsIn(b, inB);
    var c := a + b;
    forall i, j | 0 <= i < j < |c| ensures c[i] != c[j] {
      if i < |a| <= j { assert a[i] in inA && b[j - |a|] in inB; }
    }
  }

  lemma {:induction false} SomeOrder(names: set<string>) returns (order: seq<string>)
    ensures Lists(order, names)
    decreases |names|
  {
    order := [];
    if names != {} {
      var t := Element(names);
      order := SomeOrder(names - {t});
      ListsMore(order, names - {t}, t);
      assert names - {t} + {t} == names;
      order := order + [t];
    }
  }

  lemma LastOrder(names: set<string>, t: string) returns (rest: seq<string>)
    requires t in names
    ensures Lists(rest + [t], names) && Lists(rest, names - {t})
  {
    rest := SomeOrder(names - {t});
    ListsMore(rest, names - {t}, t);
    assert names - {t} + {t} == names;
  }
}
