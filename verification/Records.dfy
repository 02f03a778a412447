/** Ways and relations as the cache stores them: refs delta-packed in place, tags turned into strings,
    everything in one protobuf record, and all of it undone on the way back. */
module Records {
  import opened GoInts
  import opened TagCodec
  import Protobuf
  import PbMethods

  /** An element's own id is the key of its record and not part of it. */
  datatype Way = Way(refs: seq<int64>, tags: Tags)
  datatype Member = Member(id: int64, typ: Protobuf.int32, role: bytes)
  datatype Relation = Relation(members: seq<Member>, tags: Tags)

  // Delta packing

  function Deltas(s: seq<int64>): (r: seq<int64>)
    ensures |r| == |s|
  {
    seq(|s|, i requires 0 <= i < |s| => if i == 0 then s[0] else Minus(s[i], s[i - 1]))
  }

  function Sums(s: seq<int64>): (r: seq<int64>)
    ensures |r| == |s|
    ensures |s| > 0 ==> r[0] == s[0]
    ensures forall i :: 0 < i < |s| ==> r[i] == Plus(s[i], r[i - 1])
  {
    if |s| <= 1 then s
    else
      var init := Sums(s[..|s| - 1]);
      init + [Plus(s[|s| - 1], init[|s| - 2])]
  }

  /** Summing up the differences gives the refs back, for every 64-bit ref. */
  lemma SumsOfDeltas(s: seq<int64>)
    ensures Sums(Deltas(s)) == s
  {
    hide Sums, Deltas;
    forall k | 0 <= k < |s| ensures Sums(Deltas(s))[k] == s[k] {
      SumsOfDeltasAt(s, k);
    }
  }

  lemma {:induction false} SumsOfDeltasAt(s: seq<int64>, k: nat)
    requires k < |s|
    ensures Sums(Deltas(s))[k] == s[k]
  {
    hide Minus, Plus, Sums;
    if k > 0 {
      SumsOfDeltasAt(s, k - 1);
      DeltaCancels(s[k - 1], s[k]);
    }
  }

  lemma DeltasAt(s: seq<int64>, i: nat)
    requires i < |s|
    ensures Deltas(s)[i] == if i == 0 then s[0] else Minus(s[i], s[i - 1])
  {
  }

  /** `deltaPack`. */
  method DeltaPack(data: array<int64>)
    modifies data
    ensures data[..] == Deltas(old(data[..]))
  {
    hide *;
    ghost var all, deltas := data[..], Deltas(data[..]);
    if data.Length > 0 { DeltasAt(all, 0); }
    if data.Length < 2 { return; }
    var lastVal := data[0];
    for i := 1 to data.Length
      invariant lastVal == all[i - 1]
      invariant forall k :: 0 <= k < i ==> data[k] == deltas[k]
      invariant forall k :: i <= k < data.Length ==> data[k] == all[k]
    {
      DeltasAt(all, i);
      var value := data[i];
      data[i] := Minus(value, lastVal);
      lastVal := value;
    }
  }

  /** `deltaUnpack`. */
  method DeltaUnpack(data: array<int64>)
    modifies data
    ensures data[..] == Sums(old(data[..]))
  {
    hide Minus, Plus;
    ghost var sums := Sums(data[..]);
    if data.Length < 2 { return; }
    hide Sums;
    for i := 1 to data.Length
      invariant forall k :: 0 <= k < i ==> data[k] == sums[k]
      invariant forall k :: i <= k < data.Length ==> data[k] == old(data[..])[k]
    {
      data[i] := Plus(data[i], data[i - 1]);
    }
  }

  // Ways

  function DecodeWay(t: Tables, data: bytes): (r: Option<Way>)
  {
    match Protobuf.ParseWay(data, Protobuf.Way([], []))
    case Some(pb) =>
      (match FromArray(t, pb.tags, map[])
       case Some(tags) => Some(Way(Sums(pb.refs), tags))
       case None => None)
    case None => None
  }

  /** `MarshalWay`, which leaves the caller's refs delta-packed. The record reads back as the way it
      was made from, whatever order the tags were visited in. */
  method MarshalWay(t: Tables, refs: array<int64>, tags: Tags) returns (data: bytes)
    requires t.Valid()
    requires Fits(tags) && 10 * refs.Length < TWO63
    modifies refs
    ensures refs[..] == Deltas(old(refs[..]))
    ensures DecodeWay(t, data) == Some(Way(old(refs[..]), tags))
  {
    hide Protobuf.ParseWay, Protobuf.EncodeWay, FromArray, Sums;
    DeltaPack(refs);
    var strings := TagsAsArray(t, tags);
    var pb := Protobuf.Way(strings, refs[..]);
    data := PbMethods.WayMarshal(pb);
    Protobuf.PackedLength(pb.refs);
    Protobuf.WayReadsBack(pb);
    SumsOfDeltas(old(refs[..]));
  }

  /** `UnmarshalWay`. */
  method UnmarshalWay(t: Tables, data: bytes) returns (r: Option<Way>)
    ensures r == DecodeWay(t, data)
  {
    hide Protobuf.ParseWay, FromArray, Sums;
    var pb := PbMethods.WayUnmarshal(data);
    if pb.None? { return None; }
    var refs := new int64[|pb.value.refs|](i requires 0 <= i < |pb.value.refs| => pb.value.refs[i]);
    assert refs[..] == pb.value.refs;
    DeltaUnpack(refs);
    var tags := TagsFromArray(t, pb.value.tags);
    if tags.None? { return None; }
    r := Some(Way(refs[..], tags.value));
  }

  // Relations

  /** The members put together again; it takes a type and a role for every id. */
  function Members(pb: Protobuf.Relation): (r: seq<Member>)
    requires |pb.types| >= |pb.ids| && |pb.roles| >= |pb.ids|
  {
    seq(|pb.ids|, i requires 0 <= i < |pb.ids| => Member(pb.ids[i], pb.types[i], pb.roles[i]))
  }

  function DecodeRelation(t: Tables, data: bytes): (r: Option<Relation>)
  {
    match Protobuf.ParseRelation(data, Protobuf.Relation([], [], [], []))
    case Some(pb) =>
      if |pb.types| < |pb.ids| || |pb.roles| < |pb.ids| then None
      else (match FromArray(t, pb.tags, map[])
            case Some(tags) => Some(Relation(Members(pb), tags))
            case None => None)
    case None => None
  }

  /** `MarshalRelation`: the record reads back as the relation, members in order and tags complete. */
  method MarshalRelation(t: Tables, relation: Relation) returns (data: bytes)
    requires t.Valid() && Fits(relation.tags)
    requires forall m <- relation.members :: |m.role| < TWO63
    ensures DecodeRelation(t, data) == Some(relation)
  {
    hide Protobuf.ParseRelation, Protobuf.EncodeRelation, FromArray;
    var n := |relation.members|;
    var ids, types, roles: seq<bytes> := [], [], [];
    for i := 0 to n
      invariant |ids| == |types| == |roles| == i
      invariant forall k :: 0 <= k < i ==> relation.members[k] == Member(ids[k], types[k], roles[k])
    {
      var m := relation.members[i];
      ids, types, roles := ids + [m.id], types + [m.typ], roles + [m.role];
    }
    var strings := TagsAsArray(t, relation.tags);
    var pb := Protobuf.Relation(strings, ids, types, roles);
    data := PbMethods.RelationMarshal(pb);
    forall s <- pb.tags + pb.roles ensures |s| < TWO63 {
      if s !in pb.tags {
        var k :| 0 <= k < n && roles[k] == s;
        assert relation.members[k] in relation.members;
      }
    }
    Protobuf.RelationReadsBack(pb);
    assert Members(pb) == relation.members;
  }

  /** `UnmarshalRelation`. */
  method UnmarshalRelation(t: Tables, data: bytes) returns (r: Option<Relation>)
    ensures r == DecodeRelation(t, data)
  {
    hide Protobuf.ParseRelation, FromArray;
    var pb := PbMethods.RelationUnmarshal(data);
    if pb.None? { return None; }
    var members: seq<Member> := [];
    for i := 0 to |pb.value.ids|
      invariant |members| == i <= |pb.value.types| && i <= |pb.value.roles|
      invariant forall k :: 0 <= k < i ==> members[k] == Member(pb.value.ids[k], pb.value.types[k], pb.value.roles[k])
    {
      if |pb.value.types| <= i || |pb.value.roles| <= i { return None; }
      members := members + [Member(pb.value.ids[i], pb.value.types[i], pb.value.roles[i])];
    }
    var tags := TagsFromArray(t, pb.value.tags);
    if tags.None? { return None; }
    assert members == Members(pb.value);
    r := Some(Relation(members, tags.value));
  }
}
