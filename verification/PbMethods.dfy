/** The loops of the generated protobuf code, each proved against the format in `Protobuf`. */
module PbMethods {
  import opened GoInts
  import opened Varint
  import opened Protobuf

  // Size

  method StringFieldsSize(key: byte, list: seq<bytes>) returns (n: nat)
    ensures n == |StringFields(key, list)|
  {
    n := 0;
    for i := 0 to |list|
      invariant n + |StringFields(key, list[i..])| == |StringFields(key, list)|
    {
      assert list[i..][1..] == list[i + 1..];
      var sov := LengthOf(|list[i]|);
      n := n + 1 + |list[i]| + sov;
    }
  }

  method NumberFieldsSize(key: byte, list: seq<int64>) returns (n: nat)
    ensures n == |NumberFields(key, list)|
  {
    n := 0;
    for i := 0 to |list|
      invariant n + |NumberFields(key, list[i..])| == |NumberFields(key, list)|
    {
      assert list[i..][1..] == list[i + 1..];
      var sov := LengthOf(ToU64(list[i]));
      n := n + 1 + sov;
    }
  }

  method PackedSize(list: seq<int64>) returns (n: nat)
    ensures n == |Packed(list)|
  {
    n := 0;
    for i := 0 to |list|
      invariant n + |Packed(list[i..])| == |Packed(list)|
    {
      assert list[i..][1..] == list[i + 1..];
      var sov := LengthOf(ToU64(list[i]));
      n := n + sov;
    }
  }

  /** `Way.Size`. */
  method WaySize(w: Way) returns (n: nat)
    ensures n == |EncodeWay(w)|
  {
    n := StringFieldsSize(0x0a, w.tags);
    if |w.refs| > 0 {
      var l := PackedSize(w.refs);
      var sov := LengthOf(l);
      n := n + 1 + sov + l;
    }
  }

  /** `Relation.Size`. */
  method RelationSize(m: Relation) returns (n: nat)
    ensures n == |EncodeRelation(m)|
  {
    var tags := StringFieldsSize(0x0a, m.tags);
    var ids := NumberFieldsSize(0x10, m.ids);
    var types := NumberFieldsSize(0x18, m.types);
    var roles := StringFieldsSize(0x22, m.roles);
    n := tags + ids + types + roles;
  }

  // MarshalTo

  method CopyInto(a: array<byte>, i: nat, s: bytes) returns (j: nat)
    requires i + |s| <= a.Length
    modifies a
    ensures j == i + |s| && a[..j] == old(a[..i]) + s
    ensures forall p :: j <= p < a.Length ==> a[p] == old(a[p])
  {
    for k := 0 to |s|
      invariant a[..i + k] == old(a[..i]) + s[..k]
      invariant forall p :: i + k <= p < a.Length ==> a[p] == old(a[p])
    {
      ghost var before := a[..i + k];
      a[i + k] := s[k];
      assert a[..i + k + 1] == before + [s[k]];
      assert s[..k + 1] == s[..k] + [s[k]];
    }
    assert s[..|s|] == s;
    j := i + |s|;
  }

  method PutKey(a: array<byte>, i: nat, key: byte) returns (j: nat)
    requires i < a.Length
    modifies a
    ensures j == i + 1 && a[..j] == old(a[..i]) + [key]
    ensures forall p :: j <= p < a.Length ==> a[p] == old(a[p])
  {
    a[i] := key;
    j := i + 1;
  }

  method PutStringField(a: array<byte>, i: nat, key: byte, s: bytes) returns (j: nat)
    requires i + |StringField(key, s)| <= a.Length
    modifies a
    ensures j == i + |StringField(key, s)| && a[..j] == old(a[..i]) + StringField(key, s)
    ensures forall p :: j <= p < a.Length ==> a[p] == old(a[p])
  {
    hide Put;
    j := PutKey(a, i, key);
    j := PutInto(a, j, |s|);
    j := CopyInto(a, j, s);
    assert old(a[..i]) + [key] + Put(|s|) + s == old(a[..i]) + ([key] + (Put(|s|) + s));
  }

  method PutStringFields(a: array<byte>, i: nat, key: byte, list: seq<bytes>) returns (j: nat)
    requires i + |StringFields(key, list)| <= a.Length
    modifies a
    ensures j == i + |StringFields(key, list)| && a[..j] == old(a[..i]) + StringFields(key, list)
    ensures forall p :: j <= p < a.Length ==> a[p] == old(a[p])
  {
    hide StringField;
    j := i;
    assert list[0..] == list;
    for k := 0 to |list|
      invariant i <= j <= a.Length && j + |StringFields(key, list[k..])| == i + |StringFields(key, list)|
      invariant a[..j] + StringFields(key, list[k..]) == old(a[..i]) + StringFields(key, list)
      invariant forall p :: j <= p < a.Length ==> a[p] == old(a[p])
    {
      assert list[k..][1..] == list[k + 1..];
      ghost var before := a[..j];
      j := PutStringField(a, j, key, list[k]);
      Assoc(before, StringField(key, list[k]), StringFields(key, list[k + 1..]));
    }
    assert a[..j] + [] == a[..j];
  }

  method PutNumberFields(a: array<byte>, i: nat, key: byte, list: seq<int64>) returns (j: nat)
    requires i + |NumberFields(key, list)| <= a.Length
    modifies a
    ensures j == i + |NumberFields(key, list)| && a[..j] == old(a[..i]) + NumberFields(key, list)
    ensures forall p :: j <= p < a.Length ==> a[p] == old(a[p])
  {
    hide Put;
    j := i;
    assert list[0..] == list;
    for k := 0 to |list|
      invariant i <= j <= a.Length && j + |NumberFields(key, list[k..])| == i + |NumberFields(key, list)|
      invariant a[..j] + NumberFields(key, list[k..]) == old(a[..i]) + NumberFields(key, list)
      invariant forall p :: j <= p < a.Length ==> a[p] == old(a[p])
    {
      assert list[k..][1..] == list[k + 1..];
      ghost var before, rest := a[..j], NumberFields(key, list[k + 1..]);
      j := PutKey(a, j, key);
      j := PutInto(a, j, ToU64(list[k]));
      assert before + [key] + Put(ToU64(list[k])) + rest == before + ([key] + (Put(ToU64(list[k])) + rest));
    }
    assert a[..j] + [] == a[..j];
  }

  /** The temporary buffer of the packed refs, ten bytes for each of them. */
  method PutPacked(list: seq<int64>) returns (packed: bytes)
    ensures packed == Packed(list)
  {
    hide Put;
    var a := new byte[|list| * 10];
    var j := 0;
    assert list[0..] == list;
    for k := 0 to |list|
      invariant 0 <= j <= 10 * k
      invariant a[..j] + Packed(list[k..]) == Packed(list)
    {
      assert list[k..][1..] == list[k + 1..];
      ReadsBack(ToU64(list[k]), []);
      ghost var before := a[..j];
      j := PutInto(a, j, ToU64(list[k]));
      Assoc(before, Put(ToU64(list[k])), Packed(list[k + 1..]));
    }
    packed := a[..j];
    assert packed + [] == packed;
  }

  /** `Way.MarshalTo`: writes exactly the first `Size` bytes of the buffer. */
  method WayMarshalTo(w: Way, a: array<byte>) returns (n: nat)
    requires |EncodeWay(w)| <= a.Length
    modifies a
    ensures n == |EncodeWay(w)| && a[..n] == EncodeWay(w)
    ensures forall p :: n <= p < a.Length ==> a[p] == old(a[p])
  {
    hide StringFields, StringField, Packed;
    n := PutStringFields(a, 0, 0x0a, w.tags);
    assert a[..n] == StringFields(0x0a, w.tags);
    if |w.refs| > 0 {
      var packed := PutPacked(w.refs);
      n := PutStringField(a, n, 0x12, packed);
    } else {
      assert a[..n] + [] == a[..n];
    }
  }

  /** `Relation.MarshalTo`. */
  method RelationMarshalTo(m: Relation, a: array<byte>) returns (n: nat)
    requires |EncodeRelation(m)| <= a.Length
    modifies a
    ensures n == |EncodeRelation(m)| && a[..n] == EncodeRelation(m)
    ensures forall p :: n <= p < a.Length ==> a[p] == old(a[p])
  {
    hide StringFields, NumberFields;
    n := PutStringFields(a, 0, 0x0a, m.tags);
    assert a[..n] == StringFields(0x0a, m.tags);
    n := PutNumberFields(a, n, 0x10, m.ids);
    n := PutNumberFields(a, n, 0x18, m.types);
    n := PutStringFields(a, n, 0x22, m.roles);
    Assoc(StringFields(0x0a, m.tags), NumberFields(0x10, m.ids), NumberFields(0x18, m.types));
    Assoc(StringFields(0x0a, m.tags), NumberFields(0x10, m.ids) + NumberFields(0x18, m.types),
          StringFields(0x22, m.roles));
    Assoc(NumberFields(0x10, m.ids), NumberFields(0x18, m.types), StringFields(0x22, m.roles));
  }

  /** `Way.Marshal`: a buffer of `Size` bytes, filled to the last one. */
  method WayMarshal(w: Way) returns (data: bytes)
    ensures data == EncodeWay(w)
  {
    var size := WaySize(w);
    var a := new byte[size];
    var n := WayMarshalTo(w, a);
    data := a[..n];
  }

  method RelationMarshal(m: Relation) returns (data: bytes)
    ensures data == EncodeRelation(m)
  {
    var size := RelationSize(m);
    var a := new byte[size];
    var n := RelationMarshalTo(m, a);
    data := a[..n];
  }

  // Unmarshal

  method ReadStringFrom(data: bytes, at: nat) returns (r: Option<Bytes>)
    requires at <= |data|
    ensures r == ReadString(data[at..])
  {
    hide ReadPb;
    var len := ReadPbFrom(data, at);
    if !len.Got? || ToI64(len.value) < 0 { return None; }
    var start := at + len.n;
    var post := start + len.value;
    if post > |data| { return None; }
    assert data[at..][len.n..len.n + len.value] == data[start..post];
    r := Some(Bytes(data[start..post], post - at));
  }

  /** The packed loop: varints from `start` on, while the index is below `post`. */
  method ReadPackedFrom(data: bytes, start: nat, post: nat) returns (r: Option<Numbers>)
    requires start <= post <= |data|
    ensures r == ReadPacked(data[start..], post - start)
  {
    hide ReadPb, PrependNumbers;
    var list: seq<uint64>, i: nat := [], start;
    while i < post
      invariant start <= i <= |data|
      invariant ReadPacked(data[start..], post - start)
             == PrependNumbers(list, i - start, ReadPacked(data[i..], post - i))
      decreases |data| - i
    {
      PrependNumbersStep(list, i - start, data[i..], post - i);
      var v := ReadPbFrom(data, i);
      if !v.Got? { return None; }
      assert data[i..][v.n..] == data[i + v.n..];
      list := list + [v.value];
      i := i + v.n;
    }
    r := Some(Numbers(list, i - start));
  }

  function PrependNumbers(xs: seq<uint64>, n: nat, rest: Option<Numbers>): (r: Option<Numbers>)
    ensures xs == [] && n == 0 ==> r == rest
    ensures rest == Some(Numbers([], 0)) ==> r == Some(Numbers(xs, n))
  {
    match rest
    case Some(Numbers(ys, m)) =>
      assert [] + ys == ys && xs + [] == xs;
      Some(Numbers(xs + ys, n + m))
    case None => None
  }

  lemma PrependNumbersStep(xs: seq<uint64>, n: nat, s: bytes, left: int)
    requires left > 0
    ensures var v := ReadPb(s);
      PrependNumbers(xs, n, ReadPacked(s, left)) ==
        if v.Got? then PrependNumbers(xs + [v.value], n + v.n, ReadPacked(s[v.n..], left - v.n)) else None
  {
    hide ReadPb;
    var v := ReadPb(s);
    if v.Got? {
      var tail := ReadPacked(s[v.n..], left - v.n);
      if tail.Some? {
        assert xs + ([v.value] + tail.value.list) == xs + [v.value] + tail.value.list;
      }
    }
  }

  method ReadNumbersFrom(data: bytes, at: nat, wireType: nat) returns (r: Option<Numbers>)
    requires at <= |data|
    ensures r == ReadNumbers(data[at..], wireType)
  {
    hide ReadPb, ReadPacked;
    var v := ReadPbFrom(data, at);
    if !v.Got? { return None; }
    if wireType == 0 { return Some(Numbers([v.value], v.n)); }
    if wireType != 2 || ToI64(v.value) < 0 { return None; }
    var start := at + v.n;
    var post := start + v.value;
    if post > |data| { return None; }
    assert data[at..][v.n..] == data[start..];
    var packed := ReadPackedFrom(data, start, post);
    if packed.None? { return None; }
    r := Some(Numbers(packed.value.list, v.n + packed.value.n));
  }

  /** The field of a way at index `i`, and the length of it. */
  method WayFieldFrom(data: bytes, i: nat, w: Way) returns (r: Option<(Way, nat)>)
    requires i <= |data|
    ensures r == WayField(data[i..], w)
  {
    hide ReadPb, ReadHead, ReadString, ReadNumbers, Skip, Signed;
    var head := ReadHead(data[i..]);
    if head.None? { return None; }
    var n := head.value.n;
    assert data[i..][n..] == data[i + n..];
    if head.value.number == 1 {
      if head.value.wireType != 2 { return None; }
      var tag := ReadStringFrom(data, i + n);
      if tag.None? { return None; }
      r := Some((w.(tags := w.tags + [tag.value.payload]), n + tag.value.n));
    } else if head.value.number == 2 {
      var refs := ReadNumbersFrom(data, i + n, head.value.wireType);
      if refs.None? { return None; }
      r := Some((w.(refs := w.refs + Signed(refs.value.list)), n + refs.value.n));
    } else {
      var skipped := Skip(data[i..]);
      if skipped.None? || i + skipped.value > |data| { return None; }
      r := Some((w, skipped.value));
    }
  }

  /** `Way.Unmarshal`. */
  method WayUnmarshal(data: bytes) returns (r: Option<Way>)
    ensures r == ParseWay(data, Way([], []))
  {
    hide WayField;
    var w, i := Way([], []), 0;
    assert data[0..] == data;
    while i < |data|
      invariant 0 <= i <= |data|
      invariant ParseWay(data, Way([], [])) == ParseWay(data[i..], w)
    {
      var field := WayFieldFrom(data, i, w);
      if field.None? { return None; }
      var n := field.value.1;
      assert data[i..][n..] == data[i + n..];
      w, i := field.value.0, i + n;
    }
    r := Some(w);
  }

  /** The field of a relation at index `i`, and the length of it. */
  method RelationFieldFrom(data: bytes, i: nat, m: Relation) returns (r: Option<(Relation, nat)>)
    requires i <= |data|
    ensures r == RelationField(data[i..], m)
  {
    hide ReadPb, ReadHead, ReadString, ReadNumbers, Skip, Signed, Signed32;
    var head := ReadHead(data[i..]);
    if head.None? { return None; }
    var n, number := head.value.n, head.value.number;
    assert data[i..][n..] == data[i + n..];
    if number == 1 || number == 4 {
      if head.value.wireType != 2 { return None; }
      var text := ReadStringFrom(data, i + n);
      if text.None? { return None; }
      var next :=
        if number == 1 then m.(tags := m.tags + [text.value.payload])
        else m.(roles := m.roles + [text.value.payload]);
      r := Some((next, n + text.value.n));
    } else if number == 2 || number == 3 {
      var vs := ReadNumbersFrom(data, i + n, head.value.wireType);
      if vs.None? { return None; }
      var next :=
        if number == 2 then m.(ids := m.ids + Signed(vs.value.list))
        else m.(types := m.types + Signed32(vs.value.list));
      r := Some((next, n + vs.value.n));
    } else {
      var skipped := Skip(data[i..]);
      if skipped.None? || i + skipped.value > |data| { return None; }
      r := Some((m, skipped.value));
    }
  }

  /** `Relation.Unmarshal`. */
  method RelationUnmarshal(data: bytes) returns (r: Option<Relation>)
    ensures r == ParseRelation(data, Relation([], [], [], []))
  {
    hide RelationField;
    var m, i := Relation([], [], [], []), 0;
    assert data[0..] == data;
    while i < |data|
      invariant 0 <= i <= |data|
      invariant ParseRelation(data, Relation([], [], [], [])) == ParseRelation(data[i..], m)
    {
      var field := RelationFieldFrom(data, i, m);
      if field.None? { return None; }
      var n := field.value.1;
      assert data[i..][n..] == data[i + n..];
      m, i := field.value.0, i + n;
    }
    r := Some(m);
  }
}
