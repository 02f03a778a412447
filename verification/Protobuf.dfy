/** The records of ways and relations, as the generated protobuf code writes and reads them: fields
    of (number, wire type) followed by a varint or by a length and that many bytes. `None` stands for
    every error the readers return. */
module Protobuf {
  import opened GoInts
  import opened Varint

  type int32 = x: int | -0x8000_0000 <= x < 0x8000_0000

  /** The low 32 bits, as a signed number. */
  function ToI32(u: uint64): (r: int32)
    ensures u < 0x8000_0000 ==> r == u
    ensures forall x: int32 {:trigger ToU64(x)} :: ToU64(x) == u ==> r == x
  {
    var low := u % TWO32;
    if low < 0x8000_0000 then low else low - TWO32
  }

  datatype Way = Way(tags: seq<bytes>, refs: seq<int64>)
  datatype Relation = Relation(tags: seq<bytes>, ids: seq<int64>, types: seq<int32>, roles: seq<bytes>)

  // Writing

  function StringField(key: byte, s: bytes): (r: bytes)
  {
    [key] + (Put(|s|) + s)
  }

  function StringFields(key: byte, list: seq<bytes>): (r: bytes)
  {
    if list == [] then [] else StringField(key, list[0]) + StringFields(key, list[1..])
  }

  function NumberFields(key: byte, list: seq<int64>): (r: bytes)
  {
    if list == [] then [] else [key] + (Put(ToU64(list[0])) + NumberFields(key, list[1..]))
  }

  function Packed(list: seq<int64>): (r: bytes)
  {
    if list == [] then [] else Put(ToU64(list[0])) + Packed(list[1..])
  }

  function EncodeWay(w: Way): (r: bytes)
  {
    StringFields(0x0a, w.tags) + (if w.refs == [] then [] else StringField(0x12, Packed(w.refs)))
  }

  function EncodeRelation(m: Relation): (r: bytes)
  {
    StringFields(0x0a, m.tags) +
    (NumberFields(0x10, m.ids) + (NumberFields(0x18, m.types) + StringFields(0x22, m.roles)))
  }

  /** Fields are written in the order of their numbers, with a key of eight times the number plus the wire type: two
      for strings and packed numbers, none for a number. */
  lemma WayBytes()
    ensures EncodeWay(Way([[0x61]], [1, 2])) == [0x0a, 1, 0x61, 0x12, 2, 1, 2]
  {
    assert [[0x61]][1..] == [] && [1, 2][1..] == [2] && [2][1..] == [];
    assert Packed([2]) == Put(2) + Packed([]);
    assert Packed([1, 2]) == Put(1) + Packed([2]) == [1, 2];
    assert StringFields(0x0a, [[0x61]]) == StringField(0x0a, [0x61]);
  }

  lemma RelationBytes()
    ensures EncodeRelation(Relation([[0x61]], [1], [2], [[0x62]])) == [0x0a, 1, 0x61, 0x10, 1, 0x18, 2, 0x22, 1, 0x62]
  {
    assert [[0x61]][1..] == [[0x62]][1..] == [] && [1][1..] == [2][1..] == [];
    assert StringFields(0x0a, [[0x61]]) == StringField(0x0a, [0x61]);
    assert StringFields(0x22, [[0x62]]) == StringField(0x22, [0x62]);
    assert NumberFields(0x10, [1]) == [0x10] + (Put(1) + NumberFields(0x10, []));
    assert NumberFields(0x18, [2]) == [0x18] + (Put(2) + NumberFields(0x18, []));
  }

  // Reading

  datatype Bytes = Bytes(payload: bytes, n: nat)
  datatype Numbers = Numbers(list: seq<uint64>, n: nat)

  /** A length and that many bytes. */
  function ReadString(s: bytes): (r: Option<Bytes>)
    ensures r.Some? ==> 1 <= r.value.n <= |s|
  {
    match ReadPb(s)
    case Got(len, n) =>
      if ToI64(len) < 0 || n + len > |s| then None else Some(Bytes(s[n..n + len], n + len))
    case _ => None
  }

  /** Varints until `left` bytes are used up; the last one may run past that end. */
  function ReadPacked(s: bytes, left: int): (r: Option<Numbers>)
    ensures r.Some? ==> r.value.n <= |s|
    decreases |s|
  {
    if left <= 0 then Some(Numbers([], 0))
    else match ReadPb(s)
      case Got(v, n) =>
        (match ReadPacked(s[n..], left - n)
         case Some(Numbers(vs, m)) => Some(Numbers([v] + vs, n + m))
         case None => None)
      case _ => None
  }

  /** The value of a repeated number field: one varint, or a packed run of them. */
  function ReadNumbers(s: bytes, wireType: nat): (r: Option<Numbers>)
    ensures r.Some? ==> 1 <= r.value.n <= |s|
  {
    match ReadPb(s)
    case Got(v, n) =>
      if wireType == 0 then Some(Numbers([v], n))
      else if wireType != 2 || ToI64(v) < 0 || n + v > |s| then None
      else (match ReadPacked(s[n..], v)
            case Some(Numbers(vs, m)) => Some(Numbers(vs, n + m))
            case None => None)
    case _ => None
  }

  /** `skipMessages`: the length of the field that starts at `s`; it may point past the end. */
  function Skip(s: bytes): (r: Option<nat>)
    ensures r.Some? ==> r.value >= 1
    decreases |s|, 0
  {
    match ReadPb(s)
    case Got(wire, n) =>
      (match wire % 8
       case 0 => (match ReadPb(s[n..]) case Got(_, m) => Some(n + m) case _ => None)
       case 1 => Some(n + 8)
       case 2 => (match ReadPb(s[n..])
                  case Got(len, m) => if ToI64(len) < 0 then None else Some(n + m + len)
                  case _ => None)
       case 3 => (match SkipGroup(s[n..]) case Some(m) => Some(n + m) case None => None)
       case 4 => Some(n)
       case 5 => Some(n + 4)
       case _ => None)
    case _ => None
  }

  function SkipGroup(s: bytes): (r: Option<nat>)
    decreases |s|, 1
  {
    match ReadPb(s)
    case Got(wire, n) =>
      if wire % 8 == 4 then Some(n)
      else (match Skip(s)
            case Some(m) =>
              if m > |s| then None
              else (match SkipGroup(s[m..]) case Some(k) => Some(m + k) case None => None)
            case None => None)
    case _ => None
  }

  /** The head of a field, and what is behind it. */
  datatype Head = Head(number: int32, wireType: nat, n: nat)

  function ReadHead(s: bytes): (r: Option<Head>)
    ensures r.Some? ==> 1 <= r.value.n <= |s| && r.value.number > 0
  {
    match ReadPb(s)
    case Got(wire, n) =>
      var number := ToI32(wire / 8);
      if wire % 8 == 4 || number <= 0 then None else Some(Head(number, wire % 8, n))
    case _ => None
  }

  /** One field of `s` merged into a way, and how long it was. */
  function WayField(s: bytes, w: Way): (r: Option<(Way, nat)>)
    ensures r.Some? ==> 1 <= r.value.1 <= |s|
  {
    match ReadHead(s)
    case Some(Head(number, wireType, n)) =>
      if number == 1 then
        if wireType != 2 then None
        else (match ReadString(s[n..])
              case Some(Bytes(tag, m)) => Some((w.(tags := w.tags + [tag]), n + m))
              case None => None)
      else if number == 2 then
        (match ReadNumbers(s[n..], wireType)
         case Some(Numbers(vs, m)) => Some((w.(refs := w.refs + Signed(vs)), n + m))
         case None => None)
      else (match Skip(s) case Some(m) => if m > |s| then None else Some((w, m)) case None => None)
    case None => None
  }

  function Signed(vs: seq<uint64>): (r: seq<int64>)
    ensures |r| == |vs|
  {
    seq(|vs|, i requires 0 <= i < |vs| => ToI64(vs[i]))
  }

  function ParseWay(s: bytes, w: Way): (r: Option<Way>)
    decreases |s|
  {
    if s == [] then Some(w)
    else match WayField(s, w)
      case Some((w', n)) => ParseWay(s[n..], w')
      case None => None
  }

  function RelationField(s: bytes, m: Relation): (r: Option<(Relation, nat)>)
    ensures r.Some? ==> 1 <= r.value.1 <= |s|
  {
    match ReadHead(s)
    case Some(Head(number, wireType, n)) =>
      if number == 1 || number == 4 then
        if wireType != 2 then None
        else (match ReadString(s[n..])
              case Some(Bytes(text, k)) =>
                Some((if number == 1 then m.(tags := m.tags + [text]) else m.(roles := m.roles + [text]), n + k))
              case None => None)
      else if number == 2 || number == 3 then
        (match ReadNumbers(s[n..], wireType)
         case Some(Numbers(vs, k)) =>
           Some((if number == 2 then m.(ids := m.ids + Signed(vs)) else m.(types := m.types + Signed32(vs)), n + k))
         case None => None)
      else (match Skip(s) case Some(k) => if k > |s| then None else Some((m, k)) case None => None)
    case None => None
  }

  function Signed32(vs: seq<uint64>): (r: seq<int32>)
    ensures |r| == |vs|
  {
    seq(|vs|, i requires 0 <= i < |vs| => ToI32(vs[i]))
  }

  function ParseRelation(s: bytes, m: Relation): (r: Option<Relation>)
    decreases |s|
  {
    if s == [] then Some(m)
    else match RelationField(s, m)
      case Some((m', n)) => ParseRelation(s[n..], m')
      case None => None
  }

  // Reading back what was written

  lemma HeadReadsBack(key: byte, rest: bytes)
    requires key < 128 && key / 8 > 0 && key % 8 != 4
    ensures ReadHead([key] + rest) == Some(Head(key / 8, key % 8, 1))
    ensures ([key] + rest)[1..] == rest
  {
    assert Put(key) == [key];
    ReadsBack(key, rest);
  }

  lemma StringReadsBack(s: bytes, rest: bytes)
    requires |s| < TWO63
    ensures ReadString(Put(|s|) + s + rest) == Some(Bytes(s, |Put(|s|)| + |s|))
    ensures (Put(|s|) + s + rest)[|Put(|s|)| + |s|..] == rest
  {
    hide Put, ReadPb;
    ReadsBack(|s|, s + rest);
    assert Put(|s|) + s + rest == Put(|s|) + (s + rest);
    var n := |Put(|s|)|;
    assert (Put(|s|) + (s + rest))[n..n + |s|] == s;
  }

  function Unsigned(list: seq<int64>): (r: seq<uint64>)
    ensures |r| == |list|
    ensures Signed(r) == list
  {
    var r := seq(|list|, i requires 0 <= i < |list| => ToU64(list[i]));
    assert forall i :: 0 <= i < |list| ==> ToI64(r[i]) == list[i];
    r
  }

  lemma {:induction false} PackedReadsBack(list: seq<int64>, rest: bytes)
    ensures ReadPacked(Packed(list) + rest, |Packed(list)|) == Some(Numbers(Unsigned(list), |Packed(list)|))
  {
    hide Put, ReadPb;
    if list != [] {
      PackedReadsBack(list[1..], rest);
      PackedStep(ToU64(list[0]), Packed(list[1..]), rest, Unsigned(list[1..]));
      assert Unsigned(list) == [ToU64(list[0])] + Unsigned(list[1..]);
    }
  }

  lemma PackedStep(v: uint64, tail: bytes, rest: bytes, vs: seq<uint64>)
    requires ReadPacked(tail + rest, |tail|) == Some(Numbers(vs, |tail|))
    ensures ReadPacked(Put(v) + tail + rest, |Put(v)| + |tail|) == Some(Numbers([v] + vs, |Put(v)| + |tail|))
  {
    hide *;
    assert Put(v) + tail + rest == Put(v) + (tail + rest);
    ReadsBack(v, tail + rest);
    assert (Put(v) + (tail + rest))[|Put(v)|..] == tail + rest;
    ReadPackedStep(Put(v) + (tail + rest), v, |Put(v)|, |tail|, Numbers(vs, |tail|));
  }

  lemma ReadPackedStep(s: bytes, v: uint64, n: nat, left: nat, tail: Numbers)
    requires n > 0 && ReadPb(s) == Got(v, n)
    requires ReadPacked(s[n..], left) == Some(tail)
    ensures ReadPacked(s, n + left) == Some(Numbers([v] + tail.list, n + tail.n))
  {
    hide ReadPb;
  }

  lemma FieldEnd(key: byte, body: bytes, n: nat, rest: bytes)
    requires n <= |body| && body[n..] == rest
    ensures ([key] + body)[1 + n..] == rest
  {
    assert ([key] + body)[1 + n..] == body[n..];
  }

  lemma WayTag(tag: bytes, rest: bytes, w: Way)
    requires |tag| < TWO63
    ensures ParseWay(StringField(0x0a, tag) + rest, w) == ParseWay(rest, w.(tags := w.tags + [tag]))
  {
    hide Put, ReadPb, ReadHead, ReadString, ReadNumbers, Skip;
    var body := Put(|tag|) + tag + rest;
    assert StringField(0x0a, tag) + rest == [0x0a] + body;
    HeadReadsBack(0x0a, body);
    StringReadsBack(tag, rest);
    FieldEnd(0x0a, body, |Put(|tag|)| + |tag|, rest);
  }

  lemma {:induction false} WayTags(list: seq<bytes>, rest: bytes, w: Way)
    requires forall s <- list :: |s| < TWO63
    ensures ParseWay(StringFields(0x0a, list) + rest, w) == ParseWay(rest, w.(tags := w.tags + list))
  {
    hide ParseWay, StringField;
    if list == [] {
      assert StringFields(0x0a, list) + rest == rest;
      assert w.tags + list == w.tags;
    } else {
      var tail := StringFields(0x0a, list[1..]);
      assert StringFields(0x0a, list) + rest == StringField(0x0a, list[0]) + (tail + rest);
      WayTag(list[0], tail + rest, w);
      WayTags(list[1..], rest, w.(tags := w.tags + [list[0]]));
      assert w.tags + [list[0]] + list[1..] == w.tags + list;
    }
  }

  lemma WayRefs(list: seq<int64>, w: Way)
    requires |Packed(list)| < TWO63
    ensures ParseWay(StringField(0x12, Packed(list)), w) == Some(w.(refs := w.refs + list))
  {
    hide Put, ReadPb, ReadHead, ReadString, ReadPacked, Packed, Skip, Signed, Unsigned;
    var p := Packed(list);
    var body := Put(|p|) + p;
    HeadReadsBack(0x12, body);
    ReadsBack(|p|, p);
    assert body[|Put(|p|)|..] == p + [];
    PackedReadsBack(list, []);
    FieldEnd(0x12, body, |body|, []);
    assert ParseWay([], w.(refs := w.refs + list)) == Some(w.(refs := w.refs + list));
  }

  /** Every string and every packed run is short enough for a Go slice. */
  predicate Storable(w: Way)
  {
    (forall s <- w.tags :: |s| < TWO63) && |Packed(w.refs)| < TWO63
  }

  lemma {:induction false} PackedLength(list: seq<int64>)
    ensures |Packed(list)| <= MAX_LEN * |list|
  {
    if list != [] {
      PackedLength(list[1..]);
      ReadsBack(ToU64(list[0]), []);
    }
  }

  lemma WayReadsBack(w: Way)
    requires Storable(w)
    ensures ParseWay(EncodeWay(w), Way([], [])) == Some(w)
  {
    hide ParseWay, StringFields, StringField, Packed;
    var tail := if w.refs == [] then [] else StringField(0x12, Packed(w.refs));
    WayTags(w.tags, tail, Way([], []));
    assert [] + w.tags == w.tags && [] + w.refs == w.refs;
    if w.refs == [] {
      ParseNothing(Way(w.tags, []));
    } else {
      WayRefs(w.refs, Way(w.tags, []));
    }
  }

  lemma ParseNothing(w: Way)
    ensures ParseWay([], w) == Some(w)
  {
  }

  lemma RelationString(key: byte, text: bytes, rest: bytes, m: Relation)
    requires key in [0x0a, 0x22] && |text| < TWO63
    ensures ParseRelation(StringField(key, text) + rest, m) == ParseRelation(rest,
              if key == 0x0a then m.(tags := m.tags + [text]) else m.(roles := m.roles + [text]))
  {
    hide Put, ReadPb, ReadHead, ReadString, ReadNumbers, Skip;
    var body := Put(|text|) + text + rest;
    assert StringField(key, text) + rest == [key] + body;
    HeadReadsBack(key, body);
    StringReadsBack(text, rest);
    FieldEnd(key, body, |Put(|text|)| + |text|, rest);
  }

  lemma {:induction false} RelationStrings(key: byte, list: seq<bytes>, rest: bytes, m: Relation)
    requires key in [0x0a, 0x22] && forall s <- list :: |s| < TWO63
    ensures ParseRelation(StringFields(key, list) + rest, m) == ParseRelation(rest,
              if key == 0x0a then m.(tags := m.tags + list) else m.(roles := m.roles + list))
  {
    hide ParseRelation, StringField;
    if list == [] {
      assert StringFields(key, list) + rest == rest;
      assert m.tags + list == m.tags && m.roles + list == m.roles;
    } else {
      var tail := StringFields(key, list[1..]);
      assert StringFields(key, list) + rest == StringField(key, list[0]) + (tail + rest);
      RelationString(key, list[0], tail + rest, m);
      RelationStrings(key, list[1..], rest,
        if key == 0x0a then m.(tags := m.tags + [list[0]]) else m.(roles := m.roles + [list[0]]));
      assert m.tags + [list[0]] + list[1..] == m.tags + list;
      assert m.roles + [list[0]] + list[1..] == m.roles + list;
    }
  }

  lemma RelationId(x: int64, rest: bytes, m: Relation)
    ensures ParseRelation([0x10] + (Put(ToU64(x)) + rest), m) == ParseRelation(rest, m.(ids := m.ids + [x]))
  {
    hide Put, ReadPb, ReadHead, ReadString, ReadPacked, Skip;
    var body := Put(ToU64(x)) + rest;
    HeadReadsBack(0x10, body);
    ReadsBack(ToU64(x), rest);
    assert Signed([ToU64(x)]) == [x];
    FieldEnd(0x10, body, |Put(ToU64(x))|, rest);
  }

  lemma {:induction false} RelationIds(list: seq<int64>, rest: bytes, m: Relation)
    ensures ParseRelation(NumberFields(0x10, list) + rest, m) == ParseRelation(rest, m.(ids := m.ids + list))
  {
    hide ParseRelation, Put;
    if list == [] {
      assert NumberFields(0x10, list) + rest == rest;
      assert m.ids + list == m.ids;
    } else {
      var head, tail := Put(ToU64(list[0])), NumberFields(0x10, list[1..]);
      assert NumberFields(0x10, list) + rest == [0x10] + (head + (tail + rest));
      RelationId(list[0], tail + rest, m);
      RelationIds(list[1..], rest, m.(ids := m.ids + [list[0]]));
      assert m.ids + [list[0]] + list[1..] == m.ids + list;
    }
  }

  lemma RelationType(x: int32, rest: bytes, m: Relation)
    ensures ParseRelation([0x18] + (Put(ToU64(x)) + rest), m) == ParseRelation(rest, m.(types := m.types + [x]))
  {
    hide Put, ReadPb, ReadHead, ReadString, ReadPacked, Skip;
    var body := Put(ToU64(x)) + rest;
    HeadReadsBack(0x18, body);
    ReadsBack(ToU64(x), rest);
    assert Signed32([ToU64(x)]) == [x];
    FieldEnd(0x18, body, |Put(ToU64(x))|, rest);
  }

  lemma {:induction false} RelationTypes(list: seq<int32>, rest: bytes, m: Relation)
    ensures ParseRelation(NumberFields(0x18, list) + rest, m) == ParseRelation(rest, m.(types := m.types + list))
  {
    hide ParseRelation, Put;
    if list == [] {
      assert NumberFields(0x18, list) + rest == rest;
      assert m.types + list == m.types;
    } else {
      var head, tail := Put(ToU64(list[0])), NumberFields(0x18, list[1..]);
      assert NumberFields(0x18, list) + rest == [0x18] + (head + (tail + rest));
      RelationType(list[0], tail + rest, m);
      RelationTypes(list[1..], rest, m.(types := m.types + [list[0]]));
      assert m.types + [list[0]] + list[1..] == m.types + list;
    }
  }

  lemma RelationReadsBack(m: Relation)
    requires forall s <- m.tags + m.roles :: |s| < TWO63
    ensures ParseRelation(EncodeRelation(m), Relation([], [], [], [])) == Some(m)
  {
    hide ParseRelation, StringFields, NumberFields;
    var d := StringFields(0x22, m.roles);
    var c := NumberFields(0x18, m.types) + d;
    var b := NumberFields(0x10, m.ids) + c;
    assert forall s <- m.tags :: s in m.tags + m.roles;
    assert forall s <- m.roles :: s in m.tags + m.roles;
    assert [] + m.tags == m.tags && [] + m.ids == m.ids && [] + m.types == m.types && [] + m.roles == m.roles;
    RelationStrings(0x0a, m.tags, b, Relation([], [], [], []));
    RelationIds(m.ids, c, Relation(m.tags, [], [], []));
    RelationTypes(m.types, d, Relation(m.tags, m.ids, [], []));
    assert d == d + [];
    RelationStrings(0x22, m.roles, [], Relation(m.tags, m.ids, m.types, []));
    ParseNothingMore(m);
  }

  lemma ParseNothingMore(m: Relation)
    ensures ParseRelation([], m) == Some(m)
  {
  }

  // Fields that the program does not know

  /** The value of a field, for each wire type; a group holds further fields. */
  datatype Value =
    | Number(value: uint64)
    | Eight(payload: bytes)
    | Text(payload: bytes)
    | Group(fields: seq<Field>)
    | Four(payload: bytes)

  datatype Field = Field(number: nat, value: Value)

  predicate GoodField(f: Field)
  {
    1 <= f.number < 0x2000_0000 && match f.value
      case Number(_) => true
      case Eight(payload) => |payload| == 8
      case Text(payload) => |payload| < TWO63
      case Group(fields) => forall g <- fields :: GoodField(g)
      case Four(payload) => |payload| == 4
  }

  function FieldBytes(f: Field): (r: bytes)
  {
    match f.value
    case Number(v) => Put(8 * f.number) + Put(v)
    case Eight(payload) => Put(8 * f.number + 1) + payload
    case Text(payload) => Put(8 * f.number + 2) + (Put(|payload|) + payload)
    case Group(fields) => Put(8 * f.number + 3) + (FieldsBytes(fields) + Put(8 * f.number + 4))
    case Four(payload) => Put(8 * f.number + 5) + payload
  }

  function FieldsBytes(fields: seq<Field>): (r: bytes)
  {
    if fields == [] then [] else FieldBytes(fields[0]) + FieldsBytes(fields[1..])
  }

  lemma WireReadsBack(number: nat, wireType: nat, rest: bytes)
    requires 1 <= number < 0x2000_0000 && wireType < 8
    ensures var wire := 8 * number + wireType;
      && ReadPb(Put(wire) + rest) == Got(wire, |Put(wire)|) && (Put(wire) + rest)[|Put(wire)|..] == rest
      && wire % 8 == wireType && wire / 8 == number
  {
    var wire: uint64 := 8 * number + wireType;
    ReadsBack(wire, rest);
  }

  lemma SkipsNumber(number: nat, v: uint64, rest: bytes)
    requires 1 <= number < 0x2000_0000
    ensures Skip(Put(8 * number) + Put(v) + rest) == Some(|Put(8 * number) + Put(v)|)
  {
    hide Put, ReadPb, SkipGroup;
    assert Put(8 * number) + Put(v) + rest == Put(8 * number) + (Put(v) + rest);
    WireReadsBack(number, 0, Put(v) + rest);
    ReadsBack(v, rest);
  }

  lemma SkipsFixed(number: nat, wireType: nat, payload: bytes, rest: bytes)
    requires 1 <= number < 0x2000_0000
    requires (wireType == 1 && |payload| == 8) || (wireType == 5 && |payload| == 4)
    ensures Skip(Put(8 * number + wireType) + payload + rest) == Some(|Put(8 * number + wireType) + payload|)
  {
    hide Put, ReadPb, SkipGroup;
    var head := Put(8 * number + wireType);
    assert head + payload + rest == head + (payload + rest);
    WireReadsBack(number, wireType, payload + rest);
  }

  lemma SkipsText(number: nat, payload: bytes, rest: bytes)
    requires 1 <= number < 0x2000_0000 && |payload| < TWO63
    ensures var body := Put(|payload|) + payload;
      Skip(Put(8 * number + 2) + body + rest) == Some(|Put(8 * number + 2) + body|)
  {
    hide Put, ReadPb, SkipGroup;
    var head, body := Put(8 * number + 2), Put(|payload|) + payload;
    assert head + body + rest == head + (Put(|payload|) + (payload + rest));
    WireReadsBack(number, 2, Put(|payload|) + (payload + rest));
    ReadsBack(|payload|, payload + rest);
  }

  lemma SkipsWhole(number: nat, inside: bytes, rest: bytes)
    requires 1 <= number < 0x2000_0000
    requires SkipGroup(inside + (Put(8 * number + 4) + rest)) == Some(|inside| + |Put(8 * number + 4)|)
    ensures var body := inside + Put(8 * number + 4);
      Skip(Put(8 * number + 3) + body + rest) == Some(|Put(8 * number + 3) + body|)
  {
    hide Put, ReadPb, SkipGroup;
    var head, end := Put(8 * number + 3), Put(8 * number + 4);
    assert head + (inside + end) + rest == head + (inside + (end + rest));
    WireReadsBack(number, 3, inside + (end + rest));
  }

  lemma {:induction false} SkipsField(f: Field, rest: bytes)
    requires GoodField(f)
    ensures Skip(FieldBytes(f) + rest) == Some(|FieldBytes(f)|)
    decreases f, 0
  {
    hide Put, ReadPb, Skip, SkipGroup, FieldsBytes;
    match f.value {
      case Number(v) => SkipsNumber(f.number, v, rest);
      case Eight(payload) => SkipsFixed(f.number, 1, payload, rest);
      case Text(payload) => SkipsText(f.number, payload, rest);
      case Group(fields) =>
        SkipsGroup(fields, f.number, rest);
        SkipsWhole(f.number, FieldsBytes(fields), rest);
      case Four(payload) => SkipsFixed(f.number, 5, payload, rest);
    }
  }

  lemma {:induction false} SkipsGroup(fields: seq<Field>, number: nat, rest: bytes)
    requires 1 <= number < 0x2000_0000 && forall g <- fields :: GoodField(g)
    ensures SkipGroup(FieldsBytes(fields) + (Put(8 * number + 4) + rest)) ==
      Some(|FieldsBytes(fields)| + |Put(8 * number + 4)|)
    decreases fields, 1
  {
    hide Put, ReadPb, Skip, FieldBytes;
    var end := Put(8 * number + 4) + rest;
    WireReadsBack(number, 4, rest);
    if fields == [] {
      assert [] + end == end;
    } else {
      var head, tail := FieldBytes(fields[0]), FieldsBytes(fields[1..]) + end;
      assert FieldsBytes(fields) + end == head + tail;
      assert (head + tail)[|head|..] == tail;
      SkipsField(fields[0], tail);
      StartsOpen(fields[0], tail);
      SkipsGroup(fields[1..], number, rest);
    }
  }

  /** A field does not begin like the end of a group. */
  lemma StartsOpen(f: Field, rest: bytes)
    requires GoodField(f)
    ensures var r := ReadPb(FieldBytes(f) + rest); r.Got? && r.value % 8 != 4 && r.value / 8 == f.number
  {
    hide Put, ReadPb;
    match f.value {
      case Number(v) =>
        assert FieldBytes(f) + rest == Put(8 * f.number) + (Put(v) + rest);
        WireReadsBack(f.number, 0, Put(v) + rest);
      case Eight(payload) =>
        assert FieldBytes(f) + rest == Put(8 * f.number + 1) + (payload + rest);
        WireReadsBack(f.number, 1, payload + rest);
      case Text(payload) =>
        assert FieldBytes(f) + rest == Put(8 * f.number + 2) + (Put(|payload|) + payload + rest);
        WireReadsBack(f.number, 2, Put(|payload|) + payload + rest);
      case Group(fields) =>
        var more := FieldsBytes(fields) + Put(8 * f.number + 4) + rest;
        assert FieldBytes(f) + rest == Put(8 * f.number + 3) + more;
        WireReadsBack(f.number, 3, more);
      case Four(payload) =>
        assert FieldBytes(f) + rest == Put(8 * f.number + 5) + (payload + rest);
        WireReadsBack(f.number, 5, payload + rest);
    }
  }

  /** Fields with other numbers than those of a way are read over, groups with all that is in them included. */
  lemma UnknownInWay(f: Field, rest: bytes, w: Way)
    requires GoodField(f) && f.number > 2
    ensures ParseWay(FieldBytes(f) + rest, w) == ParseWay(rest, w)
  {
    hide Put, ReadPb, Skip, FieldBytes, ReadString, ReadNumbers;
    var s, n := FieldBytes(f) + rest, |FieldBytes(f)|;
    SkipsField(f, rest);
    StartsOpen(f, rest);
    assert s[n..] == rest;
    assert WayField(s, w) == Some((w, n));
  }

  lemma UnknownInRelation(f: Field, rest: bytes, m: Relation)
    requires GoodField(f) && f.number > 4
    ensures ParseRelation(FieldBytes(f) + rest, m) == ParseRelation(rest, m)
  {
    hide Put, ReadPb, Skip, FieldBytes, ReadString, ReadNumbers;
    var s, n := FieldBytes(f) + rest, |FieldBytes(f)|;
    SkipsField(f, rest);
    StartsOpen(f, rest);
    assert s[n..] == rest;
    assert RelationField(s, m) == Some((m, n));
  }
}
