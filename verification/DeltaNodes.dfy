/** The format of a bunch of nodes in the coordinate cache: a count, then the ids, the longitudes
    and the latitudes, each as a run of deltas. Coordinates are stored as 32-bit fractions of 360
    degrees; `real` stands for float64. */
module DeltaNodes {
  import opened GoInts
  import opened Varint
  import opened DeltaCodec

  datatype Node = Node(id: int64, long: real, lat: real)

  const COORD_FACTOR := 11930464.7083

  predicate InRange(c: real)
  {
    -180.0 <= c <= 180.0
  }

  /** Go leaves the conversion of a float outside the range of uint32 to the implementation. Here the number is cut
      off toward zero and taken modulo 2^32, as with a conversion by way of an int64 that it fits. */
  function CoordToInt(c: real): (r: uint32)
  {
    var x := (c + 180.0) * COORD_FACTOR;
    (if x >= 0.0 then x.Floor else -((-x).Floor)) % TWO32
  }

  function IntToCoord(n: uint32): (r: real)
    ensures -180.0 <= r
  {
    n as real / COORD_FACTOR - 180.0
  }

  /** A coordinate comes back at most one quantum smaller, which is less than 10^-7 degrees, and never larger. */
  lemma CoordRecovered(c: real)
    requires -180.0 <= c <= 180.0
    ensures c - 1.0 / COORD_FACTOR < IntToCoord(CoordToInt(c)) <= c
    ensures c - 0.0000001 < IntToCoord(CoordToInt(c)) <= c
  {
    var x := (c + 180.0) * COORD_FACTOR;
    var n := x.Floor as real;
    assert x - 1.0 < n <= x;
    DivideThrough(x - 1.0, n);
    assert n / COORD_FACTOR <= x / COORD_FACTOR;
    assert x / COORD_FACTOR == c + 180.0;
  }

  /** The range of a coordinate takes all 32 bits but for one number. */
  lemma CoordEnds()
    ensures CoordToInt(-180.0) == 0 && CoordToInt(180.0) == 4294967294
    ensures forall c: real :: -180.0 <= c <= 180.0 ==> 0 <= CoordToInt(c) <= 4294967294
  {
    forall c: real | -180.0 <= c <= 180.0 ensures 0 <= CoordToInt(c) <= 4294967294 {
      var x := (c + 180.0) * COORD_FACTOR;
      assert 0.0 <= x <= 360.0 * COORD_FACTOR;
    }
  }

  /** Coordinates that are stored as the same number are less than 10^-7 degrees apart. */
  lemma StoredAlike(c: real, d: real)
    requires -180.0 <= c <= 180.0 && -180.0 <= d <= 180.0 && CoordToInt(c) == CoordToInt(d)
    ensures -0.0000001 < c - d < 0.0000001
  {
    hide CoordToInt, IntToCoord;
    CoordRecovered(c);
    CoordRecovered(d);
  }

  lemma DivideThrough(a: real, b: real)
    requires a < b
    ensures a / COORD_FACTOR < b / COORD_FACTOR
  {
  }

  /** The stored number is a fixed point: reading and storing again never drifts, not even for a coordinate that
      was out of range and has been wrapped. */
  lemma RequantisesExactly(c: real)
    ensures CoordToInt(IntToCoord(CoordToInt(c))) == CoordToInt(c)
    ensures InRange(c) ==> InRange(IntToCoord(CoordToInt(c)))
  {
    var n := CoordToInt(c) as real;
    assert (n / COORD_FACTOR - 180.0 + 180.0) * COORD_FACTOR == n;
    if InRange(c) { CoordRecovered(c); }
  }

  /** What a node looks like after one trip through the cache. */
  function Quantise(node: Node): (r: Node)
  {
    Node(node.id, IntToCoord(CoordToInt(node.long)), IntToCoord(CoordToInt(node.lat)))
  }

  function Ids(nodes: seq<Node>): (r: seq<int64>)
    ensures |r| == |nodes|
  {
    seq(|nodes|, i requires 0 <= i < |nodes| => nodes[i].id)
  }

  function Longs(nodes: seq<Node>): (r: seq<uint32>)
    ensures |r| == |nodes|
  {
    seq(|nodes|, i requires 0 <= i < |nodes| => CoordToInt(nodes[i].long))
  }

  function Lats(nodes: seq<Node>): (r: seq<uint32>)
    ensures |r| == |nodes|
  {
    seq(|nodes|, i requires 0 <= i < |nodes| => CoordToInt(nodes[i].lat))
  }

  function Encode(nodes: seq<Node>): (r: bytes)
  {
    Put(|nodes|) + (PutDeltas(Ids(nodes), 0) + (PutDeltas(Longs(nodes), 0) + PutDeltas(Lats(nodes), 0)))
  }

  /** Two nodes in one corner of the map: the ids, the longitudes and the latitudes each start again from zero. */
  lemma NodeBytes()
    ensures Encode([Node(1, -180.0, 180.0), Node(3, -180.0, 180.0)]) == [2, 2, 4, 0, 0, 252, 255, 255, 255, 31, 0]
  {
    var nodes := [Node(1, -180.0, 180.0), Node(3, -180.0, 180.0)];
    CoordEnds();
    assert Ids(nodes) == [1, 3] && Longs(nodes) == [0, 0] && Lats(nodes) == [4294967294, 4294967294];
    DeltasOf(1, 3);
    DeltasOf(0, 0);
    DeltasOf(4294967294, 4294967294);
    FiveGroups();
  }

  lemma FiveGroups()
    ensures PutSigned(4294967294) == [252, 255, 255, 255, 31]
  {
    assert Put(31) == [31];
    assert Put(4095) == [255] + Put(31);
    assert Put(524287) == [255] + Put(4095);
    assert Put(67108863) == [255] + Put(524287);
    assert Put(8589934588) == [252] + Put(67108863);
  }

  /** `uint32(x)`. */
  function ToU32(x: int64): (r: uint32)
  {
    x % TWO32
  }

  function Assemble(ids: seq<int64>, longs: seq<int64>, lats: seq<int64>): (r: seq<Node>)
    requires |ids| == |longs| == |lats|
  {
    seq(|ids|, i requires 0 <= i < |ids| => Node(ids[i], IntToCoord(ToU32(longs[i])), IntToCoord(ToU32(lats[i]))))
  }

  /** `UnmarshalDeltaNodes`; `None` is `errVarInt`. */
  function Decode(buf: bytes): (r: Option<seq<Node>>)
  {
    match ReadUnsigned(buf)
    case Got(length, n) =>
      (match ReadDeltas(buf[n..], length, 0)
       case Some(Values(ids, n1)) =>
         var buf1 := buf[n..][n1..];
         (match ReadDeltas(buf1, length, 0)
          case Some(Values(longs, n2)) =>
            (match ReadDeltas(buf1[n2..], length, 0)
             case Some(Values(lats, _)) => Some(Assemble(ids, longs, lats))
             case None => None)
          case None => None)
       case None => None)
    case _ => None
  }

  function QuantiseAll(nodes: seq<Node>): (r: seq<Node>)
  {
    seq(|nodes|, i requires 0 <= i < |nodes| => Quantise(nodes[i]))
  }

  /** The node is the other one, as far as seven decimals tell. */
  predicate Near(node: Node, original: Node)
  {
    && node.id == original.id
    && original.long - 0.0000001 < node.long <= original.long
    && original.lat - 0.0000001 < node.lat <= original.lat
  }

  predicate OnEarth(node: Node)
  {
    -180.0 <= node.long <= 180.0 && -180.0 <= node.lat <= 180.0
  }

  /** The nodes are the others, one by one. */
  predicate AllNear(nodes: seq<Node>, originals: seq<Node>)
  {
    |nodes| == |originals| && forall i :: 0 <= i < |nodes| ==> Near(nodes[i], originals[i])
  }

  lemma QuantiseIsNear(node: Node)
    requires OnEarth(node)
    ensures Near(Quantise(node), node)
  {
    hide CoordToInt, IntToCoord;
    CoordRecovered(node.long);
    CoordRecovered(node.lat);
  }

  lemma DecodeRuns(ids: seq<int64>, longs: seq<int64>, lats: seq<int64>)
    requires |ids| == |longs| == |lats| < TWO64
    ensures Decode(Put(|ids|) + (PutDeltas(ids, 0) + (PutDeltas(longs, 0) + PutDeltas(lats, 0))))
         == Some(Assemble(ids, longs, lats))
  {
    hide ReadUnsigned, PutDeltas, ReadDeltas, Put, Assemble;
    var a, b, c, d := Put(|ids|), PutDeltas(ids, 0), PutDeltas(longs, 0), PutDeltas(lats, 0);
    ReadsBack(|ids|, b + (c + d));
    assert (a + (b + (c + d)))[|a|..] == b + (c + d);
    DeltasReadBack(ids, 0, c + d);
    assert (b + (c + d))[|b|..] == c + d;
    DeltasReadBack(longs, 0, d);
    assert (c + d)[|c|..] == d + [];
    DeltasReadBack(lats, 0, []);
  }

  /** Decoding what was encoded gives the same ids and the same quantised coordinates. */
  lemma DecodeEncode(nodes: seq<Node>)
    requires |nodes| < TWO64
    ensures Decode(Encode(nodes)) == Some(QuantiseAll(nodes))
  {
    assert Assemble(Ids(nodes), Longs(nodes), Lats(nodes)) == QuantiseAll(nodes);
    hide Decode;
    DecodeRuns(Ids(nodes), Longs(nodes), Lats(nodes));
  }

  /** The bytes are those of the nodes, none of them 10^-7 degrees off. */
  predicate ReadsAs(data: bytes, nodes: seq<Node>)
  {
    Decode(data).Some? && AllNear(Decode(data).value, nodes)
  }

  predicate Storable(nodes: seq<Node>)
  {
    |nodes| < TWO64 && forall n <- nodes :: OnEarth(n)
  }

  /** Whatever is decoded has been quantised already. */
  lemma DecodedIsQuantised(data: bytes, n: Node)
    requires Decode(data).Some? && n in Decode(data).value
    ensures Quantise(n) == n
  {
    hide ReadUnsigned, ReadDeltas;
    forall u: uint32 ensures IntToCoord(CoordToInt(IntToCoord(u))) == IntToCoord(u) { IntComesBack(u); }
    hide CoordToInt, IntToCoord;
  }

  lemma IntComesBack(u: uint32)
    ensures CoordToInt(IntToCoord(u)) == u
  {
    var x := u as real;
    assert (x / COORD_FACTOR - 180.0 + 180.0) * COORD_FACTOR == x;
  }

  lemma EncodedReadsAs(nodes: seq<Node>)
    requires Storable(nodes)
    ensures ReadsAs(Encode(nodes), nodes)
  {
    hide Encode, Decode, Quantise, OnEarth;
    DecodeEncode(nodes);
    forall i | 0 <= i < |nodes| ensures Near(QuantiseAll(nodes)[i], nodes[i]) { QuantiseIsNear(nodes[i]); }
  }

  lemma AllReadAs(buf: bytes)
    ensures forall nodes: seq<Node> :: Storable(nodes) && buf == Encode(nodes) ==> ReadsAs(buf, nodes)
  {
    hide *;
    forall nodes: seq<Node> | Storable(nodes) && buf == Encode(nodes) ensures ReadsAs(buf, nodes) {
      EncodedReadsAs(nodes);
    }
  }

  /** `MarshalDeltaNodes`: the bytes do not depend on the scratch buffer. */
  method MarshalDeltaNodes(nodes: seq<Node>, scratch: array<byte>) returns (data: bytes)
    requires |nodes| < TWO64
    modifies scratch
    ensures data == Encode(nodes)
    ensures Storable(nodes) ==> ReadsAs(data, nodes)
  {
    hide ReadsAs, Storable;
    if Storable(nodes) { EncodedReadsAs(nodes); }
    var estimated := |nodes| * 4 * 3 + MAX_LEN;
    var buf, len := scratch, scratch.Length - 1;
    if scratch.Length < estimated {
      buf := new byte[estimated];
      len := estimated;
    }
    ReadsBack(|nodes|, []);
    assert |nodes| == 0 ==> |Put(|nodes|)| == 1;
    hide Put, PutDeltas, Ids, Longs, Lats;
    var pos := PutInto(buf, 0, |nodes|);
    assert buf[..pos] == Put(|nodes|);
    buf, len, pos := AppendDeltas(Ids(nodes), 0, buf, len, pos, ByHalf);
    buf, len, pos := AppendDeltas(Longs(nodes), 0, buf, len, pos, ByHalf);
    buf, len, pos := AppendDeltas(Lats(nodes), 0, buf, len, pos, ByHalf);
    data := buf[..pos];
    Reassociate(Put(|nodes|), PutDeltas(Ids(nodes), 0), PutDeltas(Longs(nodes), 0), PutDeltas(Lats(nodes), 0));
  }

  /** `UnmarshalDeltaNodes`, offset by offset. */
  method UnmarshalDeltaNodes(buf: bytes) returns (r: Option<seq<Node>>)
    ensures r == Decode(buf)
    ensures forall nodes: seq<Node> :: Storable(nodes) && buf == Encode(nodes) ==> r.Some? && AllNear(r.value, nodes)
  {
    r := UnmarshalNodes(buf);
    AllReadAs(buf);
    hide Decode, Encode, Storable, AllNear;
  }

  method UnmarshalNodes(buf: bytes) returns (r: Option<seq<Node>>)
    ensures r == Decode(buf)
  {
    hide ReadUnsigned, ReadDeltas, Assemble;
    var head := ReadUnsigned(buf);
    if !head.Got? { return None; }
    var offset := head.n;
    var ids := ReadDeltasFrom(buf, offset, head.value);
    if ids.None? { return None; }
    assert buf[offset..][ids.value.n..] == buf[offset + ids.value.n..];
    offset := offset + ids.value.n;
    var longs := ReadDeltasFrom(buf, offset, head.value);
    if longs.None? { return None; }
    assert buf[offset..][longs.value.n..] == buf[offset + longs.value.n..];
    offset := offset + longs.value.n;
    var lats := ReadDeltasFrom(buf, offset, head.value);
    if lats.None? { return None; }
    r := Some(Assemble(ids.value.list, longs.value.list, lats.value.list));
  }
}
