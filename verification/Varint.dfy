/** Base 128 varints: seven payload bits a byte, least significant group first,
    the top bit set on every byte but the last. Two readers exist in the program:
    the one of `encoding/binary`, which rejects a value over 64 bits, and the one
    inlined in the generated protobuf code, which drops the excess bits. */
module Varint {
  import opened GoInts

  const MAX_LEN := 10 // binary.MaxVarintLen64

  function Put(x: nat): (r: bytes)
    ensures |r| >= 1
  {
    if x < 128 then [x] else [x % 128 + 128] + Put(x / 128)
  }

  /** What `PutVarint` does to a signed number before writing it. */
  function ZigZag(x: int64): (r: uint64)
  {
    if x >= 0 then 2 * x else -2 * x - 1
  }

  function UnZigZag(u: uint64): (r: int64)
    ensures ZigZag(r) == u
  {
    if u % 2 == 0 then u / 2 else -(u / 2) - 1
  }

  function PutSigned(x: int64): (r: bytes)
  {
    Put(ZigZag(x))
  }

  /** The number that groups of seven bits stand for, the least significant first. */
  function Groups(s: bytes): (r: nat)
  {
    if s == [] then 0 else s[0] % 128 + 128 * Groups(s[1..])
  }

  /** A varint is the shortest run of groups for its number, with the top bit on all bytes but the last. */
  lemma {:induction false} PutIs(x: nat)
    ensures Groups(Put(x)) == x
    ensures forall i :: 0 <= i < |Put(x)| ==> (Put(x)[i] >= 128 <==> i < |Put(x)| - 1)
    ensures |Put(x)| > 1 ==> Put(x)[|Put(x)| - 1] != 0
  {
    if x >= 128 {
      PutIs(x / 128);
      assert Put(x)[1..] == Put(x / 128);
    }
  }

  /** A signed number takes one byte exactly if it is one of the 128 around zero. */
  lemma SmallIsShort(x: int64)
    ensures |PutSigned(x)| == 1 <==> -64 <= x < 64
    ensures x >= 0 ==> PutSigned(x)[0] % 2 == 0
    ensures x < 0 ==> PutSigned(x)[0] % 2 == 1
  {
  }

  /** The exclusive bound on what is left of a 64-bit number after `d` groups. */
  function Limit(d: nat): (r: nat)
    requires d <= 9
    decreases 9 - d
  {
    if d == 9 then 2 else 128 * Limit(d + 1)
  }

  lemma LimitAtZero()
    ensures Limit(0) == TWO64
  {
    assert Limit(6) == 128 * 128 * 128 * 2;
    assert Limit(3) == 128 * 128 * 128 * Limit(6);
  }

  lemma {:induction false} LimitLarge(d: nat)
    requires d < 9
    ensures Limit(d) >= 256
    decreases 9 - d
  {
    if d < 8 { LimitLarge(d + 1); }
  }

  datatype Read<+T> = Got(value: T, n: nat) | Short | Overflow

  /** `binary.Uvarint`, at byte number `d` of the varint. */
  function ReadAt(s: bytes, d: nat): (r: Read<nat>)
    ensures r.Got? ==> 1 <= r.n <= |s| && d <= 9 && r.value < Limit(d)
    decreases |s|
  {
    if |s| == 0 then Short
    else if d > 9 || (d == 9 && 1 < s[0] < 128) then Overflow
    else if s[0] < 128 then
      assert s[0] < Limit(d) by { if d < 9 { LimitLarge(d); } }
      Got(s[0], 1)
    else match ReadAt(s[1..], d + 1)
      case Got(v, n) => Got(s[0] - 128 + 128 * v, n + 1)
      case e => e
  }

  /** `binary.Uvarint` and `binary.Varint`; every outcome but `Got` is an `n <= 0`. */
  function ReadUnsigned(s: bytes): (r: Read<uint64>)
    ensures r.Got? ==> 1 <= r.n <= |s|
  {
    LimitAtZero();
    match ReadAt(s, 0)
    case Got(v, n) => Got(v, n)
    case Short => Short
    case Overflow => Overflow
  }

  function ReadSigned(s: bytes): (r: Read<int64>)
    ensures r.Got? ==> 1 <= r.n <= |s|
  {
    match ReadUnsigned(s)
    case Got(v, n) => Got(UnZigZag(v), n)
    case Short => Short
    case Overflow => Overflow
  }

  /** The reading loop of the generated protobuf code, at byte number `d`
      (`shift == 7 * d`): the tenth byte contributes its lowest bit only. */
  function ReadPbAt(s: bytes, d: nat): (r: Read<nat>)
    ensures r.Got? ==> 1 <= r.n <= |s| && d <= 9 && r.value < Limit(d)
    decreases |s|
  {
    if d > 9 then Overflow
    else if |s| == 0 then Short
    else if s[0] < 128 then
      assert d < 9 ==> s[0] < Limit(d) by { if d < 9 { LimitLarge(d); } }
      Got(if d == 9 then s[0] % 2 else s[0], 1)
    else match ReadPbAt(s[1..], d + 1)
      case Got(v, n) => Got(s[0] - 128 + 128 * v, n + 1)
      case e => e
  }

  function ReadPb(s: bytes): (r: Read<uint64>)
    ensures r.Got? ==> 1 <= r.n <= |s|
  {
    LimitAtZero();
    match ReadPbAt(s, 0)
    case Got(v, n) => Got(v, n)
    case Short => Short
    case Overflow => Overflow
  }

  lemma {:induction false} PutReadAt(x: nat, rest: bytes, d: nat)
    requires d <= 9 && x < Limit(d)
    ensures |Put(x)| <= MAX_LEN - d
    ensures ReadAt(Put(x) + rest, d) == Got(x, |Put(x)|)
    ensures ReadPbAt(Put(x) + rest, d) == Got(x, |Put(x)|)
    decreases x
  {
    if x >= 128 {
      PutReadAt(x / 128, rest, d + 1);
      assert (Put(x) + rest)[1..] == Put(x / 128) + rest;
    }
  }

  /** Both readers recover any 64-bit number from its varint and stop right after it. */
  lemma ReadsBack(x: uint64, rest: bytes)
    ensures 1 <= |Put(x)| <= MAX_LEN
    ensures ReadUnsigned(Put(x) + rest) == Got(x, |Put(x)|)
    ensures ReadPb(Put(x) + rest) == Got(x, |Put(x)|)
  {
    LimitAtZero();
    PutReadAt(x, rest, 0);
  }

  /** Both readers find the same number, or neither finds one. */
  predicate Agree(a: Read<nat>, b: Read<nat>)
  {
    a == b || (!a.Got? && !b.Got?)
  }

  /** From byte number `d` on, the tenth byte is the last one and has more than the one bit that fits. */
  predicate Excess(s: bytes, d: nat)
  {
    && d <= 9 && |s| > 9 - d
    && (forall i :: 0 <= i < 9 - d ==> s[i] >= 128)
    && 2 <= s[9 - d] < 128
  }

  lemma {:induction false} AgreeAt(s: bytes, d: nat)
    ensures Agree(ReadAt(s, d), ReadPbAt(s, d)) <==> !Excess(s, d)
    ensures Excess(s, d) ==> ReadAt(s, d) == Overflow && ReadPbAt(s, d).Got?
    decreases |s|
  {
    if |s| > 0 && d < 9 && s[0] >= 128 {
      hide Excess;
      ExcessStep(s, d);
      AgreeAt(s[1..], d + 1);
    } else if |s| > 0 && d == 9 && s[0] >= 128 {
      TooLong(s[1..]);
    }
  }

  lemma ExcessStep(s: bytes, d: nat)
    requires |s| > 0 && d < 9 && s[0] >= 128
    ensures Excess(s, d) <==> Excess(s[1..], d + 1)
  {
    assert forall i :: 0 < i < |s| ==> s[1..][i - 1] == s[i];
    assert forall i :: 0 <= i < |s| - 1 ==> s[1..][i] == s[i + 1];
  }

  lemma TooLong(s: bytes)
    ensures !ReadAt(s, 10).Got? && !ReadPbAt(s, 10).Got?
  {
  }

  /** The two readers differ on exactly the inputs whose tenth byte ends the varint and has excess bits: the library
      rejects them, the protobuf code drops the bits. */
  lemma ReadersAgree(s: bytes)
    ensures Agree(ReadUnsigned(s), ReadPb(s)) <==> !Excess(s, 0)
    ensures Excess(s, 0) ==> ReadUnsigned(s) == Overflow && ReadPb(s).Got?
  {
    AgreeAt(s, 0);
  }

  lemma ReadersDiffer()
    ensures var s: bytes := [128, 128, 128, 128, 128, 128, 128, 128, 128, 2];
      ReadUnsigned(s) == Overflow && ReadPb(s) == Got(0, 10)
  {
    var s: bytes := [128, 128, 128, 128, 128, 128, 128, 128, 128, 2];
    ReadersAgree(s);
    Zeros(s, 0);
  }

  lemma {:induction false} Zeros(s: bytes, d: nat)
    requires d <= 9 && |s| == 10 - d && s[9 - d] == 2 && forall i :: 0 <= i < 9 - d ==> s[i] == 128
    ensures ReadPbAt(s, d) == Got(0, 10 - d)
    decreases |s|
  {
    if d < 9 { Zeros(s[1..], d + 1); }
  }

  lemma ReadsBackSigned(x: int64, rest: bytes)
    ensures 1 <= |PutSigned(x)| <= MAX_LEN
    ensures ReadSigned(PutSigned(x) + rest) == Got(x, |PutSigned(x)|)
  {
    ReadsBack(ZigZag(x), rest);
  }

  /** `binary.PutUvarint(buf[pos:], x)` and `encodeVarintMessages(buf, pos, x)`. */
  method PutInto(buf: array<byte>, pos: nat, x: nat) returns (next: nat)
    requires pos + |Put(x)| <= buf.Length
    modifies buf
    ensures next == pos + |Put(x)|
    ensures buf[..next] == old(buf[..pos]) + Put(x)
    ensures forall i :: next <= i < buf.Length ==> buf[i] == old(buf[i])
  {
    var v := x;
    next := pos;
    while v >= 128
      invariant pos <= next && next + |Put(v)| == pos + |Put(x)|
      invariant buf[..next] + Put(v) == old(buf[..pos]) + Put(x)
      invariant forall i :: next <= i < buf.Length ==> buf[i] == old(buf[i])
    {
      ghost var done := buf[..next];
      buf[next] := v % 128 + 128;
      v := v / 128;
      next := next + 1;
      assert buf[..next] == done + [buf[next - 1]];
    }
    ghost var done := buf[..next];
    buf[next] := v;
    next := next + 1;
    assert buf[..next] == done + [v];
  }

  /** `sovMessages`: the length of the varint, without writing it. */
  method LengthOf(x: nat) returns (n: nat)
    ensures n == |Put(x)|
  {
    n := 1;
    var v: nat := x / 128;
    while v != 0
      invariant n + (if v == 0 then 0 else |Put(v)|) == |Put(x)|
    {
      n := n + 1;
      v := v / 128;
    }
  }

  /** `value |= group << shift`, the bits below `scale == 1 << shift` being those of `value`. */
  function Or(value: nat, scale: nat, group: nat): (r: nat)
  {
    value + scale * group
  }

  /** What the reading loop returns when `value` has been put together from `d` groups,
      the next group has weight `scale`, and the rest of the input reads as `rest`. */
  function Resume(value: nat, scale: nat, d: nat, rest: Read<nat>): (r: Read<nat>)
    ensures value == 0 && scale == 1 && d == 0 ==> r == rest
  {
    match rest
    case Got(v, n) => Got(Or(value, scale, v), d + n)
    case e => e
  }

  lemma Shifted(value: nat, scale: nat, group: nat, v: nat)
    ensures Or(value, scale, group + 128 * v) == Or(Or(value, scale, group), 128 * scale, v)
  {
    assert scale * (group + 128 * v) == scale * group + scale * (128 * v);
    assert scale * (128 * v) == 128 * scale * v;
  }

  lemma ResumeStep(value: nat, scale: nat, d: nat, s: bytes)
    ensures Resume(value, scale, d, ReadPbAt(s, d)) ==
      if d > 9 then Overflow
      else if |s| == 0 then Short
      else if s[0] < 128 then Got(Or(value, scale, if d == 9 then s[0] % 2 else s[0]), d + 1)
      else Resume(Or(value, scale, s[0] - 128), 128 * scale, d + 1, ReadPbAt(s[1..], d + 1))
  {
    if d <= 9 && |s| > 0 && s[0] >= 128 {
      match ReadPbAt(s[1..], d + 1)
      case Got(v, n) => Shifted(value, scale, s[0] - 128, v);
      case _ =>
    }
  }

  /** The protobuf reading loop over `buf[start..]`, shifting each group into place. */
  method ReadPbFrom(buf: bytes, start: nat) returns (r: Read<uint64>)
    requires start <= |buf|
    ensures r == ReadPb(buf[start..])
  {
    LimitAtZero();
    hide ReadPbAt, Resume, Limit, Or;
    var value: nat, at: nat, d: nat := 0, start, 0;
    var scale: nat := 1; // 1 << shift
    while true
      invariant at == start + d <= |buf|
      invariant ReadPbAt(buf[start..], 0) == Resume(value, scale, d, ReadPbAt(buf[at..], d))
      decreases |buf| - at
    {
      ResumeStep(value, scale, d, buf[at..]);
      if d > 9 { return Overflow; }
      if at >= |buf| { return Short; }
      var b := buf[at];
      if b < 128 {
        return Got(Or(value, scale, if d == 9 then b % 2 else b), d + 1);
      }
      assert buf[at..][1..] == buf[at + 1..];
      value, scale := Or(value, scale, b - 128), 128 * scale;
      at, d := at + 1, d + 1;
    }
  }
}
