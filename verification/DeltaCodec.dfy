/** What the two varint list formats share: runs of zigzag deltas, and a byte buffer that is
    enlarged whenever fewer than ten bytes are free. */
module DeltaCodec {
  import opened GoInts
  import opened Varint

  function PutDeltas(xs: seq<int64>, last: int64): (r: bytes)
  {
    if xs == [] then [] else PutSigned(Wrap(xs[0] - last)) + PutDeltas(xs[1..], xs[0])
  }

  lemma DeltasOf(x: int64, y: int64)
    ensures PutDeltas([x, y], 0) == PutSigned(x) + PutSigned(Wrap(y - x))
  {
    hide PutSigned, Wrap;
    assert [x, y][1..] == [y] && [y][1..] == [];
    assert PutDeltas([y], x) == PutSigned(Wrap(y - x)) + PutDeltas([], y);
    assert PutDeltas([x, y], 0) == PutSigned(Wrap(x - 0)) + PutDeltas([y], x);
  }

  lemma Reassociate<T>(a: seq<T>, b: seq<T>, c: seq<T>, d: seq<T>)
    ensures a + b + c + d == a + (b + (c + d))
  {
  }

  datatype Values<+T> = Values(list: seq<T>, n: nat)

  /** The next `count` deltas of `s` summed up from `last`, and the bytes they took. */
  function ReadDeltas(s: bytes, count: nat, last: int64): (r: Option<Values<int64>>)
    ensures r.Some? ==> |r.value.list| == count && r.value.n <= |s|
    decreases count
  {
    if count == 0 then Some(Values([], 0))
    else match ReadSigned(s)
      case Got(v, n) =>
        var x := Wrap(last + v);
        (match ReadDeltas(s[n..], count - 1, x)
         case Some(Values(xs, m)) => Some(Values([x] + xs, n + m))
         case None => None)
      case _ => None
  }

  function LastOf(xs: seq<int64>, last: int64): (r: int64)
  {
    if xs == [] then last else xs[|xs| - 1]
  }

  lemma {:induction false} PutDeltasSnoc(xs: seq<int64>, x: int64, last: int64)
    ensures PutDeltas(xs + [x], last) == PutDeltas(xs, last) + PutSigned(Wrap(x - LastOf(xs, last)))
  {
    hide PutSigned;
    if xs == [] {
      assert xs + [x] == [x];
      assert PutDeltas([x][1..], x) == [];
    } else {
      assert (xs + [x])[1..] == xs[1..] + [x];
      PutDeltasSnoc(xs[1..], x, xs[0]);
    }
  }

  lemma ReadDeltasStep(s: bytes, v: int64, n: nat, count: nat, last: int64, tail: Values<int64>)
    requires ReadSigned(s) == Got(v, n)
    requires ReadDeltas(s[n..], count, Wrap(last + v)) == Some(tail)
    ensures ReadDeltas(s, count + 1, last) == Some(Values([Wrap(last + v)] + tail.list, n + tail.n))
  {
    hide ReadSigned, Wrap;
  }

  lemma ReadBackStep(xs: seq<int64>, delta: int64, last: int64, tail: bytes, rest: bytes)
    requires xs != [] && Wrap(last + delta) == xs[0]
    requires ReadDeltas(tail + rest, |xs| - 1, xs[0]) == Some(Values(xs[1..], |tail|))
    ensures ReadDeltas(PutSigned(delta) + tail + rest, |xs|, last) == Some(Values(xs, |PutSigned(delta)| + |tail|))
  {
    hide *;
    var head := PutSigned(delta);
    var s := head + tail + rest;
    assert s == head + (tail + rest);
    ReadsBackSigned(delta, tail + rest);
    assert s[|head|..] == tail + rest;
    ReadDeltasStep(s, delta, |head|, |xs| - 1, last, Values(xs[1..], |tail|));
    assert xs == [xs[0]] + xs[1..];
  }

  /** Any list of 64-bit numbers comes back from its deltas, wrap-around included. */
  lemma {:induction false} DeltasReadBack(xs: seq<int64>, last: int64, rest: bytes)
    ensures ReadDeltas(PutDeltas(xs, last) + rest, |xs|, last) == Some(Values(xs, |PutDeltas(xs, last)|))
  {
    hide PutSigned, ReadSigned, Wrap;
    if xs != [] {
      DeltaCancels(last, xs[0]);
      DeltasReadBack(xs[1..], xs[0], rest);
      ReadBackStep(xs, Wrap(xs[0] - last), last, PutDeltas(xs[1..], xs[0]), rest);
    }
  }

  /** How the two encoders enlarge their buffer. */
  datatype Growth = ByHalf | Double
  {
    function Apply(len: nat): (r: nat)
      ensures len >= 20 ==> r >= len + MAX_LEN
    {
      match this
      case ByHalf => len * 3 / 2
      case Double => len * 2
    }
  }

  /** One varint appended at `pos` of a buffer whose first `len` bytes may be used. The buffer is
      enlarged first when fewer than ten bytes are free; ten are free at every write. */
  method AppendVarint(x: uint64, buf0: array<byte>, len0: nat, pos0: nat, growth: Growth)
    returns (buf: array<byte>, len: nat, pos: nat)
    requires pos0 <= len0 <= buf0.Length && 20 <= len0
    modifies buf0
    ensures buf == buf0 || fresh(buf)
    ensures pos <= len <= buf.Length && len0 <= len
    ensures buf[..pos] == old(buf0[..pos0]) + Put(x)
  {
    buf, len := buf0, len0;
    if len - pos0 < MAX_LEN {
      buf := new byte[growth.Apply(len)](
        i requires 0 <= i reads buf0 => if i < pos0 <= buf0.Length then buf0[i] else 0);
      len := buf.Length;
      assert buf[..pos0] == buf0[..pos0];
    }
    assert len - pos0 >= MAX_LEN;
    ReadsBack(x, []);
    pos := PutInto(buf, pos0, x);
  }

  method AppendSigned(x: int64, buf0: array<byte>, len0: nat, pos0: nat, growth: Growth)
    returns (buf: array<byte>, len: nat, pos: nat)
    requires pos0 <= len0 <= buf0.Length && 20 <= len0
    modifies buf0
    ensures buf == buf0 || fresh(buf)
    ensures pos <= len <= buf.Length && len0 <= len
    ensures buf[..pos] == old(buf0[..pos0]) + PutSigned(x)
  {
    buf, len, pos := AppendVarint(ZigZag(x), buf0, len0, pos0, growth);
  }

  method AppendDeltas(xs: seq<int64>, last: int64, buf0: array<byte>, len0: nat, pos0: nat, growth: Growth)
    returns (buf: array<byte>, len: nat, pos: nat)
    requires pos0 <= len0 <= buf0.Length && (xs == [] || 20 <= len0)
    modifies buf0
    ensures buf == buf0 || fresh(buf)
    ensures pos <= len <= buf.Length && len0 <= len
    ensures buf[..pos] == old(buf0[..pos0]) + PutDeltas(xs, last)
  {
    assert PutDeltas([], last) == [];
    hide PutDeltas, PutSigned, Wrap;
    buf, len, pos := buf0, len0, pos0;
    var lastVal: int := last;
    for i := 0 to |xs|
      invariant buf == buf0 || fresh(buf)
      invariant pos <= len <= buf.Length && len0 <= len
      invariant lastVal == LastOf(xs[..i], last)
      invariant buf[..pos] == old(buf0[..pos0]) + PutDeltas(xs[..i], last)
    {
      assert xs[..i + 1] == xs[..i] + [xs[i]];
      PutDeltasSnoc(xs[..i], xs[i], last);
      Assoc(old(buf0[..pos0]), PutDeltas(xs[..i], last), PutSigned(Wrap(xs[i] - lastVal)));
      buf, len, pos := AppendSigned(Wrap(xs[i] - lastVal), buf, len, pos, growth);
      lastVal := xs[i];
    }
    assert xs[..|xs|] == xs;
  }

  /** What the reading loop returns when `xs` have been read from `n` bytes and the rest of the
      input reads as `rest`. */
  function Prepend<T>(xs: seq<T>, n: nat, rest: Option<Values<T>>): (r: Option<Values<T>>)
    ensures xs == [] && n == 0 ==> r == rest
    ensures rest == Some(Values([], 0)) ==> r == Some(Values(xs, n))
  {
    match rest
    case Some(Values(ys, m)) =>
      assert [] + ys == ys && xs + [] == xs;
      Some(Values(xs + ys, n + m))
    case None => None
  }

  lemma PrependStep(xs: seq<int64>, n: nat, s: bytes, count: nat, last: int64)
    requires count > 0
    ensures Prepend(xs, n, ReadDeltas(s, count, last)) ==
      match ReadSigned(s)
      case Got(v, m) => Prepend(xs + [Wrap(last + v)], n + m, ReadDeltas(s[m..], count - 1, Wrap(last + v)))
      case _ => None
  {
    hide ReadSigned, Wrap;
    match ReadSigned(s)
    case Got(v, m) =>
      var x := Wrap(last + v);
      match ReadDeltas(s[m..], count - 1, x) {
        case Some(Values(ys, _)) => assert xs + ([x] + ys) == xs + [x] + ys;
        case None =>
      }
    case _ =>
  }

  /** One decoding loop: `count` deltas from `buf[start:]`. */
  method ReadDeltasFrom(buf: bytes, start: nat, count: nat) returns (r: Option<Values<int64>>)
    requires start <= |buf|
    ensures r == ReadDeltas(buf[start..], count, 0)
  {
    hide ReadSigned, Wrap, Prepend;
    var xs: seq<int64>, offset: nat, last: int64 := [], start, 0;
    while |xs| < count
      invariant |xs| <= count && start <= offset <= |buf|
      invariant ReadDeltas(buf[start..], count, 0)
             == Prepend(xs, offset - start, ReadDeltas(buf[offset..], count - |xs|, last))
    {
      PrependStep(xs, offset - start, buf[offset..], count - |xs|, last);
      var next := ReadSigned(buf[offset..]);
      if !next.Got? { return None; }
      assert buf[offset..][next.n..] == buf[offset + next.n..];
      offset := offset + next.n;
      last := Wrap(last + next.value);
      xs := xs + [last];
    }
    r := Some(Values(xs, offset - start));
  }

  /** The same loop storing into an array: the first `count` cells end up holding the values. */
  method ReadDeltasInto(buf: bytes, start: nat, count: nat, last0: int64, cells: array<int64>) returns (r: Option<nat>)
    requires start <= |buf| && count <= cells.Length
    modifies cells
    ensures match ReadDeltas(buf[start..], count, last0)
            case Some(Values(xs, n)) => r == Some(n) && cells[..count] == xs
            case None => r == None
  {
    hide ReadSigned, Wrap, Prepend;
    var offset: nat, last: int64 := start, last0;
    assert cells[..0] == [];
    for k := 0 to count
      invariant start <= offset <= |buf|
      invariant ReadDeltas(buf[start..], count, last0)
             == Prepend(cells[..k], offset - start, ReadDeltas(buf[offset..], count - k, last))
    {
      PrependStep(cells[..k], offset - start, buf[offset..], count - k, last);
      var next := ReadSigned(buf[offset..]);
      if !next.Got? { return None; }
      assert buf[offset..][next.n..] == buf[offset + next.n..];
      offset := offset + next.n;
      last := Wrap(last + next.value);
      ghost var before := cells[..k];
      cells[k] := last;
      assert cells[..k + 1] == before + [last];
    }
    r := Some(offset - start);
  }
}
