/** The format of a bunch of the reverse index: how many ids, the ids as deltas, how many refs each
    id has, and all the refs as one run of deltas that goes on from one id to the next. */
module IdRefsCodec {
  import opened GoInts
  import opened Varint
  import opened DeltaCodec

  datatype IDRefs = IDRefs(id: int64, refs: seq<int64>)

  function Ids(list: seq<IDRefs>): (r: seq<int64>)
    ensures |r| == |list|
    ensures forall k :: 0 <= k < |list| ==> r[k] == list[k].id
  {
    seq(|list|, i requires 0 <= i < |list| => list[i].id)
  }

  function PutCounts(list: seq<IDRefs>): (r: bytes)
  {
    if list == [] then [] else Put(|list[0].refs|) + PutCounts(list[1..])
  }

  function PutRefs(list: seq<IDRefs>, last: int64): (r: bytes)
  {
    if list == [] then []
    else PutDeltas(list[0].refs, last) + PutRefs(list[1..], LastOf(list[0].refs, last))
  }

  function Encode(list: seq<IDRefs>): (r: bytes)
  {
    Put(|list|) + (PutDeltas(Ids(list), 0) + (PutCounts(list) + PutRefs(list, 0)))
  }

  /** Two ids of one ref each: the refs go on from one id to the next. */
  lemma BunchBytes()
    ensures Encode([IDRefs(7, [300]), IDRefs(8, [299])]) == [2, 14, 2, 1, 1, 216, 4, 1]
  {
    var list := [IDRefs(7, [300]), IDRefs(8, [299])];
    assert Ids(list) == [7, 8];
    DeltasOf(7, 8);
    assert list[1..] == [IDRefs(8, [299])] && list[1..][1..] == [];
    assert [300][1..] == [299][1..] == [];
    assert PutDeltas([300], 0) == Put(600) == [216, 4] by { assert Put(4) == [4]; }
    assert PutDeltas([299], 300) == [1];
    assert PutRefs(list, 0) == [216, 4] + PutRefs(list[1..], 300);
    assert PutRefs(list[1..], 300) == [1] + PutRefs([], 299);
  }

  function ReadCounts(s: bytes, count: nat): (r: Option<Values<uint64>>)
    ensures r.Some? ==> |r.value.list| == count && r.value.n <= |s|
    decreases count
  {
    if count == 0 then Some(Values([], 0))
    else match ReadUnsigned(s)
      case Got(v, n) =>
        (match ReadCounts(s[n..], count - 1)
         case Some(Values(vs, m)) => Some(Values([v] + vs, n + m))
         case None => None)
      case _ => None
  }

  function ReadRefs(s: bytes, ids: seq<int64>, counts: seq<uint64>, last: int64): (r: Option<seq<IDRefs>>)
    requires |ids| == |counts|
  {
    if ids == [] then Some([])
    else match ReadDeltas(s, counts[0], last)
      case Some(Values(refs, n)) =>
        (match ReadRefs(s[n..], ids[1..], counts[1..], LastOf(refs, last))
         case Some(list) => Some([IDRefs(ids[0], refs)] + list)
         case None => None)
      case None => None
  }

  /** No data at all reads as a nil bunch; data that stops halfway is a panic. */
  datatype Decoded = Nil | Panic | Bunch(list: seq<IDRefs>)

  function Decode(buf: bytes): (r: Decoded)
  {
    match ReadUnsigned(buf)
    case Got(length, n) =>
      (match ReadDeltas(buf[n..], length, 0)
       case Some(Values(ids, n1)) =>
         var buf1 := buf[n..][n1..];
         (match ReadCounts(buf1, length)
          case Some(Values(counts, n2)) =>
            (match ReadRefs(buf1[n2..], ids, counts, 0)
             case Some(list) => Bunch(list)
             case None => Panic)
          case None => Panic)
       case None => Panic)
    case _ => Nil
  }

  /** No list is longer than a uint64 can say. */
  predicate Countable(list: seq<IDRefs>)
  {
    |list| < TWO64 && forall e <- list :: |e.refs| < TWO64
  }

  function Counts(list: seq<IDRefs>): (r: seq<uint64>)
    requires Countable(list)
    ensures |r| == |list|
  {
    seq(|list|, i requires 0 <= i < |list| => |list[i].refs|)
  }

  lemma CountsTail(list: seq<IDRefs>)
    requires Countable(list) && list != []
    ensures Countable(list[1..]) && Counts(list[1..]) == Counts(list)[1..]
  {
    assert forall e <- list[1..] :: e in list;
  }

  lemma {:induction false} CountsReadBack(list: seq<IDRefs>, rest: bytes)
    requires Countable(list)
    ensures ReadCounts(PutCounts(list) + rest, |list|) == Some(Values(Counts(list), |PutCounts(list)|))
  {
    hide Put, ReadUnsigned;
    if list != [] {
      CountsTail(list);
      CountsReadBack(list[1..], rest);
      CountsStep(|list[0].refs|, PutCounts(list[1..]), rest, Counts(list[1..]));
      assert Counts(list) == [|list[0].refs|] + Counts(list)[1..];
    }
  }

  lemma CountsStep(v: uint64, tail: bytes, rest: bytes, vs: seq<uint64>)
    requires ReadCounts(tail + rest, |vs|) == Some(Values(vs, |tail|))
    ensures ReadCounts(Put(v) + tail + rest, |vs| + 1) == Some(Values([v] + vs, |Put(v)| + |tail|))
  {
    hide *;
    assert Put(v) + tail + rest == Put(v) + (tail + rest);
    ReadsBack(v, tail + rest);
    assert (Put(v) + (tail + rest))[|Put(v)|..] == tail + rest;
    ReadCountsStep(Put(v) + (tail + rest), v, |Put(v)|, |vs|, Values(vs, |tail|));
  }

  lemma ReadCountsStep(s: bytes, v: uint64, n: nat, count: nat, tail: Values<uint64>)
    requires ReadUnsigned(s) == Got(v, n)
    requires ReadCounts(s[n..], count) == Some(tail)
    ensures ReadCounts(s, count + 1) == Some(Values([v] + tail.list, n + tail.n))
  {
    hide ReadUnsigned;
  }

  lemma {:induction false} RefsReadBack(list: seq<IDRefs>, last: int64, rest: bytes)
    requires Countable(list)
    ensures ReadRefs(PutRefs(list, last) + rest, Ids(list), Counts(list), last) == Some(list)
  {
    if list != [] {
      CountsTail(list);
      var refs := list[0].refs;
      var tail := PutRefs(list[1..], LastOf(refs, last));
      RefsReadBack(list[1..], LastOf(refs, last), rest);
      assert Ids(list[1..]) == Ids(list)[1..];
      RefsStep(list, last, tail, rest);
      assert PutRefs(list, last) == PutDeltas(refs, last) + tail;
    }
  }

  lemma RefsStep(list: seq<IDRefs>, last: int64, tail: bytes, rest: bytes)
    requires Countable(list) && list != []
    requires ReadRefs(tail + rest, Ids(list)[1..], Counts(list)[1..], LastOf(list[0].refs, last)) == Some(list[1..])
    ensures ReadRefs(PutDeltas(list[0].refs, last) + tail + rest, Ids(list), Counts(list), last) == Some(list)
  {
    hide PutDeltas, ReadDeltas;
    var head := PutDeltas(list[0].refs, last);
    assert head + tail + rest == head + (tail + rest);
    DeltasReadBack(list[0].refs, last, tail + rest);
    assert (head + (tail + rest))[|head|..] == tail + rest;
    assert list == [IDRefs(list[0].id, list[0].refs)] + list[1..];
  }

  /** Whatever the ids and refs, and in whatever order, the bunch comes back as it was. */
  lemma DecodeEncode(list: seq<IDRefs>)
    requires Countable(list)
    ensures Decode(Encode(list)) == Bunch(list)
  {
    hide Put, PutDeltas, PutCounts, PutRefs, ReadUnsigned, ReadDeltas, ReadCounts, ReadRefs, Ids, Counts;
    var a, b, c, d := Put(|list|), PutDeltas(Ids(list), 0), PutCounts(list), PutRefs(list, 0);
    ReadsBack(|list|, b + (c + d));
    assert (a + (b + (c + d)))[|a|..] == b + (c + d);
    DeltasReadBack(Ids(list), 0, c + d);
    assert (b + (c + d))[|b|..] == c + d;
    CountsReadBack(list, d);
    assert (c + d)[|c|..] == d + [];
    RefsReadBack(list, 0, []);
  }

  lemma {:induction false} PutCountsSnoc(list: seq<IDRefs>, e: IDRefs)
    ensures PutCounts(list + [e]) == PutCounts(list) + Put(|e.refs|)
  {
    hide Put;
    if list == [] {
      assert list + [e] == [e];
      assert PutCounts([e][1..]) == [];
    } else {
      assert (list + [e])[1..] == list[1..] + [e];
      PutCountsSnoc(list[1..], e);
    }
  }

  /** The last ref written for a list of entries. */
  function LastRef(list: seq<IDRefs>, last: int64): (r: int64)
  {
    if list == [] then last else LastRef(list[1..], LastOf(list[0].refs, last))
  }

  lemma {:induction false} PutRefsSnoc(list: seq<IDRefs>, e: IDRefs, last: int64)
    ensures PutRefs(list + [e], last) == PutRefs(list, last) + PutDeltas(e.refs, LastRef(list, last))
    ensures LastRef(list + [e], last) == LastOf(e.refs, LastRef(list, last))
  {
    hide PutDeltas;
    if list == [] {
      assert list + [e] == [e];
      assert PutRefs([e][1..], LastOf(e.refs, last)) == [];
    } else {
      assert (list + [e])[1..] == list[1..] + [e];
      PutRefsSnoc(list[1..], e, LastOf(list[0].refs, last));
    }
  }

  method AppendCounts(list: seq<IDRefs>, buf0: array<byte>, len0: nat, pos0: nat)
    returns (buf: array<byte>, len: nat, pos: nat)
    requires Countable(list)
    requires pos0 <= len0 <= buf0.Length && (list == [] || 20 <= len0)
    modifies buf0
    ensures buf == buf0 || fresh(buf)
    ensures pos <= len <= buf.Length && len0 <= len
    ensures buf[..pos] == old(buf0[..pos0]) + PutCounts(list)
  {
    assert PutCounts([]) == [];
    hide PutCounts, Put;
    buf, len, pos := buf0, len0, pos0;
    for i := 0 to |list|
      invariant buf == buf0 || fresh(buf)
      invariant pos <= len <= buf.Length && len0 <= len
      invariant buf[..pos] == old(buf0[..pos0]) + PutCounts(list[..i])
    {
      assert list[..i + 1] == list[..i] + [list[i]];
      PutCountsSnoc(list[..i], list[i]);
      Assoc(old(buf0[..pos0]), PutCounts(list[..i]), Put(|list[i].refs|));
      assert list[i] in list;
      buf, len, pos := AppendVarint(|list[i].refs|, buf, len, pos, Double);
    }
    assert list[..|list|] == list;
  }

  method AppendRefs(list: seq<IDRefs>, buf0: array<byte>, len0: nat, pos0: nat)
    returns (buf: array<byte>, len: nat, pos: nat)
    requires pos0 <= len0 <= buf0.Length && (list == [] || 20 <= len0)
    modifies buf0
    ensures buf == buf0 || fresh(buf)
    ensures pos <= len <= buf.Length && len0 <= len
    ensures buf[..pos] == old(buf0[..pos0]) + PutRefs(list, 0)
  {
    assert PutRefs([], 0) == [] && LastRef([], 0) == 0;
    hide PutRefs, PutDeltas, LastRef, LastOf;
    buf, len, pos := buf0, len0, pos0;
    var lastRef := 0;
    for i := 0 to |list|
      invariant buf == buf0 || fresh(buf)
      invariant pos <= len <= buf.Length && len0 <= len
      invariant lastRef == LastRef(list[..i], 0)
      invariant buf[..pos] == old(buf0[..pos0]) + PutRefs(list[..i], 0)
    {
      assert list[..i + 1] == list[..i] + [list[i]];
      PutRefsSnoc(list[..i], list[i], 0);
      Assoc(old(buf0[..pos0]), PutRefs(list[..i], 0), PutDeltas(list[i].refs, lastRef));
      buf, len, pos := AppendDeltas(list[i].refs, lastRef, buf, len, pos, Double);
      lastRef := LastOf(list[i].refs, lastRef);
    }
    assert list[..|list|] == list;
  }

  /** The body of both encoders, once they have their buffer. */
  method Write(list: seq<IDRefs>, buf0: array<byte>) returns (data: bytes)
    requires Countable(list) && buf0.Length >= |list| * (4 + 1 + 6) + MAX_LEN
    modifies buf0
    ensures data == Encode(list)
  {
    ReadsBack(|list|, []);
    hide Put, PutDeltas, PutCounts, PutRefs, Ids;
    var pos := PutInto(buf0, 0, |list|);
    assert buf0[..pos] == Put(|list|);
    var buf, len;
    buf, len, pos := AppendDeltas(Ids(list), 0, buf0, buf0.Length, pos, Double);
    buf, len, pos := AppendCounts(list, buf, len, pos);
    buf, len, pos := AppendRefs(list, buf, len, pos);
    data := buf[..pos];
    Reassociate(Put(|list|), PutDeltas(Ids(list), 0), PutCounts(list), PutRefs(list, 0));
  }

  method MarshalIDRefsBunch(list: seq<IDRefs>) returns (data: bytes)
    requires Countable(list)
    ensures data == Encode(list)
  {
    var buf := new byte[|list| * (4 + 1 + 6) + MAX_LEN];
    data := Write(list, buf);
  }

  /** The same bytes whatever the scratch buffer is. */
  method MarshalIDRefsBunch2(list: seq<IDRefs>, scratch: array<byte>) returns (data: bytes)
    requires Countable(list)
    modifies scratch
    ensures data == Encode(list)
  {
    var estimated := |list| * (4 + 1 + 6) + MAX_LEN;
    var buf := scratch;
    if scratch.Length < estimated {
      buf := new byte[estimated];
    }
    data := Write(list, buf);
  }

  lemma PrependCountsStep(xs: seq<uint64>, n: nat, s: bytes, count: nat)
    requires count > 0
    ensures Prepend(xs, n, ReadCounts(s, count)) ==
      match ReadUnsigned(s)
      case Got(v, m) => Prepend(xs + [v], n + m, ReadCounts(s[m..], count - 1))
      case _ => None
  {
    hide ReadUnsigned;
    match ReadUnsigned(s)
    case Got(v, m) =>
      match ReadCounts(s[m..], count - 1) {
        case Some(Values(ys, _)) => assert xs + ([v] + ys) == xs + [v] + ys;
        case None =>
      }
    case _ =>
  }

  /** An entry of a scratch slice: an id, and a slice of the first `len` cells of an array. */
  datatype Slot = Slot(id: int64, cells: array<int64>, len: nat)
  {
    predicate Valid() { len <= cells.Length }
  }

  ghost predicate Separate(slots: seq<Slot>)
  {
    && (forall i :: 0 <= i < |slots| ==> slots[i].Valid())
    && (forall i, j :: 0 <= i < j < |slots| ==> slots[i].cells != slots[j].cells || slots[i].cells.Length == 0)
  }

  ghost function Contents(slots: seq<Slot>): (r: seq<IDRefs>)
    requires forall i :: 0 <= i < |slots| ==> slots[i].Valid()
    reads set s <- slots :: s.cells
    ensures |r| == |slots|
  {
    seq(|slots|, i requires 0 <= i < |slots| && slots[i].Valid() reads set s <- slots :: s.cells =>
      IDRefs(slots[i].id, slots[i].cells[..slots[i].len]))
  }

  /** The second loop of the decoder: the counts, and a slice of that length for each entry. The
      entry keeps its array when the capacity is enough. */
  method ReadCountsInto(buf: bytes, start: nat, ids: seq<int64>, slots0: seq<Slot>)
    returns (r: Option<Values<uint64>>, slots: seq<Slot>)
    requires start <= |buf| && |ids| == |slots0| && Separate(slots0)
    ensures r == ReadCounts(buf[start..], |ids|)
    ensures r.Some? ==>
      && Separate(slots) && |slots| == |ids|
      && forall i :: 0 <= i < |ids| ==> slots[i].id == ids[i] && slots[i].len == r.value.list[i]
    ensures r.Some? ==> forall i :: 0 <= i < |slots| ==> slots[i].cells == slots0[i].cells || fresh(slots[i].cells)
  {
    hide ReadUnsigned, ReadCounts, Prepend;
    var counts: seq<uint64>, offset: nat := [], start;
    slots := slots0;
    for i := 0 to |ids|
      invariant |counts| == i && |slots| == |ids| && start <= offset <= |buf|
      invariant ReadCounts(buf[start..], |ids|)
             == Prepend(counts, offset - start, ReadCounts(buf[offset..], |ids| - i))
      invariant Separate(slots)
      invariant forall k :: 0 <= k < i ==> slots[k].id == ids[k] && slots[k].len == counts[k]
      invariant forall k :: 0 <= k < i ==> slots[k].cells == slots0[k].cells || fresh(slots[k].cells)
      invariant slots[i..] == slots0[i..]
    {
      PrependCountsStep(counts, offset - start, buf[offset..], |ids| - i);
      var next := ReadUnsigned(buf[offset..]);
      if !next.Got? { return None, slots; }
      assert buf[offset..][next.n..] == buf[offset + next.n..];
      offset := offset + next.n;
      var cells := slots0[i].cells;
      if cells.Length < next.value {
        cells := new int64[next.value];
      }
      slots := slots[i := Slot(ids[i], cells, next.value)];
      counts := counts + [next.value];
    }
    assert ReadCounts(buf[offset..], 0) == Some(Values([], 0)) by { ReadNoCounts(buf[offset..]); }
    r := Some(Values(counts, offset - start));
  }

  lemma ReadNoCounts(s: bytes)
    ensures ReadCounts(s, 0) == Some(Values([], 0))
  {
  }

  function PrependRefs(done: seq<IDRefs>, rest: Option<seq<IDRefs>>): (r: Option<seq<IDRefs>>)
    ensures done == [] ==> r == rest
    ensures rest == Some([]) ==> r == Some(done)
  {
    match rest
    case Some(list) =>
      assert [] + list == list && done + [] == done;
      Some(done + list)
    case None => None
  }

  lemma PrependRefsStep(done: seq<IDRefs>, s: bytes, ids: seq<int64>, counts: seq<uint64>, last: int64)
    requires |ids| == |counts| && ids != []
    ensures var head := ReadDeltas(s, counts[0], last);
      PrependRefs(done, ReadRefs(s, ids, counts, last)) ==
        if head.None? then None
        else PrependRefs(done + [IDRefs(ids[0], head.value.list)],
          ReadRefs(s[head.value.n..], ids[1..], counts[1..], LastOf(head.value.list, last)))
  {
    hide ReadDeltas;
    var head := ReadDeltas(s, counts[0], last);
    if head.Some? {
      var e := IDRefs(ids[0], head.value.list);
      var tail := ReadRefs(s[head.value.n..], ids[1..], counts[1..], LastOf(e.refs, last));
      if tail.Some? {
        assert done + ([e] + tail.value) == done + [e] + tail.value;
      }
    }
  }

  lemma ReadNoRefs(s: bytes, last: int64)
    ensures ReadRefs(s, [], [], last) == Some([])
  {
  }

  /** The third loop of the decoder: the refs, stored entry by entry. */
  method ReadRefsInto(buf: bytes, start: nat, ids: seq<int64>, counts: seq<uint64>, slots: seq<Slot>) returns (ok: bool)
    requires start <= |buf| && |ids| == |counts| == |slots| && Separate(slots)
    requires forall i :: 0 <= i < |ids| ==> slots[i].id == ids[i] && slots[i].len == counts[i]
    modifies set s <- slots :: s.cells
    ensures match ReadRefs(buf[start..], ids, counts, 0)
            case Some(list) => ok && Contents(slots) == list
            case None => !ok
  {
    hide ReadDeltas, ReadRefs, PrependRefs;
    var offset: nat, last: int64 := start, 0;
    ghost var done: seq<IDRefs> := [];
    assert ids[0..] == ids && counts[0..] == counts;
    for i := 0 to |ids|
      invariant start <= offset <= |buf| && |done| == i
      invariant forall k :: 0 <= k < i ==> done[k] == IDRefs(ids[k], slots[k].cells[..counts[k]])
      invariant ReadRefs(buf[start..], ids, counts, 0)
             == PrependRefs(done, ReadRefs(buf[offset..], ids[i..], counts[i..], last))
    {
      PrependRefsStep(done, buf[offset..], ids[i..], counts[i..], last);
      assert ids[i..][1..] == ids[i + 1..] && counts[i..][1..] == counts[i + 1..];
      var cells := slots[i].cells;
      var n := ReadDeltasInto(buf, offset, counts[i], last, cells);
      if n.None? { return false; }
      assert buf[offset..][n.value..] == buf[offset + n.value..];
      offset := offset + n.value;
      last := if counts[i] == 0 then last else cells[counts[i] - 1];
      done := done + [IDRefs(ids[i], cells[..counts[i]])];
    }
    ReadNoRefs(buf[offset..], last);
    assert ids[|ids|..] == [] && counts[|ids|..] == [];
    assert Contents(slots) == done;
    ok := true;
  }

  /** `UnmarshalIDRefsBunch2`: the decoded value does not depend on what the scratch entries hold,
      as long as no two of them share cells. */
  method UnmarshalIDRefsBunch2(buf: bytes, scratch: seq<Slot>) returns (r: Decoded, slots: seq<Slot>)
    requires Separate(scratch)
    modifies set s <- scratch :: s.cells
    ensures r == Decode(buf)
    ensures forall i :: 0 <= i < |slots| ==> slots[i].Valid()
    ensures r.Bunch? ==> Contents(slots) == r.list
  {
    hide ReadUnsigned, ReadDeltas, ReadCounts, ReadRefs;
    slots := [];
    var head := ReadUnsigned(buf);
    if !head.Got? { return Nil, []; }
    var offset, length := head.n, head.value;
    if |scratch| < length {
      var nothing := new int64[0];
      slots := seq(length, _ => Slot(0, nothing, 0));
    } else {
      slots := scratch[..length];
    }
    var ids := ReadDeltasFrom(buf, offset, length);
    if ids.None? { return Panic, []; }
    assert buf[offset..][ids.value.n..] == buf[offset + ids.value.n..];
    offset := offset + ids.value.n;
    ghost var slots0 := slots;
    var counts;
    counts, slots := ReadCountsInto(buf, offset, ids.value.list, slots);
    if counts.None? { return Panic, []; }
    assert buf[offset..][counts.value.n..] == buf[offset + counts.value.n..];
    offset := offset + counts.value.n;
    assert forall s <- slots :: fresh(s.cells) || exists t <- scratch :: s.cells == t.cells;
    var ok := ReadRefsInto(buf, offset, ids.value.list, counts.value.list, slots);
    if !ok { return Panic, []; }
    r := Bunch(seq(|slots|, i requires 0 <= i < |slots| && slots[i].Valid() reads set s <- slots :: s.cells =>
      IDRefs(slots[i].id, slots[i].cells[..slots[i].len])));
  }

  /** `UnmarshalIDRefsBunch` allocates every entry itself. */
  method UnmarshalIDRefsBunch(buf: bytes) returns (r: Decoded)
    ensures r == Decode(buf)
  {
    var slots;
    r, slots := UnmarshalIDRefsBunch2(buf, []);
  }
}
