/** Linear import of the reverse index. Pairs go through a channel to a dispatcher, which collects them
    in a buffer of bunches and hands the buffer to a writer whenever it is full; the writer merges every
    bunch of a buffer with the stored one and commits them in one batch. One session, from the first
    pair to the end of the writer, as a state machine over the steps of its goroutines. */
module RefPipeline {
  import opened GoInts
  import opened SortedLists
  import opened IdRefsCodec
  import opened RefBunch
  import opened RefMerge
  import opened RefIndex

  const BUFFER_SIZE := 64 * 1024
  const ADD_CAPACITY := 1024
  const WRITE_CAPACITY := 2

  datatype IdRef = IdRef(id: int64, ref: int64)
  type Buffer = map<int, seq<IDRefs>>

  // Buffers

  predicate AllHaveRefs(list: seq<IDRefs>)
  {
    forall i :: 0 <= i < |list| ==> list[i].refs != []
  }

  ghost predicate ValidBuffer(b: Buffer)
  {
    forall k <- b :: WellFormed(k, b[k]) && AllHaveRefs(b[k])
  }

  function InBuffer(b: Buffer, k: int): (r: seq<IDRefs>)
  {
    if k in b then b[k] else []
  }

  function BufferRefs(b: Buffer, id: int64): (r: set<int64>)
  {
    ToSet(RefsIn(InBuffer(b, BunchId(id)), id))
  }

  function Added(b: Buffer, p: IdRef): (r: Buffer)
  {
    var list := InBuffer(b, BunchId(p.id));
    b[BunchId(p.id) := With(list, p.id, Inserted(RefsIn(list, p.id), p.ref))]
  }

  lemma EmptyWellFormed(k: int)
    ensures WellFormed(k, []) && AllHaveRefs([])
  {
  }

  lemma InsertedNotEmpty(refs: seq<int64>, ref: int64)
    ensures Inserted(refs, ref) != []
  {
    hide Position;
  }

  lemma WithAllHaveRefs(list: seq<IDRefs>, id: int64, refs: seq<int64>)
    requires AllHaveRefs(list) && refs != []
    ensures AllHaveRefs(With(list, id, refs))
  {
    hide Position;
  }

  /** A pair added to a buffer is one more ref of its id. */
  lemma AddedCorrect(b: Buffer, p: IdRef, x: int64)
    requires ValidBuffer(b) && p.ref != NEVER
    ensures ValidBuffer(Added(b, p))
    ensures BufferRefs(Added(b, p), x) == BufferRefs(b, x) + if p.id == x then {p.ref} else {}
  {
    hide With, WellFormed, RefsIn, ToSet, BunchId, Inserted, GoodRefs, AllHaveRefs, Sorted;
    var k := BunchId(p.id);
    var list := InBuffer(b, k);
    EmptyWellFormed(k);
    WithWellFormedRefs(k, list, p);
    AddedRefs(k, list, p, x);
  }

  lemma AddedRefs(k: int, list: seq<IDRefs>, p: IdRef, x: int64)
    requires WellFormed(k, list)
    ensures ToSet(RefsIn(With(list, p.id, Inserted(RefsIn(list, p.id), p.ref)), x))
         == ToSet(RefsIn(list, x)) + if p.id == x then {p.ref} else {}
  {
    RefsInGood(k, list, p.id);
    hide With, RefsIn, ToSet, Inserted;
    WithRefs(list, p.id, Inserted(RefsIn(list, p.id), p.ref), x);
    InsertedIsUnion(RefsIn(list, p.id), p.ref);
  }

  lemma WithWellFormedRefs(k: int, list: seq<IDRefs>, p: IdRef)
    requires WellFormed(k, list) && AllHaveRefs(list) && k == BunchId(p.id) && p.ref != NEVER
    ensures var r := With(list, p.id, Inserted(RefsIn(list, p.id), p.ref));
      WellFormed(k, r) && AllHaveRefs(r)
  {
    hide With, RefsIn, Inserted;
    RefsInGood(k, list, p.id);
    InsertedGood(RefsIn(list, p.id), p.ref);
    InsertedNotEmpty(RefsIn(list, p.id), p.ref);
    WithWellFormed(k, list, p.id, Inserted(RefsIn(list, p.id), p.ref));
    WithAllHaveRefs(list, p.id, Inserted(RefsIn(list, p.id), p.ref));
  }

  /** `idRefBunches.add`. */
  method AddToBuffer(b: Buffer, p: IdRef) returns (r: Buffer)
    requires ValidBuffer(b) && p.ref != NEVER
    ensures r == Added(b, p)
  {
    var k := BunchId(p.id);
    var list := InBuffer(b, k);
    EmptyWellFormed(k);
    RefsInGood(k, list, p.id);
    hide With, RefsIn, Position;
    var created, i := GetCreate(list, p.id);
    var refs := SortedLists.Add(created[i].refs, p.ref);
    SetEntry(list, p.id, created[i].refs, refs);
    r := b[k := created[i := IDRefs(p.id, refs)]];
  }

  // Writing a buffer

  /** What `loadMergeMarshal` encodes. */
  function Merged(db: Db, k: int, list: seq<IDRefs>): (r: seq<IDRefs>)
    requires ValidDb(db)
  {
    if k in db then Merge(BunchOf(db, k), list) else list
  }

  lemma {:induction false} NonEmptyRefs(list: seq<IDRefs>, x: int64)
    requires AllHaveRefs(list) && Has(list, x)
    ensures RefsIn(list, x) != []
  {
    HasTail(list, x);
    if list[0].id != x {
      NonEmptyRefs(list[1..], x);
    }
  }

  lemma MergedCorrect(db: Db, k: int, list: seq<IDRefs>, x: int64)
    requires ValidDb(db) && WellFormed(k, list) && AllHaveRefs(list)
    ensures WellFormed(k, Merged(db, k, list))
    ensures ToSet(RefsIn(Merged(db, k, list), x)) == ToSet(RefsIn(BunchOf(db, k), x)) + ToSet(RefsIn(list, x))
  {
    hide Merge, Decode, RefsIn, WellFormed, Has;
    if k in db {
      MergeCorrect(k, BunchOf(db, k), list, x);
      if Has(list, x) { NonEmptyRefs(list, x); } else { RefsInMissing(list, x); }
    } else {
      RefsInNothing(x);
    }
  }

  lemma RefsInNothing(x: int64)
    ensures RefsIn([], x) == []
  {
  }

  ghost predicate Marshalled(db: Db, b: Buffer, done: set<int>, batch: Db)
    requires ValidDb(db)
  {
    batch.Keys == done && done <= b.Keys && forall k <- done :: batch[k] == Encode(Merged(db, k, b[k]))
  }

  /** Committing the batch of a buffer adds exactly the refs of the buffer to the store. */
  lemma CommitCorrect(db: Db, b: Buffer, batch: Db, x: int64)
    requires ValidDb(db) && ValidBuffer(b) && Marshalled(db, b, b.Keys, batch)
    ensures ValidDb(db + batch)
    ensures RefsOf(db + batch, x) == RefsOf(db, x) + BufferRefs(b, x)
  {
    hide Merged, WellFormed, RefsIn, ToSet, Encode, Decode, BunchId, AllHaveRefs;
    forall k <- b ensures WellFormed(k, Merged(db, k, b[k])) && Decode(batch[k]) == Bunch(Merged(db, k, b[k])) {
      MergedCorrect(db, k, b[k], x);
      WellFormedCountable(k, Merged(db, k, b[k]));
      DecodeEncode(Merged(db, k, b[k]));
    }
    var k := BunchId(x);
    RefsInNothing(x);
    if k in b {
      MergedCorrect(db, k, b[k], x);
    } else {
      assert BunchOf(db + batch, k) == BunchOf(db, k);
      EmptySet();
    }
  }

  lemma EmptySet()
    ensures ToSet<int64>([]) == {}
  {
  }

  // The goroutines

  datatype Dispatcher = Receiving | HandingOver | HandingOverLast | Finished
  datatype Writer = Idle | Merging(buffer: Buffer, todo: set<int>, batch: Db) | Closed

  datatype State = State(
    pending: seq<IdRef>, addClosed: bool,
    dispatcher: Dispatcher, buffer: Buffer,
    queue: seq<Buffer>, writeClosed: bool,
    writer: Writer, db: Db)

  function Start(db: Db): (s: State)
  {
    State([], false, Receiving, map[], [], false, Idle, db)
  }

  datatype Step =
    | Send(p: IdRef)   // a caller puts a pair into addc
    | CloseAdd         // SetLinearImport(false) closes addc
    | Dispatch         // the dispatcher takes a pair
    | DispatchEnd      // the dispatcher finds addc closed and empty
    | HandOver         // the dispatcher puts its buffer into write
    | CloseWrite       // SetLinearImport(false) closes write
    | Take             // the writer takes a buffer
    | MergeBunch(k: int) // a worker loads, merges and marshals a bunch
    | Commit           // the batch is written
    | WriterEnd        // the writer finds write closed and empty

  predicate Enabled(s: State, step: Step)
  {
    match step
    case Send(p) => !s.addClosed && |s.pending| < ADD_CAPACITY && p.ref != NEVER
    case CloseAdd => !s.addClosed
    case Dispatch => s.dispatcher == Receiving && s.pending != []
    case DispatchEnd => s.dispatcher == Receiving && s.pending == [] && s.addClosed
    case HandOver => s.dispatcher in {HandingOver, HandingOverLast} && |s.queue| < WRITE_CAPACITY
    case CloseWrite => s.dispatcher == Finished && !s.writeClosed
    case Take => s.writer.Idle? && s.queue != []
    case MergeBunch(k) => s.writer.Merging? && k in s.writer.todo && k in s.writer.buffer
    case Commit => s.writer.Merging? && s.writer.todo == {}
    case WriterEnd => s.writer.Idle? && s.queue == [] && s.writeClosed
  }

  ghost function Next(s: State, step: Step): (t: State)
    requires Enabled(s, step) && ValidDb(s.db)
  {
    match step
    case Send(p) => s.(pending := s.pending + [p])
    case CloseAdd => s.(addClosed := true)
    case Dispatch =>
      var buffer := Added(s.buffer, s.pending[0]);
      s.(pending := s.pending[1..], buffer := buffer,
         dispatcher := if |buffer| >= BUFFER_SIZE then HandingOver else Receiving)
    case DispatchEnd => s.(dispatcher := if |s.buffer| > 0 then HandingOverLast else Finished)
    case HandOver =>
      s.(queue := s.queue + [s.buffer], buffer := map[],
         dispatcher := if s.dispatcher == HandingOver then Receiving else Finished)
    case CloseWrite => s.(writeClosed := true)
    case Take => s.(queue := s.queue[1..], writer := Merging(s.queue[0], s.queue[0].Keys, map[]))
    case MergeBunch(k) =>
      var data := Encode(Merged(s.db, k, s.writer.buffer[k]));
      s.(writer := s.writer.(todo := s.writer.todo - {k}, batch := s.writer.batch[k := data]))
    case Commit => s.(db := s.db + s.writer.batch, writer := Idle)
    case WriterEnd => s.(writer := Closed)
  }

  // What is where

  function PendingRefs(pending: seq<IdRef>, x: int64): (r: set<int64>)
  {
    set p <- pending | p.id == x :: p.ref
  }

  function QueueRefs(queue: seq<Buffer>, x: int64): (r: set<int64>)
  {
    if queue == [] then {} else BufferRefs(queue[0], x) + QueueRefs(queue[1..], x)
  }

  function WriterRefs(w: Writer, x: int64): (r: set<int64>)
  {
    if w.Merging? then BufferRefs(w.buffer, x) else {}
  }

  /** Stored, being written, queued, buffered or pending. */
  ghost function Everywhere(s: State, x: int64): (r: set<int64>)
    requires ValidDb(s.db)
  {
    Union(RefsOf(s.db, x), WriterRefs(s.writer, x), QueueRefs(s.queue, x), BufferRefs(s.buffer, x),
          PendingRefs(s.pending, x))
  }

  function Union(a: set<int64>, b: set<int64>, c: set<int64>, d: set<int64>, e: set<int64>): (r: set<int64>)
  {
    a + b + c + d + e
  }

  ghost predicate ValidQueue(queue: seq<Buffer>)
  {
    forall i :: 0 <= i < |queue| ==> ValidBuffer(queue[i])
  }

  predicate ValidPending(pending: seq<IdRef>)
  {
    forall i :: 0 <= i < |pending| ==> pending[i].ref != NEVER
  }

  ghost predicate ValidWriter(db: Db, w: Writer)
  {
    ValidDb(db) &&
    (w.Merging? ==>
       ValidBuffer(w.buffer) && w.todo <= w.buffer.Keys && Marshalled(db, w.buffer, w.buffer.Keys - w.todo, w.batch))
  }

  /** How far the goroutines and the closing of the channels can have got. */
  predicate Phases(s: State)
  {
    && (s.dispatcher in {HandingOverLast, Finished} ==> s.addClosed && s.pending == [])
    && (s.dispatcher == Finished ==> s.buffer == map[])
    && (s.writeClosed ==> s.dispatcher == Finished)
    && (s.writer.Closed? ==> s.writeClosed && s.queue == [])
  }

  ghost predicate Inv(s: State)
  {
    && ValidDb(s.db)
    && ValidWriter(s.db, s.writer)
    && ValidBuffer(s.buffer)
    && ValidQueue(s.queue)
    && ValidPending(s.pending)
    && Phases(s)
  }

  function SentBy(step: Step, x: int64): (r: set<int64>)
  {
    if step.Send? && step.p.id == x then {step.p.ref} else {}
  }

  lemma {:induction false} QueueSnoc(queue: seq<Buffer>, b: Buffer, x: int64)
    ensures QueueRefs(queue + [b], x) == QueueRefs(queue, x) + BufferRefs(b, x)
  {
    hide BufferRefs;
    if queue == [] {
      assert queue + [b] == [b];
      assert [b][1..] == [];
    } else {
      assert (queue + [b])[1..] == queue[1..] + [b];
      QueueSnoc(queue[1..], b, x);
    }
  }

  lemma PendingSnoc(pending: seq<IdRef>, p: IdRef, x: int64)
    ensures PendingRefs(pending + [p], x) == PendingRefs(pending, x) + if p.id == x then {p.ref} else {}
  {
  }

  lemma PendingHead(pending: seq<IdRef>, x: int64)
    requires pending != []
    ensures PendingRefs(pending, x) == PendingRefs(pending[1..], x) +
      if pending[0].id == x then {pending[0].ref} else {}
  {
    assert pending == [pending[0]] + pending[1..];
  }

  lemma NothingBuffered(x: int64)
    ensures BufferRefs(map[], x) == {}
  {
  }

  lemma PhasesKept(s: State, step: Step)
    requires ValidDb(s.db) && Phases(s) && Enabled(s, step)
    ensures Phases(Next(s, step))
  {
    hide ValidDb, Added, Merged, Encode;
  }

  lemma QueueKept(queue: seq<Buffer>, b: Buffer)
    requires ValidQueue(queue)
    ensures ValidBuffer(b) ==> ValidQueue(queue + [b])
    ensures queue != [] ==> ValidBuffer(queue[0]) && ValidQueue(queue[1..])
  {
    hide ValidBuffer;
  }

  lemma WriterKept(s: State, step: Step)
    requires ValidWriter(s.db, s.writer) && ValidQueue(s.queue) && Enabled(s, step)
    ensures ValidWriter(Next(s, step).db, Next(s, step).writer)
  {
    hide ValidDb, ValidBuffer, Marshalled, Added, Merged, Encode;
    match step
    case Take => NothingMarshalled(s.db, s.queue[0]);
    case MergeBunch(k) => OneMarshalled(s.db, s.writer.buffer, s.writer.todo, s.writer.batch, k);
    case Commit =>
      assert s.writer.buffer.Keys - s.writer.todo == s.writer.buffer.Keys;
      CommitCorrect(s.db, s.writer.buffer, s.writer.batch, 0);
    case _ =>
  }

  /** Every step of every goroutine keeps the bookkeeping right... */
  lemma StepKeepsInv(s: State, step: Step)
    requires Inv(s) && Enabled(s, step)
    ensures Inv(Next(s, step)) && ValidDb(Next(s, step).db)
  {
    PhasesKept(s, step);
    WriterKept(s, step);
    QueueKept(s.queue, s.buffer);
    hide ValidDb, ValidBuffer, ValidQueue, ValidPending, Phases, Added, Merged, Encode;
    match step
    case Send(p) => PendingKept(s.pending, p);
    case Dispatch =>
      PendingKept(s.pending, s.pending[0]);
      AddedCorrect(s.buffer, s.pending[0], 0);
    case HandOver => EmptyBuffer();
    case _ =>
  }

  lemma PendingKept(pending: seq<IdRef>, p: IdRef)
    requires ValidPending(pending)
    ensures p.ref != NEVER ==> ValidPending(pending + [p])
    ensures pending != [] ==> pending[0].ref != NEVER && ValidPending(pending[1..])
  {
  }

  /** Moving a ref from one place to another, or handing over a whole set, keeps the union. */
  lemma Moved(a: set<int64>, b: set<int64>, c: set<int64>, d: set<int64>, e: set<int64>, m: set<int64>)
    ensures Union(a, b, c, d + m, e) == Union(a, b, c, d, e + m)
    ensures Union(a, b, c + d, {}, e) == Union(a, b, c, d, e)
    ensures Union(a, {}, b + c, d, e) == Union(a, b, c, d, e)
    ensures Union(a + b, {}, c, d, e) == Union(a, b, c, d, e)
    ensures Union(a, b, c, d, e + m) == Union(a, b, c, d, e) + m
    ensures Union(a, b, c, d, e) + {} == Union(a, b, c, d, e)
  {
  }

  /** ...and loses no ref: first where pairs come in and move on... */
  lemma FrontKeepsRefs(s: State, step: Step, x: int64)
    requires Inv(s) && Enabled(s, step) && ValidDb(Next(s, step).db)
    requires step.Send? || step.Dispatch? || step.HandOver?
    ensures Everywhere(Next(s, step), x) == Everywhere(s, x) + SentBy(step, x)
  {
    hide Union, ValidDb, ValidBuffer, ValidQueue, Phases, RefsOf, BufferRefs, PendingRefs, QueueRefs, WriterRefs, Added;
    var a, b, c := RefsOf(s.db, x), WriterRefs(s.writer, x), QueueRefs(s.queue, x);
    var d, e := BufferRefs(s.buffer, x), PendingRefs(s.pending, x);
    if step.Send? {
      PendingSnoc(s.pending, step.p, x);
      Moved(a, b, c, d, e, SentBy(step, x));
    } else if step.Dispatch? {
      PendingKept(s.pending, s.pending[0]);
      AddedCorrect(s.buffer, s.pending[0], x);
      PendingHead(s.pending, x);
      Moved(a, b, c, d, PendingRefs(s.pending[1..], x), SentBy(Send(s.pending[0]), x));
    } else {
      NothingBuffered(x);
      QueueSnoc(s.queue, s.buffer, x);
      Moved(a, b, c, d, e, {});
    }
  }

  /** ...then where buffers are written. */
  lemma StepKeepsRefs(s: State, step: Step, x: int64)
    requires Inv(s) && Enabled(s, step) && ValidDb(Next(s, step).db)
    ensures Everywhere(Next(s, step), x) == Everywhere(s, x) + SentBy(step, x)
  {
    hide Union, ValidDb, ValidBuffer, ValidQueue, Phases, Marshalled, RefsOf, BufferRefs, PendingRefs,
      QueueRefs, Added, Merged, Encode;
    if step.Send? || step.Dispatch? || step.HandOver? {
      FrontKeepsRefs(s, step, x);
    } else {
      var a, b, c := RefsOf(s.db, x), WriterRefs(s.writer, x), QueueRefs(s.queue, x);
      var d, e := BufferRefs(s.buffer, x), PendingRefs(s.pending, x);
      Moved(a, b, c, d, e, {});
      if step.Take? {
        QueueHead(s.queue, x);
        Moved(a, BufferRefs(s.queue[0], x), QueueRefs(s.queue[1..], x), d, e, {});
      } else if step.Commit? {
        assert s.writer.buffer.Keys - s.writer.todo == s.writer.buffer.Keys;
        CommitCorrect(s.db, s.writer.buffer, s.writer.batch, x);
      }
    }
  }

  lemma QueueHead(queue: seq<Buffer>, x: int64)
    requires queue != []
    ensures QueueRefs(queue, x) == BufferRefs(queue[0], x) + QueueRefs(queue[1..], x)
  {
  }

  lemma EmptyBuffer()
    ensures ValidBuffer(map[])
  {
  }

  lemma NothingMarshalled(db: Db, b: Buffer)
    requires ValidDb(db)
    ensures Marshalled(db, b, b.Keys - b.Keys, map[])
  {
  }

  lemma OneMarshalled(db: Db, b: Buffer, todo: set<int>, batch: Db, k: int)
    requires ValidDb(db) && Marshalled(db, b, b.Keys - todo, batch) && k in todo && todo <= b.Keys
    ensures Marshalled(db, b, b.Keys - (todo - {k}), batch[k := Encode(Merged(db, k, b[k]))])
  {
    hide Encode, Merged;
    assert b.Keys - (todo - {k}) == b.Keys - todo + {k};
  }

  // Whole sessions

  /** The steps can be taken one after the other from `s` and end in `t`. */
  ghost predicate Runs(s: State, steps: seq<Step>, t: State)
    decreases |steps|
  {
    if steps == [] then s == t
    else ValidDb(s.db) && Enabled(s, steps[0]) && Runs(Next(s, steps[0]), steps[1..], t)
  }

  function Sent(steps: seq<Step>, x: int64): (r: set<int64>)
  {
    if steps == [] then {} else SentBy(steps[0], x) + Sent(steps[1..], x)
  }

  /** Whatever the interleaving: stored + being written + queued + buffered + pending = initial + sent. */
  lemma {:induction false} NothingIsLost(s: State, steps: seq<Step>, t: State, x: int64)
    requires Inv(s) && Runs(s, steps, t)
    ensures Inv(t)
    ensures Everywhere(t, x) == Everywhere(s, x) + Sent(steps, x)
    decreases |steps|
  {
    hide Inv, Everywhere, Enabled, Next, SentBy;
    if steps != [] {
      StepKeepsInv(s, steps[0]);
      StepKeepsRefs(s, steps[0], x);
      NothingIsLost(Next(s, steps[0]), steps[1..], t, x);
    }
  }

  /** The sends of a session as single calls of `Add`. */
  function Adds(steps: seq<Step>): (r: seq<Op>)
  {
    if steps == [] then []
    else (if steps[0].Send? then [Op.Add(steps[0].p.id, steps[0].p.ref)] else []) + Adds(steps[1..])
  }

  lemma {:induction false} AfterConcat(refs: set<int64>, a: seq<Op>, b: seq<Op>, x: int64)
    ensures RefIndex.After(refs, a + b, x) == RefIndex.After(RefIndex.After(refs, a, x), b, x)
    decreases |b|
  {
    if b == [] {
      assert a + b == a;
    } else {
      var op := b[|b| - 1];
      assert a + b == a + b[..|b| - 1] + [op];
      assert b == b[..|b| - 1] + [op];
      AfterSnoc(refs, a + b[..|b| - 1], op, x);
      AfterSnoc(RefIndex.After(refs, a, x), b[..|b| - 1], op, x);
      AfterConcat(refs, a, b[..|b| - 1], x);
    }
  }

  lemma {:induction false} AddsUnion(refs: set<int64>, steps: seq<Step>, x: int64)
    ensures RefIndex.After(refs, Adds(steps), x) == refs + Sent(steps, x)
    decreases |steps|
  {
    if steps != [] {
      var head := if steps[0].Send? then [Op.Add(steps[0].p.id, steps[0].p.ref)] else [];
      AfterConcat(refs, head, Adds(steps[1..]), x);
      assert head != [] ==> head[..0] == [];
      AddsUnion(RefIndex.After(refs, head, x), steps[1..], x);
    }
  }

  lemma {:induction false} SentIs(steps: seq<Step>, x: int64, ref: int64)
    ensures ref in Sent(steps, x) <==> Send(IdRef(x, ref)) in steps
  {
    if steps != [] {
      SentIs(steps[1..], x, ref);
      assert forall step :: step in steps <==> step == steps[0] || step in steps[1..];
    }
  }

  /** A finished session leaves the index that single calls of `Add`, one per pair, would have left. */
  lemma FinishedSession(db: Db, steps: seq<Step>, t: State, x: int64)
    requires ValidDb(db) && Runs(Start(db), steps, t) && t.writer.Closed?
    ensures ValidDb(t.db)
    ensures RefsOf(t.db, x) == RefIndex.After(RefsOf(db, x), Adds(steps), x)
    ensures forall ref: int64 :: ref in RefsOf(t.db, x) <==> ref in RefsOf(db, x) || Send(IdRef(x, ref)) in steps
  {
    hide RefsOf, Runs, ValidDb, BufferRefs, Adds, RefIndex.After, Sent;
    forall ref: int64 ensures ref in Sent(steps, x) <==> Send(IdRef(x, ref)) in steps { SentIs(steps, x, ref); }
    EmptyBuffer();
    NothingBuffered(x);
    NothingIsLost(Start(db), steps, t, x);
    AddsUnion(RefsOf(db, x), steps, x);
    assert QueueRefs([], x) == {} && PendingRefs([], x) == {};
  }

  /** No deadlock: once the session is being ended, some goroutine can always go on until the writer is done. */
  lemma CanGoOn(s: State) returns (step: Step)
    requires Inv(s) && s.addClosed && !s.writer.Closed?
    ensures Enabled(s, step)
  {
    if s.writer.Merging? {
      var todo := s.writer.todo;
      step := Commit;
      if todo != {} {
        var k := Element(todo);
        step := MergeBunch(k);
      }
    } else if s.queue != [] {
      step := Take;
    } else if s.dispatcher == Receiving {
      step := if s.pending == [] then DispatchEnd else Dispatch;
    } else if s.dispatcher != Finished {
      step := HandOver;
    } else {
      step := if s.writeClosed then WriterEnd else CloseWrite;
    }
  }

  // How long the end of a session takes

  /** A buffer is taken, its bunches are merged, and they are committed. */
  function QueueWork(queue: seq<Buffer>): (r: nat)
  {
    if queue == [] then 0 else |queue[0]| + 2 + QueueWork(queue[1..])
  }

  lemma {:induction false} QueueWorkSnoc(queue: seq<Buffer>, b: Buffer)
    ensures QueueWork(queue + [b]) == QueueWork(queue) + |b| + 2
  {
    if queue == [] {
      assert queue + [b] == [b] && [b][1..] == [];
    } else {
      assert (queue + [b])[1..] == queue[1..] + [b];
      QueueWorkSnoc(queue[1..], b);
    }
  }

  function WriterWork(w: Writer): (r: nat)
  {
    match w
    case Idle => 1
    case Merging(_, todo, _) => |todo| + 2
    case Closed => 0
  }

  function DispatcherWork(d: Dispatcher): (r: nat)
  {
    match d
    case Receiving => 4
    case HandingOver => 7
    case HandingOverLast => 3
    case Finished => 0
  }

  /** No more steps than this are left when no pair can be sent any more. */
  function Work(s: State): (r: nat)
  {
    5 * |s.pending| + DispatcherWork(s.dispatcher) + |s.buffer| + QueueWork(s.queue) + WriterWork(s.writer)
      + if s.writeClosed then 0 else 1
  }

  lemma AddedSize(b: Buffer, p: IdRef)
    ensures |Added(b, p)| <= |b| + 1
  {
    var r := Added(b, p);
    assert r.Keys == b.Keys + {BunchId(p.id)};
    hide *;
    assert |r| == |r.Keys| && |b| == |b.Keys|;
  }

  lemma DispatcherLowersWork(s: State, step: Step)
    requires ValidDb(s.db) && Enabled(s, step) && step in {Dispatch, DispatchEnd, HandOver, CloseWrite}
    ensures Work(Next(s, step)) < Work(s)
  {
    hide ValidDb, Added, Merged, Encode, QueueWork;
    match step
    case Dispatch => AddedSize(s.buffer, s.pending[0]);
    case HandOver => QueueWorkSnoc(s.queue, s.buffer);
    case _ =>
  }

  lemma WriterLowersWork(s: State, step: Step)
    requires ValidDb(s.db) && Enabled(s, step) && (step in {Take, Commit, WriterEnd} || step.MergeBunch?)
    ensures Work(Next(s, step)) < Work(s)
  {
    hide ValidDb, Added, Merged, Encode;
    if step == Take { assert |s.queue[0]| == |s.queue[0].Keys|; }
  }

  lemma StepLowersWork(s: State, step: Step)
    requires ValidDb(s.db) && s.addClosed && Enabled(s, step)
    ensures Next(s, step).addClosed && Work(Next(s, step)) < Work(s)
  {
    hide ValidDb, Added, Merged, Encode, Work;
    if step in {Dispatch, DispatchEnd, HandOver, CloseWrite} {
      DispatcherLowersWork(s, step);
    } else {
      WriterLowersWork(s, step);
    }
  }

  /** A session that is being ended takes a bounded number of steps, in whatever order. */
  lemma {:induction false} RunsEnd(s: State, steps: seq<Step>, t: State)
    requires s.addClosed && Runs(s, steps, t)
    ensures t.addClosed && |steps| + Work(t) <= Work(s)
    decreases |steps|
  {
    hide Work, Enabled, Next, ValidDb;
    if steps != [] {
      StepLowersWork(s, steps[0]);
      RunsEnd(Next(s, steps[0]), steps[1..], t);
    }
  }

  /** And it has come to its end exactly when no goroutine can go on. */
  lemma EndsOnlyWhenDone(s: State, steps: seq<Step>, t: State)
    requires Inv(s) && s.addClosed && Runs(s, steps, t)
    ensures t.writer.Closed? <==> forall step :: !Enabled(t, step)
  {
    hide Inv, Runs, ValidDb, Everywhere, Sent;
    NothingIsLost(s, steps, t, 0);
    RunsEnd(s, steps, t);
    if t.writer.Closed? {
      NothingAfterwards(t);
    } else {
      var step := CanGoOn(t);
    }
  }

  lemma NothingAfterwards(t: State)
    requires Inv(t) && t.addClosed && t.writer.Closed?
    ensures forall step :: !Enabled(t, step)
  {
  }
}
