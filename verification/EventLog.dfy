/** Events through the log: batches of 40-byte events are appended, synced, and replayed into a book after whatever
    happened in between (replay/src/wal.rs, core/src/event.rs). */
module EventLog {
  import opened Events
  import opened Bytes
  import opened OrderStore
  import opened HotBook
  import B = BookSnapshot
  import opened Wal
  import W = WalProtocol

  // ---------------------------------------------------------------- the canonical event, 40 bytes

  function WriteEvent(e: Event): seq<Byte> {
    Le(e.ts, 8) + Le(e.price, 8) + Le(e.qty, 8) + Le(e.orderId, 8) + Le(e.instrumentId, 4) + [e.eventType, e.side, 0, 0]
  }

  function ReadEvent(b: seq<Byte>): Event {
    if |b| == 40 then Event(U64At(b, 0), U64At(b, 8), U64At(b, 16), U64At(b, 24), U32At(b, 32), b[36], b[37])
    else Event(0, 0, 0, 0, 0, 0, 0)
  }

  const EVENTS: B.Codec<Event> := B.Codec(40, WriteEvent, ReadEvent)

  lemma WordsRead(a: seq<Byte>, b: seq<Byte>, c: seq<Byte>, d: seq<Byte>, e: seq<Byte>)
    requires |a| == |b| == |c| == |d| == 8
    ensures var s := a + b + c + d + e;
            && s == [] + a + (b + c + d + e) && s == a + b + (c + d + e)
            && s == (a + b) + c + (d + e) && s == (a + b + c) + d + e
  {
  }

  lemma EventRoundTrip(e: Event)
    ensures |WriteEvent(e)| == 40 && ReadEvent(WriteEvent(e)) == e
  {
    var a, b, c, d, i := Le(e.ts, 8), Le(e.price, 8), Le(e.qty, 8), Le(e.orderId, 8), Le(e.instrumentId, 4);
    var z: seq<Byte> := [e.eventType, e.side, 0, 0];
    assert WriteEvent(e) == a + b + c + d + (i + z) == (a + b + c + d) + i + z;
    WordsRead(a, b, c, d, i + z);
    FieldU64([], e.ts, b + c + d + (i + z));
    FieldU64(a, e.price, c + d + (i + z));
    FieldU64(a + b, e.qty, d + (i + z));
    FieldU64(a + b + c, e.orderId, i + z);
    FieldU32(a + b + c + d, e.instrumentId, z);
  }

  /** Where the canonical event keeps its fields; the last two bytes are zero. */
  lemma EventFields(e: Event)
    ensures var b := WriteEvent(e);
            && |b| == 40 && U64At(b, 0) == e.ts && U64At(b, 8) == e.price && U64At(b, 16) == e.qty
            && U64At(b, 24) == e.orderId && U32At(b, 32) == e.instrumentId
            && b[36] == e.eventType && b[37] == e.side && b[38] == b[39] == 0
  {
    EventRoundTrip(e);
  }

  // ---------------------------------------------------------------- records are batches

  function Record(batch: seq<Event>): Payload {
    B.Rows(EVENTS, batch)
  }

  /** A record whose length is no multiple of the event's holds no events; the source's cast refuses it. */
  function Batch(record: Payload): seq<Event> {
    SpanOfEvents(|record| / 40);
    if |record| % 40 == 0 then B.ReadRows(EVENTS, record, 0, |record| / 40) else []
  }

  lemma {:induction false} SpanOfEvents(n: nat)
    ensures B.Span(n, 40) == 40 * n
  {
    if n > 0 {
      SpanOfEvents(n - 1);
    }
  }

  lemma EventsFaithful(batch: seq<Event>)
    ensures B.Faithful(EVENTS, batch)
  {
    forall i | 0 <= i < |batch|
      ensures |EVENTS.write(batch[i])| == 40 && EVENTS.read(EVENTS.write(batch[i])) == batch[i]
    {
      EventRoundTrip(batch[i]);
    }
  }

  lemma BatchRoundTrip(batch: seq<Event>)
    ensures |Record(batch)| == 40 * |batch| && Batch(Record(batch)) == batch
  {
    EventsFaithful(batch);
    SpanOfEvents(|batch|);
    RecordReads(EVENTS, batch);
  }

  lemma RecordReads<T>(c: B.Codec<T>, xs: seq<T>)
    requires B.Faithful(c, xs)
    ensures |B.Rows(c, xs)| == B.Span(|xs|, c.width) && B.ReadRows(c, B.Rows(c, xs), 0, |xs|) == xs
  {
    B.RowsLength(c, xs);
    B.RowsRoundTrip(c, [], xs, []);
    assert [] + B.Rows(c, xs) + [] == B.Rows(c, xs);
  }

  function Records(batches: seq<seq<Event>>): seq<Payload> {
    seq(|batches|, k requires 0 <= k < |batches| => Record(batches[k]))
  }

  function Appends(ps: seq<Payload>): seq<W.Action> {
    seq(|ps|, k requires 0 <= k < |ps| => W.Append(ps[k]))
  }

  function Concat(batches: seq<seq<Event>>): seq<Event> {
    if batches == [] then [] else batches[0] + Concat(batches[1..])
  }

  // ---------------------------------------------------------------- the log of a run of appends

  lemma {:induction false} RunSplits(f: Framing, segmentSize: nat, d: W.Disk, a: seq<W.Action>, b: seq<W.Action>)
    ensures W.Run(f, segmentSize, d, a + b) == W.Run(f, segmentSize, W.Run(f, segmentSize, d, a), b)
    decreases a
  {
    if a == [] {
      assert a + b == b;
    } else {
      assert (a + b)[1..] == a[1..] + b;
      RunSplits(f, segmentSize, W.Step(f, segmentSize, d, a[0]), a[1..], b);
    }
  }

  /** Appending records appends them, across any rotations. */
  lemma {:induction false} AppendsAreLogged(f: Framing, segmentSize: nat, d: W.Disk, ps: seq<Payload>)
    requires Lawful(f) && W.Clean(f, d) && AllSmall(ps)
    ensures var e := W.Run(f, segmentSize, d, Appends(ps));
            W.Clean(f, e) && ReadAll(f, W.Segments(e)) == ReadAll(f, W.Segments(d)) + ps
    decreases ps
  {
    if ps == [] {
      assert ReadAll(f, W.Segments(d)) + [] == ReadAll(f, W.Segments(d));
    } else {
      var e := W.Step(f, segmentSize, d, W.Append(ps[0]));
      W.StepRefines(f, segmentSize, d, W.Append(ps[0]));
      assert Appends(ps)[1..] == Appends(ps[1..]);
      AppendsAreLogged(f, segmentSize, e, ps[1..]);
      assert ReadAll(f, W.Segments(d)) + [ps[0]] + ps[1..] == ReadAll(f, W.Segments(d)) + ps;
    }
  }

  const NEW_LOG := W.Disk([], [], 0)

  /** Append, sync, then anything at all: the records come back first and in order, and alone if nothing was appended. */
  lemma AppendedSurvive(crc32: Crc32, segmentSize: nat, ps: seq<Payload>, later: seq<W.Action>)
    requires AllSmall(ps)
    ensures var f := Crc32Framing(crc32);
            var rs := ReadAll(f, W.Segments(W.Run(f, segmentSize, NEW_LOG, Appends(ps) + [W.Sync] + later)));
            ps <= rs && (W.NoAppend(later) ==> rs == ps)
  {
    var f := Crc32Framing(crc32);
    Crc32FramingIsLawful(crc32);
    W.EmptyIsClean(f, []);
    AppendsAreLogged(f, segmentSize, NEW_LOG, ps);
    var d := W.Run(f, segmentSize, NEW_LOG, Appends(ps));
    var e := d.(durable := |d.current|);
    RunSplits(f, segmentSize, NEW_LOG, Appends(ps) + [W.Sync], later);
    RunSplits(f, segmentSize, NEW_LOG, Appends(ps), [W.Sync]);
    assert W.Run(f, segmentSize, d, [W.Sync]) == W.Run(f, segmentSize, e, []) == e;
    assert ReadAll(f, W.Segments(NEW_LOG)) == [];
    assert [] + ps == ps;
    W.SyncedSurvivesForever(crc32, segmentSize, e, later);
    if W.NoAppend(later) {
      W.QuietRunStays(crc32, segmentSize, e, later);
    }
  }

  // ---------------------------------------------------------------- replay

  /** Apply the events of each record in turn. */
  function Replay(cap: nat, h: HotState, rs: seq<Payload>): (g: HotState)
    requires WellFormed(h.slab)
    ensures WellFormed(g.slab)
    decreases rs
  {
    if rs == [] then h else Replay(cap, HotRun(cap, h, Batch(rs[0])), rs[1..])
  }

  /** Record by record or as one stream. */
  lemma {:induction false} ReplayIsRun(cap: nat, h: HotState, batches: seq<seq<Event>>)
    requires WellFormed(h.slab)
    ensures Replay(cap, h, Records(batches)) == HotRun(cap, h, Concat(batches))
    decreases batches
  {
    if batches != [] {
      BatchRoundTrip(batches[0]);
      assert Records(batches)[1..] == Records(batches[1..]);
      ReplayIsRun(cap, HotRun(cap, h, batches[0]), batches[1..]);
      B.RunSplits(cap, h, batches[0], Concat(batches[1..]));
    }
  }

  lemma {:induction false} RecordsAreSmall(batches: seq<seq<Event>>)
    requires forall k :: 0 <= k < |batches| ==> 40 * |batches[k]| < 0x1_0000_0000
    ensures AllSmall(Records(batches))
  {
    forall k | 0 <= k < |batches|
      ensures Small(Records(batches)[k])
    {
      BatchRoundTrip(batches[k]);
    }
  }

  lemma PrefixReplays(batches: seq<seq<Event>>, rs: seq<Payload>, cap: nat)
    requires Records(batches) <= rs
    ensures |rs| >= |batches| && forall k :: 0 <= k < |batches| ==> Batch(rs[k]) == batches[k]
    ensures Replay(cap, EMPTY_HOT, rs[..|batches|]) == HotRun(cap, EMPTY_HOT, Concat(batches))
  {
    forall k | 0 <= k < |batches|
      ensures Batch(rs[k]) == batches[k]
    {
      assert rs[k] == Records(batches)[k];
      BatchRoundTrip(batches[k]);
    }
    assert rs[..|batches|] == Records(batches);
    ReplayIsRun(cap, EMPTY_HOT, batches);
  }

  /** Batches of events appended to a new log and synced rebuild, after any later appends, syncs, kills, crashes and
      reopenings, the book that the live stream built: from the first records of the log, or from all of it if nothing was
      appended since. */
  lemma LogRebuildsBook(crc32: Crc32, segmentSize: nat, batches: seq<seq<Event>>, later: seq<W.Action>, cap: nat)
    requires forall k :: 0 <= k < |batches| ==> 40 * |batches[k]| < 0x1_0000_0000
    ensures var f := Crc32Framing(crc32);
            var acts := Appends(Records(batches)) + [W.Sync] + later;
            var rs := ReadAll(f, W.Segments(W.Run(f, segmentSize, NEW_LOG, acts)));
            && |rs| >= |batches|
            && (forall k :: 0 <= k < |batches| ==> Batch(rs[k]) == batches[k])
            && Replay(cap, EMPTY_HOT, rs[..|batches|]) == HotRun(cap, EMPTY_HOT, Concat(batches))
            && (W.NoAppend(later) ==> Replay(cap, EMPTY_HOT, rs) == HotRun(cap, EMPTY_HOT, Concat(batches)))
  {
    var acts := Appends(Records(batches)) + [W.Sync] + later;
    var rs := ReadAll(Crc32Framing(crc32), W.Segments(W.Run(Crc32Framing(crc32), segmentSize, NEW_LOG, acts)));
    RecordsAreSmall(batches);
    AppendedSurvive(crc32, segmentSize, Records(batches), later);
    PrefixReplays(batches, rs, cap);
    ReplayIsRun(cap, EMPTY_HOT, batches);
  }
}
