/** Replaying a capture file into the ring: cutting it into batches of whole messages
    (replay/src/file_source.rs), without pacing. */
module FileReplay {
  import opened Events
  import opened ItchStream

  const BATCH_TARGET: nat := 64 * 1024

  datatype ReplayError =
    | UnknownMessage(ty: Byte, offset: nat)
    | TruncatedAt(offset: nat, need: nat)

  datatype Stats = Stats(messages: nat, bytes: nat)

  // ---------------------------------------------------------------- the greedy cut

  /** Batches closed so far, and the bytes of the one still open. */
  datatype Cutting = Cutting(sent: seq<seq<Byte>>, open: seq<Byte>)

  function Close(c: Cutting): Cutting {
    if |c.open| >= BATCH_TARGET then Cutting(c.sent + [c.open], []) else c
  }

  /** A batch closes with the first message that takes it to the target. */
  function Cut(ms: seq<seq<Byte>>): Cutting {
    if ms == [] then Cutting([], [])
    else
      var c := Cut(ms[..|ms| - 1]);
      Close(Cutting(c.sent, c.open + ms[|ms| - 1]))
  }

  lemma CutSnoc(ms: seq<seq<Byte>>, m: seq<Byte>)
    ensures Cut(ms + [m]) == Close(Cutting(Cut(ms).sent, Cut(ms).open + m))
  {
    assert (ms + [m])[..|ms|] == ms;
  }

  lemma {:induction false} FlattenSnoc(ms: seq<seq<Byte>>, m: seq<Byte>)
    ensures Flatten(ms + [m]) == Flatten(ms) + m
  {
    if ms == [] {
      assert ms + [m] == [m] && [m][1..] == [];
    } else {
      assert (ms + [m])[1..] == ms[1..] + [m];
      FlattenSnoc(ms[1..], m);
    }
  }

  /** Closed batches and the open one are the messages, in order. */
  lemma {:induction false} CutConserves(ms: seq<seq<Byte>>)
    ensures Flatten(Cut(ms).sent) + Cut(ms).open == Flatten(ms) && |Cut(ms).open| < BATCH_TARGET
    decreases |ms|
  {
    if ms != [] {
      var n := |ms| - 1;
      var c := Cut(ms[..n]);
      CutConserves(ms[..n]);
      FlattenSnoc(ms[..n], ms[n]);
      FlattenSnoc(c.sent, c.open + ms[n]);
      assert ms == ms[..n] + [ms[n]];
      assert Flatten(c.sent) + c.open + ms[n] == Flatten(c.sent) + (c.open + ms[n]);
    }
  }

  /** Every closed batch reaches the target, and would not have without its last message. */
  ghost predicate Greedy(ms: seq<seq<Byte>>, b: seq<Byte>) {
    |b| >= BATCH_TARGET && exists k :: 0 <= k <= |b| && b[k..] in ms && k < BATCH_TARGET
  }

  lemma {:induction false} CutIsGreedy(ms: seq<seq<Byte>>)
    ensures forall b :: b in Cut(ms).sent ==> Greedy(ms, b)
    decreases |ms|
  {
    if ms != [] {
      var n := |ms| - 1;
      var c, m := Cut(ms[..n]), ms[n];
      CutIsGreedy(ms[..n]);
      CutConserves(ms[..n]);
      forall b | b in Cut(ms).sent
        ensures Greedy(ms, b)
      {
        if b in c.sent {
          var k :| 0 <= k <= |b| && b[k..] in ms[..n] && k < BATCH_TARGET;
          assert b[k..] in ms;
        } else {
          assert b == c.open + m && b[|c.open|..] == m;
        }
      }
    }
  }

  /** A batch closed by messages of at most 50 bytes, as those of the protocol are, takes 64 KiB and less than one message
      more; what waits is less than 64 KiB. */
  lemma BatchSizes(ms: seq<seq<Byte>>, b: seq<Byte>)
    requires forall k :: 0 <= k < |ms| ==> |ms[k]| <= 50
    ensures b in Cut(ms).sent ==> 65536 <= |b| < 65586
    ensures |Cut(ms).open| < 65536
  {
    CutIsGreedy(ms);
    CutConserves(ms);
    if b in Cut(ms).sent {
      assert Greedy(ms, b);
    }
  }

  /** Bytes waiting in the open batch: a fold over the message lengths. */
  function OpenBytes(ms: seq<seq<Byte>>): nat {
    if ms == [] then 0
    else
      var o := OpenBytes(ms[..|ms| - 1]) + |ms[|ms| - 1]|;
      if o >= BATCH_TARGET then 0 else o
  }

  lemma {:induction false} OpenBytesCount(ms: seq<seq<Byte>>)
    ensures |Cut(ms).open| == OpenBytes(ms)
    decreases |ms|
  {
    if ms != [] {
      OpenBytesCount(ms[..|ms| - 1]);
    }
  }

  /** Less than a batch closes nothing. */
  lemma {:induction false} ShortStaysOpen(ms: seq<seq<Byte>>)
    requires |Flatten(ms)| < BATCH_TARGET
    ensures Cut(ms) == Cutting([], Flatten(ms))
    decreases |ms|
  {
    if ms != [] {
      var n := |ms| - 1;
      FlattenSnoc(ms[..n], ms[n]);
      assert ms == ms[..n] + [ms[n]];
      ShortStaysOpen(ms[..n]);
    }
  }

  // ---------------------------------------------------------------- what a replay does

  function ParserError(e: ReplayError): ParseError {
    if e.UnknownMessage? then UnknownType else TruncatedMessage
  }

  predicate Bad(p: Protocol, buf: seq<Byte>, cur: nat) {
    cur < |buf| && (p.length(buf[cur]) == 0 || cur + p.length(buf[cur]) > |buf|)
  }

  /** The error names the message under the cursor. */
  function ErrorAt(p: Protocol, buf: seq<Byte>, cur: nat): ReplayError
    requires Bad(p, buf, cur)
  {
    if p.length(buf[cur]) == 0 then UnknownMessage(buf[cur], cur) else TruncatedAt(cur, cur + p.length(buf[cur]) - |buf|)
  }

  /** A finished replay sent everything, cut greedily with the remainder last, and counted it. */
  predicate Finished(p: Protocol, buf: seq<Byte>, base: nat, batches: seq<seq<Byte>>, stats: Stats) {
    && base <= |buf| && Parse(p, buf[base..]).error.None? && Flatten(batches) == buf[base..]
    && var ms := Messages(p, buf[base..]);
       && batches == Cut(ms).sent + (if Cut(ms).open == [] then [] else [Cut(ms).open])
       && stats == Stats(|ms|, |buf| - base)
  }

  /** A failed replay fails as the parser does, with the cursor behind the good messages; it has sent their closed
      batches and no more. */
  predicate Failed(p: Protocol, buf: seq<Byte>, base: nat, cur: nat, batches: seq<seq<Byte>>, e: ReplayError) {
    && base <= cur && Bad(p, buf, cur) && e == ErrorAt(p, buf, cur)
    && Parse(p, buf[base..]).error == Some(ParserError(e))
    && Flatten(Messages(p, buf[base..])) == buf[base..cur]
    && batches == Cut(Messages(p, buf[base..])).sent
  }

  /** From `base` the messages `ms` have been passed, ending at `cur`, and cut up to `start`. */
  predicate Passed(p: Protocol, buf: seq<Byte>, base: nat, cur: nat, start: nat, ms: seq<seq<Byte>>, batches: seq<seq<Byte>>) {
    && base <= start <= cur <= |buf| && AllWhole(p, ms) && Flatten(ms) == buf[base..cur]
    && Cut(ms) == Cutting(batches, buf[start..cur])
  }

  lemma PassedParses(p: Protocol, buf: seq<Byte>, base: nat, cur: nat, start: nat,
                     ms: seq<seq<Byte>>, batches: seq<seq<Byte>>, error: Option<ParseError>)
    requires Passed(p, buf, base, cur, start, ms, batches) && Stops(p, buf[cur..], error)
    ensures Messages(p, buf[base..]) == ms && Parse(p, buf[base..]) == Parsed(EventsOf(p, ms), error)
  {
    assert buf[base..] == Flatten(ms) + buf[cur..];
    MessagesAre(p, ms, buf[cur..], error);
    ParseWhole(p, ms, buf[cur..]);
    StopsParse(p, buf[cur..], error);
    assert EventsOf(p, ms) + [] == EventsOf(p, ms);
  }

  lemma SliceSnoc(buf: seq<Byte>, a: nat, b: nat, c: nat)
    requires a <= b <= c <= |buf|
    ensures buf[a..b] + buf[b..c] == buf[a..c] && |buf[a..c]| == c - a
  {
  }

  lemma WholeSnoc(p: Protocol, ms: seq<seq<Byte>>, m: seq<Byte>)
    requires AllWhole(p, ms) && Whole(p, m)
    ensures AllWhole(p, ms + [m])
  {
  }

  lemma PassedMessage(p: Protocol, buf: seq<Byte>, base: nat, cur: nat, start: nat,
                      ms: seq<seq<Byte>>, batches: seq<seq<Byte>>, n: nat)
    requires Passed(p, buf, base, cur, start, ms, batches)
    requires cur < |buf| && n == p.length(buf[cur]) && 0 < n <= |buf| - cur
    ensures var next, more := cur + n, ms + [buf[cur..cur + n]];
            if next - start >= BATCH_TARGET then Passed(p, buf, base, next, next, more, batches + [buf[start..next]])
            else Passed(p, buf, base, next, start, more, batches)
  {
    var m := buf[cur..cur + n];
    FlattenSnoc(ms, m);
    SliceSnoc(buf, base, cur, cur + n);
    WholeSnoc(p, ms, m);
    CutPast(ms, buf, start, cur, n, batches);
    assert buf[cur + n..cur + n] == [];
  }

  lemma CutPast(ms: seq<seq<Byte>>, buf: seq<Byte>, start: nat, cur: nat, n: nat, batches: seq<seq<Byte>>)
    requires start <= cur <= cur + n <= |buf| && Cut(ms) == Cutting(batches, buf[start..cur])
    ensures var open := buf[start..cur + n];
            Cut(ms + [buf[cur..cur + n]])
            == if cur + n - start >= BATCH_TARGET then Cutting(batches + [open], []) else Cutting(batches, open)
  {
    CutSnoc(ms, buf[cur..cur + n]);
    SliceSnoc(buf, start, cur, cur + n);
  }

  // ---------------------------------------------------------------- what a failed replay loses

  /** What a failed replay has sent is whole messages, short of the good ones by the open batch. */
  lemma FailedSends(p: Protocol, buf: seq<Byte>, base: nat, cur: nat, batches: seq<seq<Byte>>, e: ReplayError)
    requires Failed(p, buf, base, cur, batches, e)
    ensures Flatten(batches) + Cut(Messages(p, buf[base..])).open == buf[base..cur]
    ensures cur - base - |Flatten(batches)| == OpenBytes(Messages(p, buf[base..])) < BATCH_TARGET
  {
    CutConserves(Messages(p, buf[base..]));
    OpenBytesCount(Messages(p, buf[base..]));
  }

  /** All good messages went out if and only if the last of them closed a batch. */
  lemma NothingLostIff(p: Protocol, buf: seq<Byte>, base: nat, cur: nat, batches: seq<seq<Byte>>, e: ReplayError)
    requires Failed(p, buf, base, cur, batches, e)
    ensures Flatten(batches) == buf[base..cur] <==> OpenBytes(Messages(p, buf[base..])) == 0
  {
    FailedSends(p, buf, base, cur, batches, e);
    var o := Cut(Messages(p, buf[base..])).open;
    assert o == [] ==> Flatten(batches) + o == Flatten(batches);
  }

  /** Nor does a second attempt send them: it stops where the first one stopped. */
  lemma RetrySendsNothing(p: Protocol, buf: seq<Byte>, base: nat, cur: nat, batches: seq<seq<Byte>>, e: ReplayError,
                          again: nat, more: seq<seq<Byte>>, f: ReplayError)
    requires Failed(p, buf, base, cur, batches, e) && Failed(p, buf, cur, again, more, f)
    ensures again == cur && more == [] && f == e
  {
    assert Messages(p, buf[cur..]) == [];
    assert |buf[cur..again]| == 0;
  }

  /** One order delete followed by a zero byte: the parser yields the delete, the replay fails and sends nothing. */
  lemma LostDelete(h: Itch.Header)
    ensures var capture := Itch.Encode(Itch.Delete(h)) + [0];
            && Parse(ITCH, capture).events == [Itch.Meaning(Itch.Delete(h))]
            && Failed(ITCH, capture, 0, 19, [], UnknownMessage(0, 19))
  {
    var m := Itch.Encode(Itch.Delete(h));
    EncodeIsWhole(Itch.Delete(h));
    OneMessage(ITCH, m, [0]);
    assert EventsOf(ITCH, [m]) == EventsIn(ITCH, m) + EventsOf(ITCH, [m][1..]);
  }

  lemma OneMessage(p: Protocol, m: seq<Byte>, rest: seq<Byte>)
    requires Whole(p, m) && |m| < BATCH_TARGET && Stops(p, rest, Some(UnknownType))
    ensures Failed(p, m + rest, 0, |m|, [], UnknownMessage(rest[0], |m|))
    ensures Parse(p, m + rest).events == EventsOf(p, [m])
  {
    var buf := m + rest;
    assert Flatten([m]) == m by {
      assert [m][1..] == [];
      assert m + [] == m;
    }
    ShortStaysOpen([m]);
    assert buf[0..|m|] == m && buf[|m|..] == rest;
    var c := Cut([m]);
    assert Passed(p, buf, 0, |m|, 0, [m], []);
    PassedParses(p, buf, 0, |m|, 0, [m], [], Some(UnknownType));
    assert buf[0..] == buf;
  }

  // ---------------------------------------------------------------- the loop

  /** The variables of the replay loop. */
  datatype Walk = Walk(cur: nat, start: nat, batches: seq<seq<Byte>>, messages: nat, bytes: nat)

  ghost predicate Looping(p: Protocol, buf: seq<Byte>, base: nat, w: Walk) {
    exists ms :: Walked(p, buf, base, w, ms)
  }

  ghost predicate Walked(p: Protocol, buf: seq<Byte>, base: nat, w: Walk, ms: seq<seq<Byte>>) {
    Passed(p, buf, base, w.cur, w.start, ms, w.batches) && w.messages == |ms| && w.bytes == w.cur - base
  }

  /** Past one message, and past a flush when the batch is full. */
  function Past(buf: seq<Byte>, w: Walk, n: nat): Walk
    requires w.start <= w.cur && w.cur + n <= |buf|
  {
    var next := w.cur + n;
    if next - w.start >= BATCH_TARGET
    then Walk(next, next, w.batches + [buf[w.start..next]], w.messages + 1, w.bytes + n)
    else Walk(next, w.start, w.batches, w.messages + 1, w.bytes + n)
  }

  lemma LoopBegins(p: Protocol, buf: seq<Byte>, base: nat)
    requires base <= |buf|
    ensures Looping(p, buf, base, Walk(base, base, [], 0, 0))
  {
    assert Walked(p, buf, base, Walk(base, base, [], 0, 0), []);
  }

  lemma WalkedPast(p: Protocol, buf: seq<Byte>, base: nat, w: Walk, ms: seq<seq<Byte>>, n: nat)
    requires Walked(p, buf, base, w, ms) && w.cur < |buf| && n == p.length(buf[w.cur]) && 0 < n <= |buf| - w.cur
    ensures w.start <= w.cur && Walked(p, buf, base, Past(buf, w, n), ms + [buf[w.cur..w.cur + n]])
  {
    PassedMessage(p, buf, base, w.cur, w.start, ms, w.batches, n);
  }

  lemma LoopsPast(p: Protocol, buf: seq<Byte>, base: nat, w: Walk, n: nat)
    requires Looping(p, buf, base, w) && w.cur < |buf| && n == p.length(buf[w.cur]) && 0 < n <= |buf| - w.cur
    ensures w.start <= w.cur && Looping(p, buf, base, Past(buf, w, n))
  {
    var ms :| Walked(p, buf, base, w, ms);
    WalkedPast(p, buf, base, w, ms, n);
  }

  lemma LoopEnds(p: Protocol, buf: seq<Byte>, base: nat, w: Walk)
    requires Looping(p, buf, base, w) && w.cur == |buf|
    ensures w.start <= |buf|
    ensures Finished(p, buf, base, if w.start < |buf| then w.batches + [buf[w.start..w.cur]] else w.batches,
                     Stats(w.messages, w.bytes))
  {
    var ms :| Walked(p, buf, base, w, ms);
    PassedParses(p, buf, base, w.cur, w.start, ms, w.batches, None);
    AllSent(ms, w.batches, buf[w.start..w.cur]);
    assert buf[base..w.cur] == buf[base..];
    assert w.batches + [] == w.batches;
  }

  /** The closed batches and what is open, if anything, are all the messages. */
  lemma AllSent(ms: seq<seq<Byte>>, batches: seq<seq<Byte>>, open: seq<Byte>)
    requires Cut(ms) == Cutting(batches, open)
    ensures Flatten(if open == [] then batches else batches + [open]) == Flatten(ms)
  {
    CutConserves(ms);
    FlattenSnoc(batches, open);
  }

  lemma LoopFails(p: Protocol, buf: seq<Byte>, base: nat, w: Walk)
    requires Looping(p, buf, base, w) && Bad(p, buf, w.cur)
    ensures Failed(p, buf, base, w.cur, w.batches, ErrorAt(p, buf, w.cur))
  {
    var ms :| Walked(p, buf, base, w, ms);
    PassedParses(p, buf, base, w.cur, w.start, ms, w.batches, Some(ParserError(ErrorAt(p, buf, w.cur))));
  }

  class FileItchReplay {
    const protocol: Protocol
    const buf: seq<Byte>
    var cursor: nat

    constructor (protocol: Protocol, buf: seq<Byte>)
      ensures this.protocol == protocol && this.buf == buf && cursor == 0
    {
      this.protocol := protocol;
      this.buf := buf;
      cursor := 0;
    }

    method Drive() returns (batches: seq<seq<Byte>>, r: Result<Stats, ReplayError>)
      requires cursor <= |buf|
      modifies this`cursor
      ensures match r
              case Ok(stats) => cursor == |buf| && Finished(protocol, buf, old(cursor), batches, stats)
              case Err(e) => Failed(protocol, buf, old(cursor), cursor, batches, e)
    {
      var messages: nat, bytes: nat, batchStart: nat := 0, 0, cursor;
      batches := [];
      ghost var base := cursor;
      LoopBegins(protocol, buf, base);
      while cursor < |buf|
        invariant batchStart <= cursor <= |buf|
        invariant Looping(protocol, buf, base, Walk(cursor, batchStart, batches, messages, bytes))
        decreases |buf| - cursor
      {
        ghost var w := Walk(cursor, batchStart, batches, messages, bytes);
        var len := protocol.length(buf[cursor]);
        if len == 0 || cursor + len > |buf| {
          LoopFails(protocol, buf, base, w);
          return batches, Err(ErrorAt(protocol, buf, cursor));
        }
        LoopsPast(protocol, buf, base, w, len);
        cursor, messages, bytes := cursor + len, messages + 1, bytes + len;
        if cursor - batchStart >= BATCH_TARGET {
          batches := batches + [buf[batchStart..cursor]];
          batchStart := cursor;
        }
        assert Walk(cursor, batchStart, batches, messages, bytes) == Past(buf, w, len);
      }
      LoopEnds(protocol, buf, base, Walk(cursor, batchStart, batches, messages, bytes));
      r := Ok(Stats(messages, bytes));
      if batchStart < cursor {
        batches := batches + [buf[batchStart..cursor]];
      }
    }
  }
}
