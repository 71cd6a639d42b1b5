/** The single-producer single-consumer byte ring: the Rust writer and reader (replay/src/ring_reader.rs), the
    Go writer (ingest/mmap/ring.go) and the batch flusher that retries on a full ring (replay/src/file_source.rs),
    as interleaved steps. Indices only grow; slot `i` of the stream lives at `i % capacity`. */
module Ring {
  import opened Events

  // ---------------------------------------------------------------- mask and modulus

  function Pow2(k: nat): (r: nat)
    ensures r > 0
  {
    if k == 0 then 1 else 2 * Pow2(k - 1)
  }

  /** Bitwise and of two naturals. */
  function BitAnd(x: nat, y: nat): nat
    decreases x
  {
    if x == 0 || y == 0 then 0 else (if x % 2 == 1 && y % 2 == 1 then 1 else 0) + 2 * BitAnd(x / 2, y / 2)
  }

  /** The value of the `k` low bits of `x`. */
  function LowBits(x: nat, k: nat): nat {
    if k == 0 then 0 else x % 2 + 2 * LowBits(x / 2, k - 1)
  }

  lemma {:induction false} MaskIsLowBits(x: nat, k: nat)
    ensures BitAnd(x, Pow2(k) - 1) == LowBits(x, k)
    decreases k
  {
    if k > 0 {
      MaskIsLowBits(x / 2, k - 1);
      if x > 0 {
        BitStep(x, Pow2(k - 1));
      }
    }
  }

  lemma {:induction false} ModulusIsLowBits(x: nat, k: nat)
    ensures x % Pow2(k) == LowBits(x, k)
    decreases k
  {
    if k > 0 {
      ModulusIsLowBits(x / 2, k - 1);
      HalveModulus(x, Pow2(k - 1));
    }
  }

  /** The Rust side masks, the Go side takes the remainder: same slot for a power-of-two capacity. */
  lemma MaskIsModulus(x: nat, k: nat)
    ensures BitAnd(x, Pow2(k) - 1) == x % Pow2(k)
  {
    MaskIsLowBits(x, k);
    ModulusIsLowBits(x, k);
  }

  lemma BitStep(x: nat, h: nat)
    requires x > 0 && h > 0
    ensures BitAnd(x, 2 * h - 1) == x % 2 + 2 * BitAnd(x / 2, h - 1)
  {
    assert (2 * h - 1) % 2 == 1 && (2 * h - 1) / 2 == h - 1;
  }

  lemma HalveModulus(x: nat, m: nat)
    requires m > 0
    ensures x % (2 * m) == x % 2 + 2 * ((x / 2) % m)
  {
    var q, r := (x / 2) / m, (x / 2) % m;
    assert x == (2 * m) * q + (x % 2 + 2 * r);
    UniqueRemainder(x, 2 * m, q, x % 2 + 2 * r);
  }

  lemma MulAtLeast(m: int, d: int)
    requires m > 0
    ensures d >= 1 ==> m * d >= m
    ensures d <= -1 ==> m * d <= -m
  {
    if d >= 1 {
      assert m * d == m + m * (d - 1);
    } else if d <= -1 {
      assert m * d == -m + m * (d + 1);
    }
  }

  lemma UniqueRemainder(x: int, m: int, q: int, r: int)
    requires m > 0 && x == m * q + r && 0 <= r < m
    ensures x % m == r
  {
    var d := x / m - q;
    MulAtLeast(m, d);
    assert x % m == x - m * (x / m);
    assert m * d == m * (x / m) - m * q;
  }

  /** Two stream positions less than a lap apart never share a slot. */
  lemma SlotsDistinct(i: nat, j: nat, c: nat)
    requires c > 0 && i < j < i + c
    ensures i % c != j % c
  {
    var q := j / c - i / c;
    MulAtLeast(c, q);
    assert c * q == c * (j / c) - c * (i / c);
    assert j - i == c * q + (j % c - i % c);
  }

  // ---------------------------------------------------------------- the machine

  /** What the writer is doing with the batch that `flush_batch` was given. */
  datatype Writer =
    | WIdle                          // no batch
    | WReady                         // about to try the whole remaining batch
    | WSecond(n: nat)                // the first try was refused with `n` bytes available; about to write those
    | WCopy(n: nat, done: nat)       // `n` bytes accepted, `done` of them copied, not yet published
    | WFailed                        // the second write was refused: an error to the caller

  datatype Reader = RIdle | RCopy(n: nat, dst: seq<Byte>)

  datatype State = State(
    cap: nat, slots: seq<Byte>, writeIdx: nat, readIdx: nat,
    writer: Writer, todo: seq<Byte>, reader: Reader,
    published: seq<Byte>, consumed: seq<Byte>, submitted: seq<Byte>)

  datatype Action =
    | Submit(batch: seq<Byte>)  // a new batch to flush
    | WriterLoad                // load both indices and compare
    | WriterCopy                // copy one byte
    | WriterPublish             // store the write index
    | ReaderLoad(max: nat)      // load both indices
    | ReaderCopy                // copy one byte out
    | ReaderAdvance             // advance the read index

  function Initial(cap: nat): State {
    State(cap, seq(cap, _ => 0), 0, 0, WIdle, [], RIdle, [], [], [])
  }

  function Free(s: State): int {
    s.cap - (s.writeIdx - s.readIdx)
  }

  /** A step that is not enabled leaves the state alone. */
  function Step(s: State, a: Action): State
    requires s.cap > 0 && |s.slots| == s.cap
  {
    match a
    case Submit(batch) =>
      if s.writer.WIdle? && batch != [] then s.(writer := WReady, todo := batch, submitted := s.submitted + batch) else s
    case WriterLoad =>
      if s.writer.WReady? then
        if |s.todo| <= Free(s) then s.(writer := WCopy(|s.todo|, 0))
        else if Free(s) > 0 then s.(writer := WSecond(Free(s)))
        else s
      else if s.writer.WSecond? then
        if s.writer.n <= Free(s) then s.(writer := WCopy(s.writer.n, 0)) else s.(writer := WFailed)
      else s
    case WriterCopy =>
      if s.writer.WCopy? && s.writer.done < s.writer.n && s.writer.done < |s.todo| then
        s.(slots := s.slots[(s.writeIdx + s.writer.done) % s.cap := s.todo[s.writer.done]],
           writer := s.writer.(done := s.writer.done + 1))
      else s
    case WriterPublish =>
      if s.writer.WCopy? && s.writer.done == s.writer.n && s.writer.n <= |s.todo| then
        var rest := s.todo[s.writer.n..];
        s.(writeIdx := s.writeIdx + s.writer.n, published := s.published + s.todo[..s.writer.n],
           todo := rest, writer := if rest == [] then WIdle else WReady)
      else s
    case ReaderLoad(max) =>
      if s.reader.RIdle? && s.writeIdx - s.readIdx > 0 && max > 0 then
        var avail := s.writeIdx - s.readIdx;
        s.(reader := RCopy(if avail > max then max else avail, []))
      else s
    case ReaderCopy =>
      if s.reader.RCopy? && |s.reader.dst| < s.reader.n then
        s.(reader := s.reader.(dst := s.reader.dst + [s.slots[(s.readIdx + |s.reader.dst|) % s.cap]]))
      else s
    case ReaderAdvance =>
      if s.reader.RCopy? && |s.reader.dst| == s.reader.n then
        s.(readIdx := s.readIdx + s.reader.n, consumed := s.consumed + s.reader.dst, reader := RIdle)
      else s
  }

  // ---------------------------------------------------------------- what every step keeps

  ghost predicate Window(s: State) {
    && s.cap > 0 && |s.slots| == s.cap
    && s.readIdx <= s.writeIdx <= s.readIdx + s.cap
    && |s.published| == s.writeIdx
    && s.consumed == s.published[..s.readIdx]
    && s.published + s.todo == s.submitted
  }

  /** Published and unread bytes are where the reader will look. */
  ghost predicate Unread(s: State)
    requires Window(s)
  {
    forall i :: s.readIdx <= i < s.writeIdx ==> s.slots[i % s.cap] == s.published[i]
  }

  ghost predicate WriterOk(s: State)
    requires Window(s)
  {
    match s.writer
    case WIdle => s.todo == []
    case WReady => s.todo != []
    case WSecond(n) => 0 < n < |s.todo| && n <= Free(s)
    case WCopy(n, done) =>
      && 0 < n <= |s.todo| && done <= n <= Free(s)
      && forall j :: 0 <= j < done ==> s.slots[(s.writeIdx + j) % s.cap] == s.todo[j]
    case WFailed => false
  }

  ghost predicate ReaderOk(s: State)
    requires Window(s)
  {
    s.reader.RCopy? ==>
      && |s.reader.dst| <= s.reader.n && s.readIdx + s.reader.n <= s.writeIdx
      && s.reader.dst == s.published[s.readIdx..s.readIdx + |s.reader.dst|]
  }

  ghost predicate Inv(s: State) {
    Window(s) && Unread(s) && WriterOk(s) && ReaderOk(s)
  }

  lemma InitialInv(cap: nat)
    requires cap > 0
    ensures Inv(Initial(cap))
  {
  }

  /** Copying into a free slot disturbs neither the unread bytes nor those copied before it. */
  lemma CopyKeeps(s: State)
    requires Inv(s) && s.writer.WCopy? && s.writer.done < s.writer.n
    ensures Inv(Step(s, WriterCopy))
  {
    var w := s.writeIdx + s.writer.done;
    var t := Step(s, WriterCopy);
    forall i | s.readIdx <= i < s.writeIdx
      ensures t.slots[i % s.cap] == s.published[i]
    {
      SlotsDistinct(i, w, s.cap);
    }
    forall j | 0 <= j < s.writer.done
      ensures t.slots[(s.writeIdx + j) % s.cap] == s.todo[j]
    {
      SlotsDistinct(s.writeIdx + j, w, s.cap);
    }
    assert WriterOk(t);
  }

  lemma PublishKeepsWindow(s: State)
    requires Inv(s) && s.writer.WCopy? && s.writer.done == s.writer.n
    ensures Window(Step(s, WriterPublish))
  {
    var n := s.writer.n;
    assert s.todo == s.todo[..n] + s.todo[n..];
    assert s.published + s.todo[..n] + s.todo[n..] == s.published + s.todo;
  }

  lemma PublishKeeps(s: State)
    requires Inv(s) && s.writer.WCopy? && s.writer.done == s.writer.n
    ensures Inv(Step(s, WriterPublish))
  {
    var t := Step(s, WriterPublish);
    PublishKeepsWindow(s);
    forall i | t.readIdx <= i < t.writeIdx
      ensures t.slots[i % t.cap] == t.published[i]
    {
      if i >= s.writeIdx {
        var j := i - s.writeIdx;
        assert s.slots[(s.writeIdx + j) % s.cap] == s.todo[j];
      }
    }
    assert s.reader.RCopy? ==> t.published[s.readIdx..s.readIdx + |s.reader.dst|] == s.reader.dst;
  }

  lemma ReaderCopyKeeps(s: State)
    requires Inv(s) && s.reader.RCopy? && |s.reader.dst| < s.reader.n
    ensures Inv(Step(s, ReaderCopy))
  {
    var i := s.readIdx + |s.reader.dst|;
    assert s.slots[i % s.cap] == s.published[i];
    assert s.published[s.readIdx..i + 1] == s.published[s.readIdx..i] + [s.published[i]];
  }

  lemma ReaderAdvanceKeeps(s: State)
    requires Inv(s) && s.reader.RCopy? && |s.reader.dst| == s.reader.n
    ensures Inv(Step(s, ReaderAdvance))
  {
    var n := s.readIdx + s.reader.n;
    assert s.published[..n] == s.published[..s.readIdx] + s.published[s.readIdx..n];
  }

  lemma SubmitKeeps(s: State, batch: seq<Byte>)
    requires Inv(s)
    ensures Inv(Step(s, Submit(batch)))
  {
    assert s.writer.WIdle? ==> s.published + batch == s.submitted + batch;
  }

  lemma ReaderLoadKeeps(s: State, max: nat)
    requires Inv(s)
    ensures Inv(Step(s, ReaderLoad(max)))
  {
  }

  /** Any step, by either side, at any moment. */
  lemma StepKeeps(s: State, a: Action)
    requires Inv(s)
    ensures Inv(Step(s, a))
  {
    match a {
      case Submit(batch) =>
        SubmitKeeps(s, batch);
      case WriterLoad =>
      case WriterCopy =>
        if s.writer.WCopy? && s.writer.done < s.writer.n {
          CopyKeeps(s);
        }
      case WriterPublish =>
        if s.writer.WCopy? && s.writer.done == s.writer.n {
          PublishKeeps(s);
        }
      case ReaderLoad(max) =>
        ReaderLoadKeeps(s, max);
      case ReaderCopy =>
        if s.reader.RCopy? && |s.reader.dst| < s.reader.n {
          ReaderCopyKeeps(s);
        }
      case ReaderAdvance =>
        if s.reader.RCopy? && |s.reader.dst| == s.reader.n {
          ReaderAdvanceKeeps(s);
        }
    }
  }

  function Run(s: State, acts: seq<Action>): (t: State)
    requires s.cap > 0 && |s.slots| == s.cap
    ensures t.cap == s.cap && |t.slots| == t.cap
    decreases acts
  {
    if acts == [] then s else Run(Step(s, acts[0]), acts[1..])
  }

  lemma {:induction false} RunKeeps(s: State, acts: seq<Action>)
    requires Inv(s)
    ensures Inv(Run(s, acts))
    decreases acts
  {
    if acts != [] {
      StepKeeps(s, acts[0]);
      RunKeeps(Step(s, acts[0]), acts[1..]);
    }
  }

  /** Under every interleaving: the indices stay within one lap, what was consumed is a prefix of what was published,
      which is a prefix of what was submitted, and the flusher's second write is never refused. */
  lemma RingIsFifo(cap: nat, acts: seq<Action>)
    requires cap > 0
    ensures var s := Run(Initial(cap), acts);
            && 0 <= s.writeIdx - s.readIdx <= cap
            && |s.published| == s.writeIdx && |s.consumed| == s.readIdx
            && s.consumed <= s.published <= s.submitted
            && !s.writer.WFailed?
  {
    InitialInv(cap);
    RunKeeps(Initial(cap), acts);
    var s := Run(Initial(cap), acts);
    assert s.published <= s.published + s.todo;
  }

  /** Once the flusher is done and the reader has caught up, every submitted byte was consumed, once and in order. */
  lemma DrainedRingDeliversAll(cap: nat, acts: seq<Action>)
    requires cap > 0
    requires var s := Run(Initial(cap), acts); s.writer.WIdle? && s.readIdx == s.writeIdx
    ensures Run(Initial(cap), acts).consumed == Run(Initial(cap), acts).submitted
  {
    InitialInv(cap);
    RunKeeps(Initial(cap), acts);
    var s := Run(Initial(cap), acts);
    assert s.published[..s.readIdx] == s.published && s.published + [] == s.published;
  }

  // ---------------------------------------------------------------- nobody waits for ever

  /** A step of the flusher or the reader that is not a new batch. */
  predicate Internal(a: Action) {
    !a.Submit? && (a.ReaderLoad? ==> a.max > 0)
  }

  lemma ReaderMoves(s: State) returns (a: Action)
    requires Inv(s) && s.readIdx < s.writeIdx && !(s.reader.RCopy? && s.reader.n == 0)
    ensures Internal(a) && Step(s, a) != s
  {
    if s.reader.RIdle? {
      a := ReaderLoad(1);
    } else if |s.reader.dst| < s.reader.n {
      a := ReaderCopy;
    } else {
      a := ReaderAdvance;
      assert Step(s, a).reader.RIdle?;
    }
  }

  lemma WriterMoves(s: State) returns (a: Action)
    requires Inv(s) && s.readIdx == s.writeIdx && s.todo != []
    ensures Internal(a) && Step(s, a) != s
  {
    if s.writer.WCopy? {
      if s.writer.done < s.writer.n {
        a := WriterCopy;
        assert Step(s, a).writer != s.writer;
      } else {
        a := WriterPublish;
        assert Step(s, a).writeIdx != s.writeIdx;
      }
    } else {
      a := WriterLoad;
      assert Step(s, a).writer != s.writer;
    }
  }

  predicate ReaderAsksForSome(s: State) {
    s.reader.RCopy? ==> s.reader.n > 0
  }

  lemma {:induction false} ReaderNeverIdles(s: State, acts: seq<Action>)
    requires s.cap > 0 && |s.slots| == s.cap && ReaderAsksForSome(s)
    ensures ReaderAsksForSome(Run(s, acts))
    decreases acts
  {
    if acts != [] {
      ReaderNeverIdles(Step(s, acts[0]), acts[1..]);
    }
  }

  /** Deadlock freedom: in every reachable state, as long as a submitted byte has not been consumed some step of the
      flusher or the reader is enabled. A full ring and an empty one are told apart. */
  lemma NeverStuck(cap: nat, acts: seq<Action>) returns (a: Action)
    requires cap > 0
    requires var s := Run(Initial(cap), acts); s.consumed != s.submitted
    ensures Internal(a) && Step(Run(Initial(cap), acts), a) != Run(Initial(cap), acts)
  {
    InitialInv(cap);
    RunKeeps(Initial(cap), acts);
    ReaderNeverIdles(Initial(cap), acts);
    var s := Run(Initial(cap), acts);
    if s.readIdx < s.writeIdx {
      a := ReaderMoves(s);
    } else {
      assert s.published[..s.readIdx] == s.published;
      assert s.published + [] == s.published;
      a := WriterMoves(s);
    }
  }
}
