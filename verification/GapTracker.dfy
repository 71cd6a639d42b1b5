/** In-order delivery over a reordering, duplicating, lossy feed (replay/src/moldudp.rs). */
module GapTracking {
  import opened Events
  import opened Mold

  datatype Delivered = Delivered(sequence: nat, payload: Payload)

  datatype Stats = Stats(
    inOrder: nat, reordered: nat, gapsOpened: nat, gapsClosed: nat, dropped: nat, duplicates: nat)

  datatype Tracker = Tracker(expected: nat, pending: map<nat, Payload>, maxBuffered: nat, stats: Stats)

  function New(start: nat, maxBuffered: nat): Tracker {
    Tracker(start, map[], maxBuffered, Stats(0, 0, 0, 0, 0, 0))
  }

  /** Take the expected message out of the buffer. */
  function Pop(t: Tracker): (u: Tracker)
    requires t.expected in t.pending
    ensures |u.pending| == |t.pending| - 1
  {
    var rest := t.pending - {t.expected};
    assert t.pending.Keys == rest.Keys + {t.expected};
    var closed := if |rest| > 0 && t.expected + 1 !in rest then 1 else 0;
    t.(expected := t.expected + 1, pending := rest,
       stats := t.stats.(reordered := t.stats.reordered + 1, gapsClosed := t.stats.gapsClosed + closed))
  }

  /** Deliver whatever is now contiguous. */
  function Drain(t: Tracker): (Tracker, seq<Delivered>)
    decreases |t.pending|
  {
    if t.expected !in t.pending then (t, [])
    else
      var (v, out) := Drain(Pop(t));
      (v, [Delivered(t.expected, t.pending[t.expected])] + out)
  }

  function Ingest(t: Tracker, s: nat, p: Payload): (Tracker, seq<Delivered>) {
    if s < t.expected then (t.(stats := t.stats.(duplicates := t.stats.duplicates + 1)), [])
    else if s == t.expected then
      var (u, out) := Drain(t.(expected := s + 1, stats := t.stats.(inOrder := t.stats.inOrder + 1)));
      (u, [Delivered(s, p)] + out)
    else
      var gaps := if |t.pending| == 0 then t.stats.gapsOpened + 1 else t.stats.gapsOpened;
      var st := t.stats.(gapsOpened := gaps);
      if |t.pending| >= t.maxBuffered then (t.(stats := st.(dropped := st.dropped + 1)), [])
      else if s in t.pending then (t.(stats := st.(duplicates := st.duplicates + 1)), [])
      else (t.(pending := t.pending[s := p], stats := st), [])
  }

  type Arrival = (nat, Payload)

  /** The tracker and everything delivered so far. */
  function Run(t: Tracker, ms: seq<Arrival>): (Tracker, seq<Delivered>) {
    if ms == [] then (t, [])
    else
      var n := |ms| - 1;
      var (u, out) := Run(t, ms[..n]);
      var (v, more) := Ingest(u, ms[n].0, ms[n].1);
      (v, out + more)
  }

  // ---------------------------------------------------------------- accounting, drops allowed

  function Accounted(t: Tracker): nat {
    t.stats.inOrder + t.stats.reordered + t.stats.duplicates + t.stats.dropped + |t.pending|
  }

  ghost predicate Bounded(t: Tracker) {
    && |t.pending| <= t.maxBuffered
    && forall k :: k in t.pending ==> k > t.expected
  }

  lemma {:induction false} DrainAccounts(t: Tracker)
    requires forall k :: k in t.pending ==> k >= t.expected
    ensures var (u, out) := Drain(t);
            && Accounted(u) == Accounted(t) && u.maxBuffered == t.maxBuffered && |u.pending| <= |t.pending|
            && u.stats.dropped == t.stats.dropped
            && forall k :: k in u.pending ==> k > u.expected
    decreases |t.pending|
  {
    if t.expected in t.pending {
      DrainAccounts(Pop(t));
    }
  }

  /** Every arrival ends up in exactly one place. */
  lemma IngestAccounts(t: Tracker, s: nat, p: Payload)
    requires Bounded(t)
    ensures var u := Ingest(t, s, p).0;
            Bounded(u) && Accounted(u) == Accounted(t) + 1 && u.maxBuffered == t.maxBuffered
            && u.stats.dropped >= t.stats.dropped
  {
    if s == t.expected {
      DrainAccounts(t.(expected := s + 1, stats := t.stats.(inOrder := t.stats.inOrder + 1)));
    }
  }

  lemma {:induction false} RunAccounts(t: Tracker, ms: seq<Arrival>)
    requires Bounded(t)
    ensures var u := Run(t, ms).0;
            Bounded(u) && Accounted(u) == Accounted(t) + |ms| && u.maxBuffered == t.maxBuffered
    decreases ms
  {
    if ms != [] {
      var n := |ms| - 1;
      RunAccounts(t, ms[..n]);
      IngestAccounts(Run(t, ms[..n]).0, ms[n].0, ms[n].1);
    }
  }

  // ---------------------------------------------------------------- what the counters count

  /** What becomes of an arrival, by the position and the buffer it finds. */
  datatype Fate = Delivers | Waits | Repeats | Overflows

  function FateOf(t: Tracker, s: nat): Fate {
    if s == t.expected then Delivers
    else if s < t.expected then Repeats
    else if |t.pending| >= t.maxBuffered then Overflows
    else if s in t.pending then Repeats
    else Waits
  }

  /** How many arrivals of a run meet a fate. */
  function Count(t: Tracker, ms: seq<Arrival>, fate: Fate): nat {
    if ms == [] then 0
    else
      var n := |ms| - 1;
      Count(t, ms[..n], fate) + if FateOf(Run(t, ms[..n]).0, ms[n].0) == fate then 1 else 0
  }

  /** How many arrivals of a run come ahead of the position and find nothing waiting. */
  function Openings(t: Tracker, ms: seq<Arrival>): nat {
    if ms == [] then 0
    else
      var n := |ms| - 1;
      var u := Run(t, ms[..n]).0;
      Openings(t, ms[..n]) + if ms[n].0 > u.expected && u.pending == map[] then 1 else 0
  }

  /** How many arrivals of a run release something that waited, and leave something waiting. */
  function Closings(t: Tracker, ms: seq<Arrival>): nat {
    if ms == [] then 0
    else
      var n := |ms| - 1;
      var (u, out) := Ingest(Run(t, ms[..n]).0, ms[n].0, ms[n].1);
      Closings(t, ms[..n]) + if |out| > 1 && u.pending != map[] then 1 else 0
  }

  lemma {:induction false} DrainStats(t: Tracker)
    ensures var (u, out) := Drain(t);
            && u.stats == t.stats.(reordered := u.stats.reordered, gapsClosed := u.stats.gapsClosed)
            && u.stats.reordered == t.stats.reordered + |out| && |u.pending| + |out| == |t.pending|
            && u.stats.gapsClosed == t.stats.gapsClosed + (if out != [] && u.pending != map[] then 1 else 0)
    decreases |t.pending|
  {
    if t.expected in t.pending {
      DrainStats(Pop(t));
    }
  }

  /** One arrival moves the counter of its fate, and what it releases is counted as reordered. */
  lemma IngestStats(t: Tracker, s: nat, p: Payload)
    ensures var (u, out) := Ingest(t, s, p);
            var fate := FateOf(t, s);
            && u.stats.inOrder == t.stats.inOrder + (if fate.Delivers? then 1 else 0)
            && u.stats.duplicates == t.stats.duplicates + (if fate.Repeats? then 1 else 0)
            && u.stats.dropped == t.stats.dropped + (if fate.Overflows? then 1 else 0)
            && u.stats.gapsOpened == t.stats.gapsOpened + (if s > t.expected && t.pending == map[] then 1 else 0)
            && u.stats.gapsClosed == t.stats.gapsClosed + (if |out| > 1 && u.pending != map[] then 1 else 0)
            && |out| == (u.stats.inOrder - t.stats.inOrder) + (u.stats.reordered - t.stats.reordered)
            && |u.pending| + (u.stats.reordered - t.stats.reordered) == |t.pending| + (if fate.Waits? then 1 else 0)
  {
    if s == t.expected {
      DrainStats(t.(expected := s + 1, stats := t.stats.(inOrder := t.stats.inOrder + 1)));
    } else if s > t.expected && FateOf(t, s).Waits? {
      assert t.pending[s := p].Keys == t.pending.Keys + {s};
    }
  }

  /** Over any feed: the counters are the numbers of arrivals of each fate, the deliveries those in order and those
      reordered, and what waited either was reordered or still waits. */
  lemma {:induction false} CountersMean(start: nat, maxBuffered: nat, ms: seq<Arrival>)
    ensures var t := New(start, maxBuffered);
            var (u, out) := Run(t, ms);
            && u.stats.inOrder == Count(t, ms, Delivers) && u.stats.duplicates == Count(t, ms, Repeats)
            && u.stats.dropped == Count(t, ms, Overflows) && u.stats.gapsOpened == Openings(t, ms)
            && u.stats.gapsClosed == Closings(t, ms)
            && u.stats.reordered + |u.pending| == Count(t, ms, Waits)
            && |out| == u.stats.inOrder + u.stats.reordered
    decreases ms
  {
    if ms != [] {
      var n := |ms| - 1;
      CountersMean(start, maxBuffered, ms[..n]);
      IngestStats(Run(New(start, maxBuffered), ms[..n]).0, ms[n].0, ms[n].1);
    }
  }

  // ---------------------------------------------------------------- exact delivery

  /** Sequence numbers received from `start` on, each with the payload that came first. */
  function Received(start: nat, ms: seq<Arrival>): map<nat, Payload> {
    if ms == [] then map[]
    else
      var n := |ms| - 1;
      var f := Received(start, ms[..n]);
      if ms[n].0 < start || ms[n].0 in f then f else f[ms[n].0 := ms[n].1]
  }

  function Contiguous(f: map<nat, Payload>, lo: nat, hi: nat): seq<Delivered>
    requires lo <= hi && forall s :: lo <= s < hi ==> s in f
  {
    if lo == hi then [] else Contiguous(f, lo, hi - 1) + [Delivered(hi - 1, f[hi - 1])]
  }

  /** `expected` is the least number not received, the output is everything below it once and in order,
      and the buffer is everything above it. */
  ghost predicate Exact(t: Tracker, out: seq<Delivered>, start: nat, f: map<nat, Payload>) {
    Reached(t, out, start, f) && t.expected !in f
  }

  ghost predicate Reached(t: Tracker, out: seq<Delivered>, start: nat, f: map<nat, Payload>) {
    && start <= t.expected
    && (forall s :: start <= s < t.expected ==> s in f)
    && out == Contiguous(f, start, t.expected)
    && t.pending == Above(f, t.expected)
  }

  function Above(f: map<nat, Payload>, e: nat): map<nat, Payload> {
    map s | s in f && s >= e :: f[s]
  }

  lemma {:induction false} ContiguousExtends(f: map<nat, Payload>, lo: nat, hi: nat, s: nat, p: Payload)
    requires lo <= hi && (forall k :: lo <= k < hi ==> k in f) && s !in f
    ensures Contiguous(f[s := p], lo, hi) == Contiguous(f, lo, hi)
    decreases hi
  {
    if lo < hi {
      ContiguousExtends(f, lo, hi - 1, s, p);
    }
  }

  lemma PopReaches(t: Tracker, out: seq<Delivered>, start: nat, f: map<nat, Payload>)
    requires Reached(t, out, start, f) && t.expected in t.pending
    ensures Reached(Pop(t), out + [Delivered(t.expected, t.pending[t.expected])], start, f)
  {
    assert t.expected in f && t.pending[t.expected] == f[t.expected];
    assert Pop(t).pending == t.pending - {t.expected};
  }

  lemma {:induction false} DrainReaches(t: Tracker, out: seq<Delivered>, start: nat, f: map<nat, Payload>)
    requires Reached(t, out, start, f)
    ensures Exact(Drain(t).0, out + Drain(t).1, start, f)
    decreases |t.pending|
  {
    if t.expected in t.pending {
      var d := Delivered(t.expected, t.pending[t.expected]);
      PopReaches(t, out, start, f);
      DrainReaches(Pop(t), out + [d], start, f);
      assert out + [d] + Drain(Pop(t)).1 == out + ([d] + Drain(Pop(t)).1);
    } else {
      assert out + [] == out;
    }
  }

  /** The buffer is full and a number it does not hold yet arrives. */
  predicate Loses(t: Tracker, s: nat) {
    s > t.expected && |t.pending| >= t.maxBuffered && s !in t.pending
  }

  lemma DeliverReaches(t: Tracker, out: seq<Delivered>, start: nat, f: map<nat, Payload>, p: Payload)
    requires Exact(t, out, start, f)
    ensures Reached(t.(expected := t.expected + 1, stats := t.stats.(inOrder := t.stats.inOrder + 1)),
                    out + [Delivered(t.expected, p)], start, f[t.expected := p])
  {
    ContiguousExtends(f, start, t.expected, t.expected, p);
  }

  lemma BufferKeepsExact(t: Tracker, out: seq<Delivered>, start: nat, f: map<nat, Payload>, s: nat, p: Payload, st: Stats)
    requires Exact(t, out, start, f) && s > t.expected && s !in f
    ensures Exact(t.(pending := t.pending[s := p], stats := st), out, start, f[s := p])
  {
    ContiguousExtends(f, start, t.expected, s, p);
  }

  lemma InOrderExact(t: Tracker, out: seq<Delivered>, start: nat, f: map<nat, Payload>, p: Payload)
    requires Exact(t, out, start, f)
    ensures var (u, more) := Ingest(t, t.expected, p); Exact(u, out + more, start, f[t.expected := p])
  {
    var d := Delivered(t.expected, p);
    var u := t.(expected := t.expected + 1, stats := t.stats.(inOrder := t.stats.inOrder + 1));
    DeliverReaches(t, out, start, f, p);
    DrainReaches(u, out + [d], start, f[t.expected := p]);
    assert out + [d] + Drain(u).1 == out + ([d] + Drain(u).1);
  }

  lemma KnownExact(t: Tracker, out: seq<Delivered>, start: nat, f: map<nat, Payload>, s: nat, p: Payload)
    requires Exact(t, out, start, f) && (s < start || s in f)
    ensures var (u, more) := Ingest(t, s, p); Exact(u, out + more, start, f)
  {
    var (u, more) := Ingest(t, s, p);
    assert more == [] && u.expected == t.expected && u.pending == t.pending;
    assert out + [] == out;
  }

  lemma IngestExact(t: Tracker, out: seq<Delivered>, start: nat, f: map<nat, Payload>, s: nat, p: Payload)
    requires Exact(t, out, start, f) && !Loses(t, s)
    ensures var (u, more) := Ingest(t, s, p);
            Exact(u, out + more, start, if s < start || s in f then f else f[s := p])
  {
    if s < start || s in f {
      KnownExact(t, out, start, f, s, p);
    } else if s == t.expected {
      InOrderExact(t, out, start, f, p);
    } else {
      assert out + [] == out;
      BufferKeepsExact(t, out, start, f, s, p, Ingest(t, s, p).0.stats);
    }
  }

  lemma LossExact(t: Tracker, out: seq<Delivered>, start: nat, f: map<nat, Payload>, s: nat, p: Payload)
    requires Exact(t, out, start, f) && Loses(t, s)
    ensures var (u, more) := Ingest(t, s, p); Exact(u, out + more, start, f)
  {
    var (u, more) := Ingest(t, s, p);
    assert more == [] && u.expected == t.expected && u.pending == t.pending;
    assert out + [] == out;
  }

  /** The arrivals that no full buffer turned away, in order. */
  function Kept(t: Tracker, ms: seq<Arrival>): seq<Arrival> {
    if ms == [] then []
    else
      var n := |ms| - 1;
      Kept(t, ms[..n]) + if Loses(Run(t, ms[..n]).0, ms[n].0) then [] else [ms[n]]
  }

  lemma ReceivedSnoc(start: nat, ms: seq<Arrival>, m: Arrival)
    ensures var f := Received(start, ms);
            Received(start, ms + [m]) == if m.0 < start || m.0 in f then f else f[m.0 := m.1]
  {
    assert (ms + [m])[..|ms|] == ms;
  }

  /** Exact delivery for every arrival order, with reordering, duplication and overflow: a run is exact for the arrivals
      that were not lost. */
  lemma {:induction false} RunExactForKept(start: nat, maxBuffered: nat, ms: seq<Arrival>)
    ensures var t := New(start, maxBuffered);
            Exact(Run(t, ms).0, Run(t, ms).1, start, Received(start, Kept(t, ms)))
    decreases ms
  {
    if ms != [] {
      var n, t := |ms| - 1, New(start, maxBuffered);
      RunExactForKept(start, maxBuffered, ms[..n]);
      var (u, out) := Run(t, ms[..n]);
      var f := Received(start, Kept(t, ms[..n]));
      if Loses(u, ms[n].0) {
        LossExact(u, out, start, f, ms[n].0, ms[n].1);
        assert Kept(t, ms) == Kept(t, ms[..n]);
      } else {
        IngestExact(u, out, start, f, ms[n].0, ms[n].1);
        ReceivedSnoc(start, Kept(t, ms[..n]), ms[n]);
      }
    }
  }

  lemma {:induction false} KeptArrived(t: Tracker, ms: seq<Arrival>)
    ensures forall m :: m in Kept(t, ms) ==> m in ms
    decreases ms
  {
    if ms != [] {
      KeptArrived(t, ms[..|ms| - 1]);
    }
  }

  lemma {:induction false} ContiguousAt(f: map<nat, Payload>, lo: nat, hi: nat)
    requires lo <= hi && forall s :: lo <= s < hi ==> s in f
    ensures |Contiguous(f, lo, hi)| == hi - lo
    ensures forall i :: 0 <= i < hi - lo ==> Contiguous(f, lo, hi)[i] == Delivered(lo + i, f[lo + i])
    decreases hi
  {
    if lo < hi {
      ContiguousAt(f, lo, hi - 1);
    }
  }

  lemma ExactInOrder(t: Tracker, out: seq<Delivered>, start: nat, f: map<nat, Payload>)
    requires Exact(t, out, start, f)
    ensures start <= t.expected && |out| == t.expected - start
    ensures forall i :: 0 <= i < |out| ==> start + i in f && out[i] == Delivered(start + i, f[start + i])
    ensures forall s :: s in t.pending ==> s > t.expected && s in f && t.pending[s] == f[s]
  {
    ContiguousAt(f, start, t.expected);
  }

  /** Everything in the output and the buffer arrived. */
  ghost predicate FromArrivals(t: Tracker, out: seq<Delivered>, ms: seq<Arrival>) {
    && (forall i :: 0 <= i < |out| ==> (out[i].sequence, out[i].payload) in ms)
    && (forall s :: s in t.pending ==> (s, t.pending[s]) in ms)
  }

  lemma ExactFromArrivals(t: Tracker, out: seq<Delivered>, start: nat, f: map<nat, Payload>, ms: seq<Arrival>)
    requires Exact(t, out, start, f) && forall s :: s in f ==> (s, f[s]) in ms
    ensures FromArrivals(t, out, ms)
  {
    ExactInOrder(t, out, start, f);
  }

  /** Whatever is lost, the consumer sees start, start + 1, ... without a gap, and only messages that arrived. */
  lemma DeliveredInOrder(start: nat, maxBuffered: nat, ms: seq<Arrival>)
    ensures var (t, out) := Run(New(start, maxBuffered), ms);
            && start <= t.expected && |out| == t.expected - start
            && (forall i :: 0 <= i < |out| ==> out[i].sequence == start + i)
            && (forall s :: s in t.pending ==> s > t.expected)
            && FromArrivals(t, out, ms)
  {
    var t := New(start, maxBuffered);
    var kept := Kept(t, ms);
    var f := Received(start, kept);
    RunExactForKept(start, maxBuffered, ms);
    ReceivedMeans(start, kept);
    KeptArrived(t, ms);
    ExactInOrder(Run(t, ms).0, Run(t, ms).1, start, f);
    ExactFromArrivals(Run(t, ms).0, Run(t, ms).1, start, f, ms);
  }

  /** No arrival is lost to a full buffer. */
  predicate NoLoss(t: Tracker, ms: seq<Arrival>) {
    ms == [] || (NoLoss(t, ms[..|ms| - 1]) && !Loses(Run(t, ms[..|ms| - 1]).0, ms[|ms| - 1].0))
  }

  lemma {:induction false} NoLossKeepsAll(t: Tracker, ms: seq<Arrival>)
    ensures NoLoss(t, ms) <==> Kept(t, ms) == ms
    ensures |Kept(t, ms)| <= |ms|
    decreases ms
  {
    if ms != [] {
      var n := |ms| - 1;
      NoLossKeepsAll(t, ms[..n]);
      assert ms == ms[..n] + [ms[n]];
    }
  }

  /** The special case: with nothing lost, a run is exact for everything that arrived. */
  lemma RunExact(start: nat, maxBuffered: nat, ms: seq<Arrival>)
    requires NoLoss(New(start, maxBuffered), ms)
    ensures var (t, out) := Run(New(start, maxBuffered), ms); Exact(t, out, start, Received(start, ms))
  {
    NoLossKeepsAll(New(start, maxBuffered), ms);
    RunExactForKept(start, maxBuffered, ms);
  }

  lemma ExactIsUnique(t: Tracker, a: seq<Delivered>, u: Tracker, b: seq<Delivered>, start: nat, f: map<nat, Payload>)
    requires Exact(t, a, start, f) && Exact(u, b, start, f)
    ensures t.expected == u.expected && a == b && t.pending == u.pending
  {
    assert t.expected < u.expected ==> t.expected in f;
    assert u.expected < t.expected ==> u.expected in f;
  }

  /** One payload per sequence number: retransmissions repeat, they do not rewrite. */
  ghost predicate Consistent(ms: seq<Arrival>) {
    forall i, j :: 0 <= i < |ms| && 0 <= j < |ms| && ms[i].0 == ms[j].0 ==> ms[i].1 == ms[j].1
  }

  lemma {:induction false} ReceivedMeans(start: nat, ms: seq<Arrival>)
    ensures forall s :: s in Received(start, ms) ==> s >= start && (s, Received(start, ms)[s]) in ms
    ensures forall m :: m in ms && m.0 >= start ==> m.0 in Received(start, ms)
    decreases ms
  {
    if ms != [] {
      var n := |ms| - 1;
      ReceivedMeans(start, ms[..n]);
      assert ms == ms[..n] + [ms[n]];
    }
  }

  lemma SameSetSameReceived(start: nat, a: seq<Arrival>, b: seq<Arrival>)
    requires Consistent(a) && forall m :: m in a <==> m in b
    ensures Received(start, a) == Received(start, b)
  {
    var f, g := Received(start, a), Received(start, b);
    ReceivedMeans(start, a);
    ReceivedMeans(start, b);
    forall s | s in f
      ensures s in g && f[s] == g[s]
    {
      assert (s, f[s]) in b;
      assert (s, g[s]) in a;
    }
    forall s | s in g
      ensures s in f
    {
      assert (s, g[s]) in a;
    }
  }

  /** Arrival order and repetition do not matter: two feeds carrying the same messages leave the same
      position, buffer and total output. */
  lemma ArrivalOrderIrrelevant(start: nat, maxBuffered: nat, a: seq<Arrival>, b: seq<Arrival>)
    requires Consistent(a) && forall m :: m in a <==> m in b
    requires NoLoss(New(start, maxBuffered), a) && NoLoss(New(start, maxBuffered), b)
    ensures var (t, x) := Run(New(start, maxBuffered), a);
            var (u, y) := Run(New(start, maxBuffered), b);
            t.expected == u.expected && t.pending == u.pending && x == y
  {
    SameSetSameReceived(start, a, b);
    RunExact(start, maxBuffered, a);
    RunExact(start, maxBuffered, b);
    var (t, x) := Run(New(start, maxBuffered), a);
    var (u, y) := Run(New(start, maxBuffered), b);
    ExactIsUnique(t, x, u, y, start, Received(start, a));
  }

  // ---------------------------------------------------------------- when nothing is lost

  /** A buffer as large as the number of distinct messages never loses one. */
  lemma {:induction false} RoomyBufferLosesNothing(start: nat, maxBuffered: nat, ms: seq<Arrival>)
    requires |Received(start, ms)| <= maxBuffered
    ensures NoLoss(New(start, maxBuffered), ms)
    decreases ms
  {
    if ms != [] {
      var n := |ms| - 1;
      var f, g := Received(start, ms[..n]), Received(start, ms);
      SubsetSize(f.Keys, g.Keys);
      RoomyBufferLosesNothing(start, maxBuffered, ms[..n]);
      RunExact(start, maxBuffered, ms[..n]);
      RunAccounts(New(start, maxBuffered), ms[..n]);
      var u := Run(New(start, maxBuffered), ms[..n]).0;
      var s := ms[n].0;
      if s > u.expected && s !in u.pending {
        assert s in g && s !in f;
        SubsetSize(u.pending[s := ms[n].1].Keys, g.Keys);
      }
    }
  }

  /** So does any run whose overflow counter stayed at zero. */
  lemma {:induction false} NoDropsNoLoss(t: Tracker, ms: seq<Arrival>)
    requires Bounded(t) && Run(t, ms).0.stats.dropped == t.stats.dropped
    ensures NoLoss(t, ms)
    decreases ms
  {
    if ms != [] {
      var n := |ms| - 1;
      var u := Run(t, ms[..n]).0;
      RunAccounts(t, ms[..n]);
      DropsGrow(t, ms[..n]);
      IngestAccounts(u, ms[n].0, ms[n].1);
      NoDropsNoLoss(t, ms[..n]);
    }
  }

  lemma {:induction false} DropsGrow(t: Tracker, ms: seq<Arrival>)
    requires Bounded(t)
    ensures Run(t, ms).0.stats.dropped >= t.stats.dropped
    decreases ms
  {
    if ms != [] {
      var n := |ms| - 1;
      DropsGrow(t, ms[..n]);
      RunAccounts(t, ms[..n]);
      IngestAccounts(Run(t, ms[..n]).0, ms[n].0, ms[n].1);
    }
  }

  // ---------------------------------------------------------------- the object

  predicate IsLeast(m: map<nat, Payload>, k: nat) {
    k in m && forall j :: j in m ==> k <= j
  }

  lemma {:induction false} LeastExists(m: map<nat, Payload>) returns (k: nat)
    requires |m| > 0
    ensures IsLeast(m, k)
    decreases |m|
  {
    var x :| x in m;
    var r := m - {x};
    assert m.Keys == r.Keys + {x};
    if |r| == 0 {
      k := x;
    } else {
      var y := LeastExists(r);
      k := if x < y then x else y;
    }
  }

  /** First key of the ordered map. */
  method FirstKey(m: map<nat, Payload>) returns (k: nat)
    requires |m| > 0
    ensures IsLeast(m, k)
  {
    ghost var least := LeastExists(m);
    var x: nat :| IsLeast(m, x);
    k := x;
  }

  lemma CollectStep(it: Iter)
    requires it.remaining > 0 && it.offset <= |it.body| && WellFormed(it.body, it.offset, it.remaining)
    ensures var (rest, m) := Next(it);
            && m.Message? && rest.remaining == it.remaining - 1
            && WellFormed(rest.body, rest.offset, rest.remaining)
            && Collect(it) == [(m.sequence, m.payload)] + Collect(rest)
  {
  }

  lemma RunSnoc(t: Tracker, ms: seq<Arrival>, m: Arrival)
    ensures var (u, out) := Run(t, ms);
            var (v, more) := Ingest(u, m.0, m.1);
            Run(t, ms + [m]) == (v, out + more)
  {
    assert (ms + [m])[..|ms|] == ms;
  }

  /** Draining `t` comes down to delivering `out` and draining `u`. */
  ghost predicate Leads(t: Tracker, out: seq<Delivered>, u: Tracker) {
    Drain(t).0 == Drain(u).0 && Drain(t).1 == out + Drain(u).1
  }

  lemma LeadsOn(t: Tracker, out: seq<Delivered>, u: Tracker)
    requires Leads(t, out, u) && u.expected in u.pending
    ensures Leads(t, out + [Delivered(u.expected, u.pending[u.expected])], Pop(u))
  {
    var d, rest := Delivered(u.expected, u.pending[u.expected]), Drain(Pop(u)).1;
    assert out + ([d] + rest) == out + [d] + rest;
  }

  /** The messages of a frame, one `next` at a time. */
  method Unpack(f: Frame) returns (ms: seq<Arrival>)
    requires WellFormed(f.body, 0, Messages(f).remaining)
    ensures ms == Collect(Messages(f))
  {
    ms := [];
    var it := Messages(f);
    ghost var all := Collect(it);
    while it.remaining > 0
      invariant it.offset <= |it.body| && WellFormed(it.body, it.offset, it.remaining)
      invariant all == ms + Collect(it)
      decreases it.remaining
    {
      CollectStep(it);
      var (rest, m) := Next(it);
      ms := ms + [(m.sequence, m.payload)];
      it := rest;
    }
  }

  class GapTracker {
    const maxBuffered: nat
    var expected: nat
    var pending: map<nat, Payload>
    var stats: Stats

    ghost function Value(): Tracker
      reads this
    {
      Tracker(expected, pending, maxBuffered, stats)
    }

    constructor (start: nat, maxBuffered: nat)
      ensures Value() == New(start, maxBuffered) && Bounded(Value())
    {
      this.maxBuffered := maxBuffered;
      expected, pending, stats := start, map[], Stats(0, 0, 0, 0, 0, 0);
    }

    method IngestSingle(s: nat, payload: Payload) returns (out: seq<Delivered>)
      requires Bounded(Value())
      modifies this
      ensures Bounded(Value()) && (Value(), out) == Ingest(old(Value()), s, payload)
    {
      IngestAccounts(Value(), s, payload);
      out := [];
      if s < expected {
        stats := stats.(duplicates := stats.duplicates + 1);
      } else if s == expected {
        stats := stats.(inOrder := stats.inOrder + 1);
        expected := expected + 1;
        var drained := DrainPending();
        out := [Delivered(s, payload)] + drained;
      } else {
        BufferEarly(s, payload);
      }
    }

    /** A number past the expected one waits in the buffer, if there is room. */
    method BufferEarly(s: nat, payload: Payload)
      requires s > expected
      modifies this
      ensures (Value(), []) == Ingest(old(Value()), s, payload)
    {
      if |pending| == 0 {
        stats := stats.(gapsOpened := stats.gapsOpened + 1);
      }
      if |pending| >= maxBuffered {
        stats := stats.(dropped := stats.dropped + 1);
      } else if s in pending {
        stats := stats.(duplicates := stats.duplicates + 1);
      } else {
        pending := pending[s := payload];
      }
    }

    /** While the least buffered number is the expected one, deliver it. */
    method DrainPending() returns (out: seq<Delivered>)
      requires forall k :: k in pending ==> k >= expected
      modifies this
      ensures (Value(), out) == Drain(old(Value()))
    {
      out := [];
      ghost var start := Value();
      while |pending| > 0
        invariant forall k :: k in pending ==> k >= expected
        invariant Leads(start, out, Value())
        decreases |pending|
      {
        var next := FirstKey(pending);
        if next != expected {
          break;
        }
        LeadsOn(start, out, Value());
        var d := PopPending();
        out := out + [d];
      }
      assert expected !in pending;
      assert out + [] == out;
    }

    method PopPending() returns (d: Delivered)
      requires expected in pending
      modifies this
      ensures Value() == Pop(old(Value())) && d == Delivered(old(expected), old(pending)[old(expected)])
    {
      d := Delivered(expected, pending[expected]);
      pending := pending - {expected};
      stats := stats.(reordered := stats.reordered + 1);
      expected := expected + 1;
      if |pending| > 0 {
        var next := FirstKey(pending);
        if expected !in pending {
          stats := stats.(gapsClosed := stats.gapsClosed + 1);
        }
      }
    }

    /** Everything a (well-formed) frame makes deliverable. */
    method IngestFrame(f: Frame) returns (out: seq<Delivered>)
      requires Bounded(Value()) && WellFormed(f.body, 0, Messages(f).remaining)
      modifies this
      ensures Bounded(Value()) && (Value(), out) == Run(old(Value()), Collect(Messages(f)))
    {
      out := [];
      var ms := Unpack(f);
      ghost var start := Value();
      for i := 0 to |ms|
        invariant Bounded(Value())
        invariant (Value(), out) == Run(start, ms[..i])
      {
        var more := IngestSingle(ms[i].0, ms[i].1);
        RunSnoc(start, ms[..i], ms[i]);
        assert ms[..i + 1] == ms[..i] + [ms[i]];
        out := out + more;
      }
      assert ms[..|ms|] == ms;
    }

    /** The missing numbers before the first buffered one. */
    method OpenGap() returns (gap: Option<(nat, nat)>)
      requires Bounded(Value())
      ensures gap.None? <==> |pending| == 0
      ensures gap.Some? ==> var (first, last) := gap.value;
                first == expected <= last && last + 1 in pending && forall s :: first <= s <= last ==> s !in pending
    {
      if |pending| == 0 {
        return None;
      }
      var firstBuffered := FirstKey(pending);
      gap := Some((expected, firstBuffered - 1));
    }
  }
}
