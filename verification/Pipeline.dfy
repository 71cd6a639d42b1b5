/** From the wire to the book: ITCH messages passed through the ring or as MoldUDP64 arrivals, parsed and applied
    (replay/src/file_source.rs, replay/src/ring_reader.rs, replay/src/moldudp.rs, replay/src/itch.rs,
    core/src/hot_book.rs). */
module Pipeline {
  import opened Events
  import opened BookView
  import opened HotBook
  import Agreement
  import Itch
  import S = ItchStream
  import Ring
  import G = GapTracking

  function Meanings(ms: seq<Itch.Message>): seq<Event> {
    seq(|ms|, k requires 0 <= k < |ms| => Itch.Meaning(ms[k]))
  }

  /** What the reader consumed while the flusher is still at work parses to a prefix of the events, whole or cut. */
  lemma PartialFeedIsPrefix(ms: seq<Itch.Message>, ringCap: nat, acts: seq<Ring.Action>)
    requires ringCap > 0 && Ring.Run(Ring.Initial(ringCap), acts).submitted == S.Written(Itch.Encode, ms)
    ensures S.Parse(S.ITCH, Ring.Run(Ring.Initial(ringCap), acts).consumed).events <= Meanings(ms)
  {
    var s := Ring.Run(Ring.Initial(ringCap), acts);
    Ring.RingIsFifo(ringCap, acts);
    S.StreamRoundTrip(ms);
    PrefixParses(S.ITCH, s.consumed, s.submitted);
  }

  lemma PrefixParses(p: S.Protocol, a: seq<Byte>, b: seq<Byte>)
    requires a <= b
    ensures S.Parse(p, a).events <= S.Parse(p, b).events
  {
    assert a + b[|a|..] == b;
    S.ParseExtends(p, a, b[|a|..]);
  }

  /** Once the ring is drained, the consumer has every event, and its hot book is the reference book of the messages
      wherever the two books agree at all. */
  lemma DrainedFeedBuildsBook(ms: seq<Itch.Message>, ringCap: nat, acts: seq<Ring.Action>, depth: nat)
    requires ringCap > 0
    requires var s := Ring.Run(Ring.Initial(ringCap), acts);
             s.writer.WIdle? && s.readIdx == s.writeIdx && s.submitted == S.Written(Itch.Encode, ms)
    requires Agreement.AgreeThroughout(depth, EMPTY_VIEW, Meanings(ms))
    ensures var parsed := S.Parse(S.ITCH, Ring.Run(Ring.Initial(ringCap), acts).consumed);
            parsed.error.None? && Sound(depth, HotRun(depth, EMPTY_HOT, parsed.events))
            && ArrayBook.ViewOf(BookOf(HotRun(depth, EMPTY_HOT, parsed.events))) == RefRun(EMPTY_VIEW, Meanings(ms))
  {
    Ring.DrainedRingDeliversAll(ringCap, acts);
    S.StreamRoundTrip(ms);
    Agreement.HotMatchesReference(depth, Meanings(ms));
  }

  // ---------------------------------------------------------------- over MoldUDP64

  /** Every arrival carries the payload its number stands for. */
  ghost predicate Carries(start: nat, ps: seq<seq<Byte>>, arrivals: seq<G.Arrival>) {
    forall a :: a in arrivals ==> start <= a.0 < start + |ps| && a.1 == ps[a.0 - start]
  }

  function Payloads(out: seq<G.Delivered>): seq<seq<Byte>> {
    seq(|out|, k requires 0 <= k < |out| => out[k].payload)
  }

  function Encoded(ms: seq<Itch.Message>): seq<seq<Byte>> {
    seq(|ms|, k requires 0 <= k < |ms| => Itch.Encode(ms[k]))
  }

  lemma {:induction false} EncodedIsWritten(ms: seq<Itch.Message>)
    ensures S.Flatten(Encoded(ms)) == S.Written(Itch.Encode, ms)
  {
    if ms != [] {
      assert Encoded(ms)[1..] == Encoded(ms[1..]);
      EncodedIsWritten(ms[1..]);
    }
  }

  lemma ArrivedIs(start: nat, ps: seq<seq<Byte>>, arrivals: seq<G.Arrival>, d: G.Delivered, k: nat)
    requires Carries(start, ps, arrivals) && d.sequence == start + k && (d.sequence, d.payload) in arrivals
    ensures k < |ps| && d.payload == ps[k]
  {
  }

  lemma InOrderIsPrefix(start: nat, ps: seq<seq<Byte>>, arrivals: seq<G.Arrival>, out: seq<G.Delivered>)
    requires Carries(start, ps, arrivals)
    requires forall k :: 0 <= k < |out| ==> out[k].sequence == start + k && (out[k].sequence, out[k].payload) in arrivals
    ensures |out| <= |ps| && Payloads(out) == ps[..|out|]
  {
    forall k | 0 <= k < |out|
      ensures k < |ps| && out[k].payload == ps[k]
    {
      ArrivedIs(start, ps, arrivals, out[k], k);
    }
    if |out| > 0 {
      ArrivedIs(start, ps, arrivals, out[|out| - 1], |out| - 1);
    }
  }

  /** In any arrival order, with repetition and loss, what the tracker delivers is the first so many payloads. */
  lemma DeliveredIsPrefix(start: nat, maxBuffered: nat, ps: seq<seq<Byte>>, arrivals: seq<G.Arrival>)
    requires Carries(start, ps, arrivals)
    ensures var (t, out) := G.Run(G.New(start, maxBuffered), arrivals);
            |out| <= |ps| && |out| == t.expected - start && Payloads(out) == ps[..|out|]
  {
    G.DeliveredInOrder(start, maxBuffered, arrivals);
    InOrderIsPrefix(start, ps, arrivals, G.Run(G.New(start, maxBuffered), arrivals).1);
  }

  lemma NothingMissing(start: nat, ps: seq<seq<Byte>>, arrivals: seq<G.Arrival>, expected: nat)
    requires forall k :: 0 <= k < |ps| ==> (start + k, ps[k]) in arrivals
    requires start <= expected && expected !in G.Received(start, arrivals)
    ensures expected - start >= |ps|
  {
    G.ReceivedMeans(start, arrivals);
    forall n | start <= n < start + |ps|
      ensures n in G.Received(start, arrivals)
    {
      assert (start + (n - start), ps[n - start]) in arrivals;
    }
  }

  /** Once every payload has arrived and none was lost to a full buffer, all of them are delivered. */
  lemma WholeFeedIsDelivered(start: nat, maxBuffered: nat, ps: seq<seq<Byte>>, arrivals: seq<G.Arrival>)
    requires Carries(start, ps, arrivals) && G.NoLoss(G.New(start, maxBuffered), arrivals)
    requires forall k :: 0 <= k < |ps| ==> (start + k, ps[k]) in arrivals
    ensures Payloads(G.Run(G.New(start, maxBuffered), arrivals).1) == ps
  {
    DeliveredIsPrefix(start, maxBuffered, ps, arrivals);
    G.RunExact(start, maxBuffered, arrivals);
    NothingMissing(start, ps, arrivals, G.Run(G.New(start, maxBuffered), arrivals).0.expected);
    assert ps[..|ps|] == ps;
  }

  /** So the consumer's hot book is the reference book of the messages delivered, wherever the books agree. */
  lemma MoldFeedBuildsBook(start: nat, maxBuffered: nat, ms: seq<Itch.Message>, arrivals: seq<G.Arrival>, n: nat, depth: nat)
    requires Carries(start, Encoded(ms), arrivals) && n == |G.Run(G.New(start, maxBuffered), arrivals).1| <= |ms|
    requires Agreement.AgreeThroughout(depth, EMPTY_VIEW, Meanings(ms[..n]))
    ensures var parsed := S.Parse(S.ITCH, S.Flatten(Payloads(G.Run(G.New(start, maxBuffered), arrivals).1)));
            && parsed == S.Parsed(Meanings(ms[..n]), None) && Sound(depth, HotRun(depth, EMPTY_HOT, parsed.events))
            && ArrayBook.ViewOf(BookOf(HotRun(depth, EMPTY_HOT, parsed.events))) == RefRun(EMPTY_VIEW, Meanings(ms[..n]))
  {
    DeliveredIsPrefix(start, maxBuffered, Encoded(ms), arrivals);
    assert Encoded(ms)[..n] == Encoded(ms[..n]);
    EncodedIsWritten(ms[..n]);
    S.StreamRoundTrip(ms[..n]);
    Agreement.HotMatchesReference(depth, Meanings(ms[..n]));
  }
}
