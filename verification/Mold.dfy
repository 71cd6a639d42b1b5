/** MoldUDP64 framing (replay/src/moldudp.rs): a 20-byte header, then length-prefixed messages. */
module Mold {
  import opened Events
  import opened Bytes

  type Payload = seq<Byte>

  datatype MoldError = TooShort(need: nat, got: nat) | MessageOverflow(want: nat, offset: nat) | TrailingBytes(n: nat)

  datatype Header = Header(session: seq<Byte>, sequence: U64, count: U16)

  datatype Frame = Frame(header: Header, body: seq<Byte>)

  const HEARTBEAT: U16 := 0
  const END_OF_SESSION: U16 := 0xFFFF

  predicate Bodiless(count: nat) {
    count == HEARTBEAT || count == END_OF_SESSION
  }

  function ParseFrame(datagram: seq<Byte>): Result<Frame, MoldError> {
    if |datagram| < 20 then Err(TooShort(20, |datagram|))
    else
      Widths();
      var header := Header(datagram[..10], FromBe(datagram[10..18]), U16BeAt(datagram, 18));
      var body := datagram[20..];
      if Bodiless(header.count) && body != [] then Err(TrailingBytes(|body|)) else Ok(Frame(header, body))
  }

  /** A datagram is refused when it has no whole header, or has bytes behind the header of a heartbeat or of the end of
      the session; otherwise session, big-endian sequence and count are where the protocol puts them. */
  lemma FrameFields(dg: seq<Byte>)
    ensures |dg| < 20 ==> ParseFrame(dg) == Err(TooShort(20, |dg|))
    ensures |dg| >= 20 ==>
              var r, count := ParseFrame(dg), Byte4(dg[19], dg[18], 0, 0);
              if (count == 0 || count == 0xFFFF) && |dg| > 20 then r == Err(TrailingBytes(|dg| - 20))
              else
                && r.Ok? && r.value.header.session == dg[..10] && r.value.header.count == count && r.value.body == dg[20..]
                && r.value.header.sequence
                   == Byte4(dg[17], dg[16], dg[15], dg[14]) + 0x1_0000_0000 * Byte4(dg[13], dg[12], dg[11], dg[10])
  {
    if |dg| >= 20 {
      BigEndian(dg[18..20]);
      BigEndian(dg[10..18]);
      Widths();
    }
  }

  // ---------------------------------------------------------------- the message iterator

  datatype Iter = Iter(body: seq<Byte>, offset: nat, nextSeq: nat, remaining: nat)

  function Messages(f: Frame): Iter {
    Iter(f.body, 0, f.header.sequence, if Bodiless(f.header.count) then 0 else f.header.count)
  }

  datatype Item = Done | Fault(error: MoldError) | Message(sequence: nat, payload: Payload)

  /** The length the prefix at `offset` declares, when prefix and message both lie inside the body. */
  function Prefix(body: seq<Byte>, offset: nat): (r: Result<nat, MoldError>)
    requires offset <= |body|
    ensures r.Ok? ==> offset + 2 + r.value <= |body|
  {
    if offset + 2 > |body| then Err(TooShort(2, |body| - offset))
    else
      var len := U16BeAt(body, offset);
      if offset + 2 + len > |body| then Err(MessageOverflow(len, offset)) else Ok(len)
  }

  /** An error leaves the iterator where it was. */
  function Next(it: Iter): (r: (Iter, Item))
    requires it.offset <= |it.body|
    ensures r.0.offset <= |r.0.body| && (r.1.Message? ==> r.0.remaining < it.remaining)
  {
    if it.remaining == 0 then (it, Done)
    else
      match Prefix(it.body, it.offset)
      case Err(e) => (it, Fault(e))
      case Ok(len) =>
        var start := it.offset + 2;
        (Iter(it.body, start + len, it.nextSeq + 1, it.remaining - 1), Message(it.nextSeq, it.body[start..start + len]))
  }

  /** `n` messages lie whole in the body from `offset` on. */
  predicate WellFormed(body: seq<Byte>, offset: nat, n: nat)
    requires offset <= |body|
    decreases n
  {
    n == 0 || (var p := Prefix(body, offset); p.Ok? && WellFormed(body, offset + 2 + p.value, n - 1))
  }

  function After(it: Iter, k: nat): (r: Iter)
    requires it.offset <= |it.body|
    ensures r.offset <= |r.body|
    decreases k
  {
    if k == 0 then it else After(Next(it).0, k - 1)
  }

  /** A malformed frame never runs out, however often the iterator is asked. */
  lemma {:induction false} MalformedNeverEnds(it: Iter, k: nat)
    requires it.offset <= |it.body| && !WellFormed(it.body, it.offset, it.remaining)
    ensures After(it, k).remaining > 0
    decreases k
  {
    if k > 0 {
      MalformedNeverEnds(Next(it).0, k - 1);
    }
  }

  lemma {:induction false} WellFormedEnds(it: Iter)
    requires it.offset <= |it.body| && WellFormed(it.body, it.offset, it.remaining)
    ensures After(it, it.remaining).remaining == 0
    decreases it.remaining
  {
    if it.remaining > 0 {
      WellFormedEnds(Next(it).0);
    }
  }

  ghost predicate RunsOut(it: Iter)
    requires it.offset <= |it.body|
  {
    exists k: nat :: After(it, k).remaining == 0
  }

  /** Draining the iterator, as `ingest` does, terminates exactly on well-formed frames: `next` does not advance
      past an error and `ingest` carries on. */
  lemma TerminatesIffWellFormed(it: Iter)
    requires it.offset <= |it.body|
    ensures RunsOut(it) <==> WellFormed(it.body, it.offset, it.remaining)
  {
    if WellFormed(it.body, it.offset, it.remaining) {
      WellFormedEnds(it);
    } else {
      forall k: nat
        ensures After(it, k).remaining != 0
      {
        MalformedNeverEnds(it, k);
      }
    }
  }

  /** The messages the iterator yields before it is done, or first fails. */
  function Collect(it: Iter): seq<(nat, Payload)>
    requires it.offset <= |it.body|
    decreases it.remaining
  {
    match Next(it)
    case (rest, Message(n, m)) => [(n, m)] + Collect(rest)
    case _ => []
  }

  // ---------------------------------------------------------------- encoding

  function Body(ms: seq<Payload>): seq<Byte> {
    if ms == [] then [] else Be(|ms[0]|, 2) + ms[0] + Body(ms[1..])
  }

  function EncodeFrame(session: seq<Byte>, first: U64, ms: seq<Payload>): seq<Byte> {
    session + Be(first, 8) + Be(|ms|, 2) + Body(ms)
  }

  function Numbered(first: nat, ms: seq<Payload>): seq<(nat, Payload)>
    decreases ms
  {
    if ms == [] then [] else [(first, ms[0])] + Numbered(first + 1, ms[1..])
  }

  ghost predicate Sendable(ms: seq<Payload>) {
    forall i :: 0 <= i < |ms| ==> |ms[i]| < 0x1_0000
  }

  lemma PrefixReads(body: seq<Byte>, offset: nat, m: Payload, z: seq<Byte>)
    requires |m| < 0x1_0000 && offset <= |body| && body[offset..] == Be(|m|, 2) + m + z
    ensures Prefix(body, offset) == Ok(|m|)
    ensures body[offset + 2..offset + 2 + |m|] == m && body[offset + 2 + |m|..] == z
  {
    var t := body[offset..];
    assert body[offset..offset + 2] == t[..2] == Be(|m|, 2);
    assert body[offset + 2..offset + 2 + |m|] == t[2..2 + |m|] == m;
    assert body[offset + 2 + |m|..] == t[2 + |m|..] == z;
    FieldU16Be(body, offset, |m|);
  }

  /** From `offset` on, the body reads as exactly these messages and ends. */
  predicate Spells(body: seq<Byte>, offset: nat, ms: seq<Payload>)
    requires offset <= |body|
    decreases ms
  {
    if ms == [] then offset == |body|
    else
      && offset + 2 + |ms[0]| <= |body| && Prefix(body, offset) == Ok(|ms[0]|)
      && body[offset + 2..offset + 2 + |ms[0]|] == ms[0] && Spells(body, offset + 2 + |ms[0]|, ms[1..])
  }

  lemma {:induction false} EncodedSpells(body: seq<Byte>, offset: nat, ms: seq<Payload>)
    requires Sendable(ms) && offset <= |body| && body[offset..] == Body(ms)
    ensures Spells(body, offset, ms)
    decreases ms
  {
    if ms != [] {
      PrefixReads(body, offset, ms[0], Body(ms[1..]));
      EncodedSpells(body, offset + 2 + |ms[0]|, ms[1..]);
    }
  }

  lemma {:induction false} SpelledIsWellFormed(body: seq<Byte>, offset: nat, ms: seq<Payload>)
    requires offset <= |body| && Spells(body, offset, ms)
    ensures WellFormed(body, offset, |ms|)
    decreases ms
  {
    if ms != [] {
      SpelledIsWellFormed(body, offset + 2 + |ms[0]|, ms[1..]);
    }
  }

  lemma NextIs(body: seq<Byte>, offset: nat, first: nat, n: nat, m: Payload)
    requires offset + 2 + |m| <= |body| && n > 0 && Prefix(body, offset) == Ok(|m|)
    requires body[offset + 2..offset + 2 + |m|] == m
    ensures Next(Iter(body, offset, first, n)) == (Iter(body, offset + 2 + |m|, first + 1, n - 1), Message(first, m))
  {
  }

  /** Iterating over the body yields exactly the messages, numbered from `first`. */
  lemma {:induction false} BodyRoundTrip(body: seq<Byte>, offset: nat, first: nat, ms: seq<Payload>)
    requires offset <= |body| && Spells(body, offset, ms)
    ensures Collect(Iter(body, offset, first, |ms|)) == Numbered(first, ms)
    decreases ms
  {
    if ms != [] {
      NextIs(body, offset, first, |ms|, ms[0]);
      BodyRoundTrip(body, offset + 2 + |ms[0]|, first + 1, ms[1..]);
    }
  }

  /** And it stops at the last byte. */
  lemma {:induction false} BodyConsumed(body: seq<Byte>, offset: nat, first: nat, ms: seq<Payload>)
    requires offset <= |body| && Spells(body, offset, ms)
    ensures After(Iter(body, offset, first, |ms|), |ms|) == Iter(body, |body|, first + |ms|, 0)
    decreases ms
  {
    if ms != [] {
      NextIs(body, offset, first, |ms|, ms[0]);
      BodyConsumed(body, offset + 2 + |ms[0]|, first + 1, ms[1..]);
    }
  }

  lemma HeaderRoundTrip(session: seq<Byte>, first: U64, count: U16, body: seq<Byte>)
    requires |session| == 10
    ensures var dg := session + Be(first, 8) + Be(count, 2) + body;
            |dg| >= 20 && dg[..10] == session && FromBe(dg[10..18]) == first && U16BeAt(dg, 18) == count && dg[20..] == body
  {
    Widths();
    BeRoundTrip(first, 8);
    BeRoundTrip(count, 2);
    var dg := session + Be(first, 8) + Be(count, 2) + body;
    assert dg[10..18] == Be(first, 8) && dg[18..20] == Be(count, 2);
  }

  /** Encode, parse, iterate: the same messages with consecutive numbers, and no byte left over. */
  lemma FrameRoundTrip(session: seq<Byte>, first: U64, ms: seq<Payload>)
    requires |session| == 10 && 1 <= |ms| <= 65534 && Sendable(ms)
    ensures var r := ParseFrame(EncodeFrame(session, first, ms));
            && r == Ok(Frame(Header(session, first, |ms|), Body(ms)))
            && WellFormed(Body(ms), 0, |ms|)
            && Collect(Messages(r.value)) == Numbered(first, ms)
            && After(Messages(r.value), |ms|).offset == |Body(ms)|
  {
    HeaderRoundTrip(session, first, |ms|, Body(ms));
    assert Body(ms)[0..] == Body(ms);
    EncodedSpells(Body(ms), 0, ms);
    SpelledIsWellFormed(Body(ms), 0, ms);
    BodyRoundTrip(Body(ms), 0, first, ms);
    BodyConsumed(Body(ms), 0, first, ms);
  }
}
