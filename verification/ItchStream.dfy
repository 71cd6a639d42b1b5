/** Unframed ITCH byte streams: the stream parser and the emitters (replay/src/itch.rs), and the file replay that cuts a
    capture into batches for the ring (replay/src/file_source.rs). */
module ItchStream {
  import opened Events
  import opened Bytes
  import opened Itch

  /** How long a message of each type is (0: no such type), and the event a message decodes to. Everything about
      streams holds for any such pair; `ITCH` is the one in use. */
  datatype Protocol = Protocol(length: Byte -> nat, decode: seq<Byte> -> Option<Event>)

  const ITCH := Protocol(MsgLength, Dispatch)

  datatype ParseError = UnknownType | TruncatedMessage

  /** Events appended before the parser stopped, and why it stopped early, if it did. */
  datatype Parsed = Parsed(events: seq<Event>, error: Option<ParseError>)

  function EventsIn(p: Protocol, m: seq<Byte>): seq<Event> {
    if p.decode(m).Some? then [p.decode(m).value] else []
  }

  function Parse(p: Protocol, raw: seq<Byte>): Parsed {
    if raw == [] then Parsed([], None)
    else if p.length(raw[0]) == 0 then Parsed([], Some(UnknownType))
    else if p.length(raw[0]) > |raw| then Parsed([], Some(TruncatedMessage))
    else
      var rest := Parse(p, raw[p.length(raw[0])..]);
      Parsed(EventsIn(p, raw[..p.length(raw[0])]) + rest.events, rest.error)
  }

  // ---------------------------------------------------------------- streams as lists of whole messages

  /** A whole message: as long as its type says. */
  predicate Whole(p: Protocol, m: seq<Byte>) {
    m != [] && |m| == p.length(m[0])
  }

  predicate AllWhole(p: Protocol, ms: seq<seq<Byte>>) {
    forall k :: 0 <= k < |ms| ==> Whole(p, ms[k])
  }

  function Flatten(ms: seq<seq<Byte>>): seq<Byte> {
    if ms == [] then [] else ms[0] + Flatten(ms[1..])
  }

  function EventsOf(p: Protocol, ms: seq<seq<Byte>>): seq<Event> {
    if ms == [] then [] else EventsIn(p, ms[0]) + EventsOf(p, ms[1..])
  }

  lemma ParseOne(p: Protocol, m: seq<Byte>, b: seq<Byte>)
    requires Whole(p, m)
    ensures Parse(p, m + b) == Parsed(EventsIn(p, m) + Parse(p, b).events, Parse(p, b).error)
  {
    assert (m + b)[..|m|] == m && (m + b)[|m|..] == b;
  }

  /** Whole messages in front of anything contribute exactly their events. */
  lemma {:induction false} ParseWhole(p: Protocol, ms: seq<seq<Byte>>, b: seq<Byte>)
    requires AllWhole(p, ms)
    ensures Parse(p, Flatten(ms) + b) == Parsed(EventsOf(p, ms) + Parse(p, b).events, Parse(p, b).error)
  {
    if ms == [] {
      assert Flatten(ms) + b == b;
    } else {
      assert Flatten(ms) + b == ms[0] + (Flatten(ms[1..]) + b);
      ParseOne(p, ms[0], Flatten(ms[1..]) + b);
      ParseWhole(p, ms[1..], b);
      assert EventsIn(p, ms[0]) + (EventsOf(p, ms[1..]) + Parse(p, b).events) == EventsOf(p, ms) + Parse(p, b).events;
    }
  }

  /** What is left where the parser stops. */
  predicate Stops(p: Protocol, rest: seq<Byte>, error: Option<ParseError>) {
    match error
    case None => rest == []
    case Some(UnknownType) => rest != [] && p.length(rest[0]) == 0
    case Some(TruncatedMessage) => rest != [] && |rest| < p.length(rest[0])
  }

  lemma StopsParse(p: Protocol, rest: seq<Byte>, error: Option<ParseError>)
    requires Stops(p, rest, error)
    ensures Parse(p, rest) == Parsed([], error)
  {
  }

  /** Any input is a run of whole messages and a remainder that says why the parser stopped; the events are those of
      the whole messages. */
  lemma {:induction false} ParseSplits(p: Protocol, raw: seq<Byte>) returns (ms: seq<seq<Byte>>, rest: seq<Byte>)
    ensures raw == Flatten(ms) + rest && AllWhole(p, ms)
    ensures Stops(p, rest, Parse(p, raw).error) && Parse(p, raw).events == EventsOf(p, ms)
    decreases |raw|
  {
    if raw == [] || p.length(raw[0]) == 0 || p.length(raw[0]) > |raw| {
      ms, rest := [], raw;
    } else {
      var n := p.length(raw[0]);
      var tail;
      tail, rest := ParseSplits(p, raw[n..]);
      ms := [raw[..n]] + tail;
      assert ms[1..] == tail && Whole(p, ms[0]);
      assert raw == raw[..n] + raw[n..];
    }
  }

  /** The whole messages at the front of the input. */
  function Messages(p: Protocol, raw: seq<Byte>): seq<seq<Byte>> {
    if raw == [] || p.length(raw[0]) == 0 || p.length(raw[0]) > |raw| then []
    else [raw[..p.length(raw[0])]] + Messages(p, raw[p.length(raw[0])..])
  }

  /** There is only one way to split an input into whole messages and a remainder that stops the parser. */
  lemma {:induction false} MessagesAre(p: Protocol, ms: seq<seq<Byte>>, rest: seq<Byte>, error: Option<ParseError>)
    requires AllWhole(p, ms) && Stops(p, rest, error)
    ensures Messages(p, Flatten(ms) + rest) == ms
    decreases ms
  {
    if ms == [] {
      assert Flatten(ms) + rest == rest;
    } else {
      var m, tail := ms[0], Flatten(ms[1..]) + rest;
      assert Flatten(ms) + rest == m + tail;
      assert (m + tail)[..|m|] == m && (m + tail)[|m|..] == tail;
      MessagesAre(p, ms[1..], rest, error);
    }
  }

  /** The parser accepts exactly the concatenations of whole messages. */
  lemma AcceptsIff(p: Protocol, raw: seq<Byte>)
    ensures Parse(p, raw).error.None? <==> exists ms :: AllWhole(p, ms) && Flatten(ms) == raw
  {
    if Parse(p, raw).error.None? {
      var ms, rest := ParseSplits(p, raw);
      assert Flatten(ms) == raw;
    }
    if ms :| AllWhole(p, ms) && Flatten(ms) == raw {
      ParseWhole(p, ms, []);
      assert raw + [] == raw;
    }
  }

  /** Parsing a ++ b is parsing a and then b, whenever a is accepted. */
  lemma ParseConcat(p: Protocol, a: seq<Byte>, b: seq<Byte>)
    requires Parse(p, a).error.None?
    ensures Parse(p, a + b) == Parsed(Parse(p, a).events + Parse(p, b).events, Parse(p, b).error)
  {
    var ms, rest := ParseSplits(p, a);
    assert a == Flatten(ms);
    ParseWhole(p, ms, b);
  }

  /** Accepted or not, more input never takes back an event. */
  lemma ParseExtends(p: Protocol, a: seq<Byte>, b: seq<Byte>)
    ensures Parse(p, a).events <= Parse(p, a + b).events
    ensures Parse(p, a).error == Some(UnknownType) ==> Parse(p, a + b) == Parse(p, a)
  {
    var ms, rest := ParseSplits(p, a);
    assert a + b == Flatten(ms) + (rest + b);
    ParseWhole(p, ms, rest + b);
    if Parse(p, a).error == Some(UnknownType) {
      StopsParse(p, rest + b, Some(UnknownType));
      assert EventsOf(p, ms) + [] == EventsOf(p, ms);
    }
  }

  // ---------------------------------------------------------------- round trip

  function Written<M>(write: M -> seq<Byte>, ms: seq<M>): seq<Byte> {
    if ms == [] then [] else write(ms[0]) + Written(write, ms[1..])
  }

  lemma {:induction false} WrittenParses<M>(p: Protocol, write: M -> seq<Byte>, meaning: M -> Event, ms: seq<M>)
    requires forall m :: Whole(p, write(m)) && p.decode(write(m)) == Some(meaning(m))
    ensures Parse(p, Written(write, ms)) == Parsed(seq(|ms|, k requires 0 <= k < |ms| => meaning(ms[k])), None)
  {
    if ms != [] {
      ParseOne(p, write(ms[0]), Written(write, ms[1..]));
      WrittenParses(p, write, meaning, ms[1..]);
    }
  }

  lemma EncodeIsWhole(m: Message)
    ensures Whole(ITCH, Encode(m)) && ITCH.decode(Encode(m)) == Some(Meaning(m))
  {
    EncodeLength(m);
    DispatchMeaning(m);
  }

  /** Every list of messages parses back to its events, one each, in order. */
  lemma StreamRoundTrip(ms: seq<Message>)
    ensures Parse(ITCH, Written(Encode, ms)) == Parsed(seq(|ms|, k requires 0 <= k < |ms| => Meaning(ms[k])), None)
  {
    forall m: Message
      ensures Whole(ITCH, Encode(m)) && ITCH.decode(Encode(m)) == Some(Meaning(m))
    {
      EncodeIsWhole(m);
    }
    WrittenParses(ITCH, Encode, Meaning, ms);
  }

  // ---------------------------------------------------------------- operations

  const SPACES: Chunk8 := [32, 32, 32, 32, 32, 32, 32, 32]

  method EmitAddOrder(buf: seq<Byte>, ts: U64, id: U64, side: Side, shares: U32, price: U32) returns (b: seq<Byte>)
    ensures b == buf + Encode(Add(Header(0, 0, ts, id), side, shares, SPACES, price))
  {
    b := [ByteOf('A')] + Be(0, 2) + Be(0, 2);
    b := b + Be(ts / 0x1_0000_0000 % 0x1_0000, 2) + Be(ts % 0x1_0000_0000, 4) + Be(id, 8);
    b := b + ([if side.Bid? then ByteOf('B') else ByteOf('S')] + Be(shares, 4) + SPACES + Be(price, 4));
    b := buf + b;
  }

  method EmitOrderDelete(buf: seq<Byte>, ts: U64, id: U64) returns (b: seq<Byte>)
    ensures b == buf + Encode(Delete(Header(0, 0, ts, id)))
  {
    b := [ByteOf('D')] + Be(0, 2) + Be(0, 2);
    b := b + Be(ts / 0x1_0000_0000 % 0x1_0000, 2) + Be(ts % 0x1_0000_0000, 4) + Be(id, 8);
    assert b + [] == b;
    b := buf + b;
  }

  method EmitTrade(buf: seq<Byte>, ts: U64, id: U64, side: Side, shares: U32, price: U32) returns (b: seq<Byte>)
    ensures b == buf + Encode(NonCross(Header(0, 0, ts, id), side, shares, SPACES, price, Be(0, 8)))
  {
    var head := [ByteOf('P')] + Be(0, 2) + Be(0, 2)
      + Be(ts / 0x1_0000_0000 % 0x1_0000, 2) + Be(ts % 0x1_0000_0000, 4) + Be(id, 8);
    var quote := [if side.Bid? then ByteOf('B') else ByteOf('S')] + Be(shares, 4) + SPACES + Be(price, 4);
    assert head == Head(ByteOf('P'), Header(0, 0, ts, id));
    assert quote == Quote(side, shares, SPACES, price);
    b := buf + (head + (quote + Be(0, 8)));
  }

  lemma ParseAt(p: Protocol, raw: seq<Byte>, i: nat, n: nat)
    requires i < |raw| && n == p.length(raw[i]) && 0 < n <= |raw| - i
    ensures Parse(p, raw[i..])
         == Parsed(EventsIn(p, raw[i..i + n]) + Parse(p, raw[i + n..]).events, Parse(p, raw[i + n..]).error)
  {
    assert raw[i..] == raw[i..i + n] + raw[i + n..];
    ParseOne(p, raw[i..i + n], raw[i + n..]);
  }

  /** At offset `i`, with `out` so far, the rest of the input completes the specified result. */
  ghost predicate Ahead(p: Protocol, raw: seq<Byte>, before: seq<Event>, out: seq<Event>, n: nat, i: nat)
    requires i <= |raw|
  {
    && |out| == |before| + n && Parse(p, raw[i..]).error == Parse(p, raw).error
    && out + Parse(p, raw[i..]).events == before + Parse(p, raw).events
  }

  lemma AheadStep(p: Protocol, raw: seq<Byte>, before: seq<Event>, out: seq<Event>, n: nat, i: nat, len: nat)
    requires i < |raw| && len == p.length(raw[i]) && 0 < len <= |raw| - i && Ahead(p, raw, before, out, n, i)
    ensures var e := p.decode(raw[i..i + len]);
            if e.Some? then Ahead(p, raw, before, out + [e.value], n + 1, i + len) else Ahead(p, raw, before, out, n, i + len)
  {
    ParseAt(p, raw, i, len);
    var es, rest := EventsIn(p, raw[i..i + len]), Parse(p, raw[i + len..]).events;
    Regroup(out, es, rest, Parse(p, raw[i..]).events);
  }

  lemma Regroup<T>(a: seq<T>, b: seq<T>, c: seq<T>, bc: seq<T>)
    requires bc == b + c
    ensures a + bc == (a + b) + c && (b == [] ==> bc == c)
  {
  }

  lemma AheadStop(p: Protocol, raw: seq<Byte>, before: seq<Event>, out: seq<Event>, n: nat, i: nat, error: Option<ParseError>)
    requires i <= |raw| && Ahead(p, raw, before, out, n, i) && Stops(p, raw[i..], error)
    ensures error == Parse(p, raw).error && out == before + Parse(p, raw).events && n == |Parse(p, raw).events|
  {
    StopsParse(p, raw[i..], error);
    assert out + [] == out;
  }

  method ParseBuffer(p: Protocol, raw: seq<Byte>, before: seq<Event>)
    returns (out: seq<Event>, n: nat, error: Option<ParseError>)
    ensures error == Parse(p, raw).error && out == before + Parse(p, raw).events && n == |Parse(p, raw).events|
  {
    var i := 0;
    out, n, error := before, 0, None;
    assert raw[0..] == raw;
    while i < |raw|
      invariant 0 <= i <= |raw| && error.None? && Ahead(p, raw, before, out, n, i)
    {
      var len := p.length(raw[i]);
      if len == 0 {
        error := Some(UnknownType);
        break;
      }
      if i + len > |raw| {
        error := Some(TruncatedMessage);
        break;
      }
      AheadStep(p, raw, before, out, n, i, len);
      var e := p.decode(raw[i..i + len]);
      if e.Some? {
        out, n := out + [e.value], n + 1;
      }
      i := i + len;
    }
    AheadStop(p, raw, before, out, n, i, error);
  }
}
