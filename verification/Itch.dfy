/** NASDAQ TotalView-ITCH 5.0: message lengths, the event decoder and the stream parser, against the wire layout of
    every message that carries an event (replay/src/itch.rs). */
module Itch {
  import opened Events
  import opened Bytes

  /** Total length by message type, 0 for types outside the protocol. */
  function MsgLength(t: Byte): (n: nat)
    ensures n <= 50
  {
    match t as char
    case 'S' => 12
    case 'R' => 39
    case 'H' => 25
    case 'Y' => 20
    case 'L' => 26
    case 'V' => 35
    case 'W' => 12
    case 'K' => 28
    case 'J' => 35
    case 'h' => 21
    case 'A' => 36
    case 'F' => 40
    case 'E' => 31
    case 'C' => 36
    case 'X' => 23
    case 'D' => 19
    case 'U' => 35
    case 'P' => 44
    case 'Q' => 40
    case 'B' => 19
    case 'I' => 50
    case 'N' => 20
    case _ => 0
  }

  function ByteOf(c: char): Byte
    requires c < 128 as char
  {
    c as int
  }

  // ---------------------------------------------------------------- reading

  function ReadU16(m: seq<Byte>, at: nat): U16
    requires at + 2 <= |m|
  {
    U16BeAt(m, at)
  }

  function ReadU32(m: seq<Byte>, at: nat): U32
    requires at + 4 <= |m|
  {
    Widths();
    FromBe(m[at..at + 4])
  }

  function ReadU64(m: seq<Byte>, at: nat): U64
    requires at + 8 <= |m|
  {
    Widths();
    FromBe(m[at..at + 8])
  }

  /** 48-bit timestamp: two high bytes, four low ones. */
  function ReadTs(m: seq<Byte>, at: nat): U64
    requires at + 6 <= |m|
  {
    ReadU16(m, at) * 0x1_0000_0000 + ReadU32(m, at + 2)
  }

  function ReadSide(m: seq<Byte>): Byte
    requires |m| > 19
  {
    if m[19] == ByteOf('B') then 0 else 1
  }

  function ParseAdd(m: seq<Byte>): Option<Event> {
    if |m| < 36 then None
    else Some(Event(ReadTs(m, 5), ReadU32(m, 32), ReadU32(m, 20), ReadU64(m, 11), ReadU16(m, 1), 1, ReadSide(m)))
  }

  function ParseDelete(m: seq<Byte>): Option<Event> {
    if |m| < 19 then None else Some(Event(ReadTs(m, 5), 0, 0, ReadU64(m, 11), ReadU16(m, 1), 2, 0))
  }

  function ParseCancel(m: seq<Byte>): Option<Event> {
    if |m| < 23 then None else Some(Event(ReadTs(m, 5), 0, ReadU32(m, 19), ReadU64(m, 11), ReadU16(m, 1), 2, 0))
  }

  function ParseExecuted(m: seq<Byte>): Option<Event> {
    if |m| < 31 then None
    else
      var price := if m[0] == ByteOf('C') && |m| >= 36 then ReadU32(m, 32) else 0;
      Some(Event(ReadTs(m, 5), price, ReadU32(m, 19), ReadU64(m, 11), ReadU16(m, 1), 4, 0))
  }

  function ParseTrade(m: seq<Byte>): Option<Event> {
    if |m| < 44 then None
    else Some(Event(ReadTs(m, 5), ReadU32(m, 32), ReadU32(m, 20), ReadU64(m, 11), ReadU16(m, 1), 4, ReadSide(m)))
  }

  function Dispatch(m: seq<Byte>): Option<Event> {
    if m == [] then None
    else
      match m[0] as char
      case 'A' => ParseAdd(m)
      case 'F' => ParseAdd(m)
      case 'D' => ParseDelete(m)
      case 'X' => ParseCancel(m)
      case 'E' => ParseExecuted(m)
      case 'C' => ParseExecuted(m)
      case 'P' => ParseTrade(m)
      case _ => None
  }

  // ---------------------------------------------------------------- the wire layout

  datatype Header = Header(locate: U16, tracking: U16, ts: U64, id: U64)

  type Chunk4 = s: seq<Byte> | |s| == 4 witness [0, 0, 0, 0]
  type Chunk8 = s: seq<Byte> | |s| == 8 witness [0, 0, 0, 0, 0, 0, 0, 0]

  datatype Message =
    | Add(h: Header, side: Side, shares: U32, stock: Chunk8, price: U32)
    | AddMpid(h: Header, side: Side, shares: U32, stock: Chunk8, price: U32, mpid: Chunk4)
    | Delete(h: Header)
    | Cancel(h: Header, shares: U32)
    | Executed(h: Header, shares: U32, matchNumber: Chunk8)
    | ExecutedPrice(h: Header, shares: U32, matchNumber: Chunk8, printable: Byte, price: U32)
    | NonCross(h: Header, side: Side, shares: U32, stock: Chunk8, price: U32, matchNumber: Chunk8)

  function TypeByte(m: Message): Byte {
    match m
    case Add(_, _, _, _, _) => ByteOf('A')
    case AddMpid(_, _, _, _, _, _) => ByteOf('F')
    case Delete(_) => ByteOf('D')
    case Cancel(_, _) => ByteOf('X')
    case Executed(_, _, _) => ByteOf('E')
    case ExecutedPrice(_, _, _, _, _) => ByteOf('C')
    case NonCross(_, _, _, _, _, _) => ByteOf('P')
  }

  function SideByte(s: Side): Byte {
    if s.Bid? then ByteOf('B') else ByteOf('S')
  }

  /** Low 48 bits of the timestamp, as the emitters cut it. */
  function High(ts: U64): U16 {
    ts / 0x1_0000_0000 % 0x1_0000
  }

  function Low(ts: U64): U32 {
    ts % 0x1_0000_0000
  }

  /** The 19 bytes every message starts with. */
  function Head(t: Byte, h: Header): (b: seq<Byte>)
    ensures |b| == 19
  {
    [t] + Be(h.locate, 2) + Be(h.tracking, 2) + Be(High(h.ts), 2) + Be(Low(h.ts), 4) + Be(h.id, 8)
  }

  /** Side, shares, stock and price: 17 bytes. */
  function Quote(side: Side, shares: U32, stock: Chunk8, price: U32): (b: seq<Byte>)
    ensures |b| == 17
  {
    [SideByte(side)] + Be(shares, 4) + stock + Be(price, 4)
  }

  function Tail(m: Message): seq<Byte> {
    match m
    case Add(_, side, shares, stock, price) => Quote(side, shares, stock, price)
    case AddMpid(_, side, shares, stock, price, mpid) => Quote(side, shares, stock, price) + mpid
    case Delete(_) => []
    case Cancel(_, shares) => Be(shares, 4)
    case Executed(_, shares, number) => Be(shares, 4) + number
    case ExecutedPrice(_, shares, number, printable, price) => Be(shares, 4) + number + [printable] + Be(price, 4)
    case NonCross(_, side, shares, stock, price, number) => Quote(side, shares, stock, price) + number
  }

  function Encode(m: Message): seq<Byte> {
    Head(TypeByte(m), m.h) + Tail(m)
  }

  /** The event a message stands for. */
  function Meaning(m: Message): Event {
    var ts, id, loc := m.h.ts % 0x1_0000_0000_0000, m.h.id, m.h.locate;
    match m
    case Add(_, side, shares, _, price) => Event(ts, price, shares, id, loc, 1, if side.Bid? then 0 else 1)
    case AddMpid(_, side, shares, _, price, _) => Event(ts, price, shares, id, loc, 1, if side.Bid? then 0 else 1)
    case Delete(_) => Event(ts, 0, 0, id, loc, 2, 0)
    case Cancel(_, shares) => Event(ts, 0, shares, id, loc, 2, 0)
    case Executed(_, shares, _) => Event(ts, 0, shares, id, loc, 4, 0)
    case ExecutedPrice(_, shares, _, _, price) => Event(ts, price, shares, id, loc, 4, 0)
    case NonCross(_, side, shares, _, price, _) => Event(ts, price, shares, id, loc, 4, if side.Bid? then 0 else 1)
  }

  // ---------------------------------------------------------------- decoding what was encoded

  lemma FieldU32Be(m: seq<Byte>, at: nat, n: U32)
    requires at + 4 <= |m| && m[at..at + 4] == Be(n, 4)
    ensures ReadU32(m, at) == n
  {
    Widths();
    BeRoundTrip(n, 4);
  }

  lemma FieldU64Be(m: seq<Byte>, at: nat, n: U64)
    requires at + 8 <= |m| && m[at..at + 8] == Be(n, 8)
    ensures ReadU64(m, at) == n
  {
    Widths();
    BeRoundTrip(n, 8);
  }

  /** Cutting a timestamp into 16 and 32 bits keeps its low 48. */
  lemma TsSplits(ts: U64)
    ensures High(ts) * 0x1_0000_0000 + Low(ts) == ts % 0x1_0000_0000_0000
  {
  }

  lemma HeadSlices(t: Byte, h: Header, tail: seq<Byte>)
    ensures var m := Head(t, h) + tail;
            m[0] == t && m[1..3] == Be(h.locate, 2) && m[5..7] == Be(High(h.ts), 2) && m[7..11] == Be(Low(h.ts), 4)
            && m[11..19] == Be(h.id, 8)
  {
  }

  lemma HeadReads(t: Byte, h: Header, tail: seq<Byte>)
    ensures var m := Head(t, h) + tail;
            m[0] == t && ReadU16(m, 1) == h.locate && ReadTs(m, 5) == h.ts % 0x1_0000_0000_0000 && ReadU64(m, 11) == h.id
  {
    var m := Head(t, h) + tail;
    HeadSlices(t, h, tail);
    FieldU16Be(m, 1, h.locate);
    FieldU16Be(m, 5, High(h.ts));
    FieldU32Be(m, 7, Low(h.ts));
    FieldU64Be(m, 11, h.id);
    TsSplits(h.ts);
  }

  lemma QuoteReads(head: seq<Byte>, side: Side, shares: U32, stock: Chunk8, price: U32, rest: seq<Byte>)
    requires |head| == 19
    ensures var m := head + (Quote(side, shares, stock, price) + rest);
            m[19] == SideByte(side) && ReadU32(m, 20) == shares && ReadU32(m, 32) == price
  {
    var m := head + (Quote(side, shares, stock, price) + rest);
    assert m[20..24] == Be(shares, 4);
    assert m[32..36] == Be(price, 4);
    FieldU32Be(m, 20, shares);
    FieldU32Be(m, 32, price);
  }

  lemma SharesRead(head: seq<Byte>, shares: U32, rest: seq<Byte>)
    requires |head| == 19
    ensures ReadU32(head + (Be(shares, 4) + rest), 19) == shares
  {
    var m := head + (Be(shares, 4) + rest);
    assert m[19..23] == Be(shares, 4);
    FieldU32Be(m, 19, shares);
  }

  lemma PriceRead(head: seq<Byte>, shares: U32, number: Chunk8, printable: Byte, price: U32)
    requires |head| == 19
    ensures ReadU32(head + (Be(shares, 4) + number + [printable] + Be(price, 4)), 32) == price
  {
    var m := head + (Be(shares, 4) + number + [printable] + Be(price, 4));
    assert m[32..36] == Be(price, 4);
    FieldU32Be(m, 32, price);
  }

  lemma EncodeLength(m: Message)
    ensures |Encode(m)| == MsgLength(TypeByte(m)) && Encode(m)[0] == TypeByte(m)
  {
  }

  lemma QuoteMessageReads(m: Message)
    requires m.Add? || m.AddMpid? || m.NonCross?
    ensures var b := Encode(m);
            && |b| == MsgLength(TypeByte(m)) && b[0] == TypeByte(m) && b[19] == SideByte(m.side)
            && ReadU16(b, 1) == m.h.locate && ReadTs(b, 5) == m.h.ts % 0x1_0000_0000_0000 && ReadU64(b, 11) == m.h.id
            && ReadU32(b, 20) == m.shares && ReadU32(b, 32) == m.price
  {
    var rest := if m.Add? then [] else if m.AddMpid? then m.mpid else m.matchNumber;
    var head := Head(TypeByte(m), m.h);
    var quote := Quote(m.side, m.shares, m.stock, m.price);
    assert quote + [] == quote;
    assert Encode(m) == head + (quote + rest);
    EncodeLength(m);
    HeadReads(TypeByte(m), m.h, quote + rest);
    QuoteReads(head, m.side, m.shares, m.stock, m.price, rest);
  }

  lemma DispatchQuote(m: Message)
    requires m.Add? || m.AddMpid? || m.NonCross?
    ensures Dispatch(Encode(m)) == Some(Meaning(m))
  {
    QuoteMessageReads(m);
    QuoteEvent(Encode(m), m);
  }

  lemma QuoteEvent(b: seq<Byte>, m: Message)
    requires (m.Add? || m.AddMpid? || m.NonCross?) && |b| == MsgLength(TypeByte(m)) && b[0] == TypeByte(m)
    requires b[19] == SideByte(m.side) && ReadU16(b, 1) == m.h.locate && ReadTs(b, 5) == m.h.ts % 0x1_0000_0000_0000
    requires ReadU64(b, 11) == m.h.id && ReadU32(b, 20) == m.shares && ReadU32(b, 32) == m.price
    ensures Dispatch(b) == Some(Meaning(m))
  {
  }

  lemma DispatchReduce(m: Message)
    requires m.Delete? || m.Cancel? || m.Executed? || m.ExecutedPrice?
    ensures Dispatch(Encode(m)) == Some(Meaning(m))
  {
    var head := Head(TypeByte(m), m.h);
    EncodeLength(m);
    HeadReads(TypeByte(m), m.h, Tail(m));
    match m {
      case Delete(_) =>
      case Cancel(_, shares) =>
        assert Be(shares, 4) + [] == Be(shares, 4);
        SharesRead(head, shares, []);
      case Executed(_, shares, number) => SharesRead(head, shares, number);
      case ExecutedPrice(_, shares, number, printable, price) =>
        assert Tail(m) == Be(shares, 4) + (number + [printable] + Be(price, 4));
        SharesRead(head, shares, number + [printable] + Be(price, 4));
        PriceRead(head, shares, number, printable, price);
    }
  }

  /** Every well-formed message decodes to what it means. */
  lemma DispatchMeaning(m: Message)
    ensures Dispatch(Encode(m)) == Some(Meaning(m))
  {
    if m.Add? || m.AddMpid? || m.NonCross? {
      DispatchQuote(m);
    } else {
      DispatchReduce(m);
    }
  }

  // ---------------------------------------------------------------- lengths

  /** Type, stock locate, tracking number and timestamp. */
  const COMMON: nat := 1 + 2 + 2 + 6

  /** The widths of a message's fields after the common ones, in the order of sections 1.1 to 1.7 of NASDAQ
      TotalView-ITCH 5.0. */
  function FieldWidths(t: char): nat {
    match t
    case 'S' => 1
    case 'R' => 8 + 1 + 1 + 4 + 1 + 1 + 2 + 1 + 1 + 1 + 1 + 1 + 4 + 1
    case 'H' => 8 + 1 + 1 + 4
    case 'Y' => 8 + 1
    case 'L' => 4 + 8 + 1 + 1 + 1
    case 'V' => 8 + 8 + 8
    case 'W' => 1
    case 'K' => 8 + 4 + 1 + 4
    case 'J' => 8 + 4 + 4 + 4 + 4
    case 'h' => 8 + 1 + 1
    case 'A' => 8 + 1 + 4 + 8 + 4
    case 'F' => 8 + 1 + 4 + 8 + 4 + 4
    case 'E' => 8 + 4 + 8
    case 'C' => 8 + 4 + 8 + 1 + 4
    case 'X' => 8 + 4
    case 'D' => 8
    case 'U' => 8 + 8 + 4 + 4
    case 'P' => 8 + 1 + 4 + 8 + 4 + 8
    case 'Q' => 8 + 8 + 4 + 8 + 1
    case 'B' => 8
    case 'I' => 8 + 8 + 1 + 8 + 4 + 4 + 4 + 1 + 1
    case 'N' => 8 + 1
    case _ => 0
  }

  /** Every message type is as long as its fields; a byte that is no message type has length 0. */
  lemma LengthIsFields(t: Byte)
    ensures MsgLength(t) == if FieldWidths(t as char) == 0 then 0 else COMMON + FieldWidths(t as char)
    ensures MsgLength(t) == 0 <==> t as char !in "SRHYLVWKJhAFECXDUPQBIN"
  {
  }
}
