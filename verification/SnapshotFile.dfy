/** The on-disk snapshot frame around a book image (replay/src/snapshot.rs). */
module SnapshotFile {
  import opened Events
  import opened Bytes
  import opened OrderStore
  import opened HotBook
  import B = BookSnapshot

  datatype Snapshot = Snapshot(seqNo: U64, stateHash: U64, bookData: seq<Byte>)

  datatype FrameError =
    | TooShort(len: nat)
    | BadMagic(magic: seq<Byte>)
    | BadVersion(version: U32)
    | BadLength(declared: nat, actual: nat)

  /** "FLSN". */
  const MAGIC: seq<Byte> := [70, 76, 83, 78]
  const VERSION: U32 := 1
  const U32_MAX: U32 := 0xFFFF_FFFF

  function Preamble(s: Snapshot): (b: seq<Byte>)
    ensures |b| == 24
  {
    MAGIC + Le(VERSION, 4) + Le(s.seqNo, 8) + Le(s.stateHash, 8)
  }

  /** The length field saturates at u32::MAX. */
  function ToBytes(s: Snapshot): seq<Byte> {
    Preamble(s) + Le(Min(|s.bookData|, U32_MAX), 4) + s.bookData
  }

  function FromBytes(buf: seq<Byte>): Result<Snapshot, FrameError> {
    if |buf| < 28 then Err(TooShort(|buf|))
    else if buf[..4] != MAGIC then Err(BadMagic(buf[..4]))
    else if U32At(buf, 4) != VERSION then Err(BadVersion(U32At(buf, 4)))
    else
      var declared, payload := U32At(buf, 24), buf[28..];
      if declared > |payload| then Err(BadLength(declared, |payload|))
      else Ok(Snapshot(U64At(buf, 8), U64At(buf, 16), payload[..declared]))
  }

  lemma PreambleReads(s: Snapshot, z: seq<Byte>)
    ensures var buf := Preamble(s) + z;
            buf[..4] == MAGIC && U32At(buf, 4) == VERSION && U64At(buf, 8) == s.seqNo && U64At(buf, 16) == s.stateHash
  {
    var v, q, h := Le(VERSION, 4), Le(s.seqNo, 8), Le(s.stateHash, 8);
    assert Preamble(s) + z == MAGIC + v + (q + h + z) == (MAGIC + v) + q + (h + z) == (MAGIC + v + q) + h + z;
    FieldU32(MAGIC, VERSION, q + h + z);
    FieldU64(MAGIC + v, s.seqNo, h + z);
    FieldU64(MAGIC + v + q, s.stateHash, z);
  }

  /** What actually comes back: the frame, with at most u32::MAX bytes of book. */
  lemma FrameReads(s: Snapshot)
    ensures FromBytes(ToBytes(s)) == Ok(s.(bookData := s.bookData[..Min(|s.bookData|, U32_MAX)]))
  {
    var n := Min(|s.bookData|, U32_MAX);
    var buf := ToBytes(s);
    PreambleReads(s, Le(n, 4) + s.bookData);
    assert buf == Preamble(s) + (Le(n, 4) + s.bookData);
    FieldU32(Preamble(s), n, s.bookData);
    assert buf[28..] == s.bookData;
  }

  /** The bytes of "FLSN". */
  predicate IsMagic(b: seq<Byte>) {
    |b| == 4 && b[0] == 'F' as int && b[1] == 'L' as int && b[2] == 'S' as int && b[3] == 'N' as int
  }

  /** A frame is accepted when it has its header, magic, version 1 and at least the bytes it declares; what follows those
      is ignored. */
  lemma FrameAcceptsIff(buf: seq<Byte>)
    ensures FromBytes(buf).Ok?
            <==> |buf| >= 28 && IsMagic(buf[..4]) && U32At(buf, 4) == 1 && 28 + U32At(buf, 24) <= |buf|
    ensures FromBytes(buf).Ok? ==>
              var s := FromBytes(buf).value;
              && s.seqNo == U64At(buf, 8) && s.stateHash == U64At(buf, 16)
              && s.bookData == buf[28..28 + U32At(buf, 24)]
  {
    if |buf| >= 28 {
      assert IsMagic(buf[..4]) <==> buf[..4] == MAGIC;
      assert 28 + U32At(buf, 24) <= |buf| ==> buf[28..][..U32At(buf, 24)] == buf[28..28 + U32At(buf, 24)];
    }
  }

  /** Nothing but the header and the book is written. */
  lemma FrameLength(s: Snapshot)
    ensures |ToBytes(s)| == 28 + |s.bookData|
  {
  }

  /** The frame round-trips exactly for books of at most u32::MAX bytes. A larger one is not refused, as the
      saturating length is documented to ensure: it is cut. */
  lemma FrameRoundTripIff(s: Snapshot)
    ensures FromBytes(ToBytes(s)) == Ok(s) <==> |s.bookData| <= U32_MAX
  {
    FrameReads(s);
    assert |s.bookData| <= U32_MAX ==> s.bookData[..|s.bookData|] == s.bookData;
  }

  /** Resume from the file: frame the book's image after `a`, read the frame, decode, apply `b`. */
  lemma FileResumes(cap: U32, instrumentId: U32, seqNo: U64, stateHash: U64, a: seq<Event>, b: seq<Event>)
    requires B.Writable(cap, HotRun(cap, EMPTY_HOT, a))
    requires |B.Encode(cap, B.Image(instrumentId, HotRun(cap, EMPTY_HOT, a)))| <= U32_MAX
    ensures var s := Snapshot(seqNo, stateHash, B.Encode(cap, B.Image(instrumentId, HotRun(cap, EMPTY_HOT, a))));
            && FromBytes(ToBytes(s)) == Ok(s)
            && var r := B.Decode(cap, FromBytes(ToBytes(s)).value.bookData);
               && r.Ok? && WellFormed(r.value.book.slab)
               && HotRun(cap, r.value.book, b) == HotRun(cap, EMPTY_HOT, a + b)
  {
    FrameRoundTripIff(Snapshot(seqNo, stateHash, B.Encode(cap, B.Image(instrumentId, HotRun(cap, EMPTY_HOT, a)))));
    B.ResumeEqualsReplay(cap, instrumentId, a, b);
  }
}
