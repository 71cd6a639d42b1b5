/** The segmented write-ahead log (replay/src/wal.rs). A crash may cut the last segment anywhere not below
    its last synced length. Everything is proved for any lawful framing; `Crc32Framing` is the log's own,
    with CRC-32 any function of the payload. */
module Wal {
  import opened Events
  import opened Bytes

  type Payload = seq<Byte>

  // ---------------------------------------------------------------- framing

  /** How a record is written, and how the record at the front of some bytes is found (if it is whole). */
  datatype Framing = Framing(frame: Payload -> seq<Byte>, scan: seq<Byte> -> Option<Payload>)

  predicate Small(p: Payload) {
    |p| < 0x1_0000_0000
  }

  /** Frames are found, cut frames are not, and whatever is found is a frame. */
  ghost predicate Lawful(f: Framing) {
    && (forall p :: Small(p) ==> |f.frame(p)| == 8 + |p|)
    && (forall p, z :: Small(p) ==> f.scan(f.frame(p) + z) == Some(p))
    && (forall p, cut: nat :: Small(p) && cut < 8 + |p| && cut <= |f.frame(p)| ==> f.scan(f.frame(p)[..cut]) == None)
    && (forall b :: f.scan(b).Some? ==> Found(f, b, f.scan(b).value))
  }

  ghost predicate Found(f: Framing, b: seq<Byte>, p: Payload) {
    Small(p) && 8 + |p| <= |b| && b[..8 + |p|] == f.frame(p)
  }

  type Crc32 = Payload -> U32

  /** length, checksum, payload. */
  function CrcFrame(crc32: Crc32, p: Payload): (b: seq<Byte>)
    ensures |b| == 8 + |p|
  {
    Le(|p|, 4) + Le(crc32(p), 4) + p
  }

  /** None when the header or the payload is short, or the checksum is off. */
  function CrcScan(crc32: Crc32, b: seq<Byte>): Option<Payload> {
    if |b| < 8 then None
    else
      var len := U32At(b, 0);
      if |b| < 8 + len then None
      else if crc32(b[8..8 + len]) != U32At(b, 4) then None
      else Some(b[8..8 + len])
  }

  function Crc32Framing(crc32: Crc32): Framing {
    Framing(p => CrcFrame(crc32, p), b => CrcScan(crc32, b))
  }

  /** A record on disk: length, CRC-32 of the payload, payload. */
  lemma HeaderReads(crc32: Crc32, p: Payload, z: seq<Byte>)
    requires Small(p)
    ensures U32At(CrcFrame(crc32, p) + z, 0) == |p| && U32At(CrcFrame(crc32, p) + z, 4) == crc32(p)
    ensures (CrcFrame(crc32, p) + z)[8..] == p + z
  {
    var n, c := Le(|p|, 4), Le(crc32(p), 4);
    assert CrcFrame(crc32, p) + z == [] + n + (c + p + z) == n + c + (p + z);
    FieldU32([], |p|, c + p + z);
    FieldU32(n, crc32(p), p + z);
  }

  lemma FrameIsFound(crc32: Crc32, p: Payload, z: seq<Byte>)
    requires Small(p)
    ensures CrcScan(crc32, CrcFrame(crc32, p) + z) == Some(p)
  {
    HeaderReads(crc32, p, z);
    assert (CrcFrame(crc32, p) + z)[8..8 + |p|] == p;
  }

  lemma CutFrameIsNotFound(crc32: Crc32, p: Payload, cut: nat)
    requires Small(p) && cut < 8 + |p|
    ensures CrcScan(crc32, CrcFrame(crc32, p)[..cut]) == None
  {
    if cut >= 8 {
      var b := CrcFrame(crc32, p)[..cut];
      HeaderReads(crc32, p, []);
      assert b[0..4] == (CrcFrame(crc32, p) + [])[0..4];
      assert U32At(b, 0) == |p|;
    }
  }

  lemma FoundIsFrame(crc32: Crc32, b: seq<Byte>)
    requires CrcScan(crc32, b).Some?
    ensures var p := CrcScan(crc32, b).value; Small(p) && 8 + |p| <= |b| && b[..8 + |p|] == CrcFrame(crc32, p)
  {
    var p := CrcScan(crc32, b).value;
    LeOfFromLe(b[0..4]);
    LeOfFromLe(b[4..8]);
    assert b[..8 + |p|] == b[0..4] + b[4..8] + p;
  }

  lemma Crc32FramingIsLawful(crc32: Crc32)
    ensures Lawful(Crc32Framing(crc32))
  {
    var f := Crc32Framing(crc32);
    forall p, z | Small(p)
      ensures f.scan(f.frame(p) + z) == Some(p)
    {
      FrameIsFound(crc32, p, z);
    }
    forall p, cut: nat | Small(p) && cut < 8 + |p|
      ensures f.scan(f.frame(p)[..cut]) == None
    {
      CutFrameIsNotFound(crc32, p, cut);
    }
    forall b | f.scan(b).Some?
      ensures Found(f, b, f.scan(b).value)
    {
      FoundIsFrame(crc32, b);
    }
  }

  // ---------------------------------------------------------------- one segment

  function Encode(f: Framing, rs: seq<Payload>): seq<Byte> {
    if rs == [] then [] else f.frame(rs[0]) + Encode(f, rs[1..])
  }

  /** What a reader gets out of a segment before it gives up on it. */
  function Parse(f: Framing, b: seq<Byte>): seq<Payload>
    decreases |b|
  {
    var r := f.scan(b);
    if r.Some? && 8 + |r.value| <= |b| then [r.value] + Parse(f, b[8 + |r.value|..]) else []
  }

  ghost predicate AllSmall(rs: seq<Payload>) {
    forall i :: 0 <= i < |rs| ==> Small(rs[i])
  }

  lemma ParseStep(f: Framing, p: Payload, z: seq<Byte>)
    requires Lawful(f) && Small(p)
    ensures Parse(f, f.frame(p) + z) == [p] + Parse(f, z)
  {
    assert f.scan(f.frame(p) + z) == Some(p);
    assert (f.frame(p) + z)[8 + |p|..] == z;
  }

  lemma {:induction false} ParseEncode(f: Framing, rs: seq<Payload>)
    requires Lawful(f) && AllSmall(rs)
    ensures Parse(f, Encode(f, rs)) == rs
    decreases rs
  {
    if rs != [] {
      ParseStep(f, rs[0], Encode(f, rs[1..]));
      ParseEncode(f, rs[1..]);
    }
  }

  /** How many whole records lie below `cut`. */
  function Whole(rs: seq<Payload>, cut: nat): (k: nat)
    ensures k <= |rs|
  {
    if rs == [] || cut < 8 + |rs[0]| then 0 else 1 + Whole(rs[1..], cut - 8 - |rs[0]|)
  }

  /** A cut segment reads back as the records that lie whole below the cut. */
  lemma {:induction false} ParseCut(f: Framing, rs: seq<Payload>, cut: nat)
    requires Lawful(f) && AllSmall(rs) && cut <= |Encode(f, rs)|
    ensures Parse(f, Encode(f, rs)[..cut]) == rs[..Whole(rs, cut)]
    decreases rs
  {
    if rs != [] {
      var fr, t := f.frame(rs[0]), Encode(f, rs[1..]);
      var b := (fr + t)[..cut];
      if cut < 8 + |rs[0]| {
        assert b == fr[..cut];
      } else {
        var rest := cut - 8 - |rs[0]|;
        assert b == fr + t[..rest];
        ParseStep(f, rs[0], t[..rest]);
        ParseCut(f, rs[1..], rest);
        assert rs[..Whole(rs, cut)] == [rs[0]] + rs[1..][..Whole(rs[1..], rest)];
      }
    }
  }

  lemma {:induction false} EncodeAppend(f: Framing, a: seq<Payload>, b: seq<Payload>)
    ensures Encode(f, a + b) == Encode(f, a) + Encode(f, b)
    decreases a
  {
    if a == [] {
      assert a + b == b;
    } else {
      assert (a + b)[1..] == a[1..] + b;
      EncodeAppend(f, a[1..], b);
    }
  }

  lemma EncodeSnoc(f: Framing, rs: seq<Payload>, p: Payload)
    ensures Encode(f, rs + [p]) == Encode(f, rs) + f.frame(p)
  {
    EncodeAppend(f, rs, [p]);
    assert Encode(f, [p]) == f.frame(p) + Encode(f, []);
  }

  /** A later cut keeps at least as much. */
  lemma {:induction false} WholeMonotone(rs: seq<Payload>, c: nat, d: nat)
    requires c <= d
    ensures Whole(rs, c) <= Whole(rs, d)
    decreases rs
  {
    if rs != [] && c >= 8 + |rs[0]| {
      WholeMonotone(rs[1..], c - 8 - |rs[0]|, d - 8 - |rs[0]|);
    }
  }

  lemma {:induction false} WholeOfAll(f: Framing, rs: seq<Payload>)
    requires Lawful(f) && AllSmall(rs)
    ensures Whole(rs, |Encode(f, rs)|) == |rs|
    decreases rs
  {
    if rs != [] {
      WholeOfAll(f, rs[1..]);
    }
  }

  lemma {:induction false} ParsedIsSmall(f: Framing, b: seq<Byte>)
    requires Lawful(f)
    ensures AllSmall(Parse(f, b))
    decreases |b|
  {
    var r := f.scan(b);
    if r.Some? {
      assert Found(f, b, r.value);
      ParsedIsSmall(f, b[8 + |r.value|..]);
    }
  }

  // ---------------------------------------------------------------- recovery and reading

  /** Keep the valid prefix, drop the torn tail. */
  function Recover(f: Framing, b: seq<Byte>): seq<Byte> {
    Encode(f, Parse(f, b))
  }

  /** Recovery really is a truncation. */
  lemma {:induction false} RecoverIsPrefix(f: Framing, b: seq<Byte>)
    requires Lawful(f)
    ensures Recover(f, b) <= b
    decreases |b|
  {
    var r := f.scan(b);
    if r.Some? {
      assert Found(f, b, r.value);
      RecoverIsPrefix(f, b[8 + |r.value|..]);
    }
  }

  /** Recovering twice changes nothing, and a recovered segment reads as the raw one did. */
  lemma RecoverIdempotent(f: Framing, b: seq<Byte>)
    requires Lawful(f)
    ensures Parse(f, Recover(f, b)) == Parse(f, b)
    ensures Recover(f, Recover(f, b)) == Recover(f, b)
  {
    ParsedIsSmall(f, b);
    ParseEncode(f, Parse(f, b));
  }

  /** Scan the segment, then cut it at the last valid record. */
  method RecoverSegmentTail(f: Framing, file: seq<Byte>) returns (kept: seq<Byte>, offset: nat)
    requires Lawful(f)
    ensures offset <= |file| && kept == file[..offset] == Recover(f, file)
  {
    offset := 0;
    while f.scan(file[offset..]).Some?
      invariant offset <= |file|
      invariant |Recover(f, file)| == offset + |Recover(f, file[offset..])|
      decreases |file| - offset
    {
      var b := file[offset..];
      var p := f.scan(b).value;
      assert Found(f, b, p);
      assert b[8 + |p|..] == file[offset + 8 + |p|..];
      offset := offset + 8 + |p|;
    }
    RecoverIsPrefix(f, file);
    kept := file[..offset];
  }

  /** All segments in order. */
  function ReadAll(f: Framing, segments: seq<seq<Byte>>): seq<Payload> {
    if segments == [] then [] else Parse(f, segments[0]) + ReadAll(f, segments[1..])
  }

  lemma {:induction false} ReadAllSnoc(f: Framing, a: seq<seq<Byte>>, s: seq<Byte>)
    ensures ReadAll(f, a + [s]) == ReadAll(f, a) + Parse(f, s)
    decreases a
  {
    if a == [] {
      assert a + [s] == [s];
      assert ReadAll(f, [s]) == Parse(f, s) + ReadAll(f, []);
    } else {
      assert (a + [s])[1..] == a[1..] + [s];
      ReadAllSnoc(f, a[1..], s);
    }
  }

  /** The records still to come from offset `file` of segment `i`, or from its start when it is not open yet. */
  function Rest(f: Framing, segments: seq<seq<Byte>>, i: nat, file: Option<nat>): seq<Payload>
    requires i <= |segments| && (file.Some? ==> i < |segments| && file.value <= |segments[i]|)
  {
    if file.Some? then Parse(f, segments[i][file.value..]) + ReadAll(f, segments[i + 1..]) else ReadAll(f, segments[i..])
  }

  lemma SegmentOpens(f: Framing, segments: seq<seq<Byte>>, i: nat)
    requires i < |segments|
    ensures Rest(f, segments, i, Some(0)) == Rest(f, segments, i, None)
  {
    assert segments[i..][1..] == segments[i + 1..];
    assert segments[i][0..] == segments[i];
  }

  lemma SegmentEnds(f: Framing, segments: seq<seq<Byte>>, i: nat, at: nat)
    requires i < |segments| && at <= |segments[i]| && f.scan(segments[i][at..]).None?
    ensures Rest(f, segments, i, Some(at)) == Rest(f, segments, i + 1, None)
  {
    assert Parse(f, segments[i][at..]) == [];
  }

  lemma RecordComes(f: Framing, segments: seq<seq<Byte>>, i: nat, at: nat, p: Payload)
    requires Lawful(f) && i < |segments| && at <= |segments[i]| && f.scan(segments[i][at..]) == Some(p)
    ensures at + 8 + |p| <= |segments[i]|
    ensures Rest(f, segments, i, Some(at)) == [p] + Rest(f, segments, i, Some(at + 8 + |p|))
  {
    var b := segments[i][at..];
    assert Found(f, b, p);
    assert b[8 + |p|..] == segments[i][at + 8 + |p|..];
    ParseHead(f, b, p);
  }

  lemma ParseHead(f: Framing, b: seq<Byte>, p: Payload)
    requires f.scan(b) == Some(p) && 8 + |p| <= |b|
    ensures Parse(f, b) == [p] + Parse(f, b[8 + |p|..])
  {
  }

  class WalReader {
    const f: Framing
    const segments: seq<seq<Byte>>
    var segIdx: nat
    var file: Option<nat>  // offset in the open segment

    ghost predicate Valid()
      reads this
    {
      segIdx <= |segments| && (file.Some? ==> segIdx < |segments| && file.value <= |segments[segIdx]|)
    }

    /** The records still to come. */
    ghost function Remaining(): seq<Payload>
      requires Valid()
      reads this
    {
      Rest(f, segments, segIdx, file)
    }

    constructor (f: Framing, segments: seq<seq<Byte>>)
      ensures Valid() && this.f == f && this.segments == segments
      ensures Remaining() == ReadAll(f, segments)
    {
      this.f, this.segments := f, segments;
      segIdx, file := 0, None;
      new;
      assert segments[0..] == segments;
    }

    /** The next record, or None at the end; a torn tail ends its segment. */
    method NextRecord() returns (r: Option<Payload>)
      requires Valid() && Lawful(f)
      modifies this
      ensures Valid()
      ensures r.None? ==> old(Remaining()) == [] == Remaining()
      ensures r.Some? ==> old(Remaining()) == [r.value] + Remaining()
    {
      ghost var rest := Remaining();
      while true
        invariant Valid() && Remaining() == rest
        decreases |segments| - segIdx, if file.None? then 1 else 0
      {
        if file.None? {
          if segIdx >= |segments| {
            return None;
          }
          SegmentOpens(f, segments, segIdx);
          file := Some(0);
        } else {
          r := NextInSegment();
          if r.Some? {
            return;
          }
        }
      }
    }

    /** The next record of the open segment; a torn or finished one is closed. */
    method NextInSegment() returns (r: Option<Payload>)
      requires Valid() && Lawful(f) && file.Some?
      modifies this
      ensures Valid()
      ensures r.None? ==> Remaining() == old(Remaining()) && file.None? && segIdx == old(segIdx) + 1
      ensures r.Some? ==> old(Remaining()) == [r.value] + Remaining()
    {
      r := f.scan(segments[segIdx][file.value..]);
      if r.None? {
        SegmentEnds(f, segments, segIdx, file.value);
        file, segIdx := None, segIdx + 1;
      } else {
        RecordComes(f, segments, segIdx, file.value, r.value);
        file := Some(file.value + 8 + |r.value|);
      }
    }
  }
}
