/** The log over whole runs: appends, syncs, rotations, crashes and reopenings (replay/src/wal.rs). */
module WalProtocol {
  import opened Events
  import opened Wal

  /** Finished segments, the segment being written, and how much of the latter is certainly on disk. */
  datatype Disk = Disk(closed: seq<seq<Byte>>, current: seq<Byte>, durable: nat)

  /** A crash loses power: what is on disk afterwards is durable. A kill ends the process: the file keeps what had been
      handed to the system, of which only the durable part is certainly on disk. Either way the log is reopened next. */
  datatype Action = Append(payload: Payload) | Flush | Sync | Reopen | Crash(cut: nat) | Kill(cut: nat)

  ghost predicate Clean(f: Framing, d: Disk) {
    && d.durable <= |d.current|
    && Recover(f, d.current) == d.current
    && AllSmall(Parse(f, d.current))
  }

  function Segments(d: Disk): seq<seq<Byte>> {
    d.closed + [d.current]
  }

  function Rotated(d: Disk): Disk {
    Disk(d.closed + [d.current], [], 0)
  }

  function Appended(f: Framing, segmentSize: nat, d: Disk, p: Payload): Disk {
    if !Small(p) then d
    else
      var e := if |d.current| + 8 + |p| > segmentSize then Rotated(d) else d;
      e.(current := e.current + f.frame(p))
  }

  /** What is left of the last segment is what recovery keeps of the image the crash left behind. */
  function Step(f: Framing, segmentSize: nat, d: Disk, a: Action): Disk {
    match a
    case Append(p) => Appended(f, segmentSize, d, p)
    case Flush => d
    case Sync => d.(durable := |d.current|)
    case Reopen => d.(current := Recover(f, d.current))
    case Crash(cut) =>
      if d.durable <= cut <= |d.current| then
        var kept := Recover(f, d.current[..cut]);
        Disk(d.closed, kept, |kept|)
      else d
    case Kill(cut) =>
      // recovery syncs only when it truncates
      if d.durable <= cut <= |d.current| then
        var kept := Recover(f, d.current[..cut]);
        Disk(d.closed, kept, if |kept| < cut then |kept| else d.durable)
      else d
  }

  function Run(f: Framing, segmentSize: nat, d: Disk, acts: seq<Action>): Disk
    decreases acts
  {
    if acts == [] then d else Run(f, segmentSize, Step(f, segmentSize, d, acts[0]), acts[1..])
  }

  // ---------------------------------------------------------------- what a log is for

  /** The records, and how many of them have been promised. */
  datatype Log = Log(records: seq<Payload>, synced: nat)

  /** Appends add, syncs promise, crashes may forget only what was not promised. Rotation syncs as a side effect. */
  ghost predicate Next(l: Log, a: Action, m: Log) {
    match a
    case Append(p) =>
      if Small(p) then m.records == l.records + [p] && (m.synced == l.synced || m.synced == |l.records|) else m == l
    case Flush => m == l
    case Sync => m == Log(l.records, |l.records|)
    case Reopen => m == l
    case Crash(_) => m == l || (l.synced <= |m.records| <= |l.records| && m == Log(l.records[..|m.records|], |m.records|))
    case Kill(_) =>
      && l.synced <= m.synced && |m.records| <= |l.records| && m.records == l.records[..|m.records|]
      && (m.synced == l.synced <= |m.records| || m.synced == |m.records|)
  }

  ghost predicate Behaves(l: Log, acts: seq<Action>, m: Log)
    decreases acts
  {
    if acts == [] then l == m else exists k :: Next(l, acts[0], k) && Behaves(k, acts[1..], m)
  }

  /** What the segments hold, as a reader sees them. */
  ghost function LogOf(f: Framing, d: Disk): Log {
    Log(ReadAll(f, Segments(d)), |ReadAll(f, d.closed)| + Whole(Parse(f, d.current), d.durable))
  }

  lemma RecordsOf(f: Framing, d: Disk)
    ensures LogOf(f, d).records == ReadAll(f, d.closed) + Parse(f, d.current)
  {
    ReadAllSnoc(f, d.closed, d.current);
  }

  lemma EmptyIsClean(f: Framing, closed: seq<seq<Byte>>)
    ensures Clean(f, Disk(closed, [], 0)) && Parse(f, []) == []
  {
  }

  /** Appending to a clean segment, no rotation. */
  lemma AppendInPlace(f: Framing, d: Disk, p: Payload)
    requires Lawful(f) && Clean(f, d) && Small(p)
    ensures var e := d.(current := d.current + f.frame(p));
            && Clean(f, e)
            && LogOf(f, e).records == LogOf(f, d).records + [p]
            && LogOf(f, e).synced == LogOf(f, d).synced
  {
    var rs := Parse(f, d.current);
    var e := d.(current := d.current + f.frame(p));
    EncodeSnoc(f, rs, p);
    assert AllSmall(rs + [p]);
    ParseEncode(f, rs + [p]);
    RecordsOf(f, d);
    RecordsOf(f, e);
    WholeIgnoresLater(rs, p, d.durable, f);
  }

  /** A record after the cut does not count. */
  lemma {:induction false} WholeIgnoresLater(rs: seq<Payload>, p: Payload, cut: nat, f: Framing)
    requires Lawful(f) && AllSmall(rs) && cut <= |Encode(f, rs)|
    ensures Whole(rs + [p], cut) == Whole(rs, cut)
    decreases rs
  {
    if rs != [] && cut >= 8 + |rs[0]| {
      assert (rs + [p])[1..] == rs[1..] + [p];
      WholeIgnoresLater(rs[1..], p, cut - 8 - |rs[0]|, f);
    }
  }

  lemma RotationSyncs(f: Framing, d: Disk)
    ensures Clean(f, Rotated(d))
    ensures LogOf(f, Rotated(d)) == Log(LogOf(f, d).records, |LogOf(f, d).records|)
  {
    RecordsOf(f, Rotated(d));
    EmptyIsClean(f, d.closed + [d.current]);
  }

  lemma AppendRefines(f: Framing, segmentSize: nat, d: Disk, p: Payload)
    requires Lawful(f) && Clean(f, d)
    ensures Clean(f, Appended(f, segmentSize, d, p))
    ensures Next(LogOf(f, d), Append(p), LogOf(f, Appended(f, segmentSize, d, p)))
  {
    if Small(p) {
      if |d.current| + 8 + |p| > segmentSize {
        RotationSyncs(f, d);
        AppendInPlace(f, Rotated(d), p);
      } else {
        AppendInPlace(f, d, p);
      }
    }
  }

  lemma SyncRefines(f: Framing, d: Disk)
    requires Lawful(f) && Clean(f, d)
    ensures LogOf(f, d.(durable := |d.current|)) == Log(LogOf(f, d).records, |LogOf(f, d).records|)
  {
    WholeOfAll(f, Parse(f, d.current));
    RecordsOf(f, d);
  }

  /** The image a crash leaves: the reader and recovery agree on it, and nothing promised is gone. */
  lemma CrashRefines(f: Framing, d: Disk, cut: nat)
    requires Lawful(f) && Clean(f, d) && d.durable <= cut <= |d.current|
    ensures var img := d.current[..cut];
            var kept := Recover(f, img);
            var e := Disk(d.closed, kept, |kept|);
            var k := |ReadAll(f, d.closed)| + Whole(Parse(f, d.current), cut);
            && kept <= img
            && Clean(f, e)
            && ReadAll(f, d.closed + [img]) == LogOf(f, e).records
            && LogOf(f, d).synced <= k <= |LogOf(f, d).records|
            && LogOf(f, e) == Log(LogOf(f, d).records[..k], k)
  {
    var rs, img := Parse(f, d.current), d.current[..cut];
    var kept := Recover(f, img);
    var e := Disk(d.closed, kept, |kept|);
    ParseCut(f, rs, cut);
    RecoverIsPrefix(f, img);
    RecoverIdempotent(f, img);
    ParsedIsSmall(f, img);
    WholeMonotone(rs, d.durable, cut);
    WholeOfAll(f, Parse(f, kept));
    RecordsOf(f, d);
    RecordsOf(f, e);
    ReadAllSnoc(f, d.closed, img);
    assert (ReadAll(f, d.closed) + rs)[..|ReadAll(f, d.closed)| + Whole(rs, cut)]
        == ReadAll(f, d.closed) + rs[..Whole(rs, cut)];
  }

  lemma {:induction false} WholeOfPrefix(rs: seq<Payload>, k: nat, cut: nat)
    requires Whole(rs, cut) <= k <= |rs|
    ensures Whole(rs[..k], cut) == Whole(rs, cut)
    decreases rs
  {
    if rs != [] && cut >= 8 + |rs[0]| {
      assert rs[..k][1..] == rs[1..][..k - 1];
      WholeOfPrefix(rs[1..], k - 1, cut - 8 - |rs[0]|);
    }
  }

  /** After a kill that tore no record, what was not promised before still is not. */
  lemma UntornKillRefines(f: Framing, d: Disk, cut: nat)
    requires Lawful(f) && Clean(f, d) && d.durable <= cut <= |d.current| && |Recover(f, d.current[..cut])| == cut
    ensures var e := Disk(d.closed, Recover(f, d.current[..cut]), d.durable);
            var k := |ReadAll(f, d.closed)| + Whole(Parse(f, d.current), cut);
            && Clean(f, e)
            && LogOf(f, d).synced <= k <= |LogOf(f, d).records|
            && LogOf(f, e) == Log(LogOf(f, d).records[..k], LogOf(f, d).synced)
  {
    var rs, img := Parse(f, d.current), d.current[..cut];
    CrashRefines(f, d, cut);
    RecoverIsPrefix(f, img);
    assert Recover(f, img) == img;
    ParseCut(f, rs, cut);
    WholeMonotone(rs, d.durable, cut);
    WholeOfPrefix(rs, Whole(rs, cut), d.durable);
  }

  lemma KillRefines(f: Framing, segmentSize: nat, d: Disk, cut: nat)
    requires Lawful(f) && Clean(f, d)
    ensures Clean(f, Step(f, segmentSize, d, Kill(cut)))
    ensures Next(LogOf(f, d), Kill(cut), LogOf(f, Step(f, segmentSize, d, Kill(cut))))
  {
    if d.durable <= cut <= |d.current| {
      CrashRefines(f, d, cut);
      if |Recover(f, d.current[..cut])| >= cut {
        UntornKillRefines(f, d, cut);
      }
    } else {
      PromisedIsLogged(f, d);
    }
  }

  lemma PromisedIsLogged(f: Framing, d: Disk)
    ensures LogOf(f, d).synced <= |LogOf(f, d).records|
  {
    RecordsOf(f, d);
  }

  /** Every step of the log does what a log is for. */
  lemma StepRefines(f: Framing, segmentSize: nat, d: Disk, a: Action)
    requires Lawful(f) && Clean(f, d)
    ensures Clean(f, Step(f, segmentSize, d, a))
    ensures Next(LogOf(f, d), a, LogOf(f, Step(f, segmentSize, d, a)))
  {
    match a {
      case Append(p) => AppendRefines(f, segmentSize, d, p);
      case Flush =>
      case Sync => SyncRefines(f, d);
      case Reopen =>
      case Crash(cut) =>
        if d.durable <= cut <= |d.current| {
          CrashRefines(f, d, cut);
        }
      case Kill(cut) => KillRefines(f, segmentSize, d, cut);
    }
  }

  /** So does every run, across any number of rotations, crashes and reopenings. */
  lemma {:induction false} RunRefines(f: Framing, segmentSize: nat, d: Disk, acts: seq<Action>)
    requires Lawful(f) && Clean(f, d)
    ensures Clean(f, Run(f, segmentSize, d, acts))
    ensures Behaves(LogOf(f, d), acts, LogOf(f, Run(f, segmentSize, d, acts)))
    decreases acts
  {
    if acts != [] {
      var e := Step(f, segmentSize, d, acts[0]);
      StepRefines(f, segmentSize, d, acts[0]);
      RunRefines(f, segmentSize, e, acts[1..]);
      assert Next(LogOf(f, d), acts[0], LogOf(f, e));
    }
  }

  /** Whatever was promised at some point is there, in place, ever after. */
  lemma {:induction false} PromisedSurvives(l: Log, acts: seq<Action>, m: Log)
    requires l.synced <= |l.records| && Behaves(l, acts, m)
    ensures m.synced <= |m.records| && l.records[..l.synced] <= m.records
    decreases acts
  {
    if acts != [] {
      var k :| Next(l, acts[0], k) && Behaves(k, acts[1..], m);
      assert l.synced <= k.synced <= |k.records| && l.records[..l.synced] <= k.records;
      PromisedSurvives(k, acts[1..], m);
      assert k.records[..k.synced] <= m.records;
      assert l.records[..l.synced] == k.records[..l.synced];
    }
  }

  predicate NoAppend(acts: seq<Action>) {
    forall i :: 0 <= i < |acts| ==> !acts[i].Append?
  }

  /** A fully promised log that nobody appends to stays as it is, through any crashes and reopenings. */
  lemma {:induction false} QuietLogStays(l: Log, acts: seq<Action>, m: Log)
    requires l.synced == |l.records| && Behaves(l, acts, m) && NoAppend(acts)
    ensures m == l
    decreases acts
  {
    if acts != [] {
      var k :| Next(l, acts[0], k) && Behaves(k, acts[1..], m);
      assert !acts[0].Append?;
      assert |k.records| == |l.records| ==> l.records[..|k.records|] == l.records;
      QuietLogStays(k, acts[1..], m);
    }
  }

  lemma QuietRunStays(crc32: Crc32, segmentSize: nat, d: Disk, acts: seq<Action>)
    requires Clean(Crc32Framing(crc32), d) && d.durable == |d.current| && NoAppend(acts)
    ensures var f := Crc32Framing(crc32);
            ReadAll(f, Segments(Run(f, segmentSize, d, acts))) == ReadAll(f, Segments(d))
  {
    var f := Crc32Framing(crc32);
    Crc32FramingIsLawful(crc32);
    SyncRefines(f, d);
    assert d.(durable := |d.current|) == d;
    RunRefines(f, segmentSize, d, acts);
    QuietLogStays(LogOf(f, d), acts, LogOf(f, Run(f, segmentSize, d, acts)));
  }

  /** Every record synced before some point is read back, first and in order, after any later run. */
  lemma SyncedSurvivesForever(crc32: Crc32, segmentSize: nat, d: Disk, acts: seq<Action>)
    requires Clean(Crc32Framing(crc32), d) && d.durable == |d.current|
    ensures var f := Crc32Framing(crc32);
            ReadAll(f, Segments(d)) <= ReadAll(f, Segments(Run(f, segmentSize, d, acts)))
  {
    var f := Crc32Framing(crc32);
    Crc32FramingIsLawful(crc32);
    SyncRefines(f, d);
    assert d.(durable := |d.current|) == d;
    RunRefines(f, segmentSize, d, acts);
    var l := LogOf(f, d);
    PromisedSurvives(l, acts, LogOf(f, Run(f, segmentSize, d, acts)));
    assert l.records[..l.synced] == l.records;
  }

  // ---------------------------------------------------------------- the writer

  datatype WalError = PayloadTooLarge(len: nat)

  class WalWriter {
    const f: Framing
    const segmentSize: nat
    var closed: seq<seq<Byte>>
    var current: seq<Byte>
    var currentBytes: nat
    ghost var durable: nat

    ghost predicate Valid()
      reads this
    {
      Lawful(f) && currentBytes == |current| && Clean(f, Value())
    }

    ghost function Value(): Disk
      reads this
    {
      Disk(closed, current, durable)
    }

    /** Recover the highest segment, or create the first one. `onDisk` bytes of that segment are durable. */
    constructor OpenOrCreate(f: Framing, segmentSize: nat, segments: seq<seq<Byte>>, ghost onDisk: nat)
      requires Lawful(f)
      ensures Valid() && this.f == f && this.segmentSize == segmentSize
      ensures segments == [] ==> Value() == Disk([], [], 0)
      ensures segments != [] ==>
                var kept := Recover(f, segments[|segments| - 1]);
                Value() == Disk(segments[..|segments| - 1], kept, Min(onDisk, |kept|))
      ensures ReadAll(f, Segments(Value())) == ReadAll(f, segments)
    {
      this.f, this.segmentSize := f, segmentSize;
      if |segments| > 0 {
        var kept, bytes := RecoverSegmentTail(f, segments[|segments| - 1]);
        closed, current, currentBytes := segments[..|segments| - 1], kept, bytes;
        durable := Min(onDisk, |kept|);
      } else {
        closed, current, currentBytes := [], [], 0;
        durable := 0;
      }
      new;
      if |segments| > 0 {
        var last := segments[|segments| - 1];
        RecoverIdempotent(f, last);
        ParsedIsSmall(f, last);
        assert segments == segments[..|segments| - 1] + [last];
        ReadAllSnoc(f, closed, last);
        ReadAllSnoc(f, closed, current);
      } else {
        EmptyIsClean(f, []);
        ReadAllSnoc(f, [], []);
      }
    }

    method AppendRecord(payload: Payload) returns (r: Result<(), WalError>)
      requires Valid()
      modifies this
      ensures Valid() && Value() == Appended(f, segmentSize, old(Value()), payload)
      ensures r.Err? <==> !Small(payload)
    {
      AppendRefines(f, segmentSize, Value(), payload);
      if |payload| > 0xFFFF_FFFF {
        return Err(PayloadTooLarge(|payload|));
      }
      if currentBytes + (8 + |payload|) > segmentSize {
        Rotate();
      }
      current := current + f.frame(payload);
      currentBytes := currentBytes + 8 + |payload|;
      return Ok(());
    }

    /** Flush and fsync. */
    method SyncAll()
      requires Valid()
      modifies this`durable
      ensures Valid() && Value() == Step(f, segmentSize, old(Value()), Sync)
    {
      durable := |current|;
    }

    /** Flush and fsync the full segment, then start the next one. */
    method Rotate()
      requires Valid()
      modifies this
      ensures Valid() && Value() == Rotated(old(Value()))
    {
      RotationSyncs(f, Value());
      closed := closed + [current];
      current, currentBytes, durable := [], 0, 0;
    }
  }
}
