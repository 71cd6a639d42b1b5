/** How the log is cut into segments (replay/src/wal.rs): a segment outgrows the limit only to hold a single record. */
module WalSegments {
  import opened Events
  import opened Wal
  import opened WalProtocol

  /** Within the limit, or one record too large for any segment. */
  ghost predicate Sized(f: Framing, limit: nat, seg: seq<Byte>) {
    |seg| <= limit || |Parse(f, seg)| == 1
  }

  ghost predicate AllSized(f: Framing, limit: nat, d: Disk) {
    forall i :: 0 <= i < |Segments(d)| ==> Sized(f, limit, Segments(d)[i])
  }

  lemma AllSizedIff(f: Framing, limit: nat, d: Disk)
    ensures AllSized(f, limit, d)
            <==> (forall i :: 0 <= i < |d.closed| ==> Sized(f, limit, d.closed[i])) && Sized(f, limit, d.current)
  {
    if AllSized(f, limit, d) {
      assert Segments(d)[|d.closed|] == d.current;
      forall i | 0 <= i < |d.closed|
        ensures Sized(f, limit, d.closed[i])
      {
        assert Segments(d)[i] == d.closed[i];
      }
    }
  }

  /** A small record closes the segment exactly when it would take it past the limit; it then makes every record before
      it durable, and starts the next segment. */
  lemma AppendRotatesIff(f: Framing, limit: nat, d: Disk, p: Payload)
    requires Lawful(f) && Clean(f, d) && Small(p)
    ensures var e := Step(f, limit, d, Append(p));
            if |d.current| + 8 + |p| > limit then
              e == Disk(d.closed + [d.current], f.frame(p), 0) && LogOf(f, e).synced == |LogOf(f, d).records|
            else e == Disk(d.closed, d.current + f.frame(p), d.durable)
  {
    if |d.current| + 8 + |p| > limit {
      RotationSyncs(f, d);
      AppendInPlace(f, Rotated(d), p);
      assert [] + f.frame(p) == f.frame(p);
    }
  }

  lemma OversizeRefused(f: Framing, limit: nat, d: Disk, p: Payload)
    requires !Small(p)
    ensures Step(f, limit, d, Append(p)) == d
  {
  }

  lemma OneFrame(f: Framing, p: Payload)
    requires Lawful(f) && Small(p)
    ensures Parse(f, f.frame(p)) == [p]
  {
    assert f.frame(p) + [] == f.frame(p);
    ParseStep(f, p, []);
    assert f.scan([]).Some? ==> Found(f, [], f.scan([]).value);
  }

  lemma AppendSized(f: Framing, limit: nat, d: Disk, p: Payload)
    requires Lawful(f) && Clean(f, d) && AllSized(f, limit, d)
    ensures AllSized(f, limit, Step(f, limit, d, Append(p)))
  {
    AllSizedIff(f, limit, d);
    var e := Step(f, limit, d, Append(p));
    if Small(p) {
      AppendRotatesIff(f, limit, d, p);
      OneFrame(f, p);
      assert |f.frame(p)| == 8 + |p|;
      AllSizedIff(f, limit, e);
    }
  }

  /** Cutting a segment and recovering it leaves it shorter, with a prefix of its records. */
  lemma CutSized(f: Framing, limit: nat, current: seq<Byte>, cut: nat)
    requires Lawful(f) && Recover(f, current) == current && AllSmall(Parse(f, current)) && cut <= |current|
    requires Sized(f, limit, current)
    ensures Sized(f, limit, Recover(f, current[..cut]))
  {
    var img := current[..cut];
    RecoverIsPrefix(f, img);
    RecoverIdempotent(f, img);
    ParseCut(f, Parse(f, current), cut);
    if |current| > limit && |Parse(f, img)| != 1 {
      assert Parse(f, img) == [];
    }
  }

  lemma StepSized(f: Framing, limit: nat, d: Disk, a: Action)
    requires Lawful(f) && Clean(f, d) && AllSized(f, limit, d)
    ensures AllSized(f, limit, Step(f, limit, d, a))
  {
    if a.Append? {
      AppendSized(f, limit, d, a.payload);
    } else {
      var e := Step(f, limit, d, a);
      AllSizedIff(f, limit, d);
      AllSizedIff(f, limit, e);
      if (a.Crash? || a.Kill?) && d.durable <= a.cut <= |d.current| {
        CutSized(f, limit, d.current, a.cut);
      }
    }
  }

  /** Through any appends, syncs, crashes and reopenings every segment keeps within the limit, or holds one record. */
  lemma {:induction false} RunSized(f: Framing, limit: nat, d: Disk, acts: seq<Action>)
    requires Lawful(f) && Clean(f, d) && AllSized(f, limit, d)
    ensures AllSized(f, limit, Run(f, limit, d, acts))
    decreases acts
  {
    if acts != [] {
      StepSized(f, limit, d, acts[0]);
      StepRefines(f, limit, d, acts[0]);
      RunSized(f, limit, Step(f, limit, d, acts[0]), acts[1..]);
    }
  }

  lemma SegmentsStaySized(crc32: Crc32, limit: nat, acts: seq<Action>, i: nat)
    requires i < |Segments(Run(Crc32Framing(crc32), limit, Disk([], [], 0), acts))|
    ensures var f := Crc32Framing(crc32);
            var seg := Segments(Run(f, limit, Disk([], [], 0), acts))[i];
            |seg| <= limit || |Parse(f, seg)| == 1
  {
    var f := Crc32Framing(crc32);
    Crc32FramingIsLawful(crc32);
    EmptyIsClean(f, []);
    AllSizedIff(f, limit, Disk([], [], 0));
    RunSized(f, limit, Disk([], [], 0), acts);
    assert Sized(f, limit, Segments(Run(f, limit, Disk([], [], 0), acts))[i]);
  }
}
