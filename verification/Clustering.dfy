/** Episode clustering of chaos events (chaos/src/clustering.rs). Severities are real numbers. */
module Clustering {
  import opened Events

  datatype Kind =
    QuoteStuff | PhantomLiquidity | Spoof | CancellationStorm | MomentumIgnition | FlashCrash | LatencyArbitrage

  datatype ChaosEvent = ChaosEvent(
    kind: Kind, startSeq: U64, endSeq: U64, startTs: U64, endTs: U64, severity: real, initiator: Option<U64>)

  datatype Windows = Windows(maxGap: U64, maxTimeGap: U64)

  datatype Episode = Episode(
    events: seq<ChaosEvent>, startSeq: U64, endSeq: U64, startTs: U64, endTs: U64, peak: real, sum: real, mean: real,
    count: nat, kind: Kind, initiator: Option<U64>)

  const U64_MAX: U64 := 0xFFFF_FFFF_FFFF_FFFF

  function Max(a: U64, b: U64): U64 {
    if a >= b then a else b
  }

  function MaxReal(a: real, b: real): real {
    if a >= b then a else b
  }

  function Single(e: ChaosEvent): Episode {
    Episode([e], e.startSeq, e.endSeq, e.startTs, e.endTs, e.severity, e.severity, e.severity, 1, e.kind, e.initiator)
  }

  function Joined(c: Episode, e: ChaosEvent): Episode {
    c.(events := c.events + [e], endSeq := Max(c.endSeq, e.endSeq), endTs := Max(c.endTs, e.endTs),
    peak := MaxReal(c.peak, e.severity), sum := c.sum + e.severity, count := c.count + 1,
    mean := (c.sum + e.severity) / (c.count + 1) as real)
  }

  /** Within the sequence window or the time window; a window of 0 is off. */
  predicate Close(w: Windows, c: Episode, e: ChaosEvent) {
    || (w.maxGap > 0 && e.startSeq <= Min(c.endSeq + w.maxGap, U64_MAX))
    || (w.maxTimeGap > 0 && e.startTs <= Min(c.endTs + w.maxTimeGap, U64_MAX))
  }

  /** A crash and an ignition describe one price move. */
  predicate PriceMove(a: Kind, b: Kind) {
    (a.FlashCrash? && b.MomentumIgnition?) || (a.MomentumIgnition? && b.FlashCrash?)
  }

  /** Whether an event continues an episode of this kind and initiator; an unknown initiator matches nobody. */
  predicate Related(kind: Kind, initiator: Option<U64>, e: ChaosEvent) {
    PriceMove(kind, e.kind) || (kind == e.kind && initiator.Some? && initiator == e.initiator)
  }

  predicate ShouldMerge(w: Windows, c: Episode, e: ChaosEvent) {
    Close(w, c, e) && Related(c.kind, c.initiator, e)
  }

  // ---------------------------------------------------------------- the stable sort

  predicate Sorted(s: seq<ChaosEvent>) {
    forall i, j :: 0 <= i < j < |s| ==> s[i].startSeq <= s[j].startSeq
  }

  /** The events starting at `q`, in order. */
  function Starting(s: seq<ChaosEvent>, q: U64): seq<ChaosEvent> {
    if s == [] then [] else Starting(s[..|s| - 1], q) + if s[|s| - 1].startSeq == q then [s[|s| - 1]] else []
  }

  /** After every event that does not start later. */
  function Insert(s: seq<ChaosEvent>, e: ChaosEvent): (r: seq<ChaosEvent>)
    ensures |r| == |s| + 1
  {
    if s == [] || s[|s| - 1].startSeq <= e.startSeq then s + [e] else Insert(s[..|s| - 1], e) + [s[|s| - 1]]
  }

  function StableSort(es: seq<ChaosEvent>): (r: seq<ChaosEvent>)
    ensures |r| == |es|
  {
    if es == [] then [] else Insert(StableSort(es[..|es| - 1]), es[|es| - 1])
  }

  lemma StartingSnoc(s: seq<ChaosEvent>, e: ChaosEvent, q: U64)
    ensures Starting(s + [e], q) == Starting(s, q) + if e.startSeq == q then [e] else []
  {
    assert (s + [e])[..|s|] == s;
  }

  lemma {:induction false} InsertStable(s: seq<ChaosEvent>, e: ChaosEvent, q: U64)
    ensures Starting(Insert(s, e), q) == Starting(s, q) + if e.startSeq == q then [e] else []
  {
    if s == [] || s[|s| - 1].startSeq <= e.startSeq {
      StartingSnoc(s, e, q);
    } else {
      var n := |s| - 1;
      InsertStable(s[..n], e, q);
      StartingSnoc(Insert(s[..n], e), s[n], q);
    }
  }

  lemma {:induction false} InsertSorted(s: seq<ChaosEvent>, e: ChaosEvent)
    requires Sorted(s)
    ensures Sorted(Insert(s, e))
    ensures forall k :: 0 <= k <= |s| ==> Insert(s, e)[k] == e || Insert(s, e)[k] in s
  {
    if s != [] && s[|s| - 1].startSeq > e.startSeq {
      var n := |s| - 1;
      InsertSorted(s[..n], e);
      forall k | 0 <= k <= n
        ensures Insert(s[..n], e)[k].startSeq <= s[n].startSeq
      {
        assert Insert(s[..n], e)[k] == e || Insert(s[..n], e)[k] in s[..n];
      }
    }
  }

  /** The sort is ordered by start and keeps the input order among equals. */
  lemma {:induction false} SortIsStable(es: seq<ChaosEvent>, q: U64)
    ensures Sorted(StableSort(es)) && Starting(StableSort(es), q) == Starting(es, q)
  {
    if es != [] {
      var n := |es| - 1;
      SortIsStable(es[..n], q);
      InsertSorted(StableSort(es[..n]), es[n]);
      InsertStable(StableSort(es[..n]), es[n], q);
    }
  }

  lemma {:induction false} StartingMember(s: seq<ChaosEvent>, q: U64)
    requires Starting(s, q) != []
    ensures exists k :: 0 <= k < |s| && s[k].startSeq == q
  {
    var n := |s| - 1;
    if s[n].startSeq != q {
      StartingMember(s[..n], q);
    }
  }

  lemma LastStartsAlike(a: seq<ChaosEvent>, b: seq<ChaosEvent>)
    requires Sorted(b) && a != [] && forall q :: Starting(a, q) == Starting(b, q)
    ensures b != [] && a[|a| - 1].startSeq <= b[|b| - 1].startSeq
  {
    var q := a[|a| - 1].startSeq;
    assert Starting(a, q) == Starting(b, q);
    StartingMember(b, q);
  }

  lemma SameLast<T>(x: seq<T>, u: T, y: seq<T>, v: T)
    requires x + [u] == y + [v]
    ensures x == y && u == v
  {
    assert (x + [u])[|x|] == u && (y + [v])[|y|] == v;
    assert x == (x + [u])[..|x|] && y == (y + [v])[..|y|];
  }

  /** Any stable sort gives the same sequence. */
  lemma {:induction false} StableSortUnique(a: seq<ChaosEvent>, b: seq<ChaosEvent>)
    requires Sorted(a) && Sorted(b) && forall q :: Starting(a, q) == Starting(b, q)
    ensures a == b
    decreases |a|
  {
    if a == [] {
      if b != [] {
        LastStartsAlike(b, a);
      }
    } else {
      LastStartsAlike(a, b);
      LastStartsAlike(b, a);
      var m, n := |a| - 1, |b| - 1;
      var last := a[m].startSeq;
      assert Starting(a, last) == Starting(b, last) && b[n].startSeq == last;
      SameLast(Starting(a[..m], last), a[m], Starting(b[..n], last), b[n]);
      forall q
        ensures Starting(a[..m], q) == Starting(b[..n], q)
      {
        if q != last {
          assert Starting(a, q) == Starting(a[..m], q) && Starting(b, q) == Starting(b[..n], q);
        }
      }
      StableSortUnique(a[..m], b[..n]);
      assert a == a[..m] + [a[m]] && b == b[..n] + [b[n]];
    }
  }

  // ---------------------------------------------------------------- what a clustering is

  /** The episode of a run of events. */
  ghost function Summary(es: seq<ChaosEvent>): Episode
    requires es != []
  {
    if |es| == 1 then Single(es[0]) else Joined(Summary(es[..|es| - 1]), es[|es| - 1])
  }

  /** Every event of `es` after the first continued the summary of those before it. */
  ghost predicate Continues(w: Windows, es: seq<ChaosEvent>) {
    forall j :: 1 <= j < |es| ==> ShouldMerge(w, Summary(es[..j]), es[j])
  }

  /** An episode built that way. */
  ghost predicate Grown(w: Windows, c: Episode) {
    c.events != [] && c == Summary(c.events) && Continues(w, c.events)
  }

  function Flat(cs: seq<Episode>): seq<ChaosEvent> {
    if cs == [] then [] else cs[0].events + Flat(cs[1..])
  }

  /** A partition of `es` into grown episodes, none of which could have absorbed the first event of the next. */
  ghost predicate IsClustering(w: Windows, es: seq<ChaosEvent>, cs: seq<Episode>) {
    Flat(cs) == es && AllGrown(w, cs) && Maximal(w, cs)
  }

  ghost predicate AllGrown(w: Windows, cs: seq<Episode>) {
    forall k :: 0 <= k < |cs| ==> Grown(w, cs[k])
  }

  /** `c` could not have absorbed the first event of `d`. */
  predicate Apart(w: Windows, c: Episode, d: Episode) {
    d.events != [] && !ShouldMerge(w, c, d.events[0])
  }

  ghost predicate Maximal(w: Windows, cs: seq<Episode>) {
    forall k :: 0 <= k < |cs| - 1 ==> Apart(w, cs[k], cs[k + 1])
  }

  function Total(es: seq<ChaosEvent>): real {
    if es == [] then 0.0 else Total(es[..|es| - 1]) + es[|es| - 1].severity
  }

  ghost predicate PeakOf(es: seq<ChaosEvent>, x: real) {
    (forall k :: 0 <= k < |es| ==> es[k].severity <= x) && exists k :: 0 <= k < |es| && es[k].severity == x
  }

  ghost predicate EndOf(es: seq<ChaosEvent>, q: U64, t: U64) {
    && (forall k :: 0 <= k < |es| ==> es[k].endSeq <= q && es[k].endTs <= t)
    && (exists k :: 0 <= k < |es| && es[k].endSeq == q) && (exists k :: 0 <= k < |es| && es[k].endTs == t)
  }

  lemma {:induction false} SummaryExtremes(es: seq<ChaosEvent>)
    requires es != []
    ensures PeakOf(es, Summary(es).peak)
    ensures EndOf(es, Summary(es).endSeq, Summary(es).endTs)
    decreases |es|
  {
    var n := |es| - 1;
    assert es[n] in es;
    if n > 0 {
      SummaryExtremes(es[..n]);
      var was := Summary(es[..n]);
      var i :| 0 <= i < n && es[..n][i].severity == was.peak;
      var j :| 0 <= j < n && es[..n][j].endSeq == was.endSeq;
      var k :| 0 <= k < n && es[..n][k].endTs == was.endTs;
      assert es[i].severity == was.peak && es[j].endSeq == was.endSeq && es[k].endTs == was.endTs;
      assert forall m :: 0 <= m < n ==> es[m] == es[..n][m];
    }
  }

  /** An episode's fields say what its members are: first start, latest end, worst and mean severity, count. */
  lemma {:induction false} SummaryDescribes(es: seq<ChaosEvent>)
    requires es != []
    ensures var c := Summary(es);
            && c.events == es && c.count == |es| && c.sum == Total(es) && c.mean == Total(es) / |es| as real
            && c.startSeq == es[0].startSeq && c.startTs == es[0].startTs
            && c.kind == es[0].kind && c.initiator == es[0].initiator
    decreases |es|
  {
    var n := |es| - 1;
    if n > 0 {
      SummaryDescribes(es[..n]);
      assert es == es[..n] + [es[n]];
      JoinedDescribes(Summary(es[..n]), es[..n], es[n], es);
    } else {
      assert es == [es[0]] && es[..0] == [];
      assert Total(es) == es[0].severity;
      assert es[0].severity / 1.0 == es[0].severity;
    }
  }

  lemma JoinedDescribes(c: Episode, before: seq<ChaosEvent>, e: ChaosEvent, es: seq<ChaosEvent>)
    requires before != [] && es == before + [e]
    requires c.events == before && c.count == |before| && c.sum == Total(before)
    ensures var r := Joined(c, e);
            r.events == es && r.count == |es| && r.sum == Total(es) && r.mean == Total(es) / |es| as real
  {
    assert es[..|es| - 1] == before;
  }

  /** One kind and one known initiator throughout, or a crash and ignition episode. */
  lemma MembersRelated(w: Windows, c: Episode, j: nat)
    requires Grown(w, c) && 1 <= j < |c.events|
    ensures Related(c.events[0].kind, c.events[0].initiator, c.events[j])
    ensures c.events[j].kind == c.events[0].kind
            || (c.events[0].kind in {FlashCrash, MomentumIgnition} && c.events[j].kind in {FlashCrash, MomentumIgnition})
  {
    assert ShouldMerge(w, Summary(c.events[..j]), c.events[j]);
    SummaryDescribes(c.events[..j]);
  }

  /** Only an open window merges: with both off every event is its own episode. */
  lemma MergesNeedWindow(w: Windows, c: Episode)
    requires Grown(w, c) && |c.events| > 1
    ensures w.maxGap > 0 || w.maxTimeGap > 0
  {
    assert ShouldMerge(w, Summary(c.events[..1]), c.events[1]);
  }

  /** So with both windows off every event is its own episode, in order of start. */
  lemma {:induction false} NoWindowsNoMerges(es: seq<ChaosEvent>, cs: seq<Episode>)
    requires IsClustering(Windows(0, 0), es, cs)
    ensures cs == seq(|es|, k requires 0 <= k < |es| => Single(es[k]))
    decreases |cs|
  {
    if cs != [] {
      var w := Windows(0, 0);
      TailClusters(w, es, cs);
      assert Grown(w, cs[0]);
      if |cs[0].events| > 1 {
        MergesNeedWindow(w, cs[0]);
      }
      NoWindowsNoMerges(es[1..], cs[1..]);
      assert cs == [cs[0]] + cs[1..] && es == [es[0]] + es[1..];
    }
  }

  // ---------------------------------------------------------------- there is only one

  lemma TailClusters(w: Windows, es: seq<ChaosEvent>, cs: seq<Episode>)
    requires IsClustering(w, es, cs) && cs != []
    ensures cs[0].events <= es && IsClustering(w, es[|cs[0].events|..], cs[1..])
  {
    var t := cs[1..];
    forall k | 0 <= k < |t| - 1
      ensures Apart(w, t[k], t[k + 1])
    {
      assert t[k] == cs[k + 1] && t[k + 1] == cs[k + 2];
    }
  }

  /** The episode after the first begins where the first ends. */
  lemma SecondBegins(w: Windows, es: seq<ChaosEvent>, cs: seq<Episode>)
    requires IsClustering(w, es, cs) && cs != [] && |cs[0].events| < |es|
    ensures !ShouldMerge(w, cs[0], es[|cs[0].events|])
  {
    TailClusters(w, es, cs);
    var t := cs[1..];
    assert Flat(t) == es[|cs[0].events|..];
    assert t != [];
    assert Grown(w, cs[1]) && t[0] == cs[1];
    assert Flat(t)[0] == cs[1].events[0];
  }

  lemma PrefixMerges(w: Windows, a: Episode, b: Episode)
    requires Grown(w, a) && Grown(w, b) && a.events < b.events
    ensures ShouldMerge(w, a, b.events[|a.events|])
  {
    assert b.events[..|a.events|] == a.events;
  }

  lemma FirstNotShorter(w: Windows, es: seq<ChaosEvent>, a: seq<Episode>, b: seq<Episode>)
    requires IsClustering(w, es, a) && IsClustering(w, es, b) && a != [] && b != []
    ensures |a[0].events| >= |b[0].events|
  {
    TailClusters(w, es, a);
    TailClusters(w, es, b);
    var n := |a[0].events|;
    if n < |b[0].events| {
      PrefixMerges(w, a[0], b[0]);
      SecondBegins(w, es, a);
    }
  }

  /** The conditions leave no choice: every input has at most one clustering, so the greedy pass computes the one. */
  lemma {:induction false} ClusteringUnique(w: Windows, es: seq<ChaosEvent>, a: seq<Episode>, b: seq<Episode>)
    requires IsClustering(w, es, a) && IsClustering(w, es, b)
    ensures a == b
    decreases |a|
  {
    if a == [] || b == [] {
      assert a != [] ==> Grown(w, a[0]);
      assert b != [] ==> Grown(w, b[0]);
    } else {
      FirstNotShorter(w, es, a, b);
      FirstNotShorter(w, es, b, a);
      TailClusters(w, es, a);
      TailClusters(w, es, b);
      assert Grown(w, a[0]) && Grown(w, b[0]);
      ClusteringUnique(w, es[|a[0].events|..], a[1..], b[1..]);
      assert a == [a[0]] + a[1..] && b == [b[0]] + b[1..];
    }
  }

  // ---------------------------------------------------------------- the greedy pass

  lemma {:induction false} FlatSnoc(cs: seq<Episode>, c: Episode)
    ensures Flat(cs + [c]) == Flat(cs) + c.events
  {
    if cs == [] {
      assert cs + [c] == [c] && [c][1..] == [];
    } else {
      assert (cs + [c])[1..] == cs[1..] + [c];
      FlatSnoc(cs[1..], c);
    }
  }

  lemma SummarySnoc(es: seq<ChaosEvent>, e: ChaosEvent)
    requires es != []
    ensures Summary(es + [e]) == Joined(Summary(es), e)
  {
    assert (es + [e])[..|es|] == es;
  }

  lemma ContinuesSnoc(w: Windows, es: seq<ChaosEvent>, e: ChaosEvent)
    requires es != [] && Continues(w, es) && ShouldMerge(w, Summary(es), e)
    ensures Continues(w, es + [e])
  {
    var r := es + [e];
    forall j | 1 <= j < |r|
      ensures ShouldMerge(w, Summary(r[..j]), r[j])
    {
      if j < |es| {
        assert r[..j] == es[..j] && r[j] == es[j];
      } else {
        assert r[..j] == es;
      }
    }
  }

  lemma GrownAbsorbs(w: Windows, c: Episode, e: ChaosEvent)
    requires Grown(w, c) && ShouldMerge(w, c, e)
    ensures Grown(w, Joined(c, e))
  {
    SummarySnoc(c.events, e);
    ContinuesSnoc(w, c.events, e);
    assert Joined(c, e).events == c.events + [e];
  }

  /** Only the last element changes, and stays acceptable next to the one before it. */
  lemma ReplaceLast<T>(done: seq<T>, c: T, d: T, fits: T -> bool, apart: (T, T) -> bool)
    requires forall k :: 0 <= k < |done| ==> fits((done + [c])[k])
    requires forall k :: 0 <= k < |done| ==> apart((done + [c])[k], (done + [c])[k + 1])
    requires fits(d) && forall x :: apart(x, c) ==> apart(x, d)
    ensures forall k :: 0 <= k <= |done| ==> fits((done + [d])[k])
    ensures forall k :: 0 <= k < |done| ==> apart((done + [d])[k], (done + [d])[k + 1])
  {
    forall k | 0 <= k < |done|
      ensures fits((done + [d])[k]) && apart((done + [d])[k], (done + [d])[k + 1])
    {
      assert (done + [d])[k] == (done + [c])[k];
      assert apart((done + [c])[k], (done + [c])[k + 1]);
      assert k + 1 < |done| ==> (done + [d])[k + 1] == (done + [c])[k + 1];
    }
  }

  lemma LastReplaced(w: Windows, done: seq<Episode>, c: Episode, d: Episode)
    requires AllGrown(w, done + [c]) && Maximal(w, done + [c]) && Grown(w, d) && c.events <= d.events
    ensures AllGrown(w, done + [d]) && Maximal(w, done + [d])
  {
    ReplaceLast(done, c, d, x => Grown(w, x), (x, y) => Apart(w, x, y));
  }

  lemma ClusterMerges(w: Windows, es: seq<ChaosEvent>, done: seq<Episode>, c: Episode, e: ChaosEvent)
    requires IsClustering(w, es, done + [c]) && ShouldMerge(w, c, e)
    ensures IsClustering(w, es + [e], done + [Joined(c, e)])
  {
    assert Grown(w, (done + [c])[|done|]);
    GrownAbsorbs(w, c, e);
    LastReplaced(w, done, c, Joined(c, e));
    FlatAbsorbs(done, c, e);
  }

  lemma FlatAbsorbs(done: seq<Episode>, c: Episode, e: ChaosEvent)
    ensures Flat(done + [Joined(c, e)]) == Flat(done + [c]) + [e]
  {
    FlatSnoc(done, c);
    FlatSnoc(done, Joined(c, e));
    assert Joined(c, e).events == c.events + [e];
  }

  lemma ClusterSplits(w: Windows, es: seq<ChaosEvent>, cs: seq<Episode>, e: ChaosEvent)
    requires IsClustering(w, es, cs) && (cs != [] ==> !ShouldMerge(w, cs[|cs| - 1], e))
    ensures IsClustering(w, es + [e], cs + [Single(e)])
  {
    var now := cs + [Single(e)];
    FlatSnoc(cs, Single(e));
    assert Grown(w, Single(e));
    forall k | 0 <= k < |now| - 1
      ensures Apart(w, now[k], now[k + 1])
    {
      assert k + 1 < |cs| ==> now[k + 1] == cs[k + 1];
      assert now[k] == cs[k];
    }
  }

  /** One turn of the greedy pass. */
  function Extended(w: Windows, cs: seq<Episode>, e: ChaosEvent): seq<Episode>
    requires cs != []
  {
    var n := |cs| - 1;
    if ShouldMerge(w, cs[n], e) then cs[..n] + [Joined(cs[n], e)] else cs + [Single(e)]
  }

  lemma ExtendedClusters(w: Windows, es: seq<ChaosEvent>, cs: seq<Episode>, e: ChaosEvent)
    requires IsClustering(w, es, cs) && cs != []
    ensures IsClustering(w, es + [e], Extended(w, cs, e))
  {
    var n := |cs| - 1;
    LastApart(cs);
    if ShouldMerge(w, cs[n], e) {
      ClusterMerges(w, es, cs[..n], cs[n], e);
    } else {
      ClusterSplits(w, es, cs, e);
    }
  }

  lemma LastApart<T>(s: seq<T>)
    requires s != []
    ensures s == s[..|s| - 1] + [s[|s| - 1]]
  {
  }

  /** The greedy pass over sorted events. */
  function Pass(w: Windows, es: seq<ChaosEvent>): (cs: seq<Episode>)
    requires es != []
    ensures cs != []
  {
    var n := |es| - 1;
    if n == 0 then [Single(es[0])] else Extended(w, Pass(w, es[..n]), es[n])
  }

  lemma PassBegins(w: Windows, e: ChaosEvent)
    ensures IsClustering(w, [e], [Single(e)])
  {
    ClusterSplits(w, [], [], e);
    assert [] + [Single(e)] == [Single(e)] && [] + [e] == [e];
  }

  lemma PassSnoc(w: Windows, es: seq<ChaosEvent>, e: ChaosEvent)
    requires es != []
    ensures Pass(w, es + [e]) == Extended(w, Pass(w, es), e)
  {
    assert (es + [e])[..|es|] == es;
  }

  lemma PassNext(w: Windows, es: seq<ChaosEvent>, i: nat)
    requires 0 < i < |es|
    ensures Pass(w, es[..i + 1]) == Extended(w, Pass(w, es[..i]), es[i])
  {
    assert es[..i + 1] == es[..i] + [es[i]];
    PassSnoc(w, es[..i], es[i]);
  }

  /** The greedy pass computes a clustering. */
  lemma {:induction false} PassClusters(w: Windows, es: seq<ChaosEvent>)
    requires es != []
    ensures IsClustering(w, es, Pass(w, es))
    decreases |es|
  {
    var n := |es| - 1;
    if n == 0 {
      PassBegins(w, es[0]);
      assert es == [es[0]];
    } else {
      PassClusters(w, es[..n]);
      assert es == es[..n] + [es[n]];
      PassSnoc(w, es[..n], es[n]);
      ExtendedClusters(w, es[..n], Pass(w, es[..n]), es[n]);
    }
  }

  class ChaosCluster {
    var events: seq<ChaosEvent>
    var startSeq: U64
    var endSeq: U64
    var startTs: U64
    var endTs: U64
    var peak: real
    var sum: real
    var mean: real
    var count: nat
    var kind: Kind
    var initiator: Option<U64>

    ghost function Value(): Episode
      reads this
    {
      Episode(events, startSeq, endSeq, startTs, endTs, peak, sum, mean, count, kind, initiator)
    }

    constructor FromEvent(e: ChaosEvent)
      ensures Value() == Single(e)
    {
      events, startSeq, endSeq, startTs, endTs := [e], e.startSeq, e.endSeq, e.startTs, e.endTs;
      peak, sum, mean, count, kind, initiator := e.severity, e.severity, e.severity, 1, e.kind, e.initiator;
    }

    method Absorb(e: ChaosEvent)
      modifies this
      ensures Value() == Joined(old(Value()), e)
    {
      endSeq := Max(endSeq, e.endSeq);
      endTs := Max(endTs, e.endTs);
      peak := MaxReal(peak, e.severity);
      sum := sum + e.severity;
      count := count + 1;
      mean := sum / count as real;
      events := events + [e];
    }

    method Merges(w: Windows, e: ChaosEvent) returns (yes: bool)
      ensures yes == ShouldMerge(w, Value(), e)
    {
      var seqClose := w.maxGap > 0 && e.startSeq <= Min(endSeq + w.maxGap, U64_MAX);
      var timeClose := w.maxTimeGap > 0 && e.startTs <= Min(endTs + w.maxTimeGap, U64_MAX);
      if !(seqClose || timeClose) {
        return false;
      }
      if PriceMove(kind, e.kind) {
        return true;
      }
      yes := kind == e.kind && initiator.Some? && e.initiator.Some? && initiator.value == e.initiator.value;
    }
  }

  ghost function Values(cs: seq<ChaosCluster>): seq<Episode>
    reads cs
  {
    seq(|cs|, k requires 0 <= k < |cs| reads cs => cs[k].Value())
  }

  /** The episodes of the sorted events. */
  method Cluster(w: Windows, events: seq<ChaosEvent>) returns (clusters: seq<ChaosCluster>)
    ensures IsClustering(w, StableSort(events), Values(clusters))
  {
    var sorted := StableSort(events);
    if events == [] {
      return [];
    }
    clusters := Sweep(w, sorted);
    PassClusters(w, sorted);
  }

  method Sweep(w: Windows, sorted: seq<ChaosEvent>) returns (clusters: seq<ChaosCluster>)
    requires sorted != []
    ensures Values(clusters) == Pass(w, sorted)
  {
    clusters := [];
    var current := new ChaosCluster.FromEvent(sorted[0]);
    ghost var pass := [Single(sorted[0])];
    for i := 1 to |sorted|
      invariant fresh(current) && current !in clusters && forall c :: c in clusters ==> fresh(c)
      invariant pass != [] && pass == Pass(w, sorted[..i])
      invariant Values(clusters + [current]) == pass
    {
      PassNext(w, sorted, i);
      pass := Extended(w, pass, sorted[i]);
      clusters, current := Turn(w, clusters, current, sorted[i]);
    }
    clusters := clusters + [current];
    assert sorted[..|sorted|] == sorted;
  }

  /** One event: extend the current episode or start the next. */
  method Turn(w: Windows, clusters: seq<ChaosCluster>, current: ChaosCluster, e: ChaosEvent)
    returns (done: seq<ChaosCluster>, open: ChaosCluster)
    requires current !in clusters
    modifies current
    ensures open !in done
    ensures (done == clusters && open == current) || (done == clusters + [current] && fresh(open))
    ensures Values(done + [open]) == Extended(w, old(Values(clusters + [current])), e)
  {
    ghost var was := Values(clusters + [current]);
    assert was[|clusters|] == current.Value();
    var merge := current.Merges(w, e);
    if merge {
      current.Absorb(e);
      done, open := clusters, current;
      assert forall k :: 0 <= k < |clusters| ==> clusters[k].Value() == was[k];
    } else {
      done := clusters + [current];
      open := new ChaosCluster.FromEvent(e);
    }
  }
}
