/** When events belong to one episode, event by event: no summary, no window arithmetic that saturates
    (chaos/src/clustering.rs). */
module Episodes {
  import opened Events
  import opened Clustering

  /** `e` starts within an open window of where `p` ends. */
  predicate Within(w: Windows, p: ChaosEvent, e: ChaosEvent) {
    || (w.maxGap > 0 && e.startSeq <= p.endSeq + w.maxGap)
    || (w.maxTimeGap > 0 && e.startTs <= p.endTs + w.maxTimeGap)
  }

  /** A crash and an ignition, or the same kind by the same known initiator. */
  predicate Kin(a: ChaosEvent, e: ChaosEvent) {
    || {a.kind, e.kind} == {Kind.FlashCrash, MomentumIgnition}
    || (a.kind == e.kind && a.initiator.Some? && a.initiator == e.initiator)
  }

  /** `e` starts near the end of some member, and is kin to the first. */
  predicate Follows(w: Windows, es: seq<ChaosEvent>, e: ChaosEvent)
    requires es != []
  {
    (exists k :: 0 <= k < |es| && Within(w, es[k], e)) && Kin(es[0], e)
  }

  lemma CloseIffNear(w: Windows, es: seq<ChaosEvent>, e: ChaosEvent)
    requires es != []
    ensures Close(w, Summary(es), e) <==> exists k :: 0 <= k < |es| && Within(w, es[k], e)
  {
    var c := Summary(es);
    SummaryExtremes(es);
    var i :| 0 <= i < |es| && es[i].endSeq == c.endSeq;
    var j :| 0 <= j < |es| && es[j].endTs == c.endTs;
    if Close(w, c, e) {
      assert Within(w, es[i], e) || Within(w, es[j], e);
    }
    if k :| 0 <= k < |es| && Within(w, es[k], e) {
      assert es[k].endSeq <= c.endSeq && es[k].endTs <= c.endTs;
    }
  }

  lemma RelatedIffKin(a: ChaosEvent, e: ChaosEvent)
    ensures Related(a.kind, a.initiator, e) <==> Kin(a, e)
  {
    if {a.kind, e.kind} == {Kind.FlashCrash, MomentumIgnition} {
      assert a.kind in {Kind.FlashCrash, MomentumIgnition} && e.kind in {Kind.FlashCrash, MomentumIgnition};
      assert Kind.FlashCrash in {a.kind, e.kind} && MomentumIgnition in {a.kind, e.kind};
    }
    if PriceMove(a.kind, e.kind) {
      assert {a.kind, e.kind} == {Kind.FlashCrash, MomentumIgnition};
    }
  }

  lemma MergesIff(w: Windows, es: seq<ChaosEvent>, e: ChaosEvent)
    requires es != []
    ensures ShouldMerge(w, Summary(es), e) <==> Follows(w, es, e)
  {
    CloseIffNear(w, es, e);
    SummaryDescribes(es);
    RelatedIffKin(es[0], e);
  }

  /** Each event after the first follows those before it. */
  ghost predicate OneEpisode(w: Windows, es: seq<ChaosEvent>) {
    es != [] && forall j :: 1 <= j < |es| ==> Follows(w, es[..j], es[j])
  }

  lemma GrownIff(w: Windows, c: Episode)
    ensures Grown(w, c) <==> OneEpisode(w, c.events) && c == Summary(c.events)
  {
    forall j | 1 <= j < |c.events|
      ensures ShouldMerge(w, Summary(c.events[..j]), c.events[j]) <==> Follows(w, c.events[..j], c.events[j])
    {
      MergesIff(w, c.events[..j], c.events[j]);
    }
  }

  /** The episodes partition the events in order; each is one episode; the first event of the next follows none. */
  ghost predicate Splits(w: Windows, es: seq<ChaosEvent>, cs: seq<Episode>) {
    && Flat(cs) == es
    && (forall k :: 0 <= k < |cs| ==> OneEpisode(w, cs[k].events) && cs[k] == Summary(cs[k].events))
    && (forall k :: 0 <= k < |cs| - 1 ==> !Follows(w, cs[k].events, cs[k + 1].events[0]))
  }

  /** That is what a clustering is. */
  lemma ClusteringIff(w: Windows, es: seq<ChaosEvent>, cs: seq<Episode>)
    ensures IsClustering(w, es, cs) <==> Splits(w, es, cs)
  {
    forall k | 0 <= k < |cs|
      ensures Grown(w, cs[k]) <==> OneEpisode(w, cs[k].events) && cs[k] == Summary(cs[k].events)
    {
      GrownIff(w, cs[k]);
    }
    if AllGrown(w, cs) {
      forall k | 0 <= k < |cs| - 1
        ensures Apart(w, cs[k], cs[k + 1]) <==> !Follows(w, cs[k].events, cs[k + 1].events[0])
      {
        assert Grown(w, cs[k]) && Grown(w, cs[k + 1]);
        MergesIff(w, cs[k].events, cs[k + 1].events[0]);
      }
    }
  }

  /** Wider windows never split what narrower ones joined. */
  lemma WiderStillOne(w: Windows, v: Windows, es: seq<ChaosEvent>)
    requires OneEpisode(w, es) && w.maxGap <= v.maxGap && w.maxTimeGap <= v.maxTimeGap
    ensures OneEpisode(v, es)
  {
    forall j | 1 <= j < |es|
      ensures Follows(v, es[..j], es[j])
    {
      var k :| 0 <= k < j && Within(w, es[..j][k], es[j]);
      assert Within(v, es[..j][k], es[j]);
    }
  }
}
