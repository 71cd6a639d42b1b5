/** The lane batch is a reordering (core/src/hot_book.rs): its book and its change count are those of applying, one
    event after the other, first the adds and modifies as adds, then the trades, then the cancels. */
module LaneOrder {
  import opened Events
  import opened OrderStore
  import opened HotBook

  /** The adds and modifies of a batch, each as an add. */
  function AddsOf(es: seq<Event>): seq<Event>
    decreases es
  {
    if es == [] then []
    else (if es[0].eventType == 1 || es[0].eventType == 3 then [es[0].(eventType := 1)] else []) + AddsOf(es[1..])
  }

  /** The events of one type, in order. */
  function OfType(es: seq<Event>, t: Byte): seq<Event>
    decreases es
  {
    if es == [] then [] else (if es[0].eventType == t then [es[0]] else []) + OfType(es[1..], t)
  }

  /** How many events of a serial run report a change. */
  function Changes(cap: nat, h: HotState, es: seq<Event>): nat
    requires WellFormed(h.slab)
    decreases es
  {
    if es == [] then 0
    else
      var (r, changed) := HotApply(cap, h, es[0]);
      (if changed then 1 else 0) + Changes(cap, r, es[1..])
  }

  /** Applying the events one after the other ends in `g` after `n` changes. */
  ghost predicate Runs(cap: nat, h: HotState, es: seq<Event>, g: HotState, n: nat) {
    WellFormed(h.slab) && HotRun(cap, h, es) == g && Changes(cap, h, es) == n
  }

  lemma RunsFirst(cap: nat, h: HotState, e: Event, es: seq<Event>, r: HotState, ok: bool, g: HotState, n: nat)
    requires WellFormed(h.slab) && HotApply(cap, h, e) == (r, ok) && Runs(cap, r, es, g, n)
    ensures Runs(cap, h, [e] + es, g, Tally(ok) + n)
  {
    assert ([e] + es)[1..] == es;
  }

  lemma {:induction false} RunOnward(cap: nat, h: HotState, a: seq<Event>, b: seq<Event>)
    requires WellFormed(h.slab)
    ensures HotRun(cap, h, a + b) == HotRun(cap, HotRun(cap, h, a), b)
    ensures Changes(cap, h, a + b) == Changes(cap, h, a) + Changes(cap, HotRun(cap, h, a), b)
    decreases a
  {
    if a == [] {
      assert a + b == b;
    } else {
      assert (a + b)[1..] == a[1..] + b && (a + b)[0] == a[0];
      RunOnward(cap, HotApply(cap, h, a[0]).0, a[1..], b);
    }
  }

  lemma RunsOnward(cap: nat, h: HotState, a: seq<Event>, g: HotState, n: nat, b: seq<Event>, f: HotState, m: nat)
    requires Runs(cap, h, a, g, n) && Runs(cap, g, b, f, m)
    ensures Runs(cap, h, a + b, f, n + m)
  {
    RunOnward(cap, h, a, b);
  }

  lemma AddIsAdd(cap: nat, h: HotState, e: Event)
    requires WellFormed(h.slab)
    ensures HotApply(cap, h, e.(eventType := 1)) == HotAdd(cap, h, e)
  {
  }

  lemma TradeIsTrade(cap: nat, h: HotState, e: Event)
    requires WellFormed(h.slab) && e.eventType == 4
    ensures HotApply(cap, h, e) == HotTrade(h, e)
  {
  }

  lemma CancelIsCancel(cap: nat, h: HotState, e: Event)
    requires WellFormed(h.slab) && e.eventType == 2
    ensures HotApply(cap, h, e) == HotCancel(h, e)
  {
  }

  lemma {:induction false} AddLaneRuns(cap: nat, h: HotState, es: seq<Event>)
    requires WellFormed(h.slab)
    ensures var (g, n) := HotAddLane(cap, h, es); Runs(cap, h, AddsOf(es), g, n)
    decreases es
  {
    if es != [] {
      if InAddLane(es[0]) {
        AddIsAdd(cap, h, es[0]);
        var (r, ok) := HotAdd(cap, h, es[0]);
        var (g, n) := HotAddLane(cap, r, es[1..]);
        AddLaneRuns(cap, r, es[1..]);
        RunsFirst(cap, h, es[0].(eventType := 1), AddsOf(es[1..]), r, ok, g, n);
      } else {
        AddLaneRuns(cap, h, es[1..]);
        assert AddsOf(es) == AddsOf(es[1..]);
      }
    }
  }

  lemma {:induction false} TradeLaneRuns(cap: nat, h: HotState, es: seq<Event>)
    requires WellFormed(h.slab)
    ensures var (g, n) := HotTradeLane(h, es); Runs(cap, h, OfType(es, 4), g, n)
    decreases es
  {
    if es != [] {
      if es[0].eventType == 4 {
        TradeIsTrade(cap, h, es[0]);
        var (r, ok) := HotTrade(h, es[0]);
        var (g, n) := HotTradeLane(r, es[1..]);
        TradeLaneRuns(cap, r, es[1..]);
        RunsFirst(cap, h, es[0], OfType(es[1..], 4), r, ok, g, n);
      } else {
        TradeLaneRuns(cap, h, es[1..]);
        assert OfType(es, 4) == OfType(es[1..], 4);
      }
    }
  }

  lemma {:induction false} CancelLaneRuns(cap: nat, h: HotState, es: seq<Event>)
    requires WellFormed(h.slab)
    ensures var (g, n) := HotCancelLane(h, es); Runs(cap, h, OfType(es, 2), g, n)
    decreases es
  {
    if es != [] {
      if es[0].eventType == 2 {
        CancelIsCancel(cap, h, es[0]);
        var (r, ok) := HotCancel(h, es[0]);
        var (g, n) := HotCancelLane(r, es[1..]);
        CancelLaneRuns(cap, r, es[1..]);
        RunsFirst(cap, h, es[0], OfType(es[1..], 2), r, ok, g, n);
      } else {
        CancelLaneRuns(cap, h, es[1..]);
        assert OfType(es, 2) == OfType(es[1..], 2);
      }
    }
  }

  /** The batch in lane order. */
  function Reordered(es: seq<Event>): seq<Event> {
    AddsOf(es) + OfType(es, 4) + OfType(es, 2)
  }

  lemma LanesInTurn(cap: nat, h: HotState, es: seq<Event>, a: HotState, n: nat, t: HotState, m: nat, c: HotState, k: nat)
    requires WellFormed(h.slab) && HotAddLane(cap, h, es) == (a, n)
    requires WellFormed(a.slab) && HotTradeLane(a, es) == (t, m)
    requires WellFormed(t.slab) && HotCancelLane(t, es) == (c, k)
    ensures HotLanes(cap, h, es) == (c, n + m + k)
  {
  }

  lemma ThreeRuns(cap: nat, h: HotState, es: seq<Event>, a: HotState, n: nat, t: HotState, m: nat, c: HotState, k: nat)
    requires Runs(cap, h, AddsOf(es), a, n) && Runs(cap, a, OfType(es, 4), t, m) && Runs(cap, t, OfType(es, 2), c, k)
    ensures Runs(cap, h, Reordered(es), c, n + m + k)
  {
    RunsOnward(cap, h, AddsOf(es), a, n, OfType(es, 4), t, m);
    RunsOnward(cap, h, AddsOf(es) + OfType(es, 4), t, n + m, OfType(es, 2), c, k);
  }

  lemma LanesRun(cap: nat, h: HotState, es: seq<Event>, a: HotState, n: nat, t: HotState, m: nat, c: HotState, k: nat)
    requires WellFormed(h.slab) && HotAddLane(cap, h, es) == (a, n)
    requires WellFormed(a.slab) && HotTradeLane(a, es) == (t, m)
    requires WellFormed(t.slab) && HotCancelLane(t, es) == (c, k)
    ensures Runs(cap, h, Reordered(es), c, n + m + k)
  {
    AddLaneRuns(cap, h, es);
    TradeLaneRuns(cap, a, es);
    CancelLaneRuns(cap, t, es);
    ThreeRuns(cap, h, es, a, n, t, m, c, k);
  }

  /** Book and change count of a lane batch are those of its reordering applied serially, whatever the book and batch. */
  lemma LanesReorder(cap: nat, h: HotState, es: seq<Event>)
    requires WellFormed(h.slab)
    ensures HotLanes(cap, h, es) == (HotRun(cap, h, Reordered(es)), Changes(cap, h, Reordered(es)))
  {
    var (a, n) := HotAddLane(cap, h, es);
    var (t, m) := HotTradeLane(a, es);
    var (c, k) := HotCancelLane(t, es);
    LanesInTurn(cap, h, es, a, n, t, m, c, k);
    LanesRun(cap, h, es, a, n, t, m, c, k);
  }
}
