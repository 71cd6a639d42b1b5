/** Machine widths. The books are modelled with unbounded totals, counts and slots; here is how large they
    can get, so that a caller can tell from the stream that no u64 or u32 of the original overflows. */
module Bounds {
  import opened Events
  import opened Ladder
  import opened BookView
  import opened OrderStore
  import opened HotBook

  datatype Load = Load(qty: nat, orders: nat)

  /** Quantity and number of the events that can enlarge a book. */
  function LoadOf(es: seq<Event>): Load {
    if es == [] then Load(0, 0)
    else
      var rest := LoadOf(es[1..]);
      if InAddLane(es[0]) then Load(rest.qty + es[0].qty, rest.orders + 1) else rest
  }

  ghost predicate Light(ls: seq<Level>, m: Load) {
    forall i :: 0 <= i < |ls| ==> ls[i].qty <= m.qty && ls[i].count <= m.orders
  }

  ghost predicate Bounded(h: HotState, m: Load) {
    Light(h.bids, m) && Light(h.asks, m) && |h.slab.data| <= m.orders
  }

  lemma AddLevelStaysLight(cap: nat, side: Side, ls: seq<Level>, p: U64, q: nat, m: Load)
    requires Light(ls, m)
    ensures Light(AddLevel(cap, side, ls, p, q).0, Load(m.qty + q, m.orders + 1))
  {
  }

  lemma ReplaceStaysLight(ls: seq<Level>, k: nat, l: Option<Level>, m: Load)
    requires Light(ls, m) && k < |ls| && (l.Some? ==> l.value.qty <= ls[k].qty && l.value.count <= ls[k].count)
    ensures Light(Replace(ls, k, l), m)
  {
  }

  lemma DeductStaysLight(side: Side, ls: seq<Level>, p: U64, q: nat, release: bool, m: Load)
    requires Light(ls, m)
    ensures Light(Deduct(side, ls, p, q, release).0, m)
    ensures Light(DeductAnon(side, ls, p, q).0, m)
  {
    var f := Find(side, ls, p);
    if f.Some? {
      ReplaceStaysLight(ls, f.value, Drawn(ls[f.value], q, release), m);
      ReplaceStaysLight(ls, f.value, DrawnAnon(ls[f.value], q), m);
    }
  }

  lemma StrikeStaysBounded(h: HotState, id: U64, d: nat, m: Load)
    requires WellFormed(h.slab) && id in h.slab.index && d <= h.slab.data[h.slab.index[id]].qty && Bounded(h, m)
    ensures Bounded(HotStrike(h, id, d).0, m)
  {
    var x := h.slab.data[h.slab.index[id]];
    var side := SideOf(x.side);
    DeductStaysLight(side, h.Half(side), x.price, d, d == x.qty, m);
  }

  lemma CancelStaysBounded(h: HotState, e: Event, m: Load)
    requires WellFormed(h.slab) && Bounded(h, m)
    ensures Bounded(HotCancel(h, e).0, m)
  {
    if e.orderId == 0 {
      DeductStaysLight(SideOf(e.side), h.Half(SideOf(e.side)), e.price, e.qty, true, m);
    } else if e.orderId in h.slab.index {
      StrikeStaysBounded(h, e.orderId, CancelQty(h.slab.data[h.slab.index[e.orderId]].qty, e.qty), m);
    }
  }

  lemma TradeStaysBounded(h: HotState, e: Event, m: Load)
    requires WellFormed(h.slab) && Bounded(h, m)
    ensures Bounded(HotTrade(h, e).0, m)
  {
    if e.orderId == 0 {
      DeductStaysLight(SideOf(e.side), h.Half(SideOf(e.side)), e.price, e.qty, true, m);
    } else if e.orderId in h.slab.index {
      StrikeStaysBounded(h, e.orderId, Min(e.qty, h.slab.data[h.slab.index[e.orderId]].qty), m);
    }
  }

  lemma AddStaysBounded(cap: nat, h: HotState, e: Event, m: Load)
    requires WellFormed(h.slab) && Bounded(h, m)
    ensures Bounded(HotAdd(cap, h, e).0, Load(m.qty + e.qty, m.orders + 1))
  {
    AddLevelStaysLight(cap, SideOf(e.side), h.Half(SideOf(e.side)), e.price, e.qty, m);
  }

  lemma ReplaceStaysBounded(cap: nat, h: HotState, e: Event, m: Load)
    requires WellFormed(h.slab) && Bounded(h, m)
    ensures WellFormed(HotCancel(h, e).0.slab)
    ensures Bounded(HotAdd(cap, HotCancel(h, e).0, e).0, Load(m.qty + e.qty, m.orders + 1))
  {
    CancelProjects(h, e);
    CancelStaysBounded(h, e, m);
    AddStaysBounded(cap, HotCancel(h, e).0, e, m);
  }

  lemma ModifyReplaces(cap: nat, h: HotState, e: Event)
    requires WellFormed(h.slab) && WellFormed(HotCancel(h, e).0.slab) && TypeOf(e.eventType) == Some(OrderModify)
    ensures HotApply(cap, h, e).0 == HotAdd(cap, HotCancel(h, e).0, e).0
  {
  }

  lemma ModifyStaysBounded(cap: nat, h: HotState, e: Event, m: Load)
    requires WellFormed(h.slab) && Bounded(h, m) && TypeOf(e.eventType) == Some(OrderModify)
    ensures Bounded(HotApply(cap, h, e).0, Load(m.qty + e.qty, m.orders + 1))
  {
    ReplaceStaysBounded(cap, h, e, m);
    ModifyReplaces(cap, h, e);
  }

  lemma AdditionStaysBounded(cap: nat, h: HotState, e: Event, m: Load)
    requires WellFormed(h.slab) && Bounded(h, m) && InAddLane(e)
    ensures Bounded(HotApply(cap, h, e).0, Load(m.qty + e.qty, m.orders + 1))
  {
    if e.eventType == 1 {
      AddStaysBounded(cap, h, e, m);
    } else {
      ModifyStaysBounded(cap, h, e, m);
    }
  }

  lemma ReductionStaysBounded(cap: nat, h: HotState, e: Event, m: Load)
    requires WellFormed(h.slab) && Bounded(h, m) && !InAddLane(e)
    ensures Bounded(HotApply(cap, h, e).0, m)
  {
    match TypeOf(e.eventType) {
      case Some(OrderCancel) => CancelStaysBounded(h, e, m);
      case Some(Trade) => TradeStaysBounded(h, e, m);
      case _ =>
    }
  }

  lemma StepStaysBounded(cap: nat, h: HotState, e: Event, m: Load)
    requires WellFormed(h.slab) && Bounded(h, m)
    ensures Bounded(HotApply(cap, h, e).0, if InAddLane(e) then Load(m.qty + e.qty, m.orders + 1) else m)
  {
    if InAddLane(e) {
      AdditionStaysBounded(cap, h, e, m);
    } else {
      ReductionStaysBounded(cap, h, e, m);
    }
  }

  /** No level ever exceeds what the stream brought, and the slab never outgrows its adds. */
  lemma {:induction false} RunStaysBounded(cap: nat, h: HotState, es: seq<Event>, m: Load)
    requires WellFormed(h.slab) && Bounded(h, m)
    ensures var l := LoadOf(es); Bounded(HotRun(cap, h, es), Load(m.qty + l.qty, m.orders + l.orders))
    decreases es
  {
    if es != [] {
      var e := es[0];
      StepStaysBounded(cap, h, e, m);
      RunStaysBounded(cap, HotApply(cap, h, e).0, es[1..],
                      if InAddLane(e) then Load(m.qty + e.qty, m.orders + 1) else m);
    }
  }
}
