/** The Rust `HotOrderBook<MAX_LEVELS>` of core/src/hot_book.rs: `HotState` is everything it stores
    (ladders, slab data, free list, index), `HotOrderBook` the object updated in place. */
module HotBook {
  import opened Events
  import opened Ladder
  import opened BookView
  import opened ArrayBook
  import opened LevelArrays
  import opened OrderStore

  datatype HotState = Hot(bids: seq<Level>, asks: seq<Level>, slab: Slab) {
    function Half(side: Side): seq<Level> {
      if side.Bid? then bids else asks
    }

    function WithHalf(side: Side, ls: seq<Level>): HotState {
      if side.Bid? then this.(bids := ls) else this.(asks := ls)
    }
  }

  const EMPTY_HOT := Hot([], [], EMPTY_SLAB)

  ghost predicate Sound(cap: nat, h: HotState) {
    && Sorted(Bid, h.bids) && |h.bids| <= cap
    && Sorted(Ask, h.asks) && |h.asks| <= cap
    && WellFormed(h.slab)
  }

  function HotAdd(cap: nat, h: HotState, e: Event): (HotState, bool)
    requires WellFormed(h.slab)
  {
    var side := SideOf(e.side);
    var (ls, ok) := AddLevel(cap, side, h.Half(side), e.price, e.qty);
    var w := h.WithHalf(side, ls);
    (if ok && e.orderId != 0 then w.(slab := Insert(h.slab, e.orderId, Meta(e.price, e.qty, e.side))) else w, ok)
  }

  function HotStrike(h: HotState, id: U64, d: nat): (HotState, bool)
    requires WellFormed(h.slab) && id in h.slab.index && d <= h.slab.data[h.slab.index[id]].qty
  {
    var m := h.slab.data[h.slab.index[id]];
    var side := SideOf(m.side);
    var gone := d == m.qty;
    var (ls, found) := Deduct(side, h.Half(side), m.price, d, gone);
    (h.WithHalf(side, ls).(slab := if gone then Remove(h.slab, id) else SetQty(h.slab, id, m.qty - d)), found)
  }

  function HotCancel(h: HotState, e: Event): (HotState, bool)
    requires WellFormed(h.slab)
  {
    if e.orderId == 0 then
      var side := SideOf(e.side);
      var (ls, found) := Deduct(side, h.Half(side), e.price, e.qty, true);
      (h.WithHalf(side, ls), found)
    else match Lookup(h.slab, e.orderId)
      case None => (h, false)
      case Some(m) => HotStrike(h, e.orderId, CancelQty(m.qty, e.qty))
  }

  function HotTrade(h: HotState, e: Event): (HotState, bool)
    requires WellFormed(h.slab)
  {
    if e.orderId == 0 then
      var side := SideOf(e.side);
      var (ls, found) := DeductAnon(side, h.Half(side), e.price, e.qty);
      (h.WithHalf(side, ls), found)
    else match Lookup(h.slab, e.orderId)
      case None => (h, false)
      case Some(m) => HotStrike(h, e.orderId, Min(e.qty, m.qty))
  }

  /** Forget where the slab keeps things. */
  ghost function BookOf(h: HotState): Book
    requires WellFormed(h.slab)
  {
    Book(h.bids, h.asks, Orders(h.slab))
  }

  lemma AddProjects(cap: nat, h: HotState, e: Event)
    requires WellFormed(h.slab)
    ensures WellFormed(HotAdd(cap, h, e).0.slab)
    ensures (BookOf(HotAdd(cap, h, e).0), HotAdd(cap, h, e).1) == AddTo(cap, BookOf(h), e)
  {
    OrderStore.InsertRefines(h.slab, e.orderId, Meta(e.price, e.qty, e.side));
  }

  lemma FillProjects(h: HotState, id: U64)
    requires WellFormed(h.slab) && id in h.slab.index
    ensures var d := h.slab.data[h.slab.index[id]].qty;
            && WellFormed(HotStrike(h, id, d).0.slab)
            && (BookOf(HotStrike(h, id, d).0), HotStrike(h, id, d).1) == StrikeAt(BookOf(h), id, d)
  {
    OrderStore.RemoveRefines(h.slab, id);
  }

  lemma ReduceProjects(h: HotState, id: U64, d: nat)
    requires WellFormed(h.slab) && id in h.slab.index && d < h.slab.data[h.slab.index[id]].qty
    ensures WellFormed(HotStrike(h, id, d).0.slab)
    ensures (BookOf(HotStrike(h, id, d).0), HotStrike(h, id, d).1) == StrikeAt(BookOf(h), id, d)
  {
    SetQtyRefines(h.slab, id, h.slab.data[h.slab.index[id]].qty - d);
  }

  lemma StrikeProjects(h: HotState, id: U64, d: nat)
    requires WellFormed(h.slab) && id in h.slab.index && d <= h.slab.data[h.slab.index[id]].qty
    ensures WellFormed(HotStrike(h, id, d).0.slab)
    ensures (BookOf(HotStrike(h, id, d).0), HotStrike(h, id, d).1) == StrikeAt(BookOf(h), id, d)
  {
    if d == h.slab.data[h.slab.index[id]].qty {
      FillProjects(h, id);
    } else {
      ReduceProjects(h, id, d);
    }
  }

  lemma CancelProjects(h: HotState, e: Event)
    requires WellFormed(h.slab)
    ensures WellFormed(HotCancel(h, e).0.slab)
    ensures (BookOf(HotCancel(h, e).0), HotCancel(h, e).1) == CancelIn(BookOf(h), e)
  {
    if e.orderId in h.slab.index {
      StrikeProjects(h, e.orderId, CancelQty(h.slab.data[h.slab.index[e.orderId]].qty, e.qty));
    }
  }

  lemma TradeProjects(h: HotState, e: Event)
    requires WellFormed(h.slab)
    ensures WellFormed(HotTrade(h, e).0.slab)
    ensures (BookOf(HotTrade(h, e).0), HotTrade(h, e).1) == ExecuteIn(BookOf(h), e)
  {
    if e.orderId in h.slab.index {
      StrikeProjects(h, e.orderId, Min(e.qty, h.slab.data[h.slab.index[e.orderId]].qty));
    }
  }

  function HotApply(cap: nat, h: HotState, e: Event): (r: (HotState, bool))
    requires WellFormed(h.slab)
    ensures WellFormed(r.0.slab)
  {
    match TypeOf(e.eventType)
    case Some(OrderAdd) => AddProjects(cap, h, e); HotAdd(cap, h, e)
    case Some(OrderCancel) => CancelProjects(h, e); HotCancel(h, e)
    case Some(OrderModify) =>
      CancelProjects(h, e);
      var c := HotCancel(h, e).0;
      AddProjects(cap, c, e); HotAdd(cap, c, e)
    case Some(Trade) => TradeProjects(h, e); HotTrade(h, e)
    case _ => (h, false)
  }

  function HotRun(cap: nat, h: HotState, es: seq<Event>): (r: HotState)
    requires WellFormed(h.slab)
    ensures WellFormed(r.slab)
    decreases es
  {
    if es == [] then h else HotRun(cap, HotApply(cap, h, es[0]).0, es[1..])
  }

  lemma ApplyProjects(cap: nat, h: HotState, e: Event)
    requires WellFormed(h.slab)
    ensures (BookOf(HotApply(cap, h, e).0), HotApply(cap, h, e).1) == ApplyTo(cap, BookOf(h), e)
  {
    match TypeOf(e.eventType) {
      case Some(OrderAdd) => AddProjects(cap, h, e);
      case Some(OrderCancel) => CancelProjects(h, e);
      case Some(OrderModify) =>
        CancelProjects(h, e);
        AddProjects(cap, HotCancel(h, e).0, e);
      case Some(Trade) => TradeProjects(h, e);
      case _ =>
    }
  }

  /** Rust and C++ books of the same depth stay equal over every event stream whatsoever: unknown
      ids, id 0, odd side bytes, full ladders and modifies included. */
  lemma {:induction false} HotMatchesCpp(cap: nat, h: HotState, es: seq<Event>)
    requires Sound(cap, h)
    ensures Sound(cap, HotRun(cap, h, es))
    ensures BookOf(HotRun(cap, h, es)) == RunOn(cap, BookOf(h), es)
    decreases es
  {
    if es != [] {
      ApplyProjects(cap, h, es[0]);
      ApplyRefines(cap, BookOf(h), es[0]);
      HotMatchesCpp(cap, HotApply(cap, h, es[0]).0, es[1..]);
    }
  }

  // ---------------------------------------------------------------- lanes: final book and number of changes

  predicate InAddLane(e: Event) {
    e.eventType == 1 || e.eventType == 3
  }

  function Tally(changed: bool): nat {
    if changed then 1 else 0
  }

  function HotAddLane(cap: nat, h: HotState, es: seq<Event>): (r: (HotState, nat))
    requires WellFormed(h.slab)
    ensures WellFormed(r.0.slab) && r.1 <= |es|
    decreases es
  {
    if es == [] then (h, 0)
    else if !InAddLane(es[0]) then HotAddLane(cap, h, es[1..])
    else
      AddProjects(cap, h, es[0]);
      var (g, ok) := HotAdd(cap, h, es[0]);
      var (f, n) := HotAddLane(cap, g, es[1..]);
      (f, Tally(ok) + n)
  }

  function HotTradeLane(h: HotState, es: seq<Event>): (r: (HotState, nat))
    requires WellFormed(h.slab)
    ensures WellFormed(r.0.slab) && r.1 <= |es|
    decreases es
  {
    if es == [] then (h, 0)
    else if es[0].eventType != 4 then HotTradeLane(h, es[1..])
    else
      TradeProjects(h, es[0]);
      var (g, ok) := HotTrade(h, es[0]);
      var (f, n) := HotTradeLane(g, es[1..]);
      (f, Tally(ok) + n)
  }

  function HotCancelLane(h: HotState, es: seq<Event>): (r: (HotState, nat))
    requires WellFormed(h.slab)
    ensures WellFormed(r.0.slab) && r.1 <= |es|
    decreases es
  {
    if es == [] then (h, 0)
    else if es[0].eventType != 2 then HotCancelLane(h, es[1..])
    else
      CancelProjects(h, es[0]);
      var (g, ok) := HotCancel(h, es[0]);
      var (f, n) := HotCancelLane(g, es[1..]);
      (f, Tally(ok) + n)
  }

  function HotLanes(cap: nat, h: HotState, es: seq<Event>): (HotState, nat)
    requires WellFormed(h.slab)
  {
    var (a, n) := HotAddLane(cap, h, es);
    var (t, m) := HotTradeLane(a, es);
    var (c, k) := HotCancelLane(t, es);
    (c, n + m + k)
  }

  class HotOrderBook {
    const maxLevels: nat
    const instrumentId: U32
    const bids: HalfBook
    const asks: HalfBook
    const orders: OrderSlab

    ghost predicate Valid()
      reads this, bids, bids.levels, asks, asks.levels, orders
    {
      && bids != asks && bids.levels != asks.levels
      && bids.side == Bid && asks.side == Ask
      && bids.levels.Length == maxLevels == asks.levels.Length
      && bids.Valid() && asks.Valid()
      && WellFormed(orders.Value())
    }

    ghost function Value(): (h: HotState)
      requires Valid()
      reads this, bids, bids.levels, asks, asks.levels, orders
      ensures Sound(maxLevels, h)
    {
      Hot(bids.Contents(), asks.Contents(), orders.Value())
    }

    constructor (maxLevels: nat, instrumentId: U32)
      ensures Valid() && Value() == EMPTY_HOT
      ensures this.maxLevels == maxLevels && this.instrumentId == instrumentId
      ensures fresh(bids) && fresh(bids.levels) && fresh(asks) && fresh(asks.levels) && fresh(orders)
    {
      this.maxLevels, this.instrumentId := maxLevels, instrumentId;
      bids := new HalfBook(Bid, maxLevels);
      asks := new HalfBook(Ask, maxLevels);
      orders := new OrderSlab();
    }

    /** The book a decoded image describes. */
    constructor Restore(maxLevels: nat, instrumentId: U32, h: HotState)
      requires Sound(maxLevels, h)
      ensures Valid() && Value() == h
      ensures this.maxLevels == maxLevels && this.instrumentId == instrumentId
      ensures fresh(bids) && fresh(bids.levels) && fresh(asks) && fresh(asks.levels) && fresh(orders)
    {
      this.maxLevels, this.instrumentId := maxLevels, instrumentId;
      bids := new HalfBook.Load(Bid, maxLevels, h.bids);
      asks := new HalfBook.Load(Ask, maxLevels, h.asks);
      orders := new OrderSlab.Load(h.slab);
    }

    method ApplyEvent(e: Event) returns (changed: bool)
      requires Valid()
      modifies bids, bids.levels, asks, asks.levels, orders
      ensures Valid() && (Value(), changed) == HotApply(maxLevels, old(Value()), e)
    {
      match TypeOf(e.eventType) {
        case None =>
          changed := false;
        case Some(t) =>
          match t {
            case OrderAdd => changed := AddOrder(e);
            case OrderCancel => changed := CancelOrder(e);
            case OrderModify =>
              var _ := CancelOrder(e);
              changed := AddOrder(e);
            case Trade => changed := ExecuteTrade(e);
            case BookSnapshot => changed := false;
          }
      }
    }

    method AddOrder(e: Event) returns (placed: bool)
      requires Valid()
      modifies bids, bids.levels, asks, asks.levels, orders
      ensures Valid() && (Value(), placed) == HotAdd(maxLevels, old(Value()), e)
    {
      var half := if e.side == 0 then bids else asks;
      placed := half.Add(e.price, e.qty);
      if placed && e.orderId != 0 {
        orders.InsertOrder(e.orderId, Meta(e.price, e.qty, e.side));
      }
    }

    method CancelOrder(e: Event) returns (found: bool)
      requires Valid()
      modifies bids, bids.levels, asks, asks.levels, orders
      ensures Valid() && (Value(), found) == HotCancel(old(Value()), e)
    {
      if e.orderId == 0 {
        var half := if e.side == 0 then bids else asks;
        found := half.DeductAt(e.price, e.qty, true);
        return;
      }
      var m := orders.Get(e.orderId);
      if m.None? {
        found := false;
      } else if e.qty == 0 || e.qty >= m.value.qty {
        found := Release(e.orderId, m.value);
      } else {
        found := Reduce(e.orderId, m.value, e.qty);
      }
    }

    method ExecuteTrade(e: Event) returns (found: bool)
      requires Valid()
      modifies bids, bids.levels, asks, asks.levels, orders
      ensures Valid() && (Value(), found) == HotTrade(old(Value()), e)
    {
      if e.orderId == 0 {
        var half := if e.side == 0 then bids else asks;
        found := half.DeductAnonAt(e.price, e.qty);
        return;
      }
      var m := orders.Get(e.orderId);
      if m.None? {
        return false;
      }
      var fill := Min(e.qty, m.value.qty);
      if m.value.qty - fill != 0 {
        found := Reduce(e.orderId, m.value, fill);
      } else {
        found := Release(e.orderId, m.value);
      }
    }

    method ApplyLanes(events: seq<Event>) returns (changes: nat)
      requires Valid()
      modifies bids, bids.levels, asks, asks.levels, orders
      ensures Valid() && (Value(), changes) == HotLanes(maxLevels, old(Value()), events)
    {
      ghost var was := Value();
      var adds := ApplyLaneAdds(events);
      assert (Value(), adds) == HotAddLane(maxLevels, was, events);
      var trades := ApplyLaneTrades(events);
      var cancels := ApplyLaneCancels(events);
      changes := adds + trades + cancels;
    }

    method ApplyLaneAdds(events: seq<Event>) returns (changes: nat)
      requires Valid()
      modifies bids, bids.levels, asks, asks.levels, orders
      ensures Valid() && (Value(), changes) == HotAddLane(maxLevels, old(Value()), events)
    {
      changes := 0;
      ghost var start := Value();
      for i := 0 to |events|
        invariant Valid()
        invariant HotAddLane(maxLevels, start, events).0 == HotAddLane(maxLevels, Value(), events[i..]).0
        invariant HotAddLane(maxLevels, start, events).1 == changes + HotAddLane(maxLevels, Value(), events[i..]).1
      {
        assert events[i..][1..] == events[i + 1..];
        if InAddLane(events[i]) {
          var changed := AddOrder(events[i]);
          if changed {
            changes := changes + 1;
          }
        }
      }
    }

    method ApplyLaneTrades(events: seq<Event>) returns (changes: nat)
      requires Valid()
      modifies bids, bids.levels, asks, asks.levels, orders
      ensures Valid() && (Value(), changes) == HotTradeLane(old(Value()), events)
    {
      changes := 0;
      ghost var start := Value();
      for i := 0 to |events|
        invariant Valid()
        invariant HotTradeLane(start, events).0 == HotTradeLane(Value(), events[i..]).0
        invariant HotTradeLane(start, events).1 == changes + HotTradeLane(Value(), events[i..]).1
      {
        assert events[i..][1..] == events[i + 1..];
        if events[i].eventType == 4 {
          var changed := ExecuteTrade(events[i]);
          if changed {
            changes := changes + 1;
          }
        }
      }
    }

    method ApplyLaneCancels(events: seq<Event>) returns (changes: nat)
      requires Valid()
      modifies bids, bids.levels, asks, asks.levels, orders
      ensures Valid() && (Value(), changes) == HotCancelLane(old(Value()), events)
    {
      changes := 0;
      ghost var start := Value();
      for i := 0 to |events|
        invariant Valid()
        invariant HotCancelLane(start, events).0 == HotCancelLane(Value(), events[i..]).0
        invariant HotCancelLane(start, events).1 == changes + HotCancelLane(Value(), events[i..]).1
      {
        assert events[i..][1..] == events[i + 1..];
        if events[i].eventType == 2 {
          var changed := CancelOrder(events[i]);
          if changed {
            changes := changes + 1;
          }
        }
      }
    }

    /** Partial fill or partial cancel: the slot stays live. */
    method Reduce(id: U64, meta: Meta, d: nat) returns (found: bool)
      requires Valid() && Lookup(orders.Value(), id) == Some(meta) && d < meta.qty
      modifies bids, bids.levels, asks, asks.levels, orders
      ensures Valid() && (Value(), found) == HotStrike(old(Value()), id, d)
    {
      orders.PutQty(id, meta.qty - d);
      var half := if meta.side == 0 then bids else asks;
      found := half.DeductAt(meta.price, d, false);
    }

    /** Full fill or delete: the slot goes to the free list and the level loses an order. */
    method Release(id: U64, meta: Meta) returns (found: bool)
      requires Valid() && Lookup(orders.Value(), id) == Some(meta)
      modifies bids, bids.levels, asks, asks.levels, orders
      ensures Valid() && (Value(), found) == HotStrike(old(Value()), id, meta.qty)
    {
      var _ := orders.RemoveOrder(id);
      var half := if meta.side == 0 then bids else asks;
      found := half.DeductAt(meta.price, meta.qty, true);
    }
  }
}
