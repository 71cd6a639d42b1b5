/** Lane-separated batch application: all adds, then all trades, then all cancels
    (core/src/hot_book.rs, `apply_lanes`). */
module Lanes {
  import opened Events
  import opened Ladder
  import opened BookView
  import opened ArrayBook
  import opened Conservation
  import opened Agreement
  import opened HotBook
  import opened Surplus

  type Live = map<U64, Order>

  // ---------------------------------------------------------------- what lanes do to the live orders

  function Put(o: Live, e: Event): Live {
    o[e.orderId := Order(e.price, e.qty, SideOf(e.side))]
  }

  function Filled(o: Live, e: Event): Live {
    if e.orderId in o then Struck(o, e.orderId, Min(e.qty, o[e.orderId].qty)) else o
  }

  function Cancelled(o: Live, e: Event): Live {
    if e.orderId in o then Struck(o, e.orderId, CancelQty(o[e.orderId].qty, e.qty)) else o
  }

  function Serial(o: Live, es: seq<Event>): Live
    decreases es
  {
    if es == [] then o
    else
      var e := es[0];
      var next :=
        if e.eventType == 1 then Put(o, e)
        else if e.eventType == 2 then Cancelled(o, e)
        else if e.eventType == 3 then Put(Cancelled(o, e), e)
        else if e.eventType == 4 then Filled(o, e)
        else o;
      Serial(next, es[1..])
  }

  function PutAll(o: Live, es: seq<Event>): Live
    decreases es
  {
    if es == [] then o else PutAll(if InAddLane(es[0]) then Put(o, es[0]) else o, es[1..])
  }

  function FillAll(o: Live, es: seq<Event>): Live
    decreases es
  {
    if es == [] then o else FillAll(if es[0].eventType == 4 then Filled(o, es[0]) else o, es[1..])
  }

  function CancelAll(o: Live, es: seq<Event>): Live
    decreases es
  {
    if es == [] then o else CancelAll(if es[0].eventType == 2 then Cancelled(o, es[0]) else o, es[1..])
  }

  /** The event types that reach the book. */
  predicate Acts(e: Event) {
    1 <= e.eventType <= 4
  }

  /** Nonzero ids; whatever enters the add lane names an id that is neither live nor named earlier in the batch. */
  ghost predicate Conformant(o: Live, es: seq<Event>) {
    && (forall i :: 0 <= i < |es| && Acts(es[i]) ==> es[i].orderId != 0)
    && (forall i :: 0 <= i < |es| && InAddLane(es[i]) ==> es[i].orderId !in o)
    && (forall i, j :: 0 <= j < i < |es| && InAddLane(es[i]) && Acts(es[j]) ==> es[j].orderId != es[i].orderId)
  }

  ghost predicate NoAddOf(id: U64, es: seq<Event>) {
    forall i :: 0 <= i < |es| && InAddLane(es[i]) ==> es[i].orderId != id
  }

  /** A clipped fill and a (partial or full) cancel of the same order commute; of different orders, trivially. */
  lemma FillCancelCommute(o: Live, t: Event, c: Event)
    ensures Cancelled(Filled(o, t), c) == Filled(Cancelled(o, c), t)
  {
    if t.orderId != c.orderId && t.orderId in o && c.orderId in o {
      var d, k := Min(t.qty, o[t.orderId].qty), CancelQty(o[c.orderId].qty, c.qty);
      assert Struck(Struck(o, t.orderId, d), c.orderId, k) == Struck(Struck(o, c.orderId, k), t.orderId, d);
    }
  }

  lemma PutFillCommute(o: Live, a: Event, t: Event)
    requires a.orderId != t.orderId
    ensures Put(Filled(o, t), a) == Filled(Put(o, a), t)
  {
  }

  lemma PutCancelCommute(o: Live, a: Event, c: Event)
    requires a.orderId != c.orderId
    ensures Put(Cancelled(o, c), a) == Cancelled(Put(o, a), c)
  {
  }

  lemma {:induction false} FillPastAdds(o: Live, t: Event, es: seq<Event>)
    requires NoAddOf(t.orderId, es)
    ensures PutAll(Filled(o, t), es) == Filled(PutAll(o, es), t)
    decreases es
  {
    if es != [] {
      if InAddLane(es[0]) {
        PutFillCommute(o, es[0], t);
      }
      FillPastAdds(if InAddLane(es[0]) then Put(o, es[0]) else o, t, es[1..]);
    }
  }

  lemma {:induction false} CancelPastAdds(o: Live, c: Event, es: seq<Event>)
    requires NoAddOf(c.orderId, es)
    ensures PutAll(Cancelled(o, c), es) == Cancelled(PutAll(o, es), c)
    decreases es
  {
    if es != [] {
      if InAddLane(es[0]) {
        PutCancelCommute(o, es[0], c);
      }
      CancelPastAdds(if InAddLane(es[0]) then Put(o, es[0]) else o, c, es[1..]);
    }
  }

  lemma {:induction false} CancelPastFills(o: Live, c: Event, es: seq<Event>)
    ensures FillAll(Cancelled(o, c), es) == Cancelled(FillAll(o, es), c)
    decreases es
  {
    if es != [] {
      FillCancelCommute(o, es[0], c);
      CancelPastFills(if es[0].eventType == 4 then Filled(o, es[0]) else o, c, es[1..]);
    }
  }

  lemma ConformantTail(o: Live, es: seq<Event>, o': Live)
    requires es != [] && Conformant(o, es) && o'.Keys <= o.Keys + if Acts(es[0]) then {es[0].orderId} else {}
    ensures Conformant(o', es[1..]) && (Acts(es[0]) ==> NoAddOf(es[0].orderId, es[1..]))
  {
    var t := es[1..];
    assert forall i :: 0 <= i < |t| ==> t[i] == es[i + 1];
  }

  /** Sorting a conformant batch into lanes leaves the same orders live with the same residuals. */
  lemma {:induction false} LanesKeepOrders(o: Live, es: seq<Event>)
    requires Conformant(o, es)
    ensures Serial(o, es) == CancelAll(FillAll(PutAll(o, es), es), es)
    decreases es
  {
    if es != [] {
      var e, t := es[0], es[1..];
      if InAddLane(e) {
        ConformantTail(o, es, Put(o, e));
        LanesKeepOrders(Put(o, e), t);
      } else if e.eventType == 4 {
        ConformantTail(o, es, Filled(o, e));
        LanesKeepOrders(Filled(o, e), t);
        FillPastAdds(o, e, t);
      } else if e.eventType == 2 {
        ConformantTail(o, es, Cancelled(o, e));
        LanesKeepOrders(Cancelled(o, e), t);
        CancelPastAdds(o, e, t);
        CancelPastFills(PutAll(o, t), e, t);
      } else {
        ConformantTail(o, es, o);
        LanesKeepOrders(o, t);
      }
    }
  }

  // ---------------------------------------------------------------- what lanes do to the book

  function AddLane(cap: nat, v: View, es: seq<Event>): View
    decreases es
  {
    if es == [] then v else AddLane(cap, if InAddLane(es[0]) then Add(cap, v, es[0]).0 else v, es[1..])
  }

  function TradeLane(v: View, es: seq<Event>): View
    decreases es
  {
    if es == [] then v else TradeLane(if es[0].eventType == 4 then Execute(v, es[0]).0 else v, es[1..])
  }

  function CancelLane(v: View, es: seq<Event>): View
    decreases es
  {
    if es == [] then v else CancelLane(if es[0].eventType == 2 then Cancel(v, es[0]).0 else v, es[1..])
  }

  function InLanes(cap: nat, v: View, es: seq<Event>): View {
    CancelLane(TradeLane(AddLane(cap, v, es), es), es)
  }

  /** The batch's adds, all at once, still fit the depth. */
  ghost predicate PeakFits(cap: nat, v: View, es: seq<Event>, bids: set<U64>, asks: set<U64>) {
    Within(cap, v, bids, asks) && Brought(es, Bid) <= bids && Brought(es, Ask) <= asks
  }

  lemma BroughtTail(es: seq<Event>, s: Side)
    requires es != []
    ensures Brought(es[1..], s) <= Brought(es, s)
    ensures InAddLane(es[0]) ==> es[0].price in Brought(es, SideOf(es[0].side))
  {
    forall p | p in Brought(es[1..], s)
      ensures p in Brought(es, s)
    {
      var i :| 0 <= i < |es| - 1 && InAddLane(es[1..][i]) && SideOf(es[1..][i].side) == s && es[1..][i].price == p;
      assert es[i + 1] == es[1..][i];
    }
  }

  // ---------------------------------------------------------------- single events, serially and in the add lane

  /** Ids known after an event: live at the start, or placed since. */
  function Learn(known: set<U64>, e: Event): set<U64> {
    if InAddLane(e) then known + {e.orderId} else known
  }

  function AddStep(cap: nat, a: View, e: Event): View {
    if InAddLane(e) then Add(cap, a, e).0 else a
  }

  /** The event's order, if it brings one, finds room in this book, also after its cancel half. */
  predicate HasRoom(cap: nat, v: View, e: Event) {
    && (Acts(e) ==> e.orderId != 0)
    && (InAddLane(e) ==> Fits(cap, v.On(SideOf(e.side)), e.price) && Fits(cap, Cancel(v, e).0.On(SideOf(e.side)), e.price))
  }

  lemma CancelWithin(cap: nat, v: View, e: Event, bids: set<U64>, asks: set<U64>)
    requires Within(cap, v, bids, asks) && e.orderId != 0
    ensures Within(cap, Cancel(v, e).0, bids, asks)
  {
  }

  lemma AddWithin(cap: nat, v: View, e: Event, bids: set<U64>, asks: set<U64>)
    requires Within(cap, v, bids, asks) && e.orderId != 0 && e.price in if SideOf(e.side).Bid? then bids else asks
    ensures Within(cap, Add(cap, v, e).0, bids, asks) && Fits(cap, v.On(SideOf(e.side)), e.price)
  {
    FitsWithin(cap, v.On(SideOf(e.side)), if SideOf(e.side).Bid? then bids else asks, e.price);
  }

  lemma RoomUnderPeak(cap: nat, v: View, es: seq<Event>, bids: set<U64>, asks: set<U64>)
    requires es != [] && PeakFits(cap, v, es, bids, asks) && (Acts(es[0]) ==> es[0].orderId != 0)
    ensures HasRoom(cap, v, es[0])
    ensures PeakFits(cap, Apply(cap, v, es[0]).0, es[1..], bids, asks)
    ensures PeakFits(cap, AddStep(cap, v, es[0]), es[1..], bids, asks)
  {
    var e := es[0];
    BroughtTail(es, Bid);
    BroughtTail(es, Ask);
    if Acts(e) {
      CancelWithin(cap, v, e, bids, asks);
      if InAddLane(e) {
        AddWithin(cap, v, e, bids, asks);
        AddWithin(cap, Cancel(v, e).0, e, bids, asks);
      }
    }
  }

  /** The live orders after one event, as the serial loop leaves them. */
  lemma SerialOrders(cap: nat, w: View, e: Event)
    requires HasRoom(cap, w, e)
    ensures Apply(cap, w, e).0.orders
         == if e.eventType == 1 then Put(w.orders, e)
            else if e.eventType == 2 then Cancelled(w.orders, e)
            else if e.eventType == 3 then Put(Cancelled(w.orders, e), e)
            else if e.eventType == 4 then Filled(w.orders, e)
            else w.orders
  {
  }

  lemma LaneOrders(cap: nat, a: View, e: Event)
    requires HasRoom(cap, a, e)
    ensures AddStep(cap, a, e).orders == if InAddLane(e) then Put(a.orders, e) else a.orders
    ensures AddStep(cap, a, e).orders.Keys == Learn(a.orders.Keys, e)
  {
  }

  // ---------------------------------------------------------------- live orders

  ghost predicate ActsIdentified(es: seq<Event>) {
    forall i :: 0 <= i < |es| && Acts(es[i]) ==> es[i].orderId != 0
  }

  lemma {:induction false} SerialRunOrders(cap: nat, v: View, es: seq<Event>, bids: set<U64>, asks: set<U64>)
    requires ActsIdentified(es) && PeakFits(cap, v, es, bids, asks)
    ensures Run(cap, v, es).orders == Serial(v.orders, es)
    decreases es
  {
    if es != [] {
      RoomUnderPeak(cap, v, es, bids, asks);
      SerialOrders(cap, v, es[0]);
      SerialRunOrders(cap, Apply(cap, v, es[0]).0, es[1..], bids, asks);
    }
  }

  lemma {:induction false} AddLaneOrders(cap: nat, v: View, es: seq<Event>, bids: set<U64>, asks: set<U64>)
    requires ActsIdentified(es) && PeakFits(cap, v, es, bids, asks)
    ensures AddLane(cap, v, es).orders == PutAll(v.orders, es)
    decreases es
  {
    if es != [] {
      RoomUnderPeak(cap, v, es, bids, asks);
      LaneOrders(cap, v, es[0]);
      AddLaneOrders(cap, AddStep(cap, v, es[0]), es[1..], bids, asks);
    }
  }

  lemma {:induction false} TradeLaneOrders(v: View, es: seq<Event>)
    requires ActsIdentified(es)
    ensures TradeLane(v, es).orders == FillAll(v.orders, es)
    decreases es
  {
    if es != [] {
      TradeLaneOrders(if es[0].eventType == 4 then Execute(v, es[0]).0 else v, es[1..]);
    }
  }

  lemma {:induction false} CancelLaneOrders(v: View, es: seq<Event>)
    requires ActsIdentified(es)
    ensures CancelLane(v, es).orders == CancelAll(v.orders, es)
    decreases es
  {
    if es != [] {
      CancelLaneOrders(if es[0].eventType == 2 then Cancel(v, es[0]).0 else v, es[1..]);
    }
  }

  // ---------------------------------------------------------------- the excess at one price

  /** Units and orders the add lane leaves behind at a price. */
  function LeftUnits(a: Live, e: Event, s: Side, p: U64): nat {
    if InAddLane(e) then AbandonedUnits(a, e.orderId, s, p) else 0
  }

  function LeftOrders(a: Live, e: Event, s: Side, p: U64): nat {
    if InAddLane(e) then AbandonedOrders(a, e.orderId, s, p) else 0
  }

  lemma LaneLeaves(cap: nat, a: View, e: Event, s: Side, p: U64, q: nat, n: nat, lq: nat, ln: nat)
    requires Excess(a, s, p, q, n) && HasRoom(cap, a, e)
    requires lq == LeftUnits(a.orders, e, s, p) && ln == LeftOrders(a.orders, e, s, p)
    ensures Excess(AddStep(cap, a, e), s, p, q + lq, n + ln)
  {
    if InAddLane(e) {
      PlacedCell(cap, a, e, s, p, q, n, lq, ln);
    } else {
      assert AddStep(cap, a, e) == a;
    }
  }

  lemma LaneCell(cap: nat, a: View, e: Event, s: Side, p: U64, q: nat, n: nat) returns (q': nat, n': nat)
    requires Excess(a, s, p, q, n) && HasRoom(cap, a, e)
    ensures Excess(AddStep(cap, a, e), s, p, q', n')
    ensures q' == q + LeftUnits(a.orders, e, s, p) && n' == n + LeftOrders(a.orders, e, s, p)
  {
    var lq, ln := LeftUnits(a.orders, e, s, p), LeftOrders(a.orders, e, s, p);
    LaneLeaves(cap, a, e, s, p, q, n, lq, ln);
    q', n' := q + lq, n + ln;
  }

  lemma PlacedCell(cap: nat, a: View, e: Event, s: Side, p: U64, q: nat, n: nat, aq: nat, an: nat)
    requires Excess(a, s, p, q, n) && e.orderId != 0 && Fits(cap, a.On(SideOf(e.side)), e.price)
    requires aq == AbandonedUnits(a.orders, e.orderId, s, p) && an == AbandonedOrders(a.orders, e.orderId, s, p)
    ensures Excess(Add(cap, a, e).0, s, p, q + aq, n + an)
  {
    AddPlaces(cap, a, e);
    PlaceAddsExcess(a, e, s, p, q, n, aq, an);
  }

  lemma IdleKeeps(cap: nat, w: View, e: Event)
    requires !Acts(e)
    ensures Apply(cap, w, e).0 == w
  {
  }

  lemma SerialSpills(cap: nat, w: View, e: Event, s: Side, p: U64, q: nat, n: nat, aq: nat, an: nat)
    requires Excess(w, s, p, q, n) && HasRoom(cap, w, e)
    requires aq == if Acts(e) then AbandonedUnits(Finds(cap, w, e), e.orderId, s, p) else 0
    requires an == if Acts(e) then AbandonedOrders(Finds(cap, w, e), e.orderId, s, p) else 0
    ensures Excess(Apply(cap, w, e).0, s, p, q + aq, n + an)
  {
    if Acts(e) {
      ApplyAddsExcess(cap, w, e, s, p, q, n, aq, an);
    } else {
      IdleKeeps(cap, w, e);
    }
  }

  lemma SerialCell(cap: nat, w: View, e: Event, s: Side, p: U64, q: nat, n: nat) returns (q': nat, n': nat)
    requires Excess(w, s, p, q, n) && HasRoom(cap, w, e)
    ensures Excess(Apply(cap, w, e).0, s, p, q', n')
    ensures q' == q + if Acts(e) then AbandonedUnits(Finds(cap, w, e), e.orderId, s, p) else 0
    ensures n' == n + if Acts(e) then AbandonedOrders(Finds(cap, w, e), e.orderId, s, p) else 0
  {
    var o := Finds(cap, w, e);
    var aq := if Acts(e) then AbandonedUnits(o, e.orderId, s, p) else 0;
    var an := if Acts(e) then AbandonedOrders(o, e.orderId, s, p) else 0;
    SerialSpills(cap, w, e, s, p, q, n, aq, an);
    q', n' := q + aq, n + an;
  }

  /** Nothing is abandoned by an event that places no order under a live id. */
  lemma FreshSpillsNothing(cap: nat, v: View, e: Event, s: Side, p: U64)
    requires InAddLane(e) ==> e.orderId !in v.orders
    ensures AbandonedUnits(Finds(cap, v, e), e.orderId, s, p) == 0 && AbandonedOrders(Finds(cap, v, e), e.orderId, s, p) == 0
    ensures LeftUnits(v.orders, e, s, p) == 0 && LeftOrders(v.orders, e, s, p) == 0
  {
  }

  lemma FreshSerialCell(cap: nat, v: View, e: Event, s: Side, p: U64, q: nat, n: nat)
    requires Excess(v, s, p, q, n) && HasRoom(cap, v, e) && (InAddLane(e) ==> e.orderId !in v.orders)
    ensures Excess(Apply(cap, v, e).0, s, p, q, n)
  {
    FreshSpillsNothing(cap, v, e, s, p);
    var q', n' := SerialCell(cap, v, e, s, p, q, n);
    assert q' == q && n' == n;
  }

  lemma FreshLaneCell(cap: nat, v: View, e: Event, s: Side, p: U64, q: nat, n: nat)
    requires Excess(v, s, p, q, n) && HasRoom(cap, v, e) && (InAddLane(e) ==> e.orderId !in v.orders)
    ensures Excess(AddStep(cap, v, e), s, p, q, n)
  {
    FreshSpillsNothing(cap, v, e, s, p);
    var q', n' := LaneCell(cap, v, e, s, p, q, n);
    assert q' == q && n' == n;
  }

  lemma {:induction false} SerialRunKeeps(cap: nat, v: View, es: seq<Event>, bids: set<U64>, asks: set<U64>,
                                          s: Side, p: U64, q: nat, n: nat)
    requires Conformant(v.orders, es) && PeakFits(cap, v, es, bids, asks) && Excess(v, s, p, q, n)
    ensures Excess(Run(cap, v, es), s, p, q, n)
    decreases es
  {
    if es != [] {
      var e, w := es[0], Apply(cap, v, es[0]).0;
      RoomUnderPeak(cap, v, es, bids, asks);
      SerialOrders(cap, v, e);
      ConformantTail(v.orders, es, w.orders);
      FreshSerialCell(cap, v, e, s, p, q, n);
      SerialRunKeeps(cap, w, es[1..], bids, asks, s, p, q, n);
    }
  }

  lemma {:induction false} AddLaneKeeps(cap: nat, v: View, es: seq<Event>, bids: set<U64>, asks: set<U64>,
                                        s: Side, p: U64, q: nat, n: nat)
    requires Conformant(v.orders, es) && PeakFits(cap, v, es, bids, asks) && Excess(v, s, p, q, n)
    ensures Excess(AddLane(cap, v, es), s, p, q, n)
    decreases es
  {
    if es != [] {
      var e, w := es[0], AddStep(cap, v, es[0]);
      RoomUnderPeak(cap, v, es, bids, asks);
      LaneOrders(cap, v, e);
      ConformantTail(v.orders, es, w.orders);
      FreshLaneCell(cap, v, e, s, p, q, n);
      AddLaneKeeps(cap, w, es[1..], bids, asks, s, p, q, n);
    }
  }

  lemma {:induction false} TradeLaneKeeps(v: View, es: seq<Event>, s: Side, p: U64, q: nat, n: nat)
    requires Excess(v, s, p, q, n) && ActsIdentified(es)
    ensures Excess(TradeLane(v, es), s, p, q, n)
    decreases es
  {
    if es != [] {
      if es[0].eventType == 4 {
        ExecuteKeepsExcess(v, es[0], s, p, q, n);
      }
      TradeLaneKeeps(if es[0].eventType == 4 then Execute(v, es[0]).0 else v, es[1..], s, p, q, n);
    }
  }

  lemma {:induction false} CancelLaneKeeps(v: View, es: seq<Event>, s: Side, p: U64, q: nat, n: nat)
    requires Excess(v, s, p, q, n) && ActsIdentified(es)
    ensures Excess(CancelLane(v, es), s, p, q, n)
    decreases es
  {
    if es != [] {
      if es[0].eventType == 2 {
        CancelKeepsExcess(v, es[0], s, p, q, n);
      }
      CancelLaneKeeps(if es[0].eventType == 2 then Cancel(v, es[0]).0 else v, es[1..], s, p, q, n);
    }
  }

  // ---------------------------------------------------------------- lanes and serial agree

  lemma LanesKeepLevel(cap: nat, v: View, es: seq<Event>, bids: set<U64>, asks: set<U64>, s: Side, p: U64)
    requires TalliedAt(v, s, p) && Conformant(v.orders, es) && PeakFits(cap, v, es, bids, asks)
    requires InLanes(cap, v, es).orders == Run(cap, v, es).orders
    ensures var g, h := InLanes(cap, v, es).On(s), Run(cap, v, es).On(s); (p in g <==> p in h) && (p in g ==> g[p] == h[p])
  {
    var q, n :| Excess(v, s, p, q, n);
    var a := AddLane(cap, v, es);
    SerialRunKeeps(cap, v, es, bids, asks, s, p, q, n);
    AddLaneKeeps(cap, v, es, bids, asks, s, p, q, n);
    TradeLaneKeeps(a, es, s, p, q, n);
    CancelLaneKeeps(TradeLane(a, es), es, s, p, q, n);
    SameLevels(InLanes(cap, v, es), Run(cap, v, es), s, p, q, n);
  }

  /** Lane equivalence, from any book whose levels hold their orders: the live orders commute, and neither way of applying
      the batch changes what a level holds beyond them. */
  lemma LanesMatchSerial(cap: nat, v: View, es: seq<Event>, bids: set<U64>, asks: set<U64>)
    requires Tallied(v) && Conformant(v.orders, es) && PeakFits(cap, v, es, bids, asks)
    ensures InLanes(cap, v, es) == Run(cap, v, es)
  {
    var a := AddLane(cap, v, es);
    SerialRunOrders(cap, v, es, bids, asks);
    AddLaneOrders(cap, v, es, bids, asks);
    TradeLaneOrders(a, es);
    CancelLaneOrders(TradeLane(a, es), es);
    LanesKeepOrders(v.orders, es);
    var x, y := InLanes(cap, v, es), Run(cap, v, es);
    forall s, p
      ensures (p in x.On(s) <==> p in y.On(s)) && (p in x.On(s) ==> x.On(s)[p] == y.On(s)[p])
    {
      assert TalliedAt(v, s, p);
      LanesKeepLevel(cap, v, es, bids, asks, s, p);
    }
    assert x.On(Bid) == y.On(Bid) && x.On(Ask) == y.On(Ask);
  }

  // ---------------------------------------------------------------- and to the hot book

  lemma {:induction false} AddLaneProjects(cap: nat, h: HotState, es: seq<Event>)
    requires Sound(cap, h)
    ensures Sound(cap, HotAddLane(cap, h, es).0)
    ensures ViewOf(BookOf(HotAddLane(cap, h, es).0)) == AddLane(cap, ViewOf(BookOf(h)), es)
    decreases es
  {
    if es != [] {
      AddProjects(cap, h, es[0]);
      AddRefines(cap, BookOf(h), es[0]);
      AddLaneProjects(cap, if InAddLane(es[0]) then HotAdd(cap, h, es[0]).0 else h, es[1..]);
    }
  }

  lemma {:induction false} TradeLaneProjects(cap: nat, h: HotState, es: seq<Event>)
    requires Sound(cap, h)
    ensures Sound(cap, HotTradeLane(h, es).0)
    ensures ViewOf(BookOf(HotTradeLane(h, es).0)) == TradeLane(ViewOf(BookOf(h)), es)
    decreases es
  {
    if es != [] {
      TradeProjects(h, es[0]);
      ExecuteRefines(cap, BookOf(h), es[0]);
      TradeLaneProjects(cap, if es[0].eventType == 4 then HotTrade(h, es[0]).0 else h, es[1..]);
    }
  }

  lemma {:induction false} CancelLaneProjects(cap: nat, h: HotState, es: seq<Event>)
    requires Sound(cap, h)
    ensures Sound(cap, HotCancelLane(h, es).0)
    ensures ViewOf(BookOf(HotCancelLane(h, es).0)) == CancelLane(ViewOf(BookOf(h)), es)
    decreases es
  {
    if es != [] {
      CancelProjects(h, es[0]);
      CancelRefines(cap, BookOf(h), es[0]);
      CancelLaneProjects(cap, if es[0].eventType == 2 then HotCancel(h, es[0]).0 else h, es[1..]);
    }
  }

  /** Both ways of applying a batch to the hot book are what they are on its view. */
  lemma LanesProject(cap: nat, h: HotState, es: seq<Event>)
    requires Sound(cap, h)
    ensures Sound(cap, HotLanes(cap, h, es).0) && Sound(cap, HotRun(cap, h, es))
    ensures ViewOf(BookOf(HotLanes(cap, h, es).0)) == InLanes(cap, ViewOf(BookOf(h)), es)
    ensures ViewOf(BookOf(HotRun(cap, h, es))) == Run(cap, ViewOf(BookOf(h)), es)
  {
    AddLaneProjects(cap, h, es);
    var a := HotAddLane(cap, h, es).0;
    TradeLaneProjects(cap, a, es);
    CancelLaneProjects(cap, HotTradeLane(a, es).0, es);
    HotMatchesCpp(cap, h, es);
    RunRefines(cap, BookOf(h), es);
  }

  /** `apply_lanes` and serial `apply` end with the same live orders and the very same ladders. */
  lemma HotLanesMatchSerial(cap: nat, h: HotState, es: seq<Event>, bids: set<U64>, asks: set<U64>)
    requires Sound(cap, h)
    requires var v := ViewOf(BookOf(h));
             Tallied(v) && Conformant(v.orders, es) && PeakFits(cap, v, es, bids, asks)
    ensures Sound(cap, HotLanes(cap, h, es).0)
    ensures ViewOf(BookOf(HotLanes(cap, h, es).0)) == ViewOf(BookOf(HotRun(cap, h, es)))
    ensures HotLanes(cap, h, es).0.bids == HotRun(cap, h, es).bids
    ensures HotLanes(cap, h, es).0.asks == HotRun(cap, h, es).asks
  {
    LanesProject(cap, h, es);
    LanesMatchSerial(cap, ViewOf(BookOf(h)), es, bids, asks);
    ListingIsUnique(Bid, HotLanes(cap, h, es).0.bids, HotRun(cap, h, es).bids);
    ListingIsUnique(Ask, HotLanes(cap, h, es).0.asks, HotRun(cap, h, es).asks);
  }
}
