/** Batches with modifies: exactly when `apply_lanes` still ends where serial `apply` does (core/src/hot_book.rs). In
    lanes a modify abandons everything its order last rested with; serially it abandons at most a residual. What is
    abandoned stays on its level whatever follows. */
module LaneModifies {
  import opened Events
  import opened BookView
  import opened Conservation
  import opened Agreement
  import opened HotBook
  import opened Lanes
  import opened Surplus

  // ---------------------------------------------------------------- batches

  /** Nonzero ids, a new id per add, and no fill or cancel ahead of the event that first places its order. */
  ghost predicate Batch(known: set<U64>, es: seq<Event>)
    decreases es
  {
    es == []
    || (&& (Acts(es[0]) ==> es[0].orderId != 0)
        && (es[0].eventType == 1 ==> es[0].orderId !in known)
        && (es[0].eventType in {2, 4} && es[0].orderId !in known ==> NoAddOf(es[0].orderId, es[1..]))
        && Batch(Learn(known, es[0]), es[1..]))
  }

  /** Some modify names a known order. */
  predicate Rebinds(known: set<U64>, es: seq<Event>)
    decreases es
  {
    es != [] && ((es[0].eventType == 3 && es[0].orderId in known) || Rebinds(Learn(known, es[0]), es[1..]))
  }

  // ---------------------------------------------------------------- serial and add lane, side by side

  /** Whatever is live serially is live in the add lane at the same place, with at least the residual. */
  ghost predicate Follows(w: Live, a: Live) {
    w.Keys <= a.Keys
    && forall id :: id in w ==> w[id].side == a[id].side && w[id].price == a[id].price && w[id].qty <= a[id].qty
  }

  lemma FollowsPut(w: Live, a: Live, e: Event)
    requires Follows(w, a)
    ensures Follows(Put(w, e), Put(a, e))
  {
  }

  lemma FollowsStruck(w: Live, a: Live, id: U64, d: nat)
    requires Follows(w, a) && id in w && d <= w[id].qty
    ensures Follows(Struck(w, id, d), a)
  {
  }

  lemma FollowsStep(cap: nat, w: View, a: View, e: Event)
    requires Follows(w.orders, a.orders) && HasRoom(cap, w, e) && HasRoom(cap, a, e)
    ensures Follows(Apply(cap, w, e).0.orders, AddStep(cap, a, e).orders)
  {
    SerialOrders(cap, w, e);
    LaneOrders(cap, a, e);
    if e.orderId in w.orders {
      FollowsStruck(w.orders, a.orders, e.orderId, CancelQty(w.orders[e.orderId].qty, e.qty));
      FollowsStruck(w.orders, a.orders, e.orderId, Min(e.qty, w.orders[e.orderId].qty));
    }
    FollowsPut(w.orders, a.orders, e);
    FollowsPut(Cancelled(w.orders, e), a.orders, e);
  }

  // ---------------------------------------------------------------- one price

  /** What the two abandon at a price: nothing weighs more serially than in the lane. */
  lemma AbandonsLess(w: Live, a: Live, id: U64, s: Side, p: U64)
    requires Follows(w, a)
    ensures AbandonedUnits(w, id, s, p) <= AbandonedUnits(a, id, s, p)
    ensures AbandonedOrders(w, id, s, p) <= AbandonedOrders(a, id, s, p)
  {
  }

  /** What the event abandons serially comes from orders that follow the lane's. */
  lemma FindsFollows(cap: nat, w: View, a: View, e: Event)
    requires Follows(w.orders, a.orders) && HasRoom(cap, w, e) && e.orderId != 0
    ensures Follows(Finds(cap, w, e), a.orders)
    ensures !InAddLane(e) ==> Finds(cap, w, e) == map[]
  {
  }

  /** The lane's lead at a price never shrinks. */
  lemma {:induction false} LeadStays(cap: nat, w: View, a: View, es: seq<Event>, bids: set<U64>, asks: set<U64>,
                                     s: Side, p: U64, wq: nat, wn: nat, aq: nat, an: nat)
      returns (wq': nat, wn': nat, aq': nat, an': nat)
    requires Follows(w.orders, a.orders) && PeakFits(cap, w, es, bids, asks) && PeakFits(cap, a, es, bids, asks)
    requires ActsIdentified(es)
    requires Excess(w, s, p, wq, wn) && Excess(a, s, p, aq, an) && wq + wn < aq + an
    ensures Excess(Run(cap, w, es), s, p, wq', wn') && Excess(AddLane(cap, a, es), s, p, aq', an')
    ensures wq' + wn' < aq' + an'
    decreases es
  {
    if es == [] {
      wq', wn', aq', an' := wq, wn, aq, an;
    } else {
      var e := es[0];
      RoomUnderPeak(cap, w, es, bids, asks);
      RoomUnderPeak(cap, a, es, bids, asks);
      FollowsStep(cap, w, a, e);
      var q, n := SerialCell(cap, w, e, s, p, wq, wn);
      var q', n' := LaneCell(cap, a, e, s, p, aq, an);
      if Acts(e) {
        FindsFollows(cap, w, a, e);
        AbandonsLess(Finds(cap, w, e), a.orders, e.orderId, s, p);
      }
      wq', wn', aq', an' := LeadStays(cap, Apply(cap, w, e).0, AddStep(cap, a, e), es[1..], bids, asks, s, p, q, n, q', n');
    }
  }

  // ---------------------------------------------------------------- the first modify of a known order

  /** Up to the first such modify the two hold the same beyond their live orders. */
  ghost predicate SameExcess(w: View, a: View, s: Side, p: U64, q: nat, n: nat) {
    Excess(w, s, p, q, n) && Excess(a, s, p, q, n)
  }

  ghost predicate EvenAt(w: View, a: View, s: Side, p: U64) {
    exists q, n :: SameExcess(w, a, s, p, q, n)
  }

  ghost predicate Even(w: View, a: View) {
    forall s, p :: EvenAt(w, a, s, p)
  }

  lemma TalliedIsEven(v: View)
    requires Tallied(v)
    ensures Even(v, v)
  {
    forall s, p
      ensures EvenAt(v, v, s, p)
    {
      assert TalliedAt(v, s, p);
      var q, n :| Excess(v, s, p, q, n);
      assert SameExcess(v, v, s, p, q, n);
    }
  }

  /** It puts the add lane ahead where its order last rested: the lane abandons all of it, serially at most what the
      cancel half leaves. */
  lemma RebindLeads(cap: nat, w: View, a: View, e: Event) returns (wq: nat, wn: nat, aq: nat, an: nat)
    requires Even(w, a) && Follows(w.orders, a.orders) && HasRoom(cap, w, e) && HasRoom(cap, a, e)
    requires e.eventType == 3 && e.orderId in a.orders
    ensures var x := a.orders[e.orderId];
            && Excess(Apply(cap, w, e).0, x.side, x.price, wq, wn) && Excess(AddStep(cap, a, e), x.side, x.price, aq, an)
            && wq + wn < aq + an
  {
    var x := a.orders[e.orderId];
    assert EvenAt(w, a, x.side, x.price);
    var q, n :| SameExcess(w, a, x.side, x.price, q, n);
    wq, wn := SerialCell(cap, w, e, x.side, x.price, q, n);
    aq, an := LaneCell(cap, a, e, x.side, x.price, q, n);
    ModifySpills(cap, w, a, e);
  }

  lemma ModifySpills(cap: nat, w: View, a: View, e: Event)
    requires Follows(w.orders, a.orders) && HasRoom(cap, w, e) && e.eventType == 3 && e.orderId in a.orders
    ensures var x, id, o := a.orders[e.orderId], e.orderId, Finds(cap, w, e);
            && AbandonedUnits(a.orders, id, x.side, x.price) == x.qty && AbandonedOrders(a.orders, id, x.side, x.price) == 1
            && AbandonedUnits(o, id, x.side, x.price) + AbandonedOrders(o, id, x.side, x.price) < x.qty + 1
  {
  }

  /** An event that modifies nothing known changes no excess on either side. */
  lemma FreshStep(cap: nat, w: View, a: View, e: Event)
    requires Even(w, a) && Follows(w.orders, a.orders) && HasRoom(cap, w, e) && HasRoom(cap, a, e)
    requires InAddLane(e) ==> e.orderId !in a.orders
    ensures Even(Apply(cap, w, e).0, AddStep(cap, a, e))
  {
    forall s, p
      ensures EvenAt(Apply(cap, w, e).0, AddStep(cap, a, e), s, p)
    {
      assert EvenAt(w, a, s, p);
      FreshStepAt(cap, w, a, e, s, p);
    }
  }

  lemma FreshStepAt(cap: nat, w: View, a: View, e: Event, s: Side, p: U64)
    requires EvenAt(w, a, s, p) && Follows(w.orders, a.orders) && HasRoom(cap, w, e) && HasRoom(cap, a, e)
    requires InAddLane(e) ==> e.orderId !in a.orders
    ensures EvenAt(Apply(cap, w, e).0, AddStep(cap, a, e), s, p)
  {
    var q, n :| SameExcess(w, a, s, p, q, n);
    FreshSerialCell(cap, w, e, s, p, q, n);
    FreshLaneCell(cap, a, e, s, p, q, n);
    assert SameExcess(Apply(cap, w, e).0, AddStep(cap, a, e), s, p, q, n);
  }

  lemma {:induction false} BatchIds(known: set<U64>, es: seq<Event>)
    requires Batch(known, es)
    ensures ActsIdentified(es)
    decreases es
  {
    if es != [] {
      BatchIds(Learn(known, es[0]), es[1..]);
    }
  }

  /** Some price at which the lane ends up holding more than the serial loop beyond its live orders. */
  lemma {:induction false} LaneLeads(cap: nat, w: View, a: View, es: seq<Event>, bids: set<U64>, asks: set<U64>)
      returns (s: Side, p: U64, wq: nat, wn: nat, aq: nat, an: nat)
    requires Even(w, a) && Follows(w.orders, a.orders)
    requires Batch(a.orders.Keys, es) && PeakFits(cap, w, es, bids, asks) && PeakFits(cap, a, es, bids, asks)
    requires Rebinds(a.orders.Keys, es)
    ensures Excess(Run(cap, w, es), s, p, wq, wn) && Excess(AddLane(cap, a, es), s, p, aq, an) && wq + wn < aq + an
    decreases es
  {
    var e, w', a' := es[0], Apply(cap, w, es[0]).0, AddStep(cap, a, es[0]);
    RoomUnderPeak(cap, w, es, bids, asks);
    RoomUnderPeak(cap, a, es, bids, asks);
    FollowsStep(cap, w, a, e);
    LaneOrders(cap, a, e);
    if e.eventType == 3 && e.orderId in a.orders {
      s, p := a.orders[e.orderId].side, a.orders[e.orderId].price;
      wq, wn, aq, an := RebindLeads(cap, w, a, e);
      BatchIds(a'.orders.Keys, es[1..]);
      wq, wn, aq, an := LeadStays(cap, w', a', es[1..], bids, asks, s, p, wq, wn, aq, an);
    } else {
      FreshStep(cap, w, a, e);
      s, p, wq, wn, aq, an := LaneLeads(cap, w', a', es[1..], bids, asks);
    }
  }

  lemma RebindDiffers(cap: nat, v: View, es: seq<Event>, bids: set<U64>, asks: set<U64>)
    requires Tallied(v) && Batch(v.orders.Keys, es) && PeakFits(cap, v, es, bids, asks) && Rebinds(v.orders.Keys, es)
    ensures InLanes(cap, v, es) != Run(cap, v, es)
  {
    TalliedIsEven(v);
    var s, p, wq, wn, aq, an := LaneLeads(cap, v, v, es, bids, asks);
    var a := AddLane(cap, v, es);
    BatchIds(v.orders.Keys, es);
    TradeLaneKeeps(a, es, s, p, aq, an);
    CancelLaneKeeps(TradeLane(a, es), es, s, p, aq, an);
    if InLanes(cap, v, es) == Run(cap, v, es) {
      ExcessIsUnique(Run(cap, v, es), s, p, wq, wn, aq, an);
    }
  }

  // ---------------------------------------------------------------- exactly when lanes and serial agree

  lemma {:induction false} NothingKnownIsRenamed(known: set<U64>, es: seq<Event>)
    requires Batch(known, es) && !Rebinds(known, es)
    ensures forall i :: 0 <= i < |es| && InAddLane(es[i]) ==> es[i].orderId !in known
    decreases es
  {
    if es != [] {
      NothingKnownIsRenamed(Learn(known, es[0]), es[1..]);
      forall i | 0 <= i < |es| && InAddLane(es[i])
        ensures es[i].orderId !in known
      {
        assert i > 0 ==> es[i] == es[1..][i - 1];
      }
    }
  }

  /** A batch that modifies nothing known is one the lanes were proved for. */
  lemma {:induction false} BatchConforms(o: Live, o': Live, es: seq<Event>)
    requires Batch(o.Keys, es) && !Rebinds(o.Keys, es) && o'.Keys <= o.Keys
    ensures Conformant(o', es)
    decreases es
  {
    if es != [] {
      var e, t := es[0], es[1..];
      var next := if InAddLane(e) then Put(o, e) else o;
      assert next.Keys == Learn(o.Keys, e);
      NothingKnownIsRenamed(o.Keys, es);
      NothingKnownIsRenamed(next.Keys, t);
      BatchConforms(next, next, t);
      TailConforms(o', es, next);
    }
  }

  lemma TailConforms(o: Live, es: seq<Event>, next: Live)
    requires es != [] && Conformant(next, es[1..]) && (Acts(es[0]) ==> es[0].orderId != 0)
    requires forall i :: 0 <= i < |es| && InAddLane(es[i]) ==> es[i].orderId !in o
    requires Acts(es[0]) ==> es[0].orderId in next || NoAddOf(es[0].orderId, es[1..])
    ensures Conformant(o, es)
  {
    var t := es[1..];
    forall i | 0 <= i < |es|
      ensures Acts(es[i]) ==> es[i].orderId != 0
      ensures i > 0 && InAddLane(es[i]) && Acts(es[0]) ==> es[0].orderId != es[i].orderId
    {
      assert i > 0 ==> es[i] == t[i - 1];
    }
    forall i, j | 0 < j < i < |es| && InAddLane(es[i]) && Acts(es[j])
      ensures es[j].orderId != es[i].orderId
    {
      assert es[i] == t[i - 1] && es[j] == t[j - 1];
    }
  }

  /** Lanes and serial end alike if and only if no modify of the batch names a known order. */
  lemma LanesIff(cap: nat, v: View, es: seq<Event>, bids: set<U64>, asks: set<U64>)
    requires Tallied(v) && Batch(v.orders.Keys, es) && PeakFits(cap, v, es, bids, asks)
    ensures InLanes(cap, v, es) == Run(cap, v, es) <==> !Rebinds(v.orders.Keys, es)
  {
    if Rebinds(v.orders.Keys, es) {
      RebindDiffers(cap, v, es, bids, asks);
    } else {
      BatchConforms(v.orders, v.orders, es);
      LanesMatchSerial(cap, v, es, bids, asks);
    }
  }

  /** The documented input contract: a new id per add, and cancels, modifies and trades of known orders only. */
  predicate ItchConformant(known: set<U64>, es: seq<Event>)
    decreases es
  {
    es == []
    || (&& (Acts(es[0]) ==> es[0].orderId != 0 && (es[0].eventType == 1 <==> es[0].orderId !in known))
        && ItchConformant(Learn(known, es[0]), es[1..]))
  }

  predicate HasModify(es: seq<Event>) {
    exists i :: 0 <= i < |es| && es[i].eventType == 3
  }

  lemma {:induction false} ItchIsBatch(known: set<U64>, es: seq<Event>)
    requires ItchConformant(known, es)
    ensures Batch(known, es) && (Rebinds(known, es) <==> HasModify(es))
    decreases es
  {
    if es != [] {
      ItchIsBatch(Learn(known, es[0]), es[1..]);
      assert HasModify(es[1..]) ==> HasModify(es) by {
        if i :| 0 <= i < |es| - 1 && es[1..][i].eventType == 3 {
          assert es[i + 1].eventType == 3;
        }
      }
      assert HasModify(es) ==> es[0].eventType == 3 || HasModify(es[1..]) by {
        if i :| 0 < i < |es| && es[i].eventType == 3 {
          assert es[1..][i - 1].eventType == 3;
        }
      }
    }
  }

  /** On the documented inputs the documented equivalence holds if and only if the batch has no modify at all. */
  lemma ItchLanesIff(cap: nat, v: View, es: seq<Event>, bids: set<U64>, asks: set<U64>)
    requires Tallied(v) && ItchConformant(v.orders.Keys, es) && PeakFits(cap, v, es, bids, asks)
    ensures InLanes(cap, v, es) == Run(cap, v, es) <==> !HasModify(es)
  {
    ItchIsBatch(v.orders.Keys, es);
    LanesIff(cap, v, es, bids, asks);
  }

  /** The same of the hot book's own orders and ladders. */
  lemma HotLanesIff(cap: nat, h: HotState, es: seq<Event>, bids: set<U64>, asks: set<U64>)
    requires Sound(cap, h)
    requires var v := ArrayBook.ViewOf(BookOf(h));
             Tallied(v) && ItchConformant(v.orders.Keys, es) && PeakFits(cap, v, es, bids, asks)
    ensures ArrayBook.ViewOf(BookOf(HotLanes(cap, h, es).0)) == ArrayBook.ViewOf(BookOf(HotRun(cap, h, es)))
            <==> !HasModify(es)
  {
    LanesProject(cap, h, es);
    ItchLanesIff(cap, ArrayBook.ViewOf(BookOf(h)), es, bids, asks);
  }

  lemma EmptyIsTallied()
    ensures Tallied(EMPTY_VIEW)
  {
    EmptyIsConserved();
    ConservedIsTallied(EMPTY_VIEW);
  }

  /** Every hot book that a stream of identified events has built, modifies and reused ids included, is such a book. */
  lemma HotLanesAfterStreamIff(cap: nat, before: seq<Event>, es: seq<Event>, bids: set<U64>, asks: set<U64>)
    requires Identified(before)
    requires var v := Run(cap, EMPTY_VIEW, before);
             ItchConformant(v.orders.Keys, es) && PeakFits(cap, v, es, bids, asks)
    ensures var h := HotRun(cap, EMPTY_HOT, before);
            && Sound(cap, h)
            && (ArrayBook.ViewOf(BookOf(HotLanes(cap, h, es).0)) == ArrayBook.ViewOf(BookOf(HotRun(cap, h, es)))
                <==> !HasModify(es))
  {
    EmptyIsTallied();
    TalliedStays(cap, EMPTY_VIEW, before);
    LanesProject(cap, EMPTY_HOT, before);
    assert BookOf(EMPTY_HOT) == ArrayBook.EMPTY_BOOK && ArrayBook.ViewOf(ArrayBook.EMPTY_BOOK) == EMPTY_VIEW;
    HotLanesIff(cap, HotRun(cap, EMPTY_HOT, before), es, bids, asks);
  }

  /** An order of 5 and its modify to 3, in one batch: serially two of the old units are left on the level, in lanes
      all five. */
  lemma ModifiedInBatch()
    ensures var es := [Event(0, 100, 5, 1, 0, 1, 0), Event(0, 100, 3, 1, 0, 3, 0)];
            && ItchConformant({}, es)
            && Run(1, EMPTY_VIEW, es).bids == map[100 := Level(100, 5, 2)]
            && InLanes(1, EMPTY_VIEW, es).bids == map[100 := Level(100, 8, 2)]
  {
  }
}
