/** Where conservation fails: what a level holds beyond its live orders, and which events add to it. */
module Surplus {
  import opened Events
  import opened Ladder
  import opened BookView
  import opened Conservation

  predicate WellFormedAt(g: Grid, p: U64) {
    p in g ==> g[p].price == p && g[p].count > 0
  }

  /** The level at `p` holds `q` units in `n` orders; there is none when both are 0. */
  predicate Holds(g: Grid, p: U64, q: nat, n: nat) {
    WellFormedAt(g, p) && if p in g then g[p].qty == q && g[p].count == n else q == 0 && n == 0
  }

  /** The level holds its live orders, `lq` units in `ln` orders, and an excess of `q` units in `n` orders. */
  ghost predicate Tallies(v: View, s: Side, p: U64, lq: nat, ln: nat, q: nat, n: nat) {
    && LiveQty(v.orders, s, p) == lq && LiveCount(v.orders, s, p) == ln
    && Holds(v.On(s), p, lq + q, ln + n) && (n == 0 ==> q == 0)
  }

  /** At this side and price the book holds its live orders and an excess of `q` units in `n` orders. Quantity stays
      behind only together with an order. */
  ghost predicate Excess(v: View, s: Side, p: U64, q: nat, n: nat) {
    exists lq, ln :: Tallies(v, s, p, lq, ln, q, n)
  }

  /** Every level holds its live orders and some excess. */
  ghost predicate Tallied(v: View) {
    forall s, p :: TalliedAt(v, s, p)
  }

  ghost predicate TalliedAt(v: View, s: Side, p: U64) {
    exists q, n :: Excess(v, s, p, q, n)
  }

  lemma ExcessIsUnique(v: View, s: Side, p: U64, q: nat, n: nat, q': nat, n': nat)
    requires Excess(v, s, p, q, n) && Excess(v, s, p, q', n')
    ensures q == q' && n == n'
  {
  }

  lemma ExactIff(v: View, s: Side, p: U64)
    ensures Exact(v, s, p) <==> Excess(v, s, p, 0, 0)
  {
    var lq, ln := LiveQty(v.orders, s, p), LiveCount(v.orders, s, p);
    NoOrderNoQty(v.orders, s, p);
    assert Exact(v, s, p) <==> Tallies(v, s, p, lq, ln, 0, 0);
  }

  lemma ExcessIsNotExact(v: View, s: Side, p: U64, q: nat, n: nat)
    requires Excess(v, s, p, q, n)
    ensures Exact(v, s, p) <==> n == 0
  {
    ExactIff(v, s, p);
    if Excess(v, s, p, 0, 0) {
      ExcessIsUnique(v, s, p, q, n, 0, 0);
    }
  }

  // ---------------------------------------------------------------- reducing a live order

  /** `r` units in `m` orders are the rest of the live orders. */
  lemma DrawHolds(g: Grid, p: U64, o: nat, d: nat, r: nat, m: nat, q: nat, n: nat)
    requires Holds(g, p, o + r + q, 1 + m + n) && d <= o && (m == 0 ==> r == 0) && (n == 0 ==> q == 0)
    ensures Holds(GridDeduct(g, p, d, d == o), p, o - d + r + q, (if d == o then 0 else 1) + m + n)
  {
  }

  lemma DrawElsewhere(g: Grid, p: U64, k: U64, d: nat, release: bool, q: nat, n: nat)
    requires k != p && Holds(g, p, q, n)
    ensures Holds(GridDeduct(g, k, d, release), p, q, n)
  {
  }

  lemma StruckTallies(v: View, w: View, id: U64, d: nat, s: Side, p: U64, lq: nat, ln: nat, q: nat, n: nat)
    requires Tallies(v, s, p, lq, ln, q, n) && id in v.orders && d <= v.orders[id].qty
    requires w.orders == Struck(v.orders, id, d)
    requires var o := v.orders[id]; w.On(s) == if o.side == s then GridDeduct(v.On(s), o.price, d, d == o.qty) else v.On(s)
    ensures Excess(w, s, p, q, n)
  {
    var o := v.orders[id];
    var r, m := LiveQty(v.orders - {id}, s, p), LiveCount(v.orders - {id}, s, p);
    LiveTake(v.orders, s, p, id);
    LiveAfterStrike(v.orders, id, d, s, p, r, m);
    NoOrderNoQty(v.orders - {id}, s, p);
    if o.side == s && o.price == p {
      DrawHolds(v.On(s), p, o.qty, d, r, m, q, n);
      assert Tallies(w, s, p, o.qty - d + r, (if d == o.qty then 0 else 1) + m, q, n);
    } else {
      if o.side == s {
        DrawElsewhere(v.On(s), p, o.price, d, d == o.qty, lq + q, ln + n);
      }
      assert Tallies(w, s, p, r, m, q, n);
    }
  }

  /** Reducing or removing a live order leaves every excess as it was. */
  lemma StrikeKeepsExcess(v: View, id: U64, d: nat, s: Side, p: U64, q: nat, n: nat)
    requires Excess(v, s, p, q, n) && id in v.orders && d <= v.orders[id].qty
    ensures Excess(Strike(v, id, d), s, p, q, n)
  {
    var lq, ln :| Tallies(v, s, p, lq, ln, q, n);
    StrikeGrid(v, id, d, s);
    StruckTallies(v, Strike(v, id, d), id, d, s, p, lq, ln, q, n);
  }

  // ---------------------------------------------------------------- placing an order

  lemma AddHolds(g: Grid, h: Grid, o: Order, s: Side, p: U64, q: nat, n: nat)
    requires Holds(g, p, q, n) && h == if s == o.side then GridAdd(g, o.price, o.qty) else g
    ensures Holds(h, p, Units(o, s, p) + q, One(o, s, p) + n)
  {
  }

  /** `aq` units in `an` orders are abandoned; `r` units in `m` orders stay live. */
  lemma PlacedTallies(v: View, w: View, x: Order, s: Side, p: U64, q: nat, n: nat, aq: nat, an: nat, r: nat, m: nat)
    requires Holds(v.On(s), p, aq + r + q, an + m + n) && (n == 0 ==> q == 0) && (an == 0 ==> aq == 0)
    requires w.On(s) == if s == x.side then GridAdd(v.On(s), x.price, x.qty) else v.On(s)
    requires LiveQty(w.orders, s, p) == Units(x, s, p) + r && LiveCount(w.orders, s, p) == One(x, s, p) + m
    ensures Excess(w, s, p, q + aq, n + an)
  {
    AddHolds(v.On(s), w.On(s), x, s, p, aq + r + q, an + m + n);
    assert Tallies(w, s, p, Units(x, s, p) + r, One(x, s, p) + m, q + aq, n + an);
  }

  /** Placing an order adds what its id abandons, and nothing else. */
  lemma PlaceAddsExcess(v: View, e: Event, s: Side, p: U64, q: nat, n: nat, aq: nat, an: nat)
    requires Excess(v, s, p, q, n)
    requires aq == AbandonedUnits(v.orders, e.orderId, s, p) && an == AbandonedOrders(v.orders, e.orderId, s, p)
    ensures Excess(Placed(v, e), s, p, q + aq, n + an)
  {
    var lq, ln :| Tallies(v, s, p, lq, ln, q, n);
    PlaceGrid(v, e, s);
    var x, id := Order(e.price, e.qty, SideOf(e.side)), e.orderId;
    TakeAbandoned(v.orders, id, s, p);
    LivePut(v.orders, s, p, id, x);
    PlacedTallies(v, Placed(v, e), x, s, p, q, n, aq, an, LiveQty(v.orders - {id}, s, p), LiveCount(v.orders - {id}, s, p));
  }

  // ---------------------------------------------------------------- single events

  /** The orders an accepted add or modify finds when it places its own; none when nothing is placed. */
  function Finds(cap: nat, v: View, e: Event): map<U64, Order> {
    match TypeOf(e.eventType)
    case Some(OrderAdd) => if Fits(cap, v.On(SideOf(e.side)), e.price) then v.orders else map[]
    case Some(OrderModify) =>
      if Fits(cap, Cancel(v, e).0.On(SideOf(e.side)), e.price) then Cancel(v, e).0.orders else map[]
    case _ => map[]
  }

  /** What an event leaves behind at a price. */
  predicate Spills(cap: nat, v: View, e: Event, s: Side, p: U64, aq: nat, an: nat) {
    && aq == AbandonedUnits(Finds(cap, v, e), e.orderId, s, p)
    && an == AbandonedOrders(Finds(cap, v, e), e.orderId, s, p)
  }

  lemma CancelKeepsExcess(v: View, e: Event, s: Side, p: U64, q: nat, n: nat)
    requires Excess(v, s, p, q, n) && e.orderId != 0
    ensures Excess(Cancel(v, e).0, s, p, q, n)
  {
    if e.orderId in v.orders {
      StrikeKeepsExcess(v, e.orderId, CancelQty(v.orders[e.orderId].qty, e.qty), s, p, q, n);
    }
  }

  lemma ExecuteKeepsExcess(v: View, e: Event, s: Side, p: U64, q: nat, n: nat)
    requires Excess(v, s, p, q, n) && e.orderId != 0
    ensures Excess(Execute(v, e).0, s, p, q, n)
  {
    if e.orderId in v.orders {
      StrikeKeepsExcess(v, e.orderId, Min(e.qty, v.orders[e.orderId].qty), s, p, q, n);
    }
  }

  lemma AddPlaces(cap: nat, v: View, e: Event)
    requires e.orderId != 0
    ensures Add(cap, v, e).0 == if Fits(cap, v.On(SideOf(e.side)), e.price) then Placed(v, e) else v
  {
  }

  lemma AddAddsExcess(cap: nat, v: View, e: Event, s: Side, p: U64, q: nat, n: nat, aq: nat, an: nat)
    requires Excess(v, s, p, q, n) && e.orderId != 0
    requires var o := if Fits(cap, v.On(SideOf(e.side)), e.price) then v.orders else map[];
             aq == AbandonedUnits(o, e.orderId, s, p) && an == AbandonedOrders(o, e.orderId, s, p)
    ensures Excess(Add(cap, v, e).0, s, p, q + aq, n + an)
  {
    AddPlaces(cap, v, e);
    if Fits(cap, v.On(SideOf(e.side)), e.price) {
      PlaceAddsExcess(v, e, s, p, q, n, aq, an);
    }
  }

  /** The account of one identified event, at one price. */
  lemma ApplyAddsExcess(cap: nat, v: View, e: Event, s: Side, p: U64, q: nat, n: nat, aq: nat, an: nat)
    requires Excess(v, s, p, q, n) && e.orderId != 0 && Spills(cap, v, e, s, p, aq, an)
    ensures Excess(Apply(cap, v, e).0, s, p, q + aq, n + an)
  {
    match TypeOf(e.eventType) {
      case Some(OrderAdd) => AddAddsExcess(cap, v, e, s, p, q, n, aq, an);
      case Some(OrderCancel) => CancelKeepsExcess(v, e, s, p, q, n);
      case Some(OrderModify) =>
        CancelKeepsExcess(v, e, s, p, q, n);
        AddAddsExcess(cap, Cancel(v, e).0, e, s, p, q, n, aq, an);
      case Some(Trade) => ExecuteKeepsExcess(v, e, s, p, q, n);
      case _ =>
    }
  }

  // ---------------------------------------------------------------- exactly when conservation survives

  /** An event with an id: an accepted add or modify must not rebind a live order. The cancel half of a modify has removed
      the order if the event's quantity is 0 or at least the residual. */
  predicate IdentifiedKeeps(cap: nat, v: View, e: Event) {
    match TypeOf(e.eventType)
    case Some(OrderAdd) => e.orderId !in v.orders || !Fits(cap, v.On(SideOf(e.side)), e.price)
    case Some(OrderModify) =>
      || e.orderId !in v.orders || e.qty == 0 || e.qty >= v.orders[e.orderId].qty
      || !Fits(cap, Cancel(v, e).0.On(SideOf(e.side)), e.price)
    case _ => true
  }

  /** Id 0 names no order, so the level must come out as it was. */
  predicate AnonymousKeeps(cap: nat, v: View, e: Event) {
    var g, p := v.On(SideOf(e.side)), e.price;
    match TypeOf(e.eventType)
    case Some(OrderAdd) => !Fits(cap, g, p)
    case Some(OrderCancel) => p !in g
    case Some(OrderModify) =>
      if p in g then
        Fits(cap, Cancel(v, e).0.On(SideOf(e.side)), p) && if g[p].count > 1 then e.qty <= g[p].qty else e.qty == g[p].qty
      else !Fits(cap, g, p)
    case Some(Trade) => p in g ==> e.qty == 0 && g[p].qty > 0
    case _ => true
  }

  /** Readable off the book and the event before the event is applied. */
  predicate Keeps(cap: nat, v: View, e: Event) {
    if e.orderId == 0 then AnonymousKeeps(cap, v, e) else IdentifiedKeeps(cap, v, e)
  }

  lemma KeepsFindsNothing(cap: nat, v: View, e: Event)
    requires e.orderId != 0
    ensures IdentifiedKeeps(cap, v, e) <==> e.orderId !in Finds(cap, v, e)
  {
  }

  lemma SpillsExactly(cap: nat, v: View, e: Event, s: Side, p: U64, aq: nat, an: nat)
    requires Excess(v, s, p, 0, 0) && e.orderId != 0 && Spills(cap, v, e, s, p, aq, an)
    ensures Exact(Apply(cap, v, e).0, s, p) <==> an == 0
  {
    ApplyAddsExcess(cap, v, e, s, p, 0, 0, aq, an);
    ExcessIsNotExact(Apply(cap, v, e).0, s, p, 0 + aq, 0 + an);
  }

  /** At one price the book stays exact exactly when nothing is spilt there. */
  lemma ExactStaysIff(cap: nat, v: View, e: Event, s: Side, p: U64)
    requires Exact(v, s, p) && e.orderId != 0
    ensures Exact(Apply(cap, v, e).0, s, p) <==> AbandonedOrders(Finds(cap, v, e), e.orderId, s, p) == 0
  {
    var o := Finds(cap, v, e);
    ExactIff(v, s, p);
    SpillsExactly(cap, v, e, s, p, AbandonedUnits(o, e.orderId, s, p), AbandonedOrders(o, e.orderId, s, p));
  }

  lemma IdentifiedKeepsIff(cap: nat, v: View, e: Event)
    requires Conserved(v) && e.orderId != 0
    ensures Conserved(Apply(cap, v, e).0) <==> IdentifiedKeeps(cap, v, e)
  {
    var o := Finds(cap, v, e);
    KeepsFindsNothing(cap, v, e);
    forall s, p
      ensures Exact(Apply(cap, v, e).0, s, p) <==> AbandonedOrders(o, e.orderId, s, p) == 0
    {
      assert Exact(v, s, p);
      ExactStaysIff(cap, v, e, s, p);
    }
    if e.orderId in o {
      AbandonedAt(o, e.orderId);
    }
  }

  /** With the orders unchanged, conservation survives exactly when the levels are unchanged. */
  lemma SameOrders(v: View, w: View)
    requires Conserved(v) && w.orders == v.orders
    ensures Conserved(w) <==> w == v
  {
    if Conserved(w) {
      ConservedGridsAgree(v, w);
    }
  }

  lemma AddChanges(g: Grid, p: U64, q: nat)
    ensures GridAdd(g, p, q) != g
  {
    assert p in g ==> GridAdd(g, p, q)[p].count == g[p].count + 1;
    assert p !in g ==> p in GridAdd(g, p, q);
  }

  lemma DeductChanges(g: Grid, p: U64, q: nat)
    requires WellFormedAt(g, p)
    ensures GridDeduct(g, p, q, true) == g <==> p !in g
    ensures GridDeductAnon(g, p, q) == g <==> (p in g ==> q == 0 && g[p].qty > 0)
  {
    if p in g {
      assert g[p].count > 1 ==> GridDeduct(g, p, q, true)[p].count == g[p].count - 1;
      var h := GridDeductAnon(g, p, q);
      if SaturatingSub(g[p].qty, q) == 0 {
        assert p in h ==> h[p].count == g[p].count - 1;
      } else {
        assert h == g[p := g[p].(qty := SaturatingSub(g[p].qty, q))];
        assert q == 0 ==> h == g;
        assert h[p].qty == SaturatingSub(g[p].qty, q);
      }
    }
  }

  /** Taking `q` off a level and putting it back restores the level when it held as much. */
  lemma ReplaceChanges(cap: nat, g: Grid, p: U64, q: nat)
    requires WellFormedAt(g, p)
    ensures var h := GridDeduct(g, p, q, true);
            (if Fits(cap, h, p) then GridAdd(h, p, q) else h) == g
            <==> if p in g then Fits(cap, h, p) && if g[p].count > 1 then q <= g[p].qty else q == g[p].qty
                 else !Fits(cap, g, p)
  {
    var h := GridDeduct(g, p, q, true);
    DeductChanges(g, p, q);
    if p in g {
      var r := GridAdd(h, p, q);
      assert r.Keys == g.Keys && forall k :: k in g && k != p ==> r[k] == g[k];
      assert r == g <==> r[p] == g[p];
    } else {
      assert h == g;
      AddChanges(g, p, q);
    }
  }

  lemma AnonymousSides(cap: nat, v: View, e: Event)
    requires e.orderId == 0
    ensures var w, side := Apply(cap, v, e).0, SideOf(e.side);
            && w.orders == v.orders
            && (w == v <==> w.On(side) == v.On(side))
  {
  }

  lemma AnonymousKeepsIff(cap: nat, v: View, e: Event)
    requires Conserved(v) && e.orderId == 0
    ensures Conserved(Apply(cap, v, e).0) <==> AnonymousKeeps(cap, v, e)
  {
    var g := v.On(SideOf(e.side));
    AnonymousSides(cap, v, e);
    SameOrders(v, Apply(cap, v, e).0);
    assert Exact(v, SideOf(e.side), e.price);
    AnonymousChanges(cap, v, e);
  }

  lemma AnonymousChanges(cap: nat, v: View, e: Event)
    requires e.orderId == 0 && WellFormedAt(v.On(SideOf(e.side)), e.price)
    ensures Apply(cap, v, e).0.On(SideOf(e.side)) == v.On(SideOf(e.side)) <==> AnonymousKeeps(cap, v, e)
  {
    var g := v.On(SideOf(e.side));
    match TypeOf(e.eventType) {
      case Some(OrderAdd) => AddChanges(g, e.price, e.qty);
      case Some(OrderCancel) => DeductChanges(g, e.price, e.qty);
      case Some(OrderModify) => ReplaceChanges(cap, g, e.price, e.qty);
      case Some(Trade) => DeductChanges(g, e.price, e.qty);
      case _ =>
    }
  }

  /** Exact conservation survives an event, of any type, id and side, if and only if `Keeps`. */
  lemma StepConservesIff(cap: nat, v: View, e: Event)
    requires Conserved(v)
    ensures Conserved(Apply(cap, v, e).0) <==> Keeps(cap, v, e)
  {
    if e.orderId == 0 {
      AnonymousKeepsIff(cap, v, e);
    } else {
      IdentifiedKeepsIff(cap, v, e);
    }
  }

  // ---------------------------------------------------------------- streams

  ghost predicate ConservedThroughout(cap: nat, v: View, es: seq<Event>)
    decreases es
  {
    Conserved(v) && (es == [] || ConservedThroughout(cap, Apply(cap, v, es[0]).0, es[1..]))
  }

  predicate KeepsThroughout(cap: nat, v: View, es: seq<Event>)
    decreases es
  {
    es == [] || (Keeps(cap, v, es[0]) && KeepsThroughout(cap, Apply(cap, v, es[0]).0, es[1..]))
  }

  /** Conserved after every prefix, if and only if every event keeps. */
  lemma {:induction false} ThroughoutIff(cap: nat, v: View, es: seq<Event>)
    requires Conserved(v)
    ensures ConservedThroughout(cap, v, es) <==> KeepsThroughout(cap, v, es)
    decreases es
  {
    if es != [] {
      StepConservesIff(cap, v, es[0]);
      if Keeps(cap, v, es[0]) {
        ThroughoutIff(cap, Apply(cap, v, es[0]).0, es[1..]);
      }
    }
  }

  ghost predicate Identified(es: seq<Event>) {
    forall i :: 0 <= i < |es| ==> es[i].orderId != 0
  }

  /** Excess never shrinks: what is abandoned once stays. */
  lemma {:induction false} ExcessStays(cap: nat, v: View, es: seq<Event>, s: Side, p: U64, q: nat, n: nat)
      returns (q': nat, n': nat)
    requires Excess(v, s, p, q, n) && Identified(es)
    ensures Excess(Run(cap, v, es), s, p, q', n') && q' >= q && n' >= n
    decreases es
  {
    if es == [] {
      q', n' := q, n;
    } else {
      var o := Finds(cap, v, es[0]);
      var aq, an := AbandonedUnits(o, es[0].orderId, s, p), AbandonedOrders(o, es[0].orderId, s, p);
      ApplyAddsExcess(cap, v, es[0], s, p, q, n, aq, an);
      q', n' := ExcessStays(cap, Apply(cap, v, es[0]).0, es[1..], s, p, q + aq, n + an);
    }
  }

  lemma AbandonedAt(o: map<U64, Order>, id: U64)
    requires id in o
    ensures AbandonedUnits(o, id, o[id].side, o[id].price) == o[id].qty
    ensures AbandonedOrders(o, id, o[id].side, o[id].price) == 1
  {
  }

  lemma ConservedAt(v: View, s: Side, p: U64)
    requires Conserved(v)
    ensures Excess(v, s, p, 0, 0)
  {
    assert Exact(v, s, p);
    ExactIff(v, s, p);
  }

  lemma ConservedIsTallied(v: View)
    requires Conserved(v)
    ensures Tallied(v)
  {
    forall s, p
      ensures TalliedAt(v, s, p)
    {
      ConservedAt(v, s, p);
    }
  }

  /** Every stream of identified events leads from tallied books to tallied books. */
  lemma TalliedStays(cap: nat, v: View, es: seq<Event>)
    requires Tallied(v) && Identified(es)
    ensures Tallied(Run(cap, v, es))
  {
    forall s, p
      ensures TalliedAt(Run(cap, v, es), s, p)
    {
      assert TalliedAt(v, s, p);
      var q, n :| Excess(v, s, p, q, n);
      var q', n' := ExcessStays(cap, v, es, s, p, q, n);
    }
  }

  lemma SameLevels(v: View, w: View, s: Side, p: U64, q: nat, n: nat)
    requires v.orders == w.orders && Excess(v, s, p, q, n) && Excess(w, s, p, q, n)
    ensures (p in v.On(s) <==> p in w.On(s)) && (p in v.On(s) ==> v.On(s)[p] == w.On(s)[p])
  {
  }

  lemma NeverRepaired(cap: nat, v: View, es: seq<Event>)
    requires Conserved(v) && es != [] && Identified(es) && !IdentifiedKeeps(cap, v, es[0])
    ensures !Conserved(Run(cap, v, es))
  {
    KeepsFindsNothing(cap, v, es[0]);
    var o, id := Finds(cap, v, es[0]), es[0].orderId;
    var s, p := o[id].side, o[id].price;
    AbandonedAt(o, id);
    ConservedAt(v, s, p);
    SpillStays(cap, v, es, s, p, AbandonedUnits(o, id, s, p), AbandonedOrders(o, id, s, p));
    assert !Exact(Run(cap, v, es), s, p);
  }

  lemma SpillStays(cap: nat, v: View, es: seq<Event>, s: Side, p: U64, aq: nat, an: nat)
    requires es != [] && Identified(es) && Excess(v, s, p, 0, 0) && Spills(cap, v, es[0], s, p, aq, an)
    ensures an > 0 ==> !Exact(Run(cap, v, es), s, p)
  {
    ApplyAddsExcess(cap, v, es[0], s, p, 0, 0, aq, an);
    var q, n := ExcessStays(cap, Apply(cap, v, es[0]).0, es[1..], s, p, 0 + aq, 0 + an);
    ExcessIsNotExact(Run(cap, v, es), s, p, q, n);
  }

  /** A stream of identified events ends conserved if and only if every single event keeps: no later event repairs an
      earlier one. */
  lemma {:induction false} RunConservesIff(cap: nat, v: View, es: seq<Event>)
    requires Conserved(v) && Identified(es)
    ensures Conserved(Run(cap, v, es)) <==> KeepsThroughout(cap, v, es)
    decreases es
  {
    if es != [] {
      StepConservesIff(cap, v, es[0]);
      if Keeps(cap, v, es[0]) {
        RunConservesIff(cap, Apply(cap, v, es[0]).0, es[1..]);
      } else {
        NeverRepaired(cap, v, es);
      }
    }
  }

  /** An order of 5 modified with quantity 3: two units of nobody stay on the level. */
  lemma ModifyAbandons(cap: nat)
    requires cap > 0
    ensures var es := [Event(0, 100, 5, 1, 0, 1, 0), Event(0, 100, 3, 1, 0, 3, 0)];
            var v := Run(cap, EMPTY_VIEW, es);
            v.bids == map[100 := Level(100, 5, 2)] && v.orders == map[1 := Order(100, 3, Bid)] && !Conserved(v)
  {
    var a, m := Event(0, 100, 5, 1, 0, 1, 0), Event(0, 100, 3, 1, 0, 3, 0);
    var v := Apply(cap, EMPTY_VIEW, a).0;
    assert v == View(map[100 := Level(100, 5, 1)], map[], map[1 := Order(100, 5, Bid)]);
    var w := Apply(cap, v, m).0;
    assert Cancel(v, m).0 == View(map[100 := Level(100, 2, 1)], map[], map[1 := Order(100, 2, Bid)]);
    assert w == View(map[100 := Level(100, 5, 2)], map[], map[1 := Order(100, 3, Bid)]);
    EmptyIsConserved();
    StepConservesIff(cap, EMPTY_VIEW, a);
    StepConservesIff(cap, v, m);
    assert [a, m][1..] == [m] && [m][1..] == [];
    assert Run(cap, EMPTY_VIEW, [a, m]) == Run(cap, v, [m]) == Run(cap, w, []);
  }
}
