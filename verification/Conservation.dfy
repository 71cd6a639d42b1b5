/** Conservation: what the live orders at a price say about the level there. */
module Conservation {
  import opened Events
  import opened Ladder
  import opened BookView

  /** What one order adds to the quantity and to the number of orders on side `s` at price `p`. */
  function Units(o: Order, s: Side, p: U64): nat {
    if o.side == s && o.price == p then o.qty else 0
  }

  function One(o: Order, s: Side, p: U64): nat {
    if o.side == s && o.price == p then 1 else 0
  }

  ghost function Pick(o: map<U64, Order>): (id: U64)
    requires |o| > 0
    ensures id in o
  {
    var id :| id in o;
    id
  }

  /** Total quantity of the live orders resting on side `s` at price `p`. */
  ghost function LiveQty(o: map<U64, Order>, s: Side, p: U64): nat
    decreases |o|
  {
    if |o| == 0 then 0 else Units(o[Pick(o)], s, p) + LiveQty(o - {Pick(o)}, s, p)
  }

  /** Their number. */
  ghost function LiveCount(o: map<U64, Order>, s: Side, p: U64): nat
    decreases |o|
  {
    if |o| == 0 then 0 else One(o[Pick(o)], s, p) + LiveCount(o - {Pick(o)}, s, p)
  }

  /** The choice of which order to count first does not matter. */
  lemma {:induction false} LiveTake(o: map<U64, Order>, s: Side, p: U64, id: U64)
    requires id in o
    ensures LiveQty(o, s, p) == Units(o[id], s, p) + LiveQty(o - {id}, s, p)
    ensures LiveCount(o, s, p) == One(o[id], s, p) + LiveCount(o - {id}, s, p)
    decreases |o|
  {
    var k := Pick(o);
    var a, b := o - {k}, o - {id};
    if k != id {
      LiveTake(a, s, p, id);
      LiveTake(b, s, p, k);
      assert a - {id} == b - {k};
    }
  }

  lemma LivePut(o: map<U64, Order>, s: Side, p: U64, id: U64, x: Order)
    ensures LiveQty(o[id := x], s, p) == Units(x, s, p) + LiveQty(o - {id}, s, p)
    ensures LiveCount(o[id := x], s, p) == One(x, s, p) + LiveCount(o - {id}, s, p)
  {
    LiveTake(o[id := x], s, p, id);
    assert o[id := x] - {id} == o - {id};
  }

  /** A level of exactly `q` units in `n` orders; none when there are no orders. */
  predicate ExactLevel(g: Grid, p: U64, q: nat, n: nat) {
    if p in g then n > 0 && g[p] == Level(p, q, n) else n == 0
  }

  /** A level of at least that. */
  predicate CoveringLevel(g: Grid, p: U64, q: nat, n: nat) {
    n > 0 ==> p in g && g[p].qty >= q && g[p].count >= n
  }

  /** The level at `p` is exactly its live orders, and there is one exactly when some order is live. */
  ghost predicate Exact(v: View, s: Side, p: U64) {
    ExactLevel(v.On(s), p, LiveQty(v.orders, s, p), LiveCount(v.orders, s, p))
  }

  /** The level at `p` holds at least its live orders. */
  ghost predicate Covered(v: View, s: Side, p: U64) {
    CoveringLevel(v.On(s), p, LiveQty(v.orders, s, p), LiveCount(v.orders, s, p))
  }

  ghost predicate Conserved(v: View) {
    forall s, p :: Exact(v, s, p)
  }

  ghost predicate Covers(v: View) {
    forall s, p :: Covered(v, s, p)
  }

  /** What striking a live order does to the live orders at its own price, where `r` units in `m` orders are the others. */
  lemma LiveAfterStrike(o: map<U64, Order>, id: U64, d: nat, s: Side, p: U64, r: nat, m: nat)
    requires id in o && d <= o[id].qty
    requires r == LiveQty(o - {id}, s, p) && m == LiveCount(o - {id}, s, p)
    ensures var x, w := o[id], Struck(o, id, d);
            if x.side == s && x.price == p then
              LiveQty(w, s, p) == x.qty - d + r && LiveCount(w, s, p) == (if d == x.qty then 0 else 1) + m
            else LiveQty(w, s, p) == r && LiveCount(w, s, p) == m
  {
    if d != o[id].qty {
      LivePut(o, s, p, id, o[id].(qty := o[id].qty - d));
    }
  }

  lemma StrikeGrid(v: View, id: U64, d: nat, s: Side)
    requires id in v.orders && d <= v.orders[id].qty
    ensures var o := v.orders[id];
            && Strike(v, id, d).On(s) == (if o.side == s then GridDeduct(v.On(s), o.price, d, d == o.qty) else v.On(s))
            && Strike(v, id, d).orders == Struck(v.orders, id, d)
  {
  }

  /** A draw that takes from the level what it takes from an order of `o` units, among `r` others in `m` orders. */
  lemma DrawKeepsLevel(g: Grid, p: U64, o: nat, d: nat, r: nat, m: nat)
    requires d <= o && (m == 0 ==> r == 0)
    ensures ExactLevel(g, p, o + r, 1 + m) ==>
              ExactLevel(GridDeduct(g, p, d, d == o), p, o - d + r, (if d == o then 0 else 1) + m)
    ensures CoveringLevel(g, p, o + r, 1 + m) ==>
              CoveringLevel(GridDeduct(g, p, d, d == o), p, o - d + r, (if d == o then 0 else 1) + m)
  {
  }

  lemma DrawElsewhereKeepsLevel(g: Grid, k: U64, d: nat, release: bool, p: U64, q: nat, n: nat)
    requires k != p
    ensures ExactLevel(GridDeduct(g, k, d, release), p, q, n) == ExactLevel(g, p, q, n)
    ensures CoveringLevel(GridDeduct(g, k, d, release), p, q, n) == CoveringLevel(g, p, q, n)
  {
  }

  /** One price on one side: a level that is, or covers, its orders still does after a draw that mirrors theirs. */
  lemma StrikeKeepsAt(v: View, id: U64, d: nat, s: Side, p: U64)
    requires id in v.orders && d <= v.orders[id].qty
    ensures Exact(v, s, p) ==> Exact(Strike(v, id, d), s, p)
    ensures Covered(v, s, p) ==> Covered(Strike(v, id, d), s, p)
  {
    var o, rest := v.orders[id], v.orders - {id};
    var r, m := LiveQty(rest, s, p), LiveCount(rest, s, p);
    LiveTake(v.orders, s, p, id);
    LiveAfterStrike(v.orders, id, d, s, p, r, m);
    NoOrderNoQty(rest, s, p);
    StrikeGrid(v, id, d, s);
    if o.side == s && o.price == p {
      DrawKeepsLevel(v.On(s), p, o.qty, d, r, m);
    } else if o.side == s {
      DrawElsewhereKeepsLevel(v.On(s), o.price, d, d == o.qty, p, r, m);
    }
  }

  lemma StrikeConserves(v: View, id: U64, d: nat)
    requires Conserved(v) && id in v.orders && d <= v.orders[id].qty
    ensures Conserved(Strike(v, id, d))
  {
    forall s, p
      ensures Exact(Strike(v, id, d), s, p)
    {
      assert Exact(v, s, p);
      StrikeKeepsAt(v, id, d, s, p);
    }
  }

  lemma StrikeCovers(v: View, id: U64, d: nat)
    requires Covers(v) && id in v.orders && d <= v.orders[id].qty
    ensures Covers(Strike(v, id, d))
  {
    forall s, p
      ensures Covered(Strike(v, id, d), s, p)
    {
      assert Covered(v, s, p);
      StrikeKeepsAt(v, id, d, s, p);
    }
  }

  function Placed(v: View, e: Event): View {
    var side := SideOf(e.side);
    v.With(side, GridAdd(v.On(side), e.price, e.qty)).(orders := v.orders[e.orderId := Order(e.price, e.qty, side)])
  }

  lemma PlaceGrid(v: View, e: Event, s: Side)
    ensures Placed(v, e).On(s) == if s == SideOf(e.side) then GridAdd(v.On(s), e.price, e.qty) else v.On(s)
    ensures Placed(v, e).orders == v.orders[e.orderId := Order(e.price, e.qty, SideOf(e.side))]
  {
  }

  /** The live units and orders that rebinding an id abandons on the level it rested on. */
  function AbandonedUnits(o: map<U64, Order>, id: U64, s: Side, p: U64): nat {
    if id in o then Units(o[id], s, p) else 0
  }

  function AbandonedOrders(o: map<U64, Order>, id: U64, s: Side, p: U64): nat {
    if id in o then One(o[id], s, p) else 0
  }

  lemma TakeAbandoned(o: map<U64, Order>, id: U64, s: Side, p: U64)
    ensures LiveQty(o, s, p) == AbandonedUnits(o, id, s, p) + LiveQty(o - {id}, s, p)
    ensures LiveCount(o, s, p) == AbandonedOrders(o, id, s, p) + LiveCount(o - {id}, s, p)
  {
    if id in o {
      LiveTake(o, s, p, id);
    } else {
      assert o - {id} == o;
    }
  }

  /** An order joins a level that was, or covered, `q` units in `n` orders. */
  lemma JoinKeepsLevel(g: Grid, h: Grid, x: Order, s: Side, p: U64, q: nat, n: nat)
    requires h == (if s == x.side then GridAdd(g, x.price, x.qty) else g) && (n == 0 ==> q == 0)
    ensures ExactLevel(g, p, q, n) ==> ExactLevel(h, p, Units(x, s, p) + q, One(x, s, p) + n)
    ensures CoveringLevel(g, p, q, n) ==> CoveringLevel(h, p, Units(x, s, p) + q, One(x, s, p) + n)
  {
  }

  lemma CoversLess(g: Grid, p: U64, q: nat, n: nat, q': nat, n': nat)
    requires CoveringLevel(g, p, q, n) && q' <= q && n' <= n
    ensures CoveringLevel(g, p, q', n')
  {
  }

  /** One price on one side: with a fresh id an exact level stays exact; a covering one covers with any id. */
  lemma PlaceKeepsAt(v: View, e: Event, s: Side, p: U64)
    ensures Exact(v, s, p) && e.orderId !in v.orders ==> Exact(Placed(v, e), s, p)
    ensures Covered(v, s, p) ==> Covered(Placed(v, e), s, p)
  {
    var x, id := Order(e.price, e.qty, SideOf(e.side)), e.orderId;
    var q, n := LiveQty(v.orders, s, p), LiveCount(v.orders, s, p);
    PlaceGrid(v, e, s);
    TakeAbandoned(v.orders, id, s, p);
    LivePut(v.orders, s, p, id, x);
    NoOrderNoQty(v.orders, s, p);
    JoinKeepsLevel(v.On(s), Placed(v, e).On(s), x, s, p, q, n);
    if Covered(v, s, p) {
      CoversLess(Placed(v, e).On(s), p, Units(x, s, p) + q, One(x, s, p) + n,
                 LiveQty(Placed(v, e).orders, s, p), LiveCount(Placed(v, e).orders, s, p));
    }
  }

  /** No order, no quantity. */
  lemma {:induction false} NoOrderNoQty(o: map<U64, Order>, s: Side, p: U64)
    ensures LiveCount(o, s, p) == 0 ==> LiveQty(o, s, p) == 0
    decreases |o|
  {
    if |o| > 0 {
      NoOrderNoQty(o - {Pick(o)}, s, p);
    }
  }

  lemma PlacedConserves(v: View, e: Event)
    requires Conserved(v) && e.orderId !in v.orders
    ensures Conserved(Placed(v, e))
  {
    var w := Placed(v, e);
    forall s, p
      ensures Exact(w, s, p)
    {
      assert Exact(v, s, p);
      PlaceKeepsAt(v, e, s, p);
    }
  }

  lemma PlacedCovers(v: View, e: Event)
    requires Covers(v)
    ensures Covers(Placed(v, e))
  {
    var w := Placed(v, e);
    forall s, p
      ensures Covered(w, s, p)
    {
      assert Covered(v, s, p);
      PlaceKeepsAt(v, e, s, p);
    }
  }

  /** No deduction ever exceeds the level it is taken from, and the level has an order to give:
      neither `saturating_sub` can saturate. */
  lemma NoSaturation(v: View, id: U64, d: nat)
    requires Covers(v) && id in v.orders && d <= v.orders[id].qty
    ensures var o := v.orders[id];
            o.price in v.On(o.side) && v.On(o.side)[o.price].qty >= d && v.On(o.side)[o.price].count >= 1
  {
    var o := v.orders[id];
    LiveTake(v.orders, o.side, o.price, id);
    assert Covered(v, o.side, o.price);
  }

  /** Exact conservation, for every depth, over Add (fresh id), Cancel and Trade. A refused Add changes nothing. */
  ghost predicate Fresh(v: View, e: Event) {
    && e.orderId != 0
    && TypeOf(e.eventType) != Some(OrderModify)
    && (TypeOf(e.eventType) == Some(OrderAdd) ==> e.orderId !in v.orders)
  }

  lemma StepConserves(cap: nat, v: View, e: Event)
    requires Conserved(v) && Fresh(v, e)
    ensures Conserved(Apply(cap, v, e).0)
  {
    match TypeOf(e.eventType) {
      case Some(OrderAdd) =>
        PlacedConserves(v, e);
      case Some(OrderCancel) =>
        if e.orderId in v.orders {
          StrikeConserves(v, e.orderId, CancelQty(v.orders[e.orderId].qty, e.qty));
        }
      case Some(Trade) =>
        if e.orderId in v.orders {
          StrikeConserves(v, e.orderId, Min(e.qty, v.orders[e.orderId].qty));
        }
      case _ =>
    }
  }

  lemma CancelCovers(v: View, e: Event)
    requires Covers(v) && e.orderId != 0
    ensures Covers(Cancel(v, e).0)
  {
    if e.orderId in v.orders {
      StrikeCovers(v, e.orderId, CancelQty(v.orders[e.orderId].qty, e.qty));
    }
  }

  /** With modifies and reused ids a level may keep more than its live orders, never less. */
  lemma StepCovers(cap: nat, v: View, e: Event)
    requires Covers(v) && e.orderId != 0
    ensures Covers(Apply(cap, v, e).0)
  {
    match TypeOf(e.eventType) {
      case Some(OrderAdd) =>
        PlacedCovers(v, e);
      case Some(OrderCancel) =>
        CancelCovers(v, e);
      case Some(OrderModify) =>
        CancelCovers(v, e);
        PlacedCovers(Cancel(v, e).0, e);
      case Some(Trade) =>
        if e.orderId in v.orders {
          StrikeCovers(v, e.orderId, Min(e.qty, v.orders[e.orderId].qty));
        }
      case _ =>
    }
  }

  /** The reference book covers its live orders after any event at all, id 0 included. */
  lemma RefStepCovers(v: View, e: Event)
    requires Covers(v)
    ensures Covers(RefApply(v, e).0)
  {
    var c := RefCancel(v, e).0;
    if e.orderId in v.orders {
      StrikeCovers(v, e.orderId, CancelQty(v.orders[e.orderId].qty, e.qty));
      StrikeCovers(v, e.orderId, Min(e.qty, v.orders[e.orderId].qty));
    }
    PlacedCovers(v, e);
    PlacedCovers(c, e);
  }

  lemma EmptyIsConserved()
    ensures Conserved(EMPTY_VIEW) && Covers(EMPTY_VIEW)
  {
  }

  ghost predicate FreshRun(cap: nat, v: View, es: seq<Event>)
    decreases es
  {
    es == [] || (Fresh(v, es[0]) && FreshRun(cap, Apply(cap, v, es[0]).0, es[1..]))
  }

  /** After every stream of fresh adds, cancels and trades each level is exactly its live orders. */
  lemma {:induction false} RunConserves(cap: nat, v: View, es: seq<Event>)
    requires Conserved(v) && FreshRun(cap, v, es)
    ensures Conserved(Run(cap, v, es))
    decreases es
  {
    if es != [] {
      StepConserves(cap, v, es[0]);
      RunConserves(cap, Apply(cap, v, es[0]).0, es[1..]);
    }
  }

  /** After every stream of identified events each level holds at least its live orders. */
  lemma {:induction false} RunCovers(cap: nat, v: View, es: seq<Event>)
    requires Covers(v) && forall i :: 0 <= i < |es| ==> es[i].orderId != 0
    ensures Covers(Run(cap, v, es))
    decreases es
  {
    if es != [] {
      StepCovers(cap, v, es[0]);
      RunCovers(cap, Apply(cap, v, es[0]).0, es[1..]);
    }
  }

  /** Conserved books with the same live orders have the same grids. */
  lemma ConservedGridsAgree(v: View, w: View)
    requires Conserved(v) && Conserved(w) && v.orders == w.orders
    ensures v == w
  {
    forall s, p
      ensures p in v.On(s) <==> p in w.On(s)
      ensures p in v.On(s) ==> v.On(s)[p] == w.On(s)[p]
    {
      assert Exact(v, s, p) && Exact(w, s, p);
    }
    assert v.On(Bid) == w.On(Bid) && v.On(Ask) == w.On(Ask);
  }
}
