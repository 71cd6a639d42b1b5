/** The flash-crash detector's mini book against the reference order book: exactly which events keep the detector's order
    tracker and levels in step with the reference book's orders and quantities (chaos/src/order_tracker.rs,
    chaos/src/flash_crash.rs, core/src/orderbook.rs). */
module DetectorShadow {
  import opened Events
  import opened Ladder
  import opened BookView
  import opened Conservation
  import opened Surplus
  import F = FlashCrash

  /** Same live orders, same residuals. */
  ghost predicate Tracks(o: F.Orders, live: map<U64, Order>) {
    && o.Keys == live.Keys
    && forall id :: id in o ==> live[id] == Order(o[id].price, o[id].qty, o[id].side)
  }

  /** Same prices, same quantities. */
  ghost predicate Shows(m: F.Depth, g: Grid) {
    m.Keys == g.Keys && forall p :: p in m ==> m[p] == g[p].qty
  }

  ghost predicate Mirrors(d: F.Detector, v: View) {
    Tracks(d.orders, v.orders) && Shows(d.book.bids, v.bids) && Shows(d.book.asks, v.asks)
  }

  // ---------------------------------------------------------------- which events it follows

  /** Levels hold their live orders; id 0 is not in use; the sides are within the limit. */
  ghost predicate Steady(c: F.Config, v: View) {
    Tallied(v) && 0 !in v.orders && |v.bids| <= c.maxLevels && |v.asks| <= c.maxLevels
  }

  /** The detector drops a level when its quantity is gone, the reference book when its last order is. A draw of `d` from an
      order of `o` has the same effect on both when it takes the last order, or leaves some quantity. */
  predicate EmptiesAlike(l: Level, o: nat, d: nat) {
    (d == o && l.count == 1) || (d > 0 && l.qty > d)
  }

  /** An event that resolves to no live order is harmless when it does not touch a level. */
  predicate Misses(v: View, e: Event) {
    e.side > 1 || (e.orderId != 0 && e.price == 0) || e.price !in v.On(SideOf(e.side))
  }

  predicate CancelShadows(v: View, e: Event)
    requires e.orderId in v.orders
  {
    var o := v.orders[e.orderId];
    o.price in v.On(o.side) && EmptiesAlike(v.On(o.side)[o.price], o.qty, CancelQty(o.qty, e.qty))
  }

  /** At the resting price, as a cancel, but of a positive quantity. Off it only an order of quantity 0 leaves both books
      alike: when it is not the last of its level and the trade's price names none. */
  predicate TradeShadows(v: View, e: Event)
    requires e.orderId in v.orders
  {
    var o := v.orders[e.orderId];
    && o.price in v.On(o.side) && (e.qty > 0 || o.qty == 0)
    && if e.price == 0 || e.price == o.price then EmptiesAlike(v.On(o.side)[o.price], o.qty, Min(e.qty, o.qty))
       else o.qty == 0 && v.On(o.side)[o.price].count > 1 && e.price !in v.On(o.side)
  }

  /** Readable off the reference book and the event before the event is applied. */
  predicate Shadows(c: F.Config, v: View, e: Event) {
    match TypeOf(e.eventType)
    case Some(OrderAdd) => e.side > 1 || (e.orderId != 0 && Fits(c.maxLevels, v.On(SideOf(e.side)), e.price))
    case Some(OrderCancel) => if e.orderId in v.orders then CancelShadows(v, e) else Misses(v, e)
    case Some(OrderModify) =>
      if e.orderId in v.orders then e.side <= 1 && v.orders[e.orderId] == Order(e.price, e.qty, SideOf(e.side))
      else e.side > 1
    case Some(Trade) => if e.orderId in v.orders then TradeShadows(v, e) else Misses(v, e)
    case _ => true
  }

  // ---------------------------------------------------------------- levels

  lemma AddShows(m: F.Depth, g: Grid, p: U64, q: nat)
    requires Shows(m, g)
    ensures Shows(F.Put(m, p, q), GridAdd(g, p, q)) && |F.Put(m, p, q)| == |GridAdd(g, p, q)|
  {
    var a, b := F.Put(m, p, q), GridAdd(g, p, q);
    assert a.Keys == b.Keys == g.Keys + {p};
    assert |a| == |a.Keys| && |b| == |b.Keys|;
  }

  lemma LevelAround(v: View, s: Side, p: U64, o: nat, r: nat, m: nat, q: nat, n: nat)
    requires Excess(v, s, p, q, n) && (m == 0 ==> r == 0)
    requires LiveQty(v.orders, s, p) == o + r && LiveCount(v.orders, s, p) == 1 + m
    ensures p in v.On(s)
    ensures var l := v.On(s)[p]; l.price == p && l.qty >= o && l.count > 0 && (l.count == 1 ==> l.qty == o)
  {
  }

  predicate Carries(g: Grid, o: Order) {
    && o.price in g
    && g[o.price].price == o.price && g[o.price].qty >= o.qty && g[o.price].count > 0
    && (g[o.price].count == 1 ==> g[o.price].qty == o.qty)
  }

  lemma CarriesFrom(v: View, id: U64, o: Order, q: nat, n: nat)
    requires id in v.orders && o == v.orders[id] && Excess(v, o.side, o.price, q, n)
    ensures Carries(v.On(o.side), o)
  {
    var rest := v.orders - {id};
    LiveTake(v.orders, o.side, o.price, id);
    NoOrderNoQty(rest, o.side, o.price);
    LevelAround(v, o.side, o.price, o.qty, LiveQty(rest, o.side, o.price), LiveCount(rest, o.side, o.price), q, n);
  }

  /** The level of a live order holds it, and nothing else when it is the only one. */
  lemma LevelOf(v: View, id: U64)
    requires id in v.orders && TalliedAt(v, v.orders[id].side, v.orders[id].price)
    ensures Carries(v.On(v.orders[id].side), v.orders[id])
  {
    var q, n :| Excess(v, v.orders[id].side, v.orders[id].price, q, n);
    CarriesFrom(v, id, v.orders[id], q, n);
  }

  /** At the resting price. */
  lemma DrawShowsIff(m: F.Depth, g: Grid, p: U64, o: nat, d: nat)
    requires Shows(m, g) && p in g && d <= o <= g[p].qty && (d > 0 || o == 0)
    requires g[p].count > 0 && (g[p].count == 1 ==> g[p].qty == o)
    ensures Shows(F.Reduced(m, p, d), GridDeduct(g, p, d, d == o)) <==> EmptiesAlike(g[p], o, d)
  {
    var a, b := F.Reduced(m, p, d), GridDeduct(g, p, d, d == o);
    assert m[p] == g[p].qty;
    assert p in a <==> d > 0 && g[p].qty > d;
    assert p in b <==> !(d == o && g[p].count == 1);
    assert p in a ==> a[p] == g[p].qty - d;
    assert p in b ==> b[p].qty == g[p].qty - d;
  }

  /** Off it, a trade draws on the wrong level, if on any. */
  lemma OffPriceShowsIff(m: F.Depth, g: Grid, p: U64, k: U64, o: nat, d: nat)
    requires Shows(m, g) && p in g && k != p && d <= o <= g[p].qty && (d > 0 || o == 0)
    requires g[p].count > 0 && (g[p].count == 1 ==> g[p].qty == o)
    ensures Shows(F.Reduced(m, k, d), GridDeduct(g, p, d, d == o)) <==> o == 0 && g[p].count > 1 && k !in g
  {
    var a, b := F.Reduced(m, k, d), GridDeduct(g, p, d, d == o);
    assert p in a && a[p] == g[p].qty;
    assert p in b <==> !(d == o && g[p].count == 1);
    assert p in b ==> b[p].qty == g[p].qty - d;
    assert k in b <==> k in g;
    assert d == 0 ==> k !in a;
  }

  // ---------------------------------------------------------------- orders

  lemma ReleaseTracks(o: F.Orders, live: map<U64, Order>, id: U64, d: nat)
    requires Tracks(o, live) && id in o && d <= o[id].qty
    ensures Tracks(F.Release(o, id, d), Struck(live, id, d))
  {
  }

  /** A trade of quantity 0 is where tracker and reference orders part: the tracker takes it for the whole order, the
      reference book for nothing. Id 0 the tracker never resolves. */
  lemma TradeTracksIff(o: F.Orders, v: View, e: Event)
    requires Tracks(o, v.orders)
    ensures Tracks(F.OnTrade(o, e).0, RefExecute(v, e).0.orders)
            <==> (e.orderId in v.orders ==>
                    if e.orderId != 0 then e.qty > 0 || v.orders[e.orderId].qty == 0
                    else e.qty == 0 && v.orders[e.orderId].qty > 0)
  {
    var id := e.orderId;
    if id in v.orders && id != 0 {
      var d := F.Resolved(o[id].qty, e.qty);
      ReleaseTracks(o, v.orders, id, d);
    }
  }

  // ---------------------------------------------------------------- adds

  lemma RefreshMirrors(c: F.Config, d: F.Detector, v: View)
    requires Mirrors(d, v)
    ensures Mirrors(d.(book := F.Refreshed(c, d.book)), v)
  {
  }

  /** An add touches one side only. */
  lemma AddedFrame(c: F.Config, b: F.Book, side: Side, p: U64, q: nat, m: F.Depth)
    ensures var r := F.Added(c, b, side, p, q, m); r.On(side) == m && r.On(F.Other(side)) == b.On(F.Other(side))
  {
  }

  /** What an accepted add leaves on its side shows the reference's side exactly when nothing was pruned. */
  lemma PrunedShowsIff(c: F.Config, side: Side, full: F.Depth, m: F.Depth, g: Grid)
    requires Shows(full, g) && |full| == |g| && F.PrunedTo(c, side, full, m)
    ensures Shows(m, g) <==> |g| <= c.maxLevels
  {
    if |full| > c.maxLevels {
      var k :| F.IsWorst(side, full, k) && m == full - {k};
      assert k in g && k !in m;
    }
  }

  lemma GridAddFitsIff(cap: nat, g: Grid, p: U64, q: nat)
    requires |g| <= cap
    ensures |GridAdd(g, p, q)| <= cap <==> Fits(cap, g, p)
  {
    if p in g {
      assert GridAdd(g, p, q).Keys == g.Keys;
    } else {
      assert GridAdd(g, p, q).Keys == g.Keys + {p};
    }
  }

  lemma AddMirrorsIff(c: F.Config, d: F.Detector, v: View, e: Event, r: F.Detector)
    requires Mirrors(d, v) && Steady(c, v) && TypeOf(e.eventType) == Some(OrderAdd) && F.Applied(c, d, e, r)
    ensures Mirrors(r, RefAdd(v, e).0) <==> Shadows(c, v, e)
  {
    if e.side <= 1 {
      var side := SideOf(e.side);
      var full, g := F.Put(d.book.On(side), e.price, e.qty), GridAdd(v.On(side), e.price, e.qty);
      AddShows(d.book.On(side), v.On(side), e.price, e.qty);
      assert F.AddStep(c, d.book, Some(F.Update(side, e.price, e.qty)), r.book);
      var m :| F.PrunedTo(c, side, full, m) && r.book == F.Added(c, d.book, side, e.price, e.qty, m);
      AddedFrame(c, d.book, side, e.price, e.qty, m);
      PrunedShowsIff(c, side, full, m, g);
      GridAddFitsIff(c.maxLevels, v.On(side), e.price, e.qty);
      PlacedSides(d, r, v, e, m);
    }
  }

  lemma PlacedSides(d: F.Detector, r: F.Detector, v: View, e: Event, m: F.Depth)
    requires Mirrors(d, v) && 0 !in v.orders && e.side <= 1
    requires var side := SideOf(e.side); r.book.On(side) == m && r.book.On(F.Other(side)) == d.book.On(F.Other(side))
    requires r.orders == F.OnAdd(d.orders, e).0
    ensures var side := SideOf(e.side);
            Mirrors(r, RefAdd(v, e).0) <==> e.orderId != 0 && Shows(m, GridAdd(v.On(side), e.price, e.qty))
  {
    PlaceGrid(v, e, Bid);
    PlaceGrid(v, e, Ask);
    assert RefAdd(v, e).0 == Placed(v, e);
    assert e.orderId == 0 ==> 0 !in r.orders;
  }

  // ---------------------------------------------------------------- removals of live orders

  /** A removal of `q` units at price `p`, of the order's side, while the order gives up `d`. */
  lemma StrikeSides(c: F.Config, d: F.Detector, v: View, id: U64, q: nat, p: U64, r: F.Detector)
    requires Mirrors(d, v) && id in v.orders && q <= v.orders[id].qty
    requires r.orders == F.Release(d.orders, id, q)
    requires F.RemoveStep(c, d.book, Some(F.Update(v.orders[id].side, p, q)), r.book)
    ensures var o := v.orders[id];
            Mirrors(r, Strike(v, id, q))
            <==> Shows(F.Reduced(d.book.On(o.side), p, q), GridDeduct(v.On(o.side), o.price, q, q == o.qty))
  {
    var o := v.orders[id];
    ReleaseTracks(d.orders, v.orders, id, q);
    var best :| r.book == F.Removed(c, d.book, o.side, p, q, best);
    F.RemovedFrame(c, d.book, o.side, p, q, best);
    StrikeGrid(v, id, q, Bid);
    StrikeGrid(v, id, q, Ask);
  }

  lemma LiveRemovalIff(c: F.Config, d: F.Detector, v: View, id: U64, q: nat, p: U64, r: F.Detector)
    requires Mirrors(d, v) && Steady(c, v) && id in v.orders && q <= v.orders[id].qty && (q > 0 || v.orders[id].qty == 0)
    requires r.orders == F.Release(d.orders, id, q)
    requires F.RemoveStep(c, d.book, Some(F.Update(v.orders[id].side, p, q)), r.book)
    ensures var o := v.orders[id];
            && o.price in v.On(o.side)
            && (Mirrors(r, Strike(v, id, q))
                <==> if p == o.price then EmptiesAlike(v.On(o.side)[o.price], o.qty, q)
                     else o.qty == 0 && v.On(o.side)[o.price].count > 1 && p !in v.On(o.side))
  {
    var o := v.orders[id];
    assert TalliedAt(v, o.side, o.price);
    LevelOf(v, id);
    StrikeSides(c, d, v, id, q, p, r);
    if p == o.price {
      DrawShowsIff(d.book.On(o.side), v.On(o.side), o.price, o.qty, q);
    } else {
      OffPriceShowsIff(d.book.On(o.side), v.On(o.side), o.price, p, o.qty, q);
    }
  }

  lemma CancelLiveMirrorsIff(c: F.Config, d: F.Detector, v: View, e: Event, r: F.Detector)
    requires Mirrors(d, v) && Steady(c, v) && TypeOf(e.eventType) == Some(OrderCancel) && F.Applied(c, d, e, r)
    requires e.orderId in v.orders
    ensures Mirrors(r, RefCancel(v, e).0) <==> CancelShadows(v, e)
  {
    var o := v.orders[e.orderId];
    LiveRemovalIff(c, d, v, e.orderId, F.Resolved(o.qty, e.qty), o.price, r);
  }

  lemma TradeLiveMirrorsIff(c: F.Config, d: F.Detector, v: View, e: Event, r: F.Detector)
    requires Mirrors(d, v) && Steady(c, v) && TypeOf(e.eventType) == Some(Trade) && F.Applied(c, d, e, r)
    requires e.orderId in v.orders
    ensures Mirrors(r, RefExecute(v, e).0) <==> TradeShadows(v, e)
  {
    var o := v.orders[e.orderId];
    TradeTracksIff(d.orders, v, e);
    if e.qty > 0 || o.qty == 0 {
      LiveRemovalIff(c, d, v, e.orderId, F.Resolved(o.qty, e.qty), if e.price != 0 then e.price else o.price, r);
    }
  }

  // ---------------------------------------------------------------- events that name no live order

  /** The reference book ignores them; the detector draws on the level they happen to name. */
  lemma StrayMirrorsIff(c: F.Config, d: F.Detector, v: View, e: Event, r: F.Detector)
    requires Mirrors(d, v) && Steady(c, v) && e.orderId !in v.orders && F.Applied(c, d, e, r)
    requires TypeOf(e.eventType) in {Some(OrderCancel), Some(Trade)}
    ensures Mirrors(r, v) <==> Misses(v, e)
  {
    assert e.orderId !in d.orders;
    assert r.orders == d.orders;
    if e.side > 1 || (e.orderId != 0 && e.price == 0) {
      assert r.book == d.book;
    } else {
      assert F.RemoveStep(c, d.book, Some(F.Update(SideOf(e.side), e.price, e.qty)), r.book);
      StrayRemoval(c, d, v, SideOf(e.side), e.price, e.qty, r);
    }
  }

  lemma StrayRemoval(c: F.Config, d: F.Detector, v: View, side: Side, p: U64, q: nat, r: F.Detector)
    requires Mirrors(d, v) && Steady(c, v) && r.orders == d.orders
    requires F.RemoveStep(c, d.book, Some(F.Update(side, p, q)), r.book)
    ensures Mirrors(r, v) <==> p !in v.On(side)
  {
    var m := d.book.On(side);
    var best :| r.book == F.Removed(c, d.book, side, p, q, best);
    F.RemovedFrame(c, d.book, side, p, q, best);
    assert p in m ==> p !in F.Reduced(m, p, q) || F.Reduced(m, p, q)[p] < m[p];
  }

  // ---------------------------------------------------------------- modifies

  /** A modify that restates its order changes nothing. */
  lemma RestatedIsNothing(v: View, e: Event)
    requires Tallied(v) && e.orderId in v.orders && e.side <= 1
    requires v.orders[e.orderId] == Order(e.price, e.qty, SideOf(e.side))
    ensures RefAdd(RefCancel(v, e).0, e).0 == v
  {
    var id, o := e.orderId, v.orders[e.orderId];
    var w := Strike(v, id, o.qty);
    assert RefCancel(v, e).0 == w;
    StrikeGrid(v, id, o.qty, Bid);
    StrikeGrid(v, id, o.qty, Ask);
    PlaceGrid(w, e, Bid);
    PlaceGrid(w, e, Ask);
    assert RefAdd(w, e).0 == Placed(w, e);
    RestoresLevel(v, id);
    assert (v.orders - {id})[id := o] == v.orders;
  }

  lemma RestoresLevel(v: View, id: U64)
    requires Tallied(v) && id in v.orders
    ensures var o := v.orders[id]; GridAdd(GridDeduct(v.On(o.side), o.price, o.qty, true), o.price, o.qty) == v.On(o.side)
  {
    var o := v.orders[id];
    var g, p := v.On(o.side), o.price;
    assert TalliedAt(v, o.side, p);
    LevelOf(v, id);
    var h := GridDeduct(g, p, o.qty, true);
    assert GridAdd(h, p, o.qty)[p] == g[p];
    assert GridAdd(h, p, o.qty).Keys == g.Keys;
  }

  lemma ModifyMirrorsIff(c: F.Config, d: F.Detector, v: View, e: Event)
    requires Mirrors(d, v) && Steady(c, v) && TypeOf(e.eventType) == Some(OrderModify)
    ensures Mirrors(d, RefAdd(RefCancel(v, e).0, e).0) <==> Shadows(c, v, e)
  {
    var id, w := e.orderId, RefCancel(v, e).0;
    if id in v.orders {
      if e.side <= 1 {
        if v.orders[id] == Order(e.price, e.qty, SideOf(e.side)) {
          RestatedIsNothing(v, e);
        } else {
          assert RefAdd(w, e).0.orders[id] == Order(e.price, e.qty, SideOf(e.side));
        }
      } else {
        assert RefAdd(w, e).0.orders == Struck(v.orders, id, CancelQty(v.orders[id].qty, e.qty));
      }
    } else if e.side <= 1 {
      assert id in RefAdd(w, e).0.orders && id !in d.orders;
    }
  }

  // ---------------------------------------------------------------- any event

  /** One event keeps the detector in step with the reference book if and only if `Shadows`. */
  lemma StepMirrorsIff(c: F.Config, d: F.Detector, v: View, e: Event, r: F.Detector)
    requires Mirrors(d, v) && Steady(c, v) && F.Step(c, d, e, r)
    ensures Mirrors(r, RefApply(v, e).0) <==> Shadows(c, v, e)
  {
    var b := d.(book := F.Refreshed(c, d.book));
    RefreshMirrors(c, d, v);
    match TypeOf(e.eventType) {
      case Some(OrderAdd) => AddMirrorsIff(c, b, v, e, r);
      case Some(OrderCancel) =>
        if e.orderId in v.orders {
          CancelLiveMirrorsIff(c, b, v, e, r);
        } else {
          StrayMirrorsIff(c, b, v, e, r);
        }
      case Some(OrderModify) => ModifyMirrorsIff(c, b, v, e);
      case Some(Trade) =>
        if e.orderId in v.orders {
          TradeLiveMirrorsIff(c, b, v, e, r);
        } else {
          StrayMirrorsIff(c, b, v, e, r);
        }
      case _ =>
    }
  }

  // ---------------------------------------------------------------- whole runs

  lemma StrikeSteady(c: F.Config, v: View, id: U64, d: nat)
    requires Steady(c, v) && id in v.orders && d <= v.orders[id].qty
    ensures Steady(c, Strike(v, id, d))
  {
    StrikeSize(v, id, d);
    forall s, p
      ensures TalliedAt(Strike(v, id, d), s, p)
    {
      assert TalliedAt(v, s, p);
      var q, n :| Excess(v, s, p, q, n);
      StrikeKeepsExcess(v, id, d, s, p, q, n);
    }
  }

  lemma PlaceTalliedAt(v: View, e: Event, s: Side, p: U64)
    requires TalliedAt(v, s, p)
    ensures TalliedAt(Placed(v, e), s, p)
  {
    var q, n :| Excess(v, s, p, q, n);
    PlaceAddsExcess(v, e, s, p, q, n, AbandonedUnits(v.orders, e.orderId, s, p), AbandonedOrders(v.orders, e.orderId, s, p));
  }

  lemma PlaceSteady(c: F.Config, v: View, e: Event)
    requires Steady(c, v) && e.orderId != 0 && Fits(c.maxLevels, v.On(SideOf(e.side)), e.price)
    ensures Steady(c, Placed(v, e))
  {
    GridAddSize(c.maxLevels, v.On(SideOf(e.side)), e.price, e.qty);
    forall s, p
      ensures TalliedAt(Placed(v, e), s, p)
    {
      assert TalliedAt(v, s, p);
      PlaceTalliedAt(v, e, s, p);
    }
    PlaceGrid(v, e, Bid);
    PlaceGrid(v, e, Ask);
  }

  lemma StepSteady(c: F.Config, v: View, e: Event)
    requires Steady(c, v) && Shadows(c, v, e)
    ensures Steady(c, RefApply(v, e).0)
  {
    match TypeOf(e.eventType) {
      case Some(OrderAdd) =>
        if e.side <= 1 {
          PlaceSteady(c, v, e);
        }
      case Some(OrderCancel) =>
        if e.orderId in v.orders {
          StrikeSteady(c, v, e.orderId, CancelQty(v.orders[e.orderId].qty, e.qty));
        }
      case Some(OrderModify) =>
        if e.orderId in v.orders {
          RestatedIsNothing(v, e);
        }
      case Some(Trade) =>
        if e.orderId in v.orders {
          StrikeSteady(c, v, e.orderId, Min(e.qty, v.orders[e.orderId].qty));
        }
      case _ =>
    }
  }

  ghost predicate MirrorsThroughout(ds: seq<F.Detector>, v: View, es: seq<Event>)
    requires |ds| == |es| + 1
    decreases es
  {
    Mirrors(ds[0], v) && (es == [] || MirrorsThroughout(ds[1..], RefApply(v, es[0]).0, es[1..]))
  }

  predicate ShadowsThroughout(c: F.Config, v: View, es: seq<Event>)
    decreases es
  {
    es == [] || (Shadows(c, v, es[0]) && ShadowsThroughout(c, RefApply(v, es[0]).0, es[1..]))
  }

  /** The detector stays in step with the reference book throughout a run if and only if every event is one it follows. */
  lemma {:induction false} RunMirrorsIff(c: F.Config, ds: seq<F.Detector>, v: View, es: seq<Event>)
    requires |ds| == |es| + 1 && Mirrors(ds[0], v) && Steady(c, v)
    requires forall i :: 0 <= i < |es| ==> F.Step(c, ds[i], es[i], ds[i + 1])
    ensures MirrorsThroughout(ds, v, es) <==> ShadowsThroughout(c, v, es)
    ensures ShadowsThroughout(c, v, es) ==> Mirrors(ds[|es|], RefRun(v, es))
    decreases es
  {
    if es != [] {
      StepMirrorsIff(c, ds[0], v, es[0], ds[1]);
      if Shadows(c, v, es[0]) {
        StepSteady(c, v, es[0]);
        RunMirrorsIff(c, ds[1..], RefApply(v, es[0]).0, es[1..]);
      } else {
        assert !Mirrors(ds[1..][0], RefApply(v, es[0]).0);
      }
    }
  }

  lemma EmptyIsSteady(c: F.Config)
    ensures Steady(c, EMPTY_VIEW)
  {
    EmptyIsConserved();
    ConservedIsTallied(EMPTY_VIEW);
  }

  /** After every such stream the detector's cached best prices are the reference book's best prices. */
  lemma BestsAreTheReferences(c: F.Config, ds: seq<F.Detector>, es: seq<Event>, s: Side)
    requires c.maxLevels >= 1 && |ds| == |es| + 1 && ds[0] == F.Detector(F.EMPTY_BOOK, map[])
    requires ShadowsThroughout(c, EMPTY_VIEW, es)
    requires forall i :: 0 <= i < |es| ==> F.Step(c, ds[i], es[i], ds[i + 1])
    ensures var g := RefRun(EMPTY_VIEW, es).On(s);
            match ds[|es|].book.Best(s)
            case None => g == map[]
            case Some(p) => p in g && forall q :: q in g ==> q == p || Better(s, p, q)
  {
    EmptyIsSteady(c);
    RunMirrorsIff(c, ds, EMPTY_VIEW, es);
    F.RunShaped(c, ds, es);
    assert Shows(ds[|es|].book.On(s), RefRun(EMPTY_VIEW, es).On(s));
  }
}
