/** A book as plain maps: price -> level on each side, id -> order. `Apply` is what the fixed-depth
    array books do to these maps, `RefApply` what the BTreeMap book does (core/src/orderbook.rs). */
module BookView {
  import opened Events
  import opened Ladder

  datatype View = View(bids: Grid, asks: Grid, orders: map<U64, Order>) {
    function On(side: Side): Grid {
      if side.Bid? then bids else asks
    }

    function With(side: Side, g: Grid): View {
      if side.Bid? then this.(bids := g) else this.(asks := g)
    }
  }

  const EMPTY_VIEW := View(map[], map[], map[])

  /** ITCH 'D' carries quantity 0 and deletes; 'X' carries the cancelled shares. */
  function CancelQty(resting: nat, q: nat): (d: nat)
    ensures d <= resting
  {
    if q == 0 || q >= resting then resting else q
  }

  function Struck(o: map<U64, Order>, id: U64, d: nat): map<U64, Order>
    requires id in o && d <= o[id].qty
  {
    if d == o[id].qty then o - {id} else o[id := o[id].(qty := o[id].qty - d)]
  }

  /** Take `d` units off order `id` and off its level; the order leaves when nothing remains. */
  function Strike(v: View, id: U64, d: nat): View
    requires id in v.orders && d <= v.orders[id].qty
  {
    var o := v.orders[id];
    v.With(o.side, GridDeduct(v.On(o.side), o.price, d, d == o.qty)).(orders := Struck(v.orders, id, d))
  }

  // ---------------------------------------------------------------- fixed-depth books

  predicate Fits(cap: nat, g: Grid, p: U64) {
    p in g || |g| < cap
  }

  function Add(cap: nat, v: View, e: Event): (View, bool) {
    var side := SideOf(e.side);
    if !Fits(cap, v.On(side), e.price) then (v, false)
    else
      var w := v.With(side, GridAdd(v.On(side), e.price, e.qty));
      (if e.orderId == 0 then w else w.(orders := v.orders[e.orderId := Order(e.price, e.qty, side)]), true)
  }

  lemma GridAddSize(cap: nat, g: Grid, p: U64, q: nat)
    requires |g| <= cap && Fits(cap, g, p)
    ensures |GridAdd(g, p, q)| <= cap
  {
    if p in g {
      assert GridAdd(g, p, q).Keys == g.Keys;
    } else {
      assert GridAdd(g, p, q).Keys == g.Keys + {p};
    }
  }

  lemma StrikeSize(v: View, id: U64, d: nat)
    requires id in v.orders && d <= v.orders[id].qty
    ensures |Strike(v, id, d).bids| <= |v.bids| && |Strike(v, id, d).asks| <= |v.asks|
  {
    SubsetSize(Strike(v, id, d).bids.Keys, v.bids.Keys);
    SubsetSize(Strike(v, id, d).asks.Keys, v.asks.Keys);
  }

  function StrikeFound(v: View, id: U64, d: nat): (View, bool)
    requires id in v.orders && d <= v.orders[id].qty
  {
    (Strike(v, id, d), v.orders[id].price in v.On(v.orders[id].side))
  }

  function Cancel(v: View, e: Event): (View, bool) {
    if e.orderId == 0 then
      var side := SideOf(e.side);
      (v.With(side, GridDeduct(v.On(side), e.price, e.qty, true)), e.price in v.On(side))
    else if e.orderId !in v.orders then (v, false)
    else StrikeFound(v, e.orderId, CancelQty(v.orders[e.orderId].qty, e.qty))
  }

  function Execute(v: View, e: Event): (View, bool) {
    if e.orderId == 0 then
      var side := SideOf(e.side);
      (v.With(side, GridDeductAnon(v.On(side), e.price, e.qty)), e.price in v.On(side))
    else if e.orderId !in v.orders then (v, false)
    else StrikeFound(v, e.orderId, Min(e.qty, v.orders[e.orderId].qty))
  }

  function Apply(cap: nat, v: View, e: Event): (View, bool) {
    match TypeOf(e.eventType)
    case Some(OrderAdd) => Add(cap, v, e)
    case Some(OrderCancel) => Cancel(v, e)
    case Some(OrderModify) => Add(cap, Cancel(v, e).0, e)
    case Some(Trade) => Execute(v, e)
    case _ => (v, false)
  }

  // ---------------------------------------------------------------- the reference book

  function RefAdd(v: View, e: Event): (View, bool) {
    if e.side > 1 then (v, false)
    else
      var side := SideOf(e.side);
      (v.With(side, GridAdd(v.On(side), e.price, e.qty))
        .(orders := v.orders[e.orderId := Order(e.price, e.qty, side)]), true)
  }

  function RefCancel(v: View, e: Event): (View, bool) {
    if e.orderId !in v.orders then (v, false)
    else (Strike(v, e.orderId, CancelQty(v.orders[e.orderId].qty, e.qty)), true)
  }

  function RefExecute(v: View, e: Event): (View, bool) {
    if e.orderId !in v.orders then (v, false)
    else (Strike(v, e.orderId, Min(e.qty, v.orders[e.orderId].qty)), true)
  }

  function RefApply(v: View, e: Event): (View, bool) {
    match TypeOf(e.eventType)
    case Some(OrderAdd) => RefAdd(v, e)
    case Some(OrderCancel) => RefCancel(v, e)
    case Some(OrderModify) => RefAdd(RefCancel(v, e).0, e)
    case Some(Trade) => RefExecute(v, e)
    case _ => (v, false)
  }

  // ---------------------------------------------------------------- runs

  function Run(cap: nat, v: View, es: seq<Event>): View
    decreases es
  {
    if es == [] then v else Run(cap, Apply(cap, v, es[0]).0, es[1..])
  }

  function RefRun(v: View, es: seq<Event>): View
    decreases es
  {
    if es == [] then v else RefRun(RefApply(v, es[0]).0, es[1..])
  }
}
