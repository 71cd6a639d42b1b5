/** What each event does to a book, in numbers: the type byte, the side byte, the level's quantity and order count.
    Nothing here is said in terms of the operations that the books are built from (core/src/hot_book.rs). */
module EventMeaning {
  import opened Events
  import opened Ladder
  import opened BookView
  import opened ArrayBook
  import opened OrderStore
  import opened HotBook

  /** Where an event without an order id acts. */
  predicate Names(e: Event, s: Side) {
    s == if e.side == 0 then Bid else Ask
  }

  /** Only side `s` at price `p` may differ, and it does not appear from nothing. */
  ghost predicate OnlyAt(v: View, w: View, s: Side, p: U64) {
    && w.On(s) - {p} == v.On(s) - {p}
    && (p !in v.On(s) ==> w.On(s) == v.On(s))
    && forall t :: t != s ==> w.On(t) == v.On(t)
  }

  // ---------------------------------------------------------------- events without an order id

  /** An anonymous trade takes its quantity and leaves the count alone, until it takes all there is: then one order goes
      as well, and the level with its last order. */
  lemma AnonymousTrade(cap: nat, v: View, e: Event, s: Side)
    requires e.eventType == 4 && e.orderId == 0 && Names(e, s)
    ensures var (w, found) := Apply(cap, v, e);
            var p, g, h := e.price, v.On(s), w.On(s);
            && w.orders == v.orders && OnlyAt(v, w, s, p) && (found <==> p in g)
            && (p in g && g[p].count > 0 ==>
                  if e.qty < g[p].qty then p in h && h[p] == Level(g[p].price, g[p].qty - e.qty, g[p].count)
                  else if g[p].count > 1 then p in h && h[p] == Level(g[p].price, 0, g[p].count - 1)
                  else p !in h)
  {
  }

  /** An anonymous cancel takes one order with its quantity, and the level with its last order. */
  lemma AnonymousCancel(cap: nat, v: View, e: Event, s: Side)
    requires e.eventType == 2 && e.orderId == 0 && Names(e, s)
    ensures var (w, found) := Apply(cap, v, e);
            var p, g, h := e.price, v.On(s), w.On(s);
            && w.orders == v.orders && OnlyAt(v, w, s, p) && (found <==> p in g)
            && (p in g && g[p].count > 0 ==>
                  if g[p].count == 1 then p !in h
                  else p in h && h[p].price == g[p].price && h[p].count == g[p].count - 1
                       && h[p].qty == if e.qty < g[p].qty then g[p].qty - e.qty else 0)
  {
  }

  // ---------------------------------------------------------------- events that name an order

  /** Cancelling 0 units, or all an order has left, deletes it; so does trading all it has left. */
  predicate Finishes(e: Event, resting: nat) {
    e.qty >= resting || (e.eventType == 2 && e.qty == 0)
  }

  /** `w` is `v` after a cancel or trade of a known order, which acts where that order rests, whatever price and side the
      event carries. */
  ghost predicate Reduces(v: View, w: View, e: Event)
    requires e.orderId in v.orders
  {
    var o := v.orders[e.orderId];
    var p, g, h := o.price, v.On(o.side), w.On(o.side);
    var all := Finishes(e, o.qty);
    var units := if all then o.qty else e.qty;
    && OnlyAt(v, w, o.side, p)
    && w.orders == (if all then v.orders - {e.orderId} else v.orders[e.orderId := Order(p, o.qty - e.qty, o.side)])
    && (p in g && g[p].count > 0 ==>
          if all && g[p].count == 1 then p !in h
          else p in h && h[p].price == g[p].price && h[p].count == g[p].count - (if all then 1 else 0)
               && h[p].qty == if units < g[p].qty then g[p].qty - units else 0)
  }

  lemma KnownOrder(cap: nat, v: View, e: Event)
    requires (e.eventType == 2 || e.eventType == 4) && e.orderId != 0 && e.orderId in v.orders
    ensures Reduces(v, Apply(cap, v, e).0, e)
    ensures Apply(cap, v, e).1 <==> v.orders[e.orderId].price in v.On(v.orders[e.orderId].side)
  {
  }

  lemma UnknownOrder(cap: nat, v: View, e: Event)
    requires (e.eventType == 2 || e.eventType == 4) && e.orderId != 0 && e.orderId !in v.orders
    ensures Apply(cap, v, e) == (v, false)
  {
  }

  // ---------------------------------------------------------------- placing and replacing

  /** An add is refused, without a trace, when its price would open a level and the side shows `cap` already. */
  lemma AddRefused(cap: nat, v: View, e: Event, s: Side)
    requires e.eventType == 1 && Names(e, s)
    ensures Apply(cap, v, e).1 <==> e.price in v.On(s) || |v.On(s)| < cap
    ensures !Apply(cap, v, e).1 ==> Apply(cap, v, e).0 == v
  {
  }

  lemma AddedGrid(g: Grid, p: U64, q: nat)
    ensures var h := GridAdd(g, p, q);
            && h - {p} == g - {p} && p in h
            && h[p] == if p in g then Level(g[p].price, g[p].qty + q, g[p].count + 1) else Level(p, q, 1)
  {
  }

  /** `w` shows one order more than `v`: it joins the level at its price, or opens one of its own. */
  ghost predicate Joins(v: View, w: View, e: Event, s: Side) {
    var p, g, h := e.price, v.On(s), w.On(s);
    && h - {p} == g - {p} && (forall t :: t != s ==> w.On(t) == v.On(t)) && p in h
    && h[p] == if p in g then Level(g[p].price, g[p].qty + e.qty, g[p].count + 1) else Level(p, e.qty, 1)
  }

  lemma AddEvent(cap: nat, v: View, e: Event, s: Side)
    requires e.eventType == 1 && Names(e, s) && Apply(cap, v, e).1
    ensures Joins(v, Apply(cap, v, e).0, e, s)
  {
    AddedGrid(v.On(s), e.price, e.qty);
    assert Apply(cap, v, e).0.On(s) == GridAdd(v.On(s), e.price, e.qty);
  }

  /** A placed order is remembered under its id, at the price, quantity and side of the event; id 0 is not. */
  lemma AddRemembers(cap: nat, v: View, e: Event, s: Side)
    requires e.eventType == 1 && Names(e, s)
    ensures var (w, placed) := Apply(cap, v, e);
            w.orders == if placed && e.orderId != 0 then v.orders[e.orderId := Order(e.price, e.qty, s)] else v.orders
  {
  }

  /** A modify is the cancel and then the add that carry its fields; what it reports is whether the add was placed. */
  lemma ModifyEvent(cap: nat, v: View, e: Event)
    requires e.eventType == 3
    ensures Apply(cap, v, e) == Apply(cap, Apply(cap, v, e.(eventType := 2)).0, e.(eventType := 1))
  {
  }

  lemma OtherEvent(cap: nat, v: View, e: Event)
    requires e.eventType == 0 || e.eventType > 4
    ensures Apply(cap, v, e) == (v, false)
  {
  }

  // ---------------------------------------------------------------- the reference book

  /** The reference book takes every add of a known side, under any id, and remembers the order. */
  lemma ReferenceAdd(v: View, e: Event, s: Side)
    requires e.eventType == 1 && Names(e, s)
    ensures e.side > 1 ==> RefApply(v, e) == (v, false)
    ensures e.side <= 1 ==> var (w, placed) := RefApply(v, e);
                            placed && Joins(v, w, e, s) && w.orders == v.orders[e.orderId := Order(e.price, e.qty, s)]
  {
    AddedGrid(v.On(s), e.price, e.qty);
    assert e.side <= 1 ==> RefApply(v, e).0.On(s) == GridAdd(v.On(s), e.price, e.qty);
  }

  /** It knows orders by id alone: id 0 is an id, and there is no fallback by price. */
  lemma ReferenceReduce(v: View, e: Event)
    requires e.eventType == 2 || e.eventType == 4
    ensures e.orderId in v.orders ==> Reduces(v, RefApply(v, e).0, e) && RefApply(v, e).1
    ensures e.orderId !in v.orders ==> RefApply(v, e) == (v, false)
  {
  }

  lemma ReferenceModify(v: View, e: Event)
    requires e.eventType == 3
    ensures RefApply(v, e) == RefApply(RefApply(v, e.(eventType := 2)).0, e.(eventType := 1))
  {
  }

  // ---------------------------------------------------------------- runs of anonymous trades

  predicate AnonymousTrades(es: seq<Event>) {
    forall i :: 0 <= i < |es| ==> es[i].eventType == 4 && es[i].orderId == 0
  }

  /** How much of `e` trades at side `s` and price `p`. */
  predicate Hits(e: Event, s: Side, p: U64) {
    Names(e, s) && e.price == p
  }

  function Volume(es: seq<Event>, s: Side, p: U64): nat {
    if es == [] then 0 else Volume(es[..|es| - 1], s, p) + if Hits(es[|es| - 1], s, p) then es[|es| - 1].qty else 0
  }

  /** How many trades there find the volume up to them, themselves included, at `x` or more. */
  function Exhausting(es: seq<Event>, s: Side, p: U64, x: nat): nat {
    if es == [] then 0
    else
      var n := |es| - 1;
      Exhausting(es[..n], s, p, x) + if Hits(es[n], s, p) && Volume(es, s, p) >= x then 1 else 0
  }

  lemma {:induction false} RunSnoc(cap: nat, v: View, es: seq<Event>, e: Event)
    ensures Run(cap, v, es + [e]) == Apply(cap, Run(cap, v, es), e).0
    decreases es
  {
    if es == [] {
      assert es + [e] == [e] && [e][1..] == [];
    } else {
      assert (es + [e])[1..] == es[1..] + [e];
      RunSnoc(cap, Apply(cap, v, es[0]).0, es[1..], e);
    }
  }

  /** The level at `p` is what `x` units in `n` orders become when `t` units trade and `r` trades exhaust them. */
  predicate Drained(g: Grid, p: U64, x: nat, n: nat, t: nat, r: nat) {
    if r < n then p in g && g[p] == Level(p, if t < x then x - t else 0, n - r) else p !in g
  }

  lemma TradeDrains(cap: nat, v: View, e: Event, s: Side, p: U64, x: nat, n: nat, t: nat, r: nat)
    requires e.eventType == 4 && e.orderId == 0 && Drained(v.On(s), p, x, n, t, r)
    ensures var t' := t + if Hits(e, s, p) then e.qty else 0;
            var r' := r + if Hits(e, s, p) && t' >= x then 1 else 0;
            Drained(Apply(cap, v, e).0.On(s), p, x, n, t', r')
  {
    if Names(e, s) {
      AnonymousTrade(cap, v, e, s);
      assert p != e.price ==> (p in v.On(s) <==> p in v.On(s) - {e.price});
    } else {
      AnonymousTrade(cap, v, e, if s.Bid? then Ask else Bid);
    }
  }

  /** Any run of anonymous trades leaves the orders alone; each level loses the volume traded there, and one order for
      every trade from the one that exhausts it. */
  lemma {:induction false} AnonymousTradesDrain(cap: nat, v: View, es: seq<Event>, s: Side, p: U64)
    requires AnonymousTrades(es) && p in v.On(s) && v.On(s)[p].price == p && v.On(s)[p].count > 0
    ensures var w, l := Run(cap, v, es), v.On(s)[p];
            && w.orders == v.orders
            && Drained(w.On(s), p, l.qty, l.count, Volume(es, s, p), Exhausting(es, s, p, l.qty))
    decreases es
  {
    if es != [] {
      var n := |es| - 1;
      AnonymousTradesDrain(cap, v, es[..n], s, p);
      assert es == es[..n] + [es[n]];
      RunSnoc(cap, v, es[..n], es[n]);
      var was, l := Run(cap, v, es[..n]), v.On(s)[p];
      AnonymousTrade(cap, was, es[n], if es[n].side == 0 then Bid else Ask);
      TradeDrains(cap, was, es[n], s, p, l.qty, l.count, Volume(es[..n], s, p), Exhausting(es[..n], s, p, l.qty));
    }
  }

  lemma {:induction false} NoneExhausts(es: seq<Event>, s: Side, p: U64, x: nat)
    requires Volume(es, s, p) < x
    ensures Exhausting(es, s, p, x) == 0
    decreases es
  {
    if es != [] {
      NoneExhausts(es[..|es| - 1], s, p, x);
    }
  }

  // ---------------------------------------------------------------- the slab-backed book

  /** What the book shows. */
  ghost function Shown(h: HotState): View
    requires WellFormed(h.slab)
  {
    ViewOf(BookOf(h))
  }

  /** Every statement above is one about the slab-backed book. */
  lemma HotEvent(cap: nat, h: HotState, e: Event)
    requires Sound(cap, h)
    ensures (Shown(HotApply(cap, h, e).0), HotApply(cap, h, e).1) == Apply(cap, Shown(h), e)
  {
    ApplyProjects(cap, h, e);
    ApplyRefines(cap, BookOf(h), e);
  }

  lemma SlotFound(s: Side, ls: seq<Level>, i: nat)
    requires Sorted(s, ls) && i < |ls|
    ensures Find(s, ls, ls[i].price) == Some(i)
  {
    PartitionIsRank(s, ls, ls[i].price, i);
  }

  /** Slot by slot: an anonymous trade at the price in slot `i`. */
  lemma HotAnonymousTrade(cap: nat, h: HotState, e: Event, s: Side, i: nat)
    requires Sound(cap, h) && e.eventType == 4 && e.orderId == 0 && Names(e, s)
    requires i < |h.Half(s)| && h.Half(s)[i].price == e.price && h.Half(s)[i].count > 0
    ensures var (r, found) := HotApply(cap, h, e);
            var ls, l := h.Half(s), h.Half(s)[i];
            && found && r.slab == h.slab && (forall t :: t != s ==> r.Half(t) == h.Half(t))
            && r.Half(s) == if e.qty < l.qty then ls[i := Level(l.price, l.qty - e.qty, l.count)]
                            else if l.count > 1 then ls[i := Level(l.price, 0, l.count - 1)]
                            else ls[..i] + ls[i + 1..]
  {
    SlotFound(s, h.Half(s), i);
  }

  /** Anonymous trades for less than a level holds leave its count, take their total and touch no order. */
  lemma HotAnonymousTradesKeepCount(cap: nat, h: HotState, es: seq<Event>, s: Side, p: U64)
    requires Sound(cap, h) && AnonymousTrades(es)
    requires p in Shown(h).On(s) && Shown(h).On(s)[p].price == p && Shown(h).On(s)[p].count > 0
    requires Volume(es, s, p) < Shown(h).On(s)[p].qty
    ensures var l, w := Shown(h).On(s)[p], Shown(HotRun(cap, h, es));
            && w.orders == Shown(h).orders
            && p in w.On(s) && w.On(s)[p] == Level(p, l.qty - Volume(es, s, p), l.count)
  {
    HotMatchesCpp(cap, h, es);
    RunRefines(cap, BookOf(h), es);
    AnonymousTradesDrain(cap, Shown(h), es, s, p);
    NoneExhausts(es, s, p, Shown(h).On(s)[p].qty);
  }

  // ---------------------------------------------------------------- levels are never empty of orders

  ghost predicate Counted(g: Grid) {
    forall p :: p in g ==> g[p].price == p && g[p].count > 0
  }

  ghost predicate AllCounted(v: View) {
    Counted(v.bids) && Counted(v.asks)
  }

  lemma CountedAfter(v: View, w: View, s: Side, p: U64)
    requires AllCounted(v) && w.On(s) - {p} == v.On(s) - {p} && forall t :: t != s ==> w.On(t) == v.On(t)
    requires p in w.On(s) ==> w.On(s)[p].price == p && w.On(s)[p].count > 0
    ensures AllCounted(w)
  {
    forall r | r in w.On(s)
      ensures w.On(s)[r].price == r && w.On(s)[r].count > 0
    {
      if r != p {
        assert r in w.On(s) - {p};
        assert w.On(s)[r] == (v.On(s) - {p})[r];
      }
    }
    assert w.On(if s.Bid? then Ask else Bid) == v.On(if s.Bid? then Ask else Bid);
  }

  lemma AddCounted(cap: nat, v: View, e: Event)
    requires AllCounted(v) && e.eventType == 1
    ensures AllCounted(Apply(cap, v, e).0)
  {
    var s := if e.side == 0 then Bid else Ask;
    AddRefused(cap, v, e, s);
    if Apply(cap, v, e).1 {
      AddEvent(cap, v, e, s);
      assert Counted(v.On(s));
      CountedAfter(v, Apply(cap, v, e).0, s, e.price);
    }
  }

  lemma ReduceCounted(cap: nat, v: View, e: Event)
    requires AllCounted(v) && (e.eventType == 2 || e.eventType == 4)
    ensures AllCounted(Apply(cap, v, e).0)
  {
    var s := if e.side == 0 then Bid else Ask;
    if e.orderId == 0 {
      assert Counted(v.On(s));
      if e.eventType == 2 {
        AnonymousCancel(cap, v, e, s);
      } else {
        AnonymousTrade(cap, v, e, s);
      }
      CountedAfter(v, Apply(cap, v, e).0, s, e.price);
    } else if e.orderId in v.orders {
      var o := v.orders[e.orderId];
      assert Counted(v.On(o.side));
      KnownOrder(cap, v, e);
      CountedAfter(v, Apply(cap, v, e).0, o.side, o.price);
    } else {
      UnknownOrder(cap, v, e);
    }
  }

  /** Whatever the event, each level shown carries its own price and at least one order. */
  lemma StepCounted(cap: nat, v: View, e: Event)
    requires AllCounted(v)
    ensures AllCounted(Apply(cap, v, e).0)
  {
    if e.eventType == 1 {
      AddCounted(cap, v, e);
    } else if e.eventType == 2 || e.eventType == 4 {
      ReduceCounted(cap, v, e);
    } else if e.eventType == 3 {
      ModifyEvent(cap, v, e);
      ReduceCounted(cap, v, e.(eventType := 2));
      AddCounted(cap, Apply(cap, v, e.(eventType := 2)).0, e.(eventType := 1));
    } else {
      OtherEvent(cap, v, e);
    }
  }

  lemma {:induction false} RunCounted(cap: nat, v: View, es: seq<Event>)
    requires AllCounted(v)
    ensures AllCounted(Run(cap, v, es))
    decreases es
  {
    if es != [] {
      StepCounted(cap, v, es[0]);
      RunCounted(cap, Apply(cap, v, es[0]).0, es[1..]);
    }
  }

  /** After any stream, every level of the slab-backed book holds an order. */
  lemma HotLevelsCounted(cap: nat, es: seq<Event>, s: Side, i: nat)
    requires i < |HotRun(cap, EMPTY_HOT, es).Half(s)|
    ensures HotRun(cap, EMPTY_HOT, es).Half(s)[i].count > 0
  {
    HotMatchesCpp(cap, EMPTY_HOT, es);
    RunRefines(cap, BookOf(EMPTY_HOT), es);
    RunCounted(cap, Shown(EMPTY_HOT), es);
    var h := HotRun(cap, EMPTY_HOT, es);
    IndexAt(s, h.Half(s), i);
    assert Counted(Shown(h).On(s));
  }
}
