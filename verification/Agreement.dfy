/** When do the fixed-depth book and the BTreeMap book agree? Exactly when `Agree` holds at every step. */
module Agreement {
  import opened Events
  import opened Ladder
  import opened BookView
  import opened ArrayBook
  import opened Conservation
  import opened HotBook
  import Surplus

  /** An Add agrees when both books place it, or when the reference refuses the side byte and the
      array book has no room for what it takes to be an ask. Id 0 is tracked by one book only. */
  predicate AddAgrees(cap: nat, v: View, e: Event) {
    if e.side > 1 then !Fits(cap, v.On(Ask), e.price)
    else e.orderId != 0 && Fits(cap, v.On(SideOf(e.side)), e.price)
  }

  /** Without an id only the array book would touch a level. */
  predicate NamesAnOrder(v: View, e: Event) {
    e.orderId != 0 || e.price !in v.On(SideOf(e.side))
  }

  /** Readable off the book and the event before the event is applied. */
  predicate Agree(cap: nat, v: View, e: Event) {
    match TypeOf(e.eventType)
    case Some(OrderAdd) => AddAgrees(cap, v, e)
    case Some(OrderCancel) => NamesAnOrder(v, e)
    case Some(OrderModify) => NamesAnOrder(v, e) && AddAgrees(cap, Cancel(v, e).0, e)
    case Some(Trade) => NamesAnOrder(v, e)
    case _ => true
  }

  /** A book whose levels cover their orders, within the depth, that never tracked id 0. */
  ghost predicate Common(cap: nat, v: View) {
    Covers(v) && 0 !in v.orders && |v.bids| <= cap && |v.asks| <= cap
  }

  lemma AddAgreesIff(cap: nat, v: View, e: Event)
    requires 0 !in v.orders
    ensures Add(cap, v, e) == RefAdd(v, e) <==> AddAgrees(cap, v, e)
  {
    if e.side <= 1 && e.orderId == 0 {
      assert 0 in RefAdd(v, e).0.orders;
    }
  }

  lemma CancelAgreesIff(v: View, e: Event)
    requires Covers(v) && 0 !in v.orders
    ensures Cancel(v, e) == RefCancel(v, e) <==> NamesAnOrder(v, e)
  {
    if e.orderId in v.orders {
      NoSaturation(v, e.orderId, CancelQty(v.orders[e.orderId].qty, e.qty));
    }
  }

  lemma TradeAgreesIff(v: View, e: Event)
    requires Covers(v) && 0 !in v.orders
    ensures Execute(v, e) == RefExecute(v, e) <==> NamesAnOrder(v, e)
  {
    if e.orderId in v.orders {
      NoSaturation(v, e.orderId, Min(e.qty, v.orders[e.orderId].qty));
    }
  }

  lemma ModifyAgreesIff(cap: nat, v: View, e: Event)
    requires Common(cap, v)
    ensures Add(cap, Cancel(v, e).0, e) == RefAdd(RefCancel(v, e).0, e)
            <==> NamesAnOrder(v, e) && AddAgrees(cap, Cancel(v, e).0, e)
  {
    CancelAgreesIff(v, e);
    if NamesAnOrder(v, e) {
      assert Cancel(v, e).0 == RefCancel(v, e).0;
      AddAgreesIff(cap, Cancel(v, e).0, e);
    } else {
      var side := SideOf(e.side);
      var w := Cancel(v, e).0;
      assert RefCancel(v, e).0 == v;
      assert Fits(cap, w.On(side), e.price);
      assert e.side <= 1 ==> 0 in RefAdd(v, e).0.orders;
      assert 0 !in Add(cap, w, e).0.orders;
    }
  }

  /** One step, both directions: same flag and same book if and only if the guard holds. */
  lemma AgreeIff(cap: nat, v: View, e: Event)
    requires Common(cap, v)
    ensures Apply(cap, v, e) == RefApply(v, e) <==> Agree(cap, v, e)
  {
    match TypeOf(e.eventType) {
      case Some(OrderAdd) => AddAgreesIff(cap, v, e);
      case Some(OrderCancel) => CancelAgreesIff(v, e);
      case Some(OrderModify) => ModifyAgreesIff(cap, v, e);
      case Some(Trade) => TradeAgreesIff(v, e);
      case _ =>
    }
  }

  /** The two books return the same flag and reach the same book at every step of the stream. */
  predicate InLockStep(cap: nat, v: View, es: seq<Event>)
    decreases es
  {
    es == [] || (Apply(cap, v, es[0]) == RefApply(v, es[0]) && InLockStep(cap, Apply(cap, v, es[0]).0, es[1..]))
  }

  predicate AgreeThroughout(cap: nat, v: View, es: seq<Event>)
    decreases es
  {
    es == [] || (Agree(cap, v, es[0]) && AgreeThroughout(cap, Apply(cap, v, es[0]).0, es[1..]))
  }

  lemma CancelStaysCommon(cap: nat, v: View, e: Event)
    requires Common(cap, v) && NamesAnOrder(v, e)
    ensures Common(cap, Cancel(v, e).0)
  {
    if e.orderId in v.orders {
      var d := CancelQty(v.orders[e.orderId].qty, e.qty);
      StrikeSize(v, e.orderId, d);
      StrikeCovers(v, e.orderId, d);
    }
  }

  lemma AddStaysCommon(cap: nat, v: View, e: Event)
    requires Common(cap, v) && AddAgrees(cap, v, e)
    ensures Common(cap, Add(cap, v, e).0)
  {
    if e.side <= 1 {
      PlacedCovers(v, e);
      GridAddSize(cap, v.On(SideOf(e.side)), e.price, e.qty);
    }
  }

  lemma AgreementStaysCommon(cap: nat, v: View, e: Event)
    requires Common(cap, v) && Agree(cap, v, e)
    ensures Common(cap, Apply(cap, v, e).0)
  {
    match TypeOf(e.eventType) {
      case Some(OrderAdd) => AddStaysCommon(cap, v, e);
      case Some(OrderCancel) => CancelStaysCommon(cap, v, e);
      case Some(OrderModify) =>
        CancelStaysCommon(cap, v, e);
        AddStaysCommon(cap, Cancel(v, e).0, e);
      case Some(Trade) =>
        if e.orderId in v.orders {
          var d := Min(e.qty, v.orders[e.orderId].qty);
          StrikeSize(v, e.orderId, d);
          StrikeCovers(v, e.orderId, d);
        }
      case _ =>
    }
  }

  /** Whole streams, both directions. */
  lemma {:induction false} LockStepIff(cap: nat, v: View, es: seq<Event>)
    requires Common(cap, v)
    ensures InLockStep(cap, v, es) <==> AgreeThroughout(cap, v, es)
    ensures AgreeThroughout(cap, v, es) ==> Run(cap, v, es) == RefRun(v, es)
    decreases es
  {
    if es != [] {
      AgreeIff(cap, v, es[0]);
      if Agree(cap, v, es[0]) {
        AgreementStaysCommon(cap, v, es[0]);
        LockStepIff(cap, Apply(cap, v, es[0]).0, es[1..]);
      }
    }
  }

  /** The hot book, started empty, holds the reference book's live orders and shows its levels best-first. */
  lemma HotMatchesReference(cap: nat, es: seq<Event>)
    requires AgreeThroughout(cap, EMPTY_VIEW, es)
    ensures Sound(cap, HotRun(cap, EMPTY_HOT, es))
    ensures ViewOf(BookOf(HotRun(cap, EMPTY_HOT, es))) == RefRun(EMPTY_VIEW, es)
  {
    EmptyIsConserved();
    LockStepIff(cap, EMPTY_VIEW, es);
    HotMatchesCpp(cap, EMPTY_HOT, es);
    assert BookOf(EMPTY_HOT) == EMPTY_BOOK;
    assert ViewOf(EMPTY_BOOK) == EMPTY_VIEW;
    RunRefines(cap, EMPTY_BOOK, es);
  }

  /** The hot book and the reference book, side by side: the same flag at every step, and afterwards the same orders and
      levels. */
  ghost predicate HotInLockStep(cap: nat, h: HotState, v: View, es: seq<Event>)
    requires Sound(cap, h)
    decreases es
  {
    es == []
    || (var (g, changed) := HotApply(cap, h, es[0]);
        var (w, refChanged) := RefApply(v, es[0]);
        changed == refChanged && ViewOf(BookOf(g)) == w && Sound(cap, g) && HotInLockStep(cap, g, w, es[1..]))
  }

  lemma HotStep(cap: nat, h: HotState, e: Event)
    requires Sound(cap, h)
    ensures var (g, changed) := HotApply(cap, h, e);
            Sound(cap, g) && (ViewOf(BookOf(g)), changed) == Apply(cap, ViewOf(BookOf(h)), e)
  {
    ApplyProjects(cap, h, e);
    ApplyRefines(cap, BookOf(h), e);
  }

  /** Return values included, the slab-backed book keeps step with the reference book exactly under the same condition. */
  lemma {:induction false} HotLockStepIff(cap: nat, h: HotState, es: seq<Event>)
    requires Sound(cap, h) && Common(cap, ViewOf(BookOf(h)))
    ensures HotInLockStep(cap, h, ViewOf(BookOf(h)), es) <==> AgreeThroughout(cap, ViewOf(BookOf(h)), es)
    decreases es
  {
    if es != [] {
      var v := ViewOf(BookOf(h));
      HotStep(cap, h, es[0]);
      AgreeIff(cap, v, es[0]);
      if Agree(cap, v, es[0]) {
        AgreementStaysCommon(cap, v, es[0]);
        HotLockStepIff(cap, HotApply(cap, h, es[0]).0, es[1..]);
      }
    }
  }

  /** Conservation, as the hot book's orders and ladders show it, at any depth. */
  lemma HotConserves(cap: nat, es: seq<Event>)
    requires FreshRun(cap, EMPTY_VIEW, es)
    ensures Sound(cap, HotRun(cap, EMPTY_HOT, es))
    ensures Conserved(ViewOf(BookOf(HotRun(cap, EMPTY_HOT, es))))
  {
    HotMatchesCpp(cap, EMPTY_HOT, es);
    assert BookOf(EMPTY_HOT) == EMPTY_BOOK && ViewOf(EMPTY_BOOK) == EMPTY_VIEW;
    RunRefines(cap, EMPTY_BOOK, es);
    EmptyIsConserved();
    RunConserves(cap, EMPTY_VIEW, es);
  }

  /** And exactly when: a stream of identified events leaves the hot book conserved if and only if every event keeps. */
  lemma HotConservesIff(cap: nat, es: seq<Event>)
    requires Surplus.Identified(es)
    ensures Conserved(ViewOf(BookOf(HotRun(cap, EMPTY_HOT, es)))) <==> Surplus.KeepsThroughout(cap, EMPTY_VIEW, es)
  {
    HotMatchesCpp(cap, EMPTY_HOT, es);
    assert BookOf(EMPTY_HOT) == EMPTY_BOOK && ViewOf(EMPTY_BOOK) == EMPTY_VIEW;
    RunRefines(cap, EMPTY_BOOK, es);
    EmptyIsConserved();
    Surplus.RunConservesIff(cap, EMPTY_VIEW, es);
  }

  /** Every slot in use is the sum and the (positive) count of the live orders at its side and price. */
  lemma HotLevelIsItsOrders(cap: nat, es: seq<Event>, s: Side, i: nat)
    requires FreshRun(cap, EMPTY_VIEW, es)
    requires i < |HotRun(cap, EMPTY_HOT, es).Half(s)|
    ensures var h := HotRun(cap, EMPTY_HOT, es);
            var l := h.Half(s)[i];
            var o := ViewOf(BookOf(h)).orders;
            l.qty == LiveQty(o, s, l.price) && l.count == LiveCount(o, s, l.price) && l.count > 0
  {
    HotConserves(cap, es);
    var h := HotRun(cap, EMPTY_HOT, es);
    IndexAt(s, h.Half(s), i);
    assert Exact(ViewOf(BookOf(h)), s, h.Half(s)[i].price);
  }

  // ---------------------------------------------------------------- a condition on the stream alone

  /** Prices the stream may bring to side `s`. */
  ghost function Brought(es: seq<Event>, s: Side): set<U64> {
    set i | 0 <= i < |es| && (es[i].eventType == 1 || es[i].eventType == 3) && SideOf(es[i].side) == s :: es[i].price
  }

  lemma FitsWithin(cap: nat, g: Grid, prices: set<U64>, p: U64)
    requires g.Keys <= prices && p in prices && |prices| <= cap
    ensures Fits(cap, g, p)
  {
    if p !in g {
      SubsetSize(g.Keys + {p}, prices);
    }
  }

  ghost predicate Within(cap: nat, v: View, bids: set<U64>, asks: set<U64>) {
    v.bids.Keys <= bids && v.asks.Keys <= asks && |bids| <= cap && |asks| <= cap
  }

  lemma StayWithin(cap: nat, v: View, e: Event, bids: set<U64>, asks: set<U64>)
    requires Within(cap, v, bids, asks) && e.side <= 1 && e.orderId != 0
    requires e.eventType == 1 || e.eventType == 3 ==> e.price in if e.side == 0 then bids else asks
    ensures Agree(cap, v, e) && Within(cap, Apply(cap, v, e).0, bids, asks)
  {
    var w := Cancel(v, e).0;
    assert Within(cap, w, bids, asks);
    if e.eventType == 1 || e.eventType == 3 {
      FitsWithin(cap, v.On(SideOf(e.side)), if e.side == 0 then bids else asks, e.price);
      FitsWithin(cap, w.On(SideOf(e.side)), if e.side == 0 then bids else asks, e.price);
    }
  }

  /** Conformant streams agree: known sides, nonzero ids (reuse allowed) and at most `cap` prices per side. */
  lemma {:induction false} ConformantStreamsAgree(cap: nat, v: View, es: seq<Event>, bids: set<U64>, asks: set<U64>)
    requires forall i :: 0 <= i < |es| ==> es[i].side <= 1 && es[i].orderId != 0
    requires Within(cap, v, bids, asks) && Brought(es, Bid) <= bids && Brought(es, Ask) <= asks
    ensures AgreeThroughout(cap, v, es)
    decreases es
  {
    if es != [] {
      var e := es[0];
      assert e.eventType == 1 || e.eventType == 3 ==> e.price in Brought(es, SideOf(e.side));
      StayWithin(cap, v, e, bids, asks);
      forall s
        ensures Brought(es[1..], s) <= Brought(es, s)
      {
        forall p | p in Brought(es[1..], s) ensures p in Brought(es, s) {
          var i :| 0 <= i < |es| - 1 && (es[1..][i].eventType == 1 || es[1..][i].eventType == 3)
                   && SideOf(es[1..][i].side) == s && es[1..][i].price == p;
          assert es[i + 1] == es[1..][i];
        }
      }
      ConformantStreamsAgree(cap, Apply(cap, v, e).0, es[1..], bids, asks);
    }
  }

  // ---------------------------------------------------------------- where the claim of universal agreement fails

  /** Depth 1, two bid prices: the reference keeps both, the array book drops the second. */
  lemma DepthBreaksAgreement()
    ensures var es := [Event(0, 100, 5, 1, 0, 1, 0), Event(0, 101, 5, 2, 0, 1, 0)];
            !InLockStep(1, EMPTY_VIEW, es) && Run(1, EMPTY_VIEW, es) != RefRun(EMPTY_VIEW, es)
  {
    var e, f := Event(0, 100, 5, 1, 0, 1, 0), Event(0, 101, 5, 2, 0, 1, 0);
    var es := [e, f];
    assert es[1..] == [f] && es[1..][1..] == [];
    var v := Apply(1, EMPTY_VIEW, e).0;
    assert v == RefApply(EMPTY_VIEW, e).0 == View(map[100 := Level(100, 5, 1)], map[], map[1 := Order(100, 5, Bid)]);
    assert Apply(1, v, f) == (v, false);
    assert Run(1, v, [f]) == v;
    assert RefRun(v, [f]) == RefApply(v, f).0;
    assert 2 in RefApply(v, f).0.orders;
  }
}
