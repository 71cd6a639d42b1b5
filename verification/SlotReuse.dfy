/** How the slab recycles storage (core/src/hot_book.rs): the slot freed last is used first, an order keeps its slot for
    life, and storage grows only when more orders are live than ever before. */
module SlotReuse {
  import opened Events
  import opened Ladder
  import opened ArrayBook
  import opened OrderStore
  import opened HotBook

  // ---------------------------------------------------------------- single operations

  /** Storage is as large as the most orders it has held. */
  lemma InsertGrows(s: Slab, id: U64, m: Meta)
    requires WellFormed(s)
    ensures var r := Insert(s, id, m); |r.data| == if |s.data| < |r.index| then |r.index| else |s.data|
    ensures |s.index| <= |Insert(s, id, m).index|
  {
    OrderStore.InsertRefines(s, id, m);
    if id in s.index {
      assert Insert(s, id, m).index == s.index;
    } else {
      assert Insert(s, id, m).index.Keys == s.index.Keys + {id};
    }
  }

  lemma RemoveShrinks(s: Slab, id: U64)
    requires WellFormed(s)
    ensures |Remove(s, id).data| == |s.data| && |Remove(s, id).index| <= |s.index|
  {
    if id in s.index {
      UnbindKeepsIndex(s.data, s.index, id);
    }
  }

  /** The next new order takes the slot of the order that left last, and the storage is otherwise as if neither had moved. */
  lemma LastFreedFirstUsed(s: Slab, a: U64, b: U64, m: Meta)
    requires WellFormed(s) && a in s.index && (b == a || b !in s.index)
    ensures WellFormed(Remove(s, a))
    ensures Insert(Remove(s, a), b, m) == Slab(s.data[s.index[a] := m], s.free, (s.index - {a})[b := s.index[a]])
  {
    OrderStore.RemoveRefines(s, a);
    assert (s.free + [s.index[a]])[..|s.free|] == s.free;
  }

  /** Slots come back in the reverse of the order in which they were freed. */
  lemma SlotsComeBackReversed(s: Slab, a: U64, c: U64, b: U64, d: U64, m: Meta, k: Meta)
    requires WellFormed(s) && a in s.index && c in s.index && a != c && b != d && b !in s.index && d !in s.index
    ensures var gone := Remove(s, a);
            WellFormed(gone) && WellFormed(Remove(gone, c)) && WellFormed(Insert(Remove(gone, c), b, m))
    ensures var r := Insert(Insert(Remove(Remove(s, a), c), b, m), d, k);
            r.index[b] == s.index[c] && r.index[d] == s.index[a] && |r.data| == |s.data| && r.free == s.free
  {
    var gone := Remove(s, a);
    LastFreedFirstUsed(s, a, a, m);
    LastFreedFirstUsed(gone, c, b, m);
    var t := Insert(Remove(gone, c), b, m);
    OrderStore.RemoveRefines(gone, c);
    OrderStore.InsertRefines(Remove(gone, c), b, m);
    assert t.free == s.free + [s.index[a]] && (s.free + [s.index[a]])[..|s.free|] == s.free;
  }

  // ---------------------------------------------------------------- one event

  /** An order that is live before and after has not moved. */
  ghost predicate SlotsStay(s: Slab, r: Slab) {
    forall id :: id in s.index && id in r.index ==> r.index[id] == s.index[id]
  }

  lemma InsertStays(s: Slab, id: U64, m: Meta)
    requires WellFormed(s)
    ensures SlotsStay(s, Insert(s, id, m))
  {
  }

  lemma ReplaceStays(s: Slab, id: U64, m: Meta)
    requires WellFormed(s)
    ensures WellFormed(Remove(s, id)) && SlotsStay(s, Insert(Remove(s, id), id, m))
  {
    OrderStore.RemoveRefines(s, id);
    if id in s.index {
      LastFreedFirstUsed(s, id, id, m);
    } else {
      InsertStays(s, id, m);
    }
  }

  lemma AddStays(cap: nat, h: HotState, e: Event)
    requires WellFormed(h.slab)
    ensures var r := HotAdd(cap, h, e).0.slab;
            && SlotsStay(h.slab, r) && |h.slab.index| <= |r.index|
            && |r.data| == if |h.slab.data| < |r.index| then |r.index| else |h.slab.data|
  {
    InsertStays(h.slab, e.orderId, Meta(e.price, e.qty, e.side));
    InsertGrows(h.slab, e.orderId, Meta(e.price, e.qty, e.side));
  }

  /** What a cancel or a trade may do to the slab. */
  ghost predicate Reduced(s: Slab, r: Slab, id: U64)
    requires WellFormed(s)
  {
    r == s || r == Remove(s, id) || (r.index == s.index && r.free == s.free && |r.data| == |s.data|)
  }

  lemma CancelReduces(h: HotState, e: Event)
    requires WellFormed(h.slab)
    ensures Reduced(h.slab, HotCancel(h, e).0.slab, e.orderId)
  {
  }

  lemma TradeReduces(h: HotState, e: Event)
    requires WellFormed(h.slab)
    ensures Reduced(h.slab, HotTrade(h, e).0.slab, e.orderId)
  {
  }

  lemma ReducedStays(s: Slab, r: Slab, id: U64)
    requires WellFormed(s) && Reduced(s, r, id)
    ensures SlotsStay(s, r) && |r.data| == |s.data| && |r.index| <= |s.index|
  {
    RemoveShrinks(s, id);
  }

  lemma ReducedThenAdded(s: Slab, r: Slab, id: U64, m: Meta)
    requires WellFormed(s) && WellFormed(r) && Reduced(s, r, id)
    ensures SlotsStay(s, Insert(r, id, m))
  {
    ReplaceStays(s, id, m);
    InsertStays(r, id, m);
  }

  lemma ModifyStays(cap: nat, h: HotState, e: Event)
    requires WellFormed(h.slab)
    ensures WellFormed(HotCancel(h, e).0.slab)
    ensures var r := HotAdd(cap, HotCancel(h, e).0, e).0.slab;
            && SlotsStay(h.slab, r)
            && |r.data| == if |h.slab.data| < |r.index| then |r.index| else |h.slab.data|
  {
    var c := HotCancel(h, e).0;
    CancelProjects(h, e);
    CancelReduces(h, e);
    ReducedStays(h.slab, c.slab, e.orderId);
    AddStays(cap, c, e);
    ReducedThenAdded(h.slab, c.slab, e.orderId, Meta(e.price, e.qty, e.side));
  }

  /** One event: live orders stay where they are, a modified one too, and the storage grows only to hold more live
      orders than it has slots. */
  lemma StepStays(cap: nat, h: HotState, e: Event)
    requires WellFormed(h.slab)
    ensures var r := HotApply(cap, h, e).0.slab;
            && SlotsStay(h.slab, r)
            && |r.data| == if |h.slab.data| < |r.index| then |r.index| else |h.slab.data|
  {
    match TypeOf(e.eventType) {
      case Some(OrderAdd) => AddStays(cap, h, e);
      case Some(OrderCancel) =>
        CancelReduces(h, e);
        ReducedStays(h.slab, HotCancel(h, e).0.slab, e.orderId);
      case Some(OrderModify) => ModifyStays(cap, h, e);
      case Some(Trade) =>
        TradeReduces(h, e);
        ReducedStays(h.slab, HotTrade(h, e).0.slab, e.orderId);
      case _ =>
    }
  }

  // ---------------------------------------------------------------- runs

  /** The most orders live at once, before, between and after the events. */
  function MostLive(cap: nat, h: HotState, es: seq<Event>): nat
    requires WellFormed(h.slab)
    decreases es
  {
    if es == [] then |h.slab.index|
    else
      var later := MostLive(cap, HotApply(cap, h, es[0]).0, es[1..]);
      if later < |h.slab.index| then |h.slab.index| else later
  }

  /** No slot leaks: after any stream the storage is what it was, or as large as the most orders live at once. */
  lemma {:induction false} StorageIsPeak(cap: nat, h: HotState, es: seq<Event>)
    requires WellFormed(h.slab)
    ensures MostLive(cap, h, es) >= |h.slab.index|
    ensures var m := MostLive(cap, h, es);
            |HotRun(cap, h, es).slab.data| == if |h.slab.data| < m then m else |h.slab.data|
    decreases es
  {
    if es != [] {
      StepStays(cap, h, es[0]);
      StorageIsPeak(cap, HotApply(cap, h, es[0]).0, es[1..]);
    }
  }

  /** The order is live before, between and after the events. */
  ghost predicate LiveThroughout(cap: nat, h: HotState, es: seq<Event>, id: U64)
    requires WellFormed(h.slab)
    decreases es
  {
    id in h.slab.index && (es != [] ==> LiveThroughout(cap, HotApply(cap, h, es[0]).0, es[1..], id))
  }

  /** An order keeps its slot as long as it lives. */
  lemma {:induction false} SlotForLife(cap: nat, h: HotState, es: seq<Event>, id: U64)
    requires WellFormed(h.slab) && LiveThroughout(cap, h, es, id)
    ensures id in HotRun(cap, h, es).slab.index
    ensures HotRun(cap, h, es).slab.index[id] == h.slab.index[id]
    decreases es
  {
    if es != [] {
      StepStays(cap, h, es[0]);
      SlotForLife(cap, HotApply(cap, h, es[0]).0, es[1..], id);
    }
  }

  /** The book of one order. */
  function Only(x: Event): HotState {
    EMPTY_HOT.WithHalf(SideOf(x.side), [Level(x.price, x.qty, 1)])
      .(slab := Slab([Meta(x.price, x.qty, x.side)], [], map[x.orderId := 0]))
  }

  /** The empty book in which slot 0 is free. */
  function Vacated(m: Meta): HotState {
    Hot([], [], Slab([m], [0], map[]))
  }

  lemma FirstAdd(cap: nat, x: Event)
    requires cap > 0 && x.eventType == 1 && x.orderId != 0
    ensures HotApply(cap, EMPTY_HOT, x).0 == Only(x)
  {
  }

  lemma OnlyDelete(cap: nat, x: Event, d: Event)
    requires d.eventType == 2 && d.qty == 0 && d.orderId == x.orderId != 0
    ensures WellFormed(Only(x).slab) && HotApply(cap, Only(x), d).0 == Vacated(Meta(x.price, x.qty, x.side))
  {
    var side, l := SideOf(x.side), Level(x.price, x.qty, 1);
    assert Deduct(side, [l], x.price, x.qty, true) == ([], true) by {
      assert Find(side, [l], x.price) == Some(0);
      assert RemoveAt([l], 0) == [];
    }
    assert map[x.orderId := 0] - {x.orderId} == map[];
  }

  lemma NextAdd(cap: nat, m: Meta, y: Event)
    requires cap > 0 && y.eventType == 1 && y.orderId != 0
    ensures WellFormed(Vacated(m).slab)
    ensures HotApply(cap, Vacated(m), y).0.slab == Slab([Meta(y.price, y.qty, y.side)], [], map[y.orderId := 0])
  {
    assert [m][0 := Meta(y.price, y.qty, y.side)] == [Meta(y.price, y.qty, y.side)];
  }

  lemma RunOfThree(cap: nat, h: HotState, x: Event, d: Event, y: Event)
    requires WellFormed(h.slab)
    ensures HotRun(cap, h, [x, d, y]) == HotApply(cap, HotApply(cap, HotApply(cap, h, x).0, d).0, y).0
  {
    var h1 := HotApply(cap, h, x).0;
    var h2 := HotApply(cap, h1, d).0;
    assert HotRun(cap, h, [x, d, y]) == HotRun(cap, h1, [d, y]) by { assert [x, d, y][1..] == [d, y]; }
    assert HotRun(cap, h1, [d, y]) == HotRun(cap, h2, [y]) by { assert [d, y][1..] == [y]; }
    assert HotRun(cap, h2, [y]) == HotRun(cap, HotApply(cap, h2, y).0, []) by { assert [y][1..] == []; }
  }

  /** Add, delete, add: the second order is stored where the first one was. */
  lemma AddDeleteAdd(cap: nat, x: Event, d: Event, y: Event)
    requires cap > 0 && x.eventType == 1 && d.eventType == 2 && y.eventType == 1 && d.qty == 0
    requires x.orderId != 0 && y.orderId != 0 && d.orderId == x.orderId
    ensures HotRun(cap, EMPTY_HOT, [x, d, y]).slab
            == Slab([Meta(y.price, y.qty, y.side)], [], map[y.orderId := 0])
  {
    FirstAdd(cap, x);
    OnlyDelete(cap, x, d);
    NextAdd(cap, Meta(x.price, x.qty, x.side), y);
    RunOfThree(cap, EMPTY_HOT, x, d, y);
  }
}
