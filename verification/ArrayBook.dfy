/** A fixed-depth array book as a value: two best-first ladders and an id -> metadata map. This is
    the state of the C++ book (hotpath/src/orderbook.cpp) and, once the slab is read as the map
    it stands for, of the Rust hot book. `ApplyRefines` takes it to the map semantics. */
module ArrayBook {
  import opened Events
  import opened Ladder
  import opened BookView

  datatype Book = Book(bids: seq<Level>, asks: seq<Level>, orders: map<U64, Meta>) {
    function Half(side: Side): seq<Level> {
      if side.Bid? then bids else asks
    }

    function WithHalf(side: Side, ls: seq<Level>): Book {
      if side.Bid? then this.(bids := ls) else this.(asks := ls)
    }
  }

  const EMPTY_BOOK := Book([], [], map[])

  function AddTo(cap: nat, b: Book, e: Event): (Book, bool) {
    var side := SideOf(e.side);
    var (ls, ok) := AddLevel(cap, side, b.Half(side), e.price, e.qty);
    var w := b.WithHalf(side, ls);
    (if ok && e.orderId != 0 then w.(orders := b.orders[e.orderId := Meta(e.price, e.qty, e.side)]) else w, ok)
  }

  function StrikeAt(b: Book, id: U64, d: nat): (Book, bool)
    requires id in b.orders && d <= b.orders[id].qty
  {
    var m := b.orders[id];
    var side := SideOf(m.side);
    var gone := d == m.qty;
    var (ls, found) := Deduct(side, b.Half(side), m.price, d, gone);
    (b.WithHalf(side, ls).(orders := if gone then b.orders - {id} else b.orders[id := m.(qty := m.qty - d)]), found)
  }

  function CancelIn(b: Book, e: Event): (Book, bool) {
    if e.orderId == 0 then
      var side := SideOf(e.side);
      var (ls, found) := Deduct(side, b.Half(side), e.price, e.qty, true);
      (b.WithHalf(side, ls), found)
    else if e.orderId !in b.orders then (b, false)
    else StrikeAt(b, e.orderId, CancelQty(b.orders[e.orderId].qty, e.qty))
  }

  function ExecuteIn(b: Book, e: Event): (Book, bool) {
    if e.orderId == 0 then
      var side := SideOf(e.side);
      var (ls, found) := DeductAnon(side, b.Half(side), e.price, e.qty);
      (b.WithHalf(side, ls), found)
    else if e.orderId !in b.orders then (b, false)
    else StrikeAt(b, e.orderId, Min(e.qty, b.orders[e.orderId].qty))
  }

  function ApplyTo(cap: nat, b: Book, e: Event): (Book, bool) {
    match TypeOf(e.eventType)
    case Some(OrderAdd) => AddTo(cap, b, e)
    case Some(OrderCancel) => CancelIn(b, e)
    case Some(OrderModify) => AddTo(cap, CancelIn(b, e).0, e)
    case Some(Trade) => ExecuteIn(b, e)
    case _ => (b, false)
  }

  function RunOn(cap: nat, b: Book, es: seq<Event>): Book
    decreases es
  {
    if es == [] then b else RunOn(cap, ApplyTo(cap, b, es[0]).0, es[1..])
  }

  /** Both ladders strictly best-first (hence price-unique) and within the depth. */
  ghost predicate Ordered(cap: nat, b: Book) {
    && Sorted(Bid, b.bids) && |b.bids| <= cap
    && Sorted(Ask, b.asks) && |b.asks| <= cap
  }

  function OrderOf(m: Meta): Order {
    Order(m.price, m.qty, SideOf(m.side))
  }

  ghost function ViewOf(b: Book): View {
    View(Index(b.bids), Index(b.asks), map id | id in b.orders :: OrderOf(b.orders[id]))
  }

  lemma AddRefines(cap: nat, b: Book, e: Event)
    requires Ordered(cap, b)
    ensures Ordered(cap, AddTo(cap, b, e).0)
    ensures ViewOf(AddTo(cap, b, e).0) == Add(cap, ViewOf(b), e).0
    ensures AddTo(cap, b, e).1 == Add(cap, ViewOf(b), e).1
  {
    var side := SideOf(e.side);
    AddLevelRefines(cap, side, b.Half(side), e.price, e.qty);
    IndexSize(side, b.Half(side));
    BindView(b, e.orderId, Meta(e.price, e.qty, e.side));
  }

  lemma BindView(b: Book, id: U64, m: Meta)
    ensures ViewOf(b.(orders := b.orders[id := m])) == ViewOf(b).(orders := ViewOf(b).orders[id := OrderOf(m)])
  {
  }

  lemma StrikeRefines(cap: nat, b: Book, id: U64, d: nat)
    requires Ordered(cap, b) && id in b.orders && d <= b.orders[id].qty
    ensures Ordered(cap, StrikeAt(b, id, d).0)
    ensures (ViewOf(StrikeAt(b, id, d).0), StrikeAt(b, id, d).1) == StrikeFound(ViewOf(b), id, d)
  {
    var m := b.orders[id];
    var side := SideOf(m.side);
    DeductRefines(side, b.Half(side), m.price, d, d == m.qty);
    assert ViewOf(b).orders[id] == OrderOf(m);
    assert ViewOf(StrikeAt(b, id, d).0).orders == Strike(ViewOf(b), id, d).orders;
  }

  lemma CancelRefines(cap: nat, b: Book, e: Event)
    requires Ordered(cap, b)
    ensures Ordered(cap, CancelIn(b, e).0)
    ensures (ViewOf(CancelIn(b, e).0), CancelIn(b, e).1) == Cancel(ViewOf(b), e)
  {
    if e.orderId == 0 {
      DeductRefines(SideOf(e.side), b.Half(SideOf(e.side)), e.price, e.qty, true);
    } else if e.orderId in b.orders {
      StrikeRefines(cap, b, e.orderId, CancelQty(b.orders[e.orderId].qty, e.qty));
    }
  }

  lemma ExecuteRefines(cap: nat, b: Book, e: Event)
    requires Ordered(cap, b)
    ensures Ordered(cap, ExecuteIn(b, e).0)
    ensures (ViewOf(ExecuteIn(b, e).0), ExecuteIn(b, e).1) == Execute(ViewOf(b), e)
  {
    if e.orderId == 0 {
      DeductAnonRefines(SideOf(e.side), b.Half(SideOf(e.side)), e.price, e.qty);
    } else if e.orderId in b.orders {
      StrikeRefines(cap, b, e.orderId, Min(e.qty, b.orders[e.orderId].qty));
    }
  }

  /** Every event, whatever its bytes: bisection, shifting and clearing amount to map updates,
      and the ladders stay sorted, price-unique and within the depth. */
  lemma ApplyRefines(cap: nat, b: Book, e: Event)
    requires Ordered(cap, b)
    ensures Ordered(cap, ApplyTo(cap, b, e).0)
    ensures (ViewOf(ApplyTo(cap, b, e).0), ApplyTo(cap, b, e).1) == Apply(cap, ViewOf(b), e)
  {
    match TypeOf(e.eventType) {
      case Some(OrderAdd) => AddRefines(cap, b, e);
      case Some(OrderCancel) => CancelRefines(cap, b, e);
      case Some(OrderModify) =>
        CancelRefines(cap, b, e);
        AddRefines(cap, CancelIn(b, e).0, e);
      case Some(Trade) => ExecuteRefines(cap, b, e);
      case _ =>
    }
  }

  lemma {:induction false} RunRefines(cap: nat, b: Book, es: seq<Event>)
    requires Ordered(cap, b)
    ensures Ordered(cap, RunOn(cap, b, es))
    ensures ViewOf(RunOn(cap, b, es)) == Run(cap, ViewOf(b), es)
    decreases es
  {
    if es != [] {
      ApplyRefines(cap, b, es[0]);
      RunRefines(cap, ApplyTo(cap, b, es[0]).0, es[1..]);
    }
  }
}
