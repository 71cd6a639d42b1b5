/** Fixed-width numbers, the canonical 40-byte event and the values a book is made of
    (core/src/event.rs, core/src/hot_book.rs, core/src/orderbook.rs). */
module Events {

  datatype Option<+T> = None | Some(value: T)
  datatype Result<+T, +E> = Ok(value: T) | Err(error: E)

  type Byte = x: nat | x < 0x100
  type U16 = x: nat | x < 0x1_0000
  type U32 = x: nat | x < 0x1_0000_0000
  type U64 = x: nat | x < 0x1_0000_0000_0000_0000

  datatype Side = Bid | Ask

  datatype EventType = OrderAdd | OrderCancel | OrderModify | Trade | BookSnapshot

  /** `eventType` and `side` stay raw bytes: the books are handed events that no one has validated. */
  datatype Event = Event(
    ts: U64, price: U64, qty: U64, orderId: U64, instrumentId: U32, eventType: Byte, side: Byte)

  function TypeOf(b: Byte): Option<EventType> {
    match b
    case 1 => Some(OrderAdd)
    case 2 => Some(OrderCancel)
    case 3 => Some(OrderModify)
    case 4 => Some(Trade)
    case 5 => Some(BookSnapshot)
    case _ => None
  }

  /** The array books test `side == 0` and treat every other byte as the ask side. */
  function SideOf(b: Byte): Side {
    if b == 0 then Bid else Ask
  }

  /** What the slab (and the C++ hash map) remembers about one resting order. */
  datatype Meta = Meta(price: U64, qty: U64, side: Byte)

  /** What the reference book remembers about one resting order. */
  datatype Order = Order(price: U64, qty: U64, side: Side)

  /** One aggregated price level. Totals and counts are unbounded: see `Bounds`. */
  datatype Level = Level(price: U64, qty: nat, count: nat)

  const EMPTY_LEVEL := Level(0, 0, 0)

  function Min(a: nat, b: nat): nat {
    if a <= b then a else b
  }

  function SaturatingSub(a: nat, b: nat): nat {
    if a >= b then a - b else 0
  }

  lemma {:induction false} SubsetSize<T>(a: set<T>, b: set<T>)
    requires a <= b
    ensures |a| <= |b|
  {
    if a != {} {
      var x :| x in a;
      SubsetSize(a - {x}, b - {x});
    }
  }
}
