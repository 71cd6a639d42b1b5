/** The C++ `OrderBook<MaxLevels>` of hotpath/src/orderbook.cpp. */
module CppBook {
  import opened Events
  import opened ArrayBook
  import opened LevelArrays

  class CppOrderBook {
    const bids: HalfBook
    const asks: HalfBook
    var orders: map<U64, Meta>

    ghost predicate Valid()
      reads this, bids, bids.levels, asks, asks.levels
    {
      && bids != asks && bids.levels != asks.levels
      && bids.side == Bid && asks.side == Ask
      && bids.levels.Length == asks.levels.Length
      && bids.Valid() && asks.Valid()
    }

    ghost function Value(): Book
      requires Valid()
      reads this, bids, bids.levels, asks, asks.levels
    {
      Book(bids.Contents(), asks.Contents(), orders)
    }

    constructor (maxLevels: nat)
      ensures Valid() && Value() == EMPTY_BOOK && bids.levels.Length == maxLevels
      ensures fresh(bids) && fresh(bids.levels) && fresh(asks) && fresh(asks.levels)
    {
      bids := new HalfBook(Bid, maxLevels);
      asks := new HalfBook(Ask, maxLevels);
      orders := map[];
    }

    method ApplyEvent(e: Event)
      requires Valid()
      modifies this, bids, bids.levels, asks, asks.levels
      ensures Valid() && Value() == ApplyTo(bids.levels.Length, old(Value()), e).0
    {
      match e.eventType {
        case 1 => AddOrder(e);
        case 2 => CancelOrder(e);
        case 3 => ReplaceOrder(e);
        case 4 => ExecuteTrade(e);
        case _ =>
      }
    }

    /** A modify is a cancel, then an add. */
    method ReplaceOrder(e: Event)
      requires Valid()
      modifies this, bids, bids.levels, asks, asks.levels
      ensures Valid() && Value() == AddTo(bids.levels.Length, CancelIn(old(Value()), e).0, e).0
    {
      CancelOrder(e);
      AddOrder(e);
    }

    method AddOrder(e: Event)
      requires Valid()
      modifies this, bids, bids.levels, asks, asks.levels
      ensures Valid() && Value() == AddTo(bids.levels.Length, old(Value()), e).0
    {
      var half := if e.side == 0 then bids else asks;
      var placed := half.Add(e.price, e.qty);
      if placed && e.orderId != 0 {
        orders := orders[e.orderId := Meta(e.price, e.qty, e.side)];
      }
    }

    method CancelOrder(e: Event)
      requires Valid()
      modifies this, bids, bids.levels, asks, asks.levels
      ensures Valid() && Value() == CancelIn(old(Value()), e).0
    {
      var price: U64, deductQty: nat, side: Byte, releaseSlot: bool;
      if e.orderId != 0 {
        if e.orderId !in orders {
          return;
        }
        var meta := orders[e.orderId];
        price, side := meta.price, meta.side;
        if e.qty == 0 || e.qty >= meta.qty {
          deductQty, releaseSlot := meta.qty, true;
          orders := orders - {e.orderId};
        } else {
          orders := orders[e.orderId := meta.(qty := meta.qty - e.qty)];
          deductQty, releaseSlot := e.qty, false;
        }
      } else {
        price, deductQty, side, releaseSlot := e.price, e.qty, e.side, true;
      }
      var half := if side == 0 then bids else asks;
      var _ := half.DeductAt(price, deductQty, releaseSlot);
    }

    method ExecuteTrade(e: Event)
      requires Valid()
      modifies this, bids, bids.levels, asks, asks.levels
      ensures Valid() && Value() == ExecuteIn(old(Value()), e).0
    {
      if e.orderId == 0 {
        var half := if e.side == 0 then bids else asks;
        var _ := half.DeductAnonAt(e.price, e.qty);
        return;
      }
      if e.orderId !in orders {
        return;
      }
      var meta := orders[e.orderId];
      var fillQty: nat := if e.qty >= meta.qty then meta.qty else e.qty;
      var fullFill := fillQty == meta.qty;
      if fullFill {
        orders := orders - {e.orderId};
      } else {
        orders := orders[e.orderId := meta.(qty := meta.qty - fillQty)];
      }
      var half := if meta.side == 0 then bids else asks;
      var _ := half.DeductAt(meta.price, fillQty, fullFill);
    }
  }
}
