/** The BTreeMap/HashMap book of core/src/orderbook.rs, updated in place. */
module ReferenceBook {
  import opened Events
  import opened Ladder
  import opened BookView

  class OrderBook {
    const instrumentId: U32
    var bids: Grid
    var asks: Grid
    var orders: map<U64, Order>

    ghost function Value(): View
      reads this
    {
      View(bids, asks, orders)
    }

    constructor (instrumentId: U32)
      ensures Value() == EMPTY_VIEW && this.instrumentId == instrumentId
    {
      this.instrumentId := instrumentId;
      bids, asks, orders := map[], map[], map[];
    }

    method ApplyEvent(e: Event) returns (changed: bool)
      modifies this
      ensures (Value(), changed) == RefApply(old(Value()), e)
    {
      match TypeOf(e.eventType) {
        case None =>
          changed := false;
        case Some(t) =>
          match t {
            case OrderAdd => changed := AddOrder(e);
            case OrderCancel => changed := CancelOrder(e);
            case OrderModify => changed := ModifyOrder(e);
            case Trade => changed := ExecuteTrade(e);
            case BookSnapshot => changed := false;
          }
      }
    }

    method AddOrder(e: Event) returns (changed: bool)
      modifies this
      ensures (Value(), changed) == RefAdd(old(Value()), e)
    {
      if e.side > 1 {
        return false;
      }
      var levels := if e.side == 0 then bids else asks;
      var level := if e.price in levels then levels[e.price] else Level(e.price, 0, 0);
      level := level.(qty := level.qty + e.qty, count := level.count + 1);
      levels := levels[e.price := level];
      if e.side == 0 {
        bids := levels;
      } else {
        asks := levels;
      }
      orders := orders[e.orderId := Order(e.price, e.qty, SideOf(e.side))];
      return true;
    }

    method CancelOrder(e: Event) returns (changed: bool)
      modifies this
      ensures (Value(), changed) == RefCancel(old(Value()), e)
    {
      if e.orderId !in orders {
        return false;
      }
      var order := orders[e.orderId];
      var deduct: nat;
      var release;
      if e.qty == 0 || e.qty >= order.qty {
        deduct, release := order.qty, true;
        orders := orders - {e.orderId};
      } else {
        deduct, release := e.qty, false;
        orders := orders[e.orderId := order.(qty := order.qty - e.qty)];
      }
      var levels := if order.side.Bid? then bids else asks;
      if order.price in levels {
        var level := levels[order.price];
        level := level.(qty := SaturatingSub(level.qty, deduct));
        if release {
          level := level.(count := SaturatingSub(level.count, 1));
        }
        if release && level.count == 0 {
          levels := levels - {order.price};
        } else {
          levels := levels[order.price := level];
        }
      }
      if order.side.Bid? {
        bids := levels;
      } else {
        asks := levels;
      }
      return true;
    }

    method ModifyOrder(e: Event) returns (changed: bool)
      modifies this
      ensures (Value(), changed) == RefAdd(RefCancel(old(Value()), e).0, e)
    {
      var _ := CancelOrder(e);
      changed := AddOrder(e);
    }

    method ExecuteTrade(e: Event) returns (changed: bool)
      modifies this
      ensures (Value(), changed) == RefExecute(old(Value()), e)
    {
      if e.orderId !in orders {
        return false;
      }
      var oldQty: nat := orders[e.orderId].qty;
      var order := orders[e.orderId].(qty := SaturatingSub(oldQty, e.qty));
      orders := orders[e.orderId := order];
      var levels := if order.side.Bid? then bids else asks;
      if order.price in levels {
        var level := levels[order.price];
        level := level.(qty := SaturatingSub(level.qty, Min(e.qty, oldQty)));
        if order.qty == 0 {
          level := level.(count := SaturatingSub(level.count, 1));
        }
        if order.qty == 0 && level.count == 0 {
          levels := levels - {order.price};
        } else {
          levels := levels[order.price := level];
        }
      }
      if order.side.Bid? {
        bids := levels;
      } else {
        asks := levels;
      }
      if order.qty == 0 {
        orders := orders - {e.orderId};
        assert orders == old(orders) - {e.orderId};
      }
      return true;
    }
  }
}
