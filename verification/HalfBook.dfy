/** One side of an array book: a fixed array of levels whose first `count` entries are in use,
    searched by bisection and shifted in place (core/src/hot_book.rs and hotpath/src/orderbook.cpp
    work on such a `(levels, count)` pair, chosen by side). */
module LevelArrays {
  import opened Events
  import opened Ladder

  class HalfBook {
    const side: Side
    const levels: array<Level>
    var count: nat

    /** In use: best-first. Not in use: cleared. */
    ghost predicate Valid()
      reads this, levels
    {
      && count <= levels.Length
      && Sorted(side, levels[..count])
      && forall i :: count <= i < levels.Length ==> levels[i] == EMPTY_LEVEL
    }

    ghost function Contents(): seq<Level>
      requires count <= levels.Length
      reads this, levels
    {
      levels[..count]
    }

    constructor (side: Side, cap: nat)
      ensures Valid() && fresh(levels) && this.side == side && levels.Length == cap && Contents() == []
    {
      this.side := side;
      levels := new Level[cap](i => EMPTY_LEVEL);
      count := 0;
    }

    /** A half book holding exactly `ls`, the rest cleared: how a decoded snapshot fills its arrays. */
    constructor Load(side: Side, cap: nat, ls: seq<Level>)
      requires Sorted(side, ls) && |ls| <= cap
      ensures Valid() && fresh(levels) && this.side == side && levels.Length == cap && Contents() == ls
    {
      this.side := side;
      levels := new Level[cap](i => if 0 <= i < |ls| then ls[i] else EMPTY_LEVEL);
      count := |ls|;
      new;
      assert levels[..count] == ls;
    }

    /** Bisection on the predicate "strictly better than `price`". */
    method PartitionPoint(price: U64) returns (lo: nat)
      requires Valid()
      ensures lo == Rank(side, Contents(), price)
    {
      ghost var ls := Contents();
      lo := 0;
      var hi := count;
      while lo < hi
        invariant lo <= hi <= count
        invariant forall i :: 0 <= i < lo ==> Better(side, ls[i].price, price)
        invariant forall i :: hi <= i < count ==> !Better(side, ls[i].price, price)
      {
        var mid := lo + (hi - lo) / 2;
        assert levels[mid] == ls[mid];
        if Better(side, levels[mid].price, price) {
          lo := mid + 1;
        } else {
          hi := mid;
        }
      }
      PartitionIsRank(side, ls, price, lo);
    }

    method FindLevel(price: U64) returns (r: Option<nat>)
      requires Valid()
      ensures r == Find(side, Contents(), price)
      ensures r.Some? ==> r.value < count
    {
      var pos := PartitionPoint(price);
      if pos < count && levels[pos].price == price {
        r := Some(pos);
      } else {
        r := None;
      }
    }

    /** Join the level at `price`, opening a slot for it when there is none and room is left. */
    method Add(price: U64, qty: nat) returns (ok: bool)
      requires Valid()
      modifies this`count, levels
      ensures Valid()
      ensures (Contents(), ok) == AddLevel(levels.Length, side, old(Contents()), price, qty)
    {
      AddLevelRefines(levels.Length, side, Contents(), price, qty);
      var pos := PartitionPoint(price);
      if pos < count && levels[pos].price == price {
        levels[pos] := Level(price, levels[pos].qty + qty, levels[pos].count + 1);
        ok := true;
      } else if count >= levels.Length {
        ok := false;
      } else {
        OpenSlot(pos, Level(price, qty, 1));
        ok := true;
      }
    }

    /** Shift the tail right and write `l` into the gap. */
    method OpenSlot(pos: nat, l: Level)
      requires Valid() && pos <= count < levels.Length
      requires Sorted(side, InsertAt(Contents(), pos, l))
      modifies this`count, levels
      ensures Valid()
      ensures Contents() == InsertAt(old(Contents()), pos, l)
    {
      forall k | pos <= k < count {
        levels[k + 1] := levels[k];
      }
      levels[pos] := l;
      count := count + 1;
      assert Contents() == InsertAt(old(Contents()), pos, l);
    }

    method RemoveLevel(i: nat)
      requires Valid() && i < count
      modifies this`count, levels
      ensures Valid()
      ensures Contents() == RemoveAt(old(Contents()), i)
    {
      RemoveSorts(side, Contents(), i);
      forall k | i <= k < count - 1 {
        levels[k] := levels[k + 1];
      }
      levels[count - 1] := EMPTY_LEVEL;
      count := count - 1;
      assert Contents() == RemoveAt(old(Contents()), i);
    }

    /** Take `qty` units, and one order when `release`, out of the level in slot `i`. */
    method Draw(i: nat, qty: nat, release: bool)
      requires Valid() && i < count
      modifies this`count, levels
      ensures Valid()
      ensures Contents() == Replace(old(Contents()), i, Drawn(old(Contents())[i], qty, release))
    {
      ghost var ls := Contents();
      var l := levels[i];
      levels[i] := l.(qty := SaturatingSub(l.qty, qty));
      assert Contents() == ls[i := levels[i]];
      if release {
        levels[i] := levels[i].(count := SaturatingSub(l.count, 1));
        assert Contents() == ls[i := levels[i]];
        if levels[i].count == 0 {
          RemoveLevel(i);
          assert RemoveAt(ls[i := Level(l.price, SaturatingSub(l.qty, qty), 0)], i) == RemoveAt(ls, i);
        }
      }
    }

    method DeductAt(price: U64, qty: nat, release: bool) returns (found: bool)
      requires Valid()
      modifies this`count, levels
      ensures Valid()
      ensures (Contents(), found) == Deduct(side, old(Contents()), price, qty, release)
    {
      var f := FindLevel(price);
      found := f.Some?;
      if found {
        Draw(f.value, qty, release);
      }
    }

    /** Deduction that names no order: an order is released only when the level's quantity runs out. */
    method DeductAnonAt(price: U64, qty: nat) returns (found: bool)
      requires Valid()
      modifies this`count, levels
      ensures Valid()
      ensures (Contents(), found) == DeductAnon(side, old(Contents()), price, qty)
    {
      var f := FindLevel(price);
      found := f.Some?;
      if found {
        Draw(f.value, qty, SaturatingSub(levels[f.value].qty, qty) == 0);
      }
    }
  }
}
