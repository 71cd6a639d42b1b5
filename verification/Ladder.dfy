/** One side of a book as a best-first list of price levels, and the same side as a map from
    price to level. The list operations are what the array books do; the map operations are
    what the BTreeMap book does; the `...Refines` lemmas connect them. */
module Ladder {
  import opened Events

  type Grid = map<U64, Level>

  predicate Better(side: Side, a: U64, b: U64) {
    if side.Bid? then a > b else a < b
  }

  /** Strictly best-first, hence price-unique. */
  ghost predicate Sorted(side: Side, ls: seq<Level>) {
    forall i, j :: 0 <= i < j < |ls| ==> Better(side, ls[i].price, ls[j].price)
  }

  // ---------------------------------------------------------------- list operations

  /** How many leading levels are strictly better than `p`: what `partition_point` returns. */
  function Rank(side: Side, ls: seq<Level>, p: U64): (k: nat)
    ensures k <= |ls|
  {
    if ls == [] || !Better(side, ls[0].price, p) then 0 else 1 + Rank(side, ls[1..], p)
  }

  function Find(side: Side, ls: seq<Level>, p: U64): (r: Option<nat>)
    ensures r.Some? ==> r.value < |ls| && ls[r.value].price == p
  {
    var k := Rank(side, ls, p);
    if k < |ls| && ls[k].price == p then Some(k) else None
  }

  function InsertAt(ls: seq<Level>, k: nat, l: Level): seq<Level>
    requires k <= |ls|
  {
    ls[..k] + [l] + ls[k..]
  }

  function RemoveAt(ls: seq<Level>, k: nat): seq<Level>
    requires k < |ls|
  {
    ls[..k] + ls[k + 1..]
  }

  /** An order of `q` joins the level at `p`; a level that does not fit `cap` is refused. */
  function AddLevel(cap: nat, side: Side, ls: seq<Level>, p: U64, q: nat): (seq<Level>, bool) {
    var k := Rank(side, ls, p);
    if k < |ls| && ls[k].price == p then
      (ls[k := Level(p, ls[k].qty + q, ls[k].count + 1)], true)
    else if |ls| >= cap then (ls, false)
    else (InsertAt(ls, k, Level(p, q, 1)), true)
  }

  /** Level `l` after `q` units, and one order when `release`, have left it; None once it is empty of orders. */
  function Drawn(l: Level, q: nat, release: bool): Option<Level> {
    var qty := SaturatingSub(l.qty, q);
    if !release then Some(l.(qty := qty))
    else if l.count <= 1 then None
    else Some(Level(l.price, qty, l.count - 1))
  }

  /** Deduction without an order id: an order leaves only when the quantity reaches zero. */
  function DrawnAnon(l: Level, q: nat): Option<Level> {
    Drawn(l, q, SaturatingSub(l.qty, q) == 0)
  }

  function Replace(ls: seq<Level>, k: nat, l: Option<Level>): seq<Level>
    requires k < |ls|
  {
    if l.Some? then ls[k := l.value] else RemoveAt(ls, k)
  }

  function Deduct(side: Side, ls: seq<Level>, p: U64, q: nat, release: bool): (seq<Level>, bool) {
    match Find(side, ls, p)
    case None => (ls, false)
    case Some(k) => (Replace(ls, k, Drawn(ls[k], q, release)), true)
  }

  function DeductAnon(side: Side, ls: seq<Level>, p: U64, q: nat): (seq<Level>, bool) {
    match Find(side, ls, p)
    case None => (ls, false)
    case Some(k) => (Replace(ls, k, DrawnAnon(ls[k], q)), true)
  }

  // ---------------------------------------------------------------- map operations

  function GridAdd(g: Grid, p: U64, q: nat): Grid {
    if p in g then g[p := g[p].(qty := g[p].qty + q, count := g[p].count + 1)] else g[p := Level(p, q, 1)]
  }

  function GridPut(g: Grid, p: U64, l: Option<Level>): Grid {
    if l.Some? then g[p := l.value] else g - {p}
  }

  function GridDeduct(g: Grid, p: U64, q: nat, release: bool): Grid {
    if p in g then GridPut(g, p, Drawn(g[p], q, release)) else g
  }

  function GridDeductAnon(g: Grid, p: U64, q: nat): Grid {
    if p in g then GridPut(g, p, DrawnAnon(g[p], q)) else g
  }

  // ---------------------------------------------------------------- the two agree

  /** Forget the order of the list. */
  ghost function Index(ls: seq<Level>): Grid {
    if ls == [] then map[] else Index(ls[1..])[ls[0].price := ls[0]]
  }

  lemma {:induction false} IndexAt(side: Side, ls: seq<Level>, i: nat)
    requires Sorted(side, ls) && i < |ls|
    ensures ls[i].price in Index(ls) && Index(ls)[ls[i].price] == ls[i]
  {
    if i > 0 {
      IndexAt(side, ls[1..], i - 1);
      assert Better(side, ls[0].price, ls[i].price);
    }
  }

  lemma {:induction false} IndexWitness(ls: seq<Level>, p: U64) returns (i: nat)
    requires p in Index(ls)
    ensures i < |ls| && ls[i].price == p && ls[i] == Index(ls)[p]
  {
    if ls[0].price == p {
      i := 0;
    } else {
      i := IndexWitness(ls[1..], p);
      i := i + 1;
    }
  }

  lemma {:induction false} RankIsPartition(side: Side, ls: seq<Level>, p: U64)
    requires Sorted(side, ls)
    ensures forall i :: 0 <= i < Rank(side, ls, p) ==> Better(side, ls[i].price, p)
    ensures forall i :: Rank(side, ls, p) <= i < |ls| ==> !Better(side, ls[i].price, p)
  {
    if ls != [] && Better(side, ls[0].price, p) {
      RankIsPartition(side, ls[1..], p);
    }
  }

  /** Any index that splits the list like a partition point is the rank: the binary search's exit condition. */
  lemma {:induction false} PartitionIsRank(side: Side, ls: seq<Level>, p: U64, k: nat)
    requires k <= |ls|
    requires forall i :: 0 <= i < k ==> Better(side, ls[i].price, p)
    requires forall i :: k <= i < |ls| ==> !Better(side, ls[i].price, p)
    ensures k == Rank(side, ls, p)
  {
    if k > 0 {
      PartitionIsRank(side, ls[1..], p, k - 1);
    }
  }

  /** Binary search is complete: it finds the level exactly when some level has that price. */
  lemma FindIsLookup(side: Side, ls: seq<Level>, p: U64)
    requires Sorted(side, ls)
    ensures Find(side, ls, p).Some? <==> p in Index(ls)
    ensures Find(side, ls, p).Some? ==> ls[Find(side, ls, p).value] == Index(ls)[p]
  {
    if p in Index(ls) {
      var i := IndexWitness(ls, p);
      PartitionIsRank(side, ls, p, i);
    } else if Find(side, ls, p).Some? {
      IndexAt(side, ls, Find(side, ls, p).value);
    }
  }

  lemma InsertSorts(side: Side, ls: seq<Level>, l: Level)
    requires Sorted(side, ls) && l.price !in Index(ls)
    ensures Sorted(side, InsertAt(ls, Rank(side, ls, l.price), l))
  {
    var k := Rank(side, ls, l.price);
    var r := InsertAt(ls, k, l);
    RankIsPartition(side, ls, l.price);
    forall i, j | 0 <= i < j < |r|
      ensures Better(side, r[i].price, r[j].price)
    {
      if i < k {
        assert r[i] == ls[i];
      } else if i > k {
        assert r[i] == ls[i - 1];
      }
      if j < k {
        assert r[j] == ls[j];
      } else if j > k {
        assert r[j] == ls[j - 1];
        IndexAt(side, ls, j - 1);
      }
    }
  }

  lemma {:induction false} InsertRefines(side: Side, ls: seq<Level>, l: Level)
    requires Sorted(side, ls) && l.price !in Index(ls)
    ensures Sorted(side, InsertAt(ls, Rank(side, ls, l.price), l))
    ensures Index(InsertAt(ls, Rank(side, ls, l.price), l)) == Index(ls)[l.price := l]
  {
    InsertSorts(side, ls, l);
    IndexOfInsert(ls, Rank(side, ls, l.price), l);
  }

  lemma {:induction false} IndexOfInsert(ls: seq<Level>, k: nat, l: Level)
    requires k <= |ls| && l.price !in Index(ls)
    ensures Index(InsertAt(ls, k, l)) == Index(ls)[l.price := l]
  {
    var r := InsertAt(ls, k, l);
    if k == 0 {
      assert r == [l] + ls && r[1..] == ls;
    } else {
      assert r[1..] == InsertAt(ls[1..], k - 1, l);
      IndexOfInsert(ls[1..], k - 1, l);
    }
  }

  lemma RemoveSorts(side: Side, ls: seq<Level>, k: nat)
    requires Sorted(side, ls) && k < |ls|
    ensures Sorted(side, RemoveAt(ls, k))
  {
    var r := RemoveAt(ls, k);
    forall i, j | 0 <= i < j < |r|
      ensures Better(side, r[i].price, r[j].price)
    {
      var i', j' := if i < k then i else i + 1, if j < k then j else j + 1;
      assert r[i] == ls[i'] && r[j] == ls[j'];
    }
  }

  lemma {:induction false} IndexOfRemove(side: Side, ls: seq<Level>, k: nat)
    requires Sorted(side, ls) && k < |ls|
    ensures Index(RemoveAt(ls, k)) == Index(ls) - {ls[k].price}
  {
    var r := RemoveAt(ls, k);
    if k == 0 {
      assert r == ls[1..];
      HeadIsBest(side, ls);
    } else {
      assert r[1..] == RemoveAt(ls[1..], k - 1);
      IndexOfRemove(side, ls[1..], k - 1);
      assert Better(side, ls[0].price, ls[k].price);
    }
  }

  lemma {:induction false} IndexOfUpdate(side: Side, ls: seq<Level>, k: nat, l: Level)
    requires Sorted(side, ls) && k < |ls| && l.price == ls[k].price
    ensures Index(ls[k := l]) == Index(ls)[l.price := l]
  {
    var r := ls[k := l];
    if k == 0 {
      assert r[1..] == ls[1..];
    } else {
      assert r[1..] == ls[1..][k - 1 := l];
      IndexOfUpdate(side, ls[1..], k - 1, l);
      assert Better(side, ls[0].price, ls[k].price);
    }
  }

  lemma ReplaceRefines(side: Side, ls: seq<Level>, k: nat, l: Option<Level>)
    requires Sorted(side, ls) && k < |ls| && (l.Some? ==> l.value.price == ls[k].price)
    ensures Sorted(side, Replace(ls, k, l))
    ensures Index(Replace(ls, k, l)) == GridPut(Index(ls), ls[k].price, l)
  {
    if l.None? {
      RemoveSorts(side, ls, k);
      IndexOfRemove(side, ls, k);
    } else {
      IndexOfUpdate(side, ls, k, l.value);
    }
  }

  lemma AddLevelRefines(cap: nat, side: Side, ls: seq<Level>, p: U64, q: nat)
    requires Sorted(side, ls)
    ensures Sorted(side, AddLevel(cap, side, ls, p, q).0)
    ensures AddLevel(cap, side, ls, p, q).1 <==> p in Index(ls) || |ls| < cap
    ensures Index(AddLevel(cap, side, ls, p, q).0)
            == if p in Index(ls) || |ls| < cap then GridAdd(Index(ls), p, q) else Index(ls)
    ensures |ls| <= cap ==> |AddLevel(cap, side, ls, p, q).0| <= cap
    ensures !AddLevel(cap, side, ls, p, q).1 ==> AddLevel(cap, side, ls, p, q).0 == ls
  {
    FindIsLookup(side, ls, p);
    var k := Rank(side, ls, p);
    if p in Index(ls) {
      var l := Level(p, ls[k].qty + q, ls[k].count + 1);
      assert AddLevel(cap, side, ls, p, q) == (Replace(ls, k, Some(l)), true);
      ReplaceRefines(side, ls, k, Some(l));
    } else if |ls| < cap {
      InsertRefines(side, ls, Level(p, q, 1));
    }
  }

  lemma DeductRefines(side: Side, ls: seq<Level>, p: U64, q: nat, release: bool)
    requires Sorted(side, ls)
    ensures var (r, found) := Deduct(side, ls, p, q, release);
            && Sorted(side, r) && |r| <= |ls|
            && (found <==> p in Index(ls))
            && Index(r) == GridDeduct(Index(ls), p, q, release)
  {
    FindIsLookup(side, ls, p);
    var f := Find(side, ls, p);
    if f.Some? {
      ReplaceRefines(side, ls, f.value, Drawn(ls[f.value], q, release));
    }
  }

  lemma DeductAnonRefines(side: Side, ls: seq<Level>, p: U64, q: nat)
    requires Sorted(side, ls)
    ensures var (r, found) := DeductAnon(side, ls, p, q);
            && Sorted(side, r) && |r| <= |ls|
            && (found <==> p in Index(ls))
            && Index(r) == GridDeductAnon(Index(ls), p, q)
  {
    FindIsLookup(side, ls, p);
    var f := Find(side, ls, p);
    if f.Some? {
      ReplaceRefines(side, ls, f.value, DrawnAnon(ls[f.value], q));
    }
  }

  /** Each level strictly better than the next. */
  predicate Descends(side: Side, ls: seq<Level>) {
    forall i :: 0 < i < |ls| ==> Better(side, ls[i - 1].price, ls[i].price)
  }

  lemma {:induction false} DescendsFrom(side: Side, ls: seq<Level>, i: nat, j: nat)
    requires Descends(side, ls) && i < j < |ls|
    ensures Better(side, ls[i].price, ls[j].price)
    decreases j
  {
    if i < j - 1 {
      DescendsFrom(side, ls, i, j - 1);
    }
  }

  /** Comparing neighbours is enough. */
  lemma SortedIff(side: Side, ls: seq<Level>)
    ensures Sorted(side, ls) <==> Descends(side, ls)
  {
    forall i, j | Descends(side, ls) && 0 <= i < j < |ls|
      ensures Better(side, ls[i].price, ls[j].price)
    {
      DescendsFrom(side, ls, i, j);
    }
  }

  lemma HeadIsBest(side: Side, ls: seq<Level>)
    requires Sorted(side, ls) && ls != []
    ensures ls[0].price !in Index(ls[1..])
    ensures Index(ls[1..]) == Index(ls) - {ls[0].price}
    ensures forall p :: p in Index(ls[1..]) ==> Better(side, ls[0].price, p)
  {
    forall p | p in Index(ls[1..])
      ensures Better(side, ls[0].price, p)
    {
      var i := IndexWitness(ls[1..], p);
      assert ls[1..][i] == ls[i + 1];
    }
  }

  lemma {:induction false} IndexSize(side: Side, ls: seq<Level>)
    requires Sorted(side, ls)
    ensures |Index(ls)| == |ls|
  {
    if ls != [] {
      IndexSize(side, ls[1..]);
      HeadIsBest(side, ls);
    }
  }

  /** A grid has one best-first listing, so books with equal grids show the same ladder. */
  lemma {:induction false} ListingIsUnique(side: Side, a: seq<Level>, b: seq<Level>)
    requires Sorted(side, a) && Sorted(side, b) && Index(a) == Index(b)
    ensures a == b
  {
    IndexSize(side, a);
    IndexSize(side, b);
    if a != [] {
      HeadIsBest(side, a);
      HeadIsBest(side, b);
      assert a[0].price in Index(a) && b[0].price in Index(b);
      assert a[0] == Index(a)[a[0].price] == b[0];
      ListingIsUnique(side, a[1..], b[1..]);
      assert a == [a[0]] + a[1..] && b == [b[0]] + b[1..];
    }
  }
}
