/** The flash-crash detector's mini book with its incremental caches (chaos/src/flash_crash.rs) over the order
    tracker that resolves events for it (chaos/src/order_tracker.rs). */
module FlashCrash {
  import opened Events

  type Depth = map<U64, nat>

  const U64_MAX: U64 := 0xFFFF_FFFF_FFFF_FFFF

  function SaturatingAdd(a: nat, b: nat): nat {
    Min(a + b, U64_MAX)
  }

  datatype Config = Config(maxLevels: nat, bandTicks: U64)

  // ---------------------------------------------------------------- range sums

  ghost function Pick(m: Depth): (k: U64)
    requires |m| > 0
    ensures k in m
  {
    var k :| k in m;
    k
  }

  function In(lo: nat, hi: nat, k: U64, q: nat): nat {
    if lo <= k <= hi then q else 0
  }

  /** Total quantity at prices in [lo, hi]. */
  ghost function Sum(m: Depth, lo: nat, hi: nat): nat
    decreases |m|
  {
    if |m| == 0 then 0 else In(lo, hi, Pick(m), m[Pick(m)]) + Sum(m - {Pick(m)}, lo, hi)
  }

  lemma {:induction false} SumTake(m: Depth, lo: nat, hi: nat, k: U64)
    requires k in m
    ensures Sum(m, lo, hi) == In(lo, hi, k, m[k]) + Sum(m - {k}, lo, hi)
    decreases |m|
  {
    var x := Pick(m);
    if x != k {
      SumTake(m - {x}, lo, hi, k);
      SumTake(m - {k}, lo, hi, x);
      assert m - {x} - {k} == m - {k} - {x};
    }
  }

  lemma SumPut(m: Depth, lo: nat, hi: nat, k: U64, q: nat)
    ensures Sum(m[k := q], lo, hi) == In(lo, hi, k, q) + Sum(m - {k}, lo, hi)
  {
    SumTake(m[k := q], lo, hi, k);
    assert m[k := q] - {k} == m - {k};
  }

  lemma {:induction false} SumWithin(m: Depth, lo: nat, hi: nat)
    ensures Sum(m, lo, hi) <= Sum(m, 0, U64_MAX)
    decreases |m|
  {
    if |m| > 0 {
      SumWithin(m - {Pick(m)}, lo, hi);
    }
  }

  // ---------------------------------------------------------------- the detector's book

  datatype Book = Book(bids: Depth, asks: Depth, bestBid: Option<U64>, bestAsk: Option<U64>, depth: nat, valid: bool) {
    function On(side: Side): Depth {
      if side.Bid? then bids else asks
    }

    function Best(side: Side): Option<U64> {
      if side.Bid? then bestBid else bestAsk
    }
  }

  const EMPTY_BOOK := Book(map[], map[], None, None, 0, true)

  function Other(side: Side): Side {
    if side.Bid? then Ask else Bid
  }

  predicate AtLeastAsGood(side: Side, a: U64, b: U64) {
    if side.Bid? then a >= b else a <= b
  }

  /** `k` is the best key: the last of the bids, the first of the asks. */
  ghost predicate IsBest(side: Side, m: Depth, k: U64) {
    k in m && forall j :: j in m ==> AtLeastAsGood(side, k, j)
  }

  ghost predicate IsWorst(side: Side, m: Depth, k: U64) {
    k in m && forall j :: j in m ==> AtLeastAsGood(side, j, k)
  }

  ghost predicate BestOk(side: Side, m: Depth, best: Option<U64>) {
    if best.Some? then IsBest(side, m, best.value) else m == map[]
  }

  /** Full recomputation of the depth in the band around the best prices. */
  ghost function Around(c: Config, b: Book, bb: U64, ba: U64): nat {
    SaturatingAdd(Sum(b.bids, SaturatingSub(bb, c.bandTicks), bb), Sum(b.asks, ba, SaturatingAdd(ba, c.bandTicks)))
  }

  /** The cache, whenever it is marked valid, is the recomputation; before any two-sided market it is zero. */
  ghost predicate CacheOk(c: Config, b: Book) {
    b.valid ==>
      if b.bestBid.Some? && b.bestAsk.Some? then b.depth == Around(c, b, b.bestBid.value, b.bestAsk.value)
      else b.bestBid.None? && b.bestAsk.None? && b.depth == 0
  }

  /** Both sides keep to the level limit, and the cached best prices are the best. */
  ghost predicate Shaped(c: Config, b: Book) {
    && c.maxLevels >= 1 && |b.bids| <= c.maxLevels && |b.asks| <= c.maxLevels
    && BestOk(Bid, b.bids, b.bestBid) && BestOk(Ask, b.asks, b.bestAsk)
  }

  /** All quantity resting in the book. */
  ghost function Resting(b: Book): nat {
    Sum(b.bids, 0, U64_MAX) + Sum(b.asks, 0, U64_MAX)
  }

  /** What rests in the book, plus `budget` still to come, fits a u64. */
  ghost predicate Coherent(c: Config, b: Book, budget: nat) {
    Shaped(c, b) && CacheOk(c, b) && Resting(b) + budget <= U64_MAX
  }

  predicate InBand(c: Config, b: Book, side: Side, p: U64) {
    match b.Best(side)
    case None => false
    case Some(best) =>
      if side.Bid? then SaturatingSub(best, c.bandTicks) <= p <= best else best <= p <= SaturatingAdd(best, c.bandTicks)
  }

  /** Replace one side and its best price; the depth cache is given separately. */
  function With(b: Book, side: Side, m: Depth, best: Option<U64>, depth: nat, valid: bool): Book {
    if side.Bid? then Book(m, b.asks, best, b.bestAsk, depth, valid) else Book(b.bids, m, b.bestBid, best, depth, valid)
  }

  function Put(m: Depth, p: U64, q: nat): Depth {
    m[p := (if p in m then m[p] else 0) + q]
  }

  predicate Improves(side: Side, best: Option<U64>, p: U64) {
    best.None? || (p != best.value && AtLeastAsGood(side, p, best.value))
  }

  /** `add_qty`, once pruning has left `m`. */
  function Added(c: Config, b: Book, side: Side, p: U64, q: nat, m: Depth): Book {
    var moved := Improves(side, b.Best(side), p);
    var pruned := |m| != |Put(b.On(side), p, q)|;
    var best := if moved then Some(p) else b.Best(side);
    if moved || pruned then With(b, side, m, best, b.depth, false)
    else if b.valid && InBand(c, b, side, p) then With(b, side, m, best, SaturatingAdd(b.depth, q), true)
    else With(b, side, m, best, b.depth, b.valid)
  }

  /** What pruning may leave: the book itself within the limit, or the book without its worst level. */
  ghost predicate PrunedTo(c: Config, side: Side, m: Depth, r: Depth) {
    if |m| <= c.maxLevels then r == m else exists k :: IsWorst(side, m, k) && r == m - {k}
  }

  function Taken(m: Depth, p: U64, q: nat): nat {
    if p !in m then 0 else if q == 0 then m[p] else Min(q, m[p])
  }

  function Reduced(m: Depth, p: U64, q: nat): Depth {
    if p !in m then m
    else if m[p] - Taken(m, p, q) == 0 then m - {p}
    else m[p := m[p] - Taken(m, p, q)]
  }

  /** `sub_qty`, with `best` the side's best price afterwards. */
  function Removed(c: Config, b: Book, side: Side, p: U64, q: nat, best: Option<U64>): Book {
    var m, n := b.On(side), Reduced(b.On(side), p, q);
    var moved := p in m && p !in n && b.Best(side) == Some(p);
    if moved then With(b, side, n, best, b.depth, false)
    else if b.valid && Taken(m, p, q) > 0 && InBand(c, b, side, p) then
      With(b, side, n, b.Best(side), SaturatingSub(b.depth, Taken(m, p, q)), true)
    else With(b, side, n, b.Best(side), b.depth, b.valid)
  }

  // ---------------------------------------------------------------- additions keep coherence

  lemma PutSums(m: Depth, p: U64, q: nat, lo: nat, hi: nat)
    ensures Sum(Put(m, p, q), lo, hi) == Sum(m, lo, hi) + In(lo, hi, p, q)
  {
    SumPut(m, lo, hi, p, Put(m, p, q)[p]);
    if p in m {
      SumTake(m, lo, hi, p);
    } else {
      assert m - {p} == m;
    }
  }

  lemma PutSize(m: Depth, p: U64, q: nat)
    ensures |Put(m, p, q)| == if p in m then |m| else |m| + 1
  {
    if p in m {
      assert Put(m, p, q).Keys == m.Keys;
    } else {
      assert Put(m, p, q).Keys == m.Keys + {p};
    }
  }

  /** Pruning never evicts the best level. */
  lemma PruneKeepsBest(c: Config, side: Side, m: Depth, r: Depth, best: U64)
    requires c.maxLevels >= 1 && |m| <= c.maxLevels + 1 && IsBest(side, m, best) && PrunedTo(c, side, m, r)
    ensures IsBest(side, r, best) && |r| <= c.maxLevels
  {
    if |m| > c.maxLevels {
      var k :| IsWorst(side, m, k) && r == m - {k};
      assert m.Keys == r.Keys + {k};
      assert k != best by {
        var j :| j in r;
        assert AtLeastAsGood(side, best, j) && AtLeastAsGood(side, j, k);
      }
    }
  }

  lemma PruneSheds(c: Config, side: Side, m: Depth, r: Depth, lo: nat, hi: nat)
    requires PrunedTo(c, side, m, r)
    ensures Sum(r, lo, hi) <= Sum(m, lo, hi)
  {
    if |m| > c.maxLevels {
      var k :| IsWorst(side, m, k) && r == m - {k};
      SumTake(m, lo, hi, k);
    }
  }

  lemma AddMovesBest(c: Config, side: Side, m: Depth, best: Option<U64>, p: U64, q: nat, r: Depth)
    requires c.maxLevels >= 1 && |m| <= c.maxLevels && BestOk(side, m, best) && PrunedTo(c, side, Put(m, p, q), r)
    ensures BestOk(side, r, if Improves(side, best, p) then Some(p) else best) && |r| <= c.maxLevels
  {
    PutSize(m, p, q);
    var b := if Improves(side, best, p) then p else best.value;
    assert IsBest(side, Put(m, p, q), b);
    PruneKeepsBest(c, side, Put(m, p, q), r, b);
  }

  lemma AddShaped(c: Config, b: Book, side: Side, p: U64, q: nat, m: Depth)
    requires Shaped(c, b) && PrunedTo(c, side, Put(b.On(side), p, q), m)
    ensures Shaped(c, Added(c, b, side, p, q, m))
  {
    AddMovesBest(c, side, b.On(side), b.Best(side), p, q, m);
  }

  lemma AddBand(c: Config, b: Book, side: Side, p: U64, q: nat, budget: nat)
    requires Coherent(c, b, budget) && q <= budget && b.valid && !Improves(side, b.Best(side), p)
    ensures var d := if InBand(c, b, side, p) then SaturatingAdd(b.depth, q) else b.depth;
            CacheOk(c, With(b, side, Put(b.On(side), p, q), b.Best(side), d, true))
  {
    var bb, ba := b.bestBid.value, b.bestAsk.value;
    var lo, hi := SaturatingSub(bb, c.bandTicks), SaturatingAdd(ba, c.bandTicks);
    PutSums(b.On(side), p, q, if side.Bid? then lo else ba, if side.Bid? then bb else hi);
    SumWithin(b.bids, lo, bb);
    SumWithin(b.asks, ba, hi);
  }

  lemma AddCached(c: Config, b: Book, side: Side, p: U64, q: nat, m: Depth, budget: nat)
    requires Coherent(c, b, budget) && q <= budget && PrunedTo(c, side, Put(b.On(side), p, q), m)
    ensures CacheOk(c, Added(c, b, side, p, q, m))
  {
    if b.valid && !Improves(side, b.Best(side), p) && |m| == |Put(b.On(side), p, q)| {
      assert m == Put(b.On(side), p, q);
      AddBand(c, b, side, p, q, budget);
    }
  }

  /** An addition touches one side only. */
  lemma AddedFrame(c: Config, b: Book, side: Side, p: U64, q: nat, m: Depth)
    ensures var r := Added(c, b, side, p, q, m); r.On(side) == m && r.On(Other(side)) == b.On(Other(side))
  {
  }

  lemma RestingMoves(b: Book, r: Book, side: Side, n: nat)
    requires r.On(Other(side)) == b.On(Other(side)) && Sum(r.On(side), 0, U64_MAX) <= Sum(b.On(side), 0, U64_MAX) + n
    ensures Resting(r) <= Resting(b) + n
  {
  }

  lemma AddRests(c: Config, b: Book, side: Side, p: U64, q: nat, m: Depth)
    requires PrunedTo(c, side, Put(b.On(side), p, q), m)
    ensures Resting(Added(c, b, side, p, q, m)) <= Resting(b) + q
  {
    AddedFrame(c, b, side, p, q, m);
    PutSums(b.On(side), p, q, 0, U64_MAX);
    PruneSheds(c, side, Put(b.On(side), p, q), m, 0, U64_MAX);
    RestingMoves(b, Added(c, b, side, p, q, m), side, q);
  }

  lemma AddCoherent(c: Config, b: Book, side: Side, p: U64, q: nat, m: Depth, budget: nat)
    requires Coherent(c, b, budget) && q <= budget && PrunedTo(c, side, Put(b.On(side), p, q), m)
    ensures Coherent(c, Added(c, b, side, p, q, m), budget - q)
  {
    AddShaped(c, b, side, p, q, m);
    AddCached(c, b, side, p, q, m, budget);
    AddRests(c, b, side, p, q, m);
  }

  // ---------------------------------------------------------------- removals keep coherence

  lemma ReducedSums(m: Depth, p: U64, q: nat, lo: nat, hi: nat)
    ensures Sum(Reduced(m, p, q), lo, hi) == Sum(m, lo, hi) - In(lo, hi, p, Taken(m, p, q))
  {
    if p in m {
      SumTake(m, lo, hi, p);
      SumPut(m, lo, hi, p, m[p] - Taken(m, p, q));
    }
  }

  lemma ReducedSize(m: Depth, p: U64, q: nat)
    ensures |Reduced(m, p, q)| <= |m| && Reduced(m, p, q).Keys <= m.Keys
  {
    if p in m {
      if p in Reduced(m, p, q) {
        assert Reduced(m, p, q).Keys == m.Keys;
      } else {
        assert m.Keys == Reduced(m, p, q).Keys + {p};
      }
    }
  }

  /** The cached depth after `t` units left side `side` at price `p`. */
  function Drawn(c: Config, b: Book, side: Side, p: U64, t: nat): nat {
    if t > 0 && InBand(c, b, side, p) then SaturatingSub(b.depth, t) else b.depth
  }

  lemma RemoveBid(c: Config, b: Book, p: U64, q: nat, budget: nat)
    requires Coherent(c, b, budget) && b.valid && b.bestBid.Some? && b.bestAsk.Some?
    ensures Drawn(c, b, Bid, p, Taken(b.bids, p, q))
            == Around(c, b.(bids := Reduced(b.bids, p, q)), b.bestBid.value, b.bestAsk.value)
  {
    var bb, ba := b.bestBid.value, b.bestAsk.value;
    var lo, hi := SaturatingSub(bb, c.bandTicks), SaturatingAdd(ba, c.bandTicks);
    ReducedSums(b.bids, p, q, lo, bb);
    SumWithin(b.bids, lo, bb);
    SumWithin(b.asks, ba, hi);
  }

  lemma RemoveAsk(c: Config, b: Book, p: U64, q: nat, budget: nat)
    requires Coherent(c, b, budget) && b.valid && b.bestBid.Some? && b.bestAsk.Some?
    ensures Drawn(c, b, Ask, p, Taken(b.asks, p, q))
            == Around(c, b.(asks := Reduced(b.asks, p, q)), b.bestBid.value, b.bestAsk.value)
  {
    var bb, ba := b.bestBid.value, b.bestAsk.value;
    var lo, hi := SaturatingSub(bb, c.bandTicks), SaturatingAdd(ba, c.bandTicks);
    ReducedSums(b.asks, p, q, ba, hi);
    SumWithin(b.bids, lo, bb);
    SumWithin(b.asks, ba, hi);
  }

  lemma RemoveBand(c: Config, b: Book, side: Side, p: U64, q: nat, budget: nat)
    requires Coherent(c, b, budget) && b.valid
    ensures var n, t := Reduced(b.On(side), p, q), Taken(b.On(side), p, q);
            CacheOk(c, With(b, side, n, b.Best(side), Drawn(c, b, side, p, t), true))
  {
    if b.bestBid.Some? && b.bestAsk.Some? {
      if side.Bid? {
        RemoveBid(c, b, p, q, budget);
      } else {
        RemoveAsk(c, b, p, q, budget);
      }
    }
  }

  /** The best price changes only when its own level empties. */
  lemma RemoveMovesBest(b: Book, side: Side, p: U64, q: nat)
    requires BestOk(side, b.On(side), b.Best(side))
    requires !(p in b.On(side) && p !in Reduced(b.On(side), p, q) && b.Best(side) == Some(p))
    ensures BestOk(side, Reduced(b.On(side), p, q), b.Best(side))
  {
  }

  lemma RemoveKeepsCache(c: Config, b: Book, side: Side, p: U64, q: nat, best: Option<U64>, budget: nat)
    requires Coherent(c, b, budget)
    ensures CacheOk(c, Removed(c, b, side, p, q, best))
  {
    var m, n := b.On(side), Reduced(b.On(side), p, q);
    if !(p in m && p !in n && b.Best(side) == Some(p)) && b.valid {
      RemoveBand(c, b, side, p, q, budget);
    }
  }

  /** A removal touches one side only. */
  lemma RemovedFrame(c: Config, b: Book, side: Side, p: U64, q: nat, best: Option<U64>)
    ensures var r := Removed(c, b, side, p, q, best);
            r.On(side) == Reduced(b.On(side), p, q) && r.On(Other(side)) == b.On(Other(side))
            && r.Best(Other(side)) == b.Best(Other(side))
  {
  }

  lemma RemoveShaped(c: Config, b: Book, side: Side, p: U64, q: nat, best: Option<U64>)
    requires Shaped(c, b) && BestOk(side, Reduced(b.On(side), p, q), best)
    ensures Shaped(c, Removed(c, b, side, p, q, best))
  {
    ReducedSize(b.On(side), p, q);
    RemovedFrame(c, b, side, p, q, best);
    if !(p in b.On(side) && p !in Reduced(b.On(side), p, q) && b.Best(side) == Some(p)) {
      RemoveMovesBest(b, side, p, q);
    }
  }

  lemma RemoveRests(c: Config, b: Book, side: Side, p: U64, q: nat, best: Option<U64>)
    ensures Resting(Removed(c, b, side, p, q, best)) <= Resting(b)
  {
    RemovedFrame(c, b, side, p, q, best);
    ReducedSums(b.On(side), p, q, 0, U64_MAX);
    RestingMoves(b, Removed(c, b, side, p, q, best), side, 0);
  }

  lemma RemoveCoherent(c: Config, b: Book, side: Side, p: U64, q: nat, best: Option<U64>, budget: nat)
    requires Coherent(c, b, budget) && BestOk(side, Reduced(b.On(side), p, q), best)
    ensures Coherent(c, Removed(c, b, side, p, q, best), budget)
  {
    RemoveShaped(c, b, side, p, q, best);
    RemoveKeepsCache(c, b, side, p, q, best, budget);
    RemoveRests(c, b, side, p, q, best);
  }

  // ---------------------------------------------------------------- the order tracker

  datatype Tracked = Tracked(side: Side, price: U64, qty: U64)

  datatype Update = Update(side: Side, price: U64, qty: nat)

  type Orders = map<U64, Tracked>

  function Anonymous(e: Event): Option<Update> {
    if e.side > 1 then None else Some(Update(SideOf(e.side), e.price, e.qty))
  }

  function Resolved(known: nat, q: nat): (d: nat)
    ensures d <= known
  {
    if q == 0 || q >= known then known else q
  }

  function OnAdd(o: Orders, e: Event): (Orders, Option<Update>) {
    var u := Anonymous(e);
    (if u.Some? && e.orderId != 0 then o[e.orderId := Tracked(u.value.side, e.price, e.qty)] else o, u)
  }

  function Release(o: Orders, id: U64, d: nat): Orders
    requires id in o && d <= o[id].qty
  {
    if d >= o[id].qty then o - {id} else o[id := o[id].(qty := o[id].qty - d)]
  }

  function OnCancel(o: Orders, e: Event): (Orders, Option<Update>) {
    if e.orderId != 0 && e.orderId in o then
      var t := o[e.orderId];
      var d := Resolved(t.qty, e.qty);
      (Release(o, e.orderId, d), Some(Update(t.side, t.price, d)))
    else if e.orderId != 0 && e.price == 0 then (o, None)
    else (o, Anonymous(e))
  }

  /** A trade may carry its own price. */
  function OnTrade(o: Orders, e: Event): (Orders, Option<Update>) {
    if e.orderId != 0 && e.orderId in o then
      var t := o[e.orderId];
      var d := Resolved(t.qty, e.qty);
      (Release(o, e.orderId, d), Some(Update(t.side, if e.price != 0 then e.price else t.price, d)))
    else if e.orderId != 0 && e.price == 0 then (o, None)
    else (o, Anonymous(e))
  }

  // ---------------------------------------------------------------- whole runs

  datatype Detector = Detector(book: Book, orders: Orders)

  predicate HasMid(b: Book) {
    b.bestBid.Some? && b.bestAsk.Some? && b.bestAsk.value >= b.bestBid.value
  }

  /** The pre-event snapshot reads the depth, which refreshes the cache. */
  ghost function Refreshed(c: Config, b: Book): Book {
    if HasMid(b) && !b.valid then b.(depth := Around(c, b, b.bestBid.value, b.bestAsk.value), valid := true) else b
  }

  ghost predicate AddStep(c: Config, b: Book, u: Option<Update>, r: Book) {
    if u.None? then r == b
    else exists m :: PrunedTo(c, u.value.side, Put(b.On(u.value.side), u.value.price, u.value.qty), m)
                     && r == Added(c, b, u.value.side, u.value.price, u.value.qty, m)
  }

  ghost predicate RemoveStep(c: Config, b: Book, u: Option<Update>, r: Book) {
    if u.None? then r == b
    else exists best :: BestOk(u.value.side, Reduced(b.On(u.value.side), u.value.price, u.value.qty), best)
                        && r == Removed(c, b, u.value.side, u.value.price, u.value.qty, best)
  }

  /** The event itself, on a refreshed detector. */
  ghost predicate Applied(c: Config, d: Detector, e: Event, r: Detector) {
    match TypeOf(e.eventType)
    case Some(OrderAdd) => var (o, u) := OnAdd(d.orders, e); r.orders == o && AddStep(c, d.book, u, r.book)
    case Some(OrderCancel) => var (o, u) := OnCancel(d.orders, e); r.orders == o && RemoveStep(c, d.book, u, r.book)
    case Some(Trade) => var (o, u) := OnTrade(d.orders, e); r.orders == o && RemoveStep(c, d.book, u, r.book)
    case _ => r == d
  }

  /** One event. */
  ghost predicate Step(c: Config, d: Detector, e: Event, r: Detector) {
    if TypeOf(e.eventType).None? then r == d else Applied(c, d.(book := Refreshed(c, d.book)), e, r)
  }

  /** Quantity an event can add. */
  function Brings(e: Event): nat {
    if e.eventType == 1 then e.qty else 0
  }

  lemma RefreshedCoherent(c: Config, b: Book, budget: nat)
    requires Coherent(c, b, budget)
    ensures Coherent(c, Refreshed(c, b), budget)
  {
  }

  lemma CoherentWithLess(c: Config, b: Book, budget: nat, less: nat)
    requires Coherent(c, b, budget) && less <= budget
    ensures Coherent(c, b, less)
  {
  }

  lemma AddStepCoherent(c: Config, b: Book, u: Option<Update>, r: Book, budget: nat, q: nat)
    requires Coherent(c, b, budget) && AddStep(c, b, u, r) && q <= budget && (u.Some? ==> u.value.qty == q)
    ensures Coherent(c, r, budget - q)
  {
    if u.Some? {
      var m :| PrunedTo(c, u.value.side, Put(b.On(u.value.side), u.value.price, u.value.qty), m)
               && r == Added(c, b, u.value.side, u.value.price, u.value.qty, m);
      AddCoherent(c, b, u.value.side, u.value.price, u.value.qty, m, budget);
    } else {
      CoherentWithLess(c, b, budget, budget - q);
    }
  }

  lemma StepCoherent(c: Config, d: Detector, e: Event, r: Detector, budget: nat)
    requires Coherent(c, d.book, budget) && Brings(e) <= budget && Step(c, d, e, r)
    ensures Coherent(c, r.book, budget - Brings(e))
  {
    var b := Refreshed(c, d.book);
    RefreshedCoherent(c, d.book, budget);
    match TypeOf(e.eventType) {
      case Some(OrderAdd) => AddStepCoherent(c, b, OnAdd(d.orders, e).1, r.book, budget, e.qty);
      case Some(OrderCancel) => RemoveStepCoherent(c, b, OnCancel(d.orders, e).1, r.book, budget);
      case Some(Trade) => RemoveStepCoherent(c, b, OnTrade(d.orders, e).1, r.book, budget);
      case _ =>
    }
  }

  lemma RemoveStepCoherent(c: Config, b: Book, u: Option<Update>, r: Book, budget: nat)
    requires Coherent(c, b, budget) && RemoveStep(c, b, u, r)
    ensures Coherent(c, r, budget)
  {
    if u.Some? {
      var best :| BestOk(u.value.side, Reduced(b.On(u.value.side), u.value.price, u.value.qty), best)
                  && r == Removed(c, b, u.value.side, u.value.price, u.value.qty, best);
      RemoveCoherent(c, b, u.value.side, u.value.price, u.value.qty, best, budget);
    }
  }

  lemma StepCoherentWithin(c: Config, d: Detector, e: Event, r: Detector)
    requires Coherent(c, d.book, 0) && Resting(d.book) + Brings(e) <= U64_MAX && Step(c, d, e, r)
    ensures Coherent(c, r.book, 0)
  {
    StepCoherent(c, d, e, r, Brings(e));
  }

  /** Over every run of `process` from the empty detector in which what rests and what arrives fit a u64 at each moment: the
      cached best prices are the true ones, each side stays within its level limit, and a valid depth cache is the
      recomputed depth. */
  lemma {:induction false} RunCoherent(c: Config, ds: seq<Detector>, es: seq<Event>)
    requires c.maxLevels >= 1 && |ds| == |es| + 1 && ds[0] == Detector(EMPTY_BOOK, map[])
    requires forall i :: 0 <= i < |es| ==> Step(c, ds[i], es[i], ds[i + 1])
    requires forall i :: 0 <= i < |es| ==> Resting(ds[i].book) + Brings(es[i]) <= U64_MAX
    ensures Coherent(c, ds[|es|].book, 0)
    decreases es
  {
    if es != [] {
      var n := |es| - 1;
      RunCoherent(c, ds[..n + 1], es[..n]);
      StepCoherentWithin(c, ds[n], es[n], ds[n + 1]);
    }
  }

  // ---------------------------------------------------------------- bests and limits, whatever the quantities

  lemma RemoveStepShaped(c: Config, b: Book, u: Option<Update>, r: Book)
    requires Shaped(c, b) && RemoveStep(c, b, u, r)
    ensures Shaped(c, r)
  {
    if u.Some? {
      var best :| BestOk(u.value.side, Reduced(b.On(u.value.side), u.value.price, u.value.qty), best)
                  && r == Removed(c, b, u.value.side, u.value.price, u.value.qty, best);
      RemoveShaped(c, b, u.value.side, u.value.price, u.value.qty, best);
    }
  }

  lemma AddStepShaped(c: Config, b: Book, u: Option<Update>, r: Book)
    requires Shaped(c, b) && AddStep(c, b, u, r)
    ensures Shaped(c, r)
  {
    if u.Some? {
      var m :| PrunedTo(c, u.value.side, Put(b.On(u.value.side), u.value.price, u.value.qty), m)
               && r == Added(c, b, u.value.side, u.value.price, u.value.qty, m);
      AddShaped(c, b, u.value.side, u.value.price, u.value.qty, m);
    }
  }

  lemma StepShaped(c: Config, d: Detector, e: Event, r: Detector)
    requires Shaped(c, d.book) && Step(c, d, e, r)
    ensures Shaped(c, r.book)
  {
    var b := Refreshed(c, d.book);
    match TypeOf(e.eventType) {
      case Some(OrderAdd) => AddStepShaped(c, b, OnAdd(d.orders, e).1, r.book);
      case Some(OrderCancel) => RemoveStepShaped(c, b, OnCancel(d.orders, e).1, r.book);
      case Some(Trade) => RemoveStepShaped(c, b, OnTrade(d.orders, e).1, r.book);
      case _ =>
    }
  }

  /** Cached bests and level limits hold over every run, with no bound on quantities. */
  lemma {:induction false} RunShaped(c: Config, ds: seq<Detector>, es: seq<Event>)
    requires c.maxLevels >= 1 && |ds| == |es| + 1 && ds[0] == Detector(EMPTY_BOOK, map[])
    requires forall i :: 0 <= i < |es| ==> Step(c, ds[i], es[i], ds[i + 1])
    ensures Shaped(c, ds[|es|].book)
    decreases es
  {
    if es != [] {
      var n := |es| - 1;
      RunShaped(c, ds[..n + 1], es[..n]);
      StepShaped(c, ds[n], es[n], ds[n + 1]);
    }
  }

  /** The level limit must be positive: with a limit of zero the first accepted add leaves a best price that is not in
      the book. */
  lemma ZeroLimitBreaks(c: Config, e: Event, r: Detector)
    requires c.maxLevels == 0 && TypeOf(e.eventType) == Some(OrderAdd) && Anonymous(e).Some?
    requires Step(c, Detector(EMPTY_BOOK, map[]), e, r)
    ensures var side := SideOf(e.side); r.book.Best(side) == Some(e.price) && !BestOk(side, r.book.On(side), r.book.Best(side))
  {
    var side := SideOf(e.side);
    var full := Put(map[], e.price, e.qty);
    assert full.Keys == {e.price};
    var m :| PrunedTo(c, side, full, m) && r.book == Added(c, EMPTY_BOOK, side, e.price, e.qty, m);
    assert e.price !in m;
  }

  // ---------------------------------------------------------------- what the depth measures

  /** Quantity at prices no further than `ticks` from `best`, on either side of it. */
  ghost function Near(m: Depth, best: U64, ticks: nat): nat
    decreases |m|
  {
    if |m| == 0 then 0
    else
      var k := Pick(m);
      (if k <= best + ticks && best <= k + ticks then m[k] else 0) + Near(m - {k}, best, ticks)
  }

  lemma {:induction false} BandIsNear(side: Side, m: Depth, best: U64, ticks: nat, lo: nat, hi: nat)
    requires forall k :: k in m ==> AtLeastAsGood(side, best, k)
    requires if side.Bid? then lo == SaturatingSub(best, ticks) && hi == best
             else lo == best && (hi == best + ticks || U64_MAX <= hi < best + ticks)
    ensures Sum(m, lo, hi) == Near(m, best, ticks)
    decreases |m|
  {
    if |m| > 0 {
      BandIsNear(side, m - {Pick(m)}, best, ticks, lo, hi);
    }
  }

  /** A valid depth is, without clipping, the quantity within the band of the best bid and of the best ask. */
  lemma DepthIsBand(c: Config, b: Book, budget: nat)
    requires Coherent(c, b, budget) && b.valid && b.bestBid.Some? && b.bestAsk.Some?
    ensures b.depth == Near(b.bids, b.bestBid.value, c.bandTicks) + Near(b.asks, b.bestAsk.value, c.bandTicks)
  {
    var bb, ba := b.bestBid.value, b.bestAsk.value;
    var lo, hi := SaturatingSub(bb, c.bandTicks), SaturatingAdd(ba, c.bandTicks);
    SumWithin(b.bids, lo, bb);
    SumWithin(b.asks, ba, hi);
    BandIsNear(Bid, b.bids, bb, c.bandTicks, lo, bb);
    BandIsNear(Ask, b.asks, ba, c.bandTicks, ba, hi);
  }

  /** So is the depth snapshot that `process` takes before an event, over every run whose quantities fit. */
  lemma RefreshedDepth(c: Config, ds: seq<Detector>, es: seq<Event>)
    requires c.maxLevels >= 1 && |ds| == |es| + 1 && ds[0] == Detector(EMPTY_BOOK, map[])
    requires forall i :: 0 <= i < |es| ==> Step(c, ds[i], es[i], ds[i + 1])
    requires forall i :: 0 <= i < |es| ==> Resting(ds[i].book) + Brings(es[i]) <= U64_MAX
    requires HasMid(ds[|es|].book)
    ensures var b := ds[|es|].book;
            Refreshed(c, b).depth == Near(b.bids, b.bestBid.value, c.bandTicks) + Near(b.asks, b.bestAsk.value, c.bandTicks)
  {
    RunCoherent(c, ds, es);
    RefreshedCoherent(c, ds[|es|].book, 0);
    DepthIsBand(c, Refreshed(c, ds[|es|].book), 0);
  }

  // ---------------------------------------------------------------- the object

  lemma {:induction false} WorstExists(side: Side, m: Depth) returns (k: U64)
    requires |m| > 0
    ensures IsWorst(side, m, k)
    decreases |m|
  {
    var x := Pick(m);
    var r := m - {x};
    assert m.Keys == r.Keys + {x};
    if |r| == 0 {
      k := x;
    } else {
      var y := WorstExists(side, r);
      k := if AtLeastAsGood(side, x, y) then y else x;
    }
  }

  /** First or last key of the ordered map: the worst one of its side. */
  method Farthest(side: Side, m: Depth) returns (k: U64)
    requires |m| > 0
    ensures IsWorst(side, m, k)
  {
    ghost var w := WorstExists(side, m);
    var x: U64 :| x in m && forall j :: j in m ==> AtLeastAsGood(side, j, x);
    k := x;
  }

  /** The other end of the ordered map. */
  method Nearest(side: Side, m: Depth) returns (best: Option<U64>)
    ensures BestOk(side, m, best)
  {
    if |m| == 0 {
      best := None;
    } else {
      var k := Farthest(Other(side), m);
      best := Some(k);
    }
  }

  method RangeSum(m: Depth, lo: nat, hi: nat) returns (s: nat)
    ensures s == Sum(m, lo, hi)
  {
    s := 0;
    var rest := m;
    while |rest| > 0
      invariant s + Sum(rest, lo, hi) == Sum(m, lo, hi)
      decreases |rest|
    {
      var k :| k in rest;
      SumTake(rest, lo, hi, k);
      assert rest.Keys == (rest - {k}).Keys + {k};
      s := s + In(lo, hi, k, rest[k]);
      rest := rest - {k};
    }
  }

  method PruneLevels(c: Config, side: Side, full: Depth) returns (m: Depth)
    requires |full| <= c.maxLevels + 1
    ensures PrunedTo(c, side, full, m) && |m| <= c.maxLevels
  {
    m := full;
    while |m| > c.maxLevels
      invariant m == full || (|m| <= c.maxLevels && PrunedTo(c, side, full, m))
      decreases |m|
    {
      var evict := Farthest(side, m);
      assert m.Keys == (m - {evict}).Keys + {evict};
      m := m - {evict};
      assert PrunedTo(c, side, full, m);
    }
  }

  class FlashCrashDetector {
    const config: Config
    var bids: Depth
    var asks: Depth
    var cachedBid: Option<U64>
    var cachedAsk: Option<U64>
    var bandDepth: nat
    var bandDepthValid: bool
    var orders: Orders

    ghost function Value(): Detector
      reads this
    {
      Detector(Book(bids, asks, cachedBid, cachedAsk, bandDepth, bandDepthValid), orders)
    }

    ghost predicate Bounded()
      reads this
    {
      |bids| <= config.maxLevels && |asks| <= config.maxLevels
    }

    constructor (config: Config)
      ensures Bounded() && this.config == config && Value() == Detector(EMPTY_BOOK, map[])
    {
      this.config := config;
      bids, asks, orders := map[], map[], map[];
      cachedBid, cachedAsk, bandDepth, bandDepthValid := None, None, 0, true;
    }

    /** The book part of `process`: snapshot depth if there is a mid price, then the event. */
    method Process(e: Event) returns (depthBefore: Option<nat>)
      requires Bounded()
      modifies this
      ensures Bounded()
      ensures Step(config, old(Value()), e, Value())
      ensures depthBefore == (if TypeOf(e.eventType).Some? && HasMid(old(Value()).book)
                              then Some(Refreshed(config, old(Value()).book).depth) else None)
    {
      depthBefore := None;
      if TypeOf(e.eventType).None? {
        return;
      }
      if cachedBid.Some? && cachedAsk.Some? && cachedAsk.value >= cachedBid.value {
        var d := DepthInBand();
        depthBefore := Some(d);
      }
      Mutate(e);
    }

    method Mutate(e: Event)
      requires Bounded()
      modifies this
      ensures Bounded() && Applied(config, old(Value()), e, Value())
    {
      match TypeOf(e.eventType) {
        case Some(OrderAdd) =>
          var (o, u) := OnAdd(orders, e);
          orders := o;
          if u.Some? {
            AddQty(u.value.side, u.value.price, u.value.qty);
          }
        case Some(OrderCancel) =>
          var (o, u) := OnCancel(orders, e);
          orders := o;
          if u.Some? {
            SubQty(u.value.side, u.value.price, u.value.qty);
          }
        case Some(Trade) =>
          var (o, u) := OnTrade(orders, e);
          orders := o;
          if u.Some? {
            SubQty(u.value.side, u.value.price, u.value.qty);
          }
        case _ =>
      }
    }

    method DepthInBand() returns (d: nat)
      requires cachedBid.Some? && cachedAsk.Some? && cachedAsk.value >= cachedBid.value
      modifies this`bandDepth, this`bandDepthValid
      ensures Value() == old(Value()).(book := Refreshed(config, old(Value()).book))
      ensures d == bandDepth && bandDepthValid
    {
      if !bandDepthValid {
        var bb, ba := cachedBid.value, cachedAsk.value;
        var bidSum := RangeSum(bids, SaturatingSub(bb, config.bandTicks), bb);
        var askSum := RangeSum(asks, ba, SaturatingAdd(ba, config.bandTicks));
        bandDepth := SaturatingAdd(bidSum, askSum);
        bandDepthValid := true;
      }
      d := bandDepth;
    }

    /** Store one side, its best price and the depth cache. */
    method Store(side: Side, m: Depth, best: Option<U64>, depth: nat, valid: bool)
      requires Bounded() && |m| <= config.maxLevels
      modifies this`bids, this`asks, this`cachedBid, this`cachedAsk, this`bandDepth, this`bandDepthValid
      ensures Bounded()
      ensures Value().book == With(old(Value()).book, side, m, best, depth, valid)
    {
      bandDepth, bandDepthValid := depth, valid;
      if side.Bid? {
        bids, cachedBid := m, best;
      } else {
        asks, cachedAsk := m, best;
      }
    }

    method Band(side: Side, price: U64) returns (inside: bool)
      ensures inside == InBand(config, Value().book, side, price)
    {
      if side.Bid? {
        inside := cachedBid.Some? && price >= SaturatingSub(cachedBid.value, config.bandTicks) && price <= cachedBid.value;
      } else {
        inside := cachedAsk.Some? && price >= cachedAsk.value && price <= SaturatingAdd(cachedAsk.value, config.bandTicks);
      }
    }

    method AddQty(side: Side, price: U64, qty: nat)
      requires Bounded()
      modifies this
      ensures orders == old(orders) && Bounded()
      ensures AddStep(config, old(Value()).book, Some(Update(side, price, qty)), Value().book)
    {
      var levels, best := if side.Bid? then bids else asks, if side.Bid? then cachedBid else cachedAsk;
      var full := Put(levels, price, qty);
      PutSize(levels, price, qty);
      var m := PruneLevels(config, side, full);
      var moved := Improves(side, best, price);
      ghost var b := Value().book;
      var inBand := Band(side, price);
      var depth, valid := bandDepth, bandDepthValid;
      if moved || |m| != |full| {
        valid := false;
      } else if valid && inBand {
        depth := SaturatingAdd(depth, qty);
      }
      Store(side, m, if moved then Some(price) else best, depth, valid);
      assert Value().book == Added(config, b, side, price, qty, m);
    }

    method SubQty(side: Side, price: U64, qty: nat)
      requires Bounded()
      modifies this
      ensures orders == old(orders) && Bounded()
      ensures RemoveStep(config, old(Value()).book, Some(Update(side, price, qty)), Value().book)
    {
      var levels, cached := if side.Bid? then bids else asks, if side.Bid? then cachedBid else cachedAsk;
      var taken, emptied, after := Take(levels, price, qty);
      var moved := emptied && cached == Some(price);
      var best := Nearest(side, after);
      ghost var b := Value().book;
      var inBand := Band(side, price);
      var depth, valid := bandDepth, bandDepthValid;
      if moved {
        valid := false;
      } else if valid && taken > 0 && inBand {
        depth := SaturatingSub(depth, taken);
      }
      Store(side, after, if moved then best else cached, depth, valid);
      assert Value().book == Removed(config, b, side, price, qty, best);
    }
  }

  /** Draw on one level, dropping it when it empties. */
  method Take(levels: Depth, price: U64, qty: nat) returns (taken: nat, emptied: bool, after: Depth)
    ensures taken == Taken(levels, price, qty) && after == Reduced(levels, price, qty)
    ensures emptied == (price in levels && price !in after) && |after| <= |levels|
  {
    ReducedSize(levels, price, qty);
    taken, emptied, after := 0, false, levels;
    if price in levels {
      taken := if qty == 0 then levels[price] else Min(qty, levels[price]);
      after := levels[price := levels[price] - taken];
      if after[price] == 0 {
        emptied, after := true, after - {price};
        assert after == levels - {price};
      }
    }
  }
}
