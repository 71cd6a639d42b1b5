/** The canonical L2 hash (core/src/hot_book.rs and core/src/orderbook.rs). xxh3 is any function of the
    bytes and the seed. */
module CanonicalHash {
  import opened Events
  import opened Bytes
  import opened Ladder
  import opened BookView
  import opened Agreement
  import opened HotBook
  import opened ReferenceBook

  type Xxh3 = (seq<Byte>, bv64) -> bv64

  /** "FLOWLAB-L2-v1" and "|". */
  const TAG: seq<Byte> := [70, 76, 79, 87, 76, 65, 66, 45, 76, 50, 45, 118, 49]
  const BAR: seq<Byte> := [124]

  function Mix(xxh3: Xxh3, h: bv64, l: Level): bv64 {
    h ^ xxh3(Le(l.price, 8) + Le(l.qty, 8), h)
  }

  function Fold(xxh3: Xxh3, h: bv64, ls: seq<Level>): bv64
    decreases ls
  {
    if ls == [] then h else Fold(xxh3, Mix(xxh3, h, ls[0]), ls[1..])
  }

  function L2Hash(xxh3: Xxh3, bids: seq<Level>, asks: seq<Level>): bv64 {
    Fold(xxh3, xxh3(BAR, Fold(xxh3, xxh3(TAG, 0), bids)), asks)
  }

  method HotHash(book: HotOrderBook, xxh3: Xxh3) returns (h: bv64)
    requires book.Valid()
    ensures h == L2Hash(xxh3, book.Value().bids, book.Value().asks)
  {
    h := xxh3(TAG, 0);
    ghost var bids, asks := book.Value().bids, book.Value().asks;
    for i := 0 to book.bids.count
      invariant Fold(xxh3, xxh3(TAG, 0), bids) == Fold(xxh3, h, bids[i..])
    {
      assert bids[i..][1..] == bids[i + 1..] && bids[i] == book.bids.levels[i];
      h := Mix(xxh3, h, book.bids.levels[i]);
    }
    h := xxh3(BAR, h);
    ghost var mid := h;
    for i := 0 to book.asks.count
      invariant Fold(xxh3, mid, asks) == Fold(xxh3, h, asks[i..])
    {
      assert asks[i..][1..] == asks[i + 1..] && asks[i] == book.asks.levels[i];
      h := Mix(xxh3, h, book.asks.levels[i]);
    }
  }

  predicate IsBest(side: Side, g: Grid, p: U64) {
    p in g && forall q :: q in g ==> q == p || Better(side, p, q)
  }

  lemma BestIsUnique(side: Side, g: Grid, p: U64, q: U64)
    requires IsBest(side, g, p) && IsBest(side, g, q)
    ensures p == q
  {
    assert p in g && q in g;
  }

  /** One step of the ordered map's iterator. */
  method NextBest(side: Side, g: Grid, ghost ls: seq<Level>) returns (p: U64)
    requires Sorted(side, ls) && Index(ls) == g && |g| > 0
    ensures ls != [] && p == ls[0].price && p in g && g[p] == ls[0]
    ensures Sorted(side, ls[1..]) && Index(ls[1..]) == g - {p}
  {
    assert ls != [];
    HeadIsBest(side, ls);
    assert IsBest(side, g, ls[0].price);
    p :| IsBest(side, g, p);
    BestIsUnique(side, g, p, ls[0].price);
  }

  /** Ordered iteration over one side of the reference book; `ls` is its best-first listing. */
  method RefFold(side: Side, g: Grid, xxh3: Xxh3, start: bv64, ghost ls: seq<Level>) returns (h: bv64)
    requires Sorted(side, ls) && Index(ls) == g
    ensures h == Fold(xxh3, start, ls)
  {
    h := start;
    var rest := g;
    ghost var left := ls;
    while |rest| != 0
      invariant Sorted(side, left) && Index(left) == rest
      invariant Fold(xxh3, start, ls) == Fold(xxh3, h, left)
      decreases |rest|
    {
      var p := NextBest(side, rest, left);
      h := Mix(xxh3, h, rest[p]);
      rest := rest - {p};
      left := left[1..];
    }
    IndexSize(side, left);
  }

  method RefHash(book: OrderBook, xxh3: Xxh3, ghost bids: seq<Level>, ghost asks: seq<Level>) returns (h: bv64)
    requires Sorted(Bid, bids) && Index(bids) == book.bids && Sorted(Ask, asks) && Index(asks) == book.asks
    ensures h == L2Hash(xxh3, bids, asks)
  {
    h := RefFold(Bid, book.bids, xxh3, xxh3(TAG, 0), bids);
    h := RefFold(Ask, book.asks, xxh3, xxh3(BAR, h), asks);
  }

  /** Whatever best-first listings the reference book is hashed through, the hash is the hot book's. */
  lemma HashesAgree(cap: nat, es: seq<Event>, xxh3: Xxh3, bids: seq<Level>, asks: seq<Level>)
    requires AgreeThroughout(cap, EMPTY_VIEW, es)
    requires Sorted(Bid, bids) && Index(bids) == RefRun(EMPTY_VIEW, es).bids
    requires Sorted(Ask, asks) && Index(asks) == RefRun(EMPTY_VIEW, es).asks
    ensures HotRun(cap, EMPTY_HOT, es).bids == bids && HotRun(cap, EMPTY_HOT, es).asks == asks
    ensures L2Hash(xxh3, HotRun(cap, EMPTY_HOT, es).bids, HotRun(cap, EMPTY_HOT, es).asks) == L2Hash(xxh3, bids, asks)
  {
    HotMatchesReference(cap, es);
    ListingIsUnique(Bid, HotRun(cap, EMPTY_HOT, es).bids, bids);
    ListingIsUnique(Ask, HotRun(cap, EMPTY_HOT, es).asks, asks);
  }
}
