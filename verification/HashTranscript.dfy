/** What the canonical L2 hash hashes (core/src/hot_book.rs, core/src/orderbook.rs): the calls it makes to xxh3, byte by
    byte, and that they tell any two ladders apart. */
module HashTranscript {
  import opened Events
  import opened Bytes
  import opened Ladder
  import opened CanonicalHash

  /** A call seeded with the running hash: its result is folded in, or replaces the running hash. */
  datatype Call = Xor(bytes: seq<Byte>) | Replace(bytes: seq<Byte>)

  function Made(xxh3: Xxh3, h: bv64, c: Call): bv64 {
    if c.Xor? then h ^ xxh3(c.bytes, h) else xxh3(c.bytes, h)
  }

  function RunCalls(xxh3: Xxh3, h: bv64, cs: seq<Call>): bv64
    decreases cs
  {
    if cs == [] then h else RunCalls(xxh3, Made(xxh3, h, cs[0]), cs[1..])
  }

  function Ascii(s: string): seq<Byte>
    requires forall i :: 0 <= i < |s| ==> s[i] < 128 as char
  {
    seq(|s|, i requires 0 <= i < |s| => s[i] as int)
  }

  /** The call for one level: sixteen bytes, its price and then its quantity. */
  predicate IsRow(c: Call, l: Level) {
    c.Xor? && |c.bytes| == 16 && U64At(c.bytes, 0) == l.price && U64At(c.bytes, 8) == l.qty
  }

  predicate AreRows(cs: seq<Call>, ls: seq<Level>) {
    |cs| == |ls| && forall i :: 0 <= i < |ls| ==> IsRow(cs[i], ls[i])
  }

  /** The tag, the bids best first, the bar, the asks best first. */
  predicate Transcribes(cs: seq<Call>, bids: seq<Level>, asks: seq<Level>) {
    && |cs| == |bids| + |asks| + 2
    && cs[0] == Replace(Ascii("FLOWLAB-L2-v1")) && AreRows(cs[1..|bids| + 1], bids)
    && cs[|bids| + 1] == Replace(Ascii("|")) && AreRows(cs[|bids| + 2..], asks)
  }

  lemma RowBytes(c: Call, l: Level)
    requires IsRow(c, l)
    ensures c.bytes == Le(l.price, 8) + Le(l.qty, 8)
  {
    LeOfFromLe(c.bytes[0..8]);
    LeOfFromLe(c.bytes[8..16]);
    assert c.bytes == c.bytes[0..8] + c.bytes[8..16];
  }

  lemma {:induction false} RunAppend(xxh3: Xxh3, h: bv64, a: seq<Call>, b: seq<Call>)
    ensures RunCalls(xxh3, h, a + b) == RunCalls(xxh3, RunCalls(xxh3, h, a), b)
    decreases a
  {
    if a == [] {
      assert a + b == b;
    } else {
      assert (a + b)[1..] == a[1..] + b;
      RunAppend(xxh3, Made(xxh3, h, a[0]), a[1..], b);
    }
  }

  lemma {:induction false} RowsAreFold(xxh3: Xxh3, h: bv64, cs: seq<Call>, ls: seq<Level>)
    requires AreRows(cs, ls)
    ensures RunCalls(xxh3, h, cs) == Fold(xxh3, h, ls)
    decreases ls
  {
    if ls != [] {
      assert IsRow(cs[0], ls[0]);
      RowBytes(cs[0], ls[0]);
      RowsAreFold(xxh3, Mix(xxh3, h, ls[0]), cs[1..], ls[1..]);
    }
  }

  /** A call, then the rows of one side, then the rest. */
  lemma CallAndRows(xxh3: Xxh3, h: bv64, c: Call, rows: seq<Call>, ls: seq<Level>, rest: seq<Call>)
    requires AreRows(rows, ls)
    ensures RunCalls(xxh3, h, [c] + rows + rest) == RunCalls(xxh3, Fold(xxh3, Made(xxh3, h, c), ls), rest)
  {
    assert ([c] + rows + rest)[1..] == rows + rest;
    RunAppend(xxh3, Made(xxh3, h, c), rows, rest);
    RowsAreFold(xxh3, Made(xxh3, h, c), rows, ls);
  }

  lemma Constants()
    ensures Ascii("FLOWLAB-L2-v1") == TAG && Ascii("|") == BAR
  {
  }

  lemma TwoSides(xxh3: Xxh3, tag: Call, b: seq<Call>, bar: Call, a: seq<Call>, bids: seq<Level>, asks: seq<Level>)
    requires AreRows(b, bids) && AreRows(a, asks) && tag == Replace(TAG) && bar == Replace(BAR)
    ensures RunCalls(xxh3, 0, [tag] + b + ([bar] + a)) == L2Hash(xxh3, bids, asks)
  {
    CallAndRows(xxh3, 0, tag, b, bids, [bar] + a);
    CallAndRows(xxh3, Fold(xxh3, xxh3(TAG, 0), bids), bar, a, asks, []);
    assert [bar] + a + [] == [bar] + a;
  }

  /** The hash is the run of its transcript from seed 0. */
  lemma HashIsTranscript(xxh3: Xxh3, cs: seq<Call>, bids: seq<Level>, asks: seq<Level>)
    requires Transcribes(cs, bids, asks)
    ensures L2Hash(xxh3, bids, asks) == RunCalls(xxh3, 0, cs)
  {
    var n := |bids| + 1;
    Constants();
    TwoSides(xxh3, cs[0], cs[1..n], cs[n], cs[n + 1..], bids, asks);
    assert [cs[0]] + cs[1..n] + ([cs[n]] + cs[n + 1..]) == cs;
  }

  /** Quantities fit the field they are hashed in. */
  predicate Fitting(ls: seq<Level>) {
    forall i :: 0 <= i < |ls| ==> ls[i].qty < 0x1_0000_0000_0000_0000
  }

  function RowOf(l: Level): Call {
    Xor(Le(l.price, 8) + Le(l.qty, 8))
  }

  lemma RowOfIsRow(l: Level)
    requires l.qty < 0x1_0000_0000_0000_0000
    ensures IsRow(RowOf(l), l)
  {
    assert Le(l.price, 8) + Le(l.qty, 8) == [] + Le(l.price, 8) + Le(l.qty, 8) == Le(l.price, 8) + Le(l.qty, 8) + [];
    FieldU64([], l.price, Le(l.qty, 8));
    FieldU64(Le(l.price, 8), l.qty, []);
  }

  function RowsOf(ls: seq<Level>): (cs: seq<Call>) {
    seq(|ls|, i requires 0 <= i < |ls| => RowOf(ls[i]))
  }

  /** Every pair of ladders whose quantities fit has a transcript. */
  lemma TranscriptExists(bids: seq<Level>, asks: seq<Level>) returns (cs: seq<Call>)
    requires Fitting(bids) && Fitting(asks)
    ensures Transcribes(cs, bids, asks)
  {
    forall l: Level | l in bids || l in asks
      ensures IsRow(RowOf(l), l)
    {
      RowOfIsRow(l);
    }
    cs := [Replace(Ascii("FLOWLAB-L2-v1"))] + RowsOf(bids) + [Replace(Ascii("|"))] + RowsOf(asks);
    assert cs[1..|bids| + 1] == RowsOf(bids) && cs[|bids| + 2..] == RowsOf(asks);
  }

  // ---------------------------------------------------------------- the hash tells ladders apart

  /** The price and quantity of each level; order counts are not hashed. */
  function Quotes(ls: seq<Level>): seq<(U64, nat)> {
    seq(|ls|, i requires 0 <= i < |ls| => (ls[i].price, ls[i].qty))
  }

  predicate Quoted(ls: seq<Level>, p: U64, q: nat) {
    exists i :: 0 <= i < |ls| && ls[i].price == p && ls[i].qty == q
  }

  lemma QuotedLater(ls: seq<Level>, p: U64, q: nat)
    requires ls != []
    ensures Quoted(ls, p, q) <==> (ls[0].price == p && ls[0].qty == q) || Quoted(ls[1..], p, q)
  {
    if i :| 0 < i < |ls| && ls[i].price == p && ls[i].qty == q {
      assert ls[1..][i - 1].price == p && ls[1..][i - 1].qty == q;
    }
    if j :| 0 <= j < |ls[1..]| && ls[1..][j].price == p && ls[1..][j].qty == q {
      assert ls[j + 1].price == p && ls[j + 1].qty == q;
    }
  }

  /** Two best-first sides that differ do so in a quote that only one of them has. */
  lemma {:induction false} OddQuote(side: Side, a: seq<Level>, b: seq<Level>) returns (p: U64, q: nat)
    requires Sorted(side, a) && Sorted(side, b) && Quotes(a) != Quotes(b)
    ensures Quoted(a, p, q) != Quoted(b, p, q)
    decreases |a|
  {
    if a == [] || b == [] {
      var l := if a == [] then b[0] else a[0];
      p, q := l.price, l.qty;
      assert a != [] ==> Quoted(a, p, q);
      assert b != [] ==> Quoted(b, p, q);
    } else if a[0].price == b[0].price && a[0].qty == b[0].qty {
      assert Quotes(a) == [(a[0].price, a[0].qty)] + Quotes(a[1..]);
      assert Quotes(b) == [(b[0].price, b[0].qty)] + Quotes(b[1..]);
      p, q := OddQuote(side, a[1..], b[1..]);
      QuotedLater(a, p, q);
      QuotedLater(b, p, q);
    } else {
      var l := if Better(side, b[0].price, a[0].price) then b[0] else a[0];
      p, q := l.price, l.qty;
      assert a[0] == l ==> Quoted(a, p, q);
      assert b[0] == l ==> Quoted(b, p, q);
    }
  }

  /** A hash function that looks for the row `m` on one side: 1 while looking, 2 once found, anything else elsewhere. */
  function Seeker(m: seq<Byte>, side: Side): Xxh3 {
    (b, h) =>
      if |b| == 16 then (if b == m && h == 1 then 3 else 0)
      else if |b| == 13 then (if side.Bid? then 1 else 0)
      else if h == 2 then 2 else if side.Ask? then 1 else 4
  }

  lemma XorRows(h: bv64)
    ensures h ^ 0 == h && (1 as bv64) ^ 3 == 2
  {
  }

  lemma {:induction false} SeekerElsewhere(m: seq<Byte>, side: Side, h: bv64, ls: seq<Level>)
    requires h != 1
    ensures Fold(Seeker(m, side), h, ls) == h
    decreases ls
  {
    if ls != [] {
      XorRows(h);
      SeekerElsewhere(m, side, h, ls[1..]);
    }
  }

  lemma RowsApart(p: U64, q: nat, k: U64, r: nat)
    requires q < 0x1_0000_0000_0000_0000 && r < 0x1_0000_0000_0000_0000
    ensures Le(p, 8) + Le(q, 8) == Le(k, 8) + Le(r, 8) <==> p == k && q == r
  {
    RowOfIsRow(Level(p, q, 0));
    RowOfIsRow(Level(k, r, 0));
  }

  lemma {:induction false} SeekerFinds(p: U64, q: nat, side: Side, ls: seq<Level>)
    requires Fitting(ls) && q < 0x1_0000_0000_0000_0000
    ensures Fold(Seeker(Le(p, 8) + Le(q, 8), side), 1, ls) == if Quoted(ls, p, q) then 2 else 1
    decreases ls
  {
    if ls != [] {
      var m := Le(p, 8) + Le(q, 8);
      var l := ls[0];
      XorRows(1);
      RowsApart(p, q, l.price, l.qty);
      QuotedLater(ls, p, q);
      if l.price == p && l.qty == q {
        SeekerElsewhere(m, side, 2, ls[1..]);
      } else {
        SeekerFinds(p, q, side, ls[1..]);
      }
    }
  }

  lemma SeekerInBids(p: U64, q: nat, bids: seq<Level>, asks: seq<Level>)
    requires Fitting(bids) && Fitting(asks) && q < 0x1_0000_0000_0000_0000
    ensures L2Hash(Seeker(Le(p, 8) + Le(q, 8), Bid), bids, asks) == if Quoted(bids, p, q) then 2 else 4
  {
    SeekerFinds(p, q, Bid, bids);
    SeekerElsewhere(Le(p, 8) + Le(q, 8), Bid, if Quoted(bids, p, q) then 2 else 4, asks);
  }

  lemma SeekerInAsks(p: U64, q: nat, bids: seq<Level>, asks: seq<Level>)
    requires Fitting(bids) && Fitting(asks) && q < 0x1_0000_0000_0000_0000
    ensures L2Hash(Seeker(Le(p, 8) + Le(q, 8), Ask), bids, asks) == if Quoted(asks, p, q) then 2 else 1
  {
    SeekerElsewhere(Le(p, 8) + Le(q, 8), Ask, 0, bids);
    SeekerFinds(p, q, Ask, asks);
  }

  lemma SeekerHash(p: U64, q: nat, side: Side, bids: seq<Level>, asks: seq<Level>)
    requires Fitting(bids) && Fitting(asks) && q < 0x1_0000_0000_0000_0000
    ensures L2Hash(Seeker(Le(p, 8) + Le(q, 8), side), bids, asks)
            == if Quoted(if side.Bid? then bids else asks, p, q) then 2 else if side.Bid? then 4 else 1
  {
    if side.Bid? {
      SeekerInBids(p, q, bids, asks);
    } else {
      SeekerInAsks(p, q, bids, asks);
    }
  }

  lemma {:induction false} FoldOfQuotes(xxh3: Xxh3, h: bv64, a: seq<Level>, b: seq<Level>)
    requires Quotes(a) == Quotes(b)
    ensures Fold(xxh3, h, a) == Fold(xxh3, h, b)
    decreases a
  {
    assert |a| == |Quotes(a)| == |Quotes(b)| == |b|;
    if a != [] {
      assert Quotes(a)[0] == Quotes(b)[0] && Quotes(a[1..]) == Quotes(a)[1..] == Quotes(b)[1..] == Quotes(b[1..]);
      FoldOfQuotes(xxh3, Mix(xxh3, h, a[0]), a[1..], b[1..]);
    }
  }

  lemma SideShows(side: Side, a: seq<Level>, b: seq<Level>, bids: seq<Level>, asks: seq<Level>, bids': seq<Level>,
                  asks': seq<Level>)
    requires Fitting(bids) && Fitting(asks) && Fitting(bids') && Fitting(asks')
    requires a == (if side.Bid? then bids else asks) && b == if side.Bid? then bids' else asks'
    requires Sorted(side, a) && Sorted(side, b) && Quotes(a) != Quotes(b)
    ensures exists xxh3 :: L2Hash(xxh3, bids, asks) != L2Hash(xxh3, bids', asks')
  {
    var p, q := OddQuote(side, a, b);
    var ls := if Quoted(a, p, q) then a else b;
    var i :| 0 <= i < |ls| && ls[i].price == p && ls[i].qty == q;
    assert q < 0x1_0000_0000_0000_0000;
    SeekerHash(p, q, side, bids, asks);
    SeekerHash(p, q, side, bids', asks');
  }

  /** Two pairs of ladders hash alike under every xxh3 exactly when they show the same prices and quantities, on both
      sides and in the same order. */
  lemma HashTellsApart(bids: seq<Level>, asks: seq<Level>, bids': seq<Level>, asks': seq<Level>)
    requires Sorted(Bid, bids) && Sorted(Ask, asks) && Sorted(Bid, bids') && Sorted(Ask, asks')
    requires Fitting(bids) && Fitting(asks) && Fitting(bids') && Fitting(asks')
    ensures (forall xxh3 :: L2Hash(xxh3, bids, asks) == L2Hash(xxh3, bids', asks'))
            <==> Quotes(bids) == Quotes(bids') && Quotes(asks) == Quotes(asks')
  {
    if Quotes(bids) != Quotes(bids') {
      SideShows(Bid, bids, bids', bids, asks, bids', asks');
    } else if Quotes(asks) != Quotes(asks') {
      SideShows(Ask, asks, asks', bids, asks, bids', asks');
    } else {
      forall xxh3: Xxh3
        ensures L2Hash(xxh3, bids, asks) == L2Hash(xxh3, bids', asks')
      {
        FoldOfQuotes(xxh3, xxh3(TAG, 0), bids, bids');
        FoldOfQuotes(xxh3, xxh3(BAR, Fold(xxh3, xxh3(TAG, 0), bids)), asks, asks');
      }
    }
  }
}
