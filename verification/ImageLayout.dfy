/** Where the snapshot image keeps what (core/src/hot_book.rs): which buffers the decoder accepts, and what it finds at
    which offset, with no codec in between. */
module ImageLayout {
  import opened Events
  import opened Bytes
  import opened OrderStore
  import opened HotBook
  import opened BookSnapshot

  /** The four parts, each long enough for what its count declares. */
  predicate Admits(cap: U32, buf: seq<Byte>) {
    && |buf| >= 16 && U32At(buf, 12) == cap && U32At(buf, 4) <= cap && U32At(buf, 8) <= cap
    && HasSection(buf, SlabAt(buf), 24) && HasSection(buf, FreeAt(buf), 4) && HasSection(buf, IndexAt(buf), 12)
  }

  /** A count at `p`, and that many rows of width `w` after it. */
  predicate HasSection(buf: seq<Byte>, p: nat, w: nat) {
    p + 4 <= |buf| && p + 4 + w * U32At(buf, p) <= |buf|
  }

  function CountAt(buf: seq<Byte>, p: nat): nat {
    if p + 4 <= |buf| then U32At(buf, p) else 0
  }

  /** The slab data, after the header and both ladders. */
  function SlabAt(buf: seq<Byte>): nat {
    16 + 24 * (CountAt(buf, 4) + CountAt(buf, 8))
  }

  function FreeAt(buf: seq<Byte>): nat {
    SlabAt(buf) + 4 + 24 * CountAt(buf, SlabAt(buf))
  }

  function IndexAt(buf: seq<Byte>): nat {
    FreeAt(buf) + 4 + 4 * CountAt(buf, FreeAt(buf))
  }

  // ---------------------------------------------------------------- rows at offsets

  lemma {:induction false} RowAt<T>(c: Codec<T>, buf: seq<Byte>, p: nat, n: nat, k: nat)
    requires p + Span(n, c.width) <= |buf| && k < n
    ensures Span(k, c.width) + c.width <= Span(n, c.width)
    ensures ReadRows(c, buf, p, n)[k] == c.read(buf[p + Span(k, c.width)..p + Span(k, c.width) + c.width])
    decreases k
  {
    RowFits(n, c.width, k);
    FirstRow(c, buf, p, n);
    if k > 0 {
      RowAt(c, buf, p + c.width, n - 1, k - 1);
      SpanSplits(1, k - 1, c.width);
    }
  }

  lemma FirstRow<T>(c: Codec<T>, buf: seq<Byte>, p: nat, n: nat)
    requires n > 0 && p + Span(n, c.width) <= |buf|
    ensures Span(0, c.width) == 0 && Span(1, c.width) == c.width && Span(n, c.width) == c.width + Span(n - 1, c.width)
    ensures ReadRows(c, buf, p, n) == [c.read(buf[p..p + c.width])] + ReadRows(c, buf, p + c.width, n - 1)
  {
    assert Span(1, c.width) == c.width + Span(0, c.width);
  }

  lemma SubSlice(buf: seq<Byte>, q: nat, n: nat, i: nat, j: nat)
    requires q + n <= |buf| && i <= j <= n
    ensures buf[q..q + n][i..j] == buf[q + i..q + j]
  {
    var a, b := buf[q..q + n][i..j], buf[q + i..q + j];
    assert |a| == |b|;
    assert forall k :: 0 <= k < |a| ==> a[k] == buf[q + i + k] == b[k];
  }

  lemma LevelAt(buf: seq<Byte>, q: nat)
    requires q + 24 <= |buf|
    ensures LEVELS.read(buf[q..q + 24]) == Level(U64At(buf, q), U64At(buf, q + 8), U32At(buf, q + 16))
  {
    SubSlice(buf, q, 24, 0, 8);
    SubSlice(buf, q, 24, 8, 16);
    SubSlice(buf, q, 24, 16, 20);
  }

  lemma MetaAt(buf: seq<Byte>, q: nat)
    requires q + 24 <= |buf|
    ensures METAS.read(buf[q..q + 24]) == Meta(U64At(buf, q), U64At(buf, q + 8), buf[q + 16])
  {
    SubSlice(buf, q, 24, 0, 8);
    SubSlice(buf, q, 24, 8, 16);
  }

  lemma WordAt(buf: seq<Byte>, q: nat)
    requires q + 4 <= |buf|
    ensures WORDS.read(buf[q..q + 4]) == U32At(buf, q)
  {
    SubSlice(buf, q, 4, 0, 4);
  }

  lemma EntryAt(buf: seq<Byte>, q: nat)
    requires q + 12 <= |buf|
    ensures ENTRIES.read(buf[q..q + 12]) == (U64At(buf, q), U32At(buf, q + 8))
  {
    SubSlice(buf, q, 12, 0, 8);
    SubSlice(buf, q, 12, 8, 12);
  }

  ghost predicate Wide(w: nat) {
    forall k: nat :: Span(k, w) == w * k
  }

  lemma LiteralsAreWide()
    ensures Wide(24) && Wide(12) && Wide(4)
  {
    forall k: nat
      ensures Span(k, 24) == 24 * k && Span(k, 12) == 12 * k && Span(k, 4) == 4 * k
    {
      SpanOfLiteral(k);
    }
  }

  /** `xs` are the rows of `n` that start at `p`. */
  ghost predicate RowsFrom<T>(c: Codec<T>, buf: seq<Byte>, p: nat, n: nat, xs: seq<T>) {
    && |xs| == n && p + c.width * n <= |buf|
    && forall k {:trigger xs[k]} :: 0 <= k < n ==> RowIs(c, buf, p + c.width * k, xs[k])
  }

  ghost predicate RowIs<T>(c: Codec<T>, buf: seq<Byte>, q: nat, x: T) {
    q + c.width <= |buf| && x == c.read(buf[q..q + c.width])
  }

  lemma RowFrom<T>(c: Codec<T>, buf: seq<Byte>, p: nat, n: nat, xs: seq<T>, k: nat)
    requires RowsFrom(c, buf, p, n, xs) && k < n
    ensures RowIs(c, buf, p + c.width * k, xs[k])
  {
  }

  lemma RowsAt<T>(c: Codec<T>, buf: seq<Byte>, p: nat, n: nat)
    requires Wide(c.width) && p + c.width * n <= |buf|
    ensures Span(n, c.width) == c.width * n && RowsFrom(c, buf, p, n, ReadRows(c, buf, p, n))
  {
    assert Span(n, c.width) == c.width * n;
    forall k | 0 <= k < n
      ensures RowIs(c, buf, p + c.width * k, ReadRows(c, buf, p, n)[k])
    {
      RowAt(c, buf, p, n, k);
      assert Span(k, c.width) == c.width * k;
    }
  }

  /** A section is read exactly when it is there; it ends after its rows. */
  lemma SectionIff<T>(c: Codec<T>, buf: seq<Byte>, p: nat)
    requires p <= |buf| && Wide(c.width)
    ensures var r := TakeSection(WORDS, c, buf, p);
            && (r.Ok? <==> HasSection(buf, p, c.width))
            && (r.Ok? ==> RowsFrom(c, buf, p + 4, CountAt(buf, p), r.value.0)
                          && r.value.1 == p + 4 + c.width * CountAt(buf, p))
  {
    if p + 4 <= |buf| {
      WordAt(buf, p);
      assert Span(CountAt(buf, p), c.width) == c.width * CountAt(buf, p);
      if HasSection(buf, p, c.width) {
        RowsAt(c, buf, p + 4, CountAt(buf, p));
      }
    }
  }

  ghost predicate SlabShown(buf: seq<Byte>, s: Slab, es: seq<Entry>) {
    && RowsFrom(METAS, buf, SlabAt(buf) + 4, CountAt(buf, SlabAt(buf)), s.data)
    && RowsFrom(WORDS, buf, FreeAt(buf) + 4, CountAt(buf, FreeAt(buf)), s.free)
    && RowsFrom(ENTRIES, buf, IndexAt(buf) + 4, CountAt(buf, IndexAt(buf)), es)
    && s.index == MapOf(es)
  }

  predicate HasSlab(buf: seq<Byte>) {
    HasSection(buf, SlabAt(buf), 24) && HasSection(buf, FreeAt(buf), 4) && HasSection(buf, IndexAt(buf), 12)
  }

  /** Which sections are there, and where each ends. */
  lemma SectionsEnd(buf: seq<Byte>)
    requires SlabAt(buf) <= |buf|
    ensures var a, b, x := SlabAt(buf), FreeAt(buf), IndexAt(buf);
            && (TakeSection(WORDS, METAS, buf, a).Ok? <==> HasSection(buf, a, 24))
            && (TakeSection(WORDS, METAS, buf, a).Ok? ==> TakeSection(WORDS, METAS, buf, a).value.1 == b)
            && (b <= |buf| ==> (TakeSection(WORDS, WORDS, buf, b).Ok? <==> HasSection(buf, b, 4)))
            && (b <= |buf| && TakeSection(WORDS, WORDS, buf, b).Ok? ==> TakeSection(WORDS, WORDS, buf, b).value.1 == x)
            && (x <= |buf| ==> (TakeSection(WORDS, ENTRIES, buf, x).Ok? <==> HasSection(buf, x, 12)))
  {
    LiteralsAreWide();
    SectionIff(METAS, buf, SlabAt(buf));
    if FreeAt(buf) <= |buf| {
      SectionIff(WORDS, buf, FreeAt(buf));
    }
    if IndexAt(buf) <= |buf| {
      SectionIff(ENTRIES, buf, IndexAt(buf));
    }
  }

  lemma SectionsShow(buf: seq<Byte>, s: Slab, es: seq<Entry>, end: nat)
    requires SlabAt(buf) <= |buf| && FreeAt(buf) <= |buf| && IndexAt(buf) <= |buf| && s.index == MapOf(es)
    requires TakeSection(WORDS, METAS, buf, SlabAt(buf)) == Ok((s.data, FreeAt(buf)))
    requires TakeSection(WORDS, WORDS, buf, FreeAt(buf)) == Ok((s.free, IndexAt(buf)))
    requires TakeSection(WORDS, ENTRIES, buf, IndexAt(buf)) == Ok((es, end))
    ensures SlabShown(buf, s, es)
  {
    LiteralsAreWide();
    SectionIff(METAS, buf, SlabAt(buf));
    SectionIff(WORDS, buf, FreeAt(buf));
    SectionIff(ENTRIES, buf, IndexAt(buf));
  }

  lemma SlabIff(buf: seq<Byte>)
    requires SlabAt(buf) <= |buf|
    ensures var r := DecodeSlabAs(BOOK_FORMAT, buf, SlabAt(buf));
            && (r.Ok? <==> HasSlab(buf))
            && (r.Ok? ==> exists es :: SlabShown(buf, r.value, es))
  {
    SectionsEnd(buf);
    SlabInTurn(BOOK_FORMAT, buf, SlabAt(buf), FreeAt(buf), IndexAt(buf));
    if HasSlab(buf) {
      var (es, end) := TakeSection(WORDS, ENTRIES, buf, IndexAt(buf)).value;
      SectionsShow(buf, DecodeSlabAs(BOOK_FORMAT, buf, SlabAt(buf)).value, es, end);
    }
  }

  /** Where each section of the slab starts is where the one before it ends. */
  lemma SlabInTurn(f: Format, buf: seq<Byte>, a: nat, b: nat, x: nat)
    requires a <= |buf|
    requires TakeSection(f.words, f.metas, buf, a).Ok? ==> b == TakeSection(f.words, f.metas, buf, a).value.1
    requires b <= |buf| && TakeSection(f.words, f.words, buf, b).Ok? ==> x == TakeSection(f.words, f.words, buf, b).value.1
    ensures var r := DecodeSlabAs(f, buf, a);
            && (r.Ok? <==>
                  && TakeSection(f.words, f.metas, buf, a).Ok?
                  && b <= |buf| && TakeSection(f.words, f.words, buf, b).Ok?
                  && x <= |buf| && TakeSection(f.words, f.entries, buf, x).Ok?)
            && (r.Ok? ==> r.value == Slab(TakeSection(f.words, f.metas, buf, a).value.0,
                                          TakeSection(f.words, f.words, buf, b).value.0,
                                          MapOf(TakeSection(f.words, f.entries, buf, x).value.0)))
  {
  }

  // ---------------------------------------------------------------- the whole buffer

  lemma WordRowAt(buf: seq<Byte>, p: nat, n: nat, k: nat)
    requires p + 4 * n <= |buf| && k < n
    ensures Span(n, WORDS.width) == 4 * n && ReadRows(WORDS, buf, p, n)[k] == U32At(buf, p + 4 * k)
  {
    LiteralsAreWide();
    RowsAt(WORDS, buf, p, n);
    RowFrom(WORDS, buf, p, n, ReadRows(WORDS, buf, p, n), k);
    WordAt(buf, p + 4 * k);
  }

  lemma HeaderWordsAt(buf: seq<Byte>, n: nat)
    requires |buf| >= 16 && n == 4
    ensures Span(n, WORDS.width) == 16
    ensures var hd := ReadRows(WORDS, buf, 0, n);
            hd[0] == U32At(buf, 0) && hd[1] == U32At(buf, 4) && hd[2] == U32At(buf, 8) && hd[3] == U32At(buf, 12)
  {
    WordRowAt(buf, 0, n, 0);
    WordRowAt(buf, 0, n, 1);
    WordRowAt(buf, 0, n, 2);
    WordRowAt(buf, 0, n, 3);
  }

  lemma LaddersIff(buf: seq<Byte>, n: nat, m: nat)
    requires |buf| >= 16
    ensures var r := TakeLadders(LEVELS, buf, 16, n, m);
            && (r.Ok? <==> 16 + 24 * (n + m) <= |buf|)
            && (r.Ok? ==> r.value.2 == 16 + 24 * (n + m) && |r.value.0| == n && |r.value.1| == m
                          && RowsFrom(LEVELS, buf, 16, n + m, r.value.0 + r.value.1))
  {
    LiteralsAreWide();
    assert Span(n + m, LEVELS.width) == 24 * (n + m);
    if 16 + 24 * (n + m) <= |buf| {
      RowsAt(LEVELS, buf, 16, n + m);
      var rows := ReadRows(LEVELS, buf, 16, n + m);
      assert rows[..n] + rows[n..] == rows;
    }
  }

  /** The header, and what it is checked for, in order. */
  lemma HeaderChecks(cap: U32, buf: seq<Byte>)
    ensures |buf| < 16 ==> Decode(cap, buf) == Err(Truncated(|buf|))
    ensures |buf| >= 16 ==>
              var r, bids, asks, depth := Decode(cap, buf), U32At(buf, 4), U32At(buf, 8), U32At(buf, 12);
              if depth != cap then r == Err(LevelsMismatch(depth, cap))
              else if bids > cap || asks > cap then r == Err(CountExceedsMax(if bids >= asks then bids else asks, cap))
              else r == DecodeBody(BOOK_FORMAT, U32At(buf, 0), bids, asks, buf, 16)
  {
    SpanOfLiteral(4);
    if |buf| >= 16 {
      HeaderWordsAt(buf, 4);
    }
  }

  /** What an accepted buffer holds: header, bids, asks, slab rows, free slots and index entries. */
  ghost predicate Holds(buf: seq<Byte>, i: Image, es: seq<Entry>) {
    && |buf| >= 16 && i.instrumentId == U32At(buf, 0) && |i.book.bids| == U32At(buf, 4) && |i.book.asks| == U32At(buf, 8)
    && RowsFrom(LEVELS, buf, 16, |i.book.bids| + |i.book.asks|, i.book.bids + i.book.asks)
    && SlabShown(buf, i.book.slab, es)
  }

  lemma BodyIff(buf: seq<Byte>, instrumentId: nat, n: nat, m: nat)
    requires |buf| >= 16 && instrumentId == U32At(buf, 0) && n == U32At(buf, 4) && m == U32At(buf, 8)
    ensures var r := DecodeBody(BOOK_FORMAT, instrumentId, n, m, buf, 16);
            && (r.Ok? <==> HasSlab(buf))
            && (r.Ok? ==> exists es :: Holds(buf, r.value, es))
  {
    LaddersIff(buf, n, m);
    if SlabAt(buf) <= |buf| {
      SlabIff(buf);
      BodyInTurn(BOOK_FORMAT, instrumentId, n, m, buf, 16, SlabAt(buf));
      if HasSlab(buf) {
        var s := DecodeSlabAs(BOOK_FORMAT, buf, SlabAt(buf)).value;
        var es :| SlabShown(buf, s, es);
        assert Holds(buf, DecodeBody(BOOK_FORMAT, instrumentId, n, m, buf, 16).value, es);
      }
    }
  }

  lemma BodyInTurn(f: Format, instrumentId: nat, n: nat, m: nat, buf: seq<Byte>, p: nat, q: nat)
    requires p <= |buf| && TakeLadders(f.levels, buf, p, n, m).Ok? && q == TakeLadders(f.levels, buf, p, n, m).value.2
    ensures var l, s, r := TakeLadders(f.levels, buf, p, n, m).value, DecodeSlabAs(f, buf, q), DecodeBody(f, instrumentId, n, m, buf, p);
            (r.Ok? <==> s.Ok?) && (r.Ok? ==> r.value == Image(instrumentId, Hot(l.0, l.1, s.value)))
  {
  }

  /** The decoder accepts exactly the buffers that are long enough for their own counts, of its own depth and within it;
      anything after the last entry is ignored. */
  lemma AcceptsIff(cap: U32, buf: seq<Byte>)
    ensures Decode(cap, buf).Ok? <==> Admits(cap, buf)
    ensures Decode(cap, buf).Ok? ==> exists es :: Holds(buf, Decode(cap, buf).value, es)
  {
    HeaderChecks(cap, buf);
    if |buf| >= 16 {
      BodyIff(buf, U32At(buf, 0), U32At(buf, 4), U32At(buf, 8));
    }
  }

  // ---------------------------------------------------------------- what is where

  predicate LevelIs(buf: seq<Byte>, q: nat, l: Level) {
    q + 24 <= |buf| && l.price == U64At(buf, q) && l.qty == U64At(buf, q + 8) && l.count == U32At(buf, q + 16)
  }

  predicate MetaIs(buf: seq<Byte>, q: nat, m: Meta) {
    q + 24 <= |buf| && m.price == U64At(buf, q) && m.qty == U64At(buf, q + 8) && m.side == buf[q + 16]
  }

  predicate WordIs(buf: seq<Byte>, q: nat, n: nat) {
    q + 4 <= |buf| && n == U32At(buf, q)
  }

  /** Of the `n` index entries from `p` on, entry `k` binds `id` to `slot`. */
  predicate EntryIs(buf: seq<Byte>, p: nat, n: nat, k: nat, id: U64, slot: nat) {
    k < n && p + 12 * k + 12 <= |buf| && id == U64At(buf, p + 12 * k) && slot == U32At(buf, p + 12 * k + 8)
  }

  lemma LaddersHeld(buf: seq<Byte>, i: Image, es: seq<Entry>, k: nat)
    requires Holds(buf, i, es)
    ensures k < |i.book.bids| ==> LevelIs(buf, 16 + 24 * k, i.book.bids[k])
    ensures k < |i.book.asks| ==> LevelIs(buf, 16 + 24 * (|i.book.bids| + k), i.book.asks[k])
  {
    var rows := i.book.bids + i.book.asks;
    if k < |i.book.bids| {
      assert rows[k] == i.book.bids[k];
      LevelRow(buf, rows, k);
    }
    if k < |i.book.asks| {
      assert rows[|i.book.bids| + k] == i.book.asks[k];
      LevelRow(buf, rows, |i.book.bids| + k);
    }
  }

  lemma LevelRow(buf: seq<Byte>, rows: seq<Level>, k: nat)
    requires RowsFrom(LEVELS, buf, 16, |rows|, rows) && k < |rows|
    ensures LevelIs(buf, 16 + 24 * k, rows[k])
  {
    RowFrom(LEVELS, buf, 16, |rows|, rows, k);
    LevelAt(buf, 16 + 24 * k);
  }

  lemma MetaRow(buf: seq<Byte>, p: nat, n: nat, rows: seq<Meta>, k: nat)
    requires RowsFrom(METAS, buf, p, n, rows) && k < n
    ensures MetaIs(buf, p + 24 * k, rows[k])
  {
    RowFrom(METAS, buf, p, n, rows, k);
    MetaAt(buf, p + 24 * k);
  }

  lemma WordRow(buf: seq<Byte>, p: nat, n: nat, rows: seq<nat>, k: nat)
    requires RowsFrom(WORDS, buf, p, n, rows) && k < n
    ensures WordIs(buf, p + 4 * k, rows[k])
  {
    RowFrom(WORDS, buf, p, n, rows, k);
    WordAt(buf, p + 4 * k);
  }

  /** Entry `k` binds `id` to `slot`, and no later one binds `id`. */
  predicate LastFor(es: seq<Entry>, k: nat, id: U64, slot: nat) {
    k < |es| && es[k] == (id, slot) && forall j :: k < j < |es| ==> es[j].0 != id
  }

  predicate NotIn(es: seq<Entry>, id: U64) {
    forall j :: 0 <= j < |es| ==> es[j].0 != id
  }

  lemma LastStays(es: seq<Entry>, e: Entry, k: nat, id: U64, slot: nat)
    requires LastFor(es, k, id, slot) && e.0 != id
    ensures LastFor(es + [e], k, id, slot)
  {
  }

  /** The last entry of an id binds it. */
  lemma {:induction false} LastEntryBinds(es: seq<Entry>, id: U64)
    ensures id in MapOf(es) ==> exists k :: LastFor(es, k, id, MapOf(es)[id])
    ensures id !in MapOf(es) ==> NotIn(es, id)
  {
    if es != [] {
      var was, e := es[..|es| - 1], es[|es| - 1];
      assert es == was + [e];
      if e.0 == id {
        assert LastFor(es, |was|, id, MapOf(es)[id]);
      } else {
        LastEntryBinds(was, id);
        if id in MapOf(was) {
          var k :| LastFor(was, k, id, MapOf(was)[id]);
          LastStays(was, e, k, id, MapOf(was)[id]);
        }
      }
    }
  }

  lemma EntriesHeld(buf: seq<Byte>, p: nat, n: nat, es: seq<Entry>, k: nat)
    requires RowsFrom(ENTRIES, buf, p, n, es) && k < n
    ensures EntryIs(buf, p, n, k, es[k].0, es[k].1)
  {
    RowFrom(ENTRIES, buf, p, n, es, k);
    EntryAt(buf, p + 12 * k);
  }

  /** Some entry binds `id` to `slot`, and no later one binds `id`. */
  ghost predicate LastBinds(buf: seq<Byte>, p: nat, n: nat, id: U64, slot: nat) {
    exists k: nat :: EntryIs(buf, p, n, k, id, slot) && NoneFrom(buf, p, n, k + 1, id)
  }

  ghost predicate NoneFrom(buf: seq<Byte>, p: nat, n: nat, k: nat, id: U64) {
    forall j: nat, slot: nat :: k <= j ==> !EntryIs(buf, p, n, j, id, slot)
  }

  lemma NoneHeld(buf: seq<Byte>, p: nat, n: nat, es: seq<Entry>, k: nat, id: U64)
    requires RowsFrom(ENTRIES, buf, p, n, es) && forall j :: k <= j < |es| ==> es[j].0 != id
    ensures NoneFrom(buf, p, n, k, id)
  {
    forall j: nat, slot: nat | k <= j
      ensures !EntryIs(buf, p, n, j, id, slot)
    {
      if j < n {
        EntriesHeld(buf, p, n, es, j);
      }
    }
  }

  lemma IndexHeld(buf: seq<Byte>, p: nat, n: nat, es: seq<Entry>, id: U64)
    requires RowsFrom(ENTRIES, buf, p, n, es)
    ensures id in MapOf(es) ==> LastBinds(buf, p, n, id, MapOf(es)[id])
    ensures id !in MapOf(es) ==> NoneFrom(buf, p, n, 0, id)
  {
    LastEntryBinds(es, id);
    if id in MapOf(es) {
      var k: nat :| LastFor(es, k, id, MapOf(es)[id]);
      EntriesHeld(buf, p, n, es, k);
      NoneHeld(buf, p, n, es, k + 1, id);
    } else {
      NoneHeld(buf, p, n, es, 0, id);
    }
  }

  /** The index binds `id` to the slot of its last entry, and not at all if it has none. */
  ghost predicate IndexDescribed(buf: seq<Byte>, index: map<U64, nat>, id: U64) {
    var p, n := IndexAt(buf) + 4, CountAt(buf, IndexAt(buf));
    if id in index then LastBinds(buf, p, n, id, index[id]) else NoneFrom(buf, p, n, 0, id)
  }

  lemma SlabIndexHeld(buf: seq<Byte>, s: Slab, es: seq<Entry>, id: U64)
    requires SlabShown(buf, s, es)
    ensures IndexDescribed(buf, s.index, id)
  {
    IndexHeld(buf, IndexAt(buf) + 4, CountAt(buf, IndexAt(buf)), es, id);
  }

  // ---------------------------------------------------------------- accepted buffers

  lemma AcceptedHolds(cap: U32, buf: seq<Byte>, i: Image) returns (es: seq<Entry>)
    requires Decode(cap, buf) == Ok(i)
    ensures Holds(buf, i, es)
  {
    AcceptsIff(cap, buf);
    es :| Holds(buf, i, es);
  }

  /** Twenty-four bytes a level: price, quantity, order count. Bids first, asks right after. */
  lemma LaddersAt(cap: U32, buf: seq<Byte>, i: Image, k: nat)
    requires Decode(cap, buf) == Ok(i)
    ensures |buf| >= 16 && i.instrumentId == U32At(buf, 0) && |i.book.bids| == U32At(buf, 4) && |i.book.asks| == U32At(buf, 8)
    ensures k < |i.book.bids| ==> LevelIs(buf, 16 + 24 * k, i.book.bids[k])
    ensures k < |i.book.asks| ==> LevelIs(buf, 16 + 24 * (|i.book.bids| + k), i.book.asks[k])
  {
    var es := AcceptedHolds(cap, buf, i);
    LaddersHeld(buf, i, es, k);
  }

  lemma DataHeld(buf: seq<Byte>, s: Slab, es: seq<Entry>, k: nat)
    requires SlabShown(buf, s, es) && k < |s.data|
    ensures MetaIs(buf, SlabAt(buf) + 4 + 24 * k, s.data[k])
  {
    MetaRow(buf, SlabAt(buf) + 4, |s.data|, s.data, k);
  }

  lemma FreeHeld(buf: seq<Byte>, s: Slab, es: seq<Entry>, k: nat)
    requires SlabShown(buf, s, es) && k < |s.free|
    ensures WordIs(buf, FreeAt(buf) + 4 + 4 * k, s.free[k])
  {
    WordRow(buf, FreeAt(buf) + 4, |s.free|, s.free, k);
  }

  /** Slab rows of price, quantity and side byte, after their count. */
  lemma SlabRowsAt(cap: U32, buf: seq<Byte>, i: Image, k: nat)
    requires Decode(cap, buf) == Ok(i)
    ensures |i.book.slab.data| == CountAt(buf, SlabAt(buf))
    ensures k < |i.book.slab.data| ==> MetaIs(buf, SlabAt(buf) + 4 + 24 * k, i.book.slab.data[k])
  {
    var es := AcceptedHolds(cap, buf, i);
    if k < |i.book.slab.data| {
      DataHeld(buf, i.book.slab, es, k);
    }
  }

  /** Free slots, oldest first, after their count. */
  lemma FreeSlotsAt(cap: U32, buf: seq<Byte>, i: Image, k: nat)
    requires Decode(cap, buf) == Ok(i)
    ensures |i.book.slab.free| == CountAt(buf, FreeAt(buf))
    ensures k < |i.book.slab.free| ==> WordIs(buf, FreeAt(buf) + 4 + 4 * k, i.book.slab.free[k])
  {
    var es := AcceptedHolds(cap, buf, i);
    if k < |i.book.slab.free| {
      FreeHeld(buf, i.book.slab, es, k);
    }
  }

  /** Twelve bytes an entry, id and slot; of several entries for an id the last one counts. */
  lemma IndexEntriesAt(cap: U32, buf: seq<Byte>, i: Image, id: U64)
    requires Decode(cap, buf) == Ok(i)
    ensures IndexDescribed(buf, i.book.slab.index, id)
  {
    var es := AcceptedHolds(cap, buf, i);
    SlabIndexHeld(buf, i.book.slab, es, id);
  }

  // ---------------------------------------------------------------- written buffers

  /** The length of an image that holds these many levels, slots, free slots and entries. */
  function ImageLength(levels: nat, slots: nat, free: nat, entries: nat): nat {
    16 + 24 * levels + (4 + 24 * slots) + (4 + 4 * free) + (4 + 12 * entries)
  }

  lemma RowsWide<T>(c: Codec<T>, xs: seq<T>)
    requires Wide(c.width) && Faithful(c, xs)
    ensures |Rows(c, xs)| == c.width * |xs|
  {
    RowsLength(c, xs);
    assert Span(|xs|, c.width) == c.width * |xs|;
  }

  lemma SlabLength(s: Slab)
    requires SlabFits(s)
    ensures |SlabBytes(BOOK_FORMAT, s)| == (4 + 24 * |s.data|) + (4 + 4 * |s.free|) + (4 + 12 * |s.index|)
  {
    LiteralsAreWide();
    FittingSlabIsFaithful(s);
    MapOfSize(Listing(s.index));
    RowsWide(METAS, s.data);
    RowsWide(WORDS, s.free);
    RowsWide(ENTRIES, Listing(s.index));
  }

  /** Nothing but the four parts is written. */
  lemma EncodedLength(cap: U32, i: Image)
    requires Writable(cap, i.book) && i.instrumentId < 0x1_0000_0000
    ensures |Encode(cap, i)|
            == ImageLength(|i.book.bids| + |i.book.asks|, |i.book.slab.data|, |i.book.slab.free|, |i.book.slab.index|)
  {
    LiteralsAreWide();
    WordsFaithful(HeaderWords(cap, i));
    RowsWide(WORDS, HeaderWords(cap, i));
    LevelsFaithful(i.book.bids + i.book.asks);
    RowsWide(LEVELS, i.book.bids + i.book.asks);
    SlabLength(i.book.slab);
  }

  lemma EntriesReadBack(a: seq<Byte>, es: seq<Entry>, k: nat)
    requires Faithful(ENTRIES, es) && k < |es|
    ensures EntryIs(a + Rows(ENTRIES, es), |a|, |es|, k, es[k].0, es[k].1)
  {
    LiteralsAreWide();
    RowsWide(ENTRIES, es);
    RowsRoundTrip(ENTRIES, a, es, []);
    assert a + Rows(ENTRIES, es) + [] == a + Rows(ENTRIES, es);
    RowsAt(ENTRIES, a + Rows(ENTRIES, es), |a|, |es|);
    EntriesHeld(a + Rows(ENTRIES, es), |a|, |es|, es, k);
  }

  lemma TailAscends(a: seq<Byte>, es: seq<Entry>, k: nat)
    requires Faithful(ENTRIES, es) && Ascending(es) && k + 1 < |es|
    ensures var b, p := a + Rows(ENTRIES, es), |a|;
            |b| == p + 12 * |es| && U64At(b, p + 12 * k) < U64At(b, p + 12 * (k + 1))
  {
    LiteralsAreWide();
    RowsWide(ENTRIES, es);
    EntriesReadBack(a, es, k);
    EntriesReadBack(a, es, k + 1);
  }

  lemma EncodeEndsWith(cap: U32, i: Image) returns (a: seq<Byte>)
    ensures Encode(cap, i) == a + Rows(ENTRIES, Listing(i.book.slab.index))
  {
    var f, s := BOOK_FORMAT, i.book.slab;
    var es := Listing(s.index);
    a := Rows(f.words, HeaderWords(cap, i)) + Rows(f.levels, i.book.bids + i.book.asks)
         + (Section(f.words, f.metas, s.data) + Section(f.words, f.words, s.free) + f.words.write(|es|));
  }

  /** The index is written last, in strictly ascending order of id: equal books have equal images. */
  lemma EncodedIndexAscends(cap: U32, i: Image, k: nat)
    requires Writable(cap, i.book) && k + 1 < |i.book.slab.index|
    ensures var b := Encode(cap, i);
            var p := |b| - 12 * |i.book.slab.index|;
            0 <= p && U64At(b, p + 12 * k) < U64At(b, p + 12 * (k + 1))
  {
    var es := Listing(i.book.slab.index);
    MapOfSize(es);
    FittingSlabIsFaithful(i.book.slab);
    var a := EncodeEndsWith(cap, i);
    TailAscends(a, es, k);
  }
}
