/** What the snapshot decoder admits (core/src/hot_book.rs): of any bytes at all, not only of images it wrote. */
module AcceptedImage {
  import opened Events
  import opened Bytes
  import opened Ladder
  import opened OrderStore
  import opened HotBook
  import opened BookSnapshot

  // ---------------------------------------------------------------- rows read are within their fields

  lemma {:induction false} RowsRead<T>(c: Codec<T>, buf: seq<Byte>, p: nat, n: nat, ok: T -> bool)
    requires p + Span(n, c.width) <= |buf| && forall b :: |b| == c.width ==> ok(c.read(b))
    ensures forall i :: 0 <= i < n ==> ok(ReadRows(c, buf, p, n)[i])
    decreases n
  {
    if n > 0 {
      RowsRead(c, buf, p + c.width, n - 1, ok);
      assert |buf[p..p + c.width]| == c.width;
    }
  }

  predicate IsWord(n: nat) {
    n < 0x1_0000_0000
  }

  predicate IsLevel(l: Level) {
    l.qty < 0x1_0000_0000_0000_0000 && l.count < 0x1_0000_0000
  }

  predicate IsEntry(e: Entry) {
    e.1 < 0x1_0000_0000
  }

  /** Whatever the rows are, these formats read numbers of their fields' widths. */
  ghost predicate Bounding(f: Format) {
    && (forall b :: |b| == f.words.width ==> IsWord(f.words.read(b)))
    && (forall b :: |b| == f.levels.width ==> IsLevel(f.levels.read(b)))
    && (forall b :: |b| == f.entries.width ==> IsEntry(f.entries.read(b)))
  }

  lemma BookFormatBounds()
    ensures Bounding(BOOK_FORMAT)
  {
  }

  lemma SectionRead<T>(w: Codec<nat>, c: Codec<T>, buf: seq<Byte>, p: nat, ok: T -> bool)
    requires p <= |buf| && TakeSection(w, c, buf, p).Ok?
    requires (forall b :: |b| == w.width ==> IsWord(w.read(b))) && forall b :: |b| == c.width ==> ok(c.read(b))
    ensures var xs := TakeSection(w, c, buf, p).value.0; IsWord(|xs|) && forall i :: 0 <= i < |xs| ==> ok(xs[i])
  {
    var n, q := w.read(buf[p..p + w.width]), p + w.width;
    assert |buf[p..p + w.width]| == w.width;
    RowsRead(c, buf, q, n, ok);
  }

  lemma {:induction false} MapOfEntries(es: seq<Entry>)
    requires forall i :: 0 <= i < |es| ==> IsEntry(es[i])
    ensures |MapOf(es)| <= |es| && forall id :: id in MapOf(es) ==> MapOf(es)[id] < 0x1_0000_0000
  {
    if es != [] {
      var n := |es| - 1;
      MapOfEntries(es[..n]);
      PutSize(MapOf(es[..n]), es[n].0, es[n].1);
    }
  }

  lemma PutSize(m: map<U64, nat>, k: U64, x: nat)
    ensures |m[k := x]| <= |m| + 1
  {
    assert m[k := x].Keys == m.Keys + {k};
    assert |m.Keys + {k}| <= |m.Keys| + 1;
  }

  lemma SlabRead(f: Format, buf: seq<Byte>, p: nat)
    requires p <= |buf| && Bounding(f) && DecodeSlabAs(f, buf, p).Ok?
    ensures SlabFits(DecodeSlabAs(f, buf, p).value)
  {
    var d := TakeSection(f.words, f.metas, buf, p).value;
    SectionRead(f.words, f.metas, buf, p, m => true);
    var g := TakeSection(f.words, f.words, buf, d.1).value;
    SectionRead(f.words, f.words, buf, d.1, IsWord);
    SectionRead(f.words, f.entries, buf, g.1, IsEntry);
    MapOfEntries(TakeSection(f.words, f.entries, buf, g.1).value.0);
  }

  lemma LaddersRead(c: Codec<Level>, buf: seq<Byte>, p: nat, n: nat, m: nat)
    requires p <= |buf| && TakeLadders(c, buf, p, n, m).Ok? && forall b :: |b| == c.width ==> IsLevel(c.read(b))
    ensures var r := TakeLadders(c, buf, p, n, m).value; |r.0| == n && |r.1| == m && Narrow(r.0) && Narrow(r.1)
  {
    RowsRead(c, buf, p, n + m, IsLevel);
  }

  lemma BodyRead(f: Format, instrumentId: nat, n: nat, m: nat, buf: seq<Byte>, p: nat)
    requires p <= |buf| && Bounding(f) && DecodeBody(f, instrumentId, n, m, buf, p).Ok?
    ensures var i := DecodeBody(f, instrumentId, n, m, buf, p).value;
            && i.instrumentId == instrumentId && |i.book.bids| == n && |i.book.asks| == m
            && Narrow(i.book.bids) && Narrow(i.book.asks) && SlabFits(i.book.slab)
  {
    LaddersRead(f.levels, buf, p, n, m);
    SlabRead(f, buf, TakeLadders(f.levels, buf, p, n, m).value.2);
  }

  lemma ImageRead(f: Format, cap: U32, buf: seq<Byte>)
    requires Bounding(f) && DecodeAs(f, cap, buf).Ok?
    ensures var i := DecodeAs(f, cap, buf).value; Writable(cap, i.book) && IsWord(i.instrumentId)
  {
    var p := Span(4, f.words.width);
    var hd := ReadRows(f.words, buf, 0, 4);
    RowsRead(f.words, buf, 0, 4, IsWord);
    BodyRead(f, hd[0], hd[1], hd[2], buf, p);
  }

  // ---------------------------------------------------------------- any accepted buffer

  /** Whatever the decoder accepts, the encoder can write. */
  lemma AcceptedIsWritable(cap: U32, buf: seq<Byte>)
    requires Decode(cap, buf).Ok?
    ensures var i := Decode(cap, buf).value; Writable(cap, i.book) && i.instrumentId < 0x1_0000_0000
  {
    BookFormatBounds();
    ImageRead(BOOK_FORMAT, cap, buf);
  }

  /** And what the encoder then writes, the decoder reads as it read the buffer: re-encoding normalises, and loses
      nothing. */
  lemma AcceptedReencodes(cap: U32, buf: seq<Byte>)
    requires Decode(cap, buf).Ok?
    ensures Decode(cap, Encode(cap, Decode(cap, buf).value)) == Decode(cap, buf)
  {
    AcceptedIsWritable(cap, buf);
    ImageRoundTrip(cap, Decode(cap, buf).value);
  }

  /** Checks the decoder leaves out: neighbouring prices in order on both sides, every slot named by the index or the
      free list, and as many names as slots. */
  predicate Checks(h: HotState) {
    Descends(Bid, h.bids) && Descends(Ask, h.asks) && Named(h.slab)
  }

  /** Of whatever the decoder accepts, exactly what passes the checks is a sound book. */
  lemma AcceptedSoundIff(cap: U32, buf: seq<Byte>)
    requires Decode(cap, buf).Ok?
    ensures Sound(cap, Decode(cap, buf).value.book) <==> Checks(Decode(cap, buf).value.book)
  {
    var h := Decode(cap, buf).value.book;
    AcceptedIsWritable(cap, buf);
    SortedIff(Bid, h.bids);
    SortedIff(Ask, h.asks);
    WellFormedIff(h.slab);
  }
}
