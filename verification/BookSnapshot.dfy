/** The book's snapshot image (core/src/hot_book.rs): fixed-width little-endian sections, the id index
    sorted so that the bytes do not depend on hash-map iteration order. */
module BookSnapshot {
  import opened Events
  import opened Bytes
  import opened OrderStore
  import opened HotBook
  import opened Bounds

  datatype SnapshotError =
    | Truncated(len: nat)
    | LevelsMismatch(got: nat, expected: nat)
    | CountExceedsMax(gotCount: nat, max: nat)
    | BadLength(declared: nat, actual: nat)

  datatype Image = Image(instrumentId: nat, book: HotState)

  type Entry = (U64, nat)

  // ---------------------------------------------------------------- rows of one fixed width

  datatype Codec<!T> = Codec(width: nat, write: T -> seq<Byte>, read: seq<Byte> -> T)

  function Rows<T>(c: Codec<T>, xs: seq<T>): seq<Byte> {
    if xs == [] then [] else c.write(xs[0]) + Rows(c, xs[1..])
  }

  /** `n` rows of width `w`. */
  function Span(n: nat, w: nat): nat {
    if n == 0 then 0 else w + Span(n - 1, w)
  }

  function ReadRows<T>(c: Codec<T>, buf: seq<Byte>, p: nat, n: nat): (xs: seq<T>)
    requires p + Span(n, c.width) <= |buf|
    ensures |xs| == n
    decreases n
  {
    if n == 0 then []
    else [c.read(buf[p..p + c.width])] + ReadRows(c, buf, p + c.width, n - 1)
  }

  /** The codec gives back every one of these rows. */
  ghost predicate Faithful<T>(c: Codec<T>, xs: seq<T>) {
    forall i {:trigger c.write(xs[i])} :: 0 <= i < |xs| ==> |c.write(xs[i])| == c.width && c.read(c.write(xs[i])) == xs[i]
  }

  lemma {:induction false} RowsLength<T>(c: Codec<T>, xs: seq<T>)
    requires Faithful(c, xs)
    ensures |Rows(c, xs)| == Span(|xs|, c.width)
  {
    if xs != [] {
      RowsLength(c, xs[1..]);
      assert |c.write(xs[0])| == c.width;
    }
  }

  lemma {:induction false} RowsRoundTrip<T>(c: Codec<T>, a: seq<Byte>, xs: seq<T>, z: seq<Byte>)
    requires Faithful(c, xs)
    ensures |a| + Span(|xs|, c.width) <= |a + Rows(c, xs) + z|
    ensures ReadRows(c, a + Rows(c, xs) + z, |a|, |xs|) == xs
    decreases xs
  {
    RowsLength(c, xs);
    if xs != [] {
      var row := c.write(xs[0]);
      assert a + Rows(c, xs) + z == (a + row) + Rows(c, xs[1..]) + z;
      assert (a + Rows(c, xs) + z)[|a|..|a| + c.width] == row;
      RowsRoundTrip(c, a + row, xs[1..], z);
    }
  }

  lemma {:induction false} SpanOfLiteral(n: nat)
    ensures Span(n, 24) == 24 * n && Span(n, 12) == 12 * n && Span(n, 4) == 4 * n
  {
    if n > 0 {
      SpanOfLiteral(n - 1);
    }
  }

  lemma {:induction false} RowsAppend<T>(c: Codec<T>, xs: seq<T>, ys: seq<T>)
    ensures Rows(c, xs + ys) == Rows(c, xs) + Rows(c, ys)
  {
    if xs == [] {
      assert xs + ys == ys;
    } else {
      assert (xs + ys)[1..] == xs[1..] + ys;
      RowsAppend(c, xs[1..], ys);
    }
  }

  lemma {:induction false} SpanSplits(n: nat, m: nat, w: nat)
    ensures Span(n + m, w) == Span(n, w) + Span(m, w)
  {
    if n > 0 {
      SpanSplits(n - 1, m, w);
    }
  }

  lemma {:induction false} ReadRowsSplits<T>(c: Codec<T>, buf: seq<Byte>, p: nat, n: nat, m: nat)
    requires Span(n + m, c.width) == Span(n, c.width) + Span(m, c.width) && p + Span(n + m, c.width) <= |buf|
    ensures ReadRows(c, buf, p, n + m) == ReadRows(c, buf, p, n) + ReadRows(c, buf, p + Span(n, c.width), m)
    decreases n
  {
    if n > 0 {
      ReadRowsSplits(c, buf, p + c.width, n - 1, m);
    }
  }

  lemma RowFits(n: nat, w: nat, i: nat)
    requires i < n
    ensures Span(i + 1, w) == Span(i, w) + w <= Span(n, w)
  {
    SpanSplits(i, 1, w);
    SpanSplits(i + 1, n - i - 1, w);
    assert Span(1, w) == w + Span(0, w);
  }

  lemma NextRow<T>(c: Codec<T>, buf: seq<Byte>, p: nat, i: nat)
    requires p + Span(i + 1, c.width) <= |buf| && Span(i + 1, c.width) == Span(i, c.width) + c.width
    ensures var q := p + Span(i, c.width);
            ReadRows(c, buf, p, i + 1) == ReadRows(c, buf, p, i) + [c.read(buf[q..q + c.width])]
  {
    assert Span(1, c.width) == c.width + Span(0, c.width);
    ReadRowsSplits(c, buf, p, i, 1);
    var q := p + Span(i, c.width);
    assert ReadRows(c, buf, q, 1) == [c.read(buf[q..q + c.width])] + ReadRows(c, buf, q + c.width, 0);
  }

  method ReadSection<T>(c: Codec<T>, buf: seq<Byte>, start: nat, n: nat) returns (xs: seq<T>, p: nat)
    requires start + Span(n, c.width) <= |buf|
    ensures xs == ReadRows(c, buf, start, n)
    ensures p == start + Span(n, c.width)
  {
    xs, p := [], start;
    for i := 0 to n
      invariant p == start + Span(i, c.width) <= |buf|
      invariant xs == ReadRows(c, buf, start, i)
    {
      RowFits(n, c.width, i);
      NextRow(c, buf, start, i);
      xs := xs + [c.read(buf[p..p + c.width])];
      p := p + c.width;
    }
  }

  // ---------------------------------------------------------------- the four kinds of row

  function WriteLevel(l: Level): seq<Byte> {
    Le(l.price, 8) + Le(l.qty, 8) + Le(l.count, 4) + [0, 0, 0, 0]
  }

  function ReadLevel(b: seq<Byte>): Level {
    if |b| == 24 then Level(U64At(b, 0), U64At(b, 8), U32At(b, 16)) else EMPTY_LEVEL
  }

  function WriteMeta(m: Meta): seq<Byte> {
    Le(m.price, 8) + Le(m.qty, 8) + [m.side] + [0, 0, 0, 0, 0, 0, 0]
  }

  function ReadMeta(b: seq<Byte>): Meta {
    if |b| == 24 then Meta(U64At(b, 0), U64At(b, 8), b[16]) else Meta(0, 0, 0)
  }

  /** A u32: free-list slots, and every count in the image. */
  function WriteWord(s: nat): seq<Byte> {
    Le(s, 4)
  }

  function ReadWord(b: seq<Byte>): nat {
    if |b| == 4 then U32At(b, 0) else 0
  }

  function WriteEntry(e: Entry): seq<Byte> {
    Le(e.0, 8) + Le(e.1, 4)
  }

  function ReadEntry(b: seq<Byte>): Entry {
    if |b| == 12 then (U64At(b, 0), U32At(b, 8)) else (0, 0)
  }

  const LEVELS: Codec<Level> := Codec(24, WriteLevel, ReadLevel)
  const METAS: Codec<Meta> := Codec(24, WriteMeta, ReadMeta)
  const WORDS: Codec<nat> := Codec(4, WriteWord, ReadWord)
  const ENTRIES: Codec<Entry> := Codec(12, WriteEntry, ReadEntry)

  /** The image layout is proved for any faithful row formats and then used with the book's own. */
  datatype Format = Format(
    words: Codec<nat>, levels: Codec<Level>, metas: Codec<Meta>, entries: Codec<Entry>)

  const BOOK_FORMAT := Format(WORDS, LEVELS, METAS, ENTRIES)

  lemma LevelRoundTrip(l: Level)
    requires l.qty < 0x1_0000_0000_0000_0000 && l.count < 0x1_0000_0000
    ensures |WriteLevel(l)| == 24 && ReadLevel(WriteLevel(l)) == l
  {
    var a, b, c := Le(l.price, 8), Le(l.qty, 8), Le(l.count, 4);
    var z: seq<Byte> := [0, 0, 0, 0];
    assert WriteLevel(l) == [] + a + (b + c + z) == a + b + (c + z) == (a + b) + c + z;
    FieldU64([], l.price, b + c + z);
    FieldU64(a, l.qty, c + z);
    FieldU32(a + b, l.count, z);
  }

  lemma MetaRoundTrip(m: Meta)
    ensures |WriteMeta(m)| == 24 && ReadMeta(WriteMeta(m)) == m
  {
    var a, b := Le(m.price, 8), Le(m.qty, 8);
    var z: seq<Byte> := [m.side] + [0, 0, 0, 0, 0, 0, 0];
    assert WriteMeta(m) == [] + a + (b + z) == a + b + z;
    FieldU64([], m.price, b + z);
    FieldU64(a, m.qty, z);
  }

  lemma WordRoundTrip(s: nat)
    requires s < 0x1_0000_0000
    ensures |WriteWord(s)| == 4 && ReadWord(WriteWord(s)) == s
  {
    FieldU32([], s, []);
    assert [] + Le(s, 4) + [] == Le(s, 4);
  }

  lemma EntryRoundTrip(e: Entry)
    requires e.1 < 0x1_0000_0000
    ensures |WriteEntry(e)| == 12 && ReadEntry(WriteEntry(e)) == e
  {
    var a, b := Le(e.0, 8), Le(e.1, 4);
    assert WriteEntry(e) == [] + a + b == a + b + [];
    FieldU64([], e.0, b);
    FieldU32(a, e.1, []);
  }

  // ---------------------------------------------------------------- the sorted index

  predicate Ascending(es: seq<Entry>) {
    forall i, j :: 0 <= i < j < |es| ==> es[i].0 < es[j].0
  }

  /** What inserting the entries in order builds. */
  function MapOf(es: seq<Entry>): map<U64, nat> {
    if es == [] then map[] else MapOf(es[..|es| - 1])[es[|es| - 1].0 := es[|es| - 1].1]
  }

  lemma {:induction false} MapOfKeys(es: seq<Entry>)
    ensures forall k :: k in MapOf(es) <==> exists i :: 0 <= i < |es| && es[i].0 == k
  {
    if es != [] {
      var n := |es| - 1;
      MapOfKeys(es[..n]);
      forall k
        ensures k in MapOf(es) <==> exists i :: 0 <= i < |es| && es[i].0 == k
      {
        if exists i :: 0 <= i < |es| && es[i].0 == k {
          var i :| 0 <= i < |es| && es[i].0 == k;
          assert i < n ==> es[..n][i].0 == k;
        }
        if k in MapOf(es[..n]) {
          var i :| 0 <= i < n && es[..n][i].0 == k;
          assert es[i].0 == k;
        }
      }
    }
  }

  lemma LastIsGreatest(es: seq<Entry>)
    requires Ascending(es) && es != []
    ensures es[|es| - 1].0 in MapOf(es)
    ensures AllBelow(MapOf(es[..|es| - 1]), es[|es| - 1].0)
  {
    MapOfKeys(es[..|es| - 1]);
  }

  predicate AllBelow(m: map<U64, nat>, b: U64) {
    forall k :: k in m ==> k < b
  }

  /** A map has one ascending listing. */
  lemma {:induction false} EntriesUnique(a: seq<Entry>, b: seq<Entry>)
    requires Ascending(a) && Ascending(b) && MapOf(a) == MapOf(b)
    ensures a == b
  {
    if a == [] && b != [] {
      LastIsGreatest(b);
    } else if a != [] && b == [] {
      LastIsGreatest(a);
    } else if a != [] {
      var n, m := |a| - 1, |b| - 1;
      LastIsGreatest(a);
      LastIsGreatest(b);
      assert a[n].0 == b[m].0 && a[n].1 == MapOf(a)[a[n].0] == b[m].1;
      assert MapOf(a[..n]) == MapOf(a) - {a[n].0} && MapOf(b[..m]) == MapOf(b) - {b[m].0};
      EntriesUnique(a[..n], b[..m]);
      assert a == a[..n] + [a[n]] && b == b[..m] + [b[m]];
    }
  }

  /** Where an entry goes in an ascending list. */
  function InsertEntry(es: seq<Entry>, e: Entry): seq<Entry> {
    if es == [] || es[|es| - 1].0 < e.0 then es + [e]
    else InsertEntry(es[..|es| - 1], e) + [es[|es| - 1]]
  }

  lemma {:induction false} InsertEntryBinds(es: seq<Entry>, e: Entry)
    requires e.0 !in MapOf(es)
    ensures MapOf(InsertEntry(es, e)) == MapOf(es)[e.0 := e.1]
  {
    if es == [] || es[|es| - 1].0 < e.0 {
      MapOfSnoc(es, e);
    } else {
      var n := |es| - 1;
      InsertEntryBinds(es[..n], e);
      MapOfSnoc(InsertEntry(es[..n], e), es[n]);
      BindingsCommute(MapOf(es[..n]), e, es[n]);
    }
  }

  lemma BindingsCommute(m: map<U64, nat>, a: Entry, b: Entry)
    requires a.0 != b.0
    ensures m[a.0 := a.1][b.0 := b.1] == m[b.0 := b.1][a.0 := a.1]
  {
  }

  lemma MapOfSnoc(es: seq<Entry>, e: Entry)
    ensures MapOf(es + [e]) == MapOf(es)[e.0 := e.1]
  {
    assert (es + [e])[..|es|] == es;
  }

  lemma {:induction false} InsertEntryBound(es: seq<Entry>, e: Entry, b: U64)
    requires e.0 < b && forall i :: 0 <= i < |es| ==> es[i].0 < b
    ensures forall i :: 0 <= i < |InsertEntry(es, e)| ==> InsertEntry(es, e)[i].0 < b
  {
    if es != [] && es[|es| - 1].0 >= e.0 {
      InsertEntryBound(es[..|es| - 1], e, b);
    }
  }

  lemma {:induction false} InsertEntrySorts(es: seq<Entry>, e: Entry)
    requires Ascending(es) && e.0 !in MapOf(es)
    ensures Ascending(InsertEntry(es, e))
  {
    if es != [] && es[|es| - 1].0 >= e.0 {
      var n := |es| - 1;
      InsertEntrySorts(es[..n], e);
      InsertEntryBound(es[..n], e, es[n].0);
    }
  }

  lemma InsertEntryLists(es: seq<Entry>, e: Entry)
    requires Ascending(es) && e.0 !in MapOf(es)
    ensures Ascending(InsertEntry(es, e)) && MapOf(InsertEntry(es, e)) == MapOf(es)[e.0 := e.1]
  {
    InsertEntrySorts(es, e);
    InsertEntryBinds(es, e);
  }

  lemma MoveBinding(m: map<U64, nat>, rest: map<U64, nat>, k: U64)
    requires m.Keys !! rest.Keys && k in rest
    ensures m[k := rest[k]].Keys !! (rest - {k}).Keys
    ensures m[k := rest[k]] + (rest - {k}) == m + rest
  {
  }

  /** Collect the index in whatever order the hash map yields it and sort by id: the order never shows. */
  method SortIndex(index: map<U64, nat>) returns (es: seq<Entry>)
    ensures Ascending(es) && MapOf(es) == index
  {
    es := [];
    var rest := index;
    while |rest| > 0
      invariant Ascending(es) && rest.Keys !! MapOf(es).Keys && MapOf(es) + rest == index
      decreases |rest|
    {
      var k :| k in rest;
      MoveBinding(MapOf(es), rest, k);
      InsertEntryLists(es, (k, rest[k]));
      es := InsertEntry(es, (k, rest[k]));
      rest := rest - {k};
    }
  }

  lemma {:induction false} ListingExists(index: map<U64, nat>) returns (es: seq<Entry>)
    ensures Ascending(es) && MapOf(es) == index
    decreases |index|
  {
    if |index| == 0 {
      es := [];
    } else {
      var k :| k in index;
      var r := ListingExists(index - {k});
      InsertEntryLists(r, (k, index[k]));
      BindAgain(index, k);
      es := InsertEntry(r, (k, index[k]));
    }
  }

  lemma BindAgain(m: map<U64, nat>, k: U64)
    requires k in m
    ensures (m - {k})[k := m[k]] == m
  {
  }

  /** The index in ascending order of id. */
  ghost function Listing(index: map<U64, nat>): (es: seq<Entry>)
    ensures Ascending(es) && MapOf(es) == index
  {
    assert exists es :: Ascending(es) && MapOf(es) == index by {
      var es := ListingExists(index);
    }
    var es :| Ascending(es) && MapOf(es) == index;
    es
  }

  // ---------------------------------------------------------------- sections: a count, then that many rows

  function Section<T>(w: Codec<nat>, c: Codec<T>, xs: seq<T>): seq<Byte> {
    w.write(|xs|) + Rows(c, xs)
  }

  function TakeSection<T>(w: Codec<nat>, c: Codec<T>, buf: seq<Byte>, p: nat): (r: Result<(seq<T>, nat), SnapshotError>)
    requires p <= |buf|
    ensures r.Ok? ==> r.value.1 <= |buf|
  {
    if |buf| < p + w.width then Err(Truncated(|buf|))
    else
      var n, q := w.read(buf[p..p + w.width]), p + w.width;
      if |buf| < q + Span(n, c.width) then Err(BadLength(Span(n, c.width), |buf| - q))
      else Ok((ReadRows(c, buf, q, n), q + Span(n, c.width)))
  }

  lemma SectionRoundTrip<T>(w: Codec<nat>, c: Codec<T>, a: seq<Byte>, xs: seq<T>, z: seq<Byte>)
    requires Faithful(c, xs) && Faithful(w, [|xs|])
    ensures TakeSection(w, c, a + Section(w, c, xs) + z, |a|) == Ok((xs, |a + Section(w, c, xs)|))
  {
    var n, rows := w.write(|xs|), Rows(c, xs);
    var buf := a + Section(w, c, xs) + z;
    assert [|xs|][0] == |xs|;
    assert buf == (a + n) + rows + z;
    assert buf[|a|..|a| + w.width] == n;
    RowsLength(c, xs);
    RowsRoundTrip(c, a + n, xs, z);
  }

  method DecodeSection<T>(w: Codec<nat>, c: Codec<T>, buf: seq<Byte>, p: nat)
      returns (r: Result<(seq<T>, nat), SnapshotError>)
    requires p <= |buf|
    ensures r == TakeSection(w, c, buf, p)
  {
    if |buf| < p + w.width {
      return Err(Truncated(|buf|));
    }
    var n, q := w.read(buf[p..p + w.width]), p + w.width;
    if |buf| < q + Span(n, c.width) {
      return Err(BadLength(Span(n, c.width), |buf| - q));
    }
    var xs, end := ReadSection(c, buf, q, n);
    return Ok((xs, end));
  }

  method EncodeRows<T>(c: Codec<T>, xs: seq<T>) returns (b: seq<Byte>)
    ensures b == Rows(c, xs)
  {
    b := [];
    for i := 0 to |xs|
      invariant b + Rows(c, xs[i..]) == Rows(c, xs)
    {
      assert xs[i..][1..] == xs[i + 1..];
      b := b + c.write(xs[i]);
    }
  }

  // ---------------------------------------------------------------- the whole image

  ghost function SlabBytes(f: Format, s: Slab): seq<Byte> {
    Section(f.words, f.metas, s.data) + Section(f.words, f.words, s.free) + Section(f.words, f.entries, Listing(s.index))
  }

  /** instrument id, bid count, ask count, depth. */
  function HeaderWords(cap: nat, i: Image): seq<nat> {
    [i.instrumentId, |i.book.bids|, |i.book.asks|, cap]
  }

  ghost function EncodeAs(f: Format, cap: nat, i: Image): seq<Byte> {
    Rows(f.words, HeaderWords(cap, i)) + Rows(f.levels, i.book.bids + i.book.asks) + SlabBytes(f, i.book.slab)
  }

  function DecodeSlabAs(f: Format, buf: seq<Byte>, p: nat): Result<Slab, SnapshotError>
    requires p <= |buf|
  {
    match TakeSection(f.words, f.metas, buf, p)
    case Err(e) => Err(e)
    case Ok((data, p1)) =>
      match TakeSection(f.words, f.words, buf, p1)
      case Err(e) => Err(e)
      case Ok((free, p2)) =>
        match TakeSection(f.words, f.entries, buf, p2)
        case Err(e) => Err(e)
        case Ok((entries, _)) => Ok(Slab(data, free, MapOf(entries)))
  }

  function TakeLadders<T>(c: Codec<T>, buf: seq<Byte>, p: nat, n: nat, m: nat): (r: Result<(seq<T>, seq<T>, nat), SnapshotError>)
    requires p <= |buf|
    ensures r.Ok? ==> r.value.2 <= |buf|
  {
    var end := p + Span(n + m, c.width);
    if |buf| < end then Err(BadLength(end - p, |buf| - p))
    else
      var rows := ReadRows(c, buf, p, n + m);
      Ok((rows[..n], rows[n..], end))
  }

  /** `p` is where the ladders start. */
  function DecodeBody(f: Format, instrumentId: nat, n: nat, m: nat, buf: seq<Byte>, p: nat): Result<Image, SnapshotError>
    requires p <= |buf|
  {
    match TakeLadders(f.levels, buf, p, n, m)
    case Err(e) => Err(e)
    case Ok((bids, asks, q)) => Assemble(instrumentId, bids, asks, DecodeSlabAs(f, buf, q))
  }

  function Assemble(instrumentId: nat, bids: seq<Level>, asks: seq<Level>, slab: Result<Slab, SnapshotError>): Result<Image, SnapshotError> {
    match slab
    case Err(e) => Err(e)
    case Ok(s) => Ok(Image(instrumentId, Hot(bids, asks, s)))
  }

  function DecodeAs(f: Format, cap: nat, buf: seq<Byte>): Result<Image, SnapshotError> {
    var p := Span(4, f.words.width);
    if |buf| < p then Err(Truncated(|buf|))
    else
      var hd := ReadRows(f.words, buf, 0, 4);
      if hd[3] != cap then Err(LevelsMismatch(hd[3], cap))
      else if hd[1] > cap || hd[2] > cap then Err(CountExceedsMax(if hd[1] >= hd[2] then hd[1] else hd[2], cap))
      else DecodeBody(f, hd[0], hd[1], hd[2], buf, p)
  }

  ghost function Encode(cap: U32, i: Image): seq<Byte> {
    EncodeAs(BOOK_FORMAT, cap, i)
  }

  function Decode(cap: U32, buf: seq<Byte>): Result<Image, SnapshotError> {
    DecodeAs(BOOK_FORMAT, cap, buf)
  }

  /** Everything stored fits the width it is stored in. */
  ghost predicate Storable(cap: U32, h: HotState) {
    Sound(cap, h) && |h.slab.data| < 0x1_0000_0000 && Narrow(h.bids) && Narrow(h.asks)
  }

  ghost predicate Narrow(ls: seq<Level>) {
    forall i :: 0 <= i < |ls| ==> ls[i].qty < 0x1_0000_0000_0000_0000 && ls[i].count < 0x1_0000_0000
  }

  lemma LevelsFaithful(ls: seq<Level>)
    requires Narrow(ls)
    ensures Faithful(LEVELS, ls)
  {
    forall i | 0 <= i < |ls| { LevelRoundTrip(ls[i]); }
  }

  lemma {:induction false} MapOfSize(es: seq<Entry>)
    requires Ascending(es)
    ensures |MapOf(es)| == |es|
  {
    if es != [] {
      MapOfSize(es[..|es| - 1]);
      LastIsGreatest(es);
    }
  }

  lemma {:induction false} MapOfAt(es: seq<Entry>, i: nat)
    requires Ascending(es) && i < |es|
    ensures es[i].0 in MapOf(es) && MapOf(es)[es[i].0] == es[i].1
  {
    if i < |es| - 1 {
      MapOfAt(es[..|es| - 1], i);
    }
  }

  lemma WordsFaithful(ws: seq<nat>)
    requires forall i :: 0 <= i < |ws| ==> ws[i] < 0x1_0000_0000
    ensures Faithful(WORDS, ws)
  {
    forall i | 0 <= i < |ws| ensures |WORDS.write(ws[i])| == 4 && WORDS.read(WORDS.write(ws[i])) == ws[i] {
      WordRoundTrip(ws[i]);
    }
  }

  ghost predicate SlabFaithful(f: Format, s: Slab) {
    && Faithful(f.metas, s.data) && Faithful(f.words, [|s.data|])
    && Faithful(f.words, s.free) && Faithful(f.words, [|s.free|])
    && Faithful(f.entries, Listing(s.index)) && Faithful(f.words, [|Listing(s.index)|])
  }

  /** Every number in the slab fits its field; the slab need not be well formed. */
  ghost predicate SlabFits(s: Slab) {
    && |s.data| < 0x1_0000_0000 && |s.free| < 0x1_0000_0000 && |s.index| < 0x1_0000_0000
    && (forall i :: 0 <= i < |s.free| ==> s.free[i] < 0x1_0000_0000)
    && (forall id :: id in s.index ==> s.index[id] < 0x1_0000_0000)
  }

  /** Whatever the encoder can write: ladders within the depth, every number within its field. */
  ghost predicate Writable(cap: U32, h: HotState) {
    |h.bids| <= cap && |h.asks| <= cap && Narrow(h.bids) && Narrow(h.asks) && SlabFits(h.slab)
  }

  lemma StorableIsWritable(cap: U32, h: HotState)
    requires Storable(cap, h)
    ensures Writable(cap, h)
  {
  }

  lemma FittingSlabIsFaithful(s: Slab)
    requires SlabFits(s)
    ensures SlabFaithful(BOOK_FORMAT, s)
  {
    var es := Listing(s.index);
    MapOfSize(es);
    WordsFaithful([|s.data|]);
    WordsFaithful([|s.free|]);
    WordsFaithful([|es|]);
    WordsFaithful(s.free);
    forall i | 0 <= i < |s.data| { MetaRoundTrip(s.data[i]); }
    forall i | 0 <= i < |es| ensures |ENTRIES.write(es[i])| == 12 && ENTRIES.read(ENTRIES.write(es[i])) == es[i] {
      MapOfAt(es, i);
      EntryRoundTrip(es[i]);
    }
  }

  lemma SlabRoundTrip(f: Format, a: seq<Byte>, s: Slab)
    requires SlabFaithful(f, s)
    ensures DecodeSlabAs(f, a + SlabBytes(f, s), |a|) == Ok(s)
  {
    var w, es := f.words, Listing(s.index);
    var m, r, e := Section(w, f.metas, s.data), Section(w, w, s.free), Section(w, f.entries, es);
    assert a + (m + r + e) == a + m + (r + e) == (a + m) + r + e == (a + m + r) + e + [];
    SectionRoundTrip(w, f.metas, a, s.data, r + e);
    SectionRoundTrip(w, w, a + m, s.free, e);
    SectionRoundTrip(w, f.entries, a + m + r, es, []);
  }

  lemma LaddersRoundTrip<T>(c: Codec<T>, head: seq<Byte>, bids: seq<T>, asks: seq<T>, tail: seq<Byte>)
    requires Faithful(c, bids + asks)
    ensures TakeLadders(c, head + Rows(c, bids + asks) + tail, |head|, |bids|, |asks|)
            == Ok((bids, asks, |head + Rows(c, bids + asks)|))
  {
    RowsLength(c, bids + asks);
    RowsRoundTrip(c, head, bids + asks, tail);
  }

  lemma HeaderRoundTrip(w: Codec<nat>, hd: seq<nat>, z: seq<Byte>)
    requires Faithful(w, hd) && |hd| == 4
    ensures |Rows(w, hd)| == Span(4, w.width)
    ensures ReadRows(w, Rows(w, hd) + z, 0, 4) == hd
  {
    RowsLength(w, hd);
    RowsRoundTrip(w, [], hd, z);
    assert [] + Rows(w, hd) + z == Rows(w, hd) + z;
  }

  lemma BodyRoundTrip(f: Format, head: seq<Byte>, i: Image)
    requires Faithful(f.levels, i.book.bids + i.book.asks) && SlabFaithful(f, i.book.slab)
    ensures var h := i.book;
            DecodeBody(f, i.instrumentId, |h.bids|, |h.asks|,
                       head + Rows(f.levels, h.bids + h.asks) + SlabBytes(f, h.slab), |head|) == Ok(i)
  {
    var h := i.book;
    LaddersRoundTrip(f.levels, head, h.bids, h.asks, SlabBytes(f, h.slab));
    SlabRoundTrip(f, head + Rows(f.levels, h.bids + h.asks), h.slab);
  }

  lemma ImageRoundTripAs(f: Format, cap: nat, i: Image)
    requires |i.book.bids| <= cap && |i.book.asks| <= cap
    requires Faithful(f.words, HeaderWords(cap, i))
    requires Faithful(f.levels, i.book.bids + i.book.asks) && SlabFaithful(f, i.book.slab)
    ensures DecodeAs(f, cap, EncodeAs(f, cap, i)) == Ok(i)
  {
    var hd := HeaderWords(cap, i);
    var head, b, s := Rows(f.words, hd), Rows(f.levels, i.book.bids + i.book.asks), SlabBytes(f, i.book.slab);
    assert head + b + s == head + (b + s);
    HeaderRoundTrip(f.words, hd, b + s);
    BodyRoundTrip(f, head, i);
  }

  /** Decoding an image gives back the ladders, the slab data, the free list in order and the index, sound or not. */
  lemma ImageRoundTrip(cap: U32, i: Image)
    requires Writable(cap, i.book) && i.instrumentId < 0x1_0000_0000
    ensures Decode(cap, Encode(cap, i)) == Ok(i)
  {
    LevelsFaithful(i.book.bids + i.book.asks);
    FittingSlabIsFaithful(i.book.slab);
    WordsFaithful(HeaderWords(cap, i));
    ImageRoundTripAs(BOOK_FORMAT, cap, i);
  }

  /** An index entry that names a slot beyond the slab is accepted. */
  lemma BadSlotAccepted(cap: U32, instrumentId: U32)
    ensures var i := Image(instrumentId, Hot([], [], Slab([], [], map[1 := 7])));
            Decode(cap, Encode(cap, i)) == Ok(i) && !WellFormed(i.book.slab)
  {
    var s := Slab([], [], map[1 := 7]);
    assert s.index[1] == 7 && |s.data| == 0;
    ImageRoundTrip(cap, Image(instrumentId, Hot([], [], s)));
  }

  // ---------------------------------------------------------------- the two procedures

  method EncodeSlab(f: Format, s: Slab) returns (out: seq<Byte>)
    ensures out == SlabBytes(f, s)
  {
    var metas := EncodeRows(f.metas, s.data);
    var slots := EncodeRows(f.words, s.free);
    var idx := SortIndex(s.index);
    EntriesUnique(idx, Listing(s.index));
    var entries := EncodeRows(f.entries, idx);
    out := (f.words.write(|s.data|) + metas) + (f.words.write(|s.free|) + slots) + (f.words.write(|idx|) + entries);
  }

  method WriteImage(f: Format, cap: nat, i: Image) returns (out: seq<Byte>)
    ensures out == EncodeAs(f, cap, i)
  {
    var head := EncodeRows(f.words, HeaderWords(cap, i));
    var bids := EncodeRows(f.levels, i.book.bids);
    var asks := EncodeRows(f.levels, i.book.asks);
    RowsAppend(f.levels, i.book.bids, i.book.asks);
    var slab := EncodeSlab(f, i.book.slab);
    out := head + (bids + asks) + slab;
  }

  method ToSnapshotBytes(cap: U32, i: Image) returns (out: seq<Byte>)
    ensures out == Encode(cap, i)
  {
    out := WriteImage(BOOK_FORMAT, cap, i);
  }

  method BuildIndex(entries: seq<Entry>) returns (index: map<U64, nat>)
    ensures index == MapOf(entries)
  {
    index := map[];
    for i := 0 to |entries|
      invariant index == MapOf(entries[..i])
    {
      assert entries[..i + 1][..i] == entries[..i];
      index := index[entries[i].0 := entries[i].1];
    }
    assert entries[..|entries|] == entries;
  }

  method ReadImage(f: Format, cap: nat, buf: seq<Byte>) returns (r: Result<Image, SnapshotError>)
    ensures r == DecodeAs(f, cap, buf)
  {
    var p := Span(4, f.words.width);
    if |buf| < p {
      return Err(Truncated(|buf|));
    }
    var hd := ReadRows(f.words, buf, 0, 4);
    if hd[3] != cap {
      return Err(LevelsMismatch(hd[3], cap));
    }
    if hd[1] > cap || hd[2] > cap {
      return Err(CountExceedsMax(if hd[1] >= hd[2] then hd[1] else hd[2], cap));
    }
    r := ReadBody(f, hd[0], hd[1], hd[2], buf, p);
  }

  method ReadBody(f: Format, instrumentId: nat, n: nat, m: nat, buf: seq<Byte>, p: nat)
      returns (r: Result<Image, SnapshotError>)
    requires p <= |buf|
    ensures r == DecodeBody(f, instrumentId, n, m, buf, p)
  {
    var ladders := ReadLadders(f.levels, buf, p, n, m);
    if ladders.Err? {
      return Err(ladders.error);
    }
    var slab := ReadSlab(f, buf, ladders.value.2);
    r := Assemble(instrumentId, ladders.value.0, ladders.value.1, slab);
  }

  method ReadLadders<T>(c: Codec<T>, buf: seq<Byte>, p: nat, n: nat, m: nat)
      returns (r: Result<(seq<T>, seq<T>, nat), SnapshotError>)
    requires p <= |buf|
    ensures r == TakeLadders(c, buf, p, n, m)
  {
    SpanSplits(n, m, c.width);
    var want := Span(n, c.width) + Span(m, c.width);
    if |buf| < p + want {
      return Err(BadLength(want, |buf| - p));
    }
    ReadRowsSplits(c, buf, p, n, m);
    var bids, q := ReadSection(c, buf, p, n);
    var asks, end := ReadSection(c, buf, q, m);
    r := Ok((bids, asks, end));
  }

  method ReadSlab(f: Format, buf: seq<Byte>, p: nat) returns (r: Result<Slab, SnapshotError>)
    requires p <= |buf|
    ensures r == DecodeSlabAs(f, buf, p)
  {
    var data := DecodeSection(f.words, f.metas, buf, p);
    if data.Err? {
      return Err(data.error);
    }
    var free := DecodeSection(f.words, f.words, buf, data.value.1);
    if free.Err? {
      return Err(free.error);
    }
    var entries := DecodeSection(f.words, f.entries, buf, free.value.1);
    if entries.Err? {
      return Err(entries.error);
    }
    var index := BuildIndex(entries.value.0);
    return Ok(Slab(data.value.0, free.value.0, index));
  }

  method FromSnapshotBytes(cap: U32, buf: seq<Byte>) returns (r: Result<Image, SnapshotError>)
    ensures r == Decode(cap, buf)
  {
    r := ReadImage(BOOK_FORMAT, cap, buf);
  }

  // ---------------------------------------------------------------- resume

  lemma {:induction false} RunSplits(cap: nat, h: HotState, a: seq<Event>, b: seq<Event>)
    requires WellFormed(h.slab)
    ensures HotRun(cap, h, a + b) == HotRun(cap, HotRun(cap, h, a), b)
    decreases a
  {
    if a == [] {
      assert a + b == b;
    } else {
      assert (a + b)[1..] == a[1..] + b;
      RunSplits(cap, HotApply(cap, h, a[0]).0, a[1..], b);
    }
  }

  /** A stream that brings less than a u64 of quantity in less than 2^32 orders builds a book the encoder can write. */
  lemma LightRunIsWritable(cap: U32, a: seq<Event>)
    requires LoadOf(a).qty < 0x1_0000_0000_0000_0000 && LoadOf(a).orders < 0x1_0000_0000
    ensures Writable(cap, HotRun(cap, EMPTY_HOT, a))
  {
    HotMatchesCpp(cap, EMPTY_HOT, a);
    RunStaysBounded(cap, EMPTY_HOT, a, Load(0, 0));
    StorableIsWritable(cap, HotRun(cap, EMPTY_HOT, a));
  }

  /** Resume equals replay: snapshot after `a`, decode, apply `b`, and the book is structurally the one that
      replayed everything (ladders, slab data, free list, index); snapshotting the decoded book again is
      byte-identical. The numbers of the book at the snapshot must fit their fields. */
  lemma ResumeEqualsReplay(cap: U32, instrumentId: U32, a: seq<Event>, b: seq<Event>)
    requires Writable(cap, HotRun(cap, EMPTY_HOT, a))
    ensures var bytes := Encode(cap, Image(instrumentId, HotRun(cap, EMPTY_HOT, a)));
            var r := Decode(cap, bytes);
            && r.Ok? && WellFormed(r.value.book.slab)
            && r.value.instrumentId == instrumentId
            && HotRun(cap, r.value.book, b) == HotRun(cap, EMPTY_HOT, a + b)
            && Encode(cap, r.value) == bytes
  {
    ImageRoundTrip(cap, Image(instrumentId, HotRun(cap, EMPTY_HOT, a)));
    RunSplits(cap, EMPTY_HOT, a, b);
  }
}
