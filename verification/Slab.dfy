/** The order slab of core/src/hot_book.rs: dense metadata storage, a LIFO free list and an
    id -> slot index. `Slab` is its value, `OrderSlab` the object that is updated in place. */
module OrderStore {
  import opened Events

  datatype Slab = Slab(data: seq<Meta>, free: seq<nat>, index: map<U64, nat>)

  const EMPTY_SLAB := Slab([], [], map[])

  /** Live slots are in range and no two orders share one. */
  ghost predicate IndexOk(data: seq<Meta>, index: map<U64, nat>) {
    && (forall id :: id in index ==> index[id] < |data|)
    && (forall a, b :: a in index && b in index && a != b ==> index[a] != index[b])
  }

  /** Free slots are in range and listed once. */
  ghost predicate FreeOk(data: seq<Meta>, free: seq<nat>) {
    && (forall i :: 0 <= i < |free| ==> free[i] < |data|)
    && (forall i, j :: 0 <= i < j < |free| ==> free[i] != free[j])
  }

  ghost predicate Apart(free: seq<nat>, index: map<U64, nat>) {
    forall id, i :: id in index && 0 <= i < |free| ==> index[id] != free[i]
  }

  /** Live and free slots are disjoint and, being as many as there are slots, cover the storage. */
  ghost predicate WellFormed(s: Slab) {
    && IndexOk(s.data, s.index)
    && FreeOk(s.data, s.free)
    && Apart(s.free, s.index)
    && |s.index| + |s.free| == |s.data|
  }

  /** The plain map the slab stands for. */
  ghost function Orders(s: Slab): map<U64, Meta>
    requires WellFormed(s)
  {
    Resolve(s.data, s.index)
  }

  ghost function Resolve(data: seq<Meta>, index: map<U64, nat>): map<U64, Meta>
    requires IndexOk(data, index)
  {
    map id | id in index :: data[index[id]]
  }

  function Lookup(s: Slab, id: U64): Option<Meta>
    requires WellFormed(s)
  {
    if id in s.index then Some(s.data[s.index[id]]) else None
  }

  function Insert(s: Slab, id: U64, m: Meta): Slab
    requires WellFormed(s)
  {
    if id in s.index then s.(data := s.data[s.index[id] := m])
    else if s.free != [] then
      var slot := s.free[|s.free| - 1];
      Slab(s.data[slot := m], s.free[..|s.free| - 1], s.index[id := slot])
    else Slab(s.data + [m], [], s.index[id := |s.data|])
  }

  function Remove(s: Slab, id: U64): Slab
    requires WellFormed(s)
  {
    if id in s.index then Slab(s.data, s.free + [s.index[id]], s.index - {id}) else s
  }

  function SetQty(s: Slab, id: U64, q: U64): Slab
    requires WellFormed(s) && id in s.index
  {
    s.(data := s.data[s.index[id] := s.data[s.index[id]].(qty := q)])
  }

  lemma BindKeepsIndex(data: seq<Meta>, index: map<U64, nat>, id: U64, slot: nat, data': seq<Meta>)
    requires IndexOk(data, index) && |data| <= |data'| && slot < |data'| && id !in index
    requires forall a :: a in index ==> index[a] != slot
    ensures IndexOk(data', index[id := slot])
  {
  }

  lemma PopKeepsFree(data: seq<Meta>, free: seq<nat>, index: map<U64, nat>, id: U64)
    requires FreeOk(data, free) && Apart(free, index) && free != []
    ensures FreeOk(data, free[..|free| - 1])
    ensures Apart(free[..|free| - 1], index[id := free[|free| - 1]])
  {
  }

  lemma InsertKeepsShape(s: Slab, id: U64, m: Meta)
    requires WellFormed(s)
    ensures WellFormed(Insert(s, id, m))
  {
    var r := Insert(s, id, m);
    if id !in s.index {
      BindKeepsIndex(s.data, s.index, id, r.index[id], r.data);
      if s.free != [] {
        PopKeepsFree(s.data, s.free, s.index, id);
      }
    }
  }

  lemma InsertRefines(s: Slab, id: U64, m: Meta)
    requires WellFormed(s)
    ensures WellFormed(Insert(s, id, m))
    ensures Orders(Insert(s, id, m)) == Orders(s)[id := m]
  {
    InsertKeepsShape(s, id, m);
    var r := Insert(s, id, m);
    var slot := r.index[id];
    if |s.data| <= slot {
      assert r.data == s.data + [m];
    } else {
      assert r.data == s.data[slot := m];
    }
    StoreResolves(s.data, s.index, id, slot, m, r.data);
  }

  lemma StoreResolves(data: seq<Meta>, index: map<U64, nat>, id: U64, slot: nat, m: Meta, data': seq<Meta>)
    requires IndexOk(data, index) && IndexOk(data', index[id := slot])
    requires slot <= |data| && data' == if slot < |data| then data[slot := m] else data + [m]
    ensures Resolve(data', index[id := slot]) == Resolve(data, index)[id := m]
  {
    forall a | a in index && a != id
      ensures data'[index[a]] == data[index[a]]
    {
      assert index[id := slot][a] != index[id := slot][id];
    }
  }

  lemma UnbindKeepsIndex(data: seq<Meta>, index: map<U64, nat>, id: U64)
    requires IndexOk(data, index) && id in index
    ensures IndexOk(data, index - {id})
    ensures |index - {id}| == |index| - 1
    ensures forall a :: a in index - {id} ==> index[a] != index[id]
  {
    assert index.Keys == (index - {id}).Keys + {id};
  }

  lemma PushKeepsFree(data: seq<Meta>, free: seq<nat>, index: map<U64, nat>, id: U64)
    requires IndexOk(data, index) && FreeOk(data, free) && Apart(free, index) && id in index
    ensures FreeOk(data, free + [index[id]])
    ensures Apart(free + [index[id]], index - {id})
  {
  }

  lemma RemoveKeepsShape(s: Slab, id: U64)
    requires WellFormed(s)
    ensures WellFormed(Remove(s, id))
  {
    if id in s.index {
      UnbindKeepsIndex(s.data, s.index, id);
      PushKeepsFree(s.data, s.free, s.index, id);
    }
  }

  lemma RemoveRefines(s: Slab, id: U64)
    requires WellFormed(s)
    ensures WellFormed(Remove(s, id))
    ensures Orders(Remove(s, id)) == Orders(s) - {id}
  {
    RemoveKeepsShape(s, id);
  }

  lemma SetQtyRefines(s: Slab, id: U64, q: U64)
    requires WellFormed(s) && id in s.index
    ensures WellFormed(SetQty(s, id, q))
    ensures Orders(SetQty(s, id, q)) == Orders(s)[id := Orders(s)[id].(qty := q)]
  {
  }

  /** Every slot of the storage is live or free, never both: nothing leaks. */
  lemma SlotsPartition(s: Slab, slot: nat)
    requires WellFormed(s) && slot < |s.data|
    ensures (slot in s.index.Values) != (slot in s.free)
  {
    var live, free := s.index.Values, Slots(s.free);
    assert |live| == |s.index| && |free| == |s.free| by {
      ImageSize(s.index);
      DistinctSize(s.free);
    }
    assert live !! free;
    assert slot in live + free by {
      CoverAll(live + free, |s.data|, slot);
    }
  }

  lemma CoverAll(a: set<nat>, n: nat, x: nat)
    requires |a| == n && x < n && forall y :: y in a ==> y < n
    ensures x in a
  {
    BelowIsRange(n);
    FullSubset(a, Below(n));
  }

  ghost function Slots(f: seq<nat>): set<nat> {
    set x | x in f
  }

  ghost function Below(n: nat): set<nat> {
    if n == 0 then {} else Below(n - 1) + {n - 1}
  }

  lemma {:induction false} ImageSize(m: map<U64, nat>)
    requires forall a, b :: a in m && b in m && a != b ==> m[a] != m[b]
    ensures |m.Values| == |m|
  {
    if m != map[] {
      var k :| k in m;
      var r := m - {k};
      ImageSize(r);
      assert m.Keys == r.Keys + {k};
      assert m.Values == r.Values + {m[k]} by {
        forall v | v in m.Values ensures v in r.Values + {m[k]} {
          var a :| a in m && m[a] == v;
          assert a != k ==> a in r && r[a] == v;
        }
      }
      assert m[k] !in r.Values;
    }
  }

  lemma {:induction false} DistinctSize(f: seq<nat>)
    requires forall i, j :: 0 <= i < j < |f| ==> f[i] != f[j]
    ensures |Slots(f)| == |f|
  {
    if f != [] {
      var n := |f| - 1;
      DistinctSize(f[..n]);
      assert f == f[..n] + [f[n]];
      assert Slots(f) == Slots(f[..n]) + {f[n]};
    }
  }

  lemma {:induction false} BelowIsRange(n: nat)
    ensures |Below(n)| == n
    ensures forall i: nat :: i in Below(n) <==> i < n
  {
    if n > 0 {
      BelowIsRange(n - 1);
    }
  }

  /** A subset as large as the whole is the whole. */
  lemma {:induction false} FullSubset(a: set<nat>, b: set<nat>)
    requires a <= b && |a| == |b|
    ensures a == b
  {
    if a != {} {
      var x :| x in a;
      FullSubset(a - {x}, b - {x});
    }
  }

  lemma {:induction false} ImageAtMost(m: map<U64, nat>)
    ensures |m.Values| <= |m|
    ensures |m.Values| == |m| ==> forall a, b :: a in m && b in m && a != b ==> m[a] != m[b]
  {
    if m != map[] {
      var k :| k in m;
      var r := m - {k};
      ImageAtMost(r);
      assert m.Keys == r.Keys + {k};
      assert m.Values == r.Values + {m[k]} by {
        forall v | v in m.Values ensures v in r.Values + {m[k]} {
          var a :| a in m && m[a] == v;
          assert a != k ==> a in r && r[a] == v;
        }
      }
      forall a, b | |m.Values| == |m| && a in m && b in m && a != b
        ensures m[a] != m[b]
      {
        assert |r.Values| == |r| && m[k] !in r.Values;
        assert a != k ==> a in r && r[a] == m[a];
        assert b != k ==> b in r && r[b] == m[b];
      }
    }
  }

  lemma {:induction false} SlotsAtMost(f: seq<nat>)
    ensures |Slots(f)| <= |f|
    ensures |Slots(f)| == |f| ==> forall i, j :: 0 <= i < j < |f| ==> f[i] != f[j]
  {
    if f != [] {
      var n := |f| - 1;
      SlotsAtMost(f[..n]);
      assert f == f[..n] + [f[n]];
      assert Slots(f) == Slots(f[..n]) + {f[n]};
      forall i, j | |Slots(f)| == |f| && 0 <= i < j < |f|
        ensures f[i] != f[j]
      {
        assert f[n] !in Slots(f[..n]);
        assert f[i] == f[..n][i] && f[i] in Slots(f[..n]);
        assert j < n ==> f[j] == f[..n][j];
      }
    }
  }

  /** Two sets that cover `n` slots and have at most `n` members between them share none and name no other. */
  lemma ExactCover(a: set<nat>, b: set<nat>, n: nat, x: nat, y: nat)
    requires |a| <= x && |b| <= y && x + y == n && forall slot: nat :: slot < n ==> slot in a + b
    ensures |a| == x && |b| == y && a !! b && forall slot: nat :: slot in a + b ==> slot < n
  {
    BelowIsRange(n);
    SubsetSize(Below(n), a + b);
    assert |a + b| == |a| + |b| - |a * b|;
    FullSubset(Below(n), a + b);
    assert |a * b| == 0;
    forall z | z in a
      ensures z !in b
    {
      assert z in b ==> z in a * b;
    }
  }

  /** Naming every slot, with as many names as slots. */
  predicate Named(s: Slab) {
    |s.index| + |s.free| == |s.data| && forall slot :: 0 <= slot < |s.data| ==> slot in s.index.Values || slot in s.free
  }

  /** A slab is well formed exactly when its index and free list name every slot and are as many as the slots. */
  lemma WellFormedIff(s: Slab)
    ensures WellFormed(s) <==> Named(s)
  {
    if WellFormed(s) {
      forall slot | 0 <= slot < |s.data|
        ensures slot in s.index.Values || slot in s.free
      {
        SlotsPartition(s, slot);
      }
    }
    if Named(s) {
      NamedIsWellFormed(s);
    }
  }

  lemma NamedIsWellFormed(s: Slab)
    requires Named(s)
    ensures WellFormed(s)
  {
    var live, free := s.index.Values, Slots(s.free);
    ImageAtMost(s.index);
    SlotsAtMost(s.free);
    ExactCover(live, free, |s.data|, |s.index|, |s.free|);
    forall id | id in s.index
      ensures s.index[id] < |s.data| && s.index[id] !in s.free
    {
      assert s.index[id] in live && s.index[id] in live + free;
      assert s.index[id] !in free;
    }
    forall i | 0 <= i < |s.free|
      ensures s.free[i] < |s.data|
    {
      assert s.free[i] in free && s.free[i] in live + free;
    }
  }

  class OrderSlab {
    var data: seq<Meta>
    var freeList: seq<nat>
    var index: map<U64, nat>

    ghost function Value(): Slab
      reads this
    {
      Slab(data, freeList, index)
    }

    constructor ()
      ensures Value() == EMPTY_SLAB
    {
      data, freeList, index := [], [], map[];
    }

    constructor Load(s: Slab)
      ensures Value() == s
    {
      data, freeList, index := s.data, s.free, s.index;
    }

    /** Insert or overwrite. */
    method InsertOrder(id: U64, meta: Meta)
      requires WellFormed(Value())
      modifies this
      ensures Value() == Insert(old(Value()), id, meta) && WellFormed(Value())
    {
      InsertRefines(Value(), id, meta);
      if id in index {
        data := data[index[id] := meta];
      } else {
        var slot;
        if |freeList| > 0 {
          slot := freeList[|freeList| - 1];
          freeList := freeList[..|freeList| - 1];
          data := data[slot := meta];
        } else {
          slot := |data|;
          data := data + [meta];
        }
        index := index[id := slot];
      }
    }

    method Get(id: U64) returns (r: Option<Meta>)
      requires WellFormed(Value())
      ensures r == Lookup(Value(), id)
    {
      r := if id in index then Some(data[index[id]]) else None;
    }

    /** Write through the reference that `get_mut` hands out. */
    method PutQty(id: U64, q: U64)
      requires WellFormed(Value()) && id in index
      modifies this`data
      ensures Value() == SetQty(old(Value()), id, q) && WellFormed(Value())
    {
      SetQtyRefines(Value(), id, q);
      var slot := index[id];
      data := data[slot := data[slot].(qty := q)];
    }

    method RemoveOrder(id: U64) returns (r: Option<Meta>)
      requires WellFormed(Value())
      modifies this
      ensures Value() == Remove(old(Value()), id) && WellFormed(Value())
      ensures r == old(Lookup(Value(), id))
    {
      RemoveRefines(Value(), id);
      if id !in index {
        r := None;
      } else {
        var slot := index[id];
        index := index - {id};
        r := Some(data[slot]);
        freeList := freeList + [slot];
      }
    }
  }
}
