/** The ring as one side sees it between two steps of the other: `write`, `available` and `read` on the mapped
    payload, with the copy split in two where it wraps (replay/src/ring_reader.rs, ingest/mmap/ring.go). */
module RingBuffer {
  import opened Events
  import opened Ring

  datatype RingError = Full(need: nat, avail: nat)

  class MappedRing {
    const payload: array<Byte>
    var writeIdx: nat
    var readIdx: nat

    ghost predicate Valid()
      reads this
    {
      payload.Length > 0 && readIdx <= writeIdx <= readIdx + payload.Length
    }

    /** The published bytes not yet consumed, oldest first. */
    ghost function Queue(): (q: seq<Byte>)
      requires Valid()
      reads this, payload
      ensures |q| == writeIdx - readIdx
    {
      seq(writeIdx - readIdx, i requires 0 <= i < writeIdx - readIdx reads this, payload requires Valid() =>
        payload[(readIdx + i) % payload.Length])
    }

    constructor (capacity: nat)
      requires capacity > 0
      ensures Valid() && payload.Length == capacity && fresh(payload) && Queue() == []
    {
      payload := new Byte[capacity](_ => 0);
      writeIdx, readIdx := 0, 0;
    }

    method Write(batch: seq<Byte>) returns (r: Result<(), RingError>)
      requires Valid()
      modifies this`writeIdx, payload
      ensures Valid()
      ensures var free := payload.Length - |old(Queue())|;
              if |batch| <= free then r == Ok(()) && Queue() == old(Queue()) + batch
              else r == Err(Full(|batch|, free)) && Queue() == old(Queue())
    {
      var cap := payload.Length;
      var free := cap - (writeIdx - readIdx);
      if |batch| > free {
        return Err(Full(|batch|, free));
      }
      ghost var old', w := payload[..], writeIdx;
      CopyIn(writeIdx % cap, batch);
      writeIdx := writeIdx + |batch|;
      forall i | 0 <= i < |Queue()|
        ensures Queue()[i] == (old(Queue()) + batch)[i]
      {
        CopyLands(old', payload[..], w, batch, readIdx + i);
      }
      return Ok(());
    }

    /** One copy, or two where it wraps. */
    method CopyIn(start: nat, batch: seq<Byte>)
      requires start < payload.Length && |batch| <= payload.Length
      modifies payload
      ensures Overwrites(old(payload[..]), payload[..], start, batch)
    {
      var cap := payload.Length;
      if start + |batch| <= cap {
        forall j | 0 <= j < |batch| {
          payload[start + j] := batch[j];
        }
      } else {
        var first := cap - start;
        forall j | 0 <= j < first {
          payload[start + j] := batch[j];
        }
        forall j | 0 <= j < |batch| - first {
          payload[j] := batch[j + first];
        }
      }
    }

    /** The readable bytes, at most `max`, as the part before the wrap and the part after it. */
    method Available(max: nat) returns (a: seq<Byte>, b: seq<Byte>)
      requires Valid()
      ensures a + b == Queue()[..Min(max, |Queue()|)]
    {
      var n := Min(max, writeIdx - readIdx);
      var cap := payload.Length;
      var start := readIdx % cap;
      if start + n <= cap {
        a, b := payload[start..start + n], [];
      } else {
        var first := cap - start;
        a, b := payload[start..], payload[..n - first];
      }
      forall i | 0 <= i < n
        ensures (a + b)[i] == Queue()[i]
      {
        Wrap(readIdx, i, cap);
      }
    }

    /** Take up to `max` bytes off the front. */
    method Read(max: nat) returns (dst: seq<Byte>)
      requires Valid()
      modifies this`readIdx
      ensures Valid()
      ensures old(Queue()) == dst + Queue() && |dst| == Min(max, |old(Queue())|)
    {
      var a, b := Available(max);
      dst := a + b;
      ghost var before := Queue();
      readIdx := readIdx + |dst|;
      assert Queue() == before[|dst|..];
    }
  }

  function Wrapped(start: nat, j: nat, c: nat): int {
    if start + j < c then start + j else start + j - c
  }

  /** How far past `start`, going round, slot `k` is. */
  function Past(start: nat, c: nat, k: nat): int {
    if k >= start then k - start else k + c - start
  }

  /** `q` is `p` with the batch written from `start` on, going round. */
  ghost predicate Overwrites(p: seq<Byte>, q: seq<Byte>, start: nat, batch: seq<Byte>)
    requires start < |p|
  {
    && |q| == |p|
    && forall k :: 0 <= k < |p| ==> q[k] == if Past(start, |p|, k) < |batch| then batch[Past(start, |p|, k)] else p[k]
  }

  /** Stepping `j` past a position wraps at most once. */
  lemma Wrap(x: nat, j: nat, c: nat)
    requires c > 0 && j < c
    ensures (x + j) % c == Wrapped(x % c, j, c)
    ensures Past(x % c, c, (x + j) % c) == j
  {
    var s, q := x % c, x / c;
    if s + j < c {
      UniqueRemainder(x + j, c, q, s + j);
    } else {
      assert x + j == c * (q + 1) + (s + j - c);
      UniqueRemainder(x + j, c, q + 1, s + j - c);
    }
  }

  lemma Lap(x: nat, c: nat)
    requires c > 0
    ensures (x + c) % c == x % c
  {
    UniqueRemainder(x + c, c, x / c + 1, x % c);
  }

  /** At stream position `i`, within a lap of `w`: the batch from `w` on, what was there before it. */
  lemma CopyLands(p: seq<Byte>, q: seq<Byte>, w: nat, batch: seq<Byte>, i: nat)
    requires |p| > 0 && |batch| <= |p| && Overwrites(p, q, w % |p|, batch)
    requires w + |batch| <= i + |p| && i < w + |batch|
    ensures q[i % |p|] == if i < w then p[i % |p|] else batch[i - w]
  {
    var c := |p|;
    if i < w {
      Wrap(w, i + c - w, c);
      Lap(i, c);
    } else {
      Wrap(w, i - w, c);
    }
  }
}
