/** Fixed-width little- and big-endian integers. */
module Bytes {
  import opened Events

  function Pow256(k: nat): (r: nat)
    ensures r > 0
  {
    if k == 0 then 1 else 256 * Pow256(k - 1)
  }

  lemma Widths()
    ensures Pow256(1) == 0x100 && Pow256(2) == 0x1_0000 && Pow256(4) == 0x1_0000_0000
    ensures Pow256(6) == 0x1_0000_0000_0000 && Pow256(8) == 0x1_0000_0000_0000_0000
  {
    assert Pow256(3) == 256 * Pow256(2);
    assert Pow256(5) == 256 * Pow256(4);
    assert Pow256(7) == 256 * Pow256(6);
  }

  /** The low `k` bytes of `n`, least significant first. */
  function Le(n: nat, k: nat): (b: seq<Byte>)
    ensures |b| == k
  {
    if k == 0 then [] else [n % 256] + Le(n / 256, k - 1)
  }

  function FromLe(b: seq<Byte>): (n: nat)
    ensures n < Pow256(|b|)
  {
    if b == [] then 0 else b[0] + 256 * FromLe(b[1..])
  }

  /** The low `k` bytes of `n`, most significant first. */
  function Be(n: nat, k: nat): (b: seq<Byte>)
    ensures |b| == k
  {
    if k == 0 then [] else Be(n / 256, k - 1) + [n % 256]
  }

  function FromBe(b: seq<Byte>): (n: nat)
    ensures n < Pow256(|b|)
  {
    if b == [] then 0 else 256 * FromBe(b[..|b| - 1]) + b[|b| - 1]
  }

  lemma {:induction false} LeRoundTrip(n: nat, k: nat)
    requires n < Pow256(k)
    ensures FromLe(Le(n, k)) == n
  {
    if k > 0 {
      LeRoundTrip(n / 256, k - 1);
      assert Le(n, k)[1..] == Le(n / 256, k - 1);
    }
  }

  lemma {:induction false} BeRoundTrip(n: nat, k: nat)
    requires n < Pow256(k)
    ensures FromBe(Be(n, k)) == n
  {
    if k > 0 {
      BeRoundTrip(n / 256, k - 1);
      assert Be(n, k)[..k - 1] == Be(n / 256, k - 1);
    }
  }

  lemma LowByte(x: Byte, n: nat)
    ensures (x + 256 * n) % 256 == x && (x + 256 * n) / 256 == n
  {
  }

  /** Reading loses nothing either. */
  lemma {:induction false} LeOfFromLe(b: seq<Byte>)
    ensures Le(FromLe(b), |b|) == b
  {
    if b != [] {
      LeOfFromLe(b[1..]);
      LowByte(b[0], FromLe(b[1..]));
      assert b == [b[0]] + b[1..];
    }
  }

  function U32At(b: seq<Byte>, p: nat): (n: U32)
    requires p + 4 <= |b|
  {
    Widths();
    FromLe(b[p..p + 4])
  }

  function U64At(b: seq<Byte>, p: nat): (n: U64)
    requires p + 8 <= |b|
  {
    Widths();
    FromLe(b[p..p + 8])
  }

  /** A field written at offset `|a|` is read back there. */
  lemma FieldU32(a: seq<Byte>, n: U32, c: seq<Byte>)
    ensures U32At(a + Le(n, 4) + c, |a|) == n
  {
    Widths();
    LeRoundTrip(n, 4);
    assert (a + Le(n, 4) + c)[|a|..|a| + 4] == Le(n, 4);
  }

  lemma FieldU64(a: seq<Byte>, n: U64, c: seq<Byte>)
    ensures U64At(a + Le(n, 8) + c, |a|) == n
  {
    Widths();
    LeRoundTrip(n, 8);
    assert (a + Le(n, 8) + c)[|a|..|a| + 8] == Le(n, 8);
  }

  /** Big-endian u16 at `p`. */
  function U16BeAt(b: seq<Byte>, p: nat): (n: U16)
    requires p + 2 <= |b|
  {
    Widths();
    FromBe(b[p..p + 2])
  }

  lemma FieldU16Be(b: seq<Byte>, p: nat, n: U16)
    requires p + 2 <= |b| && b[p..p + 2] == Be(n, 2)
    ensures U16BeAt(b, p) == n
  {
    Widths();
    BeRoundTrip(n, 2);
  }

  function Byte4(a: Byte, b: Byte, c: Byte, d: Byte): nat {
    a as nat + 0x100 * (b as nat) + 0x1_0000 * (c as nat) + 0x100_0000 * (d as nat)
  }

  lemma FromLeFour(b: seq<Byte>)
    requires |b| >= 4
    ensures FromLe(b) == Byte4(b[0], b[1], b[2], b[3]) + 0x1_0000_0000 * FromLe(b[4..])
  {
    assert b[1..][1..] == b[2..] && b[2..][1..] == b[3..] && b[3..][1..] == b[4..];
    assert FromLe(b[2..]) == b[2] as nat + 256 * FromLe(b[3..]);
    assert FromLe(b[3..]) == b[3] as nat + 256 * FromLe(b[4..]);
  }

  /** Little-endian: the first byte is the least significant. */
  lemma LittleEndian(b: seq<Byte>, p: nat)
    ensures p + 4 <= |b| ==> U32At(b, p) as nat == Byte4(b[p], b[p + 1], b[p + 2], b[p + 3])
    ensures p + 8 <= |b| ==> U64At(b, p) as nat == U32At(b, p) as nat + 0x1_0000_0000 * (U32At(b, p + 4) as nat)
  {
    if p + 4 <= |b| {
      FromLeFour(b[p..p + 4]);
    }
    if p + 8 <= |b| {
      FromLeFour(b[p..p + 8]);
      FromLeFour(b[p + 4..p + 8]);
      assert b[p..p + 8][4..] == b[p + 4..p + 8];
    }
  }

  lemma FromBeFour(b: seq<Byte>)
    requires |b| >= 4
    ensures var n := |b|; FromBe(b) == Byte4(b[n - 1], b[n - 2], b[n - 3], b[n - 4]) + 0x1_0000_0000 * FromBe(b[..n - 4])
  {
    var n := |b|;
    assert b[..n - 1][..n - 2] == b[..n - 2] && b[..n - 2][..n - 3] == b[..n - 3] && b[..n - 3][..n - 4] == b[..n - 4];
    assert FromBe(b[..n - 2]) == 256 * FromBe(b[..n - 3]) + b[n - 3] as nat;
    assert FromBe(b[..n - 3]) == 256 * FromBe(b[..n - 4]) + b[n - 4] as nat;
  }

  /** Big-endian: the first byte is the most significant. */
  lemma BigEndian(b: seq<Byte>)
    ensures |b| == 2 ==> FromBe(b) == Byte4(b[1], b[0], 0, 0)
    ensures |b| == 4 ==> FromBe(b) == Byte4(b[3], b[2], b[1], b[0])
    ensures |b| == 8 ==> FromBe(b) == Byte4(b[7], b[6], b[5], b[4]) + 0x1_0000_0000 * Byte4(b[3], b[2], b[1], b[0])
  {
    if |b| == 2 {
      assert b[..1][..0] == [] && FromBe(b[..1]) == b[0] as nat;
    } else if |b| == 4 {
      FromBeFour(b);
    } else if |b| == 8 {
      FromBeFour(b);
      FromBeFour(b[..4]);
    }
  }
}
