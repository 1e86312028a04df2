/** Machine words: widths, wrap-around, bit operations and little-endian bytes.
    The bit operations are defined bit by bit, so that the shifts, masks and tags
    of the driver are proved from the operators the code uses and not assumed. */
module Words {

  const TWO31: int := 0x8000_0000
  const TWO32: int := 0x1_0000_0000
  const TWO63: int := 0x8000_0000_0000_0000
  const TWO64: int := 0x1_0000_0000_0000_0000

  type byte = x: int | 0 <= x < 256
  type u16 = x: int | 0 <= x < 0x1_0000
  type u32 = x: int | 0 <= x < TWO32
  type u64 = x: int | 0 <= x < TWO64

  /** Reinterpretation of a 32-bit pattern as a signed number. */
  function ToI32(x: int): int {
    var w := x % TWO32;
    if w < TWO31 then w else w - TWO32
  }

  /** Reinterpretation of a 64-bit pattern as a signed number. */
  function ToI64(x: int): int {
    var w := x % TWO64;
    if w < TWO63 then w else w - TWO64
  }

  function Min(a: int, b: int): int {
    if a < b then a else b
  }

  // ---- Division facts ----

  lemma DivModUnique(x: int, m: int, q: int, r: int)
    requires m > 0 && 0 <= r < m && x == q * m + r
    ensures x / m == q && x % m == r
  {
    var d := x / m - q;
    assert x == m * (x / m) + x % m;
    assert d * m == r - x % m by {
      assert d * m == (x / m) * m - q * m;
    }
    if d >= 1 {
      MulMono(1, d, m);
    } else if d <= -1 {
      MulMono(1, -d, m);
    }
  }

  lemma MulMono(a: int, b: int, m: int)
    requires a <= b && m >= 0
    ensures a * m <= b * m
  {
  }

  /** A ring slot computed from a wrapped counter is the slot of the unwrapped position. */
  lemma ModOfWrapped(x: nat, m: nat, w: nat, k: nat)
    requires m > 0 && w > 0 && w == k * m
    ensures (x % w) % m == x % m
  {
    var q := x / w;
    var r := x % w;
    assert x == q * w + r;
    var a, b := r / m, r % m;
    assert r == a * m + b;
    assert x == (q * k + a) * m + b by {
      assert q * w == (q * k) * m;
      assert (q * k + a) * m == (q * k) * m + a * m;
    }
    DivModUnique(x, m, q * k + a, b);
  }

  /** Two positions less than m apart share a slot only when they are equal. */
  lemma SlotInjective(x: nat, y: nat, m: nat)
    requires m > 0 && x % m == y % m && x <= y < x + m
    ensures x == y
  {
    var k := y / m - x / m;
    assert y - x == k * m by {
      assert y == m * (y / m) + y % m;
      assert x == m * (x / m) + x % m;
      assert k * m == (y / m) * m - (x / m) * m;
    }
    if k >= 1 {
      MulMono(1, k, m);
    } else if k <= -1 {
      MulMono(1, -k, m);
    }
  }

  // ---- Sums ----

  function Sum(ns: seq<nat>): nat {
    if ns == [] then 0 else Sum(ns[..|ns| - 1]) + ns[|ns| - 1]
  }

  lemma SumNext(ns: seq<nat>, n: nat)
    ensures Sum(ns + [n]) == Sum(ns) + n
  {
    assert (ns + [n])[..|ns|] == ns;
  }

  lemma {:induction false} SumZero(ns: seq<nat>)
    ensures Sum(ns) == 0 <==> forall i :: 0 <= i < |ns| ==> ns[i] == 0
    decreases |ns|
  {
    if ns == [] {
    } else {
      var n := |ns| - 1;
      SumZero(ns[..n]);
      if forall i :: 0 <= i < n ==> ns[..n][i] == 0 {
        assert forall i :: 0 <= i < n ==> ns[i] == ns[..n][i];
      } else {
        var i :| 0 <= i < n && ns[..n][i] != 0;
        assert ns[i] != 0;
      }
    }
  }

  // ---- Powers of two and bit operations ----

  function Pow2(k: nat): (p: nat)
    ensures p > 0
  {
    if k == 0 then 1 else 2 * Pow2(k - 1)
  }

  /** Bitwise AND. */
  function And(x: nat, y: nat): nat {
    if x == 0 || y == 0 then 0
    else 2 * And(x / 2, y / 2) + (if x % 2 == 1 && y % 2 == 1 then 1 else 0)
  }

  /** Bitwise OR. */
  function Or(x: nat, y: nat): nat {
    if x == 0 then y else if y == 0 then x
    else 2 * Or(x / 2, y / 2) + (if x % 2 == 1 || y % 2 == 1 then 1 else 0)
  }

  lemma HalfMod(x: nat, p: nat)
    requires p > 0
    ensures x % (2 * p) == 2 * ((x / 2) % p) + x % 2
    ensures x / (2 * p) == (x / 2) / p
  {
    var h := x / 2;
    var q, r := h / p, h % p;
    assert h == q * p + r;
    assert x == q * (2 * p) + (2 * r + x % 2);
    DivModUnique(x, 2 * p, q, 2 * r + x % 2);
  }

  /** Masking with a power of two less one is the remainder. */
  lemma {:induction false} AndMask(x: nat, k: nat)
    ensures And(x, Pow2(k) - 1) == x % Pow2(k)
    decreases k
  {
    if k == 0 {
    } else {
      var p := Pow2(k - 1);
      HalfMod(x, p);
      AndMask(x / 2, k - 1);
      assert (2 * p - 1) / 2 == p - 1 && (2 * p - 1) % 2 == 1;
      if x == 0 {
        assert 0 % (2 * p) == 0;
      }
    }
  }

  /** Masking with one bit selects that bit. */
  lemma {:induction false} AndBit(x: nat, k: nat)
    ensures And(x, Pow2(k)) == (x / Pow2(k) % 2) * Pow2(k)
    decreases k
  {
    if k == 0 {
      if x != 0 {
        assert And(x / 2, 0) == 0;
      }
    } else {
      var p := Pow2(k - 1);
      HalfMod(x, p);
      AndBit(x / 2, k - 1);
      assert (2 * p) / 2 == p && (2 * p) % 2 == 0;
      var b := x / 2 / p % 2;
      assert (b * p) * 2 == b * (2 * p);
      if x == 0 {
        DivModUnique(0, 2 * p, 0, 0);
      }
    }
  }

  /** Disjoint bits: OR is addition. */
  lemma {:induction false} OrDisjoint(hi: nat, lo: nat, k: nat)
    requires lo < Pow2(k)
    ensures Or(hi * Pow2(k), lo) == hi * Pow2(k) + lo
    decreases k
  {
    if k == 0 {
    } else {
      var p := Pow2(k - 1);
      var x := hi * (2 * p);
      assert x == 2 * (hi * p);
      OrDisjoint(hi, lo / 2, k - 1);
      if x != 0 && lo != 0 {
        assert Or(x, lo) == 2 * Or(x / 2, lo / 2) + lo % 2;
      }
    }
  }

  lemma Pow2Word()
    ensures Pow2(31) == TWO31 && Pow2(32) == TWO32
  {
    assert Pow2(8) == 256;
    Pow2Add(8, 8);
    assert Pow2(16) == 65536;
    Pow2Add(16, 16);
  }

  lemma Pow2Long()
    ensures Pow2(16) == 0x1_0000 && Pow2(63) == TWO63
  {
    Pow2Word();
    Pow2Add(32, 31);
    Pow2Add(8, 8);
    assert Pow2(8) == 256;
  }

  /** The low 16 bits. */
  lemma MaskLow16(x: nat)
    ensures And(x, 0xFFFF) == x % 0x1_0000
  {
    Pow2Long();
    AndMask(x, 16);
  }

  /** The top bit of a 64-bit word. */
  lemma MaskTopBit(x: nat)
    requires x < TWO64
    ensures And(x, TWO63) != 0 <==> x >= TWO63
  {
    Pow2Long();
    AndBit(x, 63);
  }

  lemma OrLow16(hi: nat, lo: nat)
    requires lo < 0x1_0000
    ensures Or(hi * 0x1_0000, lo) == hi * 0x1_0000 + lo
  {
    Pow2Long();
    OrDisjoint(hi, lo, 16);
  }

  lemma OrTopBit(bit: nat, lo: nat)
    requires bit <= 1 && lo < TWO63
    ensures Or(bit * TWO63, lo) == bit * TWO63 + lo
  {
    Pow2Long();
    OrDisjoint(bit, lo, 63);
  }

  lemma {:induction false} Pow2Add(a: nat, b: nat)
    ensures Pow2(a + b) == Pow2(a) * Pow2(b)
    decreases a
  {
    if a == 0 {
    } else {
      Pow2Add(a - 1, b);
      assert Pow2(a + b) == 2 * Pow2(a - 1 + b);
      assert 2 * (Pow2(a - 1) * Pow2(b)) == (2 * Pow2(a - 1)) * Pow2(b);
    }
  }

  // ---- Little-endian bytes ----

  /** The n low bytes of x, least significant first. */
  function Bytes(x: nat, n: nat): (b: seq<byte>)
    ensures |b| == n
    decreases n
  {
    if n == 0 then [] else [x % 256] + Bytes(x / 256, n - 1)
  }

  /** Little-endian: byte k counts multiples of 256 to the k. */
  lemma {:induction false} BytesAt(x: nat, n: nat, k: nat)
    requires k < n
    ensures Bytes(x, n)[k] == x / Pow256(k) % 256
    decreases k
  {
    if k == 0 {
      assert x / 1 == x;
    } else {
      BytesAt(x / 256, n - 1, k - 1);
      ByteDown(x, Pow256(k - 1));
    }
  }

  lemma ByteDown(x: nat, p: nat)
    requires p > 0
    ensures x / 256 / p == x / (256 * p)
  {
    var h := x / 256;
    var q, r := h / p, h % p;
    assert h == q * p + r;
    assert x == q * (256 * p) + (256 * r + x % 256);
    DivModUnique(x, 256 * p, q, 256 * r + x % 256);
  }

  function FromBytes(b: seq<byte>): nat {
    if b == [] then 0 else b[0] + 256 * FromBytes(b[1..])
  }

  function Pow256(n: nat): (p: nat)
    ensures p > 0
  {
    if n == 0 then 1 else 256 * Pow256(n - 1)
  }

  lemma {:induction false} BytesRoundTrip(x: nat, n: nat)
    requires x < Pow256(n)
    ensures FromBytes(Bytes(x, n)) == x
    decreases n
  {
    if n == 0 {
    } else {
      BytesRoundTrip(x / 256, n - 1);
      assert Bytes(x, n)[1..] == Bytes(x / 256, n - 1);
    }
  }

  lemma {:induction false} FromBytesBound(b: seq<byte>)
    ensures FromBytes(b) < Pow256(|b|)
    decreases |b|
  {
    if b == [] {
    } else {
      FromBytesBound(b[1..]);
    }
  }

  lemma Pow256Values()
    ensures Pow256(1) == 0x100 && Pow256(2) == 0x1_0000 && Pow256(4) == TWO32 && Pow256(8) == TWO64
  {
    assert Pow256(2) == 65536;
    assert Pow256(4) == TWO32;
    assert Pow256(6) == 65536 * TWO32;
  }
}
