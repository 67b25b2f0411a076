/** Powers of two and bitmaps (lib/common/nvme_common.h).

    64-bit words are naturals below 2^64 with explicit wrap-around; the bytes of
    a bitmap are bit-vectors. */
module Bits {
  import opened Common

  function Pow2(n: nat): (r: nat)
    ensures r >= 1
  {
    if n == 0 then 1 else 2 * Pow2(n - 1)
  }

  const U64: nat := 0x1_0000_0000_0000_0000

  /** Bitwise and, or of naturals. */
  function And(a: nat, b: nat): (r: nat)
    ensures r <= a && r <= b
  {
    if a == 0 || b == 0 then 0
    else 2 * And(a / 2, b / 2) + (if a % 2 == 1 && b % 2 == 1 then 1 else 0)
  }

  function Or(a: nat, b: nat): (r: nat)
    ensures r >= a && r >= b
    decreases a + b
  {
    if a == 0 then b else if b == 0 then a
    else 2 * Or(a / 2, b / 2) + (if a % 2 == 1 || b % 2 == 1 then 1 else 0)
  }

  function Div(a: nat, b: nat): nat
    requires b > 0
  {
    a / b
  }

  /** Right shift. */
  function Shr(v: nat, w: nat): nat {
    Div(v, Pow2(w))
  }

  /** nvme_is_pow2 */
  predicate IsPow2(v: nat) {
    v != 0 && And(v, v - 1) == 0
  }

  // --------------------------------------------------------------- arithmetic

  lemma {:induction false} Pow2Add(m: nat, n: nat)
    ensures Pow2(m + n) == Pow2(m) * Pow2(n)
  {
    if m != 0 {
      Pow2Add(m - 1, n);
      assert Pow2(m + n) == 2 * Pow2((m - 1) + n);
    }
  }

  lemma {:induction false} Pow2Monotone(m: nat, n: nat)
    requires m < n
    ensures Pow2(m) < Pow2(n)
  {
    if m + 1 < n {
      Pow2Monotone(m, n - 1);
    }
  }

  lemma {:induction false} AndSelf(v: nat)
    ensures And(v, v) == v
  {
    if v != 0 {
      AndSelf(v / 2);
    }
  }

  /** The test v & (v - 1) recognises exactly the powers of two. */
  lemma {:induction false} IsPow2Exact(v: nat)
    ensures IsPow2(v) <==> exists n: nat :: v == Pow2(n)
  {
    if v == 1 {
      assert v == Pow2(0);
    } else if v % 2 == 1 {
      AndSelf(v / 2);
      forall n: nat ensures v != Pow2(n) {
        if n != 0 {
          assert Pow2(n) % 2 == 0;
        }
      }
    } else if v != 0 {
      IsPow2Exact(v / 2);
      assert And(v, v - 1) == 2 * And(v / 2, v / 2 - 1);
      if IsPow2(v / 2) {
        var n: nat :| v / 2 == Pow2(n);
        assert v == Pow2(n + 1);
      }
      forall n: nat | v == Pow2(n) ensures IsPow2(v / 2) {
        assert n != 0 && v / 2 == Pow2(n - 1);
      }
    }
  }

  lemma OrStep(a: nat, b: nat)
    ensures Or(a, b) == 2 * Or(a / 2, b / 2) + (if a % 2 == 1 || b % 2 == 1 then 1 else 0)
  {
  }

  /** Bits above those of b are unaffected by or-ing b in. */
  lemma {:induction false} OrHigh(h: nat, a: nat, b: nat, m: nat)
    requires a < Pow2(m) && b < Pow2(m)
    ensures Or(h * Pow2(m) + a, b) == h * Pow2(m) + Or(a, b)
    ensures Or(a, b) < Pow2(m)
  {
    if m != 0 {
      var x := h * Pow2(m - 1);
      assert h * Pow2(m) == 2 * x;
      OrHigh(h, a / 2, b / 2, m - 1);
      OrStep(a, b);
      OrHighStep(x, a, b, Or(a / 2, b / 2));
    }
  }

  lemma OrHighStep(x: nat, a: nat, b: nat, half: nat)
    requires Or(x + a / 2, b / 2) == x + half && Or(a / 2, b / 2) == half
    ensures Or(2 * x + a, b) == 2 * x + Or(a, b)
  {
    assert (2 * x + a) / 2 == x + a / 2 && (2 * x + a) % 2 == a % 2;
    OrStep(2 * x + a, b);
    OrStep(a, b);
  }

  /** Masking with 2^n - 1 is the remainder. */
  lemma {:induction false} AndMask(v: nat, n: nat)
    ensures And(v, Pow2(n) - 1) == v % Pow2(n)
  {
    if n > 0 {
      var p := Pow2(n - 1);
      hide Pow2;
      AndMask(v / 2, n - 1);
      AndHalf(v, p);
      ModDouble(v, p);
    }
  }

  lemma AndHalf(v: nat, p: nat)
    requires p > 0
    ensures And(v, 2 * p - 1) == 2 * And(v / 2, p - 1) + v % 2
  {
    assert (2 * p - 1) / 2 == p - 1 && (2 * p - 1) % 2 == 1;
  }

  lemma ModDouble(v: nat, p: nat)
    requires p > 0
    ensures v % (2 * p) == 2 * (v / 2 % p) + v % 2
  {
    var q, r := v / 2 / p, v / 2 % p;
    assert v == 2 * (q * p + r) + v % 2;
    assert v == q * (2 * p) + (2 * r + v % 2);
    DivUnique(2 * p, v, q, 2 * r + v % 2);
  }

  /** Or-ing in flags that leave the low n bits alone keeps these bits. */
  lemma {:induction false} OrKeepsLow(a: nat, b: nat, n: nat)
    requires b % Pow2(n) == 0
    ensures Or(a, b) % Pow2(n) == a % Pow2(n)
  {
    if n > 0 {
      var p := Pow2(n - 1);
      ModDouble(b, p);
      ModDouble(a, p);
      ModDouble(Or(a, b), p);
      OrKeepsLow(a / 2, b / 2, n - 1);
      OrStep(a, b);
    }
  }

  /** v has n bits, the top w of them set. */
  predicate TopOnes(v: nat, n: nat, w: nat)
    requires w <= n
  {
    Pow2(n) - Pow2(n - w) <= v < Pow2(n)
  }

  /** v |= v >> w doubles the run of ones at the top. */
  lemma Smear(v: nat, n: nat, w: nat)
    requires w >= 1 && TopOnes(v, n, Min(w, n))
    ensures TopOnes(Or(v, Shr(v, w)), n, Min(2 * w, n))
  {
    hide Or, Shr, Pow2;
    if w <= n {
      SmearHigh(v, n, w);
      SmearLow(v, n, w, Shr(v, w));
      SmearCombine(n, w, Shr(v, w), Or(v, Shr(v, w)));
    } else {
      SmearFull(v, n, w);
    }
  }

  lemma SmearFull(v: nat, n: nat, w: nat)
    requires n < w && v < Pow2(n)
    ensures Or(v, Shr(v, w)) == v
  {
    Pow2Monotone(n, w);
    DivSmall(v, Pow2(w));
    assert Or(v, 0) == v;
  }

  lemma DivSmall(v: nat, p: nat)
    requires v < p
    ensures v / p == 0
  {
  }

  lemma SmearCombine(n: nat, w: nat, x: nat, r: nat)
    requires w <= n && x >= Pow2(n - w) - (if w <= n - w then Pow2(n - w - w) else 1)
    requires Pow2(n) - Pow2(n - w) + x <= r < Pow2(n)
    ensures TopOnes(r, n, Min(2 * w, n))
  {
    if 2 * w <= n {
      assert n - w - w == n - 2 * w;
    }
  }

  /** Or-ing x below the run keeps the run and adds at least x. */
  lemma SmearLow(v: nat, n: nat, w: nat, x: nat)
    requires 1 <= w <= n && TopOnes(v, n, w) && x < Pow2(n - w)
    ensures Pow2(n) - Pow2(n - w) + x <= Or(v, x) < Pow2(n)
  {
    var q := Pow2(n - w);
    Pow2Add(w, n - w);
    var h := Pow2(w) - 1;
    assert h * q == Pow2(w) * q - q;
    var low := v - h * q;
    OrHigh(h, low, x, n - w);
  }

  /** What v >> w contributes below the run. */
  lemma SmearHigh(v: nat, n: nat, w: nat)
    requires 1 <= w <= n && TopOnes(v, n, w)
    ensures
      var x, m := Shr(v, w), n - w;
      x < Pow2(m) && x >= Pow2(m) - (if w <= m then Pow2(m - w) else 1)
  {
    var m := n - w;
    Pow2Add(w, m);
    var p, q := Pow2(w), Pow2(m);
    if w <= m {
      Pow2Add(w, m - w);
      DivBounds(v, p, q, Pow2(m - w));
    } else {
      Pow2Monotone(m, w);
      DivBounds(v, p, q, 1);
    }
  }

  /** Dividing p*q - p*r .. p*q - 1 by p. */
  lemma DivBounds(v: nat, p: nat, q: nat, r: nat)
    requires p > 0 && r <= q && p * q - p * r <= v < p * q
    ensures q - r <= v / p < q
  {
    var d := v / p;
    assert p * d <= v < p * d + p;
    assert p * (q - r) == p * q - p * r;
    MulOrder(p, q - r, d + 1);
    MulOrder(p, d, q);
  }

  lemma MulOrder(p: nat, a: int, b: int)
    requires p > 0 && p * a < p * b
    ensures a < b
  {
  }

  /** Every v > 0 has a top bit. */
  lemma {:induction false} BitLength(v: nat) returns (n: nat)
    requires v > 0
    ensures n >= 1 && Pow2(n - 1) <= v < Pow2(n)
  {
    if v == 1 {
      n := 1;
    } else {
      var m := BitLength(v / 2);
      n := m + 1;
    }
  }

  lemma Pow2Values()
    ensures Pow2(1) == 2 && Pow2(2) == 4 && Pow2(4) == 16 && Pow2(8) == 256
    ensures Pow2(16) == 65536 && Pow2(32) == 0x1_0000_0000
    ensures Pow2(63) == U64 / 2 && Pow2(64) == U64
  {
    assert Pow2(4) == 2 * Pow2(3) && Pow2(3) == 2 * Pow2(2);
    Pow2Add(4, 4);
    Pow2Add(8, 8);
    Pow2Add(16, 16);
    Pow2Add(32, 32);
    assert Pow2(64) == 2 * Pow2(63);
  }

  /** The six or-and-shift steps of nvme_align_pow2 fill a word below its top bit. */
  method SmearAll(v: nat, ghost n: nat) returns (u: nat)
    requires n <= 64 && (n == 0 ==> v == 0) && (n > 0 ==> Pow2(n - 1) <= v < Pow2(n))
    ensures u + 1 == Pow2(n)
  {
    TopOne(v, n);
    hide Or, Shr, Pow2, TopOnes;
    u := v;
    Smear(u, n, 1);
    u := Or(u, Shr(u, 1));
    Smear(u, n, 2);
    u := Or(u, Shr(u, 2));
    Smear(u, n, 4);
    u := Or(u, Shr(u, 4));
    Smear(u, n, 8);
    u := Or(u, Shr(u, 8));
    Smear(u, n, 16);
    u := Or(u, Shr(u, 16));
    Smear(u, n, 32);
    u := Or(u, Shr(u, 32));
    AllOnes(u, n);
  }

  lemma TopOne(v: nat, n: nat)
    requires (n == 0 ==> v == 0) && (n > 0 ==> Pow2(n - 1) <= v < Pow2(n))
    ensures TopOnes(v, n, Min(1, n))
  {
  }

  /** An n-bit number with all bits set is one below 2^n. */
  lemma AllOnes(v: nat, n: nat)
    requires n <= 64 && TopOnes(v, n, Min(64, n))
    ensures v + 1 == Pow2(n)
  {
  }

  /** r is the least power of two at or above v. */
  ghost predicate LeastPow2(v: nat, r: nat, n: nat) {
    r == Pow2(n) && v <= r && (forall m: nat :: v <= Pow2(m) ==> n <= m)
  }

  /** nvme_align_pow2.  From 1 to 2^63 the result is the least power of two at
      or above v; outside, the 64-bit arithmetic wraps and the result is 0. */
  method AlignPow2(v: nat) returns (r: nat, ghost n: nat)
    requires v < U64
    ensures 0 < v <= U64 / 2 ==> n <= 63 && LeastPow2(v, r, n)
    ensures v == 0 || v > U64 / 2 ==> r == 0
  {
    Pow2Values();
    var u := if v == 0 then U64 - 1 else v - 1;
    n := 0;
    if u > 0 {
      n := BitLength(u);
      TopBitBound(u, n, 64);
    }
    u := SmearAll(u, n);
    r := if u + 1 == U64 then 0 else u + 1;
    if 0 < v <= U64 / 2 {
      LeastIsTop(v, n);
    } else {
      TopBitIs64(if v == 0 then U64 - 1 else v - 1, n);
    }
  }

  lemma TopBitBound(u: nat, n: nat, k: nat)
    requires n >= 1 && Pow2(n - 1) <= u < Pow2(k)
    ensures n <= k
  {
    if n > k {
      if n - 1 > k {
        Pow2Monotone(k, n - 1);
      }
    }
  }

  lemma LeastIsTop(v: nat, n: nat)
    requires 0 < v <= U64 / 2
    requires (n == 0 ==> v == 1) && (n > 0 ==> Pow2(n - 1) <= v - 1 < Pow2(n))
    ensures n <= 63 && LeastPow2(v, Pow2(n), n)
  {
    Pow2Values();
    if n > 0 {
      TopBitBound(v - 1, n, 63);
    }
    forall m: nat | v <= Pow2(m) ensures n <= m {
      if n > 0 {
        TopBitBound(v - 1, n, m);
      }
    }
  }

  lemma TopBitIs64(u: nat, n: nat)
    requires U64 / 2 <= u < U64 && n >= 1 && Pow2(n - 1) <= u < Pow2(n)
    ensures n == 64
  {
    Pow2Values();
    TopBitBound(u, n, 64);
    TopBitBound(Pow2(63), 64, n);
  }

  /** nvme_log2 */
  method Log2(size: nat) returns (bits: nat)
    ensures if IsPow2(size) then size == Pow2(bits) else bits == 0
  {
    bits := 0;
    if !IsPow2(size) {
      return;
    }
    IsPow2Exact(size);
    ghost var n: nat :| size == Pow2(n);
    var rest := size;
    while rest / 2 != 0
      invariant bits <= n && rest == Pow2(n - bits)
      decreases rest
    {
      rest := rest / 2;
      bits := bits + 1;
    }
  }

  // ------------------------------------------------------------------ bitmaps

  /** 1 << k, in a byte. */
  function Mask(k: nat): (m: bv8)
    requires k < 8
  {
    if k == 0 then 0x01 else if k == 1 then 0x02 else if k == 2 then 0x04 else if k == 3 then 0x08
    else if k == 4 then 0x10 else if k == 5 then 0x20 else if k == 6 then 0x40 else 0x80
  }

  predicate BitOf(b: bv8, k: nat)
    requires k < 8
  {
    b & Mask(k) != 0
  }

  function WithBit(b: bv8, k: nat): bv8
    requires k < 8
  {
    b | Mask(k)
  }

  function WithoutBit(b: bv8, k: nat): bv8
    requires k < 8
  {
    b & !Mask(k)
  }

  /** test_bit */
  predicate TestBit(bm: seq<bv8>, bit: nat)
    requires bit / 8 < |bm|
  {
    BitOf(bm[bit / 8], bit % 8)
  }

  /** set_bit */
  function SetBit(bm: seq<bv8>, bit: nat): (r: seq<bv8>)
    requires bit / 8 < |bm|
    ensures |r| == |bm|
  {
    bm[bit / 8 := WithBit(bm[bit / 8], bit % 8)]
  }

  /** clear_bit */
  function ClearBit(bm: seq<bv8>, bit: nat): (r: seq<bv8>)
    requires bit / 8 < |bm|
    ensures |r| == |bm|
  {
    bm[bit / 8 := WithoutBit(bm[bit / 8], bit % 8)]
  }

  lemma MaskBits(b: bv8, j: nat, k: nat)
    requires j < 8 && k < 8
    ensures BitOf(WithBit(b, k), j) <==> j == k || BitOf(b, j)
    ensures BitOf(WithoutBit(b, k), j) <==> j != k && BitOf(b, j)
  {
  }

  /** Setting or clearing one bit changes that bit and no other. */
  lemma BitUpdate(bm: seq<bv8>, bit: nat, other: nat)
    requires bit / 8 < |bm| && other / 8 < |bm|
    ensures TestBit(SetBit(bm, bit), other) <==> other == bit || TestBit(bm, other)
    ensures TestBit(ClearBit(bm, bit), other) <==> other != bit && TestBit(bm, other)
  {
    hide BitOf, WithBit, WithoutBit;
    MaskBits(bm[bit / 8], other % 8, bit % 8);
    if bit / 8 == other / 8 {
      assert bit == other <==> bit % 8 == other % 8;
    }
  }

  /** The i-th 64-bit word, little-endian. */
  function Word(bm: seq<bv8>, i: nat): bv64
    requires 8 * i + 8 <= |bm|
  {
    (bm[8 * i] as bv64) | ((bm[8 * i + 1] as bv64) << 8) | ((bm[8 * i + 2] as bv64) << 16)
    | ((bm[8 * i + 3] as bv64) << 24) | ((bm[8 * i + 4] as bv64) << 32) | ((bm[8 * i + 5] as bv64) << 40)
    | ((bm[8 * i + 6] as bv64) << 48) | ((bm[8 * i + 7] as bv64) << 56)
  }

  const ALL_ONES: bv64 := 0xFFFF_FFFF_FFFF_FFFF

  lemma ByteFull(b: bv8)
    ensures b == 0xFF <==> forall k :: 0 <= k < 8 ==> BitOf(b, k)
  {
    if BitOf(b, 0) && BitOf(b, 1) && BitOf(b, 2) && BitOf(b, 3)
       && BitOf(b, 4) && BitOf(b, 5) && BitOf(b, 6) && BitOf(b, 7) {
      assert b == 0xFF;
    }
  }

  lemma WordBytes(b0: bv8, b1: bv8, b2: bv8, b3: bv8, b4: bv8, b5: bv8, b6: bv8, b7: bv8)
    ensures (b0 as bv64) | ((b1 as bv64) << 8) | ((b2 as bv64) << 16) | ((b3 as bv64) << 24)
            | ((b4 as bv64) << 32) | ((b5 as bv64) << 40) | ((b6 as bv64) << 48) | ((b7 as bv64) << 56) == ALL_ONES
            <==> b0 == 0xFF && b1 == 0xFF && b2 == 0xFF && b3 == 0xFF && b4 == 0xFF && b5 == 0xFF && b6 == 0xFF && b7 == 0xFF
  {
  }

  lemma BytesFull(bm: seq<bv8>, i: nat)
    requires 8 * i + 8 <= |bm|
    ensures Word(bm, i) == ALL_ONES <==> forall k :: 8 * i <= k < 8 * i + 8 ==> bm[k] == 0xFF
  {
    WordBytes(bm[8 * i], bm[8 * i + 1], bm[8 * i + 2], bm[8 * i + 3], bm[8 * i + 4], bm[8 * i + 5], bm[8 * i + 6], bm[8 * i + 7]);
  }

  /** A word of all ones has every bit set. */
  lemma WordFull(bm: seq<bv8>, i: nat)
    requires 8 * i + 8 <= |bm|
    ensures Word(bm, i) == ALL_ONES <==> forall j :: 64 * i <= j < 64 * i + 64 ==> TestBit(bm, j)
  {
    hide BitOf, Word;
    BytesFull(bm, i);
    if forall k :: 8 * i <= k < 8 * i + 8 ==> bm[k] == 0xFF {
      forall j | 64 * i <= j < 64 * i + 64 ensures TestBit(bm, j) {
        assert 8 * i <= j / 8 < 8 * i + 8;
        ByteFull(bm[j / 8]);
      }
    }
    if forall j :: 64 * i <= j < 64 * i + 64 ==> TestBit(bm, j) {
      forall k | 8 * i <= k < 8 * i + 8 ensures bm[k] == 0xFF {
        forall l | 0 <= l < 8 ensures BitOf(bm[k], l) {
          assert TestBit(bm, 8 * k + l);
        }
        ByteFull(bm[k]);
      }
    }
  }

  /** The bitmap covers n bits, padded to whole words. */
  predicate Covers(bm: seq<bv8>, n: nat) {
    |bm| == 8 * ((n + 63) / 64)
  }

  lemma CoversBit(bm: seq<bv8>, n: nat)
    requires Covers(bm, n)
    ensures forall j :: 0 <= j < n ==> j / 8 < |bm|
  {
  }

  /** find_first_zero_bit: skip full words, then look bit by bit.  The result is
      the least clear bit below n, or -1 when all are set. */
  method FindFirstZero(bm: seq<bv8>, n: nat) returns (r: int)
    requires Covers(bm, n)
    ensures -1 <= r < n
    ensures r >= 0 ==> r / 8 < |bm| && !TestBit(bm, r)
    ensures forall j :: 0 <= j < (if r >= 0 then r else n) ==> j / 8 < |bm| && TestBit(bm, j)
  {
    CoversBit(bm, n);
    hide BitOf, Word;
    var count := (n + 63) / 64;
    var i := 0;
    while i < count
      invariant 0 <= i <= count
      invariant forall j :: 0 <= j < 64 * i ==> j / 8 < |bm| && TestBit(bm, j)
    {
      WordFull(bm, i);
      if Word(bm, i) != ALL_ONES {
        break;
      }
      i := i + 1;
    }
    var j := 64 * i;
    while j < n
      invariant 64 * i <= j
      invariant forall k :: 0 <= k < j && k < n ==> k / 8 < |bm| && TestBit(bm, k)
    {
      if !TestBit(bm, j) {
        return j;
      }
      j := j + 1;
    }
    return -1;
  }

  // ----------------------------------------------------------- counting bits

  /** Clear bits below n. */
  ghost function CountClear(bm: seq<bv8>, n: nat): nat
    requires forall j :: 0 <= j < n ==> j / 8 < |bm|
  {
    if n == 0 then 0 else CountClear(bm, n - 1) + (if TestBit(bm, n - 1) then 0 else 1)
  }

  lemma {:induction false} CountSame(bm: seq<bv8>, bm': seq<bv8>, n: nat)
    requires forall j :: 0 <= j < n ==> j / 8 < |bm| && j / 8 < |bm'| && TestBit(bm, j) == TestBit(bm', j)
    ensures CountClear(bm', n) == CountClear(bm, n)
  {
    if n != 0 {
      CountSame(bm, bm', n - 1);
    }
  }

  lemma {:induction false} CountBounds(bm: seq<bv8>, n: nat)
    requires forall j :: 0 <= j < n ==> j / 8 < |bm|
    ensures CountClear(bm, n) <= n
    ensures CountClear(bm, n) == 0 <==> forall j :: 0 <= j < n ==> TestBit(bm, j)
    ensures CountClear(bm, n) == n <==> forall j :: 0 <= j < n ==> !TestBit(bm, j)
  {
    if n != 0 {
      CountBounds(bm, n - 1);
    }
  }

  /** Setting a clear bit takes one off the count; clearing it puts it back. */
  lemma {:induction false} CountUpdate(bm: seq<bv8>, n: nat, bit: nat)
    requires forall j :: 0 <= j < n ==> j / 8 < |bm|
    requires bit < n
    ensures !TestBit(bm, bit) ==> CountClear(SetBit(bm, bit), n) == CountClear(bm, n) - 1
    ensures TestBit(bm, bit) ==> CountClear(ClearBit(bm, bit), n) == CountClear(bm, n) + 1
  {
    hide TestBit, SetBit, ClearBit;
    forall j | 0 <= j < n
      ensures TestBit(SetBit(bm, bit), j) <==> j == bit || TestBit(bm, j)
      ensures TestBit(ClearBit(bm, bit), j) <==> j != bit && TestBit(bm, j)
    {
      BitUpdate(bm, bit, j);
    }
    CountSteps(bm, SetBit(bm, bit), ClearBit(bm, bit), n, bit);
  }

  lemma {:induction false} CountSteps(bm: seq<bv8>, s: seq<bv8>, c: seq<bv8>, n: nat, bit: nat)
    requires forall j :: 0 <= j < n ==> j / 8 < |bm|
    requires |s| == |bm| == |c| && bit < n
    requires forall j :: 0 <= j < n ==> (TestBit(s, j) <==> j == bit || TestBit(bm, j))
    requires forall j :: 0 <= j < n ==> (TestBit(c, j) <==> j != bit && TestBit(bm, j))
    ensures !TestBit(bm, bit) ==> CountClear(s, n) == CountClear(bm, n) - 1
    ensures TestBit(bm, bit) ==> CountClear(c, n) == CountClear(bm, n) + 1
  {
    if bit == n - 1 {
      CountSame(bm, s, n - 1);
      CountSame(bm, c, n - 1);
    } else {
      CountSteps(bm, s, c, n - 1, bit);
    }
  }
}
