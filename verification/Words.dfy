/** Machine words as naturals. The source computes in uint32_t and size_t; here every
    wrap-around is an explicit `% U32` or `% U64`, and the bitwise operators are defined
    on naturals, bit by bit. */
module Words {

  const U16: nat := 0x1_0000
  const U32: nat := 0x1_0000_0000
  const U64: nat := 0x1_0000_0000_0000_0000

  function Pow2(k: nat): (r: nat)
    ensures r >= 1
  {
    if k == 0 then 1 else 2 * Pow2(k - 1)
  }

  /** Bitwise and. */
  function And(x: nat, y: nat): nat {
    if x == 0 || y == 0 then 0
    else 2 * And(x / 2, y / 2) + (if x % 2 == 1 && y % 2 == 1 then 1 else 0)
  }

  /** Bitwise or. */
  function Or(x: nat, y: nat): nat
    decreases x + y
  {
    if x == 0 then y else if y == 0 then x
    else 2 * Or(x / 2, y / 2) + (if x % 2 == 1 || y % 2 == 1 then 1 else 0)
  }

  lemma MulAtLeast(d: int, k: int)
    requires d > 0 && k >= 1
    ensures d * k >= d
  {
  }

  lemma QuotientUnique(d: int, q: int, r: int, q': int, r': int)
    requires 0 <= r < d && 0 <= r' < d && d * q + r == d * q' + r'
    ensures q == q' && r == r'
  {
    assert d * (q - q') == r' - r;
    if q > q' {
      MulAtLeast(d, q - q');
    } else if q < q' {
      MulAtLeast(d, q' - q);
    }
  }

  /** Division and modulus are determined by their defining equation. */
  lemma DivModUnique(x: int, d: int, q: int, r: int)
    requires 0 <= r < d && x == d * q + r
    ensures x / d == q && x % d == r
  {
    QuotientUnique(d, q, r, x / d, x % d);
  }

  /** A whole stride lies between different multiples. */
  lemma {:induction false} MulOrder(i: nat, j: nat, stride: nat)
    requires i < j
    ensures i * stride + stride <= j * stride
    decreases j
  {
    assert (j - 1) * stride + stride == j * stride;
    if i < j - 1 {
      MulOrder(i, j - 1, stride);
    }
  }

  /** The index of the j-th position after `base`, counted cyclically. */
  function Place(base: nat, j: nat, size: nat): (p: nat)
    requires size > 0
    ensures p < size
  {
    (base + j) % size
  }

  function Min(a: nat, b: nat): nat {
    if a < b then a else b
  }

  function Max(a: nat, b: nat): nat {
    if a < b then b else a
  }

  /** Positions less than one lap apart fall in different slots. */
  lemma SlotsDiffer(p: int, q: int, size: int)
    requires 0 < size && p < q < p + size
    ensures p % size != q % size
  {
    if p % size == q % size {
      var k := q / size - p / size;
      assert q - p == size * k;
      if k >= 1 {
        MulAtLeast(size, k);
      } else if k < 0 {
        MulAtLeast(size, -k);
      }
      assert false;
    }
  }

  lemma Pow2Add(a: nat, b: nat)
    ensures Pow2(a + b) == Pow2(a) * Pow2(b)
    decreases b
  {
    if b > 0 {
      Pow2Add(a, b - 1);
    }
  }

  lemma Pow2Monotone(a: nat, b: nat)
    requires a <= b
    ensures Pow2(a) <= Pow2(b)
    decreases b
  {
    if a < b {
      Pow2Monotone(a, b - 1);
    }
  }

  lemma Pow2Is32()
    ensures Pow2(31) == 0x8000_0000 && Pow2(32) == U32
  {
    assert Pow2(8) == 256;
    Pow2Add(8, 8);
    Pow2Add(16, 8);
    Pow2Add(24, 7);
    assert Pow2(7) == 128;
  }

  lemma ModDouble(x: nat, m: nat)
    requires m > 0
    ensures x % (2 * m) == 2 * (x / 2 % m) + x % 2
  {
    var h, b := x / 2, x % 2;
    var q, r := h / m, h % m;
    assert h == m * q + r;
    assert 2 * h == (2 * m) * q + 2 * r;
    DivModUnique(x, 2 * m, q, 2 * r + b);
  }

  lemma HalfOfMask(m: nat)
    requires m > 0
    ensures (2 * m - 1) / 2 == m - 1 && (2 * m - 1) % 2 == 1
  {
  }

  /** Masking with 2^k - 1 is reduction modulo 2^k. */
  lemma {:induction false} AndMask(x: nat, k: nat)
    ensures And(x, Pow2(k) - 1) == x % Pow2(k)
    decreases k
  {
    if k > 0 {
      AndMask(x / 2, k - 1);
      HalfOfMask(Pow2(k - 1));
      ModDouble(x, Pow2(k - 1));
    }
  }

  lemma ModOfMultiple(x: nat, m: nat, e: nat)
    requires m > 0 && m * e > 0
    ensures x % (m * e) % m == x % m
  {
    var w := m * e;
    var a, y := x / w, x % w;
    var b, z := y / m, y % m;
    assert y == m * b + z;
    assert w * a == m * (e * a);
    assert m * (e * a + b) == m * (e * a) + m * b;
    DivModUnique(x, m, e * a + b, z);
  }

  /** Reducing a cursor modulo 2^32 first does not change its slot. */
  lemma WrapKeepsSlot(x: nat, k: nat)
    requires k <= 32
    ensures (x % U32) % Pow2(k) == x % Pow2(k)
  {
    Pow2Is32();
    Pow2Add(k, 32 - k);
    ModOfMultiple(x, Pow2(k), Pow2(32 - k));
  }

  // ---------- Rounding up to a power of two ----------

  function Shr(x: nat, j: nat): nat
    decreases j
  {
    if j == 0 then x else Shr(x / 2, j - 1)
  }

  /** The word whose low m bits are set. */
  function Ones(m: nat): nat {
    if m == 0 then 0 else 2 * Ones(m - 1) + 1
  }

  lemma OnesIsPow2(m: nat)
    ensures Ones(m) == Pow2(m) - 1
  {
  }

  lemma {:induction false} ShrShr(x: nat, a: nat, b: nat)
    ensures Shr(Shr(x, a), b) == Shr(x, a + b)
    decreases a
  {
    if a > 0 {
      ShrShr(x / 2, a - 1, b);
    }
  }

  lemma {:induction false} ShrOnes(a: nat, b: nat)
    ensures Shr(Ones(a), b) == if b <= a then Ones(a - b) else 0
    decreases b
  {
    if b > 0 {
      if a == 0 {
        ShrOnes(0, b - 1);
      } else {
        ShrOnes(a - 1, b - 1);
      }
    }
  }

  lemma {:induction false} OrShr(x: nat, y: nat, j: nat)
    ensures Shr(Or(x, y), j) == Or(Shr(x, j), Shr(y, j))
    decreases j
  {
    if j > 0 {
      assert Or(x, y) / 2 == Or(x / 2, y / 2);
      OrShr(x / 2, y / 2, j - 1);
    }
  }

  /** Or-ing ones below a word of ones gives a longer word of ones. */
  lemma {:induction false} OrFill(x: nat, n: nat, m: nat)
    requires Shr(x, m) == Ones(n)
    ensures Or(x, Ones(m)) == Ones(n + m)
    decreases m
  {
    if m > 0 {
      OrFill(x / 2, n, m - 1);
      var y := Or(x, Ones(m));
      assert y / 2 == Or(x / 2, Ones(m - 1));
      assert y % 2 == 1;
    }
  }

  /** The top m of x's w bits are ones. */
  ghost predicate TopOnes(x: nat, w: nat, m: nat) {
    m <= w && Shr(x, w - m) == Ones(m)
  }

  /** A smear step x |= x >> m doubles the run of leading ones, up to the width of x. */
  lemma SmearStep(x: nat, w: nat, k: nat, m: nat)
    requires TopOnes(x, w, k) && (k == m || (k == w && w <= m))
    ensures TopOnes(Or(x, Shr(x, m)), w, if 2 * m <= w then 2 * m else w)
  {
    if k != m {
      ShrOnes(w, m);
      assert Or(x, 0) == x;
    } else if 2 * m <= w {
      var j := w - 2 * m;
      OrShr(x, Shr(x, m), j);
      ShrShr(x, m, j);
      ShrShr(x, j, m);
      OrFill(Shr(x, j), m, m);
    } else {
      ShrShr(x, w - m, 2 * m - w);
      ShrOnes(m, 2 * m - w);
      OrFill(x, m, w - m);
    }
  }

  /** detail::round_up_pow2 on a uint32_t. */
  function RoundUpPow2(v: nat): nat {
    if v < 2 then 2 else (Smear(v - 1) + 1) % U32
  }

  function Smear(a: nat): nat {
    var b := Or(a, Shr(a, 1));
    var c := Or(b, Shr(b, 2));
    var d := Or(c, Shr(c, 4));
    var e := Or(d, Shr(d, 8));
    Or(e, Shr(e, 16))
  }

  /** The number of bits of a positive number. */
  lemma {:induction false} BitLength(x: nat) returns (w: nat)
    requires x > 0
    ensures w >= 1 && Shr(x, w - 1) == 1 && Pow2(w - 1) <= x < Pow2(w)
  {
    if x == 1 {
      w := 1;
      assert Pow2(1) == 2 * Pow2(0);
    } else {
      var w' := BitLength(x / 2);
      w := w' + 1;
    }
  }

  lemma SmearFills(a: nat, w: nat)
    requires 1 <= w <= 32 && Shr(a, w - 1) == 1
    ensures Smear(a) == Ones(w)
  {
    assert Ones(1) == 1;
    SmearStep(a, w, 1, 1);
    var b := Or(a, Shr(a, 1));
    SmearStep(b, w, if 2 <= w then 2 else w, 2);
    var c := Or(b, Shr(b, 2));
    SmearStep(c, w, if 4 <= w then 4 else w, 4);
    var d := Or(c, Shr(c, 4));
    SmearStep(d, w, if 8 <= w then 8 else w, 8);
    var e := Or(d, Shr(d, 8));
    SmearStep(e, w, if 16 <= w then 16 else w, 16);
  }

  lemma RoundUpOfWidth(v: nat, w: nat)
    requires v >= 2 && 1 <= w <= 32 && Shr(v - 1, w - 1) == 1
    ensures RoundUpPow2(v) == Pow2(w) % U32
  {
    SmearFills(v - 1, w);
    OnesIsPow2(w);
  }

  lemma WidthOf(x: nat) returns (w: nat)
    requires 0 < x < U32
    ensures 1 <= w <= 32 && Shr(x, w - 1) == 1 && Pow2(w - 1) <= x < Pow2(w)
  {
    w := BitLength(x);
    Pow2Is32();
    if w > 32 {
      Pow2Monotone(32, w - 1);
      assert false;
    }
  }

  /** For requests up to 2^31 round_up_pow2 is the least power of two that is at least
      max(v, 2); above that the final increment wraps and the result is 0. */
  lemma RoundUpPow2Exact(v: nat) returns (k: nat)
    requires v < U32
    ensures v <= 0x8000_0000 ==>
              1 <= k <= 31 && RoundUpPow2(v) == Pow2(k) && v <= Pow2(k) && (k == 1 || Pow2(k - 1) < v)
    ensures v > 0x8000_0000 ==> RoundUpPow2(v) == 0
  {
    if v < 2 {
      k := 1;
      assert Pow2(1) == 2 * Pow2(0);
    } else {
      k := WidthOf(v - 1);
      RoundUpOfWidth(v, k);
      WidthCases(v, k);
    }
  }

  lemma WidthCases(v: nat, k: nat)
    requires v >= 2 && 1 <= k <= 32 && Pow2(k - 1) <= v - 1 < Pow2(k)
    ensures v <= 0x8000_0000 ==> k <= 31 && Pow2(k) % U32 == Pow2(k)
    ensures v > 0x8000_0000 ==> Pow2(k) % U32 == 0
  {
    Pow2Is32();
    if k < 32 {
      Pow2Monotone(k, 31);
    }
  }
}
