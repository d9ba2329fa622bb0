/** Sizes and neighbour sets of the precode (crates/orbit-fountain/src/precode.rs). */
module Precode {
  import opened XorKernel
  import opened LinearSystem
  import opened Peeling

  // ---- Number of LDPC checks ----

  /** Number of LDPC checks for `k` source symbols. */
  function SFor(k: nat): (s: nat)
    ensures s >= 2
  {
    if k <= 2 then 2 else Max(k / 100 + 10, 2)
  }

  function Max(a: nat, b: nat): nat { if a < b then b else a }

  /** Two checks for up to two sources, ten for up to a hundred, and one more for
      every further hundred. */
  lemma SGrowsByHundreds(k: nat)
    ensures k <= 2 ==> SFor(k) == 2
    ensures 3 <= k < 100 ==> SFor(k) == 10
    ensures k >= 3 ==> SFor(k + 100) == SFor(k) + 1
  {}

  // ---- Binomial coefficients ----

  /** Pascal's triangle. */
  function Choose(n: nat, k: nat): (c: nat)
    ensures k <= n ==> c >= 1
    ensures k > n ==> c == 0
  {
    if k == 0 then 1
    else if n == 0 then 0
    else Choose(n - 1, k - 1) + Choose(n - 1, k)
  }

  lemma {:induction false} ChooseAll(n: nat)
    ensures Choose(n, n) == 1
  {
    if n > 0 { ChooseAll(n - 1); }
  }

  lemma {:induction false} ChooseSymmetric(n: nat, k: nat)
    requires k <= n
    ensures Choose(n, k) == Choose(n, n - k)
  {
    if k == 0 || k == n {
      ChooseAll(n);
    } else {
      ChooseSymmetric(n - 1, k - 1);
      ChooseSymmetric(n - 1, k);
    }
  }

  lemma Distribute(x: int, y: int, z: int)
    ensures (x + y) * z == x * z + y * z
    ensures z * (x + y) == z * x + z * y
  {}

  lemma MulMonotone(x: nat, y: nat, z: nat)
    requires x <= y
    ensures x * z <= y * z && z * x <= z * y
  {
    Distribute(y - x, x, z);
  }

  lemma PascalRow(a: nat, b: nat, c: nat, m: nat, k: nat)
    requires m >= 1 && a * m == b * k && b * (m - 1) == c * (k + 1)
    ensures (a + b) * m == (b + c) * (k + 1)
  {
    Distribute(a, b, m);
    Distribute(b, c, k + 1);
    Distribute(m - 1, k + 1, b);
    Distribute(m, k, b);
  }

  /** Neighbouring entries of a row: the identity that makes every division of
      the multiply-then-divide loop exact. */
  lemma {:induction false} ChooseStep(n: nat, k: nat)
    requires k < n
    ensures Choose(n, k) * (n - k) == Choose(n, k + 1) * (k + 1)
  {
    if k == 0 {
      ChooseOne(n);
    } else if k == n - 1 {
      ChooseAll(n);
      ChooseAll(n - 1);
      ChooseStep(n - 1, k - 1);
    } else {
      ChooseStep(n - 1, k - 1);
      ChooseStep(n - 1, k);
      PascalRow(Choose(n - 1, k - 1), Choose(n - 1, k), Choose(n - 1, k + 1), n - k, k);
    }
  }

  lemma {:induction false} ChooseOne(n: nat)
    requires n >= 1
    ensures Choose(n, 1) == n
  {
    if n > 1 { ChooseOne(n - 1); }
  }

  lemma SmallerFactor(a: nat, x: nat, b: nat, y: nat)
    requires a * x == b * y && 1 <= y <= x
    ensures a <= b
  {
    if b < a {
      MulMonotone(b + 1, a, y);
      Distribute(b, 1, y);
      MulMonotone(y, x, a);
      assert false;
    }
  }

  /** Rows rise up to the middle. */
  lemma {:induction false} ChooseRises(n: nat, i: nat, j: nat)
    requires i <= j <= n / 2
    ensures Choose(n, i) <= Choose(n, j)
    decreases j - i
  {
    if i < j {
      ChooseStep(n, i);
      SmallerFactor(Choose(n, i), n - i, Choose(n, i + 1), i + 1);
      ChooseRises(n, i + 1, j);
    }
  }

  /** The middle entry of row `h`. */
  function Central(h: nat): (c: nat)
    ensures c >= 1
  {
    Choose(h, h / 2)
  }

  /** The middle entry at most doubles from one row to the next, and it never shrinks. */
  lemma CentralGrowth(h: nat)
    requires h >= 1
    ensures Central(h - 1) <= Central(h) <= 2 * Central(h - 1)
  {
    var m := h / 2;
    if h % 2 == 0 {
      assert (h - 1) / 2 == m - 1;
      ChooseSymmetric(h - 1, m - 1);
    } else if h > 1 {
      assert (h - 1) / 2 == m;
      ChooseRises(h - 1, m - 1, m);
    }
  }

  /** Two rows down, the middle entry has at least doubled. */
  lemma CentralDoubles(h: nat)
    requires h >= 2
    ensures Central(h) >= 2 * Central(h - 2)
  {
    var m := h / 2;
    assert (h - 2) / 2 == m - 1;
    if h % 2 == 0 {
      ChooseSymmetric(h - 1, m - 1);
    } else {
      if m >= 2 { ChooseRises(h - 2, m - 2, m - 1); }
      ChooseSymmetric(h - 2, m - 1);
      ChooseRises(h - 1, m - 1, m);
    }
  }

  function Pow2(n: nat): nat { if n == 0 then 1 else 2 * Pow2(n - 1) }

  lemma {:induction false} CentralAtLeastPow2(m: nat)
    ensures Central(2 * m) >= Pow2(m)
  {
    if m > 0 {
      CentralAtLeastPow2(m - 1);
      CentralDoubles(2 * m);
    }
  }

  /** Every intermediate product of the loop, for a row the search visits. */
  lemma ProductBound(h: nat, i: nat, bound: nat)
    requires 1 <= h && i < h / 2 && Central(h) <= bound
    ensures Choose(h, i) * (h - i) <= bound * h
  {
    ChooseRises(h, i, h / 2);
    MulMonotone(h - i, h, Choose(h, i));
    MulMonotone(Choose(h, i), bound, h);
  }

  const U128_LIMIT: nat := 0x1_0000_0000_0000_0000_0000_0000_0000_0000
  const U32_LIMIT: nat := 0x1_0000_0000
  const U64_LIMIT: nat := 0x1_0000_0000_0000_0000

  /** The product formed on the way from C(n, i) to C(n, i + 1). */
  ghost function Product(n: nat, i: nat): nat
    requires i <= n
  {
    Choose(n, i) * (n - i)
  }

  /** C(n, k) by multiply-then-divide: every division is exact, and no product
      reaches `limit` if none of the row's products does. */
  method Binomial(n: nat, k0: nat, ghost limit: nat) returns (c: nat)
    requires k0 <= n
    requires forall i | 0 <= i < k0 && i < n - k0 :: Product(n, i) < limit
    ensures c == Choose(n, k0)
  {
    var k := if k0 < n - k0 then k0 else n - k0;
    c := 1;
    for i := 0 to k
      invariant c == Choose(n, i)
    {
      assert c * (n - i) == Product(n, i) < limit;
      ChooseStep(n, i);
      ExactQuotient(Choose(n, i + 1), i + 1, c * (n - i));
      assert c * (n - i) % (i + 1) == 0;
      c := c * (n - i) / (i + 1);
    }
    if k != k0 { ChooseSymmetric(n, k0); }
  }

  lemma ExactQuotient(a: nat, b: nat, p: nat)
    requires b > 0 && p == a * b
    ensures p / b == a && p % b == 0
  {
    var q, r := p / b, p % b;
    assert p == q * b + r;
    if q < a {
      MulMonotone(q + 1, a, b);
      Distribute(q, 1, b);
      assert false;
    }
    if q > a {
      MulMonotone(a + 1, q, b);
      Distribute(a, 1, b);
      assert false;
    }
  }

  /** `h` is the least row, 1 or later, whose middle entry reaches `l`. */
  ghost predicate LeastRow(l: nat, h: nat) {
    && h >= 1 && Central(h) >= l
    && forall g | 1 <= g < h :: Central(g) < l
  }

  /** Number of HDPC checks for `k` source symbols. */
  ghost function HFor(k: nat): nat { RowFor(k + SFor(k)) }

  ghost function RowFor(l: nat): nat {
    if h: nat :| h <= 256 && LeastRow(l, h) then h else 256
  }

  lemma LeastRowIsUnique(l: nat, g: nat, h: nat)
    requires LeastRow(l, g) && LeastRow(l, h)
    ensures g == h
  {}

  lemma {:induction false} PowAdd(m: nat, n: nat)
    ensures Pow2(m + n) == Pow2(m) * Pow2(n)
  {
    if m > 0 {
      PowAdd(m - 1, n);
      Distribute(Pow2(m - 1), Pow2(m - 1), Pow2(n));
    }
  }

  lemma WordExponent() returns (m: nat)
    ensures 1 <= m <= 64 && Pow2(m) == U64_LIMIT
  {
    m := 64;
    assert Pow2(8) == 256;
    PowAdd(8, 8);
    PowAdd(16, 16);
    PowAdd(32, 32);
  }

  /** Some row no lower than 128 has a middle entry beyond every 64-bit number. */
  lemma TopRow() returns (top: nat)
    ensures 1 <= top <= 128 && Central(top) >= U64_LIMIT
  {
    var m := WordExponent();
    CentralAtLeastPow2(m);
    top := 2 * m;
  }

  /** No row the search visits makes the loop leave 128 bits. */
  lemma NoOverflow(h: nat, i: nat)
    requires 1 <= h <= 128 && i < h / 2
    requires h > 1 ==> Central(h - 1) < U64_LIMIT
    ensures Product(h, i) < U128_LIMIT
  {
    CentralGrowth(h);
    ProductBound(h, i, 2 * U64_LIMIT);
    MulMonotone(h, 128, 2 * U64_LIMIT);
  }

  lemma NoneOverflows(h: nat)
    requires 1 <= h <= 128
    requires h > 1 ==> Central(h - 1) < U64_LIMIT
    ensures forall i | 0 <= i < h / 2 :: Product(h, i) < U128_LIMIT
  {
    forall i | 0 <= i < h / 2
      ensures Product(h, i) < U128_LIMIT
    {
      NoOverflow(h, i);
    }
  }

  lemma RowIs(l: nat, h: nat)
    requires h <= 128 && LeastRow(l, h)
    ensures RowFor(l) == h
  {
    LeastRowIsUnique(l, h, RowFor(l));
  }

  /** The smallest H >= 1 whose middle binomial coefficient reaches `l`.  For
      64-bit `l` the search never falls through to its 256 fallback and never
      forms a product that leaves 128 bits. */
  method RowSearch(l: nat) returns (h: nat)
    requires l < U64_LIMIT
    ensures 1 <= h <= 128 && LeastRow(l, h)
    ensures h == RowFor(l)
  {
    ghost var top := TopRow();
    h := 1;
    while h <= 256
      invariant 1 <= h <= top
      invariant forall g | 1 <= g < h :: Central(g) < l
      decreases 257 - h
    {
      NoneOverflows(h);
      var c := Binomial(h, h / 2, U128_LIMIT);
      if c >= l {
        RowIs(l, h);
        return;
      }
      h := h + 1;
    }
    assert false;
  }

  /** Number of HDPC checks (the rule of section 5.4.2.3 of RFC 5053). */
  method HForSearch(k: nat) returns (h: nat)
    requires k + SFor(k) < U64_LIMIT
    ensures h == HFor(k) && 1 <= h <= 128
    ensures LeastRow(k + SFor(k), h)
  {
    h := RowSearch(k + SFor(k));
  }
}
