// Valid block sizes of the store, computed in single precision, and the tree
// arity and chunk size derived from them.

module Sizes {

  const MIN_SIZE := 4072
  const PAGE_SIZE := 4096
  const HEADER := PAGE_SIZE - MIN_SIZE
  const MAX_FACTOR := 512

  const EMPTY_BLOCK_SIZE := 12
  const BLOCK_ID_SIZE := 33
  const BLOCK_KEY_SIZE := 33
  const BIG_VARINT_EXTRA := 3
  const DATA_VARINT_EXTRA := 4
  const MAX_DEPS_SIZE := 8 * BLOCK_ID_SIZE

  const USIZE_LIMIT := 0x1_0000_0000_0000_0000

  function Min(a: nat, b: nat): nat {
    if a < b then a else b
  }

  function CeilDiv(n: nat, d: nat): nat
    requires d > 0
  {
    (n + d - 1) / d
  }

  /** Distance between neighbouring single-precision numbers around `n`: 24 significant bits. */
  function Ulp(n: nat): (u: nat)
    ensures u >= 1 && n < 0x100_0000 * u
    ensures u == 1 || 0x80_0000 * u <= n
  {
    if n < 0x100_0000 then 1 else 2 * Ulp(n / 2)
  }

  /** `n as f32`: the nearest single-precision number, ties to the even significand. */
  function RoundF32(n: nat): nat {
    var u := Ulp(n);
    var q, r := n / u, n % u;
    if 2 * r < u || (2 * r == u && q % 2 == 0) then q * u else (q + 1) * u
  }

  /**
   * `store_valid_value_size`. Dividing by 4096, a power of two, is exact in
   * single precision, and so is rounding up.
   */
  function ValidValueSize(size: nat): int
    requires size + HEADER < USIZE_LIMIT
  {
    Min(CeilDiv(RoundF32(size + HEADER), PAGE_SIZE), MAX_FACTOR) * PAGE_SIZE - HEADER
  }

  /** `store_max_value_size`. */
  const MAX_VALUE_SIZE := MAX_FACTOR * PAGE_SIZE - HEADER

  lemma MulMonotone(a: nat, b: nat, u: nat)
    requires a <= b
    ensures a * u <= b * u
  {
    assert b * u == a * u + (b - a) * u;
  }

  lemma QuotientUnique(n: nat, u: nat, q: nat, r: nat)
    requires r < u && n == q * u + r
    ensures n / u == q
  {
    var q', r' := n / u, n % u;
    assert n == q' * u + r';
    if q < q' {
      MulMonotone(q + 1, q', u);
      assert false;
    } else if q' < q {
      MulMonotone(q' + 1, q, u);
      assert false;
    }
  }

  lemma QuotientAtLeast(n: nat, u: nat, c: nat)
    requires u > 0 && c * u <= n
    ensures n / u >= c
  {
    var q, r := n / u, n % u;
    assert n == q * u + r;
    if q < c {
      MulMonotone(q + 1, c, u);
      assert false;
    }
  }

  lemma CeilDivStep(n: nat, d: nat)
    requires d > 0
    ensures n > d ==> CeilDiv(n, d) == 1 + CeilDiv(n - d, d)
    ensures 0 < n <= d ==> CeilDiv(n, d) == 1
    ensures n == 0 ==> CeilDiv(n, d) == 0
  {
    if n > d {
      var q, r := (n - 1) / d, (n - 1) % d;
      assert n - 1 == q * d + r;
      QuotientUnique(n + d - 1, d, q + 1, r);
      assert CeilDiv(n - d, d) == q;
    } else if n > 0 {
      QuotientUnique(n + d - 1, d, 1, n - 1);
    } else {
      QuotientUnique(d - 1, d, 0, d - 1);
    }
  }

  lemma CeilDivSmaller(n: nat, d: nat)
    requires d >= 2 && n >= 2
    ensures CeilDiv(n, d) < n
  {
    var q, r := (n + d - 1) / d, (n + d - 1) % d;
    assert n + d - 1 == q * d + r;
    if q >= n {
      MulMonotone(n, q, d);
      assert n * d == n + n * (d - 1);
      MulMonotone(2, n, d - 1);
      assert false;
    }
  }

  lemma MultipleAtLeast(q: nat, u: nat)
    requires q >= 0x80_0000 && u >= 2
    ensures q * u >= 0x100_0000
  {
    assert q * u >= q * 2;
  }

  /** Rounding keeps every number up to 2^24, and stays above 2^24 beyond. */
  lemma RoundF32Bounds(n: nat)
    ensures n <= 0x100_0000 ==> RoundF32(n) == n
    ensures n > 0x100_0000 ==> RoundF32(n) >= 0x100_0000
  {
    if n == 0x100_0000 {
      assert Ulp(n / 2) == 1 && Ulp(n) == 2;
    } else if n > 0x100_0000 {
      var u := Ulp(n);
      QuotientAtLeast(n, u, 0x80_0000);
      MultipleAtLeast(n / u, u);
      MultipleAtLeast(n / u + 1, u);
    }
  }

  /** The value size without floating point: whole pages, at most 512, less the header. */
  function IntegerValueSize(size: nat): int {
    Min(CeilDiv(size + HEADER, PAGE_SIZE), MAX_FACTOR) * PAGE_SIZE - HEADER
  }

  /** The single-precision computation gives the integer result for every size. */
  lemma ValidValueSizeIsInteger(size: nat)
    requires size + HEADER < USIZE_LIMIT
    ensures ValidValueSize(size) == IntegerValueSize(size)
  {
    RoundF32Bounds(size + HEADER);
  }

  /** A valid size has room for what was asked (up to the maximum), wastes less than a page, and is a fixpoint. */
  lemma ValidValueSizeFits(size: nat)
    requires size + HEADER < USIZE_LIMIT
    ensures var v := ValidValueSize(size);
            && MIN_SIZE <= v <= MAX_VALUE_SIZE
            && ValidValueSize(v) == v
            && (size <= MAX_VALUE_SIZE ==> size <= v)
            && (MIN_SIZE <= size <= MAX_VALUE_SIZE ==> v < size + PAGE_SIZE)
            && (size > MAX_VALUE_SIZE ==> v == MAX_VALUE_SIZE)
  {
    ValidValueSizeIsInteger(size);
    ValidValueSizeIsInteger(ValidValueSize(size));
  }

  lemma ValidValueSizeMonotone(a: nat, b: nat)
    requires a <= b && b + HEADER < USIZE_LIMIT
    ensures ValidValueSize(a) <= ValidValueSize(b)
  {
    ValidValueSizeIsInteger(a);
    ValidValueSizeIsInteger(b);
  }

  /** How many children an internal node of a valid size may have. */
  function Arity(validSize: nat): nat
    requires MIN_SIZE <= validSize
  {
    (validSize - EMPTY_BLOCK_SIZE - BIG_VARINT_EXTRA * 2 - MAX_DEPS_SIZE) / (BLOCK_ID_SIZE + BLOCK_KEY_SIZE)
  }

  /** Both ends of the arity range are reached, at the two ends of the size range. */
  lemma ArityRange(size: nat)
    requires size + HEADER < USIZE_LIMIT
    ensures var v := ValidValueSize(size); MIN_SIZE <= v && 57 <= Arity(v) <= 31770
    ensures size <= MIN_SIZE ==> Arity(ValidValueSize(size)) == 57
    ensures size > MAX_VALUE_SIZE - PAGE_SIZE ==> Arity(ValidValueSize(size)) == 31770
  {
    ValidValueSizeIsInteger(size);
  }
}
