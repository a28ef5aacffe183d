/** Machine-integer views and the rounding arithmetic shared by the formatter and the kernel. */
module Numbers {

  const TWO_31: int := 0x8000_0000
  const TWO_32: int := 0x1_0000_0000
  const TWO_63: int := 0x8000_0000_0000_0000
  const TWO_64: int := 0x1_0000_0000_0000_0000

  // The conversions name the in-range case apart; `ConversionsWrap` states them as plain wrap-around.

  /** Conversion to a 32-bit unsigned integer. */
  function U32(x: int): (r: nat) {
    if 0 <= x < TWO_32 then x else x % TWO_32
  }

  /** Conversion to a 64-bit unsigned integer. */
  function U64(x: int): (r: nat) {
    if 0 <= x < TWO_64 then x else if -TWO_64 <= x < 0 then x + TWO_64 else x % TWO_64
  }

  /** Conversion to a 32-bit two's-complement `int`. */
  function Int32(x: int): (r: int) {
    if -TWO_31 <= x < TWO_31 then x
    else if x % TWO_32 < TWO_31 then x % TWO_32 else x % TWO_32 - TWO_32
  }

  /** Conversion to a 64-bit two's-complement `ptrdiff_t`. */
  function Int64(x: int): (r: int) {
    if -TWO_63 <= x < TWO_63 then x
    else if x % TWO_64 < TWO_63 then x % TWO_64 else x % TWO_64 - TWO_64
  }

  /** Each conversion yields the one number of its range that is congruent to its argument. */
  lemma ConversionsWrap(x: int)
    ensures U32(x) == x % TWO_32 && U64(x) == x % TWO_64
    ensures -TWO_31 <= Int32(x) < TWO_31 && (x - Int32(x)) % TWO_32 == 0
    ensures -TWO_63 <= Int64(x) < TWO_63 && (x - Int64(x)) % TWO_64 == 0
  {
    WrapsTo(x, TWO_32);
    WrapsTo(x, TWO_64);
    assert x - Int32(x) == if -TWO_31 <= x < TWO_31 then 0
                           else if x % TWO_32 < TWO_31 then x / TWO_32 * TWO_32 else (x / TWO_32 + 1) * TWO_32;
    assert x - Int64(x) == if -TWO_63 <= x < TWO_63 then 0
                           else if x % TWO_64 < TWO_63 then x / TWO_64 * TWO_64 else (x / TWO_64 + 1) * TWO_64;
    MultipleModulo(x / TWO_32, TWO_32);
    MultipleModulo(x / TWO_32 + 1, TWO_32);
    MultipleModulo(x / TWO_64, TWO_64);
    MultipleModulo(x / TWO_64 + 1, TWO_64);
  }

  lemma WrapsTo(x: int, m: nat)
    requires m > 0
    ensures x == x / m * m + x % m && 0 <= x % m < m
    ensures 0 <= x < m ==> x % m == x
    ensures 0 - m <= x < 0 ==> x % m == x + m
  {
    if 0 <= x < m { DivModUnique(x, m, 0, x); }
    if 0 - m <= x < 0 { DivModUnique(x, m, -1, x + m); }
  }

  /** The divide-rounding-up helper that both programs define. */
  function CeilDiv(dividend: nat, divisor: nat): (r: nat)
    requires divisor > 0
  {
    (dividend + divisor - 1) / divisor
  }

  /** `CeilDiv` times the divisor: the alignment step of both layout formulas. */
  function RoundUp(n: nat, align: nat): (r: nat)
    requires align > 0
  {
    CeilDiv(n, align) * align
  }

  /** `RoundUp` is the least multiple of `align` that is not below `n`. */
  lemma RoundUpIsLeastMultiple(n: nat, align: nat)
    requires align > 0
    ensures n <= RoundUp(n, align) < n + align
    ensures RoundUp(n, align) % align == 0
    ensures forall q: nat :: n <= q * align ==> RoundUp(n, align) <= q * align
  {
    var m := n + align - 1;
    var c := m / align;
    assert m == c * align + m % align;
    assert (c - 1) * align == c * align - align;
    MultipleModulo(c, align);
    forall q: nat | n <= q * align
      ensures c * align <= q * align
    {
      if q < c {
        MulMonotone(q, c - 1, align);
      } else {
        MulMonotone(c, q, align);
      }
    }
  }

  lemma MultipleModulo(c: int, align: nat)
    requires align > 0
    ensures (c * align) % align == 0
  {
    DivModUnique(c * align, align, c, 0);
  }

  lemma RoundUpMonotone(m: nat, n: nat, align: nat)
    requires align > 0 && m <= n
    ensures RoundUp(m, align) <= RoundUp(n, align)
  {
    RoundUpIsLeastMultiple(m, align);
    RoundUpIsLeastMultiple(n, align);
    assert m <= CeilDiv(n, align) * align;
  }

  lemma MulMonotone(a: int, b: int, c: nat)
    requires a <= b
    ensures a * c <= b * c
  {
    assert (b - a) * c >= 0;
    assert (b - a) * c == b * c - a * c;
  }

  /** Quotient and remainder are determined by `n == q * d + r` and `0 <= r < d`. */
  lemma DivModUnique(n: int, d: nat, q: int, r: int)
    requires d > 0 && 0 <= r < d && n == q * d + r
    ensures n / d == q && n % d == r
  {
    var q', r' := n / d, n % d;
    assert n == q' * d + r';
    assert (q' + 1) * d == q' * d + d && (q + 1) * d == q * d + d;
    if q' < q {
      MulMonotone(q' + 1, q, d);
    } else if q < q' {
      MulMonotone(q + 1, q', d);
    }
  }

  /** The bit position reached by a byte address taken modulo `m` differs from the true one by whole wraps. */
  lemma WrappedPosition(data: nat, n: nat, m: nat) returns (k: nat)
    requires m > 0
    ensures 8 * ((data + n / 8) % m) + n % 8 == 8 * data + n - k * (8 * m)
  {
    var a := data + n / 8;
    k := a / m;
    assert a == k * m + a % m;
    assert k * (8 * m) == 8 * (k * m);
  }
}
