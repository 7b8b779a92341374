/**
 Decimal text and the C library conversions the client calls on it: snprintf with %lld,
 %llu or %zu, strtoll, strtoull, and strtod on integers.
 */
module Numbers {
  import opened Bytes

  const TWO53: int := 0x20_0000_0000_0000
  const TWO63: int := 0x8000_0000_0000_0000
  const TWO64: int := 0x1_0000_0000_0000_0000

  type int64 = n: int | -TWO63 <= n < TWO63
  type uint64 = n: int | 0 <= n < TWO64
  type uint8 = n: int | 0 <= n < 0x100
  type uint16 = n: int | 0 <= n < 0x1_0000
  type uint32 = n: int | 0 <= n < 0x1_0000_0000

  function Abs(n: int): nat { if n < 0 then -n else n }

  // ---- Decimal text ----

  function NatText(n: nat): (x: string)
    ensures x != "" && AllIn(x, Digit)
  {
    var last := ('0' as int + n % 10) as char;
    if n < 10 then [last] else NatText(n / 10) + [last]
  }

  function IntText(n: int): string {
    if n < 0 then "-" + NatText(-n) else NatText(n)
  }

  function DigitValue(c: char): nat
    requires In(c, Digit)
  {
    c as int - '0' as int
  }

  function NatValue(x: string): (v: int)
    requires AllIn(x, Digit)
    ensures v >= 0
  {
    if x == "" then 0
    else
      NatValue(x[..|x| - 1]) * 10 + DigitValue(x[|x| - 1])
  }

  lemma {:induction false} NatTextInverse(n: nat)
    ensures NatValue(NatText(n)) == n
  {
    var x := NatText(n);
    if n < 10 {
      assert x[..0] == "";
      assert NatValue(x[..0]) == 0;
    } else {
      NatTextInverse(n / 10);
      assert x[..|x| - 1] == NatText(n / 10);
    }
  }

  /** An optional minus sign and at least one digit. */
  predicate IsPlain(x: string) {
    if x != "" && x[0] == '-' then |x| > 1 && AllIn(x[1..], Digit)
    else x != "" && AllIn(x, Digit)
  }

  function PlainValue(x: string): int
    requires IsPlain(x)
  {
    if x[0] == '-' then -NatValue(x[1..]) else NatValue(x)
  }

  lemma IntTextPlain(n: int)
    ensures IsPlain(IntText(n)) && PlainValue(IntText(n)) == n
  {
    NatTextInverse(if n < 0 then -n else n);
    if n < 0 {
      assert IntText(n)[1..] == NatText(-n);
    } else {
      assert In(NatText(n)[0], Digit);
    }
  }

  // ---- strtoll and strtoull ----

  function Clamp(n: int): int64 {
    if n < -TWO63 then -TWO63 else if n >= TWO63 then TWO63 - 1 else n
  }

  /** strtoll in base 10: an optional sign, then as many digits as there are; saturating. */
  function Strtoll(x: string): int64 {
    var sign := if x != "" && (x[0] == '-' || x[0] == '+') then 1 else 0;
    var digits := x[sign..Run(x, sign, Digit)];
    Clamp(NatValue(digits) * (if sign == 1 && x[0] == '-' then -1 else 1))
  }

  lemma StrtollPlain(x: string)
    requires IsPlain(x)
    ensures Strtoll(x) == Clamp(PlainValue(x))
  {
    var sign := if x[0] == '-' then 1 else 0;
    assert x[0] != '-' ==> In(x[0], Digit);
    assert x[sign..sign + |x[sign..]|] == x[sign..];
    assert x[0] != '-' ==> x[0..] == x;
    RunExact(x, sign, x[sign..], Digit);
  }

  lemma StrtollInverse(n: int64)
    ensures Strtoll(IntText(n)) == n
  {
    IntTextPlain(n);
    StrtollPlain(IntText(n));
  }

  /** strtoull on a run of digits; None if it would stop before the end of the text. */
  function Strtoull(x: string): Option<uint64> {
    if !AllIn(x, Digit) then None
    else if NatValue(x) >= TWO64 then Some(TWO64 - 1)
    else Some(NatValue(x))
  }

  // ---- strtod on integers: rounding to binary64 (section 4.3.1 of IEEE 754-2019) ----

  /** n to the nearest multiple of u, ties to the even multiple. */
  function RoundTo(n: nat, u: nat): nat
    requires u > 0
  {
    var q, r := n / u, n % u;
    if 2 * r < u || (2 * r == u && q % 2 == 0) then q * u else (q + 1) * u
  }

  function Pow2(e: nat): (p: nat)
    ensures p > 0
  {
    if e == 0 then 1 else 2 * Pow2(e - 1)
  }

  /** Rounds to 53 significant bits, starting from the unit 2^e. */
  function RoundFrom(n: nat, e: nat): nat
    decreases n - e
  {
    if n < TWO53 * Pow2(e) then RoundTo(n, Pow2(e))
    else
      Pow2Above(e);
      RoundFrom(n, e + 1)
  }

  lemma Pow2Above(e: nat)
    ensures Pow2(e) > e
  {}

  function Binary64(n: int): int {
    RoundFrom(Abs(n), 0) * (if n < 0 then -1 else 1)
  }

  /** m has at most 53 significant bits. */
  ghost predicate Fits53(m: nat) {
    exists q: nat, e: nat :: Scaled(m, q, e)
  }

  predicate Scaled(m: nat, q: nat, e: nat) {
    q < TWO53 && m == q * Pow2(e)
  }

  lemma RoundToNearest(n: nat, u: nat, k: nat)
    requires u > 0
    ensures Abs(RoundTo(n, u) - n) <= Abs(k * u - n)
    ensures 2 * Abs(RoundTo(n, u) - n) <= u
  {
    hide RoundTo;
    RoundToDistance(n, u);
    MultiplesAway(n, u, k);
  }

  lemma RoundToDistance(n: nat, u: nat)
    requires u > 0
    ensures Abs(RoundTo(n, u) - n) == if 2 * (n % u) <= u then n % u else u - n % u
  {
    var q, r := n / u, n % u;
    assert n == q * u + r;
    assert (q + 1) * u == q * u + u;
  }

  /** Every multiple of u is at least as far from n as one of its two neighbours. */
  lemma MultiplesAway(n: nat, u: nat, k: nat)
    requires u > 0
    ensures Abs(k * u - n) >= n % u || Abs(k * u - n) >= u - n % u
  {
    var q, r := n / u, n % u;
    assert n == q * u + r;
    if k <= q {
      ProductMonotone(k, q, u, u);
    } else {
      ProductMonotone(q + 1, k, u, u);
      assert (q + 1) * u == q * u + u;
    }
  }

  lemma {:induction false} Pow2Multiple(a: nat, b: nat)
    requires a <= b
    ensures exists m: nat :: Pow2(b) == m * Pow2(a)
    decreases b - a
  {
    if a == b {
      assert Pow2(b) == 1 * Pow2(a);
    } else {
      Pow2Multiple(a, b - 1);
      var m: nat :| Pow2(b - 1) == m * Pow2(a);
      assert Pow2(b) == (2 * m) * Pow2(a);
    }
  }

  lemma {:induction false} Pow2Monotone(a: nat, b: nat)
    requires a <= b
    ensures Pow2(a) <= Pow2(b)
    decreases b - a
  {
    if a < b { Pow2Monotone(a, b - 1); }
  }

  /** The rounded value fits in 53 bits and no value that does is nearer. */
  lemma {:induction false} RoundFromNearest(n: nat, e: nat, m: nat)
    requires e == 0 || TWO53 * Pow2(e - 1) <= n
    requires Fits53(m)
    ensures Fits53(RoundFrom(n, e))
    ensures Abs(RoundFrom(n, e) - n) <= Abs(m - n)
    decreases n - e
  {
    if n < TWO53 * Pow2(e) {
      RoundedFits(n, e);
      RoundedNearest(n, e, m);
    } else {
      Pow2Above(e);
      RoundFromNearest(n, e + 1, m);
    }
  }

  lemma RoundedNearest(n: nat, e: nat, m: nat)
    requires e == 0 || TWO53 * Pow2(e - 1) <= n
    requires Fits53(m)
    ensures Abs(RoundTo(n, Pow2(e)) - n) <= Abs(m - n)
  {
    hide RoundTo;
    var u := Pow2(e);
    var q: nat, d: nat :| Scaled(m, q, d);
    if e <= d {
      Pow2Multiple(e, d);
      var k: nat :| Pow2(d) == k * u;
      assert m == (q * k) * u by { ProductAssociates(q, k, u); }
      RoundToNearest(n, u, q * k);
    } else {
      Pow2Monotone(d, e - 1);
      ProductMonotone(q, TWO53, Pow2(d), Pow2(e - 1));
      assert TWO53 * Pow2(e - 1) == (TWO53 / 2) * u;
      RoundToNearest(n, u, TWO53 / 2);
    }
  }

  lemma ProductAssociates(a: nat, b: nat, c: nat)
    ensures a * (b * c) == (a * b) * c
  {}

  lemma ProductMonotone(a: nat, b: nat, c: nat, d: nat)
    requires a <= b && c <= d
    ensures a * c <= b * d
  {
    assert a * c <= b * c;
    assert b * c <= b * d;
  }

  lemma RoundedFits(n: nat, e: nat)
    requires n < TWO53 * Pow2(e)
    ensures Fits53(RoundTo(n, Pow2(e)))
  {
    hide RoundTo, Pow2, Fits53;
    var u := Pow2(e);
    var q := n / u;
    RoundToNeighbour(n, u);
    QuotientBelow(n, TWO53, u);
    if RoundTo(n, u) == q * u {
      MultipleFits(q, e);
    } else {
      MultipleFits(q + 1, e);
    }
  }

  lemma MultipleFits(q: nat, e: nat)
    requires q <= TWO53
    ensures Fits53(q * Pow2(e))
  {
    if q < TWO53 {
      assert Scaled(q * Pow2(e), q, e);
    } else {
      ProductAssociates(TWO53 / 2, 2, Pow2(e));
      assert Scaled(q * Pow2(e), TWO53 / 2, e + 1);
    }
  }

  lemma RoundToNeighbour(n: nat, u: nat)
    requires u > 0
    ensures RoundTo(n, u) == (n / u) * u || RoundTo(n, u) == (n / u + 1) * u
  {}

  lemma QuotientBelow(n: nat, b: nat, u: nat)
    requires u > 0 && n < b * u
    ensures n / u < b
  {
    var q := n / u;
    assert n == q * u + n % u;
    if q >= b { ProductMonotone(b, q, u, u); }
  }

  /** Binary64 is rounding to nearest: the result fits and nothing that fits is nearer. */
  lemma Binary64Nearest(n: int, m: nat)
    requires Fits53(m)
    ensures Fits53(Abs(Binary64(n)))
    ensures Abs(Abs(Binary64(n)) - Abs(n)) <= Abs(m - Abs(n))
  {
    RoundFromNearest(Abs(n), 0, m);
  }

  lemma Binary64Exact(n: int)
    requires Abs(n) <= TWO53
    ensures Binary64(n) == n
  {
    if Abs(n) < TWO53 {
      assert Scaled(Abs(n), Abs(n), 0);
    } else {
      assert Scaled(Abs(n), TWO53 / 2, 1);
    }
    Binary64Nearest(n, Abs(n));
    SignKept(n);
  }

  lemma SignKept(n: int)
    ensures n >= 0 ==> Binary64(n) >= 0
    ensures n <= 0 ==> Binary64(n) <= 0
  {}

  lemma Binary64Monotone(a: int, b: int)
    requires a <= b
    ensures Binary64(a) <= Binary64(b)
  {
    SignKept(a);
    SignKept(b);
    if 0 <= a {
      RoundMonotone(a, b);
    } else if b <= 0 {
      RoundMonotone(-b, -a);
    }
  }

  lemma RoundMonotone(a: nat, b: nat)
    requires a <= b
    ensures RoundFrom(a, 0) <= RoundFrom(b, 0)
  {
    assert Scaled(0, 0, 0);
    RoundFromNearest(a, 0, 0);
    RoundFromNearest(b, 0, 0);
    RoundFromNearest(a, 0, RoundFrom(b, 0));
    RoundFromNearest(b, 0, RoundFrom(a, 0));
  }

  /** Below 2^63 the unit is at most 1024, so the error is at most 512. */
  lemma Binary64Error(n: int)
    requires Abs(n) <= TWO63 - 513
    ensures Abs(Binary64(n) - n) <= 512
    ensures -TWO63 < Binary64(n) < TWO63
  {
    RoundFromError(Abs(n), 0);
    SignKept(n);
    assert Scaled(TWO63 - 1024, TWO53 - 1, 10) by { assert Pow2(10) == 1024 by { assert Pow2(5) == 32; } }
    if Abs(n) >= TWO63 - 1024 {
      Binary64Nearest(n, TWO63 - 1024);
    }
  }

  lemma {:induction false} RoundFromError(n: nat, e: nat)
    requires e <= 10 && n < TWO63
    ensures Abs(RoundFrom(n, e) - n) <= 512
    decreases n - e
  {
    Pow2Monotone(e, 10);
    assert Pow2(10) == 1024 by { assert Pow2(5) == 32; }
    if n < TWO53 * Pow2(e) {
      RoundToNearest(n, Pow2(e), 0);
    } else {
      Pow2Above(e);
      assert e != 10;
      RoundFromError(n, e + 1);
    }
  }
}
