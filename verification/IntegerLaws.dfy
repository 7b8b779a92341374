/** Which integers of a body the numeric getters return unchanged, and how far off the others are. */
module IntegerLaws {
  import opened Bytes
  import opened Numbers
  import opened Grammar
  import opened Lookup
  import opened Fields

  /** The first number a body has under a key is written as the plain integer n. */
  predicate HoldsInt(body: string, key: string, n: int) {
    && IsObject(body)
    && var v := Find(Parse(body).value, key, ANumber);
       v.Some? && IsPlain(v.value.x) && PlainValue(v.value.x) == n
  }

  /** get_int converts a plain integer by rounding it to binary64. */
  lemma IntFieldRounds(body: string, key: string, n: int, out: int64, cast: string -> int64)
    requires HoldsInt(body, key, n) && Abs(n) <= TWO63 - 513
    ensures IntField(body, key, out, cast) == (true, Binary64(n))
  {
    hide Find, Parse, Binary64, IntField;
    IntFieldIsFind(body, key, out, cast);
    EmptyHasNone(body, key, ANumber);
  }

  /**
   get_int returns n itself exactly when n has at most 53 significant bits, in particular up
   to 2^53; up to 2^63 - 513 it is off by at most 512.
   */
  lemma GetIntExactIff(body: string, key: string, n: int, out: int64, cast: string -> int64)
    requires HoldsInt(body, key, n) && Abs(n) <= TWO63 - 513
    ensures IntField(body, key, out, cast).0
    ensures var v := IntField(body, key, out, cast).1;
            && (v == n <==> Fits53(Abs(n)))
            && (Abs(n) <= TWO53 ==> v == n)
            && Abs(v - n) <= 512
  {
    hide HoldsInt, IntField, Fits53, Binary64;
    IntFieldRounds(body, key, n, out, cast);
    ZeroFits();
    Binary64Nearest(n, 0);
    if Fits53(Abs(n)) {
      Binary64Nearest(n, Abs(n));
      SignKept(n);
    }
    if Abs(n) <= TWO53 { Binary64Exact(n); }
    Binary64Error(n);
  }

  lemma ZeroFits()
    ensures Fits53(0)
  {
    assert Scaled(0, 0, 0);
  }

  /** get_int keeps the order of integers. */
  lemma GetIntMonotone(a: string, b: string, key: string, m: int, n: int, out: int64, cast: string -> int64)
    requires HoldsInt(a, key, m) && HoldsInt(b, key, n) && m <= n && Abs(m) <= TWO63 - 513 && Abs(n) <= TWO63 - 513
    ensures IntField(a, key, out, cast).1 <= IntField(b, key, out, cast).1
  {
    hide HoldsInt, IntField, Binary64;
    IntFieldRounds(a, key, m, out, cast);
    IntFieldRounds(b, key, n, out, cast);
    Binary64Monotone(m, n);
  }

  /** 2^53 is where exactness ends: the next integer is a tie, and goes to the even side. */
  lemma FirstInexact()
    ensures Binary64(TWO53 + 1) == TWO53 && Binary64(TWO53 + 3) == TWO53 + 4
    ensures Binary64(-TWO53 - 1) == -TWO53
  {
    assert Pow2(1) == 2;
    assert RoundFrom(TWO53 + 1, 0) == RoundFrom(TWO53 + 1, 1) == RoundTo(TWO53 + 1, 2);
    assert RoundFrom(TWO53 + 3, 0) == RoundFrom(TWO53 + 3, 1) == RoundTo(TWO53 + 3, 2);
  }

  /** Between 2^(52+e) and 2^(53+e) the unit is 2^e. */
  lemma UnitOfBinade(n: nat, e: nat)
    requires e == 0 || TWO53 * Pow2(e - 1) <= n
    requires n < TWO53 * Pow2(e)
    ensures Binary64(n) == RoundTo(n, Pow2(e))
  {
    hide RoundTo;
    RoundFromUnit(n, 0, e);
  }

  lemma {:induction false} RoundFromUnit(n: nat, d: nat, e: nat)
    requires d <= e && (e == 0 || TWO53 * Pow2(e - 1) <= n) && n < TWO53 * Pow2(e)
    ensures RoundFrom(n, d) == RoundTo(n, Pow2(e))
    decreases e - d
  {
    hide RoundTo;
    if d < e {
      Pow2Monotone(d, e - 1);
      Pow2Above(d);
      RoundFromUnit(n, d + 1, e);
    }
  }

  /** An integer halfway between two values of its binade goes to the even one. */
  lemma HalfwayIsEven(n: nat, e: nat)
    requires e > 0 && TWO53 * Pow2(e - 1) <= n < TWO53 * Pow2(e)
    requires 2 * (n % Pow2(e)) == Pow2(e)
    ensures exists k: nat :: Binary64(n) == (2 * k) * Pow2(e)
  {
    UnitOfBinade(n, e);
    var q := n / Pow2(e);
    if q % 2 == 0 {
      assert RoundTo(n, Pow2(e)) == (2 * (q / 2)) * Pow2(e);
    } else {
      assert RoundTo(n, Pow2(e)) == (2 * ((q + 1) / 2)) * Pow2(e);
    }
  }

  /** get_uint64 returns every run of digits up to 2^64 - 1 exactly, and saturates above. */
  lemma GetUint64Exact(body: string, key: string, out: uint64)
    requires IsObject(body)
    requires var v := Find(Parse(body).value, key, AUnsigned); v.Some? && AllIn(v.value.x, Digit)
    ensures var n := NatValue(Find(Parse(body).value, key, AUnsigned).value.x);
            UintField(body, key, out) == (true, if n < TWO64 then n else TWO64 - 1)
  {
    hide Find, Parse, UintField, NatValue;
    UintFieldIsFind(body, key, out);
    EmptyHasNone(body, key, AUnsigned);
  }
}
