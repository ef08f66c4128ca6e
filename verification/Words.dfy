/** Signed 256-bit arithmetic in two's complement, as the virtual machine performs it on
    unbounded integers (avm/runtime.go). Stack values are unbounded there, so every function
    here is total on `int`; a value is a *word* only when it lies in [0, 2^256). */
module Words {

  const SIGN: int := 0x8000000000000000000000000000000000000000000000000000000000000000
  const MOD: int := 0x1_0000000000000000000000000000000000000000000000000000000000000000

  predicate IsWord(n: int) { 0 <= n < MOD }

  predicate IsSigned(n: int) { -SIGN <= n < SIGN }

  function ToSigned(n: int): int {
    if n >= SIGN then -(MOD - n) else n
  }

  function ToUnsigned(n: int): int {
    if n < 0 then MOD + n else n % MOD
  }

  function Add(a: int, b: int): int { ToUnsigned(ToSigned(a) + ToSigned(b)) }

  function Sub(a: int, b: int): int { ToUnsigned(ToSigned(a) - ToSigned(b)) }

  function Mul(a: int, b: int): int { ToUnsigned(ToSigned(a) * ToSigned(b)) }

  /** Go's big.Int.Div is Euclidean, like Dafny's `/`. */
  function Div(a: int, b: int): int {
    if ToSigned(b) == 0 then 0 else ToUnsigned(ToSigned(a) / ToSigned(b))
  }

  /** MOD works on the raw, unsigned operands. */
  function Rem(a: int, b: int): int { if b == 0 then 0 else a % b }

  function Less(a: int, b: int): bool { ToSigned(a) < ToSigned(b) }

  function Bit(b: bool): int { if b then 1 else 0 }

  function BitAnd(a: nat, b: nat): nat {
    if a == 0 || b == 0 then 0 else 2 * BitAnd(a / 2, b / 2) + (a % 2) * (b % 2)
  }

  function BitOr(a: nat, b: nat): nat
    decreases a + b
  {
    if a == 0 then b else if b == 0 then a
    else 2 * BitOr(a / 2, b / 2) + (if a % 2 + b % 2 > 0 then 1 else 0)
  }

  /** Division that drops the fraction, as the comment beside signedDiv describes it. */
  function Truncated(a: int, b: int): int
    requires b != 0
  {
    if a >= 0 then (if b > 0 then a / b else -(a / -b))
    else (if b > 0 then -(-a / b) else -a / -b)
  }

  // ---------------------------------------------------------------- representation

  lemma SignedRoundTrip(w: int)
    requires IsWord(w)
    ensures IsSigned(ToSigned(w)) && ToUnsigned(ToSigned(w)) == w
    ensures ToSigned(w) % MOD == w
  {
    ModShift(ToSigned(w), w, if w >= SIGN then -1 else 0);
  }

  lemma UnsignedRoundTrip(v: int)
    requires IsSigned(v)
    ensures IsWord(ToUnsigned(v)) && ToSigned(ToUnsigned(v)) == v
    ensures ToUnsigned(v) == v % MOD
  {
    ModShift(v, ToUnsigned(v), if v < 0 then -1 else 0);
  }

  /** `x` and the word `r` differ by `k` moduli, so `r` is the residue of `x`. */
  lemma ModShift(x: int, r: int, k: int)
    requires IsWord(r) && x == r + k * MOD
    ensures x % MOD == r
  {
    QuotientUnique(x, MOD, k, r);
  }

  /** The one wrap that toUnsigned256 performs is enough from -2^256 upwards, and only there. */
  lemma UnsignedIsResidue(n: int)
    ensures ToUnsigned(n) == n % MOD <==> n >= -MOD
    ensures IsWord(ToUnsigned(n)) <==> n >= -MOD
  {
    if -MOD <= n < 0 {
      ModShift(n, n + MOD, -1);
    }
  }

  // ---------------------------------------------------------------- the four operations

  lemma AddIsModular(a: int, b: int)
    requires IsWord(a) && IsWord(b)
    ensures Add(a, b) == (a + b) % MOD && IsWord(Add(a, b))
  {
    var s := ToSigned(a) + ToSigned(b);
    UnsignedIsResidue(s);
    Congruent(s, a + b, (if a >= SIGN then -1 else 0) + (if b >= SIGN then -1 else 0));
  }

  lemma SubIsModular(a: int, b: int)
    requires IsWord(a) && IsWord(b)
    ensures Sub(a, b) == (a - b) % MOD && IsWord(Sub(a, b))
  {
    var s := ToSigned(a) - ToSigned(b);
    UnsignedIsResidue(s);
    Congruent(s, a - b, (if a >= SIGN then -1 else 0) - (if b >= SIGN then -1 else 0));
  }

  /** Multiplication is modular exactly when the signed product stays above -2^256;
      below that a single wrap leaves a negative number, which is no word at all. */
  lemma MulIsModularExactly(a: int, b: int)
    requires IsWord(a) && IsWord(b)
    ensures Mul(a, b) == (a * b) % MOD <==> ToSigned(a) * ToSigned(b) >= -MOD
    ensures IsWord(Mul(a, b)) <==> ToSigned(a) * ToSigned(b) >= -MOD
  {
    var sa, sb := ToSigned(a), ToSigned(b);
    var ka, kb := if a >= SIGN then -1 else 0, if b >= SIGN then -1 else 0;
    UnsignedIsResidue(sa * sb);
    assert sa == a + ka * MOD && sb == b + kb * MOD;
    MulExpand(a, b, ka, kb);
    Congruent(sa * sb, a * b, a * kb + b * ka + ka * kb * MOD);
  }

  lemma MulExpand(a: int, b: int, ka: int, kb: int)
    ensures (a + ka * MOD) * (b + kb * MOD) == a * b + (a * kb + b * ka + ka * kb * MOD) * MOD
  {
    calc {
      (a + ka * MOD) * (b + kb * MOD);
      a * b + a * (kb * MOD) + (ka * MOD) * b + (ka * MOD) * (kb * MOD);
      { assert a * (kb * MOD) == (a * kb) * MOD; assert (ka * MOD) * b == (b * ka) * MOD;
        assert (ka * MOD) * (kb * MOD) == (ka * kb * MOD) * MOD; }
      a * b + (a * kb + b * ka + ka * kb * MOD) * MOD;
    }
  }

  lemma Congruent(x: int, y: int, k: int)
    requires x == y + k * MOD
    ensures x % MOD == y % MOD
  {
    var q := y / MOD;
    assert y == q * MOD + y % MOD;
    assert x == y % MOD + (q + k) * MOD;
    ModShift(x, y % MOD, q + k);
  }

  /** The quotient is Euclidean; it is the truncated one exactly when the dividend is
      non-negative or the division is exact. */
  lemma DivTruncatesExactly(a: int, b: int)
    requires IsWord(a) && IsWord(b) && b != 0
    ensures Div(a, b) == ToUnsigned(Truncated(ToSigned(a), ToSigned(b)))
      <==> ToSigned(a) >= 0 || ToSigned(a) % ToSigned(b) == 0
  {
    var x, y := ToSigned(a), ToSigned(b);
    EuclideanIsTruncatedExactly(x, y);
    UnsignedInjective(x / y, Truncated(x, y));
  }

  /** Quotients of distance at most one are told apart by toUnsigned256. */
  lemma UnsignedInjective(p: int, q: int)
    requires -SIGN <= p <= SIGN && -SIGN <= q <= SIGN && -1 <= p - q <= 1
    ensures ToUnsigned(p) == ToUnsigned(q) <==> p == q
  {
  }

  lemma EuclideanIsTruncatedExactly(x: int, y: int)
    requires y != 0 && -SIGN <= x < SIGN
    ensures x / y == Truncated(x, y) <==> x >= 0 || x % y == 0
    ensures -1 <= x / y - Truncated(x, y) <= 1
    ensures -SIGN <= x / y <= SIGN && -SIGN <= Truncated(x, y) <= SIGN
  {
    var m, u := if y > 0 then y else -y, if x >= 0 then x else -x;
    var p, r := u / m, u % m;
    SmallQuotient(u, m);
    if x >= 0 {
      QuotientUnique(x, y, if y > 0 then p else -p, r);
    } else {
      Below(x, y, m, p, r);
    }
  }

  /** A negative dividend: rounding down differs from truncation by one unless the remainder is 0. */
  lemma Below(x: int, y: int, m: int, p: int, r: int)
    requires x < 0 && y != 0 && m == (if y > 0 then y else -y) && -x == p * m + r && 0 <= r < m
    ensures r == 0 ==> x % y == 0 && x / y == if y > 0 then -p else p
    ensures r != 0 ==> x % y == m - r && x / y == if y > 0 then -p - 1 else p + 1
  {
    if r == 0 {
      QuotientUnique(x, y, if y > 0 then -p else p, 0);
    } else {
      QuotientUnique(x, y, if y > 0 then -p - 1 else p + 1, m - r);
    }
  }

  lemma SmallQuotient(u: nat, m: int)
    requires m >= 1
    ensures 0 <= u / m <= u
    ensures u % m != 0 ==> u / m < u
  {
    var p := u / m;
    assert u == p * m + u % m;
    Scale(p, m);
  }

  lemma Scale(d: int, m: int)
    requires m > 0
    ensures d >= 1 ==> d * m >= m && d * m >= d
    ensures d <= -1 ==> d * m <= -m && d * m <= d
  {
    if d >= 1 {
      assert d * m == (d - 1) * m + m == d * (m - 1) + d;
    } else if d <= -1 {
      assert d * m == (d + 1) * m - m == d * (m - 1) + d;
    }
  }

  lemma QuotientUnique(x: int, y: int, q: int, r: int)
    requires y != 0 && 0 <= r < (if y > 0 then y else -y) && x == q * y + r
    ensures x / y == q && x % y == r
  {
    var m := if y > 0 then y else -y;
    var d := x / y - q;
    assert x == (x / y) * y + x % y;
    assert d * y == r - x % y;
    Scale(if y > 0 then d else -d, m);
    assert d * y == (if y > 0 then d else -d) * m;
  }

  // ---------------------------------------------------------------- the remainder

  /** MOD takes raw operands and DIV signed ones. Where the two agree. */
  predicate RemainderAgrees(a: int, b: int)
    requires b != 0
  {
    if b < SIGN then a < SIGN || MOD % b == 0
    else if a < SIGN then a < MOD - b
    else a >= b
  }

  /** MOD is the remainder of DIV if and only if: both operands are non-negative; or the dividend is negative and the divisor
      divides 2^256; or only the divisor is negative and larger in size than the dividend; or both are negative and the
      divisor is not smaller in size. */
  lemma RemainderExactly(a: int, b: int)
    requires IsWord(a) && IsWord(b) && b != 0
    ensures ToSigned(a) == ToSigned(b) * (ToSigned(a) / ToSigned(b)) + Rem(a, b) <==> RemainderAgrees(a, b)
  {
    var x, y := ToSigned(a), ToSigned(b);
    assert x == y * (x / y) + x % y;
    if b < SIGN {
      if a >= SIGN { SameRemainder(a, MOD, b); }
    } else if a < SIGN {
      NegativeDivisor(a, MOD - b);
      QuotientUnique(a, b, 0, a);
    } else {
      BothNegative(a, b);
    }
  }

  lemma SameRemainder(a: int, m: int, b: int)
    requires b > 0
    ensures (a - m) % b == a % b <==> m % b == 0
  {
    var q, r, k, t := a / b, a % b, m / b, m % b;
    assert a == b * q + r && m == b * k + t;
    if t == 0 {
      assert a - m == b * (q - k) + r;
      QuotientUnique(a - m, b, q - k, r);
    } else if r >= t {
      assert a - m == b * (q - k) + (r - t);
      QuotientUnique(a - m, b, q - k, r - t);
    } else {
      assert a - m == b * (q - k - 1) + (b + r - t);
      QuotientUnique(a - m, b, q - k - 1, b + r - t);
    }
  }

  lemma NegativeDivisor(a: int, n: int)
    requires a >= 0 && n > 0
    ensures a % -n == a <==> a < n
  {
    if a < n { QuotientUnique(a, -n, 0, a); }
  }

  lemma BothNegative(a: int, b: int)
    requires SIGN <= a < MOD && SIGN <= b < MOD
    ensures (a - MOD) % (b - MOD) == a % b <==> a >= b
  {
    if a >= b {
      QuotientUnique(a, b, 1, a - b);
      QuotientUnique(a - MOD, b - MOD, 1, a - b);
    } else {
      QuotientUnique(a, b, 0, a);
    }
  }
}
