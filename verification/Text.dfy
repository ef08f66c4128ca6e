/** Go strings and the number formats the repository prints and parses: byte strings, decimal
    and hexadecimal digits, big-endian bytes. */
module Text {

  datatype Option<+T> = None | Some(value: T)

  type Byte = b: int | 0 <= b < 256

  /** A Go string at run time is a byte string. */
  type Bytes = seq<Byte>

  const TWO63: int := 0x8000_0000_0000_0000
  const TWO64: int := 0x1_0000_0000_0000_0000

  function Abs(n: int): nat { if n < 0 then -n else n }

  /** big.Int.Uint64: the low 64 bits of the magnitude. */
  function Low64(n: int): nat { Abs(n) % TWO64 }

  /** Conversion of a uint64 to int or int64. */
  function Wrap(n: int): int {
    var u := n % TWO64;
    if u >= TWO63 then u - TWO64 else u
  }

  /** big.Int.Int64. */
  function Int64(n: int): int {
    var u: int := Low64(n);
    Wrap(if n < 0 then -u else u)
  }

  lemma SmallWrap(k: int)
    requires 0 <= k < TWO63
    ensures Low64(k) == k && Wrap(k) == k
  {
  }

  lemma QuotientIs(r: nat, a: nat, b: nat)
    requires a > 0
    ensures r / a == b <==> a * b <= r < a * b + a
  {
    var q := r / a;
    assert r == a * q + r % a;
    if q < b { assert a * (q + 1) <= a * b; } else if q > b { assert a * (b + 1) <= a * q; }
  }

  lemma Product(d: int, q: int)
    requires d > 0
    ensures q < 0 ==> d * q <= -d
    ensures q >= 0 ==> d * q >= q
  {
  }

  /** Quotient of natural numbers. */
  function Over(n: nat, d: nat): (r: nat)
    requires d > 0
    ensures r == n / d <= n
  {
    Product(d, n / d);
    assert n == d * (n / d) + n % d;
    n / d
  }

  // ---------------------------------------------------------------- big-endian bytes

  function FromBytes(bs: Bytes): nat {
    if bs == [] then 0 else 256 * FromBytes(bs[..|bs| - 1]) + bs[|bs| - 1]
  }

  function ToBytes(n: nat, k: nat): (r: Bytes)
    ensures |r| == k
  {
    if k == 0 then [] else ToBytes(n / 256, k - 1) + [n % 256]
  }

  /** One of those bytes, counted from the low end. */
  function ByteOf(n: nat, i: nat): Byte { if i == 0 then n % 256 else ByteOf(n / 256, i - 1) }

  lemma {:induction false} ByteOfBytes(n: nat, k: nat, j: nat)
    requires j < k
    ensures ToBytes(n, k)[j] == ByteOf(n, k - 1 - j)
  {
    if j < k - 1 { ByteOfBytes(n / 256, k - 1, j); }
  }

  function Pow256(k: nat): (r: nat)
    ensures r > 0
  {
    if k == 0 then 1 else 256 * Pow256(k - 1)
  }

  lemma {:induction false} BytesRoundTrip(bs: Bytes)
    ensures ToBytes(FromBytes(bs), |bs|) == bs
    ensures FromBytes(bs) < Pow256(|bs|)
  {
    if bs != [] {
      var front, last := bs[..|bs| - 1], bs[|bs| - 1];
      BytesRoundTrip(front);
      assert FromBytes(bs) / 256 == FromBytes(front) && FromBytes(bs) % 256 == last;
      assert bs == front + [last];
    }
  }

  // ---------------------------------------------------------------- digits

  function DigitOf(c: char): int {
    if '0' <= c <= '9' then c as int - '0' as int
    else if 'a' <= c <= 'f' then c as int - 'a' as int + 10
    else if 'A' <= c <= 'F' then c as int - 'A' as int + 10
    else 16
  }

  predicate AllDigits(s: string, base: int) { forall i :: 0 <= i < |s| ==> DigitOf(s[i]) < base }

  function Value(s: string, base: nat): int {
    if s == "" then 0 else base * Value(s[..|s| - 1], base) + DigitOf(s[|s| - 1])
  }

  /** big.Int.SetString with a base of 10 or 16: an optional sign, then at least one digit. */
  function ParseSigned(s: string, base: nat): Option<int> {
    var body := if s != "" && (s[0] == '-' || s[0] == '+') then s[1..] else s;
    if body == "" || !AllDigits(body, base) then None
    else Some(if s[0] == '-' then -Value(body, base) else Value(body, base))
  }

  function HexChar(d: nat): char
    requires d < 16
  {
    if d < 10 then '0' + d as char else 'a' + (d - 10) as char
  }

  function HexDigits(n: nat): string {
    if n < 16 then [HexChar(n)] else HexDigits(n / 16) + [HexChar(n % 16)]
  }

  function DecDigitText(n: nat): string {
    if n < 10 then [HexChar(n)] else DecDigitText(n / 10) + [HexChar(n % 10)]
  }

  function DecText(n: int): string { if n < 0 then "-" + DecDigitText(-n) else DecDigitText(n) }

  function HexOfBytes(bs: Bytes): string {
    if bs == [] then "" else HexOfBytes(bs[..|bs| - 1]) + [HexChar(bs[|bs| - 1] / 16), HexChar(bs[|bs| - 1] % 16)]
  }

  lemma HexCharDigit(d: nat)
    requires d < 16
    ensures DigitOf(HexChar(d)) == d && HexChar(d) != '-' && HexChar(d) != '+'
  {
  }

  predicate Unsigned(s: string) { s != "" && s[0] != '-' && s[0] != '+' }

  lemma {:induction false} HexDigitsParse(n: nat)
    ensures Unsigned(HexDigits(n)) && AllDigits(HexDigits(n), 16) && Value(HexDigits(n), 16) == n
    ensures ParseSigned(HexDigits(n), 16) == Some(n)
  {
    HexCharDigit(n % 16);
    if n < 16 {
      assert HexDigits(n)[..0] == "";
    } else {
      HexDigitsParse(n / 16);
      var front := HexDigits(n / 16);
      assert HexDigits(n)[..|front|] == front;
    }
  }

  lemma {:induction false} DecDigitTextParse(n: nat)
    ensures Unsigned(DecDigitText(n)) && AllDigits(DecDigitText(n), 10) && Value(DecDigitText(n), 10) == n
  {
    HexCharDigit(n % 10);
    if n < 10 {
      assert DecDigitText(n)[..0] == "";
    } else {
      DecDigitTextParse(n / 10);
      var front := DecDigitText(n / 10);
      assert DecDigitText(n)[..|front|] == front;
    }
  }

  /** Decimal text reads back, and is never mistaken for hexadecimal. */
  lemma DecTextParse(n: int)
    ensures DecText(n) != "" && ParseSigned(DecText(n), 10) == Some(n)
    ensures |DecText(n)| >= 2 ==> DecText(n)[..2] != "0x"
  {
    DecDigitTextParse(if n < 0 then -n else n);
    var t := DecText(n);
    if n < 0 {
      assert t[1..] == DecDigitText(-n);
      assert t[0] == '-';
    }
    assert |t| >= 2 ==> t[1] != 'x' && t[..2][1] == t[1];
    assert "0x"[1] == 'x';
  }

  lemma ValueSnoc(s: string, c: char, base: nat)
    ensures Value(s + [c], base) == base * Value(s, base) + DigitOf(c)
  {
    assert (s + [c])[..|s|] == s;
  }

  /** One more byte at the end. */
  lemma TwoHexDigits(h: string, last: Byte)
    requires AllDigits(h, 16)
    ensures var t := h + [HexChar(last / 16), HexChar(last % 16)];
      AllDigits(t, 16) && Value(t, 16) == 256 * Value(h, 16) + last && (h == "" || Unsigned(h) ==> Unsigned(t))
  {
    var hi, lo := HexChar(last / 16), HexChar(last % 16);
    HexCharDigit(last / 16);
    HexCharDigit(last % 16);
    ValueSnoc(h, hi, 16);
    ValueSnoc(h + [hi], lo, 16);
    assert h + [hi, lo] == h + [hi] + [lo];
  }

  lemma {:induction false} HexOfBytesParse(bs: Bytes)
    ensures |HexOfBytes(bs)| == 2 * |bs| && AllDigits(HexOfBytes(bs), 16)
    ensures Value(HexOfBytes(bs), 16) == FromBytes(bs)
    ensures bs != [] ==> Unsigned(HexOfBytes(bs)) && ParseSigned(HexOfBytes(bs), 16) == Some(FromBytes(bs))
  {
    if bs != [] {
      var front, last := bs[..|bs| - 1], bs[|bs| - 1];
      HexOfBytesParse(front);
      TwoHexDigits(HexOfBytes(front), last);
    }
  }

  // ---------------------------------------------------------------- decimal bytes

  const MINUS: Byte := 45

  function DecDigits(n: nat): Bytes {
    if n < 10 then [48 + n] else DecDigits(n / 10) + [48 + n % 10]
  }

  /** "%d" of a number, as bytes. */
  function Decimal(n: int): Bytes { if n < 0 then [MINUS] + DecDigits(-n) else DecDigits(n) }

  predicate IsDigit(b: Byte) { 48 <= b <= 57 }

  function DecValue(s: Bytes): int {
    if s == [] then 0 else 10 * DecValue(s[..|s| - 1]) + (s[|s| - 1] as int - 48)
  }

  lemma {:induction false} DecDigitsParse(n: nat)
    ensures DecDigits(n) != [] && (forall i :: 0 <= i < |DecDigits(n)| ==> IsDigit(DecDigits(n)[i]))
    ensures DecValue(DecDigits(n)) == n
  {
    if n >= 10 {
      DecDigitsParse(n / 10);
      var front := DecDigits(n / 10);
      assert DecDigits(n)[..|front|] == front;
    } else {
      assert DecDigits(n)[..0] == [];
    }
  }

  lemma {:induction false} DecDigitsLength(n: nat, k: nat)
    requires n < Pow10(k) && k >= 1
    ensures |DecDigits(n)| <= k
  {
    if n >= 10 {
      DecDigitsLength(n / 10, k - 1);
    }
  }

  function Pow10(k: nat): nat { if k == 0 then 1 else 10 * Pow10(k - 1) }
}
