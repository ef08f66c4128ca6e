/** Compact targets and retargeting (utils/convert.go, blockchain/difficulty.go, blockchain/work.go). */
module Compact {
  import opened Text

  const TWO15: nat := 0x8000
  const TWO23: nat := 0x80_0000
  const TWO24: nat := 0x100_0000
  const TWO32: nat := 0x1_0000_0000

  type Bits = n: int | 0 <= n < TWO32

  /** CompactToBig: exponent in the top byte, a 23-bit mantissa, the bit between them ignored. */
  function Decode(bits: Bits): nat { Scaled(bits / TWO24, bits % TWO23) }

  function Scaled(exponent: nat, mantissa: nat): nat {
    if exponent > 3 then mantissa * Pow256(exponent - 3) else Over(mantissa, Pow256(3 - exponent))
  }

  function ByteLength(n: nat): nat { if n == 0 then 0 else 1 + ByteLength(n / 256) }

  /** The first three bytes of a number of `len` bytes, zeros appended to a shorter one. */
  function TopBytes(n: nat, len: nat): nat { if len >= 3 then Over(n, Pow256(len - 3)) else n * Pow256(3 - len) }

  function Mantissa(n: nat): nat { var m := TopBytes(n, ByteLength(n)); if m >= TWO23 then m / 256 else m }

  function Exponent(n: nat): nat { if TopBytes(n, ByteLength(n)) >= TWO23 then ByteLength(n) + 1 else ByteLength(n) }

  /** BigToCompact, in uint32 arithmetic. */
  function Encode(target: int): Bits {
    if target <= 0 then 0 else Pack(Exponent(target), Mantissa(target))
  }

  /** What encoding keeps of a target, told without bytes: 23 significant bits, in steps of whole bytes. */
  function Truncated(n: nat): nat { if n < TWO23 then n else 256 * Truncated(n / 256) }

  // ---------------------------------------------------------------- byte lengths

  lemma {:induction false} LengthBounds(n: nat)
    requires n > 0
    ensures Pow256(ByteLength(n) - 1) <= n < Pow256(ByteLength(n))
  {
    if n >= 256 {
      LengthBounds(n / 256);
      var p, q := Pow256(ByteLength(n) - 2), Pow256(ByteLength(n) - 1);
      assert q == 256 * p && Pow256(ByteLength(n)) == 256 * q;
    } else {
      assert ByteLength(n) == 1 && Pow256(1) == 256;
    }
  }

  lemma SmallLengths(n: nat)
    requires 0 < n < TWO24
    ensures ByteLength(n) == if n < 256 then 1 else if n < 65536 then 2 else 3
  {
    assert n >= 256 ==> ByteLength(n) == 1 + ByteLength(n / 256);
    assert n >= 65536 ==> ByteLength(n / 256) == 1 + ByteLength(n / 256 / 256) && 0 < n / 256 / 256 < 256;
    assert n >= 65536 ==> ByteLength(n / 256 / 256) == 1;
  }

  lemma PowSmall()
    ensures Pow256(0) == 1 && Pow256(1) == 256 && Pow256(2) == 65536
  {
  }

  /** Below 2^23 nothing is lost. */
  lemma EncodeSmall(n: nat)
    requires 0 < n < TWO23
    ensures Scaled(Exponent(n), Mantissa(n)) == n && Mantissa(n) < TWO23
    ensures CanonicalParts(Exponent(n), Mantissa(n)) && (n >= TWO15 ==> Exponent(n) == 3 && Mantissa(n) == n)
  {
    SmallLengths(n);
    PowSmall();
  }

  lemma DivDiv(n: nat, p: nat)
    requires p > 0
    ensures n / (256 * p) == n / 256 / p
  {
    var q, r := n / 256, n % 256;
    var a, b := q / p, q % p;
    assert n == 256 * p * a + (256 * b + r) by { assert q == p * a + b; }
    assert 0 <= 256 * b + r < 256 * p;
    QuotientIs(n, 256 * p, a);
  }

  /** From 2^23 on, dropping the last byte changes only the exponent. */
  lemma EncodeShift(n: nat)
    requires n >= TWO23
    ensures Mantissa(n) == Mantissa(n / 256) && Exponent(n) == Exponent(n / 256) + 1 && n / 256 >= TWO15
  {
    var len := ByteLength(n / 256);
    assert ByteLength(n) == len + 1;
    PowSmall();
    if n < TWO24 {
      SmallLengths(n / 256);
    } else {
      LongEnough(n / 256);
      DivDiv(n, Pow256(len - 3));
      assert Pow256(len - 2) == 256 * Pow256(len - 3);
    }
  }

  lemma LongEnough(n: nat)
    requires n >= 65536
    ensures ByteLength(n) >= 3
  {
    assert ByteLength(n) == 1 + ByteLength(n / 256) && ByteLength(n / 256) == 1 + ByteLength(n / 256 / 256);
    assert n / 256 / 256 > 0;
  }

  lemma ScaledShift(e: nat, m: nat)
    requires e >= 3
    ensures Scaled(e + 1, m) == 256 * Scaled(e, m)
  {
    PowSmall();
    if e > 3 { assert m * (256 * Pow256(e - 3)) == 256 * (m * Pow256(e - 3)); }
  }

  /** Encoding keeps exactly the truncation. */
  lemma {:induction false} PartsTruncate(n: nat)
    requires n > 0
    ensures Scaled(Exponent(n), Mantissa(n)) == Truncated(n) && Mantissa(n) < TWO23
    ensures CanonicalParts(Exponent(n), Mantissa(n)) && (n >= TWO15 ==> Exponent(n) >= 3)
  {
    if n < TWO23 {
      EncodeSmall(n);
    } else {
      EncodeShift(n);
      PartsTruncate(n / 256);
      ScaledShift(Exponent(n / 256), Mantissa(n / 256));
    }
  }

  /** The first number that needs an exponent above `e`. */
  function Limit(e: nat): nat
    requires e >= 3
  {
    TWO23 * Pow256(e - 3)
  }

  lemma {:induction false} ExponentExactly(n: nat, e: nat)
    requires n > 0 && e >= 3
    ensures Exponent(n) <= e <==> n < Limit(e)
  {
    PowSmall();
    if n < TWO23 {
      SmallLengths(n);
      PowMonotone(0, e - 3);
    } else {
      EncodeShift(n);
      PartsTruncate(n / 256);
      if e > 3 {
        ExponentExactly(n / 256, e - 1);
        assert Limit(e) == 256 * Limit(e - 1);
      }
    }
  }

  lemma {:induction false} PowMonotone(a: nat, b: nat)
    requires a <= b
    ensures Pow256(a) <= Pow256(b)
  {
    if a < b { PowMonotone(a, b - 1); }
  }

  function Pack(e: nat, m: nat): Bits { (e * TWO24 + m) % TWO32 }

  lemma Unpack(e: nat, m: nat)
    requires m < TWO23
    ensures Pack(e, m) / TWO24 == e % 256 && Pack(e, m) % TWO23 == m && Pack(e, m) % TWO24 == m
  {
    PackLow(e, m);
    Halves(e % 256, m);
  }

  lemma PackLow(e: nat, m: nat)
    requires m < TWO23
    ensures Pack(e, m) == (e % 256) * TWO24 + m
  {
    Wraps(e / 256, e % 256, m);
  }

  lemma Wraps(q: nat, low: nat, m: nat)
    requires low < 256 && m < TWO23
    ensures ((256 * q + low) * TWO24 + m) % TWO32 == low * TWO24 + m
  {
    assert (256 * q + low) * TWO24 + m == q * TWO32 + (low * TWO24 + m);
  }

  lemma Halves(low: nat, m: nat)
    requires low < 256 && m < TWO23
    ensures var b := low * TWO24 + m; b / TWO24 == low && b % TWO24 == m && b % TWO23 == m
  {
  }

  lemma DecodePack(e: nat, m: nat)
    requires m < TWO23
    ensures Decode(Pack(e, m)) == Scaled(e % 256, m)
  {
    Unpack(e, m);
  }

  lemma Repack(bits: Bits)
    requires bits % TWO24 < TWO23
    ensures Pack(bits / TWO24, bits % TWO24) == bits && Decode(bits) == Scaled(bits / TWO24, bits % TWO24)
  {
    assert bits % TWO23 == bits % TWO24;
  }

  lemma ScaledBelow(e: nat, m: nat)
    requires e <= 255 && m < TWO23
    ensures Scaled(e, m) < Limit(255)
  {
    PowSmall();
    PowMonotone(0, 252);
    if e > 3 {
      PowMonotone(0, e - 3);
      PowMonotone(e - 3, 252);
      Scale(m, Pow256(e - 3), Pow256(252));
    }
  }

  lemma Scale(m: nat, r: nat, p: nat)
    requires 0 < r <= p && m < TWO23
    ensures m * r < TWO23 * p
  {
    Product(r, TWO23 - m);
    assert r * (TWO23 - m) == r * TWO23 - r * m;
    Order(TWO23, r, p);
  }

  /** An exponent cut to one byte gives another number. */
  lemma CutExponent(e: nat, m: nat)
    requires CanonicalParts(e, m)
    ensures Scaled(e % 256, m) == Scaled(e, m) <==> e <= 255
  {
    if e > 255 {
      ScaledBelow(e % 256, m);
      PartsReturn(e, m);
      ExponentExactly(Scaled(e, m), 255);
    }
  }

  lemma EncodedIs(n: nat)
    requires n > 0
    ensures Decode(Encode(n)) == Scaled(Exponent(n) % 256, Mantissa(n))
  {
    PartsTruncate(n);
    DecodePack(Exponent(n), Mantissa(n));
  }

  /** Decoding an encoded target gives its truncation if and only if the exponent fits its byte. */
  lemma DecodeEncode(n: nat)
    ensures Decode(Encode(n)) == Truncated(n) <==> n < Limit(255)
  {
    if n == 0 {
      PowMonotone(0, 252);
    } else {
      PartsTruncate(n);
      EncodedIs(n);
      CutExponent(Exponent(n), Mantissa(n));
      ExponentExactly(n, 255);
    }
  }

  // ---------------------------------------------------------------- what truncation costs

  /** The step in which targets of the size of `n` are kept. */
  function Grain(n: nat): nat { if n < TWO23 then 1 else 256 * Grain(n / 256) }

  lemma {:induction false} GrainBounds(n: nat)
    ensures Truncated(n) <= n < Truncated(n) + Grain(n) && (n >= TWO15 ==> Grain(n) * TWO15 <= n)
  {
    if n >= TWO23 { GrainBounds(n / 256); }
  }

  /** Never more than the target, and less than one part in 2^15 below it. */
  lemma TruncatedClose(n: nat)
    ensures Truncated(n) <= n && (n > 0 ==> (n - Truncated(n)) * TWO15 < n)
  {
    GrainBounds(n);
  }

  lemma {:induction false} TruncatedMonotone(a: nat, b: nat)
    requires a <= b
    ensures Truncated(a) <= Truncated(b)
    decreases b
  {
    if b >= TWO23 {
      if a >= TWO23 {
        TruncatedMonotone(a / 256, b / 256);
      } else {
        TruncatedMonotone(TWO15, b / 256);
      }
    }
  }

  // ---------------------------------------------------------------- canonical bits

  predicate CanonicalParts(e: nat, m: nat) {
    if e >= 3 then TWO15 <= m < TWO23
    else if e == 2 then TWO15 <= m < TWO23 && m % 256 == 0
    else e == 1 && 0 < m < TWO23 && m % 65536 == 0
  }

  predicate Canonical(bits: Bits) { bits == 0 || CanonicalParts(bits / TWO24, bits % TWO24) }

  /** The parts of a canonical number come back from its value. */
  lemma {:induction false} PartsReturn(e: nat, m: nat)
    requires CanonicalParts(e, m)
    ensures Scaled(e, m) > 0 && Exponent(Scaled(e, m)) == e && Mantissa(Scaled(e, m)) == m
    ensures e >= 3 ==> Scaled(e, m) >= TWO15
  {
    PowSmall();
    if e > 3 {
      PartsReturn(e - 1, m);
      ScaledShift(e - 1, m);
      EncodeShift(Scaled(e, m));
    } else {
      var n := Scaled(e, m);
      SmallLengths(n);
    }
  }

  /** Exactly the canonical bits encode to themselves again. */
  lemma CanonicalExactly(bits: Bits)
    ensures Encode(Decode(bits)) == bits <==> Canonical(bits)
  {
    if Canonical(bits) { CanonicalReturns(bits); } else { OthersDoNot(bits); }
  }

  lemma CanonicalReturns(bits: Bits)
    requires Canonical(bits)
    ensures Encode(Decode(bits)) == bits
  {
    var e, m := bits / TWO24, bits % TWO24;
    if bits > 0 {
      Repack(bits);
      PartsReturn(e, m);
    } else {
      PowSmall();
    }
  }

  lemma OthersDoNot(bits: Bits)
    requires !Canonical(bits)
    ensures Encode(Decode(bits)) != bits
  {
    var n := Decode(bits);
    if n > 0 {
      PartsTruncate(n);
      ScaledBelow(bits / TWO24, bits % TWO23);
      ExponentExactly(n, 255);
      Unpack(Exponent(n), Mantissa(n));
    }
  }

  // ---------------------------------------------------------------- the encoder, byte by byte

  lemma {:induction false} ByteIs(n: nat, k: nat, j: nat)
    requires n < Pow256(k) && j < k
    ensures ToBytes(n, k)[j] == Over(n, Pow256(k - 1 - j)) % 256
  {
    PowSmall();
    if j < k - 1 {
      var p := Pow256(k - 2 - j);
      ByteIs(n / 256, k - 1, j);
      DivDiv(n, p);
    }
  }

  lemma LeadingBytes(n: nat, len: nat)
    requires n > 0 && len == ByteLength(n)
    ensures var b := ToBytes(n, len);
      TopBytes(n, len) == b[0] as int * 65536 + (if len > 1 then b[1] as int * 256 else 0) + (if len > 2 then b[2] as int else 0)
  {
    LengthBounds(n);
    if len > 2 { LongLeadingBytes(n, len); } else { ShortLeadingBytes(n, len); }
  }

  lemma ShortLeadingBytes(n: nat, len: nat)
    requires 0 < n < Pow256(len) && 1 <= len <= 2
    ensures var b := ToBytes(n, len); n * Pow256(3 - len) == b[0] as int * 65536 + (if len > 1 then b[1] as int * 256 else 0)
  {
    PowSmall();
    ByteIs(n, len, 0);
    if len > 1 { ByteIs(n, len, 1); }
  }

  lemma LongLeadingBytes(n: nat, len: nat)
    requires n < Pow256(len) && len > 2
    ensures var b := ToBytes(n, len); Over(n, Pow256(len - 3)) == b[0] as int * 65536 + b[1] as int * 256 + b[2] as int
  {
    var p := Pow256(len - 3);
    assert Pow256(len - 2) == 256 * p && Pow256(len - 1) == 256 * (256 * p);
    ByteIs(n, len, 0);
    ByteIs(n, len, 1);
    ByteIs(n, len, 2);
    DivDivUp(n, p);
    DivDivUp(n, 256 * p);
    QuotientBelow(n, p, Pow256(len));
    ThreeBytes(Over(n, p));
  }

  lemma ThreeBytes(x: nat)
    requires x < TWO24
    ensures x == x / 256 / 256 % 256 * 65536 + x / 256 % 256 * 256 + x % 256
  {
  }

  lemma Order(p: nat, x: int, y: int)
    requires p > 0
    ensures x <= y <==> p * x <= p * y
  {
    Product(p, y - x);
    assert p * (y - x) == p * y - p * x;
  }

  lemma DivDivUp(n: nat, p: nat)
    requires p > 0
    ensures Over(n, p) / 256 == Over(n, 256 * p)
  {
    var q := n / p;
    var a := q / 256;
    QuotientIs(n, p, q);
    Order(p, 256 * a, q);
    Order(p, q + 1, 256 * a + 256);
    assert p * (q + 1) == p * q + p && p * (256 * a) == 256 * p * a && p * (256 * a + 256) == 256 * p * a + 256 * p;
    QuotientIs(n, 256 * p, a);
  }

  lemma QuotientBelow(n: nat, p: nat, bound: nat)
    requires p > 0 && n < bound == 256 * (256 * (256 * p))
    ensures Over(n, p) < TWO24
  {
    var q := n / p;
    QuotientIs(n, p, q);
    Order(p, TWO24, q);
  }

  /** BigToCompact as written: mantissa and exponent built up from the bytes. */
  method BigToCompact(target: int) returns (bits: Bits)
    ensures bits == Encode(target)
  {
    if target <= 0 { return 0; }
    var len := ByteLength(target);
    var bytes := ToBytes(target, len);
    LeadingBytes(target, len);
    var exponent, mantissa: nat := len, 0;
    if exponent > 0 { mantissa := bytes[0] as int * 65536; }
    if exponent > 1 { mantissa := mantissa + bytes[1] as int * 256; }
    if exponent > 2 { mantissa := mantissa + bytes[2]; }
    if mantissa >= TWO23 {
      mantissa := mantissa / 256;
      exponent := exponent + 1;
    }
    return Pack(exponent, mantissa);
  }

  // ---------------------------------------------------------------- retargeting

  const FREQUENCY: nat := 2016
  const TIMESPAN: nat := 1209600
  const FACTOR: nat := 4

  /** The easiest target; the code always takes the one for tests. */
  const EASIEST: Bits := 0x1f00ffff

  /** What retargeting looks at in a block. */
  datatype Mark = Mark(timestamp: nat, bits: Bits)

  function Clamp(span: int): nat {
    if span < TIMESPAN / FACTOR then TIMESPAN / FACTOR else if span > TIMESPAN * FACTOR then TIMESPAN * FACTOR else span
  }

  function NewTarget(was: nat, span: int): nat {
    var t := was * Clamp(span) / TIMESPAN;
    if t > Decode(EASIEST) then Decode(EASIEST) else t
  }

  /** The clamped and capped new target, and what it becomes: at most the easiest, at most four times the old one, and at least the
      truncation of a quarter of the old one (or of the easiest, if that is less). */
  lemma RetargetBounds(was: nat, span: int)
    ensures var next, top := Decode(Encode(NewTarget(was, span))), Decode(EASIEST);
      && next <= top && next <= FACTOR * was
      && next >= Truncated(if was / FACTOR < top then was / FACTOR else top)
  {
    var t, top, c := NewTarget(was, span), Decode(EASIEST), Clamp(span);
    var low := if was / FACTOR < top then was / FACTOR else top;
    ClampScales(was, c);
    ScaledBelow(31, 0xffff);
    DecodeEncode(t);
    TruncatedClose(t);
    TruncatedMonotone(low, t);
  }

  /** The scaling itself. Blocks that took exactly two weeks keep the target, up to the easiest; within a factor of four the new target is
      the old one times the time taken over two weeks, rounded down; and slower blocks never make a harder target. */
  lemma RetargetExactly(was: nat, span: int, slower: int)
    ensures span == 1209600 ==> NewTarget(was, span) == if was > Decode(EASIEST) then Decode(EASIEST) else was
    ensures 302400 <= span <= 4838400 && NewTarget(was, span) < Decode(EASIEST) ==>
      NewTarget(was, span) * 1209600 <= was * span < (NewTarget(was, span) + 1) * 1209600
    ensures span <= 302400 ==> NewTarget(was, span) == NewTarget(was, 302400)
    ensures span >= 4838400 ==> NewTarget(was, span) == NewTarget(was, 4838400)
    ensures span <= slower ==> NewTarget(was, span) <= NewTarget(was, slower)
  {
    var p := was * Clamp(span);
    Rounded(p);
    if span == 1209600 { Rounded(was * 1209600); }
    if span <= slower {
      if was > 0 { Order(was, Clamp(span), Clamp(slower)); }
      Rounded(was * Clamp(slower));
    }
  }

  lemma Rounded(p: nat)
    ensures p / TIMESPAN * TIMESPAN <= p < (p / TIMESPAN + 1) * TIMESPAN
  {
  }

  lemma ClampScales(was: nat, c: nat)
    requires TIMESPAN / FACTOR <= c <= TIMESPAN * FACTOR
    ensures was / FACTOR <= was * c / TIMESPAN <= FACTOR * was
  {
    var p := was * c;
    assert was * (TIMESPAN / FACTOR) <= p <= was * (TIMESPAN * FACTOR);
  }

  /** GetTargetBits: the easiest target to start with, the last one between retargets, and at a retarget the old target scaled by
      the time the last 2016 blocks took. */
  method GetTargetBits(blocks: seq<Mark>) returns (bits: Bits)
    ensures blocks == [] ==> bits == EASIEST
    ensures blocks != [] && |blocks| % FREQUENCY != 0 ==> bits == blocks[|blocks| - 1].bits
    ensures blocks != [] && |blocks| % FREQUENCY == 0 ==>
      bits == Encode(NewTarget(Decode(blocks[|blocks| - 1].bits), Wrap(blocks[|blocks| - 1].timestamp - blocks[|blocks| - FREQUENCY].timestamp)))
  {
    if |blocks| == 0 { return EASIEST; }
    var last := blocks[|blocks| - 1];
    if |blocks| % FREQUENCY != 0 { return last.bits; }
    var first := blocks[|blocks| - FREQUENCY];
    var span := Wrap(last.timestamp - first.timestamp);
    if span < TIMESPAN / FACTOR { span := TIMESPAN / FACTOR; }
    if span > TIMESPAN * FACTOR { span := TIMESPAN * FACTOR; }
    var target := Decode(last.bits) * span / TIMESPAN;
    if target > Decode(EASIEST) { target := Decode(EASIEST); }
    bits := BigToCompact(target);
  }

  // ---------------------------------------------------------------- work

  /** GetBlockWork and CalculateBlockWorkFromBits; totals are decimal strings of such numbers. */
  function BlockWork(bits: Bits): nat { Over(Pow256(32), Decode(bits) + 1) }

  /** A block's work is how many hashes it takes on average, rounded down: one more than the target of them are good, of 2^256. */
  lemma WorkExactly(bits: Bits)
    ensures BlockWork(bits) * (Decode(bits) + 1) <= Pow256(32) < (BlockWork(bits) + 1) * (Decode(bits) + 1)
  {
    OverExactly(Pow256(32), Decode(bits) + 1);
  }

  lemma OverExactly(n: nat, d: nat)
    requires d > 0
    ensures Over(n, d) * d <= n < (Over(n, d) + 1) * d
  {
    var q := Over(n, d);
    QuotientIs(n, d, q);
    Steps(d, q);
    assert d * (q + 1) == (q + 1) * d && d * q == q * d;
  }

  /** A harder target is never less work, and every target a hash can miss is some work. */
  lemma WorkGrows(a: Bits, b: Bits)
    ensures Decode(a) <= Decode(b) ==> BlockWork(a) >= BlockWork(b)
    ensures Decode(a) < Pow256(32) ==> BlockWork(a) > 0
  {
    var n, x, y := Pow256(32), Decode(a) + 1, Decode(b) + 1;
    if x <= y { QuotientAntitone(n, x, y); }
    if x <= n { QuotientAntitone(n, x, n); }
  }

  lemma QuotientAntitone(n: nat, x: nat, y: nat)
    requires 0 < x <= y
    ensures Over(n, x) >= Over(n, y) && (n == y ==> Over(n, y) == 1)
  {
    var p, q := Over(n, x), Over(n, y);
    QuotientIs(n, x, p);
    QuotientIs(n, y, q);
    if p < q {
      Order(x, p + 1, q);
      Steps(x, p);
      Wider(q, x, y);
    }
    if n == y { QuotientIs(n, y, 1); }
  }

  lemma Steps(x: int, p: int)
    ensures x * (p + 1) == x * p + x
  {
  }

  lemma Wider(q: nat, x: nat, y: nat)
    requires x <= y
    ensures x * q <= y * q
  {
    if q > 0 { Order(q, x, y); }
  }
}
