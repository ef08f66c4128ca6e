/** What the operators of the machine and of the source mean on signed numbers, told with the numbers themselves. A signed number
    `x` is represented by the word `x % MOD`. */
module Operators {
  import opened Text
  import opened Bytecode
  import opened Ast
  import opened Words
  import Avm
  import Semantics
  import Strings

  /** 2^256 */
  const M: int := Words.MOD

  // ---------------------------------------------------------------- representation

  lemma Represents(x: int)
    requires IsSigned(x)
    ensures IsWord(x % M) && ToSigned(x % M) == x && ToUnsigned(x) == x % M
  {
    UnsignedRoundTrip(x);
  }

  lemma SmallWord(x: int)
    requires 0 <= x < M
    ensures x % M == x
  {
    QuotientUnique(x, M, 0, x);
  }

  /** toUnsigned256 of anything from -2^256 up. */
  lemma Residue(x: int)
    requires x >= -M
    ensures ToUnsigned(x) == x % M
  {
    UnsignedIsResidue(x);
  }

  // ---------------------------------------------------------------- the machine

  /** LT and GT compare signed numbers. */
  lemma MachineComparisons(x: int, y: int)
    requires IsSigned(x) && IsSigned(y)
    ensures Avm.Arithmetic(LT, x % M, y % M) == if x < y then 1 else 0
    ensures Avm.Arithmetic(GT, x % M, y % M) == if x > y then 1 else 0
  {
    Represents(x);
    Represents(y);
  }

  /** ADD, SUB, MUL and DIV calculate with signed numbers, modulo 2^256; MUL while the product is at least -2^256. M takes
      non-negative numbers. Division by zero gives zero. */
  lemma MachineArithmetic(x: int, y: int)
    requires IsSigned(x) && IsSigned(y)
    ensures Avm.Arithmetic(ADD, x % M, y % M) == (x + y) % M
    ensures Avm.Arithmetic(SUB, x % M, y % M) == (x - y) % M
    ensures x * y >= -M ==> Avm.Arithmetic(MUL, x % M, y % M) == (x * y) % M
    ensures Avm.Arithmetic(DIV, x % M, y % M) == if y == 0 then 0 else (x / y) % M
    ensures x >= 0 && y >= 0 ==> Avm.Arithmetic(Opcode.MOD, x % M, y % M) == if y == 0 then 0 else x % y
  {
    Represents(x);
    Represents(y);
    Residue(x + y);
    Residue(x - y);
    if x * y >= -M { Residue(x * y); }
    if y != 0 {
      EuclideanIsTruncatedExactly(x, y);
      Residue(x / y);
    }
    if x >= 0 { SmallWord(x); }
    if y >= 0 { SmallWord(y); }
  }

  // ---------------------------------------------------------------- bits

  function BitAt(n: nat, k: nat): nat { if k == 0 then n % 2 else BitAt(n / 2, k - 1) }

  lemma BitOfZero(k: nat)
    ensures BitAt(0, k) == 0
  {
  }

  lemma {:induction false} AndBits(a: nat, b: nat, k: nat)
    ensures BitAt(BitAnd(a, b), k) == if BitAt(a, k) == 1 && BitAt(b, k) == 1 then 1 else 0
    decreases k
  {
    BitOfZero(k);
    if a != 0 && b != 0 {
      Halved(BitAnd(a / 2, b / 2), (a % 2) * (b % 2));
      if k > 0 { AndBits(a / 2, b / 2, k - 1); }
    }
  }

  lemma {:induction false} OrBits(a: nat, b: nat, k: nat)
    ensures BitAt(BitOr(a, b), k) == if BitAt(a, k) == 1 || BitAt(b, k) == 1 then 1 else 0
    decreases k
  {
    BitOfZero(k);
    BitIsBinary(a, k);
    BitIsBinary(b, k);
    if a != 0 && b != 0 {
      Halved(BitOr(a / 2, b / 2), if a % 2 + b % 2 > 0 then 1 else 0);
      if k > 0 { OrBits(a / 2, b / 2, k - 1); }
    }
  }

  lemma Halved(h: nat, bit: nat)
    requires bit <= 1
    ensures (2 * h + bit) % 2 == bit && (2 * h + bit) / 2 == h
  {
  }

  lemma {:induction false} BitIsBinary(n: nat, k: nat)
    ensures BitAt(n, k) <= 1
    decreases k
  {
    if k > 0 { BitIsBinary(n / 2, k - 1); }
  }

  function Pow2(n: nat): nat { if n == 0 then 1 else 2 * Pow2(n - 1) }

  lemma {:induction false} OrBelow(a: nat, b: nat, n: nat)
    requires a < Pow2(n) && b < Pow2(n)
    ensures BitOr(a, b) < Pow2(n)
    decreases n
  {
    if a != 0 && b != 0 { OrBelow(a / 2, b / 2, n - 1); }
  }

  lemma {:induction false} BytesOfBits(n: nat)
    ensures Pow2(8 * n) == Pow256(n)
  {
    if n > 0 {
      BytesOfBits(n - 1);
      var m := 8 * n;
      assert Pow2(m) == 2 * Pow2(m - 1) && Pow2(m - 1) == 2 * Pow2(m - 2) && Pow2(m - 2) == 2 * Pow2(m - 3) && Pow2(m - 3) == 2 * Pow2(m - 4);
      assert Pow2(m - 4) == 2 * Pow2(m - 5) && Pow2(m - 5) == 2 * Pow2(m - 6) && Pow2(m - 6) == 2 * Pow2(m - 7) && Pow2(m - 7) == 2 * Pow2(m - 8);
    }
  }

  /** AND and OR work bit by bit. */
  lemma MachineBits(a: int, b: int, k: nat)
    requires IsWord(a) && IsWord(b)
    ensures BitAt(Avm.Arithmetic(AND, a, b), k) == if BitAt(a, k) == 1 && BitAt(b, k) == 1 then 1 else 0
    ensures BitAt(Avm.Arithmetic(OR, a, b), k) == if BitAt(a, k) == 1 || BitAt(b, k) == 1 then 1 else 0
  {
    SmallWord(a);
    SmallWord(b);
    AndBits(a, b, k);
    OrBits(a, b, k);
    Strings.Pow256Is();
    BytesOfBits(32);
    OrBelow(a, b, 256);
    SmallWord(BitOr(a, b));
  }

  // ---------------------------------------------------------------- the source

  /** The comparisons of the source compare signed numbers ... */
  lemma SourceComparisons(x: int, y: int)
    requires IsSigned(x) && IsSigned(y)
    ensures Semantics.Operate(LessThan, x % M, y % M) == if x < y then 1 else 0
    ensures Semantics.Operate(GreaterThan, x % M, y % M) == if x > y then 1 else 0
    ensures Semantics.Operate(LessEqual, x % M, y % M) == if x <= y then 1 else 0
    ensures Semantics.Operate(GreaterEqual, x % M, y % M) == if x >= y then 1 else 0
    ensures Semantics.Operate(Equal, x % M, y % M) == if x == y then 1 else 0
    ensures Semantics.Operate(NotEqual, x % M, y % M) == if x != y then 1 else 0
  {
    Represents(x);
    Represents(y);
  }

  /** ... and its arithmetic calculates with them, modulo 2^256. */
  lemma SourceArithmetic(x: int, y: int)
    requires IsSigned(x) && IsSigned(y)
    ensures Semantics.Operate(Plus, x % M, y % M) == (x + y) % M
    ensures Semantics.Operate(Minus, x % M, y % M) == (x - y) % M
    ensures x * y >= -M ==> Semantics.Operate(Multiply, x % M, y % M) == (x * y) % M
    ensures Semantics.Operate(Divide, x % M, y % M) == if y == 0 then 0 else (x / y) % M
    ensures x >= 0 && y >= 0 ==> Semantics.Operate(Modulo, x % M, y % M) == if y == 0 then 0 else x % y
    ensures Semantics.UnaryOperate(Negate, x % M) == -x % M
    ensures Semantics.UnaryOperate(Not, x % M) == if x == 0 then 1 else 0
  {
    MachineArithmetic(x, y);
    Represents(x);
    Represents(0);
    SmallWord(0);
    Residue(-x);
  }
}
