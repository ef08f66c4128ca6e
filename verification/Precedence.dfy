/** Which operator binds more tightly, told with the operators themselves (marigold/parser.go). */
module Precedence {
  import opened Ast
  import opened Parser
  import opened Rendering

  /** A token that is an operand, and the tree it stands for. */
  predicate Operand(t: Token, x: Expr) {
    match t
    case IntToken(n) => x == Number(n)
    case LiteralToken(k, s) => x == Literal(k, s)
    case NameToken(s) => x == Identifier(s)
    case _ => false
  }

  /** From the loosest to the tightest: `||`; `&&`; comparisons; `+` and `-`; `*`, `/` and `%`; `^`. */
  predicate Looser(o: BinaryOp, p: BinaryOp) {
    match o
    case LogicalOr => p != LogicalOr
    case LogicalAnd => p != LogicalOr && p != LogicalAnd
    case Equal | NotEqual | LessThan | GreaterThan | LessEqual | GreaterEqual =>
      p == Plus || p == Minus || p == Multiply || p == Divide || p == Modulo || p == Exponent
    case Plus | Minus => p == Multiply || p == Divide || p == Modulo || p == Exponent
    case Multiply | Divide | Modulo => p == Exponent
    case Exponent => false
  }

  lemma OperandRenders(t: Token, x: Expr, level: nat)
    requires Operand(t, x) && level <= 7
    ensures Render(x, level) == [t] && Grammatical(x)
  {
  }

  lemma RendersBoth(o: BinaryOp, l: Expr, r: Expr)
    ensures Render(Binary(o, l, r), 0) == Render(l, LeftLevel(o)) + [OpToken(o)] + Render(r, RightLevel(o))
  {
  }

  /** The tighter operator on the right. */
  lemma RightFirst(a: Token, x: Expr, o: BinaryOp, b: Token, y: Expr, p: BinaryOp, c: Token, z: Expr)
    requires Operand(a, x) && Operand(b, y) && Operand(c, z) && (Looser(o, p) || o == p == Exponent)
    ensures ParseAt([a, OpToken(o), b, OpToken(p), c], 0, 0) == Got(Binary(o, x, Binary(p, y, z)), 5)
  {
    var inner := Binary(p, y, z);
    OperandRenders(a, x, LeftLevel(o));
    OperandRenders(b, y, LeftLevel(p));
    OperandRenders(c, z, RightLevel(p));
    RendersBoth(p, y, z);
    RendersBoth(o, x, inner);
    assert Render(inner, RightLevel(o)) == Render(inner, 0);
    RenderThenParse(Binary(o, x, inner));
    assert Render(Binary(o, x, inner), 0) == [a, OpToken(o), b, OpToken(p), c];
  }

  /** The tighter operator on the left, or two of one class, which associate to the left. */
  lemma LeftFirst(a: Token, x: Expr, o: BinaryOp, b: Token, y: Expr, p: BinaryOp, c: Token, z: Expr)
    requires Operand(a, x) && Operand(b, y) && Operand(c, z) && !Looser(o, p) && !(o == p == Exponent)
    ensures ParseAt([a, OpToken(o), b, OpToken(p), c], 0, 0) == Got(Binary(p, Binary(o, x, y), z), 5)
  {
    var inner := Binary(o, x, y);
    OperandRenders(a, x, LeftLevel(o));
    OperandRenders(b, y, RightLevel(o));
    OperandRenders(c, z, RightLevel(p));
    RendersBoth(o, x, y);
    RendersBoth(p, inner, z);
    assert Render(inner, LeftLevel(p)) == Render(inner, 0);
    RenderThenParse(Binary(p, inner, z));
    assert Render(Binary(p, inner, z), 0) == [a, OpToken(o), b, OpToken(p), c];
  }

  /** Precedence and association, for all operators: of two, the right one is applied first if and only if it is the tighter, or both are
      `^`. */
  lemma PrecedenceExactly(a: Token, x: Expr, o: BinaryOp, b: Token, y: Expr, p: BinaryOp, c: Token, z: Expr)
    requires Operand(a, x) && Operand(b, y) && Operand(c, z)
    ensures ParseAt([a, OpToken(o), b, OpToken(p), c], 0, 0)
            == Got(if Looser(o, p) || o == p == Exponent then Binary(o, x, Binary(p, y, z)) else Binary(p, Binary(o, x, y), z), 5)
  {
    if Looser(o, p) || o == p == Exponent { RightFirst(a, x, o, b, y, p, c, z); } else { LeftFirst(a, x, o, b, y, p, c, z); }
  }

  /** Unary operators bind more tightly than all others. */
  lemma UnaryFirst(a: Token, x: Expr, o: BinaryOp, b: Token, y: Expr)
    requires Operand(a, x) && Operand(b, y)
    ensures ParseAt([OpToken(Minus), a, OpToken(o), b], 0, 0) == Got(Binary(o, Unary(Negate, x), y), 4)
    ensures ParseAt([NotToken, a, OpToken(o), b], 0, 0) == Got(Binary(o, Unary(Not, x), y), 4)
    ensures ParseAt([a, OpToken(o), OpToken(Minus), b], 0, 0) == Got(Binary(o, x, Unary(Negate, y)), 4)
    ensures ParseAt([a, OpToken(o), NotToken, b], 0, 0) == Got(Binary(o, x, Unary(Not, y)), 4)
  {
    UnaryOnLeft(a, x, Negate, o, b, y);
    UnaryOnLeft(a, x, Not, o, b, y);
    UnaryOnRight(a, x, o, Negate, b, y);
    UnaryOnRight(a, x, o, Not, b, y);
  }

  lemma UnaryRenders(t: Token, x: Expr, u: UnaryOp, level: nat)
    requires Operand(t, x) && level <= 6
    ensures Render(Unary(u, x), level) == [if u == Not then NotToken else OpToken(Minus), t]
  {
    OperandRenders(t, x, 6);
    assert Render(Unary(u, x), level) == [UnaryToken(u)] + [t];
  }

  lemma UnaryOnLeft(a: Token, x: Expr, u: UnaryOp, o: BinaryOp, b: Token, y: Expr)
    requires Operand(a, x) && Operand(b, y)
    ensures ParseAt([if u == Not then NotToken else OpToken(Minus), a, OpToken(o), b], 0, 0) == Got(Binary(o, Unary(u, x), y), 4)
  {
    var e := Binary(o, Unary(u, x), y);
    UnaryRenders(a, x, u, LeftLevel(o));
    OperandRenders(b, y, RightLevel(o));
    OperandRenders(a, x, 6);
    RendersBoth(o, Unary(u, x), y);
    RenderThenParse(e);
    assert Render(e, 0) == [if u == Not then NotToken else OpToken(Minus), a, OpToken(o), b];
  }

  lemma UnaryOnRight(a: Token, x: Expr, o: BinaryOp, u: UnaryOp, b: Token, y: Expr)
    requires Operand(a, x) && Operand(b, y)
    ensures ParseAt([a, OpToken(o), if u == Not then NotToken else OpToken(Minus), b], 0, 0) == Got(Binary(o, x, Unary(u, y)), 4)
  {
    var e := Binary(o, x, Unary(u, y));
    OperandRenders(a, x, LeftLevel(o));
    UnaryRenders(b, y, u, RightLevel(o));
    OperandRenders(b, y, 6);
    RendersBoth(o, x, Unary(u, y));
    RenderThenParse(e);
    assert Render(e, 0) == [a, OpToken(o), if u == Not then NotToken else OpToken(Minus), b];
  }
}
