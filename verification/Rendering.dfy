/** Rendering an expression tree with as few parentheses as the grammar allows, and the proof that parsing it gives
    the tree back. */
module Rendering {
  import opened Ast
  import opened Parser

  type Tokens = seq<Token>

  /** The level at which a tree stands without parentheses. */
  function Level(e: Expr): nat {
    match e case Binary(op, _, _) => LevelOf(op) case Unary(_, _) => 6 case _ => 7
  }

  /** The trees the grammar can produce. */
  predicate Grammatical(e: Expr) {
    match e
    case Nil => false
    case Number(_) => true
    case Literal(_, _) => true
    case Identifier(_) => true
    case MapLiteral => true
    case Binary(_, l, r) => Grammatical(l) && Grammatical(r)
    case Unary(_, x) => Grammatical(x)
    case Call(_, args) => forall i :: 0 <= i < |args| ==> Grammatical(args[i])
    case Array(es) => forall i :: 0 <= i < |es| ==> Grammatical(es[i])
    case Index(b, i) => b.Identifier? && Grammatical(i)
    case Slice(b, s, t) => b.Identifier? && (s != Nil || t != Nil) && (s == Nil || Grammatical(s)) && (t == Nil || Grammatical(t))
  }

  function CalleeToken(f: Callee): Token {
    match f
    case EmitFn => EmitToken
    case LenFn => LenToken
    case StopFn => StopToken
    case AssertFn => AssertToken
    case Named(x) => NameToken(x)
  }

  /** Parentheses only around a tree that binds less tightly than its place demands. */
  function Render(e: Expr, level: nat): Tokens
    decreases e, 1
  {
    if Level(e) < level then [LParen] + Bare(e) + [RParen] else Bare(e)
  }

  /** The levels of the two operands: all operators but ^ associate to the left. */
  function LeftLevel(op: BinaryOp): nat { if op == Exponent then 6 else LevelOf(op) }

  function RightLevel(op: BinaryOp): nat { if op == Exponent then 5 else LevelOf(op) + 1 }

  /** Only names can be indexed. */
  function BaseToken(b: Expr): Token { if b.Identifier? then NameToken(b.name) else OtherToken("") }

  function UnaryToken(op: UnaryOp): Token { if op == Not then NotToken else OpToken(Minus) }

  function Bare(e: Expr): Tokens
    decreases e, 0
  {
    match e
    case Nil => []
    case Number(n) => [IntToken(n)]
    case Literal(k, t) => [LiteralToken(k, t)]
    case Identifier(x) => [NameToken(x)]
    case MapLiteral => [LBrace, RBrace]
    case Binary(op, l, r) => Render(l, LeftLevel(op)) + [OpToken(op)] + Render(r, RightLevel(op))
    case Unary(op, x) => [UnaryToken(op)] + Render(x, 6)
    case Call(f, args) => [CalleeToken(f), LParen] + List(args) + [RParen]
    case Array(es) => [LSquare] + List(es) + [RSquare]
    case Index(b, i) => [BaseToken(b), LSquare] + Render(i, 0) + [RSquare]
    case Slice(b, s, t) => [BaseToken(b), LSquare] + Render(s, 0) + [Colon] + Render(t, 0) + [RSquare]
  }

  /** Expressions with commas between them. */
  function List(es: seq<Expr>): Tokens
    decreases es, 2
  {
    if es == [] then [] else if |es| == 1 then Render(es[0], 0) else Render(es[0], 0) + [Comma] + List(es[1..])
  }

  // ---------------------------------------------------------------- tokens in place

  ghost predicate Placed(ts: Tokens, c: int, part: Tokens) {
    0 <= c && c + |part| <= |ts| && forall i {:trigger part[i]} :: 0 <= i < |part| ==> ts[c + i] == part[i]
  }

  lemma Split(ts: Tokens, c: int, x: Tokens, y: Tokens)
    requires Placed(ts, c, x + y)
    ensures Placed(ts, c, x) && Placed(ts, c + |x|, y)
  {
    forall i | 0 <= i < |x| ensures ts[c + i] == x[i] { assert (x + y)[i] == x[i]; }
    forall i | 0 <= i < |y| ensures ts[c + |x| + i] == y[i] { assert (x + y)[|x| + i] == y[i]; }
  }

  lemma One(ts: Tokens, c: int, t: Token)
    requires Placed(ts, c, [t])
    ensures 0 <= c < |ts| && ts[c] == t
  {
    assert [t][0] == t;
  }

  /** Something, then one token. */
  lemma Ended(ts: Tokens, c: int, x: Tokens, t: Token)
    requires Placed(ts, c, x + [t])
    ensures Placed(ts, c, x) && 0 <= c && c + |x| < |ts| && ts[c + |x|] == t
  {
    Split(ts, c, x, [t]);
    One(ts, c + |x|, t);
  }

  /** x, one token, y. */
  lemma Around(ts: Tokens, c: int, x: Tokens, t: Token, y: Tokens)
    requires Placed(ts, c, x + [t] + y)
    ensures Placed(ts, c, x) && 0 <= c && c + |x| < |ts| && ts[c + |x|] == t && Placed(ts, c + |x| + 1, y)
  {
    Split(ts, c, x + [t], y);
    Ended(ts, c, x, t);
  }

  // ---------------------------------------------------------------- what may follow

  /** The token at `c` neither continues a name nor is an operator of level `level` or tighter. */
  predicate Stops(ts: Tokens, c: nat, level: nat) {
    c >= |ts| || (ts[c] != LParen && ts[c] != LSquare && (ts[c].OpToken? ==> LevelOf(ts[c].op) < level))
  }

  /** The first token of a tree is none that ends something. */
  predicate Opens(t: Token) { t != RParen && t != RSquare && t != Colon && t != Comma && t != RBrace }

  lemma {:induction false} FirstBare(e: Expr)
    requires Grammatical(e)
    ensures Bare(e) != [] && Opens(Bare(e)[0]) && (Level(e) == 7 ==> Bare(e)[0] != OpToken(Minus) && Bare(e)[0] != NotToken)
    decreases e
  {
    if e.Binary? { FirstBare(e.lhs); }
  }

  // ---------------------------------------------------------------- one view of tokens, trees and parser

  /** Rendering and parsing of one token list, as functions: where trees stand, how long they are, and what the parser and its
      loop give. */
  datatype View = View(ts: Tokens, at: (nat, Expr, nat) -> bool, size: (Expr, nat) -> nat,
                       parse: (nat, nat) -> Parse, fold: (nat, nat, Expr) -> Parse)

  ghost predicate Faithful(v: View) {
    && (forall c: nat, e, l: nat {:trigger Placed(v.ts, c, Render(e, l))} :: v.at(c, e, l) == (Placed(v.ts, c, Render(e, l)) && Grammatical(e)))
    && (forall e, l: nat {:trigger Render(e, l)} :: v.size(e, l) == |Render(e, l)|)
    && (forall c: nat, l: nat {:trigger ParseAt(v.ts, c, l)} :: c <= |v.ts| && l <= 7 ==> v.parse(c, l) == ParseAt(v.ts, c, l))
    && (forall c: nat, l: nat, e {:trigger Fold(v.ts, c, l, e)} :: c <= |v.ts| && l <= 4 && e != Nil ==> v.fold(c, l, e) == Fold(v.ts, c, l, e))
  }

  ghost function ViewOf(ts: Tokens): (v: View)
    ensures Faithful(v) && v.ts == ts
  {
    View(ts, (c: nat, e: Expr, l: nat) => Placed(ts, c, Render(e, l)) && Grammatical(e), (e: Expr, l: nat) => |Render(e, l)|,
         (c: nat, l: nat) => if c <= |ts| && l <= 7 then ParseAt(ts, c, l) else Panic,
         (c: nat, l: nat, e: Expr) => if c <= |ts| && l <= 4 && e != Nil then Fold(ts, c, l, e) else Panic)
  }

  // ---------------------------------------------------------------- the parts of a tree in place

  lemma AtIs(v: View, c: nat, e: Expr, level: nat)
    requires Faithful(v)
    ensures v.at(c, e, level) == (Placed(v.ts, c, Render(e, level)) && Grammatical(e)) && v.size(e, level) == |Render(e, level)|
  {
    assert v.at(c, e, level) == (Placed(v.ts, c, Render(e, level)) && Grammatical(e));
  }

  lemma BinaryParts(v: View, c: nat, e: Expr, level: nat)
    requires Faithful(v) && e.Binary? && LevelOf(e.op) >= level && v.at(c, e, level)
    ensures var mid := c + v.size(e.lhs, LeftLevel(e.op));
      && v.at(c, e.lhs, LeftLevel(e.op)) && Is(v.ts, mid, OpToken(e.op)) && v.at(mid + 1, e.rhs, RightLevel(e.op))
      && mid + 1 + v.size(e.rhs, RightLevel(e.op)) == c + v.size(e, level)
  {
    AtIs(v, c, e, level);
    var x, y := Render(e.lhs, LeftLevel(e.op)), Render(e.rhs, RightLevel(e.op));
    assert Render(e, level) == x + [OpToken(e.op)] + y;
    Around(v.ts, c, x, OpToken(e.op), y);
    AtIs(v, c, e.lhs, LeftLevel(e.op));
    AtIs(v, c + |x| + 1, e.rhs, RightLevel(e.op));
  }

  lemma UnaryParts(v: View, c: nat, e: Expr)
    requires Faithful(v) && e.Unary? && v.at(c, e, 6)
    ensures Is(v.ts, c, UnaryToken(e.uop)) && v.at(c + 1, e.operand, 6) && 1 + v.size(e.operand, 6) == v.size(e, 6)
  {
    AtIs(v, c, e, 6);
    var x := Render(e.operand, 6);
    assert Render(e, 6) == [UnaryToken(e.uop)] + x;
    Split(v.ts, c, [UnaryToken(e.uop)], x);
    One(v.ts, c, UnaryToken(e.uop));
    AtIs(v, c + 1, e.operand, 6);
  }

  lemma SameAbove(v: View, c: nat, e: Expr, level: nat)
    requires Faithful(v) && Level(e) != level && v.at(c, e, level)
    ensures v.at(c, e, level + 1) && v.size(e, level) == v.size(e, level + 1) && e != Nil
  {
    AtIs(v, c, e, level);
    AtIs(v, c, e, level + 1);
  }

  lemma ParenParts(v: View, c: nat, e: Expr)
    requires Faithful(v) && Level(e) < 7 && v.at(c, e, 7)
    ensures Is(v.ts, c, LParen) && v.at(c + 1, e, 0) && Is(v.ts, c + 1 + v.size(e, 0), RParen) && v.size(e, 7) == v.size(e, 0) + 2
  {
    AtIs(v, c, e, 7);
    var x := Render(e, 0);
    assert Render(e, 7) == [LParen] + x + [RParen];
    Ended(v.ts, c, [LParen] + x, RParen);
    Split(v.ts, c, [LParen], x);
    One(v.ts, c, LParen);
    AtIs(v, c + 1, e, 0);
  }

  lemma FirstIs(v: View, c: nat, e: Expr, level: nat)
    requires Faithful(v) && v.at(c, e, level)
    ensures c < |v.ts| && Opens(v.ts[c]) && (level == 7 ==> v.ts[c] != OpToken(Minus) && v.ts[c] != NotToken) && e != Nil
  {
    AtIs(v, c, e, level);
    FirstBare(e);
    var r := Render(e, level);
    assert v.ts[c + 0] == r[0];
  }

  // ---------------------------------------------------------------- steps of the parser

  lemma StartFold(v: View, c: nat, level: nat, e: Expr, end: nat)
    requires Faithful(v) && c <= |v.ts| && level <= 4 && e != Nil && v.parse(c, level + 1) == Got(e, end)
    ensures end <= |v.ts| && v.parse(c, level) == v.fold(end, level, e)
  {
    assert v.parse(c, level) == ParseAt(v.ts, c, level) && v.parse(c, level + 1) == ParseAt(v.ts, c, level + 1);
    assert v.fold(end, level, e) == Fold(v.ts, end, level, e);
  }

  /** One round of the loop. */
  lemma FoldStep(v: View, mid: nat, level: nat, op: BinaryOp, l: Expr, r: Expr, end: nat)
    requires Faithful(v) && level <= 4 && l != Nil && Is(v.ts, mid, OpToken(op)) && LevelOf(op) == level && v.parse(mid + 1, level + 1) == Got(r, end)
    ensures end <= |v.ts| && v.fold(mid, level, l) == v.fold(end, level, Binary(op, l, r))
  {
    assert v.parse(mid + 1, level + 1) == ParseAt(v.ts, mid + 1, level + 1);
    assert v.fold(mid, level, l) == Fold(v.ts, mid, level, l);
    assert v.fold(end, level, Binary(op, l, r)) == Fold(v.ts, end, level, Binary(op, l, r));
  }

  lemma FoldEnds(v: View, c: nat, level: nat, e: Expr)
    requires Faithful(v) && c <= |v.ts| && level <= 4 && e != Nil && Stops(v.ts, c, level)
    ensures v.fold(c, level, e) == Got(e, c)
  {
    assert v.fold(c, level, e) == Fold(v.ts, c, level, e);
  }

  lemma PowerStep(v: View, c: nat, l: Expr, mid: nat, r: Expr, end: nat)
    requires Faithful(v) && c <= |v.ts| && l != Nil && v.parse(c, 6) == Got(l, mid)
    ensures !Is(v.ts, mid, OpToken(Exponent)) ==> v.parse(c, 5) == Got(l, mid)
    ensures Is(v.ts, mid, OpToken(Exponent)) && v.parse(mid + 1, 5) == Got(r, end) ==> v.parse(c, 5) == Got(Binary(Exponent, l, r), end)
  {
    assert v.parse(c, 6) == ParseAt(v.ts, c, 6) && v.parse(c, 5) == ParseAt(v.ts, c, 5);
    if Is(v.ts, mid, OpToken(Exponent)) { assert v.parse(mid + 1, 5) == ParseAt(v.ts, mid + 1, 5); }
  }

  lemma FactorStep(v: View, c: nat, op: UnaryOp, x: Expr, end: nat)
    requires Faithful(v) && c < |v.ts|
    ensures v.ts[c] == UnaryToken(op) && v.parse(c + 1, 6) == Got(x, end) ==> v.parse(c, 6) == Got(Unary(op, x), end)
    ensures v.ts[c] != OpToken(Minus) && v.ts[c] != NotToken ==> v.parse(c, 6) == v.parse(c, 7)
  {
    assert v.parse(c, 6) == ParseAt(v.ts, c, 6) && v.parse(c, 7) == ParseAt(v.ts, c, 7) && v.parse(c + 1, 6) == ParseAt(v.ts, c + 1, 6);
  }

  lemma ParenStep(v: View, c: nat, e: Expr, end: nat)
    requires Faithful(v) && Is(v.ts, c, LParen) && v.parse(c + 1, 0) == Got(e, end) && Is(v.ts, end, RParen)
    ensures v.parse(c, 7) == Got(e, end + 1)
  {
    assert v.parse(c, 7) == ParseAt(v.ts, c, 7) && v.parse(c + 1, 0) == ParseAt(v.ts, c + 1, 0);
    assert ParseAt(v.ts, c, 7) == ParseAtom(v.ts, c);
  }

  // ---------------------------------------------------------------- parsing back

  /** The level of a tree is 7 when parentheses have to be put around it. */
  lemma {:induction false} ParseBack(v: View, c: nat, e: Expr, level: nat)
    requires Faithful(v) && c <= |v.ts| && level <= 7 && v.at(c, e, level) && Stops(v.ts, c + v.size(e, level), level)
    ensures v.parse(c, level) == Got(e, c + v.size(e, level))
    decreases e, if Level(e) < level then 1 else 0, 8 - level, 1
  {
    if level <= 4 {
      FoldBack(v, c, e, level);
      FoldEnds(v, c + v.size(e, level), level, e);
    } else if level == 5 {
      PowerBack(v, c, e);
    } else if level == 6 {
      FactorBack(v, c, e);
    } else if Level(e) < 7 {
      ParenParts(v, c, e);
      ParseBack(v, c + 1, e, 0);
      ParenStep(v, c, e, c + 1 + v.size(e, 0));
    } else {
      AtomBack(v, c, e);
    }
  }

  /** Up to its loop, a left-associative level has the whole of `e` in hand. */
  lemma {:induction false} FoldBack(v: View, c: nat, e: Expr, level: nat)
    requires Faithful(v) && c <= |v.ts| && level <= 4 && v.at(c, e, level) && Stops(v.ts, c + v.size(e, level), level + 1)
    ensures c + v.size(e, level) <= |v.ts| && e != Nil && v.parse(c, level) == v.fold(c + v.size(e, level), level, e)
    decreases e, if Level(e) < level then 1 else 0, 8 - level, 0
  {
    if Level(e) == level {
      var mid, end := c + v.size(e.lhs, level), c + v.size(e, level);
      BinaryParts(v, c, e, level);
      FoldBack(v, c, e.lhs, level);
      ParseBack(v, mid + 1, e.rhs, level + 1);
      FoldStep(v, mid, level, e.op, e.lhs, e.rhs, end);
    } else {
      SameAbove(v, c, e, level);
      ParseBack(v, c, e, level + 1);
      StartFold(v, c, level, e, c + v.size(e, level));
    }
  }

  lemma {:induction false} PowerBack(v: View, c: nat, e: Expr)
    requires Faithful(v) && c <= |v.ts| && v.at(c, e, 5) && Stops(v.ts, c + v.size(e, 5), 5)
    ensures v.parse(c, 5) == Got(e, c + v.size(e, 5))
    decreases e, if Level(e) < 5 then 1 else 0, 3, 0
  {
    if Level(e) == 5 {
      BinaryParts(v, c, e, 5);
      FirstIs(v, c, e.lhs, 6);
      PowerPartsBack(v, c, e, c + v.size(e.lhs, 6), c + v.size(e, 5));
    } else {
      SameAbove(v, c, e, 5);
      ParseBack(v, c, e, 6);
      PowerStep(v, c, e, c + v.size(e, 5), Nil, c + v.size(e, 5));
    }
  }

  lemma {:induction false} PowerPartsBack(v: View, c: nat, e: Expr, mid: nat, end: nat)
    requires Faithful(v) && c <= |v.ts| && e.Binary? && e.op == Exponent && e.lhs != Nil && Stops(v.ts, end, 5)
    requires v.at(c, e.lhs, 6) && mid == c + v.size(e.lhs, 6) && Is(v.ts, mid, OpToken(Exponent)) && v.at(mid + 1, e.rhs, 5) && end == mid + 1 + v.size(e.rhs, 5)
    ensures v.parse(c, 5) == Got(e, end)
    decreases e, 0, 2, 0
  {
    ParseBack(v, c, e.lhs, 6);
    ParseBack(v, mid + 1, e.rhs, 5);
    PowerStep(v, c, e.lhs, mid, e.rhs, end);
  }

  lemma {:induction false} FactorBack(v: View, c: nat, e: Expr)
    requires Faithful(v) && c <= |v.ts| && v.at(c, e, 6) && Stops(v.ts, c + v.size(e, 6), 6)
    ensures v.parse(c, 6) == Got(e, c + v.size(e, 6))
    decreases e, if Level(e) < 6 then 1 else 0, 2, 0
  {
    if Level(e) == 6 {
      UnaryParts(v, c, e);
      ParseBack(v, c + 1, e.operand, 6);
      FactorStep(v, c, e.uop, e.operand, c + v.size(e, 6));
    } else {
      SameAbove(v, c, e, 6);
      FirstIs(v, c, e, 7);
      ParseBack(v, c, e, 7);
      FactorStep(v, c, Not, e, c);
    }
  }

  lemma {:induction false} AtomBack(v: View, c: nat, e: Expr)
    requires Faithful(v) && c <= |v.ts| && Level(e) == 7 && v.at(c, e, 7) && Stops(v.ts, c + v.size(e, 7), 7)
    ensures v.parse(c, 7) == Got(e, c + v.size(e, 7))
    decreases e, 0, 1, 0
  {
    if e.Call? || e.Array? {
      ItemsBack(v, c, e);
    } else if e.Index? {
      IndexBack(v, c, e);
    } else if e.Slice? {
      SliceBack(v, c, e);
    } else {
      LeafBack(v, c, e);
    }
  }

  lemma LeafBack(v: View, c: nat, e: Expr)
    requires Faithful(v) && c <= |v.ts| && Level(e) == 7 && !e.Call? && !e.Array? && !e.Index? && !e.Slice?
    requires v.at(c, e, 7) && Stops(v.ts, c + v.size(e, 7), 7)
    ensures v.parse(c, 7) == Got(e, c + v.size(e, 7))
  {
    LeafTokens(v, c, e);
    LeafParse(v, c, e);
  }

  /** The first token of a leaf. */
  function LeafToken(e: Expr): Token {
    match e
    case Number(n) => IntToken(n)
    case Literal(k, t) => LiteralToken(k, t)
    case Identifier(x) => NameToken(x)
    case _ => LBrace
  }

  lemma LeafTokens(v: View, c: nat, e: Expr)
    requires Faithful(v) && Level(e) == 7 && !e.Call? && !e.Array? && !e.Index? && !e.Slice? && v.at(c, e, 7)
    ensures Is(v.ts, c, LeafToken(e)) && (e.MapLiteral? ==> Is(v.ts, c + 1, RBrace)) && v.size(e, 7) == (if e.MapLiteral? then 2 else 1) && e != Nil
  {
    AtIs(v, c, e, 7);
    var r := Render(e, 7);
    assert v.ts[c + 0] == r[0] && (e.MapLiteral? ==> v.ts[c + 1] == r[1]);
  }

  lemma LeafParse(v: View, c: nat, e: Expr)
    requires Faithful(v) && Level(e) == 7 && !e.Call? && !e.Array? && !e.Index? && !e.Slice? && e != Nil
    requires Is(v.ts, c, LeafToken(e)) && (e.MapLiteral? ==> Is(v.ts, c + 1, RBrace)) && (!e.MapLiteral? ==> Stops(v.ts, c + 1, 7))
    ensures v.parse(c, 7) == Got(e, c + if e.MapLiteral? then 2 else 1)
  {
    assert v.parse(c, 7) == ParseAt(v.ts, c, 7);
    assert ParseAt(v.ts, c, 7) == ParseAtom(v.ts, c);
  }

  // ---------------------------------------------------------------- lists of expressions

  function Items(e: Expr): seq<Expr>
    requires e.Call? || e.Array?
  {
    if e.Call? then e.args else e.elements
  }

  function Closing(e: Expr): Token { if e.Call? then RParen else RSquare }

  /** The `i`-th item in place: its end, the start of the next, and what stands between. */
  ghost predicate ItemsFrom(v: View, c: nat, e: Expr, i: nat, end: nat)
    requires e.Call? || e.Array?
    decreases |Items(e)| - i
  {
    if i >= |Items(e)| then i == |Items(e)| && c == end && Is(v.ts, c, Closing(e))
    else
      var x := Items(e)[i];
      var mid := c + v.size(x, 0);
      && v.at(c, x, 0)
      && if i + 1 < |Items(e)| then Is(v.ts, mid, Comma) && ItemsFrom(v, mid + 1, e, i + 1, end)
         else mid == end && Is(v.ts, mid, Closing(e))
  }

  lemma {:induction false} ListItems(v: View, c: nat, e: Expr, i: nat, es: seq<Expr>)
    requires Faithful(v) && (e.Call? || e.Array?) && i <= |Items(e)| && es == Items(e)[i..] && (forall k :: 0 <= k < |es| ==> Grammatical(es[k]))
    requires Placed(v.ts, c, List(es)) && Is(v.ts, c + |List(es)|, Closing(e))
    ensures ItemsFrom(v, c, e, i, c + |List(es)|)
    decreases |es|
  {
    if es != [] {
      assert es[0] == Items(e)[i] && es[1..] == Items(e)[i + 1..];
      ListHead(v, c, es);
      if |es| > 1 { ListItems(v, c + v.size(es[0], 0) + 1, e, i + 1, es[1..]); }
      ItemFirst(v, c, e, i, c + |List(es)|);
    }
  }

  lemma ListHead(v: View, c: nat, es: seq<Expr>)
    requires Faithful(v) && es != [] && Grammatical(es[0]) && Placed(v.ts, c, List(es))
    ensures v.at(c, es[0], 0) && (|es| == 1 ==> |List(es)| == v.size(es[0], 0))
    ensures |es| > 1 ==>
      var mid := c + v.size(es[0], 0);
      Is(v.ts, mid, Comma) && Placed(v.ts, mid + 1, List(es[1..])) && c + |List(es)| == mid + 1 + |List(es[1..])|
  {
    var x := ListParts(v, es);
    if |es| > 1 { Around(v.ts, c, x, Comma, List(es[1..])); }
    assert v.at(c, es[0], 0);
  }

  lemma ListParts(v: View, es: seq<Expr>) returns (x: Tokens)
    requires Faithful(v) && es != [] && Grammatical(es[0])
    ensures Spells(v, x, es[0]) && es[0] != Nil && List(es) == if |es| == 1 then x else x + [Comma] + List(es[1..])
  {
    x := Spelled(v, es[0]);
  }

  lemma ItemFirst(v: View, c: nat, e: Expr, i: nat, end: nat)
    requires (e.Call? || e.Array?) && i < |Items(e)| && v.at(c, Items(e)[i], 0)
    requires var mid := c + v.size(Items(e)[i], 0);
      if i + 1 < |Items(e)| then Is(v.ts, mid, Comma) && ItemsFrom(v, mid + 1, e, i + 1, end) else mid == end && Is(v.ts, mid, Closing(e))
    ensures ItemsFrom(v, c, e, i, end)
  {
  }

  function Opening(e: Expr): Tokens { if e.Call? then [CalleeToken(e.callee), LParen] else [LSquare] }

  lemma ItemsText(v: View, c: nat, e: Expr) returns (items: Tokens)
    requires Faithful(v) && (e.Call? || e.Array?) && v.at(c, e, 7)
    ensures items == List(Items(e)) && Placed(v.ts, c, Opening(e) + items + [Closing(e)]) && v.size(e, 7) == |Opening(e)| + |items| + 1
    ensures forall k :: 0 <= k < |Items(e)| ==> Grammatical(Items(e)[k])
  {
    AtIs(v, c, e, 7);
    items := List(Items(e));
  }

  lemma OpeningPlaces(ts: Tokens, c: nat, e: Expr, items: Tokens)
    requires (e.Call? || e.Array?) && Placed(ts, c, Opening(e) + items + [Closing(e)])
    ensures Placed(ts, c + |Opening(e)|, items) && Is(ts, c + |Opening(e)| + |items|, Closing(e)) && Is(ts, c, Opening(e)[0])
    ensures e.Call? ==> Is(ts, c + 1, LParen)
  {
    var head := Opening(e);
    Ended(ts, c, head + items, Closing(e));
    Split(ts, c, head, items);
    assert ts[c + 0] == head[0] && (e.Call? ==> ts[c + 1] == head[1]);
  }

  /** A call or an array literal, and where its items are. */
  lemma ItemsParts(v: View, c: nat, e: Expr) returns (first: nat, end: nat)
    requires Faithful(v) && (e.Call? || e.Array?) && v.at(c, e, 7)
    ensures ItemsFrom(v, first, e, 0, end) && end + 1 == c + v.size(e, 7) && first == c + (if e.Call? then 2 else 1)
    ensures e.Call? ==> Is(v.ts, c, CalleeToken(e.callee)) && Is(v.ts, c + 1, LParen)
    ensures e.Array? ==> Is(v.ts, c, LSquare)
  {
    var items := ItemsText(v, c, e);
    OpeningPlaces(v.ts, c, e, items);
    first := c + |Opening(e)|;
    end := first + |items|;
    assert Items(e)[0..] == Items(e);
    ListItems(v, first, e, 0, Items(e));
  }

  /** What the loops over arguments and elements give from item `i` on. */
  ghost function ItemsParse(v: View, c: nat, e: Expr, i: nat): Parse
    requires (e.Call? || e.Array?) && c <= |v.ts| && i <= |Items(e)|
  {
    if e.Call? then ParseArgs(v.ts, c, e.callee, e.args[..i]) else ParseElements(v.ts, c, e.elements[..i])
  }

  lemma ItemStep(v: View, c: nat, e: Expr, i: nat, mid: nat)
    requires Faithful(v) && (e.Call? || e.Array?) && i < |Items(e)| && c < |v.ts| && Opens(v.ts[c]) && Items(e)[i] != Nil
    requires v.parse(c, 0) == Got(Items(e)[i], mid)
    ensures i + 1 < |Items(e)| && Is(v.ts, mid, Comma) ==> ItemsParse(v, c, e, i) == ItemsParse(v, mid + 1, e, i + 1)
    ensures i + 1 == |Items(e)| && Is(v.ts, mid, Closing(e)) ==> ItemsParse(v, c, e, i) == Got(e, mid + 1)
  {
    assert v.parse(c, 0) == ParseAt(v.ts, c, 0);
    assert Items(e)[..i] + [Items(e)[i]] == Items(e)[..i + 1];
    if i + 1 == |Items(e)| && Is(v.ts, mid, Closing(e)) {
      assert Items(e)[..i + 1] == Items(e);
      assert e.Call? ==> ParseArgs(v.ts, mid, e.callee, e.args) == Got(e, mid + 1);
    }
  }

  lemma {:induction false} ItemsLoop(v: View, c: nat, e: Expr, i: nat, end: nat)
    requires Faithful(v) && (e.Call? || e.Array?) && i < |Items(e)| && c <= |v.ts| && ItemsFrom(v, c, e, i, end)
    ensures ItemsParse(v, c, e, i) == Got(e, end + 1)
    decreases e, 0, 0, |Items(e)| - i
  {
    var x := Items(e)[i];
    var mid := c + v.size(x, 0);
    FirstIs(v, c, x, 0);
    ParseBack(v, c, x, 0);
    ItemStep(v, c, e, i, mid);
    if i + 1 < |Items(e)| { ItemsLoop(v, mid + 1, e, i + 1, end); }
  }

  lemma ItemsAtom(v: View, c: nat, e: Expr)
    requires Faithful(v) && c + 1 < |v.ts|
    ensures e.Call? && Is(v.ts, c, CalleeToken(e.callee)) && Is(v.ts, c + 1, LParen) ==> v.parse(c, 7) == ParseArgs(v.ts, c + 2, e.callee, [])
    ensures Is(v.ts, c, LSquare) ==> v.parse(c, 7) == if v.ts[c + 1] == RSquare then Got(Array([]), c + 2) else ParseElements(v.ts, c + 1, [])
  {
    assert v.parse(c, 7) == ParseAt(v.ts, c, 7);
    assert ParseAt(v.ts, c, 7) == ParseAtom(v.ts, c);
  }

  lemma {:induction false} ItemsBack(v: View, c: nat, e: Expr)
    requires Faithful(v) && c <= |v.ts| && (e.Call? || e.Array?) && v.at(c, e, 7)
    ensures v.parse(c, 7) == Got(e, c + v.size(e, 7))
    decreases e, 0, 0, |Items(e)| + 1
  {
    var first, end := ItemsParts(v, c, e);
    ItemsAtom(v, c, e);
    assert Items(e)[..0] == [];
    if Items(e) == [] {
      assert e.Call? ==> ParseArgs(v.ts, first, e.callee, []) == Got(Call(e.callee, []), first + 1);
    } else {
      FirstIs(v, first, Items(e)[0], 0);
      ItemsLoop(v, first, e, 0, end);
    }
  }

  // ---------------------------------------------------------------- brackets

  lemma BracketAtom(v: View, c: nat, x: string)
    requires Faithful(v) && Is(v.ts, c, NameToken(x)) && Is(v.ts, c + 1, LSquare)
    ensures v.parse(c, 7) == ParseIndex(v.ts, c + 2, Identifier(x))
  {
    assert v.parse(c, 7) == ParseAt(v.ts, c, 7);
    assert ParseAt(v.ts, c, 7) == ParseAtom(v.ts, c);
  }

  lemma IndexParts(v: View, c: nat, e: Expr)
    requires Faithful(v) && e.Index? && v.at(c, e, 7)
    ensures e.base.Identifier? && Is(v.ts, c, NameToken(e.base.name)) && Is(v.ts, c + 1, LSquare)
    ensures var end := c + 2 + v.size(e.index, 0); v.at(c + 2, e.index, 0) && Is(v.ts, end, RSquare) && end + 1 == c + v.size(e, 7)
  {
    AtIs(v, c, e, 7);
    var head, x := [BaseToken(e.base), LSquare], Render(e.index, 0);
    assert Render(e, 7) == head + x + [RSquare];
    Ended(v.ts, c, head + x, RSquare);
    Split(v.ts, c, head, x);
    assert v.ts[c + 0] == head[0] && v.ts[c + 1] == head[1];
    AtIs(v, c + 2, e.index, 0);
  }

  lemma {:induction false} IndexBack(v: View, c: nat, e: Expr)
    requires Faithful(v) && c <= |v.ts| && e.Index? && v.at(c, e, 7)
    ensures v.parse(c, 7) == Got(e, c + v.size(e, 7))
    decreases e, 0, 0, 2
  {
    IndexParts(v, c, e);
    BracketAtom(v, c, e.base.name);
    FirstIs(v, c + 2, e.index, 0);
    ParseBack(v, c + 2, e.index, 0);
    IndexParse(v, c + 2, e, c + 2 + v.size(e.index, 0));
  }

  lemma IndexParse(v: View, c: nat, e: Expr, mid: nat)
    requires Faithful(v) && e.Index? && e.index != Nil && c < |v.ts| && v.ts[c] != Colon && v.parse(c, 0) == Got(e.index, mid) && Is(v.ts, mid, RSquare)
    ensures ParseIndex(v.ts, c, e.base) == Got(e, mid + 1)
  {
    assert v.parse(c, 0) == ParseAt(v.ts, c, 0);
  }

  /** A part of a slice that may be missing. */
  ghost predicate PartAt(v: View, c: nat, x: Expr) { if x == Nil then v.size(x, 0) == 0 else v.at(c, x, 0) }

  /** The tokens `x` are those of tree `e`, wherever they stand. */
  ghost predicate Spells(v: View, x: Tokens, e: Expr) {
    |x| == v.size(e, 0) && (e == Nil ==> x == []) && forall c: nat {:trigger v.at(c, e, 0)} :: e != Nil && Placed(v.ts, c, x) ==> v.at(c, e, 0)
  }

  lemma Spelled(v: View, e: Expr) returns (x: Tokens)
    requires Faithful(v) && (e == Nil || Grammatical(e))
    ensures x == Render(e, 0) && Spells(v, x, e)
  {
    x := Render(e, 0);
    forall c: nat | e != Nil && Placed(v.ts, c, x) ensures v.at(c, e, 0) { AtIs(v, c, e, 0); }
    AtIs(v, 0, e, 0);
  }

  lemma SliceText(v: View, c: nat, e: Expr) returns (x: Tokens, y: Tokens)
    requires Faithful(v) && e.Slice? && v.at(c, e, 7)
    ensures Placed(v.ts, c, [BaseToken(e.base), LSquare] + x + [Colon] + y + [RSquare]) && v.size(e, 7) == |x| + |y| + 4
    ensures Spells(v, x, e.start) && Spells(v, y, e.end) && e.base.Identifier? && (e.start != Nil || e.end != Nil)
  {
    AtIs(v, c, e, 7);
    x := Spelled(v, e.start);
    y := Spelled(v, e.end);
  }

  lemma SliceParts(v: View, c: nat, e: Expr)
    requires Faithful(v) && e.Slice? && v.at(c, e, 7)
    ensures e.base.Identifier? && Is(v.ts, c, NameToken(e.base.name)) && Is(v.ts, c + 1, LSquare) && (e.start != Nil || e.end != Nil)
    ensures var mid := c + 2 + v.size(e.start, 0); var end := mid + 1 + v.size(e.end, 0);
      PartAt(v, c + 2, e.start) && Is(v.ts, mid, Colon) && PartAt(v, mid + 1, e.end) && Is(v.ts, end, RSquare) && end + 1 == c + v.size(e, 7)
  {
    var x, y := SliceText(v, c, e);
    SlicePlaces(v.ts, c, [BaseToken(e.base), LSquare], x, y);
  }

  lemma SlicePlaces(ts: Tokens, c: nat, b: Tokens, x: Tokens, y: Tokens)
    requires Placed(ts, c, b + x + [Colon] + y + [RSquare]) && |b| == 2
    ensures Is(ts, c, b[0]) && Is(ts, c + 1, b[1]) && Placed(ts, c + 2, x) && Is(ts, c + 2 + |x|, Colon)
    ensures Placed(ts, c + 3 + |x|, y) && Is(ts, c + 3 + |x| + |y|, RSquare)
  {
    Ended(ts, c, b + x + [Colon] + y, RSquare);
    Around(ts, c, b + x, Colon, y);
    Split(ts, c, b, x);
    assert ts[c + 0] == b[0] && ts[c + 1] == b[1];
  }

  /** `[:j]`, `[i:]` and `[i:j]`. */
  lemma SliceParse(v: View, c: nat, e: Expr, mid: nat, end: nat)
    requires Faithful(v) && e.Slice? && c <= mid < end < |v.ts| && (e.start != Nil || e.end != Nil) && v.ts[mid] == Colon && v.ts[end] == RSquare
    requires if e.start == Nil then mid == c else v.ts[c] != Colon && v.parse(c, 0) == Got(e.start, mid)
    requires if e.end == Nil then end == mid + 1 else v.ts[mid + 1] != RSquare && v.parse(mid + 1, 0) == Got(e.end, end)
    ensures ParseIndex(v.ts, c, e.base) == Got(e, end + 1)
  {
    assert v.parse(c, 0) == ParseAt(v.ts, c, 0) && v.parse(mid + 1, 0) == ParseAt(v.ts, mid + 1, 0);
  }

  lemma {:induction false} SliceBack(v: View, c: nat, e: Expr)
    requires Faithful(v) && c <= |v.ts| && e.Slice? && v.at(c, e, 7)
    ensures v.parse(c, 7) == Got(e, c + v.size(e, 7))
    decreases e, 0, 0, 2
  {
    SliceParts(v, c, e);
    var mid := c + 2 + v.size(e.start, 0);
    var end := mid + 1 + v.size(e.end, 0);
    BracketAtom(v, c, e.base.name);
    PartBack(v, c + 2, e, e.start, mid);
    PartBack(v, mid + 1, e, e.end, end);
    SliceParse(v, c + 2, e, mid, end);
  }

  lemma {:induction false} PartBack(v: View, c: nat, e: Expr, x: Expr, end: nat)
    requires Faithful(v) && c <= |v.ts| && e.Slice? && (x == e.start || x == e.end) && PartAt(v, c, x) && end == c + v.size(x, 0) && Stops(v.ts, end, 0)
    ensures x != Nil ==> c < |v.ts| && Opens(v.ts[c]) && v.parse(c, 0) == Got(x, end)
    decreases e, 0, 0, 1
  {
    if x != Nil {
      FirstIs(v, c, x, 0);
      ParseBack(v, c, x, 0);
    }
  }

  /** The parser inverts rendering: every tree of the grammar, rendered with the fewest parentheses and parsed, comes back
      whole, with the cursor at the end. */
  lemma RenderThenParse(e: Expr)
    requires Grammatical(e)
    ensures ParseAt(Render(e, 0), 0, 0) == Got(e, |Render(e, 0)|)
  {
    var ts := Render(e, 0);
    var v := ViewOf(ts);
    AtIs(v, 0, e, 0);
    ParseBack(v, 0, e, 0);
    assert v.parse(0, 0) == ParseAt(ts, 0, 0);
  }
}
