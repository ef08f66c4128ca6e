/** The expression parser (marigold/parser.go): recursive descent over a cursor. */
module Parser {
  import opened Ast

  /** Tokens an expression can meet. `OpToken(Minus)` also is unary minus. */
  datatype Token =
    | IntToken(value: nat) | LiteralToken(kind: LiteralKind, text: string) | NameToken(name: string)
    | LenToken | EmitToken | StopToken | AssertToken
    | OpToken(op: BinaryOp) | NotToken
    | LParen | RParen | LSquare | RSquare | LBrace | RBrace | Comma | Colon | OtherToken(text: string)

  /** The tree found and the cursor after it; `Nil` is no expression. `Panic` is a parser that gave up for good. */
  datatype Parse = Got(expr: Expr, at: nat) | Panic

  /** How tightly an operator binds, from || to ^. */
  function LevelOf(op: BinaryOp): nat {
    match op
    case LogicalOr => 0
    case LogicalAnd => 1
    case Equal | NotEqual | LessThan | GreaterThan | LessEqual | GreaterEqual => 2
    case Plus | Minus => 3
    case Multiply | Divide | Modulo => 4
    case Exponent => 5
  }

  predicate Is(ts: seq<Token>, c: nat, t: Token) { c < |ts| && ts[c] == t }

  predicate OpAt(ts: seq<Token>, c: nat, level: nat) { c < |ts| && ts[c].OpToken? && LevelOf(ts[c].op) == level }

  /** A result moves the cursor forward, strictly if it is an expression. */
  predicate Moves(ts: seq<Token>, c: nat, r: Parse) { r.Got? ==> c <= r.at <= |ts| && (r.expr != Nil ==> c < r.at) }

  /** parseLogicalOr (0), parseLogicalAnd (1), parseRelational (2), parseAdditive (3), parseTerm (4), parsePower (5),
      parseFactor (6) and parseAtom (7). */
  function ParseAt(ts: seq<Token>, c: nat, level: nat): (r: Parse)
    requires c <= |ts| && level <= 7
    ensures Moves(ts, c, r)
    decreases |ts| - c, 8 - level, 1
  {
    if level <= 4 then
      var l := ParseAt(ts, c, level + 1);
      if l.Panic? || l.expr == Nil then l else Fold(ts, l.at, level, l.expr)
    else if level == 5 then
      var l := ParseAt(ts, c, 6);
      if l.Panic? || l.expr == Nil || !Is(ts, l.at, OpToken(Exponent)) then l
      else
        var r := ParseAt(ts, l.at + 1, 5);
        if r.Panic? then Panic else Got(Binary(Exponent, l.expr, r.expr), r.at)
    else if level == 6 then
      if Is(ts, c, OpToken(Minus)) || Is(ts, c, NotToken) then
        var r := ParseAt(ts, c + 1, 6);
        if r.Panic? then Panic else Got(Unary(if ts[c] == NotToken then Not else Negate, r.expr), r.at)
      else ParseAt(ts, c, 7)
    else ParseAtom(ts, c)
  }

  /** The loop of the left-associative levels. A missing right operand becomes Nil. */
  function Fold(ts: seq<Token>, c: nat, level: nat, left: Expr): (r: Parse)
    requires c <= |ts| && level <= 4 && left != Nil
    ensures r.Got? ==> c <= r.at <= |ts| && r.expr != Nil
    decreases |ts| - c, 8 - level, 0
  {
    if !OpAt(ts, c, level) then Got(left, c)
    else
      var r := ParseAt(ts, c + 1, level + 1);
      if r.Panic? then Panic else Fold(ts, r.at, level, Binary(ts[c].op, left, r.expr))
  }

  function ParseAtom(ts: seq<Token>, c: nat): (r: Parse)
    requires c <= |ts|
    ensures Moves(ts, c, r)
    decreases |ts| - c, 1, 0
  {
    if c == |ts| then Got(Nil, c)
    else match ts[c]
         case IntToken(n) => Got(Number(n), c + 1)
         case LiteralToken(k, t) => Got(Literal(k, t), c + 1)
         case NameToken(x) =>
           if Is(ts, c + 1, LParen) then ParseArgs(ts, c + 2, Named(x), [])
           else if Is(ts, c + 1, LSquare) then ParseIndex(ts, c + 2, Identifier(x))
           else Got(Identifier(x), c + 1)
         case LenToken => if Is(ts, c + 1, LParen) then ParseArgs(ts, c + 2, LenFn, []) else Panic
         case EmitToken => if Is(ts, c + 1, LParen) then ParseArgs(ts, c + 2, EmitFn, []) else Panic
         case StopToken => if Is(ts, c + 1, LParen) then ParseArgs(ts, c + 2, StopFn, []) else Panic
         case AssertToken => if Is(ts, c + 1, LParen) then ParseArgs(ts, c + 2, AssertFn, []) else Panic
         case LParen =>
           var r := ParseAt(ts, c + 1, 0);
           if r.Panic? || !Is(ts, r.at, RParen) then Panic else Got(r.expr, r.at + 1)
         case LSquare => if Is(ts, c + 1, RSquare) then Got(Array([]), c + 2) else ParseElements(ts, c + 1, [])
         case LBrace =>
           if c + 1 == |ts| then Panic else if ts[c + 1] == RBrace then Got(MapLiteral, c + 2) else Got(Nil, c + 1)
         case _ => Got(Nil, c)
  }

  /** parseFunctionCall after the parenthesis: expressions up to `)`, commas optional. At the end of input the code
      dereferences nil. */
  function ParseArgs(ts: seq<Token>, c: nat, f: Callee, args: seq<Expr>): (r: Parse)
    requires c <= |ts|
    ensures r.Got? ==> c <= r.at <= |ts|
    decreases |ts| - c, 10, 0
  {
    if c == |ts| then Panic
    else if ts[c] == RParen then Got(Call(f, args), c + 1)
    else
      var r := ParseAt(ts, c, 0);
      if r.Panic? || r.expr == Nil then r
      else ParseArgs(ts, if Is(ts, r.at, Comma) then r.at + 1 else r.at, f, args + [r.expr])
  }

  /** parseArrayLiteral from its first element on. */
  function ParseElements(ts: seq<Token>, c: nat, elements: seq<Expr>): (r: Parse)
    requires c <= |ts|
    ensures r.Got? ==> c <= r.at <= |ts|
    decreases |ts| - c, 10, 0
  {
    var r := ParseAt(ts, c, 0);
    if r.Panic? || r.expr == Nil then r
    else if r.at == |ts| then Got(Nil, r.at)
    else if ts[r.at] == RSquare then Got(Array(elements + [r.expr]), r.at + 1)
    else if ts[r.at] == Comma then ParseElements(ts, r.at + 1, elements + [r.expr])
    else Got(Nil, r.at)
  }

  /** parseIndexOrSlice after the bracket: `i]`, `i:]`, `i:j]` or `:j]`. */
  function ParseIndex(ts: seq<Token>, c: nat, base: Expr): (r: Parse)
    requires c <= |ts|
    ensures r.Got? ==> c <= r.at <= |ts|
    decreases |ts| - c, 10, 0
  {
    if c == |ts| then Panic
    else if ts[c] == Colon then
      var e := ParseAt(ts, c + 1, 0);
      if e.Panic? || e.expr == Nil then e
      else if Is(ts, e.at, RSquare) then Got(Slice(base, Nil, e.expr), e.at + 1) else Panic
    else
      var i := ParseAt(ts, c, 0);
      if i.Panic? || i.expr == Nil then i
      else if i.at == |ts| then Panic
      else if ts[i.at] == RSquare then Got(Index(base, i.expr), i.at + 1)
      else if ts[i.at] != Colon then Panic
      else if i.at + 1 == |ts| then Panic
      else if ts[i.at + 1] == RSquare then Got(Slice(base, i.expr, Nil), i.at + 2)
      else
        var e := ParseAt(ts, i.at + 1, 0);
        if e.Panic? || e.expr == Nil then e
        else if Is(ts, e.at, RSquare) then Got(Slice(base, i.expr, e.expr), e.at + 1) else Panic
  }

  // ---------------------------------------------------------------- the parser at work

  class ParserContext {
    const tokens: seq<Token>
    var cursor: nat

    constructor (tokens: seq<Token>)
      ensures this.tokens == tokens && cursor == 0
    {
      this.tokens, cursor := tokens, 0;
    }

    /** The returned tree and the cursor show result `r`; `ok` is false after a panic. */
    ghost predicate Shows(r: Parse, e: Expr, ok: bool)
      reads this
    {
      match r case Got(x, at) => ok && e == x && cursor == at case Panic => !ok
    }

    predicate Peek(t: Token)
      reads this
    {
      cursor < |tokens| && tokens[cursor] == t
    }

    method Consume() returns (t: Token)
      requires cursor < |tokens|
      modifies this
      ensures cursor == old(cursor) + 1 && t == tokens[old(cursor)]
    {
      t := tokens[cursor];
      cursor := cursor + 1;
    }

    /** consumeAssert: another token, or none, is a panic. */
    method ConsumeAssert(t: Token) returns (ok: bool)
      modifies this
      ensures ok == old(Peek(t)) && cursor == old(cursor) + (if ok then 1 else 0)
    {
      ok := Peek(t);
      if ok { cursor := cursor + 1; }
    }

    /** The five left-associative levels: an operand, then a loop that folds into `left`. */
    method ParseBinary(level: nat) returns (left: Expr, ok: bool)
      requires cursor <= |tokens| && level <= 4
      modifies this
      ensures Shows(ParseAt(tokens, old(cursor), level), left, ok)
      decreases |tokens| - cursor, 8 - level, 1
    {
      ghost var start := cursor;
      if level == 4 { left, ok := ParsePower(); } else { left, ok := ParseBinary(level + 1); }
      if !ok || left == Nil { return; }
      while cursor < |tokens| && tokens[cursor].OpToken? && LevelOf(tokens[cursor].op) == level
        invariant start < cursor <= |tokens| && ok && left != Nil
        invariant ParseAt(tokens, start, level) == Fold(tokens, cursor, level, left)
        decreases |tokens| - cursor
      {
        var op := Consume();
        var right;
        if level == 4 { right, ok := ParsePower(); } else { right, ok := ParseBinary(level + 1); }
        if !ok { return; }
        left := Binary(op.op, left, right);
      }
    }

    /** parsePower recurses on the right. */
    method ParsePower() returns (left: Expr, ok: bool)
      requires cursor <= |tokens|
      modifies this
      ensures Shows(ParseAt(tokens, old(cursor), 5), left, ok)
      decreases |tokens| - cursor, 3, 1
    {
      left, ok := ParseFactor();
      if !ok || left == Nil { return; }
      if Peek(OpToken(Exponent)) {
        var op := Consume();
        var right;
        right, ok := ParsePower();
        left := Binary(op.op, left, right);
      }
    }

    method ParseFactor() returns (e: Expr, ok: bool)
      requires cursor <= |tokens|
      modifies this
      ensures Shows(ParseAt(tokens, old(cursor), 6), e, ok)
      decreases |tokens| - cursor, 2, 1
    {
      if Peek(OpToken(Minus)) || Peek(NotToken) {
        var op := Consume();
        e, ok := ParseFactor();
        e := Unary(if op == NotToken then Not else Negate, e);
      } else {
        assert ParseAt(tokens, cursor, 7) == ParseAtom(tokens, cursor);
        e, ok := ParseAtomHere();
      }
    }

    method ParseAtomHere() returns (e: Expr, ok: bool)
      requires cursor <= |tokens|
      modifies this
      ensures Shows(ParseAtom(tokens, old(cursor)), e, ok)
      decreases |tokens| - cursor, 1, 1
    {
      if cursor == |tokens| { return Nil, true; }
      var t := tokens[cursor];
      match t
      case IntToken(n) =>
        cursor := cursor + 1;
        return Number(n), true;
      case LiteralToken(k, x) =>
        cursor := cursor + 1;
        return Literal(k, x), true;
      case NameToken(x) =>
        if cursor + 1 < |tokens| && tokens[cursor + 1] == LParen {
          cursor := cursor + 2;
          e, ok := ParseFunctionCall(Named(x));
        } else {
          cursor := cursor + 1;
          if Peek(LSquare) {
            cursor := cursor + 1;
            e, ok := ParseIndexOrSlice(Identifier(x));
          } else {
            return Identifier(x), true;
          }
        }
      case LenToken => e, ok := ParseKeyword(LenFn);
      case EmitToken => e, ok := ParseKeyword(EmitFn);
      case StopToken => e, ok := ParseKeyword(StopFn);
      case AssertToken => e, ok := ParseKeyword(AssertFn);
      case LParen =>
        cursor := cursor + 1;
        e, ok := ParseBinary(0);
        if ok { ok := ConsumeAssert(RParen); }
      case LSquare =>
        cursor := cursor + 1;
        if Peek(RSquare) {
          cursor := cursor + 1;
          return Array([]), true;
        }
        e, ok := ParseArrayLiteral();
      case LBrace =>
        cursor := cursor + 1;
        if cursor == |tokens| { return Nil, false; }
        if tokens[cursor] != RBrace { return Nil, true; }
        cursor := cursor + 1;
        return MapLiteral, true;
      case _ => return Nil, true;
    }

    /** `len`, `emit`, `stop` and `assert` have to be followed by a parenthesis. */
    method ParseKeyword(f: Callee) returns (e: Expr, ok: bool)
      requires cursor < |tokens|
      modifies this
      ensures Shows(if Is(tokens, old(cursor) + 1, LParen) then ParseArgs(tokens, old(cursor) + 2, f, []) else Panic, e, ok)
      decreases |tokens| - cursor, 1, 0
    {
      if cursor + 1 >= |tokens| || tokens[cursor + 1] != LParen { return Nil, false; }
      cursor := cursor + 2;
      e, ok := ParseFunctionCall(f);
    }

    method ParseFunctionCall(f: Callee) returns (e: Expr, ok: bool)
      requires cursor <= |tokens|
      modifies this
      ensures Shows(ParseArgs(tokens, old(cursor), f, []), e, ok)
      decreases |tokens| - cursor, 10, 1
    {
      ghost var start := cursor;
      var args := [];
      while true
        invariant start <= cursor <= |tokens| && ParseArgs(tokens, start, f, []) == ParseArgs(tokens, cursor, f, args)
        decreases |tokens| - cursor
      {
        if cursor == |tokens| { return Nil, false; }
        if tokens[cursor] == RParen { break; }
        e, ok := ParseBinary(0);
        if !ok || e == Nil { return; }
        args := args + [e];
        if Peek(Comma) { cursor := cursor + 1; }
      }
      cursor := cursor + 1;
      return Call(f, args), true;
    }

    method ParseArrayLiteral() returns (e: Expr, ok: bool)
      requires cursor <= |tokens|
      modifies this
      ensures Shows(ParseElements(tokens, old(cursor), []), e, ok)
      decreases |tokens| - cursor, 10, 1
    {
      ghost var start := cursor;
      var elements := [];
      while true
        invariant start <= cursor <= |tokens| && ParseElements(tokens, start, []) == ParseElements(tokens, cursor, elements)
        decreases |tokens| - cursor
      {
        e, ok := ParseBinary(0);
        if !ok || e == Nil { return; }
        if cursor == |tokens| { return Nil, true; }
        if tokens[cursor] == RSquare {
          cursor := cursor + 1;
          return Array(elements + [e]), true;
        }
        if tokens[cursor] != Comma { return Nil, true; }
        elements := elements + [e];
        cursor := cursor + 1;
      }
    }

    method ParseIndexOrSlice(base: Expr) returns (e: Expr, ok: bool)
      requires cursor <= |tokens|
      modifies this
      ensures Shows(ParseIndex(tokens, old(cursor), base), e, ok)
      decreases |tokens| - cursor, 10, 1
    {
      if cursor == |tokens| { return Nil, false; }
      if Peek(Colon) {
        cursor := cursor + 1;
        e, ok := ParseBinary(0);
        if !ok || e == Nil { return; }
        ok := ConsumeAssert(RSquare);
        return Slice(base, Nil, e), ok;
      }
      var i;
      i, ok := ParseBinary(0);
      if !ok || i == Nil { return i, ok; }
      if cursor == |tokens| { return Nil, false; }
      if !Peek(Colon) {
        ok := ConsumeAssert(RSquare);
        return Index(base, i), ok;
      }
      cursor := cursor + 1;
      if cursor == |tokens| { return Nil, false; }
      e := Nil;
      if !Peek(RSquare) {
        e, ok := ParseBinary(0);
        if !ok || e == Nil { return; }
      }
      ok := ConsumeAssert(RSquare);
      return Slice(base, i, e), ok;
    }
  }
}
