/** The rendering needs its parentheses: whatever tokens parse to a tree, they hold at least as many. */
module Parentheses {
  import opened Text
  import opened Ast
  import opened Parser
  import opened Rendering

  // ---------------------------------------------------------------- counting

  function Parens(s: Tokens): nat { if s == [] then 0 else (if s[0] == LParen then 1 else 0) + Parens(s[1..]) }

  lemma {:induction false} ParensPlus(a: Tokens, b: Tokens)
    ensures Parens(a + b) == Parens(a) + Parens(b)
  {
    if a == [] {
      assert a + b == b;
    } else {
      ParensPlus(a[1..], b);
      assert (a + b)[1..] == a[1..] + b;
    }
  }

  lemma ParensOne(t: Token)
    ensures Parens([t]) == if t == LParen then 1 else 0
  {
    assert [t][1..] == [];
  }

  lemma ParensMid(a: Tokens, t: Token, b: Tokens)
    ensures Parens(a + [t] + b) == Parens(a) + (if t == LParen then 1 else 0) + Parens(b)
  {
    ParensPlus(a + [t], b);
    ParensPlus(a, [t]);
    ParensOne(t);
  }

  /** How many parentheses are opened from `c` to `end`. */
  function Between(ts: Tokens, c: nat, end: nat): nat
    requires c <= end <= |ts|
  {
    Parens(ts[c..end])
  }

  lemma BetweenPlus(ts: Tokens, c: nat, mid: nat, end: nat)
    requires c <= mid <= end <= |ts|
    ensures Between(ts, c, end) == Between(ts, c, mid) + Between(ts, mid, end)
  {
    ParensPlus(ts[c..mid], ts[mid..end]);
    assert ts[c..mid] + ts[mid..end] == ts[c..end];
  }

  lemma BetweenNext(ts: Tokens, c: nat, end: nat)
    requires c < end <= |ts|
    ensures Between(ts, c, end) == (if ts[c] == LParen then 1 else 0) + Between(ts, c + 1, end)
  {
    assert ts[c..end][1..] == ts[c + 1..end];
  }

  // ---------------------------------------------------------------- the parentheses of a tree

  function Cost(e: Expr, level: nat): nat { Parens(Render(e, level)) }

  lemma CostIs(e: Expr, level: nat)
    ensures Cost(e, level) == Parens(Bare(e)) + (if Level(e) < level then 1 else 0)
  {
    if Level(e) < level {
      ParensPlus([LParen] + Bare(e), [RParen]);
      ParensPlus([LParen], Bare(e));
      ParensOne(LParen);
      ParensOne(RParen);
    }
  }

  function Sum(es: seq<Expr>): nat { if es == [] then 0 else Cost(es[0], 0) + Sum(es[1..]) }

  lemma {:induction false} ListCost(es: seq<Expr>)
    ensures Parens(List(es)) == Sum(es)
    decreases |es|
  {
    if es != [] {
      ListCost(es[1..]);
      if |es| > 1 { ParensMid(Render(es[0], 0), Comma, List(es[1..])); }
    }
  }

  lemma {:induction false} SumPlus(es: seq<Expr>, x: Expr)
    ensures Sum(es + [x]) == Sum(es) + Cost(x, 0)
    decreases |es|
  {
    if es == [] {
      assert es + [x] == [x] && [x][1..] == [];
    } else {
      SumPlus(es[1..], x);
      assert (es + [x])[1..] == es[1..] + [x] && (es + [x])[0] == es[0];
    }
  }

  lemma BinaryCost(op: BinaryOp, l: Expr, r: Expr)
    ensures Cost(Binary(op, l, r), LevelOf(op)) == Cost(l, LeftLevel(op)) + Cost(r, RightLevel(op))
  {
    assert Render(Binary(op, l, r), LevelOf(op)) == Render(l, LeftLevel(op)) + [OpToken(op)] + Render(r, RightLevel(op));
    ParensMid(Render(l, LeftLevel(op)), OpToken(op), Render(r, RightLevel(op)));
  }

  lemma UnaryCost(op: UnaryOp, x: Expr)
    ensures Cost(Unary(op, x), 6) == Cost(x, 6)
  {
    assert Render(Unary(op, x), 6) == [UnaryToken(op)] + Render(x, 6);
    ParensPlus([UnaryToken(op)], Render(x, 6));
    ParensOne(UnaryToken(op));
  }

  lemma ItemsCost(e: Expr)
    requires e.Call? || e.Array?
    ensures Cost(e, 7) == Sum(Items(e)) + (if e.Call? then 1 else 0)
  {
    var items := List(Items(e));
    ListCost(Items(e));
    assert Render(e, 7) == Opening(e) + items + [Closing(e)];
    ParensPlus(Opening(e) + items, [Closing(e)]);
    ParensPlus(Opening(e), items);
    ParensOne(Closing(e));
    if e.Call? {
      ParensPlus([CalleeToken(e.callee)], [LParen]);
      assert [CalleeToken(e.callee)] + [LParen] == Opening(e);
      ParensOne(CalleeToken(e.callee));
      ParensOne(LParen);
    } else {
      ParensOne(LSquare);
    }
  }

  lemma IndexCost(b: Expr, i: Expr)
    ensures Cost(Index(b, i), 7) == Cost(i, 0)
  {
    var head := [BaseToken(b), LSquare];
    assert Render(Index(b, i), 7) == head + Render(i, 0) + [RSquare];
    ParensPlus(head + Render(i, 0), [RSquare]);
    ParensPlus(head, Render(i, 0));
    HeadCost(b);
    ParensOne(RSquare);
  }

  lemma HeadCost(b: Expr)
    ensures Parens([BaseToken(b), LSquare]) == 0
  {
    assert [BaseToken(b), LSquare][1..] == [LSquare];
    ParensOne(LSquare);
  }

  lemma SliceCost(b: Expr, s: Expr, t: Expr)
    ensures Cost(Slice(b, s, t), 7) == Cost(s, 0) + Cost(t, 0)
  {
    var head := [BaseToken(b), LSquare];
    assert Render(Slice(b, s, t), 7) == head + Render(s, 0) + [Colon] + Render(t, 0) + [RSquare];
    ParensPlus(head + Render(s, 0) + [Colon] + Render(t, 0), [RSquare]);
    ParensMid(head + Render(s, 0), Colon, Render(t, 0));
    ParensPlus(head, Render(s, 0));
    HeadCost(b);
    ParensOne(RSquare);
  }

  // ---------------------------------------------------------------- enough parentheses

  /** The counts for one token list, as functions. */
  datatype Measure = Measure(ts: Tokens, cost: (Expr, nat) -> nat, sum: seq<Expr> -> nat, between: (nat, nat) -> nat)

  ghost predicate Exact(m: Measure) {
    && (forall e, l: nat {:trigger Cost(e, l)} :: m.cost(e, l) == Cost(e, l))
    && (forall es {:trigger Sum(es)} :: m.sum(es) == Sum(es))
    && (forall c: nat, end: nat {:trigger Between(m.ts, c, end)} :: c <= end <= |m.ts| ==> m.between(c, end) == Between(m.ts, c, end))
  }

  ghost function MeasureOf(ts: Tokens): (m: Measure)
    ensures Exact(m) && m.ts == ts
  {
    Measure(ts, (e: Expr, l: nat) => Cost(e, l), (es: seq<Expr>) => Sum(es), (c: nat, end: nat) => if c <= end <= |ts| then Between(ts, c, end) else 0)
  }

  /** If the result is a tree of the grammar, the tokens consumed open at least as many parentheses as its rendering. */
  ghost predicate Enough(m: Measure, c: nat, level: nat, r: Parse) {
    r.Got? && Grammatical(r.expr) ==> c <= r.at <= |m.ts| && m.cost(r.expr, level) <= m.between(c, r.at)
  }

  /** The same for a loop that has `left` in hand. */
  ghost predicate EnoughFrom(m: Measure, c: nat, level: nat, left: Expr, r: Parse) {
    r.Got? && Grammatical(r.expr) ==> c <= r.at <= |m.ts| && Grammatical(left) && m.cost(r.expr, level) <= m.cost(left, level) + m.between(c, r.at)
  }

  /** The same for a loop that has the first items of a call or an array. */
  ghost predicate EnoughItems(m: Measure, c: nat, call: bool, items: seq<Expr>, r: Parse) {
    r.Got? && Grammatical(r.expr) ==>
      && c <= r.at <= |m.ts| && (if call then r.expr.Call? else r.expr.Array?) && items <= Items(r.expr)
      && m.sum(Items(r.expr)) <= m.sum(items) + m.between(c, r.at)
  }

  lemma Costs(m: Measure, e: Expr, level: nat)
    requires Exact(m)
    ensures m.cost(e, level) == Cost(e, level)
  {
    assert m.cost(e, level) == Cost(e, level);
  }

  lemma Sums(m: Measure, es: seq<Expr>)
    requires Exact(m)
    ensures m.sum(es) == Sum(es)
  {
    assert m.sum(es) == Sum(es);
  }

  lemma Counts(m: Measure, c: nat, end: nat)
    requires Exact(m) && c <= end <= |m.ts|
    ensures m.between(c, end) == Between(m.ts, c, end)
  {
    assert m.between(c, end) == Between(m.ts, c, end);
  }

  /** Two stretches, apart from each other, inside a third. */
  lemma Apart(m: Measure, c: nat, a: nat, b: nat, end: nat)
    requires Exact(m) && c <= a <= b <= end <= |m.ts|
    ensures m.between(c, a) + m.between(b, end) <= m.between(c, end)
  {
    BetweenPlus(m.ts, c, a, end);
    BetweenPlus(m.ts, a, b, end);
    Counts(m, c, a);
    Counts(m, b, end);
    Counts(m, c, end);
  }

  lemma Within(m: Measure, c: nat, a: nat, b: nat, end: nat)
    requires Exact(m) && c <= a <= b <= end <= |m.ts|
    ensures m.between(a, b) <= m.between(c, end)
  {
    BetweenPlus(m.ts, c, a, end);
    BetweenPlus(m.ts, a, b, end);
    Counts(m, a, b);
    Counts(m, c, end);
  }

  lemma Opened(m: Measure, c: nat, a: nat, b: nat, end: nat)
    requires Exact(m) && c < a <= b <= end <= |m.ts| && (m.ts[c] == LParen || (c + 1 < a && m.ts[c + 1] == LParen))
    ensures 1 + m.between(a, b) <= m.between(c, end)
  {
    Counts(m, a, b);
    Counts(m, c, end);
    BetweenPlus(m.ts, c, a, end);
    BetweenPlus(m.ts, a, b, end);
    BetweenNext(m.ts, c, a);
    if c + 1 < a { BetweenNext(m.ts, c + 1, a); }
  }

  lemma BinaryCosts(m: Measure, op: BinaryOp, l: Expr, r: Expr)
    requires Exact(m)
    ensures m.cost(Binary(op, l, r), LevelOf(op)) == m.cost(l, LeftLevel(op)) + m.cost(r, RightLevel(op))
  {
    BinaryCost(op, l, r);
    Costs(m, Binary(op, l, r), LevelOf(op));
    Costs(m, l, LeftLevel(op));
    Costs(m, r, RightLevel(op));
  }

  lemma UnaryCosts(m: Measure, op: UnaryOp, x: Expr)
    requires Exact(m)
    ensures m.cost(Unary(op, x), 6) == m.cost(x, 6)
  {
    UnaryCost(op, x);
    Costs(m, Unary(op, x), 6);
    Costs(m, x, 6);
  }

  lemma ItemsCosts(m: Measure, e: Expr)
    requires Exact(m) && (e.Call? || e.Array?)
    ensures m.cost(e, 7) == m.sum(Items(e)) + (if e.Call? then 1 else 0)
  {
    ItemsCost(e);
    Costs(m, e, 7);
    Sums(m, Items(e));
  }

  lemma SumsPlus(m: Measure, es: seq<Expr>, x: Expr)
    requires Exact(m)
    ensures m.sum(es + [x]) == m.sum(es) + m.cost(x, 0) && m.sum([]) == 0
  {
    SumPlus(es, x);
    Sums(m, es + [x]);
    Sums(m, es);
    Sums(m, []);
    Costs(m, x, 0);
  }

  lemma BracketCosts(m: Measure, b: Expr, i: Expr, j: Expr)
    requires Exact(m)
    ensures m.cost(Index(b, i), 7) == m.cost(i, 0) && m.cost(Slice(b, i, j), 7) == m.cost(i, 0) + m.cost(j, 0) && m.cost(Nil, 0) == 0
  {
    IndexCost(b, i);
    SliceCost(b, i, j);
    CostIs(Nil, 0);
    Costs(m, Index(b, i), 7);
    Costs(m, Slice(b, i, j), 7);
    Costs(m, i, 0);
    Costs(m, j, 0);
    Costs(m, Nil, 0);
  }

  lemma Tighter(m: Measure, e: Expr, level: nat)
    requires Exact(m)
    ensures m.cost(e, level) <= m.cost(e, level + 1) <= m.cost(e, 0) + 1
  {
    CostIs(e, 0);
    CostIs(e, level);
    CostIs(e, level + 1);
    Costs(m, e, 0);
    Costs(m, e, level);
    Costs(m, e, level + 1);
  }

  lemma LeafCosts(m: Measure, e: Expr)
    requires Exact(m) && IsLeaf(e)
    ensures m.cost(e, 7) == 0
  {
    Costs(m, e, 7);
    if e.Array? {
      ItemsCost(e);
    } else if e.MapLiteral? {
      ParensPlus([LBrace], [RBrace]);
      assert Bare(e) == [LBrace] + [RBrace];
      ParensOne(LBrace);
      ParensOne(RBrace);
    } else {
      ParensOne(Bare(e)[0]);
      assert Bare(e) == [Bare(e)[0]];
    }
  }

  predicate IsLeaf(e: Expr) { e.Number? || e.Literal? || e.Identifier? || e.MapLiteral? || e == Array([]) }

  // ---------------------------------------------------------------- steps of the parser

  lemma Looser(m: Measure, c: nat, level: nat, r: Parse)
    requires Exact(m) && Enough(m, c, level + 1, r)
    ensures Enough(m, c, level, r)
  {
    if r.Got? { Tighter(m, r.expr, level); }
  }

  lemma FoldLast(m: Measure, c: nat, level: nat, left: Expr)
    requires Exact(m) && c <= |m.ts|
    ensures EnoughFrom(m, c, level, left, Got(left, c))
  {
    Counts(m, c, c);
  }

  lemma FoldFirst(m: Measure, c: nat, level: nat, l: Parse, r: Parse)
    requires Exact(m) && l.Got? && c <= l.at <= |m.ts| && Enough(m, c, level + 1, l) && EnoughFrom(m, l.at, level, l.expr, r)
    ensures Enough(m, c, level, r)
  {
    if r.Got? && Grammatical(r.expr) {
      Tighter(m, l.expr, level);
      Apart(m, c, l.at, l.at, r.at);
    }
  }

  lemma FoldNext(m: Measure, c: nat, op: BinaryOp, left: Expr, x: Parse, r: Parse)
    requires Exact(m) && c < |m.ts| && op != Exponent && x.Got? && c + 1 <= x.at <= |m.ts|
    requires Enough(m, c + 1, LevelOf(op) + 1, x) && EnoughFrom(m, x.at, LevelOf(op), Binary(op, left, x.expr), r)
    ensures EnoughFrom(m, c, LevelOf(op), left, r)
  {
    if r.Got? && Grammatical(r.expr) {
      BinaryCosts(m, op, left, x.expr);
      Apart(m, c + 1, x.at, x.at, r.at);
      Within(m, c, c + 1, r.at, r.at);
    }
  }

  lemma PowerEnough(m: Measure, c: nat, l: Parse, x: Parse)
    requires Exact(m) && l.Got? && c <= l.at < |m.ts| && Enough(m, c, 6, l) && x.Got? && l.at + 1 <= x.at <= |m.ts| && Enough(m, l.at + 1, 5, x)
    ensures Enough(m, c, 5, Got(Binary(Exponent, l.expr, x.expr), x.at))
  {
    BinaryCosts(m, Exponent, l.expr, x.expr);
    Apart(m, c, l.at, l.at + 1, x.at);
  }

  lemma FactorEnough(m: Measure, c: nat, op: UnaryOp, x: Parse)
    requires Exact(m) && c < |m.ts| && x.Got? && c + 1 <= x.at <= |m.ts| && Enough(m, c + 1, 6, x)
    ensures Enough(m, c, 6, Got(Unary(op, x.expr), x.at))
  {
    UnaryCosts(m, op, x.expr);
    Within(m, c, c + 1, x.at, x.at);
  }

  lemma ParenEnough(m: Measure, c: nat, x: Parse)
    requires Exact(m) && c < |m.ts| && m.ts[c] == LParen && x.Got? && c + 1 <= x.at < |m.ts| && Enough(m, c + 1, 0, x)
    ensures Enough(m, c, 7, Got(x.expr, x.at + 1))
  {
    Tighter(m, x.expr, 6);
    Opened(m, c, c + 1, x.at, x.at + 1);
  }

  lemma ItemNext(m: Measure, c: nat, call: bool, items: seq<Expr>, x: Parse, next: nat, r: Parse)
    requires Exact(m) && x.Got? && c <= x.at <= next <= |m.ts| && Enough(m, c, 0, x) && EnoughItems(m, next, call, items + [x.expr], r)
    ensures EnoughItems(m, c, call, items, r)
  {
    if r.Got? && Grammatical(r.expr) {
      assert Items(r.expr)[|items|] == (items + [x.expr])[|items|];
      SumsPlus(m, items, x.expr);
      Apart(m, c, x.at, next, r.at);
    }
  }

  lemma ItemsEnd(m: Measure, c: nat, e: Expr)
    requires Exact(m) && (e.Call? || e.Array?) && c < |m.ts|
    ensures EnoughItems(m, c, e.Call?, Items(e), Got(e, c + 1))
  {
    Within(m, c, c, c, c + 1);
  }

  lemma CallEnough(m: Measure, c: nat, r: Parse)
    requires Exact(m) && c + 1 < |m.ts| && m.ts[c + 1] == LParen && EnoughItems(m, c + 2, true, [], r)
    ensures Enough(m, c, 7, r)
  {
    if r.Got? && Grammatical(r.expr) {
      ItemsCosts(m, r.expr);
      SumsPlus(m, [], Nil);
      Opened(m, c, c + 2, r.at, r.at);
    }
  }

  lemma ArrayEnough(m: Measure, c: nat, r: Parse)
    requires Exact(m) && c < |m.ts| && EnoughItems(m, c + 1, false, [], r)
    ensures Enough(m, c, 7, r)
  {
    if r.Got? && Grammatical(r.expr) {
      ItemsCosts(m, r.expr);
      SumsPlus(m, [], Nil);
      Within(m, c, c + 1, r.at, r.at);
    }
  }

  lemma IndexEnough(m: Measure, c: nat, b: Expr, i: Parse)
    requires Exact(m) && i.Got? && c <= i.at < |m.ts| && Enough(m, c, 0, i)
    ensures Enough(m, c, 7, Got(Index(b, i.expr), i.at + 1))
  {
    BracketCosts(m, b, i.expr, Nil);
    Within(m, c, c, i.at, i.at + 1);
  }

  lemma FromEnough(m: Measure, c: nat, b: Expr, i: Parse)
    requires Exact(m) && i.Got? && i.expr != Nil && c <= i.at && i.at + 1 < |m.ts| && Enough(m, c, 0, i)
    ensures Enough(m, c, 7, Got(Slice(b, i.expr, Nil), i.at + 2))
  {
    BracketCosts(m, b, i.expr, Nil);
    Within(m, c, c, i.at, i.at + 2);
  }

  lemma UpToEnough(m: Measure, c: nat, b: Expr, e: Parse)
    requires Exact(m) && e.Got? && e.expr != Nil && c < e.at < |m.ts| && Enough(m, c + 1, 0, e)
    ensures Enough(m, c, 7, Got(Slice(b, Nil, e.expr), e.at + 1))
  {
    BracketCosts(m, b, Nil, e.expr);
    Within(m, c, c + 1, e.at, e.at + 1);
  }

  lemma SliceEnough(m: Measure, c: nat, b: Expr, i: Parse, e: Parse)
    requires Exact(m) && i.Got? && e.Got? && i.expr != Nil && e.expr != Nil && c <= i.at < e.at < |m.ts|
    requires Enough(m, c, 0, i) && Enough(m, i.at + 1, 0, e)
    ensures Enough(m, c, 7, Got(Slice(b, i.expr, e.expr), e.at + 1))
  {
    BracketCosts(m, b, i.expr, e.expr);
    Apart(m, c, i.at, i.at + 1, e.at);
    Within(m, c, c, e.at, e.at + 1);
  }

  lemma Bracketed(m: Measure, c: nat, r: Parse)
    requires Exact(m) && c + 2 <= |m.ts| && Enough(m, c + 2, 7, r)
    ensures Enough(m, c, 7, r)
  {
    if r.Got? && Grammatical(r.expr) { Within(m, c, c + 2, r.at, r.at); }
  }

  // ---------------------------------------------------------------- whatever parses to a tree

  lemma {:induction false} ParseNeeds(m: Measure, c: nat, level: nat)
    requires Exact(m) && c <= |m.ts| && level <= 7
    ensures Enough(m, c, level, ParseAt(m.ts, c, level))
    decreases |m.ts| - c, 8 - level, 1
  {
    if level <= 4 {
      BinaryNeeds(m, c, level);
    } else if level == 5 {
      PowerNeeds(m, c);
    } else if level == 6 {
      FactorNeeds(m, c);
    } else {
      AtomNeeds(m, c);
    }
  }

  lemma {:induction false} BinaryNeeds(m: Measure, c: nat, level: nat)
    requires Exact(m) && c <= |m.ts| && level <= 4
    ensures Enough(m, c, level, ParseAt(m.ts, c, level))
    decreases |m.ts| - c, 8 - level, 0
  {
    var l, r := ParseAt(m.ts, c, level + 1), ParseAt(m.ts, c, level);
    ParseNeeds(m, c, level + 1);
    if l.Got? && l.expr != Nil {
      FoldNeeds(m, l.at, level, l.expr);
      FoldFirst(m, c, level, l, r);
    }
  }

  lemma {:induction false} FoldNeeds(m: Measure, c: nat, level: nat, left: Expr)
    requires Exact(m) && c <= |m.ts| && level <= 4 && left != Nil
    ensures EnoughFrom(m, c, level, left, Fold(m.ts, c, level, left))
    decreases |m.ts| - c, 8 - level, 0
  {
    if OpAt(m.ts, c, level) {
      var x := ParseAt(m.ts, c + 1, level + 1);
      ParseNeeds(m, c + 1, level + 1);
      if x.Got? {
        var next := Binary(m.ts[c].op, left, x.expr);
        FoldNeeds(m, x.at, level, next);
        FoldNext(m, c, m.ts[c].op, left, x, Fold(m.ts, x.at, level, next));
      }
    } else {
      FoldLast(m, c, level, left);
    }
  }

  lemma {:induction false} PowerNeeds(m: Measure, c: nat)
    requires Exact(m) && c <= |m.ts|
    ensures Enough(m, c, 5, ParseAt(m.ts, c, 5))
    decreases |m.ts| - c, 3, 0
  {
    var l := ParseAt(m.ts, c, 6);
    ParseNeeds(m, c, 6);
    if l.Got? && l.expr != Nil && Is(m.ts, l.at, OpToken(Exponent)) {
      var x := ParseAt(m.ts, l.at + 1, 5);
      ParseNeeds(m, l.at + 1, 5);
      if x.Got? { PowerEnough(m, c, l, x); }
    } else {
      Looser(m, c, 5, l);
    }
  }

  lemma {:induction false} FactorNeeds(m: Measure, c: nat)
    requires Exact(m) && c <= |m.ts|
    ensures Enough(m, c, 6, ParseAt(m.ts, c, 6))
    decreases |m.ts| - c, 2, 0
  {
    if Is(m.ts, c, OpToken(Minus)) || Is(m.ts, c, NotToken) {
      var x := ParseAt(m.ts, c + 1, 6);
      ParseNeeds(m, c + 1, 6);
      if x.Got? { FactorEnough(m, c, if m.ts[c] == NotToken then Not else Negate, x); }
    } else {
      ParseNeeds(m, c, 7);
      Looser(m, c, 6, ParseAt(m.ts, c, 7));
    }
  }

  lemma {:induction false} AtomNeeds(m: Measure, c: nat)
    requires Exact(m) && c <= |m.ts|
    ensures Enough(m, c, 7, ParseAt(m.ts, c, 7))
    decreases |m.ts| - c, 1, 0
  {
    var ts, r := m.ts, ParseAt(m.ts, c, 7);
    assert r == ParseAtom(ts, c);
    if r.Panic? || r.expr == Nil {
    } else if ts[c] == LParen {
      ParseNeeds(m, c + 1, 0);
      ParenEnough(m, c, ParseAt(ts, c + 1, 0));
    } else if ts[c] == LSquare && !Is(ts, c + 1, RSquare) {
      ElementsNeed(m, c + 1, []);
      ArrayEnough(m, c, r);
    } else if Is(ts, c + 1, LParen) && Calling(ts[c]).Some? {
      ArgsNeed(m, c + 2, Calling(ts[c]).value, []);
      CallEnough(m, c, r);
    } else if ts[c].NameToken? && Is(ts, c + 1, LSquare) {
      IndexNeeds(m, c + 2, Identifier(ts[c].name));
      Bracketed(m, c, r);
    } else {
      LeafCosts(m, r.expr);
    }
  }

  /** The callee a token can be. */
  function Calling(t: Token): Option<Callee> {
    match t
    case NameToken(x) => Some(Named(x))
    case LenToken => Some(LenFn)
    case EmitToken => Some(EmitFn)
    case StopToken => Some(StopFn)
    case AssertToken => Some(AssertFn)
    case _ => None
  }

  lemma {:induction false} ArgsNeed(m: Measure, c: nat, f: Callee, args: seq<Expr>)
    requires Exact(m) && c <= |m.ts|
    ensures EnoughItems(m, c, true, args, ParseArgs(m.ts, c, f, args))
    decreases |m.ts| - c, 10, 0
  {
    if c == |m.ts| {
    } else if m.ts[c] == RParen {
      ItemsEnd(m, c, Call(f, args));
    } else {
      var x := ParseAt(m.ts, c, 0);
      ParseNeeds(m, c, 0);
      if x.Got? && x.expr != Nil {
        var next := if Is(m.ts, x.at, Comma) then x.at + 1 else x.at;
        ArgsNeed(m, next, f, args + [x.expr]);
        ItemNext(m, c, true, args, x, next, ParseArgs(m.ts, next, f, args + [x.expr]));
      }
    }
  }

  lemma {:induction false} ElementsNeed(m: Measure, c: nat, es: seq<Expr>)
    requires Exact(m) && c <= |m.ts|
    ensures EnoughItems(m, c, false, es, ParseElements(m.ts, c, es))
    decreases |m.ts| - c, 10, 0
  {
    var x, r := ParseAt(m.ts, c, 0), ParseElements(m.ts, c, es);
    ParseNeeds(m, c, 0);
    if r.Panic? || r.expr == Nil {
    } else if m.ts[x.at] == RSquare {
      ItemsEnd(m, x.at, Array(es + [x.expr]));
      ItemNext(m, c, false, es, x, x.at, r);
    } else {
      ElementsNeed(m, x.at + 1, es + [x.expr]);
      ItemNext(m, c, false, es, x, x.at + 1, r);
    }
  }

  lemma {:induction false} IndexNeeds(m: Measure, c: nat, b: Expr)
    requires Exact(m) && c <= |m.ts|
    ensures Enough(m, c, 7, ParseIndex(m.ts, c, b))
    decreases |m.ts| - c, 10, 0
  {
    var ts, r := m.ts, ParseIndex(m.ts, c, b);
    if r.Panic? || r.expr == Nil {
    } else if ts[c] == Colon {
      ParseNeeds(m, c + 1, 0);
      UpToEnough(m, c, b, ParseAt(ts, c + 1, 0));
    } else {
      ParseNeeds(m, c, 0);
      AfterIndex(m, c, b, ParseAt(ts, c, 0), r);
    }
  }

  /** What comes after the first expression in brackets. */
  lemma {:induction false} AfterIndex(m: Measure, c: nat, b: Expr, i: Parse, r: Parse)
    requires Exact(m) && c < |m.ts| && m.ts[c] != Colon && i == ParseAt(m.ts, c, 0) && Enough(m, c, 0, i)
    requires r == ParseIndex(m.ts, c, b) && r.Got? && r.expr != Nil
    ensures Enough(m, c, 7, r)
    decreases |m.ts| - c, 9, 0
  {
    if m.ts[i.at] == RSquare {
      IndexEnough(m, c, b, i);
    } else if m.ts[i.at + 1] == RSquare {
      FromEnough(m, c, b, i);
    } else {
      ParseNeeds(m, i.at + 1, 0);
      SliceEnough(m, c, b, i, ParseAt(m.ts, i.at + 1, 0));
    }
  }

  // ---------------------------------------------------------------- the rendering is minimal

  /** Of all token lists that parse to a tree, its rendering opens the fewest parentheses; with one pair less, tokens do not
      parse to the tree. */
  lemma FewestParentheses(ts: Tokens, e: Expr)
    requires Grammatical(e)
    ensures ParseAt(Render(e, 0), 0, 0) == Got(e, |Render(e, 0)|)
    ensures ParseAt(ts, 0, 0) == Got(e, |ts|) ==> Parens(Render(e, 0)) <= Parens(ts)
  {
    RenderThenParse(e);
    var m := MeasureOf(ts);
    ParseNeeds(m, 0, 0);
    Costs(m, e, 0);
    Counts(m, 0, |ts|);
    assert ts[0..|ts|] == ts;
  }
}
