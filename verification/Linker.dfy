/** From the code of single functions to a linked program: every function the compiler accepted is in
    place in the finished program, at the address its callers use. */
module Linker {
  import opened Text
  import opened Bytecode
  import opened Ast
  import opened Names
  import opened Codegen
  import opened Layout
  import opened Simulation
  import opened Avm
  import opened Runs
  import Instructions

  // ---------------------------------------------------------------- later functions do not matter

  ghost predicate Extends(fns: Index, more: Index) { forall f :: f in fns ==> f in more && more[f] == fns[f] }

  lemma {:induction false} WiderExpr(p: Codegen.Code, e: Expr, full: Scope, fns: Index, more: Index, a: int)
    requires ExprAt(p, e, full, fns, a) && Extends(fns, more)
    ensures ExprAt(p, e, full, more, a)
    decreases e, 1
  {
    match e
    case Binary(_, l, r) =>
      WiderExpr(p, l, full, fns, more, a);
      WiderExpr(p, r, full, fns, more, a + ExprSize(l));
    case Unary(_, x) => WiderExpr(p, x, full, fns, more, a);
    case Call(f, args) => if |args| > 0 { WiderCall(p, e, full, fns, more, a); }
    case _ =>
  }

  lemma {:induction false} WiderCall(p: Codegen.Code, e: Expr, full: Scope, fns: Index, more: Index, a: int)
    requires e.Call? && |e.args| > 0 && CallExprAt(p, e.callee, e.args, full, fns, a) && Extends(fns, more)
    ensures CallExprAt(p, e.callee, e.args, full, more, a)
    decreases e, 0
  {
    if |e.args| == 2 && !(e.callee.Named? && !BuiltinOf(e.callee.name).Ordinary?) {
      WiderExpr(p, e.args[0], full, fns, more, a);
      WiderExpr(p, e.args[1], full, fns, more, a + ExprSize(e.args[0]));
    } else if |e.args| == 1 && e.callee.EmitFn? {
      WiderExpr(p, e.args[0], full, fns, more, a);
    }
  }

  lemma {:induction false} WiderStmt(p: Codegen.Code, s: Stmt, full: Scope, fns: Index, more: Index, a: int, loop: Loop)
    requires StmtAt(p, s, full, fns, a, loop) && Extends(fns, more)
    ensures StmtAt(p, s, full, more, a, loop)
    decreases s, 2
  {
    match s
    case Assign(_, e) => WiderExpr(p, e, full, fns, more, a);
    case Return(e) => if !e.Nil? { WiderExpr(p, e, full, fns, more, a); }
    case Evaluate(e) => WiderExpr(p, e, full, fns, more, a);
    case If(c, t, els) => WiderIf(p, s, full, fns, more, a, loop);
    case While(c, b) => WiderWhile(p, s, full, fns, more, a);
    case _ =>
  }

  lemma {:induction false} WiderIf(p: Codegen.Code, s: Stmt, full: Scope, fns: Index, more: Index, a: int, loop: Loop)
    requires s.If? && IfAt(p, s, full, fns, a, loop) && Extends(fns, more)
    ensures IfAt(p, s, full, more, a, loop)
    decreases s, 1
  {
    var body := a + ExprSize(s.cond) + 3;
    WiderExpr(p, s.cond, full, fns, more, a);
    WiderBlock(p, s.thenBlock, full, fns, more, body, loop);
    if s.elseBlock.Else? { WiderBlock(p, s.elseBlock.block, full, fns, more, body + BlockSize(s.thenBlock) + 2, loop); }
  }

  lemma {:induction false} WiderWhile(p: Codegen.Code, s: Stmt, full: Scope, fns: Index, more: Index, a: int)
    requires s.While? && WhileAt(p, s, full, fns, a) && Extends(fns, more)
    ensures WhileAt(p, s, full, more, a)
    decreases s, 1
  {
    var body := a + ExprSize(s.cond) + 3;
    WiderExpr(p, s.cond, full, fns, more, a);
    WiderBlock(p, s.body, full, fns, more, body, Loop(body + BlockSize(s.body) + 2, a));
  }

  lemma {:induction false} WiderBlock(p: Codegen.Code, ss: seq<Stmt>, full: Scope, fns: Index, more: Index, a: int, loop: Loop)
    requires BlockAt(p, ss, full, fns, a, loop) && Extends(fns, more)
    ensures BlockAt(p, ss, full, more, a, loop)
    decreases ss, 3
  {
    if ss != [] {
      WiderStmt(p, ss[0], full, fns, more, a, loop);
      WiderBlock(p, ss[1..], full, fns, more, a + StmtSize(ss[0]), loop);
    }
  }

  // ---------------------------------------------------------------- how code ends

  /** The last opcode emitted for a block is RETURN. */
  predicate LastReturns(ss: seq<Stmt>)
    decreases ss, 0
  {
    ss != [] && LastReturnsStmt(ss[|ss| - 1])
  }

  predicate LastReturnsStmt(s: Stmt)
    decreases s, 1
  {
    match s
    case Return(_) => true
    case If(_, t, NoElse) => LastReturns(t)
    case If(_, _, Else(e)) => LastReturns(e)
    case _ => false
  }

  lemma {:induction false} HowStmtEnds(s: Stmt, sc: Scope, fns: Index, at: nat, loop: Loop)
    ensures EndsInReturn(StmtCode(s, sc, fns, at, loop)) == LastReturnsStmt(s)
    decreases s, 2
  {
    if s.If? {
      HowIfEnds(s, sc, fns, at, loop);
    } else if s.While? {
      var body := at + ExprSize(s.cond) + 3;
      var exit := body + BlockSize(s.body) + 2;
      LastOf(TestCode(s.cond, sc, fns, exit) + BlockCode(s.body, sc, fns, body, Loop(exit, at)), JumpCode(at));
    }
  }

  lemma {:induction false} HowIfEnds(s: Stmt, sc: Scope, fns: Index, at: nat, loop: Loop)
    requires s.If?
    ensures EndsInReturn(IfCode(s, sc, fns, at, loop)) == LastReturnsStmt(s)
    decreases s, 1
  {
    var body := at + ExprSize(s.cond) + 3;
    var rest := body + BlockSize(s.thenBlock);
    var target := rest + (if s.elseBlock.NoElse? then 0 else 2);
    LastOfTest(s.cond, sc, fns, target);
    HowBlockEnds(s.thenBlock, sc, fns, body, loop);
    HowElseEnds(s.elseBlock, AfterBlock(s.thenBlock, sc), fns, rest, loop);
    var test, t, e := IfParts(s, sc, fns, at, loop, body, rest, target);
    LastOfIf(s, test, t, e);
  }

  lemma IfParts(s: Stmt, sc: Scope, fns: Index, at: nat, loop: Loop, body: nat, rest: nat, target: nat)
    returns (test: Codegen.Code, t: Codegen.Code, e: Codegen.Code)
    requires s.If? && body == at + ExprSize(s.cond) + 3 && rest == body + BlockSize(s.thenBlock) && target == rest + (if s.elseBlock.NoElse? then 0 else 2)
    ensures test == TestCode(s.cond, sc, fns, target) && t == BlockCode(s.thenBlock, sc, fns, body, loop)
    ensures e == ElseCode(s.elseBlock, AfterBlock(s.thenBlock, sc), fns, rest, loop) && IfCode(s, sc, fns, at, loop) == test + t + e
  {
    test, t := TestCode(s.cond, sc, fns, target), BlockCode(s.thenBlock, sc, fns, body, loop);
    e := ElseCode(s.elseBlock, AfterBlock(s.thenBlock, sc), fns, rest, loop);
  }

  lemma LastOfTest(c: Expr, sc: Scope, fns: Index, target: nat)
    ensures var test := TestCode(c, sc, fns, target); test != [] && test[|test| - 1] == Op(JUMPC)
  {
  }

  lemma LastOfIf(s: Stmt, test: Codegen.Code, t: Codegen.Code, e: Codegen.Code)
    requires s.If? && test != [] && test[|test| - 1] == Op(JUMPC)
    requires EndsInReturn(t) == LastReturns(s.thenBlock)
    requires if s.elseBlock.NoElse? then e == [] else e != [] && EndsInReturn(e) == LastReturns(s.elseBlock.block)
    ensures EndsInReturn(test + t + e) == LastReturnsStmt(s)
  {
    LastOf(test, t);
    LastOf(test + t, e);
  }

  lemma {:induction false} HowElseEnds(e: ElseBlock, sc: Scope, fns: Index, at: nat, loop: Loop)
    ensures var code := ElseCode(e, sc, fns, at, loop);
      if e.NoElse? then code == [] else code != [] && EndsInReturn(code) == LastReturns(e.block)
    decreases e, 4
  {
    if e.Else? {
      HowBlockEnds(e.block, sc, fns, at + 2, loop);
      LastOf(JumpCode(at + 2 + BlockSize(e.block)), BlockCode(e.block, sc, fns, at + 2, loop));
    }
  }

  lemma LastOf(x: Codegen.Code, y: Codegen.Code)
    ensures EndsInReturn(x + y) == if y == [] then EndsInReturn(x) else EndsInReturn(y)
  {
    if y == [] { assert x + y == x; }
  }

  lemma {:induction false} HowBlockEnds(ss: seq<Stmt>, sc: Scope, fns: Index, at: nat, loop: Loop)
    ensures EndsInReturn(BlockCode(ss, sc, fns, at, loop)) == LastReturns(ss)
    decreases ss, 3
  {
    if ss != [] {
      var s, mid := After(ss[0], sc), at + StmtSize(ss[0]);
      HowStmtEnds(ss[0], sc, fns, at, loop);
      HowBlockEnds(ss[1..], s, fns, mid, loop);
      LastOf(StmtCode(ss[0], sc, fns, at, loop), BlockCode(ss[1..], s, fns, mid, loop));
      if |ss| > 1 {
        NonEmpty(ss[1..]);
        assert ss[1..][|ss| - 2] == ss[|ss| - 1];
      }
    }
  }

  // ---------------------------------------------------------------- functions in the finished program

  /** Codegen guards the end of a function with a default return unless the last opcode so far is
      RETURN. That covers a function exactly when a body whose code ends in RETURN returns on every path,
      and the body is not empty (after another function, an empty body gets no code at all). */
  predicate EndsWell(f: Function, first: bool) {
    (first || f.body != []) && (LastReturns(f.body) ==> MustReturn(f.body))
  }

  /** A function the machine's conventions can serve. */
  predicate Serviceable(f: Function, first: bool) { EndsWell(f, first) && Callable(f) && FullScope(f).next <= TWO63 }

  ghost predicate InPlace(p: Codegen.Code, fns: Index, f: Function, a: nat) {
    && a < |p|
    && BlockAt(p, f.body, FullScope(f), fns, a, Loop(0, 0))
    && (MustReturn(f.body) || (InsAt(p, a + BlockSize(f.body), Push(0)) && InsAt(p, a + BlockSize(f.body) + 1, Op(RETURN))))
  }

  lemma BodyPlaced(p: Codegen.Code, f: Function, fns: Index, a: nat, dflt: Codegen.Code)
    requires Placed(p, a, BodyCode(f, fns, a) + dflt) && BlockOk(f.body, ParamScope(f.params), fns, false)
    requires MustReturn(f.body) || dflt == [Push(0), Op(RETURN)]
    ensures InPlace(p, fns, f, a)
  {
    Split(p, a, BodyCode(f, fns, a), dflt);
    if MustReturn(f.body) { NonEmpty(f.body); } else { Fetch2(p, a + BlockSize(f.body), dflt); }
    ParamsWellScoped(f.params, |f.params|);
    PlacedBlock(p, f.body, ParamScope(f.params), FullScope(f), fns, a, Loop(0, 0), false);
  }

  /** The code one definition adds. */
  function Added(im: Image, f: Function): Codegen.Code {
    var body := BodyCode(f, im.index[f.name := |im.code|], |im.code|);
    body + DefaultCode(im.code + body)
  }

  lemma DefineInPlace(p: Codegen.Code, im: Image, f: Function)
    requires f.name !in im.index && DefineOk(im, f) && Placed(p, |im.code|, Added(im, f))
    requires EndsWell(f, !EndsInReturn(im.code))
    ensures InPlace(p, Define(im, f).index, f, |im.code|)
  {
    var ix := im.index[f.name := |im.code|];
    var body := BodyCode(f, ix, |im.code|);
    HowBlockEnds(f.body, ParamScope(f.params), ix, |im.code|, Loop(0, 0));
    LastOf(im.code, body);
    if f.body != [] { NonEmpty(f.body); }
    BodyPlaced(p, f, ix, |im.code|, DefaultCode(im.code + body));
  }

  /** Every function leaves RETURN as the last opcode. */
  lemma DefineEnds(im: Image, f: Function)
    requires f.name !in im.index
    ensures EndsInReturn(Define(im, f).code) && Define(im, f).code == im.code + Added(im, f)
  {
    var ix := im.index[f.name := |im.code|];
    var body := BodyCode(f, ix, |im.code|);
    LastOf(im.code + body, DefaultCode(im.code + body));
    assert im.code + body + DefaultCode(im.code + body) == im.code + Added(im, f);
  }

  /** The first function of each name is the one that counts. */
  function Program(fs: seq<Function>, known: set<string>): (r: map<string, Function>)
    ensures forall x :: x in r ==> x !in known && r[x] in fs && r[x].name == x
  {
    if fs == [] then map[]
    else if fs[0].name in known then Program(fs[1..], known)
    else Program(fs[1..], known + {fs[0].name})[fs[0].name := fs[0]]
  }

  /** Every function that counts ends well; only the very first may be empty. */
  predicate AllServiceable(fs: seq<Function>, first: bool) {
    forall i :: 0 <= i < |fs| ==> Serviceable(fs[i], first && i == 0)
  }

  ghost predicate AllInPlace(p: Codegen.Code, fns: Index, fm: map<string, Function>) {
    forall x :: x in fm ==> x in fns && InPlace(p, fns, fm[x], fns[x])
  }

  lemma {:induction false} DefineAllInPlace(p: Codegen.Code, im: Image, fs: seq<Function>)
    requires DefineAllOk(im, fs) && AllServiceable(fs, !EndsInReturn(im.code))
    requires Placed(p, |im.code|, DefineAll(im, fs).code[|im.code|..])
    ensures AllInPlace(p, DefineAll(im, fs).index, Program(fs, im.index.Keys))
    decreases |fs|, 0
  {
    if fs != [] {
      RestServiceable(fs, !EndsInReturn(im.code));
      DefineFirst(im, fs);
      RestInPlace(p, im, fs[0], fs[1..]);
      assert fs == [fs[0]] + fs[1..];
    }
  }

  lemma DefineFirst(im: Image, fs: seq<Function>)
    requires fs != []
    ensures DefineAll(im, fs) == DefineAll(Define(im, fs[0]), fs[1..]) && (DefineAllOk(im, fs) ==> DefineOk(im, fs[0]) && DefineAllOk(Define(im, fs[0]), fs[1..]))
  {
  }

  lemma {:induction false} RestInPlace(p: Codegen.Code, im: Image, f: Function, rest: seq<Function>)
    requires DefineOk(im, f) && DefineAllOk(Define(im, f), rest) && EndsWell(f, !EndsInReturn(im.code))
    requires AllServiceable(rest, false) && AllServiceable(rest, true)
    requires Placed(p, |im.code|, DefineAll(Define(im, f), rest).code[|im.code|..])
    ensures AllInPlace(p, DefineAll(Define(im, f), rest).index, Program([f] + rest, im.index.Keys))
    decreases |rest|, 1
  {
    if f.name in im.index {
      DefineAllInPlace(p, im, rest);
      assert ([f] + rest)[1..] == rest;
    } else {
      FirstInPlace(p, im, f, rest);
      DefineAllInPlace(p, Define(im, f), rest);
      MoreInPlace(p, im, f, rest);
    }
  }

  lemma MoreInPlace(p: Codegen.Code, im: Image, f: Function, rest: seq<Function>)
    requires f.name !in im.index
    requires var last := DefineAll(Define(im, f), rest);
      AllInPlace(p, last.index, Program(rest, Define(im, f).index.Keys)) && f.name in last.index && InPlace(p, last.index, f, last.index[f.name])
    ensures AllInPlace(p, DefineAll(Define(im, f), rest).index, Program([f] + rest, im.index.Keys))
  {
    var next := Define(im, f);
    assert next.index.Keys == im.index.Keys + {f.name};
    OneMoreInPlace(p, DefineAll(next, rest).index, f, rest, im.index.Keys, next.index.Keys);
  }

  lemma RestServiceable(fs: seq<Function>, first: bool)
    requires fs != [] && AllServiceable(fs, first)
    ensures EndsWell(fs[0], first) && AllServiceable(fs[1..], false) && AllServiceable(fs[1..], true)
  {
    assert Serviceable(fs[0], first);
    forall i | 0 <= i < |fs[1..]| ensures Serviceable(fs[1..][i], false) && Serviceable(fs[1..][i], true) {
      assert fs[1..][i] == fs[i + 1] && Serviceable(fs[i + 1], false);
    }
  }

  lemma OneMoreInPlace(p: Codegen.Code, fns: Index, f: Function, rest: seq<Function>, known: set<string>, more: set<string>)
    requires f.name !in known && more == known + {f.name} && AllInPlace(p, fns, Program(rest, more)) && f.name in fns && InPlace(p, fns, f, fns[f.name])
    ensures AllInPlace(p, fns, Program([f] + rest, known))
  {
    var fs := [f] + rest;
    assert fs[1..] == rest;
  }

  lemma FirstInPlace(p: Codegen.Code, im: Image, f: Function, rest: seq<Function>)
    requires f.name !in im.index && DefineOk(im, f) && EndsWell(f, !EndsInReturn(im.code))
    requires Placed(p, |im.code|, DefineAll(Define(im, f), rest).code[|im.code|..])
    ensures var next, last := Define(im, f), DefineAll(Define(im, f), rest);
      && f.name in last.index && InPlace(p, last.index, f, last.index[f.name])
      && Placed(p, |next.code|, last.code[|next.code|..]) && EndsInReturn(next.code)
  {
    var next, last, added := Define(im, f), DefineAll(Define(im, f), rest), Added(im, f);
    DefineEnds(im, f);
    CutAt(im.code, added, last.code);
    Split(p, |im.code|, added, last.code[|next.code|..]);
    DefineInPlace(p, im, f);
    DefinesAll(next, rest);
    WiderBlock(p, f.body, FullScope(f), next.index, last.index, |im.code|, Loop(0, 0));
  }

  lemma CutAt(x: Codegen.Code, y: Codegen.Code, z: Codegen.Code)
    requires x + y <= z
    ensures z[|x|..] == y + z[|x + y|..]
  {
  }

  // ---------------------------------------------------------------- what EndsWell rules out

  /** After another function an empty body is the one that gets no code of its own: its callers land in
      whatever comes next. */
  lemma NoCodeAtAll(im: Image, f: Function)
    requires f.name !in im.index
    ensures Added(im, f) == [] <==> f.body == [] && EndsInReturn(im.code)
  {
    if f.body != [] { NonEmpty(f.body); } else { assert im.code + [] == im.code; }
  }

  /** Some jump in `code` goes to `end`. */
  ghost predicate Dangles(code: Codegen.Code, end: nat) { exists i :: JumpsAt(code, i, end) }

  predicate JumpsAt(code: Codegen.Code, i: int, end: nat) {
    0 <= i && i + 1 < |code| && code[i] == Push(end) && (code[i + 1] == Op(JUMP) || code[i + 1] == Op(JUMPC))
  }

  lemma DanglesInside(x: Codegen.Code, y: Codegen.Code, z: Codegen.Code, end: nat)
    requires Dangles(y, end)
    ensures Dangles(x + y + z, end)
  {
    var i :| JumpsAt(y, i, end);
    assert JumpsAt(x + y + z, |x| + i, end);
  }

  lemma DanglesBefore(y: Codegen.Code, z: Codegen.Code, end: nat)
    requires Dangles(y, end)
    ensures Dangles(y + z, end)
  {
    DanglesInside([], y, z, end);
    assert [] + y + z == y + z;
  }

  lemma DanglesAfter(x: Codegen.Code, y: Codegen.Code, end: nat)
    requires Dangles(y, end)
    ensures Dangles(x + y, end)
  {
    DanglesInside(x, y, [], end);
    assert x + y + [] == x + y;
  }

  lemma TestDangles(c: Expr, sc: Scope, fns: Index, target: nat)
    ensures Dangles(TestCode(c, sc, fns, target), target)
  {
    var test := TestCode(c, sc, fns, target);
    assert JumpsAt(test, |test| - 2, target);
  }

  lemma JumpDangles(target: nat)
    ensures Dangles(JumpCode(target), target)
  {
    assert JumpsAt(JumpCode(target), 0, target);
  }

  /** A conditional whose code ends in RETURN but which need not return has a jump to its own end. */
  lemma {:induction false} DanglingIf(s: Stmt, sc: Scope, fns: Index, at: nat, loop: Loop)
    requires s.If? && LastReturnsStmt(s) && !MustReturnLast(s)
    ensures Dangles(IfCode(s, sc, fns, at, loop), at + StmtSize(s))
    decreases s, 1
  {
    var body := at + ExprSize(s.cond) + 3;
    var rest := body + BlockSize(s.thenBlock);
    IfEnds(s, at);
    DanglingParts(s, sc, fns, at, loop, body, rest, rest + (if s.elseBlock.NoElse? then 0 else 2), at + StmtSize(s));
  }

  lemma {:induction false} DanglingParts(s: Stmt, sc: Scope, fns: Index, at: nat, loop: Loop, body: nat, rest: nat, target: nat, end: nat)
    requires s.If? && body == at + ExprSize(s.cond) + 3 && rest == body + BlockSize(s.thenBlock)
    requires end == rest + ElseSize(s.elseBlock) && target == rest + (if s.elseBlock.NoElse? then 0 else 2)
    requires s.elseBlock.Else? ==> LastReturns(s.elseBlock.block) && !(MustReturn(s.thenBlock) && MustReturn(s.elseBlock.block))
    ensures Dangles(IfCode(s, sc, fns, at, loop), end)
    decreases s, 0, 1
  {
    var test, t, e := IfParts(s, sc, fns, at, loop, body, rest, target);
    DanglingPart(s, sc, fns, rest, loop, target, end, test, e);
    DanglesAround(test, t, e, end);
  }

  lemma {:induction false} DanglingPart(s: Stmt, sc: Scope, fns: Index, rest: nat, loop: Loop, target: nat, end: nat, test: Codegen.Code, e: Codegen.Code)
    requires s.If? && test == TestCode(s.cond, sc, fns, target) && e == ElseCode(s.elseBlock, AfterBlock(s.thenBlock, sc), fns, rest, loop)
    requires end == rest + ElseSize(s.elseBlock) && target == rest + (if s.elseBlock.NoElse? then 0 else 2)
    requires s.elseBlock.Else? ==> LastReturns(s.elseBlock.block) && !(MustReturn(s.thenBlock) && MustReturn(s.elseBlock.block))
    ensures Dangles(test, end) || Dangles(e, end)
    decreases s, 0, 0
  {
    if s.elseBlock.NoElse? {
      TestDangles(s.cond, sc, fns, target);
    } else {
      DanglingElse(s.elseBlock, s.thenBlock, AfterBlock(s.thenBlock, sc), fns, rest, loop);
    }
  }

  lemma IfEnds(s: Stmt, at: nat)
    requires s.If?
    ensures at + StmtSize(s) == at + ExprSize(s.cond) + 3 + BlockSize(s.thenBlock) + ElseSize(s.elseBlock)
    ensures LastReturnsStmt(s) == if s.elseBlock.NoElse? then LastReturns(s.thenBlock) else LastReturns(s.elseBlock.block)
    ensures MustReturnLast(s) == (s.elseBlock.Else? && MustReturn(s.thenBlock) && MustReturn(s.elseBlock.block))
  {
  }

  lemma DanglesAround(test: Codegen.Code, t: Codegen.Code, e: Codegen.Code, end: nat)
    requires Dangles(test, end) || Dangles(e, end)
    ensures Dangles(test + t + e, end)
  {
    if Dangles(test, end) {
      DanglesBefore(test, t, end);
      DanglesBefore(test + t, e, end);
    } else {
      DanglesAfter(test + t, e, end);
    }
  }

  lemma {:induction false} DanglingElse(e: ElseBlock, t: seq<Stmt>, sc: Scope, fns: Index, at: nat, loop: Loop)
    requires e.Else? && LastReturns(e.block) && !(MustReturn(t) && MustReturn(e.block))
    ensures Dangles(ElseCode(e, sc, fns, at, loop), at + ElseSize(e))
    decreases e, 4
  {
    var end := at + 2 + BlockSize(e.block);
    var jump, els := JumpCode(end), BlockCode(e.block, sc, fns, at + 2, loop);
    if MustReturn(e.block) {
      JumpDangles(end);
      DanglesBefore(jump, els, end);
    } else {
      DanglingBlock(e.block, sc, fns, at + 2, loop);
      DanglesAfter(jump, els, end);
    }
  }

  lemma {:induction false} DanglingBlock(ss: seq<Stmt>, sc: Scope, fns: Index, at: nat, loop: Loop)
    requires LastReturns(ss) && !MustReturn(ss)
    ensures Dangles(BlockCode(ss, sc, fns, at, loop), at + BlockSize(ss))
    decreases ss, 3
  {
    var s, rest := ss[0], ss[1..];
    var mid, next := After(s, sc), at + StmtSize(s);
    if rest == [] {
      DanglingIf(s, sc, fns, at, loop);
      DanglesBefore(StmtCode(s, sc, fns, at, loop), BlockCode(rest, mid, fns, next, loop), at + StmtSize(s));
    } else {
      assert rest[|rest| - 1] == ss[|ss| - 1];
      DanglingBlock(rest, mid, fns, next, loop);
      DanglesAfter(StmtCode(s, sc, fns, at, loop), BlockCode(rest, mid, fns, next, loop), at + BlockSize(ss));
    }
  }

  /** A body whose code ends in RETURN although some path does not return gets no default return: if its function is the last of
      a program, some jump points past the end ... */
  lemma DanglingTarget(im: Image, f: Function)
    requires f.name !in im.index && LastReturns(f.body) && !MustReturn(f.body)
    ensures var p := Define(im, f).code; p == im.code + BodyCode(f, Define(im, f).index, |im.code|) && Dangles(p[|im.code|..], |p|)
  {
    var p, ix, a := Define(im, f).code, im.index[f.name := |im.code|], |im.code|;
    NoDefault(im, f, ix);
    assert p[a..] == BodyCode(f, ix, a);
    DanglingBlock(f.body, ParamScope(f.params), ix, a, Loop(0, 0));
  }

  lemma NoDefault(im: Image, f: Function, ix: Index)
    requires f.name !in im.index && ix == im.index[f.name := |im.code|] && LastReturns(f.body)
    ensures Define(im, f).code == im.code + BodyCode(f, ix, |im.code|)
  {
    var body := BodyCode(f, ix, |im.code|);
    HowBlockEnds(f.body, ParamScope(f.params), ix, |im.code|, Loop(0, 0));
    LastOf(im.code, body);
    NonEmpty(f.body);
    assert im.code + body + [] == im.code + body;
  }

  /** The condition is exact: a function is in place in what codegen emitted for it if and only if it ends well. */
  lemma InPlaceExactly(im: Image, f: Function)
    requires f.name !in im.index && DefineOk(im, f)
    ensures InPlace(Define(im, f).code, Define(im, f).index, f, |im.code|) <==> EndsWell(f, !EndsInReturn(im.code))
  {
    if EndsWell(f, !EndsInReturn(im.code)) { WellGuarded(im, f); } else { Unguarded(im, f); }
  }

  lemma WellGuarded(im: Image, f: Function)
    requires f.name !in im.index && DefineOk(im, f) && EndsWell(f, !EndsInReturn(im.code))
    ensures InPlace(Define(im, f).code, Define(im, f).index, f, |im.code|)
  {
    var p := Define(im, f).code;
    DefineEnds(im, f);
    AddedPlaced(im.code, Added(im, f), p);
    DefineInPlace(p, im, f);
  }

  lemma AddedPlaced(x: Codegen.Code, y: Codegen.Code, p: Codegen.Code)
    requires p == x + y
    ensures Placed(p, |x|, y)
  {
  }

  lemma Unguarded(im: Image, f: Function)
    requires f.name !in im.index && !EndsWell(f, !EndsInReturn(im.code))
    ensures !InPlace(Define(im, f).code, Define(im, f).index, f, |im.code|)
  {
    if f.body == [] {
      NoCodeAtAll(im, f);
      DefineEnds(im, f);
    } else {
      NoDefault(im, f, im.index[f.name := |im.code|]);
      assert |Define(im, f).code| == |im.code| + BlockSize(f.body);
    }
  }

  /** ... which the machine refuses, JUMPC whether or not the condition holds. */
  lemma DanglingJump(p: Codegen.Code, cx: Context, c: Core, limit: nat)
    requires (InsAt(p, c.ic, Op(JUMPC)) && |c.stack| >= 2) || (InsAt(p, c.ic, Op(JUMP)) && |c.stack| >= 1)
    requires |p| < TWO63 && Nth(c.stack, 0) == |p|
    ensures CoreStep(p, cx, c, limit) == Halt(InvalidJump)
  {
    SmallWrap(|p|);
  }
}
