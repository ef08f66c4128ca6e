/** The code the Marigold compiler emits (marigold/codegen.go), described with its jump targets
    already known. The integer fragment is covered: no strings, floats, arrays or maps. */
module Codegen {
  import opened Text
  import opened Bytecode
  import opened Ast
  import opened Avm
  import opened Names

  type Code = seq<Instruction>

  /** LocalOffsets and NextLocalOffset: one flat name space per function. */
  datatype Scope = Scope(offsets: map<string, nat>, next: nat)

  /** FunctionIndex: where the functions generated so far begin. */
  type Index = map<string, nat>

  // ---------------------------------------------------------------- expressions

  function OperatorCode(op: BinaryOp): Code {
    match op
    case Plus => [Op(ADD)]
    case Minus => [Op(SUB)]
    case Multiply => [Op(MUL)]
    case Divide => [Op(DIV)]
    case Modulo => [Op(MOD)]
    case Equal => [Op(EQ)]
    case NotEqual => [Op(EQ), Op(ISZERO)]
    case LessThan => [Op(LT)]
    case GreaterThan => [Op(GT)]
    case LessEqual => [Op(GT), Op(ISZERO)]
    case GreaterEqual => [Op(LT), Op(ISZERO)]
    case LogicalAnd | LogicalOr | Exponent => []
  }

  function UnaryCode(op: UnaryOp): Code {
    match op
    case Negate => [Push(0), Push(1), Op(SWAP), Op(SUB)]
    case Not => [Op(ISZERO)]
  }

  /** Expressions without strings that codegen accepts instead of panicking. */
  predicate ExprOk(e: Expr, sc: Scope, fns: Index) {
    match e
    case Number(_) => true
    case Identifier(x) => x in sc.offsets || ContextOpcode(x).Some?
    case Binary(op, l, r) => OperatorCode(op) != [] && ExprOk(l, sc, fns) && ExprOk(r, sc, fns)
    case Unary(_, x) => ExprOk(x, sc, fns)
    case Call(f, args) =>
      && CalleeOk(f, args, fns)
      && (forall i :: 0 <= i < |args| ==> ExprOk(args[i], sc, fns))
    case _ => false
  }

  predicate CalleeOk(f: Callee, args: seq<Expr>, fns: Index) {
    match f
    case EmitFn => |args| == 1 && !IsText(args[0])
    case Named(g) =>
      (match BuiltinOf(g)
       case Ordinary => g in fns
       case Refused => false
       case Builtin(n, ops) => |args| == n && !(n == 1 && ops == [Op(INTTOSTR)] && IsText(args[0])))
    case _ => false
  }

  /** Number of instructions; it depends on the syntax alone, so jump targets can be computed ahead. */
  function ExprSize(e: Expr): nat
    decreases e, 0
  {
    match e
    case Number(_) => 1
    case Identifier(x) => if ContextOpcode(x).Some? then 1 else 2
    case Binary(op, l, r) => ExprSize(l) + ExprSize(r) + |OperatorCode(op)|
    case Unary(op, x) => ExprSize(x) + |UnaryCode(op)|
    case Call(f, args) => ArgsSize(args) + CallSize(f)
    case _ => 0
  }

  function ArgsSize(args: seq<Expr>): nat
    decreases args, 1
  {
    if args == [] then 0 else ExprSize(args[0]) + ArgsSize(args[1..])
  }

  function ExprCode(e: Expr, sc: Scope, fns: Index): (r: Code)
    ensures |r| == ExprSize(e)
    decreases e, 0
  {
    match e
    case Number(n) => [PushLiteral(n)]
    case Identifier(x) =>
      (match ContextOpcode(x)
       case Some(op) => [Op(op)]
       case None => [Push(if x in sc.offsets then sc.offsets[x] else 0), Op(LOAD_LOCAL)])
    case Binary(op, l, r) => ExprCode(l, sc, fns) + ExprCode(r, sc, fns) + OperatorCode(op)
    case Unary(op, x) => ExprCode(x, sc, fns) + UnaryCode(op)
    case Call(f, args) => ArgsCode(args, sc, fns) + CallCode(f, fns)
    case _ => []
  }

  function CallSize(f: Callee): nat {
    if !f.Named? then 1 else match BuiltinOf(f.name) case Ordinary => 2 case Refused => 0 case Builtin(_, ops) => |ops|
  }

  function CallCode(f: Callee, fns: Index): (r: Code)
    ensures |r| == CallSize(f)
  {
    if !f.Named? then [Op(EMIT)]
    else match BuiltinOf(f.name)
         case Ordinary => [Push(if f.name in fns then fns[f.name] else 0), Op(CALL)]
         case Refused => []
         case Builtin(_, ops) => ops
  }

  function ArgsCode(args: seq<Expr>, sc: Scope, fns: Index): (r: Code)
    ensures |r| == ArgsSize(args)
    decreases args, 1
  {
    if args == [] then [] else ExprCode(args[0], sc, fns) + ArgsCode(args[1..], sc, fns)
  }

  // ---------------------------------------------------------------- statements

  /** generateAssignment gives an unknown name the next free offset. */
  function Declare(sc: Scope, x: string): Scope {
    if x in sc.offsets then sc else Scope(sc.offsets[x := sc.next], sc.next + 1)
  }

  function After(s: Stmt, sc: Scope): Scope
    decreases s, 0
  {
    match s
    case Assign(x, _) => Declare(sc, x)
    case If(_, t, e) => AfterElse(e, AfterBlock(t, sc))
    case While(_, b) => AfterBlock(b, sc)
    case _ => sc
  }

  function AfterElse(e: ElseBlock, sc: Scope): Scope
    decreases e, 0
  {
    match e case NoElse => sc case Else(b) => AfterBlock(b, sc)
  }

  function AfterBlock(ss: seq<Stmt>, sc: Scope): Scope
    decreases ss, 1
  {
    if ss == [] then sc else AfterBlock(ss[1..], After(ss[0], sc))
  }

  predicate StmtOk(s: Stmt, sc: Scope, fns: Index, inLoop: bool)
    decreases s, 0
  {
    match s
    case Assign(_, e) => ExprOk(e, sc, fns)
    case Return(e) => e.Nil? || ExprOk(e, sc, fns)
    case If(c, t, e) =>
      ExprOk(c, sc, fns) && BlockOk(t, sc, fns, inLoop) && ElseOk(e, AfterBlock(t, sc), fns, inLoop)
    case While(c, b) => ExprOk(c, sc, fns) && BlockOk(b, sc, fns, true)
    case Break => inLoop
    case Continue => inLoop
    case Evaluate(e) => ExprOk(e, sc, fns)
  }

  predicate ElseOk(e: ElseBlock, sc: Scope, fns: Index, inLoop: bool)
    decreases e, 0
  {
    match e case NoElse => true case Else(b) => BlockOk(b, sc, fns, inLoop)
  }

  predicate BlockOk(ss: seq<Stmt>, sc: Scope, fns: Index, inLoop: bool)
    decreases ss, 1
  {
    ss != [] ==> StmtOk(ss[0], sc, fns, inLoop) && BlockOk(ss[1..], After(ss[0], sc), fns, inLoop)
  }

  function StmtSize(s: Stmt): nat
    decreases s, 0
  {
    match s
    case Assign(_, e) => ExprSize(e) + 2
    case Return(e) => (if e.Nil? then 1 else ExprSize(e)) + 1
    case If(c, t, e) => ExprSize(c) + 3 + BlockSize(t) + ElseSize(e)
    case While(c, b) => ExprSize(c) + 3 + BlockSize(b) + 2
    case Break | Continue => 2
    case Evaluate(e) => ExprSize(e) + 1
  }

  function ElseSize(e: ElseBlock): nat
    decreases e, 0
  {
    match e case NoElse => 0 case Else(b) => 2 + BlockSize(b)
  }

  function BlockSize(ss: seq<Stmt>): nat
    decreases ss, 1
  {
    if ss == [] then 0 else StmtSize(ss[0]) + BlockSize(ss[1..])
  }

  /** Where `break` and `continue` go. */
  datatype Loop = Loop(exit: nat, head: nat)

  /** Code of a statement placed at address `at`. */
  function StmtCode(s: Stmt, sc: Scope, fns: Index, at: nat, loop: Loop): (r: Code)
    ensures |r| == StmtSize(s)
    decreases s, 2
  {
    match s
    case Assign(x, e) => ExprCode(e, sc, fns) + [Push(Declare(sc, x).offsets[x]), Op(STORE_LOCAL)]
    case Return(e) => (if e.Nil? then [Push(0)] else ExprCode(e, sc, fns)) + [Op(RETURN)]
    case If(_, _, _) => IfCode(s, sc, fns, at, loop)
    case While(_, _) => WhileCode(s, sc, fns, at)
    case Break => JumpCode(loop.exit)
    case Continue => JumpCode(loop.head)
    case Evaluate(e) => ExprCode(e, sc, fns) + [Op(POP)]
  }

  function IfCode(s: Stmt, sc: Scope, fns: Index, at: nat, loop: Loop): (r: Code)
    requires s.If?
    ensures |r| == StmtSize(s)
    decreases s, 1
  {
    var body := at + ExprSize(s.cond) + 3;
    var rest := body + BlockSize(s.thenBlock);
    TestCode(s.cond, sc, fns, rest + (if s.elseBlock.NoElse? then 0 else 2))
    + BlockCode(s.thenBlock, sc, fns, body, loop)
    + ElseCode(s.elseBlock, AfterBlock(s.thenBlock, sc), fns, rest, loop)
  }

  function WhileCode(s: Stmt, sc: Scope, fns: Index, at: nat): (r: Code)
    requires s.While?
    ensures |r| == StmtSize(s)
    decreases s, 1
  {
    var body := at + ExprSize(s.cond) + 3;
    var exit := body + BlockSize(s.body) + 2;
    TestCode(s.cond, sc, fns, exit) + BlockCode(s.body, sc, fns, body, Loop(exit, at)) + JumpCode(at)
  }

  function JumpCode(target: nat): Code { [Push(target), Op(JUMP)] }

  /** Falls through when the condition holds and jumps to `target` otherwise. */
  function TestCode(c: Expr, sc: Scope, fns: Index, target: nat): (r: Code)
    ensures |r| == ExprSize(c) + 3
  {
    ExprCode(c, sc, fns) + [Op(ISZERO), Push(target), Op(JUMPC)]
  }

  function ElseCode(e: ElseBlock, sc: Scope, fns: Index, at: nat, loop: Loop): (r: Code)
    ensures |r| == ElseSize(e)
    decreases e, 3
  {
    match e
    case NoElse => []
    case Else(b) => JumpCode(at + 2 + BlockSize(b)) + BlockCode(b, sc, fns, at + 2, loop)
  }

  function BlockCode(ss: seq<Stmt>, sc: Scope, fns: Index, at: nat, loop: Loop): (r: Code)
    ensures |r| == BlockSize(ss)
    decreases ss, 3
  {
    if ss == [] then []
    else StmtCode(ss[0], sc, fns, at, loop) + BlockCode(ss[1..], After(ss[0], sc), fns, at + StmtSize(ss[0]), loop)
  }

  // ---------------------------------------------------------------- functions

  function ParamOffsets(ps: seq<string>, n: nat): map<string, nat>
    requires n <= |ps|
  {
    if n == 0 then map[] else ParamOffsets(ps, n - 1)[ps[n - 1] := n - 1]
  }

  /** Parameters sit at offsets 0, 1, 2, ... */
  function ParamScope(ps: seq<string>): Scope { Scope(ParamOffsets(ps, |ps|), |ps|) }

  /** The scope at the end of a function: every local it ever has. */
  function FullScope(f: Function): Scope { AfterBlock(f.body, ParamScope(f.params)) }

  function BodyCode(f: Function, fns: Index, at: nat): Code {
    BlockCode(f.body, ParamScope(f.params), fns, at, Loop(0, 0))
  }

  predicate EndsInReturn(code: Code) { code != [] && code[|code| - 1].op == RETURN }

  /** `PUSH 0; RETURN` is appended unless the last opcode emitted so far, by whatever statement or
      function, is RETURN. */
  function DefaultCode(emitted: Code): Code { if EndsInReturn(emitted) then [] else [Push(0), Op(RETURN)] }

  /** Code generated so far and where its functions begin. */
  datatype Image = Image(code: Code, index: Index)

  /** GenerateFunctionDefinition; a name that is already defined is ignored. */
  function Define(im: Image, f: Function): (r: Image)
    ensures im.code <= r.code
  {
    if f.name in im.index then im
    else
      var ix := im.index[f.name := |im.code|];
      var body := im.code + BodyCode(f, ix, |im.code|);
      Image(body + DefaultCode(body), ix)
  }

  predicate DefineOk(im: Image, f: Function) {
    f.name !in im.index ==> BlockOk(f.body, ParamScope(f.params), im.index[f.name := |im.code|], false)
  }

  function DefineAll(im: Image, fs: seq<Function>): (r: Image)
    ensures im.code <= r.code
    decreases fs
  {
    if fs == [] then im else DefineAll(Define(im, fs[0]), fs[1..])
  }

  predicate DefineAllOk(im: Image, fs: seq<Function>)
    decreases fs
  {
    fs != [] ==> DefineOk(im, fs[0]) && DefineAllOk(Define(im, fs[0]), fs[1..])
  }

  // ---------------------------------------------------------------- string literals

  /** StringTable, StringLiterals and NextMemoryAddr. */
  datatype Table = Table(addr: map<Bytes, nat>, literals: seq<Bytes>, next: nat)

  /** RegisterStringLiteral: a new literal takes one cell for its length and one per 32 bytes. */
  function Register(t: Table, s: Bytes): Table {
    if s in t.addr then t else Table(t.addr[s := t.next], t.literals + [s], t.next + 1 + Chunks(|s|))
  }

  function RegisterAll(t: Table, ss: seq<Bytes>): Table
    decreases ss
  {
    if ss == [] then t else RegisterAll(Register(t, ss[0]), ss[1..])
  }

  function ChunkCode(s: Bytes, a: nat, i: nat): Code {
    [Instruction(PUSH, Some(HexBytes(Chunk(s, i)))), Push(a + 1 + i), Op(MSTORE)]
  }

  /** Code storing chunks `i`, `i + 1`, ... of `s`. */
  function ChunksCode(s: Bytes, a: nat, i: nat): Code
    decreases Chunks(|s|) - i
  {
    if i >= Chunks(|s|) then [] else ChunkCode(s, a, i) + ChunksCode(s, a, i + 1)
  }

  function LiteralCode(s: Bytes, a: nat): Code { [Push(|s|), Push(a), Op(MSTORE)] + ChunksCode(s, a, 0) }

  function InitCode(literals: seq<Bytes>, addr: map<Bytes, nat>): Code {
    if literals == [] then []
    else LiteralCode(literals[0], if literals[0] in addr then addr[literals[0]] else 0) + InitCode(literals[1..], addr)
  }

  // ---------------------------------------------------------------- whole programs

  /** The functions of a contract; `others` in the order the map iteration happens to visit them. */
  datatype Contract = Contract(init: Function, others: seq<Function>, call: Function)

  function AllFunctions(ct: Contract): seq<Function> { [ct.init] + ct.others + [ct.call] }

  /** Entry jumps at 0 and 2, then literal initialization and a jump for each entry point. */
  function Header(initCode: Code, initAddr: nat, callAddr: nat): Code {
    JumpCode(4) + JumpCode(6 + |initCode|) + (initCode + JumpCode(initAddr)) + (initCode + JumpCode(callAddr))
  }

  /** The same before any target is known. */
  function RawHeader(initCode: Code): Code {
    JumpCode(0) + JumpCode(0) + (initCode + JumpCode(0)) + (initCode + JumpCode(0))
  }

  function AddressOf(im: Image, f: Function): nat { if f.name in im.index then im.index[f.name] else 0 }

  /** CodegenWithContext for literals `t` already collected: headers first with empty targets, then the
      functions, then the targets. */
  function Compiled(t: Table, ct: Contract): Image {
    var init := InitCode(t.literals, t.addr);
    var raw := RawHeader(init);
    var im := DefineAll(Image(raw, map[]), AllFunctions(ct));
    Image(Header(init, AddressOf(im, ct.init), AddressOf(im, ct.call)) + im.code[|raw|..], im.index)
  }

  /** Codegen accepts every function. */
  predicate CompiledOk(t: Table, ct: Contract) {
    DefineAllOk(Image(RawHeader(InitCode(t.literals, t.addr)), map[]), AllFunctions(ct))
  }

  /** Every function gets an address, and keeps it. */
  lemma {:induction false} DefinesAll(im: Image, fs: seq<Function>)
    ensures forall x :: x in im.index ==> x in DefineAll(im, fs).index && DefineAll(im, fs).index[x] == im.index[x]
    ensures forall f :: f in fs ==> f.name in DefineAll(im, fs).index
    decreases fs
  {
    if fs != [] {
      DefinesAll(Define(im, fs[0]), fs[1..]);
      forall f | f in fs ensures f.name in DefineAll(im, fs).index {
        if f != fs[0] { assert f in fs[1..]; }
      }
    }
  }

  // ---------------------------------------------------------------- back-patching

  /** The addresses of the placeholders that `break` statements leave for the enclosing loop. */
  function BreakSites(s: Stmt, at: nat): seq<nat>
    decreases s, 2
  {
    match s
    case If(c, t, e) =>
      var body := at + ExprSize(c) + 3;
      BlockSites(t, body) + ElseSites(e, body + BlockSize(t))
    case Break => [at]
    case _ => []
  }

  function ElseSites(e: ElseBlock, at: nat): seq<nat>
    decreases e, 3
  {
    match e case NoElse => [] case Else(b) => BlockSites(b, at + 2)
  }

  function BlockSites(ss: seq<Stmt>, at: nat): seq<nat>
    decreases ss, 3
  {
    if ss == [] then [] else BreakSites(ss[0], at) + BlockSites(ss[1..], at + StmtSize(ss[0]))
  }

  predicate Site(sites: seq<nat>, a: nat) { a in sites }

  function Ins(code: Code, i: int): Instruction { if 0 <= i < |code| then code[i] else Op(NOOP) }

  /** `done` is `raw` (placed at `at`) with the instruction at every site pointing to `exit`. */
  ghost predicate Patched(raw: Code, done: Code, at: nat, sites: seq<nat>, exit: nat) {
    && |raw| == |done|
    && (forall a: nat {:trigger Site(sites, a)} :: Site(sites, a) ==> at <= a < at + |raw| && Ins(done, a - at) == Push(exit) && Ins(raw, a - at).op == PUSH)
    && (forall i: nat {:trigger Ins(done, i)} :: i < |raw| && !Site(sites, at + i) ==> Ins(done, i) == Ins(raw, i))
  }

  lemma PatchedJoin(raw: Code, done: Code, raw': Code, done': Code, at: nat, sites: seq<nat>, sites': seq<nat>, exit: nat)
    requires Patched(raw, done, at, sites, exit) && Patched(raw', done', at + |raw|, sites', exit)
    ensures Patched(raw + raw', done + done', at, sites + sites', exit)
  {
    var r, d, ss := raw + raw', done + done', sites + sites';
    forall a: nat | Site(ss, a) ensures at <= a < at + |r| && Ins(d, a - at) == Push(exit) && Ins(r, a - at).op == PUSH {
      if Site(sites, a) { } else { assert Site(sites', a) && Ins(d, a - at) == Ins(done', a - at - |raw|) && Ins(r, a - at) == Ins(raw', a - at - |raw|); }
    }
    forall i: nat | i < |r| && !Site(ss, at + i) ensures Ins(d, i) == Ins(r, i) {
      assert !Site(sites, at + i) && !Site(sites', at + i);
      if i >= |raw| { assert Ins(done', i - |raw|) == Ins(raw', i - |raw|); } else { assert Ins(done, i) == Ins(raw, i); }
    }
  }

  lemma PatchedSame(code: Code, at: nat, exit: nat)
    ensures Patched(code, code, at, [], exit)
  {
  }

  /** Compiling with the exit unknown and patching afterwards gives the code with the exit known. */
  lemma {:induction false} PatchStmt(s: Stmt, sc: Scope, fns: Index, at: nat, head: nat, exit: nat)
    ensures Patched(StmtCode(s, sc, fns, at, Loop(0, head)), StmtCode(s, sc, fns, at, Loop(exit, head)), at, BreakSites(s, at), exit)
    decreases s, 2
  {
    if s.If? {
      PatchIf(s, sc, fns, at, head, exit);
    } else if s.Break? {
      assert StmtCode(s, sc, fns, at, Loop(0, head)) == JumpCode(0);
      assert StmtCode(s, sc, fns, at, Loop(exit, head)) == JumpCode(exit);
    }
  }

  lemma {:induction false} PatchIf(s: Stmt, sc: Scope, fns: Index, at: nat, head: nat, exit: nat)
    requires s.If?
    ensures Patched(IfCode(s, sc, fns, at, Loop(0, head)), IfCode(s, sc, fns, at, Loop(exit, head)), at, BreakSites(s, at), exit)
    decreases s, 1
  {
    var body := at + ExprSize(s.cond) + 3;
    var rest, mid := body + BlockSize(s.thenBlock), AfterBlock(s.thenBlock, sc);
    PatchBlock(s.thenBlock, sc, fns, body, head, exit);
    PatchElse(s.elseBlock, mid, fns, rest, head, exit);
    var test := TestCode(s.cond, sc, fns, rest + (if s.elseBlock.NoElse? then 0 else 2));
    PatchedBehind(test, BlockCode(s.thenBlock, sc, fns, body, Loop(0, head)), BlockCode(s.thenBlock, sc, fns, body, Loop(exit, head)),
                  ElseCode(s.elseBlock, mid, fns, rest, Loop(0, head)), ElseCode(s.elseBlock, mid, fns, rest, Loop(exit, head)),
                  at, BlockSites(s.thenBlock, body), ElseSites(s.elseBlock, rest), exit);
  }

  /** Two patched pieces behind one without placeholders. */
  lemma PatchedBehind(pre: Code, raw: Code, done: Code, raw': Code, done': Code, at: nat, sites: seq<nat>, sites': seq<nat>, exit: nat)
    requires Patched(raw, done, at + |pre|, sites, exit) && Patched(raw', done', at + |pre| + |raw|, sites', exit)
    ensures Patched(pre + raw + raw', pre + done + done', at, sites + sites', exit)
  {
    PatchedSame(pre, at, exit);
    PatchedJoin(pre, pre, raw, done, at, [], sites, exit);
    assert [] + sites == sites;
    PatchedJoin(pre + raw, pre + done, raw', done', at, sites, sites', exit);
  }

  lemma {:induction false} PatchElse(e: ElseBlock, sc: Scope, fns: Index, at: nat, head: nat, exit: nat)
    ensures Patched(ElseCode(e, sc, fns, at, Loop(0, head)), ElseCode(e, sc, fns, at, Loop(exit, head)), at, ElseSites(e, at), exit)
    decreases e, 3
  {
    if e.Else? {
      var jump := JumpCode(at + 2 + BlockSize(e.block));
      PatchedSame(jump, at, exit);
      PatchBlock(e.block, sc, fns, at + 2, head, exit);
      PatchedJoin(jump, jump, BlockCode(e.block, sc, fns, at + 2, Loop(0, head)), BlockCode(e.block, sc, fns, at + 2, Loop(exit, head)),
                  at, [], BlockSites(e.block, at + 2), exit);
      assert [] + BlockSites(e.block, at + 2) == BlockSites(e.block, at + 2);
    }
  }

  lemma {:induction false} PatchBlock(ss: seq<Stmt>, sc: Scope, fns: Index, at: nat, head: nat, exit: nat)
    ensures Patched(BlockCode(ss, sc, fns, at, Loop(0, head)), BlockCode(ss, sc, fns, at, Loop(exit, head)), at, BlockSites(ss, at), exit)
    decreases ss, 3
  {
    if ss != [] {
      var s, mid := After(ss[0], sc), at + StmtSize(ss[0]);
      PatchStmt(ss[0], sc, fns, at, head, exit);
      PatchBlock(ss[1..], s, fns, mid, head, exit);
      PatchedJoin(StmtCode(ss[0], sc, fns, at, Loop(0, head)), StmtCode(ss[0], sc, fns, at, Loop(exit, head)),
                  BlockCode(ss[1..], s, fns, mid, Loop(0, head)), BlockCode(ss[1..], s, fns, mid, Loop(exit, head)),
                  at, BreakSites(ss[0], at), BlockSites(ss[1..], mid), exit);
    }
  }
}
