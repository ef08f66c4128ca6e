/** What the names that codegen keeps for itself do to a contract that uses them for its own functions and variables. */
module Shadowing {
  import opened Text
  import opened Bytecode
  import opened Ast
  import opened Names
  import opened Avm
  import opened Codegen
  import opened Layout
  import opened Runs
  import Entry
  import Linker
  import Metering
  import Sample
  import Semantics
  import Transitions
  import Words

  // ---------------------------------------------------------------- contracts of two functions besides `init`

  /** `init` does nothing; a function `f` comes before `call`. */
  function Small(f: Function, body: seq<Stmt>): Contract { Contract(Function("init", [], []), [f], Function("call", [], body)) }

  function Before(f: Function): Image { Define(Define(Image(RawHeader([]), map[]), Function("init", [], [])), f) }

  lemma NewHead(h: Codegen.Code, x: Codegen.Code, y: Codegen.Code, z: Codegen.Code)
    requires |h| <= |x|
    ensures Placed(h + (x + y + z)[|h|..], |x|, y)
  {
  }

  lemma BeforeIs(f: Function)
    requires f.name != "call"
    ensures "call" !in Before(f).index && |Before(f).code| >= 8
  {
  }

  lemma SmallDefines(f: Function, body: seq<Stmt>)
    ensures var ct := Small(f, body); DefineAll(Image(RawHeader([]), map[]), AllFunctions(ct)) == Define(Before(f), ct.call)
  {
    var raw, ct, im := Image(RawHeader([]), map[]), Small(f, body), Before(f);
    assert [ct.init] + ([f] + [ct.call]) == AllFunctions(ct) && [ct.call] + [] == [ct.call];
    Sample.DefineAllThen(raw, ct.init, [f] + [ct.call]);
    Sample.DefineAllThen(Define(raw, ct.init), f, [ct.call]);
    Sample.DefineAllThen(im, ct.call, []);
  }

  lemma SmallIs(f: Function, body: seq<Stmt>)
    requires f.name != "call"
    ensures var ct, im := Small(f, body), Before(f); var r := Compiled(Sample.NO_LITERALS, ct);
      r.index == im.index["call" := |im.code|] && Placed(r.code, |im.code|, BodyCode(ct.call, r.index, |im.code|))
  {
    var ct, im := Small(f, body), Before(f);
    BeforeIs(f);
    SmallDefines(f, body);
    var all := Define(im, ct.call);
    var code := BodyCode(ct.call, all.index, |im.code|);
    NewHead(Header([], AddressOf(all, ct.init), AddressOf(all, ct.call)), im.code, code, DefaultCode(im.code + code));
  }

  /** From the call entry to the first instruction of `call`, with nothing on the stack and nothing in memory. */
  lemma ReachCall(vm: Vm, f: Function, body: seq<Stmt>, c: Core) returns (n: nat)
    requires f.name != "call" && body != [] && c.ic == 2 && Genuine(vm) && vm.limit > 1 && c.stack == []
    requires vm.p == Compiled(Sample.NO_LITERALS, Small(f, body)).code && |vm.p| <= TWO63
    ensures Goes(vm.step, c, n, c.(ic := |Before(f).code|)) && Placed(vm.p, |Before(f).code|, BodyCode(Small(f, body).call, CallIndex(f), |Before(f).code|))
  {
    var t, ct := Sample.NO_LITERALS, Small(f, body);
    var im := Compiled(t, ct);
    SmallIs(f, body);
    Entry.CompiledHeader(t, ct);
    NonEmpty(body);
    AddressesAre(f, body);
    n := Entry.RunHeader(vm, c, t, AddressOf(im, ct.init), AddressOf(im, ct.call));
    assert c.(ic := |Before(f).code|, mem := Entry.Loaded(c.mem, t, 0)) == c.(ic := |Before(f).code|);
  }

  function CallIndex(f: Function): Index { Before(f).index["call" := |Before(f).code|] }

  lemma AddressesAre(f: Function, body: seq<Stmt>)
    requires f.name != "call"
    ensures var ct := Small(f, body); var im := Compiled(Sample.NO_LITERALS, ct);
      AddressOf(im, ct.call) == |Before(f).code| && AddressOf(im, ct.init) <= |Before(f).code|
  {
    SmallIs(f, body);
    BeforeIs(f);
  }

  /** A run that comes to the outermost RETURN delivers what is on top, unless it is cut off. */
  lemma Ends(vm: Vm, m: Machine, n: nat, d: Core, v: int)
    requires Genuine(vm) && Goes(vm.step, m.core, n, d) && InsAt(vm.p, d.ic, Op(RETURN)) && d.rets == [] && d.stack != [] && d.stack[|d.stack| - 1] == v
    ensures var r := Execute(vm.p, vm.cx, m, vm.limit); Metering.CutOff(r) || Metering.Delivers(r, v, d.out, d.store)
  {
    var m' := Entry.PaidFor(vm, m, n, d);
    ReturnsOrNot(vm.p, vm.cx, m', vm.limit, Execute(vm.p, vm.cx, m, vm.limit), d, v);
  }

  lemma ReturnsOrNot(p: Codegen.Code, cx: Context, m: Machine, limit: nat, r: Final, d: Core, v: int)
    requires (r.Failed? && r.error == OutOfGas) || (r == Execute(p, cx, m, limit) && m.core == d)
    requires InsAt(p, d.ic, Op(RETURN)) && d.rets == [] && d.stack != [] && d.stack[|d.stack| - 1] == v
    ensures Metering.CutOff(r) || Metering.Delivers(r, v, d.out, d.store)
  {
    if !(r.Failed? && r.error == OutOfGas) { Returns(p, cx, m, limit, r, v); }
  }

  lemma Returns(p: Codegen.Code, cx: Context, m: Machine, limit: nat, r: Final, v: int)
    requires r == Execute(p, cx, m, limit) && InsAt(p, m.core.ic, Op(RETURN)) && m.core.rets == []
    requires m.core.stack != [] && m.core.stack[|m.core.stack| - 1] == v
    ensures Metering.CutOff(r) || Metering.Delivers(r, v, m.core.out, m.core.store)
  {
    Metering.ReturnStops(p, cx, m, limit, m.core);
  }

  // ---------------------------------------------------------------- a function with a built-in name

  /** A contract that adds with a function of its own. */
  function Adding(name: string, x: nat, y: nat): Contract {
    Small(Function(name, ["a", "b"], Sample.ADD.body), [Return(Call(Named(name), [Expr.Number(x), Expr.Number(y)]))])
  }

  lemma ConcatIs()
    ensures BuiltinOf("str_concat") == Builtin(2, [Op(STRCONCAT)])
  {
  }

  lemma ConcatCode(x: nat, y: nat, fns: Index, at: nat)
    ensures BodyCode(Adding("str_concat", x, y).call, fns, at) == [PushLiteral(x), PushLiteral(y), Op(STRCONCAT), Op(RETURN)]
  {
    ConcatIs();
    var s := Adding("str_concat", x, y).call.body[0];
    var sc := ParamScope([]);
    TwoArgs([Expr.Number(x), Expr.Number(y)], sc, fns);
    assert ExprCode(s.result, sc, fns) == [PushLiteral(x), PushLiteral(y), Op(STRCONCAT)];
    assert BlockCode([s], sc, fns, at, Loop(0, 0)) == StmtCode(s, sc, fns, at, Loop(0, 0)) + BlockCode([], sc, fns, at + StmtSize(s), Loop(0, 0));
  }

  /** On empty memory STRCONCAT makes the empty string at the first dynamic address. */
  lemma DoConcat(vm: Vm, c: Core, st: seq<int>, x: nat, y: nat)
    requires Genuine(vm) && InsAt(vm.p, c.ic, Op(STRCONCAT)) && c.stack == st + [x, y] && x < MAX_MEMORY && y < MAX_MEMORY
    requires c.mem == map[] && c.nextMem == FIRST_DYNAMIC && |st| < vm.limit
    ensures Goes(vm.step, c, 1, c.(stack := st + [FIRST_DYNAMIC], mem := Written(map[], FIRST_DYNAMIC, []), nextMem := FIRST_DYNAMIC + 1, ic := c.ic + 1))
  {
    SmallWrap(x);
    SmallWrap(y);
    Transitions.OnConcat(vm, c, Op(STRCONCAT));
    assert c.stack[..|c.stack| - 2] == st;
    assert ReadRaw(map[], x, 0).Str? && ReadRaw(map[], x, 0).text == [] && ReadRaw(map[], y, 0).text == [];
    Once(vm.step, c, c.(stack := st + [FIRST_DYNAMIC], mem := Written(map[], FIRST_DYNAMIC, []), nextMem := FIRST_DYNAMIC + 1, ic := c.ic + 1));
  }

  lemma AddingFits(name: string, x: nat, y: nat, fns: Index)
    requires name in fns && (BuiltinOf(name).Ordinary? || BuiltinOf(name) == Builtin(2, [Op(STRCONCAT)]))
    ensures var f := Adding(name, x, y).call;
      BlockOk(f.body, ParamScope([]), fns, false) && FullScope(f).next == 0 && BlockSize(f.body) < 10 && Linker.Serviceable(f, false)
  {
    var s := Adding(name, x, y).call.body[0];
    TwoArgs(s.result.args, ParamScope([]), fns);
    assert ExprOk(s.result.args[0], ParamScope([]), fns) && ExprOk(s.result.args[1], ParamScope([]), fns);
    assert StmtOk(s, ParamScope([]), fns, false);
    Sample.BlockOfOne(s, ParamScope([]), fns, false);
  }

  lemma AddingInFragment(name: string, x: nat, y: nat)
    requires name != "init" && name != "call" && (BuiltinOf(name).Ordinary? || BuiltinOf(name) == Builtin(2, [Op(STRCONCAT)]))
    ensures Metering.InFragment(Sample.NO_LITERALS, Adding(name, x, y))
  {
    var ct := Adding(name, x, y);
    var f := ct.others[0];
    var raw := Image(RawHeader([]), map[]);
    var one := Define(raw, ct.init);
    var two := Define(one, f);
    Sample.AddFits(one.index[name := |one.code|]);
    AddingFits(name, x, y, two.index["call" := |two.code|]);
    assert [ct.init] + ([f] + [ct.call]) == AllFunctions(ct) && [ct.call] + [] == [ct.call];
    Sample.DefineAllThen(raw, ct.init, [f] + [ct.call]);
    Sample.DefineAllThen(one, f, [ct.call]);
    Sample.DefineAllThen(two, ct.call, []);
    AddingServed(name, x, y);
  }

  lemma AddingServed(name: string, x: nat, y: nat)
    requires BuiltinOf(name).Ordinary? || BuiltinOf(name) == Builtin(2, [Op(STRCONCAT)])
    ensures Linker.AllServiceable(AllFunctions(Adding(name, x, y)), true)
  {
    var ct := Adding(name, x, y);
    var f := ct.others[0];
    assert AllFunctions(ct) == [ct.init, f, ct.call];
    AddingFits(name, x, y, map[name := 0]);
    assert Linker.Serviceable(f, false) by { Sample.AddFits(map[]); assert FullScope(f) == FullScope(Sample.ADD); }
    assert Linker.Serviceable(ct.init, true);
  }

  /** What the contract means: the sum, or nothing if the name is a built-in one. */
  lemma AddingMeans(name: string, x: nat, y: nat, fuel: nat)
    requires name != "init" && name != "call" && fuel > 0
    ensures var ct := Adding(name, x, y); var fs := Metering.ProgramOf(ct);
      && "call" in fs && fs["call"] == ct.call
      && Semantics.RunFunction(ct.call, fs, fuel) == if BuiltinOf(name).Ordinary? then Semantics.Done(Words.Add(x, y), []) else Semantics.Wrong
  {
    var ct := Adding(name, x, y);
    var fs := Metering.ProgramOf(ct);
    AddingProgram(name, x, y);
    var s := ct.call.body[0];
    Sample.ExecOne(s, map[], fs, fuel);
    if BuiltinOf(name).Ordinary? {
      CallMeans(name, x, y, fs, fuel);
    } else {
      assert Semantics.Eval(s.result, map[], fs, fuel) == Semantics.Wrong;
    }
  }

  lemma CallMeans(name: string, x: nat, y: nat, fs: Semantics.Program, fuel: nat)
    requires BuiltinOf(name).Ordinary? && name in fs && fs[name].params == ["a", "b"] && fs[name].body == Sample.ADD.body && fuel > 0
    ensures Semantics.Eval(Call(Named(name), [Expr.Number(x), Expr.Number(y)]), map[], fs, fuel) == Semantics.Done(Words.Add(x, y), [])
  {
    var e := Call(Named(name), [Expr.Number(x), Expr.Number(y)]);
    BodyMeans(x, y, fs, fuel - 1);
    assert Semantics.Bind(fs[name], x, y) == Semantics.Bind(Sample.ADD, x, y);
    assert Semantics.Eval(e.args[0], map[], fs, fuel) == Semantics.Done(x, []);
    assert Semantics.Eval(e.args[1], map[], fs, fuel) == Semantics.Done(y, []);
  }

  lemma BodyMeans(x: int, y: int, fs: Semantics.Program, fuel: nat)
    ensures var f := Sample.ADD; Semantics.ResultOf(Semantics.ExecBlock(f.body, Semantics.Bind(f, x, y), fs, fuel)) == Semantics.Done(Words.Add(x, y), [])
  {
    Sample.FreeNames();
    var env, s := Semantics.Bind(Sample.ADD, x, y), Sample.ADD.body[0];
    assert env["a"] == x && env["b"] == y;
    Sample.Reads("a", env, fs, fuel);
    Sample.Reads("b", env, fs, fuel);
    assert Semantics.Eval(s.result, env, fs, fuel) == Semantics.Done(Words.Add(x, y), []);
    Sample.ExecOne(s, env, fs, fuel);
  }

  lemma AddingProgram(name: string, x: nat, y: nat)
    requires name != "init" && name != "call"
    ensures var ct := Adding(name, x, y); var fs := Metering.ProgramOf(ct);
      "call" in fs && fs["call"] == ct.call && name in fs && fs[name] == ct.others[0]
  {
    var ct := Adding(name, x, y);
    var f := ct.others[0];
    assert [ct.init] + ([f] + [ct.call]) == AllFunctions(ct);
    ThreeFunctions(ct.init, f, ct.call);
  }

  lemma ThreeFunctions(a: Function, b: Function, c: Function)
    requires a.name != b.name && a.name != c.name && b.name != c.name
    ensures var fs := Linker.Program([a] + ([b] + [c]), {}); c.name in fs && fs[c.name] == c && b.name in fs && fs[b.name] == b
  {
    assert [c] + [] == [c] && {} + {a.name} == {a.name};
    Sample.ProgramThen(c, [], {a.name} + {b.name});
    Sample.ProgramThen(b, [c], {a.name});
    Sample.ProgramThen(a, [b] + [c], {});
  }

  lemma ConcatSteps(vm: Vm, x: nat, y: nat, c: Core, code: Codegen.Code) returns (n: nat, d: Core)
    requires x < MAX_MEMORY && y < MAX_MEMORY && Genuine(vm) && vm.limit > 1 && c.stack == [] && c.mem == map[] && c.nextMem == FIRST_DYNAMIC
    requires code == [PushLiteral(x), PushLiteral(y), Op(STRCONCAT), Op(RETURN)] && Placed(vm.p, c.ic, code)
    ensures Goes(vm.step, c, n, d) && InsAt(vm.p, d.ic, Op(RETURN)) && d == c.(ic := d.ic, stack := [FIRST_DYNAMIC], mem := d.mem, nextMem := d.nextMem)
  {
    Fetch(vm.p, c.ic, code, 0);
    Fetch(vm.p, c.ic, code, 1);
    Fetch(vm.p, c.ic, code, 2);
    Fetch(vm.p, c.ic, code, 3);
    Entry.DoPush(vm, c, PushLiteral(x), x);
    var c1 := c.(stack := [x], ic := c.ic + 1);
    assert c.stack + [x] == [x];
    Entry.DoPush(vm, c1, PushLiteral(y), y);
    var c2 := c.(stack := [x, y], ic := c.ic + 2);
    assert c1.stack + [y] == [x, y] && [x, y] == [] + [x, y];
    Join(vm.step, c, 1, c1, 1, c2);
    DoConcat(vm, c2, [], x, y);
    d := c2.(stack := [FIRST_DYNAMIC], mem := Written(map[], FIRST_DYNAMIC, []), nextMem := FIRST_DYNAMIC + 1, ic := c2.ic + 1);
    assert [] + [FIRST_DYNAMIC as int] == [FIRST_DYNAMIC];
    Join(vm.step, c, 2, c2, 1, d);
    n := 3;
  }

  /** A function with a built-in name is defined and never called. `Adding` under any ordinary name delivers the sum; under the
      name `str_concat`, everything else being the same, it delivers 100, the address of an empty string, whatever it adds. */
  lemma BuiltinWins(name: string, x: nat, y: nat, cx: Context, gas: nat, store: Storage)
    requires name != "init" && name != "call" && BuiltinOf(name).Ordinary? && x < MAX_MEMORY && y < MAX_MEMORY
    ensures forall f :: f == name || f == "str_concat" ==> Metering.InFragment(Sample.NO_LITERALS, Adding(f, x, y))
    ensures var r := Execute(Compiled(Sample.NO_LITERALS, Adding(name, x, y)).code, cx, Fresh(gas, 2, store), MAX_STACK);
      Metering.CutOff(r) || Metering.Delivers(r, Words.Add(x, y), [], store)
    ensures var r := Execute(Compiled(Sample.NO_LITERALS, Adding("str_concat", x, y)).code, cx, Fresh(gas, 2, store), MAX_STACK);
      Metering.CutOff(r) || Metering.Delivers(r, FIRST_DYNAMIC, [], store)
  {
    ConcatIs();
    AddingInFragment(name, x, y);
    AddingInFragment("str_concat", x, y);
    AddingDelivers(name, x, y, cx, gas, store);
    ConcatDelivers(x, y, cx, gas, store);
  }

  lemma AddingDelivers(name: string, x: nat, y: nat, cx: Context, gas: nat, store: Storage)
    requires name != "init" && name != "call" && BuiltinOf(name).Ordinary? && Metering.InFragment(Sample.NO_LITERALS, Adding(name, x, y))
    ensures var r := Execute(Compiled(Sample.NO_LITERALS, Adding(name, x, y)).code, cx, Fresh(gas, 2, store), MAX_STACK);
      Metering.CutOff(r) || Metering.Delivers(r, Words.Add(x, y), [], store)
  {
    Metering.CompiledRuns(Sample.NO_LITERALS, Adding(name, x, y), cx, gas, store, 2, MAX_STACK, 1);
    AddingMeans(name, x, y, 1);
  }

  lemma ConcatReach(vm: Vm, x: nat, y: nat, c: Core) returns (n: nat, at: nat)
    requires Genuine(vm) && vm.limit > 1 && c.ic == 2 && c.stack == []
    requires vm.p == Compiled(Sample.NO_LITERALS, Adding("str_concat", x, y)).code && |vm.p| <= TWO63
    ensures Goes(vm.step, c, n, c.(ic := at)) && Placed(vm.p, at, [PushLiteral(x), PushLiteral(y), Op(STRCONCAT), Op(RETURN)])
  {
    var ct := Adding("str_concat", x, y);
    var f := ct.others[0];
    at := |Before(f).code|;
    n := ReachCall(vm, f, ct.call.body, c);
    ConcatCode(x, y, CallIndex(f), at);
  }

  lemma ConcatDelivers(x: nat, y: nat, cx: Context, gas: nat, store: Storage)
    requires x < MAX_MEMORY && y < MAX_MEMORY && Metering.InFragment(Sample.NO_LITERALS, Adding("str_concat", x, y))
    ensures var r := Execute(Compiled(Sample.NO_LITERALS, Adding("str_concat", x, y)).code, cx, Fresh(gas, 2, store), MAX_STACK);
      Metering.CutOff(r) || Metering.Delivers(r, FIRST_DYNAMIC, [], store)
  {
    var p := Compiled(Sample.NO_LITERALS, Adding("str_concat", x, y)).code;
    var vm, m := Vm(p, cx, MAX_STACK, c => CoreStep(p, cx, c, MAX_STACK)), Fresh(gas, 2, store);
    var first, at := ConcatReach(vm, x, y, m.core);
    ConcatEnds(vm, m, x, y, first, at);
  }

  lemma ConcatEnds(vm: Vm, m: Machine, x: nat, y: nat, first: nat, at: nat)
    requires x < MAX_MEMORY && y < MAX_MEMORY && Genuine(vm) && vm.limit > 1 && Goes(vm.step, m.core, first, m.core.(ic := at))
    requires m == Fresh(m.gasAvailable, 2, m.core.store) && Placed(vm.p, at, [PushLiteral(x), PushLiteral(y), Op(STRCONCAT), Op(RETURN)])
    ensures var r := Execute(vm.p, vm.cx, m, vm.limit); Metering.CutOff(r) || Metering.Delivers(r, FIRST_DYNAMIC, [], m.core.store)
  {
    var n, d := ConcatSteps(vm, x, y, m.core.(ic := at), [PushLiteral(x), PushLiteral(y), Op(STRCONCAT), Op(RETURN)]);
    Join(vm.step, m.core, first, m.core.(ic := at), n, d);
    Ends(vm, m, first + n, d, FIRST_DYNAMIC);
  }

  // ---------------------------------------------------------------- a variable with a context name

  /** A contract that keeps a number in a variable of its own and returns it. */
  function Keeping(name: string, v: nat): Contract { Small(Sample.ADD, [Assign(name, Expr.Number(v))] + [Return(Identifier(name))]) }

  lemma KeepingCode(name: string, v: nat, fns: Index, at: nat)
    requires ContextOpcode(name).Some?
    ensures BodyCode(Keeping(name, v).call, fns, at) == [PushLiteral(v), Push(0), Op(STORE_LOCAL), Op(ContextOpcode(name).value), Op(RETURN)]
  {
    var keep, give := Assign(name, Expr.Number(v)), Return(Identifier(name));
    var sc := ParamScope([]);
    var ss := [keep] + [give];
    assert ss[1..] == [give] && [give][1..] == [];
    var after := After(keep, sc);
    assert StmtCode(keep, sc, fns, at, Loop(0, 0)) == [PushLiteral(v), Push(0), Op(STORE_LOCAL)];
    assert StmtCode(give, after, fns, at + 3, Loop(0, 0)) == [Op(ContextOpcode(name).value), Op(RETURN)];
    assert BlockCode([give], after, fns, at + 3, Loop(0, 0)) == [Op(ContextOpcode(name).value), Op(RETURN)];
  }

  lemma KeepingFits(name: string, v: nat, fns: Index)
    ensures var f := Keeping(name, v).call;
      BlockOk(f.body, ParamScope([]), fns, false) && FullScope(f).next == 1 && BlockSize(f.body) < 10 && Linker.Serviceable(f, false)
  {
    var keep, give, sc := Assign(name, Expr.Number(v)), Return(Identifier(name)), ParamScope([]);
    Sample.BlockOfOne(give, After(keep, sc), fns, false);
    Sample.BlockThen(keep, [give], sc, fns, false);
  }

  lemma KeepingInFragment(name: string, v: nat)
    ensures Metering.InFragment(Sample.NO_LITERALS, Keeping(name, v))
  {
    KeepingAccepted(name, v);
    KeepingServed(name, v);
  }

  lemma KeepingAccepted(name: string, v: nat)
    ensures CompiledOk(Sample.NO_LITERALS, Keeping(name, v)) && |Compiled(Sample.NO_LITERALS, Keeping(name, v)).code| < 200
  {
    forall fns: Index ensures BlockOk(Sample.ADD.body, ParamScope(Sample.ADD.params), fns, false) { Sample.AddFits(fns); }
    forall fns: Index ensures BlockOk(Keeping(name, v).call.body, ParamScope([]), fns, false) { KeepingFits(name, v, fns); }
    Sample.AddFits(map[]);
    KeepingFits(name, v, map[]);
    SmallAccepted(Sample.ADD, Keeping(name, v).call.body);
  }

  /** Two functions that are fine wherever they stand. */
  lemma SmallAccepted(f: Function, body: seq<Stmt>)
    requires forall fns: Index :: BlockOk(f.body, ParamScope(f.params), fns, false)
    requires forall fns: Index :: BlockOk(body, ParamScope([]), fns, false)
    requires BlockSize(f.body) < 50 && BlockSize(body) < 50
    ensures CompiledOk(Sample.NO_LITERALS, Small(f, body)) && |Compiled(Sample.NO_LITERALS, Small(f, body)).code| < 200
  {
    var ct := Small(f, body);
    var raw := Image(RawHeader([]), map[]);
    var one := Define(raw, ct.init);
    assert [ct.init] + ([f] + [ct.call]) == AllFunctions(ct) && [ct.call] + [] == [ct.call];
    Sample.DefineAllThen(raw, ct.init, [f] + [ct.call]);
    Sample.DefineAllThen(one, f, [ct.call]);
    Sample.DefineAllThen(Define(one, f), ct.call, []);
  }

  lemma KeepingServed(name: string, v: nat)
    ensures Linker.AllServiceable(AllFunctions(Keeping(name, v)), true)
  {
    var ct := Keeping(name, v);
    assert AllFunctions(ct) == [ct.init, Sample.ADD, ct.call];
    assert Linker.Serviceable(Sample.ADD, false) by { Sample.AddFits(map[]); }
    assert Linker.Serviceable(ct.call, false) by { KeepingFits(name, v, map[]); }
    assert Linker.Serviceable(ct.init, true);
  }

  /** What reading a context variable leaves on top of the stack here: `@balance` takes an operand and is always 0; `@tsxdata` is
      the address of a copy. */
  function ContextRead(op: Opcode, cx: Context): int { if op == BALANCE then 0 else if op == TSXDATA then FIRST_DYNAMIC else ContextValue(op, cx) }

  predicate IsContextRead(op: Opcode) { IsContext(op) || op == BALANCE || op == TSXDATA }

  lemma {:induction false} ContextKinds(x: string, i: nat)
    requires i <= 12
    ensures ContextFrom(x, i).Some? ==> IsContextRead(ContextFrom(x, i).value) && Valid(Op(ContextFrom(x, i).value))
    decreases 12 - i
  {
    if i < 12 { ContextKinds(x, i + 1); }
  }

  lemma DoContext(vm: Vm, c: Core, op: Opcode) returns (d: Core)
    requires Genuine(vm) && vm.limit > 1 && |c.stack| == 1 && c.nextMem == FIRST_DYNAMIC && InsAt(vm.p, c.ic, Op(op)) && IsContextRead(op) && Valid(Op(op))
    ensures Goes(vm.step, c, 1, d) && d == c.(ic := c.ic + 1, stack := d.stack, mem := d.mem, nextMem := d.nextMem)
    ensures d.stack != [] && d.stack[|d.stack| - 1] == ContextRead(op, vm.cx)
  {
    SmallWrap(FIRST_DYNAMIC);
    if op == BALANCE { Transitions.OnOne(vm, c, Op(op)); } else { Transitions.OnNone(vm, c, Op(op)); }
    d := vm.step(c).core;
    Once(vm.step, c, d);
  }

  lemma KeepingSteps(vm: Vm, v: nat, op: Opcode, c: Core, code: Codegen.Code) returns (d: Core)
    requires Genuine(vm) && vm.limit > 1 && c.stack == [] && c.fp == 0 && c.nextMem == FIRST_DYNAMIC && IsContextRead(op) && Valid(Op(op))
    requires code == [PushLiteral(v), Push(0), Op(STORE_LOCAL), Op(op), Op(RETURN)] && Placed(vm.p, c.ic, code)
    ensures Goes(vm.step, c, 4, d) && InsAt(vm.p, d.ic, Op(RETURN)) && d == c.(ic := d.ic, stack := d.stack, mem := d.mem, nextMem := d.nextMem)
    ensures d.stack != [] && d.stack[|d.stack| - 1] == ContextRead(op, vm.cx)
  {
    Fetch(vm.p, c.ic, code, 3);
    Fetch(vm.p, c.ic, code, 4);
    var c3 := c.(stack := [v], ic := c.ic + 3);
    KeepStep(vm, v, c, code);
    d := DoContext(vm, c3, op);
    Join(vm.step, c, 3, c3, 1, d);
  }

  lemma KeepStep(vm: Vm, v: nat, c: Core, code: Codegen.Code)
    requires Genuine(vm) && vm.limit > 1 && c.stack == [] && c.fp == 0 && |code| > 2 && Placed(vm.p, c.ic, code)
    requires code[0] == PushLiteral(v) && code[1] == Push(0) && code[2] == Op(STORE_LOCAL)
    ensures Goes(vm.step, c, 3, c.(stack := [v], ic := c.ic + 3))
  {
    Fetch(vm.p, c.ic, code, 0);
    Fetch(vm.p, c.ic, code, 1);
    Fetch(vm.p, c.ic, code, 2);
    Entry.DoPush(vm, c, PushLiteral(v), v);
    var c1 := c.(stack := [v], ic := c.ic + 1);
    assert c.stack + [v] == [v];
    Entry.DoPush(vm, c1, Push(0), 0);
    var c2 := c.(stack := [v, 0], ic := c.ic + 2);
    assert c1.stack + [0] == [v, 0];
    Join(vm.step, c, 1, c1, 1, c2);
    SmallWrap(0);
    Transitions.OnTwo(vm, c2, Op(STORE_LOCAL));
    assert c2.stack[..|c2.stack| - 2] == [] && Padded([], 1)[0 := v as int] == [v];
    var c3 := c.(stack := [v], ic := c.ic + 3);
    Once(vm.step, c2, c3);
    Join(vm.step, c, 2, c2, 1, c3);
  }

  lemma KeepingMeans(name: string, v: nat, fs: Semantics.Program, fuel: nat)
    ensures Semantics.RunFunction(Keeping(name, v).call, fs, fuel) == if ContextOpcode(name).None? then Semantics.Done(v, []) else Semantics.Wrong
  {
    var keep, give := Assign(name, Expr.Number(v)), Return(Identifier(name));
    var env: Semantics.Env := map[name := v];
    assert Semantics.Exec(keep, map[], fs, fuel) == Semantics.Done(Semantics.Stop(Semantics.Normal, env), []);
    Sample.ExecOne(give, env, fs, fuel);
    Sample.ExecThen(keep, [give], map[], fs, fuel);
  }

  lemma KeepingProgram(name: string, v: nat)
    ensures var ct := Keeping(name, v); var fs := Metering.ProgramOf(ct); "call" in fs && fs["call"] == ct.call
  {
    var ct := Keeping(name, v);
    assert [ct.init] + ([Sample.ADD] + [ct.call]) == AllFunctions(ct);
    ThreeFunctions(ct.init, Sample.ADD, ct.call);
  }

  lemma KeepingReach(vm: Vm, name: string, v: nat, c: Core) returns (n: nat, at: nat)
    requires ContextOpcode(name).Some? && Genuine(vm) && vm.limit > 1 && c.ic == 2 && c.stack == []
    requires vm.p == Compiled(Sample.NO_LITERALS, Keeping(name, v)).code && |vm.p| <= TWO63
    ensures Goes(vm.step, c, n, c.(ic := at))
    ensures Placed(vm.p, at, [PushLiteral(v), Push(0), Op(STORE_LOCAL), Op(ContextOpcode(name).value), Op(RETURN)])
  {
    var f := Sample.ADD;
    at := |Before(f).code|;
    n := ReachCall(vm, f, Keeping(name, v).call.body, c);
    KeepingCode(name, v, CallIndex(f), at);
  }

  lemma KeepingEnds(vm: Vm, m: Machine, v: nat, op: Opcode, first: nat, at: nat)
    requires Genuine(vm) && vm.limit > 1 && IsContextRead(op) && Valid(Op(op)) && Goes(vm.step, m.core, first, m.core.(ic := at))
    requires m == Fresh(m.gasAvailable, 2, m.core.store) && Placed(vm.p, at, [PushLiteral(v), Push(0), Op(STORE_LOCAL), Op(op), Op(RETURN)])
    ensures var r := Execute(vm.p, vm.cx, m, vm.limit); Metering.CutOff(r) || Metering.Delivers(r, ContextRead(op, vm.cx), [], m.core.store)
  {
    var d := KeepingSteps(vm, v, op, m.core.(ic := at), [PushLiteral(v), Push(0), Op(STORE_LOCAL), Op(op), Op(RETURN)]);
    Join(vm.step, m.core, first, m.core.(ic := at), 4, d);
    Ends(vm, m, first + 4, d, ContextRead(op, vm.cx));
  }

  lemma ContextDelivers(name: string, v: nat, cx: Context, gas: nat, store: Storage)
    requires ContextOpcode(name).Some? && Metering.InFragment(Sample.NO_LITERALS, Keeping(name, v))
    ensures var r := Execute(Compiled(Sample.NO_LITERALS, Keeping(name, v)).code, cx, Fresh(gas, 2, store), MAX_STACK);
      Metering.CutOff(r) || Metering.Delivers(r, ContextRead(ContextOpcode(name).value, cx), [], store)
  {
    var p := Compiled(Sample.NO_LITERALS, Keeping(name, v)).code;
    var vm, m := Vm(p, cx, MAX_STACK, c => CoreStep(p, cx, c, MAX_STACK)), Fresh(gas, 2, store);
    var first, at := KeepingReach(vm, name, v, m.core);
    ContextKinds(name, 0);
    KeepingEnds(vm, m, v, ContextOpcode(name).value, first, at);
  }

  lemma KeepingDelivers(name: string, v: nat, cx: Context, gas: nat, store: Storage)
    requires ContextOpcode(name).None? && Metering.InFragment(Sample.NO_LITERALS, Keeping(name, v))
    ensures var r := Execute(Compiled(Sample.NO_LITERALS, Keeping(name, v)).code, cx, Fresh(gas, 2, store), MAX_STACK);
      Metering.CutOff(r) || Metering.Delivers(r, v, [], store)
  {
    Metering.CompiledRuns(Sample.NO_LITERALS, Keeping(name, v), cx, gas, store, 2, MAX_STACK, 1);
    KeepingProgram(name, v);
    KeepingMeans(name, v, Metering.ProgramOf(Keeping(name, v)), 1);
  }

  /** What a context variable reads as. */
  function Reads(name: string, cx: Context): Option<int> {
    match ContextOpcode(name) case Some(op) => Some(ContextRead(op, cx)) case None => None
  }

  /** The length and the sixth letter tell the names apart. */
  function Mark(i: nat): (nat, char) {
    match i
    case 0 => (7, 'e')
    case 1 => (8, 'e')
    case 2 => (8, 'n')
    case 3 => (7, 'i')
    case 4 => (9, 'r')
    case 5 => (10, 'v')
    case 6 => (10, 's')
    case 7 => (11, 'i')
    case 8 => (9, 'b')
    case 9 => (7, 'h')
    case 10 => (9, 'i')
    case _ => (8, 'a')
  }

  lemma MarkIs(i: nat)
    requires i < 12
    ensures |ContextName(i).0| == Mark(i).0 && Mark(i).0 > 5 && ContextName(i).0[5] == Mark(i).1
  {
  }

  lemma MarksDiffer(i: nat, j: nat)
    requires j < i < 12
    ensures ContextName(i).0 != ContextName(j).0
  {
    MarkIs(i);
    MarkIs(j);
    assert Mark(i) != Mark(j);
  }

  lemma {:induction false} FoundAt(i: nat, from: nat)
    requires from <= i < 12
    ensures ContextFrom(ContextName(i).0, from) == Some(ContextName(i).1)
    decreases i - from
  {
    if from < i {
      MarksDiffer(i, from);
      FoundAt(i, from + 1);
    }
  }

  lemma ReadsAt(i: nat, cx: Context)
    requires i < 12
    ensures Reads(ContextName(i).0, cx) == Some(ContextRead(ContextName(i).1, cx))
  {
    FoundAt(i, 0);
  }

  /** What the twelve context variables, in the order of `NamesAre`, give. Numbers come through int64. */
  function Field(i: nat, cx: Context): int {
    match i
    case 0 => cx.caller
    case 1 => cx.contractAddress
    case 2 => 0
    case 3 => cx.origin
    case 4 => Wrap(cx.gasPrice)
    case 5 => Wrap(cx.callValue)
    case 6 => Wrap(cx.timestamp)
    case 7 => Wrap(cx.difficulty)
    case 8 => cx.coinbase
    case 9 => Wrap(cx.blockNumber)
    case 10 => Wrap(cx.gasLimit)
    case _ => 100
  }

  function OpcodeOf(i: nat): Opcode {
    match i
    case 0 => CALLER
    case 1 => ADDRESS
    case 2 => BALANCE
    case 3 => ORIGIN
    case 4 => GASPRICE
    case 5 => CALLVALUE
    case 6 => TIMESTAMP
    case 7 => DIFFICULTY
    case 8 => COINBASE
    case 9 => HEIGHT
    case 10 => GASLIMIT
    case _ => TSXDATA
  }

  lemma CodeIs(i: nat)
    requires i < 12
    ensures ContextName(i).1 == OpcodeOf(i)
  {
  }

  lemma FieldIs(i: nat, cx: Context)
    requires i < 12
    ensures ContextRead(OpcodeOf(i), cx) == Field(i, cx)
  {
  }

  lemma ContextGives(i: nat, cx: Context)
    requires i < 12
    ensures Reads(ContextName(i).0, cx) == Some(Field(i, cx))
  {
    ReadsAt(i, cx);
    CodeIs(i);
    FieldIs(i, cx);
  }

  /** Their names. */
  lemma NamesAre()
    ensures ContextName(0).0 == "@caller"
    ensures ContextName(1).0 == "@address"
    ensures ContextName(2).0 == "@balance"
    ensures ContextName(3).0 == "@origin"
    ensures ContextName(4).0 == "@gasprice"
    ensures ContextName(5).0 == "@callvalue"
    ensures ContextName(6).0 == "@timestamp"
    ensures ContextName(7).0 == "@difficulty"
    ensures ContextName(8).0 == "@coinbase"
    ensures ContextName(9).0 == "@height"
    ensures ContextName(10).0 == "@gaslimit"
    ensures ContextName(11).0 == "@tsxdata"
  {
  }

  /** A variable with a context name is stored and never read: `Keeping` delivers the number it stored exactly under an
      ordinary name, and what the block context says under any other. */
  lemma ContextWins(name: string, v: nat, cx: Context, gas: nat, store: Storage)
    ensures Metering.InFragment(Sample.NO_LITERALS, Keeping(name, v))
    ensures var r, op := Execute(Compiled(Sample.NO_LITERALS, Keeping(name, v)).code, cx, Fresh(gas, 2, store), MAX_STACK), ContextOpcode(name);
      && (op.None? ==> Metering.CutOff(r) || Metering.Delivers(r, v, [], store))
      && (op.Some? ==> Metering.CutOff(r) || Metering.Delivers(r, Reads(name, cx).value, [], store))
  {
    KeepingInFragment(name, v);
    if ContextOpcode(name).None? {
      KeepingDelivers(name, v, cx, gas, store);
    } else {
      ContextDelivers(name, v, cx, gas, store);
    }
  }
}
