/** Gas and the stack limit put back: what the metered machine does with a compiled contract. */
module Metering {
  import opened Text
  import opened Bytecode
  import opened Ast
  import opened Codegen
  import opened Layout
  import opened Semantics
  import opened Simulation
  import opened Linker
  import opened Avm
  import opened Runs
  import Instructions

  // ---------------------------------------------------------------- the stack limit

  /** Both operands of STRCONCAT read as strings. */
  predicate ConcatReads(c: Core, p1: int, p2: int) {
    var a1, a2 := Low64(p1), Low64(p2);
    && a1 < MAX_MEMORY && a2 < MAX_MEMORY
    && ReadRaw(c.mem, a1, Low64(Cell(c.mem, a1))).Str? && ReadRaw(c.mem, a2, Low64(Cell(c.mem, a2))).Str?
  }

  /** They do, and there is room for the result. */
  predicate ConcatFits(c: Core, p1: int, p2: int) {
    && ConcatReads(c, p1, p2)
    && var a1, a2 := Low64(p1), Low64(p2);
    c.nextMem + Chunks(|ReadRaw(c.mem, a1, Low64(Cell(c.mem, a1))).text + ReadRaw(c.mem, a2, Low64(Cell(c.mem, a2))).text|) < MAX_MEMORY
  }

  predicate Full(st: seq<int>, limit: nat) { limit > 0 && |st| >= limit }

  /** STRCONCAT hides its errors: unless it crashes it goes on, and it pushes a result if and only if both operands read, the
      result fits and the stack has room. */
  lemma ConcatSilentExactly(c: Core, st: seq<int>, p1: int, p2: int, limit: nat)
    ensures var r := Concat(c, st, p1, p2, limit);
      && (r == Halt(Crash) || (r.Next? && r.core.ic == c.ic + 1))
      && (r.Next? ==> (|r.core.stack| == |st| + 1 <==> ConcatFits(c, p1, p2) && !Full(st, limit)))
      && (r.Next? && |r.core.stack| != |st| + 1 ==> r.core.stack == st)
  {
  }

  /** So the stack limit does more than stop it if and only if there was a result to push and no room. */
  lemma ConcatLimitExactly(c: Core, st: seq<int>, p1: int, p2: int, limit: nat)
    ensures Concat(c, st, p1, p2, limit) == Concat(c, st, p1, p2, 0) || Concat(c, st, p1, p2, limit) == Halt(StackOverflow)
            <==> !(Full(st, limit) && ConcatFits(c, p1, p2))
  {
    ConcatSilentExactly(c, st, p1, p2, limit);
    ConcatSilentExactly(c, st, p1, p2, 0);
  }

  /** The result of a concatenation would be pushed on a full stack. */
  predicate ConcatOnFull(p: Codegen.Code, c: Core, limit: nat) {
    && 0 <= c.ic < |p| && p[c.ic].op == STRCONCAT && Valid(p[c.ic]) && |c.stack| >= 2
    && Full(c.stack[..|c.stack| - 2], limit) && ConcatFits(c, Nth(c.stack, 1), Nth(c.stack, 0))
  }

  /** The stack limit changes nothing but to stop the run, for every opcode, except exactly there. */
  lemma LimitExactly(p: Codegen.Code, cx: Context, c: Core, limit: nat)
    requires 0 <= c.ic < |p|
    ensures CoreStep(p, cx, c, limit) == CoreStep(p, cx, c, 0) || CoreStep(p, cx, c, limit) == Halt(StackOverflow)
            <==> !ConcatOnFull(p, c, limit)
  {
    if p[c.ic].op == STRCONCAT {
      if |c.stack| >= 2 { ConcatLimitExactly(c, c.stack[..|c.stack| - 2], Nth(c.stack, 1), Nth(c.stack, 0), limit); }
    } else {
      LimitOnlyStops(p, cx, c, limit);
    }
  }

  /** The stack limit changes nothing but to stop the run, where no string is concatenated. */
  lemma LimitOnlyStops(p: Codegen.Code, cx: Context, c: Core, limit: nat)
    requires 0 <= c.ic < |p| && p[c.ic].op != STRCONCAT
    ensures CoreStep(p, cx, c, limit) == CoreStep(p, cx, c, 0) || CoreStep(p, cx, c, limit) == Halt(StackOverflow)
  {
  }

  predicate Exhausted(e: Error) { e == OutOfGas || e == StackOverflow }

  /** The reference machine as a step function. */
  ghost function Reference(p: Codegen.Code): Stepper {
    c => match Instructions.Expect(p, c) case Some(d) => Next(d) case None => Halt(Crash)
  }

  lemma ReferenceStep(p: Codegen.Code, cx: Context, c: Core, limit: nat)
    requires Reference(p)(c).Next? && Instructions.NoStrings(c.mem)
    ensures CoreStep(p, cx, c, limit) == Reference(p)(c) || CoreStep(p, cx, c, limit) == Halt(StackOverflow)
    ensures 0 <= c.ic < |p| && Valid(p[c.ic]) && Reference(p)(c).core.mem == c.mem
  {
    Instructions.MachineAgrees(p, cx, c);
    LimitOnlyStops(p, cx, c, limit);
  }

  /** The metered machine follows the reference machine step for step, and pays at least one unit of gas
      for each step, unless it runs out of gas or stack first. */
  lemma {:induction false} Follows(p: Codegen.Code, cx: Context, m: Machine, limit: nat, n: nat, d: Core) returns (m': Machine)
    requires Goes(Reference(p), m.core, n, d) && Instructions.NoStrings(m.core.mem)
    ensures var r := Execute(p, cx, m, limit);
      CutOff(r) || (r == Execute(p, cx, m', limit) && m'.core == d && m'.gasAvailable + n <= m.gasAvailable)
    decreases n
  {
    m' := m;
    if n > 0 {
      ReferenceStep(p, cx, m.core, limit);
      StepCharges(p, cx, m, limit);
      var s := Step(p, cx, m, limit);
      if s.Running? {
        m' := Follows(p, cx, s.m, limit, n - 1, d);
      }
    }
  }

  // ---------------------------------------------------------------- entry points

  /** An entry point runs with no caller: it stops at its first RETURN. */
  ghost predicate StopsWith(k: Link, c: Core, n: nat, d: Core, r: Res<int>, fuel: nat) {
    match r
    case Done(v, o) =>
      && Goes(k.step, c, n, d) && InsAt(k.p, d.ic, Op(RETURN)) && d.rets == c.rets
      && d.stack != [] && d.stack[|d.stack| - 1] == v && d.out == c.out + o && d.store == c.store
    case OutOfFuel => Iterate(k.step, c, n).Next? && n >= fuel
    case Wrong => true
  }

  lemma RunEntry(k: Link, f: string, fuel: nat, c: Core) returns (n: nat, d: Core)
    requires Linked(k) && Simulation.Callee(k, f) && c.mem == k.mem && c.stack == [] && c.fp == 0 && c.ic == k.fns[f]
    ensures StopsWith(k, c, n, d, RunFunction(k.fs[f], k.fs, fuel), fuel)
  {
    var g := k.fs[f];
    var full, end := FullScope(g), c.ic + BlockSize(g.body);
    ParamsWellScoped(g.params, |g.params|);
    AfterBlockGrows(g.body, ParamScope(g.params));
    n, d := SimBlock(k, g.body, full, map[], fuel, c, Loop(0, 0));
    var r := ExecBlock(g.body, map[], k.fs, fuel);
    if r.Done? && r.value.how.Normal? {
      if MustReturn(g.body) { MustReturnNotNormal(g.body, map[], k.fs, fuel); }
      Instructions.DoPush(k.step, k.p, k.mem, d, Push(0), 0);
      var e := d.(stack := d.stack + [0], ic := end + 1);
      Join(k.step, c, n, d, 1, e);
      n, d := n + 1, e;
    }
  }

  // ---------------------------------------------------------------- the whole contract

  /** What the compiler theorem asks of a contract: codegen accepts it, it has no string literals (so memory
      stays empty), every function fits the machine's conventions, and addresses fit an int. */
  ghost predicate InFragment(t: Table, ct: Contract) {
    && t.literals == [] && CompiledOk(t, ct) && AllServiceable(AllFunctions(ct), true) && |Compiled(t, ct).code| <= TWO63
  }

  function ProgramOf(ct: Contract): Semantics.Program { Linker.Program(AllFunctions(ct), {}) }

  function LinkOf(t: Table, ct: Contract, step: Stepper): Link {
    var im := Compiled(t, ct); Link(im.code, map[], ProgramOf(ct), im.index, step)
  }

  lemma HeaderShape(t: Table, ct: Contract)
    ensures var init, p, im := InitCode(t.literals, t.addr), Compiled(t, ct).code, DefineAll(Image(RawHeader(InitCode(t.literals, t.addr)), map[]), AllFunctions(ct));
      && Placed(p, 0, Header(init, AddressOf(im, ct.init), AddressOf(im, ct.call)))
      && Placed(p, |RawHeader(init)|, im.code[|RawHeader(init)|..])
      && !EndsInReturn(RawHeader(init))
  {
    var init := InitCode(t.literals, t.addr);
    var raw := RawHeader(init);
    LastOf(JumpCode(0) + JumpCode(0) + (init + JumpCode(0)), init + JumpCode(0));
    LastOf(init, JumpCode(0));
  }

  /** Every function of a compiled contract is linked. */
  lemma CompiledLinked(t: Table, ct: Contract, step: Stepper)
    requires InFragment(t, ct) && Instructions.Drives(step, Compiled(t, ct).code, map[])
    ensures var k := LinkOf(t, ct, step); Linked(k) && forall f :: f in k.fs ==> f in k.fns && k.fns[f] < |k.p|
  {
    var k, raw, fs := LinkOf(t, ct, step), RawHeader(InitCode(t.literals, t.addr)), AllFunctions(ct);
    HeaderShape(t, ct);
    DefineAllInPlace(k.p, Image(raw, map[]), fs);
    assert Image(raw, map[]).index.Keys == {};
    forall f | Simulation.Callee(k, f) ensures Callable(k.fs[f]) && f in k.fns && k.fns[f] < TWO63 && Installed(k, k.fs[f], k.fns[f]) {
      CalleeInstalled(k, fs, f);
    }
  }

  lemma CalleeInstalled(k: Link, fs: seq<Function>, f: string)
    requires k.fs == Linker.Program(fs, {}) && AllInPlace(k.p, k.fns, k.fs) && AllServiceable(fs, true) && |k.p| <= TWO63 && f in k.fs
    ensures Callable(k.fs[f]) && f in k.fns && k.fns[f] < TWO63 && Installed(k, k.fs[f], k.fns[f])
  {
    var i :| 0 <= i < |fs| && fs[i] == k.fs[f];
    assert Serviceable(fs[i], i == 0);
  }

  /** All names are defined. */
  lemma {:induction false} ProgramHas(fs: seq<Function>, known: set<string>, f: Function)
    requires f in fs
    ensures f.name in known || f.name in Linker.Program(fs, known)
  {
    if f != fs[0] {
      assert f in fs[1..];
      ProgramHas(fs[1..], if fs[0].name in known then known else known + {fs[0].name}, f);
    }
  }

  lemma HeaderJumps(p: Codegen.Code, at: nat, init: nat, call: nat)
    requires Placed(p, 0, Header([], init, call)) && (at == 0 || at == 2) && (if at == 0 then init else call) < |p|
    ensures JumpAt(p, at, at + 4) && JumpAt(p, at + 4, if at == 0 then init else call)
  {
    var h := Header([], init, call);
    assert h == [Push(4), Op(JUMP), Push(6), Op(JUMP), Push(init), Op(JUMP), Push(call), Op(JUMP)];
    Fetch(p, 0, h, at);
    Fetch(p, 0, h, at + 1);
    Fetch(p, 0, h, at + 4);
    Fetch(p, 0, h, at + 5);
  }

  /** The entry jumps: from 0 to `init` and from 2 to `call`. */
  ghost predicate EntersAt(k: Link, at: int, f: string) {
    Simulation.Callee(k, f) && f in k.fns && JumpAt(k.p, at, at + 4) && JumpAt(k.p, at + 4, k.fns[f])
  }

  lemma EntryJumps(t: Table, ct: Contract, step: Stepper, at: int)
    requires t.literals == [] && (at == 0 || at == 2)
    requires var k := LinkOf(t, ct, step); forall f :: f in k.fs ==> f in k.fns && k.fns[f] < |k.p|
    ensures EntersAt(LinkOf(t, ct, step), at, (if at == 0 then ct.init else ct.call).name)
  {
    var k, f := LinkOf(t, ct, step), if at == 0 then ct.init else ct.call;
    assert Simulation.Callee(k, f.name) by { ProgramHas(AllFunctions(ct), {}, f); }
    var init, call := AddressOf(Compiled(t, ct), ct.init), AddressOf(Compiled(t, ct), ct.call);
    assert Placed(k.p, 0, Header([], init, call)) by { HeaderShape(t, ct); }
    HeaderJumps(k.p, at, init, call);
  }

  lemma EnterContract(k: Link, at: int, f: string, c: Core)
    requires Linked(k) && EntersAt(k, at, f) && c.mem == k.mem && c.ic == at
    ensures Goes(k.step, c, 4, c.(ic := k.fns[f]))
  {
    SimJump(k, c, at + 4);
    var d := c.(ic := at + 4);
    SimJump(k, d, k.fns[f]);
    Join(k.step, c, 2, d, 2, c.(ic := k.fns[f]));
  }

  ghost predicate CutOff(r: Final) { r.Failed? && Exhausted(r.error) }

  ghost predicate Delivers(r: Final, value: int, out: Output, store: Storage) {
    && r.Failed? && r.error == ProgramStopped && r.m.core.out == out && r.m.core.store == store
    && r.m.core.stack != [] && r.m.core.stack[|r.m.core.stack| - 1] == value
  }

  /** From the entry address to the end. */
  lemma RunContract(k: Link, f: string, fuel: nat, c: Core) returns (n: nat, d: Core)
    requires Linked(k) && EntersAt(k, c.ic, f) && c.mem == k.mem && c.stack == [] && c.fp == 0
    ensures StopsWith(k, c, n, d, RunFunction(k.fs[f], k.fs, fuel), fuel)
  {
    EnterContract(k, c.ic, f, c);
    var e := c.(ic := k.fns[f]);
    n, d := RunEntry(k, f, fuel, e);
    n := LaterStops(k, c, 4, e, n, d, RunFunction(k.fs[f], k.fs, fuel), fuel);
  }

  lemma LaterStops(k: Link, c: Core, n: nat, e: Core, m: nat, d: Core, r: Res<int>, fuel: nat) returns (q: nat)
    requires Goes(k.step, c, n, e) && e == c.(ic := e.ic) && StopsWith(k, e, m, d, r, fuel)
    ensures StopsWith(k, c, q, d, r, fuel)
  {
    Compose(k.step, c, n, e, m);
    q := n + m;
  }

  ghost predicate Agrees(r: Final, q: Res<int>, gas: nat, store: Storage, fuel: nat) {
    && (q.Done? ==> CutOff(r) || Delivers(r, q.value, q.out, store))
    && (q.OutOfFuel? && fuel > gas ==> CutOff(r))
  }

  lemma LinkedRuns(k: Link, cx: Context, m: Machine, limit: nat, f: string, fuel: nat)
    requires Linked(k) && k.mem == map[] && k.step == Reference(k.p) && m == Fresh(m.gasAvailable, m.core.ic, m.core.store)
    requires EntersAt(k, m.core.ic, f)
    ensures Agrees(Execute(k.p, cx, m, limit), RunFunction(k.fs[f], k.fs, fuel), m.gasAvailable, m.core.store, fuel)
  {
    var n, d := RunContract(k, f, fuel, m.core);
    FollowsTo(k, cx, m, limit, n, RunFunction(k.fs[f], k.fs, fuel), d, fuel);
  }

  /** Compiler correctness on the real machine. For every contract of the fragment, every amount of gas and either
      entry point: if the source terminates, the run delivers exactly its result and output or is cut off for
      want of gas or stack; if the source runs longer than the gas lasts, it is cut off. */
  lemma CompiledRuns(t: Table, ct: Contract, cx: Context, gas: nat, store: Storage, start: int, limit: nat, fuel: nat)
    requires InFragment(t, ct) && (start == 0 || start == 2)
    ensures var r, f := Execute(Compiled(t, ct).code, cx, Fresh(gas, start, store), limit), (if start == 0 then ct.init else ct.call).name;
      && f in ProgramOf(ct)
      && Agrees(r, RunFunction(ProgramOf(ct)[f], ProgramOf(ct), fuel), gas, store, fuel)
  {
    var k := LinkOf(t, ct, Reference(Compiled(t, ct).code));
    CompiledLinked(t, ct, k.step);
    EntryJumps(t, ct, k.step, start);
    LinkedRuns(k, cx, Fresh(gas, start, store), limit, (if start == 0 then ct.init else ct.call).name, fuel);
  }

  /** The converse: a run that ends by itself delivers what the source computes, provided the source never goes wrong. */
  lemma CompiledRunsBack(t: Table, ct: Contract, cx: Context, gas: nat, store: Storage, start: int, limit: nat)
    requires InFragment(t, ct) && (start == 0 || start == 2)
    requires var f := (if start == 0 then ct.init else ct.call).name;
      f in ProgramOf(ct) ==> !RunFunction(ProgramOf(ct)[f], ProgramOf(ct), gas + 1).Wrong?
    ensures var r, f := Execute(Compiled(t, ct).code, cx, Fresh(gas, start, store), limit), (if start == 0 then ct.init else ct.call).name;
      && f in ProgramOf(ct)
      && (CutOff(r) || var q := RunFunction(ProgramOf(ct)[f], ProgramOf(ct), gas + 1); q.Done? && Delivers(r, q.value, q.out, store))
  {
    CompiledRuns(t, ct, cx, gas, store, start, limit, gas + 1);
  }

  lemma FollowsTo(k: Link, cx: Context, m: Machine, limit: nat, n: nat, q: Res<int>, d: Core, fuel: nat)
    requires k.step == Reference(k.p) && m.core.mem == map[] && m.core.rets == [] && m.core.out == []
    requires StopsWith(k, m.core, n, d, q, fuel)
    ensures Agrees(Execute(k.p, cx, m, limit), q, m.gasAvailable, m.core.store, fuel)
  {
    Instructions.EmptyMemoryHasNoStrings();
    if q.Done? {
      var m' := Follows(k.p, cx, m, limit, n, d);
      ReturnStops(k.p, cx, m', limit, d);
      assert [] + q.out == q.out;
    } else if q.OutOfFuel? {
      var _ := Follows(k.p, cx, m, limit, n, Iterate(k.step, m.core, n).core);
    }
  }

  lemma ReturnStops(p: Codegen.Code, cx: Context, m: Machine, limit: nat, d: Core)
    requires InsAt(p, d.ic, Op(RETURN)) && d.rets == []
    ensures m.core == d ==> var r := Execute(p, cx, m, limit); r == Failed(m, OutOfGas) || r == Failed(m, ProgramStopped)
  {
    assert m.core == d ==> CoreStep(p, cx, d, limit) == Halt(ProgramStopped);
  }

  // ---------------------------------------------------------------- how much gas is enough

  /** What `n` steps of the reference machine cost. */
  ghost function PathPrice(p: Codegen.Code, c: Core, n: nat): nat
    decreases n
  {
    if n == 0 || !(0 <= c.ic < |p|) then 0
    else Price(p[c.ic].op) + (match Reference(p)(c) case Next(d) => PathPrice(p, d, n - 1) case Halt(_) => 0)
  }

  /** Without a stack limit the metered machine gets as far as its gas, and no further. */
  lemma {:induction false} FollowsPaid(p: Codegen.Code, cx: Context, m: Machine, n: nat, d: Core) returns (m': Machine)
    requires Goes(Reference(p), m.core, n, d) && Instructions.NoStrings(m.core.mem)
    ensures var r := Execute(p, cx, m, 0);
      if m.gasAvailable >= PathPrice(p, m.core, n) then r == Execute(p, cx, m', 0) && m'.core == d && m'.gasAvailable == m.gasAvailable - PathPrice(p, m.core, n)
      else r.Failed? && r.error == OutOfGas
    decreases n
  {
    m' := m;
    if n > 0 {
      ReferenceStep(p, cx, m.core, 0);
      PaidStep(p, cx, m);
      var s := Step(p, cx, m, 0);
      if s.Running? { m' := FollowsPaid(p, cx, s.m, n - 1, d); }
    }
  }

  lemma PaidStep(p: Codegen.Code, cx: Context, m: Machine)
    requires Reference(p)(m.core).Next? && Instructions.NoStrings(m.core.mem)
    ensures 0 <= m.core.ic < |p|
    ensures var s, price := Step(p, cx, m, 0), Price(p[m.core.ic].op);
      if m.gasAvailable >= price then s == Running(m.(core := Reference(p)(m.core).core, gasAvailable := m.gasAvailable - price, gasUsed := m.gasUsed + price))
      else s == Halted(m, OutOfGas)
    ensures var s := Step(p, cx, m, 0); Execute(p, cx, m, 0) == if s.Running? then Execute(p, cx, s.m, 0) else Failed(s.m, s.error)
  {
    Instructions.MachineAgrees(p, cx, m.core);
  }

  lemma ReturnPaid(p: Codegen.Code, cx: Context, m: Machine)
    requires InsAt(p, m.core.ic, Op(RETURN)) && m.core.rets == []
    ensures Execute(p, cx, m, 0) == Failed(m, if m.gasAvailable >= Price(RETURN) then ProgramStopped else OutOfGas)
  {
    assert CoreStep(p, cx, m.core, 0) == Halt(ProgramStopped);
  }

  /** A source that terminates has a price: without a stack limit, its compiled contract delivers exactly if it is given that much
      gas, and is cut off otherwise. */
  lemma PriceOfRun(t: Table, ct: Contract, cx: Context, store: Storage, start: int, fuel: nat) returns (price: nat)
    requires InFragment(t, ct) && (start == 0 || start == 2)
    requires var f := (if start == 0 then ct.init else ct.call).name; f in ProgramOf(ct) && RunFunction(ProgramOf(ct)[f], ProgramOf(ct), fuel).Done?
    ensures var f := (if start == 0 then ct.init else ct.call).name; var q := RunFunction(ProgramOf(ct)[f], ProgramOf(ct), fuel);
      forall gas: nat {:trigger Fresh(gas, start, store)} ::
        var r := Execute(Compiled(t, ct).code, cx, Fresh(gas, start, store), 0);
        if gas >= price then Delivers(r, q.value, q.out, store) else CutOff(r)
  {
    var p, f := Compiled(t, ct).code, (if start == 0 then ct.init else ct.call).name;
    var k := LinkOf(t, ct, Reference(p));
    CompiledLinked(t, ct, k.step);
    EntryJumps(t, ct, k.step, start);
    var n, d := RunContract(k, f, fuel, Fresh(0, start, store).core);
    price := PathPrice(p, Fresh(0, start, store).core, n) + Price(RETURN);
    forall gas: nat ensures var r, q := Execute(p, cx, Fresh(gas, start, store), 0), RunFunction(k.fs[f], k.fs, fuel);
      if gas >= price then Delivers(r, q.value, q.out, store) else CutOff(r)
    {
      PricedRun(k, cx, Fresh(gas, start, store), n, d, RunFunction(k.fs[f], k.fs, fuel), fuel);
    }
  }

  lemma PricedRun(k: Link, cx: Context, m: Machine, n: nat, d: Core, q: Res<int>, fuel: nat)
    requires k.step == Reference(k.p) && m.core.mem == map[] && m.core.rets == [] && m.core.out == [] && q.Done? && StopsWith(k, m.core, n, d, q, fuel)
    ensures var r := Execute(k.p, cx, m, 0);
      if m.gasAvailable >= PathPrice(k.p, m.core, n) + Price(RETURN) then Delivers(r, q.value, q.out, m.core.store) else CutOff(r)
  {
    Instructions.EmptyMemoryHasNoStrings();
    var m' := FollowsPaid(k.p, cx, m, n, d);
    if m.gasAvailable >= PathPrice(k.p, m.core, n) { ReturnPaid(k.p, cx, m'); }
    assert [] + q.out == q.out;
  }
}
