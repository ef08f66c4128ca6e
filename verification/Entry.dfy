/** Entry points and string literals: what runs before `init` or `call` (marigold/codegen.go). */
module Entry {
  import opened Text
  import opened Bytecode
  import opened Ast
  import opened Codegen
  import opened Layout
  import opened Linker
  import opened Avm
  import opened Runs
  import opened Strings

  // ---------------------------------------------------------------- the string table

  const EmptyTable := Table(map[], [], 0)

  /** The cells of a literal end before `b`. */
  predicate EndsBy(t: Table, s: Bytes, b: nat) { s in t.addr && t.addr[s] + 1 + Chunks(|s|) <= b }

  /** Each literal has an address, and literals occupy disjoint cells, in order, below NextMemoryAddr. */
  ghost predicate TableOk(t: Table) {
    && (forall s :: s in t.addr <==> s in t.literals)
    && (forall i :: 0 <= i < |t.literals| ==> EndsBy(t, t.literals[i], t.next))
    && (forall i, j :: 0 <= i < j < |t.literals| ==> t.literals[j] in t.addr && EndsBy(t, t.literals[i], t.addr[t.literals[j]]))
  }

  lemma RegisterOk(t: Table, s: Bytes)
    requires TableOk(t)
    ensures TableOk(Register(t, s)) && s in Register(t, s).addr && forall x :: x in t.addr ==> x in Register(t, s).addr
  {
    var r := Register(t, s);
    if s !in t.addr {
      forall i | 0 <= i < |r.literals| ensures EndsBy(r, r.literals[i], r.next) {
        if i < |t.literals| { assert EndsBy(t, t.literals[i], t.next); }
      }
      forall i, j | 0 <= i < j < |r.literals| ensures r.literals[j] in r.addr && EndsBy(r, r.literals[i], r.addr[r.literals[j]]) {
        assert EndsBy(t, t.literals[i], t.next);
        assert t.literals[i] != s;
        if j < |t.literals| { assert t.literals[j] in t.addr && EndsBy(t, t.literals[i], t.addr[t.literals[j]]); }
      }
    }
  }

  /** Every registered literal is in the table, and the table intervals are pairwise disjoint. */
  lemma {:induction false} RegisterAllOk(t: Table, ss: seq<Bytes>)
    requires TableOk(t)
    ensures var r := RegisterAll(t, ss); TableOk(r) && (forall s :: s in ss ==> s in r.addr) && forall s :: s in t.addr ==> s in r.addr
    decreases ss
  {
    if ss != [] {
      RegisterOk(t, ss[0]);
      RegisterAllOk(Register(t, ss[0]), ss[1..]);
      var r := RegisterAll(t, ss);
      forall s | s in ss ensures s in r.addr { if s != ss[0] { assert s in ss[1..]; } }
    }
  }

  lemma Disjoint(t: Table, s: Bytes, u: Bytes, b: nat)
    requires TableOk(t) && s in t.addr && u in t.addr && s != u
    ensures !(InBlock(t.addr[s], |s|, b) && InBlock(t.addr[u], |u|, b))
  {
    var i :| 0 <= i < |t.literals| && t.literals[i] == s;
    var j :| 0 <= j < |t.literals| && t.literals[j] == u;
    if i < j { assert EndsBy(t, t.literals[i], t.addr[t.literals[j]]); } else { assert EndsBy(t, t.literals[j], t.addr[t.literals[i]]); }
  }

  // ---------------------------------------------------------------- single steps

  lemma DoPush(vm: Vm, c: Core, ins: Instruction, v: int)
    requires Genuine(vm) && InsAt(vm.p, c.ic, ins) && ins.op == PUSH && Valid(ins) && OperandValue(ins) == Some(v)
    requires vm.limit > 0 ==> |c.stack| < vm.limit
    ensures Goes(vm.step, c, 1, c.(stack := c.stack + [v], ic := c.ic + 1))
  {
    assert c.stack[..|c.stack| - 0] == c.stack;
    assert vm.step(c) == CoreStep(vm.p, vm.cx, c, vm.limit);
    Once(vm.step, c, c.(stack := c.stack + [v], ic := c.ic + 1));
  }

  lemma DoMStore(vm: Vm, c: Core, st: seq<int>, v: int, a: nat)
    requires Genuine(vm) && InsAt(vm.p, c.ic, Op(MSTORE)) && c.stack == st + [v, a] && a < MAX_MEMORY
    ensures Goes(vm.step, c, 1, c.(stack := st, mem := c.mem[a := v], ic := c.ic + 1))
  {
    SmallWrap(a);
    assert c.stack[..|c.stack| - 2] == st;
    assert vm.step(c) == CoreStep(vm.p, vm.cx, c, vm.limit);
    Once(vm.step, c, c.(stack := st, mem := c.mem[a := v], ic := c.ic + 1));
  }

  lemma DoJump(vm: Vm, c: Core, st: seq<int>, t: nat)
    requires Genuine(vm) && InsAt(vm.p, c.ic, Op(JUMP)) && c.stack == st + [t] && t < |vm.p| <= TWO63
    ensures Goes(vm.step, c, 1, c.(stack := st, ic := t))
  {
    SmallWrap(t);
    assert c.stack[..|c.stack| - 1] == st;
    assert vm.step(c) == CoreStep(vm.p, vm.cx, c, vm.limit);
    Once(vm.step, c, c.(stack := st, ic := t));
  }

  /** Two pushes and MSTORE write one cell. */
  lemma StoreCell(vm: Vm, c: Core, ins: Instruction, v: int, a: nat)
    requires Genuine(vm) && ins.op == PUSH && Valid(ins) && OperandValue(ins) == Some(v) && a < MAX_MEMORY
    requires InsAt(vm.p, c.ic, ins) && InsAt(vm.p, c.ic + 1, Push(a)) && InsAt(vm.p, c.ic + 2, Op(MSTORE))
    requires vm.limit > 0 ==> |c.stack| + 1 < vm.limit
    ensures Goes(vm.step, c, 3, c.(mem := c.mem[a := v], ic := c.ic + 3))
  {
    DoPush(vm, c, ins, v);
    var c1 := c.(stack := c.stack + [v], ic := c.ic + 1);
    DoPush(vm, c1, Push(a), a);
    var c2 := c.(stack := c.stack + [v, a], ic := c.ic + 2);
    assert c1.(stack := c1.stack + [a], ic := c1.ic + 1) == c2;
    Join(vm.step, c, 1, c1, 1, c2);
    DoMStore(vm, c2, c.stack, v, a);
    Join(vm.step, c, 2, c2, 1, c.(mem := c.mem[a := v], ic := c.ic + 3));
  }

  lemma TakeJump(vm: Vm, c: Core, t: nat)
    requires Genuine(vm) && Placed(vm.p, c.ic, JumpCode(t)) && t < |vm.p| <= TWO63
    requires vm.limit > 0 ==> |c.stack| < vm.limit
    ensures Goes(vm.step, c, 2, c.(ic := t))
  {
    Fetch2(vm.p, c.ic, JumpCode(t));
    DoPush(vm, c, Push(t), t);
    var c1 := c.(stack := c.stack + [t], ic := c.ic + 1);
    DoJump(vm, c1, c.stack, t);
    Join(vm.step, c, 1, c1, 1, c.(ic := t));
  }

  // ---------------------------------------------------------------- literal initialization

  lemma {:induction false} RunChunks(vm: Vm, c: Core, s: Bytes, a: nat, i: nat, m: Memory)
    requires Genuine(vm) && Fits(a, s) && i <= Chunks(|s|) && Placed(vm.p, c.ic, ChunksCode(s, a, i)) && c.mem == WrittenTo(m, a, s, i)
    requires vm.limit > 0 ==> |c.stack| + 1 < vm.limit
    ensures Goes(vm.step, c, |ChunksCode(s, a, i)|, c.(mem := WrittenTo(m, a, s, Chunks(|s|)), ic := c.ic + |ChunksCode(s, a, i)|))
    decreases Chunks(|s|) - i
  {
    if i < Chunks(|s|) {
      var rest := ChunksCode(s, a, i + 1);
      Split(vm.p, c.ic, ChunkCode(s, a, i), rest);
      RunChunk(vm, c, s, a, i);
      var d := c.(mem := WrittenTo(m, a, s, i + 1), ic := c.ic + 3);
      RunChunks(vm, d, s, a, i + 1, m);
      Join(vm.step, c, 3, d, |rest|, c.(mem := WrittenTo(m, a, s, Chunks(|s|)), ic := c.ic + 3 + |rest|));
    }
  }

  lemma RunChunk(vm: Vm, c: Core, s: Bytes, a: nat, i: nat)
    requires Genuine(vm) && a + 1 + i < MAX_MEMORY && Placed(vm.p, c.ic, ChunkCode(s, a, i)) && (vm.limit > 0 ==> |c.stack| + 1 < vm.limit)
    ensures Goes(vm.step, c, 3, c.(mem := c.mem[a + 1 + i := FromBytes(Chunk(s, i))], ic := c.ic + 3))
  {
    var one := ChunkCode(s, a, i);
    Fetch(vm.p, c.ic, one, 0);
    Fetch(vm.p, c.ic, one, 1);
    Fetch(vm.p, c.ic, one, 2);
    StoreCell(vm, c, one[0], FromBytes(Chunk(s, i)), a + 1 + i);
  }

  lemma RunLiteral(vm: Vm, c: Core, s: Bytes, a: nat)
    requires Genuine(vm) && Fits(a, s) && Placed(vm.p, c.ic, LiteralCode(s, a)) && (vm.limit > 0 ==> |c.stack| + 1 < vm.limit)
    ensures Goes(vm.step, c, |LiteralCode(s, a)|, c.(mem := Written(c.mem, a, s), ic := c.ic + |LiteralCode(s, a)|))
  {
    var one, rest := [Push(|s|), Push(a), Op(MSTORE)], ChunksCode(s, a, 0);
    Split(vm.p, c.ic, one, rest);
    Fetch(vm.p, c.ic, one, 0);
    Fetch(vm.p, c.ic, one, 1);
    Fetch(vm.p, c.ic, one, 2);
    StoreCell(vm, c, Push(|s|), |s|, a);
    WrittenToEnd(c.mem, a, s);
    var d := c.(mem := WrittenTo(c.mem, a, s, 0), ic := c.ic + 3);
    RunChunks(vm, d, s, a, 0, c.mem);
    Join(vm.step, c, 3, d, |rest|, c.(mem := Written(c.mem, a, s), ic := c.ic + 3 + |rest|));
  }

  /** Memory after all literals from the `i`-th on were written. */
  function Loaded(m: Memory, t: Table, i: nat): Memory
    requires i <= |t.literals|
    decreases |t.literals| - i
  {
    if i == |t.literals| then m
    else Loaded(WithLiteral(m, t, i), t, i + 1)
  }

  function InitFrom(t: Table, i: nat): Codegen.Code
    requires i <= |t.literals|
  {
    InitCode(t.literals[i..], t.addr)
  }

  lemma InitSplit(p: Codegen.Code, at: int, t: Table, i: nat)
    requires TableOk(t) && i < |t.literals| && t.literals[i] in t.addr && Placed(p, at, InitFrom(t, i))
    ensures var one := LiteralCode(t.literals[i], t.addr[t.literals[i]]);
      Placed(p, at, one) && Placed(p, at + |one|, InitFrom(t, i + 1)) && |InitFrom(t, i)| == |one| + |InitFrom(t, i + 1)|
  {
    var s, tail := t.literals[i], t.literals[i + 1..];
    assert t.literals[i..][0] == s && t.literals[i..][1..] == tail;
    assert InitFrom(t, i) == LiteralCode(s, t.addr[s]) + InitCode(tail, t.addr);
    Split(p, at, LiteralCode(s, t.addr[s]), InitCode(tail, t.addr));
  }

  lemma {:induction false} RunInit(vm: Vm, c: Core, t: Table, i: nat)
    requires Genuine(vm) && TableOk(t) && t.next <= MAX_MEMORY && i <= |t.literals| && Placed(vm.p, c.ic, InitFrom(t, i))
    requires vm.limit > 0 ==> |c.stack| + 1 < vm.limit
    ensures var n := |InitFrom(t, i)|; Goes(vm.step, c, n, c.(mem := Loaded(c.mem, t, i), ic := c.ic + n))
    decreases |t.literals| - i
  {
    if i < |t.literals| {
      var one := RunOne(vm, c, t, i);
      var rest := |InitFrom(t, i + 1)|;
      var d := c.(mem := WithLiteral(c.mem, t, i), ic := c.ic + one);
      RunInit(vm, d, t, i + 1);
      Join(vm.step, c, one, d, rest, c.(mem := Loaded(c.mem, t, i), ic := c.ic + one + rest));
    }
  }

  /** Memory after the `i`-th literal was written. */
  function WithLiteral(m: Memory, t: Table, i: nat): Memory
    requires i < |t.literals|
  {
    Written(m, if t.literals[i] in t.addr then t.addr[t.literals[i]] else 0, t.literals[i])
  }

  lemma RunOne(vm: Vm, c: Core, t: Table, i: nat) returns (n: nat)
    requires Genuine(vm) && TableOk(t) && t.next <= MAX_MEMORY && i < |t.literals| && Placed(vm.p, c.ic, InitFrom(t, i))
    requires vm.limit > 0 ==> |c.stack| + 1 < vm.limit
    ensures Goes(vm.step, c, n, c.(mem := WithLiteral(c.mem, t, i), ic := c.ic + n))
    ensures Placed(vm.p, c.ic + n, InitFrom(t, i + 1)) && |InitFrom(t, i)| == n + |InitFrom(t, i + 1)|
  {
    var s := t.literals[i];
    assert EndsBy(t, s, t.next);
    InitSplit(vm.p, c.ic, t, i);
    RunLiteral(vm, c, s, t.addr[s]);
    n := |LiteralCode(s, t.addr[s])|;
  }

  ghost predicate HeldUpTo(m: Memory, t: Table, i: nat) {
    forall k :: 0 <= k < i && k < |t.literals| ==> t.literals[k] in t.addr && HoldsString(m, t.addr[t.literals[k]], t.literals[k])
  }

  /** Later literals do not disturb earlier ones. */
  lemma {:induction false} LoadedHolds(m: Memory, t: Table, i: nat)
    requires TableOk(t) && t.next <= MAX_MEMORY && i <= |t.literals| && HeldUpTo(m, t, i)
    ensures HeldUpTo(Loaded(m, t, i), t, |t.literals|)
    decreases |t.literals| - i
  {
    if i < |t.literals| {
      var s := t.literals[i];
      assert EndsBy(t, s, t.next);
      OneMoreHeld(m, t, i);
      LoadedHolds(Written(m, t.addr[s], s), t, i + 1);
    }
  }

  lemma OneMoreHeld(m: Memory, t: Table, i: nat)
    requires TableOk(t) && t.next <= MAX_MEMORY && i < |t.literals| && HeldUpTo(m, t, i) && t.literals[i] in t.addr
    ensures HeldUpTo(Written(m, t.addr[t.literals[i]], t.literals[i]), t, i + 1)
  {
    var s := t.literals[i];
    var m' := Written(m, t.addr[s], s);
    assert EndsBy(t, s, t.next);
    WrittenHolds(m, t.addr[s], s);
    forall k | 0 <= k < i + 1 ensures t.literals[k] in t.addr && HoldsString(m', t.addr[t.literals[k]], t.literals[k]) {
      if k < i {
        assert EndsBy(t, t.literals[k], t.addr[s]);
        WrittenAbove(m, t.addr[t.literals[k]], t.literals[k], t.addr[s], s);
      }
    }
  }

  lemma WrittenAbove(m: Memory, a: nat, s: Bytes, b: nat, u: Bytes)
    requires HoldsString(m, a, s) && a + 1 + Chunks(|s|) <= b
    ensures HoldsString(Written(m, b, u), a, s)
  {
    var m' := Written(m, b, u);
    forall i | 0 <= i < Chunks(|s|) ensures Cell(m', a + 1 + i) == FromBytes(Chunk(s, i)) {
      assert Cell(m, a + 1 + i) == FromBytes(Chunk(s, i));
    }
  }

  // ---------------------------------------------------------------- entry points

  /** The header in memory: at 0 and at 2 a jump to literal initialization, which ends in a jump to the function. */
  lemma HeaderAt(p: Codegen.Code, init: Codegen.Code, a: nat, b: nat, start: nat)
    requires Placed(p, 0, Header(init, a, b)) && (start == 0 || start == 2)
    ensures var go, target := if start == 0 then 4 else 6 + |init|, if start == 0 then a else b;
      && Placed(p, start, JumpCode(go)) && Placed(p, go, init) && Placed(p, go + |init|, JumpCode(target)) && go < |p|
  {
    var x, y, u, v := JumpCode(4), JumpCode(6 + |init|), init + JumpCode(a), init + JumpCode(b);
    Split(p, 0, x + y + u, v);
    Split3(p, 0, x, y, u);
    Split(p, 4, init, JumpCode(a));
    Split(p, 6 + |init|, init, JumpCode(b));
  }

  /** From an entry address to the first instruction of its function: every literal loaded, nothing left on the stack. */
  lemma RunHeader(vm: Vm, c: Core, t: Table, a: nat, b: nat) returns (n: nat)
    requires Genuine(vm) && TableOk(t) && t.next <= MAX_MEMORY && |vm.p| <= TWO63 && a < |vm.p| && b < |vm.p|
    requires Placed(vm.p, 0, Header(InitCode(t.literals, t.addr), a, b)) && (c.ic == 0 || c.ic == 2)
    requires vm.limit > 0 ==> |c.stack| + 1 < vm.limit
    ensures Goes(vm.step, c, n, c.(ic := if c.ic == 0 then a else b, mem := Loaded(c.mem, t, 0)))
  {
    var init := InitFrom(t, 0);
    assert t.literals[0..] == t.literals;
    HeaderAt(vm.p, init, a, b, c.ic);
    n := RunStretch(vm, c, t, if c.ic == 0 then 4 else 6 + |init|, if c.ic == 0 then a else b);
  }

  /** A jump, the initialization and another jump. */
  lemma RunStretch(vm: Vm, c: Core, t: Table, go: nat, target: nat) returns (n: nat)
    requires Genuine(vm) && TableOk(t) && t.next <= MAX_MEMORY && |vm.p| <= TWO63 && go < |vm.p| && target < |vm.p|
    requires Placed(vm.p, c.ic, JumpCode(go)) && Placed(vm.p, go, InitFrom(t, 0)) && Placed(vm.p, go + |InitFrom(t, 0)|, JumpCode(target))
    requires vm.limit > 0 ==> |c.stack| + 1 < vm.limit
    ensures Goes(vm.step, c, n, c.(ic := target, mem := Loaded(c.mem, t, 0)))
  {
    var k := |InitFrom(t, 0)|;
    var c1 := c.(ic := go);
    var c2 := c1.(mem := Loaded(c.mem, t, 0), ic := go + k);
    TakeJump(vm, c, go);
    assert Goes(vm.step, c1, k, c2) by { RunInit(vm, c1, t, 0); }
    TakeJump(vm, c2, target);
    n := InThree(vm.step, c, 2, c1, k, c2, 2, c2.(ic := target));
  }

  lemma InThree(step: Stepper, c: Core, i: nat, d: Core, j: nat, e: Core, k: nat, f: Core) returns (n: nat)
    requires Goes(step, c, i, d) && Goes(step, d, j, e) && Goes(step, e, k, f)
    ensures Goes(step, c, n, f)
  {
    Join(step, c, i, d, j, e);
    Join(step, c, i + j, e, k, f);
    n := i + j + k;
  }

  /** Entry-point correctness. Whatever literals were registered, if they fit in memory, running a compiled contract from
      0 (or 2) reaches the first instruction of `init` (or `call`) with an empty stack, and every registered literal then
      reads back from its table address. */
  lemma EntryPoint(ss: seq<Bytes>, ct: Contract, vm: Vm, store: Storage, gas: nat, start: int) returns (n: nat, d: Core)
    requires var t := RegisterAll(EmptyTable, ss); var im := Compiled(t, ct);
      && t.next <= MAX_MEMORY && vm.p == im.code && |im.code| <= TWO63
      && AddressOf(im, ct.init) < |im.code| && AddressOf(im, ct.call) < |im.code|
    requires Genuine(vm) && (vm.limit == 0 || vm.limit > 1) && (start == 0 || start == 2)
    ensures var t, c := RegisterAll(EmptyTable, ss), Fresh(gas, start, store).core;
      && Goes(vm.step, c, n, d) && d == c.(ic := AddressOf(Compiled(t, ct), if start == 0 then ct.init else ct.call), mem := d.mem)
      && forall s :: s in ss ==> s in t.addr && HoldsString(d.mem, t.addr[s], s) && ReadString(d.mem, t.addr[s]) == Str(s)
  {
    var t, c := RegisterAll(EmptyTable, ss), Fresh(gas, start, store).core;
    var im := Compiled(t, ct);
    RegisterAllOk(EmptyTable, ss);
    CompiledHeader(t, ct);
    n := RunHeader(vm, c, t, AddressOf(im, ct.init), AddressOf(im, ct.call));
    d := c.(ic := AddressOf(im, if start == 0 then ct.init else ct.call), mem := Loaded(map[], t, 0));
    LoadedHolds(map[], t, 0);
    forall s | s in ss ensures s in t.addr && HoldsString(d.mem, t.addr[s], s) && ReadString(d.mem, t.addr[s]) == Str(s) {
      LiteralReads(d.mem, t, s);
    }
  }

  /** Where the step function goes the metered machine goes too, or it runs out of gas on the way. */
  lemma {:induction false} PaidFor(vm: Vm, m: Machine, n: nat, d: Core) returns (m': Machine)
    requires Genuine(vm) && Goes(vm.step, m.core, n, d)
    ensures var r := Execute(vm.p, vm.cx, m, vm.limit);
      (r.Failed? && r.error == OutOfGas) || (r == Execute(vm.p, vm.cx, m', vm.limit) && m'.core == d)
    decreases n
  {
    m' := m;
    if n > 0 {
      assert vm.step(m.core) == CoreStep(vm.p, vm.cx, m.core, vm.limit);
      StepCharges(vm.p, vm.cx, m, vm.limit);
      var s := Step(vm.p, vm.cx, m, vm.limit);
      if s.Running? { m' := PaidFor(vm, s.m, n - 1, d); }
    }
  }

  lemma LiteralReads(m: Memory, t: Table, s: Bytes)
    requires TableOk(t) && t.next <= MAX_MEMORY && HeldUpTo(m, t, |t.literals|) && s in t.addr
    ensures HoldsString(m, t.addr[s], s) && ReadString(m, t.addr[s]) == Str(s)
  {
    var i :| 0 <= i < |t.literals| && t.literals[i] == s;
    assert EndsBy(t, t.literals[i], t.next);
    HeldReads(m, t.addr[s], s);
  }

  lemma CompiledHeader(t: Table, ct: Contract)
    ensures var im := Compiled(t, ct); Placed(im.code, 0, Header(InitCode(t.literals, t.addr), AddressOf(im, ct.init), AddressOf(im, ct.call)))
  {
  }

  /** Both entry addresses are inside the program when no body but the first is empty. */
  lemma {:induction false} AddressesInside(im: Image, fs: seq<Function>)
    requires forall i :: 0 <= i < |fs| ==> fs[i].body != [] || (i == 0 && !EndsInReturn(im.code))
    requires forall x :: x in im.index ==> im.index[x] < |im.code|
    ensures var r := DefineAll(im, fs); forall x :: x in r.index ==> r.index[x] < |r.code|
    decreases fs
  {
    if fs != [] {
      var f, next, rest := fs[0], Define(im, fs[0]), fs[1..];
      assert forall i :: 0 <= i < |rest| ==> rest[i] == fs[i + 1];
      DefinedInside(im, f);
      AddressesInside(next, rest);
      DefineFirst(im, fs);
    }
  }

  lemma DefinedInside(im: Image, f: Function)
    requires f.body != [] || !EndsInReturn(im.code)
    requires forall x :: x in im.index ==> im.index[x] < |im.code|
    ensures var next := Define(im, f); forall x :: x in next.index ==> next.index[x] < |next.code|
  {
    if f.name !in im.index {
      NoCodeAtAll(im, f);
      DefineEnds(im, f);
      assert Define(im, f).index == im.index[f.name := |im.code|];
    }
  }

  /** The literals, as a string heap, when they lie below the first dynamic address. */
  ghost function Literals(t: Table): Heap {
    map a | a in t.addr.Values :: var s :| s in t.addr && t.addr[s] == a; s
  }

  /** Dynamic allocation starts at 100 whatever the literals need. If they end there, the heap starts out sound, so that
      no later allocation disturbs them (`Strings.HeapRefines`). */
  lemma LiteralsOnHeap(ss: seq<Bytes>, c: Core)
    requires var t := RegisterAll(EmptyTable, ss);
      t.next <= FIRST_DYNAMIC && c.nextMem == FIRST_DYNAMIC && forall s :: s in t.addr ==> HoldsString(c.mem, t.addr[s], s)
    ensures var t := RegisterAll(EmptyTable, ss); HeapOk(c, Literals(t)) && forall s :: s in ss ==> s in t.addr && t.addr[s] in Literals(t) && Literals(t)[t.addr[s]] == s
  {
    var t := RegisterAll(EmptyTable, ss);
    RegisterAllOk(EmptyTable, ss);
    forall s | s in t.addr ensures EndsBy(t, s, t.next) {
      var i :| 0 <= i < |t.literals| && t.literals[i] == s;
      assert EndsBy(t, t.literals[i], t.next);
    }
    forall s, u | s in t.addr && u in t.addr && s != u ensures t.addr[s] != t.addr[u] { Disjoint(t, s, u, t.addr[s]); }
    var h := Literals(t);
    forall s | s in t.addr ensures t.addr[s] in h && h[t.addr[s]] == s {
      var u := h[t.addr[s]];
      assert u in t.addr && t.addr[u] == t.addr[s];
    }
    forall a | a in h ensures a + 1 + Chunks(|h[a]|) <= c.nextMem && Fits(a, h[a]) && HoldsString(c.mem, a, h[a]) {
      var s := h[a];
      assert s in t.addr && t.addr[s] == a && EndsBy(t, s, t.next);
    }
  }

  // ---------------------------------------------------------------- literals above the first dynamic address

  ghost predicate Owned(t: Table, b: nat) { exists s :: s in t.addr && InBlock(t.addr[s], |s|, b) }

  /** Table blocks leave no gap. */
  ghost predicate Covered(t: Table) { forall b: nat :: b < t.next ==> Owned(t, b) }

  lemma RegisterCovers(t: Table, s: Bytes)
    requires Covered(t)
    ensures Covered(Register(t, s))
  {
    var r := Register(t, s);
    forall b: nat | b < r.next ensures Owned(r, b) {
      if b < t.next {
        assert Owned(t, b);
        var u :| u in t.addr && InBlock(t.addr[u], |u|, b);
        assert u in r.addr && r.addr[u] == t.addr[u];
      } else {
        assert s in r.addr && InBlock(r.addr[s], |s|, b);
      }
    }
  }

  lemma {:induction false} RegisterAllCovers(t: Table, ss: seq<Bytes>)
    requires Covered(t)
    ensures Covered(RegisterAll(t, ss))
    decreases ss
  {
    if ss != [] {
      RegisterCovers(t, ss[0]);
      RegisterAllCovers(Register(t, ss[0]), ss[1..]);
    }
  }

  ghost predicate AllHeld(m: Memory, t: Table) { forall s :: s in t.addr ==> HoldsString(m, t.addr[s], s) }

  /** Every first allocation that fits leaves all literals in place. */
  ghost predicate Survive(c: Core, t: Table) {
    forall st, u, limit: nat :: Fits(c.nextMem, u) && PushString(c, st, u, limit).Next? ==> AllHeld(PushString(c, st, u, limit).core.mem, t)
  }

  /** A cell of a literal has one right content. */
  lemma CellChanged(m: Memory, m': Memory, a: nat, s: Bytes, b: nat)
    requires HoldsString(m, a, s) && InBlock(a, |s|, b) && Cell(m', b) != Cell(m, b)
    ensures !HoldsString(m', a, s)
  {
    if b > a { assert Cell(m, a + 1 + (b - a - 1)) == FromBytes(Chunk(s, b - a - 1)); }
  }

  /** Dynamic allocation starts at 100 whatever the literals need. Literals survive every first allocation if and only if
      they end by then; a literal that begins at 100 or reaches across it is destroyed. */
  lemma LiteralsSurviveExactly(ss: seq<Bytes>, c: Core)
    requires var t := RegisterAll(EmptyTable, ss); t.next <= MAX_MEMORY && c.nextMem == FIRST_DYNAMIC && AllHeld(c.mem, t)
    ensures Survive(c, RegisterAll(EmptyTable, ss)) <==> RegisterAll(EmptyTable, ss).next <= FIRST_DYNAMIC
  {
    var t := RegisterAll(EmptyTable, ss);
    RegisterAllOk(EmptyTable, ss);
    if t.next <= FIRST_DYNAMIC {
      forall st, u, limit: nat | Fits(c.nextMem, u) && PushString(c, st, u, limit).Next? ensures AllHeld(PushString(c, st, u, limit).core.mem, t) {
        AllocationKeeps(c.mem, t, u);
      }
    } else {
      RegisterAllCovers(EmptyTable, ss);
      assert Owned(t, FIRST_DYNAMIC);
      var s :| s in t.addr && InBlock(t.addr[s], |s|, FIRST_DYNAMIC);
      var u: Bytes := if Cell(c.mem, FIRST_DYNAMIC) == 0 then [0] else [];
      WrittenHolds(c.mem, FIRST_DYNAMIC, u);
      CellChanged(c.mem, Written(c.mem, FIRST_DYNAMIC, u), t.addr[s], s, FIRST_DYNAMIC);
      assert PushString(c, [], u, 0).Next? && !AllHeld(PushString(c, [], u, 0).core.mem, t);
    }
  }

  lemma AllocationKeeps(m: Memory, t: Table, u: Bytes)
    requires TableOk(t) && t.next <= FIRST_DYNAMIC && AllHeld(m, t)
    ensures AllHeld(Written(m, FIRST_DYNAMIC, u), t)
  {
    forall s | s in t.addr ensures HoldsString(Written(m, FIRST_DYNAMIC, u), t.addr[s], s) {
      var i :| 0 <= i < |t.literals| && t.literals[i] == s;
      assert EndsBy(t, t.literals[i], t.next);
      WrittenAbove(m, t.addr[s], s, FIRST_DYNAMIC, u);
    }
  }

  /** What a lost literal reads as: one that begins at 100 reads as the new string. */
  lemma LiteralLost(c: Core, s: Bytes, st: seq<int>, u: Bytes, limit: nat)
    requires HoldsString(c.mem, FIRST_DYNAMIC, s) && c.nextMem == FIRST_DYNAMIC && Fits(FIRST_DYNAMIC, u) && (limit > 0 ==> |st| < limit) && u != s
    ensures var r := PushString(c, st, u, limit); r.Next? && ReadString(r.core.mem, FIRST_DYNAMIC) == Str(u) != Str(s)
  {
    PushStringAllocates(c, st, u, limit);
    HeldReads(PushString(c, st, u, limit).core.mem, FIRST_DYNAMIC, u);
  }
}
