/** The string heap refines a map from addresses to strings (avm/runtime.go). */
module Strings {
  import opened Text
  import opened Bytecode
  import opened Avm
  import Gas
  import Words

  // ---------------------------------------------------------------- one string

  lemma ChunkFits(s: Bytes, i: nat)
    ensures FromBytes(Chunk(s, i)) < Words.MOD && ToBytes(FromBytes(Chunk(s, i)), 32) == Chunk(s, i)
  {
    BytesRoundTrip(Chunk(s, i));
    Pow256Is();
  }

  lemma Pow256Is()
    ensures Pow256(32) == Words.MOD
  {
    assert Pow256(8) == 0x1_0000_0000_0000_0000;
    assert Pow256(16) == 0x1_0000_0000_0000_0000 * 0x1_0000_0000_0000_0000;
    assert Pow256(24) == Pow256(16) * 0x1_0000_0000_0000_0000;
    assert Pow256(32) == Pow256(24) * 0x1_0000_0000_0000_0000;
  }

  /** The cells at `a` are the length and the chunks of `s`. */
  ghost predicate HoldsString(m: Memory, a: nat, s: Bytes) {
    && Cell(m, a) == |s|
    && forall i {:trigger Chunk(s, i)} :: 0 <= i < Chunks(|s|) ==> Cell(m, a + 1 + i) == FromBytes(Chunk(s, i))
  }

  predicate Fits(a: nat, s: Bytes) { a + Chunks(|s|) < MAX_MEMORY }

  lemma WrittenHolds(m: Memory, a: nat, s: Bytes)
    requires Fits(a, s)
    ensures HoldsString(Written(m, a, s), a, s)
  {
    forall i | 0 <= i < Chunks(|s|) ensures Cell(Written(m, a, s), a + 1 + i) == FromBytes(Chunk(s, i)) {
      assert InBlock(a, |s|, a + 1 + i);
    }
    assert InBlock(a, |s|, a);
  }

  /** Memory that holds a string reads as that string, by either reader. */
  lemma HeldReads(m: Memory, a: nat, s: Bytes)
    requires Fits(a, s) && HoldsString(m, a, s)
    ensures ReadRaw(m, a, |s|) == Str(s) && ReadString(m, a) == Str(s) && Low64(Cell(m, a)) == |s|
  {
    forall i | 0 <= i < Chunks(|s|) ensures !BadChunk(m, a, i) { ChunkFits(s, i); }
    forall j | 0 <= j < |s| ensures ByteAt(m, a, j) == s[j] {
      ChunkFits(s, j / 32);
      ByteOfBytes(Cell(m, a + 1 + j / 32), 32, j % 32);
      assert Chunk(s, j / 32)[j % 32] == s[j];
    }
    assert seq(|s|, j requires 0 <= j < |s| => ByteAt(m, a, j)) == s;
    SmallWrap(|s|);
  }

  // ---------------------------------------------------------------- the heap

  type Heap = map<nat, Bytes>

  /** Every string of `h` is in memory, below the allocation pointer. */
  ghost predicate HeapOk(c: Core, h: Heap) {
    forall a :: a in h ==> a + 1 + Chunks(|h[a]|) <= c.nextMem && Fits(a, h[a]) && HoldsString(c.mem, a, h[a])
  }

  /** What the heap says is what the machine reads. */
  lemma HeapReads(c: Core, h: Heap, a: nat)
    requires HeapOk(c, h) && a in h
    ensures ReadString(c.mem, a) == Str(h[a]) && ReadRaw(c.mem, a, Low64(Cell(c.mem, a))) == Str(h[a]) && a < MAX_MEMORY
    ensures Cell(c.mem, a) == |h[a]|
  {
    HeldReads(c.mem, a, h[a]);
  }

  /** Nothing below the allocation pointer changes. */
  ghost predicate KeepsLow(c: Core, r: Outcome) {
    r.Next? ==> r.core.nextMem >= c.nextMem && forall b :: 0 <= b < c.nextMem ==> Cell(r.core.mem, b) == Cell(c.mem, b)
  }

  lemma PushStringKeepsLow(c: Core, st: seq<int>, s: Bytes, limit: nat)
    ensures KeepsLow(c, PushString(c, st, s, limit))
  {
  }

  lemma ConcatKeepsLow(c: Core, st: seq<int>, x: int, y: int, limit: nat)
    ensures KeepsLow(c, Concat(c, st, y, x, limit))
  {
  }

  lemma StringsKeepLow(c: Core, st: seq<int>, x: int, y: int, z: int, limit: nat)
    ensures KeepsLow(c, IndexString(c, st, y, x, limit)) && KeepsLow(c, SliceString(c, st, z, y, x, limit))
  {
    var i, j, rx, rz := Int64(x), Int64(y), ReadString(c.mem, Low64(y)), ReadString(c.mem, Low64(z));
    if rx.Str? && 0 <= i < |rx.text| { PushStringKeepsLow(c, st, CharText(rx.text[i]), limit); }
    if rz.Str? {
      var k := if i == 999999 then |rz.text| else i;
      if 0 <= j <= k <= |rz.text| { PushStringKeepsLow(c, st, rz.text[j..k], limit); }
    }
  }

  predicate Allocates(op: Opcode) {
    match op case STRCONCAT | STRINDEX | STRSLICE | PLOAD | INTTOSTR | TSXDATA => true case _ => false
  }

  lemma OthersKeepMemory(code: nat, cx: Context, c: Core, ins: Instruction, st: seq<int>, x: int, y: int, z: int, limit: nat)
    requires Valid(ins) && ins.op != MSTORE && !Allocates(ins.op)
    ensures var r := Apply(code, cx, c, ins, st, x, y, z, limit); r.Next? ==> r.core.mem == c.mem && r.core.nextMem == c.nextMem
  {
  }

  lemma LoadKeepsLow(c: Core, st: seq<int>, x: int, limit: nat)
    ensures var k := KeyOf(c.mem, x);
      k.Str? ==> KeepsLow(c, PushString(c, st, if k.text in c.store then c.store[k.text] else [], limit))
  {
    var k := KeyOf(c.mem, x);
    if k.Str? { PushStringKeepsLow(c, st, if k.text in c.store then c.store[k.text] else [], limit); }
  }

  /** Every opcode but MSTORE leaves allocated memory alone. */
  lemma ApplyKeepsLow(code: nat, cx: Context, c: Core, ins: Instruction, st: seq<int>, x: int, y: int, z: int, limit: nat)
    requires Valid(ins) && ins.op != MSTORE
    ensures KeepsLow(c, Apply(code, cx, c, ins, st, x, y, z, limit))
  {
    if Allocates(ins.op) {
      ConcatKeepsLow(c, st, x, y, limit);
      StringsKeepLow(c, st, x, y, z, limit);
      LoadKeepsLow(c, st, x, limit);
      PushStringKeepsLow(c, st, Decimal(Int64(x)), limit);
      PushStringKeepsLow(c, st, cx.data, limit);
    } else {
      OthersKeepMemory(code, cx, c, ins, st, x, y, z, limit);
    }
  }

  /** The next instruction is an MSTORE into a string of the heap. */
  ghost predicate Clobbers(p: seq<Instruction>, c: Core, h: Heap) {
    0 <= c.ic < |p| && p[c.ic].op == MSTORE && exists a :: a in h && InBlock(a, |h[a]|, Low64(Nth(c.stack, 0)))
  }

  lemma StepKeepsLow(p: seq<Instruction>, cx: Context, c: Core, limit: nat)
    requires CoreStep(p, cx, c, limit).Next? && p[c.ic].op != MSTORE
    ensures KeepsLow(c, CoreStep(p, cx, c, limit))
  {
    var ins := p[c.ic];
    ApplyKeepsLow(|p|, cx, c, ins, c.stack[..|c.stack| - Arity(ins.op)], Nth(c.stack, 0), Nth(c.stack, 1), Nth(c.stack, 2), limit);
  }

  lemma StepKeepsHeap(p: seq<Instruction>, cx: Context, c: Core, d: Core, limit: nat, h: Heap)
    requires HeapOk(c, h) && CoreStep(p, cx, c, limit) == Next(d) && !Clobbers(p, c, h)
    ensures HeapOk(d, h) && d.nextMem >= c.nextMem
  {
    if p[c.ic].op == MSTORE {
      StoreKeepsHeap(p, cx, c, limit, h);
    } else {
      StepKeepsLow(p, cx, c, limit);
      SameLowHeap(c, d, h);
    }
  }

  lemma SameLowHeap(c: Core, d: Core, h: Heap)
    requires HeapOk(c, h) && KeepsLow(c, Next(d))
    ensures HeapOk(d, h)
  {
    forall a | a in h ensures HoldsString(d.mem, a, h[a]) { assert Cell(d.mem, a) == Cell(c.mem, a); }
  }

  lemma StoreKeepsHeap(p: seq<Instruction>, cx: Context, c: Core, limit: nat, h: Heap)
    requires HeapOk(c, h) && CoreStep(p, cx, c, limit).Next? && p[c.ic].op == MSTORE && !Clobbers(p, c, h)
    ensures HeapOk(CoreStep(p, cx, c, limit).core, h) && CoreStep(p, cx, c, limit).core.nextMem >= c.nextMem
  {
    var d, t := CoreStep(p, cx, c, limit).core, Low64(Nth(c.stack, 0));
    assert d.mem == c.mem[t := Nth(c.stack, 1)] && d.nextMem == c.nextMem;
    forall a | a in h ensures HoldsString(d.mem, a, h[a]) {
      assert !InBlock(a, |h[a]|, t);
      forall i | 0 <= i < Chunks(|h[a]|) ensures Cell(d.mem, a + 1 + i) == FromBytes(Chunk(h[a], i)) {
        assert Cell(c.mem, a + 1 + i) == FromBytes(Chunk(h[a], i));
      }
    }
  }

  // ---------------------------------------------------------------- new strings

  /** The string an allocating instruction is meant to produce, told from the heap alone. STRINDEX yields the one
      byte only when that byte is ASCII; see `IndexIsByteExactly`. */
  function Expected(cx: Context, c: Core, h: Heap, op: Opcode): Option<Bytes> {
    var x, y, z := Nth(c.stack, 0), Nth(c.stack, 1), Nth(c.stack, 2);
    match op
    case STRCONCAT => if Low64(y) in h && Low64(x) in h then Some(h[Low64(y)] + h[Low64(x)]) else None
    case STRINDEX =>
      if Low64(y) in h && 0 <= Int64(x) < |h[Low64(y)]| && h[Low64(y)][Int64(x)] < 128 then Some([h[Low64(y)][Int64(x)]]) else None
    case STRSLICE =>
      if Low64(z) !in h then None
      else
        var s := h[Low64(z)];
        var j := if Int64(x) == 999999 then |s| else Int64(x);
        if 0 <= Int64(y) <= j <= |s| then Some(s[Int64(y)..j]) else None
    case PLOAD =>
      if Low64(x) !in h || h[Low64(x)] == [] then None
      else Some(if h[Low64(x)] in c.store then c.store[h[Low64(x)]] else [])
    case INTTOSTR => Some(Decimal(Int64(x)))
    case TSXDATA => Some(cx.data)
    case _ => None
  }

  /** A state right after string `s` was allocated and its address pushed on `st`. */
  ghost predicate Allocated(c: Core, r: Outcome, st: seq<int>, s: Bytes) {
    && r.Next? && r == Next(c.(mem := r.core.mem, stack := st + [c.nextMem], nextMem := c.nextMem + 1 + Chunks(|s|), ic := c.ic + 1))
    && KeepsLow(c, r) && HoldsString(r.core.mem, c.nextMem, s)
  }

  lemma PushStringAllocates(c: Core, st: seq<int>, s: Bytes, limit: nat)
    requires Fits(c.nextMem, s) && (limit > 0 ==> |st| < limit)
    ensures Allocated(c, PushString(c, st, s, limit), st, s)
  {
    WrittenHolds(c.mem, c.nextMem, s);
    SmallWrap(c.nextMem);
  }

  lemma ConcatAllocates(c: Core, st: seq<int>, a: int, b: int, limit: nat, h: Heap)
    requires HeapOk(c, h) && Low64(a) in h && Low64(b) in h
    requires Fits(c.nextMem, h[Low64(a)] + h[Low64(b)]) && (limit > 0 ==> |st| < limit)
    ensures Allocated(c, Concat(c, st, a, b, limit), st, h[Low64(a)] + h[Low64(b)])
  {
    HeapReads(c, h, Low64(a));
    HeapReads(c, h, Low64(b));
    WrittenHolds(c.mem, c.nextMem, h[Low64(a)] + h[Low64(b)]);
    SmallWrap(c.nextMem);
    ConcatKeepsLow(c, st, b, a, limit);
  }

  lemma SliceAllocates(c: Core, st: seq<int>, a: int, i: int, j: int, limit: nat, h: Heap)
    requires HeapOk(c, h) && Low64(a) in h && (limit > 0 ==> |st| < limit)
    requires var s := h[Low64(a)]; var k := if Int64(j) == 999999 then |s| else Int64(j);
      0 <= Int64(i) <= k <= |s| && Fits(c.nextMem, s[Int64(i)..k])
    ensures var s := h[Low64(a)]; var k := if Int64(j) == 999999 then |s| else Int64(j);
      Allocated(c, SliceString(c, st, a, i, j, limit), st, s[Int64(i)..k])
  {
    HeapReads(c, h, Low64(a));
    var s := h[Low64(a)];
    PushStringAllocates(c, st, s[Int64(i)..if Int64(j) == 999999 then |s| else Int64(j)], limit);
  }

  lemma IndexAllocates(c: Core, st: seq<int>, a: int, i: int, limit: nat, h: Heap)
    requires HeapOk(c, h) && Low64(a) in h && 0 <= Int64(i) < |h[Low64(a)]| && (limit > 0 ==> |st| < limit)
    requires Fits(c.nextMem, CharText(h[Low64(a)][Int64(i)]))
    ensures Allocated(c, IndexString(c, st, a, i, limit), st, CharText(h[Low64(a)][Int64(i)]))
  {
    HeapReads(c, h, Low64(a));
    PushStringAllocates(c, st, CharText(h[Low64(a)][Int64(i)]), limit);
  }

  /** Indexing gives the byte itself exactly when it is ASCII; any other byte comes back as two. */
  lemma IndexIsByteExactly(b: Byte)
    ensures CharText(b) == [b] <==> b < 128
    ensures b >= 128 ==> |CharText(b)| == 2
  {
  }

  /** An allocating instruction produces the expected string at a new address. */
  lemma ApplyAllocates(code: nat, cx: Context, c: Core, ins: Instruction, st: seq<int>, limit: nat, h: Heap)
    requires HeapOk(c, h) && Valid(ins) && Expected(cx, c, h, ins.op).Some? && Fits(c.nextMem, Expected(cx, c, h, ins.op).value)
    requires limit > 0 ==> |st| < limit
    ensures Allocated(c, Apply(code, cx, c, ins, st, Nth(c.stack, 0), Nth(c.stack, 1), Nth(c.stack, 2), limit), st, Expected(cx, c, h, ins.op).value)
  {
    var x, y, z := Nth(c.stack, 0), Nth(c.stack, 1), Nth(c.stack, 2);
    if ins.op == STRCONCAT {
      ConcatAllocates(c, st, y, x, limit, h);
    } else if ins.op == STRINDEX {
      IndexAllocates(c, st, y, x, limit, h);
    } else if ins.op == STRSLICE {
      SliceAllocates(c, st, z, y, x, limit, h);
    } else {
      if ins.op == PLOAD { HeapReads(c, h, Low64(x)); }
      PushStringAllocates(c, st, Expected(cx, c, h, ins.op).value, limit);
    }
  }

  /** A new string next to the old ones. */
  lemma GrownHeap(c: Core, r: Outcome, st: seq<int>, s: Bytes, h: Heap)
    requires HeapOk(c, h) && Allocated(c, r, st, s) && Fits(c.nextMem, s)
    ensures HeapOk(r.core, h[c.nextMem := s])
  {
    SameLowHeap(c, r.core, h);
  }

  /** The heap after one instruction, as a map: one more string if the instruction makes one that fits. */
  ghost function NextHeap(p: seq<Instruction>, cx: Context, c: Core, limit: nat, h: Heap): Heap {
    if 0 <= c.ic < |p| && Valid(p[c.ic]) then
      var op := p[c.ic].op;
      var s := Expected(cx, c, h, op);
      if s.Some? && Fits(c.nextMem, s.value) && Arity(op) <= |c.stack| && (limit > 0 ==> |c.stack| - Arity(op) < limit)
      then h[c.nextMem := s.value]
      else h
    else h
  }

  /** One instruction on the machine is one step on the map. */
  lemma StepRefines(p: seq<Instruction>, cx: Context, c: Core, limit: nat, h: Heap)
    requires HeapOk(c, h) && CoreStep(p, cx, c, limit).Next? && !Clobbers(p, c, h)
    ensures HeapOk(CoreStep(p, cx, c, limit).core, NextHeap(p, cx, c, limit, h))
  {
    if NextHeap(p, cx, c, limit, h) == h {
      StepKeepsHeap(p, cx, c, CoreStep(p, cx, c, limit).core, limit, h);
    } else {
      StepAllocates(p, cx, c, limit, h);
    }
  }

  lemma StepAllocates(p: seq<Instruction>, cx: Context, c: Core, limit: nat, h: Heap)
    requires HeapOk(c, h) && CoreStep(p, cx, c, limit).Next? && Expected(cx, c, h, p[c.ic].op).Some?
    requires Fits(c.nextMem, Expected(cx, c, h, p[c.ic].op).value) && (limit > 0 ==> |c.stack| - Arity(p[c.ic].op) < limit)
    ensures HeapOk(CoreStep(p, cx, c, limit).core, h[c.nextMem := Expected(cx, c, h, p[c.ic].op).value])
  {
    var ins := p[c.ic];
    var s, st := Expected(cx, c, h, ins.op).value, c.stack[..|c.stack| - Arity(ins.op)];
    ApplyAllocates(|p|, cx, c, ins, st, limit, h);
    GrownHeap(c, CoreStep(p, cx, c, limit), st, s, h);
  }

  // ---------------------------------------------------------------- whole runs

  /** The states of a run, one instruction apart. */
  ghost predicate IsRun(vm: Vm, cs: seq<Core>) {
    Genuine(vm) && cs != [] && (|cs| > 1 ==> IsRun(vm, cs[..|cs| - 1]) && vm.step(cs[|cs| - 2]) == Next(cs[|cs| - 1]))
  }

  /** Ticks of the metered machine are steps. */
  ghost predicate Tracks(tick: Gas.Ticker, vm: Vm) {
    forall m {:trigger tick(m)} :: tick(m).Some? ==> vm.step(m.core) == Next(tick(m).value.core)
  }

  /** The states a machine that tracks the step function goes through are a run. */
  lemma {:induction false} MachineRun(tick: Gas.Ticker, vm: Vm, m: Machine, n: nat) returns (cs: seq<Core>)
    requires Genuine(vm) && Tracks(tick, vm) && Gas.Run(tick, m, n).Some?
    ensures IsRun(vm, cs) && |cs| == n + 1 && cs[0] == m.core && cs[n] == Gas.Run(tick, m, n).value.core
  {
    if n == 0 {
      cs := [m.core];
    } else {
      cs := MachineRun(tick, vm, m, n - 1);
      cs := LongerRun(vm, cs, Gas.Run(tick, m, n).value.core);
    }
  }

  lemma TicksTrack(vm: Vm)
    requires Genuine(vm)
    ensures Tracks(Gas.Ticks(vm.p, vm.cx, vm.limit), vm)
  {
    var tick := Gas.Ticks(vm.p, vm.cx, vm.limit);
    forall m | tick(m).Some? ensures vm.step(m.core) == Next(tick(m).value.core) {
      assert vm.step(m.core) == CoreStep(vm.p, vm.cx, m.core, vm.limit);
    }
  }

  /** The states the metered machine goes through are a run. */
  lemma MeteredRun(vm: Vm, m: Machine, n: nat) returns (cs: seq<Core>)
    requires Genuine(vm) && Gas.Run(Gas.Ticks(vm.p, vm.cx, vm.limit), m, n).Some?
    ensures IsRun(vm, cs) && |cs| == n + 1 && cs[0] == m.core && cs[n] == Gas.Run(Gas.Ticks(vm.p, vm.cx, vm.limit), m, n).value.core
  {
    TicksTrack(vm);
    cs := MachineRun(Gas.Ticks(vm.p, vm.cx, vm.limit), vm, m, n);
  }

  lemma LongerRun(vm: Vm, cs: seq<Core>, d: Core) returns (r: seq<Core>)
    requires IsRun(vm, cs) && vm.step(cs[|cs| - 1]) == Next(d)
    ensures r == cs + [d] && IsRun(vm, r)
  {
    r := cs + [d];
    assert r[..|cs|] == cs;
  }

  ghost function HeapNext(vm: Vm, c: Core, h: Heap): Heap { NextHeap(vm.p, vm.cx, c, vm.limit, h) }

  /** The map at the end of a run. */
  ghost function HeapAfter(vm: Vm, cs: seq<Core>, h: Heap): Heap {
    if |cs| <= 1 then h else HeapNext(vm, cs[|cs| - 2], HeapAfter(vm, cs[..|cs| - 1], h))
  }

  /** No MSTORE of the run hits a string. */
  ghost predicate Unclobbered(vm: Vm, cs: seq<Core>, h: Heap) {
    |cs| <= 1 || (Unclobbered(vm, cs[..|cs| - 1], h) && !Clobbers(vm.p, cs[|cs| - 2], HeapAfter(vm, cs[..|cs| - 1], h)))
  }

  ghost predicate Extends(h: Heap, more: Heap) { forall a :: a in h ==> a in more && more[a] == h[a] }

  lemma {:induction false} HeapKept(vm: Vm, cs: seq<Core>, h: Heap)
    requires IsRun(vm, cs) && HeapOk(cs[0], h) && Unclobbered(vm, cs, h)
    ensures HeapOk(cs[|cs| - 1], HeapAfter(vm, cs, h)) && Extends(h, HeapAfter(vm, cs, h))
    decreases |cs|
  {
    var n := |cs|;
    if n > 1 {
      HeapKept(vm, cs[..n - 1], h);
      StepExtends(vm, cs[n - 2], cs[n - 1], HeapAfter(vm, cs[..n - 1], h));
    }
  }

  /** The string heap refines the map, over every run: at the end each address of the map reads as its string,
      and no string has changed or gone away. */
  lemma HeapRefines(vm: Vm, cs: seq<Core>, h: Heap)
    requires IsRun(vm, cs) && HeapOk(cs[0], h) && Unclobbered(vm, cs, h)
    ensures var d, h' := cs[|cs| - 1], HeapAfter(vm, cs, h);
      HeapOk(d, h') && Extends(h, h') && forall a :: a in h' ==> ReadString(d.mem, a) == Str(h'[a])
  {
    HeapKept(vm, cs, h);
    AllRead(cs[|cs| - 1], HeapAfter(vm, cs, h));
  }

  lemma AllRead(d: Core, h: Heap)
    requires HeapOk(d, h)
    ensures forall a :: a in h ==> ReadString(d.mem, a) == Str(h[a])
  {
    forall a | a in h ensures ReadString(d.mem, a) == Str(h[a]) { HeapReads(d, h, a); }
  }

  lemma StepExtends(vm: Vm, c: Core, d: Core, h: Heap)
    requires Genuine(vm) && HeapOk(c, h) && vm.step(c) == Next(d) && !Clobbers(vm.p, c, h)
    ensures HeapOk(d, HeapNext(vm, c, h)) && Extends(h, HeapNext(vm, c, h))
  {
    assert CoreStep(vm.p, vm.cx, c, vm.limit) == Next(d);
    StepRefines(vm.p, vm.cx, c, vm.limit, h);
  }

  // ---------------------------------------------------------------- reading strings

  /** EQ on two strings of the heap compares their texts, except that two empty strings at different addresses
      come out different. */
  lemma EqualsOnStrings(c: Core, st: seq<int>, a: nat, b: nat, limit: nat, h: Heap)
    requires HeapOk(c, h) && a in h && b in h
    ensures Equals(c, st, a, b, limit) == PushOn(c, st, Words.Bit(h[a] == h[b]), limit) <==> (h[a] != [] || h[b] != [] || a == b || (limit > 0 && |st| >= limit))
  {
    HeapReads(c, h, a);
    HeapReads(c, h, b);
    SmallWrap(a);
    SmallWrap(b);
    EqualsSplit(c, st, a, b, limit, h[a], h[b]);
    PushedApart(c, st, limit);
  }

  lemma EqualsSplit(c: Core, st: seq<int>, a: nat, b: nat, limit: nat, s: Bytes, t: Bytes)
    requires a < MAX_MEMORY && b < MAX_MEMORY && ReadString(c.mem, a) == Str(s) && ReadString(c.mem, b) == Str(t)
    ensures Equals(c, st, a, b, limit) == PushOn(c, st, Words.Bit(if s != [] && t != [] then s == t else a == b), limit)
  {
    SmallWrap(a);
    SmallWrap(b);
  }

  lemma PushedApart(c: Core, st: seq<int>, limit: nat)
    ensures PushOn(c, st, 0, limit) == PushOn(c, st, 1, limit) <==> limit > 0 && |st| >= limit
  {
    var x, y := st + [0], st + [1];
    assert x[|st|] != y[|st|];
  }

  /** STRLEN and EMITSTR read the heap. */
  lemma Readers(code: nat, cx: Context, c: Core, st: seq<int>, a: nat, limit: nat, h: Heap)
    requires HeapOk(c, h) && a in h
    ensures Apply(code, cx, c, Op(STRLEN), st, a, 0, 0, limit) == PushOn(c, st, |h[a]|, limit)
    ensures Apply(code, cx, c, Op(EMITSTR), st, a, 0, 0, limit) == Next(c.(stack := st, ic := c.ic + 1, out := c.out + [Chars(h[a])]))
  {
    HeapReads(c, h, a);
    SmallWrap(a);
  }
}
