/** The runtime object (avm/runtime.go): instructions executed by updating its fields in place, proved
    against the transition function of module Avm. */
module Interpreter {
  import opened Text
  import opened Bytecode
  import opened Avm
  import opened Transitions
  import Words

  type Failure = Option<Error>

  /** One more chunk of bytes. */
  lemma OneMoreChunk(m: map<nat, int>, a: nat, n: nat, i: nat, bytes: Bytes, piece: Bytes)
    requires |bytes| == 32 * i && 32 * i < n && forall j :: 0 <= j < |bytes| ==> bytes[j] == ByteAt(m, a, j)
    requires |piece| == (if n - 32 * i > 32 then 32 else n - 32 * i) && piece == ToBytes(Abs(Cell(m, a + 1 + i)), 32)[..|piece|]
    ensures var r := bytes + piece;
      |r| == (if 32 * (i + 1) < n then 32 * (i + 1) else n) && forall j :: 0 <= j < |r| ==> r[j] == ByteAt(m, a, j)
  {
    var r := bytes + piece;
    forall j | |bytes| <= j < |r| ensures r[j] == ByteAt(m, a, j) {
      assert j / 32 == i && j % 32 == j - 32 * i && r[j] == piece[j - 32 * i];
      ByteOfBytes(Abs(Cell(m, a + 1 + i)), 32, j % 32);
    }
  }

  lemma GatheredAll(m: map<nat, int>, a: nat, n: nat, bytes: Bytes)
    requires |bytes| == n && (n > 0 ==> a + Chunks(n) < MAX_MEMORY)
    requires forall j :: 0 <= j < n ==> bytes[j] == ByteAt(m, a, j)
    requires forall k :: 0 <= k < Chunks(n) ==> !BadChunk(m, a, k)
    ensures ReadRaw(m, a, n) == Str(bytes)
  {
    assert bytes == seq(n, j requires 0 <= j < n => ByteAt(m, a, j));
  }

  lemma NotANumber(s: Bytes, i: nat)
    requires i < |s| && !IsDigit(s[i]) && (i > 0 || s[0] != MINUS)
    ensures ParseInt(s).None?
  {
    if s[0] == MINUS { assert !IsDigit(s[1..][i - 1]); }
  }

  lemma Digit(s: Bytes, i: nat)
    requires i < |s|
    ensures Accumulate(s[..i + 1]) == Wrap(10 * Accumulate(s[..i]) + (s[i] as int - 48))
  {
    var t := s[..i + 1];
    assert t[..i] == s[..i] && t[i] == s[i];
  }

  /** Step in terms of the step function. */
  lemma StepByVm(vm: Vm, m: Machine)
    requires Genuine(vm) && 0 <= m.core.ic < |vm.p|
    ensures var ins := vm.p[m.core.ic];
      Valid(ins) && m.gasAvailable >= Price(ins.op) ==>
        Step(vm.p, vm.cx, m, vm.limit) == match vm.step(m.core)
                                          case Next(c) => Running(Charge(m, ins.op).(core := c))
                                          case Halt(e) => if e == ProgramStopped || e == Crash then Halted(m, e) else Halted(Charge(m, ins.op), e)
  {
    assert vm.step(m.core) == CoreStep(vm.p, vm.cx, m.core, vm.limit);
  }

  class Runtime {
    const code: seq<Instruction>
    const cx: Context
    const maxStack: nat
    const startIC: int
    ghost const vm: Vm
    var stack: seq<int>
    var mem: map<nat, int>
    var fp: int
    var ic: int
    var gasAvailable: nat
    var gasUsed: nat
    var store: map<Bytes, Bytes>
    var rets: seq<int>
    var frames: seq<int>
    var nextMem: nat
    var out: seq<Event>

    /** NewRuntimeWithIC. */
    constructor (gas: nat, code: seq<Instruction>, cx: Context, start: int, saved: map<Bytes, Bytes>)
      ensures Now() == Fresh(gas, start, saved) && this.code == code && this.cx == cx && maxStack == MAX_STACK && startIC == start && Sound()
    {
      this.code, this.cx, maxStack, startIC := code, cx, MAX_STACK, start;
      vm := Vm(code, cx, MAX_STACK, c => CoreStep(code, cx, c, MAX_STACK));
      stack, mem, fp, ic := [], map[], 0, start;
      gasAvailable, gasUsed, store := gas, 0, saved;
      rets, frames, nextMem, out := [], [], FIRST_DYNAMIC, [];
    }

    /** `vm` is the transition function this object has to follow. */
    ghost predicate Sound() { vm.p == code && vm.cx == cx && vm.limit == maxStack && Genuine(vm) }

    ghost function State(): Core
      reads this
    {
      Core(stack, mem, fp, ic, store, rets, frames, nextMem, out)
    }

    ghost function Now(): Machine
      reads this
    {
      Machine(State(), gasAvailable, gasUsed)
    }

    // -------------------------------------------------------------- stack and memory

    method Push(v: int) returns (err: Failure)
      modifies this`stack
      ensures err == if maxStack > 0 && |old(stack)| >= maxStack then Some(StackOverflow) else None
      ensures stack == if err.None? then old(stack) + [v] else old(stack)
    {
      if maxStack > 0 && |stack| >= maxStack { return Some(StackOverflow); }
      stack := stack + [v];
      return None;
    }

    method Pop() returns (v: int, err: Failure)
      modifies this`stack
      ensures err == if old(stack) == [] then Some(EmptyStack) else None
      ensures err.None? ==> v == old(stack)[|old(stack)| - 1] && stack == old(stack)[..|old(stack)| - 1]
      ensures err.Some? ==> stack == old(stack)
    {
      if |stack| == 0 { return 0, Some(EmptyStack); }
      v := stack[|stack| - 1];
      stack := stack[..|stack| - 1];
      return v, None;
    }

    method Pop2() returns (v1: int, v2: int, err: Failure)
      modifies this`stack
      ensures err == if |old(stack)| < 2 then Some(EmptyStack) else None
      ensures err.None? ==> v1 == old(stack)[|old(stack)| - 1] && v2 == old(stack)[|old(stack)| - 2] && stack == old(stack)[..|old(stack)| - 2]
    {
      v2 := 0;
      v1, err := Pop();
      if err.Some? { return; }
      v2, err := Pop();
      assert err.None? ==> stack == old(stack)[..|old(stack)| - 2];
    }

    method Save(a: nat, v: int) returns (err: Failure)
      modifies this`mem
      ensures err == if a >= MAX_MEMORY then Some(MemoryOutOfBounds) else None
      ensures mem == if err.None? then old(mem)[a := v] else old(mem)
    {
      if a >= MAX_MEMORY { return Some(MemoryOutOfBounds); }
      mem := mem[a := v];
      return None;
    }

    method Load(a: nat) returns (v: int, err: Failure)
      ensures err == if a >= MAX_MEMORY then Some(MemoryOutOfBounds) else None
      ensures err.None? ==> v == Cell(mem, a)
    {
      if a >= MAX_MEMORY { return 0, Some(MemoryOutOfBounds); }
      if a in mem { return mem[a], None; }
      return 0, None;
    }

    /** The loop that gathers `n` bytes, 32 from each cell, the last cell possibly cut short. */
    method ReadChunks(a: nat, n: nat) returns (r: Read)
      ensures r == ReadRaw(mem, a, n)
    {
      var bytes: Bytes, i, chunks := [], 0, (n + 31) / 32;
      while i < chunks
        invariant 0 <= i <= chunks && |bytes| == if 32 * i < n then 32 * i else n
        invariant forall j :: 0 <= j < |bytes| ==> bytes[j] == ByteAt(mem, a, j)
        invariant forall k :: 0 <= k < i ==> !BadChunk(mem, a, k)
        invariant i > 0 ==> a + i < MAX_MEMORY
      {
        var v, err := Load(a + 1 + i);
        if err.Some? {
          assert forall k :: i <= k < chunks ==> !BadChunk(mem, a, k);
          return Missing;
        }
        if Oversize(v) {
          assert BadChunk(mem, a, i);
          return Panics;
        }
        var chunk := ToBytes(Abs(v), 32);
        var remaining := n - |bytes|;
        var piece := if remaining > 32 then chunk else chunk[..remaining];
        OneMoreChunk(mem, a, n, i, bytes, piece);
        bytes := bytes + piece;
        i := i + 1;
      }
      GatheredAll(mem, a, n, bytes);
      return Str(bytes);
    }

    /** readStringFromMemory. */
    method ReadText(a: nat) returns (r: Read)
      ensures r == ReadString(mem, a)
    {
      var v, err := Load(a);
      if err.Some? { return Str([]); }
      var n := Low64(v);
      if n == 0 || n > MAX_STRING { return Str([]); }
      r := ReadChunks(a, n);
      if r.Missing? { r := Str([]); }
    }

    /** Stores a length and its chunks; a store that fails is remembered, and ignored or not by the caller. */
    method WriteText(a: nat, s: Bytes) returns (failed: bool)
      modifies this`mem
      ensures mem == Written(old(mem), a, s) && failed == (a + Chunks(|s|) >= MAX_MEMORY)
    {
      var err := Save(a, |s|);
      var i, chunks := 0, (|s| + 31) / 32;
      while i < chunks
        invariant 0 <= i <= chunks
        invariant (err.Some? <==> a + i >= MAX_MEMORY) && mem == WrittenTo(old(mem), a, s, i)
      {
        var start := 32 * i;
        var end := if start + 32 > |s| then |s| else start + 32;
        var chunk := s[start..end] + seq(32 - (end - start), _ => 0);
        assert chunk == Chunk(s, i);
        err := Save(a + 1 + i, FromBytes(chunk));
        i := i + 1;
      }
      WrittenToEnd(old(mem), a, s);
      return err.Some?;
    }

    /** storeStringInMemory. */
    method StoreText(s: Bytes) returns (a: nat)
      modifies this`mem, this`nextMem
      ensures a == old(nextMem) && mem == Written(old(mem), a, s) && nextMem == a + 1 + Chunks(|s|)
    {
      a := nextMem;
      var _ := WriteText(a, s);
      nextMem := a + 1 + (|s| + 31) / 32;
    }

    /** The loop that grows the stack up to an index. */
    method Expand(index: nat)
      modifies this`stack
      ensures stack == Padded(old(stack), index + 1)
    {
      while |stack| <= index
        invariant |old(stack)| <= |stack| <= (if |old(stack)| <= index then index + 1 else |old(stack)|)
        invariant stack == old(stack) + seq(|stack| - |old(stack)|, _ => 0)
        decreases index + 1 - |stack|
      {
        stack := stack + [0];
      }
    }

    /** The digit loop of STRTOINT, on an int64 that wraps. */
    method ParseText(s: Bytes) returns (r: Option<int>)
      ensures r == ParseInt(s)
    {
      if |s| == 0 { return None; }
      var first := 0;
      if s[0] == MINUS {
        first := 1;
        if |s| == 1 { return None; }
      }
      ghost var body := s[first..];
      assert body == if s[0] == MINUS then s[1..] else s;
      var result, i := 0, first;
      while i < |s|
        invariant first <= i <= |s| && result == Accumulate(body[..i - first])
        invariant forall k :: 0 <= k < i - first ==> IsDigit(body[k])
      {
        if !IsDigit(s[i]) {
          NotANumber(s, i);
          return None;
        }
        Digit(body, i - first);
        result := Wrap(10 * result + (s[i] as int - 48));
        i := i + 1;
      }
      assert body[..|body|] == body;
      if first == 1 { result := Wrap(-result); }
      return Some(result);
    }

    // -------------------------------------------------------------- instructions

    /** `ins` is about to be executed. */
    ghost predicate Fetched(ins: Instruction)
      reads this
    {
      Sound() && 0 <= ic < |code| && code[ic] == ins && Valid(ins)
    }

    /** What the next instruction ought to do. */
    ghost function Due(): Outcome
      reads this
    {
      vm.step(State())
    }

    /** The fields show outcome `r`, up to the final increment of the instruction counter. */
    ghost predicate Shows(r: Outcome, err: Failure, increment: int)
      reads this
    {
      match r
      case Next(c) => err.None? && State().(ic := ic + increment) == c
      case Halt(e) => err == Some(e)
    }

    /** Nothing but operands popped since state `c`. */
    ghost predicate Since(c: Core)
      reads this
    {
      State() == c.(stack := stack)
    }

    method Swapped(v: int, ghost c: Core) returns (err: Failure)
      requires Since(c)
      modifies this`stack
      ensures Shows(Swap(c, old(stack), v), err, 1)
    {
      var i, n := Wrap(Low64(v)), |stack|;
      if i >= n { return Some(InvalidSwap); }
      if n == 0 { return Some(EmptyStack); }
      if i < 0 { return Some(Crash); }
      stack := stack[n - 1 := stack[n - 1 - i]][n - 1 - i := stack[n - 1]];
      return None;
    }

    method Compare(v2: int, v1: int, ghost c: Core) returns (err: Failure)
      requires Since(c)
      modifies this`stack
      ensures Shows(Equals(c, old(stack), v2, v1, maxStack), err, 1)
    {
      var r1, r2 := Str([]), Str([]);
      if Low64(v1) < 1000000 { r1 := ReadText(Low64(v1)); }
      if r1.Panics? { return Some(Crash); }
      if Low64(v2) < 1000000 { r2 := ReadText(Low64(v2)); }
      if r2.Panics? { return Some(Crash); }
      if r1.text != [] && r2.text != [] {
        err := Push(if r1.text == r2.text then 1 else 0);
      } else {
        err := Push(if v2 == v1 then 1 else 0);
      }
    }

    method JumpWhen(t: int, taken: bool, ghost c: Core) returns (err: Failure)
      requires Since(c)
      modifies this`ic
      ensures Shows(JumpTo(|code|, c, old(stack), t, taken), err, 0)
    {
      var target := Wrap(Low64(t));
      if target < 0 || target >= |code| { return Some(InvalidJump); }
      if taken { ic := target; } else { ic := ic + 1; }
      return None;
    }

    method ReadLocal(offset: int, ghost c: Core) returns (err: Failure)
      requires Since(c)
      modifies this`stack
      ensures Shows(LoadLocal(c, old(stack), offset, maxStack), err, 1)
    {
      var index := fp + Wrap(Low64(offset));
      if index < 0 { return Some(InvalidOffset); }
      Expand(index);
      err := Push(stack[index]);
    }

    method WriteLocal(offset: int, v: int, ghost c: Core) returns (err: Failure)
      requires Since(c)
      modifies this`stack
      ensures Shows(StoreLocal(c, old(stack), offset, v), err, 1)
    {
      var index := fp + Wrap(Low64(offset));
      if index < 0 { return Some(InvalidOffset); }
      Expand(index);
      stack := stack[index := v];
      return None;
    }

    // -------------------------------------------------------------- strings

    /** Allocates a string and pushes its address. */
    method PushText(s: Bytes, ghost c: Core) returns (err: Failure)
      requires Since(c)
      modifies this`stack, this`mem, this`nextMem
      ensures Shows(PushString(c, old(stack), s, maxStack), err, 1)
    {
      var a := StoreText(s);
      err := Push(Wrap(a));
    }

    /** STRCONCAT. The error variable of its body is not the one the instruction returns. */
    method ConcatText(p1: int, p2: int, ghost c: Core) returns (err: Failure)
      requires Since(c)
      modifies this`stack, this`mem, this`nextMem
      ensures Shows(Concat(c, old(stack), p1, p2, maxStack), err, 1)
    {
      var a1, a2 := Low64(p1), Low64(p2);
      var n1, e1 := Load(a1);
      if e1.Some? { return None; }
      var n2, e2 := Load(a2);
      if e2.Some? { return None; }
      var r1 := ReadChunks(a1, Low64(n1));
      if r1.Panics? { return Some(Crash); }
      var r2 := ReadChunks(a2, Low64(n2));
      if r2.Panics? { return Some(Crash); }
      if r1.Missing? || r2.Missing? { return None; }
      JoinTexts(r1.text + r2.text);
      return None;
    }

    /** Its last part: a string that does not fit is not allocated, and its address is lost on a full stack. */
    method JoinTexts(s: Bytes)
      modifies this`stack, this`mem, this`nextMem
      ensures mem == Written(old(mem), old(nextMem), s)
      ensures old(nextMem) + Chunks(|s|) >= MAX_MEMORY ==> nextMem == old(nextMem) && stack == old(stack)
      ensures old(nextMem) + Chunks(|s|) < MAX_MEMORY ==> nextMem == old(nextMem) + 1 + Chunks(|s|)
      ensures old(nextMem) + Chunks(|s|) < MAX_MEMORY ==>
        stack == if maxStack > 0 && |old(stack)| >= maxStack then old(stack) else old(stack) + [Wrap(old(nextMem))]
    {
      var a := nextMem;
      var failed := WriteText(a, s);
      if failed { return; }
      nextMem := nextMem + 1 + (|s| + 31) / 32;
      var _ := Push(Wrap(a));
    }

    method EmitText(p: int, ghost c: Core) returns (err: Failure)
      requires Since(c)
      modifies this`out
      ensures Shows(EmitString(c, old(stack), p), err, 1)
    {
      var n, e := Load(Low64(p));
      if e.Some? { return Some(InvalidString); }
      var r := ReadChunks(Low64(p), Low64(n));
      if r.Panics? { return Some(Crash); }
      if r.Missing? { return Some(InvalidString); }
      out := out + [Chars(r.text)];
      return None;
    }

    method IndexText(p: int, index: int, ghost c: Core) returns (err: Failure)
      requires Since(c)
      modifies this`stack, this`mem, this`nextMem
      ensures Shows(IndexString(c, old(stack), p, index, maxStack), err, 1)
    {
      var r := ReadText(Low64(p));
      if !r.Str? { return Some(Crash); }
      var i := Int64(index);
      if i < 0 || i >= |r.text| { return Some(InvalidString); }
      err := PushText(CharText(r.text[i]), c);
    }

    method SliceText(p: int, start: int, end: int, ghost c: Core) returns (err: Failure)
      requires Since(c)
      modifies this`stack, this`mem, this`nextMem
      ensures Shows(SliceString(c, old(stack), p, start, end, maxStack), err, 1)
    {
      var r := ReadText(Low64(p));
      if !r.Str? { return Some(Crash); }
      var i, j := Int64(start), Int64(end);
      if j == 999999 { j := |r.text|; }
      if i < 0 || i > |r.text| { return Some(InvalidString); }
      if j < i || j > |r.text| { return Some(InvalidString); }
      err := PushText(r.text[i..j], c);
    }

    method TextToInteger(p: int, ghost c: Core) returns (err: Failure)
      requires Since(c)
      modifies this`stack
      ensures Shows(ToInteger(c, old(stack), p, maxStack), err, 1)
    {
      var r := ReadText(Low64(p));
      if !r.Str? { return Some(Crash); }
      var v := ParseText(r.text);
      if v.None? { return Some(InvalidString); }
      err := Push(v.value);
    }

    // -------------------------------------------------------------- persistent storage

    method KeyFor(v: int) returns (r: Read)
      ensures r == KeyOf(mem, v)
    {
      r := ReadText(Low64(v));
      if r.Str? && r.text == [] { r := Str(Decimal(Low64(v))); }
    }

    method StorePersistent(key: int, v: int, ghost c: Core) returns (err: Failure)
      requires Since(c)
      modifies this`store
      ensures Shows(StoreKey(c, old(stack), key, v), err, 1)
    {
      var k := KeyFor(key);
      if !k.Str? { return Some(Crash); }
      var t := ReadText(Low64(v));
      if !t.Str? { return Some(Crash); }
      if t.text == [] { t := Str(Decimal(v)); }
      store := store[k.text := t.text];
      return None;
    }

    method LoadPersistent(key: int, ghost c: Core) returns (err: Failure)
      requires Since(c)
      modifies this`stack, this`mem, this`nextMem
      ensures Shows(LoadKey(c, old(stack), key, maxStack), err, 1)
    {
      var k := KeyFor(key);
      if !k.Str? { return Some(Crash); }
      if k.text in store { err := PushText(store[k.text], c); } else { err := PushText([], c); }
    }

    // -------------------------------------------------------------- calls

    method CallFunction(target: int, ghost c: Core)
      requires Since(c)
      modifies this`frames, this`fp, this`rets, this`ic
      ensures Shows(Enter(c, stack, target), None, 1)
    {
      frames := frames + [fp];
      fp := |stack| - 2;
      rets := rets + [ic + 1];
      ic := Wrap(Low64(target)) - 1;
    }

    /** The loop that clears the two parameters, or what is left of the stack. */
    method DropParameters()
      modifies this`stack
      ensures stack == if |old(stack)| >= 2 then old(stack)[..|old(stack)| - 2] else []
    {
      var i := 0;
      while i < 2
        invariant 0 <= i <= 2 && stack == old(stack)[..if |old(stack)| >= i then |old(stack)| - i else 0]
      {
        if |stack| > 0 { var _, _ := Pop(); }
        i := i + 1;
      }
    }

    method Return() returns (err: Failure)
      modifies this`stack, this`frames, this`fp, this`rets, this`ic
      ensures Shows(old(Leave(State(), maxStack)), err, 1) && (err == Some(ProgramStopped) ==> State() == old(State()))
    {
      if |rets| == 0 { return Some(ProgramStopped); }
      if |stack| == 0 { return Some(EmptyStack); }
      err := GoBack();
    }

    /** To the caller, with the result in place of the two parameters. */
    method GoBack() returns (err: Failure)
      requires rets != [] && stack != []
      modifies this`stack, this`frames, this`fp, this`rets, this`ic
      ensures var n := |old(stack)| - 1;
        var kept := if n >= 2 then old(stack)[..n - 2] else [];
        && err == (if maxStack > 0 && |kept| >= maxStack then Some(StackOverflow) else None)
        && (err.None? ==> stack == kept + [old(stack)[n]] && ic == old(rets)[|old(rets)| - 1] - 1 && rets == old(rets)[..|old(rets)| - 1])
      ensures fp == (if old(frames) == [] then old(fp) else old(frames)[|old(frames)| - 1])
      ensures frames == if old(frames) == [] then [] else old(frames)[..|old(frames)| - 1]
    {
      var v;
      v, err := Pop();
      RestoreFrame();
      DropParameters();
      err := Push(v);
      if err.Some? { return; }
      ic := rets[|rets| - 1] - 1;
      rets := rets[..|rets| - 1];
    }

    method RestoreFrame()
      modifies this`frames, this`fp
      ensures fp == (if old(frames) == [] then old(fp) else old(frames)[|old(frames)| - 1])
      ensures frames == if old(frames) == [] then [] else old(frames)[..|old(frames)| - 1]
    {
      if |frames| > 0 {
        fp := frames[|frames| - 1];
        frames := frames[..|frames| - 1];
      }
    }

    // -------------------------------------------------------------- dispatch

    /** Instructions without operands. */
    method Produce(ins: Instruction) returns (err: Failure)
      requires Fetched(ins) && (IsContext(ins.op) || ins.op == NOOP || ins.op == PUSH || ins.op == TSXDATA || ins.op == PC)
      modifies this`stack, this`mem, this`nextMem
      ensures Shows(old(Due()), err, 1) && err != Some(ProgramStopped)
    {
      ghost var c := State();
      OnNone(vm, c, ins);
      if ins.op == NOOP {
        err := None;
      } else if ins.op == PC {
        err := Some(InvalidOpcode);
      } else if ins.op == TSXDATA {
        err := PushText(cx.data, c);
      } else {
        err := Push(if ins.op == PUSH then OperandValue(ins).value else ContextValue(ins.op, cx));
      }
    }

    /** DUP and EMIT leave their operand in place. */
    method LookAtTop(ins: Instruction) returns (err: Failure)
      requires Fetched(ins) && (ins.op == DUP || ins.op == EMIT)
      modifies this`stack, this`out
      ensures Shows(old(Due()), err, 1) && err != Some(ProgramStopped)
    {
      if ins.op == DUP { err := Duplicate(ins); } else { err := EmitTop(ins); }
    }

    method Duplicate(ins: Instruction) returns (err: Failure)
      requires Fetched(ins) && ins.op == DUP
      modifies this`stack
      ensures Shows(old(Due()), err, 1) && err != Some(ProgramStopped)
    {
      ghost var c := State();
      if |stack| == 0 {
        TooFew(vm, c, ins);
        return Some(EmptyStack);
      }
      OnDuplicate(vm, c, ins);
      err := Push(stack[|stack| - 1]);
    }

    method EmitTop(ins: Instruction) returns (err: Failure)
      requires Fetched(ins) && ins.op == EMIT
      modifies this`out
      ensures Shows(old(Due()), err, 1) && err != Some(ProgramStopped)
    {
      ghost var c := State();
      if |stack| == 0 {
        TooFew(vm, c, ins);
        return Some(EmptyStack);
      }
      OnEmit(vm, c, ins);
      var v := stack[|stack| - 1];
      if Oversize(v) { return Some(Crash); }
      out := out + [Number(Abs(v))];
      return None;
    }

    method TakeOne(ins: Instruction) returns (err: Failure)
      requires Fetched(ins) && (ins.op == POP || ins.op == ISZERO || ins.op == BALANCE)
      modifies this`stack
      ensures Shows(old(Due()), err, 1) && err != Some(ProgramStopped)
    {
      if ins.op == POP { err := Discard(ins); } else if ins.op == ISZERO { err := TestZero(ins); } else { err := GetBalance(ins); }
    }

    method Discard(ins: Instruction) returns (err: Failure)
      requires Fetched(ins) && ins.op == POP
      modifies this`stack
      ensures Shows(old(Due()), err, 1) && err != Some(ProgramStopped)
    {
      ghost var c := State();
      if |stack| == 0 { TooFew(vm, c, ins); } else { OnOne(vm, c, ins); }
      var _, e := Pop();
      err := e;
    }

    method TestZero(ins: Instruction) returns (err: Failure)
      requires Fetched(ins) && ins.op == ISZERO
      modifies this`stack
      ensures Shows(old(Due()), err, 1) && err != Some(ProgramStopped)
    {
      ghost var c := State();
      if |stack| == 0 { TooFew(vm, c, ins); } else { OnOne(vm, c, ins); }
      var v;
      v, err := Pop();
      if err.Some? { return; }
      err := Push(if v == 0 then 1 else 0);
    }

    method GetBalance(ins: Instruction) returns (err: Failure)
      requires Fetched(ins) && ins.op == BALANCE
      modifies this`stack
      ensures Shows(old(Due()), err, 1) && err != Some(ProgramStopped)
    {
      ghost var c := State();
      if |stack| == 0 { TooFew(vm, c, ins); } else { OnOne(vm, c, ins); }
      var _, e := Pop();
      if e.Some? { return e; }
      err := Push(0);
    }

    method TakeIndex(ins: Instruction) returns (err: Failure)
      requires Fetched(ins) && (ins.op == SWAP || ins.op == LOAD_LOCAL)
      modifies this`stack
      ensures Shows(old(Due()), err, 1) && err != Some(ProgramStopped)
    {
      if ins.op == SWAP { err := TakeDepth(ins); } else { err := TakeLocal(ins); }
    }

    method TakeDepth(ins: Instruction) returns (err: Failure)
      requires Fetched(ins) && ins.op == SWAP
      modifies this`stack
      ensures Shows(old(Due()), err, 1) && err != Some(ProgramStopped)
    {
      ghost var c := State();
      if |stack| == 0 { TooFew(vm, c, ins); } else { OnAddress(vm, c, ins); }
      var v;
      v, err := Pop();
      if err.Some? { return; }
      err := Swapped(v, c);
    }

    method TakeLocal(ins: Instruction) returns (err: Failure)
      requires Fetched(ins) && ins.op == LOAD_LOCAL
      modifies this`stack
      ensures Shows(old(Due()), err, 1) && err != Some(ProgramStopped)
    {
      ghost var c := State();
      if |stack| == 0 { TooFew(vm, c, ins); } else { OnAddress(vm, c, ins); }
      var v;
      v, err := Pop();
      if err.Some? { return; }
      err := ReadLocal(v, c);
    }

    method TakeCell(ins: Instruction) returns (err: Failure)
      requires Fetched(ins) && (ins.op == MLOAD || ins.op == STRLEN)
      modifies this`stack
      ensures Shows(old(Due()), err, 1) && err != Some(ProgramStopped)
    {
      ghost var c := State();
      if |stack| == 0 { TooFew(vm, c, ins); } else { OnCell(vm, c, ins); }
      var v;
      v, err := Pop();
      if err.Some? { return; }
      var w;
      w, err := Load(Low64(v));
      if err.Some? { return Some(if ins.op == STRLEN then InvalidString else MemoryOutOfBounds); }
      err := Push(w);
    }

    method TakeText(ins: Instruction) returns (err: Failure)
      requires Fetched(ins) && (ins.op == STRTOINT || ins.op == INTTOSTR || ins.op == EMITSTR || ins.op == PLOAD)
      modifies this`stack, this`mem, this`nextMem, this`out
      ensures Shows(old(Due()), err, 1) && err != Some(ProgramStopped)
    {
      match ins.op
      case STRTOINT => err := ReadNumber(ins);
      case INTTOSTR => err := SpellNumber(ins);
      case EMITSTR => err := EmitTopText(ins);
      case PLOAD => err := ReadKept(ins);
    }

    method ReadNumber(ins: Instruction) returns (err: Failure)
      requires Fetched(ins) && ins.op == STRTOINT
      modifies this`stack
      ensures Shows(old(Due()), err, 1) && err != Some(ProgramStopped)
    {
      ghost var c := State();
      if |stack| == 0 { TooFew(vm, c, ins); } else { OnToInteger(vm, c, ins); }
      var v;
      v, err := Pop();
      if err.Some? { return; }
      err := TextToInteger(v, c);
    }

    method SpellNumber(ins: Instruction) returns (err: Failure)
      requires Fetched(ins) && ins.op == INTTOSTR
      modifies this`stack, this`mem, this`nextMem
      ensures Shows(old(Due()), err, 1) && err != Some(ProgramStopped)
    {
      ghost var c := State();
      if |stack| == 0 { TooFew(vm, c, ins); } else { OnToText(vm, c, ins); }
      var v;
      v, err := Pop();
      if err.Some? { return; }
      err := PushText(Decimal(Int64(v)), c);
    }

    method EmitTopText(ins: Instruction) returns (err: Failure)
      requires Fetched(ins) && ins.op == EMITSTR
      modifies this`stack, this`out
      ensures Shows(old(Due()), err, 1) && err != Some(ProgramStopped)
    {
      ghost var c := State();
      if |stack| == 0 { TooFew(vm, c, ins); } else { OnEmitText(vm, c, ins); }
      var v;
      v, err := Pop();
      if err.Some? { return; }
      err := EmitText(v, c);
    }

    method ReadKept(ins: Instruction) returns (err: Failure)
      requires Fetched(ins) && ins.op == PLOAD
      modifies this`stack, this`mem, this`nextMem
      ensures Shows(old(Due()), err, 1) && err != Some(ProgramStopped)
    {
      ghost var c := State();
      if |stack| == 0 { TooFew(vm, c, ins); } else { OnLoad(vm, c, ins); }
      var v;
      v, err := Pop();
      if err.Some? { return; }
      err := LoadPersistent(v, c);
    }

    method Calculate(ins: Instruction) returns (err: Failure)
      requires Fetched(ins) && IsArithmetic(ins.op)
      modifies this`stack
      ensures Shows(old(Due()), err, 1) && err != Some(ProgramStopped)
    {
      ghost var c := State();
      if |stack| < 2 { TooFew(vm, c, ins); } else { OnTwo(vm, c, ins); }
      var x, y;
      x, y, err := Pop2();
      if err.Some? { return; }
      err := Push(Arithmetic(ins.op, y, x));
    }

    method TakeTwo(ins: Instruction) returns (err: Failure)
      requires Fetched(ins) && (ins.op == MSTORE || ins.op == STORE_LOCAL)
      modifies this`stack, this`mem
      ensures Shows(old(Due()), err, 1) && err != Some(ProgramStopped)
    {
      ghost var c := State();
      if |stack| < 2 { TooFew(vm, c, ins); } else { OnTwo(vm, c, ins); }
      var x, y;
      x, y, err := Pop2();
      if err.Some? { return; }
      if ins.op == MSTORE { err := Save(Low64(x), y); } else { err := WriteLocal(x, y, c); }
    }

    method TakeTwoTexts(ins: Instruction) returns (err: Failure)
      requires Fetched(ins) && (ins.op == EQ || ins.op == PSTORE || ins.op == STRCONCAT || ins.op == STRINDEX)
      modifies this`stack, this`mem, this`nextMem, this`store
      ensures Shows(old(Due()), err, 1) && err != Some(ProgramStopped)
    {
      match ins.op
      case EQ => err := CompareTop(ins);
      case PSTORE => err := KeepTop(ins);
      case STRCONCAT => err := JoinTop(ins);
      case STRINDEX => err := IndexTop(ins);
    }

    method CompareTop(ins: Instruction) returns (err: Failure)
      requires Fetched(ins) && ins.op == EQ
      modifies this`stack
      ensures Shows(old(Due()), err, 1) && err != Some(ProgramStopped)
    {
      ghost var c := State();
      if |stack| < 2 { TooFew(vm, c, ins); } else { OnEquals(vm, c, ins); }
      var x, y;
      x, y, err := Pop2();
      if err.Some? { return; }
      err := Compare(y, x, c);
    }

    method KeepTop(ins: Instruction) returns (err: Failure)
      requires Fetched(ins) && ins.op == PSTORE
      modifies this`stack, this`store
      ensures Shows(old(Due()), err, 1) && err != Some(ProgramStopped)
    {
      ghost var c := State();
      if |stack| < 2 { TooFew(vm, c, ins); } else { OnStore(vm, c, ins); }
      var x, y;
      x, y, err := Pop2();
      if err.Some? { return; }
      err := StorePersistent(x, y, c);
    }

    method JoinTop(ins: Instruction) returns (err: Failure)
      requires Fetched(ins) && ins.op == STRCONCAT
      modifies this`stack, this`mem, this`nextMem
      ensures Shows(old(Due()), err, 1) && err != Some(ProgramStopped)
    {
      ghost var c := State();
      if |stack| < 2 { TooFew(vm, c, ins); } else { OnConcat(vm, c, ins); }
      var x, y;
      x, y, err := Pop2();
      if err.Some? { return; }
      err := ConcatText(y, x, c);
    }

    method IndexTop(ins: Instruction) returns (err: Failure)
      requires Fetched(ins) && ins.op == STRINDEX
      modifies this`stack, this`mem, this`nextMem
      ensures Shows(old(Due()), err, 1) && err != Some(ProgramStopped)
    {
      ghost var c := State();
      if |stack| < 2 { TooFew(vm, c, ins); } else { OnIndex(vm, c, ins); }
      var x, y;
      x, y, err := Pop2();
      if err.Some? { return; }
      err := IndexText(y, x, c);
    }

    method TakeThree(ins: Instruction) returns (err: Failure)
      requires Fetched(ins) && ins.op == STRSLICE
      modifies this`stack, this`mem, this`nextMem
      ensures Shows(old(Due()), err, 1) && err != Some(ProgramStopped)
    {
      ghost var c := State();
      if |stack| < 3 { TooFew(vm, c, ins); } else { OnThree(vm, c, ins); }
      var x, y, z;
      x, y, err := Pop2();
      if err.Some? { return; }
      z, err := Pop();
      if err.Some? { return; }
      assert stack == old(stack)[..|old(stack)| - 3];
      err := SliceText(z, y, x, c);
    }

    /** JUMP and JUMPC set the counter themselves. */
    method Jump(ins: Instruction) returns (err: Failure)
      requires Fetched(ins) && ins.op == JUMP
      modifies this`stack, this`ic
      ensures Shows(old(Due()), err, 0) && err != Some(ProgramStopped)
    {
      ghost var c := State();
      if |stack| < 1 { TooFew(vm, c, ins); } else { OnAddress(vm, c, ins); }
      var t;
      t, err := Pop();
      if err.Some? { return; }
      err := JumpWhen(t, true, c);
    }

    method JumpIf(ins: Instruction) returns (err: Failure)
      requires Fetched(ins) && ins.op == JUMPC
      modifies this`stack, this`ic
      ensures Shows(old(Due()), err, 0) && err != Some(ProgramStopped)
    {
      ghost var c := State();
      if |stack| < 2 { TooFew(vm, c, ins); } else { OnTwo(vm, c, ins); }
      var t, cond;
      t, cond, err := Pop2();
      if err.Some? { return; }
      err := JumpWhen(t, cond == 1, c);
    }

    method Calls(ins: Instruction) returns (err: Failure)
      requires Fetched(ins) && (ins.op == CALL || ins.op == RETURN || ins.op == STOP)
      modifies this`stack, this`frames, this`fp, this`rets, this`ic
      ensures Shows(old(Due()), err, 1) && (err == Some(ProgramStopped) ==> State() == old(State()))
    {
      ghost var c := State();
      if ins.op == CALL {
        if |stack| == 0 { TooFew(vm, c, ins); } else { OnAddress(vm, c, ins); }
        var target;
        target, err := Pop();
        if err.Some? { return; }
        CallFunction(target, c);
      } else {
        OnNone(vm, c, ins);
        if ins.op == RETURN { err := Return(); } else { err := Some(ProgramStopped); }
      }
    }

    /** The switch over the opcode. */
    method Perform(ins: Instruction) returns (err: Failure)
      requires Fetched(ins)
      modifies this`stack, this`mem, this`fp, this`ic, this`store, this`rets, this`frames, this`nextMem, this`out
      ensures Shows(old(Due()), err, if ins.op == JUMP || ins.op == JUMPC then 0 else 1)
      ensures err == Some(ProgramStopped) ==> State() == old(State())
    {
      var op := ins.op;
      if IsArithmetic(op) {
        err := Calculate(ins);
      } else if op == MSTORE || op == STORE_LOCAL {
        err := TakeTwo(ins);
      } else if op == EQ || op == PSTORE || op == STRCONCAT || op == STRINDEX {
        err := TakeTwoTexts(ins);
      } else if op == POP || op == ISZERO || op == BALANCE {
        err := TakeOne(ins);
      } else if op == DUP || op == EMIT {
        err := LookAtTop(ins);
      } else if op == SWAP || op == LOAD_LOCAL {
        err := TakeIndex(ins);
      } else if op == MLOAD || op == STRLEN {
        err := TakeCell(ins);
      } else if op == STRTOINT || op == INTTOSTR || op == EMITSTR || op == PLOAD {
        err := TakeText(ins);
      } else if op == STRSLICE {
        err := TakeThree(ins);
      } else if op == JUMP {
        err := Jump(ins);
      } else if op == JUMPC {
        err := JumpIf(ins);
      } else if op == CALL || op == RETURN || op == STOP {
        err := Calls(ins);
      } else {
        err := Produce(ins);
      }
    }

    /** The fields show a machine result: everything while it runs; the gas counters once it has halted, and the whole
        state if the program stopped by itself. */
    ghost predicate Displays(r: Result, err: Failure)
      reads this
    {
      match r
      case Running(m) => err.None? && Now() == m
      case Halted(m, e) => err == Some(e) && gasAvailable == m.gasAvailable && gasUsed == m.gasUsed && (e == ProgramStopped ==> Now() == m)
    }

    /** ExecuteInstruction. */
    method ExecuteInstruction() returns (err: Failure)
      requires Sound() && ic < |code|
      modifies this
      ensures Displays(old(Step(code, cx, Now(), maxStack)), err)
    {
      if ic < 0 { return Some(Crash); }
      var ins := code[ic];
      if !Valid(ins) { return Some(InvalidInstruction); }
      var price := Price(ins.op);
      if gasAvailable < price { return Some(OutOfGas); }
      StepByVm(vm, Now());
      err := Perform(ins);
      if err == Some(ProgramStopped) || err == Some(Crash) { return; }
      gasUsed := gasUsed + price;
      gasAvailable := gasAvailable - price;
      if ins.op != JUMP && ins.op != JUMPC { ic := ic + 1; }
    }

    ghost predicate Concludes(r: Final, err: Failure)
      reads this
    {
      match r
      case Finished(m) => err.None? && Now() == m
      case Failed(m, e) => err == Some(e) && gasAvailable == m.gasAvailable && gasUsed == m.gasUsed && (e == ProgramStopped ==> Now() == m)
    }

    /** StartExecution: refused on a runtime that is not clean, else the whole run. */
    method StartExecution() returns (used: nat, err: Failure)
      requires Sound()
      modifies this
      ensures old(ic) != startIC || old(stack) != [] ==> used == 0 && err == Some(NotClean) && Now() == old(Now())
      ensures old(ic) == startIC && old(stack) == [] ==> used == gasUsed && Concludes(old(Execute(code, cx, Now(), maxStack)), err)
    {
      if ic != startIC || stack != [] { return 0, Some(NotClean); }
      while ic < |code|
        invariant Execute(code, cx, Now(), maxStack) == old(Execute(code, cx, Now(), maxStack))
        decreases gasAvailable
      {
        ghost var m := Now();
        StepCharges(code, cx, m, maxStack);
        err := ExecuteInstruction();
        if err.Some? { return gasUsed, err; }
      }
      return gasUsed, None;
    }
  }
}
