/** The August virtual machine as a transition function (avm/runtime.go). A `Core` is everything
    but the gas counters; `CoreStep` executes one instruction and `Step` adds gas metering. */
module Avm {
  import opened Text
  import opened Bytecode
  import Words

  const MAX_STACK: nat := 10000
  const MAX_MEMORY: nat := 10000
  const MAX_STRING: nat := 1000000
  const FIRST_DYNAMIC: nat := 100

  datatype Event = Number(word: nat) | Chars(text: Bytes)

  /** `Crash` is a Go run-time panic. Only the error and the gas counters of a halted run are ever
      looked at (execution/execution.go), so a halted machine keeps no stack here. */
  datatype Error =
    | OutOfGas | StackOverflow | EmptyStack | InvalidJump | InvalidOpcode | MemoryOutOfBounds
    | ProgramStopped | InvalidSwap | InvalidOffset | InvalidInstruction | InvalidString | NotClean | Crash

  datatype Context = Context(
    blockNumber: nat, blockHash: nat, lastBlockHash: nat, timestamp: nat, difficulty: nat,
    gasLimit: nat, coinbase: nat, caller: nat, origin: nat, gasPrice: nat, callValue: nat,
    contractAddress: nat, data: Bytes)

  type Memory = map<nat, int>
  type Storage = map<Bytes, Bytes>

  datatype Core = Core(
    stack: seq<int>, mem: Memory, fp: int, ic: int, store: Storage,
    rets: seq<int>, frames: seq<int>, nextMem: nat, out: seq<Event>)

  datatype Outcome = Next(core: Core) | Halt(error: Error)

  // ---------------------------------------------------------------- memory and strings

  function Cell(m: Memory, a: nat): int { if a in m then m[a] else 0 }

  function Chunks(n: nat): nat { (n + 31) / 32 }

  /** The i-th 32-byte chunk of a string, padded with zeros. */
  function Chunk(s: Bytes, i: nat): (r: Bytes)
    ensures |r| == 32
  {
    seq(32, j requires 0 <= j < 32 => if 32 * i + j < |s| then s[32 * i + j] else 0)
  }

  /** Memory after storing a string at `a`: its length, then its chunks big-endian. Stores beyond
      the limit fail and are ignored. */
  function Written(m: Memory, a: nat, s: Bytes): Memory {
    m + map b: nat | b < MAX_MEMORY && InBlock(a, |s|, b) :: if b == a then |s| else FromBytes(Chunk(s, b - a - 1))
  }

  /** A store beyond the limit fails and changes nothing. */
  function Put(m: Memory, a: nat, v: int): Memory { if a < MAX_MEMORY then m[a := v] else m }

  /** Memory after storing the length and the first `i` chunks, one by one. */
  function WrittenTo(m: Memory, a: nat, s: Bytes, i: nat): Memory {
    if i == 0 then Put(m, a, |s|) else Put(WrittenTo(m, a, s, i - 1), a + i, FromBytes(Chunk(s, i - 1)))
  }

  lemma {:induction false} WrittenToAt(m: Memory, a: nat, s: Bytes, i: nat, b: nat)
    ensures var w := WrittenTo(m, a, s, i);
      && (b in w <==> b in m || (a <= b <= a + i && b < MAX_MEMORY))
      && (b in w ==> w[b] == if b == a < MAX_MEMORY then |s| else if a < b <= a + i && b < MAX_MEMORY then FromBytes(Chunk(s, b - a - 1)) else m[b])
  {
    if i > 0 { WrittenToAt(m, a, s, i - 1, b); }
  }

  /** Chunk by chunk or all at once. */
  lemma WrittenToEnd(m: Memory, a: nat, s: Bytes)
    ensures WrittenTo(m, a, s, Chunks(|s|)) == Written(m, a, s)
  {
    var x, y := WrittenTo(m, a, s, Chunks(|s|)), Written(m, a, s);
    forall b: nat ensures (b in x <==> b in y) && (b in x ==> x[b] == y[b]) {
      WrittenToAt(m, a, s, Chunks(|s|), b);
      assert InBlock(a, |s|, b) <==> a <= b <= a + Chunks(|s|);
    }
  }

  /** The cells of a string of `n` bytes stored at `a`. */
  predicate InBlock(a: nat, n: nat, b: nat) { a <= b <= a + Chunks(n) }

  /** FillBytes panics on a cell of more than 32 bytes. */
  predicate Oversize(v: int) { Abs(v) >= Words.MOD }

  predicate BadChunk(m: Memory, a: nat, i: nat) { a + 1 + i < MAX_MEMORY && Oversize(Cell(m, a + 1 + i)) }

  /** Byte `j` of the string whose chunks start after `a`. */
  function ByteAt(m: Memory, a: nat, j: nat): Byte {
    ByteOf(Abs(Cell(m, a + 1 + j / 32)), 31 - j % 32)
  }

  datatype Read = Str(text: Bytes) | Missing | Panics

  /** Reading `n` bytes chunk by chunk from `a + 1`: chunks are visited in order, so an oversized
      cell panics only if it comes before the first cell out of bounds. */
  function ReadRaw(m: Memory, a: nat, n: nat): Read {
    if exists i :: 0 <= i < Chunks(n) && BadChunk(m, a, i) then Panics
    else if n > 0 && a + Chunks(n) >= MAX_MEMORY then Missing
    else Str(seq(n, j requires 0 <= j < n => ByteAt(m, a, j)))
  }

  /** readStringFromMemory: the empty string for anything that is no string. */
  function ReadString(m: Memory, a: nat): Read {
    if a >= MAX_MEMORY then Str([])
    else
      var n := Low64(Cell(m, a));
      if n == 0 || n > MAX_STRING then Str([])
      else
        var r := ReadRaw(m, a, n);
        if r.Missing? then Str([]) else r
  }

  // ---------------------------------------------------------------- stack effects

  /** Pushes `v` on `st` and moves on; a limit of 0 means no limit. */
  function PushOn(c: Core, st: seq<int>, v: int, limit: nat): Outcome {
    if limit > 0 && |st| >= limit then Halt(StackOverflow)
    else Next(c.(stack := st + [v], ic := c.ic + 1))
  }

  /** Stores a string in dynamic memory and pushes its address on `st`. */
  function PushString(c: Core, st: seq<int>, s: Bytes, limit: nat): Outcome {
    var c' := c.(mem := Written(c.mem, c.nextMem, s), nextMem := c.nextMem + 1 + Chunks(|s|));
    PushOn(c', st, Wrap(c.nextMem), limit)
  }

  function Padded(st: seq<int>, n: nat): (r: seq<int>)
    ensures |r| == if |st| < n then n else |st|
  {
    if |st| < n then st + seq(n - |st|, _ => 0) else st
  }

  // ---------------------------------------------------------------- operations by kind

  function Arithmetic(op: Opcode, a: int, b: int): int {
    match op
    case ADD => Words.Add(a, b)
    case SUB => Words.Sub(a, b)
    case MUL => Words.Mul(a, b)
    case DIV => Words.Div(a, b)
    case MOD => Words.Rem(a, b)
    case AND => Words.BitAnd(a % Words.MOD, b % Words.MOD)
    case OR => Words.BitOr(a % Words.MOD, b % Words.MOD) % Words.MOD
    case LT => Words.Bit(Words.Less(a, b))
    case _ => Words.Bit(Words.Less(b, a))
  }

  predicate IsArithmetic(op: Opcode) {
    match op case ADD | SUB | MUL | DIV | MOD | AND | OR | LT | GT => true case _ => false
  }

  /** EQ compares text when both operands are addresses of non-empty strings. */
  function Equals(c: Core, st: seq<int>, a: int, b: int, limit: nat): Outcome {
    var rb := if Low64(b) < 1000000 then ReadString(c.mem, Low64(b)) else Str([]);
    var ra := if Low64(a) < 1000000 then ReadString(c.mem, Low64(a)) else Str([]);
    if rb.Panics? || ra.Panics? then Halt(Crash)
    else if ra.Str? && rb.Str? && ra.text != [] && rb.text != [] then
      PushOn(c, st, Words.Bit(ra.text == rb.text), limit)
    else PushOn(c, st, Words.Bit(a == b), limit)
  }

  function JumpTo(code: nat, c: Core, st: seq<int>, t: int, taken: bool): Outcome {
    var target := Wrap(Low64(t));
    if target < 0 || target >= code then Halt(InvalidJump)
    else Next(c.(stack := st, ic := if taken then target else c.ic + 1))
  }

  /** The storage key for an operand: the text it points to, or its decimal digits. */
  function KeyOf(m: Memory, v: int): Read {
    var r := ReadString(m, Low64(v));
    if r.Str? && r.text == [] then Str(Decimal(Low64(v))) else r
  }

  function ValueOf(m: Memory, v: int): Read {
    var r := ReadString(m, Low64(v));
    if r.Str? && r.text == [] then Str(Decimal(v)) else r
  }

  function StoreLocal(c: Core, st: seq<int>, offset: int, v: int): Outcome {
    var i := c.fp + Wrap(Low64(offset));
    if i < 0 then Halt(InvalidOffset)
    else Next(c.(stack := Padded(st, i + 1)[i := v], ic := c.ic + 1))
  }

  function LoadLocal(c: Core, st: seq<int>, offset: int, limit: nat): Outcome {
    var i := c.fp + Wrap(Low64(offset));
    if i < 0 then Halt(InvalidOffset)
    else var p := Padded(st, i + 1); PushOn(c, p, p[i], limit)
  }

  function Swap(c: Core, st: seq<int>, k: int): Outcome {
    var i, n := Wrap(Low64(k)), |st|;
    if i >= n then Halt(InvalidSwap)
    else if n == 0 then Halt(EmptyStack)
    else if i < 0 then Halt(Crash)
    else Next(c.(stack := st[n - 1 := st[n - 1 - i]][n - 1 - i := st[n - 1]], ic := c.ic + 1))
  }

  /** CALL and RETURN assume two parameters. */
  function Enter(c: Core, st: seq<int>, target: int): Outcome {
    Next(c.(stack := st, frames := c.frames + [c.fp], fp := |st| - 2,
            rets := c.rets + [c.ic + 1], ic := Wrap(Low64(target))))
  }

  function Leave(c: Core, limit: nat): Outcome {
    if c.rets == [] then Halt(ProgramStopped)
    else if c.stack == [] then Halt(EmptyStack)
    else
      var st, v := c.stack[..|c.stack| - 1], c.stack[|c.stack| - 1];
      var kept := if |st| >= 2 then st[..|st| - 2] else [];
      if limit > 0 && |kept| >= limit then Halt(StackOverflow)
      else
        var framed := c.frames != [];
        Next(c.(stack := kept + [v], ic := c.rets[|c.rets| - 1], rets := c.rets[..|c.rets| - 1],
                fp := if framed then c.frames[|c.frames| - 1] else c.fp,
                frames := if framed then c.frames[..|c.frames| - 1] else c.frames))
  }

  /** STRCONCAT. Its error variable is shadowed in the source, so every failure after the operands
      were popped goes unreported: nothing is pushed and execution continues. */
  function Concat(c: Core, st: seq<int>, p1: int, p2: int, limit: nat): Outcome {
    var a1, a2 := Low64(p1), Low64(p2);
    var silent := Next(c.(stack := st, ic := c.ic + 1));
    if a1 >= MAX_MEMORY || a2 >= MAX_MEMORY then silent
    else
      var r1 := ReadRaw(c.mem, a1, Low64(Cell(c.mem, a1)));
      var r2 := ReadRaw(c.mem, a2, Low64(Cell(c.mem, a2)));
      if r1.Panics? || r2.Panics? then Halt(Crash)
      else if r1.Missing? || r2.Missing? then silent
      else
        var s := r1.text + r2.text;
        var c' := c.(mem := Written(c.mem, c.nextMem, s), stack := st, ic := c.ic + 1);
        if c.nextMem + Chunks(|s|) >= MAX_MEMORY then Next(c')
        else
          var c'' := c'.(nextMem := c.nextMem + 1 + Chunks(|s|));
          if limit > 0 && |st| >= limit then Next(c'') else Next(c''.(stack := st + [Wrap(c.nextMem)]))
  }

  /** string(b) converts the byte to a code point and encodes that in UTF-8. */
  function CharText(b: Byte): Bytes {
    if b < 128 then [b] else [0xC0 + b / 64, 0x80 + b % 64]
  }

  function IndexString(c: Core, st: seq<int>, p: int, index: int, limit: nat): Outcome {
    var r, i := ReadString(c.mem, Low64(p)), Int64(index);
    if !r.Str? then Halt(Crash)
    else if i < 0 || i >= |r.text| then Halt(InvalidString)
    else PushString(c, st, CharText(r.text[i]), limit)
  }

  function SliceString(c: Core, st: seq<int>, p: int, start: int, end: int, limit: nat): Outcome {
    var r, i := ReadString(c.mem, Low64(p)), Int64(start);
    if !r.Str? then Halt(Crash)
    else
      var j := if Int64(end) == 999999 then |r.text| else Int64(end);
      if i < 0 || i > |r.text| || j < i || j > |r.text| then Halt(InvalidString)
      else PushString(c, st, r.text[i..j], limit)
  }

  /** STRTOINT accumulates in an int64 that wraps. */
  function Accumulate(s: Bytes): int {
    if s == [] then 0 else Wrap(10 * Accumulate(s[..|s| - 1]) + (s[|s| - 1] as int - 48))
  }

  predicate AllDecimal(s: Bytes) { forall i :: 0 <= i < |s| ==> IsDigit(s[i]) }

  function ParseInt(s: Bytes): Option<int> {
    var negative := s != [] && s[0] == MINUS;
    var body := if negative then s[1..] else s;
    if body == [] || !AllDecimal(body) then None
    else Some(if negative then Wrap(-Accumulate(body)) else Accumulate(body))
  }

  function ToInteger(c: Core, st: seq<int>, p: int, limit: nat): Outcome {
    var r := ReadString(c.mem, Low64(p));
    if !r.Str? then Halt(Crash)
    else match ParseInt(r.text)
         case None => Halt(InvalidString)
         case Some(v) => PushOn(c, st, v, limit)
  }

  function EmitString(c: Core, st: seq<int>, p: int): Outcome {
    var a := Low64(p);
    if a >= MAX_MEMORY then Halt(InvalidString)
    else match ReadRaw(c.mem, a, Low64(Cell(c.mem, a)))
         case Panics => Halt(Crash)
         case Missing => Halt(InvalidString)
         case Str(s) => Next(c.(stack := st, ic := c.ic + 1, out := c.out + [Chars(s)]))
  }

  function ContextValue(op: Opcode, cx: Context): int {
    match op
    case CALLER => cx.caller
    case ADDRESS => cx.contractAddress
    case ORIGIN => cx.origin
    case GASPRICE => Wrap(cx.gasPrice)
    case CALLVALUE => Wrap(cx.callValue)
    case TIMESTAMP => Wrap(cx.timestamp)
    case DIFFICULTY => Wrap(cx.difficulty)
    case BLOCKHASH => cx.blockHash
    case LASTBLOCKHASH => cx.lastBlockHash
    case COINBASE => cx.coinbase
    case HEIGHT => Wrap(cx.blockNumber)
    case _ => Wrap(cx.gasLimit)
  }

  predicate IsContext(op: Opcode) {
    match op
    case CALLER | ADDRESS | ORIGIN | GASPRICE | CALLVALUE | TIMESTAMP | DIFFICULTY | BLOCKHASH => true
    case LASTBLOCKHASH | COINBASE | HEIGHT | GASLIMIT => true
    case _ => false
  }

  // ---------------------------------------------------------------- one instruction

  /** How many operands an opcode pops before anything else. */
  function Arity(op: Opcode): nat {
    match op
    case POP | SWAP | ISZERO | JUMP | MLOAD | PLOAD | LOAD_LOCAL | CALL | STRLEN | EMITSTR => 1
    case STRTOINT | INTTOSTR | BALANCE | DUP | EMIT => 1
    case ADD | SUB | MUL | DIV | MOD | AND | OR | LT | GT => 2
    case EQ | JUMPC | MSTORE | PSTORE | STORE_LOCAL | STRCONCAT | STRINDEX => 2
    case STRSLICE => 3
    case _ => 0
  }

  /** Effect of an opcode whose operands are present. `st` is the stack without them, `x` the top,
      `y` and `z` the operands below it. */
  function Apply(code: nat, cx: Context, c: Core, ins: Instruction, st: seq<int>, x: int, y: int, z: int,
                 limit: nat): Outcome
    requires Valid(ins)
  {
    var moved := c.(stack := st, ic := c.ic + 1);
    if IsArithmetic(ins.op) then PushOn(c, st, Arithmetic(ins.op, y, x), limit)
    else if IsContext(ins.op) then PushOn(c, st, ContextValue(ins.op, cx), limit)
    else match ins.op
         case NOOP | POP => Next(moved)
         case PUSH => PushOn(c, st, OperandValue(ins).value, limit)
         case DUP => PushOn(c, st + [x], x, limit)
         case SWAP => Swap(c, st, x)
         case EQ => Equals(c, st, y, x, limit)
         case ISZERO => PushOn(c, st, Words.Bit(x == 0), limit)
         case JUMP => JumpTo(code, c, st, x, true)
         case JUMPC => JumpTo(code, c, st, x, y == 1)
         case MSTORE =>
           if Low64(x) >= MAX_MEMORY then Halt(MemoryOutOfBounds) else Next(moved.(mem := c.mem[Low64(x) := y]))
         case MLOAD =>
           if Low64(x) >= MAX_MEMORY then Halt(MemoryOutOfBounds) else PushOn(c, st, Cell(c.mem, Low64(x)), limit)
         case PSTORE =>
           var k, v := KeyOf(c.mem, x), ValueOf(c.mem, y);
           if !k.Str? || !v.Str? then Halt(Crash) else Next(moved.(store := c.store[k.text := v.text]))
         case PLOAD =>
           var k := KeyOf(c.mem, x);
           if !k.Str? then Halt(Crash)
           else PushString(c, st, if k.text in c.store then c.store[k.text] else [], limit)
         case LOAD_LOCAL => LoadLocal(c, st, x, limit)
         case STORE_LOCAL => StoreLocal(c, st, x, y)
         case CALL => Enter(c, st, x)
         case RETURN => Leave(c, limit)
         case STOP => Halt(ProgramStopped)
         case EMIT =>
           if Oversize(x) then Halt(Crash)
           else Next(moved.(stack := st + [x], out := c.out + [Number(Abs(x))]))
         case STRCONCAT => Concat(c, st, y, x, limit)
         case STRLEN =>
           if Low64(x) >= MAX_MEMORY then Halt(InvalidString) else PushOn(c, st, Cell(c.mem, Low64(x)), limit)
         case EMITSTR => EmitString(c, st, x)
         case STRINDEX => IndexString(c, st, y, x, limit)
         case STRSLICE => SliceString(c, st, z, y, x, limit)
         case STRTOINT => ToInteger(c, st, x, limit)
         case INTTOSTR => PushString(c, st, Decimal(Int64(x)), limit)
         case BALANCE => PushOn(c, st, 0, limit)
         case TSXDATA => PushString(c, st, cx.data, limit)
         case _ => Halt(InvalidOpcode)
  }

  function Nth(st: seq<int>, k: nat): int { if k < |st| then st[|st| - 1 - k] else 0 }

  /** One instruction without gas. An instruction counter outside the program makes Go index out of
      range; the driver never lets it get past the end. */
  function CoreStep(p: seq<Instruction>, cx: Context, c: Core, limit: nat): Outcome {
    if c.ic < 0 || c.ic >= |p| then Halt(Crash)
    else if !Valid(p[c.ic]) then Halt(InvalidInstruction)
    else
      var k := Arity(p[c.ic].op);
      if |c.stack| < k then Halt(EmptyStack)
      else Apply(|p|, cx, c, p[c.ic], c.stack[..|c.stack| - k], Nth(c.stack, 0), Nth(c.stack, 1), Nth(c.stack, 2), limit)
  }

  /** A program, its context and stack limit, and the step function they give. */
  datatype Vm = Vm(p: seq<Instruction>, cx: Context, limit: nat, step: Core -> Outcome)

  ghost predicate Genuine(vm: Vm) {
    forall c {:trigger CoreStep(vm.p, vm.cx, c, vm.limit)} :: vm.step(c) == CoreStep(vm.p, vm.cx, c, vm.limit)
  }

  // ---------------------------------------------------------------- gas

  datatype Machine = Machine(core: Core, gasAvailable: nat, gasUsed: nat)

  datatype Result = Running(m: Machine) | Halted(m: Machine, error: Error)

  function Charge(m: Machine, op: Opcode): Machine
    requires m.gasAvailable >= Price(op)
  {
    m.(gasAvailable := m.gasAvailable - Price(op), gasUsed := m.gasUsed + Price(op))
  }

  /** ExecuteInstruction: an instruction that fails while executing is still paid for; one that is
      invalid, unaffordable, panics or stops the program is not. */
  function Step(p: seq<Instruction>, cx: Context, m: Machine, limit: nat): Result {
    if m.core.ic < 0 || m.core.ic >= |p| then Halted(m, Crash)
    else
      var ins := p[m.core.ic];
      if !Valid(ins) then Halted(m, InvalidInstruction)
      else if m.gasAvailable < Price(ins.op) then Halted(m, OutOfGas)
      else match CoreStep(p, cx, m.core, limit)
           case Next(c) => Running(Charge(m, ins.op).(core := c))
           case Halt(e) =>
             if e == ProgramStopped || e == Crash then Halted(m, e) else Halted(Charge(m, ins.op), e)
  }

  /** The program ran off its end, or stopped with an error. */
  datatype Final = Finished(m: Machine) | Failed(m: Machine, error: Error)

  lemma StepCharges(p: seq<Instruction>, cx: Context, m: Machine, limit: nat)
    ensures var r := Step(p, cx, m, limit);
      r.Running? ==> r.m.gasAvailable < m.gasAvailable
    ensures var r := Step(p, cx, m, limit);
      r.m.gasAvailable + r.m.gasUsed == m.gasAvailable + m.gasUsed
  {
  }

  /** StartExecution. Every step that continues costs gas, so this terminates. */
  function Execute(p: seq<Instruction>, cx: Context, m: Machine, limit: nat): Final
    decreases m.gasAvailable
  {
    if m.core.ic >= |p| then Finished(m)
    else
      StepCharges(p, cx, m, limit);
      match Step(p, cx, m, limit)
      case Running(m') => Execute(p, cx, m', limit)
      case Halted(m', e) => Failed(m', e)
  }

  /** NewRuntimeWithIC. */
  function Fresh(gas: nat, start: int, store: Storage): Machine {
    Machine(Core([], map[], 0, start, store, [], [], FIRST_DYNAMIC, []), gas, 0)
  }
}
