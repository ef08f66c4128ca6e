/** Opcodes, gas prices and instructions (types/bytecode.go). */
module Bytecode {
  import opened Text

  datatype Opcode =
    | NOOP | PC | PUSH | POP | DUP | SWAP
    | ADD | SUB | MUL | DIV | MOD | AND | OR
    | EQ | LT | GT | ISZERO | JUMP | JUMPC
    | MSTORE | MLOAD | PSTORE | PLOAD | LOAD_LOCAL | STORE_LOCAL
    | CALL | RETURN | STOP | EMIT
    | STRCONCAT | STRLEN | EMITSTR | STRINDEX | STRSLICE | STRTOINT | INTTOSTR
    | CALLER | ADDRESS | BALANCE | ORIGIN | GASPRICE | CALLVALUE | TIMESTAMP | DIFFICULTY
    | BLOCKHASH | LASTBLOCKHASH | COINBASE | HEIGHT | GASLIMIT | TSXDATA
    | UNKNOWN(code: nat)

  /** PC has no entry in the price table, so Go's zero value applies to it. */
  function Price(op: Opcode): nat {
    match op
    case PC | STOP => 0
    case NOOP => 1
    case POP | CALLER | ADDRESS | ORIGIN | GASPRICE | CALLVALUE | TIMESTAMP | DIFFICULTY => 2
    case COINBASE | HEIGHT | GASLIMIT | TSXDATA => 2
    case PUSH | DUP | SWAP | ADD | SUB | AND | OR | EQ | LT | GT | ISZERO | LOAD_LOCAL | STORE_LOCAL => 3
    case MUL | DIV | MOD => 5
    case JUMP | RETURN => 8
    case JUMPC | CALL | STRLEN => 10
    case MLOAD => 15
    case MSTORE | STRINDEX | BLOCKHASH | LASTBLOCKHASH => 20
    case STRTOINT | INTTOSTR => 25
    case STRSLICE => 30
    case STRCONCAT => 50
    case EMIT => 100
    case EMITSTR => 150
    case BALANCE => 400
    case PSTORE | PLOAD => 1000
    case UNKNOWN(_) => 65535
  }

  /** The text of an operand, by the way it was printed: "0x%x" of a number or of a 32-byte chunk, a
      decimal number, or anything else. `Spell` gives the text itself. */
  datatype Operand = Hex(n: nat) | HexBytes(bytes: Bytes) | Dec(value: int) | Malformed(text: string)

  datatype Instruction = Instruction(op: Opcode, operand: Option<Operand>)

  function Meaning(o: Operand): Option<int> {
    match o
    case Hex(n) => Some(n)
    case HexBytes(bs) => if bs == [] then None else Some(FromBytes(bs))
    case Dec(v) => Some(v)
    case Malformed(_) => None
  }

  /** The number a PUSH pushes; no text reads as 0. */
  function OperandValue(ins: Instruction): Option<int> {
    if ins.operand.None? then Some(0) else Meaning(ins.operand.value)
  }

  /** ValidateInstruction: a known opcode, a non-negative number on PUSH and nothing elsewhere.
      (A text containing ",param=" is no number, so the source's extra test for it adds no case.) */
  predicate Valid(ins: Instruction) {
    && !ins.op.UNKNOWN?
    && (ins.op.PUSH? ==> ins.operand.Some? && OperandValue(ins).Some? && OperandValue(ins).value >= 0)
    && (!ins.op.PUSH? ==> ins.operand.None?)
  }

  /** MakeInstruction. */
  function Op(op: Opcode): Instruction { Instruction(op, None) }

  /** MakeInstructionWithValue(PUSH, v) for a non-negative Go integer. */
  function Push(n: nat): Instruction { Instruction(PUSH, Some(Hex(n))) }

  /** MakeInstructionWithValue(PUSH, v) for the text of an integer literal. */
  function PushLiteral(n: nat): Instruction { Instruction(PUSH, Some(Dec(n))) }

  // ---------------------------------------------------------------- the text behind an operand

  function Spell(o: Operand): string {
    match o
    case Hex(n) => "0x" + HexDigits(n)
    case HexBytes(bs) => "0x" + HexOfBytes(bs)
    case Dec(v) => DecText(v)
    case Malformed(t) => t
  }

  /** GetValueAsBigInt: hexadecimal after "0x", decimal otherwise; the empty text reads as 0. */
  function Scan(t: string): Option<int> {
    if t == "" then Some(0)
    else if |t| >= 2 && t[..2] == "0x" then ParseSigned(t[2..], 16)
    else ParseSigned(t, 10)
  }

  /** What the compiler prints is what the machine reads. */
  lemma SpellScan(o: Operand)
    requires !o.Malformed?
    ensures Scan(Spell(o)) == Meaning(o)
  {
    match o
    case Hex(n) =>
      HexDigitsParse(n);
      assert Spell(o)[2..] == HexDigits(n);
    case HexBytes(bs) =>
      HexOfBytesParse(bs);
      assert Spell(o)[2..] == HexOfBytes(bs);
    case Dec(v) =>
      DecTextParse(v);
  }
}
