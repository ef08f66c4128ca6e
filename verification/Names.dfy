/** The names that codegen keeps for itself, and looks for before it looks for variables and functions of the contract. */
module Names {
  import opened Text
  import opened Bytecode
  import opened Ast

  /** The blockchain context variables (marigold/chainidents.go). */
  function ContextName(i: nat): (string, Opcode) {
    match i
    case 0 => ("@caller", CALLER)
    case 1 => ("@address", ADDRESS)
    case 2 => ("@balance", BALANCE)
    case 3 => ("@origin", ORIGIN)
    case 4 => ("@gasprice", GASPRICE)
    case 5 => ("@callvalue", CALLVALUE)
    case 6 => ("@timestamp", TIMESTAMP)
    case 7 => ("@difficulty", DIFFICULTY)
    case 8 => ("@coinbase", COINBASE)
    case 9 => ("@height", HEIGHT)
    case 10 => ("@gaslimit", GASLIMIT)
    case _ => ("@tsxdata", TSXDATA)
  }

  function ContextFrom(x: string, i: nat): Option<Opcode>
    requires i <= 12
    decreases x, 12 - i
  {
    if i == 12 then None else if ContextName(i).0 == x then Some(ContextName(i).1) else ContextFrom(x, i + 1)
  }

  /** Reading a context variable is one opcode, whether or not a local of that name was assigned. */
  function ContextOpcode(x: string): Option<Opcode> { ContextFrom(x, 0) }

  /** An expression codegen knows to be a string although no literal or string variable is involved. */
  predicate IsText(e: Expr) {
    && e.Identifier? && ContextOpcode(e.name).Some?
    && ContextOpcode(e.name).value in {CALLER, ADDRESS, ORIGIN, COINBASE, TSXDATA}
  }

  /** How a call of a name is compiled: as a user function, never, or as built-in opcodes after `arity` arguments. */
  datatype Treatment = Ordinary | Refused | Builtin(arity: nat, ops: seq<Instruction>)

  /** The names generateCall looks for before it looks for a function. `len` and `int` ask for a string argument. */
  function BuiltinName(i: nat): (string, Treatment) {
    match i
    case 0 => ("len", Refused)
    case 1 => ("int", Refused)
    case 2 => ("string", Builtin(1, [Op(INTTOSTR)]))
    case 3 => ("emit_str", Builtin(1, [Op(EMITSTR)]))
    case 4 => ("str_concat", Builtin(2, [Op(STRCONCAT)]))
    case 5 => ("str_len", Builtin(1, [Op(STRLEN)]))
    case _ => ("float", Builtin(1, []))
  }

  function BuiltinFrom(f: string, i: nat): Treatment
    requires i <= 7
    decreases f, 7 - i
  {
    if i == 7 then Ordinary else if BuiltinName(i).0 == f then BuiltinName(i).1 else BuiltinFrom(f, i + 1)
  }

  function BuiltinOf(f: string): Treatment { BuiltinFrom(f, 0) }
}
