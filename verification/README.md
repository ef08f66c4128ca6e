# August in Dafny

A model of August, a Go blockchain with its own contract language, and proofs about it. The project follows the program
from source text to chain tip:

- **Marigold** (`Parser`, `Rendering`, `Parentheses`, `Precedence`, `Ast`, `Names`, `Codegen`, `Generator`): the recursive-descent expression parser, its inverse,
  and why no parenthesis of that inverse can be dropped;
  the one-pass code generator as a class that appends instructions and patches jump targets in place, proved to emit the code
  that `Codegen` describes with all targets known.
- **The virtual machine** (`Words`, `Operators`, `Bytecode`, `Avm`, `Transitions`, `Gas`, `Strings`, `Persistence`, `Entry`, `Interpreter`): 256-bit
  arithmetic; a transition function for every opcode; the runtime object with its fields and loops, proved to follow it; gas,
  the string heap and persistent storage over whole runs.
- **Compiler correctness** (`Semantics`, `Layout`, `Runs`, `Instructions`, `Simulation`, `Linker`, `Metering`, `Sample`,
  `Shadowing`): a big-step meaning of
  source programs, and the proof that the compiled contract, run with gas and a bounded stack, does exactly that.
- **The ledger** (`Ledger`, `Supply`, `Charges`, `Blocks`, `Accounting`, `Replay`, `Mining` on values; `Accounts`, `ChainState` on shared mutable objects):
  validation, application, blocks and mining; conservation, replay safety, miner and validator agreement.
- **The node** (`GasPriceQueue`, `Mempool`, `ForkChoice`): the mempool's heap and index; fork choice, header by header.
- **Roots and targets** (`Merkle`, `Roots`, `Compact`).

`dafny verify dfyconfig.toml` checks everything.

## How to read it

Go's `big.Int` is `int`; `uint64` and `int` conversions are written out (`Low64`, `Wrap`, `U64`). A Go panic is an outcome of its
own. Signatures, hashes, contract addresses, validation verdicts and what peers answer are function-valued parameters, so every
theorem holds for all of them; injectivity is assumed only where a statement says so. Time is an argument. Several modules hand a
large function around as a value (`Vm`, `Spec`, `View`, `Measure`, `Book`) together with a predicate that says which function it is.

Where the code and its comments or its documentation disagree, the model follows the code. `signedDiv` is Euclidean although its
comment says that it truncates; STRCONCAT's errors are lost because its error variable is shadowed; MOD works on raw operands; the
default RETURN of a function depends on whatever opcode happens to be last; a call with value is credited twice; a
transaction to nobody is free and can be repeated; a deployment destroys what its address holds; a transaction that carries code and is sent to a contract deploys instead of calling; built-in names
and context variables win over a contract's own; a header whose total work does not add up is treated as a fork. Where such a thing makes
a promised property false, there is a lemma with the failing case and a theorem with the exact condition.

The compiler theorem is about the integer fragment: arithmetic, comparisons, unary operators, locals, assignment, if/else, while,
break, continue, return, emit of integers and calls of two-parameter functions. Its conditions are those of `Metering.InFragment`,
which can be checked on the source: codegen accepts it, there are no string literals (so memory stays empty and EQ compares
numbers), a body that ends in an emitted RETURN returns on every path and only the first body may be empty, called functions have
no locals beyond their two parameters, and addresses fit an `int`. Variables have type int or bool. Variables must be assigned
before they are read, and neither variables nor called functions may have one of the names in `Names` (the context variables
`@caller` to `@tsxdata`, and `len`, `int`, `string`, `float`, `emit_str`, `str_concat`, `str_len`), which codegen compiles to
opcodes of its own; the source semantics calls a run that breaks these two rules wrong, and `Shadowing` shows what the compiled
code then does. Integer literals are represented by their values, which is to say by canonical decimal text.

## Model

| member | source | states |
|---|---|---|
| Words.SignedRoundTrip | avm/runtime.go:23-45 | toSigned256 then toUnsigned256 is the identity on every 256-bit word |
| Words.UnsignedRoundTrip | avm/runtime.go:23-45 | toUnsigned256 then toSigned256 is the identity on every number of the signed range |
| Words.UnsignedIsResidue | avm/runtime.go:35-45 | toUnsigned256 is the residue modulo 2^256 from -2^256 up |
| Words.AddIsModular | avm/runtime.go:47-58 | signedAdd of any two words is addition modulo 2^256 and stays a word |
| Words.SubIsModular | avm/runtime.go:60-71 | signedSub of any two words is subtraction modulo 2^256 and stays a word |
| Words.MulIsModularExactly | avm/runtime.go:73-84 | signedMul is multiplication modulo 2^256 if and only if the signed product is at least -2^256 |
| Words.DivTruncatesExactly | avm/runtime.go:86-103 | signedDiv is the Euclidean quotient; it truncates toward zero, as its comment says, if and only if the dividend is non-negative or divides evenly |
| Words.RemainderExactly | avm/runtime.go:417-429 | MOD, on raw operands, is the remainder of the signed DIV if and only if the operands are in one of four ranges, both non-negative among them |
| Operators.MachineComparisons | avm/runtime.go:481-504 | LT and GT on the words of two signed numbers compare the numbers |
| Operators.MachineArithmetic | avm/runtime.go:351-429 | ADD, SUB, MUL, DIV and MOD on the words of two numbers give the word of the sum, difference, product, Euclidean quotient and remainder |
| Operators.MachineBits | avm/runtime.go:430-447 | every bit of AND and OR is the conjunction and disjunction of the operands' bits |
| Operators.SourceComparisons | marigold/codegen.go:546-600 | the six comparisons of the source compare signed numbers |
| Operators.SourceArithmetic | marigold/codegen.go:546-620 | the source's operators calculate with signed numbers modulo 2^256 |
| Bytecode.SpellScan | types/bytecode.go:308-348 | the operand text MakeInstructionWithValue prints is read back by GetValueAsBigInt as the same number |
| Avm.StepCharges | avm/runtime.go:333-346 | an instruction that lets execution continue uses gas, and used plus available gas never changes |
| Avm.WrittenToEnd | avm/runtime.go:1183-1215 | storing a string chunk by chunk, stores past the limit failing, gives the memory described cell by cell |
| Gas.FreeInstructionsHalt | types/bytecode.go:158-215 | an instruction of price zero (STOP, the unimplemented PC) always halts |
| Gas.Metered | avm/runtime.go:312-331 | in every state any program can reach: gas used plus available is the initial gas, each instruction used some, and the return and frame stacks have equal length |
| Gas.Terminates | avm/runtime.go:312-346 | execution of any program ends after at most gas + 1 instructions, with every unit of gas accounted for |
| Interpreter.Runtime.Push | avm/runtime.go:148-154 | appends, or reports overflow at the limit and changes nothing |
| Interpreter.Runtime.Pop | avm/runtime.go:156-165 | removes and returns the top, or reports an empty stack |
| Interpreter.Runtime.Pop2 | avm/runtime.go:189-199 | removes and returns the two top values, in order |
| Interpreter.Runtime.Save | avm/runtime.go:217-223 | stores a cell below the limit, fails above it |
| Interpreter.Runtime.Load | avm/runtime.go:225-233 | reads a cell, 0 where nothing was stored, fails above the limit |
| Interpreter.Runtime.ReadChunks | avm/runtime.go:1158-1176 | the chunk loop gathers exactly the bytes of the string, or finds the first missing or oversized cell |
| Interpreter.Runtime.ReadText | avm/runtime.go:1138-1179 | readStringFromMemory returns the string at an address and the empty string for anything else |
| Interpreter.Runtime.WriteText | avm/runtime.go:816-837 | the store loop writes the length and all chunks that fit, and tells whether one did not |
| Interpreter.Runtime.StoreText | avm/runtime.go:1183-1215 | storeStringInMemory writes at the allocation pointer and moves it behind the string |
| Interpreter.Runtime.ParseText | avm/runtime.go:998-1035 | the digit loop accepts an optional sign and digits, wrapping in int64, and rejects everything else |
| Interpreter.Runtime.Expand | avm/runtime.go:647-651 | the loop pads the stack with zeros up to the index and no further |
| Interpreter.Runtime.ConcatText | avm/runtime.go:750-850 | STRCONCAT allocates the concatenation, or silently pushes nothing, because its error variable is shadowed |
| Interpreter.Runtime.Compare | avm/runtime.go:448-480 | EQ compares texts when both operands are addresses of non-empty strings, numbers otherwise |
| Interpreter.Runtime.Return | avm/runtime.go:698-736 | RETURN drops two parameters, restores frame and address, or stops the program when there is no caller |
| Interpreter.Runtime.Perform | avm/runtime.go:348-1118 | the switch does to the fields exactly what the transition function does to the state, for every opcode and every error |
| Interpreter.Runtime.ExecuteInstruction | avm/runtime.go:333-1133 | one instruction: validation, gas, effect and charge agree with the transition function |
| Interpreter.Runtime.StartExecution | avm/runtime.go:312-331 | the run of a clean runtime is the run of the transition function, whatever the program; an unclean one is refused unchanged |
| Codegen.PatchBlock | marigold/codegen.go:807-866 | code generated with an unknown loop exit and patched at the recorded break sites is the code with the exit known |
| Codegen.DefinesAll | marigold/codegen.go:622-664 | every function gets an address and keeps it while later functions are generated |
| Generator.CodegenContext.GenerateExpression | marigold/codegen.go:209-310 | appends the code of the expression, context variables as their opcodes whatever the locals are; succeeds exactly on the accepted expressions without strings |
| Generator.CodegenContext.GenerateBinary | marigold/codegen.go:546-600 | operands left to right, then the operator; rejected operators fail |
| Generator.CodegenContext.GenerateUnaryOperator | marigold/codegen.go:602-620 | the code of unary minus and not |
| Generator.CodegenContext.GenerateCall | marigold/codegen.go:312-441 | arguments in order, then EMIT, the opcodes of a built-in name, or the function's address and CALL; the built-in names come first |
| Generator.CodegenContext.GenerateStatement | marigold/codegen.go:680-701 | appends the statement's code, extends the locals and records the break placeholders of the innermost loop |
| Generator.CodegenContext.GenerateAssignment | marigold/codegen.go:703-751 | a new name takes the next offset; the value is stored at the name's offset |
| Generator.CodegenContext.GenerateReturn | marigold/codegen.go:753-764 | value or 0, then RETURN |
| Generator.CodegenContext.GenerateIf | marigold/codegen.go:766-805 | the one-pass conditional, both jumps patched in place, is the code with known targets |
| Generator.CodegenContext.GenerateElse | marigold/codegen.go:784-802 | the jump over the else-block and the test's target are patched without touching anything else |
| Generator.CodegenContext.GenerateWhile | marigold/codegen.go:807-850 | the one-pass loop with patched test and breaks is the code with known targets; the loop stack is as before |
| Generator.CodegenContext.PatchBreaks | marigold/codegen.go:838-846 | patching the recorded placeholders, and only those, closes the loop |
| Generator.CodegenContext.GenerateBlock | marigold/codegen.go:666-678 | a block is its statements in order |
| Generator.CodegenContext.GenerateFunctionDefinition | marigold/codegen.go:622-664 | body, default return unless the last opcode is RETURN, locals of the caller put back |
| Generator.CodegenContext.RegisterStringLiteral | marigold/codegen.go:58-78 | a literal gets one address, of enough cells, once |
| Generator.CodegenContext.GenerateStringInitialization | marigold/codegen.go:164-199 | code that stores the length and every padded chunk of every literal |
| Generator.CodegenContext.CodegenWithContext | marigold/codegen.go:880-964 | the whole program, headers patched last, is the described program; failure exactly when some function is rejected |
| Layout.PlacedBlock | marigold/codegen.go:666-878 | emitted code, at the address it was emitted for, has every jump at the right place |
| Instructions.MachineAgrees | avm/runtime.go:351-736 | each instruction the compiler emits does on the machine what a small reference machine says, while memory holds no string |
| Simulation.SimExpr | marigold/codegen.go:209-310 | the code of an expression pushes its value and its output, whatever lies below on the stack; a source that runs on runs the machine on |
| Simulation.SimStmt | marigold/codegen.go:680-878 | the code of a statement, from its first address, ends at the next address, loop exit, loop head or RETURN with exactly the updated variables and no temporaries |
| Simulation.SimBlock | marigold/codegen.go:666-878 | the same for every list of statements |
| Simulation.SimWhile | marigold/codegen.go:807-850 | the same for every loop and every number of iterations |
| Simulation.SimInvoke | avm/runtime.go:674-736 | CALL and RETURN put the result of a two-parameter function in place of its arguments |
| Simulation.CallableExactly | avm/runtime.go:698-736 | when a function of two parameters returns with all its locals, the caller gets its own stack back if and only if there are no further locals |
| Transitions.CallFramesExactly | avm/runtime.go:674-697 | CALL makes the frame begin at the first argument if and only if there are two |
| Transitions.ReturnRestoresExactly | avm/runtime.go:698-736 | RETURN gives the caller its stack and the result if and only if the frame has two cells, or fewer with nothing below |
| Linker.HowBlockEnds | marigold/codegen.go:653-657 | the last opcode emitted for a block is RETURN exactly when its last statement, followed into then- or else-blocks, is a return |
| Linker.DefineAllInPlace | marigold/codegen.go:622-664 | every function of the finished program stands at the address its callers use, its end guarded |
| Linker.InPlaceExactly | marigold/codegen.go:653-657 | a function is in place, its end guarded, if and only if its body is not left without code and returns on every path when its code ends in RETURN |
| Linker.NoCodeAtAll | marigold/codegen.go:622-664 | a function gets no code at all exactly when its body is empty and the code before it ends in RETURN |
| Linker.DanglingTarget | marigold/codegen.go:653-657 | a body whose code ends in RETURN although some path does not return gets no default return: as the last function of a program it has a jump to the address behind the end |
| Linker.DanglingJump | avm/runtime.go:529-545 | JUMP and JUMPC refuse such a target, JUMPC whether or not the condition holds |
| Metering.LimitOnlyStops | avm/runtime.go:148-154 | the stack limit changes nothing but to stop the run, for every opcode but STRCONCAT |
| Metering.LimitExactly | avm/runtime.go:148-154 | the same for every opcode, except exactly where a concatenation has a result and no room to push it |
| Metering.ConcatSilentExactly | avm/runtime.go:750-850 | STRCONCAT crashes or goes on; it pushes a result if and only if both operands read, the result fits in memory and the stack has room |
| Metering.ConcatLimitExactly | avm/runtime.go:750-850 | the limit does more than stop it if and only if there is a result and no room |
| Metering.Follows | avm/runtime.go:312-346 | the metered machine follows the reference machine step for step and pays at least one unit for each, unless gas or stack runs out |
| Metering.CompiledRuns | marigold/codegen.go:880-964 | compiler correctness on the real machine: for every contract of the fragment, amount of gas and entry point, a source that terminates is delivered exactly or cut off, and one that outlasts the gas is cut off |
| Metering.CompiledRunsBack | marigold/codegen.go:880-964 | the converse: a run that ends by itself delivers what the source computes, if the source never goes wrong |
| Metering.PriceOfRun | marigold/codegen.go:880-964 | a source that terminates has a price: without a stack limit its compiled contract delivers if and only if it is given that much gas |
| Sample.CounterRuns | marigold/codegen.go:880-964 | the theorem applied: a contract with a call, a loop, a break and an emit is of the fragment, and its compiled code, with any gas and stack limit, emits and returns 4 or is cut off |
| Sample.CounterDelivers | marigold/codegen.go:880-964 | there is an amount of gas from which on that contract does emit and return 4, and below which it is cut off |
| Shadowing.BuiltinWins | marigold/codegen.go:312-441 | built-in names win over functions: a contract that adds with a function of its own delivers the sum under every ordinary name, and 100, whatever it adds, under the name str_concat, although codegen accepts both and all other conditions hold |
| Shadowing.ContextWins | marigold/codegen.go:262-310 | context names win over variables: a contract that stores a number and returns it delivers the number under every ordinary name, and what the block context gives under any of the twelve context names |
| Shadowing.ContextGives | avm/runtime.go:1058-1119 | what each of the twelve context variables gives: caller, contract, origin, price, value, time and the rest of the block context |
| Entry.RegisterAllOk | marigold/codegen.go:58-78 | whatever is registered, every literal is in the table and table intervals are in order and disjoint |
| Entry.Disjoint | marigold/codegen.go:58-78 | no cell belongs to two literals |
| Entry.RunInit | marigold/codegen.go:164-199 | running the initialization code writes all literals and leaves the stack alone |
| Entry.EntryPoint | marigold/codegen.go:880-964 | from 0 (or 2) a compiled contract reaches the first instruction of init (or call) with an empty stack, and every registered literal that fits reads back at its address |
| Entry.AddressesInside | marigold/codegen.go:880-964 | both entry targets are inside the program when only the first body may be empty |
| Entry.PaidFor | avm/runtime.go:312-346 | the metered machine gets there too or runs out of gas |
| Entry.LiteralsOnHeap | avm/runtime.go:274-290 | literals that end by address 100 form a sound string heap, which no later allocation disturbs |
| Entry.LiteralsSurviveExactly | avm/runtime.go:274-290 | registered literals survive every first allocation if and only if they end by address 100 |
| Entry.LiteralLost | avm/runtime.go:274-290 | a literal that begins at address 100 reads as the first string allocated, and not as itself |
| Strings.HeldReads | avm/runtime.go:1138-1179 | memory holding a string reads as that string by both readers |
| Strings.ApplyKeepsLow | avm/runtime.go:348-1118 | no opcode but MSTORE changes memory below the allocation pointer |
| Strings.ApplyAllocates | avm/runtime.go:750-1118 | concatenation, slice, ASCII index, integer, loaded and transaction-data strings are what mathematics says, at a new address |
| Strings.IndexIsByteExactly | avm/runtime.go:926-928 | STRINDEX yields the byte itself if and only if it is ASCII |
| Strings.HeapRefines | avm/runtime.go:750-1215 | over every run the heap refines a map: each address reads as its string, and no string changes or goes away |
| Strings.EqualsOnStrings | avm/runtime.go:448-480 | EQ is equality of texts if and only if not both are empty at different addresses |
| Strings.Readers | avm/runtime.go:852-901 | STRLEN and EMITSTR give the length and the text of the string |
| Strings.MeteredRun | avm/runtime.go:312-331 | the states of the metered machine are such a run |
| Persistence.ParseDecimal | avm/runtime.go:985-1055 | STRTOINT inverts INTTOSTR on every int64, the least included |
| Persistence.RunKeepsKey | avm/runtime.go:566-598 | storage under a key changes only by a PSTORE to that key |
| Persistence.PersistentRoundTrip | execution/execution.go:101-130 | every int64 stored with INTTOSTR and PSTORE comes back from PLOAD and STRTOINT, in the same run or a later call of any code |
| Ledger.ValidateExactly | blockchain/validation.go:201-288 | a regular transaction is accepted if and only if sender, signature, gas, mathematical maximum cost and nonce are right; the multiply-then-divide test is exact |
| Ledger.MulDivExact | blockchain/validation.go:248-252 | dividing the wrapped product back detects overflow, exactly |
| Ledger.AvmIsFrugal | execution/execution.go:55-70 | a contract run never uses more gas than it was given |
| Supply.NoPanic | blockchain/validation.go:292-532 | an accepted transaction reaches no overflow or underflow panic while the supply is below 2^63, self-calls that overflow excepted |
| Supply.SelfCallNeverApplies | blockchain/validation.go:436-441 | such a self-call is never applied |
| Supply.PanicsExactly | blockchain/validation.go:402-526 | an accepted transaction panics if and only if it is such a self-call and its contract ends within the gas limit |
| Supply.PanicHappens | blockchain/validation.go:507-526 | a contract that holds nearly 2^63 and sends itself three quarters of it is accepted and panics, on the real machine |
| Charges.TransferGas | blockchain/validation.go:402-510 | a transfer uses 21000 units of gas and 68 for each byte of data |
| Charges.CallGas | blockchain/validation.go:444-510 | a call uses that and what the contract used, run from address 2 on its own storage, with the sender as caller and origin and the recipient as contract |
| Charges.DeploymentGas | blockchain/validation.go:346-425 | a deployment uses that and what init used, run from address 0 on empty storage, with the new address as contract |
| Charges.MisdirectedGas | blockchain/validation.go:444-510 | code sent to a contract uses that and what init used, if it succeeds; init is told the recipient's address |
| Charges.DeploymentAppliesExactly | blockchain/validation.go:346-425 | a deployment that validates applies if and only if its instructions are valid, init succeeds and the gas is within the limit |
| Charges.CallAppliesExactly | blockchain/validation.go:436-526 | a call that validates applies if and only if the contract does not crash, the gas is within the limit and it is no self-call that overflows |
| Charges.CallEffect | blockchain/validation.go:436-526 | an applied call credits the recipient twice, keeps the storage a successful run left, and charges the sender the amount once and the gas used |
| Charges.MisdirectedEffect | blockchain/validation.go:436-526 | applied code that was sent to a contract credits recipient and new contract, and charges the sender, unless it was replaced, the amount once and the gas used |
| Supply.PlainEffect | blockchain/validation.go:320-532 | a transfer to an account without code, a call without value or a deployment to an address that holds nothing credits the recipient and charges the sender amount, fee and the gas really used, self-transfers included |
| Supply.PlainConserves | blockchain/validation.go:320-532 | such a transaction takes exactly its gas and its deployment fee out of the supply |
| Supply.NothingPaid | blockchain/validation.go:531 | a transaction to nobody without code is accepted, counted as gas and changes nothing, and is accepted again |
| Supply.CallInflates | blockchain/validation.go:436-441 | a call is credited twice: the supply grows by its amount, self-calls included, so it is conserved if and only if the call carries no value |
| Supply.MisdirectedInflates | blockchain/validation.go:436-441 | code sent to a contract is deployed beside it, here at a fresh address, and the amount credited twice, without a fee: the supply is conserved if and only if there is no value or init fails |
| Accounting.TransactionAccounted | blockchain/validation.go:292-532 | every accepted and applied transaction, of whatever kind, changes the supply by exactly its drift, less gas and fee: calls and misdirected code add their amount, transactions to nobody add their price, and a new contract destroys what its address held |
| Accounting.DeploymentDestroys | execution/execution.go:33-86 | a deployment destroys what its address holds; the supply is conserved if and only if that is nothing |
| Accounting.PrefundingIsLost | execution/execution.go:33-86 | money sent to the address of the next contract is lost, to the unit, when the contract comes |
| Blocks.BlockConserves | blockchain/validation.go:535-610 | an accepted block creates exactly the reward and destroys exactly its deployment fees |
| Blocks.StructureExactly | blockchain/validation.go:105-179 | a block on top of others has a fine structure if and only if its parent is known and at the tip, its hash meets its target, which is the required one, its Merkle root is right and its time is later |
| Blocks.AcceptedExactly | blockchain/validation.go:535-610 | a validator accepts a block, with new accounts, if and only if its structure is fine, its transactions validate and apply one after another to these accounts, the gas used is its header's and within its limit, and the first transaction has the reward and the fees |
| Blocks.GenesisExactly | blockchain/validation.go:112-133 | the genesis block is accepted if and only if it has no parent and nothing but ten coins for the first user |
| Blocks.SupplyConserved | blockchain/validation.go:535-636 | the same over any run of accepted blocks |
| Accounting.BlockAccounted | blockchain/validation.go:535-610 | an accepted block, with transactions of every kind, creates the reward and the drift of its transactions, and destroys its deployment fees |
| Accounting.SupplyAccounted | blockchain/validation.go:535-636 | the same over any run of accepted blocks, so the supply is conserved if and only if the drifts cancel out |
| Blocks.TipMovesExactly | blockchain/chain.go:64-88 | an accepted block is executed and stored whatever height it claims, and becomes the tip if and only if it claims a greater one; otherwise its siblings still find their parent at the tip |
| Replay.NonceLaw | blockchain/validation.go:422-526 | what every accepted and applied transaction does to all nonces: a new contract starts at 0, the sender's moves on unless the transaction is to nobody, no other changes |
| Replay.NonceMovesExactly | blockchain/validation.go:422-526 | if the key of a new contract is unused, the sender's nonce moves if and only if the transaction is not to nobody, and no other nonce changes |
| Replay.NonceGrows | blockchain/validation.go:422-423 | over any run an account's nonce grows by the number of its transactions that are not to nobody |
| Replay.ReplaysExactly | blockchain/validation.go:281-284 | two transactions of a sender have the same nonce if and only if none from the first up to the second moves it |
| Replay.NoReplay | blockchain/validation.go:281-284 | no (sender, nonce) pair that moved a nonce is applied twice; with injective addresses no two deployments share one |
| Replay.ReplaySafety | blockchain/validation.go:535-636 | all of this over any chain of accepted blocks with transactions of every kind |
| Mining.FoundNonce | blockchain/mining.go:153-166 | the nonce found is the first that meets the target |
| Mining.MadeExactly | blockchain/mining.go:26-150 | NewBlock makes a block if and only if the coinbase has exactly the reward and the fees, the gas is within eight million and some nonce but the last meets the target; its header continues the parent, with the parent's work and its own |
| Mining.RicherApplies | blockchain/validation.go:292-532 | a transaction that validates and applies does the same, gas included, where one account holds more |
| Mining.RunsAgree | blockchain/mining.go:55-86 | the run that never credits the coinbase and the run that credits it first agree on gas and fees |
| Mining.MinerValidatorAgreement | blockchain/mining.go:26-150 | a block NewBlock returns from transactions that validate in sequence is accepted by ValidateBlock if and only if every one of them applies |
| Mining.PlainIsRoomy | blockchain/validation.go:402-441 | room for the credits is no issue for plain transactions while the supply stays below 2^63 |
| Mining.RunStops | blockchain/mining.go:62-73 | a transaction that fails in the miner's run, where it is skipped, fails in the validator's, which then rejects the block |
| Mining.TransferAppliesExactly | blockchain/validation.go:507-510 | a transfer that validates applies if and only if its gas limit covers its base gas, and otherwise fails after its recipient was credited |
| Mining.TransferBlocksExactly | blockchain/mining.go:26-150 | a block of transfers that NewBlock returns is accepted if and only if every gas limit covers its base gas |
| Mining.TooLittleGas | blockchain/validation.go:507-510 | a transfer or call whose gas limit is below its base gas applies in no state |
| Mining.SkippedButIncluded | blockchain/mining.go:62-73 | the miner skips a transaction that never applies and still includes it, and no validator accepts the block, whatever its chain |
| Accounts.AccountStates.ValidateTransaction | blockchain/validation.go:201-288 | reads the shared objects and gives the specified verdict |
| Accounts.AccountStates.ExecuteDeployment | execution/execution.go:33-86 | runs init and inserts a new contract object, whatever was at its address |
| Accounts.AccountStates.ExecuteCall | execution/execution.go:89-140 | credits and changes the recipient through the shared pointer |
| Accounts.AccountStates.FinishTransfer | blockchain/validation.go:444-526 | contract run and charge, the sender's object possibly being the recipient's or no longer in the map |
| Accounts.AccountStates.ApplyTransaction | blockchain/validation.go:292-532 | the pointer-based application has exactly the specified effect on all accounts, on every path |
| Accounts.AccountStates.Copy | blockchain/validation.go:549-563 | a copy shares no object |
| ChainState.RunTransactions | blockchain/validation.go:565-587 | the loop with running totals is the specified run |
| ChainState.ChainObject.Structured | blockchain/validation.go:105-179 | the structural verdict of a block: parent by hash, tip by highest block |
| ChainState.ChainObject.ValidateBlock | blockchain/validation.go:535-610 | the specified judgement, on private copies, with the chain unchanged |
| ChainState.ChainObject.AddBlock | blockchain/chain.go:64-88 | room is made in the height index; the block is stored by height and hash, and the tip moves only to a higher block |
| ChainState.ChainObject.ValidateAndApplyBlock | blockchain/validation.go:623-636 | an accepted block brings its accounts and is added, any other changes nothing |
| ChainState.MineCorrectNonce | blockchain/mining.go:153-166 | finds the first nonce that works, or shows that none does |
| ChainState.MineBlock | blockchain/mining.go:26-150 | the miner's loop and checks give the specified block, and leave the current accounts alone |
| GasPriceQueue.RootFirst | node/mempool.go:23-30 | the first entry of a heap comes before every other |
| GasPriceQueue.Queue.Down | node/mempool.go:228-234 | sifting down restores heap order and keeps the entries, or shows that nothing had to move |
| GasPriceQueue.Queue.Up | node/mempool.go:104-105 | sifting up restores heap order and keeps the entries |
| GasPriceQueue.Queue.Init | node/mempool.go:260-269 | any array becomes a heap of the same entries |
| GasPriceQueue.Queue.Push | node/mempool.go:104-105 | adds one entry and keeps heap order |
| GasPriceQueue.Queue.Pop | node/mempool.go:131-134 | removes and returns the first entry and keeps heap order |
| GasPriceQueue.Queue.Remove | node/mempool.go:225-236 | removes the given entry and keeps heap order |
| Mempool.Pool.RemoveLowest | node/mempool.go:202-236 | evicts a newest entry of the lowest price from both structures |
| Mempool.Pool.AddTransaction | node/mempool.go:69-109 | accepted exactly when new and, in a full pool, dearer than the last array entry; then a cheapest entry, strictly outbid, makes room; heap and index agree and stay within the limit |
| Mempool.Pool.Rebuild | node/mempool.go:260-269 | the heap again holds exactly the entries of the index |
| Mempool.Pool.CleanExpired | node/mempool.go:183-199 | exactly the expired entries go |
| Mempool.Pool.Revalidate | node/mempool.go:239-257 | exactly the entries that no longer validate go |
| Mempool.Pool.RemoveTransactions | node/mempool.go:140-159 | exactly the given transactions go, and are counted |
| Mempool.Pool.GetTransactions | node/mempool.go:112-136 | the first entries by price and age, in order, after expiry; the stored heap keeps everything |
| Mempool.TakeFirst | node/mempool.go:123-135 | popping a copy yields the top entries, sorted |
| Mempool.FairExactly | node/mempool.go:89-98 | a full pool takes exactly the bids that outbid some entry if and only if the last entry of its array is a cheapest one |
| Mempool.BetterBidRefused | node/mempool.go:89-98 | a valid full pool of a thousand distinct transactions that refuses a bid although it outbids an entry |
| Parser.ParserContext.ConsumeAssert | marigold/parser.go:31-47 | consumes the token asked for, or panics |
| Parser.ParserContext.ParseBinary | marigold/parser.go:617-720 | the five left-associative levels, cursor and tree as specified |
| Parser.ParserContext.ParsePower | marigold/parser.go:722-742 | right-associative power |
| Parser.ParserContext.ParseFactor | marigold/parser.go:744-756 | unary operators |
| Parser.ParserContext.ParseAtomHere | marigold/parser.go:758-856 | atoms, with every way to give up |
| Parser.ParserContext.ParseFunctionCall | marigold/parser.go:308-359 | arguments up to the closing parenthesis, commas optional |
| Parser.ParserContext.ParseArrayLiteral | marigold/parser.go:858-907 | array literals |
| Parser.ParserContext.ParseIndexOrSlice | marigold/parser.go:927-993 | the four forms of index and slice |
| Rendering.ParseBack | marigold/parser.go:617-993 | wherever a tree stands rendered for a level, parsing that level there gives the tree and the cursor behind it |
| Precedence.PrecedenceExactly | marigold/parser.go:617-742 | of two operators between three operands the right one is applied first if and only if it is the tighter one, from || over &&, comparisons, + and -, * / and % up to ^, or both are ^ |
| Precedence.UnaryFirst | marigold/parser.go:744-756 | unary minus and not bind more tightly than every binary operator, on either side |
| Rendering.RenderThenParse | marigold/parser.go:617-993 | every tree of the grammar, rendered and parsed, comes back with the cursor at the end |
| Parentheses.ParseNeeds | marigold/parser.go:617-993 | whatever tokens a level parses into a tree of the grammar, they open at least as many parentheses as the rendering for that level |
| Parentheses.FewestParentheses | marigold/parser.go:617-993 | of all token lists that parse to a tree its rendering opens the fewest parentheses, so none can be dropped |
| ForkChoice.ForkChain.AddBlock | blockchain/chain.go:64-88 | indexes the block and its header; the tip moves only up |
| ForkChoice.Node.CleanUp | node/orphans.go:96-121 | takes the header out and files the chain under its old tip |
| ForkChoice.Node.ExtendCurrent | node/header_processing.go:300-376 | a block that validates becomes the tip, with the work its header claims, and is in all indices; otherwise chains and headers are restored, and the header map exactly when the hash was new |
| ForkChoice.Node.ExtendWithoutBlock | node/header_processing.go:324-338 | if the block cannot be had, the current tip is no longer a key of the chains |
| ForkChoice.Node.SwitchBelow | node/header_processing.go:492-530 | a switch to a header that is not higher than the candidate's tip leaves that tip in place, whatever its work |
| ForkChoice.Node.ExtendCandidate | node/header_processing.go:378-541 | the node switches exactly when the candidate is heavier, its block is new and its blocks hold |
| ForkChoice.Node.Fork | node/header_processing.go:131-178 | a fork below the tip is a new chain; the current one is untouched |
| ForkChoice.Node.Rebuild | node/header_processing.go:131-178 | a header on the current tip whose total work does not add up replaces the current chain by a rebuilt one, and becomes the tip, whatever it claims, if its block validates |
| ForkChoice.Node.ForgetOrphan | node/header_processing.go:265-280 | the first waiting header of that hash is taken off its list, and an empty list off the map |
| ForkChoice.Node.CleanUpOrphans | node/orphans.go:48-93 | exactly the orphans below the least tip height of all chains go |
| ForkChoice.Node.CleanUpCandidates | node/tasks.go:10-56 | exactly the chains whose tip is more than six blocks behind go, never the current one |
| ForkChoice.Node.ExtendChain | node/header_processing.go:252-541 | a header on a chain, whose work adds up: on the current chain it becomes the tip if and only if its block validates; on another if and only if it is heavier, its block new and its blocks hold; otherwise that chain is filed under it |
| ForkChoice.Node.StartChain | node/header_processing.go:131-196 | a header on no chain waits under its parent if that is unknown, and otherwise starts a new chain, filed under it, which wins if it is heavier |
| ForkChoice.Node.ProcessHeader | node/node.go:107-140 | every header right after its parent, while blocks are available: one already known changes nothing; any other is taken as by ExtendChain and StartChain; the current tip stays a key of the chains; its work falls if and only if a header on top of it claims less work and its block validates; the invariant is lost exactly when such a header on genesis has a block that fails |
| Merkle.NextLevel | blockchain/crypto.go:22-34 | one level, the last hash doubled when odd |
| Merkle.MerkleRoot | blockchain/crypto.go:10-39 | the level loop computes the root |
| Merkle.RootIsTree | blockchain/crypto.go:21-38 | the root is that of the recursive tree of least depth |
| Merkle.RootBinds | blockchain/crypto.go:21-38 | with a collision-free pair hash, lists of equal length with the same root are equal |
| Merkle.RepeatedLast | blockchain/crypto.go:22-24 | length matters: repeating the last of an odd number of leaves keeps the root |
| Roots.Greater | blockchain/crypto.go:73-80 | the byte loop decides lexicographic order of 32-byte keys |
| Roots.Sort | blockchain/crypto.go:70-83 | the in-place exchange sort yields a sorted permutation |
| Roots.OneListing | blockchain/crypto.go:70-83 | sorted listings of the same keys are the same |
| Roots.ComputeRoot | blockchain/crypto.go:59-181 | state and storage roots are functions of the map, whatever order it is walked in |
| Roots.RootsBind | blockchain/crypto.go:59-181 | different maps of one size have different roots, under a collision-free pair hash and leaves that tell their keys |
| Compact.DecodeEncode | utils/convert.go:23-65 | decoding an encoded target gives its truncation to 23 bits in steps of bytes if and only if its exponent fits a byte, that is, below 2^2039 |
| Compact.TruncatedClose | utils/convert.go:39-65 | never above the target, and less than one part in 2^15 below |
| Compact.TruncatedMonotone | utils/convert.go:39-65 | encoding keeps the order of targets |
| Compact.CanonicalExactly | utils/convert.go:23-65 | exactly the canonical bits encode to themselves |
| Compact.BigToCompact | utils/convert.go:39-65 | the byte-by-byte encoder is the encoding |
| Compact.RetargetBounds | blockchain/difficulty.go:30-51 | a retarget is at most the easiest target, at most four times the old one, and at least the truncation of a quarter of it (or of the easiest) |
| Compact.RetargetExactly | blockchain/difficulty.go:30-51 | blocks that took exactly two weeks keep the target; within a factor of four it is scaled by the time taken over two weeks, rounded down; slower blocks never make a harder target |
| Compact.GetTargetBits | blockchain/difficulty.go:20-51 | first target, unchanged target, or scaled target, by height |
| Compact.WorkExactly | blockchain/difficulty.go:54-59 | a block's work is 2^256 over one more than its target, rounded down |
| Compact.WorkGrows | blockchain/work.go:47-57 | a harder target is never less work, and every target below 2^256 is some |

## Left out

- Marigold's lexer, type checker, statement parser, floats, arrays and maps: many easy branches, and codegen supports none of the last three.
- String literals, string variables, storage access, len, stop and assert in the compiler: codegen decides them by a type guess that covers only literals and variables; the machine's own string opcodes are modelled in full. `emit` and `string` of a context variable that is a string are left out too.
- The traversal that collects string literals before code generation: the model starts from the collected list.
- Allocation failure, and overflow of Go's `int` in stack indices: a string length near 2^64 read from memory would make Go fail to allocate.
- The stack and memory of a halted machine: callers look only at the error, the gas counters and, after a normal stop, the storage.
- SHA-256, Ed25519, account hashes, storage roots and code hashes as stored fields: uninterpreted functions, or absent where nothing depends on them.
- Deployment hashes, chain identifiers and the block context of contract calls beyond the constants the code passes.
- JSON, base64, logging, HTTP, libp2p, protobuf, wallet and command-line code: input and output only.
- Goroutines, timeouts and re-processing of orphans: headers are processed one at a time, and an orphan that is tried again is simply another header.
- The walk that lists the blocks of a heavier candidate, and their replay on a temporary chain: whether they hold is an input.
- ForkChoice.Node.ProcessHeader: assumes that blocks asked for are available and that a header's height is one more than its parent's; without the block the tip is no key any more (ExtendWithoutBlock), and with a lower height the tip does not follow (SwitchBelow).
- ChainState.ChainObject.Structured: the target required by the blocks so far is a function of the height index; a gap in it that makes the retargeting code dereference nil is not modelled.
- Mining.MinerValidatorAgreement: assumes that the coinbase's balance has room for what it receives.
- Blocks.SupplyConserved: calls with value, code sent to a contract, deployments to an address that holds money and transactions to nobody are excluded, because they do not conserve; Accounting.SupplyAccounted covers them all, to the unit, while the supply is below 2^63 and the fees of a block do not wrap around.
- Supply.NoPanic: a crash of the virtual machine inside a contract run is a separate outcome.
