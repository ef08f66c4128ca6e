/** Transactions and account states (blockchain/validation.go, execution/execution.go,
    utils/safemath.go) on values. Module Accounts does the same on shared mutable objects. */
module Ledger {
  import opened Text
  import opened Bytecode
  import Avm
  import Gas

  type U64 = n: int | 0 <= n < TWO64

  /** Public keys and hashes are 32-byte numbers; 0 is the empty key. */
  type Key = nat

  const AUG: nat := 1_000_000
  const BLOCK_REWARD: nat := 50 * AUG
  const DEPLOYMENT_FEE: nat := AUG
  const GAS_TRANSFER: nat := 21000
  const GAS_DEPLOY: nat := 21000
  const GAS_PER_BYTE: nat := 68
  const BLOCK_GAS_LIMIT: nat := 8_000_000

  datatype Account = Account(balance: U64, nonce: U64, code: seq<Instruction>, storage: Avm.Storage)

  type State = map<Key, Account>

  datatype Tx = Tx(from: Key, to: Key, amount: U64, nonce: U64, gasLimit: U64, gasPrice: U64,
                   timestamp: U64, instructions: seq<Instruction>, data: Bytes, signature: nat)

  datatype Ending = Succeeded | Erred | Crashed

  /** What comes out of a contract run: gas, how it ended, and the storage it leaves. */
  datatype Ran = Ran(gas: U64, end: Ending, storage: Avm.Storage)

  type Runner = (seq<Instruction>, Avm.Context, U64, int, Avm.Storage) -> Ran

  /** Signature checks, contract addresses and the virtual machine, as functions that cannot be seen into. `AvmRun` is the
      virtual machine of this repository. */
  datatype Host = Host(verify: Tx -> bool, address: (Key, U64) -> Key, run: Runner)

  // ---------------------------------------------------------------- checked arithmetic

  function SafeAdd(a: U64, b: U64): Option<U64> { if a > TWO64 - 1 - b then None else Some(a + b) }

  function SafeSubtract(a: U64, b: U64): Option<U64> { if a < b then None else Some(a - b) }

  /** The product, as repeated addition (`TimesIs`): most proofs need no more of it than that it grows. */
  function Times(a: nat, b: nat): nat { if b == 0 then 0 else a + Times(a, b - 1) }

  lemma {:induction false} TimesIs(a: nat, b: nat)
    ensures Times(a, b) == a * b
  {
    if b > 0 { TimesIs(a, b - 1); }
  }

  lemma {:induction false} TimesGrows(a: nat, a': nat, b: nat)
    requires a <= a'
    ensures Times(a, b) <= Times(a', b)
  {
    if b > 0 { TimesGrows(a, a', b - 1); }
  }

  function Mul64(a: U64, b: U64): U64 { Times(a, b) % TWO64 }

  function Add64(a: U64, b: U64): U64 { (a + b) % TWO64 }

  // ---------------------------------------------------------------- validation

  datatype Verdict = Accept | Reject(reason: Reason)

  datatype Reason =
    | ZeroGasLimit | ZeroGasPrice | BadSignature | NoSender | GasOverflow | TotalOverflow | Insufficient | BadNonce

  predicate IsDeployment(tx: Tx) { tx.to == 0 && tx.instructions != [] }

  /** ValidateTransaction. (ValidateAmount can never fail on a uint64.) The gas cost is multiplied with
      wrap-around and then divided to see whether it wrapped. */
  function Validate(h: Host, s: State, tx: Tx): Verdict {
    if tx.from == 0 then Accept
    else if tx.gasLimit == 0 then Reject(ZeroGasLimit)
    else if tx.gasPrice == 0 then Reject(ZeroGasPrice)
    else if !h.verify(tx) then Reject(BadSignature)
    else if tx.from !in s then Reject(NoSender)
    else
      var gas := Mul64(tx.gasLimit, tx.gasPrice);
      if gas / tx.gasLimit != tx.gasPrice then Reject(GasOverflow)
      else
        var total := SafeAdd(tx.amount, gas);
        if total.None? then Reject(TotalOverflow)
        else
          var all := if IsDeployment(tx) then SafeAdd(total.value, DEPLOYMENT_FEE) else total;
          if all.None? then Reject(TotalOverflow)
          else if s[tx.from].balance < all.value then Reject(Insufficient)
          else if tx.nonce != Add64(s[tx.from].nonce, 1) then Reject(BadNonce)
          else Accept
  }

  /** What a transaction may cost at most, as a mathematical number. */
  function MaxCost(tx: Tx): nat { tx.amount + Times(tx.gasLimit, tx.gasPrice) + (if IsDeployment(tx) then DEPLOYMENT_FEE else 0) }

  // ---------------------------------------------------------------- contract execution

  function ContextOf(tx: Tx, contract: Key): Avm.Context {
    Avm.Context(1, 0, 0, 1640995200, 0x207fffff, tx.gasLimit, 0, tx.from, tx.from, tx.gasPrice, tx.amount, contract, tx.data)
  }

  /** NewRuntimeWithIC and StartExecution; stopping by itself is not an error. */
  function AvmRun(code: seq<Instruction>, cx: Avm.Context, gas: U64, start: int, storage: Avm.Storage): Ran {
    Reported(Avm.Execute(code, cx, Avm.Fresh(gas, start, storage), Avm.MAX_STACK))
  }

  function Reported(r: Avm.Final): Ran {
    var end := if r.Finished? || r.error == Avm.ProgramStopped then Succeeded else if r.error == Avm.Crash then Crashed else Erred;
    Ran(r.m.gasUsed % TWO64, end, r.m.core.store)
  }

  /** A run never uses more gas than it was given. */
  ghost predicate Frugal(h: Host) {
    forall code, cx, gas, start, storage {:trigger h.run(code, cx, gas, start, storage)} :: h.run(code, cx, gas, start, storage).gas <= gas
  }

  lemma AvmIsFrugal(code: seq<Instruction>, cx: Avm.Context, gas: U64, start: int, storage: Avm.Storage)
    ensures AvmRun(code, cx, gas, start, storage).gas == Avm.Execute(code, cx, Avm.Fresh(gas, start, storage), Avm.MAX_STACK).m.gasUsed <= gas
  {
    FrugalFrom(code, cx, Avm.Fresh(gas, start, storage), Avm.MAX_STACK);
  }

  lemma FrugalFrom(code: seq<Instruction>, cx: Avm.Context, m: Avm.Machine, limit: nat)
    requires m.gasUsed == 0 && m.gasAvailable < TWO64
    ensures Reported(Avm.Execute(code, cx, m, limit)).gas == Avm.Execute(code, cx, m, limit).m.gasUsed <= m.gasAvailable
  {
    var _ := Gas.Terminates(code, cx, m, limit);
    WithinGas(Avm.Execute(code, cx, m, limit), m.gasAvailable);
  }

  lemma WithinGas(r: Avm.Final, gas: nat)
    requires r.m.gasUsed + r.m.gasAvailable == gas < TWO64
    ensures Reported(r).gas == r.m.gasUsed <= gas
  {
  }

  /** Result of the executor: gas and the accounts it leaves; an error that changed nothing; a crash. */
  datatype Executed = Executed(state: State, gas: U64) | Refused | Broke

  /** executeContractDeployment: run `init`, then create the contract, whatever was at its address. Code sent to a contract is
      told the recipient's address instead of its own. */
  function Deploy(h: Host, s: State, tx: Tx): Executed
    requires tx.from in s
  {
    var addr := h.address(tx.from, s[tx.from].nonce);
    if tx.gasLimit == 0 then Refused
    else
      var r := h.run(tx.instructions, ContextOf(tx, if tx.to == 0 then addr else tx.to), tx.gasLimit, 0, map[]);
      match r.end
      case Crashed => Broke
      case Erred => Refused
      case Succeeded => Executed(s[addr := Account(tx.amount, 0, tx.instructions, r.storage)], r.gas)
  }

  /** executeContractCall. The amount is credited here, unchecked, on top of what the caller credited. */
  function Call(h: Host, s: State, tx: Tx): Executed
    requires tx.to in s
  {
    var a := s[tx.to].(balance := Add64(s[tx.to].balance, tx.amount));
    if a.code == [] || tx.gasLimit == 0 then Executed(s[tx.to := a], 0)
    else
      var r := h.run(a.code, ContextOf(tx, tx.to), tx.gasLimit, 2, a.storage);
      match r.end
      case Crashed => Broke
      case Erred => Executed(s[tx.to := a], r.gas)
      case Succeeded => Executed(s[tx.to := a.(storage := r.storage)], r.gas)
  }

  /** ExecuteTransaction: a transaction that carries code deploys it, even when sent to a contract. */
  function ExecuteTx(h: Host, s: State, tx: Tx): Executed
    requires tx.from in s && tx.to in s
  {
    if tx.instructions != [] then Deploy(h, s, tx) else Call(h, s, tx)
  }

  // ---------------------------------------------------------------- application

  /** `Failed` is a returned error; the accounts may have changed before it. `Panic` is an overflow or
      underflow the code checks for and panics on, `Crash` a run-time panic of the virtual machine. */
  datatype Outcome = Applied(state: State, gas: U64) | Failed(state: State, gas: U64) | Panic | Crash

  function Credit(s: State, k: Key, amount: U64): Option<State> {
    if k in s then
      var b := SafeAdd(s[k].balance, amount);
      if b.None? then None else Some(s[k := s[k].(balance := b.value)])
    else Some(s[k := Account(amount, 0, [], map[])])
  }

  /** The end of every regular transaction: the gas limit, then the debit. `from` is the sender's object, which is no
      longer in the accounts if a contract was created at the sender's own key. */
  function Settle(s: State, from: Account, detached: bool, tx: Tx, fixed: U64, gas: U64): Outcome {
    if gas > tx.gasLimit then Failed(s, gas)
    else
      var cost := SafeAdd(fixed, Mul64(gas, tx.gasPrice));
      if cost.None? then Panic
      else
        var left := SafeSubtract(from.balance, cost.value);
        if left.None? then Panic
        else if detached then Applied(s, gas)
        else Applied(s[tx.from := from.(balance := left.value, nonce := Add64(from.nonce, 1))], gas)
  }

  function BaseGas(base: nat, tx: Tx): U64
    requires base < TWO64
  {
    Add64(base, |tx.data| * GAS_PER_BYTE % TWO64)
  }

  /** A sender's object after the executor ran: unchanged if its key now belongs to a new contract. */
  function SenderAfter(before: State, after: State, tx: Tx, detached: bool): Account
    requires tx.from in before && tx.from in after
  {
    if detached then before[tx.from] else after[tx.from]
  }

  function ApplyDeployment(h: Host, s: State, tx: Tx): Outcome
    requires tx.from in s
  {
    var gas := BaseGas(GAS_DEPLOY, tx);
    var fixed := SafeAdd(tx.amount, DEPLOYMENT_FEE);
    if fixed.None? then Panic
    else if exists i :: 0 <= i < |tx.instructions| && !Valid(tx.instructions[i]) then Failed(s, gas)
    else match Deploy(h, s, tx)
         case Broke => Crash
         case Refused => Failed(s, gas)
         case Executed(s', used) =>
           var detached := h.address(tx.from, s[tx.from].nonce) == tx.from;
           Settle(s', SenderAfter(s, s', tx, detached), detached, tx, fixed.value, Add64(gas, used))
  }

  /** A transfer whose recipient has been credited: run the contract, if it is one, and charge the sender. A contract that
      fails is ignored. */
  function FinishTransfer(h: Host, t: State, tx: Tx, contract: bool): Outcome
    requires tx.from in t && tx.to in t
  {
    var gas := BaseGas(GAS_TRANSFER, tx);
    if !contract then Settle(t, t[tx.from], false, tx, tx.amount, gas)
    else match ExecuteTx(h, t, tx)
         case Broke => Crash
         case Refused => Settle(t, t[tx.from], false, tx, tx.amount, gas)
         case Executed(t', used) =>
           var detached := tx.instructions != [] && h.address(tx.from, t[tx.from].nonce) == tx.from;
           Settle(t', SenderAfter(t, t', tx, detached), detached, tx, tx.amount, Add64(gas, used))
  }

  function ApplyTransfer(h: Host, s: State, tx: Tx): Outcome
    requires tx.from in s
  {
    var t := Credit(s, tx.to, tx.amount);
    if t.None? then Panic else FinishTransfer(h, t.value, tx, tx.to in s && s[tx.to].code != [])
  }

  /** ApplyTransaction. A transaction to the empty key without code falls through and changes nothing. */
  function Apply(h: Host, s: State, tx: Tx): Outcome {
    if tx.from == 0 then
      var t := Credit(s, tx.to, tx.amount);
      if t.None? then Panic else Applied(t.value, 0)
    else if tx.from !in s then Failed(s, 0)
    else if IsDeployment(tx) then ApplyDeployment(h, s, tx)
    else if tx.to != 0 then ApplyTransfer(h, s, tx)
    else Applied(s, GAS_TRANSFER)
  }

  // ---------------------------------------------------------------- exactness of validation

  lemma MulDivExact(a: U64, b: U64)
    requires a > 0
    ensures Mul64(a, b) / a == b <==> Times(a, b) < TWO64
  {
    TimesIs(a, b);
    QuotientIs(Mul64(a, b), a, b);
  }

  /** Multiplying with wrap-around and dividing back detects every overflow: a regular transaction is accepted exactly
      when its sender exists, signed it, offers gas, can pay the mathematical maximum cost and uses its next nonce. */
  lemma ValidateExactly(h: Host, s: State, tx: Tx)
    ensures Validate(h, s, tx).Accept? <==>
            tx.from == 0
            || (tx.gasLimit > 0 && tx.gasPrice > 0 && h.verify(tx) && tx.from in s
                && MaxCost(tx) <= s[tx.from].balance && tx.nonce == Add64(s[tx.from].nonce, 1))
  {
    if tx.gasLimit > 0 { MulDivExact(tx.gasLimit, tx.gasPrice); }
  }
}
