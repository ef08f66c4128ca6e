/** Account states as the code keeps them: a map from keys to shared mutable objects, changed through pointers
    (blockchain/validation.go, execution/execution.go), proved against module Ledger. */
module Accounts {
  import opened Text
  import opened Bytecode
  import opened Ledger
  import Avm

  class AccountState {
    var balance: U64
    var nonce: U64
    var code: seq<Instruction>
    var storage: Avm.Storage

    constructor (balance: U64, code: seq<Instruction>, storage: Avm.Storage)
      ensures View() == Account(balance, 0, code, storage)
    {
      this.balance, nonce, this.code, this.storage := balance, 0, code, storage;
    }

    ghost function View(): Account
      reads this
    {
      Account(balance, nonce, code, storage)
    }
  }

  /** What a Go call returned: nil or an error, or how it panicked. */
  datatype Status = Ok | Error | Panicked | Dead

  class AccountStates {
    var m: map<Key, AccountState>

    constructor (m: map<Key, AccountState>)
      ensures this.m == m
    {
      this.m := m;
    }

    /** No two keys share an object. */
    ghost predicate Valid()
      reads this
    {
      forall j, k :: j in m && k in m && j != k ==> m[j] != m[k]
    }

    ghost function View(): State
      reads this, m.Values
    {
      map k | k in m :: m[k].View()
    }

    // -------------------------------------------------------------- elementary changes

    /** A change made through a pointer shows at the one key that has the object, or nowhere. */
    method Assign(a: AccountState, balance: U64, nonce: U64, storage: Avm.Storage)
      requires Valid()
      modifies a
      ensures a.View() == Account(balance, nonce, old(a.code), storage)
      ensures forall k :: k in m && m[k] == a ==> View() == old(View())[k := a.View()]
      ensures a !in m.Values ==> View() == old(View())
    {
      a.balance, a.nonce, a.storage := balance, nonce, storage;
    }

    method Insert(k: Key, a: AccountState)
      requires Valid() && a !in m.Values
      modifies this
      ensures Valid() && m == old(m)[k := a] && View() == old(View())[k := a.View()]
    {
      m := m[k := a];
    }

    // -------------------------------------------------------------- validation

    /** ValidateTransaction. */
    method ValidateTransaction(h: Host, tx: Tx) returns (v: Verdict)
      requires Valid()
      ensures v == Validate(h, View(), tx)
    {
      if tx.from == 0 { return Accept; }
      if tx.gasLimit == 0 { return Reject(ZeroGasLimit); }
      if tx.gasPrice == 0 { return Reject(ZeroGasPrice); }
      if !h.verify(tx) { return Reject(BadSignature); }
      if tx.from !in m { return Reject(NoSender); }
      var from := m[tx.from];
      var gas := Mul64(tx.gasLimit, tx.gasPrice);
      if gas / tx.gasLimit != tx.gasPrice { return Reject(GasOverflow); }
      var total := SafeAdd(tx.amount, gas);
      if total.None? { return Reject(TotalOverflow); }
      if tx.to == 0 && |tx.instructions| > 0 {
        total := SafeAdd(total.value, DEPLOYMENT_FEE);
        if total.None? { return Reject(TotalOverflow); }
      }
      if from.balance < total.value { return Reject(Insufficient); }
      if tx.nonce != Add64(from.nonce, 1) { return Reject(BadNonce); }
      return Accept;
    }

    // -------------------------------------------------------------- the executor

    /** executeContractDeployment, on the executor's own copy of the map. */
    method ExecuteDeployment(h: Host, tx: Tx) returns (gas: U64, st: Status)
      requires Valid() && tx.from in m
      modifies this
      ensures Valid()
      ensures forall k :: k in m ==> (k in old(m) && m[k] == old(m)[k]) || fresh(m[k])
      ensures match Deploy(h, old(View()), tx)
        case Executed(s, g) => st == Ok && gas == g && View() == s && m.Keys == old(m).Keys + {h.address(tx.from, old(View())[tx.from].nonce)}
                               && fresh(m[h.address(tx.from, old(View())[tx.from].nonce)])
                               && forall k :: k in old(m) && k != h.address(tx.from, old(View())[tx.from].nonce) ==> m[k] == old(m)[k]
        case Refused => st == Error && m == old(m)
        case Broke => st == Dead
    {
      var addr := h.address(tx.from, m[tx.from].nonce);
      if tx.gasLimit == 0 { return 0, Error; }
      var r := h.run(tx.instructions, ContextOf(tx, if tx.to == 0 then addr else tx.to), tx.gasLimit, 0, map[]);
      if r.end == Ending.Crashed { return r.gas, Dead; }
      if r.end == Erred { return r.gas, Error; }
      var contract := new AccountState(tx.amount, tx.instructions, r.storage);
      Insert(addr, contract);
      return r.gas, Ok;
    }

    /** executeContractCall: the recipient is changed through the shared pointer. */
    method ExecuteCall(h: Host, tx: Tx) returns (gas: U64, st: Status)
      requires Valid() && tx.to in m
      modifies m[tx.to]
      ensures match Call(h, old(View()), tx)
        case Executed(s, g) => st == Ok && gas == g && View() == s
        case Refused => false
        case Broke => st == Dead
    {
      var to := m[tx.to];
      Assign(to, Add64(to.balance, tx.amount), to.nonce, to.storage);
      gas := 0;
      if |to.code| > 0 && tx.gasLimit > 0 {
        var r := h.run(to.code, ContextOf(tx, tx.to), tx.gasLimit, 2, to.storage);
        if r.end == Ending.Crashed { return r.gas, Dead; }
        gas := r.gas;
        if r.end == Succeeded { Assign(to, to.balance, to.nonce, r.storage); }
      }
      return gas, Ok;
    }

    // -------------------------------------------------------------- application

    /** The accounts and the returned values show outcome `r`. */
    ghost predicate Shows(r: Outcome, gas: U64, st: Status)
      reads this, m.Values
    {
      match r
      case Applied(s, g) => st == Ok && gas == g && View() == s
      case Failed(s, g) => st == Error && gas == g && View() == s
      case Panic => st == Panicked
      case Crash => st == Dead
    }

    /** The end of every regular transaction. `from` is the sender's object, whether or not the map still has it. */
    method Charge(from: AccountState, tx: Tx, fixed: U64, gas: U64) returns (st: Status)
      requires Valid() && (from in m.Values ==> tx.from in m && m[tx.from] == from)
      modifies from
      ensures Shows(Settle(old(View()), old(from.View()), from !in m.Values, tx, fixed, gas), gas, st)
    {
      if gas > tx.gasLimit { return Error; }
      var cost := SafeAdd(fixed, Mul64(gas, tx.gasPrice));
      if cost.None? { return Panicked; }
      var left := SafeSubtract(from.balance, cost.value);
      if left.None? { return Panicked; }
      Assign(from, left.value, Add64(from.nonce, 1), from.storage);
      return Ok;
    }

    /** Crediting an account, which is created if need be. */
    method Pay(k: Key, amount: U64) returns (ok: bool)
      requires Valid()
      modifies this, m.Values
      ensures Valid() && (ok <==> Credit(old(View()), k, amount).Some?)
      ensures ok ==> View() == Credit(old(View()), k, amount).value && m.Keys == old(m).Keys + {k}
      ensures forall j :: j in old(m) ==> j in m && m[j] == old(m)[j]
      ensures forall j :: j in m ==> j in old(m) || fresh(m[j])
    {
      if k in m {
        var to := m[k];
        var b := SafeAdd(to.balance, amount);
        if b.None? { return false; }
        Assign(to, b.value, to.nonce, to.storage);
      } else {
        var a := new AccountState(amount, [], map[]);
        Insert(k, a);
      }
      return true;
    }

    /** A deployment by the executor on a copy of the map, copied back when it succeeds. */
    method Deployed(h: Host, tx: Tx) returns (used: U64, st: Status)
      requires Valid() && tx.from in m
      modifies this
      ensures Valid()
      ensures match Deploy(h, old(View()), tx)
        case Executed(s, g) =>
          var addr := h.address(tx.from, old(View())[tx.from].nonce);
          && st == Ok && used == g && View() == s && m.Keys == old(m).Keys + {addr}
          && fresh(m[addr]) && forall k :: k in old(m) && k != addr ==> m[k] == old(m)[k]
        case Refused => st == Error && m == old(m) && View() == old(View())
        case Broke => st == Dead && m == old(m)
    {
      var exec := new AccountStates(m);
      assert exec.View() == View();
      used, st := exec.ExecuteDeployment(h, tx);
      if st == Ok { Merge(exec.m); }
    }

    /** What the executor's map has replaces what this one has. */
    method Merge(other: map<Key, AccountState>)
      requires m.Keys <= other.Keys
      modifies this
      ensures m == other
    {
      assert m + other == other;
      m := m + other;
    }

    /** The loop over the instructions of a new contract. */
    method AllValid(code: seq<Instruction>) returns (ok: bool)
      ensures ok <==> forall i :: 0 <= i < |code| ==> Bytecode.Valid(code[i])
    {
      var i := 0;
      while i < |code|
        invariant 0 <= i <= |code| && forall j :: 0 <= j < i ==> Bytecode.Valid(code[j])
      {
        if !Bytecode.Valid(code[i]) { return false; }
        i := i + 1;
      }
      return true;
    }

    method ApplyDeployment(h: Host, tx: Tx) returns (gas: U64, st: Status)
      requires Valid() && tx.from in m
      modifies this, m.Values
      ensures Valid() && Shows(Ledger.ApplyDeployment(h, old(View()), tx), gas, st)
      ensures forall k :: k in m ==> (k in old(m) && m[k] == old(m)[k]) || fresh(m[k])
    {
      var from := m[tx.from];
      gas := BaseGas(GAS_DEPLOY, tx);
      var fixed := SafeAdd(tx.amount, DEPLOYMENT_FEE);
      if fixed.None? { return gas, Panicked; }
      var ok := AllValid(tx.instructions);
      if !ok { return gas, Error; }
      var used;
      used, st := Deployed(h, tx);
      if st != Ok { return; }
      gas := Add64(gas, used);
      st := Charge(from, tx, fixed.value, gas);
    }

    /** A call by the executor: its copy of the map shares the objects. */
    method Called(h: Host, tx: Tx) returns (used: U64, st: Status)
      requires Valid() && tx.to in m
      modifies this, m[tx.to]
      ensures m == old(m)
      ensures match Call(h, old(View()), tx)
        case Executed(s, g) => st == Ok && used == g && View() == s
        case Refused => false
        case Broke => st == Dead
    {
      var exec := new AccountStates(m);
      assert exec.View() == View();
      used, st := exec.ExecuteCall(h, tx);
      if st == Ok { Merge(exec.m); }
      assert exec.View() == View();
    }

    /** ExecuteTransaction: a transaction that carries code deploys it. */
    method ExecuteTransaction(h: Host, tx: Tx) returns (used: U64, st: Status)
      requires Valid() && tx.to in m && tx.from in m
      modifies this, m[tx.to]
      ensures Valid()
      ensures match ExecuteTx(h, old(View()), tx)
        case Executed(s, g) =>
          var detached := tx.instructions != [] && h.address(tx.from, old(View())[tx.from].nonce) == tx.from;
          && st == Ok && used == g && View() == s && tx.from in m
          && (if detached then fresh(m[tx.from]) else m[tx.from] == old(m)[tx.from])
        case Refused => st == Error && m == old(m) && View() == old(View())
        case Broke => st == Dead
      ensures tx.instructions != [] ==> old(m[tx.to]).View() == old(m[tx.to].View())
      ensures forall k :: k in m ==> (k in old(m) && m[k] == old(m)[k]) || fresh(m[k])
    {
      if |tx.instructions| > 0 { used, st := Deployed(h, tx); } else { used, st := Called(h, tx); }
    }

    method FinishTransfer(h: Host, tx: Tx, contract: bool) returns (gas: U64, st: Status)
      requires Valid() && tx.from in m && tx.to in m
      modifies this, m[tx.from], m[tx.to]
      ensures Valid() && Shows(Ledger.FinishTransfer(h, old(View()), tx, contract), gas, st)
      ensures forall k :: k in m ==> (k in old(m) && m[k] == old(m)[k]) || fresh(m[k])
    {
      var from := m[tx.from];
      gas := BaseGas(GAS_TRANSFER, tx);
      if contract {
        var used;
        used, st := ExecuteTransaction(h, tx);
        if st == Dead { return; }
        if st == Ok {
          gas := Add64(gas, used);
          ghost var detached := tx.instructions != [] && h.address(tx.from, old(View())[tx.from].nonce) == tx.from;
          assert detached <==> from !in m.Values;
          assert from.View() == SenderAfter(old(View()), View(), tx, detached);
        }
      }
      st := Charge(from, tx, tx.amount, gas);
    }

    /** A transfer: the recipient is credited, a contract is run, the sender is charged. */
    method ApplyTransfer(h: Host, tx: Tx) returns (gas: U64, st: Status)
      requires Valid() && tx.from in m
      modifies this, m.Values
      ensures Valid() && Shows(Ledger.ApplyTransfer(h, old(View()), tx), gas, st)
      ensures forall k :: k in m ==> (k in old(m) && m[k] == old(m)[k]) || fresh(m[k])
    {
      var contract := tx.to in m && |m[tx.to].code| > 0;
      var ok := Pay(tx.to, tx.amount);
      if !ok { return 0, Panicked; }
      gas, st := FinishTransfer(h, tx, contract);
    }

    /** ApplyTransaction. */
    method ApplyTransaction(h: Host, tx: Tx) returns (gas: U64, st: Status)
      requires Valid()
      modifies this, m.Values
      ensures Valid() && Shows(Apply(h, old(View()), tx), gas, st)
      ensures forall k :: k in m ==> (k in old(m) && m[k] == old(m)[k]) || fresh(m[k])
    {
      if tx.from == 0 {
        var ok := Pay(tx.to, tx.amount);
        return 0, if ok then Ok else Panicked;
      }
      if tx.from !in m { return 0, Error; }
      if tx.to == 0 && |tx.instructions| > 0 {
        gas, st := ApplyDeployment(h, tx);
      } else if tx.to != 0 {
        gas, st := ApplyTransfer(h, tx);
      } else {
        return GAS_TRANSFER, Ok;
      }
    }

    /** A copy with objects of its own. */
    method Copy() returns (c: AccountStates)
      requires Valid()
      ensures fresh(c) && c.Valid() && c.View() == View() && forall k :: k in c.m ==> fresh(c.m[k])
    {
      var copies: map<Key, AccountState> := map[];
      var keys := m.Keys;
      while keys != {}
        invariant keys <= m.Keys && copies.Keys == m.Keys - keys
        invariant forall k :: k in copies ==> fresh(copies[k]) && copies[k].View() == m[k].View()
        invariant forall j, k :: j in copies && k in copies && j != k ==> copies[j] != copies[k]
        decreases keys
      {
        var k :| k in keys;
        var a := new AccountState(m[k].balance, m[k].code, m[k].storage);
        a.nonce := m[k].nonce;
        copies := copies[k := a];
        keys := keys - {k};
      }
      c := new AccountStates(copies);
    }
  }
}
