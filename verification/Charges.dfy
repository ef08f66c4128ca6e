/** What a transaction is charged, and when it applies, in numbers: 21000 units of gas, 68 for each byte of data, and what the
    contract used. */
module Charges {
  import opened Text
  import opened Bytecode
  import opened Ledger
  import opened Supply
  import Avm

  /** Gas before any contract runs. */
  function Base(tx: Tx): nat { 21000 + 68 * |tx.data| }

  lemma BaseIs(tx: Tx)
    requires Base(tx) < TWO64
    ensures BaseGas(GAS_TRANSFER, tx) == Base(tx) && BaseGas(GAS_DEPLOY, tx) == Base(tx)
  {
  }

  /** What a contract is told: the sender is caller and origin, the amount is the value, `key` is its own address. */
  function Told(tx: Tx, key: Key): Avm.Context {
    Avm.Context(blockNumber := 1, blockHash := 0, lastBlockHash := 0, timestamp := 1640995200, difficulty := 0x207fffff, gasLimit := tx.gasLimit,
                coinbase := 0, caller := tx.from, origin := tx.from, gasPrice := tx.gasPrice, callValue := tx.amount, contractAddress := key, data := tx.data)
  }

  /** The run of `init`, from address 0 with empty storage. */
  function InitRun(h: Host, tx: Tx, key: Key): Ran { h.run(tx.instructions, Told(tx, key), tx.gasLimit, 0, map[]) }

  /** The run of a contract that is called, from address 2 with its own storage. */
  function CallRun(h: Host, s: State, tx: Tx): Ran
    requires tx.to in s
  {
    h.run(s[tx.to].code, Told(tx, tx.to), tx.gasLimit, 2, s[tx.to].storage)
  }

  // ---------------------------------------------------------------- gas

  /** A transfer uses its base gas. */
  lemma TransferGas(h: Host, s: State, tx: Tx, r: Outcome)
    requires tx.from in s && tx.from != 0 && tx.to != 0 && (tx.to !in s || s[tx.to].code == []) && Base(tx) < TWO64
    requires r == Apply(h, s, tx) && r.Applied?
    ensures r.gas == Base(tx) <= tx.gasLimit
  {
    BaseIs(tx);
  }

  /** A call uses its base gas and what the contract used. */
  lemma CallGas(h: Host, s: State, tx: Tx, r: Outcome)
    requires tx.from in s && tx.from != 0 && tx.gasLimit > 0 && IsCall(s, tx) && Base(tx) + CallRun(h, s, tx).gas < TWO64
    requires r == Apply(h, s, tx) && r.Applied?
    ensures r.gas == Base(tx) + CallRun(h, s, tx).gas <= tx.gasLimit
  {
    BaseIs(tx);
  }

  /** A deployment uses its base gas and what `init` used. */
  lemma DeploymentGas(h: Host, s: State, tx: Tx, r: Outcome)
    requires tx.from in s && tx.from != 0 && tx.gasLimit > 0 && IsDeployment(tx)
    requires var key := h.address(tx.from, s[tx.from].nonce); Base(tx) + InitRun(h, tx, key).gas < TWO64
    requires r == Apply(h, s, tx) && r.Applied?
    ensures var key := h.address(tx.from, s[tx.from].nonce); r.gas == Base(tx) + InitRun(h, tx, key).gas <= tx.gasLimit
  {
    BaseIs(tx);
  }

  /** Code sent to a contract uses its base gas and what `init` used, if that succeeds; `init` is told the recipient's address. */
  lemma MisdirectedGas(h: Host, s: State, tx: Tx, r: Outcome)
    requires tx.from in s && tx.from != 0 && tx.gasLimit > 0 && IsMisdirected(s, tx) && Base(tx) + InitRun(h, tx, tx.to).gas < TWO64
    requires r == Apply(h, s, tx) && r.Applied?
    ensures r.gas == Base(tx) + (if InitRun(h, tx, tx.to).end.Succeeded? then InitRun(h, tx, tx.to).gas else 0) <= tx.gasLimit
  {
    BaseIs(tx);
  }

  // ---------------------------------------------------------------- what applies

  /** A deployment that validates applies if and only if its instructions are valid, `init` succeeds and the gas is within the
      limit. */
  lemma DeploymentAppliesExactly(h: Host, s: State, tx: Tx)
    requires Validate(h, s, tx).Accept? && tx.from != 0 && IsDeployment(tx)
    requires var key := h.address(tx.from, s[tx.from].nonce); Base(tx) + InitRun(h, tx, key).gas < TWO64
    ensures var init := InitRun(h, tx, h.address(tx.from, s[tx.from].nonce));
      Apply(h, s, tx).Applied? <==> (forall i :: 0 <= i < |tx.instructions| ==> Valid(tx.instructions[i])) && init.end.Succeeded? && Base(tx) + init.gas <= tx.gasLimit
  {
    ValidateExactly(h, s, tx);
    DeploymentNoPanic(h, s, tx);
    DeploymentEnds(h, s, tx, ApplyDeployment(h, s, tx));
  }

  lemma DeploymentEnds(h: Host, s: State, tx: Tx, r: Outcome)
    requires tx.from in s && tx.gasLimit > 0 && IsDeployment(tx) && r == ApplyDeployment(h, s, tx) && !r.Panic?
    requires var key := h.address(tx.from, s[tx.from].nonce); Base(tx) + InitRun(h, tx, key).gas < TWO64
    ensures var init := InitRun(h, tx, h.address(tx.from, s[tx.from].nonce));
      r.Applied? <==> (forall i :: 0 <= i < |tx.instructions| ==> Valid(tx.instructions[i])) && init.end.Succeeded? && Base(tx) + init.gas <= tx.gasLimit
  {
    BaseIs(tx);
    DeployEnds(h, s, tx);
  }

  lemma DeployEnds(h: Host, s: State, tx: Tx)
    requires tx.from in s && tx.gasLimit > 0 && IsDeployment(tx)
    ensures var d, init := Deploy(h, s, tx), InitRun(h, tx, h.address(tx.from, s[tx.from].nonce));
      (d.Executed? <==> init.end.Succeeded?) && (d.Executed? ==> d.gas == init.gas)
  {
  }

  /** A call that validates applies if and only if the contract does not crash, the gas is within the limit, and it is not a
      self-call that overflows. A contract that fails does not matter. */
  lemma CallAppliesExactly(h: Host, s: State, tx: Tx)
    requires Validate(h, s, tx).Accept? && tx.from != 0 && IsCall(s, tx) && Total(s) < TWO63 && Base(tx) + CallRun(h, s, tx).gas < TWO64
    ensures Apply(h, s, tx).Applied? <==> !CallRun(h, s, tx).end.Crashed? && Base(tx) + CallRun(h, s, tx).gas <= tx.gasLimit && !SelfCallOverflow(s, tx)
  {
    ValidateExactly(h, s, tx);
    if SelfCallOverflow(s, tx) {
      SelfCallNeverApplies(h, s, tx);
    } else {
      NoPanic(h, s, tx);
      RecipientFits(s, tx);
      CallApplies(h, s, tx, Credit(s, tx.to, tx.amount).value, Apply(h, s, tx));
    }
  }

  lemma CallApplies(h: Host, s: State, tx: Tx, t: State, r: Outcome)
    requires tx.from in s && tx.from != 0 && tx.gasLimit > 0 && Credit(s, tx.to, tx.amount) == Some(t) && IsCall(s, tx)
    requires Base(tx) + CallRun(h, s, tx).gas < TWO64 && r == Apply(h, s, tx) && !r.Panic?
    ensures r.Applied? <==> !CallRun(h, s, tx).end.Crashed? && Base(tx) + CallRun(h, s, tx).gas <= tx.gasLimit
  {
    BaseIs(tx);
    CallEnds(h, s, tx, t);
  }

  lemma CallEnds(h: Host, s: State, tx: Tx, t: State)
    requires tx.from in s && tx.from != 0 && tx.gasLimit > 0 && IsCall(s, tx) && Credit(s, tx.to, tx.amount) == Some(t)
    ensures var r, run := Apply(h, s, tx), CallRun(h, s, tx);
      && (r.Crash? <==> run.end.Crashed?)
      && (r.Failed? <==> !run.end.Crashed? && Add64(BaseGas(GAS_TRANSFER, tx), run.gas) > tx.gasLimit)
  {
    assert Apply(h, s, tx) == FinishTransfer(h, t, tx, true);
    CalledRun(h, s, tx, t);
  }

  lemma CalledRun(h: Host, s: State, tx: Tx, t: State)
    requires tx.from in s && tx.gasLimit > 0 && IsCall(s, tx) && Credit(s, tx.to, tx.amount) == Some(t)
    ensures var e, run := Call(h, t, tx), CallRun(h, s, tx);
      if run.end.Crashed? then e.Broke? else e.Executed? && e.gas == run.gas && tx.from in e.state && tx.from in t
  {
  }

  // ---------------------------------------------------------------- who has what afterwards

  /** The accounts when a contract was called, before the sender is charged: the recipient has the amount twice and, if the run
      succeeded, the storage it left. */
  function Called(h: Host, s: State, tx: Tx): State
    requires tx.to in s
  {
    var b, run := s[tx.to].balance + 2 * tx.amount, CallRun(h, s, tx);
    s[tx.to := Account(if b < TWO64 then b else 0, s[tx.to].nonce, s[tx.to].code, if run.end.Succeeded? then run.storage else s[tx.to].storage)]
  }

  /** What an applied call does: that, and the sender pays the amount once and the gas used. */
  lemma CallEffect(h: Host, s: State, tx: Tx, r: Outcome)
    requires Validate(h, s, tx).Accept? && tx.from != 0 && IsCall(s, tx) && r == Apply(h, s, tx) && r.Applied? && Total(s) < TWO63
    ensures s[tx.to].balance + 2 * tx.amount < TWO64 && Charged(Called(h, s, tx), tx.from, tx.amount + GasPaid(tx, r.gas), r.state)
  {
    ValidateExactly(h, s, tx);
    RecipientFits(s, tx);
    if SelfCallOverflow(s, tx) { SelfCallNeverApplies(h, s, tx); }
    CalledSettles(h, s, Credit(s, tx.to, tx.amount).value, tx, r);
    SettledCharges(Called(h, s, tx), tx, r);
  }

  lemma SettledCharges(u: State, tx: Tx, r: Outcome)
    requires tx.from in u && tx.amount + Times(tx.gasLimit, tx.gasPrice) <= u[tx.from].balance && r.Applied?
    requires exists gas :: r == Settle(u, u[tx.from], false, tx, tx.amount, gas)
    ensures Charged(u, tx.from, tx.amount + GasPaid(tx, r.gas), r.state)
  {
    AlwaysSettles(u, tx, tx.amount);
  }

  lemma CalledSettles(h: Host, s: State, t: State, tx: Tx, r: Outcome)
    requires tx.from in s && tx.gasLimit > 0 && IsCall(s, tx) && Credit(s, tx.to, tx.amount) == Some(t) && s[tx.to].balance + 2 * tx.amount < TWO64
    requires r == ApplyTransfer(h, s, tx) && r.Applied?
    ensures var u := Called(h, s, tx); u[tx.from].balance >= s[tx.from].balance && exists gas :: r == Settle(u, u[tx.from], false, tx, tx.amount, gas)
  {
    CallSettles(h, s, t, tx, r);
    CallPuts(h, s, t, tx);
  }

  lemma CallPuts(h: Host, s: State, t: State, tx: Tx)
    requires tx.from in s && tx.gasLimit > 0 && IsCall(s, tx) && Credit(s, tx.to, tx.amount) == Some(t) && Call(h, t, tx).Executed?
    requires s[tx.to].balance + 2 * tx.amount < TWO64
    ensures Call(h, t, tx).state == Called(h, s, tx)
  {
    var e, u := Call(h, t, tx), Called(h, s, tx);
    assert e.state[tx.to] == u[tx.to];
    assert e.state == t[tx.to := u[tx.to]] && t[tx.to := u[tx.to]] == u;
  }

  /** The accounts when code sent to a contract was deployed at `key`: the recipient has the amount, and so has the new contract, with
      the storage that `init` left. */
  function Beside(h: Host, s: State, tx: Tx, key: Key): State
    requires tx.to in s
  {
    var b := s[tx.to].balance + tx.amount;
    s[tx.to := s[tx.to].(balance := if b < TWO64 then b else 0)][key := Account(tx.amount, 0, tx.instructions, InitRun(h, tx, tx.to).storage)]
  }

  /** What such an applied transaction does: that, and the sender, unless it was replaced, pays the amount once and the gas used. */
  lemma MisdirectedEffect(h: Host, s: State, tx: Tx, r: Outcome)
    requires Validate(h, s, tx).Accept? && tx.from != 0 && IsMisdirected(s, tx) && InitRun(h, tx, tx.to).end.Succeeded?
    requires r == Apply(h, s, tx) && r.Applied? && Total(s) < TWO63
    ensures s[tx.to].balance + tx.amount < TWO64
    ensures var key := h.address(tx.from, s[tx.from].nonce);
      if key == tx.from then r.state == Beside(h, s, tx, key) else Charged(Beside(h, s, tx, key), tx.from, tx.amount + GasPaid(tx, r.gas), r.state)
  {
    ValidateExactly(h, s, tx);
    RecipientFits(s, tx);
    var key := h.address(tx.from, s[tx.from].nonce);
    MisdirectedSettles(h, s, Credit(s, tx.to, tx.amount).value, tx, r, key);
    if key != tx.from { SettledCharges(Beside(h, s, tx, key), tx, r); }
  }

  lemma MisdirectedSettles(h: Host, s: State, t: State, tx: Tx, r: Outcome, key: Key)
    requires tx.from in s && tx.from != 0 && tx.gasLimit > 0 && IsMisdirected(s, tx) && Credit(s, tx.to, tx.amount) == Some(t)
    requires InitRun(h, tx, tx.to).end.Succeeded? && key == h.address(tx.from, s[tx.from].nonce) && r == Apply(h, s, tx) && r.Applied?
    ensures var u := Beside(h, s, tx, key);
      if key == tx.from then r.state == u
      else tx.from in u && u[tx.from].balance >= s[tx.from].balance && exists gas :: r == Settle(u, u[tx.from], false, tx, tx.amount, gas)
  {
    var u := Beside(h, s, tx, key);
    assert Deploy(h, t, tx).state == u;
    if key != tx.from { assert r == Settle(u, u[tx.from], false, tx, tx.amount, r.gas); }
  }
}
