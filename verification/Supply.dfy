/** Money: no overflow or underflow panic after validation, and conservation of the supply. */
module Supply {
  import opened Text
  import opened Bytecode
  import opened Ledger

  // ---------------------------------------------------------------- total supply

  ghost function Total(s: State): nat {
    if s == map[] then 0 else var k :| k in s; s[k].balance + Total(s - {k})
  }

  lemma {:induction false} TotalAt(s: State, k: Key)
    requires k in s
    ensures Total(s) == s[k].balance + Total(s - {k})
    decreases |s|
  {
    var j :| j in s && Total(s) == s[j].balance + Total(s - {j});
    if j != k {
      TotalAt(s - {j}, k);
      TotalAt(s - {k}, j);
      assert s - {j} - {k} == s - {k} - {j};
    }
  }

  lemma TotalNew(s: State, k: Key, a: Account)
    requires k !in s
    ensures Total(s[k := a]) == Total(s) + a.balance
  {
    TotalAt(s[k := a], k);
    assert s[k := a] - {k} == s;
  }

  lemma TotalChange(s: State, k: Key, a: Account)
    requires k in s
    ensures Total(s[k := a]) == Total(s) - s[k].balance + a.balance
  {
    TotalAt(s[k := a], k);
    TotalAt(s, k);
    assert s[k := a] - {k} == s - {k};
  }

  /** The balance an account has or would start with. */
  function Held(s: State, k: Key): nat { if k in s then s[k].balance else 0 }

  /** An account put in place of whatever was there. */
  lemma TotalPut(s: State, k: Key, a: Account)
    ensures Total(s[k := a]) + Held(s, k) == Total(s) + a.balance
  {
    if k in s { TotalChange(s, k, a); } else { TotalNew(s, k, a); }
  }

  lemma BalanceBelow(s: State, k: Key)
    requires k in s
    ensures s[k].balance <= Total(s)
  {
    TotalAt(s, k);
  }

  lemma TwoBelow(s: State, j: Key, k: Key)
    requires j in s && k in s && j != k
    ensures s[j].balance + s[k].balance <= Total(s)
  {
    TotalAt(s, j);
    TotalAt(s - {j}, k);
  }

  lemma CreditTotal(s: State, k: Key, amount: U64)
    requires Credit(s, k, amount).Some?
    ensures Total(Credit(s, k, amount).value) == Total(s) + amount
  {
    if k in s {
      TotalChange(s, k, s[k].(balance := SafeAdd(s[k].balance, amount).value));
    } else {
      TotalNew(s, k, Account(amount, 0, [], map[]));
    }
  }

  // ---------------------------------------------------------------- no panic after validation

  /** The price of gas, as a mathematical number. */
  function GasPaid(tx: Tx, gas: nat): (r: nat)
    ensures gas <= tx.gasLimit ==> r <= Times(tx.gasLimit, tx.gasPrice)
  {
    assert gas <= tx.gasLimit ==> Times(gas, tx.gasPrice) <= Times(tx.gasLimit, tx.gasPrice) by {
      if gas <= tx.gasLimit { TimesGrows(gas, tx.gasLimit, tx.gasPrice); }
    }
    Times(gas, tx.gasPrice)
  }

  /** `t` is `s` after the sender paid `cost`. */
  ghost predicate Charged(s: State, from: Key, cost: nat, t: State) {
    from in s && cost <= s[from].balance && t == s[from := s[from].(balance := s[from].balance - cost, nonce := Add64(s[from].nonce, 1))]
  }

  /** `r` is an error, or the sender paid `fixed` and the gas used. */
  ghost predicate Settled(s: State, tx: Tx, fixed: nat, r: Outcome) {
    && (r.Failed? || r.Applied?)
    && (r.Applied? ==> r.gas <= tx.gasLimit && Mul64(r.gas, tx.gasPrice) == GasPaid(tx, r.gas) && Charged(s, tx.from, fixed + GasPaid(tx, r.gas), r.state))
  }

  lemma SettleFits(s: State, tx: Tx, fixed: U64, gas: U64)
    requires tx.from in s && fixed + Times(tx.gasLimit, tx.gasPrice) <= s[tx.from].balance
    ensures Settled(s, tx, fixed, Settle(s, s[tx.from], false, tx, fixed, gas))
    ensures forall t :: !Settle(t, s[tx.from], true, tx, fixed, gas).Panic?
  {
    var _ := GasPaid(tx, gas);
  }

  /** Settling works out whenever the sender's object holds the maximum cost. */
  lemma AlwaysSettles(s: State, tx: Tx, fixed: U64)
    requires tx.from in s && fixed + Times(tx.gasLimit, tx.gasPrice) <= s[tx.from].balance
    ensures forall gas {:trigger Settle(s, s[tx.from], false, tx, fixed, gas)} :: Settled(s, tx, fixed, Settle(s, s[tx.from], false, tx, fixed, gas))
    ensures forall t, gas {:trigger Settle(t, s[tx.from], true, tx, fixed, gas)} :: !Settle(t, s[tx.from], true, tx, fixed, gas).Panic?
  {
    forall gas ensures Settled(s, tx, fixed, Settle(s, s[tx.from], false, tx, fixed, gas)) { SettleFits(s, tx, fixed, gas); }
    forall t, gas ensures !Settle(t, s[tx.from], true, tx, fixed, gas).Panic? { SettleFits(s, tx, fixed, gas); }
  }

  /** A contract account that calls itself is credited twice before it is debited once; this is the one way past the
      balance check. */
  predicate SelfCallOverflow(s: State, tx: Tx) {
    && tx.from == tx.to && tx.from in s && s[tx.from].code != [] && tx.instructions == []
    && s[tx.from].balance + 2 * tx.amount >= TWO64
  }

  lemma RecipientFits(s: State, tx: Tx)
    requires tx.from in s && tx.amount <= s[tx.from].balance && Total(s) < TWO63
    ensures Credit(s, tx.to, tx.amount).Some?
    ensures tx.to in s && tx.to != tx.from ==> s[tx.to].balance + 2 * tx.amount < TWO64
  {
    BalanceBelow(s, tx.from);
    if tx.to in s {
      BalanceBelow(s, tx.to);
      if tx.to != tx.from { TwoBelow(s, tx.from, tx.to); }
    }
  }

  lemma SettleNoPanic(s: State, from: Account, detached: bool, tx: Tx, fixed: U64, gas: U64)
    requires fixed + Times(tx.gasLimit, tx.gasPrice) <= from.balance
    ensures !Settle(s, from, detached, tx, fixed, gas).Panic?
  {
    var _ := GasPaid(tx, gas);
  }

  lemma TransferNoPanic(h: Host, s: State, tx: Tx)
    requires tx.from in s && tx.to != 0 && MaxCost(tx) <= s[tx.from].balance && Total(s) < TWO63 && !SelfCallOverflow(s, tx)
    ensures !ApplyTransfer(h, s, tx).Panic?
  {
    RecipientFits(s, tx);
    FinishNoPanic(h, s, Credit(s, tx.to, tx.amount).value, tx);
  }

  lemma FinishNoPanic(h: Host, s: State, t: State, tx: Tx)
    requires tx.from in s && tx.to != 0 && MaxCost(tx) <= s[tx.from].balance && !SelfCallOverflow(s, tx)
    requires Credit(s, tx.to, tx.amount) == Some(t) && (tx.to in s && tx.to != tx.from ==> s[tx.to].balance + 2 * tx.amount < TWO64)
    ensures !FinishTransfer(h, t, tx, tx.to in s && s[tx.to].code != []).Panic?
  {
    var gas := BaseGas(GAS_TRANSFER, tx);
    SettleNoPanic(t, t[tx.from], false, tx, tx.amount, gas);
    if tx.to in s && s[tx.to].code != [] {
      var e := ExecuteTx(h, t, tx);
      if e.Executed? {
        var detached := tx.instructions != [] && h.address(tx.from, t[tx.from].nonce) == tx.from;
        SettleNoPanic(e.state, SenderAfter(t, e.state, tx, detached), detached, tx, tx.amount, Add64(gas, e.gas));
      }
    }
  }

  lemma DeploymentNoPanic(h: Host, s: State, tx: Tx)
    requires tx.from in s && IsDeployment(tx) && MaxCost(tx) <= s[tx.from].balance
    ensures !ApplyDeployment(h, s, tx).Panic?
  {
    var e := Deploy(h, s, tx);
    if e.Executed? {
      var detached := h.address(tx.from, s[tx.from].nonce) == tx.from;
      SettleNoPanic(e.state, SenderAfter(s, e.state, tx, detached), detached, tx, tx.amount + DEPLOYMENT_FEE, Add64(BaseGas(GAS_DEPLOY, tx), e.gas));
    }
  }

  /** No panic after validation, with a supply below 2^63. */
  lemma NoPanic(h: Host, s: State, tx: Tx)
    requires Validate(h, s, tx).Accept? && Total(s) < TWO63 && (tx.from == 0 ==> Total(s) + tx.amount < TWO64)
    requires !SelfCallOverflow(s, tx)
    ensures !Apply(h, s, tx).Panic?
  {
    ValidateExactly(h, s, tx);
    if tx.from == 0 {
      if tx.to in s { BalanceBelow(s, tx.to); }
    } else if IsDeployment(tx) {
      DeploymentNoPanic(h, s, tx);
    } else if tx.to != 0 {
      TransferNoPanic(h, s, tx);
    }
  }

  /** In the excluded case an accepted transaction is never applied. */
  lemma SelfCallNeverApplies(h: Host, s: State, tx: Tx)
    requires Validate(h, s, tx).Accept? && Total(s) < TWO63 && tx.from != 0 && SelfCallOverflow(s, tx)
    ensures !Apply(h, s, tx).Applied?
  {
    ValidateExactly(h, s, tx);
    if tx.to != 0 { SelfCallFails(h, s, tx); }
  }

  lemma SelfCallFails(h: Host, s: State, tx: Tx)
    requires Total(s) < TWO63 && SelfCallOverflow(s, tx) && tx.amount <= s[tx.from].balance
    ensures !ApplyTransfer(h, s, tx).Applied?
  {
    BalanceBelow(s, tx.from);
    var t := Credit(s, tx.to, tx.amount).value;
    var e := ExecuteTx(h, t, tx);
    if e.Executed? {
      assert e.state[tx.from].balance == s[tx.from].balance + 2 * tx.amount - TWO64 < tx.amount;
    }
  }

  /** The condition is exact: an accepted regular transaction panics if and only if it is a self-call that overflows, whose
      contract comes to an end within the gas limit. */
  lemma PanicsExactly(h: Host, s: State, tx: Tx)
    requires Validate(h, s, tx).Accept? && tx.from != 0 && Total(s) < TWO63
    ensures Credit(s, tx.to, tx.amount).Some?
    ensures Apply(h, s, tx).Panic? <==>
            && SelfCallOverflow(s, tx) && tx.to != 0
            && var e := Call(h, Credit(s, tx.to, tx.amount).value, tx);
            e.Executed? && Add64(BaseGas(GAS_TRANSFER, tx), e.gas) <= tx.gasLimit
  {
    ValidateExactly(h, s, tx);
    RecipientFits(s, tx);
    if SelfCallOverflow(s, tx) {
      OverflowPanics(h, s, tx, Credit(s, tx.to, tx.amount).value);
    } else {
      NoPanic(h, s, tx);
    }
  }

  lemma OverflowPanics(h: Host, s: State, tx: Tx, t: State)
    requires Total(s) < TWO63 && SelfCallOverflow(s, tx) && MaxCost(tx) <= s[tx.from].balance && Credit(s, tx.to, tx.amount) == Some(t)
    ensures ApplyTransfer(h, s, tx).Panic? <==> var e := Call(h, t, tx); e.Executed? && Add64(BaseGas(GAS_TRANSFER, tx), e.gas) <= tx.gasLimit
  {
    BalanceBelow(s, tx.from);
    var e := Call(h, t, tx);
    if e.Executed? {
      assert e.state[tx.from].balance == s[tx.from].balance + 2 * tx.amount - TWO64 < tx.amount;
    }
  }

  /** It happens: a contract that holds nearly 2^63 and sends itself three quarters of it. */
  lemma PanicHappens(h: Host, tx: Tx, s: State)
    requires s == map[1 := Account(TWO63 - 1, 0, [Op(STOP)], map[])] && h.verify(tx) && h.run == AvmRun
    requires tx.from == tx.to == 1 && tx.amount == 0x6000_0000_0000_0000 && tx.gasLimit == 30000 && tx.gasPrice == 1 && tx.nonce == 1
    requires tx.instructions == [] && tx.data == []
    ensures Total(s) < TWO63 && Validate(h, s, tx).Accept? && Apply(h, s, tx).Panic?
  {
    TotalAt(s, 1);
    assert s - {1} == map[];
    TimesIs(30000, 1);
    ValidateExactly(h, s, tx);
    PanicsExactly(h, s, tx);
  }

  // ---------------------------------------------------------------- one transaction

  /** A call of a contract. */
  predicate IsCall(s: State, tx: Tx) { tx.to != 0 && tx.to in s && s[tx.to].code != [] && tx.instructions == [] }

  /** A transfer to an account without code, a call without value, or a deployment to an address that holds nothing. */
  predicate Plain(h: Host, s: State, tx: Tx) {
    && tx.from != 0 && tx.from in s
    && (if IsDeployment(tx) then Held(s, h.address(tx.from, s[tx.from].nonce)) == 0
        else tx.to != 0 && (tx.to !in s || s[tx.to].code == [] || (IsCall(s, tx) && tx.amount == 0)))
  }

  function Fee(tx: Tx): nat { if IsDeployment(tx) then DEPLOYMENT_FEE else 0 }

  /** The accounts after a plain transaction has credited its recipient. */
  function Credited(h: Host, s: State, tx: Tx): State
    requires Plain(h, s, tx)
  {
    if IsDeployment(tx) then
      var addr := h.address(tx.from, s[tx.from].nonce);
      s[addr := Account(tx.amount, 0, tx.instructions, h.run(tx.instructions, ContextOf(tx, addr), tx.gasLimit, 0, map[]).storage)]
    else if IsCall(s, tx) then
      var r := h.run(s[tx.to].code, ContextOf(tx, tx.to), tx.gasLimit, 2, s[tx.to].storage);
      s[tx.to := s[tx.to].(storage := if r.end.Succeeded? then r.storage else s[tx.to].storage)]
    else if tx.to in s then
      var b := s[tx.to].balance + tx.amount;
      s[tx.to := s[tx.to].(balance := if b < TWO64 then b else 0)]
    else s[tx.to := Account(tx.amount, 0, [], map[])]
  }

  lemma PlainDeployment(h: Host, s: State, tx: Tx, r: Outcome)
    requires Plain(h, s, tx) && MaxCost(tx) <= s[tx.from].balance && IsDeployment(tx) && r == ApplyDeployment(h, s, tx) && r.Applied?
    ensures Settled(Credited(h, s, tx), tx, tx.amount + Fee(tx), r)
  {
    var t := Credited(h, s, tx);
    AlwaysSettles(t, tx, tx.amount + DEPLOYMENT_FEE);
  }

  lemma PlainCall(h: Host, s: State, tx: Tx, r: Outcome)
    requires Plain(h, s, tx) && MaxCost(tx) <= s[tx.from].balance && tx.gasLimit > 0 && IsCall(s, tx) && r == ApplyTransfer(h, s, tx) && r.Applied?
    ensures Settled(Credited(h, s, tx), tx, tx.amount + Fee(tx), r)
  {
    var t := Credited(h, s, tx);
    assert s[tx.to].(balance := Add64(s[tx.to].balance, tx.amount)) == s[tx.to];
    assert Credit(s, tx.to, tx.amount).value == s;
    CallSettles(h, s, s, tx, r);
    assert Call(h, s, tx).state == t;
    AlwaysSettles(t, tx, tx.amount);
  }

  lemma PlainTransfer(h: Host, s: State, tx: Tx, r: Outcome)
    requires Plain(h, s, tx) && MaxCost(tx) <= s[tx.from].balance && !IsDeployment(tx) && !IsCall(s, tx) && r == ApplyTransfer(h, s, tx) && r.Applied?
    ensures Settled(Credited(h, s, tx), tx, tx.amount + Fee(tx), r) && Credit(s, tx.to, tx.amount) == Some(Credited(h, s, tx))
  {
    var t := Credited(h, s, tx);
    AlwaysSettles(t, tx, tx.amount);
  }

  /** What an applied plain transaction does: credit the recipient, charge the sender the amount, the fee and the gas that
      was really used (self-transfers included), and move the sender's nonce. */
  lemma PlainEffect(h: Host, s: State, tx: Tx, r: Outcome)
    requires Validate(h, s, tx).Accept? && Plain(h, s, tx) && r == Apply(h, s, tx) && r.Applied?
    ensures Settled(Credited(h, s, tx), tx, tx.amount + Fee(tx), r)
    ensures Total(Credited(h, s, tx)) == Total(s) + tx.amount
  {
    ValidateExactly(h, s, tx);
    var t := Credited(h, s, tx);
    if IsDeployment(tx) {
      var addr := h.address(tx.from, s[tx.from].nonce);
      TotalPut(s, addr, t[addr]);
      PlainDeployment(h, s, tx, r);
    } else if IsCall(s, tx) {
      TotalChange(s, tx.to, t[tx.to]);
      PlainCall(h, s, tx, r);
    } else {
      PlainTransfer(h, s, tx, r);
      CreditTotal(s, tx.to, tx.amount);
    }
  }

  lemma ChargedTotal(s: State, from: Key, cost: nat, t: State)
    requires Charged(s, from, cost, t)
    ensures Total(t) + cost == Total(s)
  {
    TotalChange(s, from, t[from]);
  }

  /** A plain transaction destroys exactly its gas cost and its deployment fee. */
  lemma PlainConserves(h: Host, s: State, tx: Tx, r: Outcome)
    requires Validate(h, s, tx).Accept? && Plain(h, s, tx) && r == Apply(h, s, tx) && r.Applied?
    ensures Total(r.state) + GasPaid(tx, r.gas) + Fee(tx) == Total(s) && Mul64(r.gas, tx.gasPrice) == GasPaid(tx, r.gas)
  {
    PlainEffect(h, s, tx, r);
    ChargedTotal(Credited(h, s, tx), tx.from, tx.amount + Fee(tx) + GasPaid(tx, r.gas), r.state);
  }

  // ---------------------------------------------------------------- what Plain rules out

  /** A transaction to the empty key without code is accepted, counts as gas and changes nothing: the coinbase is paid a
      fee that nobody paid, and the transaction can be repeated. */
  lemma NothingPaid(h: Host, s: State, tx: Tx)
    requires Validate(h, s, tx).Accept? && tx.from != 0 && tx.to == 0 && tx.instructions == []
    ensures Apply(h, s, tx) == Applied(s, GAS_TRANSFER) && Validate(h, Apply(h, s, tx).state, tx).Accept?
  {
    ValidateExactly(h, s, tx);
  }

  lemma CallCredits(h: Host, s: State, tx: Tx)
    requires tx.to in s && s[tx.to].balance + tx.amount < TWO64 && Call(h, s, tx).Executed?
    ensures var e := Call(h, s, tx); e.state.Keys == s.Keys && Total(e.state) == Total(s) + tx.amount
    ensures var t := Call(h, s, tx).state; t[tx.to].balance == s[tx.to].balance + tx.amount && forall k :: k in s && k != tx.to ==> t[k] == s[k]
  {
    var e := Call(h, s, tx);
    TotalChange(s, tx.to, e.state[tx.to]);
    assert e.state == s[tx.to := e.state[tx.to]];
  }

  lemma CallSettles(h: Host, s: State, t: State, tx: Tx, r: Outcome)
    requires tx.from in s && tx.to in s && s[tx.to].code != [] && tx.instructions == [] && Credit(s, tx.to, tx.amount) == Some(t)
    requires r == ApplyTransfer(h, s, tx) && r.Applied?
    ensures Call(h, t, tx).Executed? && tx.from in Call(h, t, tx).state
    ensures var u := Call(h, t, tx).state; exists gas :: r == Settle(u, u[tx.from], false, tx, tx.amount, gas)
  {
    var e := Call(h, t, tx);
    assert r == Settle(e.state, e.state[tx.from], false, tx, tx.amount, Add64(BaseGas(GAS_TRANSFER, tx), e.gas));
  }

  lemma ChargedAfterCall(h: Host, s: State, t: State, u: State, tx: Tx, r: Outcome)
    requires Total(t) == Total(s) + tx.amount && Total(u) == Total(t) + tx.amount && Settled(u, tx, tx.amount, r) && r.Applied?
    ensures Total(r.state) + GasPaid(tx, r.gas) == Total(s) + tx.amount
  {
    ChargedTotal(u, tx.from, tx.amount + GasPaid(tx, r.gas), r.state);
  }

  /** A call is credited twice: beyond what the sender pays, the amount comes out of nowhere, self-calls included. So a
      call conserves the supply exactly when it carries no value. */
  lemma CallInflates(h: Host, s: State, tx: Tx, r: Outcome)
    requires Validate(h, s, tx).Accept? && tx.from != 0 && IsCall(s, tx) && r == Apply(h, s, tx) && r.Applied? && Total(s) < TWO63
    ensures Total(r.state) + GasPaid(tx, r.gas) == Total(s) + tx.amount
    ensures Total(r.state) + GasPaid(tx, r.gas) == Total(s) <==> Plain(h, s, tx)
  {
    ValidateExactly(h, s, tx);
    CallAdds(h, s, tx, r);
  }

  lemma CallAdds(h: Host, s: State, tx: Tx, r: Outcome)
    requires tx.from in s && MaxCost(tx) <= s[tx.from].balance && IsCall(s, tx) && r == ApplyTransfer(h, s, tx) && r.Applied? && Total(s) < TWO63
    ensures Total(r.state) + GasPaid(tx, r.gas) == Total(s) + tx.amount
  {
    RecipientFits(s, tx);
    var t := Credit(s, tx.to, tx.amount).value;
    CreditTotal(s, tx.to, tx.amount);
    CallSettles(h, s, t, tx, r);
    if SelfCallOverflow(s, tx) { SelfCallFails(h, s, tx); }
    CallCredits(h, t, tx);
    CallCharges(s, t, Call(h, t, tx).state, tx, r);
    ChargedAfterCall(h, s, t, Call(h, t, tx).state, tx, r);
  }

  lemma CallCharges(s: State, t: State, u: State, tx: Tx, r: Outcome)
    requires tx.from in s && MaxCost(tx) <= s[tx.from].balance && Credit(s, tx.to, tx.amount) == Some(t) && tx.to in t && u.Keys == t.Keys
    requires u[tx.to].balance == t[tx.to].balance + tx.amount && forall k :: k in t && k != tx.to ==> u[k] == t[k]
    requires exists gas :: r == Settle(u, u[tx.from], false, tx, tx.amount, gas)
    ensures Settled(u, tx, tx.amount, r)
  {
    AlwaysSettles(u, tx, tx.amount);
  }

  /** Code sent to a contract. */
  predicate IsMisdirected(s: State, tx: Tx) { tx.to != 0 && tx.to in s && s[tx.to].code != [] && tx.instructions != [] }

  /** It is deployed: the amount is credited to the recipient and again to the new contract, and no deployment fee is taken.
      If `init` fails, the transaction is a transfer. So the supply is conserved if and only if there is no value or `init`
      fails. */
  lemma MisdirectedInflates(h: Host, s: State, tx: Tx, r: Outcome)
    requires Validate(h, s, tx).Accept? && tx.from != 0 && IsMisdirected(s, tx) && h.address(tx.from, s[tx.from].nonce) !in s
    requires r == Apply(h, s, tx) && r.Applied? && Total(s) < TWO63
    ensures Credit(s, tx.to, tx.amount).Some? && tx.from in Credit(s, tx.to, tx.amount).value
    ensures var deployed := Deploy(h, Credit(s, tx.to, tx.amount).value, tx).Executed?;
      && Total(r.state) + GasPaid(tx, r.gas) == Total(s) + (if deployed then tx.amount else 0)
      && (Total(r.state) + GasPaid(tx, r.gas) == Total(s) <==> tx.amount == 0 || !deployed)
  {
    ValidateExactly(h, s, tx);
    RecipientFits(s, tx);
    var t := Credit(s, tx.to, tx.amount).value;
    CreditTotal(s, tx.to, tx.amount);
    if Deploy(h, t, tx).Executed? {
      DeployedBeside(h, s, t, tx, r);
    } else {
      RefusedBeside(h, s, t, tx, r);
    }
  }

  lemma DeployedBeside(h: Host, s: State, t: State, tx: Tx, r: Outcome)
    requires tx.from in s && MaxCost(tx) <= s[tx.from].balance && IsMisdirected(s, tx) && h.address(tx.from, s[tx.from].nonce) !in s
    requires Credit(s, tx.to, tx.amount) == Some(t) && Deploy(h, t, tx).Executed? && r == ApplyTransfer(h, s, tx) && r.Applied?
    requires Total(t) == Total(s) + tx.amount
    ensures Total(r.state) + GasPaid(tx, r.gas) == Total(s) + tx.amount
  {
    var addr, u := h.address(tx.from, s[tx.from].nonce), Deploy(h, t, tx).state;
    TotalNew(t, addr, u[addr]);
    assert Settled(u, tx, tx.amount, r) by { AlwaysSettles(u, tx, tx.amount); }
    ChargedAfterCall(h, s, t, u, tx, r);
  }

  lemma RefusedBeside(h: Host, s: State, t: State, tx: Tx, r: Outcome)
    requires tx.from in s && MaxCost(tx) <= s[tx.from].balance && IsMisdirected(s, tx)
    requires Credit(s, tx.to, tx.amount) == Some(t) && !Deploy(h, t, tx).Executed? && r == ApplyTransfer(h, s, tx) && r.Applied?
    requires Total(t) == Total(s) + tx.amount
    ensures Total(r.state) + GasPaid(tx, r.gas) == Total(s)
  {
    RefusedSettles(h, s, t, tx, r);
    SettleFits(t, tx, tx.amount, r.gas);
    ChargedTotal(t, tx.from, tx.amount + GasPaid(tx, r.gas), r.state);
  }

  lemma RefusedSettles(h: Host, s: State, t: State, tx: Tx, r: Outcome)
    requires tx.from in s && IsMisdirected(s, tx) && Credit(s, tx.to, tx.amount) == Some(t) && !Deploy(h, t, tx).Executed?
    requires r == ApplyTransfer(h, s, tx) && r.Applied?
    ensures r == Settle(t, t[tx.from], false, tx, tx.amount, r.gas) && t[tx.from].balance >= s[tx.from].balance
  {
  }
}
