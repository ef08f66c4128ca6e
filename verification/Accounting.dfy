/** The supply, to the unit, whatever transactions a chain holds: where money appears out of nowhere and where it is lost
    (blockchain/validation.go, execution/execution.go). */
module Accounting {
  import opened Text
  import opened Ledger
  import opened Supply
  import opened Blocks

  // ---------------------------------------------------------------- a contract in place of an account

  /** The accounts a contract is deployed on: its own transaction's, or those after the recipient was credited. */
  function Base(s: State, tx: Tx): State {
    if IsDeployment(tx) then s else match Credit(s, tx.to, tx.amount) case Some(t) => t case None => s
  }

  /** The key of the contract a transaction creates, if it does. */
  function Created(h: Host, s: State, tx: Tx): Option<Key> {
    if tx.from != 0 && tx.from in s && tx.from in Base(s, tx) && (IsDeployment(tx) || IsMisdirected(s, tx)) && Deploy(h, Base(s, tx), tx).Executed?
    then Some(h.address(tx.from, s[tx.from].nonce)) else None
  }

  /** What happens to the supply when the contract is put at `k`: what was there is lost, and a sender that is replaced by its
      own contract is not charged. */
  function Replaced(t: State, tx: Tx, k: Key, charge: nat): int { (if k == tx.from then charge else 0) - Held(t, k) }

  lemma SenderKeepsNonce(s: State, tx: Tx)
    requires tx.from in s
    ensures tx.from in Base(s, tx) && Base(s, tx)[tx.from].nonce == s[tx.from].nonce && Base(s, tx)[tx.from].balance >= s[tx.from].balance
  {
  }

  /** Settling after a contract `c` was put at `k`. */
  lemma PutTotal(t: State, tx: Tx, k: Key, c: Account, fixed: U64, gas: U64, r: Outcome)
    requires tx.from in t && c.balance == tx.amount && fixed + Times(tx.gasLimit, tx.gasPrice) <= t[tx.from].balance
    requires r == Settle(t[k := c], t[tx.from], k == tx.from, tx, fixed, gas) && r.Applied?
    ensures r.gas == gas <= tx.gasLimit && Mul64(gas, tx.gasPrice) == GasPaid(tx, gas)
    ensures Total(r.state) + fixed + GasPaid(tx, gas) == Total(t) + tx.amount + Replaced(t, tx, k, fixed + GasPaid(tx, gas))
  {
    TotalPut(t, k, c);
    PaidExactly(t, tx, fixed, gas);
    if k != tx.from {
      var u := t[k := c];
      SettleFits(u, tx, fixed, gas);
      ChargedTotal(u, tx.from, fixed + GasPaid(tx, gas), r.state);
    }
  }

  lemma PaidExactly(t: State, tx: Tx, fixed: U64, gas: U64)
    requires tx.from in t && fixed + Times(tx.gasLimit, tx.gasPrice) <= t[tx.from].balance && gas <= tx.gasLimit
    ensures Mul64(gas, tx.gasPrice) == GasPaid(tx, gas)
  {
  }

  /** What an applied transaction that creates a contract does to the supply. */
  ghost predicate CreationCounted(s: State, tx: Tx, r: Outcome, k: Key) {
    && r.Applied? && Mul64(r.gas, tx.gasPrice) == GasPaid(tx, r.gas)
    && var t := Base(s, tx);
    Total(r.state) + Fee(tx) + GasPaid(tx, r.gas) == Total(t) + Replaced(t, tx, k, tx.amount + Fee(tx) + GasPaid(tx, r.gas))
  }

  lemma DeploymentPuts(h: Host, s: State, tx: Tx, r: Outcome, addr: Key) returns (c: Account)
    requires tx.from in s && addr == h.address(tx.from, s[tx.from].nonce) && MaxCost(tx) <= s[tx.from].balance && IsDeployment(tx)
    requires r == ApplyDeployment(h, s, tx) && r.Applied?
    ensures c.balance == tx.amount && tx.amount + DEPLOYMENT_FEE < TWO64
    ensures r == Settle(s[addr := c], s[tx.from], addr == tx.from, tx, tx.amount + DEPLOYMENT_FEE, r.gas)
  {
    c := Deploy(h, s, tx).state[addr];
  }

  lemma MisdirectedPuts(h: Host, s: State, t: State, tx: Tx, r: Outcome, addr: Key) returns (c: Account)
    requires tx.from in s && addr == h.address(tx.from, s[tx.from].nonce) && IsMisdirected(s, tx) && Credit(s, tx.to, tx.amount) == Some(t)
    requires Deploy(h, t, tx).Executed? && r == ApplyTransfer(h, s, tx) && r.Applied?
    ensures c.balance == tx.amount && tx.from in t && r == Settle(t[addr := c], t[tx.from], addr == tx.from, tx, tx.amount, r.gas)
  {
    c := Deploy(h, t, tx).state[addr];
    assert t[tx.from].nonce == s[tx.from].nonce;
  }

  lemma CreationTotal(h: Host, s: State, tx: Tx, r: Outcome, k: Key)
    requires tx.from in s && MaxCost(tx) <= s[tx.from].balance && Created(h, s, tx) == Some(k)
    requires r == (if IsDeployment(tx) then ApplyDeployment(h, s, tx) else ApplyTransfer(h, s, tx)) && r.Applied? && Total(s) < TWO63
    ensures CreationCounted(s, tx, r, k)
  {
    if IsDeployment(tx) { DeploymentTotal(h, s, tx, r, k); } else { MisdirectedTotal(h, s, tx, r, k); }
  }

  lemma DeploymentTotal(h: Host, s: State, tx: Tx, r: Outcome, k: Key)
    requires tx.from in s && MaxCost(tx) <= s[tx.from].balance && k == h.address(tx.from, s[tx.from].nonce) && IsDeployment(tx)
    requires r == ApplyDeployment(h, s, tx) && r.Applied?
    ensures CreationCounted(s, tx, r, k)
  {
    var c := DeploymentPuts(h, s, tx, r, k);
    PutTotal(s, tx, k, c, tx.amount + DEPLOYMENT_FEE, r.gas, r);
  }

  lemma MisdirectedTotal(h: Host, s: State, tx: Tx, r: Outcome, k: Key)
    requires tx.from in s && MaxCost(tx) <= s[tx.from].balance && Created(h, s, tx) == Some(k) && !IsDeployment(tx)
    requires r == ApplyTransfer(h, s, tx) && r.Applied? && Total(s) < TWO63
    ensures CreationCounted(s, tx, r, k)
  {
    RecipientFits(s, tx);
    SenderKeepsNonce(s, tx);
    var t := Base(s, tx);
    var c := MisdirectedPuts(h, s, t, tx, r, k);
    PutTotal(t, tx, k, c, tx.amount, r.gas, r);
  }

  // ---------------------------------------------------------------- one transaction

  predicate IsToNobody(tx: Tx) { tx.to == 0 && tx.instructions == [] }

  /** What an applied transaction adds to the supply beyond what it is counted for, which is its gas and its deployment fee. */
  function Drift(h: Host, s: State, tx: Tx, gas: U64): int {
    var paid := Mul64(gas, tx.gasPrice);
    if tx.from == 0 then tx.amount
    else if IsToNobody(tx) then paid
    else match Created(h, s, tx)
         case Some(k) => (if IsDeployment(tx) then 0 else tx.amount) + Replaced(Base(s, tx), tx, k, tx.amount + Fee(tx) + paid)
         case None => if IsCall(s, tx) then tx.amount else 0
  }

  ghost predicate Accounted(h: Host, s: State, tx: Tx, r: Outcome) {
    r.Applied? && Total(r.state) + (if tx.from == 0 then 0 else Mul64(r.gas, tx.gasPrice) + Fee(tx)) == Total(s) + Drift(h, s, tx, r.gas)
  }

  /** Every accepted and applied transaction, of whatever kind, accounts for the supply to the unit. */
  lemma TransactionAccounted(h: Host, s: State, tx: Tx, r: Outcome)
    requires Validate(h, s, tx).Accept? && r == Apply(h, s, tx) && r.Applied? && Total(s) < TWO63
    ensures Accounted(h, s, tx, r)
  {
    ValidateExactly(h, s, tx);
    if tx.from == 0 || IsToNobody(tx) {
      SimpleAccounted(h, s, tx, r);
    } else if IsDeployment(tx) {
      DeploymentCreates(h, s, tx);
      CreationAccounted(h, s, tx, r, Created(h, s, tx).value);
    } else {
      TransferAccounted(h, s, tx, r);
    }
  }

  lemma SimpleAccounted(h: Host, s: State, tx: Tx, r: Outcome)
    requires Validate(h, s, tx).Accept? && r == Apply(h, s, tx) && r.Applied? && (tx.from == 0 || IsToNobody(tx))
    ensures Accounted(h, s, tx, r)
  {
    if tx.from == 0 { CreditTotal(s, tx.to, tx.amount); } else { NothingPaid(h, s, tx); }
  }

  lemma DeploymentCreates(h: Host, s: State, tx: Tx)
    requires tx.from in s && tx.from != 0 && IsDeployment(tx) && Apply(h, s, tx).Applied?
    ensures Created(h, s, tx) == Some(h.address(tx.from, s[tx.from].nonce)) && Apply(h, s, tx) == ApplyDeployment(h, s, tx)
  {
  }

  lemma TransferAccounted(h: Host, s: State, tx: Tx, r: Outcome)
    requires Validate(h, s, tx).Accept? && tx.from != 0 && tx.to != 0 && r == Apply(h, s, tx) && r.Applied? && Total(s) < TWO63
    ensures Accounted(h, s, tx, r)
  {
    ValidateExactly(h, s, tx);
    if IsMisdirected(s, tx) {
      match Created(h, s, tx)
      case Some(k) => CreationAccounted(h, s, tx, r, k);
      case None => RefusedAccounted(h, s, tx, r);
    } else {
      UncreatedAccounted(h, s, tx, r);
    }
  }

  lemma UncreatedAccounted(h: Host, s: State, tx: Tx, r: Outcome)
    requires Validate(h, s, tx).Accept? && tx.from != 0 && tx.to != 0 && !IsMisdirected(s, tx) && r == Apply(h, s, tx) && r.Applied? && Total(s) < TWO63
    ensures Accounted(h, s, tx, r)
  {
    assert Created(h, s, tx).None? && Fee(tx) == 0;
    if IsCall(s, tx) {
      CallInflates(h, s, tx, r);
      PricedExactly(h, s, tx, r);
    } else {
      assert tx.from in s by { ValidateExactly(h, s, tx); }
      PlainConserves(h, s, tx, r);
    }
  }

  lemma PricedExactly(h: Host, s: State, tx: Tx, r: Outcome)
    requires Validate(h, s, tx).Accept? && tx.from != 0 && !IsToNobody(tx) && r == Apply(h, s, tx) && r.Applied?
    ensures Mul64(r.gas, tx.gasPrice) == GasPaid(tx, r.gas)
  {
    ValidateExactly(h, s, tx);
    WithinLimit(h, s, tx);
    PaidExactly(s, tx, 0, r.gas);
  }

  lemma WithinLimit(h: Host, s: State, tx: Tx)
    requires tx.from in s && tx.from != 0 && !IsToNobody(tx) && Apply(h, s, tx).Applied?
    ensures Apply(h, s, tx).gas <= tx.gasLimit
  {
  }

  lemma CreationAccounted(h: Host, s: State, tx: Tx, r: Outcome, k: Key)
    requires tx.from in s && MaxCost(tx) <= s[tx.from].balance && Created(h, s, tx) == Some(k) && tx.from != 0 && !IsToNobody(tx)
    requires r == (if IsDeployment(tx) then ApplyDeployment(h, s, tx) else ApplyTransfer(h, s, tx)) && r.Applied? && Total(s) < TWO63
    ensures Accounted(h, s, tx, r)
  {
    CreationTotal(h, s, tx, r, k);
    if !IsDeployment(tx) {
      RecipientFits(s, tx);
      CreditTotal(s, tx.to, tx.amount);
    }
  }

  lemma RefusedAccounted(h: Host, s: State, tx: Tx, r: Outcome)
    requires tx.from in s && MaxCost(tx) <= s[tx.from].balance && IsMisdirected(s, tx) && Created(h, s, tx).None? && tx.from != 0
    requires r == ApplyTransfer(h, s, tx) && r.Applied? && Total(s) < TWO63
    ensures Accounted(h, s, tx, r)
  {
    RecipientFits(s, tx);
    var t := Credit(s, tx.to, tx.amount).value;
    CreditTotal(s, tx.to, tx.amount);
    SenderKeepsNonce(s, tx);
    assert Settled(t, tx, tx.amount, r) by { AlwaysSettles(t, tx, tx.amount); }
    RefusedBeside(h, s, t, tx, r);
  }

  /** A deployment destroys what its address holds: besides gas and fee, the supply is conserved if and only if that is
      nothing. */
  lemma DeploymentDestroys(h: Host, s: State, tx: Tx, r: Outcome)
    requires Validate(h, s, tx).Accept? && tx.from != 0 && IsDeployment(tx) && h.address(tx.from, s[tx.from].nonce) != tx.from
    requires r == Apply(h, s, tx) && r.Applied?
    ensures var addr := h.address(tx.from, s[tx.from].nonce);
      && Total(r.state) + GasPaid(tx, r.gas) + DEPLOYMENT_FEE + Held(s, addr) == Total(s)
      && (Total(r.state) + GasPaid(tx, r.gas) + DEPLOYMENT_FEE == Total(s) <==> Plain(h, s, tx))
  {
    ValidateExactly(h, s, tx);
    DeploymentCreates(h, s, tx);
    var addr := h.address(tx.from, s[tx.from].nonce);
    var c := DeploymentPuts(h, s, tx, r, addr);
    PutTotal(s, tx, addr, c, tx.amount + DEPLOYMENT_FEE, r.gas, r);
  }

  /** It happens: the address of the next contract is known in advance. Money sent there is lost when the contract comes. */
  lemma PrefundingIsLost(h: Host, s: State, pay: Tx, t: Outcome, deploy: Tx, r: Outcome)
    requires Validate(h, s, pay).Accept? && Plain(h, s, pay) && !IsDeployment(pay) && !IsCall(s, pay) && t == Apply(h, s, pay) && t.Applied?
    requires Validate(h, t.state, deploy).Accept? && deploy.from != 0 && IsDeployment(deploy) && r == Apply(h, t.state, deploy) && r.Applied?
    requires pay.to == h.address(deploy.from, t.state[deploy.from].nonce) && pay.to != pay.from && pay.to != deploy.from && Held(s, pay.to) == 0
    ensures Total(r.state) + GasPaid(pay, t.gas) + GasPaid(deploy, r.gas) + DEPLOYMENT_FEE + pay.amount == Total(s)
  {
    PlainEffect(h, s, pay, t);
    PlainConserves(h, s, pay, t);
    DeploymentDestroys(h, t.state, deploy, r);
  }

  // ---------------------------------------------------------------- blocks and chains

  type Drifter = (State, Tx, U64) -> int

  function DriftOf(h: Host): Drifter { (s: State, tx: Tx, gas: U64) => Drift(h, s, tx, gas) }

  ghost predicate Accounts(bk: Book, drift: Drifter) {
    forall s, tx {:trigger bk.apply(s, tx)} :: bk.valid(s, tx) && bk.apply(s, tx).Applied? && Total(s) < TWO63 ==>
      var r := bk.apply(s, tx);
      Total(r.state) + (if tx.from == 0 then 0 else bk.price(tx, r.gas) + Fee(tx)) == Total(s) + drift(s, tx, r.gas)
  }

  lemma LedgerAccounts(h: Host)
    ensures Accounts(BookOf(h), DriftOf(h))
  {
    forall s, tx | Validate(h, s, tx).Accept? && Apply(h, s, tx).Applied? && Total(s) < TWO63 ensures Accounted(h, s, tx, Apply(h, s, tx)) {
      TransactionAccounted(h, s, tx, Apply(h, s, tx));
    }
  }

  /** The drifts of a run of transactions, added up. */
  function Drifts(bk: Book, drift: Drifter, s: State, txs: seq<Tx>): int
    decreases |txs|
  {
    if txs == [] || !bk.apply(s, txs[0]).Applied? then 0
    else var r := bk.apply(s, txs[0]); drift(s, txs[0], r.gas) + Drifts(bk, drift, r.state, txs[1..])
  }

  /** The fees of a run, as a mathematical number. */
  function FeesOf(bk: Book, s: State, txs: seq<Tx>): nat
    decreases |txs|
  {
    if txs == [] || !bk.apply(s, txs[0]).Applied? then 0
    else var r := bk.apply(s, txs[0]); (if txs[0].from == 0 then 0 else bk.price(txs[0], r.gas)) + FeesOf(bk, r.state, txs[1..])
  }

  /** The supply stays below 2^63 while the transactions run. */
  ghost predicate Modest(bk: Book, s: State, txs: seq<Tx>)
    decreases |txs|
  {
    Total(s) < TWO63 && (txs != [] && bk.apply(s, txs[0]).Applied? ==> Modest(bk, bk.apply(s, txs[0]).state, txs[1..]))
  }

  lemma {:induction false} RunAccounted(bk: Book, drift: Drifter, s: State, txs: seq<Tx>, gas: U64, fees: U64)
    requires Accounts(bk, drift) && RunTxs(bk, s, txs, gas, fees).Summed? && Modest(bk, s, txs) && fees + FeesOf(bk, s, txs) < TWO64
    ensures var r := RunTxs(bk, s, txs, gas, fees);
      && r.fees == fees + FeesOf(bk, s, txs)
      && Total(r.state) + FeesOf(bk, s, txs) + DEPLOYMENT_FEE * Deployments(txs) == Total(s) + Drifts(bk, drift, s, txs)
    decreases |txs|
  {
    if txs != [] {
      var tx, r := txs[0], bk.apply(s, txs[0]);
      var paid := if tx.from == 0 then 0 else bk.price(tx, r.gas);
      assert Total(r.state) + paid + (if tx.from == 0 then 0 else Fee(tx)) == Total(s) + drift(s, tx, r.gas);
      RunFirst(bk, s, txs, gas, fees, r, paid);
      RunAccounted(bk, drift, r.state, txs[1..], if tx.from == 0 then gas else Add64(gas, r.gas), fees + paid);
    }
  }

  lemma RunFirst(bk: Book, s: State, txs: seq<Tx>, gas: U64, fees: U64, r: Outcome, paid: U64)
    requires txs != [] && r == bk.apply(s, txs[0]) && RunTxs(bk, s, txs, gas, fees).Summed? && fees + FeesOf(bk, s, txs) < TWO64
    requires r.Applied? ==> paid == if txs[0].from == 0 then 0 else bk.price(txs[0], r.gas)
    ensures r.Applied? && bk.valid(s, txs[0]) && fees + paid < TWO64 && FeesOf(bk, s, txs) == paid + FeesOf(bk, r.state, txs[1..])
    ensures RunTxs(bk, s, txs, gas, fees) == RunTxs(bk, r.state, txs[1..], if txs[0].from == 0 then gas else Add64(gas, r.gas), fees + paid)
  {
  }

  /** What is asked of a block: a coinbase in front, a modest supply, and fees that do not wrap around. */
  ghost predicate Sober(bk: Book, s: State, b: Block) {
    b.txs != [] && b.txs[0].from == 0 && Modest(bk, s, b.txs) && FeesOf(bk, s, b.txs) + BLOCK_REWARD < TWO64
  }

  /** What the transactions after the coinbase add. */
  function BlockDrift(bk: Book, drift: Drifter, s: State, b: Block): int
    requires b.txs != []
  {
    if bk.apply(s, b.txs[0]).Applied? then Drifts(bk, drift, bk.apply(s, b.txs[0]).state, b.txs[1..]) else 0
  }

  /** An accepted block, whatever is in it: the reward, less the deployment fees, and the drift of its transactions. */
  lemma BlockAccounted(r: Rules, bk: Book, drift: Drifter, b: Block, c: Chain)
    requires Accounts(bk, drift) && ValidateBlock(r, bk, b, c).Accepted? && !IsGenesis(r, b) && Sober(bk, c.accounts, b)
    requires forall s, tx: Tx, gas {:trigger drift(s, tx, gas)} :: tx.from == 0 ==> drift(s, tx, gas) == tx.amount
    ensures Total(ValidateBlock(r, bk, b, c).state) + DEPLOYMENT_FEE * Deployments(b.txs)
            == Total(c.accounts) + BLOCK_REWARD + BlockDrift(bk, drift, c.accounts, b)
  {
    var run := RunTxs(bk, c.accounts, b.txs, 0, 0);
    RunAccounted(bk, drift, c.accounts, b.txs, 0, 0);
    assert b.txs[0].amount == run.fees + BLOCK_REWARD;
    assert Drifts(bk, drift, c.accounts, b.txs) == b.txs[0].amount + BlockDrift(bk, drift, c.accounts, b);
  }

  ghost predicate SoberBlocks(r: Rules, bk: Book, c: Chain, bs: seq<Block>)
    decreases |bs|
  {
    bs == [] || (!IsGenesis(r, bs[0]) && Sober(bk, c.accounts, bs[0])
                 && (Extend(r, bk, bs[0], c).Some? ==> SoberBlocks(r, bk, Extend(r, bk, bs[0], c).value, bs[1..])))
  }

  function ChainDrift(r: Rules, bk: Book, drift: Drifter, c: Chain, bs: seq<Block>): int
    decreases |bs|
  {
    if bs == [] || bs[0].txs == [] || Extend(r, bk, bs[0], c).None? then 0
    else BlockDrift(bk, drift, c.accounts, bs[0]) + ChainDrift(r, bk, drift, Extend(r, bk, bs[0], c).value, bs[1..])
  }

  lemma FirstAccounted(r: Rules, bk: Book, drift: Drifter, c: Chain, bs: seq<Block>) returns (d: Chain)
    requires Accounts(bk, drift) && bs != [] && Grow(r, bk, c, bs).Some? && SoberBlocks(r, bk, c, bs)
    requires forall s, tx: Tx, gas {:trigger drift(s, tx, gas)} :: tx.from == 0 ==> drift(s, tx, gas) == tx.amount
    ensures Grow(r, bk, c, bs) == Grow(r, bk, d, bs[1..]) && SoberBlocks(r, bk, d, bs[1..]) && bs[0].txs != []
    ensures Total(d.accounts) + DEPLOYMENT_FEE * Deployments(bs[0].txs) == Total(c.accounts) + BLOCK_REWARD + BlockDrift(bk, drift, c.accounts, bs[0])
    ensures AllDeployments(bs) == Deployments(bs[0].txs) + AllDeployments(bs[1..])
    ensures ChainDrift(r, bk, drift, c, bs) == BlockDrift(bk, drift, c.accounts, bs[0]) + ChainDrift(r, bk, drift, d, bs[1..])
  {
    BlockAccounted(r, bk, drift, bs[0], c);
    d := Extend(r, bk, bs[0], c).value;
  }

  lemma {:induction false} BlocksAccounted(r: Rules, bk: Book, drift: Drifter, c: Chain, bs: seq<Block>)
    requires Accounts(bk, drift) && Grow(r, bk, c, bs).Some? && SoberBlocks(r, bk, c, bs)
    requires forall s, tx: Tx, gas {:trigger drift(s, tx, gas)} :: tx.from == 0 ==> drift(s, tx, gas) == tx.amount
    ensures Total(Grow(r, bk, c, bs).value.accounts) + DEPLOYMENT_FEE * AllDeployments(bs)
            == Total(c.accounts) + BLOCK_REWARD * |bs| + ChainDrift(r, bk, drift, c, bs)
    decreases |bs|
  {
    if bs != [] {
      var d := FirstAccounted(r, bk, drift, c, bs);
      BlocksAccounted(r, bk, drift, d, bs[1..]);
      AddDrift(Total(c.accounts), Total(d.accounts), Total(Grow(r, bk, c, bs).value.accounts), Deployments(bs[0].txs), AllDeployments(bs[1..]),
               |bs| - 1, BlockDrift(bk, drift, c.accounts, bs[0]), ChainDrift(r, bk, drift, d, bs[1..]));
    }
  }

  lemma AddDrift(first: nat, mid: nat, last: nat, one: nat, more: nat, n: nat, x: int, y: int)
    requires mid + DEPLOYMENT_FEE * one == first + BLOCK_REWARD + x && last + DEPLOYMENT_FEE * more == mid + BLOCK_REWARD * n + y
    ensures last + DEPLOYMENT_FEE * (one + more) == first + BLOCK_REWARD * (n + 1) + (x + y)
  {
  }

  /** The supply over any run of accepted blocks, with transactions of every kind: the block rewards, less the deployment fees, and
      the drifts. So the supply is conserved if and only if the drifts cancel out. */
  lemma SupplyAccounted(r: Rules, h: Host, c: Chain, bs: seq<Block>)
    requires Grow(r, BookOf(h), c, bs).Some? && SoberBlocks(r, BookOf(h), c, bs)
    ensures var end, drift := Total(Grow(r, BookOf(h), c, bs).value.accounts), ChainDrift(r, BookOf(h), DriftOf(h), c, bs);
      && end + DEPLOYMENT_FEE * AllDeployments(bs) == Total(c.accounts) + BLOCK_REWARD * |bs| + drift
      && (end + DEPLOYMENT_FEE * AllDeployments(bs) == Total(c.accounts) + BLOCK_REWARD * |bs| <==> drift == 0)
    ensures Total(Grow(r, BookOf(h), c, bs).value.accounts) + 1_000_000 * AllDeployments(bs)
            == Total(c.accounts) + 50_000_000 * |bs| + ChainDrift(r, BookOf(h), DriftOf(h), c, bs)
  {
    LedgerAccounts(h);
    BlocksAccounted(r, BookOf(h), DriftOf(h), c, bs);
  }
}
