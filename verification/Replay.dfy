/** Replay safety: nonces over any chain of accepted blocks. */
module Replay {
  import opened Text
  import opened Ledger
  import opened Supply
  import opened Blocks
  import opened Accounting

  function Nonce(s: State, k: Key): U64 { if k in s then s[k].nonce else 0 }

  /** The address a deployment creates, told from the transaction alone. */
  function ContractOf(h: Host, tx: Tx): Key { h.address(tx.from, (tx.nonce - 1) % TWO64) }

  /** All regular transactions move their sender's nonce, except those to nobody. */
  predicate MovesNonce(tx: Tx) { tx.from != 0 && !IsToNobody(tx) }

  // ---------------------------------------------------------------- one transaction

  /** The nonces after an applied transaction: a new contract starts at 0, whatever was there; the sender's moves on; no other
      changes. */
  ghost predicate Numbers(s: State, tx: Tx, created: Option<Key>, t: State) {
    forall k: Key {:trigger Nonce(t, k)} ::
      Nonce(t, k) == if created == Some(k) then 0 else if MovesNonce(tx) && k == tx.from then Add64(Nonce(s, k), 1) else Nonce(s, k)
  }

  lemma SettleNumbers(s: State, u: State, from: Account, detached: bool, tx: Tx, fixed: U64, gas: U64, created: Option<Key>, r: Outcome)
    requires r == Settle(u, from, detached, tx, fixed, gas) && r.Applied? && MovesNonce(tx) && from.nonce == Nonce(s, tx.from)
    requires forall k: Key {:trigger Nonce(u, k)} :: Nonce(u, k) == if created == Some(k) then 0 else Nonce(s, k)
    requires detached <==> created == Some(tx.from)
    ensures Numbers(s, tx, created, r.state)
  {
    forall k: Key ensures Nonce(r.state, k) == if created == Some(k) then 0 else if k == tx.from then Add64(Nonce(s, k), 1) else Nonce(s, k) {
      assert Nonce(u, k) == if created == Some(k) then 0 else Nonce(s, k);
    }
  }

  lemma CreditNumbers(s: State, to: Key, amount: U64, t: State)
    requires Credit(s, to, amount) == Some(t)
    ensures forall k {:trigger Nonce(t, k)} :: Nonce(t, k) == Nonce(s, k)
  {
  }

  lemma DeploymentNumbers(h: Host, s: State, tx: Tx, r: Outcome)
    requires tx.from in s && tx.from != 0 && IsDeployment(tx) && r == ApplyDeployment(h, s, tx) && r.Applied?
    ensures Created(h, s, tx) == Some(h.address(tx.from, s[tx.from].nonce)) && Numbers(s, tx, Created(h, s, tx), r.state)
  {
    var addr, d := h.address(tx.from, s[tx.from].nonce), Deploy(h, s, tx);
    var detached := addr == tx.from;
    SettleNumbers(s, d.state, SenderAfter(s, d.state, tx, detached), detached, tx, tx.amount + DEPLOYMENT_FEE, r.gas, Some(addr), r);
  }

  lemma TransferNumbers(h: Host, s: State, tx: Tx, t: State, r: Outcome)
    requires tx.from in s && tx.from != 0 && tx.to != 0 && Credit(s, tx.to, tx.amount) == Some(t)
    requires r == FinishTransfer(h, t, tx, tx.to in s && s[tx.to].code != []) && r.Applied?
    ensures Numbers(s, tx, Created(h, s, tx), r.state)
  {
    CreditNumbers(s, tx.to, tx.amount, t);
    if IsMisdirected(s, tx) {
      MisdirectedNumbers(h, s, tx, t, r);
    } else if IsCall(s, tx) {
      var u := Call(h, t, tx).state;
      CallNumbers(h, t, tx);
      SettleNumbers(s, u, u[tx.from], false, tx, tx.amount, r.gas, None, r);
    } else {
      SettleNumbers(s, t, t[tx.from], false, tx, tx.amount, r.gas, None, r);
    }
  }

  lemma CallNumbers(h: Host, t: State, tx: Tx)
    requires tx.to in t && Call(h, t, tx).Executed?
    ensures var u := Call(h, t, tx).state; u.Keys == t.Keys && forall k {:trigger Nonce(u, k)} :: Nonce(u, k) == Nonce(t, k)
  {
  }

  lemma MisdirectedNumbers(h: Host, s: State, tx: Tx, t: State, r: Outcome)
    requires tx.from in s && tx.from != 0 && IsMisdirected(s, tx) && Credit(s, tx.to, tx.amount) == Some(t)
    requires r == FinishTransfer(h, t, tx, true) && r.Applied?
    ensures Numbers(s, tx, Created(h, s, tx), r.state)
  {
    CreditNumbers(s, tx.to, tx.amount, t);
    var addr, d := h.address(tx.from, s[tx.from].nonce), Deploy(h, t, tx);
    assert Base(s, tx) == t;
    if d.Executed? {
      var detached := addr == tx.from;
      SettleNumbers(s, d.state, SenderAfter(t, d.state, tx, detached), detached, tx, tx.amount, r.gas, Some(addr), r);
    } else {
      SettleNumbers(s, t, t[tx.from], false, tx, tx.amount, r.gas, None, r);
    }
  }

  /** What every accepted and applied transaction does to all nonces. */
  lemma NonceLaw(h: Host, s: State, tx: Tx, r: Outcome)
    requires Validate(h, s, tx).Accept? && r == Apply(h, s, tx) && r.Applied?
    ensures Numbers(s, tx, Created(h, s, tx), r.state) && (tx.from != 0 ==> tx.nonce == Add64(Nonce(s, tx.from), 1))
  {
    ValidateExactly(h, s, tx);
    if tx.from == 0 {
      CreditNumbers(s, tx.to, tx.amount, r.state);
    } else if IsDeployment(tx) {
      DeploymentNumbers(h, s, tx, r);
    } else if tx.to != 0 {
      TransferNumbers(h, s, tx, Credit(s, tx.to, tx.amount).value, r);
    }
  }

  /** The key of a new contract was not used by a sender, this one included. */
  predicate Unused(h: Host, s: State, tx: Tx) { match Created(h, s, tx) case Some(k) => k != tx.from && Nonce(s, k) == 0 case None => true }

  function UnusedTest(h: Host): Test { (s: State, tx: Tx) => Unused(h, s, tx) }

  /** A sender's nonce moves exactly if its transaction is not to nobody; all others stay. */
  lemma NonceMovesExactly(h: Host, s: State, tx: Tx, r: Outcome)
    requires Validate(h, s, tx).Accept? && tx.from != 0 && r == Apply(h, s, tx) && r.Applied? && Unused(h, s, tx)
    ensures Nonce(r.state, tx.from) == Add64(Nonce(s, tx.from), 1) <==> !IsToNobody(tx)
    ensures forall k {:trigger Nonce(r.state, k)} :: k != tx.from ==> Nonce(r.state, k) == Nonce(s, k)
  {
    NonceLaw(h, s, tx, r);
    assert Nonce(r.state, tx.from) == if MovesNonce(tx) then Add64(Nonce(s, tx.from), 1) else Nonce(s, tx.from);
  }

  /** The ledger numbers transactions: the sender's next nonce is asked for, and exactly the moving ones move one nonce. */
  ghost predicate Numbered(bk: Book, unused: Test) {
    forall s, tx {:trigger bk.apply(s, tx)} :: bk.valid(s, tx) && unused(s, tx) && bk.apply(s, tx).Applied? ==> Steps(s, tx, bk.apply(s, tx).state)
  }

  ghost predicate Steps(s: State, tx: Tx, t: State) {
    && Numbers(s, tx, None, t)
    && (tx.from != 0 ==> tx.nonce == Add64(Nonce(s, tx.from), 1))
  }

  lemma LedgerNumbers(h: Host)
    ensures Numbered(BookOf(h), UnusedTest(h))
  {
    forall s, tx: Tx | Validate(h, s, tx).Accept? && Unused(h, s, tx) && Apply(h, s, tx).Applied? ensures Steps(s, tx, Apply(h, s, tx).state) {
      NonceLaw(h, s, tx, Apply(h, s, tx));
    }
  }

  // ---------------------------------------------------------------- any number of transactions

  /** Transactions validated and applied one after another. */
  function Follow(bk: Book, s: State, txs: seq<Tx>): Option<State>
    decreases |txs|
  {
    if txs == [] then Some(s)
    else if !bk.valid(s, txs[0]) || !bk.apply(s, txs[0]).Applied? then None
    else Follow(bk, bk.apply(s, txs[0]).state, txs[1..])
  }

  /** How many transactions move the nonce of `k`. */
  function Count(txs: seq<Tx>, k: Key): nat {
    if txs == [] then 0 else (if txs[0].from == k && MovesNonce(txs[0]) then 1 else 0) + Count(txs[1..], k)
  }

  lemma {:induction false} CountBelow(txs: seq<Tx>, k: Key)
    ensures Count(txs, k) <= |txs|
  {
    if txs != [] { CountBelow(txs[1..], k); }
  }

  lemma {:induction false} CountSplit(txs: seq<Tx>, i: nat, k: Key)
    requires i <= |txs|
    ensures Count(txs, k) == Count(txs[..i], k) + Count(txs[i..], k)
  {
    if i > 0 {
      CountSplit(txs[1..], i - 1, k);
      assert txs[..i][1..] == txs[1..][..i - 1] && txs[i..] == txs[1..][i - 1..];
    } else {
      assert txs[..0] == [] && txs[0..] == txs;
    }
  }

  /** A nonce grows by exactly the number of applied transactions of its account, those to nobody excepted. */
  lemma {:induction false} NonceGrows(bk: Book, unused: Test, s: State, txs: seq<Tx>, k: Key)
    requires Numbered(bk, unused) && Follow(bk, s, txs).Some? && PlainRun(bk, unused, s, txs) && k != 0 && Nonce(s, k) + |txs| < TWO64
    ensures Nonce(Follow(bk, s, txs).value, k) == Nonce(s, k) + Count(txs, k)
    decreases |txs|
  {
    if txs != [] {
      var t := bk.apply(s, txs[0]).state;
      assert Steps(s, txs[0], t);
      NonceGrows(bk, unused, t, txs[1..], k);
    }
  }

  /** Which nonce the transaction at position `i` has. */
  lemma {:induction false} NonceAt(bk: Book, unused: Test, s: State, txs: seq<Tx>, i: nat)
    requires Numbered(bk, unused) && Follow(bk, s, txs).Some? && PlainRun(bk, unused, s, txs) && i < |txs| && txs[i].from != 0
    requires Nonce(s, txs[i].from) + |txs| < TWO64
    ensures txs[i].nonce == Nonce(s, txs[i].from) + Count(txs[..i], txs[i].from) + 1
    decreases |txs|
  {
    var t, k := bk.apply(s, txs[0]).state, txs[i].from;
    assert Steps(s, txs[0], t);
    if i > 0 {
      assert txs[1..][i - 1] == txs[i];
      assert Nonce(t, k) <= Nonce(s, k) + 1;
      NonceAt(bk, unused, t, txs[1..], i - 1);
      assert txs[..i][1..] == txs[1..][..i - 1];
    }
  }

  /** Two transactions of one sender have the same nonce if and only if none from the first up to the second moves it; so none
      that moves the nonce is ever applied again. */
  lemma ReplaysExactly(bk: Book, unused: Test, s: State, txs: seq<Tx>, i: nat, j: nat)
    requires Numbered(bk, unused) && Follow(bk, s, txs).Some? && PlainRun(bk, unused, s, txs) && i < j < |txs|
    requires txs[i].from == txs[j].from != 0 && Nonce(s, txs[i].from) + |txs| < TWO64
    ensures txs[i].nonce == txs[j].nonce <==> Count(txs[i..j], txs[i].from) == 0
    ensures MovesNonce(txs[i]) ==> txs[i].nonce < txs[j].nonce
  {
    NonceAt(bk, unused, s, txs, i);
    NonceAt(bk, unused, s, txs, j);
    CountSplit(txs[..j], i, txs[i].from);
    assert txs[..j][..i] == txs[..i] && txs[..j][i..] == txs[i..j] && txs[i..j][0] == txs[i];
  }

  /** No (sender, nonce) pair that moved a nonce is applied twice, and with injective addresses no two such transactions have the
      same contract address. */
  lemma NoReplay(bk: Book, h: Host, unused: Test, s: State, txs: seq<Tx>, i: nat, j: nat)
    requires Numbered(bk, unused) && Follow(bk, s, txs).Some? && PlainRun(bk, unused, s, txs) && i < j < |txs| && MovesNonce(txs[i])
    requires txs[i].from != 0 && txs[j].from != 0 && Nonce(s, txs[i].from) + |txs| < TWO64 && Nonce(s, txs[j].from) + |txs| < TWO64
    ensures (txs[i].from, txs[i].nonce) != (txs[j].from, txs[j].nonce)
    ensures Injective(h) ==> ContractOf(h, txs[i]) != ContractOf(h, txs[j])
  {
    NonceAt(bk, unused, s, txs, i);
    NonceAt(bk, unused, s, txs, j);
    if txs[i].from == txs[j].from { ReplaysExactly(bk, unused, s, txs, i, j); }
    AddressesDiffer(h, txs[i], txs[j]);
  }

  lemma AddressesDiffer(h: Host, a: Tx, b: Tx)
    requires a.nonce >= 1 && b.nonce >= 1 && (a.from, a.nonce) != (b.from, b.nonce)
    ensures Injective(h) ==> ContractOf(h, a) != ContractOf(h, b)
  {
    assert (a.nonce - 1) % TWO64 == a.nonce - 1 && (b.nonce - 1) % TWO64 == b.nonce - 1;
  }

  ghost predicate Injective(h: Host) {
    forall k, n, k', n' {:trigger h.address(k, n), h.address(k', n')} :: h.address(k, n) == h.address(k', n') ==> k == k' && n == n'
  }

  // ---------------------------------------------------------------- chains of blocks

  function AllTxs(bs: seq<Block>): seq<Tx> { if bs == [] then [] else bs[0].txs + AllTxs(bs[1..]) }

  lemma {:induction false} RunFollows(bk: Book, s: State, txs: seq<Tx>, gas: U64, fees: U64)
    requires RunTxs(bk, s, txs, gas, fees).Summed?
    ensures Follow(bk, s, txs) == Some(RunTxs(bk, s, txs, gas, fees).state)
    decreases |txs|
  {
    if txs != [] {
      var tx, r := txs[0], bk.apply(s, txs[0]);
      if tx.from == 0 { RunFollows(bk, r.state, txs[1..], gas, fees); }
      else { RunFollows(bk, r.state, txs[1..], Add64(gas, r.gas), Add64(fees, bk.price(tx, r.gas))); }
    }
  }

  lemma {:induction false} FollowBoth(bk: Book, s: State, a: seq<Tx>, b: seq<Tx>)
    requires Follow(bk, s, a).Some?
    ensures Follow(bk, s, a + b) == Follow(bk, Follow(bk, s, a).value, b)
    decreases |a|
  {
    if a == [] {
      assert a + b == b;
    } else {
      FollowBoth(bk, bk.apply(s, a[0]).state, a[1..], b);
      assert (a + b)[1..] == a[1..] + b;
    }
  }

  /** Accepting blocks is following their transactions. */
  lemma {:induction false} GrowFollows(r: Rules, bk: Book, c: Chain, bs: seq<Block>)
    requires Grow(r, bk, c, bs).Some?
    ensures Follow(bk, c.accounts, AllTxs(bs)) == Some(Grow(r, bk, c, bs).value.accounts)
    decreases |bs|
  {
    if bs != [] {
      var d := Extend(r, bk, bs[0], c).value;
      RunFollows(bk, c.accounts, bs[0].txs, 0, 0);
      GrowFollows(r, bk, d, bs[1..]);
      FollowBoth(bk, c.accounts, bs[0].txs, AllTxs(bs[1..]));
    }
  }

  /** Replay safety over any chain of accepted blocks, with transactions of every kind: every account's nonce grows by exactly the
      number of its applied transactions, those to nobody excepted; two transactions of a sender have the same nonce if and
      only if only such stand from the first up to the second; with injective contract addresses no two deployments share
      one. */
  lemma ReplaySafety(r: Rules, h: Host, c: Chain, bs: seq<Block>, k: Key, i: nat, j: nat)
    requires Grow(r, BookOf(h), c, bs).Some? && PlainRun(BookOf(h), UnusedTest(h), c.accounts, AllTxs(bs))
    requires forall x {:trigger Nonce(c.accounts, x)} :: Nonce(c.accounts, x) + |AllTxs(bs)| < TWO64
    ensures k != 0 ==> Nonce(Grow(r, BookOf(h), c, bs).value.accounts, k) == Nonce(c.accounts, k) + Count(AllTxs(bs), k)
    ensures var txs := AllTxs(bs);
      i < j < |txs| && txs[i].from == txs[j].from != 0 ==> (txs[i].nonce == txs[j].nonce <==> Count(txs[i..j], txs[i].from) == 0)
    ensures var txs := AllTxs(bs);
      i < j < |txs| && MovesNonce(txs[i]) && txs[j].from != 0 ==>
        && (txs[i].from, txs[i].nonce) != (txs[j].from, txs[j].nonce)
        && (Injective(h) ==> ContractOf(h, txs[i]) != ContractOf(h, txs[j]))
  {
    var bk, unused, txs := BookOf(h), UnusedTest(h), AllTxs(bs);
    LedgerNumbers(h);
    GrowFollows(r, bk, c, bs);
    if k != 0 { NonceGrows(bk, unused, c.accounts, txs, k); }
    if i < j < |txs| && txs[i].from != 0 && txs[j].from != 0 {
      if txs[i].from == txs[j].from { ReplaysExactly(bk, unused, c.accounts, txs, i, j); }
      if MovesNonce(txs[i]) { NoReplay(bk, h, unused, c.accounts, txs, i, j); }
    }
  }
}
