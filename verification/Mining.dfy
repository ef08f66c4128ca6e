/** Mining, and why validators accept what miners make (blockchain/mining.go against blockchain/validation.go). */
module Mining {
  import opened Text
  import opened Ledger
  import opened Supply
  import opened Blocks

  // ---------------------------------------------------------------- the miner

  datatype MineRun = Mined(state: State, fees: U64, gas: U64) | Overflow | Panics

  /** NewBlock's loop: the miner never credits the coinbase, skips coinbase transactions and those that fail (keeping what
      they changed), and sums with checked additions. */
  function MineTxs(bk: Book, s: State, txs: seq<Tx>, fees: U64, gas: U64): MineRun
    decreases |txs|
  {
    if txs == [] then Mined(s, fees, gas)
    else if txs[0].from == 0 then MineTxs(bk, s, txs[1..], fees, gas)
    else match bk.apply(s, txs[0])
         case Panic => MineRun.Panics
         case Crash => MineRun.Panics
         case Failed(t, _) => MineTxs(bk, t, txs[1..], fees, gas)
         case Applied(t, g) =>
           var f, u := SafeAdd(fees, bk.price(txs[0], g)), SafeAdd(gas, g);
           if f.None? || u.None? then Overflow else MineTxs(bk, t, txs[1..], f.value, u.value)
  }

  /** The first nonce from `n` on that meets the target; the last uint64 is never tried. */
  function FindNonce(r: Rules, hd: Header, n: U64): Option<U64>
    decreases TWO64 - n
  {
    if r.meets(r.hash(hd.(nonce := n)), hd.bits) then Some(n)
    else if n + 1 >= TWO64 - 1 then None
    else FindNonce(r, hd, n + 1)
  }

  datatype Params = Params(version: U64, previousHash: nat, height: U64, previousWork: nat, coinbase: Tx, txs: seq<Tx>,
                           timestamp: U64, bits: nat, states: State)

  datatype Made = Made(block: Block) | NotMade | Broken

  function HeaderFor(r: Rules, p: Params, gas: U64, now: U64): Header {
    Header(p.version, p.previousHash, p.height, if p.timestamp == 0 then now else p.timestamp, 0, r.merkle([p.coinbase] + p.txs),
           p.bits, p.previousWork + r.work(p.bits), BLOCK_GAS_LIMIT, gas, p.coinbase.to)
  }

  /** NewBlock. All transactions go into the block, those that failed included. */
  function NewBlock(r: Rules, bk: Book, p: Params, now: U64): Made {
    match MineTxs(bk, p.states, p.txs, 0, 0)
    case Panics => Broken
    case Overflow => NotMade
    case Mined(_, fees, gas) =>
      var due := SafeAdd(BLOCK_REWARD, fees);
      if due.None? || p.coinbase.amount != due.value || gas > BLOCK_GAS_LIMIT then NotMade
      else
        var hd := HeaderFor(r, p, gas, now);
        match FindNonce(r, hd, 0)
        case None => NotMade
        case Some(n) => Made(Block(hd.(nonce := n), [p.coinbase] + p.txs))
  }

  lemma {:induction false} FoundNonce(r: Rules, hd: Header, n: U64)
    requires FindNonce(r, hd, n).Some?
    ensures var k := FindNonce(r, hd, n).value;
      n <= k && r.meets(r.hash(hd.(nonce := k)), hd.bits) && forall i: U64 :: n <= i < k ==> !r.meets(r.hash(hd.(nonce := i)), hd.bits)
    decreases TWO64 - n
  {
    if !r.meets(r.hash(hd.(nonce := n)), hd.bits) { FoundNonce(r, hd, n + 1); }
  }

  /** Gas and fees of the transactions that apply, as numbers; coinbase transactions and those that fail are passed over. */
  ghost predicate MinedTotals(bk: Book, s: State, txs: seq<Tx>, gas: nat, fees: nat)
    decreases |txs|
  {
    if txs == [] then gas == 0 && fees == 0
    else if txs[0].from == 0 then MinedTotals(bk, s, txs[1..], gas, fees)
    else match bk.apply(s, txs[0])
         case Applied(t, g) => g <= gas && bk.price(txs[0], g) <= fees && MinedTotals(bk, t, txs[1..], gas - g, fees - bk.price(txs[0], g))
         case Failed(t, _) => MinedTotals(bk, t, txs[1..], gas, fees)
         case _ => false
  }

  lemma {:induction false} MineSums(bk: Book, s: State, txs: seq<Tx>, fees: U64, gas: U64, g: nat, f: nat)
    requires MinedTotals(bk, s, txs, g, f)
    ensures MineTxs(bk, s, txs, fees, gas).Mined? <==> fees + f < TWO64 && gas + g < TWO64
    ensures MineTxs(bk, s, txs, fees, gas).Mined? ==> MineTxs(bk, s, txs, fees, gas).fees == fees + f && MineTxs(bk, s, txs, fees, gas).gas == gas + g
    decreases |txs|
  {
    if txs != [] {
      var r := bk.apply(s, txs[0]);
      if txs[0].from == 0 {
        MineSums(bk, s, txs[1..], fees, gas, g, f);
      } else if r.Failed? {
        MineSums(bk, r.state, txs[1..], fees, gas, g, f);
      } else {
        var p := bk.price(txs[0], r.gas);
        if fees + p < TWO64 && gas + r.gas < TWO64 { MineSums(bk, r.state, txs[1..], fees + p, gas + r.gas, g - r.gas, f - p); }
      }
    }
  }

  /** The header a miner asks for: it continues the parent, and its work is the parent's and its own. */
  predicate Continues(r: Rules, p: Params, now: U64, hd: Header) {
    && hd.version == p.version && hd.previousHash == p.previousHash && hd.height == p.height && hd.bits == p.bits
    && hd.totalWork == p.previousWork + r.work(p.bits)
    && hd.timestamp == (if p.timestamp == 0 then now else p.timestamp)
    && hd.beneficiary == p.coinbase.to && hd.gasLimit == 8_000_000
  }

  /** NewBlock makes a block if and only if the coinbase has exactly the reward and the fees, the gas is within the block's limit, and
      some nonce but the last meets the target; and what it then makes. */
  lemma MadeExactly(r: Rules, bk: Book, p: Params, now: U64, gas: nat, fees: nat)
    requires MinedTotals(bk, p.states, p.txs, gas, fees) && fees < TWO64
    ensures var hd := HeaderFor(r, p, if gas < TWO64 then gas else 0, now);
      NewBlock(r, bk, p, now).Made? <==>
      && gas <= 8_000_000 && p.coinbase.amount == 50_000_000 + fees
      && exists n: U64 {:trigger hd.(nonce := n)} :: n < TWO64 - 1 && r.meets(r.hash(hd.(nonce := n)), hd.bits)
    ensures NewBlock(r, bk, p, now).Made? ==>
      var b := NewBlock(r, bk, p, now).block;
      && Continues(r, p, now, b.header) && b.txs == [p.coinbase] + p.txs && b.header.merkleRoot == r.merkle(b.txs) && b.header.gasUsed == gas
      && r.meets(r.hash(b.header), b.header.bits)
  {
    MineSums(bk, p.states, p.txs, 0, 0, gas, fees);
    var hd := HeaderFor(r, p, if gas < TWO64 then gas else 0, now);
    NonceExists(r, hd, 0);
    if FindNonce(r, hd, 0).Some? { FoundNonce(r, hd, 0); }
  }

  lemma {:induction false} NonceExists(r: Rules, hd: Header, n: U64)
    requires n < TWO64 - 1
    ensures FindNonce(r, hd, n).Some? <==> exists k: U64 {:trigger hd.(nonce := k)} :: n <= k < TWO64 - 1 && r.meets(r.hash(hd.(nonce := k)), hd.bits)
    decreases TWO64 - n
  {
    if !r.meets(r.hash(hd.(nonce := n)), hd.bits) && n + 1 < TWO64 - 1 { NonceExists(r, hd, n + 1); }
  }

  // ---------------------------------------------------------------- two runs side by side

  /** The recipient's account can take the amount, on top of `a` more, as often as it is credited. */
  predicate Roomy(s: State, tx: Tx, k: Key, a: U64) {
    tx.to == k && k != 0 ==> Held(s, k) + a + (if k in s && s[k].code != [] then 2 else 1) * tx.amount < TWO64
  }

  /** `v` is `m` with `a` more on account `k`. */
  ghost predicate Richer(m: State, v: State, k: Key, a: U64) { Credit(m, k, a) == Some(v) }

  lemma RicherAccepts(h: Host, m: State, v: State, tx: Tx, k: Key, a: U64)
    requires Richer(m, v, k, a) && Validate(h, m, tx).Accept? && tx.from != 0
    ensures Validate(h, v, tx).Accept?
  {
    ValidateExactly(h, m, tx);
    ValidateExactly(h, v, tx);
  }

  /** ... or there is no difference left, because a contract was put at `k`. */
  ghost predicate Related(m: State, v: State, k: Key, a: U64) { m == v || Richer(m, v, k, a) }

  ghost predicate SameRun(m: Outcome, v: Outcome, k: Key, a: U64) {
    && (m.Applied? ==> v.Applied? && v.gas == m.gas && Related(m.state, v.state, k, a))
    && (m.Failed? ==> v.Failed?)
  }

  /** The last step of the two runs. */
  lemma RicherSettles(m: State, v: State, tx: Tx, fixed: U64, gas: U64, k: Key, a: U64)
    requires tx.from in m && tx.from in v && Richer(m, v, k, a)
    ensures SameRun(Settle(m, m[tx.from], false, tx, fixed, gas), Settle(v, v[tx.from], false, tx, fixed, gas), k, a)
  {
    var x, y := Settle(m, m[tx.from], false, tx, fixed, gas), Settle(v, v[tx.from], false, tx, fixed, gas);
    if x.Applied? {
      assert Credit(x.state, k, a).Some?;
      assert Credit(x.state, k, a).value == y.state;
    }
  }

  lemma RicherSettlesDetached(m: State, v: State, from: Account, from': Account, tx: Tx, fixed: U64, gas: U64, k: Key, a: U64)
    requires Related(m, v, k, a) && from.balance <= from'.balance
    ensures SameRun(Settle(m, from, true, tx, fixed, gas), Settle(v, from', true, tx, fixed, gas), k, a)
  {
  }

  /** A new contract. */
  lemma RicherCreates(m: State, v: State, addr: Key, c: Account, k: Key, a: U64)
    requires Richer(m, v, k, a)
    ensures if addr == k then m[addr := c] == v[addr := c] else Richer(m[addr := c], v[addr := c], k, a)
  {
    if addr == k {
      assert m[k := c] == v[k := c];
    } else if k in m {
      assert m[addr := c][k := m[k].(balance := m[k].balance + a)] == v[addr := c];
    } else {
      assert m[addr := c][k := Account(a, 0, [], map[])] == v[addr := c];
    }
  }

  lemma RicherDeploys(h: Host, m: State, v: State, tx: Tx, fixed: U64, gas: U64, k: Key, a: U64)
    requires Richer(m, v, k, a) && tx.from in m && tx.from in v
    ensures Deploy(h, m, tx).Executed? <==> Deploy(h, v, tx).Executed?
    ensures Deploy(h, m, tx).Refused? <==> Deploy(h, v, tx).Refused?
    ensures var d, e := Deploy(h, m, tx), Deploy(h, v, tx);
      d.Executed? ==>
        && e.gas == d.gas && tx.from in d.state && tx.from in e.state
        && var detached := h.address(tx.from, m[tx.from].nonce) == tx.from;
        SameRun(Settle(d.state, SenderAfter(m, d.state, tx, detached), detached, tx, fixed, gas),
                Settle(e.state, SenderAfter(v, e.state, tx, detached), detached, tx, fixed, gas), k, a)
  {
    assert m[tx.from].nonce == v[tx.from].nonce && m[tx.from].balance <= v[tx.from].balance;
    var addr := h.address(tx.from, m[tx.from].nonce);
    var d, e := Deploy(h, m, tx), Deploy(h, v, tx);
    if d.Executed? {
      RicherCreates(m, v, addr, d.state[addr], k, a);
      if addr == tx.from {
        RicherSettlesDetached(d.state, e.state, m[tx.from], v[tx.from], tx, fixed, gas, k, a);
      } else if addr != k {
        RicherSettles(d.state, e.state, tx, fixed, gas, k, a);
      }
    }
  }

  lemma RicherDeployment(h: Host, m: State, v: State, tx: Tx, k: Key, a: U64)
    requires Richer(m, v, k, a) && tx.from in m && tx.from in v
    ensures SameRun(ApplyDeployment(h, m, tx), ApplyDeployment(h, v, tx), k, a)
  {
    assert m[tx.from].nonce == v[tx.from].nonce;
    var fixed, d := SafeAdd(tx.amount, DEPLOYMENT_FEE), Deploy(h, m, tx);
    if fixed.Some? && d.Executed? {
      RicherDeploys(h, m, v, tx, fixed.value, Add64(BaseGas(GAS_DEPLOY, tx), d.gas), k, a);
    }
  }

  lemma RicherCredits(m: State, v: State, to: Key, amount: U64, k: Key, a: U64)
    requires Richer(m, v, k, a) && (to == k ==> Held(m, k) + a + amount < TWO64) && Credit(m, to, amount).Some?
    ensures Credit(v, to, amount).Some? && Richer(Credit(m, to, amount).value, Credit(v, to, amount).value, k, a)
  {
    var m', v' := Credit(m, to, amount).value, Credit(v, to, amount).value;
    assert Credit(m', k, a).Some? && Credit(m', k, a).value == v';
  }

  lemma RicherCalls(h: Host, m: State, v: State, tx: Tx, k: Key, a: U64)
    requires Richer(m, v, k, a) && tx.to in m && tx.to in v && (tx.to == k ==> m[k].balance + a + tx.amount < TWO64)
    ensures var d, e := Call(h, m, tx), Call(h, v, tx);
      d.Executed? ==> e.Executed? && e.gas == d.gas && Richer(d.state, e.state, k, a) && d.state.Keys == m.Keys && e.state.Keys == v.Keys
  {
    var d, e := Call(h, m, tx), Call(h, v, tx);
    assert m[tx.to].code == v[tx.to].code && m[tx.to].storage == v[tx.to].storage;
    if d.Executed? {
      assert Credit(d.state, k, a).Some? && Credit(d.state, k, a).value == e.state;
    }
  }

  lemma RicherTransfer(h: Host, m: State, v: State, tx: Tx, k: Key, a: U64)
    requires Richer(m, v, k, a) && tx.from in m && tx.from in v && tx.to != 0 && Roomy(m, tx, k, a)
    ensures SameRun(ApplyTransfer(h, m, tx), ApplyTransfer(h, v, tx), k, a)
  {
    var gas := BaseGas(GAS_TRANSFER, tx);
    if Credit(m, tx.to, tx.amount).Some? {
      RicherCredits(m, v, tx.to, tx.amount, k, a);
      var m', v' := Credit(m, tx.to, tx.amount).value, Credit(v, tx.to, tx.amount).value;
      RicherSettles(m', v', tx, tx.amount, gas, k, a);
      if tx.to in m && m[tx.to].code != [] {
        if tx.instructions != [] {
          var d := Deploy(h, m', tx);
          RicherDeploys(h, m', v', tx, tx.amount, if d.Executed? then Add64(gas, d.gas) else 0, k, a);
        } else {
          var d, e := Call(h, m', tx), Call(h, v', tx);
          RicherCalls(h, m', v', tx, k, a);
          if d.Executed? { RicherSettles(d.state, e.state, tx, tx.amount, Add64(gas, d.gas), k, a); }
        }
      }
    }
  }

  /** A transaction does the same in both runs. */
  lemma RicherApplies(h: Host, m: State, v: State, tx: Tx, k: Key, a: U64)
    requires Related(m, v, k, a) && Validate(h, m, tx).Accept? && tx.from != 0 && Roomy(m, tx, k, a)
    ensures Validate(h, v, tx).Accept? && SameRun(Apply(h, m, tx), Apply(h, v, tx), k, a)
  {
    if m == v { return; }
    RicherAccepts(h, m, v, tx, k, a);
    assert tx.from in m && tx.from in v by {
      ValidateExactly(h, m, tx);
      ValidateExactly(h, v, tx);
    }
    if IsDeployment(tx) {
      RicherDeployment(h, m, v, tx, k, a);
    } else if tx.to != 0 {
      RicherTransfer(h, m, v, tx, k, a);
    }
  }

  // ---------------------------------------------------------------- agreement

  function RoomyTest(k: Key, a: U64): Test { (s, tx) => Roomy(s, tx, k, a) }

  type Relation = (State, State) -> bool

  function RicherRelation(k: Key, a: U64): Relation { (m, v) => m == v || Credit(m, k, a) == Some(v) }

  ghost predicate Alike(rel: Relation, x: Outcome, y: Outcome) {
    (x.Applied? ==> y.Applied? && y.gas == x.gas && rel(x.state, y.state)) && (x.Failed? ==> y.Failed?)
  }

  /** The ledger treats both runs alike. */
  ghost predicate Parallel(bk: Book, roomy: Test, rel: Relation) {
    forall m, v, tx {:trigger bk.apply(m, tx), rel(m, v)} ::
      rel(m, v) && bk.valid(m, tx) && tx.from != 0 && roomy(m, tx) ==> bk.valid(v, tx) && Alike(rel, bk.apply(m, tx), bk.apply(v, tx))
  }

  lemma LedgerParallel(h: Host, k: Key, a: U64)
    ensures Parallel(BookOf(h), RoomyTest(k, a), RicherRelation(k, a))
  {
    forall m, v, tx: Tx | Related(m, v, k, a) && Validate(h, m, tx).Accept? && tx.from != 0 && Roomy(m, tx, k, a)
      ensures Validate(h, v, tx).Accept? && SameRun(Apply(h, m, tx), Apply(h, v, tx), k, a)
    {
      RicherApplies(h, m, v, tx, k, a);
    }
  }

  /** Every transaction is regular and validates when its turn comes in the miner's run, up to the first that fails. */
  ghost predicate InSequence(bk: Book, roomy: Test, s: State, txs: seq<Tx>)
    decreases |txs|
  {
    txs == [] || (txs[0].from != 0 && bk.valid(s, txs[0]) && roomy(s, txs[0])
                  && (bk.apply(s, txs[0]).Applied? ==> InSequence(bk, roomy, bk.apply(s, txs[0]).state, txs[1..])))
  }

  /** None fails. */
  predicate AllApply(bk: Book, s: State, txs: seq<Tx>)
    decreases |txs|
  {
    txs == [] || (bk.apply(s, txs[0]).Applied? && AllApply(bk, bk.apply(s, txs[0]).state, txs[1..]))
  }

  /** The run that never credits the coinbase and the run that credited it first agree on gas and fees. */
  lemma {:induction false} RunsAgree(bk: Book, roomy: Test, rel: Relation, m: State, v: State, txs: seq<Tx>, fees: U64, gas: U64)
    requires Parallel(bk, roomy, rel) && rel(m, v) && InSequence(bk, roomy, m, txs) && MineTxs(bk, m, txs, fees, gas).Mined?
    requires AllApply(bk, m, txs)
    ensures var x, y := MineTxs(bk, m, txs, fees, gas), RunTxs(bk, v, txs, gas, fees);
      y.Summed? && y.gas == x.gas && y.fees == x.fees && rel(x.state, y.state)
    decreases |txs|
  {
    if txs != [] {
      var x, y := bk.apply(m, txs[0]), bk.apply(v, txs[0]);
      assert bk.valid(v, txs[0]) && Alike(rel, x, y);
      StepTogether(bk, m, v, txs, fees, gas, x, y);
      RunsAgree(bk, roomy, rel, x.state, y.state, txs[1..], fees + bk.price(txs[0], x.gas), gas + x.gas);
    }
  }

  /** One transaction in both runs; a checked addition that succeeds is the wrapping one. */
  lemma StepTogether(bk: Book, m: State, v: State, txs: seq<Tx>, fees: U64, gas: U64, x: Outcome, y: Outcome)
    requires txs != [] && txs[0].from != 0 && x == bk.apply(m, txs[0]) && y == bk.apply(v, txs[0]) && bk.valid(v, txs[0])
    requires x.Applied? && y.Applied? && y.gas == x.gas && MineTxs(bk, m, txs, fees, gas).Mined?
    ensures var p := bk.price(txs[0], x.gas);
      && fees + p < TWO64 && gas + x.gas < TWO64
      && MineTxs(bk, m, txs, fees, gas) == MineTxs(bk, x.state, txs[1..], fees + p, gas + x.gas)
      && RunTxs(bk, v, txs, gas, fees) == RunTxs(bk, y.state, txs[1..], gas + x.gas, fees + p)
  {
  }

  /** A transaction that fails in the miner's run, where it is skipped, fails in the validator's. */
  lemma {:induction false} RunStops(bk: Book, roomy: Test, rel: Relation, m: State, v: State, txs: seq<Tx>, fees: U64, gas: U64)
    requires Parallel(bk, roomy, rel) && rel(m, v) && InSequence(bk, roomy, m, txs) && MineTxs(bk, m, txs, fees, gas).Mined?
    requires !AllApply(bk, m, txs)
    ensures RunTxs(bk, v, txs, gas, fees) == Rejected
    decreases |txs|
  {
    var x, y := bk.apply(m, txs[0]), bk.apply(v, txs[0]);
    assert bk.valid(v, txs[0]) && Alike(rel, x, y);
    if x.Applied? {
      StepTogether(bk, m, v, txs, fees, gas, x, y);
      RunStops(bk, roomy, rel, x.state, y.state, txs[1..], fees + bk.price(txs[0], x.gas), gas + x.gas);
    } else {
      FailsAtOnce(bk, v, txs, gas, fees);
    }
  }

  lemma FailsAtOnce(bk: Book, s: State, txs: seq<Tx>, gas: U64, fees: U64)
    requires txs != [] && bk.apply(s, txs[0]).Failed?
    ensures RunTxs(bk, s, txs, gas, fees) == Rejected
  {
  }

  /** What the miner was told fits the chain. */
  ghost predicate FitsChain(r: Rules, p: Params, c: Chain, now: U64) {
    && p.states == c.accounts && p.previousHash in c.index && (c.tip.Some? ==> p.previousHash == r.hash(c.tip.value.header))
    && p.bits == r.bitsFor(c.slots)
    && (if p.timestamp == 0 then now else p.timestamp) > c.index[p.previousHash].header.timestamp
  }

  /** Coinbase transactions credit. */
  ghost predicate Credits(bk: Book) {
    forall s, tx: Tx {:trigger bk.apply(s, tx)} :: tx.from == 0 ==>
      bk.valid(s, tx) && (Credit(s, tx.to, tx.amount).Some? ==> bk.apply(s, tx) == Applied(Credit(s, tx.to, tx.amount).value, 0))
  }

  lemma MadeIsAccepted(r: Rules, bk: Book, roomy: Test, p: Params, c: Chain, now: U64, b: Block)
    requires NewBlock(r, bk, p, now) == Made(b) && FitsChain(r, p, c, now) && !IsGenesis(r, b) && p.coinbase.from == 0
    requires Parallel(bk, roomy, RicherRelation(p.coinbase.to, p.coinbase.amount)) && Credits(bk) && InSequence(bk, roomy, c.accounts, p.txs)
    requires Credit(c.accounts, p.coinbase.to, p.coinbase.amount).Some?
    ensures ValidateBlock(r, bk, b, c).Accepted? <==> AllApply(bk, c.accounts, p.txs)
  {
    var k, a := p.coinbase.to, p.coinbase.amount;
    var v := Credit(c.accounts, k, a).value;
    MadeFits(r, bk, p, c, now, b);
    CoinbaseFirst(bk, c.accounts, v, p.coinbase, p.txs, b.txs);
    if AllApply(bk, c.accounts, p.txs) {
      RunsAgree(bk, roomy, RicherRelation(k, a), c.accounts, v, p.txs, 0, 0);
      JudgedAccepted(r, b, RunTxs(bk, v, p.txs, 0, 0));
    } else {
      RunStops(bk, roomy, RicherRelation(k, a), c.accounts, v, p.txs, 0, 0);
    }
  }

  lemma CoinbaseFirst(bk: Book, s: State, v: State, coinbase: Tx, txs: seq<Tx>, all: seq<Tx>)
    requires Credits(bk) && coinbase.from == 0 && Credit(s, coinbase.to, coinbase.amount) == Some(v) && all == [coinbase] + txs
    ensures RunTxs(bk, s, all, 0, 0) == RunTxs(bk, v, txs, 0, 0)
  {
    assert all[1..] == txs && bk.apply(s, all[0]) == Applied(v, 0);
  }

  lemma JudgedAccepted(r: Rules, b: Block, run: BlockRun)
    requires run.Summed? && !IsGenesis(r, b) && b.txs != [] && run.gas == b.header.gasUsed <= b.header.gasLimit
    requires BLOCK_REWARD + run.fees == b.txs[0].amount
    ensures Judge(r, b, run) == Accepted(run.state)
  {
  }

  /** The structure of a new block is fine, and it reports the miner's sums. */
  lemma MadeFits(r: Rules, bk: Book, p: Params, c: Chain, now: U64, b: Block)
    requires NewBlock(r, bk, p, now) == Made(b) && FitsChain(r, p, c, now) && !IsGenesis(r, b)
    ensures CheckStructure(r, b, c) == Fine && b.txs == [p.coinbase] + p.txs
    ensures var x := MineTxs(bk, p.states, p.txs, 0, 0);
      x.Mined? && b.header.gasUsed == x.gas <= b.header.gasLimit && BLOCK_REWARD + x.fees == p.coinbase.amount
  {
    var x := MineTxs(bk, p.states, p.txs, 0, 0);
    FoundNonce(r, HeaderFor(r, p, x.gas, now), 0);
  }

  /** Miner and validator agree: if the parameters fit the chain and the transactions validate in sequence from the current
      state, a block that NewBlock returns is accepted by ValidateBlock if and only if every transaction also applies. */
  lemma MinerValidatorAgreement(r: Rules, h: Host, p: Params, c: Chain, now: U64, b: Block)
    requires NewBlock(r, BookOf(h), p, now) == Made(b) && FitsChain(r, p, c, now) && !IsGenesis(r, b) && p.coinbase.from == 0
    requires Credit(c.accounts, p.coinbase.to, p.coinbase.amount).Some?
    requires InSequence(BookOf(h), RoomyTest(p.coinbase.to, p.coinbase.amount), c.accounts, p.txs)
    ensures ValidateBlock(r, BookOf(h), b, c).Accepted? <==> AllApply(BookOf(h), c.accounts, p.txs)
  {
    LedgerParallel(h, p.coinbase.to, p.coinbase.amount);
    MadeIsAccepted(r, BookOf(h), RoomyTest(p.coinbase.to, p.coinbase.amount), p, c, now, b);
  }

  // ---------------------------------------------------------------- validating is not enough

  /** A transfer that validates applies if and only if its gas limit covers its base gas: validation does not look at that.
      One that offers less fails after its recipient was credited. */
  lemma TransferAppliesExactly(h: Host, s: State, tx: Tx)
    requires Validate(h, s, tx).Accept? && Plain(h, s, tx) && !IsDeployment(tx) && !IsCall(s, tx) && Total(s) < TWO63
    ensures Apply(h, s, tx).Applied? <==> BaseGas(GAS_TRANSFER, tx) <= tx.gasLimit
    ensures !Apply(h, s, tx).Applied? ==> Apply(h, s, tx) == Failed(Credited(h, s, tx), BaseGas(GAS_TRANSFER, tx))
  {
    ValidateExactly(h, s, tx);
    RecipientFits(s, tx);
    SettleFits(Credited(h, s, tx), tx, tx.amount, BaseGas(GAS_TRANSFER, tx));
  }

  /** There is no state in which the transaction applies. */
  ghost predicate NeverApplies(bk: Book, tx: Tx) { forall s {:trigger bk.apply(s, tx)} :: !bk.apply(s, tx).Applied? }

  /** So it is, for one, with every transfer or call whose gas limit is below its base gas. */
  lemma TooLittleGas(h: Host, tx: Tx)
    requires Frugal(h) && tx.from != 0 && tx.to != 0 && tx.gasLimit < BaseGas(GAS_TRANSFER, tx) < TWO64 - tx.gasLimit
    ensures NeverApplies(BookOf(h), tx)
  {
    forall s: State ensures !Apply(h, s, tx).Applied? {
      if tx.from in s && Credit(s, tx.to, tx.amount).Some? {
        NeverFinishes(h, Credit(s, tx.to, tx.amount).value, tx, tx.to in s && s[tx.to].code != []);
      }
    }
  }

  lemma NeverFinishes(h: Host, t: State, tx: Tx, contract: bool)
    requires Frugal(h) && tx.from in t && tx.to in t && tx.gasLimit < BaseGas(GAS_TRANSFER, tx) < TWO64 - tx.gasLimit
    ensures !FinishTransfer(h, t, tx, contract).Applied?
  {
    var e := ExecuteTx(h, t, tx);
    if e.Executed? { assert e.gas <= tx.gasLimit; }
  }

  lemma {:induction false} NeverSummed(bk: Book, s: State, txs: seq<Tx>, gas: U64, fees: U64, i: nat)
    requires i < |txs| && NeverApplies(bk, txs[i])
    ensures !RunTxs(bk, s, txs, gas, fees).Summed?
    decreases |txs|
  {
    var r := bk.apply(s, txs[0]);
    if i > 0 && r.Applied? {
      if txs[0].from == 0 {
        NeverSummed(bk, r.state, txs[1..], gas, fees, i - 1);
      } else {
        NeverSummed(bk, r.state, txs[1..], Add64(gas, r.gas), Add64(fees, bk.price(txs[0], r.gas)), i - 1);
      }
    }
  }

  /** The miner skips a transaction that fails and still puts it into the block, which no validator accepts, whatever its
      chain. */
  lemma SkippedButIncluded(r: Rules, bk: Book, p: Params, c: Chain, now: U64, b: Block, i: nat)
    requires NewBlock(r, bk, p, now) == Made(b) && i < |p.txs| && NeverApplies(bk, p.txs[i])
    ensures b.txs[i + 1] == p.txs[i] && !ValidateBlock(r, bk, b, c).Accepted?
  {
    assert b.txs == [p.coinbase] + p.txs;
    NeverSummed(bk, c.accounts, b.txs, 0, 0, i + 1);
  }

  /** Room is no issue for plain transactions while the supply, coinbase included, stays below 2^63. */
  lemma PlainIsRoomy(h: Host, s: State, tx: Tx, k: Key, a: U64)
    requires Validate(h, s, tx).Accept? && Plain(h, s, tx) && Total(s) + a < TWO63
    ensures Roomy(s, tx, k, a)
  {
    ValidateExactly(h, s, tx);
    BalanceBelow(s, tx.from);
    if k in s { BalanceBelow(s, k); }
  }

  // ---------------------------------------------------------------- blocks of transfers

  /** A transfer to an account without code, with a modest supply. */
  ghost function TransferTest(h: Host): Test {
    (s: State, tx: Tx) => Plain(h, s, tx) && !IsDeployment(tx) && !IsCall(s, tx) && Total(s) < TWO63
  }

  /** The gas limit covers the base gas. */
  predicate Covered(tx: Tx) { BaseGas(GAS_TRANSFER, tx) <= tx.gasLimit }

  ghost predicate Decides(bk: Book, transfer: Test) {
    forall s, tx {:trigger bk.apply(s, tx)} :: bk.valid(s, tx) && transfer(s, tx) ==> (bk.apply(s, tx).Applied? <==> Covered(tx))
  }

  lemma {:induction false} AllCovered(bk: Book, roomy: Test, transfer: Test, s: State, txs: seq<Tx>)
    requires Decides(bk, transfer) && InSequence(bk, roomy, s, txs) && PlainRun(bk, transfer, s, txs)
    ensures AllApply(bk, s, txs) <==> forall i :: 0 <= i < |txs| ==> Covered(txs[i])
    decreases |txs|
  {
    if txs != [] {
      var r := bk.apply(s, txs[0]);
      assert r.Applied? <==> Covered(txs[0]);
      if r.Applied? {
        AllCovered(bk, roomy, transfer, r.state, txs[1..]);
        assert forall i :: 0 < i < |txs| ==> txs[i] == txs[1..][i - 1];
      }
    }
  }

  /** A block of transfers that NewBlock returns is accepted if and only if every gas limit covers its base gas. */
  lemma TransferBlocksExactly(r: Rules, h: Host, p: Params, c: Chain, now: U64, b: Block)
    requires NewBlock(r, BookOf(h), p, now) == Made(b) && FitsChain(r, p, c, now) && !IsGenesis(r, b) && p.coinbase.from == 0
    requires Credit(c.accounts, p.coinbase.to, p.coinbase.amount).Some?
    requires InSequence(BookOf(h), RoomyTest(p.coinbase.to, p.coinbase.amount), c.accounts, p.txs)
    requires PlainRun(BookOf(h), TransferTest(h), c.accounts, p.txs)
    ensures ValidateBlock(r, BookOf(h), b, c).Accepted? <==> forall i :: 0 <= i < |p.txs| ==> Covered(p.txs[i])
  {
    MinerValidatorAgreement(r, h, p, c, now, b);
    forall s, tx | Validate(h, s, tx).Accept? && TransferTest(h)(s, tx) ensures Apply(h, s, tx).Applied? <==> Covered(tx) {
      TransferAppliesExactly(h, s, tx);
    }
    AllCovered(BookOf(h), RoomyTest(p.coinbase.to, p.coinbase.amount), TransferTest(h), c.accounts, p.txs);
  }
}
