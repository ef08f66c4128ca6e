/** The chain object and the miner at work (blockchain/validation.go, blockchain/mining.go, blockchain/chain.go):
    loops over transactions on a private copy of the accounts. */
module ChainState {
  import opened Text
  import opened Ledger
  import opened Blocks
  import opened Mining
  import opened Accounts

  /** ValidateBlock's loop: validate, apply and add up, stopping at the first failure. */
  method RunTransactions(h: Host, states: AccountStates, txs: seq<Tx>) returns (run: Option<(U64, U64)>, panicked: bool)
    requires states.Valid()
    modifies states, states.m.Values
    ensures states.Valid() && forall k :: k in states.m ==> (k in old(states.m) && states.m[k] == old(states.m[k])) || fresh(states.m[k])
    ensures match RunTxs(BookOf(h), old(states.View()), txs, 0, 0)
      case Summed(s, gas, fees) => run == Some((gas, fees)) && states.View() == s && !panicked
      case Rejected => run.None? && !panicked
      case Panics => run.None? && panicked
  {
    var gas: U64, fees: U64, i := 0, 0, 0;
    while i < |txs|
      invariant 0 <= i <= |txs| && states.Valid()
      invariant forall k :: k in states.m ==> (k in old(states.m) && states.m[k] == old(states.m[k])) || fresh(states.m[k])
      invariant RunTxs(BookOf(h), states.View(), txs[i..], gas, fees) == RunTxs(BookOf(h), old(states.View()), txs, 0, 0)
    {
      var tx := txs[i];
      ghost var s := states.View();
      assert txs[i..][0] == tx && txs[i..][1..] == txs[i + 1..];
      var v := states.ValidateTransaction(h, tx);
      if v != Accept { return None, false; }
      var used, st := states.ApplyTransaction(h, tx);
      if st != Ok { return None, st != Error; }
      if tx.from != 0 {
        gas := Add64(gas, used);
        fees := Add64(fees, Mul64(used, tx.gasPrice));
      }
      i := i + 1;
    }
    return Some((gas, fees)), false;
  }

  /** The returned values tell judgement `j`. */
  ghost predicate Tells(j: Judgement, v: Option<Structure>, panicked: bool, states: AccountStates)
    reads states, states.m.Values
  {
    match j
    case Accepted(s) => v == Some(Fine) && !panicked && states.View() == s
    case Unfit(why) => v == Some(why) && why != Fine && !panicked
    case Invalid => v.None? && !panicked
    case Panicked => v.None? && panicked
  }

  /** What ValidateBlock does once the structure is fine. */
  method JudgeBlock(r: Rules, h: Host, b: Block, states: AccountStates) returns (v: Option<Structure>, panicked: bool)
    requires states.Valid()
    modifies states, states.m.Values
    ensures states.Valid() && forall k :: k in states.m ==> (k in old(states.m) && states.m[k] == old(states.m[k])) || fresh(states.m[k])
    ensures Tells(Judge(r, b, RunTxs(BookOf(h), old(states.View()), b.txs, 0, 0)), v, panicked, states)
  {
    var run, p := RunTransactions(h, states, b.txs);
    if run.None? { return None, p; }
    var (gas, fees) := run.value;
    if gas != b.header.gasUsed || gas > b.header.gasLimit { return None, false; }
    if !IsGenesis(r, b) {
      if |b.txs| == 0 { return None, true; }
      if b.txs[0].amount != Add64(fees, BLOCK_REWARD) { return None, false; }
    }
    return Some(Fine), false;
  }

  class ChainObject {
    var slots: seq<Option<Block>>
    var index: map<nat, Block>
    var tip: Option<Block>
    var accounts: AccountStates

    /** NewChain: it knows the genesis block and has no tip. */
    constructor (r: Rules, genesis: Block, accounts: AccountStates)
      requires accounts.Valid()
      ensures Valid() && View() == Chain([], map[r.hash(genesis.header) := genesis], None, accounts.View())
    {
      slots, index, tip, this.accounts := [], map[r.hash(genesis.header) := genesis], None, accounts;
    }

    ghost predicate Valid()
      reads this, accounts
    {
      accounts.Valid()
    }

    ghost function View(): Chain
      reads this, accounts, accounts.m.Values
    {
      Chain(slots, index, tip, accounts.View())
    }

    /** ValidateBlock: the verdict, and on acceptance the new accounts, all of them private copies. */
    method ValidateBlock(r: Rules, h: Host, b: Block) returns (v: Option<Structure>, panicked: bool, states: AccountStates)
      requires Valid()
      ensures View() == old(View()) && fresh(states) && states.Valid() && forall k :: k in states.m ==> fresh(states.m[k])
      ensures Tells(Blocks.ValidateBlock(r, BookOf(h), b, old(View())), v, panicked, states)
    {
      var structure := Structured(r, b);
      states := accounts.Copy();
      ghost var run := RunTxs(BookOf(h), states.View(), b.txs, 0, 0);
      assert Blocks.ValidateBlock(r, BookOf(h), b, View()) == if structure != Fine then Unfit(structure) else Judge(r, b, run);
      if structure == Fine { v, panicked := JudgeBlock(r, h, b, states); } else { v, panicked := Some(structure), false; }
    }

    /** validateBlockStructure; the parent is looked up by its hash. */
    method Structured(r: Rules, b: Block) returns (s: Structure)
      requires Valid()
      ensures s == CheckStructure(r, b, View())
    {
      if IsGenesis(r, b) { return if GenesisOk(r, b) then Fine else BadBlock; }
      if b.header.previousHash !in index { return MissingParent; }
      var parent := index[b.header.previousHash];
      if tip.Some? && r.hash(tip.value.header) != b.header.previousHash { return Fork; }
      if !r.meets(r.hash(b.header), b.header.bits) || b.header.bits != r.bitsFor(slots) { return BadBlock; }
      if r.merkle(b.txs) != b.header.merkleRoot || b.header.timestamp <= parent.header.timestamp { return BadBlock; }
      return Fine;
    }

    /** AddBlock: room is made in the height index, then all indices and the tip are updated. */
    method AddBlock(r: Rules, b: Block)
      requires Valid()
      modifies this`slots, this`index, this`tip
      ensures Valid() && View() == WithBlock(r, old(View()), b)
    {
      ghost var was, before := slots, View();
      var height := b.header.height;
      index := index[r.hash(b.header) := b];
      while |slots| <= height
        invariant |was| <= |slots| && slots == was + seq(|slots| - |was|, _ => None) 
        invariant index == before.index[r.hash(b.header) := b] && tip == before.tip && accounts.View() == before.accounts
        invariant |slots| <= height + 1 || slots == was
        decreases height + 1 - |slots|
      {
        slots := slots + [None];
      }
      assert slots == Stretched(was, height);
      slots := slots[height := Some(b)];
      if tip.None? || height > tip.value.header.height { tip := Some(b); }
      assert slots == WithBlock(r, before, b).slots && index == WithBlock(r, before, b).index && tip == WithBlock(r, before, b).tip;
    }

    /** ValidateAndApplyBlock: on acceptance the chain has the new accounts and one more block, otherwise nothing changes. */
    method ValidateAndApplyBlock(r: Rules, h: Host, b: Block) returns (ok: bool)
      requires Valid()
      modifies this
      ensures Valid()
      ensures match Extend(r, BookOf(h), b, old(View()))
        case Some(c) => ok && View() == c
        case None => !ok && View() == old(View())
    {
      var v, panicked, states := ValidateBlock(r, h, b);
      ok := v == Some(Fine) && !panicked;
      if ok {
        accounts := states;
        AddBlock(r, b);
      }
    }
  }

  // ---------------------------------------------------------------- the miner

  /** NewBlock's loop over the transactions, on a copy of the accounts that is then thrown away. */
  method MineTransactions(h: Host, states: AccountStates, txs: seq<Tx>) returns (run: Option<(U64, U64)>, panicked: bool)
    requires states.Valid()
    modifies states, states.m.Values
    ensures match MineTxs(BookOf(h), old(states.View()), txs, 0, 0)
      case Mined(s, fees, gas) => run == Some((fees, gas)) && !panicked && states.View() == s
      case Overflow => run.None? && !panicked
      case Panics => run.None? && panicked
  {
    var fees: U64, gas: U64, i := 0, 0, 0;
    while i < |txs|
      invariant 0 <= i <= |txs| && states.Valid()
      invariant forall k :: k in states.m ==> (k in old(states.m) && states.m[k] == old(states.m[k])) || fresh(states.m[k])
      invariant MineTxs(BookOf(h), states.View(), txs[i..], fees, gas) == MineTxs(BookOf(h), old(states.View()), txs, 0, 0)
    {
      var tx := txs[i];
      assert txs[i..][0] == tx && txs[i..][1..] == txs[i + 1..];
      i := i + 1;
      if tx.from != 0 {
        var used, st := states.ApplyTransaction(h, tx);
        if st == Status.Panicked || st == Dead { return None, true; }
        if st == Ok {
          var f, g := SafeAdd(fees, Mul64(used, tx.gasPrice)), SafeAdd(gas, used);
          if f.None? || g.None? { return None, false; }
          fees, gas := f.value, g.value;
        }
      }
    }
    return Some((fees, gas)), false;
  }

  /** MineCorrectNonce. */
  method MineCorrectNonce(r: Rules, hd: Header) returns (nonce: Option<U64>)
    requires hd.nonce == 0
    ensures nonce == FindNonce(r, hd, 0)
    ensures nonce.Some? ==> r.meets(r.hash(hd.(nonce := nonce.value)), hd.bits)
    ensures nonce.None? ==> forall n: U64 :: n < TWO64 - 1 ==> !r.meets(r.hash(hd.(nonce := n)), hd.bits)
  {
    var n: U64 := 0;
    while true
      invariant n < TWO64 - 1 && FindNonce(r, hd, n) == FindNonce(r, hd, 0)
      invariant forall k: U64 :: k < n ==> !r.meets(r.hash(hd.(nonce := k)), hd.bits)
      decreases TWO64 - n
    {
      if r.meets(r.hash(hd.(nonce := n)), hd.bits) { return Some(n); }
      n := n + 1;
      if n == TWO64 - 1 { return None; }
    }
  }

  /** NewBlock. */
  method MineBlock(r: Rules, h: Host, p: Params, current: AccountStates, now: U64) returns (made: Made)
    requires current.Valid() && current.View() == p.states
    ensures made == NewBlock(r, BookOf(h), p, now) && current.View() == old(current.View())
  {
    var states := current.Copy();
    var run, panicked := MineTransactions(h, states, p.txs);
    if panicked { return Broken; }
    if run.None? { return NotMade; }
    var (fees, gas) := run.value;
    var due := SafeAdd(BLOCK_REWARD, fees);
    if due.None? || p.coinbase.amount != due.value { return NotMade; }
    if gas > BLOCK_GAS_LIMIT { return NotMade; }
    var hd := HeaderFor(r, p, gas, now);
    var nonce := MineCorrectNonce(r, hd);
    if nonce.None? { return NotMade; }
    return Made(Block(hd.(nonce := nonce.value), [p.coinbase] + p.txs));
  }
}
