/** Blocks: validation, mining and the chain they extend (blockchain/validation.go, blockchain/mining.go). */
module Blocks {
  import opened Text
  import opened Ledger
  import opened Supply

  datatype Header = Header(version: U64, previousHash: nat, height: U64, timestamp: U64, nonce: U64, merkleRoot: nat,
                           bits: nat, totalWork: nat, gasLimit: U64, gasUsed: U64, beneficiary: Key)

  datatype Block = Block(header: Header, txs: seq<Tx>)

  /** A chain: blocks by height, with gaps where none was added; blocks by hash; the highest block; the accounts. */
  datatype Chain = Chain(slots: seq<Option<Block>>, index: map<nat, Block>, tip: Option<Block>, accounts: State)

  /** Hashing, Merkle roots, difficulty and work, as functions that cannot be seen into. `bitsFor` is the target required
      on top of the given blocks. */
  datatype Rules = Rules(hash: Header -> nat, merkle: seq<Tx> -> nat, meets: (nat, nat) -> bool, bitsFor: seq<Option<Block>> -> nat,
                         work: nat -> nat, genesis: Header, firstUser: Key)

  // ---------------------------------------------------------------- structure

  datatype Structure = Fine | MissingParent | Fork | BadBlock

  predicate IsGenesis(r: Rules, b: Block) { r.hash(b.header) == r.hash(r.genesis) }

  predicate GenesisOk(r: Rules, b: Block) {
    && b.header.previousHash == 0 && |b.txs| == 1
    && b.txs[0].from == 0 && b.txs[0].to == r.firstUser && b.txs[0].amount == 10 * AUG
  }

  /** validateBlockStructure: parent known and at the tip, proof of work, required target, Merkle root, time. Height and
      total work are not looked at. */
  function CheckStructure(r: Rules, b: Block, c: Chain): Structure {
    if IsGenesis(r, b) then (if GenesisOk(r, b) then Fine else BadBlock)
    else if b.header.previousHash !in c.index then MissingParent
    else if c.tip.Some? && r.hash(c.tip.value.header) != b.header.previousHash then Fork
    else if !r.meets(r.hash(b.header), b.header.bits) then BadBlock
    else if b.header.bits != r.bitsFor(c.slots) then BadBlock
    else if r.merkle(b.txs) != b.header.merkleRoot then BadBlock
    else if b.header.timestamp <= c.index[b.header.previousHash].header.timestamp then BadBlock
    else Fine
  }

  /** Slots enough for `height`. */
  function Stretched(slots: seq<Option<Block>>, height: nat): (r: seq<Option<Block>>)
    ensures |r| == if |slots| <= height then height + 1 else |slots|
  {
    if |slots| <= height then slots + seq(height + 1 - |slots|, _ => None) else slots
  }

  /** AddBlock: the block is stored by height and by hash; the tip moves only to a higher block. */
  function WithBlock(r: Rules, c: Chain, b: Block): Chain {
    var height := b.header.height;
    Chain(Stretched(c.slots, height)[height := Some(b)], c.index[r.hash(b.header) := b],
          if c.tip.None? || height > c.tip.value.header.height then Some(b) else c.tip, c.accounts)
  }

  // ---------------------------------------------------------------- transactions

  /** The three operations on transactions that blocks are made of, as functions: validation, application, and what an
      amount of gas costs. `BookOf` gives the ledger's. */
  datatype Book = Book(valid: (State, Tx) -> bool, apply: (State, Tx) -> Outcome, price: (Tx, U64) -> U64)

  function BookOf(h: Host): Book {
    Book((s, tx) => Validate(h, s, tx).Accept?, (s, tx) => Apply(h, s, tx), (tx: Tx, gas) => Mul64(gas, tx.gasPrice))
  }

  datatype BlockRun = Summed(state: State, gas: U64, fees: U64) | Rejected | Panics

  /** ValidateBlock's loop over the transactions, with its wrapping sums of gas and fees. */
  function RunTxs(bk: Book, s: State, txs: seq<Tx>, gas: U64, fees: U64): BlockRun
    decreases |txs|
  {
    if txs == [] then Summed(s, gas, fees)
    else
      var tx := txs[0];
      if !bk.valid(s, tx) then Rejected
      else match bk.apply(s, tx)
           case Failed(_, _) => Rejected
           case Panic => Panics
           case Crash => Panics
           case Applied(t, g) =>
             if tx.from == 0 then RunTxs(bk, t, txs[1..], gas, fees)
             else RunTxs(bk, t, txs[1..], Add64(gas, g), Add64(fees, bk.price(tx, g)))
  }

  datatype Judgement = Accepted(state: State) | Unfit(why: Structure) | Invalid | Panicked

  /** The checks on the sums. A block without transactions makes the code index out of range, unless it is the genesis
      block. */
  function Judge(r: Rules, b: Block, run: BlockRun): Judgement {
    match run
    case Rejected => Invalid
    case Panics => Panicked
    case Summed(s, gas, fees) =>
      if gas != b.header.gasUsed || gas > b.header.gasLimit then Invalid
      else if IsGenesis(r, b) then Accepted(s)
      else if b.txs == [] then Panicked
      else if b.txs[0].amount != Add64(fees, BLOCK_REWARD) then Invalid
      else Accepted(s)
  }

  function ValidateBlock(r: Rules, bk: Book, b: Block, c: Chain): Judgement {
    var structure := CheckStructure(r, b, c);
    if structure != Fine then Unfit(structure) else Judge(r, b, RunTxs(bk, c.accounts, b.txs, 0, 0))
  }

  /** ValidateAndApplyBlock. */
  function Extend(r: Rules, bk: Book, b: Block, c: Chain): Option<Chain> {
    match ValidateBlock(r, bk, b, c)
    case Accepted(s) => Some(WithBlock(r, c.(accounts := s), b))
    case _ => None
  }

  /** Blocks accepted one after another. */
  function Grow(r: Rules, bk: Book, c: Chain, bs: seq<Block>): Option<Chain>
    decreases |bs|
  {
    if bs == [] then Some(c)
    else match Extend(r, bk, bs[0], c)
         case None => None
         case Some(d) => Grow(r, bk, d, bs[1..])
  }

  /** The structure of a block on top of others is fine if and only if it has a parent, which is the tip if there is one, meets its
      target, which is the one required, and has the right Merkle root and a later time. */
  lemma StructureExactly(r: Rules, b: Block, c: Chain)
    requires !IsGenesis(r, b)
    ensures CheckStructure(r, b, c) == Fine <==>
            && b.header.previousHash in c.index
            && (c.tip.Some? ==> b.header.previousHash == r.hash(c.tip.value.header))
            && r.meets(r.hash(b.header), b.header.bits) && b.header.bits == r.bitsFor(c.slots)
            && b.header.merkleRoot == r.merkle(b.txs)
            && b.header.timestamp > c.index[b.header.previousHash].header.timestamp
  {
  }

  /** Gas used and gas fees of transactions that validate and apply one after another, as numbers. */
  ghost predicate Totals(bk: Book, s: State, txs: seq<Tx>, t: State, gas: nat, fees: nat)
    decreases |txs|
  {
    if txs == [] then t == s && gas == 0 && fees == 0
    else
      var r := bk.apply(s, txs[0]);
      && bk.valid(s, txs[0]) && r.Applied?
      && if txs[0].from == 0 then Totals(bk, r.state, txs[1..], t, gas, fees)
         else r.gas <= gas && bk.price(txs[0], r.gas) <= fees && Totals(bk, r.state, txs[1..], t, gas - r.gas, fees - bk.price(txs[0], r.gas))
  }

  lemma {:induction false} RunTotals(bk: Book, s: State, txs: seq<Tx>, gas: U64, fees: U64, t: State, g: nat, f: nat)
    requires Totals(bk, s, txs, t, g, f)
    ensures RunTxs(bk, s, txs, gas, fees) == Summed(t, (gas + g) % TWO64, (fees + f) % TWO64)
    decreases |txs|
  {
    if txs != [] {
      var r := bk.apply(s, txs[0]);
      if txs[0].from == 0 {
        RunTotals(bk, r.state, txs[1..], gas, fees, t, g, f);
      } else {
        var p := bk.price(txs[0], r.gas);
        RunTotals(bk, r.state, txs[1..], Add64(gas, r.gas), Add64(fees, p), t, g - r.gas, f - p);
        WrapSum(gas, r.gas, g);
        WrapSum(fees, p, f);
      }
    }
  }

  lemma WrapSum(a: U64, x: U64, sum: nat)
    requires x <= sum
    ensures (Add64(a, x) + (sum - x)) % TWO64 == (a + sum) % TWO64
  {
  }

  lemma {:induction false} SummedTotals(bk: Book, s: State, txs: seq<Tx>, gas: U64, fees: U64) returns (g: nat, f: nat)
    requires RunTxs(bk, s, txs, gas, fees).Summed?
    ensures Totals(bk, s, txs, RunTxs(bk, s, txs, gas, fees).state, g, f)
    decreases |txs|
  {
    g, f := 0, 0;
    if txs != [] {
      var r := bk.apply(s, txs[0]);
      if txs[0].from == 0 {
        g, f := SummedTotals(bk, r.state, txs[1..], gas, fees);
      } else {
        g, f := SummedTotals(bk, r.state, txs[1..], Add64(gas, r.gas), Add64(fees, bk.price(txs[0], r.gas)));
        g, f := g + r.gas, f + bk.price(txs[0], r.gas);
      }
    }
  }

  /** What an accepted block has: gas used as its header says, within its limit, and a first transaction of the reward and the
      fees. */
  ghost predicate Sound(b: Block, gas: nat, fees: nat) {
    && b.header.gasUsed == gas % TWO64 <= b.header.gasLimit && b.txs != []
    && b.txs[0].amount == (fees + BLOCK_REWARD) % TWO64
  }

  /** A validator accepts a block on top of others, with accounts `t`, if and only if its structure is as above, its transactions
      validate and apply one after another, ending in `t`, and the sums are as its header and its first transaction say. */
  lemma AcceptedExactly(r: Rules, bk: Book, b: Block, c: Chain, t: State)
    requires !IsGenesis(r, b)
    ensures ValidateBlock(r, bk, b, c) == Accepted(t) <==>
            CheckStructure(r, b, c) == Fine && exists gas: nat, fees: nat :: Totals(bk, c.accounts, b.txs, t, gas, fees) && Sound(b, gas, fees)
  {
    var run := RunTxs(bk, c.accounts, b.txs, 0, 0);
    if ValidateBlock(r, bk, b, c) == Accepted(t) {
      var g, f := SummedTotals(bk, c.accounts, b.txs, 0, 0);
      RunTotals(bk, c.accounts, b.txs, 0, 0, t, g, f);
      WrapTwice(f);
      assert Totals(bk, c.accounts, b.txs, t, g, f) && Sound(b, g, f);
    }
    if exists gas: nat, fees: nat :: Totals(bk, c.accounts, b.txs, t, gas, fees) && Sound(b, gas, fees) {
      var g: nat, f: nat :| Totals(bk, c.accounts, b.txs, t, g, f) && Sound(b, g, f);
      RunTotals(bk, c.accounts, b.txs, 0, 0, t, g, f);
      WrapTwice(f);
    }
  }

  /** The genesis block is accepted if and only if it has no parent and nothing but ten coins for the first user. */
  lemma GenesisExactly(r: Rules, bk: Book, b: Block, c: Chain, t: State)
    requires IsGenesis(r, b)
    ensures ValidateBlock(r, bk, b, c) == Accepted(t) <==>
            && b.header.previousHash == 0 && b.header.gasUsed == 0
            && |b.txs| == 1 && b.txs[0].from == 0 && b.txs[0].to == r.firstUser && b.txs[0].amount == 10_000_000
            && bk.valid(c.accounts, b.txs[0]) && bk.apply(c.accounts, b.txs[0]).Applied? && bk.apply(c.accounts, b.txs[0]).state == t
  {
    if |b.txs| == 1 && b.txs[0].from == 0 {
      var x := bk.apply(c.accounts, b.txs[0]);
      assert b.txs[1..] == [];
      if bk.valid(c.accounts, b.txs[0]) && x.Applied? {
        assert RunTxs(bk, x.state, b.txs[1..], 0, 0) == Summed(x.state, 0, 0);
        assert RunTxs(bk, c.accounts, b.txs, 0, 0) == Summed(x.state, 0, 0);
      }
    }
  }

  lemma WrapTwice(f: nat)
    ensures Add64(f % TWO64, BLOCK_REWARD) == (f + BLOCK_REWARD) % TWO64
  {
  }

  /** Validation does not look at the height a block claims. An accepted block that claims no more than the tip's is executed
      and stored, and the tip stays; for the parent's next child the parent is then still the tip. */
  lemma TipMovesExactly(r: Rules, bk: Book, b: Block, c: Chain)
    requires Extend(r, bk, b, c).Some?
    ensures var d := Extend(r, bk, b, c).value;
      && ValidateBlock(r, bk, b, c) == Accepted(d.accounts) && r.hash(b.header) in d.index && d.slots[b.header.height] == Some(b)
      && (d.tip == Some(b) <==> c.tip.None? || c.tip == Some(b) || b.header.height > c.tip.value.header.height)
      && (d.tip != Some(b) ==> d.tip == c.tip)
      && (d.tip != Some(b) && !IsGenesis(r, b) ==>
            forall next: Block {:trigger CheckStructure(r, next, d)} :: next.header.previousHash == b.header.previousHash ==>
              CheckStructure(r, next, d) != MissingParent && CheckStructure(r, next, d) != Fork)
  {
  }

  // ---------------------------------------------------------------- conservation over blocks

  type Test = (State, Tx) -> bool

  function PlainTest(h: Host): Test { (s, tx) => Plain(h, s, tx) }

  /** Every transaction, when its turn comes, is plain. */
  ghost predicate PlainRun(bk: Book, plain: Test, s: State, txs: seq<Tx>)
    decreases |txs|
  {
    txs == [] || (plain(s, txs[0]) && (bk.apply(s, txs[0]).Applied? ==> PlainRun(bk, plain, bk.apply(s, txs[0]).state, txs[1..])))
  }

  function Deployments(txs: seq<Tx>): nat {
    if txs == [] then 0 else (if txs[0].from != 0 && IsDeployment(txs[0]) then 1 else 0) + Deployments(txs[1..])
  }

  /** What a plain transaction takes away is its gas and its deployment fee; what a coinbase adds is its amount. */
  ghost predicate Conserving(bk: Book, plain: Test) {
    && (forall s, tx {:trigger bk.apply(s, tx)} :: bk.valid(s, tx) && plain(s, tx) && bk.apply(s, tx).Applied? ==>
          && tx.from != 0
          && Total(bk.apply(s, tx).state) + bk.price(tx, bk.apply(s, tx).gas) + Fee(tx) == Total(s))
    && (forall s, tx: Tx {:trigger bk.apply(s, tx)} :: tx.from == 0 && bk.apply(s, tx).Applied? ==>
          Total(bk.apply(s, tx).state) == Total(s) + tx.amount)
  }

  lemma LedgerConserves(h: Host)
    ensures Conserving(BookOf(h), PlainTest(h))
  {
    forall s, tx | Validate(h, s, tx).Accept? && Plain(h, s, tx) && Apply(h, s, tx).Applied?
      ensures Total(Apply(h, s, tx).state) + Mul64(Apply(h, s, tx).gas, tx.gasPrice) + Fee(tx) == Total(s)
    {
      PlainConserves(h, s, tx, Apply(h, s, tx));
    }
    forall s, tx: Tx | tx.from == 0 && Apply(h, s, tx).Applied? ensures Total(Apply(h, s, tx).state) == Total(s) + tx.amount {
      CreditTotal(s, tx.to, tx.amount);
    }
  }

  /** Plain transactions move money; what disappears is counted as fees, to the unit, and the deployment fees. */
  lemma {:induction false} RunConserves(bk: Book, plain: Test, s: State, txs: seq<Tx>, gas: U64, fees: U64)
    requires Conserving(bk, plain) && RunTxs(bk, s, txs, gas, fees).Summed? && PlainRun(bk, plain, s, txs) && Total(s) + fees < TWO64
    ensures var r := RunTxs(bk, s, txs, gas, fees);
      r.fees >= fees && Total(r.state) + (r.fees - fees) + DEPLOYMENT_FEE * Deployments(txs) == Total(s)
    decreases |txs|
  {
    if txs != [] {
      var tx, r := txs[0], bk.apply(s, txs[0]);
      var paid := bk.price(tx, r.gas);
      assert Add64(fees, paid) == fees + paid;
      RunConserves(bk, plain, r.state, txs[1..], Add64(gas, r.gas), fees + paid);
    }
  }

  /** A block with one coinbase, in front, and plain transactions; and room for its amount. */
  ghost predicate PlainBlock(bk: Book, plain: Test, s: State, b: Block) {
    && b.txs != [] && b.txs[0].from == 0 && Total(s) + b.txs[0].amount + BLOCK_REWARD < TWO64
    && (bk.apply(s, b.txs[0]).Applied? ==> PlainRun(bk, plain, bk.apply(s, b.txs[0]).state, b.txs[1..]))
  }

  lemma BlockConserves(r: Rules, bk: Book, plain: Test, b: Block, c: Chain)
    requires Conserving(bk, plain) && ValidateBlock(r, bk, b, c).Accepted? && !IsGenesis(r, b) && PlainBlock(bk, plain, c.accounts, b)
    ensures var s := ValidateBlock(r, bk, b, c).state;
      Total(s) + DEPLOYMENT_FEE * Deployments(b.txs) == Total(c.accounts) + BLOCK_REWARD
  {
    var t := bk.apply(c.accounts, b.txs[0]).state;
    RunConserves(bk, plain, t, b.txs[1..], 0, 0);
    var run := RunTxs(bk, t, b.txs[1..], 0, 0);
    assert Add64(run.fees, BLOCK_REWARD) == run.fees + BLOCK_REWARD;
  }

  ghost predicate PlainBlocks(r: Rules, bk: Book, plain: Test, c: Chain, bs: seq<Block>)
    decreases |bs|
  {
    bs == [] || (!IsGenesis(r, bs[0]) && PlainBlock(bk, plain, c.accounts, bs[0])
                 && (Extend(r, bk, bs[0], c).Some? ==> PlainBlocks(r, bk, plain, Extend(r, bk, bs[0], c).value, bs[1..])))
  }

  function AllDeployments(bs: seq<Block>): nat { if bs == [] then 0 else Deployments(bs[0].txs) + AllDeployments(bs[1..]) }

  /** The first of several blocks. */
  lemma FirstBlock(r: Rules, bk: Book, plain: Test, c: Chain, bs: seq<Block>) returns (d: Chain)
    requires Conserving(bk, plain) && bs != [] && Grow(r, bk, c, bs).Some? && PlainBlocks(r, bk, plain, c, bs)
    ensures Grow(r, bk, c, bs) == Grow(r, bk, d, bs[1..]) && PlainBlocks(r, bk, plain, d, bs[1..])
    ensures Total(d.accounts) + DEPLOYMENT_FEE * Deployments(bs[0].txs) == Total(c.accounts) + BLOCK_REWARD
    ensures AllDeployments(bs) == Deployments(bs[0].txs) + AllDeployments(bs[1..])
  {
    BlockConserves(r, bk, plain, bs[0], c);
    d := Extend(r, bk, bs[0], c).value;
  }

  lemma {:induction false} BlocksConserve(r: Rules, bk: Book, plain: Test, c: Chain, bs: seq<Block>)
    requires Conserving(bk, plain) && Grow(r, bk, c, bs).Some? && PlainBlocks(r, bk, plain, c, bs)
    ensures Total(Grow(r, bk, c, bs).value.accounts) + DEPLOYMENT_FEE * AllDeployments(bs) == Total(c.accounts) + BLOCK_REWARD * |bs|
    decreases |bs|
  {
    if bs != [] {
      var d := FirstBlock(r, bk, plain, c, bs);
      BlocksConserve(r, bk, plain, d, bs[1..]);
      AddUp(Total(c.accounts), Total(d.accounts), Total(Grow(r, bk, c, bs).value.accounts), Deployments(bs[0].txs), AllDeployments(bs[1..]), |bs| - 1);
    }
  }

  lemma AddUp(first: nat, mid: nat, last: nat, one: nat, more: nat, n: nat)
    requires mid + DEPLOYMENT_FEE * one == first + BLOCK_REWARD && last + DEPLOYMENT_FEE * more == mid + BLOCK_REWARD * n
    ensures last + DEPLOYMENT_FEE * (one + more) == first + BLOCK_REWARD * (n + 1)
  {
  }

  /** Supply conservation over any run of accepted blocks: each block creates exactly the block reward and destroys
      exactly its deployment fees; all gas fees move from the senders to the coinbase. */
  lemma SupplyConserved(r: Rules, h: Host, c: Chain, bs: seq<Block>)
    requires Grow(r, BookOf(h), c, bs).Some? && PlainBlocks(r, BookOf(h), PlainTest(h), c, bs)
    ensures Total(Grow(r, BookOf(h), c, bs).value.accounts) + DEPLOYMENT_FEE * AllDeployments(bs) == Total(c.accounts) + BLOCK_REWARD * |bs|
  {
    LedgerConserves(h);
    BlocksConserve(r, BookOf(h), PlainTest(h), c, bs);
  }
}
