/** The mempool (node/mempool.go): a priority queue and a hash index that have to agree. */
module Mempool {
  import opened Ledger
  import opened GasPriceQueue

  const MAX_SIZE: nat := 1000
  const MAX_EXPIRY: int := 7 * 24 * 3600 * 1_000_000_000

  type Index = map<nat, Entry>

  /** Entry `e` is the one the index has under its hash. */
  predicate Listed(hash: Tx -> nat, index: Index, e: Entry) { hash(e.tx) in index && index[hash(e.tx)] == e }

  /** The array holds exactly the entries of the index, each once. */
  ghost predicate Agree(hash: Tx -> nat, ms: multiset<Entry>, index: Index) {
    && (forall k :: k in index ==> hash(index[k].tx) == k)
    && (forall e {:trigger ms[e]} :: ms[e] == if Listed(hash, index, e) then 1 else 0)
  }

  lemma AddedAgrees(hash: Tx -> nat, ms: multiset<Entry>, index: Index, e: Entry)
    requires Agree(hash, ms, index) && hash(e.tx) !in index
    ensures Agree(hash, ms + multiset{e}, index[hash(e.tx) := e])
  {
  }

  lemma RemovedAgrees(hash: Tx -> nat, ms: multiset<Entry>, ms': multiset<Entry>, index: Index, e: Entry)
    requires Agree(hash, ms, index) && ms == ms' + multiset{e}
    ensures hash(e.tx) in index && index[hash(e.tx)] == e && Agree(hash, ms', index - {hash(e.tx)})
  {
    assert ms[e] > 0;
    var rest := index - {hash(e.tx)};
    forall x ensures ms'[x] == if Listed(hash, rest, x) then 1 else 0 {
      assert ms[x] == ms'[x] + (if x == e then 1 else 0);
    }
  }

  /** Entry `e` has the lowest price, and is the newest of those. */
  ghost predicate Lowest(index: Index, e: Entry) {
    forall k :: k in index ==> index[k].gasPrice > e.gasPrice || (index[k].gasPrice == e.gasPrice && index[k].added <= e.added)
  }

  /** A pool takes a new transaction if there is room, or if it outbids the last entry of the array. */
  predicate Admits(hash: Tx -> nat, s: seq<Entry>, index: Index, tx: Tx) {
    hash(tx) !in index && (|index| >= MAX_SIZE ==> s != [] && tx.gasPrice > s[|s| - 1].gasPrice)
  }

  class Pool {
    const hash: Tx -> nat
    const queue: Queue
    var index: Index

    constructor (hash: Tx -> nat)
      ensures Valid() && index == map[] && this.hash == hash && fresh(queue)
    {
      this.hash, index := hash, map[];
      queue := new Queue([]);
    }

    /** Heap order, agreement and the size limit. */
    ghost predicate Valid()
      reads this, queue
    {
      IsHeap(queue.s) && Agree(hash, multiset(queue.s), index) && |index| <= MAX_SIZE
    }

    /** removeLowestGasPrice: a linear search, then removal from both structures. */
    method RemoveLowest() returns (ghost e: Entry)
      requires IsHeap(queue.s) && Agree(hash, multiset(queue.s), index) && queue.s != []
      modifies this, queue
      ensures IsHeap(queue.s) && Agree(hash, multiset(queue.s), index)
      ensures Listed(hash, old(index), e) && Lowest(old(index), e) && index == old(index) - {hash(e.tx)}
    {
      var lowest, i := 0, 0;
      while i < |queue.s|
        invariant 0 <= i <= |queue.s| && 0 <= lowest < |queue.s|
        invariant forall j :: 0 <= j < i ==> queue.s[j].gasPrice > queue.s[lowest].gasPrice || (queue.s[j].gasPrice == queue.s[lowest].gasPrice && queue.s[j].added <= queue.s[lowest].added)
      {
        var x, y := queue.s[i], queue.s[lowest];
        if x.gasPrice < y.gasPrice || (x.gasPrice == y.gasPrice && x.added > y.added) { lowest := i; }
        i := i + 1;
      }
      var entry := queue.s[lowest];
      e := entry;
      forall k | k in index ensures index[k].gasPrice > e.gasPrice || (index[k].gasPrice == e.gasPrice && index[k].added <= e.added) {
        assert multiset(queue.s)[index[k]] == 1;
        assert index[k] in multiset(queue.s);
        var j :| 0 <= j < |queue.s| && queue.s[j] == index[k];
      }
      queue.Remove(lowest);
      RemovedAgrees(hash, multiset(old(queue.s)), multiset(queue.s), index, entry);
      index := index - {hash(entry.tx)};
    }

    /** AddTransaction. A full pool compares the newcomer with the last entry of the array and then evicts a cheapest one, which
        the newcomer outbids. */
    method AddTransaction(tx: Tx, now: int) returns (added: bool)
      requires Valid()
      modifies this, queue
      ensures Valid()
      ensures !added ==> index == old(index) && queue.s == old(queue.s)
      ensures added <==> Admits(hash, old(queue.s), old(index), tx)
      ensures added && |old(index)| < MAX_SIZE ==> index == old(index)[hash(tx) := Entry(tx, now, tx.gasPrice)]
      ensures added && |old(index)| >= MAX_SIZE ==>
        exists e :: Listed(hash, old(index), e) && Lowest(old(index), e) && tx.gasPrice > e.gasPrice
          && index == (old(index) - {hash(e.tx)})[hash(tx) := Entry(tx, now, tx.gasPrice)]
    {
      var h := hash(tx);
      NonEmpty(hash, queue.s, index);
      if h in index { return false; }
      if |index| >= MAX_SIZE && |queue.s| > 0 {
        var last := queue.s[|queue.s| - 1];
        if tx.gasPrice <= last.gasPrice { return false; }
        assert multiset(queue.s)[last] > 0;
        var _ := RemoveLowest();
      }
      var entry := Entry(tx, now, tx.gasPrice);
      AddedAgrees(hash, multiset(queue.s), index, entry);
      queue.Push(entry);
      index := index[h := entry];
      return true;
    }

    /** rebuildHeap: the entries in whatever order the map gives them, made a heap. */
    method Rebuild()
      requires forall k :: k in index ==> hash(index[k].tx) == k
      modifies queue
      ensures IsHeap(queue.s) && Agree(hash, multiset(queue.s), index)
    {
      queue.s := [];
      var keys, done := index.Keys, map[];
      while keys != {}
        invariant keys <= index.Keys && done == map k | k in index && k !in keys :: index[k]
        invariant Agree(hash, multiset(queue.s), done)
        decreases keys
      {
        var k :| k in keys;
        AddedAgrees(hash, multiset(queue.s), done, index[k]);
        queue.s := queue.s + [index[k]];
        keys, done := keys - {k}, done[k := index[k]];
      }
      assert done == index;
      queue.Init();
    }

    /** cleanExpiredTransactions and RevalidateTransactions: their loop deletes the entries that do not pass. */
    method Retain(keep: Entry -> bool) returns (removed: nat)
      requires Valid()
      modifies this, queue
      ensures Valid() && index == map k | k in old(index) && keep(old(index)[k]) :: old(index)[k]
      ensures removed == |old(index)| - |index|
    {
      removed := Sift(keep);
      if removed > 0 { Rebuild(); } else { SameSize(old(index), index); }
    }

    method Sift(keep: Entry -> bool) returns (removed: nat)
      modifies this`index
      ensures index == map k | k in old(index) && keep(old(index)[k]) :: old(index)[k]
      ensures removed == |old(index)| - |index|
    {
      removed := 0;
      var keys := index.Keys;
      while keys != {}
        invariant keys <= old(index).Keys
        invariant index == map k | k in old(index) && (k in keys || keep(old(index)[k])) :: old(index)[k]
        invariant removed == |old(index)| - |index|
        decreases keys
      {
        var k :| k in keys;
        keys := keys - {k};
        if !keep(index[k]) {
          Smaller(index, k);
          index := index - {k};
          removed := removed + 1;
        }
      }
    }

    /** cleanExpiredTransactions. */
    method CleanExpired(now: int) returns (removed: nat)
      requires Valid()
      modifies this, queue
      ensures Valid() && index == map k | k in old(index) && now - old(index)[k].added <= MAX_EXPIRY :: old(index)[k]
      ensures removed == |old(index)| - |index|
    {
      removed := Retain((e: Entry) => now - e.added <= MAX_EXPIRY);
    }

    /** RevalidateTransactions against an account state. */
    method Revalidate(h: Host, s: State) returns (removed: nat)
      requires Valid()
      modifies this, queue
      ensures Valid() && index == map k | k in old(index) && Validate(h, s, old(index)[k].tx).Accept? :: old(index)[k]
      ensures removed == |old(index)| - |index|
    {
      removed := Retain((e: Entry) => Validate(h, s, e.tx).Accept?);
    }

    /** RemoveTransactions. */
    method RemoveTransactions(txs: seq<Tx>) returns (removed: nat)
      requires Valid()
      modifies this, queue
      ensures Valid() && index == map k | k in old(index) && (forall i :: 0 <= i < |txs| ==> hash(txs[i]) != k) :: old(index)[k]
      ensures removed == |old(index)| - |index|
    {
      removed := Drop(txs);
      Rebuild();
    }

    /** The first part of RemoveTransactions: the index without the given transactions. */
    method Drop(txs: seq<Tx>) returns (removed: nat)
      modifies this`index
      ensures index == Left(hash, old(index), txs) && removed == |old(index)| - |index|
    {
      removed := 0;
      for i := 0 to |txs|
        invariant index == Left(hash, old(index), txs[..i])
        invariant removed == |old(index)| - |index|
      {
        var h := hash(txs[i]);
        LeftNext(hash, old(index), txs, i);
        if h in index {
          Smaller(index, h);
          index := index - {h};
          removed := removed + 1;
        }
      }
      assert txs[..|txs|] == txs;
    }

    /** GetTransactions: after expired ones are dropped, the first `limit` entries in order; the stored heap keeps all. */
    method GetTransactions(limit: int, now: int) returns (txs: seq<Tx>, ghost top: seq<Entry>, ghost rest: multiset<Entry>)
      requires Valid()
      modifies this, queue
      ensures Valid() && index == map k | k in old(index) && now - old(index)[k].added <= MAX_EXPIRY :: old(index)[k]
      ensures IsTop(multiset(queue.s), top, rest) && TxsOf(txs, top)
      ensures |txs| == if limit < 0 then 0 else if limit < |queue.s| then limit else |queue.s|
    {
      var _ := CleanExpired(now);
      txs, top, rest := TakeFirst(queue.s, limit);
    }
  }

  ghost predicate TxsOf(txs: seq<Tx>, top: seq<Entry>) { |txs| == |top| && forall i :: 0 <= i < |txs| ==> txs[i] == top[i].tx }

  /** What is left of an index without the given transactions. */
  ghost function Left(hash: Tx -> nat, index: Index, txs: seq<Tx>): Index {
    map k | k in index && (forall i :: 0 <= i < |txs| ==> hash(txs[i]) != k) :: index[k]
  }

  lemma LeftNext(hash: Tx -> nat, index: Index, txs: seq<Tx>, i: nat)
    requires i < |txs|
    ensures Left(hash, index, txs[..i + 1]) == Left(hash, index, txs[..i]) - {hash(txs[i])}
    ensures Left(hash, index, []) == index
  {
    var a, b := Left(hash, index, txs[..i + 1]), Left(hash, index, txs[..i]) - {hash(txs[i])};
    forall k ensures k in a <==> k in b {
      assert forall j :: 0 <= j < i ==> txs[..i + 1][j] == txs[..i][j];
      assert txs[..i + 1][i] == txs[i];
    }
    assert a == b;
  }

  /** The higher price comes before the lower, and of equal prices the older entry before the newer. */
  predicate Before(a: Entry, b: Entry) { a.gasPrice > b.gasPrice || (a.gasPrice == b.gasPrice && a.added <= b.added) }

  /** `top` are the first entries, in order, and `rest` the others. */
  ghost predicate IsTop(all: multiset<Entry>, top: seq<Entry>, rest: multiset<Entry>) {
    && all == multiset(top) + rest
    && (forall i, j :: 0 <= i < j < |top| ==> Before(top[i], top[j]))
    && (forall i, e :: 0 <= i < |top| && e in rest ==> Before(top[i], e))
  }

  lemma OneMore(all: multiset<Entry>, top: seq<Entry>, rest: multiset<Entry>, e: Entry, rest': multiset<Entry>)
    requires IsTop(all, top, rest) && rest == rest' + multiset{e} && forall x :: x in rest ==> Before(e, x)
    ensures IsTop(all, top + [e], rest')
  {
    assert e in rest && forall x :: x in rest' ==> x in rest;
  }

  /** The loop that pops a copy of the heap. */
  method TakeFirst(s: seq<Entry>, limit: int) returns (txs: seq<Tx>, ghost top: seq<Entry>, ghost rest: multiset<Entry>)
    requires IsHeap(s)
    ensures IsTop(multiset(s), top, rest) && TxsOf(txs, top)
    ensures |txs| == if limit < 0 then 0 else if limit < |s| then limit else |s|
  {
    var copy := new Queue(s);
    txs, top := [], [];
    while |txs| < limit && |copy.s| > 0
      invariant fresh(copy) && IsHeap(copy.s) && |txs| + |copy.s| == |s| && (|txs| <= limit || txs == [])
      invariant IsTop(multiset(s), top, multiset(copy.s)) && TxsOf(txs, top)
      decreases |copy.s|
    {
      ghost var before := copy.s;
      var e := copy.Pop();
      assert |before| == |multiset(before)| && |copy.s| == |multiset(copy.s)|;
      OneMore(multiset(s), top, multiset(before), e, multiset(copy.s));
      txs, top := txs + [e.tx], top + [e];
    }
    rest := multiset(copy.s);
  }

  lemma NonEmpty(hash: Tx -> nat, s: seq<Entry>, index: Index)
    requires Agree(hash, multiset(s), index)
    ensures |index| > 0 ==> s != []
  {
    if |index| > 0 {
      var k :| k in index;
      assert multiset(s)[index[k]] == 1;
    }
  }

  lemma Smaller(index: Index, k: nat)
    requires k in index
    ensures |index - {k}| == |index| - 1
  {
    assert index - {k} == map j | j in index && j != k :: index[j];
    assert (index - {k}).Keys == index.Keys - {k};
  }

  lemma SameSize(index: Index, part: Index)
    requires |part| == |index| && forall k :: k in part ==> k in index && part[k] == index[k]
    ensures part == index
  {
    assert part.Keys <= index.Keys;
    if exists k :: k in index && k !in part {
      var k :| k in index && k !in part;
      assert part.Keys <= index.Keys - {k};
      Fewer(part.Keys, index.Keys - {k});
    }
  }

  lemma {:induction false} Fewer(a: set<nat>, b: set<nat>)
    requires a <= b
    ensures |a| <= |b|
  {
    if a != {} {
      var k :| k in a;
      Fewer(a - {k}, b - {k});
    }
  }

  // ---------------------------------------------------------------- the last entry is not a cheapest one

  ghost predicate Outbids(index: Index, tx: Tx) { exists k :: k in index && tx.gasPrice > index[k].gasPrice }

  /** There is a transaction the pool does not have at every price. */
  ghost predicate Unbounded(hash: Tx -> nat, index: Index) { forall p: U64 {:trigger NewAt(hash, index, p)} :: NewAt(hash, index, p) }

  ghost predicate NewAt(hash: Tx -> nat, index: Index, p: U64) { exists tx: Tx :: hash(tx) !in index && tx.gasPrice == p }

  /** A full pool takes exactly the bids that outbid some entry if and only if the last entry of its array is a cheapest one. */
  lemma FairExactly(hash: Tx -> nat, s: seq<Entry>, index: Index)
    requires Agree(hash, multiset(s), index) && |index| == MAX_SIZE && s != [] && Unbounded(hash, index)
    ensures (forall tx :: hash(tx) !in index ==> (Admits(hash, s, index, tx) <==> Outbids(index, tx)))
            <==> forall k :: k in index ==> index[k].gasPrice >= s[|s| - 1].gasPrice
  {
    var last := s[|s| - 1];
    assert multiset(s)[last] > 0;
    assert Listed(hash, index, last);
    if exists k :: k in index && index[k].gasPrice < last.gasPrice {
      var k :| k in index && index[k].gasPrice < last.gasPrice;
      assert NewAt(hash, index, last.gasPrice);
      var tx: Tx :| hash(tx) !in index && tx.gasPrice == last.gasPrice;
      assert Outbids(index, tx) && !Admits(hash, s, index, tx);
    } else {
      forall tx | hash(tx) !in index ensures Admits(hash, s, index, tx) <==> Outbids(index, tx) {
        if tx.gasPrice > last.gasPrice { assert index[hash(last.tx)] == last; }
      }
    }
  }

  /** A full pool of distinct transactions, all at price 10 except the one in the middle, which is at 1. */
  function Crowd(tx: Tx): seq<Entry> { seq(MAX_SIZE, (i: int) requires 0 <= i < MAX_SIZE => Member(tx, i)) }

  function Member(tx: Tx, i: nat): Entry
    requires i < MAX_SIZE
  {
    var price := if i == 500 then 1 else 10; Entry(tx.(nonce := i, gasPrice := price), 0, price)
  }

  function CrowdIndex(tx: Tx, n: nat): Index
    requires n <= MAX_SIZE
  {
    map k: nat | k < n :: Member(tx, k)
  }

  /** In the crowd the nonce tells the transactions apart. */
  function ByNonce(tx: Tx): nat { tx.nonce }

  lemma {:induction false} CrowdAgrees(tx: Tx, n: nat)
    requires n <= MAX_SIZE
    ensures Agree(ByNonce, multiset(Crowd(tx)[..n]), CrowdIndex(tx, n)) && |CrowdIndex(tx, n)| == n
  {
    if n > 0 {
      CrowdAgrees(tx, n - 1);
      var before, e := CrowdIndex(tx, n - 1), Member(tx, n - 1);
      assert Crowd(tx)[..n] == Crowd(tx)[..n - 1] + [e];
      AddedAgrees(ByNonce, multiset(Crowd(tx)[..n - 1]), before, e);
      assert CrowdIndex(tx, n) == before[n - 1 := e];
      assert CrowdIndex(tx, n).Keys == before.Keys + {n - 1};
    }
  }

  lemma CrowdIsHeap(tx: Tx)
    ensures IsHeap(Crowd(tx))
  {
    var s := Crowd(tx);
    forall c: nat | 0 < c < |s| ensures Edge(s, c) { assert Parent(c) != 500; }
  }

  /** Such a pool, which is a valid one, refuses a bid of 5 although it outbids an entry: it looks at the one at 999. */
  lemma BetterBidRefused(tx: Tx, bid: Tx)
    requires bid.gasPrice == 5 && bid.nonce >= MAX_SIZE
    ensures var hash, s, index := ByNonce, Crowd(tx), CrowdIndex(tx, MAX_SIZE);
      && IsHeap(s) && Agree(hash, multiset(s), index) && |index| == MAX_SIZE
      && hash(bid) !in index && Outbids(index, bid) && !Admits(hash, s, index, bid)
  {
    var index := CrowdIndex(tx, MAX_SIZE);
    CrowdIsHeap(tx);
    CrowdAgrees(tx, MAX_SIZE);
    assert Crowd(tx)[..MAX_SIZE] == Crowd(tx);
    assert 500 in index && index[500].gasPrice == 1;
  }
}
