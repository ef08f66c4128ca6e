/** Fork choice (node/node.go, node/header_processing.go, node/orphans.go, blockchain/chain.go): headers processed one at a
    time, under one lock, over chains that share nothing. What peers answer and what block validation says are inputs. */
module ForkChoice {
  import opened Text
  import opened Ledger
  import opened Blocks

  /** A chain under construction: headers and blocks by hash, and the highest block. */
  class ForkChain {
    var headers: map<nat, Header>
    var blocks: map<nat, Block>
    var tip: Option<Block>

    /** NewChain: it knows the genesis block and has no tip. */
    constructor (r: Rules, genesis: Block)
      ensures headers == map[r.hash(genesis.header) := genesis.header] && blocks == map[r.hash(genesis.header) := genesis] && tip.None?
    {
      headers, blocks, tip := map[r.hash(genesis.header) := genesis.header], map[r.hash(genesis.header) := genesis], None;
    }

    method AddHeader(r: Rules, h: Header)
      modifies this`headers
      ensures headers == old(headers)[r.hash(h) := h]
    {
      headers := headers[r.hash(h) := h];
    }

    /** AddBlock: the tip moves only to a higher block. */
    method AddBlock(r: Rules, b: Block)
      modifies this
      ensures headers == old(headers)[r.hash(b.header) := b.header] && blocks == old(blocks)[r.hash(b.header) := b]
      ensures tip == if old(tip).None? || b.header.height > old(tip).value.header.height then Some(b) else old(tip)
    {
      blocks := blocks[r.hash(b.header) := b];
      AddHeader(r, b.header);
      if tip.None? || b.header.height > tip.value.header.height { tip := Some(b); }
    }

    /** Blocks in order of height: the last one becomes the tip if it is higher than the tip so far. */
    method AddBlocks(r: Rules, bs: seq<Block>)
      requires Rising(bs)
      modifies this
      ensures tip == if bs != [] && (old(tip).None? || bs[|bs| - 1].header.height > old(tip).value.header.height) then Some(bs[|bs| - 1]) else old(tip)
      ensures bs != [] ==> var h := bs[|bs| - 1].header; r.hash(h) in headers && headers[r.hash(h)] == h && r.hash(h) in blocks
      ensures forall i :: 0 <= i < |bs| ==> r.hash(bs[i].header) in headers && r.hash(bs[i].header) in blocks
      ensures forall k :: k in old(blocks) ==> k in blocks
      ensures (forall k :: k in old(headers) ==> k in headers) && (bs == [] ==> headers == old(headers))
      ensures forall k :: k in headers ==> k in old(headers) || exists i :: 0 <= i < |bs| && r.hash(bs[i].header) == k
      ensures forall k :: k in blocks ==> k in old(blocks) || exists i :: 0 <= i < |bs| && r.hash(bs[i].header) == k
    {
      var i := 0;
      while i < |bs|
        invariant 0 <= i <= |bs| && (i == 0 ==> headers == old(headers))
        invariant forall k :: k in headers ==> k in old(headers) || exists j :: 0 <= j < i && r.hash(bs[j].header) == k
        invariant forall k :: k in blocks ==> k in old(blocks) || exists j :: 0 <= j < i && r.hash(bs[j].header) == k
        invariant i > 0 ==> r.hash(bs[i - 1].header) in headers && headers[r.hash(bs[i - 1].header)] == bs[i - 1].header && r.hash(bs[i - 1].header) in blocks
        invariant forall k :: k in old(blocks) ==> k in blocks
        invariant forall j :: 0 <= j < i ==> r.hash(bs[j].header) in headers && r.hash(bs[j].header) in blocks
        invariant i > 0 && (old(tip).None? || bs[i - 1].header.height > old(tip).value.header.height) ==> tip == Some(bs[i - 1])
        invariant i == 0 || !(old(tip).None? || bs[i - 1].header.height > old(tip).value.header.height) ==> tip == old(tip)
        invariant forall k :: k in old(headers) ==> k in headers
      {
        AddBlock(r, bs[i]);
        i := i + 1;
      }
    }
  }

  /** Heights go up strictly. */
  predicate Rising(bs: seq<Block>) { forall i, j :: 0 <= i < j < |bs| ==> bs[i].header.height < bs[j].header.height }

  datatype Verdict = Pass | SwitchChain | Fail

  /** What the outside world contributes to the processing of one header: the block itself, if it can be had; what validation
      says of it; the blocks up to a fork point and whether they all apply; the blocks of a heavier candidate, in order of
      height, and whether they all apply. */
  datatype World = World(block: Option<Block>, judge: Block -> Verdict, path: seq<Block>, pathOk: bool, fetched: seq<Block>, fetchedOk: bool)

  /** Blocks are available: each answer is what was asked for. */
  ghost predicate Available(r: Rules, h: Header, w: World) {
    && w.block.Some? && w.block.value.header == h
    && Rising(w.path) && (forall i :: 0 <= i < |w.path| ==> r.hash(w.path[i].header) != r.hash(h))
    && (w.path == [] <==> h.previousHash == r.hash(r.genesis)) && (w.path == [] ==> w.pathOk)
    && (w.path != [] ==> r.hash(w.path[|w.path| - 1].header) == h.previousHash)
    && w.fetched != [] && Rising(w.fetched) && w.fetched[|w.fetched| - 1].header == h
  }

  class Node {
    const r: Rules
    const genesis: Block
    var chains: map<nat, ForkChain>
    var current: nat
    var headersMap: map<nat, Header>
    var blocksMap: map<nat, Block>
    var orphans: map<nat, seq<Header>>

    constructor (r: Rules, genesis: Block)
      requires genesis.header == r.genesis && r.genesis.height == 0
      ensures Valid() && this.r == r && this.genesis == genesis && fresh(chains.Values)
    {
      var c := new ForkChain(r, genesis);
      c.AddBlock(r, genesis);
      var k := r.hash(genesis.header);
      this.r, this.genesis, chains, current := r, genesis, map[k := c], k;
      headersMap, blocksMap, orphans := map[k := genesis.header], map[k := genesis], map[];
    }

    /** A chain filed under `k` knows the header of that hash, and its tip is no higher. */
    ghost predicate FiledAs(c: ForkChain, k: nat)
      reads c
    {
      && k in c.headers && r.hash(c.headers[k]) == k && r.hash(r.genesis) in c.headers
      && (c.tip.Some? ==> c.tip.value.header.height <= c.headers[k].height)
    }

    ghost predicate Filed(k: nat)
      requires k in chains
      reads this, chains.Values
    {
      FiledAs(chains[k], k)
    }

    /** The chains of `cs` but the one under `from` are as they should be, and none is `c`. */
    ghost predicate Others(cs: map<nat, ForkChain>, from: nat, c: ForkChain)
      reads cs.Values
    {
      && (forall j, k :: j in cs && k in cs && j != k && j != from && k != from ==> cs[j] != cs[k])
      && (forall k :: k in cs && k != from ==> cs[k] != c && FiledAs(cs[k], k))
    }

    /** The current tip is a key of the chains, no two keys share a chain, and the current chain's highest block is the one
        it is filed under. */
    ghost predicate Valid()
      reads this, chains.Values
    {
      && genesis.header == r.genesis && r.genesis.height == 0
      && current in chains
      && (forall j, k :: j in chains && k in chains && j != k ==> chains[j] != chains[k])
      && (forall k :: k in chains ==> Filed(k))
      && chains[current].tip.Some? && chains[current].tip.value.header == chains[current].headers[current] && current in chains[current].blocks
    }

    /** The work of the current tip. */
    ghost function Work(): nat
      requires Valid()
      reads this, chains.Values
    {
      chains[current].tip.value.header.totalWork
    }

    /** The header comes right after `parent`. */
    predicate Child(h: Header, parent: Header) { h.previousHash == r.hash(parent) && h.height == parent.height + 1 }

    /** ValidateHeaderTotalWork. */
    predicate WorkAdds(h: Header, parent: Header) { h.totalWork == parent.totalWork + r.work(h.bits) }

    /** checkHeaderExists. */
    ghost predicate Known(k: nat)
      reads this, chains.Values
    {
      exists j :: j in chains && k in chains[j].headers
    }

    /** Takes `h` off the list of orphans waiting for its parent, once, and the list off the map if nothing is left. */
    method ForgetOrphan(h: Header)
      modifies this`orphans
      ensures orphans == if h.previousHash in old(orphans) then Without(r, old(orphans), h.previousHash, r.hash(h)) else old(orphans)
    {
      if h.previousHash in orphans {
        var list, i := orphans[h.previousHash], 0;
        while i < |list|
          invariant 0 <= i <= |list| && list == old(orphans)[h.previousHash] && orphans == old(orphans)
          invariant forall j :: 0 <= j < i ==> r.hash(list[j]) != r.hash(h)
        {
          if r.hash(list[i]) == r.hash(h) {
            DroppedAt(r, list, r.hash(h), i);
            list := list[..i] + list[i + 1..];
            orphans := if list == [] then orphans - {h.previousHash} else orphans[h.previousHash := list];
            return;
          }
          i := i + 1;
        }
        DroppedAt(r, list, r.hash(h), |list|);
        assert list[..|list|] + [] == list;
        assert orphans[h.previousHash := list] == orphans;
      }
    }

    /** The first half of handleChainExtension: the header is added and the chain filed under it. */
    method Refile(h: Header, c: ForkChain, from: nat)
      requires from in chains && chains[from] == c
      modifies this`headersMap, this`orphans, this`chains, c`headers
      ensures c.headers == old(c.headers)[r.hash(h) := h] && headersMap == old(headersMap)[r.hash(h) := h]
      ensures chains == (old(chains) - {from})[r.hash(h) := c]
    {
      c.AddHeader(r, h);
      headersMap := headersMap[r.hash(h) := h];
      ForgetOrphan(h);
      chains := chains - {from};
      chains := chains[r.hash(h) := c];
    }

    /** cleanupFailedHeader. */
    method CleanUp(h: Header, c: ForkChain, from: nat, restore: bool)
      modifies this`headersMap, this`orphans, this`chains, c`headers
      ensures c.headers == old(c.headers) - {r.hash(h)} && headersMap == old(headersMap) - {r.hash(h)}
      ensures chains == (old(chains) - {r.hash(h)})[from := c]
      ensures restore ==> h.previousHash in orphans && h in orphans[h.previousHash]
    {
      var k := r.hash(h);
      c.headers := c.headers - {k};
      headersMap := headersMap - {k};
      chains := chains - {k};
      chains := chains[from := c];
      if restore {
        orphans := orphans[h.previousHash := (if h.previousHash in orphans then orphans[h.previousHash] else []) + [h]];
      }
    }

    /** The chain `c`, filed under `from` before, is now filed under the new header. */
    ghost predicate Refiled(h: Header, c: ForkChain, from: nat, cs: map<nat, ForkChain>, hs: map<nat, Header>)
      reads this, c
    {
      && from in cs && cs[from] == c && r.hash(h) !in cs && r.hash(h) !in hs
      && chains == (cs - {from})[r.hash(h) := c] && c.headers == hs[r.hash(h) := h]
    }

    method PutBack(h: Header, c: ForkChain, from: nat, restore: bool, ghost cs: map<nat, ForkChain>, ghost hs: map<nat, Header>)
      requires Refiled(h, c, from, cs, hs)
      modifies this`headersMap, this`orphans, this`chains, c`headers
      ensures chains == cs && c.headers == hs && headersMap == old(headersMap) - {r.hash(h)}
      ensures restore ==> h.previousHash in orphans && h in orphans[h.previousHash]
    {
      CleanUp(h, c, from, restore);
      assert chains == cs && c.headers == hs;
    }

    method Advance(h: Header, c: ForkChain, from: nat, block: Block, ghost cs: map<nat, ForkChain>, ghost hs: map<nat, Header>)
      requires Refiled(h, c, from, cs, hs) && from == current && block.header == h
      requires c.tip.Some? ==> h.height > c.tip.value.header.height
      modifies this`blocksMap, this`chains, this`current, c
      ensures blocksMap == old(blocksMap)[r.hash(h) := block]
      ensures r.hash(h) in c.blocks && current == r.hash(h) && chains == (cs - {from})[r.hash(h) := c] && c.headers == hs[r.hash(h) := h] && c.tip == Some(block)
    {
      c.AddBlock(r, block);
      blocksMap := blocksMap[r.hash(h) := block];
      var was := current;
      chains := chains[r.hash(h) := c];
      current := r.hash(h);
      if was != 0 && was != r.hash(h) { chains := chains - {was}; }
      assert c.headers == hs[r.hash(h) := h];
      assert chains == (cs - {from})[r.hash(h) := c];
    }

    /** A header on top of the current chain: its block is validated and applied, or everything is put back. The header map is
        as before exactly when it did not have the hash. */
    method ExtendCurrent(h: Header, w: World) returns (ok: bool)
      requires Valid() && Child(h, chains[current].headers[current]) && !Known(r.hash(h)) && w.block.Some? && w.block.value.header == h
      modifies this, chains[current]
      ensures Valid() && Work() == (if ok then h.totalWork else old(Work())) && (ok <==> w.judge(w.block.value) == Pass)
      ensures ok ==> current == r.hash(h) && chains == (old(chains) - {old(current)})[r.hash(h) := old(chains[current])]
      ensures !ok ==> current == old(current) && chains == old(chains) && chains[current].headers == old(chains[current].headers)
      ensures !ok ==> (headersMap == old(headersMap) <==> r.hash(h) !in old(headersMap))
      ensures ok ==> headersMap == old(headersMap)[r.hash(h) := h] && blocksMap == old(blocksMap)[r.hash(h) := w.block.value]
      ensures ok ==> chains[current].tip == w.block && r.hash(h) in chains[current].blocks
      ensures w.judge(w.block.value) == Fail ==> h.previousHash in orphans && h in orphans[h.previousHash]
    {
      var c, from, block := chains[current], current, w.block.value;
      ghost var cs, hs, hm := chains, c.headers, headersMap;
      assert Filed(from) && forall k :: k in cs ==> Filed(k);
      Refile(h, c, from);
      assert Others(cs, from, c);
      var v := w.judge(block);
      ok := v == Pass;
      if ok {
        Accept(h, c, from, block, cs, hs);
      } else {
        Reject(h, c, from, v != SwitchChain, cs, hs);
        assert headersMap == hm[r.hash(h) := h] - {r.hash(h)};
        assert r.hash(h) !in headersMap;
        assert r.hash(h) !in hm ==> headersMap == hm;
      }
    }

    /** If the block cannot be had, the chain stays filed under a header it has no block for, and the current tip is no longer a
        key of the chains. */
    method ExtendWithoutBlock(h: Header)
      requires Valid() && Child(h, chains[current].headers[current]) && !Known(r.hash(h))
      modifies this, chains[current]
      ensures current !in chains
    {
      assert Filed(current);
      assert r.hash(h) != current;
      Refile(h, chains[current], current);
    }

    /** The least tip height of all chains; the largest uint64 if no chain has a tip. */
    ghost predicate IsLeast(least: U64)
      reads this`chains, chains.Values
    {
      && (forall k :: k in chains && chains[k].tip.Some? ==> least <= chains[k].tip.value.header.height)
      && (least == TWO64 - 1 || exists k :: k in chains && chains[k].tip.Some? && chains[k].tip.value.header.height == least)
    }

    method LeastHeight() returns (least: U64)
      ensures IsLeast(least)
    {
      least := TWO64 - 1;
      var keys := chains.Keys;
      while keys != {}
        invariant keys <= chains.Keys
        invariant forall k :: k in chains && k !in keys && chains[k].tip.Some? ==> least <= chains[k].tip.value.header.height
        invariant least == TWO64 - 1 || exists k :: k in chains && chains[k].tip.Some? && chains[k].tip.value.header.height == least
        decreases keys
      {
        var k :| k in keys;
        if chains[k].tip.Some? && chains[k].tip.value.header.height < least { least := chains[k].tip.value.header.height; }
        keys := keys - {k};
      }
    }

    /** cleanupStaleOrphans: orphans below every chain's tip go, and lists that become empty. */
    method CleanUpOrphans() returns (ghost least: U64)
      modifies this`orphans
      ensures IsLeast(least)
      ensures orphans == if least == TWO64 - 1 then old(orphans) else Recent(old(orphans), least)
    {
      var bound := LeastHeight();
      least := bound;
      if bound == TWO64 - 1 { return; }
      orphans := map k | k in orphans && NotBelow(orphans[k], bound) != [] :: NotBelow(orphans[k], bound);
      assert orphans == Recent(old(orphans), bound);
    }

    ghost function Kept(cs: map<nat, ForkChain>, current: nat, height: nat): map<nat, ForkChain>
      reads cs.Values
    {
      map k | k in cs && (k == current || !Stale(cs[k], height)) :: cs[k]
    }

    /** A candidate whose tip is more than six blocks behind `height`. */
    predicate Stale(c: ForkChain, height: nat)
      reads c
    {
      c.tip.Some? && c.tip.value.header.height + 6 < height
    }

    /** cleanupCandidateChains: exactly the stale chains go, never the current one. */
    method CleanUpCandidates() returns (ghost least: U64)
      requires Valid()
      modifies this`chains, this`orphans
      ensures Valid() && current == old(current) && Work() == old(Work())
      ensures chains == Kept(old(chains), current, chains[current].tip.value.header.height)
      ensures IsLeast(least)
      ensures orphans == if least == TWO64 - 1 then old(orphans) else Recent(old(orphans), least)
    {
      RemoveStale();
      least := CleanUpOrphans();
    }

    method RemoveStale()
      requires Valid()
      modifies this`chains
      ensures Valid() && Work() == old(Work()) && chains == Kept(old(chains), current, chains[current].tip.value.header.height)
    {
      var height := chains[current].tip.value.header.height;
      var bound := if height > 6 then height - 6 else 0;
      ghost var was := chains;
      chains := map k | k in chains && (k == current || chains[k].tip.None? || chains[k].tip.value.header.height >= bound) :: chains[k];
      assert chains == Kept(was, current, height);
      assert forall k :: k in chains ==> k in was && chains[k] == was[k];
    }

    /** The blocks of a heavier candidate go into its chain and into the global maps. */
    method TakeBlocks(c: ForkChain, bs: seq<Block>)
      requires Rising(bs) && bs != []
      modifies this`headersMap, this`blocksMap, c
      ensures forall k :: k in old(c.headers) ==> k in c.headers
      ensures var h := bs[|bs| - 1].header; r.hash(h) in c.headers && c.headers[r.hash(h)] == h && r.hash(h) in c.blocks
      ensures var t := if old(c.tip).None? then Some(genesis) else if genesis.header.height > old(c.tip).value.header.height then Some(genesis) else old(c.tip);
        c.tip == if bs[|bs| - 1].header.height > t.value.header.height then Some(bs[|bs| - 1]) else t
      ensures forall i :: 0 <= i < |bs| ==> r.hash(bs[i].header) in headersMap && r.hash(bs[i].header) in blocksMap && r.hash(bs[i].header) in c.blocks
    {
      c.AddHeader(r, genesis.header);
      c.AddBlock(r, genesis);
      var i := 0;
      while i < |bs|
        invariant 0 <= i <= |bs|
        invariant forall j :: 0 <= j < i ==> r.hash(bs[j].header) in headersMap && r.hash(bs[j].header) in blocksMap
        modifies this`headersMap, this`blocksMap
      {
        var k := r.hash(bs[i].header);
        headersMap, blocksMap := headersMap[k := bs[i].header], blocksMap[k := bs[i]];
        i := i + 1;
      }
      c.AddBlocks(r, bs);
    }

    /** Filing a candidate under its new header disturbs no other chain. */
    method RefileCandidate(h: Header, c: ForkChain, from: nat)
      requires Valid() && from in chains && from != current && chains[from] == c && Child(h, c.headers[from]) && !Known(r.hash(h))
      modifies this`headersMap, this`orphans, this`chains, c`headers
      ensures Valid() && Work() == old(Work()) && r.hash(h) in chains && chains[r.hash(h)] == c && c.headers[r.hash(h)] == h && r.hash(h) != current
      ensures from !in chains && (c.tip.Some? ==> c.tip.value.header.height < h.height)
    {
      ghost var cs := chains;
      assert Filed(from) && Filed(current);
      Refile(h, c, from);
      assert forall j :: j in chains && j != r.hash(h) ==> j in cs && chains[j] == cs[j] && chains[j] != c;
    }

    /** The work comparison. The node switches exactly when the candidate is heavier, its block is new to it, and its blocks hold.
        (The code compares a second time before it switches; with one header processed at a time nothing has changed.) */
    method Compare(h: Header, c: ForkChain, w: World) returns (switched: bool)
      requires Valid() && r.hash(h) in chains && chains[r.hash(h)] == c && c.headers[r.hash(h)] == h && r.hash(h) != current
      requires (c.tip.Some? ==> c.tip.value.header.height < h.height) && h.height > 0
      requires w.fetched != [] && Rising(w.fetched) && w.fetched[|w.fetched| - 1].header == h
      modifies this, c
      ensures Valid() && switched == (h.totalWork > old(Work()) && r.hash(h) !in old(c.blocks) && w.fetchedOk)
      ensures current == (if switched then r.hash(h) else old(current)) && r.hash(h) in chains && chains[r.hash(h)] == c
      ensures Work() == if switched then h.totalWork else old(Work())
    {
      var k := r.hash(h);
      var work := chains[current].tip.value.header.totalWork;
      if h.totalWork <= work || k in c.blocks || !w.fetchedOk { return false; }
      assert Filed(k) && Filed(current);
      TakeBlocks(c, w.fetched);
      assert forall j :: j in chains && j != k ==> chains[j] != c;
      chains := chains[k := c];
      current := k;
      assert Filed(k);
      var _ := CleanUpCandidates();
      return true;
    }

    /** Why heights have to follow: a switch to a header that is not higher than the candidate's tip leaves that tip where it was,
        whatever its work, because the tip moves only up. */
    method SwitchBelow(h: Header, c: ForkChain, w: World)
      requires Valid() && r.hash(h) in chains && chains[r.hash(h)] == c && r.hash(h) != current
      requires c.tip.Some? && h.height <= c.tip.value.header.height && w.fetched != [] && Rising(w.fetched) && w.fetched[|w.fetched| - 1].header == h
      modifies this, c
      ensures current == r.hash(h) && current in chains && chains[current] == c && c.tip == old(c.tip)
    {
      TakeBlocks(c, w.fetched);
      chains := chains[r.hash(h) := c];
      current := r.hash(h);
    }

    /** A header on top of a candidate. */
    method ExtendCandidate(h: Header, c: ForkChain, from: nat, w: World) returns (switched: bool)
      requires Valid() && from in chains && from != current && chains[from] == c && Child(h, c.headers[from]) && !Known(r.hash(h))
      requires w.fetched != [] && Rising(w.fetched) && w.fetched[|w.fetched| - 1].header == h
      modifies this, c
      ensures Valid() && switched == (h.totalWork > old(Work()) && r.hash(h) !in old(c.blocks) && w.fetchedOk)
      ensures current == (if switched then r.hash(h) else old(current)) && r.hash(h) in chains && chains[r.hash(h)] == c
      ensures Work() == if switched then h.totalWork else old(Work())
    {
      RefileCandidate(h, c, from);
      switched := Compare(h, c, w);
    }

    /** buildChainFromBlocks on the blocks up to the fork point. */
    method Build(h: Header, w: World) returns (c: ForkChain)
      requires Available(r, h, w) && genesis.header == r.genesis && r.hash(h) != r.hash(r.genesis)
      ensures fresh(c) && r.hash(h) !in c.headers && r.hash(h) !in c.blocks && r.hash(r.genesis) in c.headers && h.previousHash in c.headers
      ensures c.headers[h.previousHash] == ForkPoint(w) && r.hash(ForkPoint(w)) == h.previousHash
      ensures h.previousHash in c.blocks && (c.tip.Some? <==> h.previousHash != r.hash(r.genesis)) && (c.tip.Some? ==> c.tip.value.header == ForkPoint(w))
    {
      c := new ForkChain(r, genesis);
      c.AddBlocks(r, w.path);
    }

    /** The header at the fork point. */
    function ForkPoint(w: World): Header { if w.path == [] then genesis.header else w.path[|w.path| - 1].header }

    /** handleForkCreation below the current tip: a new chain, filed under the fork point in place of any other. */
    method Fork(h: Header, w: World) returns (c: ForkChain)
      requires Valid() && Available(r, h, w) && h.previousHash != current && !Known(r.hash(h))
      modifies this`chains
      ensures fresh(c) && Valid() && Work() == old(Work()) && current == old(current) && !Known(r.hash(h)) && r.hash(h) !in c.blocks
      ensures chains == old(chains)[h.previousHash := c] && h.previousHash in c.headers && c.headers[h.previousHash] == ForkPoint(w)
    {
      ghost var cs := chains;
      assert Filed(current);
      c := Build(h, w);
      chains := chains[h.previousHash := c];
      assert forall k :: k in chains && k != h.previousHash ==> k in cs && chains[k] == cs[k] && chains[k] != c;
    }

    /** handleForkCreation at the current tip, which happens to a header whose total work does not add up: the current chain is
        replaced by one built from the same blocks, and that is extended. Nothing compares the work any more. A new chain has
        no tip; at genesis, if the block fails, the node is left with a current chain that has none. */
    method Rebuild(h: Header, w: World) returns (ok: bool)
      requires Valid() && Available(r, h, w) && h.previousHash == current && Child(h, chains[current].headers[current]) && !Known(r.hash(h))
      requires ForkPoint(w) == chains[current].headers[current]
      modifies this
      ensures ok <==> w.judge(w.block.value) == Pass
      ensures ok ==> Valid() && current == r.hash(h) && Work() == h.totalWork
      ensures !ok ==> current == old(current) && current in chains
      ensures !ok && current != r.hash(r.genesis) ==> Valid() && Work() == old(Work())
      ensures !ok && current == r.hash(r.genesis) ==> chains[current].tip.None?
    {
      var from, block := current, w.block.value;
      ghost var cs := chains;
      assert Filed(from) && forall k :: k in cs ==> Filed(k);
      ghost var hs;
      var c;
      c, hs := Replace(h, w);
      assert Others(cs[from := c], from, c);
      var v := w.judge(block);
      ok := v == Pass;
      if ok { Accept(h, c, from, block, cs[from := c], hs); } else { Reject(h, c, from, v != SwitchChain, cs[from := c], hs); }
    }

    /** The current chain, or one rebuilt in its place, with the new block ... */
    method Accept(h: Header, c: ForkChain, from: nat, block: Block, ghost cs: map<nat, ForkChain>, ghost hs: map<nat, Header>)
      requires Refiled(h, c, from, cs, hs) && Others(cs, from, c) && from == current && block.header == h
      requires genesis.header == r.genesis && r.genesis.height == 0 && r.hash(r.genesis) in hs && (c.tip.Some? ==> h.height > c.tip.value.header.height)
      modifies this`blocksMap, this`chains, this`current, c
      ensures Valid() && current == r.hash(h) && Work() == h.totalWork && chains == (cs - {from})[r.hash(h) := c]
      ensures blocksMap == old(blocksMap)[r.hash(h) := block] && c.tip == Some(block) && r.hash(h) in c.blocks
    {
      Advance(h, c, from, block, cs, hs);
      assert forall k :: k in chains && k != current ==> k in cs && chains[k] == cs[k];
    }

    /** ... and without it. */
    method Reject(h: Header, c: ForkChain, from: nat, restore: bool, ghost cs: map<nat, ForkChain>, ghost hs: map<nat, Header>)
      requires Refiled(h, c, from, cs, hs) && Others(cs, from, c) && from == current && from in hs && r.hash(hs[from]) == from
      requires genesis.header == r.genesis && r.genesis.height == 0 && r.hash(r.genesis) in hs && from in c.blocks
      modifies this`headersMap, this`orphans, this`chains, c`headers
      ensures chains == cs && current == old(current) && c.headers == hs && headersMap == old(headersMap) - {r.hash(h)}
      ensures restore ==> h.previousHash in orphans && h in orphans[h.previousHash]
      ensures c.tip.Some? && c.tip.value.header == hs[from] ==> Valid() && Work() == hs[from].totalWork
    {
      PutBack(h, c, from, restore, cs, hs);
      assert forall k :: k in chains && k != current ==> k in cs && chains[k] == cs[k];
    }

    method Replace(h: Header, w: World) returns (c: ForkChain, ghost hs: map<nat, Header>)
      requires Valid() && Available(r, h, w) && h.previousHash == current && !Known(r.hash(h))
      modifies this`chains, this`headersMap, this`orphans
      ensures fresh(c) && Refiled(h, c, current, old(chains)[current := c], hs)
      ensures current in hs && hs[current] == ForkPoint(w) && r.hash(r.genesis) in hs && current in c.blocks
      ensures (c.tip.Some? <==> current != r.hash(r.genesis)) && (c.tip.Some? ==> c.tip.value.header == ForkPoint(w))
    {
      assert Filed(current);
      c := Build(h, w);
      hs := c.headers;
      chains := chains[current := c];
      Refile(h, c, current);
    }

    method HandleOrphan(h: Header)
      modifies this`orphans
      ensures h.previousHash in orphans && h in orphans[h.previousHash]
    {
      orphans := orphans[h.previousHash := (if h.previousHash in orphans then orphans[h.previousHash] else []) + [h]];
    }

    /** The loop of checkHeaderExists (and, on blocks, of findParentBlock). */
    method Search(k: nat, inBlocks: bool) returns (found: bool)
      ensures found <==> exists j :: j in chains && (if inBlocks then k in chains[j].blocks else k in chains[j].headers)
    {
      var keys := chains.Keys;
      while keys != {}
        invariant keys <= chains.Keys
        invariant forall j :: j in chains && j !in keys ==> !(if inBlocks then k in chains[j].blocks else k in chains[j].headers)
        decreases keys
      {
        var j :| j in keys;
        if (if inBlocks then k in chains[j].blocks else k in chains[j].headers) { return true; }
        keys := keys - {j};
      }
      return false;
    }

    /** The header comes right after the one it names, which is the one the chains know under that hash. */
    ghost predicate Follows(h: Header, w: World)
      reads this, chains.Values
    {
      && Child(h, ForkPoint(w))
      && (h.previousHash in chains && h.previousHash in chains[h.previousHash].headers ==> chains[h.previousHash].headers[h.previousHash] == ForkPoint(w))
    }

    /** A new header on the current tip whose total work does not add up. */
    ghost predicate Miscounted(h: Header, w: World)
      reads this, chains.Values
    {
      h.previousHash == current && r.meets(r.hash(h), h.bits) && !Known(r.hash(h)) && !WorkAdds(h, ForkPoint(w)) && w.pathOk
    }

    /** The header passes its own checks and no chain has it. */
    ghost predicate Unseen(h: Header)
      reads this, chains.Values
    {
      r.meets(r.hash(h), h.bits) && !Known(r.hash(h))
    }

    /** Some chain has the block of hash `k`. */
    ghost predicate Rooted(k: nat)
      reads this, chains.Values
    {
      exists j :: j in chains && k in chains[j].blocks
    }

    /** The header belongs on top of a chain. */
    ghost predicate Tops(h: Header, w: World)
      reads this, chains.Values
    {
      h.previousHash in chains && WorkAdds(h, ForkPoint(w))
    }

    /** handleChainExtension: on the current chain the header becomes the tip if and only if its block validates, on any other if and
        only if it is heavier, its block is new and its blocks hold. Otherwise a current chain is as before, and another is filed
        under the header. */
    method ExtendChain(h: Header, w: World)
      requires Valid() && Available(r, h, w) && Follows(h, w) && Unseen(h) && Tops(h, w)
      modifies this, chains.Values
      ensures Valid()
      ensures h.previousHash == old(current) ==>
        && Work() == (if w.judge(w.block.value) == Pass then h.totalWork else old(Work()))
        && current == (if w.judge(w.block.value) == Pass then r.hash(h) else old(current))
        && (w.judge(w.block.value) != Pass ==> chains == old(chains))
      ensures h.previousHash != old(current) ==>
        var wins := h.totalWork > old(Work()) && r.hash(h) !in old(chains[h.previousHash].blocks) && w.fetchedOk;
        && Work() == (if wins then h.totalWork else old(Work()))
        && current == (if wins then r.hash(h) else old(current))
        && r.hash(h) in chains && chains[r.hash(h)] == old(chains[h.previousHash])
    {
      assert Filed(h.previousHash);
      if h.previousHash == current { var _ := ExtendCurrent(h, w); } else { var _ := ExtendCandidate(h, chains[h.previousHash], h.previousHash, w); }
    }

    /** A header that belongs on no chain: it waits under its parent if no chain has that block. Otherwise it starts a new chain, which
        it is filed under, unless the blocks up to it do not hold. */
    method StartChain(h: Header, w: World)
      requires Valid() && Available(r, h, w) && Follows(h, w) && Unseen(h) && !Tops(h, w)
      modifies this
      ensures !old(Rooted(h.previousHash)) ==>
        && h.previousHash in orphans && h in orphans[h.previousHash]
        && chains == old(chains) && current == old(current) && Valid() && Work() == old(Work())
      ensures old(Rooted(h.previousHash)) && !w.pathOk ==> chains == old(chains) && current == old(current) && orphans == old(orphans)
      ensures old(Rooted(h.previousHash)) && w.pathOk && h.previousHash != old(current) ==>
        && Valid() && r.hash(h) in chains && fresh(chains[r.hash(h)])
        && var wins := h.totalWork > old(Work()) && w.fetchedOk;
        Work() == (if wins then h.totalWork else old(Work())) && current == (if wins then r.hash(h) else old(current))
      ensures old(Rooted(h.previousHash)) && w.pathOk && h.previousHash == old(current) ==>
        && (Valid() <==> w.judge(w.block.value) == Pass || current != r.hash(r.genesis)) && current in chains
        && current == (if w.judge(w.block.value) == Pass then r.hash(h) else old(current))
        && (Valid() ==> Work() == if w.judge(w.block.value) == Pass then h.totalWork else old(Work()))
    {
      var rooted := Search(h.previousHash, true);
      if !rooted {
        HandleOrphan(h);
      } else if w.pathOk && h.previousHash == current {
        assert Filed(current);
        var ok := Rebuild(h, w);
        assert r.hash(h) != r.hash(r.genesis) || !ok;
      } else if w.pathOk {
        var c := Fork(h, w);
        var _ := ExtendCandidate(h, c, h.previousHash, w);
      }
    }

    /** ProcessHeader. For every header that comes right after its parent, while blocks are available: the current tip stays a key
        of the chains. Its work goes down exactly when a header on top of it claims less and its block validates, so never if
        total work adds up. The rest of the invariant is lost exactly if such a header comes first of all and its block fails. A
        header already known changes nothing; what becomes of the others is what ExtendChain and StartChain say. */
    method ProcessHeader(h: Header, w: World)
      requires Valid() && Available(r, h, w) && Follows(h, w)
      modifies this, chains.Values
      ensures current in chains
      ensures Valid() <==> !(old(Miscounted(h, w)) && w.judge(w.block.value) != Pass && old(current) == r.hash(r.genesis))
      ensures Valid() ==> (Work() < old(Work()) <==> old(Miscounted(h, w)) && w.judge(w.block.value) == Pass && h.totalWork < old(Work()))
      ensures WorkAdds(h, ForkPoint(w)) ==> Valid() && Work() >= old(Work())
      ensures !old(Unseen(h)) ==> chains == old(chains) && current == old(current) && orphans == old(orphans) && headersMap == old(headersMap)
      ensures old(Unseen(h) && Tops(h, w)) && h.previousHash == old(current) ==>
        && Work() == (if w.judge(w.block.value) == Pass then h.totalWork else old(Work()))
        && current == (if w.judge(w.block.value) == Pass then r.hash(h) else old(current))
      ensures old(Unseen(h) && Tops(h, w)) && h.previousHash != old(current) ==>
        var wins := h.totalWork > old(Work()) && r.hash(h) !in old(chains[h.previousHash].blocks) && w.fetchedOk;
        && Work() == (if wins then h.totalWork else old(Work())) && current == (if wins then r.hash(h) else old(current))
        && r.hash(h) in chains && chains[r.hash(h)] == old(chains[h.previousHash])
      ensures old(Unseen(h) && !Tops(h, w) && !Rooted(h.previousHash)) ==> h.previousHash in orphans && h in orphans[h.previousHash] && chains == old(chains)
      ensures old(Unseen(h) && !Tops(h, w) && Rooted(h.previousHash)) && w.pathOk && h.previousHash != old(current) ==>
        && r.hash(h) in chains && fresh(chains[r.hash(h)])
        && var wins := h.totalWork > old(Work()) && w.fetchedOk;
        Work() == (if wins then h.totalWork else old(Work())) && current == (if wins then r.hash(h) else old(current))
    {
      var k := r.hash(h);
      if !r.meets(k, h.bits) || (h.height == 0 && k != r.hash(r.genesis)) { return; }
      var known := Search(k, false);
      if known { return; }
      if h.previousHash in chains { assert Filed(h.previousHash); }
      assert current in chains[current].blocks;
      if h.previousHash in chains && h.previousHash in chains[h.previousHash].headers && WorkAdds(h, chains[h.previousHash].headers[h.previousHash]) {
        ExtendChain(h, w);
      } else {
        StartChain(h, w);
      }
    }
  }

  /** The headers without the first one of hash `k`. */
  function Dropped(r: Rules, hs: seq<Header>, k: nat): seq<Header> {
    if hs == [] then [] else if r.hash(hs[0]) == k then hs[1..] else [hs[0]] + Dropped(r, hs[1..], k)
  }

  function Without(r: Rules, orphans: map<nat, seq<Header>>, parent: nat, k: nat): map<nat, seq<Header>>
    requires parent in orphans
  {
    var list := Dropped(r, orphans[parent], k);
    if list == [] && orphans[parent] != [] then orphans - {parent} else orphans[parent := list]
  }

  lemma {:induction false} DroppedAt(r: Rules, hs: seq<Header>, k: nat, i: nat)
    requires i <= |hs| && (forall j :: 0 <= j < i ==> r.hash(hs[j]) != k) && (i < |hs| ==> r.hash(hs[i]) == k)
    ensures Dropped(r, hs, k) == hs[..i] + (if i < |hs| then hs[i + 1..] else [])
  {
    if i > 0 {
      DroppedAt(r, hs[1..], k, i - 1);
      assert hs[..i] == [hs[0]] + hs[1..][..i - 1];
    }
  }

  function Recent(orphans: map<nat, seq<Header>>, least: nat): map<nat, seq<Header>> {
    map k | k in orphans && NotBelow(orphans[k], least) != [] :: NotBelow(orphans[k], least)
  }

  function NotBelow(hs: seq<Header>, least: nat): seq<Header> {
    if hs == [] then [] else (if hs[0].height >= least then [hs[0]] else []) + NotBelow(hs[1..], least)
  }
}
