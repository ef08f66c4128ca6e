/** Merkle roots, level by level with the last hash doubled (blockchain/crypto.go). */
module Merkle {
  import opened Text

  /** Hashes are numbers; 0 is the empty hash. */
  type Hash = nat

  type Pair = (Hash, Hash) -> Hash

  /** One level up; the last of an odd number is paired with itself. */
  function Level(node: Pair, hs: seq<Hash>): seq<Hash> {
    if hs == [] then [] else if |hs| == 1 then [node(hs[0], hs[0])] else [node(hs[0], hs[1])] + Level(node, hs[2..])
  }

  lemma {:induction false} LevelSize(node: Pair, hs: seq<Hash>)
    ensures |Level(node, hs)| == (|hs| + 1) / 2
  {
    if |hs| > 1 { LevelSize(node, hs[2..]); }
  }

  function Root(node: Pair, hs: seq<Hash>): Hash
    decreases |hs|
  {
    if hs == [] then 0 else if |hs| == 1 then hs[0]
    else
      LevelSize(node, hs);
      Root(node, Level(node, hs))
  }

  // ---------------------------------------------------------------- the loop

  /** The inner loop builds one level, after doubling the last hash of an odd number. */
  method NextLevel(node: Pair, hs: seq<Hash>) returns (next: seq<Hash>)
    requires hs != []
    ensures next == Level(node, hs)
  {
    var full := if |hs| % 2 == 1 then hs + [hs[|hs| - 1]] else hs;
    Doubled(node, hs);
    var i: nat := 0;
    next := [];
    while i < |full|
      invariant 0 <= i <= |full| && i % 2 == 0 && next + Level(node, full[i..]) == Level(node, full)
    {
      assert full[i..][2..] == full[i + 2..];
      next := next + [node(full[i], full[i + 1])];
      i := i + 2;
    }
    assert full[i..] == [];
  }

  lemma {:induction false} Doubled(node: Pair, hs: seq<Hash>)
    requires hs != []
    ensures |hs| % 2 == 1 ==> Level(node, hs + [hs[|hs| - 1]]) == Level(node, hs)
  {
    var more := hs + [hs[|hs| - 1]];
    if |hs| == 1 {
      assert more[2..] == [];
    } else if |hs| % 2 == 1 {
      Doubled(node, hs[2..]);
      assert more[2..] == hs[2..] + [hs[2..][|hs| - 3]];
    }
  }

  /** MerkleTransactions and its copies. */
  method MerkleRoot(node: Pair, leaves: seq<Hash>) returns (root: Hash)
    ensures root == Root(node, leaves)
  {
    if |leaves| == 0 { return 0; }
    var hs := leaves;
    while |hs| > 1
      invariant |hs| >= 1 && Root(node, hs) == Root(node, leaves)
      decreases |hs|
    {
      LevelSize(node, hs);
      hs := NextLevel(node, hs);
    }
    return hs[0];
  }

  // ---------------------------------------------------------------- the same as a tree

  function Pow2(d: nat): nat { if d == 0 then 1 else 2 * Pow2(d - 1) }

  /** A binary tree of depth `d`, filled from the left; where the right half has no leaves the left half stands in. */
  function Tree(node: Pair, hs: seq<Hash>, d: nat): Hash
    requires 1 <= |hs| <= Pow2(d)
    decreases d
  {
    if d == 0 then hs[0]
    else
      var half := Pow2(d - 1);
      if |hs| <= half then node(Tree(node, hs, d - 1), Tree(node, hs, d - 1))
      else node(Tree(node, hs[..half], d - 1), Tree(node, hs[half..], d - 1))
  }

  lemma {:induction false} LevelSplits(node: Pair, a: seq<Hash>, b: seq<Hash>)
    requires |a| % 2 == 0
    ensures Level(node, a + b) == Level(node, a) + Level(node, b)
  {
    if a == [] {
      assert a + b == b && Level(node, a) + Level(node, b) == Level(node, b);
    } else {
      var first, x, y := [node(a[0], a[1])], Level(node, a[2..]), Level(node, b);
      LevelSplits(node, a[2..], b);
      assert (a + b)[2..] == a[2..] + b && (a + b)[0] == a[0] && (a + b)[1] == a[1];
      assert first + (x + y) == (first + x) + y;
    }
  }

  lemma TreeJoins(node: Pair, x: seq<Hash>, y: seq<Hash>, d: nat)
    requires |x| == Pow2(d) && 1 <= |y| <= Pow2(d)
    ensures 1 <= |x + y| <= Pow2(d + 1) && Tree(node, x + y, d + 1) == node(Tree(node, x, d), Tree(node, y, d))
  {
    assert (x + y)[..|x|] == x && (x + y)[|x|..] == y;
  }

  lemma TreeOfTwo(node: Pair, hs: seq<Hash>)
    requires 1 <= |hs| <= 2
    ensures |Level(node, hs)| == 1 && Pow2(1) == 2 && Tree(node, hs, 1) == Level(node, hs)[0]
  {
    if |hs| == 2 { assert hs[2..] == [] && hs[..1] == [hs[0]] && hs[1..] == [hs[1]]; }
  }

  ghost predicate Lifts(node: Pair, hs: seq<Hash>, d: nat)
    requires d > 0 && 1 <= |hs| <= Pow2(d)
  {
    1 <= |Level(node, hs)| <= Pow2(d - 1) && Tree(node, hs, d) == Tree(node, Level(node, hs), d - 1)
  }

  lemma BothLift(node: Pair, l: seq<Hash>, r: seq<Hash>, d: nat)
    requires d > 0 && |l| == Pow2(d) && 1 <= |r| <= Pow2(d) && Lifts(node, l, d) && Lifts(node, r, d)
    ensures |l + r| <= Pow2(d + 1) && Lifts(node, l + r, d + 1)
  {
    var x, y := Level(node, l), Level(node, r);
    assert |x| == Pow2(d - 1) by { LevelSize(node, l); }
    assert Level(node, l + r) == x + y by { LevelSplits(node, l, r); }
    TreeJoins(node, l, r, d);
    TreeJoins(node, x, y, d - 1);
  }

  lemma SameLift(node: Pair, hs: seq<Hash>, d: nat)
    requires d > 0 && 1 <= |hs| <= Pow2(d) && Lifts(node, hs, d)
    ensures |hs| <= Pow2(d + 1) && Lifts(node, hs, d + 1)
  {
    LevelSize(node, hs);
  }

  /** One level less of the tree is one level up. */
  lemma {:induction false} TreeLevel(node: Pair, hs: seq<Hash>, d: nat)
    requires d > 0 && 1 <= |hs| <= Pow2(d)
    ensures Lifts(node, hs, d)
    decreases d
  {
    var half := Pow2(d - 1);
    if d == 1 {
      TreeOfTwo(node, hs);
    } else if |hs| <= half {
      TreeLevel(node, hs, d - 1);
      SameLift(node, hs, d - 1);
    } else {
      var l, r := hs[..half], hs[half..];
      assert hs == l + r;
      TreeLevel(node, l, d - 1);
      TreeLevel(node, r, d - 1);
      BothLift(node, l, r, d - 1);
    }
  }

  /** The least depth that holds `n` leaves. */
  function Depth(n: nat): nat
    requires n >= 1
    decreases n
  {
    if n == 1 then 0 else 1 + Depth((n + 1) / 2)
  }

  lemma {:induction false} DepthHolds(n: nat)
    requires n >= 1
    ensures n <= Pow2(Depth(n)) && (n > 1 ==> n > Pow2(Depth(n) - 1))
  {
    if n > 1 { DepthHolds((n + 1) / 2); }
  }

  /** The level-by-level root is the root of the tree of least depth. */
  lemma {:induction false} RootIsTree(node: Pair, hs: seq<Hash>)
    requires hs != []
    ensures |hs| <= Pow2(Depth(|hs|)) && Root(node, hs) == Tree(node, hs, Depth(|hs|))
    decreases |hs|
  {
    DepthHolds(|hs|);
    if |hs| > 1 {
      LevelSize(node, hs);
      RootIsTree(node, Level(node, hs));
      TreeLevel(node, hs, Depth(|hs|));
    }
  }

  // ---------------------------------------------------------------- binding

  ghost predicate CollisionFree(node: Pair) {
    forall a, b, c, d {:trigger node(a, b), node(c, d)} :: node(a, b) == node(c, d) ==> a == c && b == d
  }

  lemma {:induction false} LevelInjective(node: Pair, a: seq<Hash>, b: seq<Hash>)
    requires CollisionFree(node) && |a| == |b| && Level(node, a) == Level(node, b)
    ensures a == b
  {
    if |a| == 1 {
      assert Level(node, a)[0] == Level(node, b)[0];
    } else if |a| > 1 {
      var x, y := Level(node, a), Level(node, b);
      assert x[0] == y[0] && x[1..] == y[1..];
      LevelInjective(node, a[2..], b[2..]);
      assert a == [a[0], a[1]] + a[2..] && b == [b[0], b[1]] + b[2..];
    }
  }

  /** Binding: with a collision-free pair hash, lists of the same length with the same root are the same. */
  lemma {:induction false} RootBinds(node: Pair, a: seq<Hash>, b: seq<Hash>)
    requires CollisionFree(node) && |a| == |b| && Root(node, a) == Root(node, b)
    ensures a == b
    decreases |a|
  {
    if |a| > 1 {
      LevelSize(node, a);
      LevelSize(node, b);
      RootBinds(node, Level(node, a), Level(node, b));
      LevelInjective(node, a, b);
    }
  }

  /** The length matters: repeating the last of an odd number of leaves does not change the root. */
  lemma RepeatedLast(node: Pair, hs: seq<Hash>)
    requires |hs| > 1 && |hs| % 2 == 1
    ensures Root(node, hs + [hs[|hs| - 1]]) == Root(node, hs)
  {
    Doubled(node, hs);
  }
}
