/** State and storage roots do not depend on the order in which a map is walked (blockchain/crypto.go). */
module Roots {
  import opened Text
  import opened Merkle

  // ---------------------------------------------------------------- lexicographic order

  /** Byte-wise order of Go strings and keys. */
  predicate Before(a: Bytes, b: Bytes) {
    if b == [] then false else if a == [] then true else if a[0] != b[0] then a[0] < b[0] else Before(a[1..], b[1..])
  }

  lemma {:induction false} Total(a: Bytes, b: Bytes)
    ensures a != b ==> Before(a, b) || Before(b, a)
    ensures !(Before(a, b) && Before(b, a)) && !Before(a, a)
  {
    if a != [] && b != [] {
      if a[0] == b[0] {
        Total(a[1..], b[1..]);
        assert a == [a[0]] + a[1..] && b == [b[0]] + b[1..];
      }
    }
    if a != [] { Irreflexive(a[1..]); }
  }

  lemma {:induction false} Irreflexive(a: Bytes)
    ensures !Before(a, a)
  {
    if a != [] { Irreflexive(a[1..]); }
  }

  lemma {:induction false} Transitive(a: Bytes, b: Bytes, c: Bytes)
    requires Before(a, b) && Before(b, c)
    ensures Before(a, c)
  {
    if a != [] && b != [] && c != [] && a[0] == b[0] && b[0] == c[0] { Transitive(a[1..], b[1..], c[1..]); }
  }

  /** `b` does not come before `a`. */
  predicate AtMost(a: Bytes, b: Bytes) { !Before(b, a) }

  lemma AtMostTransitive(a: Bytes, b: Bytes, c: Bytes)
    requires AtMost(a, b) && AtMost(b, c)
    ensures AtMost(a, c)
  {
    Total(a, b);
    Total(b, c);
    if a != b && b != c { Transitive(a, b, c); }
    Total(a, c);
  }

  lemma {:induction false} FirstDifference(a: Bytes, b: Bytes, k: nat)
    requires k <= |a| && k <= |b| && a[..k] == b[..k]
    ensures Before(a, b) == Before(a[k..], b[k..])
  {
    if k > 0 {
      assert a[0] == a[..k][0] && b[0] == b[..k][0];
      assert a[1..][..k - 1] == a[..k][1..] && b[1..][..k - 1] == b[..k][1..];
      FirstDifference(a[1..], b[1..], k - 1);
      assert a[1..][k - 1..] == a[k..] && b[1..][k - 1..] == b[k..];
    } else {
      assert a[0..] == a && b[0..] == b;
    }
  }

  /** The loop over the 32 bytes of two keys. */
  method Greater(x: Bytes, y: Bytes) returns (r: bool)
    requires |x| == 32 && |y| == 32
    ensures r == Before(y, x)
  {
    var k := 0;
    while k < 32
      invariant 0 <= k <= 32 && x[..k] == y[..k]
    {
      FirstDifference(y, x, k);
      if x[k] > y[k] { return true; }
      if x[k] < y[k] { return false; }
      k := k + 1;
    }
    assert x[..32] == x && y[..32] == y;
    Irreflexive(x);
    return false;
  }

  // ---------------------------------------------------------------- the exchange sort

  ghost predicate Sorted(s: seq<Bytes>) { forall i, j :: 0 <= i < j < |s| ==> AtMost(s[i], s[j]) }

  /** The first `i` elements are in order and before all others; element `i` is before those up to `j`. */
  ghost predicate SoFar(s: seq<Bytes>, i: nat, j: nat) {
    && (forall x, y :: 0 <= x < y < |s| && x < i ==> AtMost(s[x], s[y]))
    && (forall y :: i < y < j && y < |s| ==> AtMost(s[i], s[y]))
  }

  lemma Exchange(s: seq<Bytes>, i: nat, j: nat)
    requires i < j < |s| && SoFar(s, i, j) && Before(s[j], s[i])
    ensures var t := s[i := s[j]][j := s[i]]; multiset(t) == multiset(s) && SoFar(t, i, j + 1)
  {
    var t := s[i := s[j]][j := s[i]];
    Total(s[i], s[j]);
    forall y | i < y < j + 1 ensures AtMost(t[i], t[y]) {
      if y < j { AtMostTransitive(s[j], s[i], s[y]); }
    }
  }

  predicate Keys(s: seq<Bytes>, fixed: bool) { fixed ==> forall i :: 0 <= i < |s| ==> |s[i]| == 32 }

  /** The nested loops, for keys of 32 bytes (`fixed`) compared byte by byte or for strings. */
  method Sort(a: array<Bytes>, fixed: bool)
    requires Keys(a[..], fixed)
    modifies a
    ensures Sorted(a[..]) && multiset(a[..]) == multiset(old(a[..]))
  {
    var i := 0;
    while i < a.Length
      invariant 0 <= i <= a.Length && multiset(a[..]) == multiset(old(a[..])) && SoFar(a[..], i, i)
      invariant Keys(a[..], fixed)
    {
      SortFrom(a, i, fixed);
      i := i + 1;
    }
  }

  /** Two keys in the wrong order: compared byte by byte, or as strings. */
  method Wrong(x: Bytes, y: Bytes, fixed: bool) returns (r: bool)
    requires fixed ==> |x| == 32 && |y| == 32
    ensures r == Before(y, x)
  {
    if fixed { r := Greater(x, y); } else { r := Before(y, x); }
  }

  method SortFrom(a: array<Bytes>, i: nat, fixed: bool)
    requires i < a.Length && SoFar(a[..], i, i) && Keys(a[..], fixed)
    modifies a
    ensures multiset(a[..]) == multiset(old(a[..])) && SoFar(a[..], i + 1, i + 1) && Keys(a[..], fixed)
  {
    var j: nat := i + 1;
    while j < a.Length
      invariant i < j <= a.Length && multiset(a[..]) == multiset(old(a[..])) && SoFar(a[..], i, j) && Keys(a[..], fixed)
    {
      SortPair(a, i, j, fixed);
      j := j + 1;
    }
  }

  /** The body of the inner loop. */
  method SortPair(a: array<Bytes>, i: nat, j: nat, fixed: bool)
    requires i < j < a.Length && SoFar(a[..], i, j) && Keys(a[..], fixed)
    modifies a
    ensures multiset(a[..]) == multiset(old(a[..])) && SoFar(a[..], i, j + 1) && Keys(a[..], fixed)
  {
    var greater := Wrong(a[i], a[j], fixed);
    if greater {
      Exchange(a[..], i, j);
      ghost var s := a[..];
      a[i], a[j] := a[j], a[i];
      assert a[..] == s[i := s[j]][j := s[i]];
    }
  }

  // ---------------------------------------------------------------- one sorted listing

  ghost predicate Lists(s: seq<Bytes>, keys: set<Bytes>) { (forall k :: k in keys <==> k in s) && forall i, j :: 0 <= i < j < |s| ==> s[i] != s[j] }

  /** Two sorted listings of the same keys are the same. */
  lemma {:induction false} OneListing(s: seq<Bytes>, t: seq<Bytes>, keys: set<Bytes>)
    requires Sorted(s) && Sorted(t) && Lists(s, keys) && Lists(t, keys)
    ensures s == t
    decreases |s|
  {
    assert t != [] ==> t[0] in keys;
    if s != [] {
      assert s[0] in keys && s[0] in t;
      FirstIsLeast(s, t, keys);
      var rest := keys - {s[0]};
      RestLists(s, keys);
      RestLists(t, keys);
      OneListing(s[1..], t[1..], rest);
    }
  }

  lemma FirstIsLeast(s: seq<Bytes>, t: seq<Bytes>, keys: set<Bytes>)
    requires Sorted(s) && Sorted(t) && Lists(s, keys) && Lists(t, keys) && s != [] && t != []
    ensures s[0] == t[0]
  {
    assert s[0] in keys && t[0] in keys;
    var i :| 0 <= i < |t| && t[i] == s[0];
    var j :| 0 <= j < |s| && s[j] == t[0];
    Total(s[0], t[0]);
  }

  lemma RestLists(s: seq<Bytes>, keys: set<Bytes>)
    requires Sorted(s) && Lists(s, keys) && s != []
    ensures Sorted(s[1..]) && Lists(s[1..], keys - {s[0]})
  {
    var rest := s[1..];
    assert forall i :: 0 <= i < |rest| ==> rest[i] == s[i + 1];
    assert s == [s[0]] + rest;
    assert forall k :: k in s <==> k == s[0] || k in rest;
  }

  lemma {:induction false} ListingExists(keys: set<Bytes>)
    ensures exists s :: Sorted(s) && Lists(s, keys)
  {
    if keys == {} {
      assert Sorted([]) && Lists([], keys);
    } else {
      var k :| k in keys;
      ListingExists(keys - {k});
      var s :| Sorted(s) && Lists(s, keys - {k});
      var i := Place(s, k);
      Inserted(s, keys - {k}, k, i);
      assert keys - {k} + {k} == keys;
    }
  }

  /** Where `k` belongs. */
  lemma {:induction false} Place(s: seq<Bytes>, k: Bytes) returns (i: nat)
    requires Sorted(s)
    ensures i <= |s| && (forall j :: 0 <= j < i ==> AtMost(s[j], k)) && (forall j :: i <= j < |s| ==> AtMost(k, s[j]))
  {
    i := 0;
    while i < |s| && AtMost(s[i], k)
      invariant i <= |s| && forall j :: 0 <= j < i ==> AtMost(s[j], k)
    {
      i := i + 1;
    }
    if i < |s| {
      Total(s[i], k);
      forall j | i <= j < |s| ensures AtMost(k, s[j]) {
        if j > i { AtMostTransitive(k, s[i], s[j]); }
      }
    }
  }

  lemma Inserted(s: seq<Bytes>, keys: set<Bytes>, k: Bytes, i: nat)
    requires Sorted(s) && Lists(s, keys) && k !in keys && i <= |s|
    requires (forall j :: 0 <= j < i ==> AtMost(s[j], k)) && (forall j :: i <= j < |s| ==> AtMost(k, s[j]))
    ensures var t := s[..i] + [k] + s[i..]; Sorted(t) && Lists(t, keys + {k})
  {
    var t := s[..i] + [k] + s[i..];
    assert forall j :: 0 <= j < |t| ==> t[j] == if j < i then s[j] else if j == i then k else s[j - 1];
    InsertedElements(s, k, i);
  }

  lemma InsertedElements(s: seq<Bytes>, k: Bytes, i: nat)
    requires i <= |s|
    ensures forall x :: x in s[..i] + [k] + s[i..] <==> x == k || x in s
  {
    assert s == s[..i] + s[i..];
  }

  /** The sorted listing. */
  ghost function Listing(keys: set<Bytes>): (s: seq<Bytes>)
    ensures Sorted(s) && Lists(s, keys)
  {
    ListingExists(keys);
    var s :| Sorted(s) && Lists(s, keys);
    s
  }

  // ---------------------------------------------------------------- roots of maps

  /** The root of a map from keys to leaf hashes: a function of the map alone. */
  ghost function RootOf(node: Pair, leaves: map<Bytes, Hash>): Hash {
    var keys := Listing(leaves.Keys);
    Root(node, seq(|keys|, i requires 0 <= i < |keys| => LeafOf(leaves, keys[i])))
  }

  function LeafOf(leaves: map<Bytes, Hash>, k: Bytes): Hash { if k in leaves then leaves[k] else 0 }

  /** A leaf tells the key it belongs to, as the hash of an account or of a storage entry does. */
  ghost predicate TellsKey(a: map<Bytes, Hash>, b: map<Bytes, Hash>) { forall k, l :: k in a && l in b && a[k] == b[l] ==> k == l }

  function Leaves(m: map<Bytes, Hash>, keys: seq<Bytes>): (r: seq<Hash>)
    ensures |r| == |keys|
  {
    seq(|keys|, i requires 0 <= i < |keys| => LeafOf(m, keys[i]))
  }

  /** Different maps of the same size have different roots, under a collision-free pair hash and leaves that tell their keys. */
  lemma RootsBind(node: Pair, a: map<Bytes, Hash>, b: map<Bytes, Hash>)
    requires CollisionFree(node) && TellsKey(a, b) && |a| == |b|
    ensures RootOf(node, a) == RootOf(node, b) <==> a == b
  {
    var s, t := Listing(a.Keys), Listing(b.Keys);
    ListingSize(s, a.Keys);
    ListingSize(t, b.Keys);
    if RootOf(node, a) == RootOf(node, b) {
      RootBinds(node, Leaves(a, s), Leaves(b, t));
      forall i | 0 <= i < |s| ensures s[i] in a && s[i] in b && s[i] == t[i] && a[s[i]] == b[s[i]] {
        assert Leaves(a, s)[i] == LeafOf(a, s[i]) && Leaves(b, t)[i] == LeafOf(b, t[i]);
        assert s[i] in s && t[i] in t;
      }
      assert s == t;
      assert a.Keys == b.Keys by {
        forall k ensures k in a.Keys <==> k in b.Keys { assert k in a.Keys <==> k in s; }
      }
      forall k | k in a ensures a[k] == b[k] { var i :| 0 <= i < |s| && s[i] == k; }
    }
  }

  lemma {:induction false} ListingSize(s: seq<Bytes>, keys: set<Bytes>)
    requires Lists(s, keys)
    ensures |s| == |keys|
    decreases |s|
  {
    if s == [] {
      assert keys == {};
    } else {
      var k, rest := s[0], s[1..];
      assert s == [k] + rest;
      forall x ensures x in keys - {k} <==> x in rest {
        if x in rest {
          var j :| 0 <= j < |rest| && rest[j] == x;
          assert s[j + 1] == x;
        }
      }
      assert forall i, j :: 0 <= i < j < |rest| ==> rest[i] == s[i + 1] && rest[j] == s[j + 1];
      ListingSize(rest, keys - {k});
    }
  }

  /** The keys of the map in whatever order it is walked. */
  method Walk(leaves: map<Bytes, Hash>) returns (a: array<Bytes>)
    ensures fresh(a) && Lists(a[..], leaves.Keys)
  {
    var listed: seq<Bytes>, left := [], leaves.Keys;
    while left != {}
      invariant left <= leaves.Keys && Lists(listed, leaves.Keys - left)
      decreases left
    {
      var k :| k in left;
      left := left - {k};
      listed := listed + [k];
    }
    a := new Bytes[|listed|](i requires 0 <= i < |listed| => listed[i]);
    assert a[..] == listed;
  }

  /** ComputeStateRoot (`fixed`) and ComputeStorageRoot: whatever order the keys come in, the root is that of the map. */
  method ComputeRoot(node: Pair, leaves: map<Bytes, Hash>, fixed: bool) returns (root: Hash)
    requires fixed ==> forall k :: k in leaves ==> |k| == 32
    ensures root == RootOf(node, leaves)
  {
    var a := Walk(leaves);
    ghost var before := a[..];
    assert forall i :: 0 <= i < a.Length ==> a[i] in leaves.Keys by {
      assert forall i :: 0 <= i < a.Length ==> a[..][i] in a[..];
    }
    Sort(a, fixed);
    StillLists(before, a[..], leaves.Keys);
    OneListing(a[..], Listing(leaves.Keys), leaves.Keys);
    var keys := a[..];
    var hashes := seq(|keys|, i requires 0 <= i < |keys| => LeafOf(leaves, keys[i]));
    root := MerkleRoot(node, hashes);
  }

  lemma StillLists(s: seq<Bytes>, t: seq<Bytes>, keys: set<Bytes>)
    requires Lists(s, keys) && multiset(s) == multiset(t)
    ensures Lists(t, keys)
  {
    forall k ensures k in t <==> k in s {
      assert k in t <==> k in multiset(t);
      assert k in s <==> k in multiset(s);
    }
    forall i, j | 0 <= i < j < |t| ensures t[i] != t[j] {
      Twice(t, i, j);
      Once(s, t[i]);
    }
  }

  lemma Twice(t: seq<Bytes>, i: nat, j: nat)
    requires i < j < |t|
    ensures t[i] == t[j] ==> multiset(t)[t[i]] >= 2
  {
    assert t == t[..j] + [t[j]] + t[j + 1..];
    assert t[..j][i] == t[i] && t[i] in t[..j];
  }

  lemma {:induction false} Once(s: seq<Bytes>, k: Bytes)
    requires forall i, j :: 0 <= i < j < |s| ==> s[i] != s[j]
    ensures multiset(s)[k] <= 1
  {
    if s != [] {
      var front := s[..|s| - 1];
      assert s == front + [s[|s| - 1]];
      Once(front, k);
      if k == s[|s| - 1] { assert k !in front; }
    }
  }
}
