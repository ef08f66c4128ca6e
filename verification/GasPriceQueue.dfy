/** The mempool's priority queue (node/mempool.go): a binary heap in an array, kept by the sift operations of Go's
    container/heap. */
module GasPriceQueue {
  import opened Ledger

  /** `added` is when the transaction came in. */
  datatype Entry = Entry(tx: Tx, added: int, gasPrice: U64)

  /** Higher gas price first; the older of two with the same price. */
  predicate Less(a: Entry, b: Entry) {
    if a.gasPrice != b.gasPrice then a.gasPrice > b.gasPrice else a.added < b.added
  }

  /** `b` does not come before `a`. */
  predicate Ordered(a: Entry, b: Entry) { !Less(b, a) }

  function Parent(c: nat): nat
    requires c > 0
  {
    (c - 1) / 2
  }

  /** The edge above `c` is in order. */
  predicate Edge(s: seq<Entry>, c: nat)
    requires 0 < c < |s|
  {
    Ordered(s[Parent(c)], s[c])
  }

  /** The edges of the first `n` elements with parents from `lo` on are in order. */
  ghost predicate HeapFrom(s: seq<Entry>, lo: nat, n: nat)
    requires n <= |s|
  {
    forall c: nat {:trigger Edge(s, c)} :: 0 < c < n && lo <= Parent(c) ==> Edge(s, c)
  }

  ghost predicate IsHeap(s: seq<Entry>) { HeapFrom(s, 0, |s|) }

  /** ... except for the edges at `i`: above it and, unless `up`, below it. */
  ghost predicate HeapExcept(s: seq<Entry>, lo: nat, n: nat, i: nat, up: bool, down: bool)
    requires n <= |s|
  {
    forall c: nat {:trigger Edge(s, c)} :: 0 < c < n && lo <= Parent(c) && !(up && c == i) && !(down && Parent(c) == i) ==> Edge(s, c)
  }

  /** What is below `i` is in order with what is above it. */
  ghost predicate Bridged(s: seq<Entry>, lo: nat, n: nat, i: nat)
    requires n <= |s|
  {
    forall c: nat {:trigger Parent(c)} :: 0 < c < n && 0 < Parent(c) == i && lo <= Parent(i) ==> Ordered(s[Parent(i)], s[c])
  }

  function Swapped(s: seq<Entry>, i: nat, j: nat): (r: seq<Entry>)
    requires i < |s| && j < |s|
    ensures |r| == |s| && multiset(r) == multiset(s)
  {
    s[i := s[j]][j := s[i]]
  }

  /** The root comes first. */
  lemma {:induction false} RootFirst(s: seq<Entry>, i: nat)
    requires IsHeap(s) && i < |s|
    ensures Ordered(s[0], s[i])
  {
    if i > 0 {
      assert Edge(s, i);
      RootFirst(s, Parent(i));
    }
  }

  class Queue {
    var s: seq<Entry>

    constructor (s: seq<Entry>)
      ensures this.s == s
    {
      this.s := s;
    }

    method Swap(i: nat, j: nat)
      requires i < |s| && j < |s|
      modifies this
      ensures s == Swapped(old(s), i, j)
    {
      s := s[i := s[j]][j := s[i]];
    }

    /** The child to compare with: the first of the two. */
    method FirstChild(i: nat, n: nat) returns (j: nat)
      requires 2 * i + 1 < n <= |s|
      ensures 0 < j < n && Parent(j) == i && forall c: nat {:trigger Parent(c)} :: 0 < c < n && Parent(c) == i ==> Ordered(s[j], s[c])
    {
      j := 2 * i + 1;
      if j + 1 < n && Less(s[j + 1], s[j]) { j := j + 1; }
    }

    /** Sifts the element at `start` down among the first `n`. */
    method Down(start: nat, n: nat, ghost lo: nat) returns (moved: bool)
      requires lo <= start < n <= |s| && HeapExcept(s, lo, n, start, true, true) && Bridged(s, lo, n, start)
      modifies this
      ensures |s| == |old(s)| && multiset(s) == multiset(old(s)) && s[n..] == old(s)[n..]
      ensures moved ==> HeapFrom(s, lo, n)
      ensures !moved ==> s == old(s) && HeapExcept(s, lo, n, start, true, false)
    {
      var i: nat := start;
      while 2 * i + 1 < n
        invariant start <= i < n && |s| == |old(s)| && multiset(s) == multiset(old(s)) && s[n..] == old(s)[n..]
        invariant i == start ==> s == old(s)
        invariant HeapExcept(s, lo, n, i, i == start, true) && Bridged(s, lo, n, i)
        decreases n - i
      {
        var j := FirstChild(i, n);
        if !Less(s[j], s[i]) {
          Settled(s, lo, n, i, j, i == start);
          return i > start;
        }
        SiftStep(s, lo, n, i, j);
        Swap(i, j);
        i := j;
      }
      return i > start;
    }

    /** Sifts the element at `start` up. */
    method Up(start: nat)
      requires start < |s| && HeapExcept(s, 0, |s|, start, true, false) && Bridged(s, 0, |s|, start)
      modifies this
      ensures multiset(s) == multiset(old(s)) && IsHeap(s)
    {
      var j: nat := start;
      while j > 0 && Less(s[j], s[Parent(j)])
        invariant 0 <= j < |s| == |old(s)| && multiset(s) == multiset(old(s))
        invariant HeapExcept(s, 0, |s|, j, true, false) && Bridged(s, 0, |s|, j)
      {
        RiseStep(s, j);
        var i := Parent(j);
        Swap(i, j);
        j := i;
      }
    }

    /** heap.Init. */
    method Init()
      modifies this
      ensures multiset(s) == multiset(old(s)) && IsHeap(s)
    {
      var i := |s| / 2;
      while i > 0
        invariant 0 <= i <= |s| / 2 && |s| == |old(s)| && multiset(s) == multiset(old(s)) && HeapFrom(s, i, |s|)
      {
        i := i - 1;
        var _ := Down(i, |s|, i);
      }
    }

    /** heap.Push. */
    method Push(e: Entry)
      requires IsHeap(s)
      modifies this
      ensures IsHeap(s) && multiset(s) == multiset(old(s)) + multiset{e}
    {
      s := s + [e];
      forall c: nat | 0 < c < |old(s)| ensures Edge(s, c) { assert Edge(old(s), c); }
      Up(|s| - 1);
    }

    /** heap.Pop: the first entry. */
    method Pop() returns (e: Entry)
      requires IsHeap(s) && s != []
      modifies this
      ensures IsHeap(s) && e == old(s)[0] && multiset(old(s)) == multiset(s) + multiset{e}
      ensures forall i :: 0 <= i < |old(s)| ==> Ordered(e, old(s)[i])
    {
      var n := |s| - 1;
      ghost var was := s;
      forall i | 0 <= i < |s| ensures Ordered(s[0], s[i]) { RootFirst(s, i); }
      Swap(0, n);
      LastToRoot(was, n);
      if n > 0 { var _ := Down(0, n, 0); }
      e := s[n];
      assert s == s[..n] + [e];
      Prefix(s, n);
      s := s[..n];
    }

    /** heap.Fix after the element at `i` was replaced in a heap. */
    method Fix(i: nat)
      requires i < |s| && HeapExcept(s, 0, |s|, i, true, true) && Bridged(s, 0, |s|, i)
      modifies this
      ensures multiset(s) == multiset(old(s)) && IsHeap(s)
    {
      var moved := Down(i, |s|, 0);
      if !moved { Up(i); }
    }

    /** Removes the element at `i`: the last one takes its place. */
    method Remove(i: nat)
      requires IsHeap(s) && i < |s|
      modifies this
      ensures IsHeap(s) && multiset(old(s)) == multiset(s) + multiset{old(s)[i]}
    {
      var last, was := |s| - 1, s;
      Removal(was, i);
      if i != last {
        s := s[i := s[last]];
        s := s[..last];
        Fix(i);
      } else {
        s := s[..last];
      }
    }
  }

  /** The last element in place of the first. */
  lemma LastToRoot(s: seq<Entry>, n: nat)
    requires IsHeap(s) && n + 1 == |s|
    ensures var t := Swapped(s, 0, n); t[n] == s[0] && HeapExcept(t, 0, n, 0, true, true) && Bridged(t, 0, n, 0)
  {
    var t := Swapped(s, 0, n);
    forall c: nat | 0 < c < n && Parent(c) != 0 ensures Edge(t, c) { assert Edge(s, c); }
  }

  lemma Prefix(s: seq<Entry>, n: nat)
    requires n <= |s| && HeapFrom(s, 0, n)
    ensures IsHeap(s[..n])
  {
    forall c: nat | 0 < c < n ensures Edge(s[..n], c) { assert Edge(s, c); }
  }

  /** One step down: the first of the children takes the place of the element. */
  lemma SiftStep(s: seq<Entry>, lo: nat, n: nat, i: nat, j: nat)
    requires lo <= i < n <= |s| && 0 < j < n && Parent(j) == i && Less(s[j], s[i])
    requires forall c: nat {:trigger Parent(c)} :: 0 < c < n && Parent(c) == i ==> Ordered(s[j], s[c])
    requires HeapExcept(s, lo, n, i, true, true) && Bridged(s, lo, n, i)
    ensures var t := Swapped(s, i, j); HeapExcept(t, lo, n, j, false, true) && Bridged(t, lo, n, j)
  {
    var t := Swapped(s, i, j);
    forall c: nat | 0 < c < n && lo <= Parent(c) && Parent(c) != j ensures Edge(t, c) {
      if c != j && c != i && Parent(c) != i { assert Edge(s, c); }
    }
    forall c: nat | 0 < c < n && 0 < Parent(c) == j && lo <= Parent(j) ensures Ordered(t[Parent(j)], t[c]) { assert Edge(s, c); }
  }

  /** No child comes before the element. */
  lemma Settled(s: seq<Entry>, lo: nat, n: nat, i: nat, j: nat, up: bool)
    requires i < n <= |s| && 0 < j < n && Parent(j) == i && !Less(s[j], s[i]) && HeapExcept(s, lo, n, i, up, true)
    requires forall c: nat {:trigger Parent(c)} :: 0 < c < n && Parent(c) == i ==> Ordered(s[j], s[c])
    ensures HeapExcept(s, lo, n, i, up, false)
  {
    forall c: nat | 0 < c < n && lo <= Parent(c) && !(up && c == i) ensures Edge(s, c) {
      if Parent(c) == i { Transitive(s[i], s[j], s[c]); }
    }
  }

  lemma Transitive(a: Entry, b: Entry, c: Entry)
    requires Ordered(a, b) && Ordered(b, c)
    ensures Ordered(a, c)
  {
  }

  /** One step up. */
  lemma RiseStep(s: seq<Entry>, j: nat)
    requires 0 < j < |s| && Less(s[j], s[Parent(j)]) && HeapExcept(s, 0, |s|, j, true, false) && Bridged(s, 0, |s|, j)
    ensures var t := Swapped(s, Parent(j), j); HeapExcept(t, 0, |t|, Parent(j), true, false) && Bridged(t, 0, |t|, Parent(j))
  {
    var p := Parent(j);
    var t := Swapped(s, p, j);
    forall c: nat | 0 < c < |t| && c != p ensures Edge(t, c) {
      if c != j {
        assert Edge(s, c);
        if Parent(c) == p { Transitive(s[j], s[p], s[c]); }
      }
    }
    forall c: nat | 0 < c < |t| && 0 < Parent(c) == p ensures Ordered(t[Parent(p)], t[c]) {
      assert Edge(s, p);
      if c != j {
        assert Edge(s, c);
        Transitive(s[Parent(p)], s[p], s[c]);
      }
    }
  }

  /** A heap with its last element moved to `i` is a heap but for the edges at `i`. */
  lemma Removal(s: seq<Entry>, i: nat)
    requires IsHeap(s) && i < |s|
    ensures var n := |s| - 1; var t := if i == n then s[..n] else s[i := s[n]][..n];
      && multiset(s) == multiset(t) + multiset{s[i]}
      && (i == n ==> IsHeap(t))
      && (i < n ==> HeapExcept(t, 0, n, i, true, true) && Bridged(t, 0, n, i))
  {
    var n := |s| - 1;
    assert s == s[..n] + [s[n]];
    var t := if i == n then s[..n] else s[i := s[n]][..n];
    if i < n { assert s[..n][i := s[n]] == t; }
    forall c: nat | 0 < c < n && c != i && Parent(c) != i ensures Edge(t, c) { assert Edge(s, c); }
    if i < n {
      forall c: nat | 0 < c < n && 0 < Parent(c) == i ensures Ordered(t[Parent(i)], t[c]) {
        assert Edge(s, c) && Edge(s, i);
        Transitive(s[Parent(i)], s[i], s[c]);
      }
    } else {
      forall c: nat | 0 < c < n ensures Edge(t, c) { assert Edge(s, c); }
    }
  }
}
