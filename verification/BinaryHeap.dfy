/**
 Go's `container/heap` on a slice, as the nonce heap and the price heap use it.

 The order is lexicographic on a pair of integers computed by `key`: nonces use
 one component, the price heap sorts by price and then by descending nonce. A heap
 is a sequence in which no element sorts before its parent, the parent of position
 `k` being `(k - 1) / 2`. Every operation returns the new slice.
 */
module BinaryHeap {

  type Key = (int, int)

  predicate Less(a: Key, b: Key) {
    a.0 < b.0 || (a.0 == b.0 && a.1 < b.1)
  }

  function Parent(k: nat): (p: nat)
    requires 0 < k
    ensures k == 2 * p + 1 || k == 2 * p + 2
  {
    (k - 1) / 2
  }

  /** Position `k` does not sort before its parent. */
  predicate Above<T>(key: T -> Key, h: seq<T>, k: nat)
    requires k < |h|
  {
    k == 0 || !Less(key(h[k]), key(h[Parent(k)]))
  }

  /** Heap order for every position below `n` whose parent is at `lo` or later. */
  ghost predicate Ordered<T>(key: T -> Key, h: seq<T>, lo: nat, n: nat)
    requires n <= |h|
  {
    forall k {:trigger Above(key, h, k)} | 0 < k < n && lo <= Parent(k) :: Above(key, h, k)
  }

  ghost predicate IsHeap<T>(key: T -> Key, h: seq<T>) {
    forall k | 0 <= k < |h| :: Above(key, h, k)
  }

  /** The root is a minimum: nothing in the heap sorts before it. */
  lemma {:induction false} RootIsMinimum<T>(key: T -> Key, h: seq<T>, k: nat)
    requires IsHeap(key, h) && k < |h|
    ensures !Less(key(h[k]), key(h[0]))
  {
    if k > 0 {
      RootIsMinimum(key, h, Parent(k));
      assert Above(key, h, k);
    }
  }

  function Swap<T>(h: seq<T>, i: nat, j: nat): (r: seq<T>)
    requires i < |h| && j < |h|
    ensures |r| == |h| && r[i] == h[j] && r[j] == h[i]
    ensures forall k | 0 <= k < |h| && k != i && k != j :: r[k] == h[k]
    ensures multiset(r) == multiset(h)
  {
    h[i := h[j]][j := h[i]]
  }

  /** Heap order everywhere but at `j`, whose children also respect `j`'s parent. */
  ghost predicate Rising<T>(key: T -> Key, h: seq<T>, j: nat) {
    && j < |h|
    && (forall k | 0 <= k < |h| && k != j :: Above(key, h, k))
    && (j > 0 ==> forall k | 0 < k < |h| && Parent(k) == j :: !Less(key(h[k]), key(h[Parent(j)])))
  }

  lemma RisingStep<T>(key: T -> Key, h: seq<T>, j: nat)
    requires Rising(key, h, j) && j > 0 && Less(key(h[j]), key(h[Parent(j)]))
    ensures Rising(key, Swap(h, Parent(j), j), Parent(j))
  {
    var i := Parent(j);
    var r := Swap(h, i, j);
    forall k | 0 <= k < |r| && k != i
      ensures Above(key, r, k)
    {
      if k != j && k > 0 {
        assert Above(key, h, k);
      }
    }
    if i > 0 {
      assert Above(key, h, i);
      forall k | 0 < k < |r| && Parent(k) == i
        ensures !Less(key(r[k]), key(r[Parent(i)]))
      {
        if k != j {
          assert Above(key, h, k);
        }
      }
    }
  }

  /** `heap.up`: moves position `start` towards the root. */
  method Up<T>(key: T -> Key, h0: seq<T>, start: nat) returns (h: seq<T>)
    requires Rising(key, h0, start)
    ensures IsHeap(key, h) && |h| == |h0| && multiset(h) == multiset(h0)
  {
    h := h0;
    var j := start;
    while j > 0 && Less(key(h[j]), key(h[Parent(j)]))
      invariant |h| == |h0| && multiset(h) == multiset(h0) && Rising(key, h, j)
      decreases j
    {
      RisingStep(key, h, j);
      h, j := Swap(h, Parent(j), j), Parent(j);
    }
    assert Above(key, h, j);
  }

  /** Heap order from `lo` up to `n` everywhere but below `i`, whose children respect `i`'s parent. */
  ghost predicate Sinking<T>(key: T -> Key, h: seq<T>, lo: nat, i: nat, n: nat) {
    && lo <= i && n <= |h| && (i > lo ==> i < n && lo <= Parent(i))
    && (forall k {:trigger Above(key, h, k)} | 0 < k < n && lo <= Parent(k) && Parent(k) != i :: Above(key, h, k))
    && (i > lo ==> forall k | 0 < k < n && Parent(k) == i :: !Less(key(h[k]), key(h[Parent(i)])))
  }

  /** `k` is not in the subtree of `start` within the first `n` positions. */
  predicate Outside(k: nat, start: nat, n: nat) {
    k < start || n <= k || (k > start && Parent(k) < start)
  }

  ghost predicate SameOutside<T>(h: seq<T>, h0: seq<T>, start: nat, n: nat) {
    |h| == |h0| && forall k | 0 <= k < |h| && Outside(k, start, n) :: h[k] == h0[k]
  }

  lemma SinkingStep<T>(key: T -> Key, h: seq<T>, lo: nat, i: nat, n: nat, j: nat, h0: seq<T>)
    requires Sinking(key, h, lo, i, n) && 0 < j < n && Parent(j) == i && Less(key(h[j]), key(h[i]))
    requires forall k | 0 < k < n && Parent(k) == i :: !Less(key(h[k]), key(h[j]))
    ensures Sinking(key, Swap(h, i, j), lo, j, n)
    ensures SameOutside(h, h0, lo, n) ==> SameOutside(Swap(h, i, j), h0, lo, n)
  {
    var r := Swap(h, i, j);
    forall k | 0 < k < n && lo <= Parent(k) && Parent(k) != j
      ensures Above(key, r, k)
    {
      if Parent(k) != i {
        assert Above(key, h, k);
      }
    }
    forall k | 0 < k < n && Parent(k) == j
      ensures !Less(key(r[k]), key(r[Parent(j)]))
    {
      assert Above(key, h, k);
    }
  }

  /** `heap.down` on the first `n` positions; `last` is where the element came to rest. */
  method Down<T>(key: T -> Key, h0: seq<T>, start: nat, n: nat) returns (h: seq<T>, last: nat)
    requires start < n <= |h0| && Ordered(key, h0, start + 1, n)
    ensures multiset(h) == multiset(h0)
    ensures SameOutside(h, h0, start, n) && Ordered(key, h, start, n)
    ensures start <= last && (last == start ==> h == h0)
    ensures last > start ==> exists c | 0 < c < n :: Parent(c) == start && h[start] == h0[c]
  {
    h := h0;
    last := start;
    ghost var child := 0;
    while 2 * last + 1 < n
      invariant Sinking(key, h, start, last, n)
      invariant multiset(h) == multiset(h0)
      invariant SameOutside(h, h0, start, n)
      invariant last == start ==> h == h0
      invariant last > start ==> 0 < child < n && Parent(child) == start && h[start] == h0[child]
      decreases n - last
    {
      var j := 2 * last + 1;
      if j + 1 < n && Less(key(h[j + 1]), key(h[j])) {
        j := j + 1;
      }
      if !Less(key(h[j]), key(h[last])) {
        break;
      }
      SinkingStep(key, h, start, last, n, j, h0);
      child := if last == start then j else child;
      h, last := Swap(h, last, j), j;
    }
  }

  /** `heap.Push`. */
  method Push<T>(key: T -> Key, h0: seq<T>, x: T) returns (h: seq<T>)
    requires IsHeap(key, h0)
    ensures IsHeap(key, h) && |h| == |h0| + 1
    ensures multiset(h) == multiset(h0) + multiset{x}
  {
    var g := h0 + [x];
    assert forall k | 0 <= k < |h0| :: Above(key, h0, k) ==> Above(key, g, k);
    h := Up(key, g, |h0|);
  }

  /** The first half of `heap.Remove`: the element trades places with the last, which sinks. */
  method SinkLast<T>(key: T -> Key, h0: seq<T>, i: nat) returns (g: seq<T>, last: nat)
    requires IsHeap(key, h0) && i < |h0| - 1
    ensures |g| == |h0| && multiset(g) == multiset(h0) && g[|h0| - 1] == h0[i] && i <= last
    ensures if last == i then Rising(key, g[..|h0| - 1], i) else IsHeap(key, g[..|h0| - 1])
  {
    RemoveSetup(key, h0, i);
    g, last := Down(key, Swap(h0, i, |h0| - 1), i, |h0| - 1);
    RemoveSettled(key, h0, g, i, last);
  }

  /** `heap.Remove`: takes out the element at position `i`. */
  method Remove<T>(key: T -> Key, h0: seq<T>, i: nat) returns (h: seq<T>)
    requires IsHeap(key, h0) && i < |h0|
    ensures IsHeap(key, h) && |h| == |h0| - 1
    ensures multiset(h) == multiset(h0) - multiset{h0[i]}
  {
    var n := |h0| - 1;
    if i == n {
      PrefixIsHeap(key, h0, n);
      DropLast(h0);
      return h0[..n];
    }
    var g, last := SinkLast(key, h0, i);
    DropLast(g);
    h := g[..n];
    if last == i {
      h := Up(key, h, i);
    }
  }

  lemma PrefixIsHeap<T>(key: T -> Key, h: seq<T>, n: nat)
    requires IsHeap(key, h) && n <= |h|
    ensures IsHeap(key, h[..n])
  {
    forall k | 0 <= k < n
      ensures Above(key, h[..n], k)
    {
      assert Above(key, h, k);
    }
  }

  lemma DropLast<T>(g: seq<T>)
    requires g != []
    ensures var n := |g| - 1; multiset(g[..n]) == multiset(g) - multiset{g[n]}
  {
    assert g == g[..|g| - 1] + [g[|g| - 1]];
  }

  /** `heap.Pop`: takes out the root. */
  method Pop<T>(key: T -> Key, h0: seq<T>) returns (x: T, h: seq<T>)
    requires IsHeap(key, h0) && h0 != []
    ensures x == h0[0] && IsHeap(key, h) && |h| == |h0| - 1
    ensures multiset(h) == multiset(h0) - multiset{x}
    ensures forall y | y in h0 :: !Less(key(y), key(x))
  {
    x := h0[0];
    forall y | y in h0
      ensures !Less(key(y), key(x))
    {
      var k :| 0 <= k < |h0| && h0[k] == y;
      RootIsMinimum(key, h0, k);
    }
    h := Remove(key, h0, 0);
  }

  /** `heap.Init`: establishes heap order on an arbitrary slice. */
  method Init<T>(key: T -> Key, h0: seq<T>) returns (h: seq<T>)
    ensures IsHeap(key, h) && |h| == |h0| && multiset(h) == multiset(h0)
  {
    h := h0;
    var i := |h| / 2;
    while i > 0
      invariant 0 <= i <= |h| == |h0| && multiset(h) == multiset(h0)
      invariant Ordered(key, h, i, |h|)
    {
      i := i - 1;
      var last;
      h, last := Down(key, h, i, |h|);
    }
  }

  lemma RemoveSetup<T>(key: T -> Key, h: seq<T>, i: nat)
    requires IsHeap(key, h) && i < |h| - 1
    ensures Ordered(key, Swap(h, i, |h| - 1), i + 1, |h| - 1)
  {
    var n := |h| - 1;
    var g := Swap(h, i, n);
    forall k | 0 < k < n && i + 1 <= Parent(k)
      ensures Above(key, g, k)
    {
      assert Above(key, h, k);
    }
  }

  lemma RemoveRising<T>(key: T -> Key, h: seq<T>, i: nat)
    requires IsHeap(key, h) && i < |h| - 1 && Ordered(key, Swap(h, i, |h| - 1), i, |h| - 1)
    ensures Rising(key, Swap(h, i, |h| - 1)[..|h| - 1], i)
  {
    var n := |h| - 1;
    var g := Swap(h, i, n);
    var f := g[..n];
    forall k | 0 <= k < n && k != i
      ensures Above(key, f, k)
    {
      assert Above(key, h, k) && (k > 0 && Parent(k) == i ==> Above(key, g, k));
    }
    forall k | i > 0 && 0 < k < n && Parent(k) == i
      ensures !Less(key(f[k]), key(f[Parent(i)]))
    {
      assert Above(key, h, k) && Above(key, h, i);
    }
  }

  lemma RemoveSettled<T>(key: T -> Key, h: seq<T>, g: seq<T>, i: nat, last: nat)
    requires IsHeap(key, h) && i < |h| - 1 && |g| == |h|
    requires SameOutside(g, Swap(h, i, |h| - 1), i, |h| - 1) && Ordered(key, g, i, |h| - 1)
    requires last == i ==> g == Swap(h, i, |h| - 1)
    requires last > i ==> exists c | 0 < c < |h| - 1 :: Parent(c) == i && g[i] == Swap(h, i, |h| - 1)[c]
    ensures g[|h| - 1] == h[i]
    ensures last == i ==> Rising(key, g[..|h| - 1], i)
    ensures last > i ==> IsHeap(key, g[..|h| - 1])
  {
    var n := |h| - 1;
    assert Outside(n, i, n);
    if last == i {
      RemoveRising(key, h, i);
    }
    if last > i {
      var c :| 0 < c < n && Parent(c) == i && g[i] == Swap(h, i, n)[c];
      forall k | 0 <= k < n
        ensures Above(key, g[..n], k)
      {
        assert Above(key, h, k);
        assert k < i ==> Outside(k, i, n);
        if k == i && i > 0 {
          assert Outside(Parent(i), i, n);
          assert Above(key, h, c);
        } else if k > 0 && i <= Parent(k) {
          assert Above(key, g, k);
        }
      }
    }
  }
}
