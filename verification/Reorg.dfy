/** Reorganisation of the canonical chain (core/blockchain.go): number index and transaction lookup. */
module Reorgs {
  import opened BlockTree
  import opened HeaderChains

  type TxHash = nat
  type Lookup = map<TxHash, nat>

  /** The head of the chain, the number index and the transaction lookup, which maps to block numbers. */
  datatype Chain = Chain(current: Hash, index: Index, lookup: Lookup)

  /** `t` is in the block with number `n` on the path that ends in `head`. */
  predicate OnPath(tree: Tree, head: Hash, t: TxHash, n: nat) {
    head in tree && n <= tree[head].number && At(tree, head, n) in tree && t in tree[At(tree, head, n)].txs
  }

  /** A transaction occurs in at most one block of the path. */
  ghost predicate Once(tree: Tree, head: Hash) {
    forall t, m, n {:trigger OnPath(tree, head, t, m), OnPath(tree, head, t, n)} ::
      OnPath(tree, head, t, m) && OnPath(tree, head, t, n) ==> m == n
  }

  /** `t` is looked up exactly if it is on the path up to number `k`, and then to the block that holds it. */
  ghost predicate LooksUp(tree: Tree, lookup: Lookup, head: Hash, k: nat, t: TxHash) {
    if t in lookup then lookup[t] <= k && OnPath(tree, head, t, lookup[t])
    else forall n: nat {:trigger OnPath(tree, head, t, n)} | n <= k :: !OnPath(tree, head, t, n)
  }

  ghost predicate LookupTo(tree: Tree, lookup: Lookup, head: Hash, k: nat) {
    forall t {:trigger LooksUp(tree, lookup, head, k, t)} :: LooksUp(tree, lookup, head, k, t)
  }

  /** The lookup holds exactly the transactions of the path that ends in `head`. */
  ghost predicate LookupOf(tree: Tree, lookup: Lookup, head: Hash) {
    head in tree && LookupTo(tree, lookup, head, tree[head].number)
  }

  predicate InPlace(tree: Tree, head: Hash, b: Block) {
    At(tree, head, b.number) in tree && b == tree[At(tree, head, b.number)]
  }

  /** `chain` lists the blocks of `head`'s path from number `from` down to just above `to`. */
  ghost predicate Segment(tree: Tree, head: Hash, chain: seq<Block>, from: nat, to: nat) {
    && head in tree && to <= from <= tree[head].number && |chain| == from - to
    && forall i | 0 <= i < |chain| :: chain[i].number == from - i && InPlace(tree, head, chain[i])
  }

  lemma SegmentMore(tree: Tree, genesis: Hash, head: Hash, chain: seq<Block>, from: nat, to: nat)
    requires Closed(tree, genesis) && Segment(tree, head, chain, from, to) && to > 0
    ensures var h := At(tree, head, to);
            && h in tree && Segment(tree, head, chain + [tree[h]], from, to - 1)
            && tree[h].parent == At(tree, head, to - 1)
  {
    AtFacts(tree, genesis, head, to);
    AtParent(tree, genesis, head, to - 1);
  }

  /** Walks one chain down from its head to number `to`. */
  method WalkTo(tree: Tree, ghost genesis: Hash, head: Hash, to: nat) returns (h: Hash, chain: seq<Block>)
    requires Closed(tree, genesis) && head in tree && to <= tree[head].number
    ensures h == At(tree, head, to) && h in tree && tree[h].number == to
    ensures Segment(tree, head, chain, tree[head].number, to)
  {
    h, chain := head, [];
    AtFacts(tree, genesis, head, to);
    while tree[h].number != to
      invariant h in tree && to <= tree[h].number <= tree[head].number && h == At(tree, head, tree[h].number)
      invariant Segment(tree, head, chain, tree[head].number, tree[h].number)
      decreases tree[h].number
    {
      SegmentMore(tree, genesis, head, chain, tree[head].number, tree[h].number);
      assert Linked(tree, genesis, h);
      chain, h := chain + [tree[h]], tree[h].parent;
    }
  }

  /** The two paths agree at number `c` and nowhere above. */
  ghost predicate HighestCommon(tree: Tree, x: Hash, y: Hash, c: nat) {
    && x in tree && y in tree && c <= tree[x].number && c <= tree[y].number && At(tree, x, c) == At(tree, y, c)
    && forall n | c < n <= tree[x].number && n <= tree[y].number :: At(tree, x, n) != At(tree, y, n)
  }

  /** Below the highest common block the paths are one. */
  lemma CommonBelow(tree: Tree, genesis: Hash, x: Hash, y: Hash, c: nat, n: nat)
    requires Closed(tree, genesis) && HighestCommon(tree, x, y, c) && n <= c
    ensures At(tree, x, n) == At(tree, y, n)
  {
    AtAt(tree, genesis, x, c, n);
    AtAt(tree, genesis, y, c, n);
  }

  /** Any two stored blocks have a highest common ancestor: the genesis, if no other. */
  lemma CommonExists(tree: Tree, genesis: Hash, x: Hash, y: Hash) returns (c: nat)
    requires Closed(tree, genesis) && x in tree && y in tree
    ensures HighestCommon(tree, x, y, c)
  {
    c := if tree[x].number < tree[y].number then tree[x].number else tree[y].number;
    while At(tree, x, c) != At(tree, y, c)
      invariant c <= tree[x].number && c <= tree[y].number
      invariant forall n | c < n <= tree[x].number && n <= tree[y].number :: At(tree, x, n) != At(tree, y, n)
      decreases c
    {
      AtFacts(tree, genesis, x, c);
      AtFacts(tree, genesis, y, c);
      c := c - 1;
    }
  }

  /** The first half of `reorg`: both branches, head first, down to the highest common block. */
  method FindCommon(tree: Tree, ghost genesis: Hash, x: Hash, y: Hash)
    returns (c: nat, oldChain: seq<Block>, newChain: seq<Block>)
    requires Closed(tree, genesis) && x in tree && y in tree
    ensures HighestCommon(tree, x, y, c)
    ensures Segment(tree, x, oldChain, tree[x].number, c) && Segment(tree, y, newChain, tree[y].number, c)
  {
    var h, g;
    c := if tree[x].number > tree[y].number then tree[y].number else tree[x].number;
    h, oldChain := WalkTo(tree, genesis, x, c);
    g, newChain := WalkTo(tree, genesis, y, c);
    while h != g
      invariant h in tree && g in tree && c <= tree[x].number && c <= tree[y].number
      invariant h == At(tree, x, c) && g == At(tree, y, c)
      invariant Segment(tree, x, oldChain, tree[x].number, c) && Segment(tree, y, newChain, tree[y].number, c)
      invariant forall n | c < n <= tree[x].number && n <= tree[y].number :: At(tree, x, n) != At(tree, y, n)
      decreases c
    {
      AtFacts(tree, genesis, x, c);
      AtFacts(tree, genesis, y, c);
      SegmentMore(tree, genesis, x, oldChain, tree[x].number, c);
      SegmentMore(tree, genesis, y, newChain, tree[y].number, c);
      AtFacts(tree, genesis, x, c - 1);
      AtFacts(tree, genesis, y, c - 1);
      oldChain, newChain := oldChain + [tree[h]], newChain + [tree[g]];
      h, g, c := tree[h].parent, tree[g].parent, c - 1;
    }
  }

  /** Entry `n` of an index that follows `head`'s path and, above `head`, the path of `tail`. */
  predicate Covers(tree: Tree, index: Index, head: Hash, tail: Hash, n: nat) {
    && head in tree && tail in tree && tree[head].number <= tree[tail].number
    && (n in index <==> n <= tree[tail].number)
    && (n in index ==> index[n] == At(tree, if n <= tree[head].number then head else tail, n))
  }

  /** Up to the head the index is the head's path; above it there may be stale entries, all on the path of `tail`. */
  ghost predicate Covering(tree: Tree, index: Index, head: Hash, tail: Hash) {
    && head in tree && tail in tree
    && forall n {:trigger Covers(tree, index, head, tail, n)} :: Covers(tree, index, head, tail, n)
  }

  /** Without stale entries such an index is canonical. */
  lemma CanonicalIff(tree: Tree, index: Index, head: Hash, tail: Hash)
    requires Covering(tree, index, head, tail)
    ensures Canonical(tree, index, head) <==> tree[tail].number == tree[head].number
  {
    var top := tree[tail].number;
    assert Covers(tree, index, head, tail, top);
    if top == tree[head].number {
      forall n: nat
        ensures Entry(tree, index, head, n)
      {
        assert Covers(tree, index, head, tail, n);
      }
    } else {
      assert !Entry(tree, index, head, top);
    }
  }

  /** And a canonical index is such an index, the head being its own tail. */
  lemma CanonicalCovers(tree: Tree, index: Index, head: Hash)
    requires Canonical(tree, index, head)
    ensures Covering(tree, index, head, head)
  {
    forall n: nat
      ensures Covers(tree, index, head, head, n)
    {
      assert Entry(tree, index, head, n);
    }
  }

  /** Entry `n` after the new branch has been written from above `c` up to `k`. */
  predicate Mixed(tree: Tree, index: Index, x: Hash, y: Hash, c: nat, k: nat, top: nat, n: nat) {
    x in tree && tree[x].number <= top &&
    if c < n <= k then n in index && index[n] == At(tree, y, n)
    else (n in index <==> n <= top) && (n <= tree[x].number ==> n in index && index[n] == At(tree, x, n))
  }

  ghost predicate Mixing(tree: Tree, index: Index, x: Hash, y: Hash, c: nat, k: nat, top: nat) {
    forall n {:trigger Mixed(tree, index, x, y, c, k, top, n)} :: Mixed(tree, index, x, y, c, k, top, n)
  }

  predicate SameAt(lookup: Lookup, lookup': Lookup, t: TxHash) {
    (t in lookup' <==> t in lookup) && (t in lookup ==> lookup'[t] == lookup[t])
  }

  /** Transaction `t`'s entry after the blocks of `y`'s path above `c` up to `k` have been looked up. */
  ghost predicate Noted(tree: Tree, lookup: Lookup, lookup': Lookup, y: Hash, c: nat, k: nat, t: TxHash) {
    && (forall n {:trigger OnPath(tree, y, t, n)} | c < n <= k && OnPath(tree, y, t, n) ::
          t in lookup' && lookup'[t] == n)
    && ((forall n {:trigger OnPath(tree, y, t, n)} | c < n <= k :: !OnPath(tree, y, t, n)) ==>
          SameAt(lookup, lookup', t))
  }

  ghost predicate Noting(tree: Tree, lookup: Lookup, lookup': Lookup, y: Hash, c: nat, k: nat) {
    forall t {:trigger Noted(tree, lookup, lookup', y, c, k, t)} :: Noted(tree, lookup, lookup', y, c, k, t)
  }

  /** `WriteTxLookupEntries`. */
  method WriteLookups(lookup: Lookup, b: Block) returns (r: Lookup)
    ensures forall t | t in b.txs :: t in r && r[t] == b.number
    ensures forall t | t !in b.txs :: SameAt(lookup, r, t)
  {
    r := lookup;
    for i := 0 to |b.txs|
      invariant forall j | 0 <= j < i :: b.txs[j] in r && r[b.txs[j]] == b.number
      invariant forall t | t !in b.txs :: SameAt(lookup, r, t)
    {
      r := r[b.txs[i] := b.number];
    }
  }

  lemma MixStep(tree: Tree, index: Index, x: Hash, y: Hash, c: nat, k: nat, m: nat, top: nat, b: Block)
    requires Mixing(tree, index, x, y, c, k, top) && m == k + 1 && c <= k && b.number == m && b.hash == At(tree, y, m)
    ensures Mixing(tree, index[b.number := b.hash], x, y, c, m, top)
  {
    var index' := index[b.number := b.hash];
    forall n
      ensures Mixed(tree, index', x, y, c, m, top, n)
    {
      assert Mixed(tree, index, x, y, c, k, top, n);
    }
  }

  lemma NoteStep(tree: Tree, before: Lookup, mid: Lookup, after: Lookup, y: Hash, c: nat, k: nat, m: nat, b: Block)
    requires Noting(tree, before, mid, y, c, k) && m == k + 1 && c <= k && Once(tree, y)
    requires y in tree && m <= tree[y].number && At(tree, y, m) in tree && tree[At(tree, y, m)] == b && b.number == m
    requires forall t | t in b.txs :: t in after && after[t] == m
    requires forall t | t !in b.txs :: SameAt(mid, after, t)
    ensures Noting(tree, before, after, y, c, m)
  {
    forall t
      ensures Noted(tree, before, after, y, c, m, t)
    {
      assert Noted(tree, before, mid, y, c, k, t);
      assert OnPath(tree, y, t, m) <==> t in b.txs;
      assert t !in b.txs ==> SameAt(mid, after, t);
    }
  }

  /** Inserts the new branch, lowest block first, except its head. */
  method InsertBranch(tree: Tree, ghost genesis: Hash, chain: Chain, newChain: seq<Block>, ghost y: Hash, ghost c: nat,
                      ghost tail: Hash, ghost top: nat)
    returns (r: Chain, ghost k: nat)
    requires Closed(tree, genesis) && Covering(tree, chain.index, chain.current, tail) && top == tree[tail].number
    requires Once(tree, y)
    requires y in tree && Segment(tree, y, newChain, tree[y].number, c)
    ensures k == if newChain == [] then c else tree[y].number - 1
    ensures Mixing(tree, r.index, chain.current, y, c, k, top) && Noting(tree, chain.lookup, r.lookup, y, c, k)
    ensures r.current in tree && if |newChain| >= 2 then tree[r.current].number == k else r.current == chain.current
  {
    r, k := chain, c;
    forall n
      ensures Mixed(tree, r.index, chain.current, y, c, c, top, n)
    {
      assert Covers(tree, chain.index, chain.current, tail, n);
    }
    forall t
      ensures Noted(tree, chain.lookup, r.lookup, y, c, c, t)
    {
    }
    var i := |newChain| - 1;
    while i >= 1
      invariant -1 <= i < |newChain| && (i >= 0 ==> k == tree[y].number - 1 - i) && (i < 0 ==> newChain == [])
      invariant c <= k && (newChain == [] ==> k == c)
      invariant Mixing(tree, r.index, chain.current, y, c, k, top) && Noting(tree, chain.lookup, r.lookup, y, c, k)
      invariant r.current in tree
      invariant if i + 1 < |newChain| then tree[r.current].number == k else r.current == chain.current
    {
      var b := newChain[i];
      ghost var m := k + 1;
      AtFacts(tree, genesis, y, m);
      assert tree[y].number - i == m;
      assert Linked(tree, genesis, At(tree, y, m));
      var lookup := WriteLookups(r.lookup, b);
      MixStep(tree, r.index, chain.current, y, c, k, m, top, b);
      NoteStep(tree, chain.lookup, r.lookup, lookup, y, c, k, m, b);
      r := Chain(b.hash, r.index[b.number := b.hash], lookup);
      i, k := i - 1, m;
    }
  }

  /** The transactions of a list of blocks. */
  function TxsOf(chain: seq<Block>): set<TxHash> {
    set b, t | b in chain && t in b.txs :: t
  }

  /** Entry `n` of an index that follows `head`'s path up to number `k` and ends there. */
  predicate Follows(tree: Tree, index: Index, head: Hash, k: nat, n: nat) {
    if n <= k then n in index && index[n] == At(tree, head, n) else n !in index
  }

  ghost predicate Following(tree: Tree, index: Index, head: Hash, k: nat) {
    forall n {:trigger Follows(tree, index, head, k, n)} :: Follows(tree, index, head, k, n)
  }

  /** Deleting above `k` leaves the new path if anything of the new branch was inserted below its head. */
  lemma CutIndex(tree: Tree, genesis: Hash, index: Index, r: Index, x: Hash, y: Hash, c: nat, k: nat, top: nat,
                 end: nat)
    requires Closed(tree, genesis) && Mixing(tree, index, x, y, c, k, top) && HighestCommon(tree, x, y, c) && c < k
    requires k + 1 <= end && end !in index
    requires forall n :: n in r <==> n in index && !(k + 1 <= n < end)
    requires forall n | n in r :: r[n] == index[n]
    ensures Following(tree, r, y, k)
  {
    assert Mixed(tree, index, x, y, c, k, top, end);
    forall n: nat
      ensures Follows(tree, r, y, k, n)
    {
      assert Mixed(tree, index, x, y, c, k, top, n);
      if n <= c {
        CommonBelow(tree, genesis, x, y, c, n);
      }
    }
  }

  /** With nothing of the new branch inserted, what is above the old head is deleted: older stale entries, if any. */
  lemma KeepIndex(tree: Tree, index: Index, r: Index, x: Hash, y: Hash, c: nat, top: nat, end: nat)
    requires Mixing(tree, index, x, y, c, c, top) && x in tree && tree[x].number + 1 <= end && end !in index
    requires forall n :: n in r <==> n in index && !(tree[x].number + 1 <= n < end)
    requires forall n | n in r :: r[n] == index[n]
    ensures Canonical(tree, r, x)
  {
    assert Mixed(tree, index, x, y, c, c, top, end);
    forall n: nat
      ensures Entry(tree, r, x, n)
    {
      assert Mixed(tree, index, x, y, c, c, top, n);
    }
  }

  /** The transactions in a segment are those on the path at its numbers. */
  lemma SegmentTxs(tree: Tree, head: Hash, chain: seq<Block>, from: nat, to: nat, t: TxHash)
    requires Segment(tree, head, chain, from, to)
    ensures t in TxsOf(chain) <==> exists n :: to < n <= from && OnPath(tree, head, t, n)
  {
    if t in TxsOf(chain) {
      var b :| b in chain && t in b.txs;
      var i :| 0 <= i < |chain| && chain[i] == b;
      assert OnPath(tree, head, t, from - i);
    }
    if n :| to < n <= from && OnPath(tree, head, t, n) {
      assert chain[from - n] in chain && t in chain[from - n].txs;
    }
  }

  /** Dropping the lookups of the old branch that the new one did not take over. */
  lemma CutLookup(tree: Tree, genesis: Hash, before: Lookup, mid: Lookup, x: Hash, y: Hash, c: nat, k: nat,
                  gone: set<TxHash>)
    requires Closed(tree, genesis) && HighestCommon(tree, x, y, c) && c <= k <= tree[y].number && Once(tree, x)
    requires Once(tree, y)
    requires LookupOf(tree, before, x) && Noting(tree, before, mid, y, c, k)
    requires forall t {:trigger t in gone} :: t in gone <==>
               && (exists n :: c < n <= tree[x].number && OnPath(tree, x, t, n))
               && !(exists n :: c < n <= k && OnPath(tree, y, t, n))
    ensures LookupTo(tree, mid - gone, y, k)
  {
    var after := mid - gone;
    forall t
      ensures LooksUp(tree, after, y, k, t)
    {
      assert Noted(tree, before, mid, y, c, k, t);
      assert LooksUp(tree, before, x, tree[x].number, t);
      forall n: nat | n <= c
        ensures OnPath(tree, x, t, n) <==> OnPath(tree, y, t, n)
      {
        CommonBelow(tree, genesis, x, y, c, n);
      }
      forall n: nat | n <= k && OnPath(tree, y, t, n)
        ensures t in after
      {
        if n <= c {
          assert OnPath(tree, x, t, n);
          assert forall m | c < m <= k :: !OnPath(tree, y, t, m);
          assert forall m | c < m <= tree[x].number :: !OnPath(tree, x, t, m);
        }
      }
    }
  }

  /** `reorg`: everything but the new head itself is in place when it returns. */
  method Reorg(tree: Tree, ghost genesis: Hash, chain: Chain, b: Block, ghost tail: Hash)
    returns (r: Chain, ghost c: nat, ghost k: nat)
    requires Closed(tree, genesis) && Covering(tree, chain.index, chain.current, tail)
    requires LookupOf(tree, chain.lookup, chain.current)
    requires b.hash in tree && tree[b.hash] == b && Once(tree, chain.current) && Once(tree, b.hash)
    ensures HighestCommon(tree, chain.current, b.hash, c) && k == if b.number == c then c else b.number - 1
    ensures c < k ==> Following(tree, r.index, b.hash, k)
    ensures c == k ==> Canonical(tree, r.index, chain.current)
    ensures LookupTo(tree, r.lookup, b.hash, k)
  {
    var common, oldChain, newChain := FindCommon(tree, genesis, chain.current, b.hash);
    c := common;
    ghost var top := tree[tail].number;
    r, k := InsertBranch(tree, genesis, chain, newChain, b.hash, c, tail, top);
    ghost var mid := r;
    var added := if newChain == [] then [] else newChain[1..];
    var gone := TxsOf(oldChain) - TxsOf(added);
    forall t
      ensures t in gone <==> (exists n :: c < n <= tree[chain.current].number && OnPath(tree, chain.current, t, n))
                             && !(exists n :: c < n <= k && OnPath(tree, b.hash, t, n))
    {
      SegmentTxs(tree, chain.current, oldChain, tree[chain.current].number, c, t);
      SegmentTxs(tree, b.hash, added, k, c, t);
    }
    CutLookup(tree, genesis, chain.lookup, r.lookup, chain.current, b.hash, c, k, gone);
    var index, end := DeleteAbove(r.index, tree[r.current].number + 1);
    if |newChain| >= 2 {
      CutIndex(tree, genesis, r.index, index, chain.current, b.hash, c, k, top, end);
    } else {
      KeepIndex(tree, r.index, index, chain.current, b.hash, c, top, end);
    }
    r := Chain(r.current, index, r.lookup - gone);
  }

  /**
   What a caller can check before making `b` the head. A block on top of the head must not find stale
   entries above itself; any other must not be lower than the head, or its parent must be off the index.
   */
  predicate BranchOk(tree: Tree, chain: Chain, b: Block)
    requires chain.current in tree && b.number > 0
  {
    if b.parent == chain.current then b.number + 1 !in chain.index
    else
      || b.number >= tree[chain.current].number
      || !(b.number - 1 in chain.index && chain.index[b.number - 1] == b.parent)
  }

  /** Which numbers above `b` are still in the index once it is the head. */
  predicate Stays(tree: Tree, chain: Chain, b: Block, n: nat)
    requires chain.current in tree && b.number > 0
  {
    if b.parent == chain.current then n in chain.index
    else n <= tree[chain.current].number && b.number - 1 in chain.index && chain.index[b.number - 1] == b.parent
  }

  /** Writing the head's own entries completes a lookup of the path below it. */
  lemma LookupHead(tree: Tree, lookup: Lookup, r: Lookup, b: Block, k: nat)
    requires b.hash in tree && tree[b.hash] == b && LookupTo(tree, lookup, b.hash, k) && Once(tree, b.hash)
    requires k == b.number || k + 1 == b.number
    requires forall t | t in b.txs :: t in r && r[t] == b.number
    requires forall t | t !in b.txs :: SameAt(lookup, r, t)
    ensures LookupOf(tree, r, b.hash)
  {
    forall t
      ensures LooksUp(tree, r, b.hash, b.number, t)
    {
      assert LooksUp(tree, lookup, b.hash, k, t);
      assert OnPath(tree, b.hash, t, b.number) <==> t in b.txs;
      assert t !in b.txs ==> SameAt(lookup, r, t);
    }
  }

  lemma IndexHead(tree: Tree, index: Index, b: Block, k: nat)
    requires b.hash in tree && tree[b.hash] == b && Following(tree, index, b.hash, k) && k + 1 == b.number
    ensures Covering(tree, index[b.number := b.hash], b.hash, b.hash)
  {
    var r := index[b.number := b.hash];
    forall n: nat
      ensures Covers(tree, r, b.hash, b.hash, n)
    {
      assert Follows(tree, index, b.hash, k, n);
    }
  }

  /** The block whose path the entries above `b` follow, if `x`'s did before; `b` itself when there are none. */
  function Tail(tree: Tree, x: Hash, b: Block): Hash {
    if x in tree && tree[x].number > b.number then x else b.hash
  }

  /** A one-block branch, or none, keeps the old index, whose end stays above the new head if the old one was higher. */
  lemma ShortBranch(tree: Tree, genesis: Hash, index: Index, x: Hash, b: Block, c: nat)
    requires Closed(tree, genesis) && b.hash in tree && tree[b.hash] == b && HighestCommon(tree, x, b.hash, c)
    requires Canonical(tree, index, x) && (b.number == c || b.number == c + 1)
    ensures Covering(tree, index[b.number := b.hash], b.hash, Tail(tree, x, b))
  {
    var r, tail := index[b.number := b.hash], Tail(tree, x, b);
    forall n: nat
      ensures Covers(tree, r, b.hash, tail, n)
    {
      assert Entry(tree, index, x, n);
      if n <= c {
        CommonBelow(tree, genesis, x, b.hash, c, n);
      }
    }
  }

  /** Extending the head is the case without a reorganisation: stale entries above it stay. */
  lemma Extend(tree: Tree, genesis: Hash, chain: Chain, b: Block, k: nat, tail: Hash)
    requires Closed(tree, genesis) && b.hash in tree && tree[b.hash] == b && b.number == k + 1
    requires b.parent == chain.current
    requires Covering(tree, chain.index, chain.current, tail) && LookupOf(tree, chain.lookup, chain.current)
    ensures tree[chain.current].number == k && LookupTo(tree, chain.lookup, b.hash, k)
    ensures Covering(tree, chain.index[b.number := b.hash], b.hash, Tail(tree, tail, b))
  {
    assert Linked(tree, genesis, b.hash);
    var index, end := chain.index[b.number := b.hash], Tail(tree, tail, b);
    forall n: nat
      ensures Covers(tree, index, b.hash, end, n)
    {
      assert Covers(tree, chain.index, chain.current, tail, n);
    }
    forall t
      ensures LooksUp(tree, chain.lookup, b.hash, k, t)
    {
      assert LooksUp(tree, chain.lookup, chain.current, k, t);
      assert forall n: nat | n <= k :: OnPath(tree, b.hash, t, n) <==> OnPath(tree, chain.current, t, n);
    }
  }

  /** Whose path the entries above `b` follow once it is the head. */
  ghost function TailAfter(tree: Tree, chain: Chain, b: Block, tail: Hash, c: nat): Hash {
    if b.parent == chain.current then Tail(tree, tail, b)
    else if b.number > c + 1 then b.hash else Tail(tree, chain.current, b)
  }

  /** The condition a caller can check says exactly whether the index then ends at the head. */
  lemma BranchCases(tree: Tree, genesis: Hash, chain: Chain, b: Block, c: nat, tail: Hash)
    requires Closed(tree, genesis) && b.hash in tree && tree[b.hash] == b && b.number > 0
    requires Covering(tree, chain.index, chain.current, tail) && HighestCommon(tree, chain.current, b.hash, c)
    ensures var after := TailAfter(tree, chain, b, tail, c);
            && after in tree && (BranchOk(tree, chain, b) <==> tree[after].number == b.number)
            && forall n | n > b.number :: n <= tree[after].number <==> Stays(tree, chain, b, n)
  {
    var after := TailAfter(tree, chain, b, tail, c);
    AtParent(tree, genesis, b.hash, b.number - 1);
    assert Covers(tree, chain.index, chain.current, tail, b.number - 1);
    assert Covers(tree, chain.index, chain.current, tail, b.number + 1);
    if b.number <= c + 1 && b.number < tree[chain.current].number {
      CommonBelow(tree, genesis, chain.current, b.hash, c, b.number - 1);
    }
    forall n: nat | n > b.number
      ensures n <= tree[after].number <==> Stays(tree, chain, b, n)
    {
      assert Covers(tree, chain.index, chain.current, tail, n);
    }
  }

  lemma CommonParent(tree: Tree, genesis: Hash, x: Hash, b: Block)
    requires Closed(tree, genesis) && b.hash in tree && tree[b.hash] == b && b.hash != genesis && b.parent == x
    ensures x in tree && HighestCommon(tree, x, b.hash, tree[x].number)
  {
    assert Linked(tree, genesis, b.hash);
    AtParent(tree, genesis, b.hash, tree[x].number);
  }

  /** The entries above `b` are those that were there before. */
  ghost predicate Unmoved(chain: Chain, r: Chain, b: Block) {
    forall n | n > b.number && n in r.index :: n in chain.index && r.index[n] == chain.index[n]
  }

  /** A reorganisation that keeps the old index keeps its values. */
  lemma KeptEntries(tree: Tree, chain: Chain, index: Index, tail: Hash, b: Block)
    requires Covering(tree, chain.index, chain.current, tail) && Canonical(tree, index, chain.current)
    ensures forall n | n > b.number && n in index :: n in chain.index && index[n] == chain.index[n]
  {
    forall n | n > b.number && n in index
      ensures n in chain.index && index[n] == chain.index[n]
    {
      assert Entry(tree, index, chain.current, n) && Covers(tree, chain.index, chain.current, tail, n);
    }
  }

  /**
   Making `b` the head: `reorg` unless it extends the head, then its lookups, then `insert`. The lookup
   always ends up right, and so does the number index up to the new head, stale entries or not; it ends
   there if and only if `BranchOk` held before, and what lies above it is unmoved.
   */
  method Adopt(tree: Tree, ghost genesis: Hash, chain: Chain, b: Block, ghost tail: Hash)
    returns (r: Chain, ghost tail': Hash)
    requires Closed(tree, genesis) && Covering(tree, chain.index, chain.current, tail)
    requires LookupOf(tree, chain.lookup, chain.current)
    requires b.hash in tree && tree[b.hash] == b && b.number > 0 && Once(tree, chain.current) && Once(tree, b.hash)
    ensures r.current == b.hash && LookupOf(tree, r.lookup, b.hash) && Covering(tree, r.index, b.hash, tail')
    ensures Canonical(tree, r.index, b.hash) <==> BranchOk(tree, chain, b)
    ensures (forall n | n > b.number :: n in r.index <==> Stays(tree, chain, b, n)) && Unmoved(chain, r, b)
  {
    r := chain;
    ghost var k, c := b.number - 1, b.number - 1;
    assert Linked(tree, genesis, b.hash);
    if b.parent != chain.current {
      r, c, k := Reorg(tree, genesis, chain, b, tail);
      if c < k {
        IndexHead(tree, r.index, b, k);
        assert forall n | n > b.number :: Follows(tree, r.index, b.hash, k, n) ==> n !in r.index;
      } else {
        ShortBranch(tree, genesis, r.index, chain.current, b, c);
        KeptEntries(tree, chain, r.index, tail, b);
      }
    } else {
      Extend(tree, genesis, chain, b, k, tail);
      CommonParent(tree, genesis, chain.current, b);
    }
    BranchCases(tree, genesis, chain, b, c, tail);
    tail' := TailAfter(tree, chain, b, tail, c);
    var lookup := WriteLookups(r.lookup, b);
    LookupHead(tree, r.lookup, lookup, b, k);
    r := Chain(b.hash, r.index[b.number := b.hash], lookup);
    CanonicalIff(tree, r.index, b.hash, tail');
    assert forall n: nat :: Covers(tree, r.index, b.hash, tail', n) ==> (n in r.index <==> n <= tree[tail'].number);
  }
}
