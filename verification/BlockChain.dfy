/** Block writes of core/blockchain.go: fork choice, reorganisation and trie garbage collection together. */
module BlockChains {
  import opened Values
  import opened BlockTree
  import opened HeaderChains
  import opened Reorgs
  import HeaderQueries
  import TrieGC

  predicate Fresh(tree: Tree, b: Block) {
    b.parent in tree ==> forall t, n: nat | t in b.txs && n <= tree[b.parent].number :: !OnPath(tree, b.parent, t, n)
  }

  ghost predicate OnceAt(tree: Tree, h: Hash) {
    h in tree ==> Once(tree, h)
  }

  /** No path of stored blocks contains a transaction twice. */
  ghost predicate AllOnce(tree: Tree) {
    forall h {:trigger OnceAt(tree, h)} :: OnceAt(tree, h)
  }

  lemma PathGrows(tree: Tree, genesis: Hash, b: Block, h: Hash, t: TxHash, n: nat)
    requires Closed(tree, genesis) && h in tree && (b.hash in tree ==> tree[b.hash] == b)
    ensures OnPath(tree[b.hash := b], h, t, n) <==> OnPath(tree, h, t, n)
  {
    AtGrows(tree, tree[b.hash := b], genesis, h, n);
    if n <= tree[h].number {
      AtFacts(tree, genesis, h, n);
    }
  }

  /** A block of fresh transactions keeps every path free of duplicates. */
  lemma OnceInsert(tree: Tree, genesis: Hash, b: Block)
    requires Closed(tree, genesis) && AllOnce(tree) && Fresh(tree, b)
    requires b.parent in tree && b.number == tree[b.parent].number + 1 && b.hash != EMPTY
    requires b.hash in tree ==> tree[b.hash] == b
    ensures AllOnce(tree[b.hash := b])
  {
    var tree' := tree[b.hash := b];
    ClosedInsert(tree, genesis, b);
    forall h: Hash
      ensures OnceAt(tree', h)
    {
      assert OnceAt(tree, h) && OnceAt(tree, b.parent);
      forall t, m: nat, n: nat | h in tree' && OnPath(tree', h, t, m) && OnPath(tree', h, t, n)
        ensures m == n
      {
        var g := if h in tree then h else b.parent;
        PathGrows(tree, genesis, b, g, t, m);
        PathGrows(tree, genesis, b, g, t, n);
      }
    }
  }

  /** Storing a block leaves the lookup of every other path right. */
  lemma LookupGrows(tree: Tree, genesis: Hash, lookup: Lookup, head: Hash, b: Block)
    requires Closed(tree, genesis) && LookupOf(tree, lookup, head) && (b.hash in tree ==> tree[b.hash] == b)
    ensures LookupOf(tree[b.hash := b], lookup, head)
  {
    var tree', k := tree[b.hash := b], tree[head].number;
    forall t: TxHash
      ensures LooksUp(tree', lookup, head, k, t)
    {
      assert LooksUp(tree, lookup, head, k, t);
      if t in lookup {
        PathGrows(tree, genesis, b, head, t, lookup[t]);
      }
      forall n: nat | n <= k
        ensures OnPath(tree', head, t, n) <==> OnPath(tree, head, t, n)
      {
        PathGrows(tree, genesis, b, head, t, n);
      }
    }
  }

  /** The fork choice: more work wins, then the lower block, then the miner's own block or the coin. */
  predicate Wins(mine: nat, theirs: nat, number: nat, height: nat, currentPreserve: bool, blockPreserve: bool,
                 coin: bool)
  {
    || mine > theirs
    || (mine == theirs && (number < height || (number == height && !currentPreserve && (blockPreserve || coin))))
  }

  datatype BlockStatus = Unknown | Canonised | Sidelined

  /** What a block write changes: the stored blocks and their total difficulties, the chain and the trie roots. */
  datatype Store = Store(blocks: Tree, td: map<Hash, nat>, chain: Chain, gc: TrieGC.Gc)

  /** Up to the head the number index is the head's path, and above it, if it goes on, that of some stored block. */
  ghost predicate Indexed(tree: Tree, chain: Chain) {
    exists tail :: Covering(tree, chain.index, chain.current, tail)
  }

  /**
   What every write keeps: total difficulties are the work along each path and the head has the most,
   the lookup holds exactly the transactions of the head's path, the number index is right up to the
   head, and trie references match their queue.
   */
  ghost predicate Sound(s: Store, genesis: Hash) {
    && Closed(s.blocks, genesis) && EMPTY !in s.blocks && s.chain.current in s.blocks && AllOnce(s.blocks)
    && Heaviest(s.blocks, s.td, s.chain.current) && LookupOf(s.blocks, s.chain.lookup, s.chain.current)
    && Indexed(s.blocks, s.chain) && TrieGC.Balanced(s.gc)
  }

  /** The number index has no entries above the head. */
  ghost predicate Clean(s: Store) {
    Canonical(s.blocks, s.chain.index, s.chain.current)
  }

  /** A block the consensus engine lets through: numbered after its parent, its transactions new to the path. */
  predicate Acceptable(tree: Tree, b: Block) {
    Verified(tree, b) && Fresh(tree, b)
  }

  lemma CoveringGrows(tree: Tree, genesis: Hash, index: Index, head: Hash, tail: Hash, b: Block)
    requires Closed(tree, genesis) && Covering(tree, index, head, tail) && (b.hash in tree ==> tree[b.hash] == b)
    ensures Covering(tree[b.hash := b], index, head, tail)
  {
    var tree' := tree[b.hash := b];
    forall n: nat
      ensures Covers(tree', index, head, tail, n)
    {
      assert Covers(tree, index, head, tail, n);
      AtGrows(tree, tree', genesis, head, n);
      AtGrows(tree, tree', genesis, tail, n);
    }
  }

  /** A block under a stored parent can be added as a side block. */
  lemma AddBlock(s: Store, genesis: Hash, b: Block, tail: Hash)
    requires Sound(s, genesis) && Covering(s.blocks, s.chain.index, s.chain.current, tail) && Acceptable(s.blocks, b)
    requires b.parent in s.blocks
    ensures var tree, head := s.blocks[b.hash := b], s.chain.current;
            && Closed(tree, genesis) && EMPTY !in tree && AllOnce(tree) && Covering(tree, s.chain.index, head, tail)
            && LookupOf(tree, s.chain.lookup, head) && Work(tree, head) == Work(s.blocks, head)
            && Work(tree, b.hash) == b.difficulty + Work(s.blocks, b.parent)
            && (Canonical(tree, s.chain.index, head) <==> Clean(s))
  {
    TreeGrows(s.blocks, genesis, b);
    CoveringGrows(s.blocks, genesis, s.chain.index, s.chain.current, tail, b);
    CanonicalIff(s.blocks, s.chain.index, s.chain.current, tail);
    CanonicalIff(s.blocks[b.hash := b], s.chain.index, s.chain.current, tail);
    OnceInsert(s.blocks, genesis, b);
    LookupGrows(s.blocks, genesis, s.chain.lookup, s.chain.current, b);
  }

  /** Whichever of the two heads is heavier is the heaviest. */
  lemma Weigh(s: Store, genesis: Hash, b: Block, weight: nat, top: Hash)
    requires Sound(s, genesis) && Acceptable(s.blocks, b) && b.parent in s.blocks
    requires weight == b.difficulty + Work(s.blocks, b.parent)
    requires if top == b.hash then weight >= Work(s.blocks, s.chain.current)
             else top == s.chain.current && weight <= Work(s.blocks, top)
    ensures Heaviest(s.blocks[b.hash := b], s.td[b.hash := weight], top)
  {
    TreeGrows(s.blocks, genesis, b);
    StillHeaviest(s.blocks, s.td, s.chain.current, b, weight, top);
  }

  /** `b` is the new head: its index is clean exactly if `BranchOk` held, and stale entries are as they were. */
  ghost predicate Headed(tree: Tree, before: Chain, after: Chain, b: Block) {
    && after.current == b.hash && b.number > 0 && before.current in tree
    && (Canonical(tree, after.index, b.hash) <==> BranchOk(tree, before, b))
    && (forall n | n > b.number :: n in after.index <==> Stays(tree, before, b, n)) && Unmoved(before, after, b)
  }

  /** An archive node keeps every root. */
  ghost predicate Collects(gc: TrieGC.Gc, q: TrieGC.Queued, archive: bool, r: TrieGC.Gc) {
    if archive then Is(r, gc) else exists dropped :: TrieGC.Collected(gc, q, r, dropped)
  }

  datatype BlockWrite = BlockWrite(block: Block, root: TrieGC.Root, currentPreserve: bool, blockPreserve: bool,
                                   coin: bool)

  /**
   What a write does besides keeping the store sound. A heavier block becomes the head; on a tie a lower
   one does, and at equal height the miner's own block or the coin decides. Stale index entries appear,
   stay or go exactly as `BranchOk` says, and those that stay are unmoved.
   */
  ghost predicate Written(s: Store, w: BlockWrite, archive: bool, r: Store, status: BlockStatus) {
    && (status == Unknown <==> w.block.parent !in s.blocks)
    && (status == Unknown ==> Is(r, s))
    && (status != Unknown ==>
          && Is(r.blocks, s.blocks[w.block.hash := w.block]) && s.chain.current in s.blocks
          && (status == Canonised <==>
                Wins(Work(r.blocks, w.block.hash), Work(r.blocks, s.chain.current), w.block.number,
                     r.blocks[s.chain.current].number, w.currentPreserve, w.blockPreserve, w.coin))
          && Collects(s.gc, TrieGC.Queued(w.root, w.block.number), archive, r.gc))
    && (status == Sidelined ==> Is(r.chain, s.chain) && (Clean(r) <==> Clean(s)))
    && (status == Canonised ==> Headed(r.blocks, s.chain, r.chain, w.block))
  }

  method ChooseFork(externTd: nat, localTd: nat, number: nat, height: nat, w: BlockWrite) returns (reorg: bool)
    ensures reorg <==> Wins(externTd, localTd, number, height, w.currentPreserve, w.blockPreserve, w.coin)
  {
    reorg := externTd > localTd;
    if !reorg && externTd == localTd {
      if number < height {
        reorg := true;
      } else if number == height {
        reorg := !w.currentPreserve && (w.blockPreserve || w.coin);
      }
    }
  }

  /** `b` becomes the head, or stays a side block. */
  method MoveHead(tree: Tree, ghost genesis: Hash, chain: Chain, b: Block, reorg: bool, ghost tail: Hash)
    returns (r: Chain)
    requires Closed(tree, genesis) && Covering(tree, chain.index, chain.current, tail)
    requires LookupOf(tree, chain.lookup, chain.current)
    requires b.hash in tree && tree[b.hash] == b && b.number > 0 && Once(tree, chain.current) && Once(tree, b.hash)
    ensures r.current in tree && LookupOf(tree, r.lookup, r.current) && Indexed(tree, r)
    ensures if reorg then Headed(tree, chain, r, b) else Is(r, chain)
  {
    r := chain;
    if reorg {
      ghost var tail';
      r, tail' := Adopt(tree, genesis, chain, b, tail);
    }
  }

  /** The trie roots after a write. */
  method CollectRoot(gc: TrieGC.Gc, q: TrieGC.Queued, archive: bool) returns (r: TrieGC.Gc)
    requires TrieGC.Balanced(gc)
    ensures TrieGC.Balanced(r) && Collects(gc, q, archive, r)
  {
    r := gc;
    if !archive {
      var dropped;
      r, dropped := TrieGC.WriteRoot(gc, q.root, q.number);
    }
  }

  /** `writeBlockWithState`, whether or not the index already holds stale entries. */
  method WriteBlock(s: Store, ghost genesis: Hash, w: BlockWrite, archive: bool) returns (r: Store, status: BlockStatus)
    requires Sound(s, genesis) && Acceptable(s.blocks, w.block)
    ensures Sound(r, genesis) && Written(s, w, archive, r, status)
  {
    var b, head := w.block, s.chain.current;
    assert Weighed(s.blocks, s.td, head, b.parent) && Weighed(s.blocks, s.td, head, head);
    if b.parent !in s.td {
      return s, Unknown;
    }
    ghost var tail :| Covering(s.blocks, s.chain.index, head, tail);
    var externTd, localTd := b.difficulty + s.td[b.parent], s.td[head];
    AddBlock(s, genesis, b, tail);
    var blocks, td := s.blocks[b.hash := b], s.td[b.hash := externTd];
    var gc := CollectRoot(s.gc, TrieGC.Queued(w.root, b.number), archive);
    var reorg := ChooseFork(externTd, localTd, b.number, blocks[head].number, w);
    Weigh(s, genesis, b, externTd, if reorg then b.hash else head);
    assert OnceAt(blocks, head) && OnceAt(blocks, b.hash);
    var chain := MoveHead(blocks, genesis, s.chain, b, reorg, tail);
    r, status := Store(blocks, td, chain, gc), if reorg then Canonised else Sidelined;
  }

  /** A write the consensus engine refuses does not happen. */
  ghost predicate Attempted(s: Store, w: BlockWrite, archive: bool, r: Store) {
    if Acceptable(s.blocks, w.block) then exists status :: Written(s, w, archive, r, status) else Is(r, s)
  }

  ghost function AttemptOf(archive: bool): (Store, BlockWrite, Store) -> bool {
    (s: Store, w: BlockWrite, r: Store) => Attempted(s, w, archive, r)
  }

  /** The stores a sequence of writes goes through. */
  ghost predicate Run(trace: seq<Store>, writes: seq<BlockWrite>, archive: bool) {
    Trace(AttemptOf(archive), trace, writes)
  }

  /**
   The fork choice of one write. More work takes the head and less does not. Of two blocks with equal
   work the lower is the head; of two at the same height a preserved head stays, a preserved newcomer
   displaces one that is not, and otherwise the coin alone decides.
   */
  ghost predicate Chosen(s: Store, w: BlockWrite, r: Store) {
    var b, head, next := w.block, s.chain.current, r.chain.current;
    if !Acceptable(s.blocks, b) || b.parent !in s.blocks then Is(r, s)
    else
      && Is(r.blocks, s.blocks[b.hash := b]) && head in s.blocks
      && var mine, theirs, height := Work(r.blocks, b.hash), Work(r.blocks, head), s.blocks[head].number;
      && (mine > theirs ==> next == b.hash)
      && (mine < theirs ==> next == head)
      && (mine == theirs && b.number < height ==> next == b.hash)
      && (mine == theirs && b.number > height ==> next == head)
      && (mine == theirs && b.number == height && w.currentPreserve ==> next == head)
      && (mine == theirs && b.number == height && !w.currentPreserve && w.blockPreserve ==> next == b.hash)
      && (mine == theirs && b.number == height && !w.currentPreserve && !w.blockPreserve ==>
            next == if w.coin then b.hash else head)
  }

  lemma WrittenChosen(s: Store, genesis: Hash, w: BlockWrite, archive: bool, r: Store)
    requires Sound(s, genesis) && Attempted(s, w, archive, r)
    ensures Chosen(s, w, r)
  {
    if Acceptable(s.blocks, w.block) {
      var status :| Written(s, w, archive, r, status);
    }
  }

  /** The head has more work, or as much and is no higher. */
  ghost predicate Ascends(s: Store, r: Store) {
    && s.chain.current in s.blocks && r.chain.current in r.blocks
    && var before, after := Work(s.blocks, s.chain.current), Work(r.blocks, r.chain.current);
    before < after
    || (before == after && r.blocks[r.chain.current].number <= s.blocks[s.chain.current].number)
  }

  /** The head is the same, or has more work, or as much and is lower. */
  ghost predicate Yields(s: Store, r: Store) {
    Ascends(s, r) && (Ascends(r, s) ==> r.chain.current == s.chain.current)
  }

  /** A write gives the head up only for more work, a lower block, or if it is not preserved. */
  lemma StepAscends(s: Store, genesis: Hash, w: BlockWrite, r: Store)
    requires Sound(s, genesis) && Chosen(s, w, r)
    ensures Ascends(s, r) && (w.currentPreserve ==> Yields(s, r))
  {
    if Acceptable(s.blocks, w.block) && w.block.parent in s.blocks {
      TreeGrows(s.blocks, genesis, w.block);
    }
  }

  /** Each write of a run, refused ones included, follows the fork choice. */
  ghost predicate AllChosen(trace: seq<Store>, writes: seq<BlockWrite>) {
    |trace| == |writes| + 1 && forall i: nat | i < |writes| :: Chosen(trace[i], writes[i], trace[i + 1])
  }

  lemma RunChosen(trace: seq<Store>, genesis: Hash, writes: seq<BlockWrite>, archive: bool)
    requires Run(trace, writes, archive) && forall s | s in trace :: Sound(s, genesis)
    ensures AllChosen(trace, writes)
  {
    forall i: nat | i < |writes|
      ensures Chosen(trace[i], writes[i], trace[i + 1])
    {
      assert TraceAt(AttemptOf(archive), trace, writes, i);
      WrittenChosen(trace[i], genesis, writes[i], archive, trace[i + 1]);
    }
  }

  /**
   Over any run the head only ascends, and one that is preserved all along is given up only for more
   work or for a lower block with as much.
   */
  lemma {:induction false} HeadsAscend(trace: seq<Store>, genesis: Hash, writes: seq<BlockWrite>, i: nat, j: nat)
    requires AllChosen(trace, writes) && i <= j <= |writes| && forall s | s in trace :: Sound(s, genesis)
    ensures Ascends(trace[i], trace[j])
    ensures (forall k | i <= k < j :: writes[k].currentPreserve) ==> Yields(trace[i], trace[j])
    decreases j - i
  {
    assert Sound(trace[i], genesis);
    if i < j {
      HeadsAscend(trace, genesis, writes, i + 1, j);
      StepAscends(trace[i], genesis, writes[i], trace[i + 1]);
    }
  }

  function GenesisStore(root: Block): Store {
    var lookup: Lookup := map t | t in root.txs :: 0;
    Store(map[root.hash := root], map[root.hash := root.difficulty], Chain(root.hash, map[0 := root.hash], lookup),
          TrieGC.Gc([], map[]))
  }

  lemma GenesisSound(root: Block)
    requires root.hash != EMPTY && root.parent == EMPTY && root.number == 0
    ensures Sound(GenesisStore(root), root.hash) && Clean(GenesisStore(root))
  {
    var s := GenesisStore(root);
    forall h: Hash
      ensures Linked(s.blocks, root.hash, h) && Weighed(s.blocks, s.td, root.hash, h) && OnceAt(s.blocks, h)
    {
    }
    forall n: nat
      ensures Covers(s.blocks, s.chain.index, root.hash, root.hash, n)
    {
    }
    assert Covering(s.blocks, s.chain.index, s.chain.current, root.hash);
    CanonicalIff(s.blocks, s.chain.index, root.hash, root.hash);
    forall t: TxHash
      ensures LooksUp(s.blocks, s.chain.lookup, root.hash, 0, t)
    {
      assert OnPath(s.blocks, root.hash, t, 0) <==> t in root.txs;
    }
  }

  class BlockChain {
    const genesis: Hash
    var store: Store

    ghost predicate Valid()
      reads this
    {
      Sound(store, genesis)
    }

    constructor (root: Block)
      requires root.hash != EMPTY && root.parent == EMPTY && root.number == 0
      ensures Valid() && Clean(store) && genesis == root.hash && store == GenesisStore(root)
    {
      GenesisSound(root);
      genesis, store := root.hash, GenesisStore(root);
    }

    /**
     Any sequence of block writes, refused ones included: every store on the way is sound, and every
     head is the one the fork choice gives.
     */
    method WriteBlocks(writes: seq<BlockWrite>, archive: bool) returns (ghost trace: seq<Store>)
      requires Valid()
      modifies this
      ensures Run(trace, writes, archive) && trace[0] == old(store) && Last(trace) == store
      ensures (forall s | s in trace :: Sound(s, genesis)) && AllChosen(trace, writes)
    {
      trace := [store];
      ghost var done: seq<BlockWrite> := [];
      for n := 0 to |writes|
        invariant Valid() && done == writes[..n] && Run(trace, done, archive) && trace[0] == old(store)
        invariant Last(trace) == store
        invariant forall s | s in trace :: Sound(s, genesis)
      {
        var w := writes[n];
        if Acceptable(store.blocks, w.block) {
          var status;
          store, status := WriteBlock(store, genesis, w, archive);
        }
        TraceMore(AttemptOf(archive), trace, done, w, store);
        trace, done := trace + [store], done + [w];
      }
      assert done == writes;
      RunChosen(trace, genesis, writes, archive);
    }
  }

  /** A sound store can be queried: its index is the head's path and then that of one stored block. */
  lemma Queryable(s: Store, genesis: Hash) returns (shape: HeaderQueries.Shape)
    requires Sound(s, genesis)
    ensures shape.genesis == genesis && shape.head == s.chain.current
    ensures HeaderQueries.Sound(s.blocks, s.chain.index, shape)
  {
    var tail :| Covering(s.blocks, s.chain.index, s.chain.current, tail);
    var fork := CommonExists(s.blocks, genesis, s.chain.current, tail);
    shape := HeaderQueries.Shape(genesis, s.chain.current, tail, fork);
  }

  /** A chain of three blocks of difficulty 1, and a block beside the second of them that ties with the third. */
  const TALL := Store(map[1 := Block(1, EMPTY, 0, 1, []), 2 := Block(2, 1, 1, 1, []), 3 := Block(3, 2, 2, 1, [])],
                      map[1 := 1, 2 := 2, 3 := 3], Chain(3, map[0 := 1, 1 := 2, 2 := 3], map[]), TrieGC.Gc([], map[]))
  const TIE := Block(4, 1, 1, 2, [])

  lemma TallWork()
    ensures var tree := TALL.blocks[TIE.hash := TIE];
            && Work(TALL.blocks, 1) == 1 && Work(TALL.blocks, 2) == 2 && Work(TALL.blocks, 3) == 3
            && Work(tree, 1) == 1 && Work(tree, 2) == 2 && Work(tree, 3) == 3 && Work(tree, 4) == 3
  {
  }

  lemma TallSound()
    ensures Sound(TALL, 1) && Clean(TALL)
  {
    var tree := TALL.blocks;
    TallWork();
    forall h: Hash
      ensures Linked(tree, 1, h) && Weighed(tree, TALL.td, 3, h) && OnceAt(tree, h)
    {
    }
    assert At(tree, 1, 0) == 1 && At(tree, 2, 0) == 1 && At(tree, 3, 0) == 1 && At(tree, 3, 1) == 2;
    forall n: nat
      ensures Covers(tree, TALL.chain.index, 3, 3, n)
    {
    }
    assert Covering(TALL.blocks, TALL.chain.index, TALL.chain.current, 3);
    CanonicalIff(tree, TALL.chain.index, 3, 3);
    forall t: TxHash
      ensures LooksUp(tree, TALL.chain.lookup, 3, 2, t)
    {
    }
  }

  /** A write without a preserved block, whose coin is tails. */
  function Plain(b: Block): BlockWrite {
    BlockWrite(b, 0, false, false, false)
  }

  /**
   The index does go stale: on a clean chain the tie makes `TIE` the head, which `BranchOk` rejects, so
   number 2 stays mapped to block 3, above the new head. A block on top of it cleans the index again.
   */
  method StaleIndex() returns (stale: Store, clean: Store)
    ensures Sound(TALL, 1) && Clean(TALL)
    ensures Written(TALL, Plain(TIE), true, stale, Canonised) && Sound(stale, 1)
    ensures stale.chain.current == TIE.hash && !Clean(stale) && 2 in stale.chain.index && stale.chain.index[2] == 3
    ensures Written(stale, Plain(Block(5, 4, 2, 1, [])), true, clean, Canonised) && Sound(clean, 1)
    ensures clean.chain.current == 5 && Clean(clean)
  {
    TallSound();
    TallWork();
    var status;
    stale, status := WriteBlock(TALL, 1, Plain(TIE), true);
    assert stale.blocks == TALL.blocks[TIE.hash := TIE];
    assert Stays(stale.blocks, TALL.chain, TIE, 2);
    clean, status := WriteBlock(stale, 1, Plain(Block(5, 4, 2, 1, [])), true);
  }

  // What a stale index does to header queries.

  const FOURTH := Block(6, 3, 3, 1, [])
  const LOW := Block(4, 1, 1, 3, [])

  /** The chain of four with a heavy block on its genesis. */
  const FORKED: Tree := TALL.blocks[FOURTH.hash := FOURTH][LOW.hash := LOW]

  lemma ForkedWork()
    ensures var tall := TALL.blocks[FOURTH.hash := FOURTH]; Work(tall, 3) == 3 && Work(tall, 6) == 4
    ensures Work(FORKED, 6) == 4 && Work(FORKED, 4) == 4
  {
    var tall := TALL.blocks[FOURTH.hash := FOURTH];
    assert Work(tall, 1) == 1 && Work(tall, 2) == 2 && Work(tall, 3) == 3;
    assert Work(FORKED, 1) == 1 && Work(FORKED, 2) == 2 && Work(FORKED, 3) == 3;
  }

  lemma ForkedPaths()
    ensures var tall := TALL.blocks[FOURTH.hash := FOURTH];
            At(tall, 6, 0) == 1 && At(tall, 6, 2) == 3 && At(tall, 6, 3) == 6
    ensures At(FORKED, 4, 0) == 1 && At(FORKED, 4, 1) == 4
  {
    var tall := TALL.blocks[FOURTH.hash := FOURTH];
    assert At(tall, 1, 0) == 1;
    assert At(tall, 2, 0) == 1;
    assert At(tall, 3, 0) == 1 && At(tall, 3, 2) == 3;
    assert At(FORKED, 1, 0) == 1;
  }

  /** The index that follows block 4 up to number 1 and then block 6. */
  const FORKED_INDEX: Index := map[0 := 1, 1 := 4, 2 := 3, 3 := 6]

  lemma ForkedIndex(tall: Store, stale: Store)
    requires tall.blocks == TALL.blocks[FOURTH.hash := FOURTH] && tall.chain.current == 6 && Clean(tall)
    requires Written(tall, Plain(LOW), true, stale, Canonised) && Indexed(stale.blocks, stale.chain)
    requires stale.blocks == FORKED
    ensures stale.chain.index == FORKED_INDEX
  {
    var tail :| Covering(FORKED, stale.chain.index, 4, tail);
    ForkedPaths();
    forall n: nat
      ensures n in stale.chain.index <==> n <= 3
      ensures n <= 3 ==> stale.chain.index[n] == FORKED_INDEX[n]
    {
      assert Entry(tall.blocks, tall.chain.index, 6, 0) && Entry(tall.blocks, tall.chain.index, 6, n);
      assert Covers(FORKED, stale.chain.index, 4, tail, n);
      assert n > 1 ==> (n in stale.chain.index <==> Stays(FORKED, tall.chain, LOW, n));
    }
  }

  lemma WrongAnswers()
    ensures HeaderQueries.Ancestor(FORKED, FORKED_INDEX, 6, 3, 2, 100).hash == 4 && Up(FORKED, 6, 2) == 2
    ensures HeaderQueries.Onward(FORKED, FORKED_INDEX, LOW, false, 1, 100).hash == 6
    ensures !HeaderQueries.Apart(FORKED, false, 1, LOW, FOURTH)
  {
    assert Up(FORKED, 6, 2) == Up(FORKED, 3, 1) == 2;
  }

  /**
   A chain of four, and a block on the genesis that ties with it and wins by being lower. The store is
   sound, yet the grandparent of block 6 is answered with block 4, and so is a forward query from block 4
   with block 6, which does not descend from it.
   */
  method StaleAnswer() returns (tall: Store, stale: Store)
    ensures Written(TALL, Plain(FOURTH), true, tall, Canonised) && Sound(tall, 1)
    ensures Written(tall, Plain(LOW), true, stale, Canonised) && Sound(stale, 1) && stale.blocks == FORKED
    ensures HeaderQueries.Ancestor(FORKED, stale.chain.index, 6, 3, 2, 100).hash == 4 && Up(FORKED, 6, 2) == 2
    ensures HeaderQueries.Onward(FORKED, stale.chain.index, LOW, false, 1, 100).hash == 6
    ensures !HeaderQueries.Apart(FORKED, false, 1, LOW, FOURTH)
  {
    TallSound();
    TallWork();
    ForkedWork();
    var status;
    tall, status := WriteBlock(TALL, 1, Plain(FOURTH), true);
    assert tall.blocks == TALL.blocks[FOURTH.hash := FOURTH];
    stale, status := WriteBlock(tall, 1, Plain(LOW), true);
    assert stale.blocks == FORKED;
    ForkedIndex(tall, stale);
    WrongAnswers();
  }
}
