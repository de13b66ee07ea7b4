/**
 Blocks linked by parent hashes, and the number index over them. Hash 0 is Go's empty hash: no
 block has it.
 */
module BlockTree {

  type Hash = nat

  const EMPTY: Hash := 0

  datatype Block = Block(hash: Hash, parent: Hash, number: nat, difficulty: nat, txs: seq<nat>)

  type Tree = map<Hash, Block>
  type Index = map<nat, Hash>

  /** A stored block is the genesis, or its parent is stored and one number below it. */
  predicate Linked(tree: Tree, genesis: Hash, h: Hash) {
    h in tree ==>
      && h != EMPTY && tree[h].hash == h
      && if h == genesis then tree[h].number == 0 && tree[h].parent == EMPTY
         else tree[h].parent in tree && tree[h].number == tree[tree[h].parent].number + 1
  }

  ghost predicate Closed(tree: Tree, genesis: Hash) {
    genesis in tree && forall h {:trigger Linked(tree, genesis, h)} :: Linked(tree, genesis, h)
  }

  /** The ancestor of `h` with number `n`; `h` itself when it is not higher than that. */
  function At(tree: Tree, h: Hash, n: nat): Hash
    decreases if h in tree then tree[h].number else 0
  {
    if h in tree && n < tree[h].number && tree[h].parent in tree && tree[tree[h].parent].number < tree[h].number
    then At(tree, tree[h].parent, n) else h
  }

  /** What walking `k` parents up from `h` reaches, or the empty hash. */
  function Up(tree: Tree, h: Hash, k: nat): Hash
    decreases k
  {
    if k == 0 then h else if h in tree then Up(tree, tree[h].parent, k - 1) else EMPTY
  }

  /** `h`'s ancestor at each number down to 0 is a stored block with that number. */
  lemma {:induction false} AtFacts(tree: Tree, genesis: Hash, h: Hash, n: nat)
    requires Closed(tree, genesis) && h in tree && n <= tree[h].number
    ensures var a := At(tree, h, n); a in tree && tree[a].number == n && (n == 0 ==> a == genesis)
    decreases tree[h].number
  {
    assert Linked(tree, genesis, h);
    if n < tree[h].number {
      AtFacts(tree, genesis, tree[h].parent, n);
    }
  }

  /** Ancestors of an ancestor are ancestors. */
  lemma {:induction false} AtAt(tree: Tree, genesis: Hash, h: Hash, m: nat, n: nat)
    requires Closed(tree, genesis) && h in tree && n <= m <= tree[h].number
    ensures At(tree, At(tree, h, m), n) == At(tree, h, n)
    decreases tree[h].number
  {
    assert Linked(tree, genesis, h);
    if m < tree[h].number {
      AtAt(tree, genesis, tree[h].parent, m, n);
    }
  }

  /** The parent of the ancestor at `n + 1` is the ancestor at `n`. */
  lemma AtParent(tree: Tree, genesis: Hash, h: Hash, n: nat)
    requires Closed(tree, genesis) && h in tree && n < tree[h].number
    ensures var a := At(tree, h, n + 1); a in tree && tree[a].parent == At(tree, h, n)
  {
    AtFacts(tree, genesis, h, n + 1);
    AtAt(tree, genesis, h, n + 1, n);
    assert Linked(tree, genesis, At(tree, h, n + 1));
  }

  /** Walking `k` parents reaches the ancestor `k` numbers below. */
  lemma {:induction false} UpIsAt(tree: Tree, genesis: Hash, h: Hash, k: nat)
    requires Closed(tree, genesis) && h in tree && k <= tree[h].number
    ensures Up(tree, h, k) == At(tree, h, tree[h].number - k)
    decreases k
  {
    assert Linked(tree, genesis, h);
    if k > 0 {
      UpIsAt(tree, genesis, tree[h].parent, k - 1);
    }
  }

  /** Storing more blocks changes no ancestor of the blocks already there. */
  lemma {:induction false} AtGrows(tree: Tree, tree': Tree, genesis: Hash, h: Hash, n: nat)
    requires Closed(tree, genesis) && h in tree && tree.Keys <= tree'.Keys
    requires forall x | x in tree :: tree'[x] == tree[x]
    ensures At(tree', h, n) == At(tree, h, n)
    decreases tree[h].number
  {
    assert Linked(tree, genesis, h);
    if n < tree[h].number {
      AtGrows(tree, tree', genesis, tree[h].parent, n);
    }
  }

  /** Entry `n` of the index is right for the chain that ends in `head`. */
  predicate Entry(tree: Tree, index: Index, head: Hash, n: nat) {
    head in tree && (if n <= tree[head].number then n in index && index[n] == At(tree, head, n) else n !in index)
  }

  /** The index is defined exactly on 0..head and equals the head's ancestor path. */
  ghost predicate Canonical(tree: Tree, index: Index, head: Hash) {
    head in tree && forall n {:trigger Entry(tree, index, head, n)} :: Entry(tree, index, head, n)
  }

  /** The sum of difficulties along a block's ancestor path. */
  function Work(tree: Tree, h: Hash): nat
    decreases if h in tree then tree[h].number else 0
  {
    if h !in tree then 0
    else if tree[h].parent in tree && tree[tree[h].parent].number < tree[h].number
    then tree[h].difficulty + Work(tree, tree[h].parent) else tree[h].difficulty
  }

  lemma {:induction false} WorkGrows(tree: Tree, tree': Tree, genesis: Hash, h: Hash)
    requires Closed(tree, genesis) && h in tree && tree.Keys <= tree'.Keys && EMPTY !in tree'
    requires forall x | x in tree :: tree'[x] == tree[x]
    ensures Work(tree', h) == Work(tree, h)
    decreases tree[h].number
  {
    assert Linked(tree, genesis, h);
    if h != genesis {
      WorkGrows(tree, tree', genesis, tree[h].parent);
    }
  }

  /** Adding a block whose parent is stored keeps the tree closed. */
  lemma ClosedInsert(tree: Tree, genesis: Hash, b: Block)
    requires Closed(tree, genesis) && b.parent in tree && b.number == tree[b.parent].number + 1 && b.hash != EMPTY
    requires b.hash in tree ==> tree[b.hash] == b
    ensures b.hash != genesis && Closed(tree[b.hash := b], genesis)
    ensures EMPTY !in tree[b.hash := b]
  {
    assert Linked(tree, genesis, genesis);
    assert Linked(tree, genesis, EMPTY);
    var tree' := tree[b.hash := b];
    forall h
      ensures Linked(tree', genesis, h)
    {
      assert Linked(tree, genesis, h);
    }
  }
}
