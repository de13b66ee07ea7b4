/** The header chain of core/headerchain.go: fork choice, the number index and total difficulties. */
module HeaderChains {
  import opened Values
  import opened BlockTree

  /** Deletes the index entries from `from` up to the first hole. */
  method DeleteAbove(index: Index, from: nat) returns (r: Index, end: nat)
    ensures from <= end && end !in index
    ensures forall n :: n in r <==> n in index && !(from <= n < end)
    ensures forall n | n in r :: r[n] == index[n]
  {
    r, end := index, from;
    while end in r
      invariant from <= end
      invariant forall n :: n in r <==> n in index && !(from <= n < end)
      invariant forall n | n in r :: r[n] == index[n]
      decreases |r|
    {
      r, end := r - {end}, end + 1;
    }
  }

  /**
   Entry `n` while the index is being redirected from the chain of `prior` to that of `b`: rewritten
   between `done` and `b`, as before up to `done`, empty above `b`.
   */
  predicate Partly(tree: Tree, index: Index, prior: Hash, b: Block, done: nat, n: nat) {
    prior in tree &&
    if n <= done then (n in index <==> n <= tree[prior].number) && (n in index ==> index[n] == At(tree, prior, n))
    else if n < b.number then n in index && index[n] == At(tree, b.hash, n)
    else n == b.number || n !in index
  }

  ghost predicate Rewriting(tree: Tree, index: Index, prior: Hash, b: Block, done: nat) {
    forall n {:trigger Partly(tree, index, prior, b, done, n)} :: Partly(tree, index, prior, b, done, n)
  }

  lemma StartRewriting(tree: Tree, index: Index, r: Index, end: nat, prior: Hash, b: Block, done: nat)
    requires Canonical(tree, index, prior) && b.number == done + 1
    requires b.number + 1 <= end && end !in index
    requires forall n :: n in r <==> n in index && !(b.number + 1 <= n < end)
    requires forall n | n in r :: r[n] == index[n]
    ensures Rewriting(tree, r, prior, b, done)
  {
    assert Entry(tree, index, prior, end);
    forall n
      ensures Partly(tree, r, prior, b, done, n)
    {
      assert Entry(tree, index, prior, n);
    }
  }

  /** The chains meet at the genesis at the latest, so there is always a lower entry to go to. */
  lemma RewriteStep(tree: Tree, genesis: Hash, r: Index, prior: Hash, b: Block, n: nat, h: Hash)
    requires Closed(tree, genesis) && Rewriting(tree, r, prior, b, n)
    requires b.hash in tree && tree[b.hash] == b && n < b.number && h == At(tree, b.hash, n)
    requires !(n in r && r[n] == h)
    ensures n > 0 && h in tree && tree[h].parent == At(tree, b.hash, n - 1)
  {
    assert Partly(tree, r, prior, b, n, n);
    AtFacts(tree, genesis, b.hash, n);
    if n == 0 {
      AtFacts(tree, genesis, prior, 0);
    } else {
      AtParent(tree, genesis, b.hash, n - 1);
    }
  }

  lemma Rewritten(tree: Tree, r: Index, prior: Hash, b: Block, n: nat, m: nat)
    requires Rewriting(tree, r, prior, b, n) && n == m + 1 && n < b.number
    ensures Rewriting(tree, r[n := At(tree, b.hash, n)], prior, b, m)
  {
    var r' := r[n := At(tree, b.hash, n)];
    forall k
      ensures Partly(tree, r', prior, b, m, k)
    {
      assert Partly(tree, r, prior, b, n, k);
    }
  }

  lemma FinishRewriting(tree: Tree, genesis: Hash, r: Index, prior: Hash, b: Block, n: nat)
    requires Closed(tree, genesis) && Rewriting(tree, r, prior, b, n)
    requires b.hash in tree && tree[b.hash] == b && n < b.number && n in r && r[n] == At(tree, b.hash, n)
    ensures Canonical(tree, r[b.number := b.hash], b.hash)
  {
    var r' := r[b.number := b.hash];
    assert Partly(tree, r, prior, b, n, n);
    forall k: nat
      ensures Entry(tree, r', b.hash, k)
    {
      assert Partly(tree, r, prior, b, n, k);
      if k <= n {
        AtAt(tree, genesis, prior, n, k);
        AtAt(tree, genesis, b.hash, n, k);
      }
    }
  }

  /** Makes the index follow the chain that ends in `b`: clears what is above, rewrites down to a common block. */
  method Redirect(tree: Tree, ghost genesis: Hash, index: Index, ghost prior: Hash, b: Block) returns (r: Index)
    requires Closed(tree, genesis) && Canonical(tree, index, prior)
    requires b.hash in tree && tree[b.hash] == b && b.number > 0
    ensures Canonical(tree, r, b.hash)
  {
    var end;
    r, end := DeleteAbove(index, b.number + 1);
    var h, n := b.parent, b.number - 1;
    StartRewriting(tree, index, r, end, prior, b, n);
    AtParent(tree, genesis, b.hash, n);
    while !(n in r && r[n] == h)
      invariant 0 <= n < b.number && h == At(tree, b.hash, n) && Rewriting(tree, r, prior, b, n)
      decreases n
    {
      RewriteStep(tree, genesis, r, prior, b, n, h);
      Rewritten(tree, r, prior, b, n, n - 1);
      r := r[n := h];
      h, n := tree[h].parent, n - 1;
    }
    FinishRewriting(tree, genesis, r, prior, b, n);
    r := r[b.number := b.hash];
  }

  /** A stored header's total difficulty is its work, and none exceeds that of `top`. */
  predicate Weighed(tree: Tree, td: map<Hash, nat>, top: Hash, h: Hash) {
    (h in td <==> h in tree) && (h in td ==> td[h] == Work(tree, h) && Work(tree, h) <= Work(tree, top))
  }

  ghost predicate Heaviest(tree: Tree, td: map<Hash, nat>, top: Hash) {
    forall h {:trigger Weighed(tree, td, top, h)} :: Weighed(tree, td, top, h)
  }

  /** Storing a header under a stored parent changes neither the paths nor the work of the others. */
  lemma TreeGrows(tree: Tree, genesis: Hash, b: Block)
    requires Closed(tree, genesis) && EMPTY !in tree && b.parent in tree && b.number == tree[b.parent].number + 1
    requires b.hash != EMPTY
    requires b.hash in tree ==> tree[b.hash] == b
    ensures var tree' := tree[b.hash := b];
            && Closed(tree', genesis) && EMPTY !in tree'
            && (forall h | h in tree :: Work(tree', h) == Work(tree, h))
            && Work(tree', b.hash) == b.difficulty + Work(tree, b.parent)
  {
    var tree' := tree[b.hash := b];
    ClosedInsert(tree, genesis, b);
    forall h | h in tree
      ensures Work(tree', h) == Work(tree, h)
    {
      WorkGrows(tree, tree', genesis, h);
    }
  }

  /** And leaves the index of another header's path right. */
  lemma IndexGrows(tree: Tree, genesis: Hash, index: Index, head: Hash, b: Block)
    requires Closed(tree, genesis) && Canonical(tree, index, head) && (b.hash in tree ==> tree[b.hash] == b)
    ensures Canonical(tree[b.hash := b], index, head)
  {
    var tree' := tree[b.hash := b];
    forall n
      ensures Entry(tree', index, head, n)
    {
      assert Entry(tree, index, head, n);
      AtGrows(tree, tree', genesis, head, n);
    }
  }

  /** The new total difficulty keeps the heavier of the old top and the new header on top. */
  lemma StillHeaviest(tree: Tree, td: map<Hash, nat>, top: Hash, b: Block, weight: nat, top': Hash)
    requires Heaviest(tree, td, top) && top in tree && b.parent in tree
    requires var tree' := tree[b.hash := b];
             && (forall h | h in tree :: Work(tree', h) == Work(tree, h))
             && Work(tree', b.hash) == weight
             && (top' == top || top' == b.hash)
             && Work(tree', top) <= Work(tree', top') && Work(tree', b.hash) <= Work(tree', top')
    ensures Heaviest(tree[b.hash := b], td[b.hash := weight], top')
  {
    var tree', td' := tree[b.hash := b], td[b.hash := weight];
    forall h
      ensures Weighed(tree', td', top', h)
    {
      assert Weighed(tree, td, top, h);
    }
  }

  datatype WriteStatus = UnknownAncestor | CanonStat | SideStat

  /** The stored headers with their total difficulties, the number index and the current header. */
  datatype HeaderState = HeaderState(headers: Tree, td: map<Hash, nat>, index: Index, current: Hash)

  /**
   The number index is exactly the current header's ancestor path, stored total difficulties are
   the work along each header's path, and no stored header is heavier than the current one.
   */
  ghost predicate Intact(s: HeaderState, genesis: Hash) {
    && Closed(s.headers, genesis) && EMPTY !in s.headers && Canonical(s.headers, s.index, s.current)
    && Heaviest(s.headers, s.td, s.current)
  }

  /** `WriteHeader`: more work wins, and the coin decides a tie. */
  ghost predicate Wrote(s: HeaderState, header: Block, coin: bool, s': HeaderState, status: WriteStatus) {
    && (status == UnknownAncestor <==> header.parent !in s.headers)
    && (status == UnknownAncestor ==> Is(s', s))
    && (status != UnknownAncestor ==>
          && Is(s'.headers, s.headers[header.hash := header])
          && var mine, theirs := Work(s'.headers, header.hash), Work(s'.headers, s.current);
             status == CanonStat <==> (mine > theirs || (mine == theirs && coin)))
    && (status == SideStat ==> Is(s'.index, s.index) && s'.current == s.current)
    && (status == CanonStat ==> s'.current == header.hash)
  }

  function GenesisOnly(root: Block): HeaderState {
    HeaderState(map[root.hash := root], map[root.hash := root.difficulty], map[0 := root.hash], root.hash)
  }

  lemma GenesisIntact(root: Block)
    requires root.hash != EMPTY && root.parent == EMPTY && root.number == 0
    ensures Intact(GenesisOnly(root), root.hash)
  {
    var s := GenesisOnly(root);
    forall h: Hash
      ensures Linked(s.headers, root.hash, h) && Weighed(s.headers, s.td, s.current, h)
    {
    }
    forall n: nat
      ensures Entry(s.headers, s.index, s.current, n)
    {
    }
  }

  class HeaderChain {
    const genesis: Hash
    var headers: Tree
    var td: map<Hash, nat>
    var index: Index
    var currentHash: Hash

    function State(): HeaderState
      reads this
    {
      HeaderState(headers, td, index, currentHash)
    }

    ghost predicate Valid()
      reads this
    {
      Intact(State(), genesis)
    }

    /** A chain over an empty store starts with the genesis, and one over a stored chain resumes it. */
    constructor (root: Block, stored: Option<HeaderState>)
      requires root.hash != EMPTY && root.parent == EMPTY && root.number == 0
      requires stored.Some? ==> Intact(stored.value, root.hash)
      ensures Valid() && genesis == root.hash && State() == if stored.Some? then stored.value else GenesisOnly(root)
    {
      GenesisIntact(root);
      var s := if stored.Some? then stored.value else GenesisOnly(root);
      genesis, headers, td, index, currentHash := root.hash, s.headers, s.td, s.index, s.current;
    }

    /** `WriteHeader`; `coin` is the fair coin that breaks ties in total difficulty. */
    method WriteHeader(header: Block, coin: bool) returns (status: WriteStatus)
      requires Valid() && header.hash != EMPTY && (header.hash in headers ==> headers[header.hash] == header)
      requires header.parent in headers ==> header.number == headers[header.parent].number + 1
      modifies this
      ensures Valid() && Wrote(old(State()), header, coin, State(), status)
    {
      assert Weighed(headers, td, currentHash, header.parent) && Weighed(headers, td, currentHash, currentHash);
      if header.parent !in td {
        return UnknownAncestor;
      }
      var externTd, localTd := header.difficulty + td[header.parent], td[currentHash];
      TreeGrows(headers, genesis, header);
      IndexGrows(headers, genesis, index, currentHash, header);
      var canon := externTd > localTd || (externTd == localTd && coin);
      ghost var top := if canon then header.hash else currentHash;
      StillHeaviest(headers, td, currentHash, header, externTd, top);
      td := td[header.hash := externTd];
      headers := headers[header.hash := header];
      status := SideStat;
      if canon {
        index := Redirect(headers, genesis, index, currentHash, header);
        currentHash := header.hash;
        status := CanonStat;
      }
    }
  }

  /** A header verified before it is written: one number above its parent, if that is known. */
  predicate Verified(headers: Tree, header: Block) {
    && header.hash != EMPTY && (header.hash in headers ==> headers[header.hash] == header)
    && (header.parent in headers ==> header.number == headers[header.parent].number + 1)
  }

  /** A known header is skipped, it being no heavier than the current one, and a new one is written. */
  ghost predicate Imported(s: HeaderState, header: Block, coin: bool, s': HeaderState) {
    && Verified(s.headers, header)
    && if header.hash in s.headers then Is(s', s)
       else exists status :: status != UnknownAncestor && Wrote(s, header, coin, s', status)
  }

  ghost predicate ImportedAt(trace: seq<HeaderState>, headers: seq<Block>, coins: seq<bool>, i: nat)
    requires i + 1 < |trace| && i < |headers| == |coins|
  {
    Imported(trace[i], headers[i], coins[i], trace[i + 1])
  }

  /** The states of an import, from before its first header on. */
  ghost predicate Import(trace: seq<HeaderState>, headers: seq<Block>, coins: seq<bool>) {
    && 0 < |trace| <= |headers| + 1 && |coins| == |headers|
    && forall i: nat {:trigger ImportedAt(trace, headers, coins, i)} | i + 1 < |trace| ::
         ImportedAt(trace, headers, coins, i)
  }

  lemma ImportMore(trace: seq<HeaderState>, headers: seq<Block>, coins: seq<bool>, s: HeaderState)
    requires Import(trace, headers, coins) && |trace| <= |headers|
    requires Imported(Last(trace), headers[|trace| - 1], coins[|trace| - 1], s)
    ensures Import(trace + [s], headers, coins)
  {
    var trace' := trace + [s];
    forall i: nat | i + 1 < |trace'|
      ensures ImportedAt(trace', headers, coins, i)
    {
      if i + 1 < |trace| {
        assert ImportedAt(trace, headers, coins, i);
      }
    }
  }

  /**
   `InsertHeaderChain` on any sequence of headers. It imports them in turn up to the first that is not
   verified, or that is new and has no stored parent; every state on the way is intact.
   */
  method InsertHeaders(chain: HeaderChain, headers: seq<Block>, coins: seq<bool>)
    returns (n: nat, ghost trace: seq<HeaderState>)
    requires chain.Valid() && |coins| == |headers|
    modifies chain
    ensures Import(trace, headers, coins) && |trace| == n + 1 && trace[0] == old(chain.State())
    ensures Last(trace) == chain.State()
    ensures forall s | s in trace :: Intact(s, chain.genesis)
    ensures n < |headers| ==>
              !Verified(chain.headers, headers[n])
              || (headers[n].hash !in chain.headers && headers[n].parent !in chain.headers)
  {
    n, trace := 0, [chain.State()];
    while n < |headers|
      invariant n <= |headers| && chain.Valid() && |trace| == n + 1 && trace[0] == old(chain.State())
      invariant Last(trace) == chain.State()
      invariant Import(trace, headers, coins) && forall s | s in trace :: Intact(s, chain.genesis)
    {
      var header := headers[n];
      if !Verified(chain.headers, header) {
        return;
      }
      assert Weighed(chain.headers, chain.td, chain.currentHash, header.hash);
      assert Weighed(chain.headers, chain.td, chain.currentHash, chain.currentHash);
      if header.hash !in chain.headers || chain.td[header.hash] > chain.td[chain.currentHash] {
        var status := chain.WriteHeader(header, coins[n]);
        if status == UnknownAncestor {
          return;
        }
      }
      ImportMore(trace, headers, coins, chain.State());
      n, trace := n + 1, trace + [chain.State()];
    }
  }
}
