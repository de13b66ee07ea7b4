/**
 Ancestor queries that jump through the number index (core/headerchain.go), and the traversal
 that answers a header query (evr/handler.go).
 */
module HeaderQueries {
  import opened Values
  import opened BlockTree
  import opened Reorgs

  const WORD: nat := 0x1_0000_0000_0000_0000

  /**
   The paths an index follows: up to the head that of `head`, above it that of `tail`, which parts from
   it at `fork`.
   */
  datatype Shape = Shape(genesis: Hash, head: Hash, tail: Hash, fork: nat)

  /** What every block write keeps of the store: its index may hold stale entries above the head. */
  ghost predicate Sound(tree: Tree, index: Index, s: Shape) {
    && Closed(tree, s.genesis) && EMPTY !in tree && Covering(tree, index, s.head, s.tail)
    && HighestCommon(tree, s.head, s.tail, s.fork)
  }

  /** `GetHeader`: a stored header is found under its own number only. */
  predicate Stored(tree: Tree, hash: Hash, number: nat) {
    hash in tree && tree[hash].number == number
  }

  /** `ReadCanonicalHash`: a number without an entry reads as the empty hash. */
  function ReadIndex(index: Index, number: nat): Hash {
    if number in index then index[number] else EMPTY
  }

  /** Numbers `m` and `n` are on two different paths: between the fork and the head, and above the head. */
  predicate Crosses(tree: Tree, s: Shape, m: nat, n: nat) {
    s.head in tree && s.fork < m <= tree[s.head].number < n
  }

  /** An entry is a stored block of that number. */
  lemma EntryStored(tree: Tree, index: Index, s: Shape, n: nat)
    requires Sound(tree, index, s) && n in index
    ensures Stored(tree, index[n], n) && index[n] != EMPTY
  {
    assert Covers(tree, index, s.head, s.tail, n);
    AtFacts(tree, s.genesis, if n <= tree[s.head].number then s.head else s.tail, n);
  }

  lemma NeverEmpty(tree: Tree, index: Index, s: Shape, number: nat)
    requires Sound(tree, index, s)
    ensures ReadIndex(index, number) == EMPTY <==> number !in index
  {
    if number in index {
      EntryStored(tree, index, s, number);
    }
  }

  /** An entry's ancestor is the entry at that number, exactly unless the two numbers are on different paths. */
  lemma IndexedAncestor(tree: Tree, index: Index, s: Shape, number: nat, k: nat)
    requires Sound(tree, index, s) && number in index && k <= number
    ensures Stored(tree, index[number], number) && number - k in index && Stored(tree, index[number - k], number - k)
    ensures index[number - k] == Up(tree, index[number], k) <==> !Crosses(tree, s, number - k, number)
  {
    var m, path := number - k, if number <= tree[s.head].number then s.head else s.tail;
    assert Covers(tree, index, s.head, s.tail, number) && Covers(tree, index, s.head, s.tail, m);
    EntryStored(tree, index, s, number);
    EntryStored(tree, index, s, m);
    AtAt(tree, s.genesis, path, number, m);
    UpIsAt(tree, s.genesis, index[number], k);
    if m <= s.fork {
      CommonBelow(tree, s.genesis, s.head, s.tail, s.fork, m);
    }
  }

  // The walk towards the index.

  datatype Answer = Answer(hash: Hash, number: nat, left: nat)

  /** The loop of `GetAncestor`: parents are walked until one is on the index, which gives the rest away. */
  function Walk(tree: Tree, index: Index, hash: Hash, number: nat, k: nat, budget: nat): Answer
    requires k <= number
    decreases k
  {
    if k == 0 then Answer(hash, number, budget)
    else if ReadIndex(index, number) == hash then Answer(ReadIndex(index, number - k), number - k, budget)
    else if budget == 0 then Answer(EMPTY, 0, 0)
    else if !Stored(tree, hash, number) then Answer(EMPTY, 0, budget - 1)
    else Walk(tree, index, tree[hash].parent, number - 1, k - 1, budget - 1)
  }

  function Ancestor(tree: Tree, index: Index, hash: Hash, number: nat, ancestor: nat, budget: nat): Answer {
    if ancestor > number then Answer(EMPTY, 0, budget)
    else if ancestor == 1 then
      if Stored(tree, hash, number) then Answer(tree[hash].parent, number - 1, budget) else Answer(EMPTY, 0, budget)
    else Walk(tree, index, hash, number, ancestor, budget)
  }

  /** The empty hash at a number past the index: the comparison with the absent entry succeeds. */
  predicate Misled(index: Index, hash: Hash, number: nat, k: nat) {
    hash == EMPTY && 0 < k <= number && number !in index && number - k in index
  }

  /** The block's path meets the index at `n`, above the head. */
  predicate Meets(tree: Tree, index: Index, s: Shape, hash: Hash, number: nat, n: nat) {
    s.head in tree && tree[s.head].number < n <= number && n in index && index[n] == At(tree, hash, n)
  }

  ghost predicate MeetsWithin(tree: Tree, index: Index, s: Shape, hash: Hash, number: nat, budget: nat) {
    exists n: nat :: Meets(tree, index, s, hash, number, n) && number <= n + budget
  }

  /** The walk gets on the stale part of the index, and the ancestor asked for is on the other path. */
  ghost predicate Strayed(tree: Tree, index: Index, s: Shape, hash: Hash, number: nat, k: nat, budget: nat) {
    && Stored(tree, hash, number) && s.head in tree && 0 < k <= number
    && s.fork < number - k <= tree[s.head].number && MeetsWithin(tree, index, s, hash, number, budget)
  }

  /** Off the index, a block strays exactly if its parent does. */
  lemma ParentStrays(tree: Tree, index: Index, s: Shape, hash: Hash, number: nat, k: nat, budget: nat)
    requires Sound(tree, index, s) && Stored(tree, hash, number) && 0 < k <= number && budget > 0
    requires ReadIndex(index, number) != hash
    ensures Stored(tree, tree[hash].parent, number - 1)
    ensures Strayed(tree, index, s, hash, number, k, budget) <==>
              Strayed(tree, index, s, tree[hash].parent, number - 1, k - 1, budget - 1)
  {
    assert Linked(tree, s.genesis, hash);
    var p := tree[hash].parent;
    forall n: nat
      ensures Meets(tree, index, s, hash, number, n) <==> Meets(tree, index, s, p, number - 1, n)
    {
      if n < number {
        AtAt(tree, s.genesis, hash, number - 1, n);
      }
    }
    if MeetsWithin(tree, index, s, hash, number, budget) {
      var n: nat :| Meets(tree, index, s, hash, number, n) && number <= n + budget;
      assert Meets(tree, index, s, p, number - 1, n);
    }
    if MeetsWithin(tree, index, s, p, number - 1, budget - 1) {
      var n: nat :| Meets(tree, index, s, p, number - 1, n) && number - 1 <= n + (budget - 1);
      assert Meets(tree, index, s, hash, number, n);
    }
  }

  /** On the index, it strays exactly if the two numbers are on different paths. */
  lemma EntryStrays(tree: Tree, index: Index, s: Shape, hash: Hash, number: nat, k: nat, budget: nat)
    requires Sound(tree, index, s) && 0 < k <= number && number in index && index[number] == hash
    ensures Strayed(tree, index, s, hash, number, k, budget) <==> Crosses(tree, s, number - k, number)
  {
    EntryStored(tree, index, s, number);
    if Crosses(tree, s, number - k, number) {
      assert Meets(tree, index, s, hash, number, number);
    }
  }

  /**
   The walk ends at the ancestor `k` generations up, or gives up with the empty hash, if and only if it is
   not misled by the empty hash and does not stray onto a stale entry. Otherwise it ends at the entry of
   the right number, on the wrong path.
   */
  lemma {:induction false} WalkIff(tree: Tree, index: Index, s: Shape, hash: Hash, number: nat, k: nat, budget: nat)
    requires Sound(tree, index, s) && k <= number
    ensures var r := Walk(tree, index, hash, number, k, budget);
            && r.left <= budget
            && ((r.hash == EMPTY || (r.hash == Up(tree, hash, k) && r.number == number - k)) <==>
                  !Misled(index, hash, number, k) && !Strayed(tree, index, s, hash, number, k, budget))
            && (Misled(index, hash, number, k) || Strayed(tree, index, s, hash, number, k, budget) ==>
                  number - k in index && r.hash == index[number - k] && r.number == number - k)
            && (r.hash != EMPTY && k > 0 && !Misled(index, hash, number, k) ==>
                  Stored(tree, hash, number) && Stored(tree, r.hash, r.number) && r.number == number - k)
            && (Stored(tree, hash, number) && (k <= budget || ReadIndex(index, number) == hash) ==> r.hash != EMPTY)
    decreases k
  {
    NeverEmpty(tree, index, s, number);
    assert Linked(tree, s.genesis, hash);
    if k == 0 {
    } else if ReadIndex(index, number) == hash {
      NeverEmpty(tree, index, s, number - k);
      if number in index {
        IndexedAncestor(tree, index, s, number, k);
        EntryStrays(tree, index, s, hash, number, k, budget);
      } else if number - k in index {
        EntryStored(tree, index, s, number - k);
      }
    } else if Stored(tree, hash, number) {
      if budget > 0 {
        ParentStrays(tree, index, s, hash, number, k, budget);
        WalkIff(tree, index, s, tree[hash].parent, number - 1, k - 1, budget - 1);
      }
    }
  }

  /** `GetAncestor`, whose answer is that of the walk; for one generation it just reads the header. */
  method GetAncestor(tree: Tree, index: Index, hash: Hash, number: nat, ancestor: nat, budget: nat, ghost s: Shape)
    returns (h: Hash, n: nat, left: nat)
    requires Sound(tree, index, s)
    ensures Answer(h, n, left) == Ancestor(tree, index, hash, number, ancestor, budget) && left <= budget
    ensures (h == EMPTY || (ancestor <= number && h == Up(tree, hash, ancestor) && n == number - ancestor)) <==>
              ancestor == 1 || !(Misled(index, hash, number, ancestor)
                                 || Strayed(tree, index, s, hash, number, ancestor, budget))
    ensures h != EMPTY && ancestor > 0 && (ancestor == 1 || !Misled(index, hash, number, ancestor)) ==>
              Stored(tree, hash, number) && h in tree
    ensures Stored(tree, hash, number) && ancestor <= number ==>
              (ancestor <= budget || ancestor == 1 || ReadIndex(index, number) == hash ==> h != EMPTY)
  {
    left := budget;
    assert Linked(tree, s.genesis, hash);
    if ancestor > number {
      return EMPTY, 0, left;
    }
    if ancestor == 1 {
      if Stored(tree, hash, number) {
        return tree[hash].parent, number - 1, left;
      }
      return EMPTY, 0, left;
    }
    WalkIff(tree, index, s, hash, number, ancestor, budget);
    h, n := hash, number;
    var k := ancestor;
    while k != 0
      invariant 0 <= k <= n && Walk(tree, index, h, n, k, left) == Walk(tree, index, hash, number, ancestor, budget)
    {
      if ReadIndex(index, n) == h {
        return ReadIndex(index, n - k), n - k, left;
      }
      if left == 0 {
        return EMPTY, 0, left;
      }
      left := left - 1;
      if !Stored(tree, h, n) {
        return EMPTY, 0, left;
      }
      h, n, k := tree[h].parent, n - 1, k - 1;
    }
  }

  /** Every index of two or more entries can mislead it: one number past its end, and two generations back. */
  lemma EmptyHashMisleads(tree: Tree, index: Index, s: Shape)
    requires Sound(tree, index, s) && tree[s.tail].number >= 1
    ensures Misled(index, EMPTY, tree[s.tail].number + 1, 2)
  {
    assert Covers(tree, index, s.head, s.tail, tree[s.tail].number + 1);
    assert Covers(tree, index, s.head, s.tail, tree[s.tail].number - 1);
  }

  /** A header chain, whose index is the path of its current header, can be queried as well. */
  lemma CanonicalSound(tree: Tree, genesis: Hash, index: Index, head: Hash)
    requires Closed(tree, genesis) && EMPTY !in tree && Canonical(tree, index, head)
    ensures Sound(tree, index, Shape(genesis, head, head, tree[head].number))
  {
    CanonicalCovers(tree, index, head);
  }

  /** An index without stale entries lets nothing stray. */
  lemma CleanNeverStrays(tree: Tree, index: Index, s: Shape, hash: Hash, number: nat, k: nat, budget: nat)
    requires Canonical(tree, index, s.head)
    ensures !Strayed(tree, index, s, hash, number, k, budget)
    ensures forall reverse, skip: nat, x, y :: !Astray(tree, index, s, reverse, skip, x, y)
  {
    assert Entry(tree, index, s.head, tree[s.head].number + 1);
    forall n: nat
      ensures !Meets(tree, index, s, hash, number, n)
    {
      assert Entry(tree, index, s.head, n);
    }
  }

  // Header queries in hash mode.

  const SOFT_RESPONSE_LIMIT: nat := 2 * 1024 * 1024
  const EST_HEADER_SIZE: nat := 500
  const MAX_HEADER_FETCH: nat := 192

  /** Neighbours in a hash-mode reply: exactly `skip + 1` generations apart, in the direction asked for. */
  predicate Apart(tree: Tree, reverse: bool, skip: nat, x: Block, y: Block) {
    if reverse
    then y.hash == Up(tree, x.hash, skip + 1) && y.number + skip + 1 == x.number
    else x.hash == Up(tree, y.hash, skip + 1) && x.number + skip + 1 == y.number
  }

  /**
   The upper of two neighbours descends from the lowest stale entry, and the lower is between the fork
   and the head.
   */
  predicate Astray(tree: Tree, index: Index, s: Shape, reverse: bool, skip: nat, x: Block, y: Block) {
    var upper, lower := if reverse then x else y, if reverse then y else x;
    && skip > 0 && s.head in tree && Crosses(tree, s, lower.number, upper.number)
    && Meets(tree, index, s, upper.hash, upper.number, tree[s.head].number + 1)
  }

  /** The next origin of a hash-mode query, or the empty hash when the traversal stops. */
  function Onward(tree: Tree, index: Index, origin: Block, reverse: bool, skip: nat, budget: nat): Answer {
    if reverse then
      var ancestor := (skip + 1) % WORD;
      if ancestor == 0 then Answer(EMPTY, 0, budget)
      else Ancestor(tree, index, origin.hash, origin.number, ancestor, budget)
    else
      var next := (origin.number + skip + 1) % WORD;
      if next <= origin.number || next !in index then Answer(EMPTY, 0, budget)
      else
        var expected := Ancestor(tree, index, index[next], next, skip + 1, budget);
        if expected.hash == origin.hash then Answer(index[next], next, expected.left)
        else Answer(EMPTY, 0, expected.left)
  }

  /** A block whose path meets the index above the head meets it right above the head. */
  lemma MeetsLowest(tree: Tree, index: Index, s: Shape, hash: Hash, number: nat, n: nat)
    requires Sound(tree, index, s) && Stored(tree, hash, number) && Meets(tree, index, s, hash, number, n)
    ensures Meets(tree, index, s, hash, number, tree[s.head].number + 1)
  {
    var low := tree[s.head].number + 1;
    assert Covers(tree, index, s.head, s.tail, n) && Covers(tree, index, s.head, s.tail, low);
    AtAt(tree, s.genesis, hash, n, low);
    AtAt(tree, s.genesis, s.tail, n, low);
  }

  /** A walk that passes there and does not give up finds the index in time. */
  lemma {:induction false} WalkFinds(tree: Tree, index: Index, s: Shape, hash: Hash, number: nat, k: nat, budget: nat)
    requires Sound(tree, index, s) && Stored(tree, hash, number) && k <= number && number - k <= tree[s.head].number
    requires Meets(tree, index, s, hash, number, tree[s.head].number + 1)
    requires Walk(tree, index, hash, number, k, budget).hash != EMPTY
    ensures MeetsWithin(tree, index, s, hash, number, budget)
    decreases k
  {
    var low := tree[s.head].number + 1;
    if ReadIndex(index, number) == hash {
      NeverEmpty(tree, index, s, number);
      assert Meets(tree, index, s, hash, number, number);
    } else {
      assert Linked(tree, s.genesis, hash);
      var p := tree[hash].parent;
      AtAt(tree, s.genesis, hash, number - 1, low);
      assert Meets(tree, index, s, p, number - 1, low);
      WalkFinds(tree, index, s, p, number - 1, k - 1, budget - 1);
      var n: nat :| Meets(tree, index, s, p, number - 1, n) && number - 1 <= n + (budget - 1);
      AtAt(tree, s.genesis, hash, number - 1, n);
      assert Meets(tree, index, s, hash, number, n);
    }
  }

  /** Towards the genesis: the next header is the right one exactly if the two are not astray. */
  lemma BackwardIff(tree: Tree, index: Index, s: Shape, origin: Block, skip: nat, budget: nat)
    requires Sound(tree, index, s) && origin.hash in tree && tree[origin.hash] == origin && skip + 1 < WORD
    ensures var r := Onward(tree, index, origin, true, skip, budget);
            r.hash != EMPTY ==>
              && Stored(tree, r.hash, r.number)
              && (Apart(tree, true, skip, origin, tree[r.hash]) <==>
                    !Astray(tree, index, s, true, skip, origin, tree[r.hash]))
  {
    var r := Onward(tree, index, origin, true, skip, budget);
    assert Linked(tree, s.genesis, origin.hash) && Linked(tree, s.genesis, r.hash);
    if r.hash != EMPTY && skip > 0 {
      WalkIff(tree, index, s, origin.hash, origin.number, skip + 1, budget);
      if Astray(tree, index, s, true, skip, origin, tree[r.hash]) {
        WalkFinds(tree, index, s, origin.hash, origin.number, skip + 1, budget);
      }
      if Strayed(tree, index, s, origin.hash, origin.number, skip + 1, budget) {
        var n: nat :| Meets(tree, index, s, origin.hash, origin.number, n) && origin.number <= n + budget;
        MeetsLowest(tree, index, s, origin.hash, origin.number, n);
      }
    }
  }

  /** Towards the head. */
  lemma ForwardIff(tree: Tree, index: Index, s: Shape, origin: Block, skip: nat, budget: nat)
    requires Sound(tree, index, s) && origin.hash in tree && tree[origin.hash] == origin && skip < WORD
    requires origin.number < WORD
    ensures var r := Onward(tree, index, origin, false, skip, budget);
            r.hash != EMPTY ==>
              && Stored(tree, r.hash, r.number)
              && (Apart(tree, false, skip, origin, tree[r.hash]) <==>
                    !Astray(tree, index, s, false, skip, origin, tree[r.hash]))
  {
    var r := Onward(tree, index, origin, false, skip, budget);
    if r.hash != EMPTY {
      var next := r.number;
      assert next == origin.number + skip + 1;
      IndexedAncestor(tree, index, s, next, skip + 1);
      assert Linked(tree, s.genesis, r.hash) && Linked(tree, s.genesis, origin.hash);
      if next > tree[s.head].number {
        assert Meets(tree, index, s, r.hash, next, next);
        MeetsLowest(tree, index, s, r.hash, next, next);
      }
    }
  }

  /** The next origin of a hash-mode query, for every 64-bit skip, wrap-around included. */
  method Advance(tree: Tree, index: Index, origin: Block, reverse: bool, skip: nat, budget: nat, ghost s: Shape)
    returns (hash: Hash, number: nat, left: nat)
    requires Sound(tree, index, s) && origin.hash in tree && tree[origin.hash] == origin
    requires skip < WORD && origin.number < WORD
    ensures Answer(hash, number, left) == Onward(tree, index, origin, reverse, skip, budget)
    ensures hash != EMPTY ==>
              && Stored(tree, hash, number)
              && (Apart(tree, reverse, skip, origin, tree[hash]) <==>
                    !Astray(tree, index, s, reverse, skip, origin, tree[hash]))
  {
    left := budget;
    if reverse {
      var ancestor := (skip + 1) % WORD;
      if ancestor == 0 {
        return EMPTY, 0, left;
      }
      BackwardIff(tree, index, s, origin, skip, budget);
      hash, number, left := GetAncestor(tree, index, origin.hash, origin.number, ancestor, left, s);
    } else {
      var next := (origin.number + skip + 1) % WORD;
      if next <= origin.number || next !in index {
        return EMPTY, 0, left;
      }
      ForwardIff(tree, index, s, origin, skip, budget);
      var expected, n;
      expected, n, left := GetAncestor(tree, index, index[next], next, skip + 1, left, s);
      if expected != origin.hash {
        return EMPTY, 0, left;
      }
      return index[next], next, left;
    }
  }

  ghost predicate FollowedAt(tree: Tree, index: Index, headers: seq<Block>, budgets: seq<nat>, reverse: bool, skip: nat,
                             i: nat)
    requires 0 < i < |headers| == |budgets|
  {
    var r := Onward(tree, index, headers[i - 1], reverse, skip, budgets[i - 1]);
    r.hash in tree && headers[i] == tree[r.hash] && budgets[i] == r.left
  }

  /** A reply: each header is the one before's next origin, on what is left of the budget of 100 by then. */
  ghost predicate Reply(tree: Tree, index: Index, headers: seq<Block>, budgets: seq<nat>, reverse: bool, skip: nat) {
    && |budgets| == |headers| && (headers != [] ==> budgets[0] == 100)
    && (forall i | 0 <= i < |headers| :: headers[i].hash in tree && tree[headers[i].hash] == headers[i])
    && forall i: nat {:trigger FollowedAt(tree, index, headers, budgets, reverse, skip, i)} | 0 < i < |headers| ::
         FollowedAt(tree, index, headers, budgets, reverse, skip, i)
  }

  ghost predicate RightAt(tree: Tree, index: Index, s: Shape, headers: seq<Block>, reverse: bool, skip: nat, i: nat)
    requires 0 < i < |headers|
  {
    Apart(tree, reverse, skip, headers[i - 1], headers[i]) <==>
      !Astray(tree, index, s, reverse, skip, headers[i - 1], headers[i])
  }

  /** Its neighbours are exactly `skip + 1` generations apart, if and only if they are not astray. */
  ghost predicate RightIff(tree: Tree, index: Index, s: Shape, headers: seq<Block>, reverse: bool, skip: nat) {
    forall i: nat {:trigger RightAt(tree, index, s, headers, reverse, skip, i)} | 0 < i < |headers| ::
      RightAt(tree, index, s, headers, reverse, skip, i)
  }

  /** One header more. */
  lemma ReplyMore(tree: Tree, index: Index, s: Shape, headers: seq<Block>, budgets: seq<nat>, reverse: bool, skip: nat,
                  y: Block, left: nat)
    requires Reply(tree, index, headers, budgets, reverse, skip) && RightIff(tree, index, s, headers, reverse, skip)
    requires headers != [] && y.hash in tree && tree[y.hash] == y
    requires var x, budget := headers[|headers| - 1], budgets[|budgets| - 1];
             && Onward(tree, index, x, reverse, skip, budget).hash == y.hash
             && Onward(tree, index, x, reverse, skip, budget).left == left
             && (Apart(tree, reverse, skip, x, y) <==> !Astray(tree, index, s, reverse, skip, x, y))
    ensures Reply(tree, index, headers + [y], budgets + [left], reverse, skip)
    ensures RightIff(tree, index, s, headers + [y], reverse, skip)
  {
    var headers', budgets' := headers + [y], budgets + [left];
    forall i: nat | 0 < i < |headers'|
      ensures FollowedAt(tree, index, headers', budgets', reverse, skip, i)
      ensures RightAt(tree, index, s, headers', reverse, skip, i)
    {
      if i < |headers| {
        assert FollowedAt(tree, index, headers, budgets, reverse, skip, i)
               && RightAt(tree, index, s, headers, reverse, skip, i);
      }
    }
  }

  // Where a reply ends.

  /** The ancestor of a block at `m` is on the index. */
  predicate OnIndex(tree: Tree, index: Index, hash: Hash, m: nat) {
    m in index && index[m] == At(tree, hash, m)
  }

  /** The number at which a walk of at most `k` generations joins the index. */
  function Join(tree: Tree, index: Index, hash: Hash, number: nat, k: nat): (n: nat)
    requires k <= number
    ensures number - k <= n <= number && (n == number - k || OnIndex(tree, index, hash, n))
    ensures forall m | n < m <= number :: !OnIndex(tree, index, hash, m)
  {
    if k == 0 || OnIndex(tree, index, hash, number) then number else Join(tree, index, hash, number - 1, k - 1)
  }

  lemma JoinParent(tree: Tree, index: Index, genesis: Hash, hash: Hash, number: nat, k: nat)
    requires Closed(tree, genesis) && Stored(tree, hash, number) && 0 < k <= number
    requires !OnIndex(tree, index, hash, number)
    ensures Join(tree, index, tree[hash].parent, number - 1, k - 1) == Join(tree, index, hash, number, k)
  {
    var p := tree[hash].parent;
    assert Linked(tree, genesis, hash);
    forall m: nat | m < number
      ensures OnIndex(tree, index, hash, m) <==> OnIndex(tree, index, p, m)
    {
      AtAt(tree, genesis, hash, number - 1, m);
    }
  }

  /** The walk costs what lies above the number at which it joins the index, and gives up if that is too much. */
  lemma {:induction false} WalkJoins(tree: Tree, index: Index, s: Shape, hash: Hash, number: nat, k: nat, budget: nat)
    requires Sound(tree, index, s) && Stored(tree, hash, number) && k <= number
    ensures var r, cost := Walk(tree, index, hash, number, k, budget), number - Join(tree, index, hash, number, k);
            && (r.hash != EMPTY <==> cost <= budget)
            && r.left == if cost <= budget then budget - cost else 0
    decreases k
  {
    assert Linked(tree, s.genesis, hash);
    NeverEmpty(tree, index, s, number);
    if k > 0 && OnIndex(tree, index, hash, number) {
      IndexedAncestor(tree, index, s, number, k);
      NeverEmpty(tree, index, s, number - k);
    } else if k > 0 && budget > 0 {
      JoinParent(tree, index, s.genesis, hash, number, k);
      WalkJoins(tree, index, s, tree[hash].parent, number - 1, k - 1, budget - 1);
    }
  }

  /**
   Why a reply ends at `x` though its limits allow more. Towards the genesis: that is nearer than
   `skip + 1`, or the walk to the index is more than what is left of the budget. Towards the head: the
   next number is past the index, or the block there does not come from `x`.
   */
  predicate Ends(tree: Tree, index: Index, x: Block, reverse: bool, skip: nat, budget: nat) {
    if reverse
    then x.number < skip + 1 || (skip > 0 && x.number - Join(tree, index, x.hash, x.number, skip + 1) > budget)
    else || x.number + skip + 1 !in index
         || x.hash != if skip == 0 then Up(tree, index[x.number + 1], 1) else ReadIndex(index, x.number)
  }

  ghost predicate Numbered(tree: Tree) {
    forall h | h in tree :: tree[h].number < WORD
  }

  lemma BackwardFrom(tree: Tree, index: Index, s: Shape, x: Block, skip: nat, budget: nat)
    requires Sound(tree, index, s) && Numbered(tree) && x.hash in tree && tree[x.hash] == x && skip < WORD
    ensures var r := Onward(tree, index, x, true, skip, budget);
            && (r.hash == EMPTY <==> Ends(tree, index, x, true, skip, budget))
            && (r.hash != EMPTY ==> r.left == if skip == 0 then budget
                                              else budget - (x.number - Join(tree, index, x.hash, x.number, skip + 1)))
  {
    assert Linked(tree, s.genesis, x.hash);
    if 0 < skip < x.number {
      WalkJoins(tree, index, s, x.hash, x.number, skip + 1, budget);
    }
  }

  lemma ForwardFrom(tree: Tree, index: Index, s: Shape, x: Block, skip: nat, budget: nat)
    requires Sound(tree, index, s) && Numbered(tree) && x.hash in tree && tree[x.hash] == x && skip < WORD
    ensures var r := Onward(tree, index, x, false, skip, budget);
            && (r.hash == EMPTY <==> Ends(tree, index, x, false, skip, budget)) && r.left == budget
  {
    var next := x.number + skip + 1;
    assert Linked(tree, s.genesis, x.hash);
    if next in index {
      EntryStored(tree, index, s, next);
      assert Up(tree, index[next], 1) == tree[index[next]].parent;
    }
  }

  /** A reply ends for one of these reasons, and whenever one of them holds. */
  lemma EndsIff(tree: Tree, index: Index, s: Shape, x: Block, reverse: bool, skip: nat, budget: nat)
    requires Sound(tree, index, s) && Numbered(tree) && x.hash in tree && tree[x.hash] == x && skip < WORD
    ensures Onward(tree, index, x, reverse, skip, budget).hash == EMPTY <==> Ends(tree, index, x, reverse, skip, budget)
  {
    if reverse {
      BackwardFrom(tree, index, s, x, skip, budget);
    } else {
      ForwardFrom(tree, index, s, x, skip, budget);
    }
  }

  /** What a step of a reply takes from the budget: the way to the index, if it walks there at all. */
  lemma ReplySpends(tree: Tree, index: Index, s: Shape, headers: seq<Block>, budgets: seq<nat>, reverse: bool,
                    skip: nat, i: nat)
    requires Sound(tree, index, s) && Numbered(tree) && skip < WORD && 0 < i < |headers|
    requires Reply(tree, index, headers, budgets, reverse, skip)
    ensures var x := headers[i - 1];
            && (reverse ==> skip + 1 <= x.number)
            && budgets[i - 1] == budgets[i] +
               if reverse && skip > 0 then x.number - Join(tree, index, x.hash, x.number, skip + 1) else 0
  {
    var x, budget := headers[i - 1], budgets[i - 1];
    assert FollowedAt(tree, index, headers, budgets, reverse, skip, i);
    assert Linked(tree, s.genesis, EMPTY);
    if reverse {
      BackwardFrom(tree, index, s, x, skip, budget);
    } else {
      ForwardFrom(tree, index, s, x, skip, budget);
    }
  }

  // How long a reply is.

  /** The block itself is an entry of the index. */
  predicate Listed(index: Index, x: Block) {
    x.number in index && index[x.number] == x.hash
  }

  /**
   Nothing but the two ends stops a reply at `x`: steps of one towards the genesis need no index, other
   steps start on it, and steps of one towards the head need it without stale entries.
   */
  ghost predicate Steady(tree: Tree, index: Index, s: Shape, x: Block, reverse: bool, skip: nat) {
    (skip == 0 && reverse) || (Listed(index, x) && (skip > 0 || Canonical(tree, index, s.head)))
  }

  lemma SteadyBackward(tree: Tree, index: Index, s: Shape, x: Block, skip: nat, budget: nat)
    requires Sound(tree, index, s) && Numbered(tree) && x.hash in tree && tree[x.hash] == x && skip < WORD
    requires Steady(tree, index, s, x, true, skip)
    ensures var r := Onward(tree, index, x, true, skip, budget);
            if x.number < skip + 1 then r.hash == EMPTY
            else
              && r.hash in tree && r.left == budget && tree[r.hash].number == x.number - (skip + 1)
              && Steady(tree, index, s, tree[r.hash], true, skip)
  {
    assert Linked(tree, s.genesis, x.hash);
    if 0 < skip < x.number {
      IndexedAncestor(tree, index, s, x.number, skip + 1);
      assert Linked(tree, s.genesis, index[x.number - (skip + 1)]);
    }
  }

  lemma SteadyForward(tree: Tree, index: Index, s: Shape, x: Block, skip: nat, budget: nat)
    requires Sound(tree, index, s) && Numbered(tree) && x.hash in tree && tree[x.hash] == x && skip < WORD
    requires Steady(tree, index, s, x, false, skip)
    ensures var r := Onward(tree, index, x, false, skip, budget);
            if x.number + skip + 1 > tree[s.tail].number then r.hash == EMPTY
            else
              && r.hash in tree && r.left == budget && tree[r.hash].number == x.number + skip + 1
              && Steady(tree, index, s, tree[r.hash], false, skip)
  {
    var next := x.number + skip + 1;
    assert Covers(tree, index, s.head, s.tail, next);
    if next in index {
      IndexedAncestor(tree, index, s, next, skip + 1);
      assert Linked(tree, s.genesis, index[next]);
      if skip == 0 {
        CanonicalIff(tree, index, s.head, s.tail);
        assert Up(tree, index[next], 1) == tree[index[next]].parent;
      }
    }
  }

  /** How far the index reaches from `x` in the direction asked for. */
  function Room(tree: Tree, s: Shape, x: Block, reverse: bool): int {
    if reverse then x.number else if s.tail in tree then tree[s.tail].number - x.number else 0
  }

  lemma SteadyStep(tree: Tree, index: Index, s: Shape, x: Block, reverse: bool, skip: nat, budget: nat)
    requires Sound(tree, index, s) && Numbered(tree) && x.hash in tree && tree[x.hash] == x && skip < WORD
    requires Steady(tree, index, s, x, reverse, skip)
    ensures var r := Onward(tree, index, x, reverse, skip, budget);
            if Room(tree, s, x, reverse) < skip + 1 then r.hash == EMPTY
            else
              && r.hash in tree && Steady(tree, index, s, tree[r.hash], reverse, skip)
              && Room(tree, s, tree[r.hash], reverse) == Room(tree, s, x, reverse) - (skip + 1)
  {
    if reverse {
      SteadyBackward(tree, index, s, x, skip, budget);
    } else {
      SteadyForward(tree, index, s, x, skip, budget);
    }
  }

  lemma {:induction false} SteadyReply(tree: Tree, index: Index, s: Shape, headers: seq<Block>, budgets: seq<nat>,
                                       reverse: bool, skip: nat, i: nat)
    requires Sound(tree, index, s) && Numbered(tree) && skip < WORD && i < |headers|
    requires Reply(tree, index, headers, budgets, reverse, skip) && Steady(tree, index, s, headers[0], reverse, skip)
    ensures Steady(tree, index, s, headers[i], reverse, skip)
    ensures Room(tree, s, headers[i], reverse) == Room(tree, s, headers[0], reverse) - i * (skip + 1)
    ensures i > 0 ==> Room(tree, s, headers[i - 1], reverse) >= skip + 1
  {
    if i > 0 {
      SteadyReply(tree, index, s, headers, budgets, reverse, skip, i - 1);
      assert FollowedAt(tree, index, headers, budgets, reverse, skip, i);
      SteadyStep(tree, index, s, headers[i - 1], reverse, skip, budgets[i - 1]);
      assert Linked(tree, s.genesis, EMPTY);
      assert i * (skip + 1) == (i - 1) * (skip + 1) + (skip + 1);
    }
  }

  lemma TimesUp(a: nat, b: nat, d: nat)
    requires a < b
    ensures a * d + d <= b * d
  {
    assert (a + 1) * d <= b * d;
  }

  lemma Quotient(n: nat, d: nat, q: nat)
    requires d > 0 && q * d <= n
    ensures q <= n / d && (n < q * d + d ==> n / d == q)
  {
    var k := n / d;
    assert n == k * d + n % d;
    if k < q {
      TimesUp(k, q, d);
    } else if k > q {
      TimesUp(q, k, d);
    }
  }

  /** The number of headers a query can have: as many as the limits allow, and as fit in the room there is. */
  function Fitting(amount: nat, room: nat, skip: nat): nat {
    Min(Min(amount, MAX_HEADER_FETCH), room / (skip + 1) + 1)
  }

  lemma FitsExactly(count: nat, amount: nat, room: nat, skip: nat)
    requires 0 < count <= amount && count <= MAX_HEADER_FETCH && (count - 1) * (skip + 1) <= room
    requires count < amount && count < MAX_HEADER_FETCH ==> room - (count - 1) * (skip + 1) < skip + 1
    ensures count == Fitting(amount, room, skip)
  {
    var q := count - 1;
    Quotient(room, skip + 1, q);
  }

  /** There is room at every steady header. */
  lemma HasRoom(tree: Tree, index: Index, s: Shape, x: Block, reverse: bool, skip: nat)
    requires Sound(tree, index, s) && Steady(tree, index, s, x, reverse, skip)
    ensures Room(tree, s, x, reverse) >= 0
  {
    assert Covers(tree, index, s.head, s.tail, x.number);
  }

  /** A steady reply is as long as it can be. */
  lemma FullLength(tree: Tree, index: Index, s: Shape, headers: seq<Block>, budgets: seq<nat>, reverse: bool, skip: nat,
                   amount: nat)
    requires Sound(tree, index, s) && Numbered(tree) && skip < WORD
    requires 0 < |headers| <= amount && |headers| <= MAX_HEADER_FETCH
    requires Reply(tree, index, headers, budgets, reverse, skip) && Steady(tree, index, s, headers[0], reverse, skip)
    requires |headers| < amount && |headers| < MAX_HEADER_FETCH ==>
               Onward(tree, index, headers[|headers| - 1], reverse, skip, budgets[|headers| - 1]).hash == EMPTY
    ensures Room(tree, s, headers[0], reverse) >= 0
    ensures |headers| == Fitting(amount, Room(tree, s, headers[0], reverse), skip)
  {
    var q := |headers| - 1;
    SteadyReply(tree, index, s, headers, budgets, reverse, skip, q);
    HasRoom(tree, index, s, headers[0], reverse, skip);
    HasRoom(tree, index, s, headers[q], reverse, skip);
    SteadyStep(tree, index, s, headers[q], reverse, skip, budgets[q]);
    FitsExactly(|headers|, amount, Room(tree, s, headers[0], reverse), skip);
  }

  /**
   The `GetBlockHeadersMsg` loop in hash mode. The reply starts at the origin, goes on for as long as
   the limits allow and nothing ends it, and is right exactly where it is not astray. A steady one is as
   long as it can be.
   */
  method ByHash(tree: Tree, index: Index, hash: Hash, amount: int, skip: nat, reverse: bool, ghost s: Shape)
    returns (headers: seq<Block>, ghost budgets: seq<nat>)
    requires Sound(tree, index, s) && hash != EMPTY && skip < WORD && Numbered(tree)
    ensures |headers| <= MAX_HEADER_FETCH && (|headers| <= amount || headers == [])
    ensures headers != [] <==> hash in tree && amount > 0
    ensures headers != [] ==> headers[0] == tree[hash]
    ensures Reply(tree, index, headers, budgets, reverse, skip) && RightIff(tree, index, s, headers, reverse, skip)
    ensures 0 < |headers| < amount && |headers| < MAX_HEADER_FETCH ==>
              Ends(tree, index, headers[|headers| - 1], reverse, skip, budgets[|headers| - 1])
    ensures headers != [] && Steady(tree, index, s, tree[hash], reverse, skip) ==>
              var room := Room(tree, s, tree[hash], reverse); room >= 0 && |headers| == Fitting(amount, room, skip)
  {
    headers, budgets := [], [];
    var origin, budget, bytes, unknown := hash, 100, 0, false;
    while !unknown && |headers| < amount && bytes < SOFT_RESPONSE_LIMIT && |headers| < MAX_HEADER_FETCH
      invariant |headers| <= MAX_HEADER_FETCH && (|headers| <= amount || headers == [])
      invariant bytes == |headers| * EST_HEADER_SIZE
      invariant headers == [] ==> origin == hash && budget == 100 && !unknown
      invariant headers != [] ==> hash in tree && headers[0] == tree[hash]
      invariant Reply(tree, index, headers, budgets, reverse, skip) && RightIff(tree, index, s, headers, reverse, skip)
      invariant headers != [] ==>
                  var x := headers[|headers| - 1];
                  var r := Onward(tree, index, x, reverse, skip, budgets[|headers| - 1]);
                  && origin == r.hash && budget == r.left && unknown == (origin == EMPTY)
                  && (!unknown ==>
                        && origin in tree
                        && (Apart(tree, reverse, skip, x, tree[origin]) <==>
                              !Astray(tree, index, s, reverse, skip, x, tree[origin])))
      decreases MAX_HEADER_FETCH - |headers|
    {
      if origin !in tree {
        break;
      }
      var header := tree[origin];
      assert Linked(tree, s.genesis, origin);
      if headers != [] {
        ReplyMore(tree, index, s, headers, budgets, reverse, skip, header, budget);
      }
      headers, budgets, bytes := headers + [header], budgets + [budget], bytes + EST_HEADER_SIZE;
      var number;
      origin, number, budget := Advance(tree, index, header, reverse, skip, budget, s);
      unknown := origin == EMPTY;
    }
    if headers != [] {
      EndsIff(tree, index, s, headers[|headers| - 1], reverse, skip, budgets[|headers| - 1]);
      if Steady(tree, index, s, headers[0], reverse, skip) {
        FullLength(tree, index, s, headers, budgets, reverse, skip, amount);
      }
    }
  }
}
