/**
 The five views a transaction pool keeps of one set of transactions, and what it means for
 them to agree while an operation has some of one account's transactions in hand.
 */
module PoolModel {
  import opened Values
  import opened TxTypes

  type Lists = map<Address, Items>
  type Lookup = map<Hash, Tx>

  function At(lists: Lists, a: Address): Items {
    if a in lists then lists[a] else map[]
  }

  /** Files `items` under `a`; the pool keeps no empty lists. */
  function Store(lists: Lists, a: Address, items: Items): Lists {
    if items == map[] then lists - {a} else lists[a := items]
  }

  lemma StoreSelf(lists: Lists, a: Address)
    requires Full(lists, a)
    ensures Is(Store(lists, a, At(lists, a)), lists)
  {
    assert Store(lists, a, At(lists, a)) == lists;
  }

  lemma StoreTwice(lists: Lists, a: Address, x: Items, y: Items)
    ensures Is(At(Store(lists, a, x), a), x) && Is(Store(Store(lists, a, x), a, y), Store(lists, a, y))
  {
    assert Store(Store(lists, a, x), a, y) == Store(lists, a, y);
  }

  lemma StoreElsewhere(lists: Lists, a: Address, x: Items, b: Address)
    requires b != a
    ensures Is(At(Store(lists, a, x), b), At(lists, b))
  {
  }

  lemma MoveOne(x: Items, left: Items, n: nat)
    requires n in left
    ensures Is(x[n := left[n]] + (left - {n}), x + left)
  {
    assert x[n := left[n]] + (left - {n}) == x + left;
  }

  lemma AllMoved(x: Items)
    ensures Is(x + map[], x) && Is(map[] + x, x)
  {
    assert x + map[] == x && map[] + x == x;
  }

  lemma UnionMinus(rest: Items, left: Items, n: nat)
    requires n in left && rest.Keys !! left.Keys
    ensures (rest + left)[n] == left[n] && Is((rest + left) - {n}, rest + (left - {n}))
  {
    assert (rest + left) - {n} == rest + (left - {n});
  }

  predicate Full(lists: Lists, a: Address) {
    a in lists ==> lists[a] != map[]
  }

  ghost predicate NoEmpty(lists: Lists) {
    forall a {:trigger Full(lists, a)} :: Full(lists, a)
  }

  lemma StoreNoEmpty(lists: Lists, a: Address, items: Items)
    requires NoEmpty(lists)
    ensures NoEmpty(Store(lists, a, items))
  {
    forall b
      ensures Full(Store(lists, a, items), b)
    {
      assert Full(lists, b);
    }
  }

  predicate Holds(items: Items, t: Tx) {
    t.nonce in items && items[t.nonce] == t
  }

  /** `items` files, under their nonces, exactly the known transactions sent by `a`. */
  ghost predicate Files(items: Items, a: Address, all: Lookup) {
    && (forall n | n in items ::
          && items[n].sender == a && items[n].nonce == n
          && items[n].hash in all && all[items[n].hash] == items[n])
    && (forall h | h in all && all[h].sender == a :: Holds(items, all[h]))
  }

  ghost predicate Apart(x: Items, y: Items, z: Items) {
    x.Keys !! y.Keys !! z.Keys
  }

  function InHand(a: Address, who: Address, hand: Items): Items {
    if a == who then hand else map[]
  }

  /** Account `a`'s known transactions are the disjoint union of three lists. */
  ghost predicate Account(a: Address, pending: Items, queue: Items, hand: Items, all: Lookup) {
    Apart(pending, queue, hand) && Files(pending + queue + hand, a, all)
  }

  /**
   The lookup is the disjoint union of all pending lists, all queues and `hand`, the
   transactions of account `who` that the running operation has taken out of its lists.
   */
  ghost predicate Coherent(pending: Lists, queue: Lists, all: Lookup, who: Address, hand: Items) {
    && (forall h | h in all :: all[h].hash == h)
    && (forall a {:trigger Account(a, At(pending, a), At(queue, a), InHand(a, who, hand), all)} ::
          Account(a, At(pending, a), At(queue, a), InHand(a, who, hand), all))
  }

  /** `p'` and `q'` differ from `p` and `q` at account `a` only. */
  ghost predicate OnlyAt(p: Lists, q: Lists, p': Lists, q': Lists, a: Address) {
    forall b {:trigger At(p', b)} {:trigger At(q', b)} | b != a :: At(p', b) == At(p, b) && At(q', b) == At(q, b)
  }

  /** Regrouping one account's transactions keeps the views coherent. */
  lemma Regroup(p: Lists, q: Lists, all: Lookup, a: Address, hand: Items, p': Lists, q': Lists, hand': Items)
    requires Coherent(p, q, all, a, hand) && OnlyAt(p, q, p', q', a)
    requires Apart(At(p', a), At(q', a), hand')
    requires At(p', a) + At(q', a) + hand' == At(p, a) + At(q, a) + hand
    ensures Coherent(p', q', all, a, hand')
  {
    forall b
      ensures Account(b, At(p', b), At(q', b), InHand(b, a, hand'), all)
    {
      assert Account(b, At(p, b), At(q, b), InHand(b, a, hand), all);
    }
  }

  /** What is known of a transaction in hand. */
  lemma InHandFacts(p: Lists, q: Lists, all: Lookup, a: Address, hand: Items, n: nat)
    requires Coherent(p, q, all, a, hand) && n in hand
    ensures hand[n].sender == a && hand[n].nonce == n
    ensures hand[n].hash in all && all[hand[n].hash] == hand[n]
    ensures n !in At(p, a) && n !in At(q, a)
  {
    assert Account(a, At(p, a), At(q, a), InHand(a, a, hand), all);
    assert (At(p, a) + At(q, a) + hand)[n] == hand[n];
  }

  /** Forgetting one transaction in hand. */
  lemma ForgetOne(p: Lists, q: Lists, all: Lookup, a: Address, hand: Items, n: nat)
    requires Coherent(p, q, all, a, hand) && n in hand
    ensures Coherent(p, q, all - {hand[n].hash}, a, hand - {n})
  {
    var t := hand[n];
    InHandFacts(p, q, all, a, hand, n);
    forall b
      ensures Account(b, At(p, b), At(q, b), InHand(b, a, hand - {n}), all - {t.hash})
    {
      var x, y, z, z' := At(p, b), At(q, b), InHand(b, a, hand), InHand(b, a, hand - {n});
      assert Account(b, x, y, z, all);
      assert b == a ==> x + y + z' == (x + y + z) - {n};
      FilesMinus(x + y + z, x + y + z', b, all, t);
    }
  }

  lemma FilesMinus(items: Items, items': Items, b: Address, all: Lookup, t: Tx)
    requires Files(items, b, all) && t.hash in all && all[t.hash] == t
    requires forall h | h in all :: all[h].hash == h
    requires if t.sender == b then items' == items - {t.nonce} else items' == items
    ensures Files(items', b, all - {t.hash})
  {
    forall h | h in all - {t.hash} && all[h].sender == b
      ensures Holds(items', all[h])
    {
      assert Holds(items, all[h]);
    }
  }

  /** Learning of a new transaction whose nonce is in none of the sender's lists. */
  lemma LearnOne(p: Lists, q: Lists, all: Lookup, t: Tx)
    requires Coherent(p, q, all, t.sender, map[]) && t.hash !in all
    requires t.nonce !in At(p, t.sender) && t.nonce !in At(q, t.sender)
    ensures Coherent(p, q, all[t.hash := t], t.sender, map[t.nonce := t])
  {
    forall b
      ensures Account(b, At(p, b), At(q, b), InHand(b, t.sender, map[t.nonce := t]), all[t.hash := t])
    {
      var known: Items, z: Items := At(p, b) + At(q, b), InHand(b, t.sender, map[t.nonce := t]);
      assert Account(b, At(p, b), At(q, b), InHand(b, t.sender, map[]), all);
      assert known + InHand(b, t.sender, map[]) == known;
      FilesPlus(known, known + z, b, all, t);
    }
  }

  lemma FilesPlus(items: Items, items': Items, b: Address, all: Lookup, t: Tx)
    requires Files(items, b, all) && t.hash !in all
    requires if t.sender == b then t.nonce !in items && items' == items[t.nonce := t] else items' == items
    ensures Files(items', b, all[t.hash := t])
  {
    var all' := all[t.hash := t];
    forall h | h in all' && all'[h].sender == b
      ensures Holds(items', all'[h])
    {
      assert h != t.hash ==> Holds(items, all[h]);
    }
  }

  /** With nothing in hand the account in focus is immaterial. */
  lemma Refocus(p: Lists, q: Lists, all: Lookup, a: Address, a': Address)
    requires Coherent(p, q, all, a, map[])
    ensures Coherent(p, q, all, a', map[])
  {
    forall b
      ensures Account(b, At(p, b), At(q, b), InHand(b, a', map[]), all)
    {
      assert Account(b, At(p, b), At(q, b), InHand(b, a, map[]), all);
    }
  }

  /** Part of one of two lists moves to the hand. */
  lemma Carve(x: Items, y: Items, hand: Items, kept: Items, taken: Items)
    requires Apart(x, y, hand) && Split(y, kept, taken)
    ensures Apart(x, kept, hand + taken) && Apart(kept, x, hand + taken)
    ensures x + kept + (hand + taken) == x + y + hand && kept + x + (hand + taken) == y + x + hand
  {
  }

  /** Taking `taken` out of account `a`'s pending list, leaving `kept`. */
  lemma TakePending(p: Lists, q: Lists, all: Lookup, a: Address, hand: Items, kept: Items, taken: Items)
    requires Coherent(p, q, all, a, hand) && Split(At(p, a), kept, taken)
    ensures Coherent(Store(p, a, kept), q, all, a, hand + taken)
  {
    assert Account(a, At(p, a), At(q, a), InHand(a, a, hand), all);
    Carve(At(q, a), At(p, a), hand, kept, taken);
    Regroup(p, q, all, a, hand, Store(p, a, kept), q, hand + taken);
  }

  /** Taking `taken` out of account `a`'s queue, leaving `kept`. */
  lemma TakeQueued(p: Lists, q: Lists, all: Lookup, a: Address, hand: Items, kept: Items, taken: Items)
    requires Coherent(p, q, all, a, hand) && Split(At(q, a), kept, taken)
    ensures Coherent(p, Store(q, a, kept), all, a, hand + taken)
  {
    assert Account(a, At(p, a), At(q, a), InHand(a, a, hand), all);
    Carve(At(p, a), At(q, a), hand, kept, taken);
    Regroup(p, q, all, a, hand, p, Store(q, a, kept), hand + taken);
  }

  /** Queueing one transaction in hand. */
  lemma QueueOne(p: Lists, q: Lists, all: Lookup, a: Address, hand: Items, n: nat)
    requires Coherent(p, q, all, a, hand) && n in hand
    ensures Coherent(p, q[a := At(q, a)[n := hand[n]]], all, a, hand - {n})
  {
    var q' := q[a := At(q, a)[n := hand[n]]];
    assert Account(a, At(p, a), At(q, a), InHand(a, a, hand), all);
    assert At(p, a) + At(q, a) + hand == At(p, a) + At(q', a) + (hand - {n});
    Regroup(p, q, all, a, hand, p, q', hand - {n});
  }

  /** Making one transaction in hand pending. */
  lemma PendOne(p: Lists, q: Lists, all: Lookup, a: Address, hand: Items, n: nat)
    requires Coherent(p, q, all, a, hand) && n in hand
    ensures Coherent(p[a := At(p, a)[n := hand[n]]], q, all, a, hand - {n})
  {
    var p' := p[a := At(p, a)[n := hand[n]]];
    assert Account(a, At(p, a), At(q, a), InHand(a, a, hand), all);
    assert At(p, a) + At(q, a) + hand == At(p', a) + At(q, a) + (hand - {n});
    Regroup(p, q, all, a, hand, p', q, hand - {n});
  }

  /** A known transaction is in exactly one of its sender's lists, at its own nonce. */
  lemma KnownFacts(p: Lists, q: Lists, all: Lookup, h: Hash)
    requires Coherent(p, q, all, 0, map[]) && h in all
    ensures all[h].hash == h
    ensures var t := all[h];
            && (Holds(At(p, t.sender), t) <==> t.nonce in At(p, t.sender))
            && (Holds(At(q, t.sender), t) <==> t.nonce in At(q, t.sender))
            && (Holds(At(p, t.sender), t) <==> !Holds(At(q, t.sender), t))
  {
    var t := all[h];
    assert Account(t.sender, At(p, t.sender), At(q, t.sender), InHand(t.sender, 0, map[]), all);
    assert Holds(At(p, t.sender) + At(q, t.sender) + InHand(t.sender, 0, map[]), t);
  }

  /** Removing a pending transaction leaves the ones above it in hand. */
  lemma RemovePending(p: Lists, q: Lists, all: Lookup, t: Tx)
    requires Coherent(p, q, all, 0, map[]) && Holds(At(p, t.sender), t)
    ensures var list := At(p, t.sender);
            Coherent(Store(p, t.sender, Below(list, t.nonce)), q, all - {t.hash}, t.sender, From(list, t.nonce + 1))
  {
    var a, n, list := t.sender, t.nonce, At(p, t.sender);
    Refocus(p, q, all, 0, a);
    var taken: Items := From(list, n);
    TakePending(p, q, all, a, map[], Below(list, n), taken);
    assert map[] + taken == taken;
    ForgetOne(Store(p, a, Below(list, n)), q, all, a, taken, n);
    assert taken - {n} == From(list, n + 1);
  }

  lemma RemoveQueued(p: Lists, q: Lists, all: Lookup, t: Tx)
    requires Coherent(p, q, all, 0, map[]) && Holds(At(q, t.sender), t)
    ensures Coherent(p, Store(q, t.sender, At(q, t.sender) - {t.nonce}), all - {t.hash}, 0, map[])
  {
    var a, n := t.sender, t.nonce;
    var kept: Items, taken: Items := At(q, a) - {n}, map[n := t];
    Refocus(p, q, all, 0, a);
    TakeQueued(p, q, all, a, map[], kept, taken);
    assert map[] + taken == taken;
    ForgetOne(p, Store(q, a, kept), all, a, taken, n);
    assert taken - {n} == map[];
    Refocus(p, Store(q, a, kept), all - {t.hash}, a, 0);
  }

  /** `all'` is `all` with some transactions forgotten. */
  ghost predicate Within(all': Lookup, all: Lookup) {
    forall h {:trigger Same(all', all, h)} :: Same(all', all, h)
  }

  predicate Same(all': Lookup, all: Lookup, h: Hash) {
    h in all' ==> h in all && all'[h] == all[h]
  }

  lemma WithinSelf(all: Lookup)
    ensures Within(all, all)
  {
  }

  lemma WithinTrans(all'': Lookup, all': Lookup, all: Lookup)
    requires Within(all'', all') && Within(all', all)
    ensures Within(all'', all)
  {
    forall h
      ensures Same(all'', all, h)
    {
      assert Same(all'', all', h) && Same(all', all, h);
    }
  }

  lemma WithinMinus(all': Lookup, all: Lookup, h: Hash)
    requires Within(all', all)
    ensures Within(all' - {h}, all)
  {
    forall k
      ensures Same(all' - {h}, all, k)
    {
      assert Same(all', all, k);
    }
  }

  /** Queueing a new transaction, in place of the one queued at its nonce if there is one. */
  lemma EnqueueNew(p: Lists, q: Lists, all: Lookup, t: Tx)
    requires Coherent(p, q, all, 0, map[]) && t.hash !in all && t.nonce !in At(p, t.sender)
    ensures var list := At(q, t.sender);
            var known := if t.nonce in list then all - {list[t.nonce].hash} else all;
            Coherent(p, q[t.sender := list[t.nonce := t]], known[t.hash := t], 0, map[])
  {
    var a, n := t.sender, t.nonce;
    var list := At(q, a);
    var rest: Items, known := list - {n}, if n in list then all - {list[n].hash} else all;
    if n in list {
      QueuedFacts(p, q, all, a, n);
      RemoveQueued(p, q, all, list[n]);
    } else {
      assert rest == list;
      SameLists(p, q, all, a);
    }
    var q1 := Store(q, a, rest);
    Refocus(p, q1, known, 0, a);
    LearnOne(p, q1, known, t);
    QueueOne(p, q1, known[t.hash := t], a, map[n := t], n);
    assert At(q1, a)[n := t] == list[n := t];
    assert q1[a := At(q1, a)[n := t]] == q[a := list[n := t]];
    assert map[n := t] - {n} == map[];
    Refocus(p, q[a := list[n := t]], known[t.hash := t], a, 0);
  }

  lemma SameLists(p: Lists, q: Lists, all: Lookup, a: Address)
    requires Coherent(p, q, all, 0, map[])
    ensures Coherent(p, Store(q, a, At(q, a)), all, 0, map[])
  {
    forall b
      ensures Account(b, At(p, b), At(Store(q, a, At(q, a)), b), InHand(b, 0, map[]), all)
    {
      assert Account(b, At(p, b), At(q, b), InHand(b, 0, map[]), all);
    }
  }

  lemma QueuedFacts(p: Lists, q: Lists, all: Lookup, a: Address, n: nat)
    requires Coherent(p, q, all, 0, map[]) && n in At(q, a)
    ensures var t := At(q, a)[n];
            && t.sender == a && t.nonce == n && t.hash in all && all[t.hash] == t
            && !Holds(At(p, a), t) && Holds(At(q, a), t)
  {
    var t := At(q, a)[n];
    assert Account(a, At(p, a), At(q, a), InHand(a, 0, map[]), all);
    assert (At(p, a) + At(q, a) + InHand(a, 0, map[]))[n] == t;
  }
}
