/**
 The transaction pool of core/tx_pool.go.

 Per-account lists are values (`Items`): no list is shared between accounts or views. The
 steps of an operation take the pool's views as a value and return them changed; class
 `TxPool` holds them as fields. Where Go ranges over a map the order is an arbitrary choice
 here, so every result holds for every iteration order.
 */
module PoolSteps {
  import opened Values
  import opened TxTypes
  import opened PoolModel
  import opened TxLists
  import BinaryHeap

  datatype Config = Config(accountSlots: nat, globalSlots: nat, accountQueue: nat, globalQueue: nat, priceBump: nat)

  /** The part of the head state the pool reads; unknown accounts have nonce and balance zero. */
  datatype Head = Head(nonces: map<Address, nat>, balances: map<Address, nat>, gasLimit: nat) {
    function Nonce(a: Address): nat {
      if a in nonces then nonces[a] else 0
    }

    function Balance(a: Address): nat {
      if a in balances then balances[a] else 0
    }

    /** Whether the payers cannot cover the transaction or it exceeds the block gas limit. */
    predicate Unpayable(t: Tx) {
      || (match t.provider
          case Some(p) => t.value > Balance(t.sender) || t.Fee() > Balance(p)
          case None => t.Cost() > Balance(t.sender))
      || t.gas > gasLimit
    }

    function Unpayables(): Tx -> bool {
      (t: Tx) => Unpayable(t)
    }
  }

  /** Cheapest first; among equal prices the higher nonce first. */
  function PriceKey(t: Tx): BinaryHeap.Key {
    (t.price, 0 - t.nonce)
  }

  /** The first of the price heap has the lowest price and, of those at that price, the highest nonce. */
  lemma CheapestFirst(priced: seq<Tx>, t: Tx)
    requires BinaryHeap.IsHeap(PriceKey, priced) && t in priced
    ensures priced[0].price < t.price || (priced[0].price == t.price && priced[0].nonce >= t.nonce)
  {
    var k :| 0 <= k < |priced| && priced[k] == t;
    BinaryHeap.RootIsMinimum(PriceKey, priced, k);
  }

  /** The pool's views of its transactions, with its heartbeats and its count of stale heap entries. */
  datatype Views = Views(pending: Lists, queue: Lists, nonces: map<Address, nat>, all: Lookup, priced: seq<Tx>,
                         stales: int, beats: map<Address, nat>)

  function Virtual(nonces: map<Address, nat>, head: Head, a: Address): nat {
    if a in nonces then nonces[a] else head.Nonce(a)
  }

  predicate Listed(priced: seq<Tx>, all: Lookup, ex: set<Tx>, h: Hash) {
    h in all ==> all[h] in priced || all[h] in ex
  }

  /** Every known transaction is in the price heap, except possibly those in `ex`. */
  ghost predicate Covered(priced: seq<Tx>, all: Lookup, ex: set<Tx>) {
    && BinaryHeap.IsHeap(PriceKey, priced)
    && forall h {:trigger Listed(priced, all, ex, h)} :: Listed(priced, all, ex, h)
  }

  /** The views agree, account `who` having `hand` taken out of its lists. */
  ghost predicate Agree(v: Views, who: Address, hand: Items, ex: set<Tx>) {
    && Coherent(v.pending, v.queue, v.all, who, hand) && NoEmpty(v.pending) && NoEmpty(v.queue)
    && Covered(v.priced, v.all, ex)
  }

  /** Forgetting transactions, or exempting more of them, keeps the rest covered. */
  lemma CoveredLess(priced: seq<Tx>, all: Lookup, ex: set<Tx>, all': Lookup, ex': set<Tx>)
    requires Covered(priced, all, ex) && Within(all', all)
    requires forall h | h in all' :: all'[h] in ex ==> all'[h] in ex'
    ensures Covered(priced, all', ex')
  {
    forall h
      ensures Listed(priced, all', ex', h)
    {
      assert Listed(priced, all, ex, h) && Same(all', all, h);
    }
  }

  lemma CoveredMinus(priced: seq<Tx>, all: Lookup, ex: set<Tx>, h: Hash)
    requires Covered(priced, all, ex)
    ensures Covered(priced, all - {h}, ex)
  {
    CoveredLess(priced, all, ex, all - {h}, ex);
  }

  /** `txPricedList.Removed`: counts stale heap entries and rebuilds the heap when there are too many. */
  method PricedRemoved(v: Views, count: nat, ghost ex: set<Tx>) returns (w: Views)
    requires Covered(v.priced, v.all, ex)
    ensures Covered(w.priced, v.all, ex) && Is(w, v.(priced := w.priced, stales := w.stales))
  {
    var stales := v.stales + count;
    if stales <= |v.priced| / 4 {
      return v.(stales := stales);
    }
    var listed: seq<Tx> := [];
    var todo := v.all.Keys;
    while todo != {}
      invariant todo <= v.all.Keys && forall h | h in v.all :: h in todo || v.all[h] in listed
    {
      var h :| h in todo;
      listed, todo := listed + [v.all[h]], todo - {h};
    }
    var priced := BinaryHeap.Init(PriceKey, listed);
    forall h
      ensures Listed(priced, v.all, ex, h)
    {
      assert h in v.all ==> v.all[h] in multiset(listed) && v.all[h] in multiset(priced);
    }
    w := v.(priced := priced, stales := 0);
  }

  /** Makes a transaction known: adds it to the lookup and to the price heap. */
  method Learn(v: Views, tx: Tx, ghost ex: set<Tx>) returns (w: Views)
    requires Covered(v.priced, v.all, ex)
    ensures Covered(w.priced, w.all, ex)
    ensures Is(w, v.(all := v.all[tx.hash := tx], priced := w.priced))
  {
    var priced := BinaryHeap.Push(PriceKey, v.priced, tx);
    var all := v.all[tx.hash := tx];
    forall h
      ensures Listed(priced, all, ex, h)
    {
      assert Listed(v.priced, v.all, ex, h);
      assert h in all && all[h] in v.priced ==> all[h] in multiset(v.priced);
      assert h in all && all[h] in multiset(priced) ==> all[h] in priced;
    }
    w := v.(all := all, priced := priced);
  }

  datatype Placed = Rejected | Accepted(replaced: bool)

  /** `enqueueTx`. A transaction displaced from the queue is forgotten. */
  method EnqueueTx(v: Views, tx: Tx, bump: nat, ghost ex: set<Tx>) returns (w: Views, r: Placed)
    requires Covered(v.priced, v.all, ex)
    ensures Covered(w.priced, w.all, ex)
    ensures var q := At(v.queue, tx.sender);
            && (r.Rejected? <==> tx.nonce in q && !Outbids(q[tx.nonce], tx, bump))
            && (r.Accepted? ==> r.replaced == (tx.nonce in q) && Is(w.queue, v.queue[tx.sender := q[tx.nonce := tx]]))
    ensures r.Rejected? ==> Is(w, v)
    ensures r.Accepted? ==> Is(w, v.(queue := w.queue, all := w.all, priced := w.priced, stales := w.stales))
    ensures r == Accepted(false) ==> Is(w.all, if tx.hash in v.all then v.all else v.all[tx.hash := tx])
    ensures r == Accepted(true) ==>
              var rest := v.all - {At(v.queue, tx.sender)[tx.nonce].hash};
              Is(w.all, if tx.hash in rest then rest else rest[tx.hash := tx])
  {
    var list: Items := At(v.queue, tx.sender);
    if tx.nonce in list && !Outbids(list[tx.nonce], tx, bump) {
      return v, Rejected;
    }
    w := v.(queue := v.queue[tx.sender := list[tx.nonce := tx]]);
    if tx.nonce in list {
      CoveredMinus(w.priced, w.all, ex, list[tx.nonce].hash);
      w := PricedRemoved(w.(all := w.all - {list[tx.nonce].hash}), 1, ex);
    }
    if tx.hash !in w.all {
      w := Learn(w, tx, ex);
    }
    r := Accepted(tx.nonce in list);
  }

  /** Queues one transaction that account `a` has in hand. */
  method RequeueOne(v: Views, a: Address, hand: Items, n: nat, bump: nat, ghost ex: set<Tx>) returns (w: Views)
    requires Agree(v, a, hand, ex) && n in hand
    ensures Agree(w, a, hand - {n}, ex)
    ensures Is(w.queue, Store(v.queue, a, At(v.queue, a)[n := hand[n]]))
    ensures Is(w, v.(queue := w.queue, priced := w.priced, stales := w.stales))
  {
    InHandFacts(v.pending, v.queue, v.all, a, hand, n);
    QueueOne(v.pending, v.queue, v.all, a, hand, n);
    StoreNoEmpty(v.queue, a, At(v.queue, a)[n := hand[n]]);
    var r;
    w, r := EnqueueTx(v, hand[n], bump, ex);
    assert r == Accepted(false) && n in At(w.queue, a);
  }

  /** Moves invalidated transactions of account `a` back to its queue: every one of them lands. */
  method Requeue(v: Views, a: Address, invalids: Items, bump: nat, ghost ex: set<Tx>) returns (w: Views)
    requires Agree(v, a, invalids, ex)
    ensures Agree(w, a, map[], ex)
    ensures Is(w.queue, Store(v.queue, a, At(v.queue, a) + invalids))
    ensures Is(w, v.(queue := w.queue, priced := w.priced, stales := w.stales))
  {
    var left: Items := invalids;
    assert Full(v.queue, a);
    StoreSelf(v.queue, a);
    w := v;
    while left != map[]
      invariant Agree(w, a, left, ex)
      invariant Is(w, v.(queue := w.queue, priced := w.priced, stales := w.stales))
      invariant Is(w.queue, Store(v.queue, a, At(w.queue, a)))
      invariant Is(At(w.queue, a) + left, At(v.queue, a) + invalids)
      decreases |left|
    {
      var n :| n in left;
      MoveOne(At(w.queue, a), left, n);
      StoreTwice(v.queue, a, At(w.queue, a), At(w.queue, a)[n := left[n]]);
      w := RequeueOne(w, a, left, n, bump, ex);
      left := left - {n};
    }
    AllMoved(At(w.queue, a));
  }

  /** An account left without pending transactions loses its heartbeat. */
  function Beating(beats: map<Address, nat>, a: Address, pending: Items): map<Address, nat> {
    if pending == map[] then beats - {a} else beats
  }

  /** Leaves account `a` only `kept` of its pending list and moves `invalids` back to its queue. */
  method CutPending(v: Views, a: Address, kept: Items, invalids: Items, bump: nat, ghost ex: set<Tx>) returns (w: Views)
    requires Coherent(Store(v.pending, a, kept), v.queue, v.all, a, invalids)
    requires NoEmpty(v.pending) && NoEmpty(v.queue) && Covered(v.priced, v.all, ex)
    ensures Agree(w, 0, map[], ex)
    ensures Is(w.pending, Store(v.pending, a, kept)) && Is(w.queue, Store(v.queue, a, At(v.queue, a) + invalids))
    ensures Is(w.all, v.all) && Is(w.nonces, v.nonces) && Is(w.beats, Beating(v.beats, a, kept))
  {
    StoreNoEmpty(v.pending, a, kept);
    w := v.(pending := Store(v.pending, a, kept));
    if a !in w.pending {
      w := w.(beats := w.beats - {a});
    }
    w := Requeue(w, a, invalids, bump, ex);
    Refocus(w.pending, w.queue, w.all, a, 0);
  }

  /** What removing `t` leaves: it alone is forgotten, and whatever it was holding up is queued again. */
  ghost predicate Removed(v: Views, w: Views, head: Head, t: Tx) {
    var a, n := t.sender, t.nonce;
    var p, q := At(v.pending, a), At(v.queue, a);
    && Is(w.all, v.all - {t.hash})
    && if Holds(p, t) then
         && Is(w.pending, Store(v.pending, a, Below(p, n))) && Is(w.queue, Store(v.queue, a, q + From(p, n + 1)))
         && Is(w.nonces, if Virtual(v.nonces, head, a) > n then v.nonces[a := n] else v.nonces)
         && Is(w.beats, Beating(v.beats, a, Below(p, n)))
       else
         && Holds(q, t) && Is(w.pending, v.pending) && Is(w.queue, Store(v.queue, a, q - {n})) && Is(w.nonces, v.nonces)
         && Is(w.beats, v.beats)
  }

  /** `removeTx`. Lists are cut by nonce, yet the transaction deleted is always the one the hash names. */
  method RemoveTx(v: Views, head: Head, hash: Hash, outofbound: bool, bump: nat, ghost ex: set<Tx>) returns (w: Views)
    requires Agree(v, 0, map[], ex)
    ensures Agree(w, 0, map[], ex)
    ensures hash !in v.all ==> Is(w, v)
    ensures hash in v.all ==> Removed(v, w, head, v.all[hash])
  {
    if hash !in v.all {
      return v;
    }
    KnownFacts(v.pending, v.queue, v.all, hash);
    CoveredMinus(v.priced, v.all, ex, hash);
    w := v.(all := v.all - {hash});
    if outofbound {
      w := PricedRemoved(w, 1, ex);
    }
    var tx := v.all[hash];
    if tx.nonce in At(v.pending, tx.sender) {
      w := RemovePendingTx(v, w, head, tx, bump, ex);
    } else {
      RemoveQueued(v.pending, v.queue, v.all, tx);
      StoreNoEmpty(v.queue, tx.sender, At(v.queue, tx.sender) - {tx.nonce});
      w := w.(queue := Store(v.queue, tx.sender, At(v.queue, tx.sender) - {tx.nonce}));
    }
  }

  method RemovePendingTx(ghost v: Views, u: Views, head: Head, tx: Tx, bump: nat, ghost ex: set<Tx>) returns (w: Views)
    requires Agree(v, 0, map[], ex) && Holds(At(v.pending, tx.sender), tx)
    requires Is(u, v.(all := v.all - {tx.hash}, priced := u.priced, stales := u.stales)) && Covered(u.priced, u.all, ex)
    ensures Agree(w, 0, map[], ex) && Removed(v, w, head, tx)
  {
    RemovePending(v.pending, v.queue, v.all, tx);
    var list := At(u.pending, tx.sender);
    w := CutPending(u, tx.sender, Below(list, tx.nonce), From(list, tx.nonce + 1), bump, ex);
    if Virtual(w.nonces, head, tx.sender) > tx.nonce {
      w := w.(nonces := w.nonces[tx.sender := tx.nonce]);
    }
  }

  /** `promoteTx`. A transaction displaced from the pending list is forgotten, and so is one that loses to it. */
  method PromoteTx(v: Views, a: Address, tx: Tx, bump: nat, clock: nat, ghost ex: set<Tx>) returns (w: Views, r: Placed)
    requires Covered(v.priced, v.all, ex)
    ensures Covered(w.priced, w.all, ex)
    ensures var p := At(v.pending, a);
            && (r.Rejected? <==> tx.nonce in p && !Outbids(p[tx.nonce], tx, bump))
            && (r.Accepted? ==> r.replaced == (tx.nonce in p) && Is(w.pending, v.pending[a := p[tx.nonce := tx]]))
    ensures r.Rejected? ==> Is(w, v.(all := v.all - {tx.hash}, priced := w.priced, stales := w.stales))
    ensures r.Accepted? ==>
              Is(w.nonces, v.nonces[a := tx.nonce + 1]) && Is(w.queue, v.queue) && Is(w.beats, v.beats[a := clock])
    ensures r == Accepted(false) ==> Is(w.all, if tx.hash in v.all then v.all else v.all[tx.hash := tx])
    ensures r == Accepted(true) ==>
              var rest := v.all - {At(v.pending, a)[tx.nonce].hash};
              Is(w.all, if tx.hash in rest then rest else rest[tx.hash := tx])
  {
    var list: Items := At(v.pending, a);
    if tx.nonce in list && !Outbids(list[tx.nonce], tx, bump) {
      CoveredMinus(v.priced, v.all, ex, tx.hash);
      w := PricedRemoved(v.(all := v.all - {tx.hash}), 1, ex);
      return w, Rejected;
    }
    w := v.(pending := v.pending[a := list[tx.nonce := tx]]);
    if tx.nonce in list {
      CoveredMinus(w.priced, w.all, ex, list[tx.nonce].hash);
      w := PricedRemoved(w.(all := w.all - {list[tx.nonce].hash}), 1, ex);
    }
    if tx.hash !in w.all {
      w := Learn(w, tx, ex);
    }
    w := w.(beats := w.beats[a := clock], nonces := w.nonces[a := tx.nonce + 1]);
    r := Accepted(tx.nonce in list);
  }

  /** Makes one transaction that account `a` has in hand pending. */
  method PromoteOne(v: Views, a: Address, hand: Items, n: nat, bump: nat, clock: nat, ghost ex: set<Tx>)
    returns (w: Views)
    requires Agree(v, a, hand, ex) && n in hand
    ensures Agree(w, a, hand - {n}, ex)
    ensures Is(w.pending, Store(v.pending, a, At(v.pending, a)[n := hand[n]]))
    ensures Is(w.queue, v.queue) && Is(w.all, v.all) && Is(w.nonces, v.nonces[a := n + 1])
    ensures Is(w.beats, v.beats[a := clock])
  {
    InHandFacts(v.pending, v.queue, v.all, a, hand, n);
    PendOne(v.pending, v.queue, v.all, a, hand, n);
    StoreNoEmpty(v.pending, a, At(v.pending, a)[n := hand[n]]);
    var r;
    w, r := PromoteTx(v, a, hand[n], bump, clock, ex);
    assert r == Accepted(false) && n in At(w.pending, a);
  }

  /** Makes the transactions in hand, the nonces from `lo` to `hi`, pending one after the other. */
  method PromoteRun(v: Views, a: Address, readies: Items, lo: nat, hi: nat, bump: nat, clock: nat) returns (w: Views)
    requires Agree(v, a, readies, {}) && Contiguous(readies, lo, hi)
    ensures Agree(w, a, map[], {})
    ensures Is(w.pending, Store(v.pending, a, At(v.pending, a) + readies)) && Is(w.queue, v.queue) && Is(w.all, v.all)
    ensures Is(w.nonces, if lo < hi then v.nonces[a := hi] else v.nonces)
    ensures Is(w.beats, if lo < hi then v.beats[a := clock] else v.beats)
  {
    var left: Items, n := readies, lo;
    assert Full(v.pending, a);
    StoreSelf(v.pending, a);
    w := v;
    while n < hi
      invariant lo <= n <= hi && Contiguous(left, n, hi) && Agree(w, a, left, {})
      invariant Is(w.pending, Store(v.pending, a, At(w.pending, a))) && Is(w.queue, v.queue) && Is(w.all, v.all)
      invariant Is(At(w.pending, a) + left, At(v.pending, a) + readies)
      invariant Is(w.nonces, if lo < n then v.nonces[a := n] else v.nonces)
      invariant Is(w.beats, if lo < n then v.beats[a := clock] else v.beats)
    {
      MoveOne(At(w.pending, a), left, n);
      StoreTwice(v.pending, a, At(w.pending, a), At(w.pending, a)[n := left[n]]);
      assert v.nonces[a := n][a := n + 1] == v.nonces[a := n + 1]
             && v.beats[a := clock][a := clock] == v.beats[a := clock];
      w := PromoteOne(w, a, left, n, bump, clock, {});
      left, n := left - {n}, n + 1;
    }
    assert left == map[];
    AllMoved(At(w.pending, a));
  }

  /** Drops `gone`, a part of what is in hand, from the lookup. */
  method Forget(v: Views, a: Address, gone: Items, ghost rest: Items) returns (w: Views)
    requires Agree(v, a, rest + gone, {}) && rest.Keys !! gone.Keys
    ensures Agree(w, a, rest, {}) && Is(w, v.(all := w.all)) && Within(w.all, v.all)
  {
    var left: Items := gone;
    w := v;
    WithinSelf(v.all);
    while left != map[]
      invariant rest.Keys !! left.Keys && Coherent(v.pending, v.queue, w.all, a, rest + left)
      invariant Is(w, v.(all := w.all)) && Within(w.all, v.all)
      decreases |left|
    {
      var n :| n in left;
      UnionMinus(rest, left, n);
      ForgetOne(v.pending, v.queue, w.all, a, rest + left, n);
      WithinMinus(w.all, v.all, left[n].hash);
      w := w.(all := w.all - {left[n].hash});
      left := left - {n};
    }
    AllMoved(rest);
    CoveredLess(v.priced, v.all, {}, w.all, {});
  }

  /** Cuts account `a`'s queue down to `kept` and forgets the rest of it. */
  method DropQueued(v: Views, a: Address, kept: Items, gone: Items) returns (w: Views)
    requires Agree(v, a, map[], {}) && Split(At(v.queue, a), kept, gone)
    ensures Agree(w, a, map[], {}) && Is(w, v.(queue := Store(v.queue, a, kept), all := w.all)) && Within(w.all, v.all)
  {
    TakeQueued(v.pending, v.queue, v.all, a, map[], kept, gone);
    StoreNoEmpty(v.queue, a, kept);
    w := Forget(v.(queue := Store(v.queue, a, kept)), a, gone, map[]);
  }

  /** What of a queue is still valid at the head: nonces not yet used, costs that can be paid. */
  function Live(queue: Items, head: Head, a: Address): Items {
    Without(From(queue, head.Nonce(a)), head.Unpayables())
  }

  lemma LiveSplits(queue: Items, head: Head, a: Address)
    ensures var young := From(queue, head.Nonce(a));
            && Split(queue, young, Below(queue, head.Nonce(a)))
            && Split(young, Live(queue, head, a), Only(young, head.Unpayables()))
  {
    SplitAt(queue, head.Nonce(a));
    SplitBy(From(queue, head.Nonce(a)), head.Unpayables());
  }

  /** Drops from account `a`'s queue whatever the head state makes too old or unpayable. */
  method DropInvalid(v: Views, head: Head, a: Address) returns (w: Views, dropped: nat)
    requires Agree(v, a, map[], {})
    ensures Agree(w, a, map[], {}) && Within(w.all, v.all)
    ensures Is(w, v.(queue := Store(v.queue, a, Live(At(v.queue, a), head, a)), all := w.all))
  {
    var list, nonce := At(v.queue, a), head.Nonce(a);
    var live, young := Live(list, head, a), From(list, nonce);
    LiveSplits(list, head, a);
    w := DropQueued(v, a, young, Below(list, nonce));
    StoreTwice(v.queue, a, young, live);
    ghost var between := w.all;
    w := DropQueued(w, a, live, Only(young, head.Unpayables()));
    WithinTrans(w.all, between, v.all);
    dropped := |Below(list, nonce)| + |Only(young, head.Unpayables())|;
  }

  lemma ReadyRun(list: Items, lo: nat, end: nat)
    requires end == 0 ==> lo == 0
    requires end != 0 ==> list != map[] && lo == Lowest(list) && end == RunEnd(list, lo)
    ensures Contiguous(Below(list, end), lo, end) && Split(list, From(list, end), Below(list, end))
    ensures lo < end <==> Below(list, end) != map[]
  {
    SplitAt(list, end);
    if end != 0 {
      assert lo in Below(list, end);
    }
  }

  /** Moves the ready run of account `a`'s queue to its pending list. */
  method MoveReadies(v: Views, head: Head, a: Address, bump: nat, clock: nat) returns (w: Views, end: nat)
    requires Agree(v, a, map[], {})
    ensures Agree(w, a, map[], {}) && end == ReadyEnd(At(v.queue, a), Virtual(v.nonces, head, a)) && Is(w.all, v.all)
    ensures var list := At(v.queue, a);
            && Is(w.pending, Store(v.pending, a, At(v.pending, a) + Below(list, end)))
            && Is(w.queue, Store(v.queue, a, From(list, end)))
            && Is(w.nonces, if Below(list, end) == map[] then v.nonces else v.nonces[a := end])
            && Is(w.beats, if Below(list, end) == map[] then v.beats else v.beats[a := clock])
  {
    var list := At(v.queue, a);
    end := 0;
    var lo := 0;
    if list != map[] {
      lo := LowestNonceOf(list);
      end := if lo > Virtual(v.nonces, head, a) then 0 else RunEnd(list, lo);
      lo := if end == 0 then 0 else lo;
    }
    ReadyRun(list, lo, end);
    TakeQueued(v.pending, v.queue, v.all, a, map[], From(list, end), Below(list, end));
    AllMoved(Below(list, end));
    StoreNoEmpty(v.queue, a, From(list, end));
    w := PromoteRun(v.(queue := Store(v.queue, a, From(list, end))), a, Below(list, end), lo, end, bump, clock);
  }

  /** What capping leaves of a queue: all of it for a local account, else its lowest `limit` nonces. */
  ghost predicate Shortened(queue: Items, kept: Items, limit: nat, local: bool) {
    if local then kept == queue else Capped(queue, kept, limit)
  }

  /** Drops account `a`'s excess queued transactions unless it is local. */
  method CapQueue(v: Views, a: Address, limit: nat, local: bool) returns (w: Views, dropped: nat)
    requires Agree(v, a, map[], {})
    ensures Agree(w, a, map[], {}) && Shortened(At(v.queue, a), At(w.queue, a), limit, local)
    ensures Is(w, v.(queue := Store(v.queue, a, At(w.queue, a)), all := w.all)) && Within(w.all, v.all)
  {
    if local {
      assert Full(v.queue, a);
      StoreSelf(v.queue, a);
      WithinSelf(v.all);
      return v, 0;
    }
    var kept, caps := CapItems(At(v.queue, a), limit);
    w := DropQueued(v, a, kept, caps);
    StoreTwice(v.queue, a, kept, kept);
    dropped := |caps|;
  }

  /**
   The views after promoting account `a`: of what is live in its queue, the ready run below
   `end` has joined the pending list, and what the queue retains of the rest is within its cap.
   */
  ghost predicate Promoted(v: Views, w: Views, head: Head, a: Address, limit: nat, local: bool) {
    var live := Live(At(v.queue, a), head, a);
    var end := ReadyEnd(live, Virtual(v.nonces, head, a));
    && Is(w.pending, Store(v.pending, a, At(v.pending, a) + Below(live, end)))
    && Shortened(From(live, end), At(w.queue, a), limit, local)
    && Is(w.queue, Store(v.queue, a, At(w.queue, a)))
    && Is(w.nonces, if Below(live, end) == map[] then v.nonces else v.nonces[a := end])
    && Within(w.all, v.all)
  }

  /** A heartbeat for account `a` exactly if something of it becomes pending. */
  ghost predicate Beats(v: Views, w: Views, head: Head, a: Address, clock: nat) {
    var live := Live(At(v.queue, a), head, a);
    Is(w.beats, if Below(live, ReadyEnd(live, Virtual(v.nonces, head, a))) == map[] then v.beats
                else v.beats[a := clock])
  }

  /** One account's share of `promoteExecutables`: drop the old and the unpayable, promote the ready, cap the rest. */
  method PromoteAccount(v: Views, head: Head, a: Address, config: Config, local: bool, clock: nat) returns (w: Views)
    requires Agree(v, 0, map[], {})
    ensures Agree(w, 0, map[], {}) && Promoted(v, w, head, a, config.accountQueue, local) && Beats(v, w, head, a, clock)
  {
    Refocus(v.pending, v.queue, v.all, 0, a);
    var dropped, end, capped;
    w, dropped := DropInvalid(v, head, a);
    StoreTwice(v.queue, a, Live(At(v.queue, a), head, a), map[]);
    ghost var u := w;
    w, end := MoveReadies(w, head, a, config.priceBump, clock);
    ghost var rest := From(At(u.queue, a), end);
    StoreTwice(v.queue, a, Live(At(v.queue, a), head, a), rest);
    w, capped := CapQueue(w, a, config.accountQueue, local);
    StoreTwice(v.queue, a, rest, At(w.queue, a));
    WithinTrans(w.all, u.all, v.all);
    w := PricedRemoved(w, dropped + capped, {});
    Refocus(w.pending, w.queue, w.all, a, 0);
  }
}
