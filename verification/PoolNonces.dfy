/**
 Virtual nonces. In a run that discards no block, each account's pending nonces are exactly
 the interval from its head nonce to its virtual nonce, and its queue does not hold the
 virtual nonce.
 */
module PoolNonces {
  import opened Values
  import opened TxTypes
  import opened PoolModel
  import opened TxRuns
  import opened PoolSteps

  /** Account `a`'s lists fit its virtual nonce; a `dirty` account may still hold a promotable transaction. */
  ghost predicate Fits(pending: Items, queue: Items, lo: nat, next: nat, dirty: bool) {
    Contiguous(pending, lo, next) && (dirty || next !in queue)
  }

  ghost predicate FitsAt(v: Views, head: Head, dirty: set<Address>, a: Address) {
    Fits(At(v.pending, a), At(v.queue, a), head.Nonce(a), Virtual(v.nonces, head, a), a in dirty)
  }

  ghost predicate InStep(v: Views, head: Head, dirty: set<Address>) {
    forall a {:trigger FitsAt(v, head, dirty, a)} :: FitsAt(v, head, dirty, a)
  }

  /** When only account `a` changed and fits again, every account is in step. */
  lemma StepAt(v: Views, w: Views, head: Head, dirty: set<Address>, dirty': set<Address>, a: Address, x: Items,
               y: Items, m: nat)
    requires InStep(v, head, dirty) && dirty - {a} <= dirty'
    requires Is(w.pending, Store(v.pending, a, x)) && Is(w.queue, Store(v.queue, a, y))
    requires Is(w.nonces, v.nonces) || Is(w.nonces, v.nonces[a := m])
    requires Fits(x, y, head.Nonce(a), Virtual(w.nonces, head, a), a in dirty')
    ensures InStep(w, head, dirty')
  {
    forall b
      ensures FitsAt(w, head, dirty', b)
    {
      assert FitsAt(v, head, dirty, b);
    }
  }

  /** Removing a transaction keeps every account in step. */
  lemma RemovedInStep(v: Views, w: Views, head: Head, dirty: set<Address>, t: Tx)
    requires Coherent(v.pending, v.queue, v.all, 0, map[]) && t.hash in v.all && v.all[t.hash] == t
    requires NoEmpty(v.pending) && Removed(v, w, head, t) && InStep(v, head, dirty)
    ensures InStep(w, head, dirty)
  {
    var a, n := t.sender, t.nonce;
    var p: Items, q: Items := At(v.pending, a), At(v.queue, a);
    assert FitsAt(v, head, dirty, a);
    KnownFacts(v.pending, v.queue, v.all, t.hash);
    if Holds(p, t) {
      RunBelow(p, head.Nonce(a), Virtual(v.nonces, head, a), n);
      StepAt(v, w, head, dirty, dirty, a, Below(p, n), q + From(p, n + 1), n);
    } else {
      assert Full(v.pending, a);
      StoreSelf(v.pending, a);
      StepAt(v, w, head, dirty, dirty, a, p, q - {n}, n);
    }
  }

  /** Promoting an account brings it in step. */
  lemma PromotedInStep(v: Views, w: Views, head: Head, dirty: set<Address>, a: Address, limit: nat, local: bool)
    requires Coherent(v.pending, v.queue, v.all, 0, map[])
    requires Promoted(v, w, head, a, limit, local) && InStep(v, head, dirty)
    ensures InStep(w, head, dirty - {a})
  {
    assert FitsAt(v, head, dirty, a);
    assert Account(a, At(v.pending, a), At(v.queue, a), InHand(a, 0, map[]), v.all);
    var live := Live(At(v.queue, a), head, a);
    var next := Virtual(v.nonces, head, a);
    LiveAbove(At(v.pending, a), At(v.queue, a), head, a, next);
    ReadyFits(At(v.pending, a), live, head.Nonce(a), next);
    var x: Items := At(v.pending, a) + Below(live, ReadyEnd(live, next));
    ShortenedFits(x, From(live, ReadyEnd(live, next)), At(w.queue, a), head.Nonce(a), Virtual(w.nonces, head, a),
                  limit, local);
    StepAt(v, w, head, dirty, dirty - {a}, a, x, At(w.queue, a), ReadyEnd(live, next));
  }

  lemma LiveAbove(pending: Items, queue: Items, head: Head, a: Address, next: nat)
    requires Contiguous(pending, head.Nonce(a), next) && pending.Keys !! queue.Keys
    ensures forall n | n in Live(queue, head, a) :: next <= n
  {
    forall n | n in Live(queue, head, a)
      ensures next <= n
    {
      assert n in queue && head.Nonce(a) <= n;
    }
  }

  lemma ReadyFits(pending: Items, live: Items, lo: nat, next: nat)
    requires Contiguous(pending, lo, next) && forall n | n in live :: next <= n
    ensures var end := ReadyEnd(live, next);
            var ready := Below(live, end);
            Fits(pending + ready, From(live, end), lo, if ready == map[] then next else end, false)
  {
    var end := ReadyEnd(live, next);
    var ready := Below(live, end);
    if live == map[] || Lowest(live) > next {
      assert ready == map[] && pending + ready == pending;
    } else {
      assert Lowest(live) in ready;
      RunJoin(pending, ready, lo, next, end);
    }
  }

  lemma ShortenedFits(pending: Items, queue: Items, kept: Items, lo: nat, next: nat, limit: nat, local: bool)
    requires Fits(pending, queue, lo, next, false) && Shortened(queue, kept, limit, local)
    ensures Fits(pending, kept, lo, next, false)
  {
  }
}
