/** `demoteUnexecutables`: what a new head state takes out of the pending lists. */
module PoolDemote {
  import opened Values
  import opened TxTypes
  import opened PoolModel
  import opened TxRuns
  import opened PoolSteps
  import opened PoolNonces

  /** The pending transactions a head state leaves executable. */
  ghost function Executable(pending: Items, head: Head, a: Address): Items {
    Kept(From(pending, head.Nonce(a)), head.Unpayables(), true)
  }

  /** Still payable, but above a transaction that is not. */
  ghost function Invalidated(pending: Items, head: Head, a: Address): Items {
    Without(From(pending, head.Nonce(a)), head.Unpayables()) - Executable(pending, head, a).Keys
  }

  /** The list kept starts above the head nonce: the branch the source says should never happen. */
  ghost predicate FrontGap(pending: Items, head: Head, a: Address) {
    Executable(pending, head, a) != map[] && head.Nonce(a) !in Executable(pending, head, a)
  }

  /** One account's lists before (`p`, `q`) and after (`p'`, `q'`) demotion. */
  ghost predicate DemotedLists(p: Items, q: Items, p': Items, q': Items, head: Head, a: Address) {
    if FrontGap(p, head, a)
    then Is(p', map[]) && Is(q', q + Invalidated(p, head, a) + Executable(p, head, a))
    else Is(p', Executable(p, head, a)) && Is(q', q + Invalidated(p, head, a))
  }

  /** Splits a list into what a strict filter keeps, what it drops and what that invalidates. */
  method StrictFilter(items: Items, drop: Tx -> bool) returns (kept: Items, drops: Items, invalids: Items)
    ensures Is(kept, Kept(items, drop, true)) && Is(drops, Only(items, drop))
    ensures Is(invalids, Without(items, drop) - kept.Keys)
    ensures drops.Keys !! invalids.Keys && Split(items, kept, invalids + drops)
  {
    drops := Only(items, drop);
    kept := items;
    if drops != map[] {
      var lowest := LowestNonceOf(drops);
      kept := map n | n in items && n < lowest :: items[n];
    }
    invalids := Without(items, drop) - kept.Keys;
    assert forall m | m in items && drop(items[m]) :: m in drops;
    assert kept == Kept(items, drop, true);
  }

  /** Cuts account `a`'s pending list down to `kept`, forgets `gone` and leaves `invalids` in hand. */
  method DropPending(v: Views, a: Address, kept: Items, gone: Items, invalids: Items) returns (w: Views)
    requires Agree(v, a, map[], {}) && Split(At(v.pending, a), kept, invalids + gone) && invalids.Keys !! gone.Keys
    ensures Agree(w, a, invalids, {}) && Is(w, v.(pending := Store(v.pending, a, kept), all := w.all))
    ensures Within(w.all, v.all)
  {
    TakePending(v.pending, v.queue, v.all, a, map[], kept, invalids + gone);
    AllMoved(invalids + gone);
    StoreNoEmpty(v.pending, a, kept);
    w := Forget(v.(pending := Store(v.pending, a, kept)), a, gone, invalids);
  }

  /** The views after demoting account `a`. */
  ghost predicate Demoted(v: Views, w: Views, head: Head, a: Address) {
    && DemotedLists(At(v.pending, a), At(v.queue, a), At(w.pending, a), At(w.queue, a), head, a)
    && Is(w.pending, Store(v.pending, a, At(w.pending, a))) && Is(w.queue, Store(v.queue, a, At(w.queue, a)))
    && Is(w.nonces, v.nonces) && Within(w.all, v.all)
  }

  /**
   Cuts account `a`'s pending list down to what the head state leaves executable; what that invalidates
   is in hand.
   */
  method DropUnexecutable(v: Views, head: Head, a: Address) returns (w: Views, kept: Items, invalids: Items)
    requires Agree(v, 0, map[], {})
    ensures Agree(w, a, invalids, {}) && Within(w.all, v.all)
    ensures Is(kept, Executable(At(v.pending, a), head, a)) && Is(invalids, Invalidated(At(v.pending, a), head, a))
    ensures Is(w, v.(pending := Store(v.pending, a, kept), all := w.all, priced := w.priced, stales := w.stales))
  {
    var list, nonce := At(v.pending, a), head.Nonce(a);
    Refocus(v.pending, v.queue, v.all, 0, a);
    SplitAt(list, nonce);
    AllMoved(Below(list, nonce));
    w := DropPending(v, a, From(list, nonce), Below(list, nonce), map[]);
    StoreTwice(v.pending, a, From(list, nonce), map[]);
    var drops;
    kept, drops, invalids := StrictFilter(From(list, nonce), head.Unpayables());
    ghost var u := w;
    w := DropPending(w, a, kept, drops, invalids);
    WithinTrans(w.all, u.all, v.all);
    StoreTwice(v.pending, a, From(list, nonce), kept);
    w := PricedRemoved(w, |Below(list, nonce)| + |drops|, {});
  }

  /** One account's share of `demoteUnexecutables`; `gapped` tells whether the front-gap branch was taken. */
  method DemoteAccount(v: Views, head: Head, a: Address, bump: nat) returns (w: Views, gapped: bool)
    requires Agree(v, 0, map[], {})
    ensures Agree(w, 0, map[], {}) && Demoted(v, w, head, a) && (gapped <==> FrontGap(At(v.pending, a), head, a))
    ensures Is(w.beats, Beating(v.beats, a, At(w.pending, a)))
  {
    var kept, invalids;
    w, kept, invalids := DropUnexecutable(v, head, a);
    w := Requeue(w, a, invalids, bump, {});
    gapped := kept != map[] && head.Nonce(a) !in kept;
    w := PostponeGapped(v, w, a, kept, invalids, gapped, bump);
  }

  /** Postpones the whole list if it has a gap in front. */
  method PostponeGapped(ghost v: Views, u: Views, a: Address, kept: Items, ghost invalids: Items, gapped: bool,
                        bump: nat)
    returns (w: Views)
    requires Agree(u, a, map[], {}) && NoEmpty(v.pending)
    requires Is(u.pending, Store(v.pending, a, kept)) && Is(u.queue, Store(v.queue, a, At(v.queue, a) + invalids))
    ensures Agree(w, 0, map[], {}) && Is(w.nonces, u.nonces) && Is(w.all, u.all)
    ensures Is(w.beats, Beating(u.beats, a, At(w.pending, a)))
    ensures Is(w.pending, Store(v.pending, a, At(w.pending, a))) && Is(w.queue, Store(v.queue, a, At(w.queue, a)))
    ensures Is(At(w.pending, a), if gapped then map[] else kept)
    ensures Is(At(w.queue, a), if gapped then At(v.queue, a) + invalids + kept else At(v.queue, a) + invalids)
  {
    StoreTwice(v.pending, a, kept, map[]);
    StoreTwice(v.queue, a, At(v.queue, a) + invalids, At(v.queue, a) + invalids + kept);
    if gapped {
      assert Split(kept, map[], kept);
      TakePending(u.pending, u.queue, u.all, a, map[], map[], kept);
      AllMoved(kept);
      w := CutPending(u, a, map[], kept, bump, {});
      StoreTwice(v.pending, a, map[], map[]);
      StoreTwice(v.queue, a, At(v.queue, a) + invalids + kept, map[]);
    } else {
      w := u;
      if a !in w.pending {
        w := w.(beats := w.beats - {a});
      }
      Refocus(w.pending, w.queue, w.all, a, 0);
    }
  }

  ghost predicate DemotedAt(v: Views, w: Views, head: Head, todo: set<Address>, b: Address) {
    if b in v.pending && b !in todo
    then DemotedLists(At(v.pending, b), At(v.queue, b), At(w.pending, b), At(w.queue, b), head, b)
    else Is(At(w.pending, b), At(v.pending, b)) && Is(At(w.queue, b), At(v.queue, b))
  }

  /** Every account with pending transactions has been demoted, except those in `todo`. */
  ghost predicate AllDemoted(v: Views, w: Views, head: Head, todo: set<Address>) {
    forall b {:trigger DemotedAt(v, w, head, todo, b)} :: DemotedAt(v, w, head, todo, b)
  }

  lemma DemotedMore(v: Views, u: Views, w: Views, head: Head, todo: set<Address>, a: Address)
    requires AllDemoted(v, u, head, todo) && a in todo && a in v.pending && Demoted(u, w, head, a)
    ensures AllDemoted(v, w, head, todo - {a})
    ensures Is(At(u.pending, a), At(v.pending, a))
  {
    assert DemotedAt(v, u, head, todo, a);
    forall b
      ensures DemotedAt(v, w, head, todo - {a}, b)
    {
      assert DemotedAt(v, u, head, todo, b);
      if b != a {
        StoreElsewhere(u.pending, a, At(w.pending, a), b);
        StoreElsewhere(u.queue, a, At(w.queue, a), b);
      }
    }
  }

  /** The accounts outside `todo` that take the front-gap branch. */
  ghost function Gapped(v: Views, head: Head, todo: set<Address>): set<Address> {
    set a | a in v.pending && a !in todo && FrontGap(At(v.pending, a), head, a)
  }

  lemma GappedNext(v: Views, head: Head, todo: set<Address>, a: Address)
    requires a in todo && a in v.pending
    ensures |Gapped(v, head, todo - {a})| ==
              |Gapped(v, head, todo)| + if FrontGap(At(v.pending, a), head, a) then 1 else 0
  {
    if FrontGap(At(v.pending, a), head, a) {
      assert Gapped(v, head, todo - {a}) == Gapped(v, head, todo) + {a};
    } else {
      assert Gapped(v, head, todo - {a}) == Gapped(v, head, todo);
    }
  }

  /** Heartbeats of accounts that have no pending transactions left are gone. */
  ghost predicate BeatsLeft(v: Views, w: Views) {
    Is(w.beats, v.beats - (v.pending.Keys - w.pending.Keys))
  }

  lemma BeatsNext(v: Views, u: Views, w: Views, a: Address)
    requires BeatsLeft(v, u) && a in v.pending && a in u.pending && Is(w.beats, Beating(u.beats, a, At(w.pending, a)))
    requires NoEmpty(w.pending)
    requires Is(w.pending, Store(u.pending, a, At(w.pending, a)))
    ensures BeatsLeft(v, w)
  {
    assert Full(w.pending, a);
    var lost, before := v.pending.Keys - w.pending.Keys, v.pending.Keys - u.pending.Keys;
    assert lost - {a} == before - {a} && (a in lost <==> At(w.pending, a) == map[]);
    assert w.beats == v.beats - lost;
  }

  /** `demoteUnexecutables`; `gaps` counts the accounts that took the front-gap branch. */
  method DemoteUnexecutables(v: Views, head: Head, bump: nat) returns (w: Views, gaps: nat)
    requires Agree(v, 0, map[], {})
    ensures Agree(w, 0, map[], {}) && AllDemoted(v, w, head, {}) && Is(w.nonces, v.nonces) && Within(w.all, v.all)
    ensures gaps == |Gapped(v, head, {})| && BeatsLeft(v, w)
  {
    w, gaps := v, 0;
    var todo := v.pending.Keys;
    assert Gapped(v, head, todo) == {};
    WithinSelf(v.all);
    assert v.beats - (v.pending.Keys - v.pending.Keys) == v.beats;
    while todo != {}
      invariant todo <= v.pending.Keys && Agree(w, 0, map[], {}) && AllDemoted(v, w, head, todo)
      invariant Is(w.nonces, v.nonces) && Within(w.all, v.all)
      invariant gaps == |Gapped(v, head, todo)| && BeatsLeft(v, w)
    {
      var a :| a in todo;
      ghost var u := w;
      var gapped;
      w, gapped := DemoteAccount(w, head, a, bump);
      DemotedMore(v, u, w, head, todo, a);
      WithinTrans(w.all, u.all, v.all);
      GappedNext(v, head, todo, a);
      assert Full(v.pending, a);
      BeatsNext(v, u, w, a);
      if gapped {
        gaps := gaps + 1;
      }
      todo := todo - {a};
    }
  }

  ghost predicate SyncedAt(v: Views, w: Views, todo: set<Address>, a: Address) {
    if a in v.pending && a !in todo
    then
      && a in w.nonces && w.nonces[a] > 0 && w.nonces[a] - 1 in v.pending[a]
      && forall n | n in v.pending[a] :: n < w.nonces[a]
    else (a in w.nonces <==> a in v.nonces) && (a in v.nonces ==> w.nonces[a] == v.nonces[a])
  }

  ghost predicate Synced(v: Views, w: Views, todo: set<Address>) {
    forall a {:trigger SyncedAt(v, w, todo, a)} :: SyncedAt(v, w, todo, a)
  }

  /** The loop in `reset` that moves each virtual nonce just past the account's last pending transaction. */
  method SyncNonces(v: Views) returns (w: Views)
    requires NoEmpty(v.pending)
    ensures Is(w, v.(nonces := w.nonces)) && Synced(v, w, {})
  {
    w := v;
    var todo := v.pending.Keys;
    while todo != {}
      invariant todo <= v.pending.Keys && Is(w, v.(nonces := w.nonces)) && Synced(v, w, todo)
    {
      var a :| a in todo;
      assert Full(v.pending, a);
      var hi := HighestNonce(v.pending[a]);
      ghost var u := w;
      w := w.(nonces := w.nonces[a := hi + 1]);
      forall b
        ensures SyncedAt(v, w, todo - {a}, b)
      {
        assert SyncedAt(v, u, todo, b);
      }
      todo := todo - {a};
    }
  }

  /** Without discarded blocks head nonces only grow. */
  ghost predicate Advances(head: Head, head': Head) {
    forall a {:trigger head'.Nonce(a)} :: head.Nonce(a) <= head'.Nonce(a)
  }

  lemma ExecutableFits(p: Items, lo: nat, hi: nat, head: Head, a: Address) returns (cut: nat)
    requires Contiguous(p, lo, hi) && lo <= head.Nonce(a)
    ensures head.Nonce(a) <= cut && Contiguous(Executable(p, head, a), head.Nonce(a), cut)
    ensures !FrontGap(p, head, a)
  {
    RunForward(p, lo, hi, head.Nonce(a));
    cut := RunKept(From(p, head.Nonce(a)), head.Nonce(a), Max(hi, head.Nonce(a)), head.Unpayables());
  }

  /** In a run that discards no block the front-gap branch is unreachable. */
  lemma NoFrontGap(v: Views, head: Head, head': Head, a: Address)
    requires InStep(v, head, {}) && Advances(head, head')
    ensures !FrontGap(At(v.pending, a), head', a)
  {
    assert FitsAt(v, head, {}, a);
    var cut := ExecutableFits(At(v.pending, a), head.Nonce(a), Virtual(v.nonces, head, a), head', a);
  }

  /** Demotion to a later head, then the nonce update, leaves only queued transactions to promote. */
  lemma DemotedInStep(v: Views, u: Views, w: Views, head: Head, head': Head)
    requires InStep(v, head, {}) && Advances(head, head')
    requires AllDemoted(v, u, head', {}) && Is(u.nonces, map[]) && Is(w, u.(nonces := w.nonces)) && Synced(u, w, {})
    requires NoEmpty(u.pending)
    ensures InStep(w, head', w.queue.Keys)
  {
    forall a
      ensures FitsAt(w, head', w.queue.Keys, a)
    {
      assert FitsAt(v, head, {}, a);
      assert DemotedAt(v, u, head', {}, a);
      assert SyncedAt(u, w, {}, a);
      assert Full(u.pending, a);
      var cut := ExecutableFits(At(v.pending, a), head.Nonce(a), Virtual(v.nonces, head, a), head', a);
      NonceOfRun(At(w.pending, a), head'.Nonce(a), cut, Virtual(w.nonces, head', a));
    }
  }

  lemma NonceOfRun(p: Items, lo: nat, hi: nat, next: nat)
    requires Contiguous(p, lo, hi)
    requires if p == map[] then next == lo else next > 0 && next - 1 in p && forall n | n in p :: n < next
    ensures next == hi
  {
    if lo < hi {
      assert hi - 1 in p;
    }
  }

  /**
   Exactly when demotion leaves an account's pending list contiguous, whatever list it starts
   from (after a reorganisation, one with reinjected transactions in it): when the front-gap
   branch catches it, or nothing executable lies beyond the first missing nonce.
   */
  lemma ContiguousIff(p: Items, q: Items, p': Items, q': Items, head: Head, a: Address)
    requires DemotedLists(p, q, p', q', head, a)
    ensures (exists hi :: Contiguous(p', head.Nonce(a), hi)) <==>
              (FrontGap(p, head, a) || forall n | n in Executable(p, head, a) :: n < RunEnd(p, head.Nonce(a)))
  {
    var lo, e := head.Nonce(a), RunEnd(p, head.Nonce(a));
    if FrontGap(p, head, a) {
      assert Contiguous(p', lo, lo);
    } else if forall n | n in p' :: n < e {
      var cut := PrefixRun(p, head, a, e);
      assert Contiguous(p', lo, cut);
    } else {
      var n :| n in p' && e <= n;
      forall hi
        ensures !Contiguous(p', lo, hi)
      {
        assert e !in p';
      }
    }
  }

  lemma PrefixRun(p: Items, head: Head, a: Address, e: nat) returns (cut: nat)
    requires e == RunEnd(p, head.Nonce(a)) && forall n | n in Executable(p, head, a) :: n < e
    ensures Contiguous(Executable(p, head, a), head.Nonce(a), cut)
  {
    cut := head.Nonce(a);
    while cut < e && !head.Unpayable(p[cut])
      invariant head.Nonce(a) <= cut <= e && forall n | head.Nonce(a) <= n < cut :: n in p && !head.Unpayable(p[n])
    {
      cut := cut + 1;
    }
    forall n: nat
      ensures n in Executable(p, head, a) <==> head.Nonce(a) <= n < cut
    {
      RunMember(p, head, a, e, cut, n);
    }
  }

  lemma RunMember(p: Items, head: Head, a: Address, e: nat, cut: nat, n: nat)
    requires head.Nonce(a) <= cut <= e == RunEnd(p, head.Nonce(a)) && (n in Executable(p, head, a) ==> n < e)
    requires forall m | head.Nonce(a) <= m < cut :: m in p && !head.Unpayable(p[m])
    requires cut < e ==> head.Unpayable(p[cut])
    ensures n in Executable(p, head, a) <==> head.Nonce(a) <= n < cut
  {
    var young := From(p, head.Nonce(a));
    if n in Executable(p, head, a) && cut < e {
      assert cut in young && head.Unpayables()(young[cut]);
    }
    if head.Nonce(a) <= n < cut {
      assert n in young && forall m | m in young && m < cut :: !head.Unpayables()(young[m]);
    }
  }
}
