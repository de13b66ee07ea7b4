/** Which transactions the pool may lose: what it forgets has a reason the caller can check. */
module PoolLosses {
  import opened Values
  import opened TxTypes
  import opened PoolModel
  import opened PoolSteps
  import opened PoolDemote
  import opened PoolLimits

  /** The head state rules the transaction out: its nonce is used or its payers cannot cover it. */
  predicate Doomed(head: Head, t: Tx) {
    t.nonce < head.Nonce(t.sender) || head.Unpayable(t)
  }

  predicate SparedAt(v: Views, w: Views, head: Head, who: set<Address>, h: Hash) {
    h in v.all && v.all[h].sender in who && !Doomed(head, v.all[h]) ==> h in w.all && w.all[h] == v.all[h]
  }

  /** Transactions from `who` are forgotten only if the head state rules them out. */
  ghost predicate Spared(v: Views, w: Views, head: Head, who: set<Address>) {
    forall h {:trigger SparedAt(v, w, head, who, h)} :: SparedAt(v, w, head, who, h)
  }

  lemma SparedSelf(v: Views, w: Views, head: Head, who: set<Address>)
    requires Is(w.all, v.all)
    ensures Spared(v, w, head, who)
  {
    forall h
      ensures SparedAt(v, w, head, who, h)
    {
    }
  }

  lemma SparedTrans(v: Views, u: Views, w: Views, head: Head, who: set<Address>)
    requires Spared(v, u, head, who) && Spared(u, w, head, who)
    ensures Spared(v, w, head, who)
  {
    forall h
      ensures SparedAt(v, w, head, who, h)
    {
      assert SparedAt(v, u, head, who, h) && SparedAt(u, w, head, who, h);
    }
  }

  /** Whatever is in its sender's lists is known. */
  lemma StillKnown(w: Views, t: Tx)
    requires Coherent(w.pending, w.queue, w.all, 0, map[])
    requires Holds(At(w.pending, t.sender), t) || Holds(At(w.queue, t.sender), t)
    ensures t.hash in w.all && w.all[t.hash] == t
  {
    var p, q, none := At(w.pending, t.sender), At(w.queue, t.sender), InHand(t.sender, 0, map[]);
    assert Account(t.sender, p, q, none, w.all);
    assert Holds(p + q + none, t);
  }

  /** What is known is in exactly one list, under its own hash. */
  lemma WasListed(v: Views, h: Hash)
    requires Coherent(v.pending, v.queue, v.all, 0, map[]) && h in v.all
    ensures var t := v.all[h];
            && t.hash == h
            && if Holds(At(v.pending, t.sender), t) then t.nonce !in At(v.queue, t.sender)
               else Holds(At(v.queue, t.sender), t)
  {
    KnownFacts(v.pending, v.queue, v.all, h);
  }

  /** Promotion spares local accounts. */
  lemma PromotedSpares(v: Views, w: Views, head: Head, who: set<Address>, a: Address, limit: nat)
    requires Coherent(v.pending, v.queue, v.all, 0, map[]) && Coherent(w.pending, w.queue, w.all, 0, map[])
    requires Promoted(v, w, head, a, limit, a in who)
    ensures Spared(v, w, head, who)
  {
    forall h
      ensures SparedAt(v, w, head, who, h)
    {
      if h in v.all && v.all[h].sender in who && !Doomed(head, v.all[h]) {
        WasListed(v, h);
        PromotedHolds(v, w, head, a, limit, v.all[h]);
        StillKnown(w, v.all[h]);
      }
    }
  }

  lemma PromotedHolds(v: Views, w: Views, head: Head, a: Address, limit: nat, t: Tx)
    requires Promoted(v, w, head, a, limit, true) || (Promoted(v, w, head, a, limit, false) && t.sender != a)
    requires if Holds(At(v.pending, t.sender), t) then t.nonce !in At(v.queue, t.sender)
             else Holds(At(v.queue, t.sender), t)
    requires !Doomed(head, t)
    ensures Holds(At(w.pending, t.sender), t) || Holds(At(w.queue, t.sender), t)
  {
    var live := Live(At(v.queue, a), head, a);
    var end := ReadyEnd(live, Virtual(v.nonces, head, a));
    StoreTwice(v.pending, a, At(v.pending, a) + Below(live, end), map[]);
    if t.sender != a {
      StoreElsewhere(v.pending, a, At(v.pending, a) + Below(live, end), t.sender);
      StoreElsewhere(v.queue, a, At(w.queue, a), t.sender);
    }
  }

  /** Equalisation cuts remote accounts only. */
  lemma EqualizedSpares(v: Views, w: Views, head: Head, who: set<Address>, slots: nat, limit: nat, cut: set<Address>,
                        level: nat)
    requires Coherent(v.pending, v.queue, v.all, 0, map[]) && Coherent(w.pending, w.queue, w.all, 0, map[])
    requires Equalized(v, w, who, slots, limit, cut, level) && Is(w.queue, v.queue)
    ensures Spared(v, w, head, who)
  {
    forall h
      ensures SparedAt(v, w, head, who, h)
    {
      if h in v.all && v.all[h].sender in who {
        WasListed(v, h);
        assert LevelAt(v, w, cut, level, v.all[h].sender);
        StillKnown(w, v.all[h]);
      }
    }
  }

  /** And so does truncation. */
  lemma TruncatedSpares(v: Views, w: Views, head: Head, who: set<Address>, limit: nat)
    requires Coherent(v.pending, v.queue, v.all, 0, map[]) && Coherent(w.pending, w.queue, w.all, 0, map[])
    requires Truncated(v, w, who, limit) && Is(w.pending, v.pending)
    ensures Spared(v, w, head, who)
  {
    forall h
      ensures SparedAt(v, w, head, who, h)
    {
      if h in v.all && v.all[h].sender in who {
        WasListed(v, h);
        assert TrimmedAt(v, w, who, v.all[h].sender);
        StillKnown(w, v.all[h]);
      }
    }
  }

  /** Demotion spares everyone: what is not executable is queued again, not forgotten. */
  lemma DemotedSpares(v: Views, w: Views, head: Head, who: set<Address>)
    requires Coherent(v.pending, v.queue, v.all, 0, map[]) && Coherent(w.pending, w.queue, w.all, 0, map[])
    requires AllDemoted(v, w, head, {})
    ensures Spared(v, w, head, who)
  {
    forall h
      ensures SparedAt(v, w, head, who, h)
    {
      if h in v.all && !Doomed(head, v.all[h]) {
        WasListed(v, h);
        Demotes(v, w, head, v.all[h]);
        StillKnown(w, v.all[h]);
      }
    }
  }

  lemma Demotes(v: Views, w: Views, head: Head, t: Tx)
    requires Coherent(v.pending, v.queue, v.all, 0, map[]) && AllDemoted(v, w, head, {}) && !Doomed(head, t)
    requires if Holds(At(v.pending, t.sender), t) then t.nonce !in At(v.queue, t.sender)
             else Holds(At(v.queue, t.sender), t)
    ensures Holds(At(w.pending, t.sender), t) || Holds(At(w.queue, t.sender), t)
  {
    var a := t.sender;
    var p, q := At(v.pending, a), At(v.queue, a);
    assert DemotedAt(v, w, head, {}, a);
    if a in v.pending {
      assert Account(a, p, q, InHand(a, 0, map[]), v.all);
      DemotedHolds(p, q, At(w.pending, a), At(w.queue, a), head, t);
    }
  }

  lemma DemotedHolds(p: Items, q: Items, p': Items, q': Items, head: Head, t: Tx)
    requires DemotedLists(p, q, p', q', head, t.sender) && !Doomed(head, t)
    requires forall n | n in p :: n !in q
    requires if Holds(p, t) then t.nonce !in q else Holds(q, t)
    ensures Holds(p', t) || Holds(q', t)
  {
  }
}
