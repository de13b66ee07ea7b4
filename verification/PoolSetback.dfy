/**
 What the limit on pending transactions does to a reset that reinjects. The limit is applied before
 demotion, to lists that may still lie below the new head nonce, and cutting one of those sets the
 account's virtual nonce back below its head nonce. Nothing later in the reset corrects that.
 */
module PoolSetback {
  import opened Values
  import opened TxTypes
  import opened PoolModel
  import opened PoolSteps
  import opened PoolNonces
  import opened PoolDemote
  import opened PoolLimits
  import opened PoolEffects
  import opened PoolOps
  import opened PoolReset

  /** An account without a queue has no turn, and without pending transactions nothing for the limits to cut. */
  lemma IdleAccount(y: Views, w: Views, head: Head, locals: set<Address>, config: Config, clock: nat,
                    accounts: seq<Address>, cut: set<Address>, a: Address)
    requires Executed(y, w, head, locals, config, clock, accounts, cut) && Distinct(accounts) && Agree(y, 0, map[], {})
    requires a !in accounts && At(y.pending, a) == map[]
    ensures At(w.pending, a) == map[] && Virtual(w.nonces, head, a) == Virtual(y.nonces, head, a)
  {
    var vs, z, level :|
      Turns(vs, head, locals, config, clock, accounts) && Is(vs[0], y)
      && Limits(Last(vs), z, w, head, locals, config, cut, level);
    TurnsEffect(vs, head, locals, config, clock, accounts, a);
    assert LoweredAt(Last(vs), z, head, a);
  }

  lemma DemotedAway(p: Items, p': Items, q': Items, head: Head, a: Address)
    requires DemotedLists(p, map[], p', q', head, a) && forall n | n in p :: n < head.Nonce(a)
    ensures p' == map[] && q' == map[]
  {
    assert From(p, head.Nonce(a)) == map[];
    assert Executable(p, head, a) == map[] && Invalidated(p, head, a) == map[];
  }

  /**
   Demotion drops a list that lies below the head nonce, and the update of virtual nonces skips an account
   without pending transactions: its virtual nonce stays what reinjection left it.
   */
  lemma StaysBack(u: Views, x: Views, y: Views, w: Views, head: Head, locals: set<Address>, config: Config, clock: nat,
                  accounts: seq<Address>, cut: set<Address>, a: Address)
    requires Settled(u, x, y, w, head, locals, config, clock, accounts, cut)
    requires (forall n | n in At(u.pending, a) :: n < head.Nonce(a)) && At(u.queue, a) == map[]
    ensures At(w.pending, a) == map[] && Virtual(w.nonces, head, a) == Virtual(u.nonces, head, a)
  {
    DemotedAny(u, x, head, a);
    DemotedAway(At(u.pending, a), At(x.pending, a), At(x.queue, a), head, a);
    SyncedNonce(x, y, head, a);
    assert Full(y.queue, a) && (a in accounts <==> a in Elems(accounts));
    IdleAccount(y, w, head, locals, config, clock, accounts, cut, a);
  }

  /** Two lists add up to no more than all of them. */
  lemma TwoOfTotal(lists: Lists, a: Address, b: Address)
    requires a != b
    ensures |At(lists, a)| + |At(lists, b)| <= Total(lists)
  {
    TotalSplit(lists, a);
    TotalSplit(lists - {a}, b);
  }

  /** With one slot an account and two in all, the third pending transaction costs account `a` its last. */
  lemma CutToOne(x: Views, y: Views, head: Head, locals: set<Address>, cut: set<Address>, level: nat, a: Address,
                 b: Address)
    requires Equalized(x, y, locals, 1, 2, cut, level) && Lowered(x, y, head) && NoEmpty(y.pending) && a !in locals
    requires a != b && Len(x, a) == 2 && Len(x, b) == 1
    ensures LowestPart(At(x.pending, a), At(y.pending, a), 1) && LoweredAt(x, y, head, a)
  {
    TwoOfTotal(x.pending, a, b);
    TwoOfTotal(y.pending, a, b);
    assert LevelAt(x, y, cut, level, a) && LevelAt(x, y, cut, level, b) && LoweredAt(x, y, head, a);
    assert Full(y.pending, a);
    assert b !in cut && Len(y, b) == 1;
    assert a in cut;
  }

  /** While the virtual nonce is below the head nonce, nothing of the account's queue is promoted. */
  lemma NothingReady(v: Views, w: Views, head: Head, a: Address, limit: nat, local: bool)
    requires Promoted(v, w, head, a, limit, local) && NoEmpty(v.pending) && Virtual(v.nonces, head, a) < head.Nonce(a)
    ensures Is(w.pending, v.pending) && Is(w.nonces, v.nonces)
  {
    var live := Live(At(v.queue, a), head, a);
    NoneBelow(At(v.queue, a), head, a, Virtual(v.nonces, head, a));
    StoreNothing(v.pending, a, Below(live, ReadyEnd(live, Virtual(v.nonces, head, a))));
  }

  lemma StoreNothing(lists: Lists, a: Address, more: Items)
    requires NoEmpty(lists) && more == map[]
    ensures Is(Store(lists, a, At(lists, a) + more), lists)
  {
    assert Full(lists, a);
    StoreSelf(lists, a);
    assert At(lists, a) + more == At(lists, a);
  }

  lemma NoneBelow(queue: Items, head: Head, a: Address, next: nat)
    requires next < head.Nonce(a)
    ensures var live := Live(queue, head, a); Below(live, ReadyEnd(live, next)) == map[]
  {
    var live := Live(queue, head, a);
    if live != map[] {
      assert Lowest(live) in live;
    }
    assert ReadyEnd(live, next) == 0 && Below(live, 0) == map[];
  }

  // A family of resets where it happens.

  /** A pool that holds two transactions of one account, both pending. */
  function Pair(t: Tx, u: Tx): Views {
    Views(map[t.sender := map[t.nonce := t, u.nonce := u]], map[], map[t.sender := u.nonce + 1],
          map[t.hash := t, u.hash := u], [u, t], 0, map[])
  }

  /** Two transactions of one account with consecutive nonces, the second no dearer than the first. */
  predicate Consecutive(t: Tx, u: Tx) {
    u.sender == t.sender && u.nonce == t.nonce + 1 && u.price <= t.price
  }

  lemma PairAgrees(t: Tx, u: Tx, before: Head)
    requires Consecutive(t, u) && before.Nonce(t.sender) == t.nonce
    ensures Agree(Pair(t, u), 0, map[], {}) && InStep(Pair(t, u), before, {})
  {
    var v := Pair(t, u);
    forall a
      ensures Account(a, At(v.pending, a), At(v.queue, a), InHand(a, 0, map[]), v.all) && Full(v.pending, a)
      ensures Full(v.queue, a)
    {
      assert t.nonce in v.pending[t.sender];
      assert At(v.pending, a) + At(v.queue, a) + InHand(a, 0, map[]) == At(v.pending, a);
    }
    forall a
      ensures FitsAt(v, before, {}, a)
    {
    }
    forall h
      ensures Listed(v.priced, v.all, {}, h)
    {
    }
  }

  /** The new head is past both of them, and another account's transaction comes back that is next in line. */
  ghost predicate Overtaken(t: Tx, u: Tx, z: Tx, before: Head, head: Head, gasPrice: nat) {
    && Consecutive(t, u) && before.Nonce(t.sender) == t.nonce && head.Nonce(t.sender) > u.nonce
    && z.sender != t.sender && z.nonce == head.Nonce(z.sender) && !head.Unpayable(z) && gasPrice <= z.price
  }

  /** The transaction that comes back is queued. */
  lemma Comeback(v: Views, z: Tx, head: Head, config: Config, gasPrice: nat)
    requires z.hash !in v.all && |v.all| < Slots(config) && At(v.pending, z.sender) == map[] && v.queue == map[]
    requires z.nonce == head.Nonce(z.sender) && !head.Unpayable(z) && gasPrice <= z.price
    ensures var txs := [Incoming(z, true)];
            && Is(AdmitAll(v, head, {}, config, gasPrice, txs).queue, map[z.sender := map[z.nonce := z]])
            && Is(Gains(v, head, {}, config, gasPrice, txs), {z.sender})
  {
    var txs := [Incoming(z, true)];
    assert txs[..0] == [];
    assert Verdict(v, head, {}, config, gasPrice, false, txs[0]) == Added(false);
  }

  /** It is then promoted, being payable and next in line. */
  lemma OneReady(z: Tx, p: Items, q: Items, next: nat, head: Head)
    requires z.nonce == head.Nonce(z.sender) && !head.Unpayable(z)
    requires TurnedLists(map[], map[z.nonce := z], z.nonce, p, q, next, head, z.sender)
    ensures |p| == 1
  {
    var queue := map[z.nonce := z];
    assert Live(queue, head, z.sender) == queue;
    SingleReady(z);
    assert p == map[] + queue == queue;
  }

  lemma SingleReady(z: Tx)
    ensures var queue := map[z.nonce := z]; Below(queue, ReadyEnd(queue, z.nonce)) == queue
  {
    var queue := map[z.nonce := z];
    assert z.nonce in queue;
    assert Lowest(queue) == z.nonce;
    assert RunEnd(queue, z.nonce) > z.nonce;
  }

  lemma OnlyLowest(t: Tx, u: Tx, kept: Items)
    requires Consecutive(t, u) && LowestPart(map[t.nonce := t, u.nonce := u], kept, 1)
    ensures t.nonce in kept && u.nonce !in kept && forall n | n in kept :: n == t.nonce
  {
    var n :| n in kept;
    assert kept.Keys - {n} == {} by {
      assert |kept.Keys - {n}| == 0;
    }
  }

  /** The limit then cuts the other account, whose list lies below its virtual nonce. */
  lemma LimitBites(x: Views, y: Views, w: Views, t: Tx, u: Tx, b: Address, head: Head, config: Config,
                   cut: set<Address>, level: nat)
    requires Limits(x, y, w, head, {}, config, cut, level) && config.accountSlots == 1 && config.globalSlots == 2
    requires Consecutive(t, u) && Is(At(x.pending, t.sender), map[t.nonce := t, u.nonce := u])
    requires b != t.sender && Len(x, b) == 1 && At(x.queue, t.sender) == map[]
    requires Virtual(x.nonces, head, t.sender) > u.nonce
    ensures (forall n | n in At(w.pending, t.sender) :: n == t.nonce) && At(w.queue, t.sender) == map[]
    ensures Virtual(w.nonces, head, t.sender) == u.nonce
  {
    var a := t.sender;
    CutToOne(x, y, head, {}, cut, level, a, b);
    OnlyLowest(t, u, At(y.pending, a));
    assert TrimmedAt(y, w, {}, a);
  }

  /** The promotion at the end of reinjection. */
  lemma CutBack(r: Views, w: Views, t: Tx, u: Tx, z: Tx, head: Head, config: Config, clock: nat, accounts: seq<Address>,
                cut: set<Address>)
    requires Executed(r, w, head, {}, config, clock, accounts, cut) && Distinct(accounts)
    requires Is(Elems(accounts), {z.sender}) && Agree(r, 0, map[], {})
    requires Consecutive(t, u) && head.Nonce(t.sender) > u.nonce && config.accountSlots == 1 && config.globalSlots == 2
    requires z.sender != t.sender && z.nonce == head.Nonce(z.sender) && !head.Unpayable(z)
    requires Is(At(r.pending, t.sender), map[t.nonce := t, u.nonce := u]) && At(r.pending, z.sender) == map[]
    requires Is(At(r.queue, z.sender), map[z.nonce := z]) && At(r.queue, t.sender) == map[] && r.nonces == map[]
    ensures (forall n | n in At(w.pending, t.sender) :: n == t.nonce) && At(w.queue, t.sender) == map[]
    ensures Virtual(w.nonces, head, t.sender) == u.nonce
  {
    var vs, y, level :|
      Turns(vs, head, {}, config, clock, accounts) && Is(vs[0], r)
      && Limits(Last(vs), y, w, head, {}, config, cut, level);
    assert z.sender in Elems(accounts) && t.sender !in Elems(accounts);
    TurnsEffect(vs, head, {}, config, clock, accounts, t.sender);
    TurnsEffect(vs, head, {}, config, clock, accounts, z.sender);
    var x := Last(vs);
    OneReady(z, At(x.pending, z.sender), At(x.queue, z.sender), Virtual(x.nonces, head, z.sender), head);
    LimitBites(x, y, w, t, u, z.sender, head, config, cut, level);
  }

  /** What reinjection leaves of the overtaken account. */
  lemma BatchSetsBack(w: Views, t: Tx, u: Tx, z: Tx, before: Head, head: Head, config: Config, gasPrice: nat,
                      clock: nat, results: seq<AddResult>, cut: set<Address>)
    requires Overtaken(t, u, z, before, head, gasPrice) && config.accountSlots == 1 && config.globalSlots == 2
    requires config.globalQueue > 0
    requires BatchAdded(Pair(t, u).(nonces := map[]), w, head, {}, {}, config, gasPrice, clock, false,
                        [Incoming(z, true)], results, cut)
    ensures (forall n | n in At(w.pending, t.sender) :: n == t.nonce) && At(w.queue, t.sender) == map[]
    ensures Virtual(w.nonces, head, t.sender) == u.nonce
  {
    var v, txs := Pair(t, u).(nonces := map[]), [Incoming(z, true)];
    PairAgrees(t, u, before);
    Comeback(v, z, head, config, gasPrice);
    AdmitKeeps(v, head, {}, config, gasPrice, txs);
    var r, accounts := BatchReaches(v, w, head, {}, config, gasPrice, clock, txs, results, cut);
    assert z.sender in Elems(accounts);
    CutBack(r, w, t, u, z, head, config, clock, accounts, cut);
  }

  /** No account has a hole: the one that gains a transaction had none pending. */
  lemma NoHoles(t: Tx, u: Tx, z: Tx, before: Head, head: Head, config: Config, gasPrice: nat)
    requires Overtaken(t, u, z, before, head, gasPrice) && Slots(config) > 2
    ensures forall b :: !Holey(Pair(t, u), before, head, {}, config, gasPrice, [Incoming(z, true)], b)
  {
    Comeback(Pair(t, u), z, head, config, gasPrice);
  }

  lemma SetBack(w: Views, t: Tx, u: Tx, z: Tx, before: Head, head: Head, config: Config, gasPrice: nat, clock: nat,
                gaps: nat, cut: set<Address>)
    requires Overtaken(t, u, z, before, head, gasPrice) && config.accountSlots == 1 && config.globalSlots == 2
    requires config.globalQueue > 0
    requires ResetDone(Pair(t, u), w, head, {}, config, gasPrice, clock, [Incoming(z, true)], gaps, cut)
    ensures Virtual(w.nonces, head, t.sender) == u.nonce
  {
    var v, x, y, accounts, results, first: set<Address>, second: set<Address> :|
      && Is(cut, first + second)
      && BatchAdded(Pair(t, u).(nonces := map[]), v, head, {}, {}, config, gasPrice, clock, false, [Incoming(z, true)],
                    results, first)
      && gaps == |Gapped(v, head, {})| && Settled(v, x, y, w, head, {}, config, clock, accounts, second);
    BatchSetsBack(v, t, u, z, before, head, config, gasPrice, clock, results, first);
    StaysBack(v, x, y, w, head, {}, config, clock, accounts, second, t.sender);
  }

  /**
   Every such reset, of a coherent pool in step, leaves the overtaken account's virtual nonce below its
   head nonce, although no account has a hole.
   */
  method ResetSetsBack(t: Tx, u: Tx, z: Tx, before: Head, head: Head, config: Config, gasPrice: nat, clock: nat)
    returns (w: Views, gaps: nat, ghost cut: set<Address>)
    requires Overtaken(t, u, z, before, head, gasPrice) && config.accountSlots == 1 && config.globalSlots == 2
    requires config.globalQueue > 0
    ensures Agree(Pair(t, u), 0, map[], {}) && InStep(Pair(t, u), before, {})
    ensures ResetDone(Pair(t, u), w, head, {}, config, gasPrice, clock, [Incoming(z, true)], gaps, cut)
    ensures forall b :: !Holey(Pair(t, u), before, head, {}, config, gasPrice, [Incoming(z, true)], b)
    ensures Virtual(w.nonces, head, t.sender) == u.nonce < head.Nonce(t.sender)
  {
    PairAgrees(t, u, before);
    NoHoles(t, u, z, before, head, config, gasPrice);
    w, gaps, cut := Reset(Pair(t, u), head, {}, config, gasPrice, clock, [Incoming(z, true)], before);
    SetBack(w, t, u, z, before, head, config, gasPrice, clock, gaps, cut);
  }

  /**
   For example with nonces 5 and 6 of account 1 pending, and nonce 0 of account 2 coming back at a head
   of nonce 7 or more.
   */
  lemma FreeOvertaken(nonce: nat, past: nat)
    requires nonce + 1 < past
    ensures Overtaken(Free(nonce), Free(nonce + 1), Tx(2, 0, 0, 0, 0, None, 0), HeadAt(nonce), HeadAt(past), 0)
  {
    assert Tx(2, 0, 0, 0, 0, None, 0).Fee() == 0;
  }
}
