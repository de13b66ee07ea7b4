/** The operations the pool offers, on its views as a value. */
module PoolOps {
  import opened Values
  import opened TxTypes
  import opened PoolModel
  import opened TxLists
  import opened PoolSteps
  import opened PoolNonces
  import opened PoolDemote
  import opened PoolLimits
  import opened PoolLosses
  import opened PoolEffects
  import BinaryHeap

  lemma WithinSize(all': Lookup, all: Lookup)
    requires Within(all', all)
    ensures |all'| <= |all|
  {
    forall h | h in all'
      ensures h in all
    {
      assert Same(all', all, h);
    }
    assert |all'| == |all'.Keys| && |all| == |all.Keys|;
    SubsetSize(all'.Keys, all.Keys);
  }

  /** Neither limit is exceeded, except by accounts the pool must not cut. */
  ghost predicate Bounded(w: Views, locals: set<Address>, config: Config) {
    && (|| Total(w.pending) <= config.globalSlots
        || forall a | a in w.pending && a !in locals :: Len(w, a) <= config.accountSlots)
    && (Total(w.queue) <= config.globalQueue || forall a | a in w.queue :: a in locals)
  }

  method PromoteAccounts(v: Views, head: Head, locals: set<Address>, config: Config, clock: nat, accounts: seq<Address>)
    returns (w: Views, ghost vs: seq<Views>)
    requires Agree(v, 0, map[], {})
    ensures Agree(w, 0, map[], {}) && Within(w.all, v.all) && Spared(v, w, head, locals)
    ensures Turns(vs, head, locals, config, clock, accounts) && Is(vs[0], v) && Is(Last(vs), w)
    ensures InStep(v, head, Elems(accounts)) ==> InStep(w, head, {})
  {
    w := v;
    WithinSelf(v.all);
    SparedSelf(v, w, head, locals);
    ghost var dirty, done: seq<Address> := Elems(accounts), [];
    vs := [v];
    for i := 0 to |accounts|
      invariant Agree(w, 0, map[], {}) && Within(w.all, v.all) && Spared(v, w, head, locals)
      invariant InStep(v, head, Elems(accounts)) ==> InStep(w, head, dirty)
      invariant forall a | a in dirty :: a in accounts[i..]
      invariant done == accounts[..i] && Turns(vs, head, locals, config, clock, done) && Is(vs[0], v) && Is(Last(vs), w)
    {
      var a := accounts[i];
      ghost var before := w;
      w := PromoteQueued(w, head, a, config, locals, clock, dirty);
      WithinTrans(w.all, before.all, v.all);
      SparedTrans(v, before, w, head, locals);
      TraceMore(TurnOf(head, locals, config, clock), vs, done, a, w);
      vs, dirty, done := vs + [w], dirty - {a}, done + [a];
      assert accounts[i..] == [a] + accounts[i + 1..];
    }
    NoneLeft(dirty, accounts);
    assert done == accounts;
  }

  lemma NoneLeft(dirty: set<Address>, accounts: seq<Address>)
    requires forall a | a in dirty :: a in accounts[|accounts|..]
    ensures Is(dirty, {})
  {
    assert dirty == {};
  }

  /** Promotes an account unless it has no queue; either way it is then in step. */
  method PromoteQueued(v: Views, head: Head, a: Address, config: Config, locals: set<Address>, clock: nat,
                       ghost dirty: set<Address>)
    returns (w: Views)
    requires Agree(v, 0, map[], {})
    ensures Agree(w, 0, map[], {}) && Within(w.all, v.all) && Spared(v, w, head, locals)
    ensures Turn(v, w, head, locals, config, clock, a)
    ensures InStep(v, head, dirty) ==> InStep(w, head, dirty - {a})
  {
    if a in v.queue {
      w := PromoteAccount(v, head, a, config, a in locals, clock);
      PromotedSpares(v, w, head, locals, a, config.accountQueue);
      if InStep(v, head, dirty) {
        PromotedInStep(v, w, head, dirty, a, config.accountQueue, a in locals);
      }
    } else {
      WithinSelf(v.all);
      w := v;
      SparedSelf(v, w, head, locals);
      if InStep(v, head, dirty) {
        forall b
          ensures FitsAt(v, head, dirty - {a}, b)
        {
          assert FitsAt(v, head, dirty, b);
        }
      }
    }
  }

  /** `promoteExecutables`. Local transactions are forgotten only if the head state rules them out. */
  method PromoteExecutables(v: Views, head: Head, locals: set<Address>, config: Config, clock: nat,
                            accounts: seq<Address>)
    returns (w: Views, ghost cut: set<Address>)
    requires Agree(v, 0, map[], {})
    ensures Agree(w, 0, map[], {}) && Bounded(w, locals, config) && |w.all| <= |v.all| && Spared(v, w, head, locals)
    ensures Executed(v, w, head, locals, config, clock, accounts, cut)
    ensures InStep(v, head, Elems(accounts)) ==> InStep(w, head, {})
  {
    var x;
    ghost var vs;
    x, vs := PromoteAccounts(v, head, locals, config, clock, accounts);
    var y;
    ghost var level;
    y, cut, level := Equalize(x, head, locals, config.accountSlots, config.globalSlots, {});
    w := TruncateQueue(y, head, locals, config.globalQueue, config.priceBump, {});
    WithinTrans(y.all, x.all, v.all);
    WithinTrans(w.all, y.all, v.all);
    WithinSize(w.all, v.all);
    EqualizedSpares(x, y, head, locals, config.accountSlots, config.globalSlots, cut, level);
    TruncatedSpares(y, w, head, locals, config.globalQueue);
    SparedTrans(v, x, y, head, locals);
    SparedTrans(v, y, w, head, locals);
    assert Limits(Last(vs), y, w, head, locals, config, cut, level);
  }

  /** `add`: the new transaction is queued, displacing at most one, or the pool is left as it was. */
  method Add(v: Views, head: Head, locals: set<Address>, config: Config, gasPrice: nat, tx: Tx, local: bool,
             sound: bool, ghost dirty: set<Address>)
    returns (w: Views, r: AddResult)
    requires Agree(v, 0, map[], {})
    ensures Agree(w, 0, map[], {})
    ensures r == Verdict(v, head, locals, config, gasPrice, local, Incoming(tx, sound)) && AddedOne(v, w, tx, r)
    ensures r.Failed? <==>
              || tx.hash in v.all || !ValidTx(head, locals, gasPrice, tx, local, sound) || |v.all| >= Slots(config)
              || tx.nonce in At(v.pending, tx.sender)
              || (tx.nonce in At(v.queue, tx.sender)
                  && !Outbids(At(v.queue, tx.sender)[tx.nonce], tx, config.priceBump))
    ensures r.Added? ==> |w.all| <= Slots(config)
    ensures InStep(v, head, dirty) ==> InStep(w, head, if r == Added(false) then dirty + {tx.sender} else dirty)
  {
    if tx.hash in v.all {
      return v, Failed(AlreadyKnown);
    }
    if !ValidTx(head, locals, gasPrice, tx, local, sound) {
      return v, Failed(Invalid);
    }
    if |v.all| >= Slots(config) {
      return v, Failed(PoolFull);
    }
    if tx.nonce in At(v.pending, tx.sender) {
      return v, Failed(SameNonce);
    }
    var placed;
    w, placed := EnqueueTx(v, tx, config.priceBump, {});
    if placed.Rejected? {
      return v, Failed(ReplaceUnderpriced);
    }
    r := Added(placed.replaced);
    EnqueuedOne(v, w, tx);
    if InStep(v, head, dirty) {
      AddedInStep(v, w, head, dirty, tx);
    }
  }

  /** The lookup after a replacement is no larger than before, after a plain addition one larger. */
  lemma KnownSize(v: Views, tx: Tx)
    requires Coherent(v.pending, v.queue, v.all, 0, map[]) && tx.hash !in v.all
    ensures |Known(v, tx)| <= |v.all| + 1
  {
    var q := At(v.queue, tx.sender);
    if tx.nonce in q {
      QueuedFacts(v.pending, v.queue, v.all, tx.sender, tx.nonce);
    }
  }

  /** A new transaction that `enqueueTx` accepts. */
  lemma EnqueuedOne(v: Views, w: Views, tx: Tx)
    requires Agree(v, 0, map[], {}) && tx.hash !in v.all && tx.nonce !in At(v.pending, tx.sender)
    requires Covered(w.priced, w.all, {})
    requires Is(w, v.(queue := w.queue, all := w.all, priced := w.priced, stales := w.stales))
    requires var q := At(v.queue, tx.sender);
             var rest := if tx.nonce in q then v.all - {q[tx.nonce].hash} else v.all;
             && Is(w.queue, v.queue[tx.sender := q[tx.nonce := tx]])
             && Is(w.all, if tx.hash in rest then rest else rest[tx.hash := tx])
    ensures Agree(w, 0, map[], {}) && AddedOne(v, w, tx, Added(tx.nonce in At(v.queue, tx.sender)))
    ensures |w.all| <= |v.all| + 1
  {
    EnqueueNew(v.pending, v.queue, v.all, tx);
    KnownSize(v, tx);
    StoreNoEmpty(v.queue, tx.sender, At(v.queue, tx.sender)[tx.nonce := tx]);
    assert tx.nonce in At(w.queue, tx.sender);
  }

  lemma AddedInStep(v: Views, w: Views, head: Head, dirty: set<Address>, tx: Tx)
    requires InStep(v, head, dirty) && NoEmpty(v.pending)
    requires Is(w.pending, v.pending) && Is(w.nonces, v.nonces)
    requires Is(w.queue, Store(v.queue, tx.sender, At(v.queue, tx.sender)[tx.nonce := tx]))
    ensures InStep(w, head, dirty + {tx.sender})
    ensures tx.nonce in At(v.queue, tx.sender) ==> InStep(w, head, dirty)
  {
    var a, n := tx.sender, tx.nonce;
    assert FitsAt(v, head, dirty, a);
    assert Full(v.pending, a);
    StoreSelf(v.pending, a);
    StepAt(v, w, head, dirty, dirty + {a}, a, At(v.pending, a), At(v.queue, a)[n := tx], 0);
    if n in At(v.queue, a) {
      StepAt(v, w, head, dirty, dirty, a, At(v.pending, a), At(v.queue, a)[n := tx], 0);
    }
  }

  /** `addTxsLocked`: adds a batch and promotes the accounts that gained a transaction. */
  method AddAll(v: Views, head: Head, locals: set<Address>, config: Config, gasPrice: nat, clock: nat,
                txs: seq<Incoming>, local: bool)
    returns (w: Views, locals': set<Address>, results: seq<AddResult>, ghost cut: set<Address>)
    requires Agree(v, 0, map[], {})
    ensures Agree(w, 0, map[], {})
    ensures BatchAdded(v, w, head, locals, locals', config, gasPrice, clock, local, txs, results, cut)
    ensures locals <= locals' && |results| == |txs| && (!local ==> Is(locals', locals))
    ensures |v.all| <= Slots(config) ==> |w.all| <= Slots(config)
    ensures InStep(v, head, {}) ==> InStep(w, head, {})
    ensures txs == [] ==> Is(w, v)
    ensures (exists i :: 0 <= i < |results| && results[i] == Added(false)) ==> Bounded(w, locals', config)
  {
    w, locals', results, cut := v, locals, [], {};
    var dirty: set<Address> := {};
    ghost var done: seq<Incoming>, rs := [], [Reached(v, locals)];
    assert Gained(done, results) == {};
    for i := 0 to |txs|
      invariant Agree(w, 0, map[], {}) && locals <= locals' && |results| == i && (!local ==> Is(locals', locals))
      invariant |v.all| <= Slots(config) ==> |w.all| <= Slots(config)
      invariant InStep(v, head, {}) ==> InStep(w, head, dirty)
      invariant i == 0 ==> Is(w, v) && dirty == {}
      invariant done == txs[..i] && AddedAll(rs, head, config, gasPrice, local, done, results)
      invariant Is(rs[0], Reached(v, locals)) && Is(Last(rs), Reached(w, locals'))
      invariant Is(dirty, Gained(done, results))
    {
      var r;
      var tx := txs[i].tx;
      w, r := Add(w, head, locals', config, gasPrice, tx, local, txs[i].sound, dirty);
      if r.Added? && local {
        locals' := locals' + {tx.sender};
      }
      AddedMore(rs, Reached(w, locals'), head, config, gasPrice, local, done, results, txs[i], r);
      GainedMore(done, results, txs[i], r);
      rs, done := rs + [Reached(w, locals')], done + [txs[i]];
      if r == Added(false) {
        dirty := dirty + {tx.sender};
      }
      results := results + [r];
    }
    assert done == txs;
    var accounts := ListOut(dirty);
    if dirty != {} {
      w, cut := PromoteExecutables(w, head, locals', config, clock, accounts);
    }
    NoneGained(txs, results, accounts);
  }

  lemma AddedMore(rs: seq<Reached>, r: Reached, head: Head, config: Config, gasPrice: nat, local: bool,
                  txs: seq<Incoming>, results: seq<AddResult>, inc: Incoming, result: AddResult)
    requires AddedAll(rs, head, config, gasPrice, local, txs, results)
    requires Adds(Last(rs).views, r.views, head, Last(rs).locals, r.locals, config, gasPrice, local, inc, result)
    ensures AddedAll(rs + [r], head, config, gasPrice, local, txs + [inc], results + [result])
  {
    ZipMore(txs, results, inc, result);
    TraceMore(AddOf(head, config, gasPrice, local), rs, Zip(txs, results), (inc, result), r);
  }

  lemma GainedMore(txs: seq<Incoming>, results: seq<AddResult>, inc: Incoming, r: AddResult)
    requires |txs| == |results|
    ensures Is(Gained(txs + [inc], results + [r]),
               if r == Added(false) then Gained(txs, results) + {inc.tx.sender} else Gained(txs, results))
  {
    var txs', results', n := txs + [inc], results + [r], |txs|;
    var before, after := Gained(txs, results), if r == Added(false) then Gained(txs, results) + {inc.tx.sender}
                                               else Gained(txs, results);
    forall a | a in after
      ensures a in Gained(txs', results')
    {
      if a in before {
        var i :| 0 <= i < n && results[i] == Added(false) && txs[i].tx.sender == a;
        assert results'[i] == Added(false) && txs'[i].tx.sender == a;
      } else {
        assert results'[n] == Added(false) && txs'[n].tx.sender == a;
      }
    }
    forall a | a in Gained(txs', results')
      ensures a in after
    {
      var i :| 0 <= i < |txs'| && results'[i] == Added(false) && txs'[i].tx.sender == a;
      if i < n {
        assert results[i] == Added(false) && txs[i].tx.sender == a;
      }
    }
    assert Gained(txs', results') == after;
  }

  lemma NoneGained(txs: seq<Incoming>, results: seq<AddResult>, accounts: seq<Address>)
    requires |txs| == |results| && Is(Elems(accounts), Gained(txs, results))
    ensures accounts == [] <==> Gained(txs, results) == {}
    ensures (exists i :: 0 <= i < |results| && results[i] == Added(false)) ==> accounts != []
  {
    if accounts != [] {
      assert accounts[0] in Elems(accounts);
    }
    forall i | 0 <= i < |results| && results[i] == Added(false)
      ensures accounts != []
    {
      assert txs[i].tx.sender in Elems(accounts);
    }
  }

  lemma ElemsAppend(s: seq<Address>, a: Address)
    ensures Is(Elems(s + [a]), Elems(s) + {a})
  {
    assert Elems(s + [a]) == Elems(s) + {a};
  }

  /** `reset` to a new head state; `reinject` are the transactions of discarded blocks not included again. */
  method Reset(v: Views, head: Head, locals: set<Address>, config: Config, gasPrice: nat, clock: nat,
               reinject: seq<Incoming>, ghost before: Head)
    returns (w: Views, gaps: nat, ghost cut: set<Address>)
    requires Agree(v, 0, map[], {})
    ensures Agree(w, 0, map[], {}) && Bounded(w, locals, config)
    ensures ResetDone(v, w, head, locals, config, gasPrice, clock, reinject, gaps, cut)
    ensures |v.all| <= Slots(config) ==> |w.all| <= Slots(config)
    ensures reinject == [] && Advances(before, head) && InStep(v, before, {}) ==> gaps == 0 && InStep(w, head, {})
    ensures reinject == [] ==> Spared(v, w, head, locals)
  {
    var locals', results;
    ghost var first, second;
    w, locals', results, first := AddAll(v.(nonces := map[]), head, locals, config, gasPrice, clock, reinject, false);
    ghost var u := w;
    w, gaps := DemoteUnexecutables(w, head, config.priceBump);
    WithinSize(w.all, u.all);
    DemotedSpares(u, w, head, locals);
    ghost var x := w;
    w := SyncNonces(w);
    ghost var y := w;
    var accounts := ListOut(w.queue.Keys);
    if reinject == [] && Advances(before, head) && InStep(v, before, {}) {
      ResetInStep(v, u, x, w, before, head);
      assert Gapped(u, head, {}) == {};
    }
    w, second := PromoteExecutables(w, head, locals, config, clock, accounts);
    cut := first + second;
    if reinject == [] {
      SparedSelf(v, u, head, locals);
      SparedTrans(v, u, x, head, locals);
      SparedSelf(x, y, head, locals);
      SparedTrans(v, x, y, head, locals);
      SparedTrans(v, y, w, head, locals);
    }
    assert Settled(u, x, y, w, head, locals, config, clock, accounts, second);
  }

  lemma ResetInStep(v: Views, u: Views, x: Views, w: Views, head: Head, head': Head)
    requires InStep(v, head, {}) && Advances(head, head') && Is(u, v.(nonces := map[]))
    requires AllDemoted(u, x, head', {}) && Is(x.nonces, u.nonces) && NoEmpty(x.pending)
    requires Is(w, x.(nonces := w.nonces)) && Synced(x, w, {})
    ensures InStep(w, head', w.queue.Keys)
    ensures forall a :: !FrontGap(At(u.pending, a), head', a)
  {
    forall b
      ensures DemotedAt(v, x, head', {}, b)
    {
      assert DemotedAt(u, x, head', {}, b);
    }
    DemotedInStep(v, x, w, head, head');
    forall a
      ensures !FrontGap(At(u.pending, a), head', a)
    {
      NoFrontGap(v, head, head', a);
    }
  }

  /** The members of a set in some order. */
  method ListOut(members: set<Address>) returns (listed: seq<Address>)
    ensures Distinct(listed) && Is(Elems(listed), members)
  {
    listed := [];
    var todo := members;
    assert Elems(listed) == {};
    while todo != {}
      invariant todo <= members && Elems(listed) == members - todo && Distinct(listed)
    {
      var a :| a in todo;
      ElemsAppend(listed, a);
      assert a !in Elems(listed);
      listed, todo := listed + [a], todo - {a};
    }
    assert Elems(listed) == members;
  }

  /** What every removal of known transactions keeps. */
  ghost predicate Kept(v: Views, w: Views, head: Head) {
    Within(w.all, v.all) && (InStep(v, head, {}) ==> InStep(w, head, {}))
  }

  /** One call of `removeTx` in a loop over transactions to discard. */
  method Discard(v: Views, head: Head, tx: Tx, outofbound: bool, bump: nat, ghost ex: set<Tx>) returns (w: Views)
    requires Agree(v, 0, map[], ex)
    ensures Agree(w, 0, map[], ex) && Kept(v, w, head) && Gone(v, w, head, tx) && Is(w.all, v.all - {tx.hash})
  {
    var hash := tx.hash;
    w := RemoveTx(v, head, hash, outofbound, bump, ex);
    WithinSelf(v.all);
    WithinMinus(v.all, v.all, hash);
    if hash in v.all {
      KnownFacts(v.pending, v.queue, v.all, hash);
      if InStep(v, head, {}) {
        RemovedInStep(v, w, head, {}, v.all[hash]);
      }
    } else {
      assert v.all - {hash} == v.all;
    }
  }

  lemma KeptTrans(v: Views, u: Views, w: Views, head: Head)
    requires Kept(v, u, head) && Kept(u, w, head)
    ensures Kept(v, w, head)
  {
    WithinTrans(w.all, u.all, v.all);
  }

  /** `txPricedList.Cap` pops entries, cheapest first, until one reaches the threshold. */
  ghost predicate Popped(v: Views, priced: seq<Tx>, threshold: nat, locals: set<Address>, drop: seq<Tx>, save: seq<Tx>)
  {
    && BinaryHeap.IsHeap(PriceKey, priced)
    && (forall h {:trigger PoppedAt(v, priced, drop, save, h)} :: PoppedAt(v, priced, drop, save, h))
    && (forall t | t in save :: t.price < threshold ==> t.sender in locals)
    && (forall t | t in drop :: !Dear(t, threshold, locals))
  }

  predicate PoppedAt(v: Views, priced: seq<Tx>, drop: seq<Tx>, save: seq<Tx>, h: Hash) {
    h in v.all ==> v.all[h] in priced || v.all[h] in drop || v.all[h] in save
  }

  /** Pops everything below the threshold; what stays in `priced` is not below it. */
  method PopCheap(v: Views, threshold: nat, locals: set<Address>)
    returns (priced: seq<Tx>, drop: seq<Tx>, save: seq<Tx>, stales: int)
    requires Agree(v, 0, map[], {})
    ensures Popped(v, priced, threshold, locals, drop, save)
    ensures forall t | t in priced :: threshold <= t.price
  {
    priced, drop, save, stales := v.priced, [], [], v.stales;
    StartPopping(v, threshold, locals);
    while priced != []
      invariant Popped(v, priced, threshold, locals, drop, save)
      decreases |priced|
    {
      ghost var before := priced;
      var tx;
      tx, priced := BinaryHeap.Pop(PriceKey, priced);
      if tx.hash !in v.all {
        stales := stales - 1;
        PopStep(v, before, priced, threshold, locals, tx, drop, save, drop, save);
      } else if tx.price >= threshold {
        PopStep(v, before, priced, threshold, locals, tx, drop, save, drop, save + [tx]);
        save := save + [tx];
        RestNotCheaper(before, priced, tx, threshold);
        return;
      } else if tx.sender in locals {
        PopStep(v, before, priced, threshold, locals, tx, drop, save, drop, save + [tx]);
        save := save + [tx];
      } else {
        PopStep(v, before, priced, threshold, locals, tx, drop, save, drop + [tx], save);
        drop := drop + [tx];
      }
    }
  }

  lemma RestNotCheaper(before: seq<Tx>, priced: seq<Tx>, tx: Tx, threshold: nat)
    requires multiset(priced) == multiset(before) - multiset{tx} && threshold <= tx.price
    requires forall t | t in before :: !BinaryHeap.Less(PriceKey(t), PriceKey(tx))
    ensures forall t | t in priced :: threshold <= t.price
  {
    forall t | t in priced
      ensures threshold <= t.price
    {
      assert t in multiset(priced);
      assert t in multiset(before);
      assert t in before && !BinaryHeap.Less(PriceKey(t), PriceKey(tx));
    }
  }

  lemma StartPopping(v: Views, threshold: nat, locals: set<Address>)
    requires Covered(v.priced, v.all, {})
    ensures Popped(v, v.priced, threshold, locals, [], [])
  {
    forall h
      ensures PoppedAt(v, v.priced, [], [], h)
    {
      assert Listed(v.priced, v.all, {}, h);
    }
  }

  lemma PopStep(v: Views, before: seq<Tx>, priced: seq<Tx>, threshold: nat, locals: set<Address>, tx: Tx, drop: seq<Tx>,
                save: seq<Tx>, drop': seq<Tx>, save': seq<Tx>)
    requires Popped(v, before, threshold, locals, drop, save)
    requires BinaryHeap.IsHeap(PriceKey, priced) && tx in before && multiset(priced) == multiset(before) - multiset{tx}
    requires (drop' == drop && save' == save && tx.hash !in v.all)
          || (drop' == drop + [tx] && save' == save && tx.price < threshold && tx.sender !in locals)
          || (drop' == drop && save' == save + [tx] && (tx.price < threshold ==> tx.sender in locals))
    requires forall h | h in v.all :: v.all[h].hash == h
    ensures Popped(v, priced, threshold, locals, drop', save')
  {
    forall h
      ensures PoppedAt(v, priced, drop', save', h)
    {
      assert PoppedAt(v, before, drop, save, h);
      if h in v.all && v.all[h] in before && v.all[h] != tx {
        assert v.all[h] in multiset(before);
        assert v.all[h] in multiset(priced);
      }
    }
  }

  /** Puts the saved entries back on the heap. */
  method PushBack(priced: seq<Tx>, save: seq<Tx>) returns (h: seq<Tx>)
    requires BinaryHeap.IsHeap(PriceKey, priced)
    ensures BinaryHeap.IsHeap(PriceKey, h) && multiset(h) == multiset(priced) + multiset(save)
  {
    h := priced;
    for i := 0 to |save|
      invariant BinaryHeap.IsHeap(PriceKey, h) && multiset(h) == multiset(priced) + multiset(save[..i])
    {
      h := BinaryHeap.Push(PriceKey, h, save[i]);
      assert save[..i + 1] == save[..i] + [save[i]];
    }
    assert save[..|save|] == save;
  }

  ghost predicate PricedAbove(all: Lookup, threshold: nat, locals: set<Address>, ex: set<Tx>) {
    forall h {:trigger DearAt(all, threshold, locals, ex, h)} :: DearAt(all, threshold, locals, ex, h)
  }

  /** A known transaction is local, reaches the threshold or is still to be discarded. */
  predicate DearAt(all: Lookup, threshold: nat, locals: set<Address>, ex: set<Tx>, h: Hash) {
    h in all ==> Dear(all[h], threshold, locals) || all[h] in ex
  }

  lemma CapCovers(v: Views, priced: seq<Tx>, threshold: nat, locals: set<Address>, drop: seq<Tx>, save: seq<Tx>,
                  heap: seq<Tx>, ex: set<Tx>)
    requires Popped(v, priced, threshold, locals, drop, save) && forall t | t in priced :: threshold <= t.price
    requires BinaryHeap.IsHeap(PriceKey, heap) && multiset(heap) == multiset(priced) + multiset(save)
    requires forall t :: t in drop <==> t in ex
    ensures Covered(heap, v.all, ex) && PricedAbove(v.all, threshold, locals, ex)
  {
    forall h
      ensures Listed(heap, v.all, ex, h) && DearAt(v.all, threshold, locals, ex, h)
    {
      assert PoppedAt(v, priced, drop, save, h);
      if h in v.all {
        var t := v.all[h];
        assert t in priced ==> t in multiset(priced);
        assert t in save ==> t in multiset(save);
        assert t in multiset(heap) ==> t in heap;
      }
    }
  }

  /** A transaction is forgotten only if it is itself remote and below the price. */
  predicate OnlyCheapAt(v: Views, w: Views, price: nat, locals: set<Address>, h: Hash) {
    h in v.all && h !in w.all ==> !Dear(v.all[h], price, locals)
  }

  ghost predicate OnlyCheap(v: Views, w: Views, price: nat, locals: set<Address>) {
    forall h {:trigger OnlyCheapAt(v, w, price, locals, h)} :: OnlyCheapAt(v, w, price, locals, h)
  }

  /** The views while the transactions in `ex` are still to be discarded. */
  ghost predicate Dropping(v: Views, w: Views, head: Head, price: nat, locals: set<Address>, ex: set<Tx>) {
    && Agree(w, 0, map[], ex) && Kept(v, w, head) && PricedAbove(w.all, price, locals, ex)
    && OnlyCheap(v, w, price, locals)
  }

  /** One of them is discarded. */
  method DropCheap(ghost v: Views, u: Views, head: Head, ghost price: nat, ghost locals: set<Address>, t: Tx, bump: nat,
                   ghost ex: set<Tx>)
    returns (w: Views)
    requires Dropping(v, u, head, price, locals, ex) && Coherent(v.pending, v.queue, v.all, 0, map[])
    requires !Dear(t, price, locals)
    ensures Dropping(v, w, head, price, locals, ex - {t}) && Gone(u, w, head, t)
  {
    w := Discard(u, head, t, false, bump, ex);
    KeptTrans(v, u, w, head);
    Discarded(u, w, price, locals, ex, t);
    DroppedCheap(v, u, w, price, locals, t);
  }

  /** What the new price rules out is taken off the price heap. */
  method CapPriced(v: Views, head: Head, locals: set<Address>, price: nat)
    returns (w: Views, drop: seq<Tx>, ghost ex: set<Tx>)
    requires Agree(v, 0, map[], {})
    ensures Dropping(v, w, head, price, locals, ex) && SameViews(v, w)
    ensures (forall t | t in ex :: t in drop) && forall t | t in drop :: !Dear(t, price, locals)
  {
    var priced, save, stales;
    priced, drop, save, stales := PopCheap(v, price, locals);
    var heap := PushBack(priced, save);
    ex := set t | t in drop;
    CapCovers(v, priced, price, locals, drop, save, heap, ex);
    w := v.(priced := heap, stales := stales);
    WithinSelf(v.all);
    if InStep(v, head, {}) {
      SameStep(v, w, head);
    }
    assert forall h :: OnlyCheapAt(v, w, price, locals, h);
  }

  /** `SetGasPrice`: afterwards exactly the transactions that are local or not below the price are still known. */
  method SetGasPrice(v: Views, head: Head, locals: set<Address>, price: nat, bump: nat) returns (w: Views)
    requires Agree(v, 0, map[], {})
    ensures Agree(w, 0, map[], {}) && Kept(v, w, head) && Repriced(v, w, head, price, locals)
    ensures forall h | h in v.all :: h in w.all <==> Dear(v.all[h], price, locals)
  {
    var drop;
    ghost var ex;
    w, drop, ex := CapPriced(v, head, locals, price);
    ghost var vs, done: seq<Tx> := [w], [];
    for i := 0 to |drop|
      invariant Dropping(v, w, head, price, locals, ex) && forall t | t in ex :: t in drop[i..]
      invariant done == drop[..i] && Trace(GoneOf(head), vs, done) && SameViews(v, vs[0]) && Is(Last(vs), w)
    {
      assert drop[i..] == [drop[i]] + drop[i + 1..];
      w := DropCheap(v, w, head, price, locals, drop[i], bump, ex);
      TraceMore(GoneOf(head), vs, done, drop[i], w);
      vs, done, ex := vs + [w], done + [drop[i]], ex - {drop[i]};
    }
    assert ex == {} && done == drop;
    NoneCheap(v, w, price, locals);
  }

  lemma DroppedCheap(v: Views, u: Views, w: Views, price: nat, locals: set<Address>, t: Tx)
    requires OnlyCheap(v, u, price, locals) && Is(w.all, u.all - {t.hash}) && !Dear(t, price, locals)
    requires forall h | h in v.all :: v.all[h].hash == h
    ensures OnlyCheap(v, w, price, locals)
  {
    forall h
      ensures OnlyCheapAt(v, w, price, locals, h)
    {
      assert OnlyCheapAt(v, u, price, locals, h);
    }
  }

  lemma NoneCheap(v: Views, w: Views, price: nat, locals: set<Address>)
    requires OnlyCheap(v, w, price, locals) && PricedAbove(w.all, price, locals, {}) && Within(w.all, v.all)
    ensures forall h | h in w.all :: Dear(w.all[h], price, locals)
    ensures forall h | h in v.all :: h in w.all <==> Dear(v.all[h], price, locals)
  {
    forall h
      ensures h in w.all ==> Dear(w.all[h], price, locals)
      ensures h in v.all ==> (h in w.all <==> Dear(v.all[h], price, locals))
    {
      assert OnlyCheapAt(v, w, price, locals, h) && DearAt(w.all, price, locals, {}, h) && Same(w.all, v.all, h);
    }
  }

  lemma SameStep(v: Views, w: Views, head: Head)
    requires InStep(v, head, {}) && Is(w.pending, v.pending) && Is(w.queue, v.queue) && Is(w.nonces, v.nonces)
    ensures InStep(w, head, {})
  {
    forall a
      ensures FitsAt(w, head, {}, a)
    {
      assert FitsAt(v, head, {}, a);
    }
  }

  lemma Discarded(u: Views, w: Views, price: nat, locals: set<Address>, ex: set<Tx>, t: Tx)
    requires PricedAbove(u.all, price, locals, ex) && Is(w.all, u.all - {t.hash}) && Agree(w, 0, map[], ex)
    ensures PricedAbove(w.all, price, locals, ex - {t}) && Agree(w, 0, map[], ex - {t})
  {
    forall h
      ensures DearAt(w.all, price, locals, ex - {t}, h) && Listed(w.priced, w.all, ex - {t}, h)
    {
      assert DearAt(u.all, price, locals, ex, h) && Listed(w.priced, w.all, ex, h);
    }
  }

  /** A transaction is still known, or was queued for a remote account that has been silent too long. */
  predicate LostAt(v: Views, w: Views, locals: set<Address>, clock: nat, lifetime: nat, h: Hash) {
    h in v.all ==>
      || h in w.all
      || (v.all[h].sender !in locals && Silent(v.beats, clock, lifetime, v.all[h].sender)
          && Holds(At(v.queue, v.all[h].sender), v.all[h]))
  }

  ghost predicate OnlyEvicted(v: Views, w: Views, locals: set<Address>, clock: nat, lifetime: nat) {
    forall h {:trigger LostAt(v, w, locals, clock, lifetime, h)} :: LostAt(v, w, locals, clock, lifetime, h)
  }

  lemma EvictedLosses(v: Views, w: Views, locals: set<Address>, clock: nat, lifetime: nat)
    requires Coherent(v.pending, v.queue, v.all, 0, map[]) && Coherent(w.pending, w.queue, w.all, 0, map[])
    requires Evicted(v, w, locals, clock, lifetime)
    ensures OnlyEvicted(v, w, locals, clock, lifetime)
  {
    forall h
      ensures LostAt(v, w, locals, clock, lifetime, h)
    {
      if h in v.all {
        var t := v.all[h];
        WasListed(v, h);
        assert EvictedAt(v, w, locals, clock, lifetime, t.sender);
        if Holds(At(v.pending, t.sender), t) || t.sender in locals || !Silent(v.beats, clock, lifetime, t.sender) {
          StillKnown(w, t);
        }
      }
    }
  }

  /** The state of the eviction when the accounts in `todo` are still to be looked at. */
  ghost predicate EvictingAt(v: Views, w: Views, locals: set<Address>, clock: nat, lifetime: nat, todo: set<Address>,
                             a: Address)
  {
    if a !in todo then EvictedAt(v, w, locals, clock, lifetime, a) else Is(At(w.queue, a), At(v.queue, a))
  }

  ghost predicate Evicting(v: Views, w: Views, locals: set<Address>, clock: nat, lifetime: nat, todo: set<Address>) {
    forall a {:trigger EvictingAt(v, w, locals, clock, lifetime, todo, a)} ::
      EvictingAt(v, w, locals, clock, lifetime, todo, a)
  }

  lemma EvictNext(v: Views, u: Views, w: Views, locals: set<Address>, clock: nat, lifetime: nat, todo: set<Address>,
                  a: Address)
    requires Evicting(v, u, locals, clock, lifetime, todo) && a in todo
    requires if a !in locals && Silent(v.beats, clock, lifetime, a) then Is(w.queue, Store(u.queue, a, map[]))
             else Is(w.queue, u.queue)
    ensures Evicting(v, w, locals, clock, lifetime, todo - {a})
  {
    forall b
      ensures EvictingAt(v, w, locals, clock, lifetime, todo - {a}, b)
    {
      assert EvictingAt(v, u, locals, clock, lifetime, todo, b);
      if b != a {
        StoreElsewhere(u.queue, a, map[], b);
      } else {
        StoreTwice(u.queue, a, map[], map[]);
      }
    }
  }

  /** The eviction tick: forgets the queues of remote accounts that have been silent too long, and nothing else. */
  method Evict(v: Views, head: Head, locals: set<Address>, clock: nat, lifetime: nat, bump: nat) returns (w: Views)
    requires Agree(v, 0, map[], {})
    ensures Agree(w, 0, map[], {}) && Kept(v, w, head) && Evicted(v, w, locals, clock, lifetime)
    ensures OnlyEvicted(v, w, locals, clock, lifetime)
  {
    w := v;
    WithinSelf(v.all);
    var todo := v.queue.Keys;
    assert forall a :: EvictingAt(v, w, locals, clock, lifetime, todo, a);
    while todo != {}
      invariant todo <= v.queue.Keys && QueueAside(v, w, head, {}) && Evicting(v, w, locals, clock, lifetime, todo)
    {
      var a :| a in todo;
      ghost var before := w;
      if a !in locals && Silent(w.beats, clock, lifetime, a) {
        w := DropQueuedTop(w, head, a, |At(w.queue, a)|, bump, {});
        QueueAsideTrans(v, before, w, head, {});
        assert At(w.queue, a) == map[];
      }
      EvictNext(v, before, w, locals, clock, lifetime, todo, a);
      todo := todo - {a};
    }
    assert forall a :: EvictingAt(v, w, locals, clock, lifetime, {}, a) ==> EvictedAt(v, w, locals, clock, lifetime, a);
    EvictedLosses(v, w, locals, clock, lifetime);
  }

  /**
   An account of which something became pending at `clock` keeps its queue through a tick exactly up to
   `lifetime` later, and afterwards if it is local; one that is remote and has no heartbeat loses it.
   */
  lemma BeatKeeps(v: Views, w: Views, x: Views, head: Head, locals: set<Address>, config: Config, clock: nat,
                  tick: nat, lifetime: nat, a: Address)
    requires Turn(v, w, head, locals, config, clock, a) && Evicted(w, x, locals, tick, lifetime)
    ensures var live := Live(At(v.queue, a), head, a);
            Below(live, ReadyEnd(live, Virtual(v.nonces, head, a))) != map[] ==>
              At(x.queue, a) == if a in locals || tick - clock <= lifetime then At(w.queue, a) else map[]
    ensures a !in locals && a !in w.beats ==> At(x.queue, a) == map[]
  {
    var live := Live(At(v.queue, a), head, a);
    var end := ReadyEnd(live, Virtual(v.nonces, head, a));
    assert EvictedAt(w, x, locals, tick, lifetime, a);
    if Below(live, end) != map[] {
      var n :| n in Below(live, end);
      assert n in At(v.queue, a);
      assert w.beats[a] == clock;
    }
  }
}
