/**
 Every transaction the pool knows can be paid for: what it admits, what survives demotion and
 promotion, and what is left after a reset.
 */
module PoolSolvency {
  import opened Values
  import opened TxTypes
  import opened PoolModel
  import opened PoolSteps
  import opened PoolDemote
  import opened PoolLimits
  import opened PoolLosses
  import opened PoolEffects
  import opened PoolFunds
  import opened PoolOps
  import opened PoolReset

  /** The nonce is not used yet, and execution finds the funds. */
  predicate Solvent(head: Head, t: Tx) {
    head.Nonce(t.sender) <= t.nonce && Covers(head, t)
  }

  lemma SolventIff(head: Head, t: Tx)
    ensures Solvent(head, t) <==> !Doomed(head, t)
  {
    PaidAsCharged(head, t);
  }

  predicate SoundAt(all: Lookup, head: Head, h: Hash) {
    h in all ==> !Doomed(head, all[h])
  }

  /** The head state rules out nothing that is known. */
  ghost predicate AllSound(all: Lookup, head: Head) {
    forall h {:trigger SoundAt(all, head, h)} :: SoundAt(all, head, h)
  }

  /** Every known transaction is solvent. */
  ghost predicate AllSolvent(all: Lookup, head: Head) {
    forall h | h in all :: Solvent(head, all[h])
  }

  lemma SoundSolvent(all: Lookup, head: Head)
    requires AllSound(all, head)
    ensures AllSolvent(all, head)
  {
    forall h | h in all
      ensures Solvent(head, all[h])
    {
      assert SoundAt(all, head, h);
      SolventIff(head, all[h]);
    }
  }

  lemma LessSound(all': Lookup, all: Lookup, head: Head)
    requires Within(all', all) && AllSound(all, head)
    ensures AllSound(all', head)
  {
    forall h
      ensures SoundAt(all', head, h)
    {
      assert Same(all', all, h) && SoundAt(all, head, h);
    }
  }

  // Admission, demotion and promotion.

  /**
   A new transaction that is proper apart from its funds is refused for them exactly if it is not
   solvent, and otherwise for lack of room exactly if all slots are taken.
   */
  lemma AdmittedIff(v: Views, head: Head, locals: set<Address>, config: Config, gasPrice: nat, local: bool,
                    inc: Incoming)
    requires inc.tx.hash !in v.all && Proper(head, locals, gasPrice, inc.tx, local, inc.sound)
    ensures Verdict(v, head, locals, config, gasPrice, local, inc) == Failed(Invalid) <==> !Solvent(head, inc.tx)
    ensures Verdict(v, head, locals, config, gasPrice, local, inc) == Failed(PoolFull) <==>
              Solvent(head, inc.tx) && |v.all| >= config.globalSlots + config.globalQueue
  {
    SolventIff(head, inc.tx);
  }

  /** What was pending is kept by demotion, in one list or the other, exactly if it is solvent. */
  lemma DemotedIff(v: Views, w: Views, head: Head, h: Hash)
    requires Agree(v, 0, map[], {}) && Agree(w, 0, map[], {}) && AllDemoted(v, w, head, {})
    requires h in v.all && Holds(At(v.pending, v.all[h].sender), v.all[h])
    ensures h in w.all <==> Solvent(head, v.all[h])
  {
    var t := v.all[h];
    WasListed(v, h);
    SolventIff(head, t);
    DemotedAny(v, w, head, t.sender);
    if h in w.all {
      WasListed(w, h);
    } else if !Doomed(head, t) {
      Demotes(v, w, head, t);
      StillKnown(w, t);
    }
  }

  /** What is live in a queue is what is solvent. */
  lemma LiveIff(queue: Items, head: Head, a: Address, n: nat)
    requires n in queue ==> queue[n].sender == a && queue[n].nonce == n
    ensures n in Live(queue, head, a) <==> n in queue && Solvent(head, queue[n])
  {
    if n in queue {
      SolventIff(head, queue[n]);
    }
  }

  // Whole operations.

  /** Forgetting leaves the rest as it was. */
  lemma LimitsLessen(x: Views, y: Views, w: Views, head: Head, locals: set<Address>, config: Config,
                     cut: set<Address>, level: nat)
    requires Limits(x, y, w, head, locals, config, cut, level)
    ensures Within(w.all, x.all)
  {
    WithinTrans(w.all, y.all, x.all);
  }

  lemma ExecutedLess(v: Views, w: Views, head: Head, locals: set<Address>, config: Config, clock: nat,
                     accounts: seq<Address>, cut: set<Address>)
    requires Executed(v, w, head, locals, config, clock, accounts, cut) && Distinct(accounts) && Agree(v, 0, map[], {})
    ensures Within(w.all, v.all)
  {
    var vs, y, level :|
      Turns(vs, head, locals, config, clock, accounts) && Is(vs[0], v)
      && Limits(Last(vs), y, w, head, locals, config, cut, level);
    TurnsEffect(vs, head, locals, config, clock, accounts, 0);
    LimitsLessen(Last(vs), y, w, head, locals, config, cut, level);
    WithinTrans(w.all, Last(vs).all, v.all);
  }

  /** After its turn an account has only solvent transactions if the pending ones were. */
  lemma TurnedSound(v: Views, w: Views, head: Head, t: Tx)
    requires TurnedAt(v, w, head, t.sender, true)
    requires Holds(At(w.pending, t.sender), t) || Holds(At(w.queue, t.sender), t)
    requires Holds(At(v.pending, t.sender), t) ==> !Doomed(head, t)
    ensures !Doomed(head, t)
  {
  }

  /** Demotion leaves solvent transactions pending. */
  lemma DemotedSound(v: Views, w: Views, head: Head, t: Tx)
    requires AllDemoted(v, w, head, {}) && Holds(At(w.pending, t.sender), t)
    ensures !Doomed(head, t)
  {
    DemotedAny(v, w, head, t.sender);
  }

  /** When every queue has had its turn, all that is known is solvent. */
  lemma TurnsSound(vs: seq<Views>, u: Views, head: Head, locals: set<Address>, config: Config, clock: nat,
                   accounts: seq<Address>, h: Hash)
    requires Turns(vs, head, locals, config, clock, accounts) && Distinct(accounts) && Agree(vs[0], 0, map[], {})
    requires Is(Elems(accounts), vs[0].queue.Keys) && AllDemoted(u, vs[0].(nonces := u.nonces), head, {})
    ensures SoundAt(Last(vs).all, head, h)
  {
    var v, w := vs[0], Last(vs);
    if h in w.all {
      var t := w.all[h];
      TurnsEffect(vs, head, locals, config, clock, accounts, t.sender);
      WasListed(w, h);
      assert t.sender in accounts <==> t.sender in Elems(accounts);
      if t.sender !in accounts {
        NothingToTurn(At(v.pending, t.sender), Virtual(v.nonces, head, t.sender), head, t.sender);
      }
      if Holds(At(v.pending, t.sender), t) {
        DemotedSound(u, v.(nonces := u.nonces), head, t);
      }
      TurnedSound(v, w, head, t);
    }
  }

  lemma SettledSound(u: Views, x: Views, y: Views, w: Views, head: Head, locals: set<Address>, config: Config,
                     clock: nat, accounts: seq<Address>, cut: set<Address>)
    requires Settled(u, x, y, w, head, locals, config, clock, accounts, cut)
    ensures AllSound(w.all, head)
  {
    var vs, z, level :|
      Turns(vs, head, locals, config, clock, accounts) && Is(vs[0], y)
      && Limits(Last(vs), z, w, head, locals, config, cut, level);
    forall h
      ensures SoundAt(Last(vs).all, head, h)
    {
      TurnsSound(vs, u, head, locals, config, clock, accounts, h);
    }
    LimitsLessen(Last(vs), z, w, head, locals, config, cut, level);
    LessSound(w.all, Last(vs).all, head);
  }

  /** After a reset every known transaction is solvent at the new head, whatever was known before. */
  lemma ResetSound(v: Views, w: Views, head: Head, locals: set<Address>, config: Config, gasPrice: nat, clock: nat,
                   reinject: seq<Incoming>, gaps: nat, cut: set<Address>)
    requires ResetDone(v, w, head, locals, config, gasPrice, clock, reinject, gaps, cut)
    ensures AllSound(w.all, head)
  {
    var u, x, y, accounts, results, first, second :|
      && Is(cut, first + second)
      && BatchAdded(v.(nonces := map[]), u, head, locals, locals, config, gasPrice, clock, false, reinject, results,
                    first)
      && gaps == |Gapped(u, head, {})| && Settled(u, x, y, w, head, locals, config, clock, accounts, second);
    SettledSound(u, x, y, w, head, locals, config, clock, accounts, second);
  }

  lemma AddedSound(v: Views, w: Views, head: Head, locals: set<Address>, locals': set<Address>, config: Config,
                   gasPrice: nat, local: bool, inc: Incoming, r: AddResult)
    requires Adds(v, w, head, locals, locals', config, gasPrice, local, inc, r) && AllSound(v.all, head)
    ensures AllSound(w.all, head)
  {
    forall h
      ensures SoundAt(w.all, head, h)
    {
      assert SoundAt(v.all, head, h);
    }
  }

  ghost predicate Fine(r: Reached, head: Head) {
    Agree(r.views, 0, map[], {}) && AllSound(r.views.all, head)
  }

  lemma AddedFine(rs: seq<Reached>, head: Head, config: Config, gasPrice: nat, local: bool, txs: seq<Incoming>,
                  results: seq<AddResult>, k: nat)
    requires AddedAll(rs, head, config, gasPrice, local, txs, results) && k < |txs| && Fine(rs[k], head)
    ensures Fine(rs[k + 1], head)
  {
    assert TraceAt(AddOf(head, config, gasPrice, local), rs, Zip(txs, results), k);
    AddedSound(rs[k].views, rs[k + 1].views, head, rs[k].locals, rs[k + 1].locals, config, gasPrice, local, txs[k],
               results[k]);
  }

  lemma AllAddedSound(rs: seq<Reached>, head: Head, config: Config, gasPrice: nat, local: bool, txs: seq<Incoming>,
                      results: seq<AddResult>)
    requires AddedAll(rs, head, config, gasPrice, local, txs, results) && Fine(rs[0], head)
    ensures Fine(Last(rs), head)
  {
    var k := 0;
    while k < |txs|
      invariant k <= |txs| && Fine(rs[k], head)
    {
      AddedFine(rs, head, config, gasPrice, local, txs, results, k);
      k := k + 1;
    }
  }

  /** A batch keeps what is known solvent. */
  lemma BatchSound(v: Views, w: Views, head: Head, locals: set<Address>, locals': set<Address>, config: Config,
                   gasPrice: nat, clock: nat, local: bool, txs: seq<Incoming>, results: seq<AddResult>,
                   cut: set<Address>)
    requires BatchAdded(v, w, head, locals, locals', config, gasPrice, clock, local, txs, results, cut)
    requires Agree(v, 0, map[], {}) && AllSound(v.all, head)
    ensures AllSound(w.all, head)
  {
    var rs: seq<Reached>, accounts: seq<Address> :|
      && AddedAll(rs, head, config, gasPrice, local, txs, results) && Is(rs[0], Reached(v, locals))
      && Is(Last(rs).locals, locals')
      && Distinct(accounts) && Is(Elems(accounts), Gained(txs, results))
      && if accounts == [] then Is(w, Last(rs).views) && Is(cut, {})
         else Executed(Last(rs).views, w, head, locals', config, clock, accounts, cut);
    AllAddedSound(rs, head, config, gasPrice, local, txs, results);
    if accounts != [] {
      ExecutedLess(Last(rs).views, w, head, locals', config, clock, accounts, cut);
      LessSound(w.all, Last(rs).views.all, head);
    }
  }

  lemma GoneSound(v: Views, w: Views, head: Head, t: Tx)
    requires Gone(v, w, head, t) && AllSound(v.all, head)
    ensures AllSound(w.all, head)
  {
    forall h
      ensures SoundAt(w.all, head, h)
    {
      assert SoundAt(v.all, head, h);
    }
  }

  lemma RepricedSound(v: Views, w: Views, head: Head, price: nat, locals: set<Address>)
    requires Repriced(v, w, head, price, locals) && AllSound(v.all, head)
    ensures AllSound(w.all, head)
  {
    var vs: seq<Views>, drop: seq<Tx> :|
      && Trace(GoneOf(head), vs, drop) && SameViews(v, vs[0]) && Is(Last(vs), w)
      && forall t | t in drop :: !Dear(t, price, locals);
    var k := 0;
    while k < |drop|
      invariant k <= |drop| && AllSound(vs[k].all, head)
    {
      assert TraceAt(GoneOf(head), vs, drop, k);
      GoneSound(vs[k], vs[k + 1], head, drop[k]);
      k := k + 1;
    }
  }

  lemma EvictedLess(v: Views, w: Views, locals: set<Address>, clock: nat, lifetime: nat)
    requires Agree(v, 0, map[], {}) && Agree(w, 0, map[], {}) && Evicted(v, w, locals, clock, lifetime)
    ensures Within(w.all, v.all)
  {
    forall h
      ensures Same(w.all, v.all, h)
    {
      if h in w.all {
        var t := w.all[h];
        WasListed(w, h);
        assert EvictedAt(v, w, locals, clock, lifetime, t.sender);
        StillKnown(v, t);
      }
    }
  }

  // The minimum price.

  predicate DearKnown(all: Lookup, price: nat, locals: set<Address>, h: Hash) {
    h in all ==> all[h].sender in locals || price <= all[h].price
  }

  /** Every known transaction is local or pays the price. */
  ghost predicate AllDear(all: Lookup, price: nat, locals: set<Address>) {
    forall h {:trigger DearKnown(all, price, locals, h)} :: DearKnown(all, price, locals, h)
  }

  lemma LessDear(all': Lookup, all: Lookup, price: nat, locals: set<Address>)
    requires Within(all', all) && AllDear(all, price, locals)
    ensures AllDear(all', price, locals)
  {
    forall h
      ensures DearKnown(all', price, locals, h)
    {
      assert Same(all', all, h) && DearKnown(all, price, locals, h);
    }
  }

  lemma AddedDear(v: Views, w: Views, head: Head, locals: set<Address>, locals': set<Address>, config: Config,
                  gasPrice: nat, local: bool, inc: Incoming, r: AddResult)
    requires Adds(v, w, head, locals, locals', config, gasPrice, local, inc, r) && AllDear(v.all, gasPrice, locals)
    ensures AllDear(w.all, gasPrice, locals')
  {
    forall h
      ensures DearKnown(w.all, gasPrice, locals', h)
    {
      assert DearKnown(v.all, gasPrice, locals, h);
    }
  }

  ghost predicate FineDear(r: Reached, gasPrice: nat) {
    Agree(r.views, 0, map[], {}) && AllDear(r.views.all, gasPrice, r.locals)
  }

  lemma {:induction false} AllAddedDear(rs: seq<Reached>, head: Head, config: Config, gasPrice: nat, local: bool,
                                        txs: seq<Incoming>, results: seq<AddResult>, k: nat)
    requires AddedAll(rs, head, config, gasPrice, local, txs, results) && k <= |txs| && FineDear(rs[0], gasPrice)
    ensures FineDear(rs[k], gasPrice)
  {
    if k > 0 {
      AllAddedDear(rs, head, config, gasPrice, local, txs, results, k - 1);
      assert TraceAt(AddOf(head, config, gasPrice, local), rs, Zip(txs, results), k - 1);
      AddedDear(rs[k - 1].views, rs[k].views, head, rs[k - 1].locals, rs[k].locals, config, gasPrice, local,
                txs[k - 1], results[k - 1]);
    }
  }

  /** A batch keeps every known transaction local or at the price, the senders of a local batch being local then. */
  lemma BatchDear(v: Views, w: Views, head: Head, locals: set<Address>, locals': set<Address>, config: Config,
                  gasPrice: nat, clock: nat, local: bool, txs: seq<Incoming>, results: seq<AddResult>,
                  cut: set<Address>)
    requires BatchAdded(v, w, head, locals, locals', config, gasPrice, clock, local, txs, results, cut)
    requires Agree(v, 0, map[], {}) && AllDear(v.all, gasPrice, locals)
    ensures AllDear(w.all, gasPrice, locals')
  {
    var rs: seq<Reached>, accounts: seq<Address> :|
      && AddedAll(rs, head, config, gasPrice, local, txs, results) && Is(rs[0], Reached(v, locals))
      && Is(Last(rs).locals, locals')
      && Distinct(accounts) && Is(Elems(accounts), Gained(txs, results))
      && if accounts == [] then Is(w, Last(rs).views) && Is(cut, {})
         else Executed(Last(rs).views, w, head, locals', config, clock, accounts, cut);
    AllAddedDear(rs, head, config, gasPrice, local, txs, results, |txs|);
    if accounts != [] {
      ExecutedLess(Last(rs).views, w, head, locals', config, clock, accounts, cut);
      LessDear(w.all, Last(rs).views.all, gasPrice, locals');
    }
  }

  lemma SettledLess(u: Views, x: Views, y: Views, w: Views, head: Head, locals: set<Address>, config: Config,
                    clock: nat, accounts: seq<Address>, cut: set<Address>)
    requires Settled(u, x, y, w, head, locals, config, clock, accounts, cut)
    ensures Within(w.all, u.all)
  {
    ExecutedLess(y, w, head, locals, config, clock, accounts, cut);
    WithinTrans(w.all, x.all, u.all);
  }

  /** And so does a reset. */
  lemma ResetDear(v: Views, w: Views, head: Head, locals: set<Address>, config: Config, gasPrice: nat, clock: nat,
                  reinject: seq<Incoming>, gaps: nat, cut: set<Address>)
    requires ResetDone(v, w, head, locals, config, gasPrice, clock, reinject, gaps, cut)
    requires Agree(v, 0, map[], {}) && AllDear(v.all, gasPrice, locals)
    ensures AllDear(w.all, gasPrice, locals)
  {
    var u, x, y, accounts, results, first, second :|
      && Is(cut, first + second)
      && BatchAdded(v.(nonces := map[]), u, head, locals, locals, config, gasPrice, clock, false, reinject, results,
                    first)
      && gaps == |Gapped(u, head, {})| && Settled(u, x, y, w, head, locals, config, clock, accounts, second);
    BatchDear(v.(nonces := map[]), u, head, locals, locals, config, gasPrice, clock, false, reinject, results, first);
    SettledLess(u, x, y, w, head, locals, config, clock, accounts, second);
    LessDear(w.all, u.all, gasPrice, locals);
  }

  lemma RepricedDear(v: Views, w: Views, head: Head, price: nat, locals: set<Address>)
    requires Repriced(v, w, head, price, locals)
    ensures AllDear(w.all, price, locals)
  {
    forall h
      ensures DearKnown(w.all, price, locals, h)
    {
    }
  }
}
