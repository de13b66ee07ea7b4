/**
 The transaction pool of core/tx_pool.go as an object: its fields, the operations that change
 them under the pool lock, and what holds after any run of those operations.
 */
module TxPools {
  import opened Values
  import opened TxTypes
  import opened PoolModel
  import opened PoolSteps
  import opened PoolNonces
  import opened PoolDemote
  import opened PoolLimits
  import opened PoolLosses
  import opened PoolEffects
  import opened PoolOps
  import opened PoolSolvency

  /** The pool's views with what its operations read besides. */
  datatype PoolState = PoolState(views: Views, head: Head, gasPrice: nat, locals: set<Address>)

  /** What `reset` promises of the pool it is given. */
  ghost predicate ResetGives(s: PoolState, s': PoolState, config: Config, head: Head, reinject: seq<Incoming>,
                             clock: nat, gaps: nat, cut: set<Address>)
  {
    && Is(s', s.(views := s'.views, head := head)) && Agree(s'.views, 0, map[], {}) && |s'.views.all| <= Slots(config)
    && Bounded(s'.views, s.locals, config)
    && ResetDone(s.views, s'.views, head, s.locals, config, s.gasPrice, clock, reinject, gaps, cut)
    && (reinject == [] && Advances(s.head, head) && InStep(s.views, s.head, {}) ==>
          gaps == 0 && InStep(s'.views, head, {}))
    && (reinject == [] ==> Spared(s.views, s'.views, head, s.locals))
  }

  method ResetState(s: PoolState, config: Config, head: Head, reinject: seq<Incoming>, clock: nat)
    returns (s': PoolState, gaps: nat, ghost cut: set<Address>)
    requires Agree(s.views, 0, map[], {}) && |s.views.all| <= Slots(config)
    ensures ResetGives(s, s', config, head, reinject, clock, gaps, cut)
  {
    var views;
    views, gaps, cut := Reset(s.views, head, s.locals, config, s.gasPrice, clock, reinject, s.head);
    s' := s.(views := views, head := head);
  }

  class TxPool {
    const config: Config
    var head: Head
    var gasPrice: nat
    var locals: set<Address>
    var views: Views

    function State(): PoolState
      reads this
    {
      PoolState(views, head, gasPrice, locals)
    }

    /**
     The lookup is the disjoint union of the pending lists and the queues, each transaction under its
     own sender and nonce; all of it is in the price heap; and the pool is within its capacity.
     */
    ghost predicate Valid()
      reads this
    {
      Agree(views, 0, map[], {}) && |views.all| <= Slots(config)
    }

    /** Pending nonces run from the head nonce to the virtual nonce, which is not queued. */
    ghost predicate InSync()
      reads this
    {
      InStep(views, head, {})
    }

    constructor (config: Config, head: Head, gasPrice: nat, locals: set<Address>)
      ensures Valid() && InSync() && this.config == config && State() == NewPool(head, gasPrice, locals)
    {
      this.config, this.head, this.gasPrice, this.locals := config, head, gasPrice, locals;
      views := NO_VIEWS;
      new;
      EmptyAgrees(head);
    }

    /** `AddLocals`, `AddRemotes` and their single-transaction forms. */
    method AddTxs(txs: seq<Incoming>, local: bool, clock: nat)
      returns (results: seq<AddResult>, ghost cut: set<Address>)
      requires Valid()
      modifies `locals, `views
      ensures Valid() && |results| == |txs| && old(locals) <= locals
      ensures BatchAdded(old(views), views, head, old(locals), locals, config, gasPrice, clock, local, txs, results,
                         cut)
      ensures old(InSync()) ==> InSync()
      ensures (exists i :: 0 <= i < |results| && results[i] == Added(false)) ==> Bounded(views, locals, config)
    {
      views, locals, results, cut := AddAll(views, head, locals, config, gasPrice, clock, txs, local);
    }

    /** `SetGasPrice`. */
    method SetMinimumPrice(price: nat)
      requires Valid()
      modifies `gasPrice, `views
      ensures Valid() && gasPrice == price
      ensures Within(views.all, old(views.all)) && (old(InSync()) ==> InSync())
      ensures Repriced(old(views), views, head, price, locals)
      ensures forall h | h in old(views.all) :: h in views.all <==> Dear(old(views.all)[h], price, locals)
    {
      gasPrice := price;
      var v := SetGasPrice(views, head, locals, price, config.priceBump);
      WithinSize(v.all, views.all);
      views := v;
    }

    /** The eviction tick of the pool's loop. */
    method EvictSilent(clock: nat, lifetime: nat)
      requires Valid()
      modifies `views
      ensures Valid()
      ensures Within(views.all, old(views.all)) && (old(InSync()) ==> InSync())
      ensures Evicted(old(views), views, locals, clock, lifetime)
      ensures OnlyEvicted(old(views), views, locals, clock, lifetime)
    {
      var v := Evict(views, head, locals, clock, lifetime, config.priceBump);
      WithinSize(v.all, views.all);
      views := v;
    }

    /** `reset` on a new head. */
    method ResetTo(newHead: Head, reinject: seq<Incoming>, clock: nat) returns (gaps: nat, ghost cut: set<Address>)
      requires Valid()
      modifies `head, `views
      ensures Valid() && ResetGives(old(State()), State(), config, newHead, reinject, clock, gaps, cut)
    {
      var s;
      s, gaps, cut := ResetState(State(), config, newHead, reinject, clock);
      head, views := newHead, s.views;
    }
  }

  const NO_VIEWS := Views(map[], map[], map[], map[], [], 0, map[])

  function NewPool(head: Head, gasPrice: nat, locals: set<Address>): PoolState {
    PoolState(NO_VIEWS, head, gasPrice, locals)
  }

  lemma EmptyAgrees(head: Head)
    ensures Agree(NO_VIEWS, 0, map[], {}) && InStep(NO_VIEWS, head, {})
  {
    var v := NO_VIEWS;
    forall a
      ensures FitsAt(v, head, {}, a) && Full(v.pending, a)
    {
    }
    forall a
      ensures Account(a, At(v.pending, a), At(v.queue, a), InHand(a, 0, map[]), v.all)
    {
    }
    forall h
      ensures Listed(v.priced, v.all, {}, h)
    {
    }
  }

  /** A locked operation on the pool, with its inputs. */
  datatype Op =
    | AddBatch(txs: seq<Incoming>, local: bool, clock: nat)
    | SetPrice(price: nat)
    | EvictTick(clock: nat, lifetime: nat)
    | NewHead(head: Head, reinject: seq<Incoming>, clock: nat)

  /** No operation of the run discards a block: nothing is reinjected and head nonces never go down. */
  ghost predicate Forward(head: Head, ops: seq<Op>)
    decreases |ops|
  {
    ops == [] ||
    match ops[0]
    case NewHead(h, reinject, _) => reinject == [] && Advances(head, h) && Forward(h, ops[1..])
    case _ => Forward(head, ops[1..])
  }

  /** What one operation does, `gaps` being the accounts it demotes for a front gap. */
  ghost predicate Stepped(config: Config, s: PoolState, op: Op, s': PoolState, gaps: nat) {
    match op
    case AddBatch(txs, local, clock) =>
      && s'.head == s.head && s'.gasPrice == s.gasPrice && gaps == 0
      && exists results, cut ::
           BatchAdded(s.views, s'.views, s.head, s.locals, s'.locals, config, s.gasPrice, clock, local, txs, results,
                      cut)
    case SetPrice(price) =>
      && s'.head == s.head && s'.gasPrice == price && s'.locals == s.locals && gaps == 0
      && Repriced(s.views, s'.views, s.head, price, s.locals)
    case EvictTick(clock, lifetime) =>
      && s'.head == s.head && s'.gasPrice == s.gasPrice && s'.locals == s.locals && gaps == 0
      && Evicted(s.views, s'.views, s.locals, clock, lifetime)
    case NewHead(h, reinject, clock) =>
      && s'.head == h && s'.gasPrice == s.gasPrice && s'.locals == s.locals
      && exists cut :: ResetDone(s.views, s'.views, h, s.locals, config, s.gasPrice, clock, reinject, gaps, cut)
  }

  ghost function StepOf(config: Config): (PoolState, (Op, nat), PoolState) -> bool {
    (s: PoolState, step: (Op, nat), s': PoolState) => Stepped(config, s, step.0, s', step.1)
  }

  /** `trace` holds the states of a run, from before the first operation to after the last. */
  ghost predicate Run(config: Config, trace: seq<PoolState>, ops: seq<Op>, gaps: seq<nat>) {
    |gaps| == |ops| && Trace(StepOf(config), trace, Zip(ops, gaps))
  }

  /** The views agree and are within capacity. */
  ghost predicate Sound(config: Config, s: PoolState) {
    Agree(s.views, 0, map[], {}) && |s.views.all| <= config.globalSlots + config.globalQueue
  }

  ghost predicate Steady(s: PoolState) {
    InStep(s.views, s.head, {})
  }

  /** The head state rules out nothing that is known, and all of it is local or pays the minimum price. */
  ghost predicate Clean(s: PoolState) {
    AllSound(s.views.all, s.head) && AllDear(s.views.all, s.gasPrice, s.locals)
  }

  lemma AddClean(config: Config, s: PoolState, s': PoolState, txs: seq<Incoming>, local: bool, clock: nat,
                 results: seq<AddResult>, cut: set<Address>)
    requires Agree(s.views, 0, map[], {}) && Clean(s) && s'.head == s.head && s'.gasPrice == s.gasPrice
    requires BatchAdded(s.views, s'.views, s.head, s.locals, s'.locals, config, s.gasPrice, clock, local, txs, results,
                        cut)
    ensures Clean(s')
  {
    BatchSound(s.views, s'.views, s.head, s.locals, s'.locals, config, s.gasPrice, clock, local, txs, results, cut);
    BatchDear(s.views, s'.views, s.head, s.locals, s'.locals, config, s.gasPrice, clock, local, txs, results, cut);
  }

  /** Every operation keeps this. */
  lemma StepSound(config: Config, s: PoolState, op: Op, s': PoolState, gaps: nat)
    requires Stepped(config, s, op, s', gaps) && Sound(config, s) && Sound(config, s') && Clean(s)
    ensures Clean(s')
  {
    match op {
      case AddBatch(txs, local, clock) =>
        var results, cut :|
          BatchAdded(s.views, s'.views, s.head, s.locals, s'.locals, config, s.gasPrice, clock, local, txs, results,
                     cut);
        AddClean(config, s, s', txs, local, clock, results, cut);
      case SetPrice(price) =>
        RepricedSound(s.views, s'.views, s.head, price, s.locals);
        RepricedDear(s.views, s'.views, s.head, price, s.locals);
      case EvictTick(clock, lifetime) =>
        EvictedLess(s.views, s'.views, s.locals, clock, lifetime);
        LessSound(s'.views.all, s.views.all, s.head);
        LessDear(s'.views.all, s.views.all, s.gasPrice, s.locals);
      case NewHead(h, reinject, clock) =>
        var cut :| ResetDone(s.views, s'.views, h, s.locals, config, s.gasPrice, clock, reinject, gaps, cut);
        ResetSound(s.views, s'.views, h, s.locals, config, s.gasPrice, clock, reinject, gaps, cut);
        ResetDear(s.views, s'.views, h, s.locals, config, s.gasPrice, clock, reinject, gaps, cut);
    }
  }

  lemma StepClean(config: Config, trace: seq<PoolState>, ops: seq<Op>, gaps: seq<nat>, k: nat)
    requires Run(config, trace, ops, gaps) && k < |ops| && Clean(trace[k])
    requires Sound(config, trace[k]) && Sound(config, trace[k + 1])
    ensures Clean(trace[k + 1])
  {
    assert TraceAt(StepOf(config), trace, Zip(ops, gaps), k);
    StepSound(config, trace[k], ops[k], trace[k + 1], gaps[k]);
  }

  lemma {:induction false} RunClean(config: Config, trace: seq<PoolState>, ops: seq<Op>, gaps: seq<nat>, k: nat)
    requires Run(config, trace, ops, gaps) && k <= |ops| && Clean(trace[0])
    requires forall i: nat | i <= k :: Sound(config, trace[i])
    ensures Clean(trace[k])
  {
    if k > 0 {
      RunClean(config, trace, ops, gaps, k - 1);
      StepClean(config, trace, ops, gaps, k - 1);
    }
  }

  /** Every known transaction is solvent at the head, and local or at the minimum price. */
  ghost predicate Solid(s: PoolState) {
    AllSolvent(s.views.all, s.head) && AllDear(s.views.all, s.gasPrice, s.locals)
  }

  /** That is so in every state of a run. */
  lemma RunSolvent(config: Config, trace: seq<PoolState>, ops: seq<Op>, gaps: seq<nat>, k: nat)
    requires Run(config, trace, ops, gaps) && k <= |ops| && trace[0].views == NO_VIEWS
    requires forall i: nat | i <= k :: Sound(config, trace[i])
    ensures Solid(trace[k])
  {
    RunClean(config, trace, ops, gaps, k);
    SoundSolvent(trace[k].views.all, trace[k].head);
  }

  lemma AllSolid(config: Config, trace: seq<PoolState>, ops: seq<Op>, gaps: seq<nat>)
    requires Run(config, trace, ops, gaps) && trace[0].views == NO_VIEWS && forall s | s in trace :: Sound(config, s)
    ensures forall s | s in trace :: Solid(s)
  {
    forall k: nat | k <= |ops|
      ensures Solid(trace[k])
    {
      RunSolvent(config, trace, ops, gaps, k);
    }
  }

  /** One operation on the pool. */
  method Perform(pool: TxPool, op: Op) returns (gaps: nat)
    requires pool.Valid()
    modifies pool
    ensures pool.Valid() && Stepped(pool.config, old(pool.State()), op, pool.State(), gaps)
    ensures old(pool.InSync()) && (op.NewHead? ==> op.reinject == [] && Advances(old(pool.head), op.head)) ==>
              pool.InSync() && gaps == 0
  {
    gaps := 0;
    match op {
      case AddBatch(txs, local, clock) =>
        ghost var cut;
        var results;
        results, cut := pool.AddTxs(txs, local, clock);
        assert pool.head == old(pool.head) && pool.gasPrice == old(pool.gasPrice);
      case SetPrice(price) =>
        pool.SetMinimumPrice(price);
        assert pool.head == old(pool.head) && pool.locals == old(pool.locals);
      case EvictTick(clock, lifetime) =>
        pool.EvictSilent(clock, lifetime);
        assert pool.head == old(pool.head) && pool.gasPrice == old(pool.gasPrice) && pool.locals == old(pool.locals);
      case NewHead(h, reinject, clock) =>
        ghost var cut;
        gaps, cut := pool.ResetTo(h, reinject, clock);
        assert pool.gasPrice == old(pool.gasPrice) && pool.locals == old(pool.locals);
    }
  }

  /** The states of a run, all of them sound. */
  ghost predicate SoundRun(config: Config, trace: seq<PoolState>, ops: seq<Op>, gaps: seq<nat>) {
    Run(config, trace, ops, gaps) && forall s | s in trace :: Sound(config, s)
  }

  lemma SoundMore(config: Config, trace: seq<PoolState>, ops: seq<Op>, gaps: seq<nat>, op: Op, more: nat, s: PoolState)
    requires SoundRun(config, trace, ops, gaps) && Stepped(config, Last(trace), op, s, more) && Sound(config, s)
    ensures SoundRun(config, trace + [s], ops + [op], gaps + [more])
  {
    ZipMore(ops, gaps, op, more);
    TraceMore(StepOf(config), trace, Zip(ops, gaps), (op, more), s);
  }

  /** All states in step, and no account demoted for a front gap. */
  ghost predicate Smooth(trace: seq<PoolState>, gaps: seq<nat>) {
    (forall s | s in trace :: Steady(s)) && forall n | n in gaps :: n == 0
  }

  lemma SmoothMore(trace: seq<PoolState>, gaps: seq<nat>, s: PoolState, more: nat)
    requires Smooth(trace, gaps) && Steady(s) && more == 0
    ensures Smooth(trace + [s], gaps + [more])
  {
  }

  /**
   Any run of operations on a new pool: `trace` holds the states it goes through, each made from the one
   before by that operation. In all of them the views agree and are within capacity, and every known
   transaction has an unused nonce and funds, and is local or pays the minimum price; and if the run
   discards no block, every account's nonces are in step and no operation demotes for a front gap.
   */
  method RunPool(config: Config, head: Head, gasPrice: nat, locals: set<Address>, ops: seq<Op>)
    returns (pool: TxPool, gaps: seq<nat>, ghost trace: seq<PoolState>)
    ensures Run(config, trace, ops, gaps) && trace[0] == NewPool(head, gasPrice, locals) && Last(trace) == pool.State()
    ensures forall s | s in trace :: Sound(config, s) && Solid(s)
    ensures Forward(head, ops) ==> (forall s | s in trace :: Steady(s)) && forall n | n in gaps :: n == 0
  {
    pool := new TxPool(config, head, gasPrice, locals);
    gaps, trace := [], [pool.State()];
    ghost var done: seq<Op> := [];
    for i := 0 to |ops|
      invariant pool.Valid() && fresh(pool) && pool.config == config && done == ops[..i]
      invariant SoundRun(config, trace, done, gaps) && trace[0] == NewPool(head, gasPrice, locals)
      invariant Last(trace) == pool.State()
      invariant Forward(head, ops) ==> Forward(pool.head, ops[i..]) && pool.InSync() && Smooth(trace, gaps)
    {
      assert ops[i..][0] == ops[i] && ops[i..][1..] == ops[i + 1..] && ops[..i + 1] == ops[..i] + [ops[i]];
      var more := Perform(pool, ops[i]);
      SoundMore(config, trace, done, gaps, ops[i], more, pool.State());
      if Forward(head, ops) {
        SmoothMore(trace, gaps, pool.State(), more);
      }
      gaps, trace, done := gaps + [more], trace + [pool.State()], done + [ops[i]];
    }
    assert done == ops;
    AllSolid(config, trace, ops, gaps);
  }
}
