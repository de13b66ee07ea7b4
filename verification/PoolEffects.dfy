/**
 What each pool operation does to the views, as a relation between the views before and after it.
 An operation made of steps relates them through the views in between; the heap of prices and its
 count of stale entries are left to `Agree`.
 */
module PoolEffects {
  import opened Values
  import opened TxTypes
  import opened PoolModel
  import opened TxLists
  import opened PoolSteps
  import opened PoolDemote
  import opened PoolLimits

  /** One account's turn in `promoteExecutables`. */
  ghost predicate Turn(v: Views, w: Views, head: Head, locals: set<Address>, config: Config, clock: nat, a: Address) {
    && Agree(w, 0, map[], {})
    && if a in v.queue then Promoted(v, w, head, a, config.accountQueue, a in locals) && Beats(v, w, head, a, clock)
       else Is(w, v)
  }

  ghost function TurnOf(head: Head, locals: set<Address>, config: Config, clock: nat): (Views, Address, Views) -> bool {
    (v: Views, a: Address, w: Views) => Turn(v, w, head, locals, config, clock, a)
  }

  /** All accounts' turns; `vs` are the views from before the first to after the last. */
  ghost predicate Turns(vs: seq<Views>, head: Head, locals: set<Address>, config: Config, clock: nat,
                        accounts: seq<Address>)
  {
    Trace(TurnOf(head, locals, config, clock), vs, accounts)
  }

  /** The two limits after the turns, the views in between being `x` and `y`. */
  ghost predicate Limits(x: Views, y: Views, w: Views, head: Head, locals: set<Address>, config: Config,
                         cut: set<Address>, level: nat)
  {
    && Equalized(x, y, locals, config.accountSlots, config.globalSlots, cut, level) && Aside(x, y, head, {})
    && Truncated(y, w, locals, config.globalQueue) && QueueAside(y, w, head, {})
  }

  /** `promoteExecutables` on the given accounts; those in `cut` lose pending transactions to the limit. */
  ghost predicate Executed(v: Views, w: Views, head: Head, locals: set<Address>, config: Config, clock: nat,
                           accounts: seq<Address>, cut: set<Address>)
  {
    exists vs, y, level ::
      && Turns(vs, head, locals, config, clock, accounts) && Is(vs[0], v)
      && Limits(Last(vs), y, w, head, locals, config, cut, level)
  }

  datatype AddError = AlreadyKnown | Invalid | PoolFull | SameNonce | ReplaceUnderpriced
  datatype AddResult = Added(replaced: bool) | Failed(error: AddError)

  /** An incoming transaction with the verdict of the stateless checks on it. */
  datatype Incoming = Incoming(tx: Tx, sound: bool)

  /**
   What `ValidateTx` asks for apart from funds. `sound` stands for the checks that read no pool state:
   size, signature, network gas price, provider and owner rules, intrinsic gas.
   */
  predicate Proper(head: Head, locals: set<Address>, gasPrice: nat, tx: Tx, local: bool, sound: bool) {
    sound && (local || tx.sender in locals || gasPrice <= tx.price) && head.Nonce(tx.sender) <= tx.nonce
  }

  /** `ValidateTx`. */
  predicate ValidTx(head: Head, locals: set<Address>, gasPrice: nat, tx: Tx, local: bool, sound: bool) {
    Proper(head, locals, gasPrice, tx, local, sound) && !head.Unpayable(tx)
  }

  function Slots(config: Config): nat {
    config.globalSlots + config.globalQueue
  }

  /** What `add` answers, the first failing test deciding. */
  function Verdict(v: Views, head: Head, locals: set<Address>, config: Config, gasPrice: nat, local: bool,
                   inc: Incoming): AddResult
  {
    var tx := inc.tx;
    var q := At(v.queue, tx.sender);
    if tx.hash in v.all then Failed(AlreadyKnown)
    else if !ValidTx(head, locals, gasPrice, tx, local, inc.sound) then Failed(Invalid)
    else if |v.all| >= Slots(config) then Failed(PoolFull)
    else if tx.nonce in At(v.pending, tx.sender) then Failed(SameNonce)
    else if tx.nonce in q && !Outbids(q[tx.nonce], tx, config.priceBump) then Failed(ReplaceUnderpriced)
    else Added(tx.nonce in q)
  }

  /** The lookup once `tx` is queued, in place of what was queued at its nonce. */
  function Known(v: Views, tx: Tx): Lookup {
    var q := At(v.queue, tx.sender);
    (if tx.nonce in q then v.all - {q[tx.nonce].hash} else v.all)[tx.hash := tx]
  }

  /** `add`: a transaction that is accepted is queued, and one that is refused changes nothing. */
  ghost predicate AddedOne(v: Views, w: Views, tx: Tx, r: AddResult) {
    if r.Failed? then Is(w, v)
    else
      && Is(w.pending, v.pending) && Is(w.nonces, v.nonces) && Is(w.beats, v.beats) && Is(w.all, Known(v, tx))
      && Is(w.queue, Store(v.queue, tx.sender, At(v.queue, tx.sender)[tx.nonce := tx]))
  }

  /** With its answer and, for a local batch, the local accounts afterwards. */
  ghost predicate Adds(v: Views, w: Views, head: Head, locals: set<Address>, locals': set<Address>, config: Config,
                       gasPrice: nat, local: bool, inc: Incoming, r: AddResult)
  {
    && Agree(w, 0, map[], {}) && r == Verdict(v, head, locals, config, gasPrice, local, inc)
    && AddedOne(v, w, inc.tx, r)
    && Is(locals', if local && r.Added? then locals + {inc.tx.sender} else locals)
  }

  /** The views and the local accounts. */
  datatype Reached = Reached(views: Views, locals: set<Address>)

  ghost function AddOf(head: Head, config: Config, gasPrice: nat, local: bool)
    : (Reached, (Incoming, AddResult), Reached) -> bool
  {
    (r: Reached, step: (Incoming, AddResult), r': Reached) =>
      Adds(r.views, r'.views, head, r.locals, r'.locals, config, gasPrice, local, step.0, step.1)
  }

  /** The loop of `addTxsLocked`: each result is `add`'s on the views and local accounts reached so far. */
  ghost predicate AddedAll(rs: seq<Reached>, head: Head, config: Config, gasPrice: nat, local: bool, txs: seq<Incoming>,
                           results: seq<AddResult>)
  {
    |results| == |txs| && Trace(AddOf(head, config, gasPrice, local), rs, Zip(txs, results))
  }

  /** The senders that gained a transaction rather than replaced one. */
  function Gained(txs: seq<Incoming>, results: seq<AddResult>): set<Address>
    requires |txs| == |results|
  {
    set i | 0 <= i < |txs| && results[i] == Added(false) :: txs[i].tx.sender
  }

  /** `addTxsLocked`. */
  ghost predicate BatchAdded(v: Views, w: Views, head: Head, locals: set<Address>, locals': set<Address>,
                             config: Config, gasPrice: nat, clock: nat, local: bool, txs: seq<Incoming>,
                             results: seq<AddResult>, cut: set<Address>)
  {
    exists rs, accounts: seq<Address> ::
      && AddedAll(rs, head, config, gasPrice, local, txs, results) && Is(rs[0], Reached(v, locals))
      && Is(Last(rs).locals, locals')
      && Distinct(accounts) && Is(Elems(accounts), Gained(txs, results))
      && if accounts == [] then Is(w, Last(rs).views) && Is(cut, {})
         else Executed(Last(rs).views, w, head, locals', config, clock, accounts, cut)
  }

  /** The second half of `reset`, from demotion on, with the views after demotion and after the nonce update. */
  ghost predicate Settled(u: Views, x: Views, y: Views, w: Views, head: Head, locals: set<Address>, config: Config,
                          clock: nat, accounts: seq<Address>, cut: set<Address>)
  {
    && Agree(u, 0, map[], {}) && Agree(x, 0, map[], {}) && AllDemoted(u, x, head, {}) && Is(x.nonces, u.nonces)
    && BeatsLeft(u, x) && Within(x.all, u.all)
    && Synced(x, y, {}) && Is(y, x.(nonces := y.nonces))
    && Distinct(accounts) && Is(Elems(accounts), y.queue.Keys)
    && Executed(y, w, head, locals, config, clock, accounts, cut)
  }

  /** `reset`: reinjection into views without virtual nonces, demotion, the nonce update and promotion. */
  ghost predicate ResetDone(v: Views, w: Views, head: Head, locals: set<Address>, config: Config, gasPrice: nat,
                            clock: nat, reinject: seq<Incoming>, gaps: nat, cut: set<Address>)
  {
    exists u, x, y, accounts, results, first, second ::
      && Is(cut, first + second)
      && BatchAdded(v.(nonces := map[]), u, head, locals, locals, config, gasPrice, clock, false, reinject, results,
                    first)
      && gaps == |Gapped(u, head, {})| && Settled(u, x, y, w, head, locals, config, clock, accounts, second)
  }

  ghost predicate SameViews(v: Views, w: Views) {
    && Is(w.pending, v.pending) && Is(w.queue, v.queue) && Is(w.nonces, v.nonces) && Is(w.beats, v.beats)
    && Is(w.all, v.all)
  }

  /** One call of `removeTx`. */
  ghost predicate Gone(v: Views, w: Views, head: Head, t: Tx) {
    if t.hash in v.all then Removed(v, w, head, t) else SameViews(v, w)
  }

  ghost function GoneOf(head: Head): (Views, Tx, Views) -> bool {
    (v: Views, t: Tx, w: Views) => Gone(v, w, head, t)
  }

  /** Local, or not below the price. */
  predicate Dear(t: Tx, price: nat, locals: set<Address>) {
    t.sender in locals || price <= t.price
  }

  /** `SetGasPrice`: transactions that are not dear are removed in turn, until none is known. */
  ghost predicate Repriced(v: Views, w: Views, head: Head, price: nat, locals: set<Address>) {
    && (exists vs, drop: seq<Tx> ::
          && Trace(GoneOf(head), vs, drop) && SameViews(v, vs[0]) && Is(Last(vs), w)
          && forall t | t in drop :: !Dear(t, price, locals))
    && forall h | h in w.all :: Dear(w.all[h], price, locals)
  }

  predicate Silent(beats: map<Address, nat>, clock: nat, lifetime: nat, a: Address) {
    a !in beats || clock > beats[a] + lifetime
  }

  ghost predicate EvictedAt(v: Views, w: Views, locals: set<Address>, clock: nat, lifetime: nat, a: Address) {
    Is(At(w.queue, a), if a !in locals && Silent(v.beats, clock, lifetime, a) then map[] else At(v.queue, a))
  }

  /** The eviction tick: the queues of silent remote accounts are emptied and the others left alone. */
  ghost predicate Evicted(v: Views, w: Views, locals: set<Address>, clock: nat, lifetime: nat) {
    && Is(w.pending, v.pending) && Is(w.nonces, v.nonces) && Is(w.beats, v.beats)
    && forall a {:trigger EvictedAt(v, w, locals, clock, lifetime, a)} :: EvictedAt(v, w, locals, clock, lifetime, a)
  }
}
