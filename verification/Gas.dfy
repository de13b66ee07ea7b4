/**
 Gas accounting: the gas pool of core/gaspool.go, the transition of one message in
 core/state_transition.go and the loop over a block's transactions in core/state_processor.go. The
 EVM is any function that does not return more gas than it was given.
 */
module Gas {
  import opened Values

  const TX_GAS := 21000
  const TX_GAS_CONTRACT_CREATION := 53000
  const TX_DATA_ZERO_GAS := 4
  const TX_DATA_NON_ZERO_GAS := 68

  type Address = nat

  datatype Error =
    | NonceTooHigh
    | NonceTooLow
    | InsufficientBalanceForGas
    | GasLimitReached
    | OutOfGas
    | InsufficientBalance

  datatype Result<+T> = Ok(value: T) | Err(error: Error)

  datatype World = World(balances: map<Address, nat>, nonces: map<Address, nat>, refund: Uint64)

  function Balance(w: World, a: Address): nat {
    if a in w.balances then w.balances[a] else 0
  }

  function Nonce(w: World, a: Address): nat {
    if a in w.nonces then w.nonces[a] else 0
  }

  datatype Message = Message(from: Address, payer: Address, creation: bool, price: nat, gas: Uint64, nonce: nat,
                             checkNonce: bool, data: seq<bv8>)

  /** The price of an amount of gas. */
  function Fee(gas: nat, price: nat): nat {
    gas * price
  }

  lemma FeeSplit(a: nat, b: nat, price: nat)
    ensures Fee(a + b, price) == Fee(a, price) + Fee(b, price)
  {
  }

  /** How an execution ended; only a failing first transfer is a consensus error. */
  datatype Ending = Success | Reverted | NoFunds

  datatype Execution = Execution(world: World, gasLeft: Uint64, ending: Ending)

  type Evm = (World, Message, Uint64) -> Execution

  ghost predicate Metered(evm: Evm) {
    forall w, m, g {:trigger evm(w, m, g)} :: evm(w, m, g).gasLeft <= g
  }

  function BytePrice(b: bv8): nat {
    if b == 0 then TX_DATA_ZERO_GAS else TX_DATA_NON_ZERO_GAS
  }

  /** What the data costs, byte by byte. */
  function DataCost(data: seq<bv8>): nat {
    if data == [] then 0 else DataCost(data[..|data| - 1]) + BytePrice(data[|data| - 1])
  }

  /** Where the data is zero. */
  function ZerosIn(data: seq<bv8>): set<nat> {
    set i: nat | i < |data| && data[i] == 0
  }

  /** Zero bytes cost 4 and all others 68, wherever they are. */
  lemma {:induction false} Priced(data: seq<bv8>)
    ensures DataCost(data) == 68 * |data| - 64 * |ZerosIn(data)|
  {
    if data != [] {
      var n := |data| - 1;
      Priced(data[..n]);
      assert ZerosIn(data) == ZerosIn(data[..n]) + if data[n] == 0 then {n} else {};
    }
  }

  function BaseCost(creation: bool, homestead: bool): nat {
    if creation && homestead then TX_GAS_CONTRACT_CREATION else TX_GAS
  }

  /** Comparing with a quotient tells whether a product still fits. */
  lemma Fits(gas: nat, count: nat, price: nat)
    requires gas <= MAX_UINT64 && price > 0
    ensures (MAX_UINT64 - gas) / price < count <==> gas + count * price > MAX_UINT64
  {
    var room := MAX_UINT64 - gas;
    assert room == room / price * price + room % price;
    if room / price < count {
      assert (room / price + 1) * price <= count * price;
    } else {
      assert count * price <= room / price * price;
    }
  }

  /** `IntrinsicGas`: the base and the price of every byte, and an error exactly when the sum does not fit. */
  method IntrinsicGas(data: seq<bv8>, creation: bool, homestead: bool) returns (r: Result<Uint64>)
    requires |data| <= MAX_UINT64
    ensures var cost := BaseCost(creation, homestead) + DataCost(data);
            r == if cost <= MAX_UINT64 then Ok(cost) else Err(OutOfGas)
    ensures r.Ok? ==>
              r.value == (if creation && homestead then 53000 else 21000) + 68 * |data| - 64 * |ZerosIn(data)|
  {
    Priced(data);
    var gas := if creation && homestead then TX_GAS_CONTRACT_CREATION else TX_GAS;
    if |data| > 0 {
      var nz := 0;
      for i := 0 to |data|
        invariant nz <= i && DataCost(data[..i]) == nz * TX_DATA_NON_ZERO_GAS + (i - nz) * TX_DATA_ZERO_GAS
      {
        assert data[..i + 1][..i] == data[..i];
        if data[i] != 0 {
          nz := nz + 1;
        }
      }
      assert data[..|data|] == data;
      Fits(gas, nz, TX_DATA_NON_ZERO_GAS);
      if (MAX_UINT64 - gas) / TX_DATA_NON_ZERO_GAS < nz {
        return Err(OutOfGas);
      }
      gas := gas + nz * TX_DATA_NON_ZERO_GAS;
      var z := |data| - nz;
      Fits(gas, z, TX_DATA_ZERO_GAS);
      if (MAX_UINT64 - gas) / TX_DATA_ZERO_GAS < z {
        return Err(OutOfGas);
      }
      gas := gas + z * TX_DATA_ZERO_GAS;
    }
    return Ok(gas);
  }

  class GasPool {
    var gas: Uint64

    constructor ()
      ensures gas == 0
    {
      gas := 0;
    }

    /** Adding past the 64-bit range panics; no caller does. */
    method AddGas(amount: Uint64)
      requires gas <= MAX_UINT64 - amount
      modifies this
      ensures gas == old(gas) + amount
    {
      gas := gas + amount;
    }

    method SubGas(amount: Uint64) returns (ok: bool)
      modifies this
      ensures ok <==> amount <= old(gas)
      ensures gas == if ok then old(gas) - amount else old(gas)
    {
      if gas < amount {
        return false;
      }
      gas := gas - amount;
      return true;
    }
  }

  /** The world once the whole gas limit is paid for, and the one the EVM is started in. */
  function Bought(w: World, msg: Message): World
    requires Fee(msg.gas, msg.price) <= Balance(w, msg.payer)
  {
    w.(balances := w.balances[msg.payer := Balance(w, msg.payer) - Fee(msg.gas, msg.price)])
  }

  function Entry(w: World, msg: Message): World
    requires Fee(msg.gas, msg.price) <= Balance(w, msg.payer)
  {
    var b := Bought(w, msg);
    if msg.creation then b else b.(nonces := b.nonces[msg.from := Nonce(b, msg.from) + 1])
  }

  /** The first check that fails, in the order the code makes them. */
  function Refusal(w: World, pool: nat, msg: Message): Result<()> {
    if msg.checkNonce && Nonce(w, msg.from) < msg.nonce then Err(NonceTooHigh)
    else if msg.checkNonce && Nonce(w, msg.from) > msg.nonce then Err(NonceTooLow)
    else if Balance(w, msg.payer) < Fee(msg.gas, msg.price) then Err(InsufficientBalanceForGas)
    else if pool < msg.gas then Err(GasLimitReached)
    else Ok(())
  }

  function Intrinsic(msg: Message, homestead: bool): nat {
    BaseCost(msg.creation, homestead) + DataCost(msg.data)
  }

  /** The execution of an admitted message whose gas limit covers its intrinsic gas. */
  function Ran(evm: Evm, w: World, msg: Message, homestead: bool): Execution
    requires Fee(msg.gas, msg.price) <= Balance(w, msg.payer) && Intrinsic(msg, homestead) <= msg.gas
  {
    evm(Entry(w, msg), msg, msg.gas - Intrinsic(msg, homestead))
  }

  /** Whether a message goes through without a consensus error. */
  predicate Applies(evm: Evm, w: World, pool: nat, msg: Message, homestead: bool) {
    Refusal(w, pool, msg).Ok? && Intrinsic(msg, homestead) <= msg.gas && Ran(evm, w, msg, homestead).ending != NoFunds
  }

  /** Why a message does not go through; the errors come in the order of the checks. */
  function Failure(evm: Evm, w: World, pool: nat, msg: Message, homestead: bool): Error
    requires !Applies(evm, w, pool, msg, homestead)
  {
    var refusal := Refusal(w, pool, msg);
    if refusal.Err? then refusal.error
    else if Intrinsic(msg, homestead) > msg.gas then OutOfGas
    else InsufficientBalance
  }

  /** What is paid back for the unused gas. */
  function Repaid(w: World, msg: Message, gas: nat): World {
    w.(balances := w.balances[msg.payer := Balance(w, msg.payer) + Fee(gas, msg.price)])
  }

  /** Before and after a message, an account differs by what the EVM did to it and, for the payer, the fee. */
  ghost predicate Charged(w: World, entry: World, ran: World, after: World, payer: Address, fee: nat, a: Address) {
    Balance(w, a) - Balance(after, a) == Balance(entry, a) - Balance(ran, a) + if a == payer then fee else 0
  }

  ghost predicate AllCharged(w: World, entry: World, ran: World, after: World, payer: Address, fee: nat) {
    forall a {:trigger Charged(w, entry, ran, after, payer, fee, a)} :: Charged(w, entry, ran, after, payer, fee, a)
  }

  lemma SettledAt(w: World, entry: World, ran: World, after: World, payer: Address, paid: nat, repaid: nat, fee: nat)
    requires paid == fee + repaid && paid <= Balance(w, payer)
    requires entry.balances == w.balances[payer := Balance(w, payer) - paid]
    requires after.balances == ran.balances[payer := Balance(ran, payer) + repaid]
    ensures AllCharged(w, entry, ran, after, payer, fee)
  {
    forall a: Address
      ensures Charged(w, entry, ran, after, payer, fee, a)
    {
    }
  }

  /** Buying the limit and being paid back for the rest costs the used gas. */
  lemma Settled(w: World, msg: Message, ran: World, used: nat, left: nat)
    requires Fee(msg.gas, msg.price) <= Balance(w, msg.payer) && used + left == msg.gas
    ensures AllCharged(w, Entry(w, msg), ran, Repaid(ran, msg, left), msg.payer, Fee(used, msg.price))
  {
    var price := msg.price;
    FeeSplit(used, left, price);
    SettledAt(w, Entry(w, msg), ran, Repaid(ran, msg, left), msg.payer, Fee(msg.gas, price), Fee(left, price),
              Fee(used, price));
  }

  /** The refund counter counts, but never for more than half of the gas spent. */
  function AfterRefund(spent: int, counter: nat): int {
    if spent / 2 > counter then spent - counter else spent - spent / 2
  }

  /** The refund is the most that neither the counter nor half of the gas spent exceeds. */
  lemma RefundIsMost(spent: nat, counter: nat, amount: nat)
    ensures 0 <= spent - AfterRefund(spent, counter) <= counter && 2 * (spent - AfterRefund(spent, counter)) <= spent
    ensures amount <= counter && 2 * amount <= spent ==> amount <= spent - AfterRefund(spent, counter)
  {
  }

  /**
   What a message that goes through has done: the pool shrank by the gas used, which is what the EVM
   took less a refund of at most half, and the payer was charged that gas at the price. The world is
   the one the EVM left with the rest paid back, but for the refund counter.
   */
  ghost predicate Applied(evm: Evm, w: World, pool: nat, msg: Message, homestead: bool, after: World, left: nat,
                          used: nat, failed: bool)
  {
    && Applies(evm, w, pool, msg, homestead) && left + used == pool && used <= msg.gas
    && var run := Ran(evm, w, msg, homestead);
    && failed == (run.ending != Success)
    && used == AfterRefund(msg.gas - run.gasLeft, run.world.refund) && Intrinsic(msg, homestead) <= 2 * used
    && AllCharged(w, Entry(w, msg), run.world, after, msg.payer, Fee(used, msg.price))
    && after == Repaid(run.world, msg, msg.gas - used).(refund := after.refund)
  }

  class StateTransition {
    const gp: GasPool
    const msg: Message
    var gas: Uint64
    var initialGas: Uint64
    var world: World

    constructor (gp: GasPool, msg: Message, world: World)
      ensures this.gp == gp && this.msg == msg && this.world == world && gas == initialGas == 0
    {
      this.gp, this.msg, this.world := gp, msg, world;
      gas, initialGas := 0, 0;
    }

    method UseGas(amount: Uint64) returns (ok: bool)
      modifies `gas
      ensures ok <==> amount <= old(gas)
      ensures gas == if ok then old(gas) - amount else old(gas)
    {
      if gas < amount {
        return false;
      }
      gas := gas - amount;
      return true;
    }

    /** `preCheck` and `buyGas`: a refused message changes nothing. */
    method PreCheck() returns (r: Result<()>)
      requires gas == 0
      modifies this, gp
      ensures r == Refusal(old(world), old(gp.gas), msg)
      ensures r.Err? ==> world == old(world) && gp.gas == old(gp.gas)
      ensures r.Ok? ==>
                world == Bought(old(world), msg) && gp.gas == old(gp.gas) - msg.gas && gas == initialGas == msg.gas
    {
      if msg.checkNonce {
        var nonce := Nonce(world, msg.from);
        if nonce < msg.nonce {
          return Err(NonceTooHigh);
        } else if nonce > msg.nonce {
          return Err(NonceTooLow);
        }
      }
      if Balance(world, msg.payer) < Fee(msg.gas, msg.price) {
        return Err(InsufficientBalanceForGas);
      }
      var ok := gp.SubGas(msg.gas);
      if !ok {
        return Err(GasLimitReached);
      }
      gas := gas + msg.gas;
      initialGas := msg.gas;
      world := Bought(world, msg);
      return Ok(());
    }

    /** `refundGas`: at most half of the used gas comes back, and what is left is paid back and returned to the pool. */
    method RefundGas()
      requires gas <= initialGas && gp.gas <= MAX_UINT64 - initialGas
      modifies `gas, `world, gp
      ensures old(gas) <= gas <= initialGas && 2 * (gas - old(gas)) <= initialGas - old(gas)
      ensures initialGas - gas == AfterRefund(initialGas - old(gas), old(world.refund)) && gp.gas == old(gp.gas) + gas
      ensures world == Repaid(old(world), msg, gas)
    {
      var refund := (initialGas - gas) / 2;
      if refund > world.refund {
        refund := world.refund;
      }
      gas := gas + refund;
      world := Repaid(world, msg, gas);
      gp.AddGas(gas);
    }

    /** The part of `TransitionDb` before the execution: the checks, the intrinsic gas and the nonce. */
    method Admit(homestead: bool) returns (r: Result<()>)
      requires gas == 0 && |msg.data| <= MAX_UINT64
      modifies this, gp
      ensures var refusal := Refusal(old(world), old(gp.gas), msg);
              if refusal.Err? then r == refusal && world == old(world) && gp.gas == old(gp.gas)
              else r == if Intrinsic(msg, homestead) <= msg.gas then Ok(()) else Err(OutOfGas)
      ensures r.Ok? ==> world == Entry(old(world), msg) && initialGas == msg.gas
      ensures r.Ok? ==> gas == msg.gas - Intrinsic(msg, homestead) && gp.gas == old(gp.gas) - msg.gas
    {
      r := PreCheck();
      if r.Err? {
        return;
      }
      var cost := IntrinsicGas(msg.data, msg.creation, homestead);
      if cost.Err? {
        return Err(cost.error);
      }
      var ok := UseGas(cost.value);
      if !ok {
        return Err(OutOfGas);
      }
      if !msg.creation {
        world := world.(nonces := world.nonces[msg.from := Nonce(world, msg.from) + 1]);
      }
    }

    /**
     `TransitionDb`. A message that goes through shrinks the pool by the gas it used, which is its
     limit less what the EVM left and less the refund, and costs the payer that gas at the price; the
     pool cannot overflow. A refused one changes nothing.
     */
    method TransitionDb(evm: Evm, homestead: bool) returns (r: Result<(Uint64, bool)>)
      requires Metered(evm) && gas == 0 && |msg.data| <= MAX_UINT64
      modifies this, gp
      ensures r.Ok? <==> Applies(evm, old(world), old(gp.gas), msg, homestead)
      ensures r.Err? ==> r.error == Failure(evm, old(world), old(gp.gas), msg, homestead)
      ensures Refusal(old(world), old(gp.gas), msg).Err? ==> world == old(world) && gp.gas == old(gp.gas)
      ensures r.Ok? ==> world.refund == Ran(evm, old(world), msg, homestead).world.refund
      ensures r.Ok? ==> Applied(evm, old(world), old(gp.gas), msg, homestead, world, gp.gas, r.value.0, r.value.1)
    {
      var admitted := Admit(homestead);
      if admitted.Err? {
        return Err(admitted.error);
      }
      var run := evm(world, msg, gas);
      gas, world := run.gasLeft, run.world;
      if run.ending == NoFunds {
        return Err(InsufficientBalance);
      }
      RefundGas();
      var used := initialGas - gas;
      Settled(old(world), msg, run.world, used, gas);
      return Ok((used, run.ending != Success));
    }
  }

  datatype Receipt = Receipt(failed: bool, cumulative: Uint64, gasUsed: Uint64, payer: Address)

  ghost function GasSum(receipts: seq<Receipt>): nat {
    if receipts == [] then 0 else GasSum(receipts[..|receipts| - 1]) + receipts[|receipts| - 1].gasUsed
  }

  datatype Block = Block(gasLimit: Uint64, msgs: seq<Message>, homestead: bool)

  /** A message was applied to the world and the pool its predecessors left, who used `before`. */
  ghost predicate Step(evm: Evm, block: Block, w: World, before: nat, msg: Message, after: World, receipt: Receipt) {
    var pool, used := block.gasLimit - before, receipt.gasUsed;
    && 0 <= pool - used && receipt.payer == msg.payer && receipt.cumulative == before + used
    && Applied(evm, w, pool, msg, block.homestead, after, pool - used, used, receipt.failed) && after.refund == 0
  }

  /** `worlds` are the states from before the first message to after the last. */
  ghost predicate Billed(evm: Evm, block: Block, worlds: seq<World>, receipts: seq<Receipt>, i: nat)
    requires i < |receipts| <= |block.msgs| && |worlds| == |receipts| + 1
  {
    Step(evm, block, worlds[i], GasSum(receipts[..i]), block.msgs[i], worlds[i + 1], receipts[i])
  }

  ghost predicate AllBilled(evm: Evm, block: Block, worlds: seq<World>, receipts: seq<Receipt>) {
    && |receipts| <= |block.msgs| && |worlds| == |receipts| + 1 && GasSum(receipts) <= block.gasLimit
    && forall i: nat {:trigger Billed(evm, block, worlds, receipts, i)} | i < |receipts| ::
         Billed(evm, block, worlds, receipts, i)
  }

  lemma BilledBefore(evm: Evm, block: Block, worlds: seq<World>, receipts: seq<Receipt>, next: World, receipt: Receipt,
                     i: nat)
    requires |receipts| < |block.msgs| && |worlds| == |receipts| + 1 && i < |receipts|
    requires Billed(evm, block, worlds, receipts, i)
    ensures Billed(evm, block, worlds + [next], receipts + [receipt], i)
  {
    assert (receipts + [receipt])[..i] == receipts[..i];
  }

  lemma BilledLast(evm: Evm, block: Block, worlds: seq<World>, receipts: seq<Receipt>, next: World, receipt: Receipt)
    requires |receipts| < |block.msgs| && |worlds| == |receipts| + 1
    requires Step(evm, block, worlds[|receipts|], GasSum(receipts), block.msgs[|receipts|], next, receipt)
    ensures Billed(evm, block, worlds + [next], receipts + [receipt], |receipts|)
    ensures GasSum(receipts + [receipt]) == GasSum(receipts) + receipt.gasUsed <= block.gasLimit
  {
    assert (receipts + [receipt])[..|receipts|] == receipts;
  }

  /** One more receipt leaves the earlier ones as they were. */
  lemma BillNext(evm: Evm, block: Block, worlds: seq<World>, receipts: seq<Receipt>, next: World, receipt: Receipt)
    requires AllBilled(evm, block, worlds, receipts) && |receipts| < |block.msgs|
    requires Step(evm, block, worlds[|receipts|], GasSum(receipts), block.msgs[|receipts|], next, receipt)
    ensures AllBilled(evm, block, worlds + [next], receipts + [receipt])
    ensures GasSum(receipts + [receipt]) == GasSum(receipts) + receipt.gasUsed
  {
    BilledLast(evm, block, worlds, receipts, next, receipt);
    forall i: nat | i < |receipts|
      ensures Billed(evm, block, worlds + [next], receipts + [receipt], i)
    {
      BilledBefore(evm, block, worlds, receipts, next, receipt, i);
    }
  }

  /** The refund counter starts afresh with each transaction. */
  function Finalised(w: World): World {
    w.(refund := 0)
  }

  lemma FinalisedCharged(w: World, entry: World, ran: World, after: World, payer: Address, fee: nat)
    requires AllCharged(w, entry, ran, after, payer, fee)
    ensures AllCharged(w, entry, ran, Finalised(after), payer, fee)
  {
    var done := Finalised(after);
    forall a: Address
      ensures Charged(w, entry, ran, done, payer, fee, a)
    {
      assert Charged(w, entry, ran, after, payer, fee, a);
    }
  }

  /** `ApplyTransaction`: the message is applied, the refund counter cleared and the gas added up. */
  method ApplyTransaction(evm: Evm, gp: GasPool, world: World, msg: Message, homestead: bool, usedGas: Uint64)
    returns (r: Result<Receipt>, after: World)
    requires Metered(evm) && |msg.data| <= MAX_UINT64 && usedGas + gp.gas <= MAX_UINT64
    modifies gp
    ensures r.Ok? <==> Applies(evm, world, old(gp.gas), msg, homestead)
    ensures r.Err? ==> r.error == Failure(evm, world, old(gp.gas), msg, homestead)
    ensures Refusal(world, old(gp.gas), msg).Err? ==> after == world && gp.gas == old(gp.gas)
    ensures r.Ok? ==>
              && r.value.payer == msg.payer && r.value.cumulative == usedGas + r.value.gasUsed && after.refund == 0
              && Applied(evm, world, old(gp.gas), msg, homestead, after, gp.gas, r.value.gasUsed, r.value.failed)
  {
    var st := new StateTransition(gp, msg, world);
    var res := st.TransitionDb(evm, homestead);
    if res.Err? {
      return Err(res.error), st.world;
    }
    after := Finalised(st.world);
    var (gas, failed) := res.value;
    FinalisedCharged(world, Entry(world, msg), Ran(evm, world, msg, homestead).world, st.world, msg.payer,
                     Fee(gas, msg.price));
    r := Ok(Receipt(failed, usedGas + gas, gas, msg.payer));
  }

  /** A run of the EVM lowers no nonce, and a creation that goes through raises the sender's. */
  ghost predicate Counts(w: World, msg: Message, run: Execution) {
    && (forall a :: Nonce(w, a) <= Nonce(run.world, a))
    && (msg.creation && run.ending != NoFunds ==> Nonce(w, msg.from) < Nonce(run.world, msg.from))
  }

  ghost predicate Counting(evm: Evm) {
    forall w, m, g {:trigger evm(w, m, g)} :: Counts(w, m, evm(w, m, g))
  }

  /** A message that goes through uses up a nonce of its sender, and if checked, its own. */
  lemma Counted(evm: Evm, block: Block, w: World, before: nat, msg: Message, after: World, receipt: Receipt, a: Address)
    requires Counting(evm) && Step(evm, block, w, before, msg, after, receipt)
    ensures Nonce(w, a) <= Nonce(after, a) && Nonce(w, msg.from) < Nonce(after, msg.from)
    ensures msg.checkNonce ==> msg.nonce == Nonce(w, msg.from)
  {
    var entry, run := Entry(w, msg), Ran(evm, w, msg, block.homestead);
    assert Counts(entry, msg, run);
    assert after.nonces == run.world.nonces;
    assert Nonce(w, a) <= Nonce(entry, a) <= Nonce(run.world, a) == Nonce(after, a);
    assert Nonce(w, msg.from) <= Nonce(entry, msg.from) <= Nonce(run.world, msg.from) == Nonce(after, msg.from);
  }

  /** Between two worlds of a block no nonce falls, and every message in between raised its sender's. */
  lemma {:induction false} NoncesGrow(evm: Evm, block: Block, worlds: seq<World>, receipts: seq<Receipt>, i: nat,
                                      j: nat, a: Address)
    requires Counting(evm) && AllBilled(evm, block, worlds, receipts) && i <= j <= |receipts|
    ensures Nonce(worlds[i], a) <= Nonce(worlds[j], a)
    ensures i < j && block.msgs[i].from == a ==> Nonce(worlds[i], a) < Nonce(worlds[j], a)
    decreases j - i
  {
    if i < j {
      assert Billed(evm, block, worlds, receipts, i);
      Counted(evm, block, worlds[i], GasSum(receipts[..i]), block.msgs[i], worlds[i + 1], receipts[i], a);
      NoncesGrow(evm, block, worlds, receipts, i + 1, j, a);
    }
  }

  /** Two checked messages of one sender are applied in the order of their nonces. */
  ghost predicate Ordered(msgs: seq<Message>, i: nat, j: nat)
    requires i < j < |msgs|
  {
    msgs[i].checkNonce && msgs[j].checkNonce && msgs[i].from == msgs[j].from ==> msgs[i].nonce < msgs[j].nonce
  }

  ghost predicate AllOrdered(msgs: seq<Message>) {
    forall i: nat, j: nat | i < j < |msgs| :: Ordered(msgs, i, j)
  }

  /**
   The checked messages of a sender that a block applied carry rising nonces, each the account's own at
   the time: no checked message is applied twice.
   */
  lemma InOrder(evm: Evm, block: Block, worlds: seq<World>, receipts: seq<Receipt>)
    requires Counting(evm) && AllBilled(evm, block, worlds, receipts)
    ensures AllOrdered(block.msgs[..|receipts|])
    ensures forall i: nat | i < |receipts| && block.msgs[i].checkNonce ::
              block.msgs[i].nonce == Nonce(worlds[i], block.msgs[i].from)
  {
    var msgs := block.msgs[..|receipts|];
    forall i: nat | i < |receipts| && block.msgs[i].checkNonce
      ensures block.msgs[i].nonce == Nonce(worlds[i], block.msgs[i].from)
    {
      assert Billed(evm, block, worlds, receipts, i);
    }
    forall i: nat, j: nat | i < j < |msgs|
      ensures Ordered(msgs, i, j)
    {
      NoncesGrow(evm, block, worlds, receipts, i, j, msgs[i].from);
    }
  }

  /**
   A checked message is refused for a nonce too low if the block has applied it before, or one of its
   sender with a nonce no lower, whatever else is wrong with it.
   */
  lemma Replayed(evm: Evm, block: Block, worlds: seq<World>, receipts: seq<Receipt>, i: nat, pool: nat, msg: Message)
    requires Counting(evm) && AllBilled(evm, block, worlds, receipts) && i < |receipts|
    requires msg.checkNonce && block.msgs[i].checkNonce && block.msgs[i].from == msg.from
    requires msg.nonce <= block.msgs[i].nonce
    ensures !Applies(evm, worlds[|receipts|], pool, msg, block.homestead)
    ensures Failure(evm, worlds[|receipts|], pool, msg, block.homestead) == NonceTooLow
  {
    NoncesGrow(evm, block, worlds, receipts, i, |receipts|, msg.from);
    InOrder(evm, block, worlds, receipts);
  }

  /**
   What the miner skips after a nonce error would fail too: with a nonce too high every later nonce of
   the sender, with one too low the same message in every later world of the block.
   */
  lemma Skipped(evm: Evm, block: Block, worlds: seq<World>, receipts: seq<Receipt>, i: nat, j: nat, pool: nat,
                pool': nat, msg: Message, later: Message)
    requires Counting(evm) && AllBilled(evm, block, worlds, receipts) && i <= j <= |receipts|
    requires !Applies(evm, worlds[i], pool, msg, block.homestead)
    requires later.checkNonce && later.from == msg.from && msg.nonce <= later.nonce
    ensures Failure(evm, worlds[i], pool, msg, block.homestead) == NonceTooHigh ==>
              Refusal(worlds[i], pool', later) == Err(NonceTooHigh)
    ensures Failure(evm, worlds[i], pool, msg, block.homestead) == NonceTooLow ==>
              Refusal(worlds[j], pool', msg) == Err(NonceTooLow)
  {
    NoncesGrow(evm, block, worlds, receipts, i, j, msg.from);
  }

  /** Messages with these receipts went through; the next one failed with this error. */
  ghost predicate Stopped(evm: Evm, block: Block, worlds: seq<World>, receipts: seq<Receipt>, error: Error) {
    && |receipts| < |block.msgs| && AllBilled(evm, block, worlds, receipts)
    && var w, pool, msg := worlds[|receipts|], block.gasLimit - GasSum(receipts), block.msgs[|receipts|];
    && !Applies(evm, w, pool, msg, block.homestead) && error == Failure(evm, w, pool, msg, block.homestead)
  }

  /**
   `Process`: every message of the block in turn, up to the first consensus error. The gas used is the
   sum over the receipts, is what the pool lost, and is within the block's limit. The error is that of
   the message it stopped at, and no checked message was applied twice.
   */
  method Process(evm: Evm, block: Block, world: World)
    returns (r: Result<(seq<Receipt>, Uint64)>, ghost worlds: seq<World>, gp: GasPool)
    requires Metered(evm) && forall m | m in block.msgs :: |m.data| <= MAX_UINT64
    ensures |worlds| > 0 && worlds[0] == world
    ensures r.Ok? ==> |r.value.0| == |block.msgs| && r.value.1 == GasSum(r.value.0) == block.gasLimit - gp.gas
    ensures r.Ok? ==> AllBilled(evm, block, worlds, r.value.0)
    ensures r.Err? ==> exists receipts :: Stopped(evm, block, worlds, receipts, r.error)
    ensures Counting(evm) && r.Ok? ==> AllOrdered(block.msgs)
  {
    gp := new GasPool();
    gp.AddGas(block.gasLimit);
    var receipts, usedGas, state := [], 0, world;
    worlds := [world];
    for i := 0 to |block.msgs|
      invariant |receipts| == i && AllBilled(evm, block, worlds, receipts) && worlds[0] == world && worlds[i] == state
      invariant usedGas == GasSum(receipts) && gp.gas + usedGas == block.gasLimit && fresh(gp)
    {
      var receipt, after := ApplyTransaction(evm, gp, state, block.msgs[i], block.homestead, usedGas);
      if receipt.Err? {
        assert Stopped(evm, block, worlds, receipts, receipt.error);
        r := Err(receipt.error);
        return;
      }
      BillNext(evm, block, worlds, receipts, after, receipt.value);
      usedGas := usedGas + receipt.value.gasUsed;
      receipts, worlds, state := receipts + [receipt.value], worlds + [after], after;
    }
    r := Ok((receipts, usedGas));
    if Counting(evm) {
      InOrder(evm, block, worlds, receipts);
      assert block.msgs[..|receipts|] == block.msgs;
    }
  }
}
