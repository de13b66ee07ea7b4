/** What the pool asks of a transaction's payers, measured by what its execution charges them. */
module PoolFunds {
  import opened Values
  import opened TxTypes
  import opened PoolSteps
  import Gas

  /** Who buys the gas: the provider if there is one, else the sender. */
  function Payer(t: Tx): Address {
    if t.provider.Some? then t.provider.value else t.sender
  }

  /** The message a transaction is executed as; whether it creates a contract, and its data, are the payload's. */
  function MessageOf(t: Tx, creation: bool, data: seq<bv8>): Gas.Message {
    Gas.Message(t.sender, Payer(t), creation, t.price, t.gas, t.nonce, true, data)
  }

  /** The head state when it is the transaction's turn: its sender's earlier nonces are used up. */
  function Turned(head: Head, t: Tx): Gas.World {
    Gas.World(head.balances, head.nonces[t.sender := t.nonce], 0)
  }

  /**
   Execution in a block of its own takes the transaction and then finds its value with the sender. The
   value is looked for after the gas is bought, except that a sender who is also the provider is not
   asked for both at once.
   */
  predicate Covers(head: Head, t: Tx) {
    var w, msg := Turned(head, t), MessageOf(t, false, []);
    && Gas.Refusal(w, head.gasLimit, msg).Ok?
    && t.value <= Gas.Balance(if t.provider == Some(t.sender) then w else Gas.Bought(w, msg), t.sender)
  }

  /** The pool asks exactly for what execution charges. */
  lemma PaidAsCharged(head: Head, t: Tx)
    ensures !head.Unpayable(t) <==> Covers(head, t)
  {
    assert t.Fee() == Gas.Fee(t.gas, t.price);
  }

  /**
   Apart from a sender who is its own provider: the funds are there if and only if buying the gas is
   not refused for lack of balance, whatever the block has left, the value is still there afterwards,
   and the gas is within the limit.
   */
  lemma FundsIff(head: Head, t: Tx, pool: nat, creation: bool, data: seq<bv8>)
    requires t.provider != Some(t.sender)
    ensures var w, msg := Turned(head, t), MessageOf(t, creation, data);
            !head.Unpayable(t) <==>
            && Gas.Refusal(w, pool, msg) != Gas.Err(Gas.InsufficientBalanceForGas)
            && t.value <= Gas.Balance(Gas.Bought(w, msg), t.sender) && t.gas <= head.gasLimit
  {
    assert t.Fee() == Gas.Fee(t.gas, t.price);
  }

  /** A sender who is its own provider is asked for the fee and for the value, but not for the sum. */
  lemma SelfProvidedIff(head: Head, t: Tx)
    requires t.provider == Some(t.sender)
    ensures !head.Unpayable(t) <==>
            t.price * t.gas <= head.Balance(t.sender) && t.value <= head.Balance(t.sender) && t.gas <= head.gasLimit
  {
  }

  /** The first transfer of a run fails exactly if the sender does not have the value. */
  ghost predicate Transfers(evm: Gas.Evm, value: nat) {
    forall w, m, g {:trigger evm(w, m, g)} :: evm(w, m, g).ending == Gas.NoFunds <==> value > Gas.Balance(w, m.from)
  }

  /**
   A transaction alone in a block on the head goes through if and only if the pool finds its funds and
   its gas covers the intrinsic gas, unless its sender is its own provider and lacks the sum.
   */
  lemma AppliesIff(head: Head, t: Tx, evm: Gas.Evm, creation: bool, data: seq<bv8>, homestead: bool)
    requires Transfers(evm, t.value)
    ensures var w, msg := Turned(head, t), MessageOf(t, creation, data);
            Gas.Applies(evm, w, head.gasLimit, msg, homestead) <==>
            && !head.Unpayable(t) && Gas.Intrinsic(msg, homestead) <= t.gas
            && !(t.provider == Some(t.sender) && t.price * t.gas + t.value > head.Balance(t.sender))
  {
    var w, msg := Turned(head, t), MessageOf(t, creation, data);
    assert t.Fee() == Gas.Fee(t.gas, t.price);
    if Gas.Refusal(w, head.gasLimit, msg).Ok? && Gas.Intrinsic(msg, homestead) <= msg.gas {
      var entry := Gas.Entry(w, msg);
      assert Gas.Balance(entry, t.sender) == Gas.Balance(Gas.Bought(w, msg), t.sender);
      assert Gas.Ran(evm, w, msg, homestead) == evm(entry, msg, t.gas - Gas.Intrinsic(msg, homestead));
    }
  }

  /** And then the pool finds the funds where execution does not: fee and value are 21000 each, and all it has. */
  lemma SelfProvidedFails(evm: Gas.Evm)
    requires Transfers(evm, 21000)
    ensures var head := Head(map[], map[1 := 21000], 21000);
            var t := Tx(1, 0, 21000, 1, 21000, Some(1), 0);
            && !head.Unpayable(t)
            && !Gas.Applies(evm, Turned(head, t), head.gasLimit, MessageOf(t, false, []), true)
  {
    var head := Head(map[], map[1 := 21000], 21000);
    var t := Tx(1, 0, 21000, 1, 21000, Some(1), 0);
    AppliesIff(head, t, evm, false, [], true);
  }
}
