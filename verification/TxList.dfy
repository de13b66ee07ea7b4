/**
 The per-account transaction list of core/tx_list.go. A strict list holds consecutive
 nonces; `costcap` and `gascap` bound every transaction and let `Filter` skip work.
 */
module TxLists {
  import opened Values
  import opened TxTypes
  import opened TxRuns
  import opened TxSortedMaps

  /** The price test a replacement must pass: higher, and by at least `bump` percent. */
  predicate Outbids(prior: Tx, tx: Tx, bump: nat) {
    prior.price < tx.price && prior.price * (100 + bump) / 100 <= tx.price
  }

  /** In hundredths of the old price, the new one may fall short of the bump by less than one unit. */
  lemma OutbidsIff(prior: Tx, tx: Tx, bump: nat)
    ensures Outbids(prior, tx, bump) <==>
              tx.price > prior.price && 100 * (tx.price + 1) > (100 + bump) * prior.price
  {
    var raised := prior.price * (100 + bump);
    assert raised == raised / 100 * 100 + raised % 100;
  }

  function TooCostly(costLimit: nat, gasLimit: nat): Tx -> bool {
    (tx: Tx) => tx.Cost() > costLimit || tx.gas > gasLimit
  }

  class TxList {
    const strict: bool
    const txs: TxSortedMap
    var costcap: nat
    var gascap: nat

    ghost predicate Valid()
      reads this, txs
    {
      txs.Valid() && forall n | n in txs.items :: txs.items[n].Cost() <= costcap && txs.items[n].gas <= gascap
    }

    constructor (strict: bool)
      ensures Valid() && fresh(txs) && this.strict == strict && txs.items == map[]
    {
      this.strict, costcap, gascap := strict, 0, 0;
      txs := new TxSortedMap();
    }

    method Overlaps(tx: Tx) returns (r: bool)
      ensures r <==> tx.nonce in txs.items
    {
      var prior := txs.Get(tx.nonce);
      r := prior.Some?;
    }

    method Add(tx: Tx, priceBump: nat) returns (accepted: bool, replaced: Option<Tx>)
      requires Valid()
      modifies this, txs
      ensures Valid()
      ensures accepted <==> (tx.nonce in old(txs.items) ==> Outbids(old(txs.items)[tx.nonce], tx, priceBump))
      ensures txs.items == if accepted then old(txs.items)[tx.nonce := tx] else old(txs.items)
      ensures replaced == if accepted && tx.nonce in old(txs.items) then Some(old(txs.items)[tx.nonce]) else None
      ensures forall lo | Contiguous(old(txs.items), lo, tx.nonce) :: Contiguous(txs.items, lo, tx.nonce + 1)
    {
      RunsAppend(txs.items, tx);
      replaced := txs.Get(tx.nonce);
      if replaced.Some? {
        var threshold := replaced.value.price * (100 + priceBump) / 100;
        if replaced.value.price >= tx.price || threshold > tx.price {
          return false, None;
        }
      }
      txs.Put(tx);
      if costcap < tx.Cost() {
        costcap := tx.Cost();
      }
      if gascap < tx.gas {
        gascap := tx.gas;
      }
      accepted := true;
    }

    method Forward(threshold: nat) returns (removed: seq<Tx>)
      requires Valid()
      modifies txs
      ensures Valid() && txs.items == From(old(txs.items), threshold)
      ensures Sorts(removed, Below(old(txs.items), threshold))
      ensures forall lo: nat, hi: nat | Contiguous(old(txs.items), lo, hi) ::
                Contiguous(txs.items, Max(lo, threshold), Max(hi, threshold))
    {
      RunsForward(txs.items, threshold);
      removed := txs.Forward(threshold);
    }

    /** Filters every transaction, and in a strict list whatever the gaps invalidate. */
    method Sweep(drop: Tx -> bool) returns (removed: seq<Tx>, invalids: seq<Tx>)
      requires txs.Valid()
      modifies txs
      ensures txs.Valid() && txs.items == Kept(old(txs.items), drop, strict)
      ensures Enumerates(removed, Only(old(txs.items), drop))
      ensures Enumerates(invalids, Without(old(txs.items), drop) - txs.items.Keys)
    {
      removed := txs.Filter(drop);
      invalids := [];
      if strict && removed != [] {
        var lowest := LowestNonce(removed);
        StrictCut(old(txs.items), drop, removed, lowest);
        invalids := txs.Filter((tx: Tx) => tx.nonce > lowest);
        FilteredRest(Without(old(txs.items), drop), (tx: Tx) => tx.nonce > lowest);
      } else {
        NothingInvalid(old(txs.items), drop, strict, removed);
      }
    }

    /** The caps only ever save work: the outcome is that of filtering every transaction. */
    method Filter(costLimit: nat, gasLimit: nat) returns (removed: seq<Tx>, invalids: seq<Tx>)
      requires Valid()
      modifies this, txs
      ensures Valid() && txs.items == Kept(old(txs.items), TooCostly(costLimit, gasLimit), strict)
      ensures Enumerates(removed, Only(old(txs.items), TooCostly(costLimit, gasLimit)))
      ensures Enumerates(invalids, Without(old(txs.items), TooCostly(costLimit, gasLimit)) - txs.items.Keys)
      ensures strict ==> forall lo: nat, hi: nat | Contiguous(old(txs.items), lo, hi) :: StartsAt(txs.items, lo, hi)
    {
      var drop := TooCostly(costLimit, gasLimit);
      RunsKept(txs.items, drop);
      if costcap <= costLimit && gascap <= gasLimit {
        removed, invalids := [], [];
        NothingDropped(txs.items, drop, strict);
      } else {
        costcap, gascap := costLimit, gasLimit;
        removed, invalids := Sweep(drop);
      }
    }

    method Cap(threshold: nat) returns (drops: seq<Tx>)
      requires Valid()
      modifies txs
      ensures Valid()
      ensures if |old(txs.items)| <= threshold then txs.items == old(txs.items)
              else LowestPart(old(txs.items), txs.items, threshold)
      ensures Enumerates(drops, old(txs.items) - txs.items.Keys)
      ensures forall lo: nat, hi: nat | Contiguous(old(txs.items), lo, hi) ::
                Contiguous(txs.items, lo, if hi < lo + threshold then hi else lo + threshold)
    {
      drops := txs.Cap(threshold);
      RunsCapped(old(txs.items), txs.items, threshold);
    }

    method Remove(tx: Tx) returns (found: bool, invalids: seq<Tx>)
      requires Valid()
      modifies txs
      ensures Valid() && found == (tx.nonce in old(txs.items))
      ensures txs.items == if found && strict then Below(old(txs.items), tx.nonce) else old(txs.items) - {tx.nonce}
      ensures Enumerates(invalids, old(txs.items) - {tx.nonce} - txs.items.Keys)
      ensures found && strict ==>
                forall lo: nat, hi: nat | Contiguous(old(txs.items), lo, hi) :: Contiguous(txs.items, lo, tx.nonce)
    {
      RunsBelow(txs.items, tx.nonce);
      invalids := [];
      found := txs.Remove(tx.nonce);
      if found && strict {
        invalids := txs.Filter((t: Tx) => t.nonce > tx.nonce);
      }
    }

    method Ready(start: nat) returns (ready: seq<Tx>)
      requires Valid()
      modifies txs
      ensures Valid() && txs.items == From(old(txs.items), ReadyEnd(old(txs.items), start))
      ensures Sorts(ready, Below(old(txs.items), ReadyEnd(old(txs.items), start)))
    {
      ready := txs.Ready(start);
    }
  }

  /** A contiguous list that starts where another did and ends no later. */
  ghost predicate StartsAt(items: Items, lo: nat, hi: nat) {
    exists cut :: lo <= cut <= hi && Contiguous(items, lo, cut)
  }

  lemma RunsAppend(items: Items, tx: Tx)
    ensures forall lo | Contiguous(items, lo, tx.nonce) ::
              tx.nonce !in items && Contiguous(items[tx.nonce := tx], lo, tx.nonce + 1)
  {
    forall lo | Contiguous(items, lo, tx.nonce)
      ensures Contiguous(items[tx.nonce := tx], lo, tx.nonce + 1)
    {
      RunAppend(items, lo, tx.nonce, tx);
    }
  }

  lemma RunsForward(items: Items, threshold: nat)
    ensures forall lo: nat, hi: nat | Contiguous(items, lo, hi) ::
              Contiguous(From(items, threshold), Max(lo, threshold), Max(hi, threshold))
  {
    forall lo: nat, hi: nat | Contiguous(items, lo, hi)
      ensures Contiguous(From(items, threshold), Max(lo, threshold), Max(hi, threshold))
    {
      RunForward(items, lo, hi, threshold);
    }
  }

  lemma RunsKept(items: Items, drop: Tx -> bool)
    ensures forall lo: nat, hi: nat | Contiguous(items, lo, hi) :: StartsAt(Kept(items, drop, true), lo, hi)
  {
    forall lo: nat, hi: nat | Contiguous(items, lo, hi)
      ensures StartsAt(Kept(items, drop, true), lo, hi)
    {
      var cut := RunKept(items, lo, hi, drop);
    }
  }

  lemma RunsCapped(items: Items, kept: Items, k: nat)
    requires if |items| <= k then kept == items else LowestPart(items, kept, k)
    ensures forall lo: nat, hi: nat | Contiguous(items, lo, hi) ::
              Contiguous(kept, lo, if hi < lo + k then hi else lo + k)
  {
    forall lo: nat, hi: nat | Contiguous(items, lo, hi)
      ensures Contiguous(kept, lo, if hi < lo + k then hi else lo + k)
    {
      RunSize(items, lo, hi);
      if |items| > k {
        RunLowest(items, lo, hi, kept, k);
      }
    }
  }

  lemma RunsBelow(items: Items, cut: nat)
    ensures forall lo: nat, hi: nat | Contiguous(items, lo, hi) && cut in items ::
              Contiguous(Below(items, cut), lo, cut)
  {
    forall lo: nat, hi: nat | Contiguous(items, lo, hi) && cut in items
      ensures Contiguous(Below(items, cut), lo, cut)
    {
      RunBelow(items, lo, hi, cut);
    }
  }

  method LowestNonce(txs: seq<Tx>) returns (lowest: nat)
    requires txs != []
    ensures (exists t :: t in txs && t.nonce == lowest) && forall t | t in txs :: lowest <= t.nonce
  {
    lowest := txs[0].nonce;
    for k := 0 to |txs|
      invariant exists t :: t in txs && t.nonce == lowest
      invariant forall i | 0 <= i < k :: lowest <= txs[i].nonce
    {
      if lowest > txs[k].nonce {
        lowest := txs[k].nonce;
      }
    }
  }

  lemma StrictCut(items: Items, drop: Tx -> bool, removed: seq<Tx>, lowest: nat)
    requires WellKeyed(items) && Enumerates(removed, Only(items, drop))
    requires (exists t :: t in removed && t.nonce == lowest) && forall t | t in removed :: lowest <= t.nonce
    ensures Kept(items, drop, true) == Without(Without(items, drop), (tx: Tx) => tx.nonce > lowest)
  {
    forall m | m in items && drop(items[m])
      ensures lowest <= m
    {
      assert items[m] in removed;
    }
  }

  lemma FilteredRest(items: Items, drop: Tx -> bool)
    ensures Only(items, drop) == items - Without(items, drop).Keys
  {
  }

  lemma NothingInvalid(items: Items, drop: Tx -> bool, strict: bool, removed: seq<Tx>)
    requires WellKeyed(items) && Enumerates(removed, Only(items, drop)) && (strict ==> removed == [])
    ensures Kept(items, drop, strict) == Without(items, drop)
    ensures Without(items, drop) - Without(items, drop).Keys == map[]
  {
    assert forall m | m in items && drop(items[m]) :: items[m] in removed;
  }

  lemma NothingDropped(items: Items, drop: Tx -> bool, strict: bool)
    requires forall n | n in items :: !drop(items[n])
    ensures items == Kept(items, drop, strict) == Without(items, drop)
    ensures Only(items, drop) == map[] && Without(items, drop) - items.Keys == map[]
  {
  }
}
