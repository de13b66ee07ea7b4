/** Contiguous nonce ranges, and what the list operations do to them. */
module TxRuns {
  import opened Values
  import opened TxTypes

  lemma {:induction false} RunSize(items: Items, lo: nat, hi: nat)
    requires Contiguous(items, lo, hi)
    ensures |items| == hi - lo
    decreases hi
  {
    if lo == hi {
      assert items == map[];
    } else {
      RunSize(items - {hi - 1}, lo, hi - 1);
    }
  }

  lemma RunForward(items: Items, lo: nat, hi: nat, threshold: nat)
    requires Contiguous(items, lo, hi)
    ensures Contiguous(From(items, threshold), Max(lo, threshold), Max(hi, threshold))
  {
  }

  lemma RunBelow(items: Items, lo: nat, hi: nat, cut: nat)
    requires Contiguous(items, lo, hi) && lo <= cut <= hi
    ensures Contiguous(Below(items, cut), lo, cut) && Contiguous(From(items, cut), cut, hi)
  {
  }

  lemma RunAppend(items: Items, lo: nat, hi: nat, tx: Tx)
    requires Contiguous(items, lo, hi)
    ensures Contiguous(items[hi := tx], lo, hi + 1)
  {
  }

  lemma RunJoin(x: Items, y: Items, lo: nat, mid: nat, hi: nat)
    requires Contiguous(x, lo, mid) && Contiguous(y, mid, hi)
    ensures Contiguous(x + y, lo, hi)
  {
  }

  /** Strict filtering cuts a contiguous list at the first transaction it drops. */
  lemma RunKept(items: Items, lo: nat, hi: nat, drop: Tx -> bool) returns (cut: nat)
    requires Contiguous(items, lo, hi)
    ensures lo <= cut <= hi && Contiguous(Kept(items, drop, true), lo, cut)
    ensures cut < hi ==> cut in items && drop(items[cut])
  {
    cut := lo;
    while cut < hi && !drop(items[cut])
      invariant lo <= cut <= hi && forall n | lo <= n < cut :: !drop(items[n])
    {
      cut := cut + 1;
    }
  }

  /** The lowest part of a contiguous list is a shorter contiguous list with the same start. */
  lemma RunLowest(items: Items, lo: nat, hi: nat, kept: Items, k: nat)
    requires Contiguous(items, lo, hi) && LowestPart(items, kept, k)
    ensures lo + k <= hi && Contiguous(kept, lo, lo + k)
  {
    var cut := lo;
    while cut < hi && cut in kept
      invariant lo <= cut <= hi && forall n | lo <= n < cut :: n in kept
    {
      cut := cut + 1;
    }
    assert forall n | n in kept :: n < cut;
    assert Contiguous(kept, lo, cut);
    RunSize(kept, lo, cut);
  }

  /** Removing the highest transaction of a contiguous list shortens it by one. */
  lemma RunDropLast(items: Items, lo: nat, hi: nat, n: nat)
    requires Contiguous(items, lo, hi) && n in items && forall m | m in items :: m <= n
    ensures n == hi - 1 && Contiguous(items - {n}, lo, n)
  {
    assert hi - 1 in items;
  }
}
