/** Transactions and the small values the pool and its lists share. */
module TxTypes {
  import opened Values

  type Address = nat

  /** The hash of a transaction's contents: different transactions have different hashes. */
  datatype Hash = Keccak(tx: Tx)

  /**
   A signed transaction: `provider`, when present, pays the fee in place of the sender. `payload` stands
   for what the pool does not read: recipient, data and signatures.
   */
  datatype Tx = Tx(sender: Address, nonce: nat, gas: Uint64, price: nat, value: nat, provider: Option<Address>,
                   payload: nat)
  {
    const hash: Hash := Keccak(this)

    function Fee(): nat {
      price * gas
    }

    function Cost(): nat {
      Fee() + value
    }
  }

  /** The contents of a nonce-indexed transaction list. */
  type Items = map<nat, Tx>

  /** Every transaction is filed under its own nonce. */
  ghost predicate WellKeyed(items: Items) {
    forall n | n in items :: items[n].nonce == n
  }

  function Below(items: Items, threshold: nat): Items {
    map n | n in items && n < threshold :: items[n]
  }

  function From(items: Items, threshold: nat): Items {
    map n | n in items && n >= threshold :: items[n]
  }

  /** What is left of `items` without the transactions that satisfy `drop`. */
  function Without(items: Items, drop: Tx -> bool): Items {
    map n | n in items && !drop(items[n]) :: items[n]
  }

  function Only(items: Items, keep: Tx -> bool): Items {
    map n | n in items && keep(items[n]) :: items[n]
  }

  /**
   What filtering leaves: the transactions that do not satisfy `drop` and, in a strict
   list, that lie below every transaction that does.
   */
  ghost function Kept(items: Items, drop: Tx -> bool, strict: bool): Items {
    map n | n in items && !drop(items[n])
            && (strict ==> forall m | m in items && drop(items[m]) :: n < m) :: items[n]
  }

  /** `kept` holds the `k` transactions of `items` with the lowest nonces. */
  ghost predicate LowestPart(items: Items, kept: Items, k: nat) {
    && |kept| == k && kept.Keys <= items.Keys
    && (forall n | n in kept :: kept[n] == items[n])
    && (forall n, m | n in kept && m in items && m !in kept :: n < m)
  }

  /** The first nonce at or above `n` that `items` does not hold. */
  function RunEnd(items: Items, n: nat): (e: nat)
    ensures n <= e && e !in items
    ensures forall k | n <= k < e :: k in items
    decreases |items|
  {
    if n in items then
      var rest := items - {n};
      var e := RunEnd(rest, n + 1);
      assert forall k :: k in rest ==> k in items;
      assert forall k | n + 1 <= k < e :: k in rest;
      e
    else n
  }

  lemma {:induction false} LeastOf(nonces: set<nat>) returns (lo: nat)
    requires nonces != {}
    ensures lo in nonces && forall n | n in nonces :: lo <= n
  {
    lo :| lo in nonces;
    var first, rest := lo, nonces - {lo};
    if rest != {} {
      var least := LeastOf(rest);
      lo := if lo < least then lo else least;
    }
    assert forall n | n in nonces :: n == first || n in rest;
  }

  lemma {:induction false} MostOf(nonces: set<nat>) returns (hi: nat)
    requires nonces != {}
    ensures hi in nonces && forall n | n in nonces :: n <= hi
  {
    hi :| hi in nonces;
    var first, rest := hi, nonces - {hi};
    if rest != {} {
      var most := MostOf(rest);
      hi := if hi > most then hi else most;
    }
    assert forall n | n in nonces :: n == first || n in rest;
  }

  lemma HasLowest(nonces: set<nat>)
    requires nonces != {}
    ensures exists lo :: lo in nonces && forall n | n in nonces :: lo <= n
  {
    var lo := LeastOf(nonces);
  }

  method HighestNonce(items: Items) returns (hi: nat)
    requires items != map[]
    ensures hi in items && forall n | n in items :: n <= hi
  {
    var n0 :| n0 in items;
    ghost var most := MostOf(items.Keys);
    hi :| hi in items.Keys && forall n | n in items.Keys :: n <= hi;
  }

  ghost function Lowest(items: Items): (lo: nat)
    requires items != map[]
    ensures lo in items && forall n | n in items :: lo <= n
  {
    var n0 :| n0 in items;
    HasLowest(items.Keys);
    var lo :| lo in items.Keys && forall n | n in items.Keys :: lo <= n;
    lo
  }

  method LowestNonceOf(items: Items) returns (lo: nat)
    requires items != map[]
    ensures lo == Lowest(items)
  {
    var n0 :| n0 in items;
    HasLowest(items.Keys);
    lo :| lo in items.Keys && forall n | n in items.Keys :: lo <= n;
    assert Lowest(items) <= lo;
  }

  /** The items that remain after a cap to `k`. */
  ghost predicate Capped(items: Items, kept: Items, k: nat) {
    if |items| <= k then kept == items else LowestPart(items, kept, k)
  }

  /** Splits off the highest nonces beyond the first `k`. */
  method CapItems(items: Items, k: nat) returns (kept: Items, gone: Items)
    ensures Capped(items, kept, k) && Split(items, kept, gone)
  {
    kept := items;
    while |kept| > k
      invariant LowestPart(items, kept, |kept|) && (kept == items || |kept| >= k)
      decreases |kept|
    {
      var hi := HighestNonce(kept);
      LowestStep(items, kept, hi);
      kept := kept - {hi};
    }
    gone := items - kept.Keys;
    SubSplit(items, kept);
  }

  lemma LowestStep(items: Items, kept: Items, hi: nat)
    requires LowestPart(items, kept, |kept|) && hi in kept && forall n | n in kept :: n <= hi
    ensures LowestPart(items, kept - {hi}, |kept| - 1)
  {
  }

  lemma SubSplit(items: Items, kept: Items)
    requires kept.Keys <= items.Keys && forall n | n in kept :: kept[n] == items[n]
    ensures Split(items, kept, items - kept.Keys)
  {
  }

  /** Where the run that starts at the lowest nonce ends, if it starts at or below `start`; else 0. */
  ghost function ReadyEnd(items: Items, start: nat): nat {
    if items == map[] || Lowest(items) > start then 0 else RunEnd(items, Lowest(items))
  }

  /** `items` holds exactly the nonces from `lo` up to but excluding `hi`. */
  ghost predicate Contiguous(items: Items, lo: nat, hi: nat) {
    lo <= hi && forall n :: n in items <==> lo <= n < hi
  }

  /** `items` is the disjoint union of `kept` and `gone`. */
  ghost predicate Split(items: Items, kept: Items, gone: Items) {
    && kept.Keys !! gone.Keys
    && items == kept + gone
  }

  lemma SplitAt(items: Items, threshold: nat)
    ensures Split(items, From(items, threshold), Below(items, threshold))
  {
  }

  lemma SplitBy(items: Items, drop: Tx -> bool)
    ensures Split(items, Without(items, drop), Only(items, drop))
  {
  }

  /** `txs` lists the transactions of `items`, each once, in some order. */
  ghost predicate Enumerates(txs: seq<Tx>, items: Items) {
    && (forall i, j | 0 <= i < j < |txs| :: txs[i].nonce != txs[j].nonce)
    && (forall t {:trigger t in txs} :: t in txs <==> t.nonce in items && items[t.nonce] == t)
  }

  /** `txs` lists the transactions of `items` by increasing nonce. */
  ghost predicate Sorts(txs: seq<Tx>, items: Items) {
    && (forall i, j | 0 <= i < j < |txs| :: txs[i].nonce < txs[j].nonce)
    && (forall t {:trigger t in txs} :: t in txs <==> t.nonce in items && items[t.nonce] == t)
  }

  lemma {:induction false} EnumerationLength(txs: seq<Tx>, items: Items)
    requires WellKeyed(items) && Enumerates(txs, items)
    ensures |txs| == |items|
  {
    if items != map[] {
      var n :| n in items;
      assert items[n] in txs;
    }
    if txs != [] {
      var t := txs[0];
      assert t in txs;
      var rest := items - {t.nonce};
      forall u
        ensures u in txs[1..] <==> u.nonce in rest && rest[u.nonce] == u
      {
        assert txs == [t] + txs[1..];
        assert u in txs <==> u == t || u in txs[1..];
      }
      EnumerationLength(txs[1..], rest);
    }
  }

  /** Two sorted listings of the same contents are the same sequence. */
  lemma {:induction false} SortsUnique(s: seq<Tx>, t: seq<Tx>, items: Items)
    requires WellKeyed(items) && Sorts(s, items) && Sorts(t, items)
    ensures s == t
  {
    EnumerationLength(s, items);
    EnumerationLength(t, items);
    if s != [] {
      assert s[0] in s && s[0] in t && t[0] in t && t[0] in s;
      var i :| 0 <= i < |t| && t[i] == s[0];
      var j :| 0 <= j < |s| && s[j] == t[0];
      assert s[0] == t[0];
      var rest := items - {s[0].nonce};
      SortsTail(s, items);
      SortsTail(t, items);
      SortsUnique(s[1..], t[1..], rest);
      assert s == [s[0]] + s[1..] && t == [t[0]] + t[1..];
    }
  }

  lemma SortsTail(s: seq<Tx>, items: Items)
    requires WellKeyed(items) && Sorts(s, items) && s != []
    ensures s[0] in s && Sorts(s[1..], items - {s[0].nonce})
  {
    assert s == [s[0]] + s[1..];
    forall u
      ensures u in s[1..] <==> u.nonce in items - {s[0].nonce} && items[u.nonce] == u
    {
      assert u in s <==> u == s[0] || u in s[1..];
    }
  }

  /** Cutting a sorted listing where the nonces pass `threshold` lists both halves. */
  lemma SortsCut(s: seq<Tx>, items: Items, threshold: nat, k: nat)
    requires WellKeyed(items) && Sorts(s, items) && k <= |s|
    requires forall i | 0 <= i < |s| :: s[i].nonce < threshold <==> i < k
    ensures Sorts(s[..k], Below(items, threshold)) && Sorts(s[k..], From(items, threshold))
  {
    assert s == s[..k] + s[k..];
    forall u
      ensures u in s[..k] <==> u.nonce in Below(items, threshold) && items[u.nonce] == u
      ensures u in s[k..] <==> u.nonce in From(items, threshold) && items[u.nonce] == u
    {
      assert u in s <==> u in s[..k] || u in s[k..];
    }
  }

  /** `removed` lists, in order, what has been taken off the low end of `before` to leave `items`. */
  ghost predicate Shifted(before: Items, items: Items, removed: seq<Tx>) {
    && items.Keys <= before.Keys
    && (forall n | n in items :: before[n] == items[n])
    && Sorts(removed, before - items.Keys)
    && (forall t, n | t in removed && n in items :: t.nonce < n)
  }

  lemma ShiftOne(before: Items, items: Items, removed: seq<Tx>, n: nat)
    requires WellKeyed(before) && Shifted(before, items, removed) && n in items
    requires forall m | m in items && m != n :: n < m
    ensures Shifted(before, items - {n}, removed + [items[n]])
  {
    var tx := items[n];
    var more := removed + [tx];
    forall t
      ensures t in more <==> t.nonce in before && t.nonce !in items - {n} && before[t.nonce] == t
    {
      assert t in more <==> t in removed || t == tx;
    }
    forall i, j | 0 <= i < j < |more|
      ensures more[i].nonce < more[j].nonce
    {
      assert more[i] in removed;
    }
  }

  /** When everything left is at or above `threshold` and nothing removed is, the split is exact. */
  lemma ShiftedTo(before: Items, items: Items, removed: seq<Tx>, threshold: nat)
    requires WellKeyed(before) && Shifted(before, items, removed)
    requires forall n | n in items :: threshold <= n
    requires forall t | t in removed :: t.nonce < threshold
    ensures items == From(before, threshold) && Sorts(removed, Below(before, threshold))
  {
    forall n | n in before && n !in items
      ensures n < threshold
    {
      assert before[n] in removed;
    }
    assert before - items.Keys == Below(before, threshold);
  }

  lemma CutPoint(s: seq<Tx>, threshold: nat) returns (k: nat)
    requires forall i, j | 0 <= i < j < |s| :: s[i].nonce < s[j].nonce
    ensures k <= |s| && forall i | 0 <= i < |s| :: s[i].nonce < threshold <==> i < k
  {
    k := 0;
    while k < |s| && s[k].nonce < threshold
      invariant k <= |s| && forall i | 0 <= i < k :: s[i].nonce < threshold
    {
      k := k + 1;
    }
  }

  /** Dropping from a full listing as many entries as were removed lists what is left. */
  lemma ListingShifted(s: seq<Tx>, before: Items, removed: seq<Tx>, threshold: nat)
    requires WellKeyed(before) && Sorts(s, before) && Sorts(removed, Below(before, threshold))
    ensures |removed| <= |s| && Sorts(s[|removed|..], From(before, threshold))
  {
    var k := CutPoint(s, threshold);
    SortsCut(s, before, threshold, k);
    SortsUnique(removed, s[..k], Below(before, threshold));
  }

  lemma Enumerate(removed: seq<Tx>, before: Items, left: set<nat>, n: nat)
    requires WellKeyed(before) && n in before && n in left && left <= before.Keys
    requires Enumerates(removed, before - left)
    ensures Enumerates(removed + [before[n]], before - (left - {n}))
  {
    var more := removed + [before[n]];
    forall t
      ensures t in more <==> t.nonce in before - (left - {n}) && before[t.nonce] == t
    {
      assert t in more <==> t in removed || t == before[n];
    }
    forall i, j | 0 <= i < j < |more|
      ensures more[i].nonce != more[j].nonce
    {
      assert more[i] in removed;
    }
  }

  ghost predicate Mirrors(drops: seq<Tx>, s: seq<Tx>) {
    |drops| == |s| && forall i | 0 <= i < |s| :: drops[i] == s[|s| - 1 - i]
  }

  lemma MirrorEnumerates(drops: seq<Tx>, s: seq<Tx>, items: Items)
    requires Mirrors(drops, s) && Sorts(s, items)
    ensures Enumerates(drops, items)
    ensures forall i, j | 0 <= i < j < |drops| :: drops[i].nonce > drops[j].nonce
  {
    forall t
      ensures t in drops <==> t in s
    {
      if t in s {
        var i :| 0 <= i < |s| && s[i] == t;
        assert drops[|s| - 1 - i] == t;
      }
    }
  }

  /** Listing a map along its sorted keys gives its sorted listing. */
  lemma KeysSorted(s: seq<Tx>, keys: seq<nat>, items: Items)
    requires WellKeyed(items) && multiset(keys) == multiset(items.Keys)
    requires forall i, j | 0 <= i < j < |keys| :: keys[i] <= keys[j]
    requires |s| == |keys| && forall i | 0 <= i < |keys| :: keys[i] in items && s[i] == items[keys[i]]
    ensures Sorts(s, items)
  {
    forall i, j | 0 <= i < j < |keys|
      ensures keys[i] != keys[j]
    {
      CountTwice(keys, i, j);
    }
    forall t
      ensures t in s <==> t.nonce in items && items[t.nonce] == t
    {
      if t.nonce in items && items[t.nonce] == t {
        assert t.nonce in multiset(keys);
        var i :| 0 <= i < |keys| && keys[i] == t.nonce;
        assert s[i] == t;
      }
    }
  }

  /** Sorting an enumeration by nonce gives the sorted listing. */
  lemma EnumerationSorted(s: seq<Tx>, listed: seq<Tx>, items: Items)
    requires WellKeyed(items) && Enumerates(listed, items) && multiset(s) == multiset(listed)
    requires forall i, j | 0 <= i < j < |s| :: s[i].nonce <= s[j].nonce
    ensures Sorts(s, items)
  {
    forall t
      ensures t in s <==> t in listed
    {
      assert t in s <==> t in multiset(s);
      assert t in listed <==> t in multiset(listed);
    }
    forall i, j | 0 <= i < j < |s|
      ensures s[i].nonce != s[j].nonce
    {
      if s[i].nonce == s[j].nonce {
        assert s[i] in s && s[j] in s;
        assert s[i] == s[j];
        CountTwice(s, i, j);
        NoDuplicates(listed, s[i]);
      }
    }
  }

  lemma CountTwice<T>(s: seq<T>, i: nat, j: nat)
    requires i < j < |s|
    ensures s[i] == s[j] ==> multiset(s)[s[i]] >= 2
  {
    assert s == s[..i] + [s[i]] + s[i + 1..j] + [s[j]] + s[j + 1..];
  }

  lemma {:induction false} NoDuplicates(s: seq<Tx>, t: Tx)
    requires forall i, j | 0 <= i < j < |s| :: s[i] != s[j]
    ensures multiset(s)[t] <= 1
  {
    if s != [] {
      assert s == [s[0]] + s[1..];
      NoDuplicates(s[1..], t);
      if s[0] == t {
        assert t !in s[1..];
      }
    }
  }

  /** Below the nonce at position `size` there is nothing above the nonce at position `size - 1`. */
  lemma NothingBetween(s: seq<Tx>, items: Items, size: nat)
    requires WellKeyed(items) && Sorts(s, items) && 0 < size <= |s|
    ensures s[size - 1] in s
    ensures forall n | n in items && (size == |s| || n < s[size].nonce) :: n <= s[size - 1].nonce
  {
    forall n | n in items && (size == |s| || n < s[size].nonce)
      ensures n <= s[size - 1].nonce
    {
      assert items[n] in s;
      var i :| 0 <= i < |s| && s[i] == items[n];
    }
  }

  /** What a cap to `k` leaves, read off the sorted listing. */
  lemma CapKeeps(s: seq<Tx>, items: Items, k: nat)
    requires WellKeyed(items) && Sorts(s, items) && k < |s|
    ensures var kept := Below(items, s[k].nonce);
            Sorts(s[..k], kept) && LowestPart(items, kept, k) && Sorts(s[k..], items - kept.Keys)
  {
    var kept := Below(items, s[k].nonce);
    SortsCut(s, items, s[k].nonce, k);
    EnumerationLength(s[..k], kept);
    assert items - kept.Keys == From(items, s[k].nonce);
  }

  lemma {:induction false} KeysOfListing(s: seq<Tx>, keys: seq<nat>, items: Items)
    requires WellKeyed(items) && Sorts(s, items) && |s| == |keys|
    requires forall i | 0 <= i < |s| :: s[i].nonce == keys[i]
    ensures multiset(keys) == multiset(items.Keys)
  {
    if s == [] {
      assert forall n | n in items :: items[n] in s;
      assert items.Keys == {};
    } else {
      SortsTail(s, items);
      KeysOfListing(s[1..], keys[1..], items - {keys[0]});
      assert keys == [keys[0]] + keys[1..];
      assert (items - {keys[0]}).Keys == items.Keys - {keys[0]};
    }
  }

  /** The transactions with nonces `n`, `n + 1`, ... up to the first gap. */
  function Run(items: Items, n: nat): seq<Tx>
    decreases |items|
  {
    if n in items then [items[n]] + Run(items - {n}, n + 1) else []
  }

  function AfterRun(items: Items, n: nat): Items
    decreases |items|
  {
    if n in items then AfterRun(items - {n}, n + 1) else items
  }

  lemma RunStep(items: Items, n: nat)
    requires n in items
    ensures Run(items, n) == [items[n]] + Run(items - {n}, n + 1) && AfterRun(items, n) == AfterRun(items - {n}, n + 1)
  {
  }

  /** A run from the lowest nonce is a sorted listing of everything below its end. */
  lemma {:induction false} RunIsPrefix(items: Items, lo: nat)
    requires WellKeyed(items) && forall n | n in items :: lo <= n
    ensures AfterRun(items, lo) == From(items, RunEnd(items, lo))
    ensures Sorts(Run(items, lo), Below(items, RunEnd(items, lo)))
    decreases |items|
  {
    var e := RunEnd(items, lo);
    if lo in items {
      var rest := items - {lo};
      RunIsPrefix(rest, lo + 1);
      assert From(items, e) == From(rest, e);
      SortsCons(items[lo], Run(rest, lo + 1), Below(rest, e), Below(items, e));
    } else {
      assert From(items, lo) == items;
    }
  }

  lemma SortsCons(t: Tx, s: seq<Tx>, rest: Items, items: Items)
    requires WellKeyed(rest) && Sorts(s, rest) && forall n | n in rest :: t.nonce < n
    requires items == rest[t.nonce := t]
    ensures Sorts([t] + s, items)
  {
    var all := [t] + s;
    forall u
      ensures u in all <==> u.nonce in items && items[u.nonce] == u
    {
      assert u in all <==> u == t || u in s;
    }
    forall i, j | 0 <= i < j < |all|
      ensures all[i].nonce < all[j].nonce
    {
      assert all[j] in s;
    }
  }
}
