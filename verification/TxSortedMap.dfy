/** Go's `sort.Sort` by an integer key: any implementation meeting this contract will do. */
module Sorting {

  ghost predicate SortedBy<T>(key: T -> int, s: seq<T>) {
    forall i, j | 0 <= i < j < |s| :: key(s[i]) <= key(s[j])
  }

  method Sort<T>(key: T -> int, s: seq<T>) returns (r: seq<T>)
    ensures SortedBy(key, r) && multiset(r) == multiset(s)
  {
    r := [];
    for k := 0 to |s|
      invariant SortedBy(key, r) && multiset(r) == multiset(s[..k])
    {
      r := Insert(key, r, s[k]);
      assert s[..k + 1] == s[..k] + [s[k]];
    }
    assert s[..|s|] == s;
  }

  method Insert<T>(key: T -> int, s: seq<T>, x: T) returns (r: seq<T>)
    requires SortedBy(key, s)
    ensures SortedBy(key, r) && multiset(r) == multiset(s) + multiset{x}
  {
    var i := |s|;
    while i > 0 && key(x) < key(s[i - 1])
      invariant 0 <= i <= |s|
      invariant forall k | i <= k < |s| :: key(x) < key(s[k])
    {
      i := i - 1;
    }
    r := s[..i] + [x] + s[i..];
    assert PutAt(s, i, x, r);
    PutSorted(key, s, i, x, r);
    PutMultiset(s, i, x);
  }

  /** `x` put before position `i` of `s`. */
  ghost predicate PutAt<T>(s: seq<T>, i: nat, x: T, r: seq<T>) {
    && i <= |s| && |r| == |s| + 1 && r[i] == x
    && (forall j | 0 <= j < i :: r[j] == s[j]) && forall j | i < j < |r| :: r[j] == s[j - 1]
  }

  lemma PutSorted<T>(key: T -> int, s: seq<T>, i: nat, x: T, r: seq<T>)
    requires SortedBy(key, s) && PutAt(s, i, x, r) && (i > 0 ==> key(s[i - 1]) <= key(x))
    requires forall k | i <= k < |s| :: key(x) < key(s[k])
    ensures SortedBy(key, r)
  {
    forall j, k | 0 <= j < k < |r|
      ensures key(r[j]) <= key(r[k])
    {
      if k == i {
        assert j < i - 1 ==> key(s[j]) <= key(s[i - 1]);
      }
    }
  }

  lemma PutMultiset<T>(s: seq<T>, i: nat, x: T)
    requires i <= |s|
    ensures multiset(s[..i] + [x] + s[i..]) == multiset(s) + multiset{x}
  {
    assert s == s[..i] + s[i..];
    assert multiset(s) == multiset(s[..i]) + multiset(s[i..]);
  }
}

/**
 The nonce-sorted transaction map of core/tx_list.go: a map, a heap of its nonces and a
 cached sorted listing. `Valid` says that the three agree; each operation is stated on
 the map alone.
 */
module TxSortedMaps {
  import opened Values
  import opened TxTypes
  import BinaryHeap
  import Sorting

  function NonceKey(n: nat): BinaryHeap.Key {
    (n, 0)
  }

  lemma KeysAfterPut(items: Items, tx: Tx)
    ensures multiset(items[tx.nonce := tx].Keys) == multiset(items.Keys) + if tx.nonce in items then multiset{}
              else multiset{tx.nonce}
  {
    assert items[tx.nonce := tx].Keys == items.Keys + {tx.nonce};
  }

  class TxSortedMap {
    var items: Items
    var index: seq<nat>
    var cache: Option<seq<Tx>>

    ghost predicate IndexValid()
      reads this
    {
      && WellKeyed(items)
      && BinaryHeap.IsHeap(NonceKey, index)
      && multiset(index) == multiset(items.Keys)
    }

    ghost predicate Valid()
      reads this
    {
      IndexValid() && (cache.Some? ==> Sorts(cache.value, items))
    }

    constructor ()
      ensures Valid() && items == map[] && cache.None?
    {
      items, index, cache := map[], [], None;
    }

    method Get(nonce: nat) returns (tx: Option<Tx>)
      ensures tx == if nonce in items then Some(items[nonce]) else None
    {
      tx := if nonce in items then Some(items[nonce]) else None;
    }

    method Put(tx: Tx)
      requires Valid()
      modifies this
      ensures Valid() && items == old(items)[tx.nonce := tx]
    {
      KeysAfterPut(items, tx);
      if tx.nonce !in items {
        index := BinaryHeap.Push(NonceKey, index, tx.nonce);
      }
      items, cache := items[tx.nonce := tx], None;
    }

    /** Pops the root of the heap together with its transaction. */
    method PopLowest() returns (tx: Tx)
      requires IndexValid() && index != []
      modifies `items, `index
      ensures IndexValid() && old(index[0]) in old(items) && tx == old(items)[old(index[0])]
      ensures items == old(items) - {old(index[0])} && forall n | n in items :: old(index[0]) < n
    {
      LowestIsRoot();
      var nonce;
      nonce, index := BinaryHeap.Pop(NonceKey, index);
      tx := items[nonce];
      assert (items - {nonce}).Keys == items.Keys - {nonce};
      items := items - {nonce};
    }

    /** Pops every nonce below `threshold`, in order. */
    method PopBelow(threshold: nat) returns (removed: seq<Tx>)
      requires IndexValid()
      modifies `items, `index
      ensures IndexValid() && items == From(old(items), threshold)
      ensures Sorts(removed, Below(old(items), threshold))
    {
      removed := [];
      while index != [] && index[0] < threshold
        invariant IndexValid() && Shifted(old(items), items, removed)
        invariant forall t | t in removed :: t.nonce < threshold
        decreases |items|
      {
        LowestIsRoot();
        ShiftOne(old(items), items, removed, index[0]);
        var tx := PopLowest();
        removed := removed + [tx];
      }
      LowestIsRoot();
      ShiftedTo(old(items), items, removed, threshold);
    }

    method Forward(threshold: nat) returns (removed: seq<Tx>)
      requires Valid()
      modifies this
      ensures Valid() && items == From(old(items), threshold)
      ensures Sorts(removed, Below(old(items), threshold))
    {
      removed := PopBelow(threshold);
      if cache.Some? {
        ListingShifted(cache.value, old(items), removed, threshold);
        cache := Some(cache.value[|removed|..]);
      }
    }

    /** Rebuilds the heap from the map, in whatever order the map is ranged over. */
    method Reindex()
      requires WellKeyed(items)
      modifies `index
      ensures IndexValid()
    {
      var nonces: seq<nat> := [];
      var todo := items.Keys;
      while todo != {}
        invariant todo <= items.Keys && multiset(nonces) == multiset(items.Keys - todo)
      {
        var nonce :| nonce in todo;
        nonces, todo := nonces + [nonce], todo - {nonce};
      }
      index := BinaryHeap.Init(NonceKey, nonces);
    }

    method RemoveTxs(nonces: seq<nat>)
      requires Valid()
      modifies this
      ensures Valid() && items == old(items) - (set n | n in nonces)
      ensures nonces == [] ==> cache == old(cache)
    {
      if nonces == [] {
        return;
      }
      for k := 0 to |nonces|
        invariant WellKeyed(items) && items == old(items) - (set n | n in nonces[..k])
      {
        items := items - {nonces[k]};
        assert nonces[..k + 1] == nonces[..k] + [nonces[k]];
      }
      assert nonces[..|nonces|] == nonces;
      Reindex();
      cache := None;
    }

    /** Deletes from the map alone every transaction that satisfies `drop`. */
    method Collect(drop: Tx -> bool) returns (removed: seq<Tx>)
      requires WellKeyed(items)
      modifies `items
      ensures WellKeyed(items) && items == Without(old(items), drop)
      ensures Enumerates(removed, Only(old(items), drop))
      ensures removed == [] ==> items == old(items)
    {
      removed := [];
      var todo := items.Keys;
      while todo != {}
        invariant todo <= items.Keys && WellKeyed(items)
        invariant items == map n | n in old(items) && (n in todo || !drop(old(items)[n])) :: old(items)[n]
        invariant Enumerates(removed, old(items) - items.Keys)
        invariant removed == [] ==> items == old(items)
      {
        var nonce :| nonce in todo;
        todo := todo - {nonce};
        if drop(items[nonce]) {
          Enumerate(removed, old(items), items.Keys, nonce);
          removed := removed + [items[nonce]];
          items := items - {nonce};
        }
      }
      assert old(items) - items.Keys == Only(old(items), drop);
    }

    method Filter(drop: Tx -> bool) returns (removed: seq<Tx>)
      requires Valid()
      modifies this
      ensures Valid() && items == Without(old(items), drop)
      ensures Enumerates(removed, Only(old(items), drop))
    {
      removed := Collect(drop);
      if removed != [] {
        Reindex();
        cache := None;
      }
    }

    /** Deletes the entries of a sorted index from position `threshold` on, highest first. */
    method DropAbove(threshold: nat, ghost s: seq<Tx>) returns (drops: seq<Tx>)
      requires WellKeyed(items) && Sorts(s, items) && threshold < |s| == |index|
      requires forall i | 0 <= i < |s| :: s[i].nonce == index[i]
      modifies `items
      ensures items == Below(old(items), s[threshold].nonce) && Mirrors(drops, s[threshold..])
    {
      drops := [];
      var size := |index|;
      while size > threshold
        invariant threshold <= size <= |s|
        invariant forall n :: n in items <==> n in old(items) && (size == |s| || n < s[size].nonce)
        invariant forall n | n in items :: items[n] == old(items)[n]
        invariant Mirrors(drops, s[size..])
      {
        NothingBetween(s, old(items), size);
        size := size - 1;
        drops := drops + [items[index[size]]];
        items := items - {index[size]};
      }
    }

    method Cap(threshold: nat) returns (drops: seq<Tx>)
      requires Valid()
      modifies this
      ensures Valid()
      ensures if |old(items)| <= threshold then items == old(items) && drops == []
              else LowestPart(old(items), items, threshold)
      ensures Enumerates(drops, old(items) - items.Keys)
      ensures forall i, j | 0 <= i < j < |drops| :: drops[i].nonce > drops[j].nonce
    {
      if |items| <= threshold {
        return [];
      }
      index := Sorting.Sort((n: nat) => n, index);
      ghost var s := IndexListing();
      drops := DropAbove(threshold, s);
      CapKeeps(s, old(items), threshold);
      MirrorEnumerates(drops, s[threshold..], old(items) - items.Keys);
      IndexPrefix(threshold, s);
      index := BinaryHeap.Init(NonceKey, index[..threshold]);
      if cache.Some? {
        SortsUnique(cache.value, s, old(items));
        cache := Some(cache.value[..|cache.value| - |drops|]);
      }
    }

    lemma IndexListing() returns (s: seq<Tx>)
      requires WellKeyed(items) && multiset(index) == multiset(items.Keys)
      requires Sorting.SortedBy((n: nat) => n, index)
      ensures Sorts(s, items) && |s| == |index| == |items|
      ensures forall i | 0 <= i < |s| :: s[i].nonce == index[i]
    {
      forall i | 0 <= i < |index|
        ensures index[i] in items
      {
        assert index[i] in multiset(index);
      }
      var keys, all := index, items;
      s := seq(|keys|, i requires 0 <= i < |keys| && keys[i] in all => all[keys[i]]);
      KeysSorted(s, index, items);
      EnumerationLength(s, items);
    }

    lemma IndexPrefix(k: nat, s: seq<Tx>)
      requires k < |s| == |index| && Sorts(s[..k], items)
      requires forall i | 0 <= i < |s| :: s[i].nonce == index[i]
      requires WellKeyed(items)
      ensures multiset(index[..k]) == multiset(items.Keys)
    {
      KeysOfListing(s[..k], index[..k], items);
    }

    method FindNonce(nonce: nat) returns (i: nat)
      requires nonce in index
      ensures i < |index| && index[i] == nonce
    {
      i := 0;
      while index[i] != nonce
        invariant i < |index| && nonce in index[i..]
        decreases |index| - i
      {
        assert index[i..] == [index[i]] + index[i + 1..];
        i := i + 1;
      }
    }

    method Remove(nonce: nat) returns (found: bool)
      requires Valid()
      modifies this
      ensures Valid() && items == old(items) - {nonce} && found == (nonce in old(items))
    {
      found := nonce in items;
      if found {
        assert nonce in multiset(index);
        var i := FindNonce(nonce);
        index := BinaryHeap.Remove(NonceKey, index, i);
        assert (items - {nonce}).Keys == items.Keys - {nonce};
        items, cache := items - {nonce}, None;
      }
    }

    method Ready(start: nat) returns (ready: seq<Tx>)
      requires Valid()
      modifies this
      ensures Valid()
      ensures items == From(old(items), ReadyEnd(old(items), start))
      ensures Sorts(ready, Below(old(items), ReadyEnd(old(items), start)))
    {
      LowestIsRoot();
      if index == [] || index[0] > start {
        assert From(items, 0) == items;
        return [];
      }
      assert Lowest(items) == index[0] && ReadyEnd(items, start) == RunEnd(items, index[0]);
      RunIsPrefix(items, index[0]);
      ready := PopRun();
      cache := None;
    }

    /** Pops the run of consecutive nonces that starts at the root. */
    method PopRun() returns (ready: seq<Tx>)
      requires IndexValid() && index != []
      modifies `items, `index
      ensures IndexValid()
      ensures ready == Run(old(items), old(index[0])) && items == AfterRun(old(items), old(index[0]))
    {
      LowestIsRoot();
      var next: nat := index[0];
      ghost var all, first := items, next;
      ready := [];
      while index != [] && index[0] == next
        invariant IndexValid()
        invariant ready + Run(items, next) == Run(all, first) && AfterRun(items, next) == AfterRun(all, first)
        invariant forall n | n in items :: next <= n
        decreases |items|
      {
        LowestIsRoot();
        RunStep(items, next);
        ghost var rest := Run(items - {next}, next + 1);
        var tx := PopLowest();
        assert ready + ([tx] + rest) == ready + [tx] + rest;
        ready, next := ready + [tx], next + 1;
      }
      LowestIsRoot();
      assert next !in items && Run(items, next) == [] && AfterRun(items, next) == items;
    }

    method Flatten() returns (txs: seq<Tx>)
      requires Valid()
      modifies `cache
      ensures Valid() && cache == Some(txs) && Sorts(txs, items)
    {
      if cache.None? {
        var listed: seq<Tx> := [];
        var todo := items.Keys;
        while todo != {}
          invariant todo <= items.Keys && Enumerates(listed, items - todo)
        {
          var nonce :| nonce in todo;
          Enumerate(listed, items, todo, nonce);
          listed, todo := listed + [items[nonce]], todo - {nonce};
        }
        var sorted := Sorting.Sort((t: Tx) => t.nonce, listed);
        EnumerationSorted(sorted, listed, items);
        cache := Some(sorted);
      }
      txs := cache.value;
    }

    lemma LowestIsRoot()
      requires IndexValid()
      ensures index == [] <==> items == map[]
      ensures index != [] ==> index[0] in items && forall n | n in items :: index[0] <= n
    {
      forall n | n in items
        ensures index != [] && index[0] <= n
      {
        assert n in multiset(index);
        var k :| 0 <= k < |index| && index[k] == n;
        BinaryHeap.RootIsMinimum(NonceKey, index, k);
      }
      if index != [] {
        assert index[0] in multiset(index);
      }
    }
  }
}
