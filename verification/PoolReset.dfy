/**
 What `reset` does to the nonces when it reinjects transactions of discarded blocks: exactly when the
 accounts are in step afterwards, as long as the limit on pending transactions cuts nothing.
 */
module PoolReset {
  import opened Values
  import opened TxTypes
  import opened PoolModel
  import opened TxRuns
  import opened PoolSteps
  import opened PoolNonces
  import opened PoolDemote
  import opened PoolLimits
  import opened PoolEffects
  import opened PoolOps

  // Sizes: a list holds no more transactions than the pool knows.

  /** The hashes of the known transactions that a list, or the lists, hold. */
  ghost function HeldBy(all: Lookup, items: Items): set<Hash> {
    set h | h in all && Holds(items, all[h])
  }

  ghost function HeldByAny(all: Lookup, lists: Lists): set<Hash> {
    set h | h in all && Holds(At(lists, all[h].sender), all[h])
  }

  predicate IsKnown(all: Lookup, items: Items, n: nat) {
    n in items ==> items[n].nonce == n && items[n].hash in all && all[items[n].hash] == items[n]
  }

  predicate AccountKnown(all: Lookup, lists: Lists, a: Address) {
    forall n | n in At(lists, a) :: IsKnown(all, At(lists, a), n) && At(lists, a)[n].sender == a
  }

  ghost predicate AllKnown(all: Lookup, lists: Lists) {
    && (forall h | h in all :: all[h].hash == h)
    && forall a {:trigger AccountKnown(all, lists, a)} :: AccountKnown(all, lists, a)
  }

  lemma {:induction false} HeldSize(all: Lookup, items: Items)
    requires (forall h | h in all :: all[h].hash == h) && forall n | n in items :: IsKnown(all, items, n)
    ensures |HeldBy(all, items)| == |items|
    decreases |items|
  {
    if items != map[] {
      var n :| n in items;
      var rest := items - {n};
      assert forall m | m in rest :: IsKnown(all, items, m) && rest[m] == items[m];
      HeldSize(all, rest);
      assert IsKnown(all, items, n);
      assert HeldBy(all, items) == HeldBy(all, rest) + {items[n].hash};
    } else {
      assert HeldBy(all, items) == {};
    }
  }

  lemma {:induction false} HeldTotal(all: Lookup, lists: Lists)
    requires AllKnown(all, lists)
    ensures |HeldByAny(all, lists)| == Total(lists)
    decreases |lists|
  {
    if lists != map[] {
      var a := Pick(lists);
      var rest := lists - {a};
      assert AccountKnown(all, lists, a) && lists[a] == At(lists, a);
      forall n | n in lists[a]
        ensures IsKnown(all, lists[a], n)
      {
        assert IsKnown(all, At(lists, a), n);
      }
      HeldSize(all, lists[a]);
      forall b
        ensures AccountKnown(all, rest, b)
      {
        assert AccountKnown(all, lists, b);
        assert b in rest ==> At(rest, b) == At(lists, b);
        forall n | n in At(rest, b)
          ensures IsKnown(all, At(rest, b), n) && At(rest, b)[n].sender == b
        {
          assert IsKnown(all, At(lists, b), n);
        }
      }
      HeldTotal(all, rest);
      HeldSplits(all, lists, a);
    } else {
      assert HeldByAny(all, lists) == {};
    }
  }

  lemma HeldSplits(all: Lookup, lists: Lists, a: Address)
    requires a in lists && AccountKnown(all, lists, a) && forall h | h in all :: all[h].hash == h
    ensures |HeldByAny(all, lists)| == |HeldByAny(all, lists - {a})| + |HeldBy(all, lists[a])|
  {
    var rest := lists - {a};
    forall h | h in HeldBy(all, lists[a])
      ensures all[h].sender == a
    {
      assert lists[a] == At(lists, a) && IsKnown(all, At(lists, a), all[h].nonce);
    }
    assert HeldByAny(all, lists) == HeldByAny(all, rest) + HeldBy(all, lists[a]);
    assert HeldByAny(all, rest) !! HeldBy(all, lists[a]);
  }

  lemma CoherentKnown(v: Views)
    requires Coherent(v.pending, v.queue, v.all, 0, map[])
    ensures AllKnown(v.all, v.pending) && AllKnown(v.all, v.queue)
  {
    forall a
      ensures AccountKnown(v.all, v.pending, a) && AccountKnown(v.all, v.queue, a)
    {
      assert Account(a, At(v.pending, a), At(v.queue, a), InHand(a, 0, map[]), v.all);
      var union := At(v.pending, a) + At(v.queue, a) + InHand(a, 0, map[]);
      assert forall n | n in At(v.pending, a) :: n in union && union[n] == At(v.pending, a)[n];
      assert forall n | n in At(v.queue, a) :: n in union && union[n] == At(v.queue, a)[n];
    }
  }

  lemma PendingWithin(v: Views)
    requires Coherent(v.pending, v.queue, v.all, 0, map[])
    ensures Total(v.pending) <= |v.all|
  {
    CoherentKnown(v);
    HeldTotal(v.all, v.pending);
    SubsetSize(HeldByAny(v.all, v.pending), v.all.Keys);
  }

  // Promotion of an account when no pending transaction is cut.

  predicate Part(x: Items, y: Items) {
    x.Keys <= y.Keys && forall n | n in x :: x[n] == y[n]
  }

  /** One account's lists and virtual nonce before and after its turn; the queue may be cut to its limits. */
  ghost predicate TurnedLists(p: Items, q: Items, next: nat, p': Items, q': Items, next': nat, head: Head, b: Address) {
    var live := Live(q, head, b);
    var end := ReadyEnd(live, next);
    && Is(p', p + Below(live, end)) && Part(q', From(live, end))
    && next' == if Below(live, end) == map[] then next else end
  }

  /** Account `b` before and after a promotion in which it had its turn or not. */
  ghost predicate TurnedAt(v: Views, w: Views, head: Head, b: Address, turned: bool) {
    var p, q, next := At(v.pending, b), At(v.queue, b), Virtual(v.nonces, head, b);
    var p', q', next' := At(w.pending, b), At(w.queue, b), Virtual(w.nonces, head, b);
    if turned then TurnedLists(p, q, next, p', q', next', head, b) else Is(p', p) && Part(q', q) && next' == next
  }

  lemma NothingToTurn(p: Items, next: nat, head: Head, b: Address)
    ensures TurnedLists(p, map[], next, p, map[], next, head, b)
  {
    assert Live(map[], head, b) == map[];
    assert Below(map[], 0) == map[] && From(map[], 0) == map[] && p + map[] == p;
  }

  lemma PromotedEffect(v: Views, w: Views, head: Head, local: bool, limit: nat, a: Address)
    requires Promoted(v, w, head, a, limit, local)
    ensures TurnedAt(v, w, head, a, true)
  {
    var live := Live(At(v.queue, a), head, a);
    var end := ReadyEnd(live, Virtual(v.nonces, head, a));
    StoreTwice(v.pending, a, At(v.pending, a) + Below(live, end), map[]);
  }

  lemma PromotedElsewhere(v: Views, w: Views, head: Head, local: bool, limit: nat, a: Address, b: Address)
    requires Promoted(v, w, head, a, limit, local) && b != a
    ensures TurnedAt(v, w, head, b, false) && Is(At(w.queue, b), At(v.queue, b))
  {
    var live := Live(At(v.queue, a), head, a);
    var end := ReadyEnd(live, Virtual(v.nonces, head, a));
    StoreElsewhere(v.pending, a, At(v.pending, a) + Below(live, end), b);
    StoreElsewhere(v.queue, a, At(w.queue, a), b);
  }

  /** One turn changes the account whose turn it is and no other. */
  lemma TurnEffect(v: Views, w: Views, head: Head, locals: set<Address>, config: Config, clock: nat, a: Address,
                   b: Address)
    requires Turn(v, w, head, locals, config, clock, a)
    ensures TurnedAt(v, w, head, b, b == a) && Within(w.all, v.all) && (b != a ==> Is(At(w.queue, b), At(v.queue, b)))
  {
    WithinSelf(v.all);
    if a !in v.queue {
      NothingToTurn(At(v.pending, b), Virtual(v.nonces, head, b), head, b);
    } else if b == a {
      PromotedEffect(v, w, head, a in locals, config.accountQueue, a);
    } else {
      PromotedElsewhere(v, w, head, a in locals, config.accountQueue, a, b);
    }
  }

  /** Account `b` in the middle of a promotion, having had its turn or not. */
  ghost predicate Turning(v: Views, u: Views, head: Head, b: Address, done: bool) {
    && Agree(u, 0, map[], {}) && TurnedAt(v, u, head, b, done) && Within(u.all, v.all)
    && (!done ==> Is(At(u.queue, b), At(v.queue, b)))
  }

  lemma TurningNext(v: Views, u: Views, w: Views, head: Head, locals: set<Address>, config: Config, clock: nat,
                    a: Address, b: Address, done: bool)
    requires Turning(v, u, head, b, done) && Turn(u, w, head, locals, config, clock, a) && !(done && a == b)
    ensures Turning(v, w, head, b, done || a == b)
  {
    TurnEffect(u, w, head, locals, config, clock, a, b);
    WithinTrans(w.all, u.all, v.all);
  }

  lemma TurnsEffect(vs: seq<Views>, head: Head, locals: set<Address>, config: Config, clock: nat,
                    accounts: seq<Address>, b: Address)
    requires Turns(vs, head, locals, config, clock, accounts) && Distinct(accounts) && Agree(vs[0], 0, map[], {})
    ensures Turning(vs[0], Last(vs), head, b, b in accounts)
  {
    var k, done := 0, false;
    WithinSelf(vs[0].all);
    while k < |accounts|
      invariant k <= |accounts| && done == (b in accounts[..k]) && Turning(vs[0], vs[k], head, b, done)
    {
      assert accounts[..k + 1] == accounts[..k] + [accounts[k]];
      assert TraceAt(TurnOf(head, locals, config, clock), vs, accounts, k);
      TurningNext(vs[0], vs[k], vs[k + 1], head, locals, config, clock, accounts[k], b, done);
      k, done := k + 1, done || accounts[k] == b;
    }
    assert accounts[..k] == accounts;
  }

  /** The whole promotion. */
  lemma ExecutedEffect(v: Views, w: Views, head: Head, locals: set<Address>, config: Config, clock: nat,
                       accounts: seq<Address>, b: Address)
    requires Executed(v, w, head, locals, config, clock, accounts, {}) && Distinct(accounts) && Agree(v, 0, map[], {})
    ensures TurnedAt(v, w, head, b, b in accounts)
  {
    var vs, y, level :|
      Turns(vs, head, locals, config, clock, accounts) && Is(vs[0], v)
      && Limits(Last(vs), y, w, head, locals, config, {}, level);
    TurnsEffect(vs, head, locals, config, clock, accounts, b);
    assert LevelAt(Last(vs), y, {}, level, b) && LoweredAt(Last(vs), y, head, b) && TrimmedAt(y, w, locals, b);
  }

  /** With so few transactions that all of them may be pending, nothing is cut. */
  lemma ExecutedFits(v: Views, w: Views, head: Head, locals: set<Address>, config: Config, clock: nat,
                     accounts: seq<Address>, cut: set<Address>)
    requires Executed(v, w, head, locals, config, clock, accounts, cut) && Distinct(accounts) && Agree(v, 0, map[], {})
    requires |v.all| <= config.globalSlots
    ensures cut == {} && |w.all| <= |v.all|
  {
    var vs, y, level :|
      Turns(vs, head, locals, config, clock, accounts) && Is(vs[0], v)
      && Limits(Last(vs), y, w, head, locals, config, cut, level);
    TurnsEffect(vs, head, locals, config, clock, accounts, 0);
    WithinSize(Last(vs).all, v.all);
    PendingWithin(Last(vs));
    WithinTrans(y.all, Last(vs).all, v.all);
    WithinTrans(w.all, y.all, v.all);
    WithinSize(w.all, v.all);
  }

  // One account's lists through a reset.

  /**
   Reinjection leaves a hole: the account gained transactions, they make a run at its head nonce that
   stops short of the first of the pending ones, and that one can still be paid.
   */
  ghost predicate HoleyLists(p: Items, queue: Items, first: nat, head: Head, b: Address, gained: bool) {
    var lo, live := head.Nonce(b), Live(queue, head, b);
    gained && lo in live && RunEnd(live, lo) < first && first in p && !head.Unpayable(p[first])
  }

  lemma ReadyFromLow(queue: Items, head: Head, b: Address)
    ensures var lo, live := head.Nonce(b), Live(queue, head, b);
            ReadyEnd(live, lo) == if lo in live then RunEnd(live, lo) else 0
  {
    var lo, live := head.Nonce(b), Live(queue, head, b);
    if live != map[] && Lowest(live) <= lo {
      assert Lowest(live) >= lo;
    }
  }

  /** Nothing of the list is executable, or all of it waits behind a gap in front: demotion empties it. */
  lemma AboveHead(p: Items, q: Items, p': Items, q': Items, head: Head, b: Address)
    requires DemotedLists(p, q, p', q', head, b) && head.Nonce(b) !in p
    ensures Contiguous(p', head.Nonce(b), head.Nonce(b))
  {
  }

  /** A payable run at the head nonce, with nothing executable behind it, is what demotion leaves. */
  lemma RunStays(p: Items, q: Items, p': Items, q': Items, run: Items, end: nat, head: Head, b: Address)
    requires DemotedLists(p, q, p', q', head, b) && Contiguous(run, head.Nonce(b), end) && head.Nonce(b) < end
    requires forall n | n in run :: n in p && p[n] == run[n] && !head.Unpayable(run[n])
    requires forall n | n in p && n >= head.Nonce(b) && n !in run ::
               n > end && exists m :: m in p && end < m <= n && head.Unpayable(p[m])
    ensures Contiguous(p', head.Nonce(b), end)
  {
    var kept := Executable(p, head, b);
    forall n | n in run
      ensures n in kept
    {
      forall m | m in p && head.Nonce(b) <= m <= n
        ensures !head.Unpayable(p[m])
      {
        assert m in run;
      }
      PayableKept(p, n, head, b);
    }
    forall n | n in p && n >= head.Nonce(b) && n !in run
      ensures n !in kept
    {
      var m :| m in p && end < m <= n && head.Unpayable(p[m]);
      UnpayableStops(p, m, n, head, b);
    }
    assert head.Nonce(b) in kept;
  }

  lemma UnpayableStops(p: Items, m: nat, n: nat, head: Head, b: Address)
    requires n in p && m in p && head.Nonce(b) <= m <= n && head.Unpayable(p[m])
    ensures n !in Executable(p, head, b)
  {
    var young := From(p, head.Nonce(b));
    assert m in young && head.Unpayables()(young[m]);
  }

  lemma WholeRun(p: Items, q: Items, p': Items, q': Items, lo: nat, hi: nat, head: Head, b: Address) returns (cut: nat)
    requires DemotedLists(p, q, p', q', head, b) && Contiguous(p, lo, hi) && lo <= head.Nonce(b)
    ensures Contiguous(p', head.Nonce(b), cut)
  {
    cut := ExecutableFits(p, lo, hi, head, b);
  }

  /** A list that gained nothing: demotion to a later head cuts it, and to an earlier one postpones it. */
  lemma NothingGained(p: Items, q: Items, p': Items, q': Items, first: nat, next: nat, head: Head, b: Address)
    returns (hi: nat)
    requires Contiguous(p, first, next) && DemotedLists(p, q, p', q', head, b)
    ensures Contiguous(p', head.Nonce(b), hi)
  {
    if first <= head.Nonce(b) {
      hi := WholeRun(p, q, p', q', first, next, head, b);
    } else {
      AboveHead(p, q, p', q', head, b);
      hi := head.Nonce(b);
    }
  }

  /** The gained run closes up with what was pending. */
  lemma RunCloses(p: Items, run: Items, p1: Items, lo: nat, first: nat, next: nat)
    requires Contiguous(p, first, next) && Contiguous(run, lo, first) && Is(p1, p + run)
    ensures Contiguous(p1, lo, next)
  {
    RunJoin(run, p, lo, first, next);
    assert p + run == run + p;
  }

  lemma GainedRun(p: Items, queue: Items, p1: Items, head: Head, b: Address)
    requires p.Keys !! queue.Keys && head.Nonce(b) in Live(queue, head, b)
    requires Is(p1, p + Below(Live(queue, head, b), RunEnd(Live(queue, head, b), head.Nonce(b))))
    ensures var lo, live := head.Nonce(b), Live(queue, head, b);
            var run, end := Below(live, RunEnd(live, lo)), RunEnd(live, lo);
            && lo < end && Contiguous(run, lo, end) && lo in Executable(p1, head, b)
            && forall n | n in run :: n in p1 && p1[n] == run[n] && !head.Unpayable(run[n])
  {
    var lo, live := head.Nonce(b), Live(queue, head, b);
    var run := Below(live, RunEnd(live, lo));
    assert lo in run;
    assert lo in p1 && p1[lo] == live[lo];
    PayableKept(p1, lo, head, b);
  }

  /** A list that gained a run: it closes up with what was pending, or stands alone. */
  lemma RunGained(p: Items, queue: Items, first: nat, next: nat, p1: Items, q1: Items, p2: Items, q2: Items, head: Head,
                  b: Address)
    returns (hi: nat)
    requires Contiguous(p, first, next) && p.Keys !! queue.Keys && !HoleyLists(p, queue, first, head, b, true)
    requires head.Nonce(b) in Live(queue, head, b)
    requires Is(p1, p + Below(Live(queue, head, b), RunEnd(Live(queue, head, b), head.Nonce(b))))
    requires DemotedLists(p1, q1, p2, q2, head, b)
    ensures Contiguous(p2, head.Nonce(b), hi) && p2 != map[]
  {
    var live, lo := Live(queue, head, b), head.Nonce(b);
    var end := RunEnd(live, lo);
    var run := Below(live, end);
    GainedRun(p, queue, p1, head, b);
    if lo < first && first in p && end >= first {
      assert first !in live && end == first;
      RunCloses(p, run, p1, lo, first, next);
      hi := WholeRun(p1, q1, p2, q2, lo, next, head, b);
    } else {
      RunAlone(p, queue, first, next, head, b);
      RunStays(p1, q1, p2, q2, run, end, head, b);
      hi := end;
    }
  }

  /** Demotion keeps a transaction when everything from the head nonce up to it can be paid. */
  lemma PayableKept(p: Items, n: nat, head: Head, b: Address)
    requires n in p && head.Nonce(b) <= n && forall m | m in p && head.Nonce(b) <= m <= n :: !head.Unpayable(p[m])
    ensures n in Executable(p, head, b)
  {
    var young := From(p, head.Nonce(b));
    assert n in young && forall m | m in young && head.Unpayables()(young[m]) :: n < m;
  }

  /** Either nothing pending lies at or above the head nonce, or it starts with something that cannot be paid. */
  lemma RunAlone(p: Items, queue: Items, first: nat, next: nat, head: Head, b: Address)
    requires Contiguous(p, first, next) && p.Keys !! queue.Keys && head.Nonce(b) in Live(queue, head, b)
    requires !HoleyLists(p, queue, first, head, b, true)
    requires var lo, end := head.Nonce(b), RunEnd(Live(queue, head, b), head.Nonce(b));
             !(lo < first && first in p && end >= first)
    ensures var lo, live := head.Nonce(b), Live(queue, head, b);
            var end := RunEnd(live, lo);
            var p1 := p + Below(live, end);
            forall n | n in p1 && n >= lo && n !in Below(live, end) ::
              n > end && exists m :: m in p1 && end < m <= n && head.Unpayable(p1[m])
  {
    var lo, live := head.Nonce(b), Live(queue, head, b);
    var end := RunEnd(live, lo);
    var p1 := p + Below(live, end);
    assert lo !in p && (first in p ==> first !in live);
    forall n | n in p1 && n >= lo && n !in Below(live, end)
      ensures n > end && exists m :: m in p1 && end < m <= n && head.Unpayable(p1[m])
    {
      assert n in p && first <= n < next && first in p;
      assert lo < first && end < first && head.Unpayable(p[first]);
      assert first in p1 && p1[first] == p[first];
    }
  }

  /** A contiguous list with its virtual nonce just past it is in step after its turn. */
  lemma TurnFits(p: Items, q: Items, next: nat, p': Items, q': Items, next': nat, head: Head, b: Address)
    requires Contiguous(p, head.Nonce(b), next) && p.Keys !! q.Keys && TurnedLists(p, q, next, p', q', next', head, b)
    ensures Fits(p', q', head.Nonce(b), next', false)
  {
    LiveAbove(p, q, head, b, next);
    ReadyFits(p, Live(q, head, b), head.Nonce(b), next);
  }

  /** Demotion keeps the first of the old pending transactions, as everything before it is payable. */
  lemma FirstStays(p: Items, queue: Items, first: nat, next: nat, p1: Items, q1: Items, p2: Items, q2: Items,
                   head: Head, b: Address)
    requires Contiguous(p, first, next) && p.Keys !! queue.Keys && HoleyLists(p, queue, first, head, b, true)
    requires var live := Live(queue, head, b); Is(p1, p + Below(live, RunEnd(live, head.Nonce(b))))
    requires DemotedLists(p1, q1, p2, q2, head, b)
    ensures first in p2
  {
    var live, lo := Live(queue, head, b), head.Nonce(b);
    assert lo in p1 && lo !in p && p1[lo] == live[lo];
    PayableKept(p1, lo, head, b);
    forall m | m in p1 && lo <= m <= first
      ensures !head.Unpayable(p1[m])
    {
      assert m in p ==> m == first;
      assert m !in p ==> m in live && p1[m] == live[m];
    }
    PayableKept(p1, first, head, b);
  }

  /** A hole stays: its nonce is in neither list, and what lies behind it is kept. */
  lemma HoleStays(p: Items, queue: Items, first: nat, next: nat, p1: Items, q1: Items, p2: Items, q2: Items, n2: nat,
                  p3: Items, q3: Items, n3: nat, head: Head, b: Address)
    requires Contiguous(p, first, next) && p.Keys !! queue.Keys && HoleyLists(p, queue, first, head, b, true)
    requires var live := Live(queue, head, b);
             var end := RunEnd(live, head.Nonce(b));
             Is(p1, p + Below(live, end)) && Part(q1, From(live, end))
    requires DemotedLists(p1, q1, p2, q2, head, b) && TurnedLists(p2, q2, n2, p3, q3, n3, head, b)
    ensures forall hi :: !Contiguous(p3, head.Nonce(b), hi)
  {
    var live, lo := Live(queue, head, b), head.Nonce(b);
    var end := RunEnd(live, lo);
    FirstStays(p, queue, first, next, p1, q1, p2, q2, head, b);
    assert first in p3;
    assert end !in p1 && end !in q1 && end !in p2 && end !in q2 && end !in p3;
  }

  /** The turn after reinjection, when the virtual nonce is the head nonce: the run at it is gained, or nothing. */
  lemma FirstTurn(p: Items, queue: Items, p1: Items, q1: Items, n1: nat, head: Head, b: Address)
    requires TurnedLists(p, queue, head.Nonce(b), p1, q1, n1, head, b)
    ensures var lo, live := head.Nonce(b), Live(queue, head, b);
            if lo in live then Is(p1, p + Below(live, RunEnd(live, lo))) && Part(q1, From(live, RunEnd(live, lo)))
            else Is(p1, p) && n1 == lo
  {
    var lo, live := head.Nonce(b), Live(queue, head, b);
    ReadyFromLow(queue, head, b);
    if lo !in live {
      assert Below(live, 0) == map[] && p + map[] == p;
    }
  }

  ghost predicate NonceAfter(p: Items, next: nat, before: nat) {
    if p == map[] then next == before else next > 0 && next - 1 in p && forall n | n in p :: n < next
  }

  /** What the turns and the demotion leave of an account that has no hole. */
  lemma NoHole(p: Items, queue: Items, first: nat, next: nat, p1: Items, q1: Items, n1: nat, p2: Items, q2: Items,
               n2: nat, head: Head, b: Address, gained: bool)
    requires Contiguous(p, first, next) && p.Keys !! queue.Keys && !HoleyLists(p, queue, first, head, b, gained)
    requires if gained then TurnedLists(p, queue, head.Nonce(b), p1, q1, n1, head, b)
             else Is(p1, p) && n1 == head.Nonce(b)
    requires DemotedLists(p1, q1, p2, q2, head, b) && NonceAfter(p2, n2, n1)
    ensures Contiguous(p2, head.Nonce(b), n2)
  {
    var hi;
    if gained {
      FirstTurn(p, queue, p1, q1, n1, head, b);
    }
    if gained && head.Nonce(b) in Live(queue, head, b) {
      hi := RunGained(p, queue, first, next, p1, q1, p2, q2, head, b);
    } else {
      hi := NothingGained(p1, q1, p2, q2, first, next, head, b);
    }
    NonceOfRun(p2, head.Nonce(b), hi, n2);
  }

  /** One account through reinjection, demotion, the nonce update and promotion. */
  lemma AccountIff(p: Items, queue: Items, first: nat, next: nat, p1: Items, q1: Items, n1: nat, p2: Items, q2: Items,
                   n2: nat, p3: Items, q3: Items, n3: nat, head: Head, b: Address, gained: bool)
    requires Contiguous(p, first, next) && p.Keys !! queue.Keys && p2.Keys !! q2.Keys
    requires if gained then TurnedLists(p, queue, head.Nonce(b), p1, q1, n1, head, b)
             else Is(p1, p) && n1 == head.Nonce(b)
    requires DemotedLists(p1, q1, p2, q2, head, b) && NonceAfter(p2, n2, n1)
    requires TurnedLists(p2, q2, n2, p3, q3, n3, head, b)
    ensures Fits(p3, q3, head.Nonce(b), n3, false) <==> !HoleyLists(p, queue, first, head, b, gained)
  {
    if HoleyLists(p, queue, first, head, b, gained) {
      FirstTurn(p, queue, p1, q1, n1, head, b);
      HoleStays(p, queue, first, next, p1, q1, p2, q2, n2, p3, q3, n3, head, b);
    } else {
      NoHole(p, queue, first, next, p1, q1, n1, p2, q2, n2, head, b, gained);
      TurnFits(p2, q2, n2, p3, q3, n3, head, b);
    }
  }

  // Reinjection as a function of what `reset` is given.

  /** The views once `add` has been tried with a reinjected transaction; the price heap is left out. */
  function Admit(v: Views, head: Head, locals: set<Address>, config: Config, gasPrice: nat, inc: Incoming): Views {
    if Verdict(v, head, locals, config, gasPrice, false, inc).Failed? then v
    else v.(queue := Store(v.queue, inc.tx.sender, At(v.queue, inc.tx.sender)[inc.tx.nonce := inc.tx]),
            all := Known(v, inc.tx))
  }

  function AdmitAll(v: Views, head: Head, locals: set<Address>, config: Config, gasPrice: nat,
                    txs: seq<Incoming>): Views
  {
    if txs == [] then v
    else Admit(AdmitAll(v, head, locals, config, gasPrice, txs[..|txs| - 1]), head, locals, config, gasPrice,
               txs[|txs| - 1])
  }

  /** The accounts that gain a transaction by it. */
  function Gains(v: Views, head: Head, locals: set<Address>, config: Config, gasPrice: nat,
                 txs: seq<Incoming>): set<Address>
  {
    if txs == [] then {}
    else
      var before := AdmitAll(v, head, locals, config, gasPrice, txs[..|txs| - 1]);
      var gained := Gains(v, head, locals, config, gasPrice, txs[..|txs| - 1]);
      var inc := txs[|txs| - 1];
      if Verdict(before, head, locals, config, gasPrice, false, inc) == Added(false) then gained + {inc.tx.sender}
      else gained
  }

  /** What the loop over the reinjected transactions reaches. */
  ghost predicate ReachedAt(v: Views, head: Head, locals: set<Address>, config: Config, gasPrice: nat,
                            txs: seq<Incoming>, results: seq<AddResult>, r: Reached)
  {
    && |results| == |txs| && Is(r.locals, locals)
    && SameViews(AdmitAll(v, head, locals, config, gasPrice, txs), r.views)
    && Is(Gained(txs, results), Gains(v, head, locals, config, gasPrice, txs))
    && Agree(r.views, 0, map[], {}) && |r.views.all| <= |v.all| + |txs|
  }

  lemma ReachedNext(v: Views, head: Head, locals: set<Address>, config: Config, gasPrice: nat, txs: seq<Incoming>,
                    results: seq<AddResult>, u: Reached, inc: Incoming, result: AddResult, r: Reached)
    requires ReachedAt(v, head, locals, config, gasPrice, txs, results, u)
    requires Adds(u.views, r.views, head, u.locals, r.locals, config, gasPrice, false, inc, result)
    ensures ReachedAt(v, head, locals, config, gasPrice, txs + [inc], results + [result], r)
  {
    assert (txs + [inc])[..|txs|] == txs;
    GainedMore(txs, results, inc, result);
    if result.Added? {
      KnownSize(u.views, inc.tx);
    }
  }

  lemma AddedHere(rs: seq<Reached>, head: Head, config: Config, gasPrice: nat, txs: seq<Incoming>,
                  results: seq<AddResult>, k: nat)
    requires AddedAll(rs, head, config, gasPrice, false, txs, results) && k < |txs|
    ensures Adds(rs[k].views, rs[k + 1].views, head, rs[k].locals, rs[k + 1].locals, config, gasPrice, false, txs[k],
                 results[k])
  {
    assert TraceAt(AddOf(head, config, gasPrice, false), rs, Zip(txs, results), k);
  }

  lemma ReachesAll(rs: seq<Reached>, v: Views, head: Head, locals: set<Address>, config: Config, gasPrice: nat,
                   txs: seq<Incoming>, results: seq<AddResult>)
    requires Agree(v, 0, map[], {}) && AddedAll(rs, head, config, gasPrice, false, txs, results)
    requires Is(rs[0], Reached(v, locals))
    ensures ReachedAt(v, head, locals, config, gasPrice, txs, results, Last(rs))
  {
    var k := 0;
    assert Gained([], []) == {};
    while k < |txs|
      invariant k <= |txs| && ReachedAt(v, head, locals, config, gasPrice, txs[..k], results[..k], rs[k])
    {
      assert txs[..k + 1] == txs[..k] + [txs[k]] && results[..k + 1] == results[..k] + [results[k]];
      AddedHere(rs, head, config, gasPrice, txs, results, k);
      ReachedNext(v, head, locals, config, gasPrice, txs[..k], results[..k], rs[k], txs[k], results[k], rs[k + 1]);
      k := k + 1;
    }
    assert txs[..k] == txs && results[..k] == results;
  }

  // The theorem.

  /**
   Whether resetting from `before` to `head` leaves a hole in account `b`'s pending list: decided by the
   views, the two heads and the reinjected transactions.
   */
  ghost predicate Holey(v: Views, before: Head, head: Head, locals: set<Address>, config: Config, gasPrice: nat,
                        reinject: seq<Incoming>, b: Address)
  {
    HoleyLists(At(v.pending, b), At(AdmitAll(v, head, locals, config, gasPrice, reinject).queue, b), before.Nonce(b),
               head, b,
               b in Gains(v, head, locals, config, gasPrice, reinject))
  }

  /** Virtual nonces play no part in `add`. */
  lemma {:induction false} NoncesIdle(v: Views, head: Head, locals: set<Address>, config: Config, gasPrice: nat,
                                      txs: seq<Incoming>)
    ensures var u := v.(nonces := map[]);
            && Is(AdmitAll(u, head, locals, config, gasPrice, txs),
                  AdmitAll(v, head, locals, config, gasPrice, txs).(nonces := map[]))
            && Is(Gains(u, head, locals, config, gasPrice, txs), Gains(v, head, locals, config, gasPrice, txs))
    decreases |txs|
  {
    if txs != [] {
      NoncesIdle(v, head, locals, config, gasPrice, txs[..|txs| - 1]);
    }
  }

  /** What demotion makes of any account, with or without pending transactions. */
  lemma DemotedAny(u: Views, x: Views, head: Head, b: Address)
    requires AllDemoted(u, x, head, {})
    ensures DemotedLists(At(u.pending, b), At(u.queue, b), At(x.pending, b), At(x.queue, b), head, b)
  {
    assert DemotedAt(u, x, head, {}, b);
    if b !in u.pending {
      assert Executable(map[], head, b) == map[] && Invalidated(map[], head, b) == map[];
      assert At(u.queue, b) + map[] == At(u.queue, b);
    }
  }

  lemma SyncedNonce(x: Views, y: Views, head: Head, b: Address)
    requires Synced(x, y, {}) && NoEmpty(x.pending)
    ensures NonceAfter(At(x.pending, b), Virtual(y.nonces, head, b), Virtual(x.nonces, head, b))
  {
    assert SyncedAt(x, y, {}, b) && Full(x.pending, b);
  }

  lemma ListsApart(v: Views, b: Address)
    requires Coherent(v.pending, v.queue, v.all, 0, map[])
    ensures At(v.pending, b).Keys !! At(v.queue, b).Keys
  {
    assert Account(b, At(v.pending, b), At(v.queue, b), InHand(b, 0, map[]), v.all);
  }

  lemma {:induction false} AdmitKeeps(v: Views, head: Head, locals: set<Address>, config: Config, gasPrice: nat,
                                      txs: seq<Incoming>)
    ensures var u := AdmitAll(v, head, locals, config, gasPrice, txs);
            Is(u.pending, v.pending) && Is(u.nonces, v.nonces)
    decreases |txs|
  {
    if txs != [] {
      AdmitKeeps(v, head, locals, config, gasPrice, txs[..|txs| - 1]);
    }
  }

  /** One account after reinjection. */
  ghost predicate Reinjected(v: Views, queue: Lists, u: Views, head: Head, b: Address, gained: bool) {
    var p, q := At(v.pending, b), At(queue, b);
    && p.Keys !! q.Keys
    && if gained then TurnedLists(p, q, head.Nonce(b), At(u.pending, b), At(u.queue, b), Virtual(u.nonces, head, b),
                                  head, b)
       else Is(At(u.pending, b), p) && Virtual(u.nonces, head, b) == head.Nonce(b)
  }

  /** The views reached by the loop of `addTxsLocked`, and the accounts it then promotes. */
  lemma BatchReaches(v: Views, u: Views, head: Head, locals: set<Address>, config: Config, gasPrice: nat, clock: nat,
                     reinject: seq<Incoming>, results: seq<AddResult>, cut: set<Address>)
    returns (r: Views, accounts: seq<Address>)
    requires Agree(v, 0, map[], {})
    requires BatchAdded(v, u, head, locals, locals, config, gasPrice, clock, false, reinject, results, cut)
    ensures SameViews(AdmitAll(v, head, locals, config, gasPrice, reinject), r) && Agree(r, 0, map[], {})
    ensures |r.all| <= |v.all| + |reinject|
    ensures Distinct(accounts) && Is(Elems(accounts), Gains(v, head, locals, config, gasPrice, reinject))
    ensures if accounts == [] then Is(u, r) && Is(cut, {})
            else Executed(r, u, head, locals, config, clock, accounts, cut)
  {
    var rs: seq<Reached>;
    rs, accounts :|
      && AddedAll(rs, head, config, gasPrice, false, reinject, results) && Is(rs[0], Reached(v, locals))
      && Is(Last(rs).locals, locals)
      && Distinct(accounts) && Is(Elems(accounts), Gained(reinject, results))
      && if accounts == [] then Is(u, Last(rs).views) && Is(cut, {})
         else Executed(Last(rs).views, u, head, locals, config, clock, accounts, cut);
    r := Last(rs).views;
    ReachesAll(rs, v, head, locals, config, gasPrice, reinject, results);
  }

  lemma BatchEffect(v: Views, u: Views, head: Head, locals: set<Address>, config: Config, gasPrice: nat, clock: nat,
                    reinject: seq<Incoming>, results: seq<AddResult>, b: Address)
    requires Agree(v, 0, map[], {}) && v.nonces == map[]
    requires BatchAdded(v, u, head, locals, locals, config, gasPrice, clock, false, reinject, results, {})
    ensures Reinjected(v, AdmitAll(v, head, locals, config, gasPrice, reinject).queue, u, head, b,
                       b in Gains(v, head, locals, config, gasPrice, reinject))
  {
    var r, accounts := BatchReaches(v, u, head, locals, config, gasPrice, clock, reinject, results, {});
    AdmitKeeps(v, head, locals, config, gasPrice, reinject);
    ListsApart(r, b);
    assert b in accounts <==> b in Elems(accounts);
    if accounts != [] {
      ExecutedEffect(r, u, head, locals, config, clock, accounts, b);
    }
  }

  lemma LastTurn(x: Views, y: Views, w: Views, head: Head, locals: set<Address>, config: Config, clock: nat,
                 accounts: seq<Address>, b: Address)
    requires Agree(x, 0, map[], {}) && Is(y, x.(nonces := y.nonces))
    requires Distinct(accounts) && Is(Elems(accounts), y.queue.Keys)
    requires Executed(y, w, head, locals, config, clock, accounts, {})
    ensures TurnedAt(y, w, head, b, true)
  {
    ExecutedEffect(y, w, head, locals, config, clock, accounts, b);
    assert b in accounts <==> b in Elems(accounts);
    if b !in y.queue {
      NothingToTurn(At(y.pending, b), Virtual(y.nonces, head, b), head, b);
    }
  }

  lemma SettledTurn(u: Views, x: Views, y: Views, w: Views, head: Head, locals: set<Address>, config: Config,
                    clock: nat, accounts: seq<Address>, b: Address)
    requires Settled(u, x, y, w, head, locals, config, clock, accounts, {})
    ensures At(x.pending, b).Keys !! At(x.queue, b).Keys
    ensures NonceAfter(At(x.pending, b), Virtual(y.nonces, head, b), Virtual(u.nonces, head, b))
    ensures DemotedLists(At(u.pending, b), At(u.queue, b), At(x.pending, b), At(x.queue, b), head, b)
    ensures TurnedLists(At(x.pending, b), At(x.queue, b), Virtual(y.nonces, head, b),
                        At(w.pending, b), At(w.queue, b), Virtual(w.nonces, head, b), head, b)
  {
    DemotedAny(u, x, head, b);
    SyncedNonce(x, y, head, b);
    ListsApart(x, b);
    LastTurn(x, y, w, head, locals, config, clock, accounts, b);
  }

  /** One account after the rest of the reset. */
  lemma SettledEffect(v: Views, queue: Lists, before: Head, u: Views, x: Views, y: Views, w: Views, head: Head,
                      locals: set<Address>, config: Config, clock: nat, accounts: seq<Address>, b: Address,
                      gained: bool)
    requires FitsAt(v, before, {}, b) && Reinjected(v, queue, u, head, b, gained)
    requires Settled(u, x, y, w, head, locals, config, clock, accounts, {})
    ensures FitsAt(w, head, {}, b) <==> !HoleyLists(At(v.pending, b), At(queue, b), before.Nonce(b), head, b, gained)
  {
    SettledTurn(u, x, y, w, head, locals, config, clock, accounts, b);
    AccountIff(At(v.pending, b), At(queue, b), before.Nonce(b), Virtual(v.nonces, before, b),
               At(u.pending, b), At(u.queue, b), Virtual(u.nonces, head, b), At(x.pending, b), At(x.queue, b),
                   Virtual(y.nonces, head, b),
               At(w.pending, b), At(w.queue, b), Virtual(w.nonces, head, b), head, b, gained);
  }

  /** In step afterwards exactly if no account is left with a hole. */
  ghost predicate StepIff(v: Views, w: Views, before: Head, head: Head, locals: set<Address>, config: Config,
                          gasPrice: nat, reinject: seq<Incoming>)
  {
    InStep(w, head, {}) <==> forall b :: !Holey(v, before, head, locals, config, gasPrice, reinject, b)
  }

  /**
   A reset of a pool that is in step, with any reinjected transactions: as long as the limit on pending
   transactions cuts nothing, the pool is in step afterwards if and only if reinjection leaves no account
   with a hole.
   */
  lemma ResetInStepIff(v: Views, w: Views, before: Head, head: Head, locals: set<Address>, config: Config,
                       gasPrice: nat, clock: nat, reinject: seq<Incoming>, gaps: nat)
    requires Agree(v, 0, map[], {}) && InStep(v, before, {})
    requires ResetDone(v, w, head, locals, config, gasPrice, clock, reinject, gaps, {})
    ensures StepIff(v, w, before, head, locals, config, gasPrice, reinject)
  {
    var v0 := v.(nonces := map[]);
    var u, x, y, accounts, results, first: set<Address>, second: set<Address> :|
      && Is({}, first + second)
      && BatchAdded(v0, u, head, locals, locals, config, gasPrice, clock, false, reinject, results, first)
      && gaps == |Gapped(u, head, {})| && Settled(u, x, y, w, head, locals, config, clock, accounts, second);
    assert first == {} && second == {};
    NoncesIdle(v, head, locals, config, gasPrice, reinject);
    forall b
      ensures FitsAt(w, head, {}, b) <==> !Holey(v, before, head, locals, config, gasPrice, reinject, b)
    {
      assert FitsAt(v, before, {}, b);
      BatchEffect(v0, u, head, locals, config, gasPrice, clock, reinject, results, b);
      SettledEffect(v, AdmitAll(v, head, locals, config, gasPrice, reinject).queue, before, u, x, y, w, head, locals,
                    config, clock, accounts, b,
                    b in Gains(v, head, locals, config, gasPrice, reinject));
    }
  }

  /** The limit cuts nothing when all transactions, reinjected ones included, may be pending at once. */
  lemma RoomyUncut(v: Views, w: Views, head: Head, locals: set<Address>, config: Config, gasPrice: nat, clock: nat,
                   reinject: seq<Incoming>, gaps: nat, cut: set<Address>)
    requires Agree(v, 0, map[], {}) && |v.all| + |reinject| <= config.globalSlots
    requires ResetDone(v, w, head, locals, config, gasPrice, clock, reinject, gaps, cut)
    ensures cut == {}
  {
    var v0 := v.(nonces := map[]);
    var u, x, y, accounts, results, first: set<Address>, second: set<Address> :|
      && Is(cut, first + second)
      && BatchAdded(v0, u, head, locals, locals, config, gasPrice, clock, false, reinject, results, first)
      && gaps == |Gapped(u, head, {})| && Settled(u, x, y, w, head, locals, config, clock, accounts, second);
    var r, gained := BatchReaches(v0, u, head, locals, config, gasPrice, clock, reinject, results, first);
    if gained != [] {
      ExecutedFits(r, u, head, locals, config, clock, gained, first);
    }
    WithinSize(x.all, u.all);
    ExecutedFits(y, w, head, locals, config, clock, accounts, second);
  }

  // Holes do occur.

  /** A pool that holds one transaction, which is pending. */
  function Single(t: Tx): Views {
    Views(map[t.sender := map[t.nonce := t]], map[], map[t.sender := t.nonce + 1], map[t.hash := t], [t], 0, map[])
  }

  lemma SingleAgrees(t: Tx, before: Head)
    requires before.Nonce(t.sender) == t.nonce
    ensures Agree(Single(t), 0, map[], {}) && InStep(Single(t), before, {})
  {
    var v := Single(t);
    forall a
      ensures Account(a, At(v.pending, a), At(v.queue, a), InHand(a, 0, map[]), v.all) && Full(v.pending, a)
      ensures Full(v.queue, a)
    {
      assert t.nonce in v.pending[t.sender];
      assert At(v.pending, a) + At(v.queue, a) + InHand(a, 0, map[]) == At(v.pending, a);
    }
    forall a
      ensures FitsAt(v, before, {}, a)
    {
    }
    forall h
      ensures Listed(v.priced, v.all, {}, h)
    {
    }
  }

  /** Its head falls by two nonces or more, and only the first of the transactions below it comes back. */
  ghost predicate FallsShort(t: Tx, low: Tx, before: Head, head: Head, locals: set<Address>, gasPrice: nat) {
    && low.sender == t.sender && before.Nonce(t.sender) == t.nonce && head.Nonce(t.sender) == low.nonce
    && low.nonce + 1 < t.nonce
    && !head.Unpayable(low) && !head.Unpayable(t) && (low.sender in locals || gasPrice <= low.price)
  }

  lemma LowAdmitted(t: Tx, low: Tx, before: Head, head: Head, locals: set<Address>, config: Config, gasPrice: nat)
    requires FallsShort(t, low, before, head, locals, gasPrice) && Slots(config) > 1
    ensures var txs := [Incoming(low, true)];
            && Is(At(AdmitAll(Single(t), head, locals, config, gasPrice, txs).queue, t.sender), map[low.nonce := low])
            && t.sender in Gains(Single(t), head, locals, config, gasPrice, txs)
  {
    var v, txs := Single(t), [Incoming(low, true)];
    assert txs[..0] == [];
    assert Verdict(v, head, locals, config, gasPrice, false, txs[0]) == Added(false);
  }

  lemma LowHoley(t: Tx, low: Tx, before: Head, head: Head, locals: set<Address>, config: Config, gasPrice: nat)
    requires FallsShort(t, low, before, head, locals, gasPrice) && Slots(config) > 1
    ensures Holey(Single(t), before, head, locals, config, gasPrice, [Incoming(low, true)], t.sender)
  {
    LowAdmitted(t, low, before, head, locals, config, gasPrice);
    var queue := map[low.nonce := low];
    assert Live(queue, head, t.sender) == queue;
    assert RunEnd(queue, low.nonce) == low.nonce + 1;
  }

  /** Every such reset, of a coherent pool in step, ends with a pool that is not in step. */
  method ResetLeavesHole(t: Tx, low: Tx, before: Head, head: Head, locals: set<Address>, config: Config, gasPrice: nat,
                         clock: nat)
    returns (w: Views, gaps: nat, ghost cut: set<Address>)
    requires FallsShort(t, low, before, head, locals, gasPrice) && 2 <= config.globalSlots
    ensures Agree(Single(t), 0, map[], {}) && InStep(Single(t), before, {})
    ensures ResetDone(Single(t), w, head, locals, config, gasPrice, clock, [Incoming(low, true)], gaps, cut)
    ensures !InStep(w, head, {})
  {
    SingleAgrees(t, before);
    LowHoley(t, low, before, head, locals, config, gasPrice);
    var reinject := [Incoming(low, true)];
    w, gaps, cut := Reset(Single(t), head, locals, config, gasPrice, clock, reinject, before);
    RoomyUncut(Single(t), w, head, locals, config, gasPrice, clock, reinject, gaps, cut);
    ResetInStepIff(Single(t), w, before, head, locals, config, gasPrice, clock, reinject, gaps);
  }

  /** A transaction of account 1 that costs nothing, and a head at which it has the given nonce. */
  function Free(nonce: nat): Tx {
    Tx(1, nonce, 0, 0, 0, None, 0)
  }

  function HeadAt(nonce: nat): Head {
    Head(map[1 := nonce], map[], 0)
  }

  lemma FreePaid(nonce: nat, head: Head)
    ensures !head.Unpayable(Free(nonce))
  {
    assert Free(nonce).Fee() == 0;
  }

  /** For example with nonce 7 pending at head nonce 7, and nonce 5 alone coming back at head nonce 5. */
  lemma FreeFallsShort(nonce: nat, low: nat)
    requires low + 1 < nonce
    ensures FallsShort(Free(nonce), Free(low), HeadAt(nonce), HeadAt(low), {}, 0)
  {
    FreePaid(nonce, HeadAt(low));
    FreePaid(low, HeadAt(low));
  }
}
