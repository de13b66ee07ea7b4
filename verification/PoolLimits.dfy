/** The pool's global limits: equalising pending lists and truncating the queue. */
module PoolLimits {
  import opened Values
  import opened TxTypes
  import opened PoolModel
  import opened TxRuns
  import opened PoolSteps
  import opened PoolNonces
  import opened PoolDemote
  import Sorting

  ghost function Pick(lists: Lists): (a: Address)
    requires lists != map[]
    ensures a in lists
  {
    var a :| a in lists;
    a
  }

  /** The number of transactions in all lists together. */
  ghost function Total(lists: Lists): nat
    decreases |lists|
  {
    if lists == map[] then 0 else |lists[Pick(lists)]| + Total(lists - {Pick(lists)})
  }

  lemma {:induction false} TotalAt(lists: Lists, a: Address)
    requires a in lists
    ensures Total(lists) == |lists[a]| + Total(lists - {a})
    decreases |lists|
  {
    var b := Pick(lists);
    if b != a {
      TotalAt(lists - {b}, a);
      TotalAt(lists - {a}, b);
      SwapMinus(lists, a, b);
    }
  }

  lemma SwapMinus(lists: Lists, a: Address, b: Address)
    ensures Is(lists - {b} - {a}, lists - {a} - {b})
  {
    assert lists - {b} - {a} == lists - {a} - {b};
  }

  /** The total of a map is the size of one entry, present or not, and the total of the rest. */
  lemma TotalSplit(lists: Lists, a: Address)
    ensures Total(lists) == |At(lists, a)| + Total(lists - {a})
  {
    if a in lists {
      TotalAt(lists, a);
    } else {
      assert lists - {a} == lists;
    }
  }

  lemma TotalStore(lists: Lists, a: Address, x: Items)
    ensures Total(Store(lists, a, x)) == Total(lists) - |At(lists, a)| + |x|
  {
    TotalSplit(lists, a);
    TotalSplit(Store(lists, a, x), a);
    StoreTwice(lists, a, x, x);
    StoreMinus(lists, a, x);
  }

  lemma StoreMinus(lists: Lists, a: Address, x: Items)
    ensures Is(Store(lists, a, x) - {a}, lists - {a})
  {
    assert Store(lists, a, x) - {a} == lists - {a};
  }

  method CountAll(lists: Lists) returns (n: nat)
    ensures n == Total(lists)
  {
    n := 0;
    var left := lists;
    while left != map[]
      invariant n + Total(left) == Total(lists)
      decreases |left|
    {
      var a :| a in left;
      TotalAt(left, a);
      n, left := n + |left[a]|, left - {a};
    }
  }

  function Len(v: Views, a: Address): nat {
    |At(v.pending, a)|
  }

  /** Accounts in `cut` hold their lowest `level` transactions of before, the others all of them. */
  ghost predicate LevelAt(v: Views, w: Views, cut: set<Address>, level: nat, b: Address) {
    if b in cut then LowestPart(At(v.pending, b), At(w.pending, b), level) else Is(At(w.pending, b), At(v.pending, b))
  }

  ghost predicate Level(v: Views, w: Views, cut: set<Address>, level: nat) {
    forall b {:trigger LevelAt(v, w, cut, level, b)} :: LevelAt(v, w, cut, level, b)
  }

  /** Account `b`'s virtual nonce drops to the lowest nonce it lost, unless it was below that already. */
  ghost predicate LoweredAt(v: Views, w: Views, head: Head, b: Address) {
    var p, p', next, next' :=
      At(v.pending, b), At(w.pending, b), Virtual(v.nonces, head, b), Virtual(w.nonces, head, b);
    && p'.Keys <= p.Keys && next' <= next && (forall n | n in p && n !in p' :: next' <= n)
    && (next' == next || (next' in p && next' !in p'))
  }

  ghost predicate Lowered(v: Views, w: Views, head: Head) {
    forall b {:trigger LoweredAt(v, w, head, b)} :: LoweredAt(v, w, head, b)
  }

  lemma LoweredSelf(v: Views, head: Head)
    ensures Lowered(v, v, head)
  {
    forall b
      ensures LoweredAt(v, v, head, b)
    {
    }
  }

  lemma LoweredTrans(v: Views, u: Views, w: Views, head: Head)
    requires Lowered(v, u, head) && Lowered(u, w, head)
    ensures Lowered(v, w, head)
  {
    forall b
      ensures LoweredAt(v, w, head, b)
    {
      assert LoweredAt(v, u, head, b) && LoweredAt(u, w, head, b);
    }
  }

  /** What equalisation leaves alone, and what it does to virtual nonces. */
  ghost predicate Aside(v: Views, w: Views, head: Head, dirty: set<Address>) {
    && Agree(w, 0, map[], {}) && Is(w.queue, v.queue) && Is(w.beats, v.beats) && Within(w.all, v.all)
    && Lowered(v, w, head)
    && (InStep(v, head, dirty) ==> InStep(w, head, dirty))
  }

  lemma AsideTrans(v: Views, u: Views, w: Views, head: Head, dirty: set<Address>)
    requires Aside(v, u, head, dirty) && Aside(u, w, head, dirty)
    ensures Aside(v, w, head, dirty)
  {
    WithinTrans(w.all, u.all, v.all);
    LoweredTrans(v, u, w, head);
  }

  /** `list.Cap(list.Len() - 1)` on a pending list, with its bookkeeping. */
  method DropLast(v: Views, head: Head, a: Address, ghost dirty: set<Address>) returns (w: Views)
    requires Agree(v, 0, map[], {}) && Len(v, a) > 0
    ensures Aside(v, w, head, dirty) && Total(w.pending) == Total(v.pending) - 1
    ensures LowestPart(At(v.pending, a), At(w.pending, a), Len(v, a) - 1)
    ensures Is(w.pending, Store(v.pending, a, At(w.pending, a)))
  {
    var list: Items := At(v.pending, a);
    var n := HighestNonce(list);
    LastOff(list, n);
    w := DropAt(v, head, a, n);
    StoreTwice(v.pending, a, list - {n}, list - {n});
    TotalStore(v.pending, a, list - {n});
    DropLastInStep(v, w, head, dirty, a, n);
    DropLowers(v, w, head, a, n);
  }

  lemma DropLowers(v: Views, w: Views, head: Head, a: Address, n: nat)
    requires n in At(v.pending, a) && Is(w.pending, Store(v.pending, a, At(v.pending, a) - {n}))
    requires Is(w.nonces, if Virtual(v.nonces, head, a) > n then v.nonces[a := n] else v.nonces)
    ensures Lowered(v, w, head)
  {
    forall b
      ensures LoweredAt(v, w, head, b)
    {
      if b != a {
        StoreElsewhere(v.pending, a, At(v.pending, a) - {n}, b);
      } else {
        StoreTwice(v.pending, a, At(v.pending, a) - {n}, map[]);
      }
    }
  }

  lemma LastOff(list: Items, n: nat)
    requires n in list && forall m | m in list :: m <= n
    ensures LowestPart(list, list - {n}, |list| - 1) && |list - {n}| == |list| - 1
  {
  }

  /** Forgets one pending transaction and lowers the account's virtual nonce to it. */
  method DropAt(v: Views, head: Head, a: Address, n: nat) returns (w: Views)
    requires Agree(v, 0, map[], {}) && n in At(v.pending, a)
    ensures Agree(w, 0, map[], {}) && Within(w.all, v.all) && Is(w.queue, v.queue) && Is(w.beats, v.beats)
    ensures Is(w.pending, Store(v.pending, a, At(v.pending, a) - {n}))
    ensures Is(w.nonces, if Virtual(v.nonces, head, a) > n then v.nonces[a := n] else v.nonces)
  {
    var list: Items := At(v.pending, a);
    var kept: Items, gone: Items := list - {n}, map[n := list[n]];
    assert Split(list, kept, gone);
    AllMoved(gone);
    Refocus(v.pending, v.queue, v.all, 0, a);
    w := DropPending(v, a, kept, gone, map[]);
    if Virtual(w.nonces, head, a) > n {
      w := w.(nonces := w.nonces[a := n]);
    }
    w := PricedRemoved(w, 1, {});
    Refocus(w.pending, w.queue, w.all, a, 0);
  }

  lemma DropLastInStep(v: Views, w: Views, head: Head, dirty: set<Address>, a: Address, n: nat)
    requires Coherent(v.pending, v.queue, v.all, 0, map[]) && NoEmpty(v.queue)
    requires n in At(v.pending, a) && forall m | m in At(v.pending, a) :: m <= n
    requires Is(w.pending, Store(v.pending, a, At(v.pending, a) - {n})) && Is(w.queue, v.queue)
    requires Is(w.nonces, if Virtual(v.nonces, head, a) > n then v.nonces[a := n] else v.nonces)
    ensures InStep(v, head, dirty) ==> InStep(w, head, dirty)
  {
    if InStep(v, head, dirty) {
      assert FitsAt(v, head, dirty, a);
      assert Full(v.queue, a);
      StoreSelf(v.queue, a);
      assert Account(a, At(v.pending, a), At(v.queue, a), InHand(a, 0, map[]), v.all);
      RunDropLast(At(v.pending, a), head.Nonce(a), Virtual(v.nonces, head, a), n);
      StepAt(v, w, head, dirty, dirty, a, At(v.pending, a) - {n}, At(v.queue, a), n);
    }
  }

  function Elems(s: seq<Address>): set<Address> {
    set a | a in s
  }

  ghost predicate Distinct(s: seq<Address>) {
    forall i, j | 0 <= i < j < |s| :: s[i] != s[j]
  }

  lemma LowestTrans(x: Items, y: Items, z: Items, k: nat, j: nat)
    requires LowestPart(x, y, k) && LowestPart(y, z, j)
    ensures LowestPart(x, z, j)
  {
  }

  /** In the middle of a round: accounts in `done` are already one lower than those in `todo`. */
  ghost predicate MidAt(v: Views, w: Views, done: set<Address>, todo: set<Address>, level: nat, b: Address) {
    if b in done then level > 0 && LowestPart(At(v.pending, b), At(w.pending, b), level - 1)
    else if b in todo then LowestPart(At(v.pending, b), At(w.pending, b), level)
    else Is(At(w.pending, b), At(v.pending, b))
  }

  ghost predicate Mid(v: Views, w: Views, done: set<Address>, todo: set<Address>, level: nat) {
    forall b {:trigger MidAt(v, w, done, todo, level, b)} :: MidAt(v, w, done, todo, level, b)
  }

  lemma MidStep(v: Views, u: Views, w: Views, done: set<Address>, todo: set<Address>, level: nat, a: Address)
    requires Mid(v, u, done, todo, level) && a in todo && a !in done && level > 0
    requires LowestPart(At(u.pending, a), At(w.pending, a), level - 1)
    requires Is(w.pending, Store(u.pending, a, At(w.pending, a)))
    ensures Mid(v, w, done + {a}, todo - {a}, level)
  {
    forall b
      ensures MidAt(v, w, done + {a}, todo - {a}, level, b)
    {
      assert MidAt(v, u, done, todo, level, b);
      if b == a {
        LowestTrans(At(v.pending, a), At(u.pending, a), At(w.pending, a), level, level - 1);
      } else {
        StoreElsewhere(u.pending, a, At(w.pending, a), b);
      }
    }
  }

  lemma MidStarts(v: Views, w: Views, cut: set<Address>, level: nat)
    requires Level(v, w, cut, level)
    ensures Mid(v, w, {}, cut, level)
  {
    forall b
      ensures MidAt(v, w, {}, cut, level, b)
    {
      assert LevelAt(v, w, cut, level, b);
    }
  }

  lemma MidEnds(v: Views, w: Views, cut: set<Address>, level: nat, next: nat)
    requires Mid(v, w, cut, {}, level) && level == next + 1
    ensures Level(v, w, cut, next)
  {
    forall b
      ensures LevelAt(v, w, cut, next, b)
    {
      assert MidAt(v, w, cut, {}, level, b);
    }
  }

  /** One round: every offender loses its last transaction. */
  method CutRound(u: Views, head: Head, offenders: seq<Address>, ghost v: Views, ghost level: nat, ghost next: nat,
                  ghost dirty: set<Address>)
    returns (w: Views)
    requires Agree(u, 0, map[], {}) && Distinct(offenders) && level == next + 1 && Level(v, u, Elems(offenders), level)
    ensures Aside(u, w, head, dirty) && Level(v, w, Elems(offenders), next)
    ensures Total(w.pending) == Total(u.pending) - |offenders|
  {
    w := u;
    WithinSelf(u.all);
    LoweredSelf(u, head);
    ghost var done, todo := {}, Elems(offenders);
    MidStarts(v, u, todo, level);
    for i := 0 to |offenders|
      invariant Aside(u, w, head, dirty) && Total(w.pending) == Total(u.pending) - i
      invariant Mid(v, w, done, todo, level) && Parted(offenders, i, done, todo)
    {
      var a := offenders[i];
      PartedStep(offenders, i, done, todo);
      assert MidAt(v, w, done, todo, level, a);
      ghost var before := w;
      w := DropLast(w, head, a, dirty);
      AsideTrans(u, before, w, head, dirty);
      MidStep(v, before, w, done, todo, level, a);
      done, todo := done + {a}, todo - {a};
    }
    PartedDone(offenders, done, todo);
    MidEnds(v, w, Elems(offenders), level, next);
  }

  /** `done` holds the first `i` elements of `s`, `todo` the others. */
  ghost predicate Parted(s: seq<Address>, i: nat, done: set<Address>, todo: set<Address>) {
    && i <= |s| && Distinct(s) && done !! todo && done + todo == Elems(s)
    && (forall j | 0 <= j < i :: s[j] in done) && (forall j | i <= j < |s| :: s[j] in todo)
  }

  lemma PartedDone(s: seq<Address>, done: set<Address>, todo: set<Address>)
    requires Parted(s, |s|, done, todo)
    ensures Is(todo, {}) && Is(done, Elems(s))
  {
    assert todo == {} && done == Elems(s);
  }

  lemma PartedStep(s: seq<Address>, i: nat, done: set<Address>, todo: set<Address>)
    requires Parted(s, i, done, todo) && i < |s|
    ensures s[i] in todo && s[i] !in done && Parted(s, i + 1, done + {s[i]}, todo - {s[i]})
  {
  }

  /** Rounds over `offenders`, all of length `level`, until the total fits or their length is `floor`. */
  method ReduceTo(u: Views, head: Head, offenders: seq<Address>, floor: nat, limit: nat, start: nat, ghost v: Views,
                  ghost level: nat, ghost dirty: set<Address>)
    returns (w: Views, total: nat, ghost lower: nat)
    requires Agree(u, 0, map[], {}) && Distinct(offenders) && offenders != [] && floor <= level
    requires Level(v, u, Elems(offenders), level) && start == Total(u.pending)
    ensures Aside(u, w, head, dirty) && Level(v, w, Elems(offenders), lower) && total == Total(w.pending)
    ensures floor <= lower <= level && (total <= limit || lower == floor)
    ensures start > limit ==> total + |offenders| > limit
  {
    w, total, lower := u, start, level;
    WithinSelf(u.all);
    LoweredSelf(u, head);
    LevelLen(v, w, Elems(offenders), lower, offenders[|offenders| - 1]);
    while total > limit && Len(w, offenders[|offenders| - 1]) > floor
      invariant Aside(u, w, head, dirty) && Level(v, w, Elems(offenders), lower) && total == Total(w.pending)
      invariant floor <= lower <= level && Len(w, offenders[|offenders| - 1]) == lower
      invariant start > limit ==> total + |offenders| > limit
      decreases lower
    {
      ghost var before, next := w, lower - 1;
      w := CutRound(w, head, offenders, v, lower, next, dirty);
      AsideTrans(u, before, w, head, dirty);
      total, lower := total - |offenders|, next;
      LevelLen(v, w, Elems(offenders), lower, offenders[|offenders| - 1]);
    }
  }

  lemma LevelLen(v: Views, w: Views, cut: set<Address>, level: nat, a: Address)
    requires Level(v, w, cut, level)
    ensures Len(w, a) == if a in cut then level else Len(v, a)
  {
    assert LevelAt(v, w, cut, level, a);
  }

  lemma LevelAdd(v: Views, w: Views, cut: set<Address>, level: nat, a: Address)
    requires Level(v, w, cut, level) && a !in cut && Len(v, a) == level
    ensures Level(v, w, cut + {a}, level)
  {
    forall b
      ensures LevelAt(v, w, cut + {a}, level, b)
    {
      assert LevelAt(v, w, cut, level, b);
    }
  }

  lemma {:induction false} MostOf(queue: map<Address, nat>) returns (a: Address)
    requires queue != map[]
    ensures a in queue && forall b | b in queue :: queue[b] <= queue[a]
    decreases |queue|
  {
    a :| a in queue;
    var first, rest := a, queue - {a};
    if rest != map[] {
      var most := MostOf(rest);
      a := if queue[a] > queue[most] then a else most;
    }
    assert forall b | b in queue :: b == first || b in rest;
  }

  /** `prque.Pop`: takes out an entry of highest priority. */
  method PopMost(queue: map<Address, nat>) returns (a: Address)
    requires queue != map[]
    ensures a in queue && forall b | b in queue :: queue[b] <= queue[a]
  {
    ghost var most := MostOf(queue);
    a :| a in queue && forall b | b in queue :: queue[b] <= queue[a];
  }

  /** The remote accounts with more pending transactions than they are guaranteed. */
  function Spammers(v: Views, locals: set<Address>, slots: nat): map<Address, nat> {
    map a | a in v.pending && a !in locals && |v.pending[a]| > slots :: |v.pending[a]|
  }

  predicate Short(spam: map<Address, nat>, cut: set<Address>, level: nat, a: Address) {
    a in spam && a !in cut ==> spam[a] <= level
  }

  /** Whoever has not been cut is no longer than `level`. */
  ghost predicate NoLonger(spam: map<Address, nat>, cut: set<Address>, level: nat) {
    forall a {:trigger Short(spam, cut, level, a)} :: Short(spam, cut, level, a)
  }

  /**
   The state of the equalisation: the offenders popped so far, of which `cut` have been levelled
   to `level`. While the total does not fit, all offenders have the same length.
   */
  ghost predicate Equalizing(v: Views, w: Views, spam: map<Address, nat>, offenders: seq<Address>,
                             left: map<Address, nat>, cut: set<Address>, level: nat, fits: bool)
  {
    && Distinct(offenders) && Level(v, w, cut, level) && cut <= Elems(offenders) <= spam.Keys
    && Is(left, spam - Elems(offenders))
    && (offenders != [] ==> NoLonger(spam, cut, level))
    && (!fits ==> Is(cut, Elems(offenders)))
  }

  /** Popping the next offender and levelling the earlier ones to its length. */
  method NextOffender(v: Views, u: Views, head: Head, limit: nat, start: nat, offenders: seq<Address>,
                      left: map<Address, nat>, ghost slots: nat, ghost spam: map<Address, nat>, ghost cut: set<Address>,
                      ghost level: nat, ghost dirty: set<Address>)
    returns (w: Views, total: nat, o: Address, ghost cut': set<Address>, ghost level': nat)
    requires Agree(u, 0, map[], {}) && start == Total(u.pending) && start > limit && left != map[]
    requires Equalizing(v, u, spam, offenders, left, cut, level, false) && (offenders != [] ==> level > slots)
    requires forall a | a in spam :: spam[a] == Len(v, a) > slots
    ensures Aside(u, w, head, dirty) && total == Total(w.pending) && level' > slots
    ensures o in left && Equalizing(v, w, spam, offenders + [o], left - {o}, cut', level', total <= limit)
    ensures total + |offenders| + 1 > limit
  {
    o := PopMost(left);
    var floor := Len(u, o);
    LevelLen(v, u, cut, level, o);
    OneMore(spam, offenders, left, o);
    if offenders == [] {
      WithinSelf(u.all);
      LoweredSelf(u, head);
      w, total, level' := u, start, floor;
      LevelFirst(v, u, cut, level, o, floor);
    } else {
      assert Short(spam, cut, level, o);
      w, total, level' := ReduceTo(u, head, offenders, floor, limit, start, v, level, dirty);
      if total > limit {
        LevelAdd(v, w, cut, level', o);
      }
    }
    cut' := if offenders == [] || total > limit then cut + {o} else cut;
    PoppedShort(spam, offenders, left, o, cut', level');
  }

  lemma OneMore(spam: map<Address, nat>, offenders: seq<Address>, left: map<Address, nat>, o: Address)
    requires Is(left, spam - Elems(offenders)) && o in left && Distinct(offenders)
    ensures o in spam && spam[o] == left[o] && o !in offenders && Distinct(offenders + [o])
    ensures Is(Elems(offenders + [o]), Elems(offenders) + {o}) && Is(left - {o}, spam - Elems(offenders + [o]))
    ensures Is(Elems([]), {})
  {
    assert Elems(offenders + [o]) == Elems(offenders) + {o};
    assert left - {o} == spam - Elems(offenders + [o]);
    assert Elems([]) == {};
  }

  lemma PoppedShort(spam: map<Address, nat>, offenders: seq<Address>, left: map<Address, nat>, o: Address,
                    cut: set<Address>, level: nat)
    requires Is(left, spam - Elems(offenders)) && o in left && left[o] <= level
    requires forall b | b in left :: left[b] <= left[o]
    requires Elems(offenders) <= cut
    ensures NoLonger(spam, cut, level)
  {
    forall a
      ensures Short(spam, cut, level, a)
    {
      if a in spam && a !in cut {
        assert a in left;
      }
    }
  }

  lemma LevelFirst(v: Views, u: Views, cut: set<Address>, level: nat, o: Address, k: nat)
    requires Level(v, u, cut, level) && Is(cut, {}) && k == Len(u, o)
    ensures Level(v, u, cut + {o}, k)
  {
    forall b
      ensures LevelAt(v, u, cut + {o}, k, b)
    {
      assert LevelAt(v, u, cut, level, b);
    }
  }

  /**
   What equalisation achieves: the remote accounts in `cut`, and no others, were shortened, all to
   the same `level`, which is at least the guaranteed number of slots and at least the length of
   every remote account that was left alone; and either the total fits or no remote account
   exceeds its guaranteed slots.
   */
  ghost predicate Equalized(v: Views, w: Views, locals: set<Address>, slots: nat, limit: nat, cut: set<Address>,
                            level: nat)
  {
    && Level(v, w, cut, level)
    && (forall a | a in cut :: a !in locals && Len(v, a) > slots)
    && (cut != {} ==> level >= slots && forall a | a in v.pending && a !in locals && a !in cut :: Len(v, a) <= level)
    && (Total(v.pending) <= limit ==> cut == {} && Is(w, v))
    && (Total(v.pending) > limit ==> Total(w.pending) + |Spammers(v, locals, slots)| > limit)
    && (Total(w.pending) <= limit || forall a | a in w.pending && a !in locals :: Len(w, a) <= slots)
  }

  /** The pending half of `promoteExecutables`' limits. */
  method Equalize(v: Views, head: Head, locals: set<Address>, slots: nat, limit: nat, ghost dirty: set<Address>)
    returns (w: Views, ghost cut: set<Address>, ghost level: nat)
    requires Agree(v, 0, map[], {})
    ensures Aside(v, w, head, dirty) && Equalized(v, w, locals, slots, limit, cut, level)
  {
    var total := CountAll(v.pending);
    w, cut, level := v, {}, 0;
    WithinSelf(v.all);
    LoweredSelf(v, head);
    LevelSelf(v);
    if total <= limit {
      return;
    }
    var spam := Spammers(v, locals, slots);
    var left: map<Address, nat>, offenders: seq<Address> := spam, [];
    StartEqualizing(v, spam);
    while total > limit && left != map[]
      invariant Aside(v, w, head, dirty) && total == Total(w.pending)
      invariant Equalizing(v, w, spam, offenders, left, cut, level, total <= limit)
      invariant (offenders != [] ==> level > slots) && total + |offenders| > limit
      decreases |left|
    {
      ghost var before := w;
      var o;
      w, total, o, cut, level :=
        NextOffender(v, w, head, limit, total, offenders, left, slots, spam, cut, level, dirty);
      AsideTrans(v, before, w, head, dirty);
      offenders, left := offenders + [o], left - {o};
    }
    if total > limit && offenders != [] {
      ghost var before := w;
      w, total, level := ReduceTo(w, head, offenders, slots, limit, total, v, level, dirty);
      AsideTrans(v, before, w, head, dirty);
      NoneLonger(spam, offenders, left, cut, level);
    }
    EqualizingDone(v, w, locals, slots, limit, spam, offenders, left, cut, level);
  }

  lemma LevelSelf(v: Views)
    ensures Level(v, v, {}, 0)
  {
    forall b
      ensures LevelAt(v, v, {}, 0, b)
    {
    }
  }

  lemma StartEqualizing(v: Views, spam: map<Address, nat>)
    requires Level(v, v, {}, 0)
    ensures Equalizing(v, v, spam, [], spam, {}, 0, false)
  {
    assert Elems([]) == {};
    assert spam - Elems([]) == spam;
  }

  lemma NoneLonger(spam: map<Address, nat>, offenders: seq<Address>, left: map<Address, nat>, cut: set<Address>,
                   level: nat)
    requires Is(left, spam - Elems(offenders)) && left == map[] && Is(cut, Elems(offenders))
    ensures NoLonger(spam, cut, level)
  {
    forall a
      ensures Short(spam, cut, level, a)
    {
      assert a in spam && a !in cut ==> a in left;
    }
  }

  lemma {:induction false} DistinctSize(s: seq<Address>)
    requires Distinct(s)
    ensures |Elems(s)| == |s|
  {
    if s != [] {
      var t := s[..|s| - 1];
      assert s == t + [s[|s| - 1]];
      DistinctSize(t);
      assert Elems(s) == Elems(t) + {s[|s| - 1]};
    } else {
      assert Elems(s) == {};
    }
  }

  lemma SubsetSize<T>(x: set<T>, y: set<T>)
    requires x <= y
    ensures |x| <= |y|
  {
    assert y == x + (y - x);
  }

  lemma EqualizingDone(v: Views, w: Views, locals: set<Address>, slots: nat, limit: nat, spam: map<Address, nat>,
                       offenders: seq<Address>, left: map<Address, nat>, cut: set<Address>, level: nat)
    requires Is(spam, Spammers(v, locals, slots)) && Total(v.pending) > limit && Total(w.pending) + |offenders| > limit
    requires Equalizing(v, w, spam, offenders, left, cut, level, Total(w.pending) <= limit)
    requires offenders != [] ==> level >= slots
    requires Total(w.pending) > limit ==> left == map[] && (offenders != [] ==> level == slots)
    ensures Equalized(v, w, locals, slots, limit, cut, level)
  {
    DistinctSize(offenders);
    SubsetSize(Elems(offenders), spam.Keys);
    assert |spam| == |spam.Keys|;
    forall a | a in v.pending && a !in locals && a !in cut && cut != {}
      ensures Len(v, a) <= level
    {
      assert Short(spam, cut, level, a);
    }
    if Total(w.pending) > limit {
      forall a | a in w.pending && a !in locals
        ensures Len(w, a) <= slots
      {
        LevelLen(v, w, cut, level, a);
        assert a in spam && a !in cut ==> a in left;
      }
    }
  }

  /** Each queue holds the lowest nonces of what it held; queues of `spared` accounts are unchanged. */
  ghost predicate TrimmedAt(v: Views, w: Views, spared: set<Address>, b: Address) {
    if b in spared then Is(At(w.queue, b), At(v.queue, b))
    else LowestPart(At(v.queue, b), At(w.queue, b), |At(w.queue, b)|)
  }

  ghost predicate Trimmed(v: Views, w: Views, spared: set<Address>) {
    forall b {:trigger TrimmedAt(v, w, spared, b)} :: TrimmedAt(v, w, spared, b)
  }

  /** What truncating the queue leaves alone. */
  ghost predicate QueueAside(v: Views, w: Views, head: Head, dirty: set<Address>) {
    && Agree(w, 0, map[], {}) && Is(w.pending, v.pending) && Is(w.nonces, v.nonces) && Is(w.beats, v.beats)
    && Within(w.all, v.all) && (InStep(v, head, dirty) ==> InStep(w, head, dirty))
  }

  lemma QueueAsideTrans(v: Views, u: Views, w: Views, head: Head, dirty: set<Address>)
    requires QueueAside(v, u, head, dirty) && QueueAside(u, w, head, dirty)
    ensures QueueAside(v, w, head, dirty)
  {
    WithinTrans(w.all, u.all, v.all);
  }

  /** Removes a queued transaction by its hash. */
  method RemoveQueuedAt(v: Views, head: Head, a: Address, n: nat, bump: nat, ghost dirty: set<Address>)
    returns (w: Views)
    requires Agree(v, 0, map[], {}) && n in At(v.queue, a)
    ensures QueueAside(v, w, head, dirty) && Is(w.queue, Store(v.queue, a, At(v.queue, a) - {n}))
    ensures Total(w.queue) == Total(v.queue) - 1
  {
    var t := At(v.queue, a)[n];
    QueuedFacts(v.pending, v.queue, v.all, a, n);
    w := RemoveTx(v, head, t.hash, true, bump, {});
    WithinSelf(v.all);
    WithinMinus(v.all, v.all, t.hash);
    TotalStore(v.queue, a, At(v.queue, a) - {n});
    if InStep(v, head, dirty) {
      RemovedInStep(v, w, head, dirty, t);
    }
  }

  /** Removes the `count` highest nonces of account `a`'s queue. */
  method DropQueuedTop(v: Views, head: Head, a: Address, count: nat, bump: nat, ghost dirty: set<Address>)
    returns (w: Views)
    requires Agree(v, 0, map[], {}) && count <= |At(v.queue, a)|
    ensures QueueAside(v, w, head, dirty) && Is(w.queue, Store(v.queue, a, At(w.queue, a)))
    ensures LowestPart(At(v.queue, a), At(w.queue, a), |At(w.queue, a)|)
    ensures |At(w.queue, a)| == |At(v.queue, a)| - count && Total(w.queue) == Total(v.queue) - count
  {
    w := v;
    WithinSelf(v.all);
    assert Full(v.queue, a);
    StoreSelf(v.queue, a);
    var left := count;
    while left > 0
      invariant 0 <= left <= count && QueueAside(v, w, head, dirty) && Is(w.queue, Store(v.queue, a, At(w.queue, a)))
      invariant LowestPart(At(v.queue, a), At(w.queue, a), |At(w.queue, a)|)
      invariant |At(w.queue, a)| == |At(v.queue, a)| - count + left && Total(w.queue) == Total(v.queue) - count + left
    {
      var list: Items := At(w.queue, a);
      var n := HighestNonce(list);
      LowestStep(At(v.queue, a), list, n);
      StoreTwice(v.queue, a, list, list - {n});
      ghost var before := w;
      w := RemoveQueuedAt(w, head, a, n, bump, dirty);
      QueueAsideTrans(v, before, w, head, dirty);
      left := left - 1;
    }
  }

  /** `Elems(addresses)` are the remote accounts that still have queued transactions. */
  ghost predicate Remaining(w: Views, locals: set<Address>, addresses: seq<Address>) {
    && Distinct(addresses)
    && (forall a | a in w.queue && a !in locals :: a in addresses)
    && (forall a | a in addresses :: a in w.queue && a !in locals)
  }

  /** The last heartbeat, an account without one being older than any other. */
  function Beat(v: Views, a: Address): nat {
    if a in v.beats then v.beats[a] + 1 else 0
  }

  method RemoteQueues(v: Views, locals: set<Address>) returns (addresses: seq<Address>)
    ensures Remaining(v, locals, addresses) && Sorting.SortedBy((a: Address) => Beat(v, a), addresses)
  {
    var listed: seq<Address> := [];
    var todo := v.queue.Keys - locals;
    while todo != {}
      invariant todo <= v.queue.Keys - locals && Distinct(listed)
      invariant forall a | a in v.queue && a !in locals :: a in todo || a in listed
      invariant forall a | a in listed :: a in v.queue && a !in locals && a !in todo
    {
      var a :| a in todo;
      listed, todo := listed + [a], todo - {a};
    }
    addresses := Sorting.Sort((a: Address) => Beat(v, a), listed);
    SortedSame(addresses, listed);
  }

  lemma SortedSame(s: seq<Address>, t: seq<Address>)
    requires multiset(s) == multiset(t) && Distinct(t)
    ensures Distinct(s) && forall a :: a in s <==> a in t
  {
    forall a
      ensures a in s <==> a in t
    {
      assert a in s <==> a in multiset(s);
      assert a in t <==> a in multiset(t);
    }
    forall i, j | 0 <= i < j < |s|
      ensures s[i] != s[j]
    {
      CountTwice(s, i, j);
      OccursOnce(t, s[i]);
    }
  }

  lemma {:induction false} OccursOnce(s: seq<Address>, a: Address)
    requires Distinct(s)
    ensures multiset(s)[a] <= 1
  {
    if s != [] {
      assert s == [s[0]] + s[1..];
      OccursOnce(s[1..], a);
      if s[0] == a {
        assert a !in s[1..];
      }
    }
  }

  /** No remote account loses anything while one with a later heartbeat keeps something. */
  ghost predicate NewestFirst(v: Views, w: Views, locals: set<Address>) {
    forall a, b {:trigger Beat(v, a), Beat(v, b)} | a !in locals && b !in locals && Beat(v, a) < Beat(v, b) ::
      Is(At(w.queue, a), At(v.queue, a)) || At(w.queue, b) == map[]
  }

  /** Truncation ends with the queue at its limit or with local accounts only, and spares those. */
  ghost predicate Truncated(v: Views, w: Views, locals: set<Address>, limit: nat) {
    && Trimmed(v, w, locals) && NewestFirst(v, w, locals)
    && (if Total(v.queue) <= limit then Is(w, v)
        else Total(w.queue) == limit || forall a | a in w.queue :: a in locals)
  }

  lemma TrimStep(v: Views, u: Views, w: Views, spared: set<Address>, a: Address)
    requires Trimmed(v, u, spared) && a !in spared && LowestPart(At(u.queue, a), At(w.queue, a), |At(w.queue, a)|)
    requires Is(w.queue, Store(u.queue, a, At(w.queue, a)))
    ensures Trimmed(v, w, spared)
  {
    forall b
      ensures TrimmedAt(v, w, spared, b)
    {
      assert TrimmedAt(v, u, spared, b);
      if b == a {
        LowestTrans(At(v.queue, a), At(u.queue, a), At(w.queue, a), |At(u.queue, a)|, |At(w.queue, a)|);
      } else {
        StoreElsewhere(u.queue, a, At(w.queue, a), b);
      }
    }
  }

  lemma TrimSelf(v: Views, spared: set<Address>)
    ensures Trimmed(v, v, spared)
  {
    forall b
      ensures TrimmedAt(v, v, spared, b)
    {
    }
  }

  /** Emptying the last account's queue leaves the others remaining. */
  lemma RemainingLess(u: Views, w: Views, locals: set<Address>, addresses: seq<Address>)
    requires Remaining(u, locals, addresses) && addresses != []
    requires var a := addresses[|addresses| - 1]; Is(w.queue, Store(u.queue, a, map[]))
    ensures Remaining(w, locals, addresses[..|addresses| - 1])
  {
    var k := |addresses| - 1;
    assert addresses == addresses[..k] + [addresses[k]];
  }

  /** The accounts of `order` before position `k` are untouched and those after it are empty. */
  ghost predicate CutFrom(v: Views, w: Views, order: seq<Address>, k: nat) {
    && (forall a | a in v.queue && a !in order :: Is(At(w.queue, a), At(v.queue, a)))
    && (forall j | 0 <= j < |order| && j < k :: Is(At(w.queue, order[j]), At(v.queue, order[j])))
    && (forall j | k < j < |order| :: At(w.queue, order[j]) == map[])
  }

  lemma CutNext(v: Views, u: Views, w: Views, order: seq<Address>, k: nat, from: nat)
    requires Distinct(order) && from == k + 1 && k < |order| && CutFrom(v, u, order, from)
    requires from < |order| ==> At(u.queue, order[from]) == map[]
    requires Is(w.queue, Store(u.queue, order[k], At(w.queue, order[k])))
    ensures CutFrom(v, w, order, k)
  {
    forall a | a in v.queue && a !in order
      ensures Is(At(w.queue, a), At(v.queue, a))
    {
      StoreElsewhere(u.queue, order[k], At(w.queue, order[k]), a);
    }
    forall j | 0 <= j < |order| && j != k
      ensures Is(At(w.queue, order[j]), At(u.queue, order[j]))
    {
      StoreElsewhere(u.queue, order[k], At(w.queue, order[k]), order[j]);
    }
  }

  /** Going through the accounts from the latest heartbeat back cuts newest first. */
  lemma CutNewest(v: Views, w: Views, locals: set<Address>, order: seq<Address>, k: nat)
    requires Remaining(v, locals, order) && Sorting.SortedBy((a: Address) => Beat(v, a), order)
    requires CutFrom(v, w, order, k) && Trimmed(v, w, locals)
    ensures NewestFirst(v, w, locals)
  {
    forall a, b | a !in locals && b !in locals && Beat(v, a) < Beat(v, b)
      ensures Is(At(w.queue, a), At(v.queue, a)) || At(w.queue, b) == map[]
    {
      assert TrimmedAt(v, w, locals, a) && TrimmedAt(v, w, locals, b);
      if a in v.queue && b in v.queue {
        assert a in order && b in order;
        var i :| 0 <= i < |order| && order[i] == a;
        var j :| 0 <= j < |order| && order[j] == b;
        assert i < j;
      }
    }
  }

  /** The state of the truncation once the accounts from position `k` on have been gone through. */
  ghost predicate Truncating(v: Views, w: Views, locals: set<Address>, order: seq<Address>, k: nat, drop: nat) {
    && Trimmed(v, w, locals) && k <= |order| && CutFrom(v, w, order, k)
    && (drop > 0 ==> Remaining(w, locals, order[..k]) && (k < |order| ==> At(w.queue, order[k]) == map[]))
  }

  lemma TruncatingNext(v: Views, u: Views, w: Views, locals: set<Address>, order: seq<Address>, k: nat, from: nat,
                       drop: nat, left: nat)
    requires Distinct(order) && from == k + 1 && k < |order| && drop > 0 && Truncating(v, u, locals, order, from, drop)
    requires order[k] !in locals && LowestPart(At(u.queue, order[k]), At(w.queue, order[k]), |At(w.queue, order[k])|)
    requires Is(w.queue, Store(u.queue, order[k], At(w.queue, order[k])))
    requires left > 0 ==> At(w.queue, order[k]) == map[]
    ensures Truncating(v, w, locals, order, k, left)
  {
    TrimStep(v, u, w, locals, order[k]);
    CutNext(v, u, w, order, k, from);
    if left > 0 {
      var addresses := order[..from];
      assert addresses[k] == order[k] && addresses[..k] == order[..k] && |addresses| - 1 == k;
      RemainingLess(u, w, locals, addresses);
    }
  }

  /** The account with the latest heartbeat loses its highest nonces, or all of them. */
  method TruncateNext(v: Views, head: Head, locals: set<Address>, order: seq<Address>, k: nat, drop: nat, bump: nat,
                      ghost start: Views, ghost from: nat, ghost dirty: set<Address>)
    returns (w: Views, left: nat)
    requires Agree(v, 0, map[], {}) && Distinct(order) && from == k + 1 && k < |order| && drop > 0
    requires Truncating(start, v, locals, order, from, drop)
    ensures QueueAside(v, w, head, dirty) && Truncating(start, w, locals, order, k, left)
    ensures Total(w.queue) + drop == Total(v.queue) + left
  {
    var a := order[k];
    assert order[..from][k] == a;
    var size := |At(v.queue, a)|;
    var count := if size <= drop then size else drop;
    w := DropQueuedTop(v, head, a, count, bump, dirty);
    left := drop - count;
    assert left > 0 ==> At(w.queue, a) == map[];
    TruncatingNext(start, v, w, locals, order, k, from, drop, left);
  }

  /** The queue half of `promoteExecutables`' limits. */
  method TruncateQueue(v: Views, head: Head, locals: set<Address>, limit: nat, bump: nat, ghost dirty: set<Address>)
    returns (w: Views)
    requires Agree(v, 0, map[], {})
    ensures QueueAside(v, w, head, dirty) && Truncated(v, w, locals, limit)
  {
    w := v;
    WithinSelf(v.all);
    TrimSelf(v, locals);
    var queued := CountAll(v.queue);
    if queued <= limit {
      return;
    }
    var addresses := RemoteQueues(v, locals);
    var drop: nat, k := queued - limit, |addresses|;
    assert addresses[..k] == addresses;
    while drop > 0 && k > 0
      invariant k <= |addresses| && QueueAside(v, w, head, dirty) && Truncating(v, w, locals, addresses, k, drop)
      invariant Total(w.queue) == limit + drop
      decreases k
    {
      ghost var before := w;
      k := k - 1;
      w, drop := TruncateNext(w, head, locals, addresses, k, drop, bump, v, k + 1, dirty);
      QueueAsideTrans(v, before, w, head, dirty);
    }
    CutNewest(v, w, locals, addresses, k);
  }
}
