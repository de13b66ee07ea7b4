/**
 Garbage collection of state tries in core/blockchain.go: every block write takes a metadata
 reference on its state root and queues the root by block number; roots more than `TRIES_IN_MEMORY`
 blocks behind the block just written lose their reference.
 */
module TrieGC {
  import opened Values

  type Root = nat

  const TRIES_IN_MEMORY: nat := 128

  datatype Queued = Queued(root: Root, number: nat)

  /** The queue, in no particular order, and for each root references minus dereferences. */
  datatype Gc = Gc(queue: seq<Queued>, balance: map<Root, int>)

  function Balance(gc: Gc, r: Root): int {
    if r in gc.balance then gc.balance[r] else 0
  }

  function Referenced(gc: Gc, r: Root): Gc {
    gc.(balance := gc.balance[r := Balance(gc, r) + 1])
  }

  function Dereferenced(gc: Gc, r: Root): Gc {
    gc.(balance := gc.balance[r := Balance(gc, r) - 1])
  }

  /** How often a root is queued. */
  function Count(queue: seq<Queued>, r: Root): nat {
    if queue == [] then 0 else Count(queue[1..], r) + if queue[0].root == r then 1 else 0
  }

  lemma {:induction false} CountAppend(x: seq<Queued>, y: seq<Queued>, r: Root)
    ensures Count(x + y, r) == Count(x, r) + Count(y, r)
  {
    if x == [] {
      assert x + y == y;
    } else {
      assert (x + y)[1..] == x[1..] + y;
      CountAppend(x[1..], y, r);
    }
  }

  /** The references held on each root are exactly its occurrences in the queue. */
  ghost predicate Balanced(gc: Gc) {
    forall r {:trigger Balance(gc, r)} :: Balance(gc, r) == Count(gc.queue, r)
  }

  function Without(queue: seq<Queued>, i: nat): seq<Queued>
    requires i < |queue|
  {
    queue[..i] + queue[i + 1..]
  }

  lemma CountWithout(queue: seq<Queued>, i: nat, r: Root)
    requires i < |queue|
    ensures Count(queue, r) == Count(Without(queue, i), r) + if queue[i].root == r then 1 else 0
  {
    assert queue == queue[..i] + ([queue[i]] + queue[i + 1..]);
    CountAppend(queue[..i], [queue[i]] + queue[i + 1..], r);
    CountAppend([queue[i]], queue[i + 1..], r);
    CountAppend(queue[..i], queue[i + 1..], r);
  }

  /** `prque.Pop` with priorities `-number`: the position of a root with the lowest number. */
  method Lowest(queue: seq<Queued>) returns (i: nat)
    requires queue != []
    ensures i < |queue| && forall q | q in queue :: queue[i].number <= q.number
  {
    i := 0;
    for k := 0 to |queue|
      invariant i < |queue| && forall j | 0 <= j < k :: queue[i].number <= queue[j].number
    {
      if queue[k].number < queue[i].number {
        i := k;
      }
    }
  }

  lemma PushBalanced(gc: Gc, q: Queued)
    requires Balanced(gc)
    ensures Balanced(Referenced(gc, q.root).(queue := gc.queue + [q]))
  {
    var after := Referenced(gc, q.root).(queue := gc.queue + [q]);
    forall r
      ensures Balance(after, r) == Count(after.queue, r)
    {
      assert Balance(gc, r) == Count(gc.queue, r);
      CountAppend(gc.queue, [q], r);
    }
  }

  lemma PopBalanced(gc: Gc, i: nat)
    requires Balanced(gc) && i < |gc.queue|
    ensures Balanced(Dereferenced(gc, gc.queue[i].root).(queue := Without(gc.queue, i)))
  {
    var after := Dereferenced(gc, gc.queue[i].root).(queue := Without(gc.queue, i));
    forall r
      ensures Balance(after, r) == Count(after.queue, r)
    {
      assert Balance(gc, r) == Count(gc.queue, r);
      CountWithout(gc.queue, i, r);
    }
  }

  predicate Ascending(queue: seq<Queued>) {
    forall i, j | 0 <= i < j < |queue| :: queue[i].number <= queue[j].number
  }

  /**
   What one block write does: its root is queued, and of all queued roots exactly those at least
   `TRIES_IN_MEMORY` blocks below it are dropped, lowest first, and none before that height.
   */
  ghost predicate Collected(gc: Gc, q: Queued, r: Gc, dropped: seq<Queued>) {
    && multiset(r.queue) + multiset(dropped) == multiset(gc.queue) + multiset{q} && Ascending(dropped)
    && (forall d | d in dropped :: d.number + TRIES_IN_MEMORY <= q.number)
    && (q.number > TRIES_IN_MEMORY ==> forall d | d in r.queue :: d.number + TRIES_IN_MEMORY > q.number)
    && (q.number <= TRIES_IN_MEMORY ==> dropped == [])
  }

  ghost predicate Before(dropped: seq<Queued>, queue: seq<Queued>) {
    forall d, q | d in dropped && q in queue :: d.number <= q.number
  }

  lemma PopAscending(dropped: seq<Queued>, queue: seq<Queued>, i: nat)
    requires Ascending(dropped) && Before(dropped, queue) && i < |queue|
    requires forall q | q in queue :: queue[i].number <= q.number
    ensures Ascending(dropped + [queue[i]]) && Before(dropped + [queue[i]], Without(queue, i))
    ensures multiset(queue) == multiset(Without(queue, i)) + multiset{queue[i]}
  {
    assert queue == queue[..i] + [queue[i]] + queue[i + 1..];
  }

  /** The garbage collection of one block write. */
  method WriteRoot(gc: Gc, root: Root, number: nat) returns (r: Gc, dropped: seq<Queued>)
    requires Balanced(gc)
    ensures Balanced(r) && Collected(gc, Queued(root, number), r, dropped)
  {
    PushBalanced(gc, Queued(root, number));
    r := Referenced(gc, root).(queue := gc.queue + [Queued(root, number)]);
    dropped := [];
    if number > TRIES_IN_MEMORY {
      var chosen := number - TRIES_IN_MEMORY;
      while r.queue != []
        invariant Balanced(r) && forall q | q in dropped :: q.number <= chosen
        invariant multiset(r.queue) + multiset(dropped) == multiset(gc.queue) + multiset{Queued(root, number)}
        invariant Ascending(dropped) && Before(dropped, r.queue)
        decreases |r.queue|
      {
        var i := Lowest(r.queue);
        var q := r.queue[i];
        if q.number > chosen {
          break;
        }
        PopBalanced(r, i);
        PopAscending(dropped, r.queue, i);
        r := Dereferenced(r, q.root).(queue := Without(r.queue, i));
        dropped := dropped + [q];
      }
    }
  }

  /** The last act of `Stop`: every queued root is dereferenced, lowest first, and no reference is left. */
  method Drain(gc: Gc) returns (r: Gc, dropped: seq<Queued>)
    requires Balanced(gc)
    ensures r.queue == [] && multiset(dropped) == multiset(gc.queue) && Ascending(dropped)
    ensures forall root :: Balance(r, root) == 0
  {
    r, dropped := gc, [];
    while r.queue != []
      invariant Balanced(r) && multiset(r.queue) + multiset(dropped) == multiset(gc.queue)
      invariant Ascending(dropped) && Before(dropped, r.queue)
      decreases |r.queue|
    {
      var i := Lowest(r.queue);
      var q := r.queue[i];
      PopBalanced(r, i);
      PopAscending(dropped, r.queue, i);
      r := Dereferenced(r, q.root).(queue := Without(r.queue, i));
      dropped := dropped + [q];
    }
  }

  ghost function CollectOf(): (Gc, (Queued, seq<Queued>), Gc) -> bool {
    (gc: Gc, step: (Queued, seq<Queued>), r: Gc) => Collected(gc, step.0, r, step.1)
  }

  /** The states of the collector over a sequence of writes, and what each of them dropped. */
  ghost predicate Run(trace: seq<Gc>, writes: seq<Queued>, dropped: seq<seq<Queued>>) {
    |dropped| == |writes| && Trace(CollectOf(), trace, Zip(writes, dropped))
  }

  /**
   Any sequence of block writes and then `Stop`: every write collects as it should, references match
   the queue after each of them, and `Stop` drops exactly the roots still queued, which leaves no reference.
   */
  method RunWrites(writes: seq<Queued>)
    returns (stopped: Gc, dropped: seq<seq<Queued>>, rest: seq<Queued>, ghost trace: seq<Gc>)
    ensures Run(trace, writes, dropped) && trace[0] == Gc([], map[]) && forall gc | gc in trace :: Balanced(gc)
    ensures multiset(rest) == multiset(Last(trace).queue) && Ascending(rest)
    ensures stopped.queue == [] && forall root :: Balance(stopped, root) == 0
  {
    var gc := Gc([], map[]);
    dropped, trace := [], [gc];
    ghost var done: seq<Queued> := [];
    for i := 0 to |writes|
      invariant done == writes[..i] && Run(trace, done, dropped) && trace[0] == Gc([], map[]) && Last(trace) == gc
      invariant forall g | g in trace :: Balanced(g)
    {
      var more;
      gc, more := WriteRoot(gc, writes[i].root, writes[i].number);
      ZipMore(done, dropped, writes[i], more);
      TraceMore(CollectOf(), trace, Zip(done, dropped), (writes[i], more), gc);
      dropped, trace, done := dropped + [more], trace + [gc], done + [writes[i]];
    }
    assert done == writes;
    stopped, rest := Drain(gc);
  }
}
