/**
 The chain indexer of core/chain_indexer.go: sections of the canonical chain are processed without
 the lock while new heads and reorgs arrive, and finished sections cascade to child indexers.
 */
module ChainIndexers {
  import opened Values
  import opened BlockTree

  type Heads = map<nat, Hash>

  /** The section being processed: the head it builds on, the headers read so far, and whether it failed. */
  datatype Job = Unlocked(section: nat, oldHead: Hash, trail: seq<Block>, failed: bool) | NoJob

  datatype Indexer = Indexer(size: nat, confirms: nat, stored: nat, known: nat, cascaded: nat, heads: Heads, job: Job,
                             children: seq<Indexer>)

  /** Consecutive headers from number `first` on, the first of which builds on `prev`. */
  predicate Trail(prev: Hash, t: seq<Block>, first: nat) {
    forall i {:trigger t[i]} | 0 <= i < |t| ::
      t[i].number == first + i && t[i].hash != EMPTY && t[i].parent == if i == 0 then prev else t[i - 1].hash
  }

  function SectionHead(heads: Heads, section: int): Hash {
    if section >= 0 && section in heads then heads[section] else EMPTY
  }

  /** The section's head is the last of `size` linked headers that start right after the previous section's head. */
  ghost predicate Covers(heads: Heads, size: nat, k: nat, t: seq<Block>) {
    |t| == size > 0 && Trail(SectionHead(heads, k - 1), t, k * size) && t[size - 1].hash == SectionHead(heads, k)
  }

  /** Below the stored count every section has a head that covers it; at and above it there are none. */
  ghost predicate SectionAt(heads: Heads, stored: nat, size: nat, k: nat) {
    if k < stored then k in heads && heads[k] != EMPTY && exists t :: Covers(heads, size, k, t) else k !in heads
  }

  ghost predicate Sections(heads: Heads, stored: nat, size: nat) {
    forall k {:trigger SectionAt(heads, stored, size, k)} :: SectionAt(heads, stored, size, k)
  }

  ghost predicate JobOk(ix: Indexer) {
    ix.job.Unlocked? ==>
      && ix.stored <= ix.job.section && ix.stored <= ix.known && |ix.job.trail| <= ix.size
      && Trail(ix.job.oldHead, ix.job.trail, ix.job.section * ix.size)
      && (ix.job.oldHead == EMPTY <==> ix.job.section == 0)
      && (ix.stored == ix.job.section ==> ix.job.oldHead == SectionHead(ix.heads, ix.job.section - 1))
  }

  ghost predicate Consistent(ix: Indexer) {
    ix.size > 0 && Sections(ix.heads, ix.stored, ix.size) && JobOk(ix)
  }

  /** The stored sections of this indexer and of all below it are parent-linked chains. */
  ghost predicate Chained(ix: Indexer) {
    Consistent(ix) && forall i | 0 <= i < |ix.children| :: Chained(ix.children[i])
  }

  function Known(ix: Indexer): nat {
    ix.known * ix.size
  }

  function Stored(ix: Indexer): nat {
    ix.stored * ix.size
  }

  /**
   The child knows no block past those the parent has stored. What makes it inductive: a reorg that
   the parent does not pass on leaves the cascaded head alone, so the child must be below that, or
   the cascaded head is the last stored block and every reorg of a stored section is passed on.
   */
  predicate Within(parent: Indexer, child: Indexer) {
    Known(child) <= Stored(parent) && (Known(child) <= parent.cascaded || parent.cascaded + 1 == Stored(parent))
  }

  /** Every child is within its parent, and indexers with children have sections of at least two blocks. */
  ghost predicate Nested(ix: Indexer) {
    && (ix.children != [] ==> ix.size >= 2)
    && forall i | 0 <= i < |ix.children| :: Within(ix, ix.children[i]) && Nested(ix.children[i])
  }

  ghost predicate Same(ix: Indexer, r: Indexer) {
    r.size == ix.size && r.confirms == ix.confirms && |r.children| == |ix.children|
  }

  /** How many sections of the chain up to `head` have all their confirmations. */
  function Complete(ix: Indexer, head: nat): nat
    requires ix.size > 0
  {
    if head >= ix.confirms then (head + 1 - ix.confirms) / ix.size else 0
  }

  /** Where a reorg to `head` cuts: the end of the last whole section. */
  function Cut(ix: Indexer, head: nat): nat
    requires ix.size > 0
  {
    head / ix.size * ix.size
  }

  lemma CompleteBound(ix: Indexer, head: nat)
    requires ix.size > 0
    ensures Complete(ix, head) * ix.size <= head + 1
  {
    if head >= ix.confirms {
      Whole(head + 1 - ix.confirms, ix.size);
    }
  }

  /** No section is complete without its confirmations, and the next one lacks some. */
  lemma CompleteExactly(ix: Indexer, head: nat)
    requires ix.size > 0
    ensures var n := Complete(ix, head);
            && (n > 0 ==> n * ix.size + ix.confirms <= head + 1)
            && (n + 1) * ix.size + ix.confirms > head + 1
  {
    if head >= ix.confirms {
      var blocks := head + 1 - ix.confirms;
      assert blocks == blocks / ix.size * ix.size + blocks % ix.size;
      assert (blocks / ix.size + 1) * ix.size == blocks / ix.size * ix.size + ix.size;
    }
  }

  lemma Scale(a: nat, b: nat, size: nat)
    requires a <= b
    ensures a * size <= b * size
  {
  }

  lemma Gap(a: nat, b: nat, size: nat)
    requires a < b
    ensures a * size + size <= b * size
  {
    Scale(a + 1, b, size);
  }

  lemma Whole(head: nat, size: nat)
    requires size > 0
    ensures head / size * size <= head
  {
  }

  function Below(heads: Heads, sections: nat): Heads {
    map k | k in heads && k < sections :: heads[k]
  }

  function Without(heads: Heads, lo: nat, hi: nat): Heads {
    map k | k in heads && !(lo <= k < hi) :: heads[k]
  }

  lemma WithoutNone(heads: Heads, lo: nat, hi: nat)
    requires hi <= lo
    ensures Without(heads, lo, hi) == heads
  {
  }

  /**
   `setValidSections`: lowering the count removes exactly the heads from the new count up to the old,
   raising it none.
   */
  method SetValidSections(heads: Heads, stored: nat, sections: nat) returns (r: Heads, count: nat)
    ensures r == Without(heads, sections, stored) && count == sections
  {
    r, count := heads, stored;
    while count > sections
      invariant Min(stored, sections) <= count <= stored && r == Without(heads, count, stored)
    {
      count := count - 1;
      r := r - {count};
    }
    count := sections;
  }

  /** After lowering it there is a head for every section below the count, covering it, and none above. */
  lemma Truncated(heads: Heads, stored: nat, sections: nat, size: nat)
    requires Sections(heads, stored, size) && sections <= stored
    ensures Without(heads, sections, stored) == Below(heads, sections)
    ensures Sections(Below(heads, sections), sections, size)
  {
    var r := Below(heads, sections);
    forall k: nat
      ensures SectionAt(r, sections, size, k) && (k in heads ==> k < stored)
    {
      assert SectionAt(heads, stored, size, k);
      if k < sections {
        var t :| Covers(heads, size, k, t);
        assert Covers(r, size, k, t);
      }
    }
  }

  /** A finished section extends the chain. */
  lemma Extended(heads: Heads, stored: nat, size: nat, t: seq<Block>)
    requires Sections(heads, stored, size) && |t| == size > 0 && Trail(SectionHead(heads, stored - 1), t, stored * size)
    ensures Sections(heads[stored := t[size - 1].hash], stored + 1, size)
  {
    var r, next := heads[stored := t[size - 1].hash], stored + 1;
    forall k: nat
      ensures SectionAt(r, next, size, k)
    {
      assert SectionAt(heads, stored, size, k);
      if k < stored {
        var u :| Covers(heads, size, k, u);
        assert Covers(r, size, k, u);
      } else if k == stored {
        assert Covers(r, size, k, t);
      }
    }
  }

  /** What a head or a reorg does to an indexer, and to its children. */
  ghost function HeadOn(ix: Indexer, head: nat, reorg: bool): Indexer
    requires Chained(ix)
    decreases ix
  {
    if reorg then
      var cut, stored := Cut(ix, head), Min(ix.stored, head / ix.size);
      ix.(stored := stored, known := Min(ix.known, head / ix.size), heads := Below(ix.heads, stored),
          cascaded := Min(ix.cascaded, cut),
          children := if cut < ix.cascaded then HeadsOn(ix, cut, true) else ix.children)
    else
      ix.(known := Max(ix.known, Complete(ix, head)))
  }

  ghost function HeadsOn(ix: Indexer, head: nat, reorg: bool): seq<Indexer>
    requires Chained(ix)
    decreases ix, 0
  {
    seq(|ix.children|, i requires 0 <= i < |ix.children| => HeadOn(ix.children[i], head, reorg))
  }

  /** The indexer's own part of a reorg. */
  method Rewind(ix: Indexer, known: nat) returns (r: Indexer)
    requires Consistent(ix)
    ensures Consistent(r) && r.stored == Min(ix.stored, known) && r.known == Min(ix.known, known)
    ensures r == ix.(stored := r.stored, known := r.known, heads := Below(ix.heads, r.stored))
  {
    r := ix;
    Truncated(ix.heads, ix.stored, Min(ix.stored, known), ix.size);
    if known < r.known {
      r := r.(known := known);
    }
    if known < r.stored {
      var heads, stored := SetValidSections(r.heads, r.stored, known);
      r := r.(heads := heads, stored := stored);
    }
  }

  /** A reorg that is not passed on leaves the children within the stored range. */
  lemma NotPassed(ix: Indexer, r: Indexer, child: Indexer, known: nat)
    requires Within(ix, child) && ix.size >= 2 && known * ix.size >= ix.cascaded
    requires r.size == ix.size && r.cascaded == ix.cascaded && r.stored == Min(ix.stored, known)
    ensures Within(r, child)
  {
    if known < ix.stored {
      Gap(known, ix.stored, ix.size);
    }
  }

  /** One that is passed on cuts them back to it. */
  lemma Passed(ix: Indexer, r: Indexer, before: Indexer, child: Indexer, known: nat)
    requires Within(ix, before) && Known(child) <= Known(before) && Known(child) <= known * ix.size
    requires r.size == ix.size && r.cascaded == known * ix.size && r.stored == Min(ix.stored, known)
    ensures Within(r, child)
  {
  }

  /**
   `newHead`. A reorg truncates to whole sections and is passed on if it reaches below the cascaded head.
   Any other head makes exactly those sections known that have all their confirmations below it.
   */
  method NewHead(ix: Indexer, head: nat, reorg: bool) returns (r: Indexer)
    requires Chained(ix)
    ensures Chained(r) && Same(ix, r) && (Nested(ix) ==> Nested(r)) && r == HeadOn(ix, head, reorg)
    ensures r.known > ix.known ==> !reorg && Known(r) + ix.confirms <= head + 1
    ensures !reorg ==> (r.known + 1) * ix.size + ix.confirms > head + 1
    decreases ix
  {
    r := ix;
    Confirms(ix, head, reorg);
    if reorg {
      var known := head / ix.size;
      r := Rewind(ix, known);
      var cut := Cut(ix, head);
      if cut < r.cascaded {
        var children := NewHeads(ix, cut, true);
        r := r.(cascaded := cut, children := children);
        forall i | Nested(ix) && 0 <= i < |children|
          ensures Within(r, children[i])
        {
          Passed(ix, r, ix.children[i], children[i], known);
        }
      } else {
        forall i | Nested(ix) && 0 <= i < |ix.children|
          ensures Within(r, ix.children[i])
        {
          NotPassed(ix, r, ix.children[i], known);
        }
      }
      return;
    }
    if head >= ix.confirms {
      var sections := (head + 1 - ix.confirms) / ix.size;
      if sections > r.known {
        r := r.(known := sections);
      }
    }
  }

  /** Sections become known with their confirmations, and no later. */
  lemma Confirms(ix: Indexer, head: nat, reorg: bool)
    requires Chained(ix)
    ensures var r := HeadOn(ix, head, reorg);
            && (r.known > ix.known ==> !reorg && Known(r) + ix.confirms <= head + 1)
            && (!reorg ==> (r.known + 1) * ix.size + ix.confirms > head + 1)
  {
    CompleteExactly(ix, head);
    Scale(Complete(ix, head) + 1, Max(ix.known, Complete(ix, head)) + 1, ix.size);
  }

  /** A reorg takes exactly the sections that end at or above it, of those known and of those stored. */
  lemma ReorgTakes(ix: Indexer, head: nat, k: nat)
    requires Chained(ix)
    ensures var r := HeadOn(ix, head, true);
            && (k < r.known <==> k < ix.known && (k + 1) * ix.size <= head)
            && (k in r.heads <==> k in ix.heads && (k + 1) * ix.size <= head)
            && (k in r.heads ==> r.heads[k] == ix.heads[k])
  {
    WholeIff(head, ix.size, k);
    assert SectionAt(ix.heads, ix.stored, ix.size, k);
  }

  lemma WholeIff(head: nat, size: nat, k: nat)
    requires size > 0
    ensures k < head / size <==> (k + 1) * size <= head
  {
    var n := head / size;
    assert head == n * size + head % size;
    assert (k + 1) * size == k * size + size;
    if k < n {
      Gap(k, n, size);
    } else {
      Scale(n, k, size);
    }
  }

  /** A reorg leaves nothing known past it, and a head nothing new. */
  lemma KnownBound(ix: Indexer, head: nat, reorg: bool)
    requires Chained(ix)
    ensures var r := HeadOn(ix, head, reorg);
            if reorg then Known(r) <= Known(ix) && Known(r) <= head else Known(r) <= Known(ix) || Known(r) <= head + 1
  {
    var r := HeadOn(ix, head, reorg);
    if reorg {
      Whole(head, ix.size);
      Scale(r.known, head / ix.size, ix.size);
      Scale(r.known, ix.known, ix.size);
    } else {
      CompleteBound(ix, head);
    }
  }

  /** What a parent can rely on after it has told a child. */
  ghost predicate Told(before: Indexer, head: nat, reorg: bool, child: Indexer) {
    && Chained(before) && Chained(child) && child == HeadOn(before, head, reorg) && (Nested(before) ==> Nested(child))
    && if reorg then Known(child) <= Known(before) && Known(child) <= head
       else Known(child) <= Known(before) || Known(child) <= head + 1
  }

  /** The loop over the children. */
  method NewHeads(ix: Indexer, head: nat, reorg: bool) returns (r: seq<Indexer>)
    requires Chained(ix)
    ensures |r| == |ix.children| && forall i {:trigger r[i]} | 0 <= i < |r| :: Told(ix.children[i], head, reorg, r[i])
    decreases ix, 0
  {
    r := [];
    for i := 0 to |ix.children|
      invariant |r| == i && forall j {:trigger r[j]} | 0 <= j < i :: Told(ix.children[j], head, reorg, r[j])
    {
      var child := NewHead(ix.children[i], head, reorg);
      KnownBound(ix.children[i], head, reorg);
      r := r + [child];
    }
  }

  /** What an indexer's own update loop does next. */
  datatype Work = Start | ResetError | Read(header: Option<Block>) | Fail | End

  predicate Enabled(ix: Indexer, work: Work) {
    match work
    case Start => ix.job == NoJob && ix.known > ix.stored
    case Read(header) =>
      && ix.job.Unlocked? && !ix.job.failed && |ix.job.trail| < ix.size
      && (header.Some? ==>
            header.value.hash != EMPTY && header.value.number == ix.job.section * ix.size + |ix.job.trail|)
    case ResetError => ix.job.Unlocked? && ix.job.trail == []
    case Fail => ix.job.Unlocked?
    case End => ix.job.Unlocked? && (ix.job.failed || |ix.job.trail| == ix.size)
  }

  function LastHead(job: Job): Hash
    requires job.Unlocked?
  {
    if job.trail == [] then job.oldHead else job.trail[|job.trail| - 1].hash
  }

  /** A section counts exactly if nothing failed and no reorg truncated the sections it builds on. */
  predicate Accepted(ix: Indexer)
    requires ix.job.Unlocked?
  {
    !ix.job.failed && ix.stored == ix.job.section
  }

  /** What a step of the update loop does; one that is not enabled is not taken. */
  ghost function WorkOn(ix: Indexer, work: Work): Indexer
    requires Chained(ix)
  {
    if !Enabled(ix, work) then ix
    else match work
      case Start => ix.(job := Unlocked(ix.stored, SectionHead(ix.heads, ix.stored - 1), [], false))
      case ResetError => ix.(heads := map[], stored := 0, job := ix.job.(failed := true))
      case Read(header) =>
        if header == None || header.value.parent != LastHead(ix.job) then ix.(job := ix.job.(failed := true))
        else ix.(job := ix.job.(trail := ix.job.trail + [header.value]))
      case Fail => ix.(job := ix.job.(failed := true))
      case End => Finished(ix)
  }

  /** A section that counts is stored, its last block cascaded and the children told; any other is forgotten. */
  ghost function Finished(ix: Indexer): Indexer
    requires Chained(ix) && ix.job.Unlocked?
  {
    if Accepted(ix) then
      Gap(ix.stored, ix.stored + 1, ix.size);
      var last := (ix.stored + 1) * ix.size - 1;
      ix.(stored := ix.stored + 1, heads := ix.heads[ix.stored := LastHead(ix.job)], cascaded := last, job := NoJob,
          children := HeadsOn(ix, last, false))
    else ix.(known := ix.stored, job := NoJob)
  }

  /** A step of the update loop of the indexer that `path` leads to. */
  ghost function WorkAt(ix: Indexer, path: seq<nat>, work: Work): Indexer
    requires Chained(ix)
    decreases path
  {
    if path == [] || path[0] >= |ix.children| then WorkOn(ix, work)
    else ix.(children := ix.children[path[0] := WorkAt(ix.children[path[0]], path[1..], work)])
  }

  /** The section to process next is noted together with the head it builds on, and the lock released. */
  method Begin(ix: Indexer) returns (r: Indexer)
    requires Consistent(ix) && ix.job == NoJob && ix.known > ix.stored
    ensures Consistent(r) && r == ix.(job := Unlocked(ix.stored, SectionHead(ix.heads, ix.stored - 1), [], false))
  {
    if ix.stored > 0 {
      assert SectionAt(ix.heads, ix.stored, ix.size, ix.stored - 1);
    }
    r := ix.(job := Unlocked(ix.stored, SectionHead(ix.heads, ix.stored - 1), [], false));
  }

  /**
   One iteration of `processSection`: the header that is canonical at this moment for the next number,
   if there is one. A header that does not build on the one read before it fails the section.
   */
  method ReadHeader(ix: Indexer, header: Option<Block>) returns (r: Indexer)
    requires Consistent(ix) && ix.job.Unlocked? && |ix.job.trail| < ix.size
    requires header.Some? ==>
               header.value.hash != EMPTY && header.value.number == ix.job.section * ix.size + |ix.job.trail|
    ensures Consistent(r) && r == ix.(job := r.job) && r.job.Unlocked? && r.job.section == ix.job.section
    ensures r.job.oldHead == ix.job.oldHead
    ensures if header.Some? && header.value.parent == LastHead(ix.job) then
              r.job.failed == ix.job.failed && r.job.trail == ix.job.trail + [header.value]
            else r.job.failed && r.job.trail == ix.job.trail
  {
    var job := ix.job;
    if header == None || header.value.parent != LastHead(job) {
      r := ix.(job := job.(failed := true));
    } else {
      r := ix.(job := job.(trail := job.trail + [header.value]));
    }
  }

  /** The comparison of heads under the lock decides just that. */
  lemma Unchanged(ix: Indexer)
    requires Consistent(ix) && ix.job.Unlocked?
    ensures ix.job.oldHead == SectionHead(ix.heads, ix.job.section - 1) <==> ix.stored == ix.job.section
  {
    if ix.job.section > 0 {
      assert SectionAt(ix.heads, ix.stored, ix.size, ix.job.section - 1);
    }
  }

  /** A processed section is stored and the cascaded head moves to its last block. */
  method StoreSection(ix: Indexer) returns (r: Indexer)
    requires Consistent(ix) && ix.job.Unlocked? && |ix.job.trail| == ix.size && Accepted(ix)
    ensures Consistent(r) && r.job == NoJob && r.stored == ix.stored + 1 && r.cascaded + 1 == Stored(r)
    ensures r == ix.(stored := r.stored, heads := ix.heads[ix.stored := LastHead(ix.job)], cascaded := r.cascaded,
                     job := NoJob)
  {
    var section := ix.job.section;
    Extended(ix.heads, section, ix.size, ix.job.trail);
    Gap(section, section + 1, ix.size);
    WithoutNone(ix.heads[section := LastHead(ix.job)], section + 1, section);
    var heads, stored := SetValidSections(ix.heads[section := LastHead(ix.job)], ix.stored, section + 1);
    r := ix.(stored := stored, heads := heads, cascaded := stored * ix.size - 1, job := NoJob);
  }

  /** The end of a job, under the lock again: the section is stored and cascaded, or forgotten. */
  method Finish(ix: Indexer) returns (r: Indexer)
    requires Chained(ix) && ix.job.Unlocked? && (ix.job.failed || |ix.job.trail| == ix.size)
    ensures Chained(r) && Same(ix, r) && (Nested(ix) ==> Nested(r)) && r == Finished(ix) && r.known <= ix.known
    ensures Accepted(ix) ==> r.cascaded + 1 == Stored(r)
  {
    Unchanged(ix);
    if !ix.job.failed && ix.job.oldHead == SectionHead(ix.heads, ix.job.section - 1) {
      var own := StoreSection(ix);
      var children := NewHeads(ix, own.cascaded, false);
      r := own.(children := children);
      Scale(ix.stored, r.stored, ix.size);
    } else {
      r := ix.(known := ix.stored, job := NoJob);
    }
  }

  /**
   A failing backend reset drops all stored sections without telling the children, who stay within
   nothing unless they know nothing.
   */
  method FailReset(ix: Indexer) returns (r: Indexer)
    requires Chained(ix) && ix.job.Unlocked?
    ensures Chained(r) && Same(ix, r) && r == ix.(heads := map[], stored := 0, job := ix.job.(failed := true))
    ensures Nested(ix) ==> (Nested(r) <==> forall i | 0 <= i < |ix.children| :: Known(ix.children[i]) == 0)
  {
    var heads, stored := SetValidSections(ix.heads, ix.stored, 0);
    Truncated(ix.heads, ix.stored, 0, ix.size);
    r := ix.(heads := heads, stored := stored, job := ix.job.(failed := true));
    assert ix.job.section > 0 ==> SectionAt(ix.heads, ix.stored, ix.size, ix.job.section - 1);
  }

  /** A step of an update loop never makes the indexer know more. */
  method DoWork(ix: Indexer, work: Work) returns (r: Indexer)
    requires Chained(ix)
    ensures Chained(r) && Same(ix, r) && r.known <= ix.known && r == WorkOn(ix, work)
    ensures Nested(ix) && work != ResetError ==> Nested(r)
  {
    if !Enabled(ix, work) {
      return ix;
    }
    match work
    case Start => r := Begin(ix);
    case ResetError => r := FailReset(ix);
    case Read(header) => r := ReadHeader(ix, header);
    case Fail => r := ix.(job := ix.job.(failed := true));
    case End => r := Finish(ix);
  }

  /** A step of the update loop of the indexer that `path` leads to. */
  method DoWorkAt(ix: Indexer, path: seq<nat>, work: Work) returns (r: Indexer)
    requires Chained(ix)
    ensures Chained(r) && Same(ix, r) && r.known <= ix.known && r == WorkAt(ix, path, work)
    ensures Nested(ix) && work != ResetError ==> Nested(r)
    decreases path
  {
    if path == [] || path[0] >= |ix.children| {
      r := DoWork(ix, work);
      return;
    }
    var before := ix.children[path[0]];
    var child := DoWorkAt(before, path[1..], work);
    Scale(child.known, before.known, child.size);
    r := ix.(children := ix.children[path[0] := child]);
  }

  datatype Event = Head(number: nat, reorg: bool) | Loop(path: seq<nat>, work: Work)

  /** What an event does to the tree of indexers. */
  ghost function After(ix: Indexer, event: Event): Indexer
    requires Chained(ix)
  {
    match event
    case Head(number, reorg) => HeadOn(ix, number, reorg)
    case Loop(path, work) => WorkAt(ix, path, work)
  }

  predicate FailsReset(event: Event) {
    event.Loop? && event.work == ResetError
  }

  ghost function AfterOf(): (Indexer, Event, Indexer) -> bool {
    (ix: Indexer, event: Event, r: Indexer) => Chained(ix) && r == After(ix, event)
  }

  /** The trees of indexers of a run, from before its first event to after its last. */
  ghost predicate Steps(trace: seq<Indexer>, events: seq<Event>) {
    Trace(AfterOf(), trace, events)
  }

  /** None of the first `n` events is a failing reset. */
  ghost predicate Calm(events: seq<Event>, n: nat)
    requires n <= |events|
  {
    forall j | 0 <= j < n :: !FailsReset(events[j])
  }

  lemma CalmMore(events: seq<Event>, event: Event)
    ensures Calm(events + [event], |events| + 1) <==> Calm(events, |events|) && !FailsReset(event)
  {
    var more := events + [event];
    assert more[|events|] == event && forall j | 0 <= j < |events| :: more[j] == events[j];
  }

  /** Tree `i` of a run: stored sections are linked and, if `calm` so far, every child is within its parent. */
  ghost predicate KeptAt(trace: seq<Indexer>, events: seq<Event>, start: Indexer, calm: bool, i: nat)
    requires |trace| == |events| + 1 && i < |trace|
  {
    Chained(trace[i]) && Same(start, trace[i]) && (calm && Calm(events, i) ==> Nested(trace[i]))
  }

  ghost predicate AllKept(trace: seq<Indexer>, events: seq<Event>, start: Indexer, calm: bool) {
    && |trace| == |events| + 1
    && forall i: nat {:trigger KeptAt(trace, events, start, calm, i)} | i < |trace| ::
         KeptAt(trace, events, start, calm, i)
  }

  lemma KeptMore(trace: seq<Indexer>, events: seq<Event>, start: Indexer, calm: bool, event: Event, r: Indexer)
    requires AllKept(trace, events, start, calm) && Chained(r) && Same(start, r)
    requires calm && Calm(events + [event], |events| + 1) ==> Nested(r)
    ensures AllKept(trace + [r], events + [event], start, calm)
  {
    var trace', events' := trace + [r], events + [event];
    forall i: nat | i < |trace'|
      ensures KeptAt(trace', events', start, calm, i)
    {
      if i < |trace| {
        assert KeptAt(trace, events, start, calm, i);
        assert forall j | 0 <= j < i :: events'[j] == events[j];
      }
    }
  }

  /** One event. */
  method Handle(ix: Indexer, event: Event) returns (r: Indexer)
    requires Chained(ix)
    ensures Chained(r) && Same(ix, r) && r == After(ix, event) && (Nested(ix) && !FailsReset(event) ==> Nested(r))
  {
    match event
    case Head(number, reorg) => r := NewHead(ix, number, reorg);
    case Loop(path, work) => r := DoWorkAt(ix, path, work);
  }

  /** An indexer on start-up: the sections of earlier runs, nothing known and nothing cascaded yet. */
  ghost predicate Attached(ix: Indexer) {
    && ix.known == 0 && ix.cascaded == 0 && ix.job == NoJob
    && forall i | 0 <= i < |ix.children| :: Attached(ix.children[i])
  }

  /** Indexers with children have sections of at least two blocks. */
  predicate Wide(ix: Indexer) {
    (ix.children != [] ==> ix.size >= 2) && forall i | 0 <= i < |ix.children| :: Wide(ix.children[i])
  }

  lemma {:induction false} AttachedNested(ix: Indexer)
    requires Attached(ix) && Wide(ix)
    ensures Nested(ix)
  {
    forall i | 0 <= i < |ix.children|
      ensures Within(ix, ix.children[i]) && Nested(ix.children[i])
    {
      AttachedNested(ix.children[i]);
    }
  }

  // Confirmations over a run.

  /**
   With `top` blocks announced, `lag` of them to spare: the known sections have their confirmations, and
   so has the section being processed; and the children's have them on top of their parent's.
   */
  ghost predicate Confirmed(ix: Indexer, top: nat, lag: nat) {
    && (ix.known > 0 ==> Known(ix) + ix.confirms + lag <= top)
    && (ix.job.Unlocked? ==> (ix.job.section + 1) * ix.size + ix.confirms + lag <= top)
    && forall i | 0 <= i < |ix.children| :: Confirmed(ix.children[i], top, lag + ix.confirms)
  }

  lemma {:induction false} ConfirmedMore(ix: Indexer, top: nat, top': nat, lag: nat)
    requires Confirmed(ix, top, lag) && top <= top'
    ensures Confirmed(ix, top', lag)
    decreases ix
  {
    forall i | 0 <= i < |ix.children|
      ensures Confirmed(ix.children[i], top', lag + ix.confirms)
    {
      ConfirmedMore(ix.children[i], top, top', lag + ix.confirms);
    }
  }

  lemma {:induction false} AttachedConfirmed(ix: Indexer, lag: nat)
    requires Attached(ix)
    ensures Confirmed(ix, 0, lag)
    decreases ix
  {
    forall i | 0 <= i < |ix.children|
      ensures Confirmed(ix.children[i], 0, lag + ix.confirms)
    {
      AttachedConfirmed(ix.children[i], lag + ix.confirms);
    }
  }

  /** A head that is covered by what was announced keeps this, and so does any reorg. */
  lemma {:induction false} HeadConfirmed(ix: Indexer, head: nat, reorg: bool, top: nat, lag: nat)
    requires Chained(ix) && Confirmed(ix, top, lag) && (!reorg ==> head + 1 + lag <= top)
    ensures Confirmed(HeadOn(ix, head, reorg), top, lag)
    decreases ix
  {
    var r := HeadOn(ix, head, reorg);
    Confirms(ix, head, reorg);
    if r.known <= ix.known {
      Scale(r.known, ix.known, ix.size);
    }
    if reorg && Cut(ix, head) < ix.cascaded {
      HeadsConfirmed(ix, Cut(ix, head), true, top, lag);
    }
  }

  lemma {:induction false} HeadsConfirmed(ix: Indexer, head: nat, reorg: bool, top: nat, lag: nat)
    requires Chained(ix) && Confirmed(ix, top, lag) && (!reorg ==> head + 1 + lag + ix.confirms <= top)
    ensures var r := HeadsOn(ix, head, reorg);
            |r| == |ix.children| && forall i | 0 <= i < |r| :: Confirmed(r[i], top, lag + ix.confirms)
    decreases ix, 0
  {
    forall i | 0 <= i < |ix.children|
      ensures Confirmed(HeadOn(ix.children[i], head, reorg), top, lag + ix.confirms)
    {
      HeadConfirmed(ix.children[i], head, reorg, top, lag + ix.confirms);
    }
  }

  lemma SameConfirmed(ix: Indexer, r: Indexer, top: nat, lag: nat)
    requires Confirmed(ix, top, lag) && r.size == ix.size && r.confirms == ix.confirms && r.known <= ix.known
    requires forall i | 0 <= i < |r.children| :: Confirmed(r.children[i], top, lag + r.confirms)
    requires r.job.Unlocked? ==> (r.job.section + 1) * r.size + r.confirms + lag <= top
    ensures Confirmed(r, top, lag)
  {
    Scale(r.known, ix.known, ix.size);
  }

  /** A finished section is told to the children with the confirmations it had. */
  lemma StoredConfirmed(ix: Indexer, top: nat, lag: nat)
    requires Chained(ix) && Confirmed(ix, top, lag) && ix.job.Unlocked? && Accepted(ix)
    ensures Confirmed(Finished(ix), top, lag)
  {
    Gap(ix.stored, ix.stored + 1, ix.size);
    var last := (ix.stored + 1) * ix.size - 1;
    HeadsConfirmed(ix, last, false, top, lag);
    assert Finished(ix).children == HeadsOn(ix, last, false);
  }

  lemma FinishConfirmed(ix: Indexer, top: nat, lag: nat)
    requires Chained(ix) && Confirmed(ix, top, lag) && ix.job.Unlocked?
    ensures Confirmed(Finished(ix), top, lag)
  {
    if Accepted(ix) {
      StoredConfirmed(ix, top, lag);
    } else {
      SameConfirmed(ix, Finished(ix), top, lag);
    }
  }

  lemma WorkConfirmed(ix: Indexer, work: Work, top: nat, lag: nat)
    requires Chained(ix) && Confirmed(ix, top, lag)
    ensures Confirmed(WorkOn(ix, work), top, lag)
  {
    if Enabled(ix, work) && work == End {
      FinishConfirmed(ix, top, lag);
    } else {
      if Enabled(ix, work) && work == Start {
        Scale(ix.stored + 1, ix.known, ix.size);
      }
      SameConfirmed(ix, WorkOn(ix, work), top, lag);
    }
  }

  lemma {:induction false} WorkAtConfirmed(ix: Indexer, path: seq<nat>, work: Work, top: nat, lag: nat)
    requires Chained(ix) && Confirmed(ix, top, lag)
    ensures Confirmed(WorkAt(ix, path, work), top, lag)
    decreases path
  {
    if path == [] || path[0] >= |ix.children| {
      WorkConfirmed(ix, work, top, lag);
    } else {
      WorkAtConfirmed(ix.children[path[0]], path[1..], work, top, lag + ix.confirms);
    }
  }

  /** How many blocks the highest head announced by the first `n` events stands for. */
  function Top(events: seq<Event>, n: nat): nat
    requires n <= |events|
  {
    if n == 0 then 0
    else
      var event := events[n - 1];
      if event.Head? && !event.reorg then Max(Top(events, n - 1), event.number + 1) else Top(events, n - 1)
  }

  lemma {:induction false} TopAnnounced(events: seq<Event>, n: nat)
    requires n <= |events| && Top(events, n) > 0
    ensures exists j | 0 <= j < n :: events[j] == Head(Top(events, n) - 1, false)
  {
    if Top(events, n) == Top(events, n - 1) {
      TopAnnounced(events, n - 1);
    } else {
      assert events[n - 1] == Head(Top(events, n) - 1, false);
    }
  }

  /** In tree `i` of a run everything known is confirmed by a head announced before. */
  ghost predicate ConfirmedAt(trace: seq<Indexer>, events: seq<Event>, i: nat)
    requires i < |trace| && i <= |events|
  {
    Confirmed(trace[i], Top(events, i), 0)
  }

  ghost predicate AllConfirmed(trace: seq<Indexer>, events: seq<Event>) {
    && |trace| == |events| + 1
    && forall i: nat {:trigger ConfirmedAt(trace, events, i)} | i < |trace| :: ConfirmedAt(trace, events, i)
  }

  lemma EventConfirmed(ix: Indexer, event: Event, top: nat)
    requires Chained(ix) && Confirmed(ix, top, 0) && (event.Head? && !event.reorg ==> event.number + 1 <= top)
    ensures Confirmed(After(ix, event), top, 0)
  {
    match event
    case Head(number, reorg) => HeadConfirmed(ix, number, reorg, top, 0);
    case Loop(path, work) => WorkAtConfirmed(ix, path, work, top, 0);
  }

  lemma {:induction false} TreeConfirmed(trace: seq<Indexer>, events: seq<Event>, i: nat)
    requires Steps(trace, events) && Attached(trace[0]) && i <= |events|
    ensures ConfirmedAt(trace, events, i)
  {
    if i == 0 {
      AttachedConfirmed(trace[0], 0);
    } else {
      TreeConfirmed(trace, events, i - 1);
      assert TraceAt(AfterOf(), trace, events, i - 1);
      ConfirmedMore(trace[i - 1], Top(events, i - 1), Top(events, i), 0);
      EventConfirmed(trace[i - 1], events[i - 1], Top(events, i));
    }
  }

  /** From new indexers on, every section any of them knows has its confirmations below an announced head. */
  lemma RunConfirmed(trace: seq<Indexer>, events: seq<Event>)
    requires Steps(trace, events) && Attached(trace[0])
    ensures AllConfirmed(trace, events)
  {
    forall i: nat | i < |trace|
      ensures ConfirmedAt(trace, events, i)
    {
      TreeConfirmed(trace, events, i);
    }
  }

  /** After a head that is no reorg, the first section not known lacks confirmations. */
  ghost predicate PromptAt(trace: seq<Indexer>, events: seq<Event>, i: nat)
    requires |trace| == |events| + 1 && i < |events|
  {
    var event, r := events[i], trace[i + 1];
    event.Head? && !event.reorg ==> (r.known + 1) * r.size + r.confirms > event.number + 1
  }

  ghost predicate AllPrompt(trace: seq<Indexer>, events: seq<Event>) {
    && |trace| == |events| + 1
    && forall i: nat {:trigger PromptAt(trace, events, i)} | i < |events| :: PromptAt(trace, events, i)
  }

  lemma RunPrompt(trace: seq<Indexer>, events: seq<Event>)
    requires Steps(trace, events)
    ensures AllPrompt(trace, events)
  {
    forall i: nat | i < |events|
      ensures PromptAt(trace, events, i)
    {
      assert TraceAt(AfterOf(), trace, events, i);
      if events[i].Head? {
        assert trace[i + 1] == HeadOn(trace[i], events[i].number, events[i].reorg);
        Confirms(trace[i], events[i].number, events[i].reorg);
      }
    }
  }

  class ChainIndexer {
    var root: Indexer

    /** Whether all indexers with children have sections of two blocks or more. */
    const wide: bool

    /** Whether no backend of this or any child indexer has failed to reset so far. */
    var resetsOk: bool

    ghost predicate Valid()
      reads this
    {
      Chained(root) && (wide && resetsOk ==> Nested(root))
    }

    constructor (ix: Indexer)
      requires Attached(ix) && Chained(ix)
      ensures Valid() && root == ix && resetsOk && wide == Wide(ix)
    {
      if Wide(ix) {
        AttachedNested(ix);
      }
      root, wide, resetsOk := ix, Wide(ix), true;
    }

    /**
     Any interleaving of chain events with the update loops of all the indexers keeps every one's
     stored sections linked at every moment and, with wide sections and as long as no reset fails, every
     child within its parent. From new indexers on, nothing is known without its confirmations.
     */
    method Run(events: seq<Event>) returns (ghost trace: seq<Indexer>)
      requires Valid()
      modifies this
      ensures Valid() && Steps(trace, events) && trace[0] == old(root) && Last(trace) == root
      ensures AllKept(trace, events, old(root), wide && old(resetsOk))
      ensures resetsOk <==> old(resetsOk) && Calm(events, |events|)
      ensures AllPrompt(trace, events) && (Attached(old(root)) ==> AllConfirmed(trace, events))
    {
      trace := [root];
      ghost var done: seq<Event> := [];
      for k := 0 to |events|
        invariant done == events[..k] && Valid() && Steps(trace, done) && trace[0] == old(root) && Last(trace) == root
        invariant AllKept(trace, done, old(root), wide && old(resetsOk)) && Same(old(root), root)
        invariant resetsOk <==> old(resetsOk) && Calm(done, |done|)
      {
        var event := events[k];
        root := Handle(root, event);
        resetsOk := resetsOk && !FailsReset(event);
        CalmMore(done, event);
        TraceMore(AfterOf(), trace, done, event, root);
        KeptMore(trace, done, old(root), wide && old(resetsOk), event, root);
        trace, done := trace + [root], done + [event];
      }
      assert done == events;
      RunPrompt(trace, events);
      if Attached(old(root)) {
        RunConfirmed(trace, events);
      }
    }
  }

  /**
   Right after a section was stored, a reorg into the stored sections is kept from the children in one
   case only: sections of one block, and a reorg by one block. That is why `Nested` asks for two.
   */
  lemma PassedOnUnlessNarrow(ix: Indexer, known: nat)
    requires ix.size > 0 && ix.cascaded + 1 == Stored(ix) && known < ix.stored
    ensures known * ix.size >= ix.cascaded <==> ix.size == 1 && known + 1 == ix.stored
  {
    Gap(known, ix.stored, ix.size);
    if known + 1 < ix.stored {
      Gap(known + 1, ix.stored, ix.size);
    }
  }

  /**
   Exactly when a reorg that is kept from a child leaves it within the parent's stored range: unless the
   parent's sections are single blocks, the reorg is by one block, and the child knows all that was stored.
   */
  lemma StaysWithinIff(ix: Indexer, r: Indexer, child: Indexer, known: nat)
    requires ix.size > 0 && Within(ix, child) && known * ix.size >= ix.cascaded
    requires r.size == ix.size && r.cascaded == ix.cascaded && r.stored == Min(ix.stored, known)
    ensures Known(child) <= Stored(r) <==>
              !(ix.size == 1 && known + 1 == ix.stored && ix.cascaded + 1 == Stored(ix) && Known(child) == Stored(ix))
  {
    if known < ix.stored {
      Gap(known, ix.stored, ix.size);
      if ix.cascaded + 1 == Stored(ix) {
        PassedOnUnlessNarrow(ix, known);
      }
    }
  }

  /** A parent with one-block sections that has stored and cascaded one of them to a child that knows it. */
  const NARROW := Indexer(1, 0, 1, 1, 0, map[0 := 7], NoJob, [Indexer(1, 0, 0, 1, 0, map[], NoJob, [])])

  lemma NarrowChained()
    ensures Chained(NARROW) && Within(NARROW, NARROW.children[0])
  {
    var child := NARROW.children[0];
    forall k: nat
      ensures SectionAt(NARROW.heads, 1, 1, k) && SectionAt(child.heads, 0, 1, k)
    {
      if k == 0 {
        assert Covers(NARROW.heads, 1, k, [Block(7, EMPTY, 0, 0, [])]);
      }
    }
  }

  /** It is reached from a pair of new indexers by one head, whose section the parent then reads and stores. */
  const FRESH := Indexer(1, 0, 0, 0, 0, map[], NoJob, [Indexer(1, 0, 0, 0, 0, map[], NoJob, [])])
  const FIRST := Block(7, EMPTY, 0, 0, [])
  const STORING := [Head(0, false), Loop([], Start), Loop([], Read(Some(FIRST))), Loop([], End)]

  lemma FreshAttached()
    ensures Attached(FRESH) && Chained(FRESH)
  {
    var child := FRESH.children[0];
    forall k: nat
      ensures SectionAt(FRESH.heads, 0, 1, k) && SectionAt(child.heads, 0, 1, k)
    {
    }
    assert Chained(child) && Attached(child);
  }

  lemma FirstSteps(known: Indexer, started: Indexer, read: Indexer)
    requires Chained(FRESH) && known == After(FRESH, STORING[0]) && Chained(known)
    requires started == After(known, STORING[1]) && Chained(started) && read == After(started, STORING[2])
    ensures read == FRESH.(known := 1, job := Unlocked(0, EMPTY, [FIRST], false))
  {
    assert known == FRESH.(known := 1);
    assert started == FRESH.(known := 1, job := Unlocked(0, EMPTY, [], false));
    assert [] + [FIRST] == [FIRST];
  }

  lemma LastStep(read: Indexer)
    requires Chained(read) && read == FRESH.(known := 1, job := Unlocked(0, EMPTY, [FIRST], false))
    ensures After(read, STORING[3]) == NARROW
  {
    var child := read.children[0];
    assert HeadOn(child, 0, false) == child.(known := 1);
    assert HeadsOn(read, 0, false) == NARROW.children;
  }

  const EVENTS := STORING + [Head(0, true)]

  lemma NarrowRun(trace: seq<Indexer>)
    requires Steps(trace, EVENTS) && trace[0] == FRESH
    ensures trace[4] == NARROW && Chained(NARROW) && trace[5] == HeadOn(NARROW, 0, true)
  {
    assert EVENTS[0] == STORING[0] && EVENTS[1] == STORING[1] && EVENTS[2] == STORING[2] && EVENTS[3] == STORING[3];
    assert TraceAt(AfterOf(), trace, EVENTS, 0) && TraceAt(AfterOf(), trace, EVENTS, 1)
           && TraceAt(AfterOf(), trace, EVENTS, 2);
    FirstSteps(trace[1], trace[2], trace[3]);
    assert TraceAt(AfterOf(), trace, EVENTS, 3);
    LastStep(trace[3]);
    assert TraceAt(AfterOf(), trace, EVENTS, 4);
  }

  lemma NarrowReorg()
    requires Chained(NARROW)
    ensures var r := HeadOn(NARROW, 0, true); |r.children| == 1 && Known(r.children[0]) > Stored(r)
  {
  }

  /** After a reorg to block 0 the child is left knowing a block past the parent's stored range. */
  method NarrowFails() returns (r: Indexer, ghost trace: seq<Indexer>)
    ensures Attached(FRESH) && Steps(trace, EVENTS) && trace[0] == FRESH && trace[4] == NARROW && trace[5] == r
    ensures Chained(NARROW) && Within(NARROW, NARROW.children[0]) && r == HeadOn(NARROW, 0, true)
    ensures |r.children| == 1 && Known(r.children[0]) > Stored(r)
  {
    FreshAttached();
    var indexer := new ChainIndexer(FRESH);
    trace := indexer.Run(EVENTS);
    NarrowRun(trace);
    NarrowChained();
    NarrowReorg();
    r := indexer.root;
  }
}
