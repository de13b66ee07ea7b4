/**
 The event feed of event/feed.go as a state machine: any number of subscribers come and go while one
 `Send` at a time permutes and shrinks the case list in place. Each method is one atomic step.
 */
module Feeds {
  import opened Values

  /** Channels; the feed's own removal channel is 0 and no subscriber has it. */
  type Channel = nat

  const REMOVE_SUB: Channel := 0

  /** `caseList.find`. */
  method Find(cases: seq<Channel>, ch: Channel) returns (index: int)
    ensures index == -1 <==> ch !in cases
    ensures index != -1 ==> 0 <= index < |cases| && cases[index] == ch && ch !in cases[..index]
  {
    for i := 0 to |cases|
      invariant ch !in cases[..i]
    {
      if cases[i] == ch {
        return i;
      }
    }
    return -1;
  }

  /** `caseList.delete`. */
  function Delete(cases: seq<Channel>, index: nat): seq<Channel>
    requires index < |cases|
  {
    cases[..index] + cases[index + 1..]
  }

  /** `caseList.deactivate` on the prefix of length `active`: the case trades places with the prefix's last. */
  function Deactivate(cases: seq<Channel>, active: nat, index: nat): seq<Channel>
    requires index < active <= |cases|
  {
    cases[index := cases[active - 1]][active - 1 := cases[index]]
  }

  /** How often `c` occurs in `s` from `lo` to before `hi`. */
  ghost function Tally(s: seq<Channel>, lo: nat, hi: nat, c: Channel): (n: nat)
    requires hi <= |s|
    decreases hi
  {
    if hi <= lo then 0 else Tally(s, lo, hi - 1, c) + One(s[hi - 1], c)
  }

  ghost function One(d: Channel, c: Channel): nat {
    if c == d then 1 else 0
  }

  lemma {:induction false} TallySplit(s: seq<Channel>, lo: nat, mid: nat, hi: nat, c: Channel)
    requires lo <= mid <= hi <= |s|
    ensures Tally(s, lo, hi, c) == Tally(s, lo, mid, c) + Tally(s, mid, hi, c)
    decreases hi
  {
    if mid < hi {
      TallySplit(s, lo, mid, hi - 1, c);
    }
  }

  /** Equal stretches of two lists count alike. */
  lemma {:induction false} TallySame(s: seq<Channel>, lo: nat, hi: nat, t: seq<Channel>, lo': nat, hi': nat, c: Channel)
    requires lo <= hi <= |s| && lo' <= hi' <= |t| && hi - lo == hi' - lo'
    requires forall k {:trigger s[k]} | lo <= k < hi :: s[k] == t[k - lo + lo']
    ensures Tally(s, lo, hi, c) == Tally(t, lo', hi', c)
    decreases hi
  {
    if lo < hi {
      TallySame(s, lo, hi - 1, t, lo', hi' - 1, c);
    }
  }

  /** An occurrence counts, and a positive count is an occurrence. */
  lemma {:induction false} TallyFound(s: seq<Channel>, lo: nat, hi: nat, c: Channel)
    requires lo <= hi <= |s|
    ensures Tally(s, lo, hi, c) > 0 <==> c in s[lo..hi]
    decreases hi
  {
    if lo < hi {
      TallyFound(s, lo, hi - 1, c);
      assert s[lo..hi] == s[lo..hi - 1] + [s[hi - 1]];
    }
  }

  /** Deleting takes one occurrence out of any stretch around it and shifts what follows. */
  lemma Deleted(s: seq<Channel>, lo: nat, hi: nat, index: nat, c: Channel)
    requires lo <= hi <= |s| && index < |s|
    ensures |Delete(s, index)| == |s| - 1
    ensures lo <= index < hi ==> Tally(s, lo, hi, c) == Tally(Delete(s, index), lo, hi - 1, c) + One(s[index], c)
    ensures hi <= index ==> Tally(s, lo, hi, c) == Tally(Delete(s, index), lo, hi, c)
    ensures index < lo ==> Tally(s, lo, hi, c) == Tally(Delete(s, index), lo - 1, hi - 1, c)
  {
    var t := Delete(s, index);
    if lo <= index < hi {
      TallySplit(s, lo, index, hi, c);
      TallySplit(s, index, index + 1, hi, c);
      TallySplit(t, lo, index, hi - 1, c);
      TallySame(s, lo, index, t, lo, index, c);
      TallySame(s, index + 1, hi, t, index, hi - 1, c);
    } else if hi <= index {
      TallySame(s, lo, hi, t, lo, hi, c);
    } else {
      TallySame(s, lo, hi, t, lo - 1, hi - 1, c);
    }
  }

  /** Deactivating moves one occurrence behind the waiting prefix. */
  lemma Moved(s: seq<Channel>, active: nat, index: nat, c: Channel)
    requires 1 <= index < active <= |s|
    ensures var t := Deactivate(s, active, index);
            && Tally(s, 1, active, c) == Tally(t, 1, active - 1, c) + One(s[index], c)
            && Tally(t, active - 1, |t|, c) == Tally(s, active, |s|, c) + One(s[index], c)
  {
    var t, last := Deactivate(s, active, index), active - 1;
    TallySame(s, active, |s|, t, active, |t|, c);
    TallySplit(t, last, active, |t|, c);
    TallySame(s, 1, index, t, 1, index, c);
    if index < last {
      TallySplit(s, 1, index, last, c);
      TallySplit(s, index, index + 1, last, c);
      TallySplit(t, 1, index, last, c);
      TallySplit(t, index, index + 1, last, c);
      TallySame(s, index + 1, last, t, index + 1, last, c);
    }
  }

  /**
   The subscriptions on `c` not yet being cancelled and those being removed are in the inbox or the
   cases, once each.
   */
  ghost predicate FiledAt(cases: seq<Channel>, inbox: seq<Channel>, live: multiset<Channel>, leaving: multiset<Channel>,
                          c: Channel)
    requires |cases| >= 1
  {
    && live[c] + leaving[c] == Tally(inbox, 0, |inbox|, c) + Tally(cases, 1, |cases|, c)
    && leaving[c] <= Tally(cases, 1, |cases|, c)
  }

  /** What became of the subscriptions a send started with. */
  datatype Outcome = Outcome(start: multiset<Channel>, delivered: multiset<Channel>, removed: multiset<Channel>,
                             missed: multiset<Channel>)

  /**
   Each of them was delivered to, was removed before that, or still waits; the served ones left over
   were not removed since.
   */
  ghost predicate AccountedAt(cases: seq<Channel>, active: nat, o: Outcome, c: Channel)
    requires 1 <= active <= |cases|
  {
    && o.start[c] == o.delivered[c] + o.missed[c] + Tally(cases, 1, active, c)
    && o.delivered[c] + o.missed[c] == o.removed[c] + Tally(cases, active, |cases|, c)
    && o.missed[c] <= o.removed[c]
  }

  ghost predicate Filed(cases: seq<Channel>, inbox: seq<Channel>, live: multiset<Channel>, leaving: multiset<Channel>) {
    && |cases| >= 1 && cases[0] == REMOVE_SUB && live[REMOVE_SUB] == 0 && leaving[REMOVE_SUB] == 0
    && forall c {:trigger FiledAt(cases, inbox, live, leaving, c)} :: FiledAt(cases, inbox, live, leaving, c)
  }

  ghost predicate Accounted(cases: seq<Channel>, active: nat, o: Outcome) {
    && 1 <= active <= |cases|
    && forall c {:trigger AccountedAt(cases, active, o, c)} :: AccountedAt(cases, active, o, c)
  }

  /** What one completed send promises about a channel. */
  ghost predicate Fair(o: Outcome, c: Channel) {
    && o.delivered[c] <= o.start[c]
    && (o.removed[c] == 0 ==> o.delivered[c] == o.start[c])
    && o.start[c] <= o.delivered[c] + o.removed[c]
  }

  lemma FiledSubscribe(cases: seq<Channel>, inbox: seq<Channel>, live: multiset<Channel>, leaving: multiset<Channel>,
                       ch: Channel)
    requires Filed(cases, inbox, live, leaving) && ch != REMOVE_SUB
    ensures Filed(cases, inbox + [ch], live[ch := live[ch] + 1], leaving)
  {
    var inbox', live' := inbox + [ch], live[ch := live[ch] + 1];
    forall c: Channel
      ensures FiledAt(cases, inbox', live', leaving, c)
    {
      assert FiledAt(cases, inbox, live, leaving, c);
      TallySame(inbox, 0, |inbox|, inbox', 0, |inbox|, c);
    }
  }

  lemma FiledCancel(cases: seq<Channel>, inbox: seq<Channel>, live: multiset<Channel>, leaving: multiset<Channel>,
                    index: int, ch: Channel)
    requires Filed(cases, inbox, live, leaving) && live[ch] > 0 && -1 <= index < |inbox|
    requires if index == -1 then ch !in inbox else inbox[index] == ch
    ensures var live' := live[ch := live[ch] - 1];
            if index == -1 then Filed(cases, inbox, live', leaving[ch := leaving[ch] + 1])
            else Filed(cases, Delete(inbox, index), live', leaving)
  {
    var live', leaving' := live[ch := live[ch] - 1], if index == -1 then leaving[ch := leaving[ch] + 1] else leaving;
    var inbox' := if index == -1 then inbox else Delete(inbox, index);
    forall c: Channel
      ensures FiledAt(cases, inbox', live', leaving', c)
    {
      assert FiledAt(cases, inbox, live, leaving, c);
      if index == -1 {
        TallyFound(inbox, 0, |inbox|, ch);
        assert inbox[0..|inbox|] == inbox;
      } else {
        Deleted(inbox, 0, |inbox|, index, c);
      }
    }
  }

  lemma FiledRemove(cases: seq<Channel>, inbox: seq<Channel>, live: multiset<Channel>, leaving: multiset<Channel>,
                    index: nat)
    requires Filed(cases, inbox, live, leaving) && 1 <= index < |cases| && leaving[cases[index]] > 0
    ensures var ch := cases[index]; Filed(Delete(cases, index), inbox, live, leaving[ch := leaving[ch] - 1])
  {
    var ch := cases[index];
    var cases', leaving' := Delete(cases, index), leaving[ch := leaving[ch] - 1];
    forall c: Channel
      ensures FiledAt(cases', inbox, live, leaving', c)
    {
      assert FiledAt(cases, inbox, live, leaving, c);
      Deleted(cases, 1, |cases|, index, c);
    }
  }

  /** The inbox joins the cases and everything waits. */
  lemma Joined(cases: seq<Channel>, inbox: seq<Channel>, live: multiset<Channel>, leaving: multiset<Channel>)
    requires Filed(cases, inbox, live, leaving)
    ensures var o := Outcome(live + leaving, multiset{}, multiset{}, multiset{});
            Filed(cases + inbox, [], live, leaving) && Accounted(cases + inbox, |cases + inbox|, o)
  {
    var cases', o := cases + inbox, Outcome(live + leaving, multiset{}, multiset{}, multiset{});
    var n, inbox' := |cases'|, [];
    forall c: Channel
      ensures FiledAt(cases', inbox', live, leaving, c) && AccountedAt(cases', n, o, c)
    {
      assert FiledAt(cases, inbox, live, leaving, c);
      TallySplit(cases', 1, |cases|, n, c);
      TallySame(cases, 1, |cases|, cases', 1, |cases|, c);
      TallySame(inbox, 0, |inbox|, cases', |cases|, n, c);
    }
  }

  lemma Served(cases: seq<Channel>, inbox: seq<Channel>, live: multiset<Channel>, leaving: multiset<Channel>,
               active: nat, o: Outcome, index: nat)
    requires Filed(cases, inbox, live, leaving) && Accounted(cases, active, o) && 1 <= index < active
    ensures var ch := cases[index];
            && Filed(Deactivate(cases, active, index), inbox, live, leaving)
            && Accounted(Deactivate(cases, active, index), active - 1,
                         o.(delivered := o.delivered[ch := o.delivered[ch] + 1]))
  {
    var ch := cases[index];
    var cases', o' := Deactivate(cases, active, index), o.(delivered := o.delivered[ch := o.delivered[ch] + 1]);
    var last := active - 1;
    forall c: Channel
      ensures FiledAt(cases', inbox, live, leaving, c) && AccountedAt(cases', last, o', c)
    {
      assert FiledAt(cases, inbox, live, leaving, c) && AccountedAt(cases, active, o, c);
      Moved(cases, active, index, c);
      TallySplit(cases, 1, active, |cases|, c);
      TallySplit(cases', 1, last, |cases|, c);
    }
  }

  function Dropped(o: Outcome, ch: Channel, waiting: bool): Outcome {
    o.(removed := o.removed[ch := o.removed[ch] + 1],
       missed := if waiting then o.missed[ch := o.missed[ch] + 1] else o.missed)
  }

  lemma AccountedRemove(cases: seq<Channel>, active: nat, o: Outcome, index: nat)
    requires Accounted(cases, active, o) && 1 <= index < |cases|
    ensures Accounted(Delete(cases, index), if index < active then active - 1 else active,
                      Dropped(o, cases[index], index < active))
  {
    var cases', o' := Delete(cases, index), Dropped(o, cases[index], index < active);
    var active' := if index < active then active - 1 else active;
    forall c: Channel
      ensures AccountedAt(cases', active', o', c)
    {
      assert AccountedAt(cases, active, o, c);
      Deleted(cases, 1, active, index, c);
      Deleted(cases, active, |cases|, index, c);
    }
  }

  /** When nothing waits any more, everything that was not removed has been delivered to, once per subscription. */
  lemma Finished(cases: seq<Channel>, o: Outcome)
    requires Accounted(cases, 1, o)
    ensures forall c {:trigger Fair(o, c)} :: Fair(o, c)
  {
    forall c: Channel
      ensures Fair(o, c)
    {
      assert AccountedAt(cases, 1, o, c);
    }
  }

  /** Where the sender is: not sending, about to try case `i` without blocking, or blocked on all waiting cases. */
  datatype Phase = Idle | Trying(i: nat) | Selecting

  /**
   The feed's fields: the cases, of which the first `active` are still waiting, the inbox and the sender's
   phase. `live` are the subscriptions not yet being cancelled, `leaving` those whose canceller has passed
   the inbox, and `outcome` is what became of the current or last send's subscriptions.
   */
  datatype State = State(sendCases: seq<Channel>, inbox: seq<Channel>, phase: Phase, active: nat, nsent: nat,
                         live: multiset<Channel>, leaving: multiset<Channel>, outcome: Outcome)

  ghost predicate Good(s: State) {
    && Filed(s.sendCases, s.inbox, s.live, s.leaving) && s.nsent == |s.outcome.delivered|
    && (s.phase != Idle ==> Accounted(s.sendCases, s.active, s.outcome))
    && (s.phase.Trying? ==> 1 <= s.phase.i) && (s.phase == Selecting ==> s.active > 1)
  }

  /** The steps of all the goroutines. */
  datatype Step =
    | Subscribing(ch: Channel)
    | Cancelling(ch: Channel)
    | Removing(ch: Channel)
    | Sending
    | Attempting(accepted: bool)
    | Choosing(index: nat)

  predicate Enabled(s: State, step: Step) {
    match step
    case Subscribing(ch) => ch != REMOVE_SUB
    case Cancelling(ch) => s.live[ch] > 0
    case Removing(ch) => s.leaving[ch] > 0 && !s.phase.Trying?
    case Sending => s.phase == Idle
    case Attempting(_) => s.phase.Trying?
    case Choosing(index) => s.phase == Selecting && 1 <= index < s.active
  }

  ghost function Plus(m: multiset<Channel>, ch: Channel): multiset<Channel> {
    m[ch := m[ch] + 1]
  }

  ghost function Minus(m: multiset<Channel>, ch: Channel): multiset<Channel>
    requires m[ch] > 0
  {
    m[ch := m[ch] - 1]
  }

  /** The first position of a channel, or the length if it does not occur. */
  ghost function First(cases: seq<Channel>, ch: Channel): (i: nat)
    ensures i <= |cases| && (i < |cases| <==> ch in cases) && (i < |cases| ==> cases[i] == ch)
  {
    if cases == [] || cases[0] == ch then 0 else 1 + First(cases[1..], ch)
  }

  lemma {:induction false} FirstIs(cases: seq<Channel>, ch: Channel, i: nat)
    requires i < |cases| && cases[i] == ch && ch !in cases[..i]
    ensures First(cases, ch) == i
  {
    if i > 0 {
      assert cases[..i][0] == cases[0] && cases[..i][1..] == cases[1..][..i - 1];
      FirstIs(cases[1..], ch, i - 1);
    }
  }

  /** A waiting canceller's channel is among the cases, and not in slot 0. */
  lemma LeavingFound(s: State, ch: Channel)
    requires Good(s) && s.leaving[ch] > 0
    ensures 1 <= First(s.sendCases, ch) < |s.sendCases|
  {
    assert FiledAt(s.sendCases, s.inbox, s.live, s.leaving, ch);
    TallyFound(s.sendCases, 1, |s.sendCases|, ch);
  }

  /** The waiting case at `index` takes the value and leaves the prefix. */
  ghost function Delivered(s: State, index: nat): State
    requires 1 <= index < s.active <= |s.sendCases|
  {
    s.(sendCases := Deactivate(s.sendCases, s.active, index), active := s.active - 1, nsent := s.nsent + 1,
       outcome := s.outcome.(delivered := Plus(s.outcome.delivered, s.sendCases[index])))
  }

  /** What a step does. */
  ghost function Next(s: State, step: Step): State
    requires Good(s) && Enabled(s, step)
  {
    match step
    case Subscribing(ch) => s.(inbox := s.inbox + [ch], live := Plus(s.live, ch))
    case Cancelling(ch) =>
      if ch in s.inbox then s.(inbox := Delete(s.inbox, First(s.inbox, ch)), live := Minus(s.live, ch))
      else s.(live := Minus(s.live, ch), leaving := Plus(s.leaving, ch))
    case Removing(ch) =>
      LeavingFound(s, ch);
      var i := First(s.sendCases, ch);
      var t := s.(sendCases := Delete(s.sendCases, i), leaving := Minus(s.leaving, ch));
      if s.phase == Idle then t
      else t.(phase := Trying(1), active := if i < s.active then s.active - 1 else s.active,
              outcome := Dropped(s.outcome, ch, i < s.active))
    case Sending =>
      s.(sendCases := s.sendCases + s.inbox, inbox := [], phase := Trying(1), active := |s.sendCases + s.inbox|,
         nsent := 0,
         outcome := Outcome(s.live + s.leaving, multiset{}, multiset{}, multiset{}))
    case Attempting(accepted) =>
      if s.phase.i >= s.active then s.(phase := if s.active == 1 then Idle else Selecting)
      else if accepted then Delivered(s, s.phase.i)
      else s.(phase := Trying(s.phase.i + 1))
    case Choosing(index) => Delivered(s, index).(phase := Trying(1))
  }

  /** A canceller served while the sender is blocked. */
  lemma RemovedGood(s: State, ch: Channel)
    requires Good(s) && s.phase == Selecting && s.leaving[ch] > 0
    ensures Good(Next(s, Removing(ch)))
  {
    LeavingFound(s, ch);
    var i := First(s.sendCases, ch);
    FiledRemove(s.sendCases, s.inbox, s.live, s.leaving, i);
    AccountedRemove(s.sendCases, s.active, s.outcome, i);
  }

  class Feed {
    var sendCases: seq<Channel>
    var inbox: seq<Channel>
    var phase: Phase
    var active: nat
    var nsent: nat
    var live: multiset<Channel>
    var leaving: multiset<Channel>
    var outcome: Outcome

    function Now(): State
      reads this
    {
      State(sendCases, inbox, phase, active, nsent, live, leaving, outcome)
    }

    ghost predicate Valid()
      reads this
    {
      Good(Now())
    }

    constructor ()
      ensures Valid()
      ensures Now() == State([REMOVE_SUB], [], Idle, 1, 0, multiset{}, multiset{},
                             Outcome(multiset{}, multiset{}, multiset{}, multiset{}))
    {
      sendCases, inbox, phase, active, nsent := [REMOVE_SUB], [], Idle, 1, 0;
      live, leaving, outcome := multiset{}, multiset{}, Outcome(multiset{}, multiset{}, multiset{}, multiset{});
    }

    /** `Subscribe`: the channel waits in the inbox for the next send. */
    method Subscribe(ch: Channel)
      requires Valid() && ch != REMOVE_SUB
      modifies `inbox, `live
      ensures Valid() && Now() == Next(old(Now()), Subscribing(ch))
    {
      FiledSubscribe(sendCases, inbox, live, leaving, ch);
      inbox := inbox + [ch];
      live := live[ch := live[ch] + 1];
    }

    /**
     The first half of `remove`: a subscription still in the inbox is gone at once, any other has to wait
     for the cases.
     */
    method Cancel(ch: Channel) returns (done: bool)
      requires Valid() && live[ch] > 0
      modifies `inbox, `live, `leaving
      ensures Valid() && Now() == Next(old(Now()), Cancelling(ch)) && done == (ch in old(inbox))
    {
      var index := Find(inbox, ch);
      FiledCancel(sendCases, inbox, live, leaving, index, ch);
      live := live[ch := live[ch] - 1];
      done := index != -1;
      if done {
        FirstIs(inbox, ch, index);
        inbox := Delete(inbox, index);
      } else {
        leaving := leaving[ch := leaving[ch] + 1];
      }
    }

    /** `find` on the cases succeeds for every canceller that waits for them, and never hits slot 0. */
    method FindLeaving(ch: Channel) returns (index: nat)
      requires Valid() && leaving[ch] > 0
      ensures 1 <= index < |sendCases| && sendCases[index] == ch && index == First(sendCases, ch)
    {
      LeavingFound(Now(), ch);
      var found := Find(sendCases, ch);
      FirstIs(sendCases, ch, found);
      index := found;
    }

    /** The second half of `remove` between sends: the case is found and deleted. */
    method RemoveIdle(ch: Channel)
      requires Valid() && phase == Idle && leaving[ch] > 0
      modifies `sendCases, `leaving
      ensures Valid() && Now() == Next(old(Now()), Removing(ch))
    {
      var index := FindLeaving(ch);
      FiledRemove(sendCases, inbox, live, leaving, index);
      sendCases := Delete(sendCases, index);
      leaving := leaving[ch := leaving[ch] - 1];
    }

    /** The start of `Send`: the inbox joins the cases and all of them wait. */
    method BeginSend()
      requires Valid() && phase == Idle
      modifies `sendCases, `inbox, `phase, `active, `nsent, `outcome
      ensures Valid() && Now() == Next(old(Now()), Sending)
    {
      Joined(sendCases, inbox, live, leaving);
      sendCases, inbox := sendCases + inbox, [];
      phase, active, nsent := Trying(1), |sendCases|, 0;
      outcome := Outcome(live + leaving, multiset{}, multiset{}, multiset{});
    }

    /** The waiting case at `index` takes the value and leaves the prefix. */
    method Deliver(index: nat)
      requires Valid() && phase != Idle && 1 <= index < active
      modifies `sendCases, `phase, `active, `nsent, `outcome
      ensures Valid()
      ensures Now() == Delivered(old(Now()), index).(phase := if old(phase).Trying? then old(phase) else Trying(1))
    {
      var ch := sendCases[index];
      Served(sendCases, inbox, live, leaving, active, outcome, index);
      sendCases := Deactivate(sendCases, active, index);
      active := active - 1;
      nsent := nsent + 1;
      outcome := outcome.(delivered := outcome.delivered[ch := outcome.delivered[ch] + 1]);
      phase := if phase.Trying? then phase else Trying(1);
    }

    /** One non-blocking attempt, which the channel accepts or not. */
    method TrySend(accepted: bool)
      requires Valid() && phase.Trying? && phase.i < active
      modifies `sendCases, `phase, `active, `nsent, `outcome
      ensures Valid() && Now() == Next(old(Now()), Attempting(accepted))
    {
      if accepted {
        Deliver(phase.i);
      } else {
        phase := Trying(phase.i + 1);
      }
    }

    /**
     After the attempts: the send ends when nothing waits any more, and otherwise blocks. At the end
     `nsent` counts the deliveries and each channel got the value once per subscription that was not removed.
     */
    method EndTries(ghost accepted: bool) returns (done: bool)
      requires Valid() && phase.Trying? && phase.i >= active
      modifies `phase
      ensures Valid() && Now() == Next(old(Now()), Attempting(accepted)) && done == (active == 1)
      ensures done ==> nsent == |outcome.delivered| && forall c {:trigger Fair(outcome, c)} :: Fair(outcome, c)
    {
      done := active == 1;
      if done {
        Finished(sendCases, outcome);
      }
      phase := if done then Idle else Selecting;
    }

    /** The blocked send picks the removal case and deletes the channel, which may or may not be served already. */
    method SelectRemove(ch: Channel)
      requires Valid() && phase == Selecting && leaving[ch] > 0
      modifies `sendCases, `phase, `active, `leaving, `outcome
      ensures Valid() && Now() == Next(old(Now()), Removing(ch))
    {
      var index := FindLeaving(ch);
      RemovedGood(Now(), ch);
      outcome := Dropped(outcome, ch, index < active);
      sendCases := Delete(sendCases, index);
      leaving := leaving[ch := leaving[ch] - 1];
      if index < active {
        active := active - 1;
      }
      phase := Trying(1);
    }
  }

  /** A step ends a send when the sender goes idle by it. */
  predicate Ends(s: State, t: State) {
    s.phase != Idle && t.phase == Idle
  }

  /** One step of one goroutine. */
  method Schedule(f: Feed, step: Step) returns (done: bool)
    requires f.Valid() && Enabled(f.Now(), step)
    modifies f
    ensures f.Valid() && f.Now() == Next(old(f.Now()), step) && done == Ends(old(f.Now()), f.Now())
    ensures done ==> forall c {:trigger Fair(f.outcome, c)} :: Fair(f.outcome, c)
  {
    done := false;
    match step {
      case Subscribing(ch) => f.Subscribe(ch);
      case Cancelling(ch) =>
        var immediate := f.Cancel(ch);
      case Removing(ch) =>
        if f.phase == Idle {
          f.RemoveIdle(ch);
        } else {
          f.SelectRemove(ch);
        }
      case Sending => f.BeginSend();
      case Attempting(accepted) =>
        if f.phase.i < f.active {
          f.TrySend(accepted);
        } else {
          done := f.EndTries(accepted);
        }
      case Choosing(index) => f.Deliver(index);
    }
  }

  /** A step that is not enabled is not taken. */
  ghost predicate Taken(s: State, step: Step, t: State) {
    Good(s) && if Enabled(s, step) then t == Next(s, step) else t == s
  }

  /** A step as the scheduler tries it. */
  method Attempt(f: Feed, step: Step) returns (done: bool)
    requires f.Valid()
    modifies f
    ensures f.Valid() && Taken(old(f.Now()), step, f.Now()) && done == Ends(old(f.Now()), f.Now())
    ensures done ==> forall c {:trigger Fair(f.outcome, c)} :: Fair(f.outcome, c)
  {
    done := false;
    if Enabled(f.Now(), step) {
      done := Schedule(f, step);
    }
  }

  ghost function TakenOf(): (State, Step, State) -> bool {
    (s: State, step: Step, t: State) => Taken(s, step, t)
  }

  /** The states of an interleaving, from before its first step to after its last. */
  ghost predicate Run(trace: seq<State>, steps: seq<Step>) {
    Trace(TakenOf(), trace, steps)
  }

  /** The step removes a subscription on `c` from the cases, or delivers to one. */
  predicate Removes(s: State, step: Step, c: Channel) {
    Enabled(s, step) && step == Removing(c)
  }

  predicate Delivers(s: State, step: Step, c: Channel) {
    && Enabled(s, step) && s.active <= |s.sendCases|
    && match step
       case Attempting(accepted) => accepted && s.phase.i < s.active && s.sendCases[s.phase.i] == c
       case Choosing(index) => s.sendCases[index] == c
       case _ => false
  }

  /** How many of the steps from `lo` to before `hi` remove a subscription on `c`, or deliver to one. */
  ghost function Removals(trace: seq<State>, steps: seq<Step>, lo: nat, hi: nat, c: Channel): nat
    requires hi <= |steps| && hi <= |trace|
    decreases hi
  {
    if hi <= lo then 0
    else Removals(trace, steps, lo, hi - 1, c) + if Removes(trace[hi - 1], steps[hi - 1], c) then 1 else 0
  }

  ghost function Deliveries(trace: seq<State>, steps: seq<Step>, lo: nat, hi: nat, c: Channel): nat
    requires hi <= |steps| && hi <= |trace|
    decreases hi
  {
    if hi <= lo then 0
    else Deliveries(trace, steps, lo, hi - 1, c) + if Delivers(trace[hi - 1], steps[hi - 1], c) then 1 else 0
  }

  lemma {:induction false} CountsStay(trace: seq<State>, steps: seq<Step>, lo: nat, hi: nat, c: Channel, t: State,
                                      step: Step)
    requires hi <= |steps| && hi <= |trace|
    ensures Removals(trace + [t], steps + [step], lo, hi, c) == Removals(trace, steps, lo, hi, c)
    ensures Deliveries(trace + [t], steps + [step], lo, hi, c) == Deliveries(trace, steps, lo, hi, c)
    decreases hi
  {
    if hi > lo {
      CountsStay(trace, steps, lo, hi - 1, c, t, step);
    }
  }

  /** The send that began at step `from` and its outcome up to before step `to`, for one channel. */
  ghost predicate CountedAt(trace: seq<State>, steps: seq<Step>, from: nat, to: nat, o: Outcome, c: Channel)
    requires to <= |steps| && to <= |trace|
  {
    o.removed[c] == Removals(trace, steps, from, to, c) && o.delivered[c] == Deliveries(trace, steps, from, to, c)
  }

  /** It started with every subscription there was, and its outcome counts the steps taken since. */
  ghost predicate Tracked(trace: seq<State>, steps: seq<Step>, from: nat, to: nat, o: Outcome) {
    && from < to <= |steps| && to <= |trace| && steps[from] == Sending && trace[from].phase == Idle
    && (forall j | from < j < to :: trace[j].phase != Idle)
    && o.start == trace[from].live + trace[from].leaving
    && forall c {:trigger CountedAt(trace, steps, from, to, o, c)} :: CountedAt(trace, steps, from, to, o, c)
  }

  lemma TrackedStays(trace: seq<State>, steps: seq<Step>, from: nat, to: nat, o: Outcome, t: State, step: Step)
    requires Tracked(trace, steps, from, to, o)
    ensures Tracked(trace + [t], steps + [step], from, to, o)
  {
    var trace', steps' := trace + [t], steps + [step];
    forall c: Channel
      ensures CountedAt(trace', steps', from, to, o, c)
    {
      assert CountedAt(trace, steps, from, to, o, c);
      CountsStay(trace, steps, from, to, c, t, step);
    }
  }

  /** What one step adds to the outcome. */
  lemma OutcomeNext(s: State, step: Step, c: Channel)
    requires Good(s) && Enabled(s, step) && s.phase != Idle
    ensures var t := Next(s, step);
            && t.outcome.start == s.outcome.start
            && t.outcome.removed[c] == s.outcome.removed[c] + (if Removes(s, step, c) then 1 else 0)
            && t.outcome.delivered[c] == s.outcome.delivered[c] + (if Delivers(s, step, c) then 1 else 0)
  {
  }

  lemma TrackedNext(trace: seq<State>, steps: seq<Step>, from: nat, to: nat, step: Step, t: State)
    requires |trace| == |steps| + 1 && to == |steps| && Taken(Last(trace), step, t)
    requires Tracked(trace, steps, from, to, Last(trace).outcome) && Last(trace).phase != Idle
    ensures Tracked(trace + [t], steps + [step], from, to + 1, t.outcome)
  {
    var trace', steps', s, next := trace + [t], steps + [step], Last(trace), to + 1;
    forall c: Channel
      ensures CountedAt(trace', steps', from, next, t.outcome, c)
    {
      assert CountedAt(trace, steps, from, to, s.outcome, c);
      CountsStay(trace, steps, from, to, c, t, step);
      if Enabled(s, step) {
        OutcomeNext(s, step, c);
      }
    }
    if Enabled(s, step) {
      OutcomeNext(s, step, 0);
    }
  }

  lemma TrackedBegins(trace: seq<State>, steps: seq<Step>, t: State)
    requires |trace| == |steps| + 1 && Taken(Last(trace), Sending, t) && Last(trace).phase == Idle
    ensures Tracked(trace + [t], steps + [Sending], |steps|, |steps| + 1, t.outcome)
  {
    var trace', steps', from, next := trace + [t], steps + [Sending], |steps|, |steps| + 1;
    forall c: Channel
      ensures CountedAt(trace', steps', from, next, t.outcome, c)
    {
      assert Removals(trace', steps', from, from, c) == 0 && Deliveries(trace', steps', from, from, c) == 0;
    }
  }

  /**
   A completed send: what it returned, what became of its subscriptions, and the steps it took from
   `from` to before `to`.
   */
  datatype Sent = Sent(nsent: nat, outcome: Outcome, from: nat, to: nat)

  /** It returned the number of its deliveries, which were fair to every channel. */
  ghost predicate AllFair(s: Sent) {
    s.nsent == |s.outcome.delivered| && forall c {:trigger Fair(s.outcome, c)} :: Fair(s.outcome, c)
  }

  ghost predicate Completed(trace: seq<State>, steps: seq<Step>, s: Sent) {
    && AllFair(s) && Tracked(trace, steps, s.from, s.to, s.outcome) && s.to < |trace|
    && trace[s.to].phase == Idle && trace[s.to].outcome == s.outcome && trace[s.to].nsent == s.nsent
  }

  /** How many sends a sequence of states completes. */
  ghost function Endings(trace: seq<State>): nat {
    if |trace| <= 1 then 0
    else Endings(trace[..|trace| - 1]) + if Ends(trace[|trace| - 2], trace[|trace| - 1]) then 1 else 0
  }

  lemma RunMore(trace: seq<State>, steps: seq<Step>, step: Step, t: State)
    requires Run(trace, steps) && Taken(Last(trace), step, t)
    ensures Run(trace + [t], steps + [step])
    ensures Endings(trace + [t]) == Endings(trace) + if Ends(Last(trace), t) then 1 else 0
  {
    assert (trace + [t])[..|trace|] == trace;
    TraceMore(TakenOf(), trace, steps, step, t);
  }

  /** The send under way, if there is one, began at step `from`. */
  ghost predicate UnderWay(trace: seq<State>, steps: seq<Step>, from: nat) {
    |trace| == |steps| + 1 && (Last(trace).phase != Idle ==> Tracked(trace, steps, from, |steps|, Last(trace).outcome))
  }

  lemma UnderWayNext(trace: seq<State>, steps: seq<Step>, from: nat, step: Step, t: State)
    requires UnderWay(trace, steps, from) && Taken(Last(trace), step, t)
    ensures UnderWay(trace + [t], steps + [step], if Last(trace).phase == Idle then |steps| else from)
    ensures Ends(Last(trace), t) ==> Tracked(trace + [t], steps + [step], from, |steps| + 1, t.outcome)
  {
    if Last(trace).phase != Idle {
      TrackedNext(trace, steps, from, |steps|, step, t);
    } else if t.phase != Idle {
      assert step == Sending;
      TrackedBegins(trace, steps, t);
    }
  }

  /** Each send is listed once, in the order in which they end. */
  ghost predicate InOrder(sends: seq<Sent>) {
    forall i, j | 0 <= i < j < |sends| :: sends[i].to < sends[j].to
  }

  /** `sends` are the sends the run has completed, all of them, and the one under way began at step `from`. */
  ghost predicate Recorded(trace: seq<State>, steps: seq<Step>, sends: seq<Sent>, from: nat) {
    && Run(trace, steps) && UnderWay(trace, steps, from) && (forall s | s in trace :: Good(s))
    && |sends| == Endings(trace) && InOrder(sends) && forall s | s in sends :: Completed(trace, steps, s)
  }

  lemma OrderMore(trace: seq<State>, steps: seq<Step>, sends: seq<Sent>, next: Sent)
    requires InOrder(sends) && |trace| == |steps| + 1 && next.to == |steps| + 1
    requires forall s | s in sends :: Completed(trace, steps, s)
    ensures InOrder(sends + [next])
  {
    forall i | 0 <= i < |sends|
      ensures sends[i].to < next.to
    {
      assert Completed(trace, steps, sends[i]);
    }
  }

  lemma RecordedNext(trace: seq<State>, steps: seq<Step>, sends: seq<Sent>, from: nat, step: Step, t: State)
    requires Recorded(trace, steps, sends, from) && Taken(Last(trace), step, t) && Good(t)
    requires Ends(Last(trace), t) ==> forall c {:trigger Fair(t.outcome, c)} :: Fair(t.outcome, c)
    ensures var sends' := if Ends(Last(trace), t) then sends + [Sent(t.nsent, t.outcome, from, |steps| + 1)] else sends;
            Recorded(trace + [t], steps + [step], sends', if Last(trace).phase == Idle then |steps| else from)
  {
    RunMore(trace, steps, step, t);
    UnderWayNext(trace, steps, from, step, t);
    OrderMore(trace, steps, sends, Sent(t.nsent, t.outcome, from, |steps| + 1));
    forall s | s in sends
      ensures Completed(trace + [t], steps + [step], s)
    {
      TrackedStays(trace, steps, s.from, s.to, s.outcome, t, step);
    }
  }

  /**
   Every interleaving is a sequence of steps. `trace` holds the states it goes through, all of them good,
   and `sends` every send it completes: each started with all the subscriptions there were, its deliveries
   and removals are exactly those of its steps, and it was fair to every channel.
   */
  method Interleave(f: Feed, steps: seq<Step>) returns (sends: seq<Sent>, ghost trace: seq<State>)
    requires f.Valid() && f.phase == Idle
    modifies f
    ensures Run(trace, steps) && trace[0] == old(f.Now()) && Last(trace) == f.Now() && forall s | s in trace :: Good(s)
    ensures |sends| == Endings(trace) && InOrder(sends) && forall s | s in sends :: Completed(trace, steps, s)
  {
    sends, trace := [], [f.Now()];
    ghost var done: seq<Step> := [];
    var from := 0;
    for k := 0 to |steps|
      invariant done == steps[..k] && f.Valid()
      invariant Recorded(trace, done, sends, from) && trace[0] == old(f.Now()) && Last(trace) == f.Now()
    {
      var step, idle := steps[k], f.phase == Idle;
      var finished := Attempt(f, step);
      ghost var t := f.Now();
      RecordedNext(trace, done, sends, from, step, t);
      if finished {
        sends := sends + [Sent(f.nsent, f.outcome, from, k + 1)];
      }
      from := if idle then k else from;
      trace, done := trace + [t], done + [step];
    }
    assert done == steps;
  }
}
