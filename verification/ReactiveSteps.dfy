// The atomic steps of the Solite runtime, as changes of its state, and what each keeps
// (solite_runtime/src/solite_effect.c, solite_signal.c).

module ReactiveSteps {
  import opened Wrappers
  import opened Reactive

  // ---- Scheduling ----

  function Scheduled(st: State, e: nat): State
    requires e < |st.effects|
  {
    if st.effects[e].disposed || st.effects[e].pending || |st.queue| >= PENDING_MAX then st
    else st.(queue := st.queue + [e], effects := st.effects[e := st.effects[e].(pending := true)])
  }

  lemma {:induction false} BagIncludes(frames: seq<seq<nat>>, i: nat)
    requires i < |frames|
    ensures multiset(frames[i]) <= Bag(frames)
  {
    if i < |frames| - 1 {
      BagIncludes(frames[..|frames| - 1], i);
      assert frames[..|frames| - 1][i] == frames[i];
    }
  }

  // Whoever waits is a pending effect.
  lemma WaitingIsPending(st: State, e: nat)
    requires FlagsMatchQueue(st) && e in Waiting(st)
    ensures e < |st.effects| && st.effects[e].pending && Waiting(st)[e] == 1
  {
    assert e in multiset(PendingSet(st));
  }

  lemma {:induction false} BoundedSet(s: set<nat>, n: nat)
    requires forall x :: x in s ==> x < n
    ensures |s| <= n
  {
    if n == 0 {
      assert s == {};
    } else {
      var t := s - {n - 1};
      BoundedSet(t, n - 1);
      assert s <= t + {n - 1};
      assert |t + {n - 1}| <= |t| + 1;
      if n - 1 in s {
        assert s == t + {n - 1};
      } else {
        assert s == t;
      }
    }
  }

  // While some effect is not pending, the queue is shorter than the number of effects.
  lemma RoomInQueue(st: State, e: nat)
    requires FlagsMatchQueue(st) && e < |st.effects| && !st.effects[e].pending
    ensures |st.queue| < |st.effects|
  {
    var p := PendingSet(st);
    assert multiset(st.queue) <= Waiting(st);
    assert |multiset(st.queue)| <= |multiset(p)|;
    assert |multiset(p)| == |p|;
    var q := p + {e};
    assert |q| == |p| + 1;
    BoundedSet(q, |st.effects|);
  }

  lemma MissedAdds(h: seq<Event>, x: Event)
    ensures forall e: nat, s: nat :: Missed(h + [x], e, s) == MissedAfter(Missed(h, e, s), HasRead(h, e, s), x, e, s)
  {
    assert (h + [x])[..|h|] == h;
  }

  lemma RunningAdds(h: seq<Event>, x: Event)
    ensures Running(h + [x]) == RunningAfter(Running(h), x)
    ensures OwnReads(h + [x]) <==> OwnReads(h) && OwnRead(Running(h), x)
    ensures !x.SignalRead? ==> forall e: nat, s: nat :: HasRead(h + [x], e, s) <==> HasRead(h, e, s)
    ensures forall e: nat :: x != RunStarted(e) ==> Runs(h + [x], e) == Runs(h, e)
  {
    assert (h + [x])[..|h|] == h;
  }

  // Steps that leave the subscribers, the observers and the history alone.
  lemma StillRecorded(a: State, b: State)
    requires Recorded(a) && b.signals == a.signals && b.observers == a.observers && b.overflowed == a.overflowed && b.history == a.history
    ensures Recorded(b)
  {
  }

  lemma ReplayAdds(h: seq<Event>, x: Event)
    ensures Replay(h + [x]) == ValuesAfter(Replay(h), x)
  {
    assert (h + [x])[..|h|] == h;
  }

  // Steps that only set flags, move effects between the queue and the frames, or push and pop.
  ghost predicate SameTables(a: State, b: State) {
    && b.signals == a.signals && b.nodes == a.nodes && b.windows == a.windows
    && |b.effects| == |a.effects| && (forall e :: 0 <= e < |a.effects| ==> b.effects[e].fn == a.effects[e].fn)
  }

  lemma TrackedKept(a: State, b: State)
    requires forall n :: 0 <= n < |a.nodes| ==> Tracked(a, n)
    requires |a.nodes| <= |b.nodes| && |a.effects| <= |b.effects|
    requires forall n :: 0 <= n < |a.nodes| ==> b.nodes[n].tracking == a.nodes[n].tracking
    requires forall e :: 0 <= e < |a.effects| ==> b.effects[e].fn == a.effects[e].fn
    ensures forall n :: 0 <= n < |a.nodes| ==> Tracked(b, n)
  {
    forall n | 0 <= n < |a.nodes|
      ensures Tracked(b, n)
    {
      assert Tracked(a, n);
    }
  }

  lemma KeepsShape(a: State, b: State)
    requires WellFormed(a) && SameTables(a, b) && Replay(b.history) == Replay(a.history)
    requires |b.queue| <= PENDING_MAX && |b.observers| <= OBSERVER_STACK_MAX
    requires forall i :: 0 <= i < |b.observers| ==> b.observers[i] < |b.effects|
    ensures WellFormed(b) && Values(b) == Values(a)
    ensures Attached(a) ==> Attached(b)
  {
    assert Values(b) == Values(a);
    TrackedKept(a, b);
    hide Replay, Values, OwnedBy, Children, Tracked;
  }

  // Steps that touch neither signals nor nodes leave other effects as current as they were.
  lemma SameView(listOf: Word -> seq<Word>, a: State, b: State, e: nat)
    requires e < |a.effects| && e < |b.effects| && (Idle(b, e) ==> Idle(a, e)) && a.effects[e].fn == b.effects[e].fn
    requires a.signals == b.signals && a.nodes == b.nodes && forall s: nat :: Missed(b.history, e, s) ==> Missed(a.history, e, s)
    requires SeesSignal(a, e) && Current(listOf, a, e)
    ensures SeesSignal(b, e) && Current(listOf, b, e)
  {
    assert Values(a) == Values(b);
  }

  lemma PendingAdds(st: State, e: nat)
    requires e < |st.effects| && !st.effects[e].pending
    ensures PendingSet(st.(effects := st.effects[e := st.effects[e].(pending := true)])) == PendingSet(st) + {e}
  {
  }

  lemma ScheduleKeepsFlags(st: State, e: nat)
    requires FlagsMatchQueue(st) && e < |st.effects|
    ensures FlagsMatchQueue(Scheduled(st, e))
  {
    var st' := Scheduled(st, e);
    if st' != st {
      PendingAdds(st, e);
      assert Waiting(st') == Waiting(st) + multiset{e};
      assert e !in PendingSet(st);
      assert PendingSet(st') == PendingSet(st) + {e};
      assert multiset(PendingSet(st')) == multiset(PendingSet(st)) + multiset{e};
    }
  }

  lemma AfterSchedule(listOf: Word -> seq<Word>, st: State, xs: set<nat>, e: nat)
    requires InvBut(listOf, st, xs) && e < |st.effects|
    ensures InvBut(listOf, Scheduled(st, e), xs - {e})
  {
    var st' := Scheduled(st, e);
    ScheduleKeepsFlags(st, e);
    if !st.effects[e].pending {
      RoomInQueue(st, e);
    }
    KeepsShape(st, st');
    StillRecorded(st, st');
    if WithinLimits(st) {
      assert !Idle(st', e) && SeesSignal(st', e) && Current(listOf, st', e);
    }
    hide FlagsMatchQueue, WellFormed, Attached, Recorded, SeesSignal, Current;
    forall x | 0 <= x < |st.effects| && x !in xs - {e} && WithinLimits(st')
      ensures SeesSignal(st', x) && Current(listOf, st', x)
    {
      if x != e {
        SameView(listOf, st, st', x);
      }
    }
  }

  // Scheduling one effect after another.
  function ScheduledAll(st: State, es: seq<nat>): (r: State)
    requires forall i :: 0 <= i < |es| ==> es[i] < |st.effects|
    ensures |r.effects| == |st.effects|
  {
    if es == [] then st else Scheduled(ScheduledAll(st, es[..|es| - 1]), es[|es| - 1])
  }

  // Scheduling only raises pending flags and lengthens the queue.
  ghost predicate OnlyScheduled(a: State, b: State) {
    && b == a.(queue := b.queue, effects := b.effects)
    && |b.effects| == |a.effects|
    && forall e :: 0 <= e < |a.effects| ==>
         b.effects[e].fn == a.effects[e].fn && b.effects[e].disposed == a.effects[e].disposed
         && (a.effects[e].pending ==> b.effects[e].pending)
  }

  lemma {:induction false} AfterScheduleAll(listOf: Word -> seq<Word>, st: State, xs: set<nat>, es: seq<nat>)
    requires InvBut(listOf, st, xs) && forall i :: 0 <= i < |es| ==> es[i] < |st.effects|
    ensures InvBut(listOf, ScheduledAll(st, es), xs - (set e | e in es))
  {
    hide InvBut;
    if es == [] {
      assert xs - (set e | e in es) == xs;
    } else {
      var front, e := es[..|es| - 1], es[|es| - 1];
      AfterScheduleAll(listOf, st, xs, front);
      AfterSchedule(listOf, ScheduledAll(st, front), xs - (set x | x in front), e);
      assert es == front + [e];
      assert xs - (set x | x in es) == xs - (set x | x in front) - {e};
    }
  }

  // Within the limits the queue has room, so nobody who is notified stays idle.
  lemma {:induction false} AllNotified(st: State, es: seq<nat>)
    requires FlagsMatchQueue(st) && forall i :: 0 <= i < |es| ==> es[i] < |st.effects|
    ensures FlagsMatchQueue(ScheduledAll(st, es)) && OnlyScheduled(st, ScheduledAll(st, es))
    ensures WithinLimits(st) ==> forall i :: 0 <= i < |es| ==> !Idle(ScheduledAll(st, es), es[i])
  {
    hide FlagsMatchQueue;
    if es != [] {
      var front, e := es[..|es| - 1], es[|es| - 1];
      var mid := ScheduledAll(st, front);
      AllNotified(st, front);
      ScheduleKeepsFlags(mid, e);
      if WithinLimits(st) && !mid.effects[e].pending {
        RoomInQueue(mid, e);
      }
      forall i | 0 <= i < |es| && WithinLimits(st)
        ensures !Idle(ScheduledAll(st, es), es[i])
      {
        if i < |front| {
          assert !Idle(mid, front[i]) && front[i] == es[i];
        }
      }
    }
  }

  // Those who were idle enter the queue in the order of the list.
  lemma {:induction false} QueuedInOrder(st: State, es: seq<nat>, i: nat, j: nat)
    requires FlagsMatchQueue(st) && WithinLimits(st) && Distinct(es) && forall k :: 0 <= k < |es| ==> es[k] < |st.effects|
    requires i < j < |es| && Idle(st, es[i]) && Idle(st, es[j])
    ensures Before(ScheduledAll(st, es).queue, es[i], es[j])
    decreases |es|
  {
    var front, last := es[..|es| - 1], es[|es| - 1];
    var mid := ScheduledAll(st, front);
    AllNotified(st, front);
    if j < |front| {
      QueuedInOrder(st, front, i, j);
      QueueGrows(mid, last, es[i], es[j]);
    } else {
      IsQueued(st, front, i);
      StaysIdle(st, front, last);
      RoomInQueue(mid, last);
      assert Scheduled(mid, last).queue == mid.queue + [last];
      var p :| 0 <= p < |mid.queue| && mid.queue[p] == es[i];
      assert Scheduled(mid, last).queue[p] == es[i] && Scheduled(mid, last).queue[|mid.queue|] == last;
    }
  }

  predicate Before(q: seq<nat>, d: nat, e: nat) {
    exists i, j :: 0 <= i < j < |q| && q[i] == d && q[j] == e
  }

  lemma QueueGrows(st: State, x: nat, d: nat, e: nat)
    requires x < |st.effects| && Before(st.queue, d, e)
    ensures Before(Scheduled(st, x).queue, d, e)
  {
    var i, j :| 0 <= i < j < |st.queue| && st.queue[i] == d && st.queue[j] == e;
    var q := Scheduled(st, x).queue;
    assert q[i] == d && q[j] == e;
  }

  lemma {:induction false} StaysIdle(st: State, es: seq<nat>, e: nat)
    requires e < |st.effects| && Idle(st, e) && e !in es && forall k :: 0 <= k < |es| ==> es[k] < |st.effects|
    ensures Idle(ScheduledAll(st, es), e)
    decreases |es|
  {
    if es != [] {
      StaysIdle(st, es[..|es| - 1], e);
    }
  }

  lemma {:induction false} IsQueued(st: State, es: seq<nat>, i: nat)
    requires FlagsMatchQueue(st) && WithinLimits(st) && Distinct(es) && forall k :: 0 <= k < |es| ==> es[k] < |st.effects|
    requires i < |es| && Idle(st, es[i])
    ensures es[i] in ScheduledAll(st, es).queue
    decreases |es|
  {
    var front, last := es[..|es| - 1], es[|es| - 1];
    var mid := ScheduledAll(st, front);
    AllNotified(st, front);
    if i < |front| {
      IsQueued(st, front, i);
    } else {
      StaysIdle(st, front, last);
      RoomInQueue(mid, last);
    }
  }

  // ---- Signals ----

  // Storing a value: everyone has yet to see it.
  function Changed(st: State, s: nat, v: Word): State
    requires s < |st.signals|
  {
    st.(signals := st.signals[s := st.signals[s].(value := v)],
        history := st.history + [SignalChanged(s, v)])
  }

  function SubscriberSet(st: State, s: nat): set<nat>
    requires s < |st.signals|
  {
    set e | e in st.signals[s].subscribers
  }

  lemma ChangeKeepsShape(st: State, s: nat, v: Word)
    requires WellFormed(st) && Attached(st) && FlagsMatchQueue(st) && s < |st.signals|
    ensures var b := Changed(st, s, v); WellFormed(b) && Attached(b) && FlagsMatchQueue(b)
    ensures Values(Changed(st, s, v)) == Values(st)[s := v]
  {
    var b := Changed(st, s, v);
    assert Values(b) == Values(st)[s := v];
    assert PendingSet(b) == PendingSet(st);
    ReplayAdds(st.history, SignalChanged(s, v));
    TrackedKept(st, b);
    hide Replay, Values, OwnedBy, Children, Tracked, PendingSet;
  }

  lemma ChangeUnseen(st: State, s: nat, v: Word, e: nat)
    requires s < |st.signals| && e < |st.effects| && e !in st.signals[s].subscribers && Recorded(st) && SeesSignal(st, e)
    ensures SeesSignal(Changed(st, s, v), e)
  {
    assert !HasRead(st.history, e, s);
    MissedAdds(st.history, SignalChanged(s, v));
    hide Recorded, Missed, HasRead;
  }

  // A change concerns only the subscribers: what others compute did not read the signal.
  lemma ChangeUnnoticed(listOf: Word -> seq<Word>, st: State, s: nat, v: Word, e: nat)
    requires s < |st.signals| && e < |st.effects| && e !in st.signals[s].subscribers && Recorded(st)
    requires SeesSignal(st, e) && Current(listOf, st, e)
    ensures SeesSignal(Changed(st, s, v), e) && Current(listOf, Changed(st, s, v), e)
  {
    ChangeUnseen(st, s, v, e);
    hide Recorded, Missed, SeesSignal;
    assert Values(Changed(st, s, v)) == Values(st)[s := v];
    if Idle(st, e) && st.effects[e].fn.Derived? {
      UnreadSignal(st.effects[e].fn.body, [], Values(st), s, v);
    }
    hide Shows, Values;
  }

  lemma ChangeIsRecorded(st: State, s: nat, v: Word)
    requires s < |st.signals| && Recorded(st)
    ensures Recorded(Changed(st, s, v))
  {
    RunningAdds(st.history, SignalChanged(s, v));
    hide Running, OwnReads, HasRead;
  }

  lemma AfterChange(listOf: Word -> seq<Word>, st: State, s: nat, v: Word)
    requires Inv(listOf, st) && s < |st.signals|
    ensures InvBut(listOf, Changed(st, s, v), SubscriberSet(st, s))
  {
    ChangeKeepsShape(st, s, v);
    ChangeIsRecorded(st, s, v);
    hide FlagsMatchQueue, WellFormed, Attached, Recorded, SeesSignal, Current;
    forall e | 0 <= e < |st.effects| && e !in SubscriberSet(st, s) && WithinLimits(st)
      ensures SeesSignal(Changed(st, s, v), e) && Current(listOf, Changed(st, s, v), e)
    {
      ChangeUnnoticed(listOf, st, s, v, e);
    }
  }

  // Reading: the current observer, if any, subscribes.
  function ReadBy(st: State, s: nat): State
    requires s < |st.signals|
  {
    if st.observers == [] then st.(history := st.history + [SignalRead(None, s)])
    else
      var e := st.observers[|st.observers| - 1];
      var subs := st.signals[s].subscribers;
      st.(signals := st.signals[s := st.signals[s].(subscribers := if e in subs then subs else subs + [e])],
          history := st.history + [SignalRead(Some(e), s)])
  }

  lemma ReadIsRecorded(st: State, s: nat)
    requires s < |st.signals| && Recorded(st)
    ensures Recorded(ReadBy(st, s))
  {
    var b, x := ReadBy(st, s), SignalRead(Innermost(st.observers), s);
    assert b.history == st.history + [x] && b.observers == st.observers && b.overflowed == st.overflowed;
    RunningAdds(st.history, x);
    hide Running, OwnReads;
    ReadersAdd(st, s);
  }

  lemma ReadersAdd(st: State, s: nat)
    requires s < |st.signals| && forall e: nat, q: nat :: HasRead(st.history, e, q) <==> q < |st.signals| && e in st.signals[q].subscribers
    ensures var b := ReadBy(st, s); forall e: nat, q: nat :: HasRead(b.history, e, q) <==> q < |b.signals| && e in b.signals[q].subscribers
  {
    var b := ReadBy(st, s);
    forall e: nat, q: nat
      ensures HasRead(b.history, e, q) <==> q < |b.signals| && e in b.signals[q].subscribers
    {
      assert HasRead(st.history, e, q) <==> q < |st.signals| && e in st.signals[q].subscribers;
    }
  }

  // A read without observer, or by an effect that has subscribed before, only enters the history.
  lemma ReadSubscribesReader(st: State, s: nat)
    requires s < |st.signals|
    ensures var b := ReadBy(st, s);
      && b.history == st.history + [SignalRead(Innermost(st.observers), s)]
      && (st.observers != [] ==> st.observers[|st.observers| - 1] in b.signals[s].subscribers)
  {
  }

  lemma ReadKeepsSight(st: State, s: nat, e: nat)
    requires e < |st.effects| && s < |st.signals|
    requires SeesSignal(st, e)
    ensures SeesSignal(ReadBy(st, s), e)
  {
    MissedAdds(st.history, SignalRead(Innermost(st.observers), s));
    hide Missed, HasRead;
  }

  lemma ReadKeeps(listOf: Word -> seq<Word>, st: State, s: nat, e: nat)
    requires e < |st.effects| && s < |st.signals|
    requires SeesSignal(st, e) && Current(listOf, st, e)
    ensures SeesSignal(ReadBy(st, s), e) && Current(listOf, ReadBy(st, s), e)
  {
    var st' := ReadBy(st, s);
    ReadKeepsSight(st, s, e);
    assert Values(st') == Values(st);
    forall r | 0 <= r < |st.signals|
      ensures e in st.signals[r].subscribers ==> e in st'.signals[r].subscribers
    {
    }
    hide ReadBy, Values, Shows, SeesSignal;
  }

  lemma ReadKeepsShape(st: State, s: nat)
    requires WellFormed(st) && Attached(st) && FlagsMatchQueue(st) && s < |st.signals|
    ensures var b := ReadBy(st, s); WellFormed(b) && Attached(b) && FlagsMatchQueue(b) && Values(b) == Values(st)
  {
    ReadKeepsForm(st, s);
    ReadKeepsRest(st, s);
    hide WellFormed, Attached, FlagsMatchQueue, Values, ReadBy;
  }

  lemma ReadKeepsForm(st: State, s: nat)
    requires WellFormed(st) && s < |st.signals|
    ensures WellFormed(ReadBy(st, s))
  {
    var b := ReadBy(st, s);
    assert Values(b) == Values(st);
    ReplayAdds(st.history, SignalRead(Innermost(st.observers), s));
    TrackedKept(st, b);
    hide Replay, Values, Tracked;
    ReadKeepsSubscribers(st, s);
    assert b == st.(signals := b.signals, history := b.history) && |b.signals| == |st.signals|;
    hide ReadBy, Distinct;
  }

  lemma ReadKeepsSubscribers(st: State, s: nat)
    requires WellFormed(st) && s < |st.signals|
    ensures var b := ReadBy(st, s);
      && (forall r :: 0 <= r < |b.signals| ==> Distinct(b.signals[r].subscribers))
      && (forall r, i :: 0 <= r < |b.signals| && 0 <= i < |b.signals[r].subscribers| ==> b.signals[r].subscribers[i] < |b.effects|)
  {
    hide Replay, Values, Tracked;
  }

  lemma ReadKeepsRest(st: State, s: nat)
    requires Attached(st) && FlagsMatchQueue(st) && s < |st.signals|
    ensures var b := ReadBy(st, s); Attached(b) && FlagsMatchQueue(b) && Values(b) == Values(st)
  {
    var b := ReadBy(st, s);
    assert Values(b) == Values(st);
    assert PendingSet(b) == PendingSet(st);
    hide Values, OwnedBy, Children, PendingSet;
  }

  lemma AfterRead(listOf: Word -> seq<Word>, st: State, xs: set<nat>, s: nat)
    requires InvBut(listOf, st, xs) && s < |st.signals|
    ensures InvBut(listOf, ReadBy(st, s), xs) && Values(ReadBy(st, s)) == Values(st)
  {
    var st' := ReadBy(st, s);
    ReadKeepsShape(st, s);
    ReadIsRecorded(st, s);
    assert |st'.effects| == |st.effects| && (WithinLimits(st') ==> WithinLimits(st));
    hide FlagsMatchQueue, Attached, WellFormed, Recorded, SeesSignal, Current, Values, ReadBy;
    forall e | 0 <= e < |st.effects| && e !in xs && WithinLimits(st')
      ensures SeesSignal(st', e) && Current(listOf, st', e)
    {
      ReadKeeps(listOf, st, s, e);
    }
  }

  function SignalAdded(st: State, v: Word): State {
    st.(signals := st.signals + [Signal(v, [])], history := st.history + [SignalCreated(v)])
  }

  lemma SignalAddedKeepsShape(st: State, v: Word)
    requires WellFormed(st) && Attached(st) && FlagsMatchQueue(st)
    ensures var b := SignalAdded(st, v); WellFormed(b) && Attached(b) && FlagsMatchQueue(b)
    ensures Values(SignalAdded(st, v)) == Values(st) + [v]
  {
    var b := SignalAdded(st, v);
    assert Values(b) == Values(st) + [v];
    assert PendingSet(b) == PendingSet(st);
    ReplayAdds(st.history, SignalCreated(v));
    TrackedKept(st, b);
    hide Replay, Values, OwnedBy, Children, Tracked, PendingSet;
  }

  lemma SignalAddedUnnoticed(listOf: Word -> seq<Word>, st: State, v: Word, e: nat)
    requires WellFormed(st) && e < |st.effects| && SeesSignal(st, e) && Current(listOf, st, e)
    ensures SeesSignal(SignalAdded(st, v), e) && Current(listOf, SignalAdded(st, v), e)
  {
    assert Values(SignalAdded(st, v)) == Values(st) + [v];
    MissedAdds(st.history, SignalCreated(v));
    hide Missed, HasRead;
    if Idle(st, e) && st.effects[e].fn.Derived? {
      NewSignal(st.effects[e].fn.body, [], Values(st), v);
    }
    hide Shows, Values, WellFormed;
  }

  lemma AddedIsRecorded(st: State, v: Word)
    requires Recorded(st)
    ensures Recorded(SignalAdded(st, v))
  {
    RunningAdds(st.history, SignalCreated(v));
    hide Running, OwnReads, HasRead;
  }

  lemma AfterSignalAdded(listOf: Word -> seq<Word>, st: State, v: Word)
    requires Inv(listOf, st)
    ensures Inv(listOf, SignalAdded(st, v))
  {
    SignalAddedKeepsShape(st, v);
    AddedIsRecorded(st, v);
    hide FlagsMatchQueue, WellFormed, Attached, Recorded, SeesSignal, Current;
    forall e | 0 <= e < |st.effects| && WithinLimits(st)
      ensures SeesSignal(SignalAdded(st, v), e) && Current(listOf, SignalAdded(st, v), e)
    {
      SignalAddedUnnoticed(listOf, st, v, e);
    }
  }

  // ---- Draining ----

  function Snapshotted(st: State): State {
    st.(queue := [], frames := st.frames + [st.queue])
  }

  lemma AfterSnapshot(listOf: Word -> seq<Word>, st: State)
    requires Inv(listOf, st)
    ensures Inv(listOf, Snapshotted(st))
  {
    var st' := Snapshotted(st);
    assert st'.frames[..|st'.frames| - 1] == st.frames;
    assert Waiting(st') == Waiting(st);
    assert PendingSet(st') == PendingSet(st);
    assert FlagsMatchQueue(st');
    KeepsShape(st, st');
    StillRecorded(st, st');
    hide FlagsMatchQueue, WellFormed, Attached, Recorded, SeesSignal, Current;
    forall e | 0 <= e < |st.effects| && WithinLimits(st')
      ensures SeesSignal(st', e) && Current(listOf, st', e)
    {
      SameView(listOf, st, st', e);
    }
  }

  // Taking the next effect of the innermost drain loop.
  function Dequeued(st: State): State
    requires st.frames != [] && st.frames[|st.frames| - 1] != []
    requires st.frames[|st.frames| - 1][0] < |st.effects|
  {
    var top := st.frames[|st.frames| - 1];
    st.(frames := st.frames[..|st.frames| - 1] + [top[1..]],
        effects := st.effects[top[0] := st.effects[top[0]].(pending := false)])
  }

  lemma NextIsPending(st: State)
    requires FlagsMatchQueue(st) && st.frames != [] && st.frames[|st.frames| - 1] != []
    ensures var e := st.frames[|st.frames| - 1][0]; e < |st.effects| && st.effects[e].pending
  {
    var i := |st.frames| - 1;
    BagIncludes(st.frames, i);
    var e := st.frames[i][0];
    assert e in multiset(st.frames[i]);
    WaitingIsPending(st, e);
  }

  lemma BagSplits(frames: seq<seq<nat>>, top: seq<nat>)
    ensures Bag(frames + [top]) == Bag(frames) + multiset(top)
  {
    assert (frames + [top])[..|frames|] == frames;
  }

  lemma PendingRemoves(st: State, e: nat)
    requires e < |st.effects|
    ensures PendingSet(st.(effects := st.effects[e := st.effects[e].(pending := false)])) == PendingSet(st) - {e}
  {
  }

  lemma BagDrops(frames: seq<seq<nat>>)
    requires frames != [] && frames[|frames| - 1] != []
    ensures var top := frames[|frames| - 1];
      Bag(frames) == Bag(frames[..|frames| - 1] + [top[1..]]) + multiset{top[0]}
  {
    var outer, top := frames[..|frames| - 1], frames[|frames| - 1];
    hide Bag;
    assert frames == outer + [top];
    BagSplits(outer, top);
    BagSplits(outer, top[1..]);
    HeadSplits(top);
  }

  lemma HeadSplits(top: seq<nat>)
    requires top != []
    ensures multiset(top) == multiset(top[1..]) + multiset{top[0]}
  {
    assert top == [top[0]] + top[1..];
  }

  lemma BagMinus(w: multiset<nat>, w': multiset<nat>, p: set<nat>, e: nat)
    requires w == w' + multiset{e} && w == multiset(p)
    ensures w' == multiset(p - {e})
  {
    forall x
      ensures w'[x] == multiset(p - {e})[x]
    {
      assert w[x] == multiset(p)[x];
    }
  }

  lemma DequeueKeepsFlags(st: State)
    requires FlagsMatchQueue(st) && st.frames != [] && st.frames[|st.frames| - 1] != []
    requires st.frames[|st.frames| - 1][0] < |st.effects|
    ensures FlagsMatchQueue(Dequeued(st))
  {
    var e := st.frames[|st.frames| - 1][0];
    BagDrops(st.frames);
    PendingRemoves(st, e);
    hide Bag, PendingSet;
    assert PendingSet(Dequeued(st)) == PendingSet(st) - {e};
    BagMinus(Waiting(st), Waiting(Dequeued(st)), PendingSet(st), e);
  }

  lemma AfterDequeue(listOf: Word -> seq<Word>, st: State)
    requires Inv(listOf, st) && st.frames != [] && st.frames[|st.frames| - 1] != []
    ensures var e := st.frames[|st.frames| - 1][0]; e < |st.effects| && InvBut(listOf, Dequeued(st), {e})
    ensures var e := st.frames[|st.frames| - 1][0]; st.effects[e].disposed ==> Inv(listOf, Dequeued(st))
  {
    NextIsPending(st);
    DequeueKeepsFlags(st);
    var e := st.frames[|st.frames| - 1][0];
    var st' := Dequeued(st);
    KeepsShape(st, st');
    assert st.effects[e].disposed ==> SeesSignal(st', e) && Current(listOf, st', e);
    StillRecorded(st, st');
    hide FlagsMatchQueue, WellFormed, Attached, Recorded, SeesSignal, Current;
    forall x | 0 <= x < |st.effects| && WithinLimits(st') && (x != e || st.effects[e].disposed)
      ensures SeesSignal(st', x) && Current(listOf, st', x)
    {
      if x != e {
        SameView(listOf, st, st', x);
      }
    }
  }

  function FrameDone(st: State): State
    requires st.frames != []
  {
    st.(frames := st.frames[..|st.frames| - 1])
  }

  lemma AfterFrameDone(listOf: Word -> seq<Word>, st: State)
    requires Inv(listOf, st) && st.frames != [] && st.frames[|st.frames| - 1] == []
    ensures Inv(listOf, FrameDone(st))
  {
    var st' := FrameDone(st);
    assert Waiting(st') == Waiting(st);
    assert PendingSet(st') == PendingSet(st);
    assert FlagsMatchQueue(st');
    KeepsShape(st, st');
    StillRecorded(st, st');
    hide FlagsMatchQueue, WellFormed, Attached, Recorded, SeesSignal, Current;
    forall e | 0 <= e < |st.effects| && WithinLimits(st')
      ensures SeesSignal(st', e) && Current(listOf, st', e)
    {
      SameView(listOf, st, st', e);
    }
  }

  // ---- Running ----

  // The effect becomes the observer, if the stack has room ...
  function Pushed(st: State, e: nat): State {
    st.(observers := if |st.observers| < OBSERVER_STACK_MAX then st.observers + [e] else st.observers,
        overflowed := st.overflowed || |st.observers| >= OBSERVER_STACK_MAX)
  }

  // ... and then its callback is entered.
  function Started(st: State, e: nat): State {
    var b := Pushed(st, e);
    b.(history := b.history + [RunStarted(e)])
  }

  lemma StartIsRecorded(st: State, e: nat)
    requires Recorded(st)
    ensures Recorded(Started(st, e))
  {
    RunningAdds(st.history, RunStarted(e));
    hide Running, OwnReads, HasRead;
  }

  lemma AfterStart(listOf: Word -> seq<Word>, st: State, e: nat)
    requires InvBut(listOf, st, {e}) && e < |st.effects|
    ensures InvBut(listOf, Started(st, e), {e})
    ensures SeesSignal(Started(st, e), e)
    ensures st.effects[e].fn.Program? ==> Inv(listOf, Started(st, e))
  {
    var st' := Started(st, e);
    ReplayAdds(st.history, RunStarted(e));
    assert PendingSet(st') == PendingSet(st);
    assert FlagsMatchQueue(st');
    KeepsShape(st, st');
    MissedAdds(st.history, RunStarted(e));
    StartIsRecorded(st, e);
    hide FlagsMatchQueue, WellFormed, Attached, Recorded, Missed, HasRead;
    assert SeesSignal(st', e) && (st.effects[e].fn.Program? ==> Current(listOf, st', e));
    hide SeesSignal, Current;
    forall x | 0 <= x < |st.effects| && x != e && WithinLimits(st')
      ensures SeesSignal(st', x) && Current(listOf, st', x)
    {
      SameView(listOf, st, st', x);
    }
  }

  // The end of a run: its callback has been left, and whoever is on top of the stack goes.
  function Ended(st: State, e: nat): State {
    st.(observers := AllButLast(st.observers), history := st.history + [RunEnded(e)])
  }

  lemma AfterEnd(listOf: Word -> seq<Word>, st: State, e: nat)
    requires Inv(listOf, st)
    ensures Inv(listOf, Ended(st, e))
  {
    var st' := Ended(st, e);
    ReplayAdds(st.history, RunEnded(e));
    RunningAdds(st.history, RunEnded(e));
    MissedAdds(st.history, RunEnded(e));
    assert PendingSet(st') == PendingSet(st);
    assert FlagsMatchQueue(st');
    KeepsShape(st, st');
    EndIsRecorded(st, e);
    hide FlagsMatchQueue, WellFormed, Attached, Recorded, SeesSignal, Current, Missed, HasRead, Running;
    forall x | 0 <= x < |st.effects| && WithinLimits(st')
      ensures SeesSignal(st', x) && Current(listOf, st', x)
    {
      SameView(listOf, st, st', x);
    }
  }

  lemma EndIsRecorded(st: State, e: nat)
    requires Recorded(st)
    ensures Recorded(Ended(st, e))
  {
    RunningAdds(st.history, RunEnded(e));
    hide Running, OwnReads, HasRead;
  }

  lemma AfterBatchMove(listOf: Word -> seq<Word>, st: State, depth: nat)
    requires Inv(listOf, st)
    ensures Inv(listOf, st.(batchDepth := depth))
  {
    var st' := st.(batchDepth := depth);
    assert PendingSet(st') == PendingSet(st);
    assert FlagsMatchQueue(st');
    KeepsShape(st, st');
    StillRecorded(st, st');
    hide FlagsMatchQueue, WellFormed, Attached, Recorded, SeesSignal, Current;
    forall e | 0 <= e < |st.effects| && WithinLimits(st')
      ensures SeesSignal(st', e) && Current(listOf, st', e)
    {
      SameView(listOf, st, st', e);
    }
  }

  function Disposed(st: State, e: nat): State
    requires e < |st.effects|
  {
    st.(effects := st.effects[e := st.effects[e].(disposed := true)])
  }

  lemma AfterDispose(listOf: Word -> seq<Word>, st: State, e: nat)
    requires Inv(listOf, st) && e < |st.effects|
    ensures Inv(listOf, Disposed(st, e))
  {
    var st' := Disposed(st, e);
    assert PendingSet(st') == PendingSet(st);
    assert FlagsMatchQueue(st');
    KeepsShape(st, st');
    StillRecorded(st, st');
    hide FlagsMatchQueue, WellFormed, Attached, Recorded, SeesSignal, Current;
    forall x | 0 <= x < |st.effects| && WithinLimits(st')
      ensures SeesSignal(st', x) && Current(listOf, st', x)
    {
      SameView(listOf, st, st', x);
    }
  }
}
