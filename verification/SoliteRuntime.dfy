// The Solite reactive runtime: the global queue, batch depth and observer stack, the tables of
// effects and signals, and the nodes that follow signals (solite_runtime/src/solite_effect.c,
// solite_signal.c, solite_control_flow.c).
//
// An effect callback may run any program code, which may call back into the runtime. Program
// code is therefore any finite sequence of runtime calls with any arguments. A call that takes
// `fuel` gives up, with `ok` false, once that many nested calls and loop turns have been made:
// every run that terminates is one with enough fuel.

module SoliteRuntime {
  import opened Wrappers
  import opened Reactive
  import opened ReactiveSteps
  import opened ReactiveNodes

  // ---- The order of runs ----

  predicate Live(st: State, e: nat) {
    e < |st.effects| && !st.effects[e].disposed
  }

  predicate OneAfterOther(h: seq<Event>, from: nat, d: nat, e: nat) {
    exists p, q :: from <= p < q < |h| && h[p] == RunStarted(d) && h[q] == RunStarted(e)
  }

  // Since `from` runs of all effects of `es` that are still live have started, in this order.
  predicate RanAll(st: State, from: nat, es: seq<nat>) {
    && from <= |st.history| && (forall i :: 0 <= i < |es| ==> es[i] < |st.effects|)
    && (forall i :: 0 <= i < |es| && Live(st, es[i]) ==> RunStarted(es[i]) in st.history[from..])
    && (forall i, j :: 0 <= i < j < |es| && Live(st, es[i]) && Live(st, es[j]) ==> OneAfterOther(st.history, from, es[i], es[j]))
  }

  lemma RanNone(st: State, from: nat)
    requires from <= |st.history|
    ensures RanAll(st, from, [])
  {
  }

  lemma RanLater(a: State, b: State, from: nat, es: seq<nat>)
    requires RanAll(a, from, es) && a.history <= b.history && |a.effects| <= |b.effects|
    requires forall e :: 0 <= e < |a.effects| && a.effects[e].disposed ==> b.effects[e].disposed
    ensures RanAll(b, from, es)
  {
    forall i | 0 <= i < |es| && Live(b, es[i])
      ensures RunStarted(es[i]) in b.history[from..]
    {
      assert Live(a, es[i]);
      assert a.history[from..] <= b.history[from..];
    }
    forall i, j | 0 <= i < j < |es| && Live(b, es[i]) && Live(b, es[j])
      ensures OneAfterOther(b.history, from, es[i], es[j])
    {
      assert Live(a, es[i]) && Live(a, es[j]);
      var p, q :| from <= p < q < |a.history| && a.history[p] == RunStarted(es[i]) && a.history[q] == RunStarted(es[j]);
      assert b.history[p] == a.history[p] && b.history[q] == a.history[q];
    }
  }

  // What every completed call guarantees of the rest of the state.
  ghost predicate Kept(a: State, b: State) {
    && b.frames == a.frames && a.history <= b.history && Running(b.history) == Running(a.history)
    && (a.overflowed ==> b.overflowed)
    && (!b.overflowed ==> b.observers == a.observers)
    && |a.effects| <= |b.effects|
    && (forall e :: 0 <= e < |a.effects| ==> b.effects[e].fn == a.effects[e].fn && (a.effects[e].disposed ==> b.effects[e].disposed))
    // A disposed effect does not run any more.
    && (forall e :: 0 <= e < |a.effects| && a.effects[e].disposed ==> Runs(b.history, e) == Runs(a.history, e))
    && |a.signals| <= |b.signals| && (forall s :: 0 <= s < |a.signals| ==> a.signals[s].subscribers <= b.signals[s].subscribers)
    && |a.nodes| <= |b.nodes| && |a.windows| <= |b.windows|
    && (forall n :: 0 <= n < |a.nodes| ==> b.nodes[n].tracking == a.nodes[n].tracking && Parent(b.nodes[n]) == Parent(a.nodes[n]))
  }

  // The same for steps that also change the frames.
  ghost predicate KeptBut(a: State, b: State) {
    Kept(a.(frames := b.frames), b)
  }

  lemma KeptButRefl(a: State)
    ensures KeptBut(a, a)
  {
  }

  lemma KeptButTwice(a: State, b: State, c: State)
    requires KeptBut(a, b) && KeptBut(b, c)
    ensures KeptBut(a, c)
  {
  }

  lemma KeptThenBut(a: State, b: State, c: State)
    requires KeptBut(a, b) && Kept(b, c)
    ensures KeptBut(a, c)
  {
  }

  lemma RanOneMore(o: State, a: State, b: State, es: seq<nat>, e: nat)
    requires RanAll(a, |o.history|, es) && KeptBut(o, a) && KeptBut(a, b) && e < |a.effects|
    requires Live(b, e) ==> a.history + [RunStarted(e)] <= b.history
    ensures RanAll(b, |o.history|, es + [e])
  {
    var from, more, n := |o.history|, es + [e], |a.history|;
    RanLater(a, b, from, es);
    if Live(b, e) {
      assert b.history[n] == RunStarted(e) == b.history[from..][n - from];
    }
    hide KeptBut, OneAfterOther;
    forall i, j | 0 <= i < j < |more| && Live(b, more[i]) && Live(b, more[j])
      ensures OneAfterOther(b.history, from, more[i], more[j])
    {
      if j < |es| {
        assert more[i] == es[i] && more[j] == es[j];
      } else {
        assert Live(a, es[i]);
        RunsLast(a.history, b.history, from, es[i], e);
      }
    }
  }

  lemma RunsLast(h: seq<Event>, k: seq<Event>, from: nat, d: nat, e: nat)
    requires from <= |h| && RunStarted(d) in h[from..] && h + [RunStarted(e)] <= k
    ensures OneAfterOther(k, from, d, e)
  {
    var p :| 0 <= p < |h[from..]| && h[from..][p] == RunStarted(d);
    assert k[from + p] == RunStarted(d) && k[|h|] == RunStarted(e);
  }

  lemma KeptRuns(a: State, b: State, from: nat, es: seq<nat>)
    requires RanAll(a, from, es) && Kept(a, b)
    ensures RanAll(b, from, es)
  {
    RanLater(a, b, from, es);
  }

  // The second of two effects that were idle runs after the first, unless one is disposed.
  predicate WokenInOrder(a: State, b: State, d: nat, e: nat) {
    Live(a, d) && !a.effects[d].pending && Live(a, e) && !a.effects[e].pending && Live(b, d) && Live(b, e) ==>
      OneAfterOther(b.history, |a.history| + 1, d, e)
  }

  lemma KeptByDequeue(a: State)
    requires a.frames != [] && a.frames[|a.frames| - 1] != [] && a.frames[|a.frames| - 1][0] < |a.effects|
    ensures KeptBut(a, Dequeued(a))
  {
  }

  lemma KeptByFrameDone(a: State)
    requires a.frames != []
    ensures KeptBut(a, FrameDone(a))
  {
  }

  lemma KeptBySnapshot(a: State)
    ensures KeptBut(a, Snapshotted(a))
  {
  }

  lemma KeptAround(a: State, b: State)
    requires KeptBut(a, b) && a.frames == b.frames
    ensures Kept(a, b)
  {
  }

  lemma KeptTwice(a: State, b: State, c: State)
    requires Kept(a, b) && Kept(b, c)
    ensures Kept(a, c)
  {
  }

  class Runtime {
    // How the array behind a word reads: its items.
    const listOf: Word -> seq<Word>

    var queue: seq<nat>
    var batchDepth: nat
    var observers: seq<nat>
    var effects: seq<Effect>
    var signals: seq<Signal>
    var nodes: seq<Node>
    var windows: seq<seq<Element>>
    ghost var frames: seq<seq<nat>>
    ghost var overflowed: bool
    ghost var history: seq<Event>

    ghost function St(): State
      reads this
    {
      State(queue, batchDepth, observers, effects, signals, nodes, windows, frames, overflowed, history)
    }

    // What holds whenever program code is in control.
    ghost predicate Ready()
      reads this
    {
      Inv(listOf, St()) && Quiet(St())
    }

    constructor (listOf: Word -> seq<Word>)
      ensures Ready() && this.listOf == listOf
      ensures queue == [] && frames == [] && batchDepth == 0
    {
      this.listOf := listOf;
      queue, observers, effects, signals, nodes, windows := [], [], [], [], [], [];
      batchDepth := 0;
      frames, overflowed, history := [], false, [];
    }

    // ---- Observer stack ----

    method ObserverPush(e: nat)
      modifies this`observers, this`overflowed
      ensures St() == Pushed(old(St()), e)
    {
      overflowed := overflowed || |observers| >= OBSERVER_STACK_MAX;
      if |observers| < OBSERVER_STACK_MAX {
        observers := observers + [e];
      }
    }

    method ObserverPop()
      modifies this`observers
      ensures St() == old(St()).(observers := AllButLast(old(observers)))
    {
      if |observers| > 0 {
        observers := observers[..|observers| - 1];
      }
    }

    // ---- Signals ----

    method Subscribe(s: nat, e: nat)
      requires s < |signals|
      modifies this`signals
      ensures var subs := old(signals)[s].subscribers;
              signals == old(signals)[s := old(signals)[s].(subscribers := if e in subs then subs else subs + [e])]
    {
      var subs := signals[s].subscribers;
      for i := 0 to |subs|
        invariant e !in subs[..i]
      {
        if subs[i] == e {
          assert signals == signals[s := signals[s].(subscribers := subs)];
          return;
        }
      }
      signals := signals[s := signals[s].(subscribers := subs + [e])];
    }

    method SignalGet(s: nat) returns (w: Word)
      requires s < |signals|
      modifies this`signals, this`history
      ensures St() == ReadBy(old(St()), s)
      ensures w == old(signals)[s].value
    {
      if |observers| > 0 {
        var e := observers[|observers| - 1];
        Subscribe(s, e);
        history := history + [SignalRead(Some(e), s)];
      } else {
        history := history + [SignalRead(None, s)];
      }
      w := signals[s].value;
    }

    method Schedule(e: nat)
      requires e < |effects|
      modifies this`queue, this`effects
      ensures St() == Scheduled(old(St()), e)
    {
      if effects[e].disposed || effects[e].pending {
        return;
      }
      if |queue| < PENDING_MAX {
        effects := effects[e := effects[e].(pending := true)];
        queue := queue + [e];
      }
    }

    // The notification loop of solite_signal_set.
    method Notify(s: nat)
      requires s < |signals|
      requires forall i :: 0 <= i < |signals[s].subscribers| ==> signals[s].subscribers[i] < |effects|
      modifies this`queue, this`effects
      ensures St() == ScheduledAll(old(St()), signals[s].subscribers)
    {
      var subs := signals[s].subscribers;
      for i := 0 to |subs|
        invariant |effects| == old(|effects|)
        invariant St() == ScheduledAll(old(St()), subs[..i])
      {
        assert subs[..i + 1][..i] == subs[..i];
        Schedule(subs[i]);
      }
      assert subs[..|subs|] == subs;
    }

    // ---- Draining ----

    // The start of one turn of the drain loop.
    method Snapshot() returns (snapshot: seq<nat>)
      modifies this`queue, this`frames
      ensures snapshot == old(queue)
      ensures St() == Snapshotted(old(St()))
    {
      snapshot := queue;
      queue := [];
      frames := frames + [snapshot];
    }

    method Dequeue(e: nat)
      requires frames != [] && frames[|frames| - 1] != [] && frames[|frames| - 1][0] == e < |effects|
      modifies this`effects, this`frames
      ensures St() == Dequeued(old(St()))
    {
      effects := effects[e := effects[e].(pending := false)];
      frames := frames[..|frames| - 1] + [frames[|frames| - 1][1..]];
    }

    // One turn of the drain loop.
    method DrainQueue(fuel: nat) returns (ok: bool)
      requires Inv(listOf, St())
      modifies this
      ensures ok ==> Inv(listOf, St()) && Kept(old(St()), St())
      ensures ok ==> RanAll(St(), |old(history)|, old(queue))
      decreases fuel, 5
    {
      AfterSnapshot(listOf, St());
      KeptBySnapshot(St());
      hide InvBut, KeptBut, Kept, RanAll;
      var snapshot := Snapshot();
      ghost var before := St();
      assert before.frames[..|before.frames| - 1] == old(frames);
      ok := DrainSnapshot(snapshot, fuel);
      if ok {
        KeptButTwice(old(St()), before, St());
        KeptAround(old(St()), St());
      }
    }

    method FlushPending(fuel: nat) returns (ok: bool)
      requires Inv(listOf, St())
      modifies this
      ensures ok ==> Ready() && Kept(old(St()), St())
      ensures ok && old(batchDepth) == 0 ==> queue == [] && RanAll(St(), |old(history)|, old(queue))
      ensures old(batchDepth) > 0 ==> ok && St() == old(St())
      decreases fuel, 6
    {
      if batchDepth > 0 {
        return true;
      }
      KeptButRefl(St());
      KeptAround(St(), St());
      hide InvBut, Kept, RanAll;
      RanNone(St(), |history|);
      var left := fuel;
      ghost var first := true;
      while |queue| > 0
        invariant Inv(listOf, St()) && Kept(old(St()), St())
        invariant if first then St() == old(St()) else RanAll(St(), |old(history)|, old(queue))
        invariant 0 <= left <= fuel
        decreases left
      {
        if left == 0 {
          return false;
        }
        left := left - 1;
        ghost var before := St();
        ok := DrainQueue(left);
        if !ok {
          return;
        }
        KeptTwice(old(St()), before, St());
        KeptGrows(before, St());
        if !first {
          KeptRuns(before, St(), |old(history)|, old(queue));
        }
        first := false;
      }
      return true;
    }

    // One effect of a snapshot: its flag is cleared and it runs, unless it is disposed.
    method DrainOne(e: nat, fuel: nat) returns (ok: bool)
      requires Inv(listOf, St()) && frames != [] && frames[|frames| - 1] != [] && frames[|frames| - 1][0] == e
      modifies this
      ensures ok ==> Inv(listOf, St())
      ensures ok ==> frames == old(frames[..|frames| - 1] + [frames[|frames| - 1][1..]])
      ensures ok ==> KeptBut(old(St()), St())
      ensures e < old(|effects|) && (ok && Live(St(), e) ==> old(history) + [RunStarted(e)] <= history)
      decreases fuel, 3
    {
      AfterDequeue(listOf, St());
      KeptByDequeue(St());
      hide InvBut, KeptBut;
      Dequeue(e);
      ok := true;
      if !effects[e].disposed {
        ghost var before := St();
        ok := EffectRun(e, fuel);
        if ok {
          KeptThenBut(old(St()), before, St());
        }
      }
    }

    // The inner loop of the drain.
    method DrainSnapshot(snapshot: seq<nat>, fuel: nat) returns (ok: bool)
      requires Inv(listOf, St()) && frames != [] && frames[|frames| - 1] == snapshot
      modifies this
      ensures ok ==> Inv(listOf, St())
      ensures ok ==> frames == old(frames[..|frames| - 1])
      ensures ok ==> KeptBut(old(St()), St())
      ensures ok ==> RanAll(St(), |old(history)|, snapshot)
      decreases fuel, 4
    {
      KeptButRefl(St());
      hide InvBut, KeptBut, RanAll;
      RanNone(St(), |history|);
      for i := 0 to |snapshot|
        invariant Inv(listOf, St())
        invariant frames == old(frames[..|frames| - 1]) + [snapshot[i..]]
        invariant KeptBut(old(St()), St()) && RanAll(St(), |old(history)|, snapshot[..i])
      {
        ghost var before := St();
        ok := DrainOne(snapshot[i], fuel);
        if !ok {
          return;
        }
        KeptButTwice(old(St()), before, St());
        RanOneMore(old(St()), before, St(), snapshot[..i], snapshot[i]);
        assert snapshot[..i + 1] == snapshot[..i] + [snapshot[i]];
      }
      assert snapshot[..|snapshot|] == snapshot;
      ghost var before := St();
      AfterFrameDone(listOf, St());
      KeptByFrameDone(St());
      frames := frames[..|frames| - 1];
      KeptButTwice(old(St()), before, St());
      RanLater(before, St(), |old(history)|, snapshot);
      return true;
    }

    // An effect whose run is due: it observes what it reads, from the entry of its callback to the
    // end.
    method EffectRun(e: nat, fuel: nat) returns (ok: bool)
      requires e < |effects| && InvBut(listOf, St(), {e}) && Quiet(St())
      requires !effects[e].disposed
      modifies this
      ensures ok ==> Ready() && Kept(old(St()), St())
      ensures ok ==> old(history) + [RunStarted(e)] <= history && |history| > |old(history)| + 1 && history[|history| - 1] == RunEnded(e)
      ensures ok || old(effects)[e].fn.Program?
      decreases fuel, 2
    {
      ghost var before := St();
      hide InvBut, Kept, Pushed, Started, Ended;
      ObserverPush(e);
      ghost var last;
      ok, last := Callback(before, e, fuel);
      if ok {
        EndKeeps(listOf, before, e, last);
        ObserverPop();
        EndedIs(last, e);
      }
    }

    // The callback of effect `e`, which `before` was pushed for. The state at its end is `last`.
    method Callback(ghost before: State, e: nat, fuel: nat) returns (ok: bool, ghost last: State)
      requires St() == Pushed(before, e) && e < |effects| && InvBut(listOf, before, {e}) && Quiet(before)
      requires !effects[e].disposed
      modifies this
      ensures ok ==> Inv(listOf, last) && Quiet(last) && Kept(Started(before, e), last)
      ensures ok ==> St() == last.(history := last.history + [RunEnded(e)])
      ensures ok ==> before.history + [RunStarted(e)] <= last.history
      ensures ok || before.effects[e].fn.Program?
      decreases fuel, 1
    {
      AfterStart(listOf, before, e);
      StartedObserves(before, e);
      history := history + [RunStarted(e)];
      ghost var started := St();
      assert started == Started(before, e);
      hide InvBut, Kept, Pushed, Started, SeesSignal;
      ok := true;
      match effects[e].fn {
        case Program => ok := RunProgram(fuel);
        case Derived(body, n) => RunDerived(e, body, n);
      }
      last := St();
      if ok {
        KeptGrows(started, last);
        history := history + [RunEnded(e)];
      }
    }

    // ---- Callbacks of memos, <Show> and <For> ----

    // Reads what the computation asks for, each read subscribing the running effect.
    method ReadAll(e: nat, body: ReadFn) returns (v: Word)
      requires e < |effects| && InvBut(listOf, St(), {e}) && body.needs <= |signals|
      requires !overflowed ==> SeesSignal(St(), e) && observers != [] && observers[|observers| - 1] == e
      modifies this`signals, this`history
      ensures InvBut(listOf, St(), {e}) && OnlyRead(old(St()), St())
      ensures v == Eval(body, [], Values(St()))
      ensures !overflowed ==> SeesSignal(St(), e) && Subscribed(St(), e, Path(body, [], Values(St())))
    {
      ReadStart(listOf, St(), e, body);
      hide InvBut, SeesSignal, Subscribed, Values, OnlyRead, Eval, Path, Reading, ReadBy;
      ghost var seen: set<nat> := {};
      var h: seq<Word> := [];
      while body.next(h).ReadNext?
        invariant Reading(listOf, old(St()), St(), e, body, h, seen)
        decreases body.bound - |h|
      {
        var s := body.next(h).signal;
        ReadStep(listOf, old(St()), St(), e, body, h, seen);
        var w := SignalGet(s);
        seen := seen + {s};
        h := h + [w];
      }
      v := body.next(h).result;
      ReadEnd(listOf, old(St()), St(), e, body, h, seen);
    }

    method RunDerived(e: nat, body: ReadFn, n: nat)
      requires e < |effects| && InvBut(listOf, St(), {e}) && Quiet(St()) && effects[e].fn == Derived(body, n)
      requires !overflowed ==> SeesSignal(St(), e) && observers != [] && observers[|observers| - 1] == e
      modifies this`signals, this`history, this`nodes, this`windows
      ensures Ready() && Kept(old(St()), St())
    {
      DerivedShape(listOf, St(), e);
      hide InvBut, Attached, Shows, SeesSignal, OnlyNode, OnlyRead, Kept, Quiet;
      var v := ReadAll(e, body);
      ghost var mid := St();
      DerivedShape(listOf, mid, e);
      UpdateNode(n, v);
      AfterCommit(listOf, mid, St(), e);
      KeptByDerived(old(St()), mid, St(), n);
    }

    method UpdateNode(n: nat, v: Word)
      requires n < |nodes| && Attached(St())
      modifies this`nodes, this`windows
      ensures OnlyNode(old(St()), St(), n) && Attached(St()) && Shows(listOf, nodes[n], v)
    {
      hide Attached, Shows, OnlyNode;
      match nodes[n] {
        case Memo(_, _, _) => RunMemo(n, v);
        case Show(_, _, _) => RunShow(n, v);
        case For(_, _, _, _) => RunFor(n, v);
      }
    }

    // memo_recompute_cb
    method RunMemo(n: nat, v: Word)
      requires n < |nodes| && nodes[n].Memo? && Attached(St())
      modifies this`nodes
      ensures OnlyNode(old(St()), St(), n) && Attached(St()) && Shows(listOf, nodes[n], v)
    {
      nodes := nodes[n := nodes[n].(cached := v, dirty := false)];
    }

    method WindowAppend(w: nat, x: Element)
      requires w < |windows|
      modifies this`windows
      ensures St() == WithWindow(old(St()), w, old(windows)[w] + [x])
    {
      windows := windows[w := windows[w] + [x]];
    }

    method WindowRemove(w: nat, x: Element)
      requires w < |windows|
      modifies this`windows
      ensures St() == WithWindow(old(St()), w, Removed(old(windows)[w], x))
    {
      windows := windows[w := Removed(windows[w], x)];
    }

    // show_effect_fn, once the signal has been read. The renderer returns a fresh element.
    method RunShow(n: nat, v: Word)
      requires n < |nodes| && nodes[n].Show? && Attached(St())
      modifies this`nodes, this`windows
      ensures OnlyNode(old(St()), St(), n) && Attached(St()) && Shows(listOf, nodes[n], v)
    {
      hide AttachedAs, Attached, Removed;
      var node := nodes[n];
      AttachedParent(St(), n);
      AttachedIsAttachedAs(St(), n);
      if v != 0 && node.child.None? {
        var child := Element(ByNode(n), 0, 0);
        AppendStep(St(), n, node.parent, [], child);
        WindowAppend(node.parent, child);
        node := node.(child := Some(child));
        assert Children(node) == [] + [child];
        RecordStep(St(), n, node);
        nodes := nodes[n := node];
      } else if v == 0 && node.child.Some? {
        RemoveStep(St(), n, node.parent, [node.child.value]);
        WindowRemove(node.parent, node.child.value);
        node := node.(child := None);
        RecordStep(St(), n, node);
        nodes := nodes[n := node];
      }
    }

    // for_remove_all
    method RemoveAll(n: nat)
      requires n < |nodes| && nodes[n].For? && Attached(St())
      modifies this`nodes, this`windows
      ensures OnlyNode(old(St()), St(), n) && Attached(St())
      ensures nodes[n] == old(nodes)[n].(children := [])
    {
      hide AttachedAs, Attached, Removed;
      var node := nodes[n];
      AttachedParent(St(), n);
      AttachedIsAttachedAs(St(), n);
      for i := 0 to |node.children|
        invariant St() == old(St()).(windows := windows) && |windows| == old(|windows|)
        invariant AttachedAs(St(), n, node.children[i..])
      {
        RemoveStep(St(), n, node.parent, node.children[i..]);
        assert node.children[i..][1..] == node.children[i + 1..];
        WindowRemove(node.parent, node.children[i]);
      }
      node := node.(children := []);
      RecordStep(St(), n, node);
      nodes := nodes[n := node];
    }

    // The rendering loop of for_effect_fn: every item's element enters the window.
    method RenderAll(n: nat, w: nat, items: seq<Word>) returns (children: seq<Element>)
      requires n < |nodes| && Parent(nodes[n]) == Some(w) && w < |windows| && AttachedAs(St(), n, [])
      modifies this`windows
      ensures |windows| == old(|windows|) && AttachedAs(St(), n, children)
      ensures |children| == |items| && forall k :: 0 <= k < |items| ==> children[k].item == items[k] && children[k].index == k
    {
      hide AttachedAs;
      ghost var mid := St();
      children := [];
      for i := 0 to |items|
        invariant St() == mid.(windows := windows) && |windows| == |mid.windows|
        invariant |children| == i && AttachedAs(St(), n, children)
        invariant forall k :: 0 <= k < i ==> children[k].item == items[k] && children[k].index == k
      {
        var child := Element(ByNode(n), items[i], i);
        AppendStep(St(), n, w, children, child);
        children := children + [child];
        WindowAppend(w, child);
      }
    }

    // for_effect_fn, once the list has been read: the renders of the old list leave the window
    // and those of the new one enter it, in order.
    method RunFor(n: nat, v: Word)
      requires n < |nodes| && nodes[n].For? && Attached(St())
      modifies this`nodes, this`windows
      ensures OnlyNode(old(St()), St(), n) && Attached(St()) && Shows(listOf, nodes[n], v)
    {
      hide AttachedAs, Attached;
      RemoveAll(n);
      var items := listOf(v);
      var count := |items|;
      if count == 0 {
        return;
      }
      var node := nodes[n];
      if count > node.capacity {
        node := node.(capacity := count);
      }
      AttachedParent(St(), n);
      AttachedIsAttachedAs(St(), n);
      var children := RenderAll(n, node.parent, items);
      node := node.(children := children);
      RecordStep(St(), n, node);
      nodes := nodes[n := node];
    }

    // ---- Calls the program makes ----

    method CreateSignal(v: Word) returns (s: nat)
      requires Ready()
      modifies this`signals, this`history
      ensures Ready() && Kept(old(St()), St()) && St() == SignalAdded(old(St()), v) && s == old(|signals|)
    {
      AfterSignalAdded(listOf, St(), v);
      RunningAdds(history, SignalCreated(v));
      hide Running, OwnReads, Runs;
      s := |signals|;
      signals := signals + [Signal(v, [])];
      history := history + [SignalCreated(v)];
    }

    // Storing a new value, before the drain.
    method ChangeAndNotify(s: nat, v: Word)
      requires Inv(listOf, St()) && s < |signals| && signals[s].value != v
      modifies this`signals, this`history, this`queue, this`effects
      ensures Inv(listOf, St()) && Kept(old(St()), St())
      ensures St() == ScheduledAll(Changed(old(St()), s, v), old(signals)[s].subscribers)
    {
      ghost var subs := signals[s].subscribers;
      AfterChange(listOf, St(), s, v);
      AfterNotify(listOf, Changed(St(), s, v), s);
      KeptByNotify(listOf, St(), s, v);
      hide InvBut, Kept, ScheduledAll;
      signals := signals[s := signals[s].(value := v)];
      history := history + [SignalChanged(s, v)];
      assert St() == Changed(old(St()), s, v);
      Notify(s);
    }

    // A change is recorded and reaches everyone: in a batch all live subscribers are left
    // pending, and once an outermost call outside a batch returns, nothing is.
    method SignalSet(s: nat, v: Word, fuel: nat) returns (ok: bool)
      requires Ready() && s < |signals|
      modifies this
      ensures ok ==> Ready() && Kept(old(St()), St())
      ensures ok && old(signals)[s].value == v ==> St() == old(St())
      ensures ok && old(signals)[s].value != v ==> old(history) + [SignalChanged(s, v)] <= history
      ensures ok && old(signals)[s].value != v && old(batchDepth) > 0 ==>
        St() == ScheduledAll(Changed(old(St()), s, v), old(signals)[s].subscribers)
      ensures ok && old(frames) == [] && old(batchDepth) == 0 ==> PendingSet(St()) == {}
      ensures ok && old(signals)[s].value != v && old(batchDepth) == 0 && WithinLimits(St()) ==>
        forall e :: 0 <= e < |old(effects)| && e < |effects| && Idle(old(St()), e) && HasRead(old(history), e, s) && !effects[e].disposed ==>
          RunStarted(e) in history[|old(history)| + 1..]
      ensures ok && old(signals)[s].value != v && old(batchDepth) == 0 && WithinLimits(St()) ==>
        forall i, j :: 0 <= i < j < |old(signals)[s].subscribers| ==>
          WokenInOrder(old(St()), St(), old(signals)[s].subscribers[i], old(signals)[s].subscribers[j])
      decreases fuel, 7
    {
      if signals[s].value == v {
        KeptButRefl(St());
        KeptAround(St(), St());
        NothingWaits(listOf, St());
        return true;
      }
      hide InvBut, Changed, ScheduledAll, PendingSet, Kept;
      ScheduledHistory(Changed(St(), s, v), signals[s].subscribers);
      ChangedHistory(St(), s, v);
      ChangeAndNotify(s, v);
      ghost var mid := St();
      ok := FlushPending(fuel);
      if ok {
        KeptTwice(old(St()), mid, St());
        KeptGrows(mid, St());
        NothingWaits(listOf, St());
        forall e | 0 <= e < |old(effects)| && e < |effects| && Idle(old(St()), e) && HasRead(old(history), e, s)
                   && !effects[e].disposed && old(batchDepth) == 0 && WithinLimits(St())
          ensures RunStarted(e) in history[|old(history)| + 1..]
        {
          ChangeWakes(listOf, old(St()), St(), s, v, e);
        }
        if old(batchDepth) == 0 && WithinLimits(St()) {
          WakesInOrder(listOf, old(St()), St(), s, v);
        }
      }
    }

    method BatchStart()
      requires Ready()
      modifies this`batchDepth
      ensures Ready() && Kept(old(St()), St()) && batchDepth == old(batchDepth) + 1
    {
      BatchKeeps(listOf, St(), batchDepth + 1);
      batchDepth := batchDepth + 1;
    }

    // The end of a batch runs whatever the batch has left waiting.
    method BatchEnd(fuel: nat) returns (ok: bool)
      requires Ready()
      modifies this
      ensures ok ==> Ready() && Kept(old(St()), St())
      ensures ok && old(batchDepth) > 1 ==> St() == old(St()).(batchDepth := old(batchDepth) - 1)
      ensures ok && old(frames) == [] && old(batchDepth) <= 1 ==> PendingSet(St()) == {}
      decreases fuel, 7
    {
      hide PendingSet, InvBut, Kept;
      ghost var depth := if batchDepth > 0 then batchDepth - 1 else 0;
      BatchKeeps(listOf, St(), depth);
      if batchDepth > 0 {
        batchDepth := batchDepth - 1;
      }
      ghost var mid := St();
      assert mid == old(St()).(batchDepth := depth);
      ok := true;
      if batchDepth == 0 {
        ok := FlushPending(fuel);
        if ok {
          KeptTwice(old(St()), mid, St());
          KeptGrows(mid, St());
          NothingWaits(listOf, St());
        }
      }
    }

    method CreateEffect(fuel: nat) returns (ok: bool, e: nat)
      requires Ready()
      modifies this
      ensures ok ==> Ready() && Kept(old(St()), St())
      ensures ok ==> e == old(|effects|) < |effects| && old(history) + [RunStarted(e)] <= history
      decreases fuel, 7
    {
      AfterEffectAdded(listOf, St());
      KeptByEffectAdded(St());
      hide InvBut, Kept;
      e := |effects|;
      effects := effects + [Effect(Program, false, false)];
      ghost var mid := St();
      ok := EffectRun(e, fuel);
      if ok {
        KeptTwice(old(St()), mid, St());
        KeptGrows(mid, St());
      }
    }

    // A node and the effect that tracks its signals, which runs at once.
    method CreateDerived(body: ReadFn, node: Node) returns (n: nat)
      requires Ready() && NewNode(St(), node) && body.needs <= |signals|
      modifies this
      ensures Ready() && Kept(old(St()), St())
      ensures n == old(|nodes|) < |nodes| && Parent(nodes[n]) == Parent(node)
      ensures nodes[n].tracking == old(|effects|) < |effects| && effects[nodes[n].tracking].fn == Derived(body, n)
      decreases 0, 3
    {
      AfterDerivedAdded(listOf, St(), body, node);
      KeptByDerivedAdded(St(), body, node);
      hide InvBut, Kept, NewNode, Quiet;
      n := |nodes|;
      var e := |effects|;
      nodes := nodes + [node];
      effects := effects + [Effect(Derived(body, n), false, false)];
      ghost var mid := St();
      assert mid == DerivedAdded(old(St()), body, node);
      var ok := EffectRun(e, 0);
      KeptTwice(old(St()), mid, St());
      KeptNode(mid, St(), n, e);
    }

    method CreateMemo(f: ReadFn) returns (n: nat)
      requires Ready() && f.needs <= |signals|
      modifies this
      ensures Ready() && Kept(old(St()), St())
      ensures n < |nodes| && nodes[n].tracking < |effects| && effects[nodes[n].tracking].fn == Derived(f, n)
      decreases 0, 4
    {
      hide InvBut, Kept, Quiet;
      n := CreateDerived(f, Memo(0, true, |effects|));
    }

    method CreateShow(parent: nat, whenSignal: nat) returns (n: nat)
      requires Ready() && whenSignal < |signals| && parent < |windows|
      modifies this
      ensures Ready() && Kept(old(St()), St())
      ensures n < |nodes| && Parent(nodes[n]) == Some(parent)
      ensures nodes[n].tracking < |effects| && effects[nodes[n].tracking].fn == Derived(ReadOne(whenSignal), n)
      decreases 0, 4
    {
      hide InvBut, Kept, Quiet;
      n := CreateDerived(ReadOne(whenSignal), Show(parent, None, |effects|));
    }

    method CreateFor(parent: nat, listSignal: nat) returns (n: nat)
      requires Ready() && listSignal < |signals| && parent < |windows|
      modifies this
      ensures Ready() && Kept(old(St()), St())
      ensures n < |nodes| && Parent(nodes[n]) == Some(parent)
      ensures nodes[n].tracking < |effects| && effects[nodes[n].tracking].fn == Derived(ReadOne(listSignal), n)
      decreases 0, 4
    {
      hide InvBut, Kept, Quiet;
      n := CreateDerived(ReadOne(listSignal), For(parent, [], 0, |effects|));
    }

    method DisposeEffect(e: nat)
      requires Ready() && e < |effects|
      modifies this`effects
      ensures Ready() && Kept(old(St()), St()) && St() == Disposed(old(St()), e)
    {
      AfterDispose(listOf, St(), e);
      effects := effects[e := effects[e].(disposed := true)];
    }

    // Disposing a memo, a <Show> or a <For>: its effect will not run again and its elements
    // leave the window.
    method DisposeNode(n: nat)
      requires Ready() && n < |nodes|
      modifies this`effects, this`nodes, this`windows
      ensures Ready() && Kept(old(St()), St())
      ensures nodes[n].tracking < |effects| && effects[nodes[n].tracking].disposed
      ensures forall w :: 0 <= w < |windows| ==> OwnedBy(windows[w], n) == []
    {
      NodeIsTracked(listOf, St(), n);
      hide InvBut, Kept, Attached, Quiet, OnlyNode, Disposed;
      DisposeEffect(nodes[n].tracking);
      ghost var mid := St();
      DisposedTracker(listOf, old(St()), mid, n);
      DetachAll(n);
      AfterNodeDisposed(listOf, mid, St(), n);
      KeptByNode(old(St()), mid, St(), n);
      OwnsNothing(St(), n);
    }

    method DetachAll(n: nat)
      requires n < |nodes| && Attached(St())
      modifies this`nodes, this`windows
      ensures OnlyNode(old(St()), St(), n) && Attached(St()) && Children(nodes[n]) == []
    {
      hide Attached, Removed, AttachedAs;
      match nodes[n] {
        case Memo(_, _, _) =>
        case Show(parent, child, tracking) =>
          if child.Some? {
            AttachedParent(St(), n);
            AttachedIsAttachedAs(St(), n);
            RemoveStep(St(), n, parent, [child.value]);
            WindowRemove(parent, child.value);
            RecordStep(St(), n, Show(parent, None, tracking));
            nodes := nodes[n := Show(parent, None, tracking)];
          }
        case For(_, _, _, _) => RemoveAll(n);
      }
    }

    // A live memo that no drain or batch is holding up has the value its function would return
    // now, whatever path its reads took before.
    method MemoGet(n: nat) returns (w: Word)
      requires Ready() && n < |nodes| && nodes[n].Memo?
      ensures w == nodes[n].cached
      ensures nodes[n].tracking < |effects| && effects[nodes[n].tracking].fn.Derived?
      ensures frames == [] && batchDepth == 0 && WithinLimits(St()) && !effects[nodes[n].tracking].disposed ==>
        w == Eval(effects[nodes[n].tracking].fn.body, [], Values(St()))
    {
      Quiescent(listOf, St(), n);
      w := nodes[n].cached;
    }

    method CreateWindow()
      requires Ready()
      modifies this`windows
      ensures Ready() && Kept(old(St()), St()) && windows == old(windows) + [[]]
    {
      AttachedWithWindow(St(), windows + [[]]);
      AfterWindowChange(listOf, St(), windows + [[]]);
      windows := windows + [[]];
    }

    // The program appends an element of its own ...
    method AppendOwn(w: nat, item: Word, index: nat)
      requires Ready() && w < |windows|
      modifies this`windows
      ensures Ready() && Kept(old(St()), St()) && windows == old(windows)[w := old(windows)[w] + [Element(ByProgram, item, index)]]
    {
      var x := Element(ByProgram, item, index);
      OwnAppended(St(), w, x);
      AfterWindowChange(listOf, St(), windows[w := windows[w] + [x]]);
      WindowAppend(w, x);
    }

    // ... or removes one.
    method RemoveOwn(w: nat, item: Word, index: nat)
      requires Ready() && w < |windows|
      modifies this`windows
      ensures Ready() && Kept(old(St()), St()) && windows == old(windows)[w := Removed(old(windows)[w], Element(ByProgram, item, index))]
    {
      var x := Element(ByProgram, item, index);
      OwnRemoved(St(), w, x);
      AfterWindowChange(listOf, St(), windows[w := Removed(windows[w], x)]);
      WindowRemove(w, x);
    }

    // Program code: any sequence of calls, in any order, with any arguments.
    method RunProgram(fuel: nat) returns (ok: bool)
      requires Ready()
      modifies this
      ensures ok ==> Ready() && Kept(old(St()), St())
      decreases fuel, 0
    {
      KeptButRefl(St());
      KeptAround(St(), St());
      hide InvBut, Kept, Quiet;
      var left := fuel;
      while left > 0
        invariant left <= fuel && Ready() && Kept(old(St()), St())
        decreases left
      {
        left := left - 1;
        var finished: bool := *;
        if finished {
          return true;
        }
        ghost var before := St();
        ok := AnyCall(left);
        if !ok {
          return;
        }
        KeptTwice(old(St()), before, St());
      }
      return false;
    }

    // Any one call.
    method AnyCall(fuel: nat) returns (ok: bool)
      requires Ready()
      modifies this
      ensures ok ==> Ready() && Kept(old(St()), St())
      decreases fuel, 9
    {
      hide InvBut, Kept, Quiet;
      var onNodes: bool := *;
      if onNodes {
        NodeCall();
        ok := true;
      } else {
        ok := SignalCall(fuel);
      }
    }

    method SignalCall(fuel: nat) returns (ok: bool)
      requires Ready()
      modifies this
      ensures ok ==> Ready() && Kept(old(St()), St())
      decreases fuel, 8
    {
      KeptButRefl(St());
      KeptAround(St(), St());
      hide InvBut, Kept, Quiet, PendingSet, ScheduledAll, Changed, ReadBy, SignalAdded;
      var call: nat, a: nat, b: nat := *, *, *;
      ok := true;
      match call {
        case 0 => if a < |signals| { var w := ProgramGet(a); }
        case 1 => if a < |signals| { ok := SignalSet(a, b, fuel); }
        case 2 => BatchStart();
        case 3 => ok := BatchEnd(fuel);
        case 4 => var s := CreateSignal(a);
        case 5 => var e; ok, e := CreateEffect(fuel);
        case 6 => ok := FlushPending(fuel);
        case _ =>
      }
    }

    method NodeCall()
      requires Ready()
      modifies this
      ensures Ready() && Kept(old(St()), St())
      decreases 0, 5
    {
      KeptButRefl(St());
      KeptAround(St(), St());
      hide InvBut, Kept, Quiet, OwnedBy, Disposed, Eval, WithinLimits;
      var call: nat, a: nat, b: nat, item: Word, f: ReadFn := *, *, *, *, *;
      match call {
        case 0 => if f.needs <= |signals| { var n := CreateMemo(f); }
        case 1 => if a < |windows| && b < |signals| { var n := CreateShow(a, b); }
        case 2 => if a < |windows| && b < |signals| { var n := CreateFor(a, b); }
        case 3 => if a < |effects| { DisposeEffect(a); }
        case 4 => if a < |nodes| { DisposeNode(a); }
        case 5 => if a < |nodes| && nodes[a].Memo? { var w := MemoGet(a); }
        case 6 => CreateWindow();
        case 7 => if a < |windows| { AppendOwn(a, item, b); }
        case 8 => if a < |windows| { RemoveOwn(a, item, b); }
        case _ =>
      }
    }

    method ProgramGet(s: nat) returns (w: Word)
      requires Ready() && s < |signals|
      modifies this`signals, this`history
      ensures Ready() && Kept(old(St()), St()) && St() == ReadBy(old(St()), s) && w == old(signals)[s].value
      ensures !overflowed ==>
        var reader := Innermost(Running(old(history)));
        && history == old(history) + [SignalRead(reader, s)]
        && (reader.Some? ==> s < |signals| && reader.value in signals[s].subscribers)
    {
      ReadSubscribesReader(St(), s);
      AfterRead(listOf, St(), {}, s);
      assert !overflowed ==> observers == Running(history);
      KeptByRead(St(), s);
      hide InvBut, Kept, ReadBy;
      w := SignalGet(s);
    }
  }

  // An effect is pending exactly when it waits in one place, the queue or an unfinished
  // snapshot, and then in that place once.
  lemma PendingWaitsOnce(listOf: Word -> seq<Word>, st: State, e: nat)
    requires Inv(listOf, st) && e < |st.effects|
    ensures st.effects[e].pending <==> e in Waiting(st)
    ensures st.effects[e].pending ==> multiset(st.queue)[e] + Bag(st.frames)[e] == 1
  {
    assert st.effects[e].pending <==> e in PendingSet(st);
    assert Waiting(st)[e] == multiset(PendingSet(st))[e];
  }

  // No missed wake-up, in any state program code can reach: where a signal changed after an effect
  // had read it, a run of the effect started later, unless it is pending or disposed.
  lemma NoMissedWakeUp(listOf: Word -> seq<Word>, st: State, e: nat, s: nat, i: nat)
    requires Inv(listOf, st) && WithinLimits(st) && e < |st.effects| && Idle(st, e)
    requires i < |st.history| && st.history[i].SignalChanged? && st.history[i].signal == s && HasRead(st.history[..i], e, s)
    ensures RunStarted(e) in st.history[i + 1..]
  {
    assert SeesSignal(st, e);
    if RunStarted(e) !in st.history[i + 1..] {
      StaysMissed(st.history, e, s, i);
      assert false;
    }
  }

  lemma {:induction false} StaysMissed(h: seq<Event>, e: nat, s: nat, i: nat)
    requires i < |h| && h[i].SignalChanged? && h[i].signal == s && HasRead(h[..i], e, s) && RunStarted(e) !in h[i + 1..]
    ensures Missed(h, e, s)
    decreases |h|
  {
    var front := h[..|h| - 1];
    if i < |h| - 1 {
      assert h[i + 1..] == front[i + 1..] + [h[|h| - 1]];
      assert front[..i] == h[..i];
      StaysMissed(front, e, s, i);
      assert h[|h| - 1] in h[i + 1..];
    }
  }

  // What a callback reads it is subscribed to: every read is put down to the innermost callback that
  // had been entered and not left when it was made, or to none, and that effect is a subscriber.
  lemma ReadsSubscribe(listOf: Word -> seq<Word>, st: State, i: nat)
    requires Inv(listOf, st) && !st.overflowed && i < |st.history| && st.history[i].SignalRead?
    ensures st.history[i].reader == Innermost(Running(st.history[..i]))
    ensures st.history[i].reader.Some? ==>
      st.history[i].source < |st.signals| && st.history[i].reader.value in st.signals[st.history[i].source].subscribers
  {
    ReadIsOwn(st.history, i);
    if st.history[i].reader.Some? {
      assert HasRead(st.history, st.history[i].reader.value, st.history[i].source);
    }
  }

  // And nobody else is.
  lemma SubscribersHaveRead(listOf: Word -> seq<Word>, st: State, e: nat, s: nat)
    requires Inv(listOf, st) && s < |st.signals| && e in st.signals[s].subscribers
    ensures exists i :: 0 <= i < |st.history| && st.history[i] == SignalRead(Some(e), s)
  {
    assert HasRead(st.history, e, s);
  }

  lemma {:induction false} ReadIsOwn(h: seq<Event>, i: nat)
    requires OwnReads(h) && i < |h|
    ensures OwnRead(Running(h[..i]), h[i])
    decreases |h|
  {
    if i < |h| - 1 {
      ReadIsOwn(h[..|h| - 1], i);
      assert h[..|h| - 1][..i] == h[..i];
    }
  }

  // A change wakes every idle effect that had read the signal, once nothing is left in the queue.
  lemma ChangeWakes(listOf: Word -> seq<Word>, a: State, st: State, s: nat, v: Word, e: nat)
    requires Inv(listOf, a) && Inv(listOf, st) && WithinLimits(st) && st.queue == [] && st.frames == a.frames
    requires a.history + [SignalChanged(s, v)] <= st.history
    requires e < |a.effects| <= |st.effects| && Idle(a, e) && HasRead(a.history, e, s) && !st.effects[e].disposed
    ensures RunStarted(e) in st.history[|a.history| + 1..]
  {
    NotWaiting(a, st, e);
    var i := |a.history|;
    assert st.history[..i] == a.history && st.history[i] == SignalChanged(s, v);
    hide InvBut;
    NoMissedWakeUp(listOf, st, e, s, i);
  }

  // Effects that were idle are woken in the order in which they subscribed.
  lemma WakesInOrder(listOf: Word -> seq<Word>, a: State, st: State, s: nat, v: Word)
    requires Inv(listOf, a) && s < |a.signals| && WithinLimits(a)
    requires forall i :: 0 <= i < |a.signals[s].subscribers| ==> a.signals[s].subscribers[i] < |a.effects|
    requires RanAll(st, |a.history| + 1, ScheduledAll(Changed(a, s, v), a.signals[s].subscribers).queue)
    ensures var subs := a.signals[s].subscribers;
      forall i, j :: 0 <= i < j < |subs| ==> WokenInOrder(a, st, subs[i], subs[j])
  {
    var subs, c := a.signals[s].subscribers, Changed(a, s, v);
    var queue := ScheduledAll(c, subs).queue;
    ChangeKeepsShape(a, s, v);
    hide InvBut, ScheduledAll, FlagsMatchQueue, Changed;
    forall i, j | 0 <= i < j < |subs| && Live(st, subs[i]) && Live(st, subs[j])
                  && Live(a, subs[i]) && !a.effects[subs[i]].pending && Live(a, subs[j]) && !a.effects[subs[j]].pending
      ensures OneAfterOther(st.history, |a.history| + 1, subs[i], subs[j])
    {
      QueuedInOrder(c, subs, i, j);
      var p, q :| 0 <= p < q < |queue| && queue[p] == subs[i] && queue[q] == subs[j];
      assert Live(st, queue[p]) && Live(st, queue[q]);
    }
  }

  lemma NotWaiting(a: State, b: State, e: nat)
    requires FlagsMatchQueue(a) && FlagsMatchQueue(b) && b.frames == a.frames && b.queue == []
    requires e < |a.effects| <= |b.effects| && !a.effects[e].pending
    ensures !b.effects[e].pending
  {
    assert e !in PendingSet(a);
    assert multiset(PendingSet(a))[e] == 0;
    assert Waiting(a)[e] == 0 && Waiting(b)[e] == Bag(b.frames)[e];
    assert e in PendingSet(b) <==> multiset(PendingSet(b))[e] > 0;
  }

  // Once nothing holds effects up, every live node shows the result of its computation.
  lemma Quiescent(listOf: Word -> seq<Word>, st: State, n: nat)
    requires Inv(listOf, st) && Quiet(st) && n < |st.nodes|
    ensures Tracked(st, n)
    ensures st.frames == [] && st.batchDepth == 0 && WithinLimits(st) && !st.effects[st.nodes[n].tracking].disposed ==>
      Shows(listOf, st.nodes[n], Eval(st.effects[st.nodes[n].tracking].fn.body, [], Values(st)))
  {
    NothingWaits(listOf, st);
    var t := st.nodes[n].tracking;
    assert Tracked(st, n);
    if st.frames == [] && st.batchDepth == 0 && WithinLimits(st) && !st.effects[t].disposed {
      assert t !in PendingSet(st);
      assert Idle(st, t);
      assert Current(listOf, st, t);
    }
  }

  lemma ReadOneEval(s: nat, vals: seq<Word>)
    requires s < |vals|
    ensures Eval(ReadOne(s), [], vals) == vals[s]
  {
    var f := ReadOne(s);
    assert f.next([]) == ReadNext(s);
    assert f.next([] + [vals[s]]) == Finish(vals[s]);
    assert Eval(f, [] + [vals[s]], vals) == vals[s];
  }

  // Node `n` is live and follows signal `s`.
  ghost predicate Follows(st: State, n: nat, s: nat) {
    && n < |st.nodes| && s < |st.signals| && Tracked(st, n)
    && st.effects[st.nodes[n].tracking].fn == Derived(ReadOne(s), n) && !st.effects[st.nodes[n].tracking].disposed
  }

  predicate Settled(st: State) {
    Quiet(st) && st.frames == [] && st.batchDepth == 0 && WithinLimits(st)
  }

  // <Show>: its window holds its child, once, exactly while the signal is non-zero.
  lemma ShowMirrors(listOf: Word -> seq<Word>, st: State, n: nat, s: nat)
    requires Inv(listOf, st) && Settled(st) && Follows(st, n, s) && st.nodes[n].Show?
    ensures st.nodes[n].parent < |st.windows|
    ensures st.nodes[n].child.Some? <==> st.signals[s].value != 0
    ensures OwnedBy(st.windows[st.nodes[n].parent], n) == Children(st.nodes[n])
  {
    Quiescent(listOf, st, n);
    ReadOneEval(s, Values(st));
    assert Parent(st.nodes[n]) == Some(st.nodes[n].parent);
  }

  // <For>: its window holds the renders of the signal's list, in order, and no leftover.
  lemma ForMirrors(listOf: Word -> seq<Word>, st: State, n: nat, s: nat)
    requires Inv(listOf, st) && Settled(st) && Follows(st, n, s) && st.nodes[n].For?
    ensures st.nodes[n].parent < |st.windows|
    ensures OwnedBy(st.windows[st.nodes[n].parent], n) == Renders(n, listOf(st.signals[s].value))
  {
    Quiescent(listOf, st, n);
    ReadOneEval(s, Values(st));
    assert Parent(st.nodes[n]) == Some(st.nodes[n].parent);
    var w := st.windows[st.nodes[n].parent];
    hide InvBut;
    forall i | 0 <= i < |OwnedBy(w, n)|
      ensures OwnedBy(w, n)[i].owner == ByNode(n)
    {
      OwnedAreOwned(w, n, i);
    }
  }

  // What a <For> node renders of a list.
  function Renders(n: nat, items: seq<Word>): seq<Element> {
    seq(|items|, i requires 0 <= i < |items| => Element(ByNode(n), items[i], i))
  }

  lemma DisposedTracker(listOf: Word -> seq<Word>, a: State, b: State, n: nat)
    requires Inv(listOf, a) && n < |a.nodes| && a.nodes[n].tracking < |a.effects| && b == Disposed(a, a.nodes[n].tracking)
    ensures n < |b.nodes| && b.nodes[n].tracking < |b.effects| && b.effects[b.nodes[n].tracking].disposed && Attached(b)
  {
  }

  lemma KeptByRead(st: State, s: nat)
    requires s < |st.signals|
    ensures Kept(st, ReadBy(st, s)) && (Quiet(st) ==> Quiet(ReadBy(st, s)))
  {
    RunningAdds(st.history, SignalRead(Innermost(st.observers), s));
    hide Running, OwnReads, Runs;
  }

  lemma KeptByDerivedAdded(st: State, body: ReadFn, node: Node)
    ensures Kept(st, DerivedAdded(st, body, node)) && (Quiet(st) ==> Quiet(DerivedAdded(st, body, node)))
  {
  }

  lemma KeptNode(a: State, b: State, n: nat, e: nat)
    requires Kept(a, b) && n < |a.nodes| && e < |a.effects|
    ensures n < |b.nodes| && b.nodes[n].tracking == a.nodes[n].tracking && Parent(b.nodes[n]) == Parent(a.nodes[n])
    ensures e < |b.effects| && b.effects[e].fn == a.effects[e].fn
  {
  }

  lemma NodeIsTracked(listOf: Word -> seq<Word>, st: State, n: nat)
    requires Inv(listOf, st) && n < |st.nodes|
    ensures Tracked(st, n) && Attached(st)
  {
  }

  lemma KeptByNode(a: State, mid: State, b: State, n: nat)
    requires Kept(a, mid) && OnlyNode(mid, b, n)
    ensures Kept(a, b) && b.effects == mid.effects && n < |mid.nodes| == |b.nodes| && b.nodes[n].tracking == mid.nodes[n].tracking
    ensures Quiet(mid) ==> Quiet(b)
  {
  }

  lemma OwnsNothing(st: State, n: nat)
    requires Attached(st) && n < |st.nodes| && Children(st.nodes[n]) == []
    ensures forall w :: 0 <= w < |st.windows| ==> OwnedBy(st.windows[w], n) == []
  {
  }

  lemma OwnAppended(st: State, w: nat, x: Element)
    requires Attached(st) && w < |st.windows| && x.owner == ByProgram
    ensures Attached(st.(windows := st.windows[w := st.windows[w] + [x]]))
  {
    forall n: nat
      ensures OwnedBy(st.windows[w] + [x], n) == OwnedBy(st.windows[w], n)
    {
      OwnedAppend(st.windows[w], x, n);
    }
    OwnChanged(st, w, st.windows[w] + [x]);
  }

  lemma OwnRemoved(st: State, w: nat, x: Element)
    requires Attached(st) && w < |st.windows| && x.owner == ByProgram
    ensures Attached(st.(windows := st.windows[w := Removed(st.windows[w], x)]))
  {
    forall n: nat
      ensures OwnedBy(Removed(st.windows[w], x), n) == OwnedBy(st.windows[w], n)
    {
      OwnedRemoveOther(st.windows[w], x, n);
    }
    forall y | y in Removed(st.windows[w], x)
      ensures y in st.windows[w]
    {
      RemovedIsPart(st.windows[w], x, y);
    }
    OwnChanged(st, w, Removed(st.windows[w], x));
  }

  // What nodes see of a window is their own elements.
  lemma OwnChanged(st: State, w: nat, elements: seq<Element>)
    requires Attached(st) && w < |st.windows|
    requires forall n: nat :: OwnedBy(elements, n) == OwnedBy(st.windows[w], n)
    requires forall x :: x in elements ==> x.owner == ByProgram || x in st.windows[w]
    ensures Attached(st.(windows := st.windows[w := elements]))
  {
    hide Children, OwnedBy;
    var b := st.(windows := st.windows[w := elements]);
    forall n, v | 0 <= n < |b.nodes| && 0 <= v < |b.windows|
      ensures OwnedBy(b.windows[v], n) == if Parent(b.nodes[n]) == Some(v) then Children(b.nodes[n]) else []
    {
      assert OwnedBy(b.windows[v], n) == OwnedBy(st.windows[v], n);
    }
  }

  lemma AttachedWithWindow(st: State, windows: seq<seq<Element>>)
    requires Attached(st) && windows == st.windows + [[]]
    ensures Attached(st.(windows := windows))
  {
    hide Children;
    var b := st.(windows := windows);
    forall n, w | 0 <= n < |b.nodes| && 0 <= w < |b.windows|
      ensures OwnedBy(b.windows[w], n) == if Parent(b.nodes[n]) == Some(w) then Children(b.nodes[n]) else []
    {
      if w < |st.windows| {
        assert b.windows[w] == st.windows[w];
      }
    }
  }

  // Outside every drain loop, with the queue drained or no batch open, nothing waits.
  lemma NothingWaits(listOf: Word -> seq<Word>, st: State)
    requires Inv(listOf, st) && Quiet(st)
    ensures st.frames == [] && (st.queue == [] || st.batchDepth == 0) ==> PendingSet(st) == {}
  {
    if st.frames == [] && st.queue == [] {
      assert Waiting(st) == multiset{};
      assert |multiset(PendingSet(st))| == |PendingSet(st)|;
    }
  }

  lemma AfterNotify(listOf: Word -> seq<Word>, st: State, s: nat)
    requires s < |st.signals| && InvBut(listOf, st, SubscriberSet(st, s))
    ensures forall i :: 0 <= i < |st.signals[s].subscribers| ==> st.signals[s].subscribers[i] < |st.effects|
    ensures Inv(listOf, ScheduledAll(st, st.signals[s].subscribers))
  {
    var subs := st.signals[s].subscribers;
    AfterScheduleAll(listOf, st, SubscriberSet(st, s), subs);
    assert SubscriberSet(st, s) - (set e | e in subs) == {};
  }

  lemma ScheduledHistory(st: State, es: seq<nat>)
    requires forall i :: 0 <= i < |es| ==> es[i] < |st.effects|
    ensures ScheduledAll(st, es).history == st.history && ScheduledAll(st, es).frames == st.frames
    ensures ScheduledAll(st, es).batchDepth == st.batchDepth
  {
  }

  lemma ChangedHistory(st: State, s: nat, v: Word)
    requires s < |st.signals|
    ensures var b := Changed(st, s, v);
      b.history == st.history + [SignalChanged(s, v)] && b.frames == st.frames && b.batchDepth == st.batchDepth
  {
  }

  lemma KeptByNotify(listOf: Word -> seq<Word>, st: State, s: nat, v: Word)
    requires Inv(listOf, st) && s < |st.signals|
    ensures Kept(st, ScheduledAll(Changed(st, s, v), st.signals[s].subscribers))
  {
    ChangeKeepsShape(st, s, v);
    AllNotified(Changed(st, s, v), st.signals[s].subscribers);
    RunningAdds(st.history, SignalChanged(s, v));
    hide Running, OwnReads, Runs;
  }

  lemma BatchKeeps(listOf: Word -> seq<Word>, st: State, depth: nat)
    requires Inv(listOf, st)
    ensures Inv(listOf, st.(batchDepth := depth)) && Kept(st, st.(batchDepth := depth))
  {
    AfterBatchMove(listOf, st, depth);
  }

  lemma KeptByEffectAdded(st: State)
    ensures Kept(st, EffectAdded(st, Program)) && (Quiet(st) ==> Quiet(EffectAdded(st, Program)))
  {
  }

  lemma KeptGrows(a: State, b: State)
    requires Kept(a, b)
    ensures |a.effects| <= |b.effects| && a.history <= b.history && b.frames == a.frames
  {
  }

  lemma StartedObserves(st: State, e: nat)
    ensures Quiet(st) ==> Quiet(Started(st, e))
    ensures var b := Started(st, e); !b.overflowed ==> b.observers == st.observers + [e]
    ensures var b := Started(st, e); b.effects == st.effects && b.history == st.history + [RunStarted(e)]
  {
  }

  lemma DerivedShape(listOf: Word -> seq<Word>, st: State, e: nat)
    requires e < |st.effects| && InvBut(listOf, st, {e}) && st.effects[e].fn.Derived?
    ensures st.effects[e].fn.node < |st.nodes| && st.effects[e].fn.body.needs <= |st.signals| && Attached(st)
  {
  }

  lemma KeptByDerived(a: State, mid: State, b: State, n: nat)
    requires OnlyRead(a, mid) && OnlyNode(mid, b, n)
    ensures Kept(a, b) && (Quiet(a) ==> Quiet(b))
  {
  }

  lemma AttachedParent(st: State, n: nat)
    requires Attached(st) && n < |st.nodes|
    ensures Parent(st.nodes[n]).Some? ==> Parent(st.nodes[n]).value < |st.windows|
  {
  }

  // The effect of reads: `a` and `b` differ in subscriptions and in the reads recorded only.
  ghost predicate OnlyRead(a: State, b: State) {
    && b == a.(signals := b.signals, history := b.history)
    && Values(b) == Values(a) && a.history <= b.history && Running(b.history) == Running(a.history)
    && (forall e :: 0 <= e < |a.effects| ==> Runs(b.history, e) == Runs(a.history, e))
    && |a.signals| == |b.signals| && forall s :: 0 <= s < |a.signals| ==> a.signals[s].subscribers <= b.signals[s].subscribers
  }

  lemma ReadOnlyReads(a: State, b: State, s: nat)
    requires OnlyRead(a, b) && s < |b.signals|
    ensures OnlyRead(a, ReadBy(b, s))
  {
    var c, x := ReadBy(b, s), SignalRead(Innermost(b.observers), s);
    assert Values(c) == Values(b);
    assert c == b.(signals := c.signals, history := b.history + [x]);
    RunningAdds(b.history, x);
    ReadGrows(b, s);
    hide Running, OwnReads, Runs, HasRead, ReadBy, Values, OwnRead;
  }

  lemma ReadGrows(st: State, s: nat)
    requires s < |st.signals|
    ensures var b := ReadBy(st, s); |b.signals| == |st.signals| && forall r :: 0 <= r < |st.signals| ==> st.signals[r].subscribers <= b.signals[r].subscribers
  {
  }

  lemma ReadSubscribes(st: State, s: nat, ss: set<nat>)
    requires st.observers != [] && s < |st.signals|
    requires Subscribed(st, st.observers[|st.observers| - 1], ss)
    ensures Subscribed(ReadBy(st, s), st.observers[|st.observers| - 1], ss + {s})
  {
  }

  // In the middle of a computation that began in state `a` and has read `h` from `seen`.
  ghost predicate Reading(listOf: Word -> seq<Word>, a: State, st: State, e: nat, body: ReadFn, h: seq<Word>, seen: set<nat>) {
    && e < |st.effects| && InvBut(listOf, st, {e}) && OnlyRead(a, st) && body.needs <= |st.signals|
    && Eval(body, h, Values(st)) == Eval(body, [], Values(st))
    && Path(body, [], Values(st)) == seen + Path(body, h, Values(st))
    && (!st.overflowed ==>
          SeesSignal(st, e) && st.observers != [] && st.observers[|st.observers| - 1] == e && Subscribed(st, e, seen))
  }

  lemma ReadStart(listOf: Word -> seq<Word>, st: State, e: nat, body: ReadFn)
    requires e < |st.effects| && InvBut(listOf, st, {e}) && body.needs <= |st.signals|
    requires !st.overflowed ==> SeesSignal(st, e) && st.observers != [] && st.observers[|st.observers| - 1] == e
    ensures Reading(listOf, st, st, e, body, [], {})
  {
    hide InvBut, SeesSignal, Eval, Path, Running, Runs;
  }

  // One read of a computation.
  lemma ReadStep(listOf: Word -> seq<Word>, a: State, st: State, e: nat, body: ReadFn, h: seq<Word>, seen: set<nat>)
    requires Reading(listOf, a, st, e, body, h, seen) && body.next(h).ReadNext?
    ensures |h| < body.bound && body.next(h).signal < |st.signals|
    ensures var s := body.next(h).signal;
      Reading(listOf, a, ReadBy(st, s), e, body, h + [st.signals[s].value], seen + {s})
  {
    hide InvBut, SeesSignal, Subscribed, OnlyRead, Values, Eval, Path, ReadBy;
    var s := body.next(h).signal;
    ValuesAre(st);
    ComputeStep(body, h, Values(st));
    AfterRead(listOf, st, {e}, s);
    ReadOnlyReads(a, st, s);
    ReadKeepsTables(st, s);
    if !st.overflowed {
      ReadKeepsSight(st, s, e);
      ReadSubscribes(st, s, seen);
    }
  }

  lemma ValuesAre(st: State)
    ensures |Values(st)| == |st.signals| && forall s :: 0 <= s < |st.signals| ==> Values(st)[s] == st.signals[s].value
  {
  }

  lemma ComputeStep(f: ReadFn, h: seq<Word>, vals: seq<Word>)
    requires f.next(h).ReadNext? && f.needs <= |vals|
    ensures |h| < f.bound && f.next(h).signal < |vals|
    ensures var s := f.next(h).signal;
      Eval(f, h, vals) == Eval(f, h + [vals[s]], vals) && Path(f, h, vals) == {s} + Path(f, h + [vals[s]], vals)
  {
  }

  lemma ReadKeepsTables(st: State, s: nat)
    requires s < |st.signals|
    ensures var b := ReadBy(st, s);
      |b.effects| == |st.effects| && |b.signals| == |st.signals| && b.overflowed == st.overflowed && b.observers == st.observers
  {
  }

  lemma ReadEnd(listOf: Word -> seq<Word>, a: State, st: State, e: nat, body: ReadFn, h: seq<Word>, seen: set<nat>)
    requires Reading(listOf, a, st, e, body, h, seen) && body.next(h).Finish?
    ensures e < |st.effects| && InvBut(listOf, st, {e}) && OnlyRead(a, st)
    ensures body.next(h).result == Eval(body, [], Values(st))
    ensures !st.overflowed ==> SeesSignal(st, e) && Subscribed(st, e, Path(body, [], Values(st)))
  {
    hide InvBut, SeesSignal, OnlyRead, Values;
    assert Path(body, h, Values(st)) == {};
    assert seen + {} == seen;
  }

  lemma EndKeeps(listOf: Word -> seq<Word>, a: State, e: nat, c: State)
    requires Kept(Started(a, e), c) && Inv(listOf, c) && e < |a.effects| && !a.effects[e].disposed
    ensures Kept(a, Ended(c, e)) && Inv(listOf, Ended(c, e))
    ensures Quiet(c) ==> Quiet(Ended(c, e))
  {
    AfterEnd(listOf, c, e);
    hide InvBut;
    EndRestores(a, e, c);
  }

  lemma EndRestores(a: State, e: nat, c: State)
    requires Kept(Started(a, e), c) && e < |a.effects| && !a.effects[e].disposed
    ensures Kept(a, Ended(c, e)) && (Quiet(c) ==> Quiet(Ended(c, e)))
  {
    RunningAdds(a.history, RunStarted(e));
    RunningAdds(c.history, RunEnded(e));
    hide Running, Runs, HasRead, OwnReads;
  }

  lemma EndedIs(c: State, e: nat)
    ensures Ended(c, e) == c.(history := c.history + [RunEnded(e)]).(observers := AllButLast(c.observers))
  {
  }
}
