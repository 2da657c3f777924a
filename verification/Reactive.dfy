// The state of the Solite reactive runtime and what must always hold of it
// (solite_runtime/src/solite_effect.c, solite_signal.c, solite_control_flow.c).

module Reactive {
  import opened Wrappers

  type Word = nat

  const PENDING_MAX: nat := 256
  const OBSERVER_STACK_MAX: nat := 64

  datatype Action = ReadNext(signal: nat) | Finish(result: Word)

  datatype AnyReadFn = ReadFn(bound: nat, needs: nat, next: seq<Word> -> Action)

  // A deterministic computation that only reads signals: given the values read so far, it
  // reads one more of the first `needs` signals or finishes, after at most `bound` reads.
  type ReadFn = f: AnyReadFn | forall h: seq<Word> ::
      match f.next(h)
      case ReadNext(s) => s < f.needs && |h| < f.bound
      case Finish(_) => true
    witness ReadFn(0, 0, h => Finish(0))

  // The computation of a callback that reads one signal.
  function ReadOne(s: nat): ReadFn {
    ReadFn(1, s + 1, (h: seq<Word>) => if h == [] then ReadNext(s) else Finish(h[0]))
  }

  // Its result on the current values, once `h` has been read.
  function Eval(f: ReadFn, h: seq<Word>, vals: seq<Word>): Word
    decreases f.bound - |h|
  {
    match f.next(h)
    case Finish(v) => v
    case ReadNext(s) => if s < |vals| && |h| < f.bound then Eval(f, h + [vals[s]], vals) else 0
  }

  // The signals it reads on the way.
  function Path(f: ReadFn, h: seq<Word>, vals: seq<Word>): set<nat>
    decreases f.bound - |h|
  {
    match f.next(h)
    case Finish(_) => {}
    case ReadNext(s) => if s < |vals| && |h| < f.bound then {s} + Path(f, h + [vals[s]], vals) else {}
  }

  // A signal that was not read does not matter, though other values might have read it.
  lemma {:induction false} UnreadSignal(f: ReadFn, h: seq<Word>, vals: seq<Word>, s: nat, v: Word)
    requires s < |vals| && s !in Path(f, h, vals)
    ensures Eval(f, h, vals[s := v]) == Eval(f, h, vals)
    ensures Path(f, h, vals[s := v]) == Path(f, h, vals)
    decreases f.bound - |h|
  {
    match f.next(h)
    case Finish(_) =>
    case ReadNext(r) =>
      if r < |vals| && |h| < f.bound {
        UnreadSignal(f, h + [vals[r]], vals, s, v);
      }
  }

  // New signals do not matter to a computation over the old ones.
  lemma {:induction false} NewSignal(f: ReadFn, h: seq<Word>, vals: seq<Word>, v: Word)
    requires f.needs <= |vals|
    ensures Eval(f, h, vals + [v]) == Eval(f, h, vals)
    ensures Path(f, h, vals + [v]) == Path(f, h, vals)
    decreases f.bound - |h|
  {
    match f.next(h)
    case Finish(_) =>
    case ReadNext(r) =>
      if r < |vals| && |h| < f.bound {
        NewSignal(f, h + [vals[r]], vals, v);
      }
  }

  // What an effect's callback does: arbitrary program code, or a memo's, <Show>'s or <For>'s
  // callback, which reads signals and then updates its node.
  datatype EffectFn = Program | Derived(body: ReadFn, node: nat)

  datatype Effect = Effect(fn: EffectFn, pending: bool, disposed: bool)

  datatype Signal = Signal(value: Word, subscribers: seq<nat>)

  // The owner of an element is the node that rendered it, or the program.
  datatype Owner = ByProgram | ByNode(node: nat)

  // An element: `item` and `index` are what it was rendered from.
  datatype Element = Element(owner: Owner, item: Word, index: nat)

  datatype Node =
    | Memo(cached: Word, dirty: bool, tracking: nat)
    | Show(parent: nat, child: Option<Element>, tracking: nat)
    | For(parent: nat, children: seq<Element>, capacity: nat, tracking: nat)

  function Children(n: Node): seq<Element> {
    match n
    case Memo(_, _, _) => []
    case Show(_, c, _) => if c.Some? then [c.value] else []
    case For(_, cs, _, _) => cs
  }

  function Parent(n: Node): Option<nat> {
    if n.Memo? then None else Some(n.parent)
  }

  // The elements of a window that belong to a node, in order.
  function OwnedBy(w: seq<Element>, n: nat): seq<Element> {
    if w == [] then []
    else (if w[0].owner == ByNode(n) then [w[0]] else []) + OwnedBy(w[1..], n)
  }

  datatype State = State(
    queue: seq<nat>,
    batchDepth: nat,
    observers: seq<nat>,
    effects: seq<Effect>,
    signals: seq<Signal>,
    nodes: seq<Node>,
    windows: seq<seq<Element>>,
    // The unprocessed suffix of every drain loop in progress, innermost last.
    frames: seq<seq<nat>>,
    // Whether the observer stack has ever been full at a push.
    overflowed: bool,
    // Everything that has happened, oldest first.
    history: seq<Event>
  )

  // A read records the observer that the runtime finds at the time. A run starts where the callback
  // of the effect is entered, and ends where it is left.
  datatype Event =
    | SignalCreated(value: Word)
    | SignalChanged(signal: nat, newValue: Word)
    | SignalRead(reader: Option<nat>, source: nat)
    | RunStarted(effect: nat)
    | RunEnded(ended: nat)

  function ValuesAfter(vals: seq<Word>, x: Event): seq<Word> {
    match x
    case SignalCreated(v) => vals + [v]
    case SignalChanged(s, v) => if s < |vals| then vals[s := v] else vals
    case SignalRead(_, _) => vals
    case RunStarted(_) => vals
    case RunEnded(_) => vals
  }

  // The signal values that a history leaves behind.
  function Replay(h: seq<Event>): seq<Word> {
    if h == [] then [] else ValuesAfter(Replay(h[..|h| - 1]), h[|h| - 1])
  }

  // The callbacks that have been entered and not yet left, innermost last.
  function Running(h: seq<Event>): seq<nat> {
    if h == [] then [] else RunningAfter(Running(h[..|h| - 1]), h[|h| - 1])
  }

  function RunningAfter(running: seq<nat>, x: Event): seq<nat> {
    match x
    case RunStarted(e) => running + [e]
    case RunEnded(_) => AllButLast(running)
    case _ => running
  }

  function AllButLast(running: seq<nat>): seq<nat> {
    if running == [] then [] else running[..|running| - 1]
  }

  function Innermost(running: seq<nat>): Option<nat> {
    if running == [] then None else Some(running[|running| - 1])
  }

  // How often a run of `e` has started.
  function Runs(h: seq<Event>, e: nat): nat {
    multiset(h)[RunStarted(e)]
  }

  predicate HasRead(h: seq<Event>, e: nat, s: nat) {
    SignalRead(Some(e), s) in h
  }

  // Every read is put down to the innermost callback running at the time, if any.
  predicate OwnReads(h: seq<Event>) {
    h == [] || (OwnReads(h[..|h| - 1]) && OwnRead(Running(h[..|h| - 1]), h[|h| - 1]))
  }

  predicate OwnRead(running: seq<nat>, x: Event) {
    x.SignalRead? ==> x.reader == Innermost(running)
  }

  // Whether signal `s` has changed, after effect `e` had read it, and no run of `e` has started
  // since.
  predicate Missed(h: seq<Event>, e: nat, s: nat) {
    h != [] && MissedAfter(Missed(h[..|h| - 1], e, s), HasRead(h[..|h| - 1], e, s), h[|h| - 1], e, s)
  }

  predicate MissedAfter(missed: bool, hasRead: bool, x: Event, e: nat, s: nat) {
    match x
    case SignalChanged(r, _) => (r == s && hasRead) || missed
    case RunStarted(d) => missed && d != e
    case _ => missed
  }

  function Values(st: State): seq<Word> {
    seq(|st.signals|, s requires 0 <= s < |st.signals| => st.signals[s].value)
  }

  function Bag(frames: seq<seq<nat>>): multiset<nat> {
    if frames == [] then multiset{} else Bag(frames[..|frames| - 1]) + multiset(frames[|frames| - 1])
  }

  // Every place where an effect waits to be run.
  function Waiting(st: State): multiset<nat> {
    multiset(st.queue) + Bag(st.frames)
  }

  function PendingSet(st: State): set<nat> {
    set e | 0 <= e < |st.effects| && st.effects[e].pending
  }

  // The pending flags are exactly the queue plus all unfinished snapshots, each effect once.
  predicate FlagsMatchQueue(st: State) {
    Waiting(st) == multiset(PendingSet(st))
  }

  // Within the limits of the queue and of the observer stack.
  predicate WithinLimits(st: State) {
    |st.effects| <= PENDING_MAX && !st.overflowed
  }

  predicate Idle(st: State, e: nat)
    requires e < |st.effects|
  {
    !st.effects[e].disposed && !st.effects[e].pending
  }

  // No missed wake-up: an idle effect has run since the last change of any signal it had read.
  ghost predicate SeesSignal(st: State, e: nat)
    requires e < |st.effects|
  {
    Idle(st, e) ==> forall s: nat :: !Missed(st.history, e, s)
  }

  // The observer stack holds the running callbacks, reads are put down to them, and the subscribers
  // of a signal are those who have read it.
  ghost predicate Recorded(st: State) {
    && (!st.overflowed ==> st.observers == Running(st.history) && OwnReads(st.history))
    && (forall e: nat, s: nat :: HasRead(st.history, e, s) <==> s < |st.signals| && e in st.signals[s].subscribers)
  }

  // What a node must look like when its computation has `v` as its result.
  predicate Shows(listOf: Word -> seq<Word>, n: Node, v: Word) {
    match n
    case Memo(cached, dirty, _) => cached == v && !dirty
    case Show(_, child, _) => child.Some? <==> v != 0
    case For(_, children, _, _) =>
      && |children| == |listOf(v)|
      && forall i :: 0 <= i < |children| ==> children[i].item == listOf(v)[i] && children[i].index == i
  }

  // An idle derived effect is subscribed to all it would read now, and its node shows the result.
  predicate Current(listOf: Word -> seq<Word>, st: State, e: nat)
    requires e < |st.effects|
  {
    Idle(st, e) && st.effects[e].fn.Derived? ==>
      var f := st.effects[e].fn;
      && f.node < |st.nodes|
      && (forall s :: s in Path(f.body, [], Values(st)) ==> s < |st.signals| && e in st.signals[s].subscribers)
      && Shows(listOf, st.nodes[f.node], Eval(f.body, [], Values(st)))
  }

  predicate Distinct(xs: seq<nat>) {
    forall i, j :: 0 <= i < j < |xs| ==> xs[i] != xs[j]
  }

  predicate Tracked(st: State, n: nat)
    requires n < |st.nodes|
  {
    var t := st.nodes[n].tracking;
    t < |st.effects| && st.effects[t].fn.Derived? && st.effects[t].fn.node == n
  }

  ghost predicate WellFormed(st: State) {
    && |st.queue| <= PENDING_MAX
    && (forall s :: 0 <= s < |st.signals| ==> Distinct(st.signals[s].subscribers))
    && |st.observers| <= OBSERVER_STACK_MAX
    && (forall i :: 0 <= i < |st.observers| ==> st.observers[i] < |st.effects|)
    && (forall s, i :: 0 <= s < |st.signals| && 0 <= i < |st.signals[s].subscribers| ==> st.signals[s].subscribers[i] < |st.effects|)
    && (forall e :: 0 <= e < |st.effects| && st.effects[e].fn.Derived? ==>
          st.effects[e].fn.node < |st.nodes| && st.effects[e].fn.body.needs <= |st.signals| && st.nodes[st.effects[e].fn.node].tracking == e)
    && (forall n :: 0 <= n < |st.nodes| ==> Tracked(st, n))
    && Values(st) == Replay(st.history)
  }

  // Each node's elements are attached to its window, in order and once, and nowhere else.
  predicate Attached(st: State) {
    && (forall n, w :: 0 <= n < |st.nodes| && 0 <= w < |st.windows| ==>
          OwnedBy(st.windows[w], n) == if Parent(st.nodes[n]) == Some(w) then Children(st.nodes[n]) else [])
    && (forall n :: 0 <= n < |st.nodes| && Parent(st.nodes[n]).Some? ==> Parent(st.nodes[n]).value < |st.windows|)
    && (forall w, i :: 0 <= w < |st.windows| && 0 <= i < |st.windows[w]| && st.windows[w][i].owner.ByNode? ==>
          st.windows[w][i].owner.node < |st.nodes|)
  }

  // The invariant, except that the effects in `xs` may still owe a run or a notification.
  ghost predicate InvBut(listOf: Word -> seq<Word>, st: State, xs: set<nat>) {
    && WellFormed(st)
    && FlagsMatchQueue(st)
    && Attached(st)
    && Recorded(st)
    && (WithinLimits(st) ==> forall e :: 0 <= e < |st.effects| && e !in xs ==> SeesSignal(st, e) && Current(listOf, st, e))
  }

  ghost predicate Inv(listOf: Word -> seq<Word>, st: State) {
    InvBut(listOf, st, {})
  }

  // Outside every drain loop and batch nothing waits.
  predicate Quiet(st: State) {
    st.frames == [] && st.batchDepth == 0 ==> st.queue == []
  }
}
