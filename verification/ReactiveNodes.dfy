// Creating effects and nodes, and bringing a node up to date: memos, <Show> and <For>
// (solite_runtime/src/solite_effect.c:92-153, solite_control_flow.c).

module ReactiveNodes {
  import opened Wrappers
  import opened Reactive
  import opened ReactiveSteps

  // ---- Windows ----

  // Removing an element from a window: the first one that is this element.
  function Removed(w: seq<Element>, x: Element): seq<Element> {
    if w == [] then []
    else if w[0] == x then w[1..]
    else [w[0]] + Removed(w[1..], x)
  }

  lemma {:induction false} OwnedAppend(w: seq<Element>, x: Element, n: nat)
    ensures OwnedBy(w + [x], n) == OwnedBy(w, n) + (if x.owner == ByNode(n) then [x] else [])
  {
    if w == [] {
      assert w + [x] == [x];
    } else {
      OwnedAppend(w[1..], x, n);
      var head := if w[0].owner == ByNode(n) then [w[0]] else [];
      assert OwnedBy(w + [x], n) == head + OwnedBy(w[1..] + [x], n) by {
        assert (w + [x])[0] == w[0] && (w + [x])[1..] == w[1..] + [x];
      }
    }
  }

  // Removing a node's first element leaves its others ...
  lemma {:induction false} OwnedRemove(w: seq<Element>, x: Element, n: nat)
    requires OwnedBy(w, n) != [] && OwnedBy(w, n)[0] == x && x.owner == ByNode(n)
    ensures OwnedBy(Removed(w, x), n) == OwnedBy(w, n)[1..]
  {
    if w[0] == x {
    } else {
      OwnedRemove(w[1..], x, n);
      assert ([w[0]] + Removed(w[1..], x))[1..] == Removed(w[1..], x);
    }
  }

  // ... and other nodes' elements alone.
  lemma {:induction false} OwnedRemoveOther(w: seq<Element>, x: Element, n: nat)
    requires x.owner != ByNode(n)
    ensures OwnedBy(Removed(w, x), n) == OwnedBy(w, n)
  {
    if w != [] && w[0] != x {
      OwnedRemoveOther(w[1..], x, n);
      assert ([w[0]] + Removed(w[1..], x))[1..] == Removed(w[1..], x);
    }
  }

  lemma {:induction false} RemovedIsPart(w: seq<Element>, x: Element, y: Element)
    requires y in Removed(w, x)
    ensures y in w
  {
    if w != [] && w[0] != x && y != w[0] {
      RemovedIsPart(w[1..], x, y);
    }
  }

  lemma {:induction false} OwnedByNone(w: seq<Element>, n: nat)
    requires forall x :: x in w ==> x.owner != ByNode(n)
    ensures OwnedBy(w, n) == []
  {
    if w != [] {
      OwnedByNone(w[1..], n);
    }
  }

  // ---- Creation ----

  function EffectAdded(st: State, fn: EffectFn): State {
    st.(effects := st.effects + [Effect(fn, false, false)])
  }

  function NodeAdded(st: State, node: Node): State {
    st.(nodes := st.nodes + [node])
  }

  // A node as it is before its tracking effect first runs.
  predicate NewNode(st: State, node: Node) {
    && node.tracking == |st.effects| && Children(node) == []
    && (Parent(node).Some? ==> Parent(node).value < |st.windows|)
  }

  lemma AddingEffectKeepsFlags(st: State, fn: EffectFn)
    requires FlagsMatchQueue(st)
    ensures FlagsMatchQueue(EffectAdded(st, fn))
  {
    assert PendingSet(EffectAdded(st, fn)) == PendingSet(st);
  }

  lemma EffectAddedKeepsShape(st: State)
    requires WellFormed(st) && Attached(st)
    ensures WellFormed(EffectAdded(st, Program)) && Attached(EffectAdded(st, Program))
  {
    assert Values(EffectAdded(st, Program)) == Values(st);
    TrackedKept(st, EffectAdded(st, Program));
    hide Replay, Values, OwnedBy, Children, Tracked;
  }

  lemma AfterEffectAdded(listOf: Word -> seq<Word>, st: State)
    requires Inv(listOf, st)
    ensures InvBut(listOf, EffectAdded(st, Program), {|st.effects|})
  {
    var st' := EffectAdded(st, Program);
    AddingEffectKeepsFlags(st, Program);
    EffectAddedKeepsShape(st);
    StillRecorded(st, st');
    hide FlagsMatchQueue, WellFormed, Attached, SeesSignal, Current, Recorded;
    forall e | 0 <= e < |st'.effects| && e != |st.effects| && WithinLimits(st')
      ensures SeesSignal(st', e) && Current(listOf, st', e)
    {
      SameView(listOf, st, st', e);
    }
  }

  lemma NewNodeAttached(st: State, node: Node)
    requires Attached(st) && NewNode(st, node)
    ensures Attached(NodeAdded(st, node))
  {
    var st' := NodeAdded(st, node);
    forall n, w | 0 <= n < |st'.nodes| && 0 <= w < |st'.windows|
      ensures OwnedBy(st'.windows[w], n) == if Parent(st'.nodes[n]) == Some(w) then Children(st'.nodes[n]) else []
    {
      if n == |st.nodes| {
        OwnedByNone(st.windows[w], n);
      } else {
        assert st'.nodes[n] == st.nodes[n];
      }
    }
  }

  // A new node together with its tracking effect.
  function DerivedAdded(st: State, body: ReadFn, node: Node): State {
    EffectAdded(NodeAdded(st, node), Derived(body, |st.nodes|))
  }

  lemma DerivedAddedKeepsShape(st: State, body: ReadFn, node: Node)
    requires WellFormed(st) && NewNode(st, node) && body.needs <= |st.signals|
    ensures WellFormed(DerivedAdded(st, body, node))
  {
    var b := DerivedAdded(st, body, node);
    assert Values(b) == Values(st);
    TrackedKept(st, b);
    assert Tracked(b, |st.nodes|);
    hide Values, Replay, Tracked;
  }

  lemma DerivedAddedKeepsOthers(listOf: Word -> seq<Word>, st: State, body: ReadFn, node: Node, e: nat)
    requires WellFormed(st) && NewNode(st, node) && body.needs <= |st.signals| && e < |st.effects|
    requires SeesSignal(st, e) && Current(listOf, st, e)
    ensures SeesSignal(DerivedAdded(st, body, node), e) && Current(listOf, DerivedAdded(st, body, node), e)
  {
    assert Values(DerivedAdded(st, body, node)) == Values(st);
    hide Values, Replay, Shows, WellFormed;
  }

  lemma AfterDerivedAdded(listOf: Word -> seq<Word>, st: State, body: ReadFn, node: Node)
    requires Inv(listOf, st) && NewNode(st, node) && body.needs <= |st.signals|
    ensures InvBut(listOf, DerivedAdded(st, body, node), {|st.effects|})
  {
    var st' := DerivedAdded(st, body, node);
    AddingEffectKeepsFlags(NodeAdded(st, node), Derived(body, |st.nodes|));
    NewNodeAttached(st, node);
    DerivedAddedKeepsShape(st, body, node);
    StillRecorded(st, st');
    assert |st'.effects| == |st.effects| + 1 && (WithinLimits(st') ==> WithinLimits(st));
    hide FlagsMatchQueue, Attached, WellFormed, SeesSignal, Current, Recorded, DerivedAdded, WithinLimits;
    forall e | 0 <= e < |st'.effects| && e != |st.effects| && WithinLimits(st')
      ensures SeesSignal(st', e) && Current(listOf, st', e)
    {
      DerivedAddedKeepsOthers(listOf, st, body, node, e);
    }
  }

  // ---- Attaching and detaching a node's elements ----

  // Everything is attached as it should be, except that node `n` has just `cs` in its window.
  predicate AttachedAs(st: State, n: nat, cs: seq<Element>) {
    && (forall m, w :: 0 <= m < |st.nodes| && 0 <= w < |st.windows| ==>
          OwnedBy(st.windows[w], m) ==
          if Parent(st.nodes[m]) != Some(w) then [] else if m == n then cs else Children(st.nodes[m]))
    && (forall m :: 0 <= m < |st.nodes| && Parent(st.nodes[m]).Some? ==> Parent(st.nodes[m]).value < |st.windows|)
    && (forall w, i :: 0 <= w < |st.windows| && 0 <= i < |st.windows[w]| && st.windows[w][i].owner.ByNode? ==>
          st.windows[w][i].owner.node < |st.nodes|)
  }

  function WithWindow(st: State, w: nat, window: seq<Element>): State
    requires w < |st.windows|
  {
    st.(windows := st.windows[w := window])
  }

  lemma AttachedIsAttachedAs(st: State, n: nat)
    requires n < |st.nodes| && Attached(st)
    ensures AttachedAs(st, n, Children(st.nodes[n]))
  {
  }

  lemma AppendAt(st: State, n: nat, w: nat, cs: seq<Element>, x: Element, m: nat, v: nat)
    requires n < |st.nodes| && Parent(st.nodes[n]) == Some(w) && w < |st.windows| && AttachedAs(st, n, cs)
    requires x.owner == ByNode(n) && m < |st.nodes| && v < |st.windows|
    ensures OwnedBy(WithWindow(st, w, st.windows[w] + [x]).windows[v], m) ==
      if Parent(st.nodes[m]) != Some(v) then [] else if m == n then cs + [x] else Children(st.nodes[m])
  {
    hide OwnedBy, Children;
    OwnedAppend(st.windows[w], x, m);
  }

  lemma AppendStep(st: State, n: nat, w: nat, cs: seq<Element>, x: Element)
    requires n < |st.nodes| && Parent(st.nodes[n]) == Some(w) && w < |st.windows| && AttachedAs(st, n, cs)
    requires x.owner == ByNode(n)
    ensures AttachedAs(WithWindow(st, w, st.windows[w] + [x]), n, cs + [x])
  {
    hide OwnedBy, Children;
    forall m, v | 0 <= m < |st.nodes| && 0 <= v < |st.windows|
      ensures OwnedBy(WithWindow(st, w, st.windows[w] + [x]).windows[v], m) ==
        if Parent(st.nodes[m]) != Some(v) then [] else if m == n then cs + [x] else Children(st.nodes[m])
    {
      AppendAt(st, n, w, cs, x, m, v);
    }
  }

  lemma {:induction false} OwnedAreOwned(w: seq<Element>, n: nat, i: nat)
    requires i < |OwnedBy(w, n)|
    ensures OwnedBy(w, n)[i].owner == ByNode(n)
  {
    if w[0].owner != ByNode(n) {
      OwnedAreOwned(w[1..], n, i);
    } else if i > 0 {
      OwnedAreOwned(w[1..], n, i - 1);
    }
  }

  lemma RemoveStep(st: State, n: nat, w: nat, cs: seq<Element>)
    requires n < |st.nodes| && Parent(st.nodes[n]) == Some(w) && w < |st.windows| && AttachedAs(st, n, cs)
    requires cs != []
    ensures AttachedAs(WithWindow(st, w, Removed(st.windows[w], cs[0])), n, cs[1..])
  {
    var window := Removed(st.windows[w], cs[0]);
    var st' := WithWindow(st, w, window);
    assert OwnedBy(st.windows[w], n) == cs;
    OwnedAreOwned(st.windows[w], n, 0);
    forall m, v | 0 <= m < |st.nodes| && 0 <= v < |st.windows|
      ensures OwnedBy(st'.windows[v], m) ==
        if Parent(st.nodes[m]) != Some(v) then [] else if m == n then cs[1..] else Children(st.nodes[m])
    {
      if m == n {
        OwnedRemove(st.windows[w], cs[0], n);
      } else {
        OwnedRemoveOther(st.windows[w], cs[0], m);
      }
    }
    forall i | 0 <= i < |window| && window[i].owner.ByNode?
      ensures window[i].owner.node < |st.nodes|
    {
      RemovedIsPart(st.windows[w], cs[0], window[i]);
    }
  }

  // Recording in the node what its window holds.
  lemma RecordStep(st: State, n: nat, node: Node)
    requires n < |st.nodes| && AttachedAs(st, n, Children(node)) && Parent(node) == Parent(st.nodes[n])
    ensures Attached(st.(nodes := st.nodes[n := node]))
  {
  }

  // ---- Updating a node ----

  // `b` is `a` after node `n` and the windows have been brought up to date, nothing else.
  ghost predicate OnlyNode(a: State, b: State, n: nat) {
    && b == a.(nodes := b.nodes, windows := b.windows)
    && n < |a.nodes| == |b.nodes| && |a.windows| == |b.windows|
    && (forall m :: 0 <= m < |a.nodes| && m != n ==> b.nodes[m] == a.nodes[m])
    && b.nodes[n].tracking == a.nodes[n].tracking && Parent(b.nodes[n]) == Parent(a.nodes[n])
  }

  lemma OnlyNodeKeepsShape(a: State, b: State, n: nat)
    requires WellFormed(a) && FlagsMatchQueue(a) && OnlyNode(a, b, n)
    ensures WellFormed(b) && FlagsMatchQueue(b) && Values(b) == Values(a)
  {
    assert Values(b) == Values(a);
    assert PendingSet(b) == PendingSet(a);
    TrackedKept(a, b);
    hide Values, Replay, Tracked, PendingSet;
  }

  // Effects other than the node's own see no difference.
  lemma OnlyNodeKeepsOthers(listOf: Word -> seq<Word>, a: State, b: State, n: nat, x: nat)
    requires OnlyNode(a, b, n) && x < |a.effects|
    requires a.effects[x].fn.Derived? ==> a.effects[x].fn.node != n
    requires SeesSignal(a, x) && Current(listOf, a, x)
    ensures SeesSignal(b, x) && Current(listOf, b, x)
  {
    assert Values(b) == Values(a);
    hide Shows;
  }

  lemma AllTracked(a: State, e: nat)
    requires WellFormed(a) && e < |a.effects| && a.effects[e].fn.Derived?
    ensures a.nodes[a.effects[e].fn.node].tracking == e
    ensures forall x :: 0 <= x < |a.effects| && x != e && a.effects[x].fn.Derived? ==> a.effects[x].fn.node != a.effects[e].fn.node
  {
  }

  predicate Subscribed(st: State, e: nat, ss: set<nat>) {
    forall s :: s in ss ==> s < |st.signals| && e in st.signals[s].subscribers
  }

  // Once its signals are subscribed and its node shows the result, the effect owes nothing.
  lemma CommitIsCurrent(listOf: Word -> seq<Word>, a: State, b: State, e: nat)
    requires e < |a.effects| && a.effects[e].fn.Derived? && Values(b) == Values(a)
    requires OnlyNode(a, b, a.effects[e].fn.node)
    requires Shows(listOf, b.nodes[a.effects[e].fn.node], Eval(a.effects[e].fn.body, [], Values(a)))
    requires SeesSignal(a, e)
    requires Subscribed(a, e, Path(a.effects[e].fn.body, [], Values(a)))
    ensures SeesSignal(b, e) && Current(listOf, b, e)
  {
    hide Values, Shows, Eval, Path, Missed;
  }

  // Effects that share no node with the updated one are as current as they were.
  lemma OthersStayCurrent(listOf: Word -> seq<Word>, a: State, b: State, e: nat, x: nat)
    requires InvBut(listOf, a, {e}) && e < |a.effects| && a.effects[e].fn.Derived?
    requires OnlyNode(a, b, a.effects[e].fn.node) && WithinLimits(b) && x < |a.effects| && x != e
    ensures SeesSignal(b, x) && Current(listOf, b, x)
  {
    AllTracked(a, e);
    hide WellFormed, FlagsMatchQueue, Attached, SeesSignal, Current;
    OnlyNodeKeepsOthers(listOf, a, b, a.effects[e].fn.node, x);
  }

  lemma AllStayCurrent(listOf: Word -> seq<Word>, a: State, b: State, e: nat)
    requires InvBut(listOf, a, {e}) && e < |a.effects| && a.effects[e].fn.Derived?
    requires OnlyNode(a, b, a.effects[e].fn.node) && Values(b) == Values(a) && WithinLimits(b)
    requires Shows(listOf, b.nodes[a.effects[e].fn.node], Eval(a.effects[e].fn.body, [], Values(a)))
    requires SeesSignal(a, e) && Subscribed(a, e, Path(a.effects[e].fn.body, [], Values(a)))
    ensures forall x :: 0 <= x < |b.effects| ==> SeesSignal(b, x) && Current(listOf, b, x)
  {
    CommitIsCurrent(listOf, a, b, e);
    assert |b.effects| == |a.effects|;
    hide OnlyNode, InvBut, Subscribed, Shows, SeesSignal, Current, Values, Eval, Path;
    forall x | 0 <= x < |b.effects| && x != e
      ensures SeesSignal(b, x) && Current(listOf, b, x)
    {
      OthersStayCurrent(listOf, a, b, e, x);
    }
  }

  lemma AfterCommit(listOf: Word -> seq<Word>, a: State, b: State, e: nat)
    requires InvBut(listOf, a, {e}) && e < |a.effects| && a.effects[e].fn.Derived?
    requires OnlyNode(a, b, a.effects[e].fn.node) && Attached(b)
    requires Shows(listOf, b.nodes[a.effects[e].fn.node], Eval(a.effects[e].fn.body, [], Values(a)))
    requires !a.overflowed ==> SeesSignal(a, e) && Subscribed(a, e, Path(a.effects[e].fn.body, [], Values(a)))
    ensures Inv(listOf, b)
  {
    StillRecorded(a, b);
    OnlyNodeKeepsShape(a, b, a.effects[e].fn.node);
    assert b.overflowed == a.overflowed;
    if WithinLimits(b) {
      AllStayCurrent(listOf, a, b, e);
    }
    hide OnlyNode, WellFormed, FlagsMatchQueue, Attached, Subscribed, Shows, SeesSignal, Current, Values, Eval, Path, Recorded;
  }

  // A node whose effect is disposed may change in any way.
  lemma AfterNodeDisposed(listOf: Word -> seq<Word>, a: State, b: State, n: nat)
    requires Inv(listOf, a) && OnlyNode(a, b, n) && Attached(b)
    requires a.nodes[n].tracking < |a.effects| && a.effects[a.nodes[n].tracking].disposed
    ensures Inv(listOf, b)
  {
    StillRecorded(a, b);
    OnlyNodeKeepsShape(a, b, n);
    var t := a.nodes[n].tracking;
    assert SeesSignal(b, t) && Current(listOf, b, t);
    hide FlagsMatchQueue, Attached, Shows, Values, SeesSignal, Current, Recorded;
    forall x | 0 <= x < |b.effects| && WithinLimits(b) && x != t
      ensures SeesSignal(b, x) && Current(listOf, b, x)
    {
      OnlyNodeKeepsOthers(listOf, a, b, n, x);
    }
  }

  // The program may rearrange its own elements.
  lemma AfterWindowChange(listOf: Word -> seq<Word>, a: State, windows: seq<seq<Element>>)
    requires Inv(listOf, a) && Attached(a.(windows := windows))
    ensures Inv(listOf, a.(windows := windows))
  {
    StillRecorded(a, a.(windows := windows));
    var b := a.(windows := windows);
    assert Values(b) == Values(a);
    assert PendingSet(b) == PendingSet(a);
    TrackedKept(a, b);
    assert WellFormed(b) && FlagsMatchQueue(b);
    hide FlagsMatchQueue, Attached, WellFormed, SeesSignal, Current, Shows, Recorded;
    forall x | 0 <= x < |b.effects| && WithinLimits(b)
      ensures SeesSignal(b, x) && Current(listOf, b, x)
    {
      SameView(listOf, a, b, x);
    }
  }
}
