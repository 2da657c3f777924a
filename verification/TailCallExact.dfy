// When the reassignments of the tail-call loop bind the parameters as a call would, exactly
// (compiler/src/c_emit/c_emit_closure.c:311-327), for arguments made of literals, variables,
// operations and calls of other bindings.

module TailCallExact {
  import opened Wrappers

  import opened TailCall
  import opened TailCallLoop

  // Made of literals, variables, operations other than `stop` and calls of bindings other than
  // `owner`.
  predicate Simple(e: Expr, stop: nat, owner: Name) {
    match e
    case Literal(_) => true
    case Var(_) => true
    case Apply(operation, operands) => operation != stop && AllSimple(operands, stop, owner)
    case Call(callee, arguments) => callee != owner && AllSimple(arguments, stop, owner)
    case _ => false
  }

  predicate AllSimple(es: seq<Expr>, stop: nat, owner: Name) {
    es == [] || (AllSimple(es[..|es| - 1], stop, owner) && Simple(es[|es| - 1], stop, owner))
  }

  // ---- A machine that records every operation and every call ----

  datatype Log = Start | Entry(earlier: Log, operands: seq<Word>)

  // Other bindings are 0, and so is every result, except that the operation `stop` ends the
  // program if anything has been recorded before.
  function Recorder(stop: nat): Machine<Log> {
    Machine((w, x) => 0, (w, x, v) => w, (w, operation, vs) => (Entry(w, vs), if operation == stop && w != Start then Exited else Value(0)), (w, target, vs) => (Entry(w, [target] + vs), Value(0)))
  }

  function Given(e: Expr, fr: Frame): Word {
    match e
    case Literal(word) => word
    case Var(x) => if x in fr.locals then fr.locals[x] else if x in fr.params then fr.params[x] else 0
    case _ => 0
  }

  function AllGiven(es: seq<Expr>, fr: Frame): (vs: seq<Word>)
    ensures |vs| == |es|
  {
    if es == [] then [] else AllGiven(es[..|es| - 1], fr) + [Given(es[|es| - 1], fr)]
  }

  function Trace(e: Expr, fr: Frame, w: Log): Log {
    match e
    case Apply(_, operands) => Entry(TraceAll(operands, fr, w), AllGiven(operands, fr))
    case Call(callee, arguments) => Entry(TraceAll(arguments, fr, w), [Given(Var(callee), fr)] + AllGiven(arguments, fr))
    case _ => w
  }

  function TraceAll(es: seq<Expr>, fr: Frame, w: Log): Log {
    if es == [] then w else Trace(es[|es| - 1], fr, TraceAll(es[..|es| - 1], fr, w))
  }

  lemma {:induction false} EvalRecords(stop: nat, f: Lambda, loop: bool, fuel: nat, e: Expr, fr: Frame, w: Log)
    requires Simple(e, stop, f.owner)
    ensures Eval(Recorder(stop), f, loop, fuel, e, fr, w) == Some(Step(fr, Trace(e, fr, w), Value(Given(e, fr))))
    decreases e
  {
    match e
    case Literal(_) =>
    case Var(_) =>
    case Apply(_, operands) =>
      hide EvalAll;
      EvalAllRecords(stop, f, loop, fuel, operands, fr, w);
    case Call(_, arguments) =>
      hide EvalAll;
      EvalAllRecords(stop, f, loop, fuel, arguments, fr, w);
  }

  lemma {:induction false} EvalAllRecords(stop: nat, f: Lambda, loop: bool, fuel: nat, es: seq<Expr>, fr: Frame, w: Log)
    requires AllSimple(es, stop, f.owner)
    ensures EvalAll(Recorder(stop), f, loop, fuel, es, fr, w) == Some(Steps(fr, TraceAll(es, fr, w), AllGiven(es, fr), None))
    decreases es
  {
    hide Eval, Given, Trace;
    if es != [] {
      EvalAllRecords(stop, f, loop, fuel, es[..|es| - 1], fr, w);
      EvalRecords(stop, f, loop, fuel, es[|es| - 1], fr, TraceAll(es[..|es| - 1], fr, w));
    }
  }

  // A record is never lost.
  lemma {:induction false} TraceGrows(e: Expr, fr: Frame, w: Log)
    ensures w != Start ==> Trace(e, fr, w) != Start
    decreases e
  {
    match e
    case Apply(_, operands) => TraceAllGrows(operands, fr, w);
    case Call(_, arguments) => TraceAllGrows(arguments, fr, w);
    case _ =>
  }

  lemma {:induction false} TraceAllGrows(es: seq<Expr>, fr: Frame, w: Log)
    ensures w != Start ==> TraceAll(es, fr, w) != Start
    decreases es
  {
    hide Trace;
    if es != [] {
      TraceAllGrows(es[..|es| - 1], fr, w);
      TraceGrows(es[|es| - 1], fr, TraceAll(es[..|es| - 1], fr, w));
    }
  }

  // ---- What the record tells ----

  // Different records stay different.
  lemma {:induction false} TraceKeeps(e: Expr, fr: Frame, gr: Frame, v: Log, w: Log)
    requires v != w
    ensures Trace(e, fr, v) != Trace(e, gr, w)
    decreases e
  {
    match e
    case Apply(_, operands) => TraceAllKeeps(operands, fr, gr, v, w);
    case Call(_, arguments) => TraceAllKeeps(arguments, fr, gr, v, w);
    case _ =>
  }

  lemma {:induction false} TraceAllKeeps(es: seq<Expr>, fr: Frame, gr: Frame, v: Log, w: Log)
    requires v != w
    ensures TraceAll(es, fr, v) != TraceAll(es, gr, w)
    decreases es
  {
    hide Trace;
    if es != [] {
      TraceAllKeeps(es[..|es| - 1], fr, gr, v, w);
      TraceKeeps(es[|es| - 1], fr, gr, TraceAll(es[..|es| - 1], fr, v), TraceAll(es[..|es| - 1], gr, w));
    }
  }

  predicate TellsApart(x: Name, fr: Frame, gr: Frame) {
    x !in fr.locals && x !in gr.locals && x in fr.params && x in gr.params && fr.params[x] != gr.params[x]
  }

  // An expression that mentions a parameter with different values gives different values or
  // leaves different records.
  lemma {:induction false} TraceTells(stop: nat, owner: Name, e: Expr, x: Name, fr: Frame, gr: Frame, w: Log)
    requires Simple(e, stop, owner) && x in Mentions(e) && TellsApart(x, fr, gr)
    ensures Trace(e, fr, w) != Trace(e, gr, w) || Given(e, fr) != Given(e, gr)
    decreases e
  {
    match e
    case Var(_) =>
    case Apply(_, operands) => TraceAllTells(stop, owner, operands, x, fr, gr, w);
    case Call(callee, arguments) =>
      if x != callee {
        TraceAllTells(stop, owner, arguments, x, fr, gr, w);
      }
      SameCall(Given(Var(callee), fr), AllGiven(arguments, fr), Given(Var(callee), gr), AllGiven(arguments, gr));
  }

  lemma SameCall(t: Word, vs: seq<Word>, u: Word, ws: seq<Word>)
    ensures [t] + vs == [u] + ws ==> t == u && vs == ws
  {
    assert ([t] + vs)[1..] == vs && ([u] + ws)[1..] == ws;
  }

  lemma {:induction false} TraceAllTells(stop: nat, owner: Name, es: seq<Expr>, x: Name, fr: Frame, gr: Frame, w: Log)
    requires AllSimple(es, stop, owner) && x in MentionsAny(es) && TellsApart(x, fr, gr)
    ensures TraceAll(es, fr, w) != TraceAll(es, gr, w) || AllGiven(es, fr) != AllGiven(es, gr)
    decreases es
  {
    hide Trace, Given, Mentions, TellsApart;
    var front, last := es[..|es| - 1], es[|es| - 1];
    var v, u := TraceAll(front, fr, w), TraceAll(front, gr, w);
    assert AllGiven(es, fr)[..|es| - 1] == AllGiven(front, fr) && AllGiven(es, gr)[..|es| - 1] == AllGiven(front, gr);
    assert AllGiven(es, fr)[|es| - 1] == Given(last, fr) && AllGiven(es, gr)[|es| - 1] == Given(last, gr);
    if x in MentionsAny(front) {
      TraceAllTells(stop, owner, front, x, fr, gr, w);
    } else if v == u {
      TraceTells(stop, owner, last, x, fr, gr, v);
    }
    if v != u {
      TraceKeeps(last, fr, gr, v, u);
    }
  }

  // ---- A frame that tells the parameters apart ----

  // No parameter is hidden, and none has the value of another, of a literal argument or of an
  // operation or call.
  predicate Telling(params: seq<Name>, es: seq<Expr>, fr: Frame)
    requires |es| <= |params|
  {
    Spread(params, fr) && forall i, j :: 0 <= i < |params| && 0 <= j < |es| ==> es[j] != Literal(fr.params[params[i]])
  }

  predicate Spread(params: seq<Name>, fr: Frame) {
    && Assignable(params, fr) && fr.locals == map[]
    && fr.params.Keys == (set i | 0 <= i < |params| :: params[i])
    && (forall i, j :: 0 <= i < j < |params| ==> fr.params[params[i]] != fr.params[params[j]])
    && (forall i :: 0 <= i < |params| ==> fr.params[params[i]] != 0)
  }

  function Bound(es: seq<Expr>): (n: nat)
    ensures forall j :: 0 <= j < |es| && es[j].Literal? ==> es[j].word <= n
  {
    if es == [] then 0
    else
      var last := es[|es| - 1];
      var n := Bound(es[..|es| - 1]);
      assert forall j :: 0 <= j < |es| - 1 ==> es[..|es| - 1][j] == es[j];
      if last.Literal? && last.word > n then last.word else n
  }

  lemma TellingArguments(params: seq<Name>, es: seq<Expr>) returns (args: seq<Word>)
    requires |es| <= |params| && forall i, j :: 0 <= i < j < |params| ==> params[i] != params[j]
    ensures |args| == |params| && Telling(params, es, Frame(Bind(params, args), map[]))
  {
    var n := Bound(es);
    args := seq(|params|, i => n + 1 + i);
    var fr := Frame(Bind(params, args), map[]);
    BindNames(params, args);
    forall i | 0 <= i < |params|
      ensures params[i] in fr.params && fr.params[params[i]] == n + 1 + i
    {
      BindAt(params, args, i);
    }
  }

  // An argument that is not the parameter itself has another value.
  lemma OtherValue(stop: nat, owner: Name, params: seq<Name>, es: seq<Expr>, fr: Frame, j: nat)
    requires |es| <= |params| && Telling(params, es, fr) && j < |es| && Simple(es[j], stop, owner) && es[j] != Var(params[j])
    ensures Given(es[j], fr) != fr.params[params[j]]
  {
    if es[j].Var? && es[j].name in fr.params {
      var i :| 0 <= i < |params| && params[i] == es[j].name;
      assert i != j;
    }
  }

  // ---- Out of step ----

  // The reassignments of simple arguments, recorded: they run through, and change the values of
  // parameters only.
  lemma {:induction false} ReassignRecords(stop: nat, f: Lambda, fuel: nat, params: seq<Name>, es: seq<Expr>, fr: Frame, w: Log)
    requires |es| <= |params| && AllSimple(es, stop, f.owner) && Assignable(params, fr) && fr.locals == map[]
    ensures var r := Reassign(Recorder(stop), f, fuel, params, es, fr, w);
      && r.Some? && r.value.finished.None? && r.value.frame.locals == map[] && r.value.frame.params.Keys == fr.params.Keys
      && (w != Start ==> r.value.world != Start)
    decreases |es|
  {
    hide Eval, Trace, Given;
    if es != [] {
      var k := |es| - 1;
      ReassignRecords(stop, f, fuel, params, es[..k], fr, w);
      var r := Reassign(Recorder(stop), f, fuel, params, es[..k], fr, w).value;
      EvalRecords(stop, f, true, fuel, es[k], r.frame, r.world);
      TraceGrows(es[k], r.frame, r.world);
    }
  }

  // The worlds and the values so far agree.
  predicate Agree(params: seq<Name>, fr: Frame, v: Log, w: Log, vs: seq<Word>)
    requires |vs| <= |params|
  {
    v == w && forall i :: 0 <= i < |vs| ==> params[i] in fr.params && fr.params[params[i]] == vs[i]
  }

  lemma AgreeIsInStep(params: seq<Name>, es: seq<Expr>, fr: Frame, gr: Frame, v: Log, w: Log, vs: seq<Word>)
    requires |vs| == |es| <= |params|
    ensures InStep(params, |es|, Some(Ran(fr, v, None)), Some(Steps(gr, w, vs, None))) ==> Agree(params, fr, v, w, vs)
  {
  }

  // Once they disagree, they do so for good.
  lemma StaysOut(params: seq<Name>, k: nat, e: Expr, fr: Frame, gr: Frame, v: Log, w: Log, vs: seq<Word>)
    requires k < |params| && |vs| == k && Assignable(params, fr) && fr.locals == map[] && !Agree(params, fr, v, w, vs)
    ensures !Agree(params, Frame(fr.params[params[k] := Given(e, fr)], map[]), Trace(e, fr, v), Trace(e, gr, w), vs + [Given(e, gr)])
  {
    hide Trace, Given;
    if v != w {
      TraceKeeps(e, fr, gr, v, w);
    } else {
      var i :| 0 <= i < k && !(params[i] in fr.params && fr.params[params[i]] == vs[i]);
      assert (vs + [Given(e, gr)])[i] == vs[i];
    }
  }

  lemma Disagree(params: seq<Name>, k: nat, fr: Frame, v: Log, w: Log, vs: seq<Word>)
    requires |vs| == k + 1 <= |params| && params[k] in fr.params && (v != w || fr.params[params[k]] != vs[k])
    ensures !Agree(params, fr, v, w, vs)
  {
  }

  lemma {:induction false} OutOfStep(stop: nat, f: Lambda, fuel: nat, params: seq<Name>, es: seq<Expr>, fr: Frame, w: Log)
    requires |es| <= |params| && AllSimple(es, stop, f.owner) && Telling(params, es, fr) && !PassedOn(params, es)
    ensures var r := Reassign(Recorder(stop), f, fuel, params, es, fr, w);
      r.Some? && !Agree(params, r.value.frame, r.value.world, TraceAll(es, fr, w), AllGiven(es, fr))
    decreases |es|
  {
    hide Eval, Trace, Given, Mentions, Assigned, Agree;
    var k := |es| - 1;
    var front, last := es[..k], es[k];
    ReassignRecords(stop, f, fuel, params, front, fr, w);
    var r := Reassign(Recorder(stop), f, fuel, params, front, fr, w).value;
    EvalRecords(stop, f, true, fuel, last, r.frame, r.world);
    TellingFront(params, es, fr);
    AssignableSame(params, fr, r.frame);
    assert Reassign(Recorder(stop), f, fuel, params, es, fr, w)
        == Some(Ran(Frame(r.frame.params[params[k] := Given(last, r.frame)], map[]), Trace(last, r.frame, r.world), None)) by {
      CanAssign(params, r.frame, k);
    }
    assert TraceAll(es, fr, w) == Trace(last, fr, TraceAll(front, fr, w));
    assert AllGiven(es, fr) == AllGiven(front, fr) + [Given(last, fr)];
    hide Reassign, TraceAll, AllGiven;
    if !PassedOn(params, front) {
      OutOfStep(stop, f, fuel, params, front, fr, w);
      StaysOut(params, k, last, r.frame, fr, r.world, TraceAll(front, fr, w), AllGiven(front, fr));
    } else {
      FirstOut(stop, f, fuel, params, es, fr, w, r);
    }
  }

  lemma TellingFront(params: seq<Name>, es: seq<Expr>, fr: Frame)
    requires 0 < |es| <= |params| && Telling(params, es, fr)
    ensures Telling(params, es[..|es| - 1], fr)
  {
    hide Assignable, Spread;
    var front := es[..|es| - 1];
    assert forall j :: 0 <= j < |front| ==> front[j] == es[j];
  }

  // The first argument that mentions a parameter already rewritten.
  lemma FirstOut(stop: nat, f: Lambda, fuel: nat, params: seq<Name>, es: seq<Expr>, fr: Frame, w: Log, r: Ran<Log>)
    requires 0 < |es| <= |params| && AllSimple(es, stop, f.owner) && Telling(params, es, fr) && !PassedOn(params, es)
    requires PassedOn(params, es[..|es| - 1]) && Reassign(Recorder(stop), f, fuel, params, es[..|es| - 1], fr, w) == Some(r)
    requires r.finished.None? && r.frame.locals == map[] && r.frame.params.Keys == fr.params.Keys
    ensures var k := |es| - 1; var e := es[k];
      !Agree(params, Frame(r.frame.params[params[k] := Given(e, r.frame)], map[]), Trace(e, r.frame, r.world),
             TraceAll(es, fr, w), AllGiven(es, fr))
  {
    hide Reassign, EvalAll, Trace, Given, Mentions, Assigned, Agree;
    var k := |es| - 1;
    var front, last := es[..k], es[k];
    var j := Offender(stop, f.owner, params, es);
    ReassignIsBind(Recorder(stop), f, fuel, params, front, fr, w);
    EvalAllRecords(stop, f, true, fuel, front, fr, w);
    GivenAt(es, fr, j);
    GivenAt(front, fr, j);
    SimpleAt(stop, f.owner, es, j);
    OtherValue(stop, f.owner, params, es, fr, j);
    assert TellsApart(params[j], r.frame, fr);
    TraceTells(stop, f.owner, last, params[j], r.frame, fr, r.world);
    GivenAt(es, fr, k);
    assert r.world == TraceAll(front, fr, w) && TraceAll(es, fr, w) == Trace(last, fr, r.world);
    Disagree(params, k, Frame(r.frame.params[params[k] := Given(last, r.frame)], map[]), Trace(last, r.frame, r.world),
             TraceAll(es, fr, w), AllGiven(es, fr));
  }

  lemma {:induction false} GivenAt(es: seq<Expr>, fr: Frame, j: nat)
    ensures j < |es| ==> AllGiven(es, fr)[j] == Given(es[j], fr)
    decreases |es|
  {
    hide Given;
    if j < |es| - 1 {
      GivenAt(es[..|es| - 1], fr, j);
    }
  }

  lemma {:induction false} SimpleAt(stop: nat, owner: Name, es: seq<Expr>, j: nat)
    requires AllSimple(es, stop, owner) && j < |es|
    ensures Simple(es[j], stop, owner)
    decreases |es|
  {
    hide Simple;
    if j < |es| - 1 {
      SimpleAt(stop, owner, es[..|es| - 1], j);
    }
  }

  lemma {:induction false} SimpleAssignsNothing(stop: nat, owner: Name, e: Expr)
    requires Simple(e, stop, owner)
    ensures Assigned(e) == {}
    decreases e
  {
    match e
    case Apply(_, operands) => SimpleAssignNothing(stop, owner, operands);
    case Call(_, arguments) => SimpleAssignNothing(stop, owner, arguments);
    case _ =>
  }

  lemma {:induction false} SimpleAssignNothing(stop: nat, owner: Name, es: seq<Expr>)
    requires AllSimple(es, stop, owner)
    ensures AssignedAny(es) == {}
    decreases es
  {
    if es != [] {
      SimpleAssignNothing(stop, owner, es[..|es| - 1]);
      SimpleAssignsNothing(stop, owner, es[|es| - 1]);
    }
  }

  // With the front passed on, the last argument must be at fault.
  lemma Offender(stop: nat, owner: Name, params: seq<Name>, es: seq<Expr>) returns (j: nat)
    requires 0 < |es| <= |params| && AllSimple(es, stop, owner) && !PassedOn(params, es) && PassedOn(params, es[..|es| - 1])
    ensures j < |es| - 1 && params[j] in Mentions(es[|es| - 1]) && es[j] != Var(params[j])
  {
    hide Mentions, Assigned;
    var k := |es| - 1;
    SimpleAt(stop, owner, es, k);
    SimpleAssignsNothing(stop, owner, es[k]);
    if i :| 0 <= i < k && params[i] in Mentions(es[k]) && es[i] != Var(params[i]) {
      j := i;
    } else {
      LastPassedOn(params, es);
      assert false;
    }
  }

  lemma LastPassedOn(params: seq<Name>, es: seq<Expr>)
    requires 0 < |es| <= |params| && PassedOn(params, es[..|es| - 1]) && Assigned(es[|es| - 1]) == {}
    requires forall i :: 0 <= i < |es| - 1 && params[i] in Mentions(es[|es| - 1]) ==> es[i] == Var(params[i])
    ensures PassedOn(params, es)
  {
    hide Mentions, Assigned;
    var front := es[..|es| - 1];
    assert forall i :: 0 <= i < |front| ==> front[i] == es[i];
  }

  // ---- The exact condition ----

  // For simple arguments, reassigning in order is in step with binding at once for every frame
  // of a recording machine, and so for every machine, if and only if every parameter that a
  // later argument mentions is passed on as it is.
  lemma ReassignExactly(stop: nat, f: Lambda, fuel: nat, params: seq<Name>, es: seq<Expr>)
    requires |es| <= |params| && AllSimple(es, stop, f.owner) && forall i, j :: 0 <= i < j < |params| ==> params[i] != params[j]
    ensures (forall fr: Frame, w: Log :: Assignable(params, fr) ==>
               InStep(params, |es|, Reassign(Recorder(stop), f, fuel, params, es, fr, w), EvalAll(Recorder(stop), f, true, fuel, es, fr, w)))
      <==> PassedOn(params, es)
  {
    hide Reassign, EvalAll, Assignable, InStep, Agree, PassedOn;
    if PassedOn(params, es) {
      forall fr: Frame, w: Log | Assignable(params, fr)
        ensures InStep(params, |es|, Reassign(Recorder(stop), f, fuel, params, es, fr, w), EvalAll(Recorder(stop), f, true, fuel, es, fr, w))
      {
        ReassignIsBind(Recorder(stop), f, fuel, params, es, fr, w);
      }
    } else {
      var args := TellingArguments(params, es);
      var fr := Frame(Bind(params, args), map[]);
      ReassignRecords(stop, f, fuel, params, es, fr, Start);
      EvalAllRecords(stop, f, true, fuel, es, fr, Start);
      OutOfStep(stop, f, fuel, params, es, fr, Start);
      var r := Reassign(Recorder(stop), f, fuel, params, es, fr, Start).value;
      AgreeIsInStep(params, es, r.frame, fr, r.world, TraceAll(es, fr, Start), AllGiven(es, fr));
    }
  }

  // Not so for an argument that branches: in f(b, 1 ? 2 : a) the second one mentions `a`, which is
  // not passed on, but never reads it.
  lemma UnreadMention<W(!new)>(m: Machine<W>, f: Lambda, fuel: nat, fr: Frame, w: W)
    requires Assignable(["a", "b"], fr)
    ensures var params, es := ["a", "b"], [Var("b"), Ternary(Literal(1), Literal(2), Var("a"))];
      InStep(params, 2, Reassign(m, f, fuel, params, es, fr, w), EvalAll(m, f, true, fuel, es, fr, w)) && !PassedOn(params, es)
  {
    var params, e := ["a", "b"], Ternary(Literal(1), Literal(2), Var("a"));
    assert params[0] == "a" && params[1] == "b";
    var es, v := [Var("b"), e], fr.params["b"];
    assert es[..1] == [Var("b")] && [Var("b")][..0] == [] && es[1] == e;
    assert |es| == 2;
    var fr1 := fr.(params := fr.params["a" := v]);
    var fr2 := fr1.(params := fr1.params["b" := 2]);
    assert Eval(m, f, true, fuel, Var("b"), fr, w) == Some(Step(fr, w, Value(v)));
    assert Reassign(m, f, fuel, params, [], fr, w) == Some(Ran(fr, w, None));
    assert Update(m, fr, w, "a", v) == (fr1, w);
    assert Reassign(m, f, fuel, params, [Var("b")], fr, w) == Some(Ran(fr1, w, None));
    TakesSecond(m, f, fuel, fr1, w);
    TakesSecond(m, f, fuel, fr, w);
    assert EvalAll(m, f, true, fuel, [], fr, w) == Some(Steps(fr, w, [], None));
    assert [] + [v] == [v] && [v] + [2] == [v, 2];
    assert EvalAll(m, f, true, fuel, [Var("b")], fr, w) == Some(Steps(fr, w, [] + [v], None));
    assert Update(m, fr1, w, "b", 2) == (fr2, w);
    hide Eval, Update;
    assert Reassign(m, f, fuel, params, es[..1], fr, w) == Some(Ran(fr1, w, None));
    assert EvalAll(m, f, true, fuel, es[..1], fr, w) == Some(Steps(fr, w, [v], None));
    assert es[|es| - 1] == e && params[|es| - 1] == "b";
    assert Reassign(m, f, fuel, params, es, fr, w) == Some(Ran(fr2, w, None));
    assert EvalAll(m, f, true, fuel, es, fr, w) == Some(Steps(fr, w, [v] + [2], None));
    assert "a" in Mentions(e) && es[0] != Var("a");
  }

  lemma TakesSecond<W(!new)>(m: Machine<W>, f: Lambda, fuel: nat, fr: Frame, w: W)
    ensures Eval(m, f, true, fuel, Ternary(Literal(1), Literal(2), Var("a")), fr, w) == Some(Step(fr, w, Value(2)))
  {
    assert Eval(m, f, true, fuel, Literal(1), fr, w) == Some(Step(fr, w, Value(1)));
  }
}
