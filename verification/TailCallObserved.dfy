// When the emitted tail-call loop (compiler/src/c_emit/c_emit_closure.c:259-343) does what the
// recursion does, exactly, for a lambda that makes its parameters observable before it calls
// itself:
//   f = (a, b, ...) -> { log(a, b, ...); f(...); }

module TailCallObserved {
  import opened Wrappers

  import opened TailCall
  import opened TailCallLoop
  import opened TailCallExact

  function Variables(params: seq<Name>): (es: seq<Expr>)
    ensures |es| == |params|
  {
    if params == [] then [] else Variables(params[..|params| - 1]) + [Var(params[|params| - 1])]
  }

  function Logging(params: seq<Name>, stop: nat): Expr {
    Apply(stop, Variables(params))
  }

  function Observing(owner: Name, params: seq<Name>, es: seq<Expr>, stop: nat): Lambda {
    Lambda(owner, params, [Do(Some(Logging(params, stop))), Do(Some(Call(owner, es)))])
  }

  // A frame without locals whose parameters are these.
  predicate Holds(params: seq<Name>, fr: Frame) {
    fr.locals == map[] && forall i :: 0 <= i < |params| ==> params[i] in fr.params
  }

  function ValuesOf(params: seq<Name>, fr: Frame): (vs: seq<Word>)
    requires Holds(params, fr)
    ensures |vs| == |params| && forall i :: 0 <= i < |params| ==> vs[i] == fr.params[params[i]]
  {
    seq(|params|, i requires 0 <= i < |params| => fr.params[params[i]])
  }

  lemma {:induction false} VariablesGive(params: seq<Name>, f: Lambda, loop: bool, fuel: nat, fr: Frame, w: Log, stop: nat)
    requires Holds(params, fr)
    ensures EvalAll(Recorder(stop), f, loop, fuel, Variables(params), fr, w) == Some(Steps(fr, w, ValuesOf(params, fr), None))
    decreases |params|
  {
    if params == [] {
      assert ValuesOf(params, fr) == [];
    } else {
      var k := |params| - 1;
      VariablesGive(params[..k], f, loop, fuel, fr, w, stop);
      assert Variables(params)[..k] == Variables(params[..k]);
      assert ValuesOf(params, fr) == ValuesOf(params[..k], fr) + [fr.params[params[k]]];
    }
  }

  // The statement before the tail call: the second time it ends the program.
  lemma LogOnce(params: seq<Name>, f: Lambda, loop: bool, fuel: nat, fr: Frame, w: Log, stop: nat)
    requires Holds(params, fr)
    ensures ExecAll(Recorder(stop), f, loop, fuel, [Do(Some(Logging(params, stop)))], fr, w) ==
      Some(Ran(fr, Entry(w, ValuesOf(params, fr)), if w == Start then None else Some(Exited)))
  {
    var m, e := Recorder(stop), Logging(params, stop);
    var s := Do(Some(e));
    VariablesGive(params, f, loop, fuel, fr, w, stop);
    hide EvalAll, ValuesOf, Holds;
    assert Eval(m, f, loop, fuel, e, fr, w) == Some(Step(fr, Entry(w, ValuesOf(params, fr)), if w == Start then Value(0) else Exited));
    hide Eval;
    assert EvalOr(m, f, loop, fuel, Some(e), fr, w) == Eval(m, f, loop, fuel, e, fr, w);
    hide EvalOr;
    assert [s][..0] == [];
    assert ExecAll(m, f, loop, fuel, [], fr, w) == Some(Ran(fr, w, None));
  }

  // ---- The two runs ----

  ghost predicate Distinct(params: seq<Name>) {
    forall i, j :: 0 <= i < j < |params| ==> params[i] != params[j]
  }

  lemma BoundHolds(params: seq<Name>, args: seq<Word>)
    requires Distinct(params) && |args| == |params|
    ensures var fr := Frame(Bind(params, args), map[]); Holds(params, fr) && ValuesOf(params, fr) == args
  {
    var fr := Frame(Bind(params, args), map[]);
    forall i | 0 <= i < |params|
      ensures params[i] in fr.params && fr.params[params[i]] == args[i]
    {
      BindAt(params, args, i);
    }
    hide Bind;
  }

  lemma BodyOf(owner: Name, params: seq<Name>, es: seq<Expr>, stop: nat)
    requires |es| == |params|
    ensures var f := Observing(owner, params, es, stop);
      && f.body[..1] == [Do(Some(Logging(params, stop)))]
      && DetectTailCall(f) == Some(es)
      && Emit(f) == Loop(params, f.body[..1], es)
  {
    assert es[..|es|] == es;
    var f := Observing(owner, params, es, stop);
    assert f.body[..1] == [f.body[0]];
  }

  // The recursion, once the first call has left its record ...
  lemma LastRun(owner: Name, params: seq<Name>, es: seq<Expr>, stop: nat, fuel: nat, vs: seq<Word>, w: Log)
    requires Distinct(params) && |es| == |params| == |vs| && fuel > 0 && w != Start
    ensures Run(Recorder(stop), Observing(owner, params, es, stop), false, fuel, vs, w) == Some(Done(Entry(w, vs), Exited))
  {
    var f := Observing(owner, params, es, stop);
    BodyOf(owner, params, es, stop);
    BoundHolds(params, vs);
    LogOnce(params, f, false, fuel - 1, Frame(Bind(params, vs), map[]), w, stop);
    hide Exec, Holds, ValuesOf, Bind, Logging, Recorder;
  }

  // ... and from the start.
  lemma Recursion(owner: Name, params: seq<Name>, es: seq<Expr>, stop: nat, fuel: nat, args: seq<Word>)
    requires Distinct(params) && owner !in params && |es| == |params| == |args| && AllSimple(es, stop, owner) && fuel > 1
    ensures var fr := Frame(Bind(params, args), map[]); var w := TraceAll(es, fr, Entry(Start, args));
      Run(Recorder(stop), Observing(owner, params, es, stop), false, fuel, args, Start) == Some(Done(Entry(w, AllGiven(es, fr)), Exited))
  {
    var m, f, fr := Recorder(stop), Observing(owner, params, es, stop), Frame(Bind(params, args), map[]);
    var w1 := Entry(Start, args);
    var w2 := TraceAll(es, fr, w1);
    BodyOf(owner, params, es, stop);
    BoundHolds(params, args);
    LogOnce(params, f, false, fuel - 1, fr, Start, stop);
    BindNames(params, args);
    EvalAllRecords(stop, f, false, fuel - 1, es, fr, w1);
    TraceAllGrows(es, fr, w1);
    LastRun(owner, params, es, stop, fuel - 1, AllGiven(es, fr), w2);
    LastCall(m, f, fuel - 1, es, fr, w1);
    hide Exec, EvalAll, Holds, ValuesOf, Bind, Logging, Recorder, TraceAll, AllGiven;
    assert ExecAll(m, f, false, fuel - 1, f.body, fr, Start) == Some(Ran(fr, Entry(w2, AllGiven(es, fr)), Some(Exited)));
    hide ExecAll;
  }

  // The loop.
  lemma LoopRun(owner: Name, params: seq<Name>, es: seq<Expr>, stop: nat, fuel: nat, args: seq<Word>, r: Ran<Log>)
    requires Distinct(params) && |es| == |params| == |args| && fuel > 1
    requires Reassign(Recorder(stop), Observing(owner, params, es, stop), fuel - 1, params, es, Frame(Bind(params, args), map[]), Entry(Start, args)) == Some(r)
    requires r.finished.None? && Holds(params, r.frame) && r.world != Start
    ensures Run(Recorder(stop), Observing(owner, params, es, stop), true, fuel, args, Start) ==
      Some(Done(Entry(r.world, ValuesOf(params, r.frame)), Exited))
  {
    var m, f, fr := Recorder(stop), Observing(owner, params, es, stop), Frame(Bind(params, args), map[]);
    BodyOf(owner, params, es, stop);
    BoundHolds(params, args);
    LogOnce(params, f, true, fuel - 1, fr, Start, stop);
    LogOnce(params, f, true, fuel - 2, r.frame, r.world, stop);
    assert r.frame == Frame(r.frame.params, map[]);
    hide ExecAll, Reassign, Holds, ValuesOf, Bind, Logging, Recorder;
    assert Iterate(m, f, fuel - 1, r.frame.params, r.world) == Some(Done(Entry(r.world, ValuesOf(params, r.frame)), Exited));
  }

  // ---- The exact condition ----

  // For a lambda that logs its parameters and calls itself with simple arguments, the emitted
  // loop does what the recursion does, for all arguments, if and only if every parameter that a
  // later argument mentions is passed on as it is.
  lemma LoopExactly(owner: Name, params: seq<Name>, es: seq<Expr>, stop: nat)
    requires Distinct(params) && owner !in params && |es| == |params| && AllSimple(es, stop, owner)
    ensures var f := Observing(owner, params, es, stop);
      (forall fuel: nat, args: seq<Word>, w: Log ::
         Run(Recorder(stop), f, true, fuel, args, w) == Run(Recorder(stop), f, false, fuel, args, w))
      <==> PassedOn(params, es)
  {
    var f := Observing(owner, params, es, stop);
    hide Run, PassedOn;
    if PassedOn(params, es) {
      IsSuitable(owner, params, es, stop);
      forall fuel: nat, args: seq<Word>, w: Log
        ensures Run(Recorder(stop), f, true, fuel, args, w) == Run(Recorder(stop), f, false, fuel, args, w)
      {
        LoopIsRecursion(Recorder(stop), f, fuel, args, w);
      }
    } else {
      var args := RunsApart(owner, params, es, stop);
      assert Run(Recorder(stop), f, true, 2, args, Start) != Run(Recorder(stop), f, false, 2, args, Start);
    }
  }

  lemma IsSuitable(owner: Name, params: seq<Name>, es: seq<Expr>, stop: nat)
    requires Distinct(params) && owner !in params && |es| == |params| && PassedOn(params, es)
    ensures Suitable(Observing(owner, params, es, stop))
  {
    hide PassedOn;
    BodyOf(owner, params, es, stop);
  }

  lemma RunsApart(owner: Name, params: seq<Name>, es: seq<Expr>, stop: nat) returns (args: seq<Word>)
    requires Distinct(params) && owner !in params && |es| == |params| && AllSimple(es, stop, owner) && !PassedOn(params, es)
    ensures var f := Observing(owner, params, es, stop);
      Run(Recorder(stop), f, true, 2, args, Start) != Run(Recorder(stop), f, false, 2, args, Start)
  {
    hide Run, PassedOn, Reassign, AllSimple, Recorder, TraceAll, AllGiven;
    var f := Observing(owner, params, es, stop);
    args := TellingArguments(params, es);
    var fr, w := Frame(Bind(params, args), map[]), Entry(Start, args);
    ReassignRecords(stop, f, 1, params, es, fr, w);
    OutOfStep(stop, f, 1, params, es, fr, w);
    var r := Reassign(Recorder(stop), f, 1, params, es, fr, w).value;
    BoundHolds(params, args);
    assert Holds(params, r.frame);
    LoopRun(owner, params, es, stop, 2, args, r);
    Recursion(owner, params, es, stop, 2, args);
  }
}
