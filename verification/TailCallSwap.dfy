// A lambda whose emitted tail-call loop (compiler/src/c_emit/c_emit_closure.c:259-343) does something
// else than the recursion it replaces:
//   f = (a, b) -> { log(a, b); f(b, a); }

module TailCallSwap {
  import opened Wrappers
  import opened TailCall
  import opened TailCallLoop

  const LOG: Stmt := Do(Some(Apply(0, [Var("a"), Var("b")])))
  const SWAPPED: seq<Expr> := [Var("b"), Var("a")]
  const SWAP: Lambda := Lambda("f", ["a", "b"], [LOG, Do(Some(Call("f", SWAPPED)))])

  // The world is what has been logged; the second entry ends the program.
  function Logger(): Machine<seq<Word>> {
    Machine((w, x) => 0, (w, x, v) => w, (w, operation, vs) => (w + vs, if |w| > 0 then Exited else Value(0)), (w, target, vs) => (w, Misused))
  }

  function Params(a: Word, b: Word): Frame {
    Frame(map["a" := a, "b" := b], map[])
  }

  lemma BindTwo(a: Word, b: Word)
    ensures Bind(["a", "b"], [a, b]) == Params(a, b).params
  {
    assert ["a", "b"][..1] == ["a"] && [a, b][..1] == [a] && ["a"][..0] == [] && [a][..0] == [];
    assert Bind(["a"], [a]) == map["a" := a];
  }

  lemma OneVar(loop: bool, fuel: nat, x: Name, fr: Frame, w: seq<Word>)
    requires x in fr.params && fr.locals == map[]
    ensures Eval(Logger(), SWAP, loop, fuel, Var(x), fr, w) == Some(Step(fr, w, Value(fr.params[x])))
  {
  }

  lemma TwoVars(loop: bool, fuel: nat, x: Name, y: Name, fr: Frame, w: seq<Word>)
    requires x in fr.params && y in fr.params && fr.locals == map[]
    ensures EvalAll(Logger(), SWAP, loop, fuel, [Var(x), Var(y)], fr, w) == Some(Steps(fr, w, [fr.params[x], fr.params[y]], None))
  {
    var es := [Var(x), Var(y)];
    OneVar(loop, fuel, x, fr, w);
    OneVar(loop, fuel, y, fr, w);
    hide Eval;
    assert es[..1] == [Var(x)] && [Var(x)][..0] == [];
    assert EvalAll(Logger(), SWAP, loop, fuel, [], fr, w) == Some(Steps(fr, w, [], None));
    assert [] + [fr.params[x]] == [fr.params[x]] && [fr.params[x]] + [fr.params[y]] == [fr.params[x], fr.params[y]];
    assert EvalAll(Logger(), SWAP, loop, fuel, [Var(x)], fr, w) == Some(Steps(fr, w, [fr.params[x]], None));
  }

  // The statements before the tail call.
  lemma Logged(loop: bool, fuel: nat, a: Word, b: Word, w: seq<Word>)
    ensures ExecAll(Logger(), SWAP, loop, fuel, [LOG], Params(a, b), w) ==
      Some(Ran(Params(a, b), w + [a, b], if |w| > 0 then Some(Exited) else None))
  {
    var fr := Params(a, b);
    TwoVars(loop, fuel, "a", "b", fr, w);
    hide EvalAll;
    var e := LOG.expr.value;
    assert Eval(Logger(), SWAP, loop, fuel, e, fr, w) == Some(Step(fr, w + [a, b], if |w| > 0 then Exited else Value(0)));
    hide Eval;
    assert EvalOr(Logger(), SWAP, loop, fuel, LOG.expr, fr, w) == Eval(Logger(), SWAP, loop, fuel, e, fr, w);
    hide EvalOr;
    assert [LOG][..0] == [];
    assert ExecAll(Logger(), SWAP, loop, fuel, [], fr, w) == Some(Ran(fr, w, None));
  }

  // The second of two entries, in the recursion ...
  lemma LastRun(fuel: nat, a: Word, b: Word, w: seq<Word>)
    requires |w| > 0 && fuel > 0
    ensures Run(Logger(), SWAP, false, fuel, [a, b], w) == Some(Done(w + [a, b], Exited))
  {
    BindTwo(a, b);
    Logged(false, fuel - 1, a, b, w);
    assert SWAP.body[..1] == [LOG];
    hide Exec;
  }

  // ... and in the loop.
  lemma LastIteration(fuel: nat, a: Word, b: Word, w: seq<Word>)
    requires |w| > 0 && fuel > 0
    ensures Emit(SWAP) == Loop(["a", "b"], [LOG], SWAPPED)
    ensures Iterate(Logger(), SWAP, fuel, Params(a, b).params, w) == Some(Done(w + [a, b], Exited))
  {
    Emitted();
    Logged(true, fuel - 1, a, b, w);
    hide ExecAll;
  }

  lemma Emitted()
    ensures Emit(SWAP) == Loop(["a", "b"], [LOG], SWAPPED)
  {
    assert SWAP.body[..1] == [LOG] && SWAPPED[..2] == SWAPPED;
  }

  lemma Recursion(fuel: nat, x: Word, y: Word)
    requires fuel > 1
    ensures Run(Logger(), SWAP, false, fuel, [x, y], []) == Some(Done([x, y, y, x], Exited))
  {
    var fr, log := Params(x, y), [x, y];
    BindTwo(x, y);
    Logged(false, fuel - 1, x, y, []);
    TwoVars(false, fuel - 1, "b", "a", fr, log);
    LastRun(fuel - 1, y, x, log);
    LastCall(Logger(), SWAP, fuel - 1, SWAPPED, fr, log);
    hide Exec, EvalAll;
    assert [] + [x, y] == log && log + [y, x] == [x, y, y, x];
    assert SWAP.body[..1] == [LOG];
    assert ExecAll(Logger(), SWAP, false, fuel - 1, SWAP.body, fr, []) == Some(Ran(fr, [x, y, y, x], Some(Exited)));
    hide ExecAll;
  }

  lemma EmittedLoop(fuel: nat, x: Word, y: Word)
    requires fuel > 1 && x != y
    ensures Run(Logger(), SWAP, true, fuel, [x, y], []) == Some(Done([x, y, y, y], Exited))
  {
    var fr, log := Params(x, y), [x, y];
    BindTwo(x, y);
    Logged(true, fuel - 1, x, y, []);
    SwapGoesWrong(Logger(), SWAP, fuel - 1, x, y, log);
    LastIteration(fuel - 1, y, y, log);
    hide ExecAll, Reassign;
    assert [] + [x, y] == log && log + [y, y] == [x, y, y, y];
    assert Iterate(Logger(), SWAP, fuel, fr.params, []) == Iterate(Logger(), SWAP, fuel - 1, Params(y, y).params, log);
    hide Iterate;
  }

  // For any two different arguments the emitted lambda logs something else than the written one.
  lemma RunsDiffer(fuel: nat, x: Word, y: Word)
    requires fuel > 1 && x != y
    ensures Run(Logger(), SWAP, false, fuel, [x, y], []) == Some(Done([x, y, y, x], Exited))
    ensures Run(Logger(), SWAP, true, fuel, [x, y], []) == Some(Done([x, y, y, y], Exited))
  {
    Recursion(fuel, x, y);
    EmittedLoop(fuel, x, y);
  }
}
