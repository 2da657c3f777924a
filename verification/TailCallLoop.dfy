// The tail-call loop does what the recursive lambda does
// (compiler/src/c_emit/c_emit_closure.c:259-343).

module TailCallLoop {
  import opened Wrappers
  import opened TailCall

  // ---- When the loop may replace the recursion ----

  function Mentions(e: Expr): set<Name> {
    match e
    case Literal(_) => {}
    case Var(x) => {x}
    case Assign(x, source, _) => {x} + Mentions(source)
    case Ternary(c, a, b) => Mentions(c) + Mentions(a) + Mentions(b)
    case Apply(_, operands) => MentionsAny(operands)
    case Call(callee, arguments) => {callee} + MentionsAny(arguments)
  }

  function MentionsAny(es: seq<Expr>): set<Name> {
    if es == [] then {} else MentionsAny(es[..|es| - 1]) + Mentions(es[|es| - 1])
  }

  function LocalNames(ss: seq<Stmt>): set<Name> {
    set i | 0 <= i < |ss| && ss[i].Local? :: ss[i].name
  }

  function ParamNames(f: Lambda): set<Name> {
    set i | 0 <= i < |f.params| :: f.params[i]
  }

  // The names an expression assigns to.
  function Assigned(e: Expr): (xs: set<Name>)
    ensures xs <= Mentions(e)
  {
    match e
    case Literal(_) => {}
    case Var(_) => {}
    case Assign(x, source, _) => {x} + Assigned(source)
    case Ternary(c, a, b) => Assigned(c) + Assigned(a) + Assigned(b)
    case Apply(_, operands) => AssignedAny(operands)
    case Call(_, arguments) => AssignedAny(arguments)
  }

  function AssignedAny(es: seq<Expr>): (xs: set<Name>)
    ensures xs <= MentionsAny(es)
  {
    if es == [] then {} else AssignedAny(es[..|es| - 1]) + Assigned(es[|es| - 1])
  }

  // Whether some statement always ends the function.
  predicate Leaves(ss: seq<Stmt>) {
    exists i :: 0 <= i < |ss| && Leaving(ss[i])
  }

  predicate Leaving(s: Stmt) {
    s.Return? || s.Throw? || s.Exit?
  }

  // Every parameter that a later argument mentions is passed on as it is, and none is assigned
  // by a later argument.
  predicate PassedOn(params: seq<Name>, es: seq<Expr>)
    requires |es| <= |params|
  {
    forall j, k :: 0 <= j < k < |es| ==>
      params[j] !in Assigned(es[k]) && (params[j] in Mentions(es[k]) ==> es[j] == Var(params[j]))
  }

  predicate BareReturns(ss: seq<Stmt>) {
    forall i :: 0 <= i < |ss| && ss[i].Return? ==> ss[i].result.None?
  }

  // A lambda whose last statement is no call of its own binding is emitted as it is. One that
  // always ends before the call never loops.
  predicate Suitable(f: Lambda) {
    DetectTailCall(f).Some? ==> Leaves(f.body[..|f.body| - 1]) || Loops(f)
  }

  // The tail call passes as many arguments as there are parameters, to a binding that nothing
  // inside the lambda hides; no local hides a parameter; and an argument mentions a parameter
  // that the reassignments before it have written only if it was passed on as it is.
  predicate Loops(f: Lambda)
    requires DetectTailCall(f).Some?
  {
    && (forall i, j :: 0 <= i < j < |f.params| ==> f.params[i] != f.params[j])
    && var before, arguments := f.body[..|f.body| - 1], DetectTailCall(f).value;
    && |arguments| == |f.params|
    && f.owner !in ParamNames(f) && f.owner !in LocalNames(before)
    && LocalNames(before) !! ParamNames(f)
    && PassedOn(f.params, arguments)
  }

  // ---- Written and emitted lambdas evaluate alike while their calls do ----

  ghost predicate SameRuns<W(!new)>(m: Machine<W>, f: Lambda, fuel: nat) {
    forall args: seq<Word>, w: W :: Run(m, f, true, fuel, args, w) == Run(m, f, false, fuel, args, w)
  }

  lemma {:induction false} EvalSame<W(!new)>(m: Machine<W>, f: Lambda, fuel: nat, e: Expr, fr: Frame, w: W)
    requires SameRuns(m, f, fuel)
    ensures Eval(m, f, true, fuel, e, fr, w) == Eval(m, f, false, fuel, e, fr, w)
    decreases e
  {
    hide Run;
    match e
    case Literal(_) =>
    case Var(_) =>
    case Assign(_, source, _) => EvalSame(m, f, fuel, source, fr, w);
    case Ternary(c, a, b) =>
      EvalSame(m, f, fuel, c, fr, w);
      match Eval(m, f, false, fuel, c, fr, w) {
        case Some(Step(fr1, w1, Value(v))) =>
          EvalSame(m, f, fuel, a, fr1, w1);
          EvalSame(m, f, fuel, b, fr1, w1);
        case _ =>
      }
    case Apply(_, operands) => EvalAllSame(m, f, fuel, operands, fr, w);
    case Call(_, arguments) => EvalAllSame(m, f, fuel, arguments, fr, w);
  }

  lemma {:induction false} EvalAllSame<W(!new)>(m: Machine<W>, f: Lambda, fuel: nat, es: seq<Expr>, fr: Frame, w: W)
    requires SameRuns(m, f, fuel)
    ensures EvalAll(m, f, true, fuel, es, fr, w) == EvalAll(m, f, false, fuel, es, fr, w)
    decreases es
  {
    hide Eval;
    if es != [] {
      EvalAllSame(m, f, fuel, es[..|es| - 1], fr, w);
      match EvalAll(m, f, false, fuel, es[..|es| - 1], fr, w) {
        case Some(Steps(fr1, w1, _, None)) => EvalSame(m, f, fuel, es[|es| - 1], fr1, w1);
        case _ =>
      }
    }
  }

  lemma ExecSame<W(!new)>(m: Machine<W>, f: Lambda, fuel: nat, s: Stmt, fr: Frame, w: W)
    requires SameRuns(m, f, fuel)
    ensures Exec(m, f, true, fuel, s, fr, w) == Exec(m, f, false, fuel, s, fr, w)
  {
    hide Eval;
    match s
    case Exit =>
    case Local(_, e) => EvalOrSame(m, f, fuel, e, fr, w);
    case Return(e) => EvalOrSame(m, f, fuel, e, fr, w);
    case Throw(e) => EvalOrSame(m, f, fuel, e, fr, w);
    case Do(e) => EvalOrSame(m, f, fuel, e, fr, w);
  }

  lemma EvalOrSame<W(!new)>(m: Machine<W>, f: Lambda, fuel: nat, e: Option<Expr>, fr: Frame, w: W)
    requires SameRuns(m, f, fuel)
    ensures EvalOr(m, f, true, fuel, e, fr, w) == EvalOr(m, f, false, fuel, e, fr, w)
  {
    hide Eval;
    if e.Some? {
      EvalSame(m, f, fuel, e.value, fr, w);
    }
  }

  lemma {:induction false} ExecAllSame<W(!new)>(m: Machine<W>, f: Lambda, fuel: nat, ss: seq<Stmt>, fr: Frame, w: W)
    requires SameRuns(m, f, fuel)
    ensures ExecAll(m, f, true, fuel, ss, fr, w) == ExecAll(m, f, false, fuel, ss, fr, w)
    decreases |ss|
  {
    hide Exec;
    if ss != [] {
      ExecAllSame(m, f, fuel, ss[..|ss| - 1], fr, w);
      match ExecAll(m, f, false, fuel, ss[..|ss| - 1], fr, w) {
        case Some(Ran(fr1, w1, None)) => ExecSame(m, f, fuel, ss[|ss| - 1], fr1, w1);
        case _ =>
      }
    }
  }

  // ---- What expressions cannot change ----

  predicate SameNames(a: Frame, b: Frame) {
    a.params.Keys == b.params.Keys && a.locals.Keys == b.locals.Keys
  }

  // Frames that differ at most in the parameters of `xs`.
  predicate Like(xs: set<Name>, a: Frame, b: Frame) {
    && a.locals == b.locals && a.params.Keys == b.params.Keys
    && forall x :: x in a.params && x !in xs ==> a.params[x] == b.params[x]
  }

  // The parameters of `xs` as before.
  predicate Untouched(xs: set<Name>, a: Frame, b: Frame) {
    SameNames(a, b) && forall x :: x in a.params && x in xs ==> a.params[x] == b.params[x]
  }

  predicate AlikeStep<W(==)>(xs: set<Name>, fr: Frame, gr: Frame, a: Option<Step<W>>, b: Option<Step<W>>) {
    if a.None? || b.None? then a.None? && b.None?
    else
      && a.value.world == b.value.world && a.value.result == b.value.result
      && Like(xs, a.value.frame, b.value.frame) && Untouched(xs, fr, a.value.frame) && Untouched(xs, gr, b.value.frame)
  }

  predicate AlikeSteps<W(==)>(xs: set<Name>, fr: Frame, gr: Frame, a: Option<Steps<W>>, b: Option<Steps<W>>) {
    if a.None? || b.None? then a.None? && b.None?
    else
      && a.value.world == b.value.world && a.value.results == b.value.results && a.value.stopped == b.value.stopped
      && Like(xs, a.value.frame, b.value.frame) && Untouched(xs, fr, a.value.frame) && Untouched(xs, gr, b.value.frame)
  }

  lemma LookupIgnores<W>(m: Machine<W>, xs: set<Name>, fr: Frame, gr: Frame, w: W, x: Name)
    requires Like(xs, fr, gr) && x !in xs
    ensures Lookup(m, fr, w, x) == Lookup(m, gr, w, x)
  {
  }

  lemma UpdateIgnores<W>(m: Machine<W>, xs: set<Name>, fr: Frame, gr: Frame, w: W, x: Name, v: Word)
    requires Like(xs, fr, gr) && x !in xs
    ensures Update(m, fr, w, x, v).1 == Update(m, gr, w, x, v).1
    ensures Like(xs, Update(m, fr, w, x, v).0, Update(m, gr, w, x, v).0)
    ensures Untouched(xs, fr, Update(m, fr, w, x, v).0) && Untouched(xs, gr, Update(m, gr, w, x, v).0)
  {
  }

  lemma UntouchedTwice(xs: set<Name>, a: Frame, b: Frame, c: Frame)
    requires Untouched(xs, a, b) && Untouched(xs, b, c)
    ensures Untouched(xs, a, c)
  {
  }

  lemma UntouchedRefl(xs: set<Name>, a: Frame)
    ensures Untouched(xs, a, a)
  {
  }

  // An expression that mentions no parameter of `xs` neither sees nor changes them.
  lemma {:induction false} EvalIgnores<W(!new)>(m: Machine<W>, f: Lambda, fuel: nat, xs: set<Name>, e: Expr, fr: Frame, gr: Frame, w: W)
    requires Like(xs, fr, gr) && Mentions(e) !! xs
    ensures AlikeStep(xs, fr, gr, Eval(m, f, true, fuel, e, fr, w), Eval(m, f, true, fuel, e, gr, w))
    decreases e, 1
  {
    UntouchedRefl(xs, fr);
    UntouchedRefl(xs, gr);
    match e
    case Literal(_) => hide Like, Untouched;
    case Var(x) =>
      LookupIgnores(m, xs, fr, gr, w, x);
      hide Like, Untouched, Lookup;
    case Assign(_, _, _) => AssignIgnores(m, f, fuel, xs, e, fr, gr, w);
    case Ternary(_, _, _) => TernaryIgnores(m, f, fuel, xs, e, fr, gr, w);
    case Apply(_, operands) =>
      hide Like, Untouched, EvalAll;
      EvalAllIgnores(m, f, fuel, xs, operands, fr, gr, w);
    case Call(callee, arguments) =>
      LookupIgnores(m, xs, fr, gr, w, callee);
      assert (callee in fr.locals <==> callee in gr.locals) && (callee in fr.params <==> callee in gr.params);
      hide Like, Untouched, Lookup, Run, EvalAll;
      EvalAllIgnores(m, f, fuel, xs, arguments, fr, gr, w);
  }

  lemma AssignIgnores<W(!new)>(m: Machine<W>, f: Lambda, fuel: nat, xs: set<Name>, e: Expr, fr: Frame, gr: Frame, w: W)
    requires e.Assign? && Like(xs, fr, gr) && Mentions(e) !! xs
    ensures AlikeStep(xs, fr, gr, Eval(m, f, true, fuel, e, fr, w), Eval(m, f, true, fuel, e, gr, w))
    decreases e, 0
  {
    EvalIgnores(m, f, fuel, xs, e.source, fr, gr, w);
    hide Like, Untouched, Lookup, Update;
    match (Eval(m, f, true, fuel, e.source, fr, w), Eval(m, f, true, fuel, e.source, gr, w)) {
      case (Some(Step(fr1, w1, Value(v))), Some(Step(gr1, _, _))) =>
        LookupIgnores(m, xs, fr1, gr1, w1, e.target);
        UpdateIgnores(m, xs, fr1, gr1, w1, e.target, v);
        UntouchedTwice(xs, fr, fr1, Update(m, fr1, w1, e.target, v).0);
        UntouchedTwice(xs, gr, gr1, Update(m, gr1, w1, e.target, v).0);
      case _ =>
    }
  }

  lemma TernaryIgnores<W(!new)>(m: Machine<W>, f: Lambda, fuel: nat, xs: set<Name>, e: Expr, fr: Frame, gr: Frame, w: W)
    requires e.Ternary? && Like(xs, fr, gr) && Mentions(e) !! xs
    ensures AlikeStep(xs, fr, gr, Eval(m, f, true, fuel, e, fr, w), Eval(m, f, true, fuel, e, gr, w))
    decreases e, 0
  {
    EvalIgnores(m, f, fuel, xs, e.condition, fr, gr, w);
    hide Like, Untouched;
    match (Eval(m, f, true, fuel, e.condition, fr, w), Eval(m, f, true, fuel, e.condition, gr, w)) {
      case (Some(Step(fr1, w1, Value(v))), Some(Step(gr1, _, _))) =>
        var branch := if v != 0 then e.thenBranch else e.elseBranch;
        EvalIgnores(m, f, fuel, xs, branch, fr1, gr1, w1);
        AlikeTwice(xs, fr, gr, fr1, gr1, Eval(m, f, true, fuel, branch, fr1, w1), Eval(m, f, true, fuel, branch, gr1, w1));
      case _ =>
    }
  }

  lemma AlikeTwice<W>(xs: set<Name>, fr: Frame, gr: Frame, fr1: Frame, gr1: Frame, a: Option<Step<W>>, b: Option<Step<W>>)
    requires Untouched(xs, fr, fr1) && Untouched(xs, gr, gr1) && AlikeStep(xs, fr1, gr1, a, b)
    ensures AlikeStep(xs, fr, gr, a, b)
  {
  }

  lemma {:induction false} EvalAllIgnores<W(!new)>(m: Machine<W>, f: Lambda, fuel: nat, xs: set<Name>, es: seq<Expr>, fr: Frame, gr: Frame, w: W)
    requires Like(xs, fr, gr) && MentionsAny(es) !! xs
    ensures AlikeSteps(xs, fr, gr, EvalAll(m, f, true, fuel, es, fr, w), EvalAll(m, f, true, fuel, es, gr, w))
    decreases es
  {
    hide Eval, Mentions;
    if es != [] {
      var front, last := es[..|es| - 1], es[|es| - 1];
      EvalAllIgnores(m, f, fuel, xs, front, fr, gr, w);
      match (EvalAll(m, f, true, fuel, front, fr, w), EvalAll(m, f, true, fuel, front, gr, w)) {
        case (Some(Steps(fr1, w1, _, None)), Some(Steps(gr1, _, _, _))) => EvalIgnores(m, f, fuel, xs, last, fr1, gr1, w1);
        case _ =>
      }
    }
  }

  // An expression leaves the parameters that it does not assign as they were.
  lemma {:induction false} EvalAssigns<W(!new)>(m: Machine<W>, f: Lambda, fuel: nat, xs: set<Name>, e: Expr, fr: Frame, w: W)
    requires Assigned(e) !! xs
    ensures var r := Eval(m, f, true, fuel, e, fr, w); r.Some? ==> Untouched(xs, fr, r.value.frame)
    decreases e
  {
    UntouchedRefl(xs, fr);
    match e
    case Literal(_) => hide Untouched;
    case Var(x) => hide Untouched, Lookup;
    case Assign(x, source, _) =>
      EvalAssigns(m, f, fuel, xs, source, fr, w);
      match Eval(m, f, true, fuel, source, fr, w) {
        case Some(Step(fr1, w1, Value(v))) => UpdateTouches(m, xs, fr1, w1, x, v); UntouchedTwice(xs, fr, fr1, Update(m, fr1, w1, x, v).0);
        case _ =>
      }
      hide Untouched, Lookup, Update;
    case Ternary(c, a, b) =>
      EvalAssigns(m, f, fuel, xs, c, fr, w);
      match Eval(m, f, true, fuel, c, fr, w) {
        case Some(Step(fr1, w1, Value(v))) =>
          var branch := if v != 0 then a else b;
          EvalAssigns(m, f, fuel, xs, branch, fr1, w1);
          var r := Eval(m, f, true, fuel, branch, fr1, w1);
          if r.Some? {
            UntouchedTwice(xs, fr, fr1, r.value.frame);
          }
        case _ =>
      }
      hide Untouched;
    case Apply(_, operands) =>
      hide Untouched, EvalAll;
      EvalAllAssigns(m, f, fuel, xs, operands, fr, w);
    case Call(_, arguments) =>
      hide Untouched, Lookup, Run, EvalAll;
      EvalAllAssigns(m, f, fuel, xs, arguments, fr, w);
  }

  lemma {:induction false} EvalAllAssigns<W(!new)>(m: Machine<W>, f: Lambda, fuel: nat, xs: set<Name>, es: seq<Expr>, fr: Frame, w: W)
    requires AssignedAny(es) !! xs
    ensures var r := EvalAll(m, f, true, fuel, es, fr, w); r.Some? ==> Untouched(xs, fr, r.value.frame)
    decreases es
  {
    hide Eval, Assigned;
    UntouchedRefl(xs, fr);
    if es != [] {
      var front, last := es[..|es| - 1], es[|es| - 1];
      EvalAllAssigns(m, f, fuel, xs, front, fr, w);
      match EvalAll(m, f, true, fuel, front, fr, w) {
        case Some(Steps(fr1, w1, _, None)) =>
          EvalAssigns(m, f, fuel, xs, last, fr1, w1);
          var r := Eval(m, f, true, fuel, last, fr1, w1);
          if r.Some? {
            UntouchedTwice(xs, fr, fr1, r.value.frame);
          }
        case _ =>
      }
    }
    hide Untouched;
  }

  lemma UpdateTouches<W>(m: Machine<W>, xs: set<Name>, fr: Frame, w: W, x: Name, v: Word)
    requires x !in xs
    ensures Untouched(xs, fr, Update(m, fr, w, x, v).0)
  {
  }

  // ---- The variables of a body ----

  lemma EvalNames<W(!new)>(m: Machine<W>, f: Lambda, fuel: nat, e: Expr, fr: Frame, w: W)
    ensures Eval(m, f, true, fuel, e, fr, w).Some? ==> SameNames(fr, Eval(m, f, true, fuel, e, fr, w).value.frame)
  {
    assert Like({}, fr, fr);
    hide Eval, Mentions;
    EvalIgnores(m, f, fuel, {}, e, fr, fr, w);
  }

  // Running statements may add their locals and nothing else.
  predicate Within(fr: Frame, params: set<Name>, locals: set<Name>) {
    fr.params.Keys == params && fr.locals.Keys <= locals
  }

  lemma ExecNames<W(!new)>(m: Machine<W>, f: Lambda, fuel: nat, s: Stmt, fr: Frame, w: W, params: set<Name>, locals: set<Name>)
    requires Within(fr, params, locals) && (s.Local? ==> s.name in locals)
    ensures Exec(m, f, true, fuel, s, fr, w).Some? ==> Within(Exec(m, f, true, fuel, s, fr, w).value.frame, params, locals)
  {
    hide Eval;
    match s
    case Exit =>
    case Local(_, e) => if e.Some? { EvalNames(m, f, fuel, e.value, fr, w); }
    case Return(e) => if e.Some? { EvalNames(m, f, fuel, e.value, fr, w); }
    case Throw(e) => if e.Some? { EvalNames(m, f, fuel, e.value, fr, w); }
    case Do(e) => if e.Some? { EvalNames(m, f, fuel, e.value, fr, w); }
  }

  lemma {:induction false} ExecAllNames<W(!new)>(m: Machine<W>, f: Lambda, fuel: nat, ss: seq<Stmt>, fr: Frame, w: W,
                                                 params: set<Name>, locals: set<Name>)
    requires Within(fr, params, locals) && LocalNames(ss) <= locals
    ensures ExecAll(m, f, true, fuel, ss, fr, w).Some? ==> Within(ExecAll(m, f, true, fuel, ss, fr, w).value.frame, params, locals)
    decreases |ss|
  {
    hide Exec, Within;
    if ss != [] {
      var front, last := ss[..|ss| - 1], ss[|ss| - 1];
      assert forall i :: 0 <= i < |front| ==> front[i] == ss[i];
      assert last.Local? ==> last.name in LocalNames(ss);
      ExecAllNames(m, f, fuel, front, fr, w, params, locals);
      match ExecAll(m, f, true, fuel, front, fr, w) {
        case Some(Ran(fr1, w1, None)) => ExecNames(m, f, fuel, last, fr1, w1, params, locals);
        case _ =>
      }
    }
  }

  // ---- Reassigning in order is binding at once ----

  // The first `k` parameters.
  function First(params: seq<Name>, k: nat): set<Name>
    requires k <= |params|
  {
    set i | 0 <= i < k :: params[i]
  }

  // After `k` reassignments against `k` evaluations: the same world, the frames alike but for
  // the first `k` parameters, and those hold the values.
  predicate InStep<W(==)>(params: seq<Name>, k: nat, a: Option<Ran<W>>, b: Option<Steps<W>>)
    requires k <= |params|
  {
    if a.None? || b.None? then a.None? && b.None?
    else
      && a.value.world == b.value.world && a.value.finished == b.value.stopped
      && (b.value.stopped.None? ==>
            && |b.value.results| == k && Like(First(params, k), a.value.frame, b.value.frame)
            && forall i :: 0 <= i < k ==> params[i] in a.value.frame.params && a.value.frame.params[params[i]] == b.value.results[i])
  }

  predicate Assignable(params: seq<Name>, fr: Frame) {
    && (forall i :: 0 <= i < |params| ==> params[i] in fr.params && params[i] !in fr.locals)
    && forall i, j :: 0 <= i < j < |params| ==> params[i] != params[j]
  }

  lemma AssignableSame(params: seq<Name>, a: Frame, b: Frame)
    requires Assignable(params, a) && SameNames(a, b)
    ensures Assignable(params, b)
  {
  }

  // The parameters among the first `k` that are not passed on as they are.
  function Rewritten(params: seq<Name>, es: seq<Expr>, k: nat): set<Name>
    requires k <= |es| <= |params|
  {
    set i | 0 <= i < k && es[i] != Var(params[i]) :: params[i]
  }

  // The frames of the two ways are alike but for these.
  predicate AlikeSoFar<W>(params: seq<Name>, es: seq<Expr>, a: Option<Ran<W>>, b: Option<Steps<W>>)
    requires |es| <= |params|
  {
    a.Some? && b.Some? && b.value.stopped.None? ==> Like(Rewritten(params, es, |es|), a.value.frame, b.value.frame)
  }

  lemma RewrittenAdds(params: seq<Name>, es: seq<Expr>)
    requires 0 < |es| <= |params|
    ensures var k := |es| - 1;
      Rewritten(params, es, |es|) == Rewritten(params, es[..k], k) + (if es[k] == Var(params[k]) then {} else {params[k]})
    ensures Rewritten(params, es[..|es| - 1], |es| - 1) <= First(params, |es| - 1)
  {
    var k := |es| - 1;
    assert forall i :: 0 <= i < k ==> es[..k][i] == es[i];
  }

  lemma LikeMore(xs: set<Name>, ys: set<Name>, a: Frame, b: Frame)
    requires Like(xs, a, b) && xs <= ys
    ensures Like(ys, a, b)
  {
  }

  // Assigning the value an expression had: no news if it is the parameter itself.
  lemma AssignedLike<W>(m: Machine<W>, xs: set<Name>, p: Name, itself: bool, fr: Frame, gr: Frame, w: W, v: Word)
    requires Like(xs, fr, gr) && p in fr.params && p !in fr.locals && (itself ==> v == fr.params[p])
    ensures Like(xs + (if itself then {} else {p}), Update(m, fr, w, p, v).0, gr)
  {
    if itself {
      assert fr.params[p := v] == fr.params;
    }
  }

  lemma VarIsItself<W>(m: Machine<W>, f: Lambda, fuel: nat, x: Name, fr: Frame, w: W)
    requires x in fr.params && x !in fr.locals
    ensures Eval(m, f, true, fuel, Var(x), fr, w) == Some(Step(fr, w, Value(fr.params[x])))
  {
  }

  // One more.
  lemma StepInStep<W>(m: Machine<W>, params: seq<Name>, k: nat, fr: Frame, gr: Frame, fr1: Frame, gr1: Frame, w: W, vs: seq<Word>, v: Word)
    requires k < |params| == |params| && |vs| == k && Assignable(params, fr1)
    requires forall i :: 0 <= i < k ==> params[i] in fr.params && fr.params[params[i]] == vs[i]
    requires Untouched(First(params, k), fr, fr1) && Like(First(params, k), fr1, gr1)
    ensures var (fr2, w2) := Update(m, fr1, w, params[k], v);
      && w2 == w && Like(First(params, k + 1), fr2, gr1)
      && forall i :: 0 <= i < k + 1 ==> params[i] in fr2.params && fr2.params[params[i]] == (vs + [v])[i]
  {
    assert First(params, k + 1) == First(params, k) + {params[k]};
    forall i | 0 <= i < k
      ensures params[i] in First(params, k)
    {
    }
  }

  lemma EarlierPassedOn(params: seq<Name>, es: seq<Expr>, k: nat)
    requires k < |es| <= |params| && PassedOn(params, es)
    ensures PassedOn(params, es[..k])
    ensures Rewritten(params, es[..k], k) !! Mentions(es[k]) && First(params, k) !! Assigned(es[k])
  {
    assert forall i :: 0 <= i < k ==> es[..k][i] == es[i];
  }

  lemma NothingReassigned(params: seq<Name>, fr: Frame)
    ensures SameNames(fr, fr) && Like(First(params, 0), fr, fr) && Like(Rewritten(params, [], 0), fr, fr)
  {
  }

  lemma SameNamesTwice(a: Frame, b: Frame, c: Frame)
    requires SameNames(a, b) && SameNames(b, c)
    ensures SameNames(a, c)
  {
  }

  lemma {:induction false} ReassignIsBind<W(!new)>(m: Machine<W>, f: Lambda, fuel: nat, params: seq<Name>, es: seq<Expr>, fr: Frame, w: W)
    requires |es| <= |params| && Assignable(params, fr) && PassedOn(params, es)
    ensures InStep(params, |es|, Reassign(m, f, fuel, params, es, fr, w), EvalAll(m, f, true, fuel, es, fr, w))
    ensures AlikeSoFar(params, es, Reassign(m, f, fuel, params, es, fr, w), EvalAll(m, f, true, fuel, es, fr, w))
    ensures var r := Reassign(m, f, fuel, params, es, fr, w); r.Some? ==> SameNames(fr, r.value.frame)
    decreases |es|
  {
    hide Mentions, Eval, Assignable, Like, First, Untouched, SameNames, PassedOn, Rewritten, Update;
    NothingReassigned(params, fr);
    if es != [] {
      var k := |es| - 1;
      var front, last := es[..k], es[k];
      EarlierPassedOn(params, es, k);
      ReassignIsBind(m, f, fuel, params, front, fr, w);
      match (Reassign(m, f, fuel, params, front, fr, w), EvalAll(m, f, true, fuel, front, fr, w)) {
        case (Some(Ran(fr1, w1, None)), Some(Steps(gr1, _, vs, None))) =>
          AssignableSame(params, fr, fr1);
          ReassignOne(m, f, fuel, params, es, fr1, gr1, w1, vs);
          EvalNames(m, f, fuel, last, fr1, w1);
          match Eval(m, f, true, fuel, last, fr1, w1) {
            case Some(Step(fr2, w2, r)) =>
              SameNamesTwice(fr, fr1, fr2);
              if r.Value? {
                UpdateNames(m, fr2, w2, params[k], r.word);
                SameNamesTwice(fr, fr2, Update(m, fr2, w2, params[k], r.word).0);
              }
            case _ =>
          }
        case _ =>
      }
    }
  }

  // One more argument, evaluated in both frames and assigned in one.
  lemma ReassignOne<W(!new)>(m: Machine<W>, f: Lambda, fuel: nat, params: seq<Name>, es: seq<Expr>,
                             fr1: Frame, gr1: Frame, w1: W, vs: seq<Word>)
    requires 0 < |es| <= |params| && Assignable(params, fr1) && |vs| == |es| - 1
    requires var k := |es| - 1;
      && Rewritten(params, es[..k], k) !! Mentions(es[k]) && First(params, k) !! Assigned(es[k])
      && Like(Rewritten(params, es[..k], k), fr1, gr1)
      && forall i :: 0 <= i < k ==> params[i] in fr1.params && fr1.params[params[i]] == vs[i]
    ensures var k := |es| - 1;
      match (Eval(m, f, true, fuel, es[k], fr1, w1), Eval(m, f, true, fuel, es[k], gr1, w1))
      case (None, None) => true
      case (Some(Step(fr2, w2, r)), Some(Step(gr2, v2, q))) =>
        && w2 == v2 && r == q
        && (r.Value? ==>
              var (fr3, w3) := Update(m, fr2, w2, params[k], r.word);
              && w3 == w2 && Like(Rewritten(params, es, |es|), fr3, gr2) && Like(First(params, |es|), fr3, gr2)
              && forall i :: 0 <= i < |es| ==> params[i] in fr3.params && fr3.params[params[i]] == (vs + [r.word])[i])
      case _ => false
  {
    hide Mentions, Assigned, Eval, Assignable, Like, First, Untouched, SameNames, Rewritten, Update;
    var k := |es| - 1;
    var xs := Rewritten(params, es[..k], k);
    RewrittenAdds(params, es);
    EvalIgnores(m, f, fuel, xs, es[k], fr1, gr1, w1);
    EvalAssigns(m, f, fuel, First(params, k), es[k], fr1, w1);
    EvalNames(m, f, fuel, es[k], fr1, w1);
    match (Eval(m, f, true, fuel, es[k], fr1, w1), Eval(m, f, true, fuel, es[k], gr1, w1)) {
      case (Some(Step(fr2, w2, r)), Some(Step(gr2, _, _))) =>
        if r.Value? {
          AssignableSame(params, fr1, fr2);
          LikeMore(xs, First(params, k), fr2, gr2);
          StepInStep(m, params, k, fr1, gr1, fr2, gr2, w2, vs, r.word);
          CanAssign(params, fr1, k);
          CanAssign(params, fr2, k);
          if es[k] == Var(params[k]) {
            VarIsItself(m, f, fuel, params[k], fr1, w1);
          }
          AssignedLike(m, xs, params[k], es[k] == Var(params[k]), fr2, gr2, w2, r.word);
        }
      case _ =>
    }
  }

  lemma CanAssign(params: seq<Name>, fr: Frame, k: nat)
    requires Assignable(params, fr) && k < |params|
    ensures params[k] in fr.params && params[k] !in fr.locals
  {
  }

  lemma UpdateNames<W>(m: Machine<W>, fr: Frame, w: W, x: Name, v: Word)
    ensures SameNames(fr, Update(m, fr, w, x, v).0)
  {
  }

  lemma {:induction false} BindNames(params: seq<Name>, args: seq<Word>)
    requires |params| == |args|
    ensures Bind(params, args).Keys == set i | 0 <= i < |params| :: params[i]
  {
    if params != [] {
      var last := |params| - 1;
      BindNames(params[..last], args[..last]);
      assert forall i :: 0 <= i < last ==> params[..last][i] == params[i];
    }
  }

  lemma {:induction false} BindAt(params: seq<Name>, args: seq<Word>, i: nat)
    requires |params| == |args| && i < |params|
    requires forall j, k :: 0 <= j < k < |params| ==> params[j] != params[k]
    ensures params[i] in Bind(params, args) && Bind(params, args)[params[i]] == args[i]
  {
    var last := |params| - 1;
    if i < last {
      BindAt(params[..last], args[..last], i);
    }
  }

  // Once all parameters are reassigned they are bound as a call would bind them.
  lemma BoundAsByCall(params: seq<Name>, vs: seq<Word>, bound: map<Name, Word>)
    requires |vs| == |params| && forall j, k :: 0 <= j < k < |params| ==> params[j] != params[k]
    requires bound.Keys == set i | 0 <= i < |params| :: params[i]
    requires forall i :: 0 <= i < |params| ==> params[i] in bound && bound[params[i]] == vs[i]
    ensures bound == Bind(params, vs)
  {
    BindNames(params, vs);
    forall x | x in bound
      ensures bound[x] == Bind(params, vs)[x]
    {
      var i :| 0 <= i < |params| && params[i] == x;
      BindAt(params, vs, i);
    }
  }

  // ---- The result ----

  // Statements that return no value end the function, if at all, with zero or without a value.
  lemma {:induction false} ZeroResult<W(!new)>(m: Machine<W>, f: Lambda, fuel: nat, ss: seq<Stmt>, fr: Frame, w: W)
    requires BareReturns(ss)
    ensures var r := ExecAll(m, f, false, fuel, ss, fr, w);
      r.Some? && r.value.finished.Some? && r.value.finished.value.Value? ==> r.value.finished.value == Value(0)
    decreases |ss|
  {
    if ss != [] {
      var front, last := ss[..|ss| - 1], ss[|ss| - 1];
      assert forall i :: 0 <= i < |front| ==> front[i] == ss[i];
      ZeroResult(m, f, fuel, front, fr, w);
      hide Exec;
      match ExecAll(m, f, false, fuel, front, fr, w) {
        case Some(Ran(fr1, w1, None)) => StatementZero(m, f, fuel, last, fr1, w1);
        case _ =>
      }
    }
  }

  lemma StatementZero<W(!new)>(m: Machine<W>, f: Lambda, fuel: nat, s: Stmt, fr: Frame, w: W)
    requires s.Return? ==> s.result.None?
    ensures var r := Exec(m, f, false, fuel, s, fr, w);
      r.Some? && r.value.finished.Some? && r.value.finished.value.Value? ==> r.value.finished.value == Value(0)
  {
    assert EvalOr(m, f, false, fuel, None, fr, w) == Some(Step(fr, w, Value(0)));
    hide EvalOr;
  }

  lemma RunIsZero<W(!new)>(m: Machine<W>, f: Lambda, fuel: nat, args: seq<Word>, w: W)
    requires BareReturns(f.body)
    ensures var r := Run(m, f, false, fuel, args, w);
      r.Some? && r.value.result.Value? ==> r.value.result == Value(0)
  {
    if fuel > 0 && |args| == |f.params| {
      ZeroResult(m, f, fuel - 1, f.body, Frame(Bind(f.params, args), map[]), w);
    }
    hide ExecAll;
  }

  // The body as statements before the tail call and the call.
  lemma BodySplits(f: Lambda)
    requires DetectTailCall(f).Some? && Loops(f) && !Leaves(f.body[..|f.body| - 1])
    ensures |f.body| > 0 && f.body[|f.body| - 1] == Do(Some(Call(f.owner, DetectTailCall(f).value)))
    ensures Emit(f) == Loop(f.params, f.body[..|f.body| - 1], DetectTailCall(f).value)
    ensures BareReturns(f.body)
  {
    var arguments, before := DetectTailCall(f).value, f.body[..|f.body| - 1];
    assert arguments[..|arguments|] == arguments;
    forall i | 0 <= i < |f.body|
      ensures !f.body[i].Return?
    {
      if i < |before| {
        assert before[i] == f.body[i] && !Leaving(before[i]);
      }
    }
  }

  // Statements among which one always ends the function never run off their end.
  lemma {:induction false} LeavesForGood<W(!new)>(m: Machine<W>, f: Lambda, loop: bool, fuel: nat, ss: seq<Stmt>, fr: Frame, w: W)
    requires Leaves(ss)
    ensures var r := ExecAll(m, f, loop, fuel, ss, fr, w); r.Some? ==> r.value.finished.Some?
    decreases |ss|
  {
    var front, last := ss[..|ss| - 1], ss[|ss| - 1];
    var i :| 0 <= i < |ss| && Leaving(ss[i]);
    if i < |ss| - 1 {
      assert front[i] == ss[i];
      LeavesForGood(m, f, loop, fuel, front, fr, w);
    }
    hide EvalOr;
  }

  // The recursive tail call as the last statement: its arguments, then the call, whose value
  // is discarded.
  lemma LastCall<W(!new)>(m: Machine<W>, f: Lambda, fuel: nat, arguments: seq<Expr>, fr: Frame, w: W)
    requires f.owner !in fr.params && f.owner !in fr.locals
    ensures Exec(m, f, false, fuel, Do(Some(Call(f.owner, arguments))), fr, w) ==
      match EvalAll(m, f, false, fuel, arguments, fr, w)
      case None => None
      case Some(Steps(fr1, w1, vs, None)) =>
        (match Run(m, f, false, fuel, vs, w1)
         case None => None
         case Some(Done(w2, r)) => Some(Ran(fr1, w2, if r.Value? then None else Some(r))))
      case Some(Steps(fr1, w1, _, Some(r))) => Some(Ran(fr1, w1, if r.Value? then None else Some(r)))
  {
    var e := Call(f.owner, arguments);
    assert EvalOr(m, f, false, fuel, Some(e), fr, w) == Eval(m, f, false, fuel, e, fr, w);
    hide Run, EvalAll, EvalOr;
    assert Eval(m, f, false, fuel, e, fr, w) ==
      match EvalAll(m, f, false, fuel, arguments, fr, w)
      case None => None
      case Some(Steps(fr1, w1, vs, None)) =>
        (match Run(m, f, false, fuel, vs, w1)
         case None => None
         case Some(Done(w2, r)) => Some(Step(fr1, w2, r)))
      case Some(Steps(fr1, w1, _, Some(r))) => Some(Step(fr1, w1, r));
    hide Eval;
  }

  lemma {:induction false} StoppedIsNoValue<W(!new)>(m: Machine<W>, f: Lambda, fuel: nat, es: seq<Expr>, fr: Frame, w: W)
    ensures var r := EvalAll(m, f, true, fuel, es, fr, w);
      r.Some? && r.value.stopped.Some? ==> !r.value.stopped.value.Value?
    decreases |es|
  {
    hide Eval;
    if es != [] {
      StoppedIsNoValue(m, f, fuel, es[..|es| - 1], fr, w);
    }
  }

  // How an iteration of the loop goes on after the statements of the body ...
  function LoopEnd<W>(m: Machine<W>, f: Lambda, fuel: nat, fr: Frame, w: W): Option<Done<W>>
    requires Emit(f).Loop?
  {
    match Reassign(m, f, fuel, f.params, Emit(f).reassign, fr, w)
    case None => None
    case Some(Ran(_, w2, Some(r))) => Some(Done(w2, r))
    case Some(Ran(fr2, w2, None)) => Iterate(m, f, fuel, fr2.params, w2)
  }

  // ... and how the lambda does.
  function CallEnd<W>(m: Machine<W>, f: Lambda, fuel: nat, arguments: seq<Expr>, fr: Frame, w: W): Option<Done<W>> {
    match Exec(m, f, false, fuel, Do(Some(Call(f.owner, arguments))), fr, w)
    case None => None
    case Some(Ran(_, w1, finished)) => Some(Done(w1, if finished.None? then Value(0) else finished.value))
  }

  // With the parameters bound as by a call, the next iteration is the call.
  lemma NextIteration<W(!new)>(m: Machine<W>, f: Lambda, fuel: nat, vs: seq<Word>, w: W)
    requires |vs| == |f.params| && SameRuns(m, f, fuel) && Emit(f).Loop?
    ensures Iterate(m, f, fuel, Bind(f.params, vs), w) == Run(m, f, false, fuel, vs, w)
  {
    hide ExecAll, Reassign;
    assert Run(m, f, true, fuel, vs, w) == Iterate(m, f, fuel, Bind(f.params, vs), w);
  }

  lemma FrameIsBound<W(!new)>(m: Machine<W>, f: Lambda, arguments: seq<Expr>, fr: Frame, fr2: Frame, a: Option<Ran<W>>, b: Option<Steps<W>>)
    requires DetectTailCall(f).Some? && Loops(f) && arguments == DetectTailCall(f).value && Within(fr, ParamNames(f), LocalNames(f.body[..|f.body| - 1]))
    requires InStep(f.params, |arguments|, a, b) && b.Some? && b.value.stopped.None? && a.Some? && a.value.frame == fr2 && SameNames(fr, fr2)
    ensures |b.value.results| == |f.params| && fr2.params == Bind(f.params, b.value.results)
  {
    BoundAsByCall(f.params, b.value.results, fr2.params);
  }

  lemma AssignableFrame(f: Lambda, fr: Frame)
    requires DetectTailCall(f).Some? && Loops(f) && Within(fr, ParamNames(f), LocalNames(f.body[..|f.body| - 1]))
    ensures Assignable(f.params, fr) && f.owner !in fr.params && f.owner !in fr.locals
  {
    forall i | 0 <= i < |f.params|
      ensures f.params[i] in ParamNames(f)
    {
    }
  }

  // The end of an iteration against the tail call.
  lemma AfterBody<W(!new)>(m: Machine<W>, f: Lambda, fuel: nat, fr: Frame, w: W)
    requires DetectTailCall(f).Some? && Loops(f) && !Leaves(f.body[..|f.body| - 1])
    requires SameRuns(m, f, fuel) && Within(fr, ParamNames(f), LocalNames(f.body[..|f.body| - 1])) && Emit(f).Loop?
    ensures LoopEnd(m, f, fuel, fr, w) == CallEnd(m, f, fuel, DetectTailCall(f).value, fr, w)
  {
    var arguments := DetectTailCall(f).value;
    BodySplits(f);
    AssignableFrame(f, fr);
    ReassignIsBind(m, f, fuel, f.params, arguments, fr, w);
    EvalAllSame(m, f, fuel, arguments, fr, w);
    StoppedIsNoValue(m, f, fuel, arguments, fr, w);
    LastCall(m, f, fuel, arguments, fr, w);
    var a, b := Reassign(m, f, fuel, f.params, arguments, fr, w), EvalAll(m, f, true, fuel, arguments, fr, w);
    hide Reassign, EvalAll, Exec, Loops, Within, Run, Iterate, Like, Assignable, Mentions;
    if b.Some? && b.value.stopped.None? {
      FrameIsBound(m, f, arguments, fr, a.value.frame, a, b);
      NextIteration(m, f, fuel, b.value.results, b.value.world);
      RunIsZero(m, f, fuel, b.value.results, b.value.world);
    }
  }

  // One more call, given that shallower ones agree.
  lemma OneCall<W(!new)>(m: Machine<W>, f: Lambda, fuel: nat, args: seq<Word>, w: W)
    requires DetectTailCall(f).Some? && Loops(f) && !Leaves(f.body[..|f.body| - 1])
    requires fuel > 0 && SameRuns(m, f, fuel - 1) && |args| == |f.params| && Emit(f).Loop?
    ensures Iterate(m, f, fuel, Bind(f.params, args), w) == Run(m, f, false, fuel, args, w)
  {
    BodySplits(f);
    var before, arguments := f.body[..|f.body| - 1], DetectTailCall(f).value;
    var start := Frame(Bind(f.params, args), map[]);
    BindNames(f.params, args);
    ExecAllSame(m, f, fuel - 1, before, start, w);
    ExecAllNames(m, f, fuel - 1, before, start, w, ParamNames(f), LocalNames(before));
    match ExecAll(m, f, true, fuel - 1, before, start, w) {
      case Some(Ran(fr1, w1, None)) => AfterBody(m, f, fuel - 1, fr1, w1);
      case _ =>
    }
    hide Exec, Reassign, Loops, EvalAll;
  }

  // A lambda that always ends before the tail call ends in the first iteration.
  lemma OnlyCall<W(!new)>(m: Machine<W>, f: Lambda, fuel: nat, args: seq<Word>, w: W)
    requires DetectTailCall(f).Some? && Leaves(f.body[..|f.body| - 1])
    requires fuel > 0 && SameRuns(m, f, fuel - 1) && |args| == |f.params| && Emit(f).Loop?
    ensures Iterate(m, f, fuel, Bind(f.params, args), w) == Run(m, f, false, fuel, args, w)
  {
    var before, start := f.body[..|f.body| - 1], Frame(Bind(f.params, args), map[]);
    assert Emit(f).body == before;
    ExecAllSame(m, f, fuel - 1, before, start, w);
    LeavesForGood(m, f, true, fuel - 1, before, start, w);
    hide Exec, Reassign, EvalAll;
  }

  // The main result: for every machine, arguments and world, the emitted lambda terminates
  // exactly when the written one does, with the same world and the same result.
  lemma {:induction false} LoopIsRecursion<W(!new)>(m: Machine<W>, f: Lambda, fuel: nat, args: seq<Word>, w: W)
    requires Suitable(f)
    ensures Run(m, f, true, fuel, args, w) == Run(m, f, false, fuel, args, w)
    decreases fuel
  {
    if fuel > 0 && |args| == |f.params| {
      var less: nat := fuel - 1;
      forall args': seq<Word>, w': W
        ensures Run(m, f, true, less, args', w') == Run(m, f, false, less, args', w')
      {
        LoopIsRecursion(m, f, less, args', w');
      }
      hide Loops, Leaves, Iterate, ExecAll;
      if DetectTailCall(f).None? {
        ExecAllSame(m, f, less, f.body, Frame(Bind(f.params, args), map[]), w);
      } else if Leaves(f.body[..|f.body| - 1]) {
        OnlyCall(m, f, fuel, args, w);
      } else {
        OneCall(m, f, fuel, args, w);
      }
    }
  }

  // ---- Where the loop differs ----

  // The last condition matters: swapping two parameters by the tail call f(b, a) leaves both
  // with the value of b, where a call would bind b and a.
  lemma SwapGoesWrong<W>(m: Machine<W>, f: Lambda, fuel: nat, x: Word, y: Word, w: W)
    requires x != y
    ensures var fr, es := Frame(map["a" := x, "b" := y], map[]), [Var("b"), Var("a")];
      && Reassign(m, f, fuel, ["a", "b"], es, fr, w) == Some(Ran(Frame(map["a" := y, "b" := y], map[]), w, None))
      && Bind(["a", "b"], [y, x]) != map["a" := y, "b" := y]
  {
    var params, es := ["a", "b"], [Var("b"), Var("a")];
    var fr, fr1, fr2 := Frame(map["a" := x, "b" := y], map[]), Frame(map["a" := y, "b" := y], map[]), Frame(map["a" := y, "b" := y], map[]);
    assert es[..1] == [Var("b")] && [Var("b")][..0] == [];
    assert Reassign(m, f, fuel, params, [], fr, w) == Some(Ran(fr, w, None));
    assert Eval(m, f, true, fuel, Var("b"), fr, w) == Some(Step(fr, w, Value(y)));
    assert fr.params["a" := y] == fr1.params && fr1.params["b" := y] == fr2.params;
    assert Update(m, fr, w, "a", y) == (fr1, w);
    assert Reassign(m, f, fuel, params, [Var("b")], fr, w) == Some(Ran(fr1, w, None));
    assert Eval(m, f, true, fuel, Var("a"), fr1, w) == Some(Step(fr1, w, Value(y)));
    assert Update(m, fr1, w, "b", y) == (fr2, w);
    assert params[..1] == ["a"];
    assert Bind(params, [y, x])["b"] == x;
  }
}
