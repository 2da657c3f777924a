// The tail-call loop of the C emitter (compiler/src/c_emit/c_emit_closure.c:222-253, 259-343):
// when a lambda's last statement calls the binding that owns it, the call becomes a
// reassignment of the parameters inside an endless loop.

module TailCall {
  import opened Wrappers

  type Name = string
  type Word = nat

  // `Apply` is any operation of the runtime on evaluated operands. An assignment yields the new
  // value, a post-increment the old one.
  datatype Expr =
    | Literal(word: Word)
    | Var(name: Name)
    | Assign(target: Name, source: Expr, yieldsOld: bool)
    | Ternary(condition: Expr, thenBranch: Expr, elseBranch: Expr)
    | Apply(operation: nat, operands: seq<Expr>)
    | Call(callee: Name, arguments: seq<Expr>)

  datatype Stmt =
    | Local(name: Name, initializer: Option<Expr>)
    | Return(result: Option<Expr>)
    | Throw(error: Option<Expr>)
    | Exit
    | Do(expr: Option<Expr>)

  datatype Lambda = Lambda(owner: Name, params: seq<Name>, body: seq<Stmt>)

  // ---- Emission ----

  // detect_tail_recursive_call
  function DetectTailCall(f: Lambda): Option<seq<Expr>> {
    if |f.body| == 0 then None
    else
      match f.body[|f.body| - 1]
      case Do(Some(Call(callee, arguments))) => if callee == f.owner then Some(arguments) else None
      case _ => None
  }

  // The emitted function: the body as it is, or a loop of the statements before the tail call
  // and the reassignments `params[k] = reassign[k]`, in order.
  datatype CFunction =
    | Straight(params: seq<Name>, body: seq<Stmt>)
    | Loop(params: seq<Name>, body: seq<Stmt>, reassign: seq<Expr>)

  function Least(a: nat, b: nat): nat {
    if a < b then a else b
  }

  function Emit(f: Lambda): CFunction {
    match DetectTailCall(f)
    case None => Straight(f.params, f.body)
    case Some(arguments) => Loop(f.params, f.body[..|f.body| - 1], arguments[..Least(|arguments|, |f.params|)])
  }

  // The part of c_emit_lambda_functions that writes one function.
  method EmitFunction(f: Lambda) returns (c: CFunction)
    ensures c == Emit(f)
  {
    var tailCall := DetectTailCall(f);
    var body: seq<Stmt> := [];
    if tailCall.None? {
      for j := 0 to |f.body|
        invariant body == f.body[..j]
      {
        body := body + [f.body[j]];
      }
      return Straight(f.params, body);
    }
    var j := 0;
    while j + 1 < |f.body|
      invariant 0 <= j <= |f.body| - 1 && body == f.body[..j]
    {
      body := body + [f.body[j]];
      j := j + 1;
    }
    var arguments := tailCall.value;
    var reassign: seq<Expr> := [];
    if |arguments| > 0 && |f.params| > 0 {
      var limit := if |arguments| < |f.params| then |arguments| else |f.params|;
      for k := 0 to limit
        invariant reassign == arguments[..k]
      {
        reassign := reassign + [arguments[k]];
      }
    }
    c := Loop(f.params, body, reassign);
  }

  // ---- Execution ----

  // How a step ends: with a value, by an exception, or with the program.
  datatype Result = Value(word: Word) | Raised(word: Word) | Exited | Misused

  // The world outside the function: other bindings, and everything runtime operations and calls
  // of other callables do. Its state `W` can hold any trace of what happened.
  datatype Machine<!W> = Machine(
    load: (W, Name) -> Word,
    store: (W, Name, Word) -> W,
    apply: (W, nat, seq<Word>) -> (W, Result),
    call: (W, Word, seq<Word>) -> (W, Result)
  )

  // The C variables of one activation: a local hides a parameter of the same name.
  datatype Frame = Frame(params: map<Name, Word>, locals: map<Name, Word>)

  function Lookup<W>(m: Machine<W>, fr: Frame, w: W, x: Name): Word {
    if x in fr.locals then fr.locals[x] else if x in fr.params then fr.params[x] else m.load(w, x)
  }

  function Update<W>(m: Machine<W>, fr: Frame, w: W, x: Name, v: Word): (Frame, W) {
    if x in fr.locals then (fr.(locals := fr.locals[x := v]), w)
    else if x in fr.params then (fr.(params := fr.params[x := v]), w)
    else (fr, m.store(w, x, v))
  }

  datatype Step<W> = Step(frame: Frame, world: W, result: Result)

  datatype Steps<W> = Steps(frame: Frame, world: W, results: seq<Word>, stopped: Option<Result>)

  datatype Done<W> = Done(world: W, result: Result)

  // How statements end: by running off their end, or with the function.
  datatype Ran<W> = Ran(frame: Frame, world: W, finished: Option<Result>)

  function Bind(params: seq<Name>, args: seq<Word>): map<Name, Word>
    requires |params| == |args|
  {
    if params == [] then map[] else Bind(params[..|params| - 1], args[..|args| - 1])[params[|params| - 1] := args[|args| - 1]]
  }

  // The functions below give up (None) where calls of the lambda by itself nest deeper than
  // `fuel`: every run that terminates is one with enough fuel. With `loop` the lambda runs as
  // emitted, without as written.

  function Eval<W>(m: Machine<W>, f: Lambda, loop: bool, fuel: nat, e: Expr, fr: Frame, w: W): Option<Step<W>>
    decreases fuel, 2, e
  {
    match e
    case Literal(word) => Some(Step(fr, w, Value(word)))
    case Var(x) => Some(Step(fr, w, Value(Lookup(m, fr, w, x))))
    case Assign(x, source, yieldsOld) =>
      (match Eval(m, f, loop, fuel, source, fr, w)
       case None => None
       case Some(Step(fr1, w1, Value(v))) =>
         var before := Lookup(m, fr1, w1, x);
         var (fr2, w2) := Update(m, fr1, w1, x, v);
         Some(Step(fr2, w2, Value(if yieldsOld then before else v)))
       case Some(stop) => Some(stop))
    case Ternary(c, a, b) =>
      (match Eval(m, f, loop, fuel, c, fr, w)
       case None => None
       case Some(Step(fr1, w1, Value(v))) => if v != 0 then Eval(m, f, loop, fuel, a, fr1, w1) else Eval(m, f, loop, fuel, b, fr1, w1)
       case Some(stop) => Some(stop))
    case Apply(operation, operands) =>
      (match EvalAll(m, f, loop, fuel, operands, fr, w)
       case None => None
       case Some(Steps(fr1, w1, vs, None)) => var (w2, r) := m.apply(w1, operation, vs); Some(Step(fr1, w2, r))
       case Some(Steps(fr1, w1, _, Some(r))) => Some(Step(fr1, w1, r)))
    case Call(callee, arguments) =>
      var target := Lookup(m, fr, w, callee);
      var own := callee == f.owner && callee !in fr.locals && callee !in fr.params;
      (match EvalAll(m, f, loop, fuel, arguments, fr, w)
       case None => None
       case Some(Steps(fr1, w1, vs, None)) =>
         if own then
           match Run(m, f, loop, fuel, vs, w1)
           case None => None
           case Some(Done(w2, r)) => Some(Step(fr1, w2, r))
         else
           var (w2, r) := m.call(w1, target, vs);
           Some(Step(fr1, w2, r))
       case Some(Steps(fr1, w1, _, Some(r))) => Some(Step(fr1, w1, r)))
  }

  // Operands in order, up to the first that does not yield a value.
  function EvalAll<W>(m: Machine<W>, f: Lambda, loop: bool, fuel: nat, es: seq<Expr>, fr: Frame, w: W): Option<Steps<W>>
    decreases fuel, 2, es
  {
    if es == [] then Some(Steps(fr, w, [], None))
    else
      match EvalAll(m, f, loop, fuel, es[..|es| - 1], fr, w)
      case None => None
      case Some(Steps(fr1, w1, vs, None)) =>
        (match Eval(m, f, loop, fuel, es[|es| - 1], fr1, w1)
         case None => None
         case Some(Step(fr2, w2, Value(v))) => Some(Steps(fr2, w2, vs + [v], None))
         case Some(Step(fr2, w2, r)) => Some(Steps(fr2, w2, vs, Some(r))))
      case Some(stop) => Some(stop)
  }

  function EvalOr<W>(m: Machine<W>, f: Lambda, loop: bool, fuel: nat, e: Option<Expr>, fr: Frame, w: W): Option<Step<W>>
    decreases fuel, 3
  {
    if e.None? then Some(Step(fr, w, Value(0))) else Eval(m, f, loop, fuel, e.value, fr, w)
  }

  function Exec<W>(m: Machine<W>, f: Lambda, loop: bool, fuel: nat, s: Stmt, fr: Frame, w: W): Option<Ran<W>>
    decreases fuel, 4
  {
    match s
    case Exit => Some(Ran(fr, w, Some(Exited)))
    case Local(x, e) =>
      (match EvalOr(m, f, loop, fuel, e, fr, w)
       case None => None
       case Some(Step(fr1, w1, Value(v))) => Some(Ran(fr1.(locals := fr1.locals[x := v]), w1, None))
       case Some(Step(fr1, w1, r)) => Some(Ran(fr1, w1, Some(r))))
    case Return(e) =>
      (match EvalOr(m, f, loop, fuel, e, fr, w)
       case None => None
       case Some(Step(fr1, w1, r)) => Some(Ran(fr1, w1, Some(r))))
    case Throw(e) =>
      (match EvalOr(m, f, loop, fuel, e, fr, w)
       case None => None
       case Some(Step(fr1, w1, Value(v))) => Some(Ran(fr1, w1, Some(Raised(v))))
       case Some(Step(fr1, w1, r)) => Some(Ran(fr1, w1, Some(r))))
    case Do(e) =>
      (match EvalOr(m, f, loop, fuel, e, fr, w)
       case None => None
       case Some(Step(fr1, w1, Value(_))) => Some(Ran(fr1, w1, None))
       case Some(Step(fr1, w1, r)) => Some(Ran(fr1, w1, Some(r))))
  }

  function ExecAll<W>(m: Machine<W>, f: Lambda, loop: bool, fuel: nat, ss: seq<Stmt>, fr: Frame, w: W): Option<Ran<W>>
    decreases fuel, 5, |ss|
  {
    if ss == [] then Some(Ran(fr, w, None))
    else
      match ExecAll(m, f, loop, fuel, ss[..|ss| - 1], fr, w)
      case None => None
      case Some(Ran(fr1, w1, None)) => Exec(m, f, loop, fuel, ss[|ss| - 1], fr1, w1)
      case Some(stop) => Some(stop)
  }

  // The reassignments, one after the other.
  function Reassign<W>(m: Machine<W>, f: Lambda, fuel: nat, params: seq<Name>, es: seq<Expr>, fr: Frame, w: W): Option<Ran<W>>
    requires |es| <= |params|
    decreases fuel, 5, |es|
  {
    if es == [] then Some(Ran(fr, w, None))
    else
      var k := |es| - 1;
      match Reassign(m, f, fuel, params, es[..k], fr, w)
      case None => None
      case Some(Ran(fr1, w1, None)) =>
        (match Eval(m, f, true, fuel, es[k], fr1, w1)
         case None => None
         case Some(Step(fr2, w2, Value(v))) => var (fr3, w3) := Update(m, fr2, w2, params[k], v); Some(Ran(fr3, w3, None))
         case Some(Step(fr2, w2, r)) => Some(Ran(fr2, w2, Some(r))))
      case Some(stop) => Some(stop)
  }

  // A call of the lambda. Running off the end of a function returns zero.
  function Run<W>(m: Machine<W>, f: Lambda, loop: bool, fuel: nat, args: seq<Word>, w: W): Option<Done<W>>
    decreases fuel, 1
  {
    if |args| != |f.params| then Some(Done(w, Misused))
    else if fuel == 0 then None
    else
      var emitted := if loop then Emit(f) else Straight(f.params, f.body);
      match emitted
      case Straight(_, body) =>
        (match ExecAll(m, f, loop, fuel - 1, body, Frame(Bind(f.params, args), map[]), w)
         case None => None
         case Some(Ran(_, w1, finished)) => Some(Done(w1, if finished.None? then Value(0) else finished.value)))
      case Loop(_, _, _) => Iterate(m, f, fuel, Bind(f.params, args), w)
  }

  // The loop, from the start of an iteration. Locals live for one iteration.
  function Iterate<W>(m: Machine<W>, f: Lambda, fuel: nat, params: map<Name, Word>, w: W): Option<Done<W>>
    requires Emit(f).Loop?
    decreases fuel, 0
  {
    if fuel == 0 then None
    else
      match ExecAll(m, f, true, fuel - 1, Emit(f).body, Frame(params, map[]), w)
      case None => None
      case Some(Ran(_, w1, Some(r))) => Some(Done(w1, r))
      case Some(Ran(fr1, w1, None)) =>
        match Reassign(m, f, fuel - 1, f.params, Emit(f).reassign, fr1, w1)
        case None => None
        case Some(Ran(_, w2, Some(r))) => Some(Done(w2, r))
        case Some(Ran(fr2, w2, None)) => Iterate(m, f, fuel - 1, fr2.params, w2)
  }
}
