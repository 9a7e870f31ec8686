/**
 * The evaluator as functions over a state: the frame stack and the trace of
 * values the native printer has written. `fuel` bounds the depth of lambda
 * calls, which can recurse without limit through lambdas stored in the
 * environment; running out of it is the error `OutOfFuel`.
 */
module Semantics {
  import opened Lexer
  import opened Values
  import opened Env

  datatype State = State(frames: seq<Frame>, out: seq<Variable>)

  /** What evaluation produced and the state it left, also when it failed. */
  datatype Outcome<T> = Outcome(res: Result<T>, st: State)

  /**
   * `st'` keeps the number of frames of `st` and every frame below the top
   * one, and extends its output.
   */
  predicate Confined(st: State, st': State) {
    |st'.frames| == |st.frames| > 0 &&
    st'.frames[..|st'.frames| - 1] == st.frames[..|st.frames| - 1] &&
    st.out <= st'.out
  }

  /**
   * Addition: two integers give their sum when it fits in 32 bits, two
   * strings give their concatenation, and any other pairing is a type error.
   */
  function AddValues(lhs: Variable, rhs: Variable): (r: Result<Variable>)
    ensures r.Ok? <==>
      (lhs.Int? && rhs.Int? && InI32(lhs.n as int + rhs.n as int)) || (lhs.Str? && rhs.Str?)
    ensures r.Ok? && lhs.Int? ==> r.value.Int? && r.value.n as int == lhs.n as int + rhs.n as int
    ensures r.Ok? && lhs.Str? ==> r.value == Str(lhs.s + rhs.s)
    ensures r.Err? ==> r.error == if lhs.Int? && rhs.Int? then Overflow else TypeMismatch
  {
    match lhs
    case Int(a) =>
      (match rhs
       case Int(b) =>
         if InI32(a as int + b as int) then Ok(Int((a as int + b as int) as i32)) else Err(Overflow)
       case _ => Err(TypeMismatch))
    case Str(a) =>
      (match rhs
       case Str(b) => Ok(Str(a + b))
       case _ => Err(TypeMismatch))
    case _ => Err(TypeMismatch)
  }

  /**
   * A call of a host function: the printer writes its first argument to the
   * output and fails when there is none.
   */
  function CallNative(f: NativeFn, args: seq<Variable>, out: seq<Variable>): (r: Result<seq<Variable>>)
    ensures r.Ok? <==> |args| > 0
    ensures r.Ok? ==> r.value == out + [args[0]]
  {
    match f
    case Stdio => if |args| == 0 then Err(IndexOutOfRange) else Ok(out + [args[0]])
  }

  /**
   * Binds `params[i]` to `vals[i]` in the top frame, in order; the number of
   * frames and every lower frame stay the same.
   */
  function BindAll(frames: seq<Frame>, params: seq<string>, vals: seq<Variable>): (r: seq<Frame>)
    requires |frames| > 0 && |params| <= |vals|
    ensures |r| == |frames| && r[..|r| - 1] == frames[..|frames| - 1]
    decreases |params|
  {
    if |params| == 0 then frames
    else
      var n := |params| - 1;
      Bind(BindAll(frames, params[..n], vals), params[n], vals[n])
  }

  /**
   * After binding the parameters, names that are not parameters resolve as
   * before, and each parameter resolves to the value at its last position.
   */
  lemma {:induction false} BindAllLookup(frames: seq<Frame>, params: seq<string>, vals: seq<Variable>)
    requires |frames| > 0 && |params| <= |vals|
    ensures forall x | x !in params :: Lookup(BindAll(frames, params, vals), x) == Lookup(frames, x)
    ensures forall i | 0 <= i < |params| && params[i] !in params[i + 1..] ::
      Lookup(BindAll(frames, params, vals), params[i]) == Some(vals[i])
  {
    forall x | x !in params
      ensures Lookup(BindAll(frames, params, vals), x) == Lookup(frames, x)
    {
      BindAllAt(frames, params, vals, x, 0);
    }
    forall i | 0 <= i < |params| && params[i] !in params[i + 1..]
      ensures Lookup(BindAll(frames, params, vals), params[i]) == Some(vals[i])
    {
      BindAllAt(frames, params, vals, params[i], i);
    }
  }

  /** `BindAllLookup` for one name `x`, and one position `i` where it may stand last. */
  lemma {:induction false} BindAllAt(frames: seq<Frame>, params: seq<string>, vals: seq<Variable>, x: string, i: nat)
    requires |frames| > 0 && |params| <= |vals|
    ensures x !in params ==> Lookup(BindAll(frames, params, vals), x) == Lookup(frames, x)
    ensures i < |params| && params[i] == x && x !in params[i + 1..] ==>
      Lookup(BindAll(frames, params, vals), x) == Some(vals[i])
    decreases |params|
  {
    if |params| > 0 {
      var n := |params| - 1;
      var prev := BindAll(frames, params[..n], vals);
      assert BindAll(frames, params, vals) == Bind(prev, params[n], vals[n]);
      if i < n && params[i] == x && x !in params[i + 1..] {
        LastInPrefix(params, i);
      }
      if x != params[n] {
        if x !in params {
          NotInPrefix(params, x);
        }
        BindAllAt(frames, params[..n], vals, x, i);
      }
    }
  }

  /** A name missing from a list is missing from every prefix of it and differs from its last entry. */
  lemma NotInPrefix(params: seq<string>, x: string)
    requires |params| > 0 && x !in params
    ensures x !in params[..|params| - 1] && x != params[|params| - 1]
  {
  }

  /**
   * An entry that does not occur again after position `i` is not the last
   * entry, and does not occur again after `i` in the list without its last entry.
   */
  lemma LastInPrefix(params: seq<string>, i: nat)
    requires i < |params| - 1 && params[i] !in params[i + 1..]
    ensures params[i] != params[|params| - 1]
    ensures params[..|params| - 1][i] == params[i]
    ensures params[i] !in params[..|params| - 1][i + 1..]
  {
  }

  /** Keeps the state of `o` and forgets its value. */
  function Discard(o: Outcome<Variable>): Outcome<()> {
    Outcome(if o.res.Ok? then Ok(()) else Err(o.res.error), o.st)
  }

  /** Puts `vals` in front of the values of `o` when `o` succeeded. */
  function PrependOk(vals: seq<Variable>, o: Outcome<seq<Variable>>): Outcome<seq<Variable>> {
    if o.res.Ok? then Outcome(Ok(vals + o.res.value), o.st) else o
  }

  /**
   * Runs the statements in order, stopping at the first error. Success
   * always yields `Void`.
   */
  function EvalStmts(fuel: nat, lex: seq<Lex>, st: State): (o: Outcome<Variable>)
    requires |st.frames| > 0
    ensures Confined(st, o.st)
    ensures o.res.Ok? ==> o.res.value == Void
    decreases fuel, lex, 0
  {
    if lex == [] then Outcome(Ok(Void), st)
    else
      var step := EvalLine(fuel, lex[0], st);
      if step.res.Err? then Outcome(Err(step.res.error), step.st)
      else EvalStmts(fuel, lex[1..], step.st)
  }

  /** One statement: a definition binds, an expression or return evaluates. */
  function EvalLine(fuel: nat, line: Lex, st: State): (o: Outcome<()>)
    requires |st.frames| > 0
    ensures Confined(st, o.st)
    decreases fuel, line, 0
  {
    match line
    case DEF(d) => EvalDef(fuel, d, st)
    case EXPR(e) => Discard(EvalExpr(fuel, e, st))
    case RETURN(e) => Discard(EvalExpr(fuel, e, st))
  }

  /**
   * A definition succeeds exactly when its value does, and then binds the
   * name to that value in the top frame.
   */
  function EvalDef(fuel: nat, d: Def, st: State): (o: Outcome<()>)
    requires |st.frames| > 0
    ensures Confined(st, o.st)
    ensures o.res.Ok? <==> EvalExpr(fuel, d.value, st).res.Ok?
    ensures o.st.out == EvalExpr(fuel, d.value, st).st.out
    ensures o.res.Err? ==> o.st == EvalExpr(fuel, d.value, st).st
    ensures o.res.Ok? ==> d.name in o.st.frames[|o.st.frames| - 1]
    ensures o.res.Ok? ==> Lookup(o.st.frames, d.name) == Some(EvalExpr(fuel, d.value, st).res.value)
    ensures o.res.Ok? ==> forall x | x != d.name ::
      Lookup(o.st.frames, x) == Lookup(EvalExpr(fuel, d.value, st).st.frames, x)
    decreases fuel, d, 0
  {
    var v := EvalExpr(fuel, d.value, st);
    if v.res.Err? then Outcome(Err(v.res.error), v.st)
    else Outcome(Ok(()), State(Bind(v.st.frames, d.name, v.res.value), v.st.out))
  }

  /**
   * One expression. Evaluation only ever changes the top frame and appends
   * output, and a call expression yields `Void` when it succeeds.
   */
  function EvalExpr(fuel: nat, e: Node, st: State): (o: Outcome<Variable>)
    requires |st.frames| > 0
    ensures Confined(st, o.st)
    ensures o.res.Ok? && e.FcCall? ==> o.res.value == Void
    decreases fuel, e, 0
  {
    match e
    case IntLit(n) => Outcome(Ok(Int(n)), st)
    case StrLit(s) => Outcome(Ok(Str(s)), st)
    case LamdaLit(params, body) => Outcome(Ok(Lamda(params, body)), st)
    case VoidLit => Outcome(Ok(Void), st)
    case Call(name) =>
      (match Lookup(st.frames, name)
       case None => Outcome(Err(UnboundName(name)), st)
       case Some(v) => Outcome(Ok(v), st))
    case FcCall(name, args) => EvalCall(fuel, name, args, st)
    case Op(joint, lhs, rhs) =>
      var l := EvalExpr(fuel, lhs, st);
      if l.res.Err? then l
      else
        var r := EvalExpr(fuel, rhs, l.st);
        if r.res.Err? then r
        else if joint == Add then Outcome(AddValues(l.res.value, r.res.value), r.st)
        else Outcome(Ok(Void), r.st)
  }

  /**
   * A call. The callee is looked up before the arguments are evaluated, and
   * checked to be callable only after. A host function receives the argument
   * values; a lambda has its parameters bound in the current top frame, with
   * no frame pushed, and its body run there. The call yields `Void`.
   */
  function EvalCall(fuel: nat, name: string, args: seq<Node>, st: State): (o: Outcome<Variable>)
    requires |st.frames| > 0
    ensures Confined(st, o.st)
    ensures o.res.Ok? ==> o.res.value == Void
    decreases fuel, args, 1
  {
    match Lookup(st.frames, name)
    case None => Outcome(Err(UnboundName(name)), st)
    case Some(callee) =>
      var a := EvalArgs(fuel, args, st);
      if a.res.Err? then Outcome(Err(a.res.error), a.st)
      else
        var vals := a.res.value;
        match callee
        case Rusty(f) =>
          (match CallNative(f, vals, a.st.out)
           case Err(err) => Outcome(Err(err), a.st)
           case Ok(out) => Outcome(Ok(Void), State(a.st.frames, out)))
        case Lamda(params, body) =>
          if |vals| < |params| then
            Outcome(Err(IndexOutOfRange), State(BindAll(a.st.frames, params[..|vals|], vals), a.st.out))
          else if fuel == 0 then
            Outcome(Err(OutOfFuel), State(BindAll(a.st.frames, params, vals), a.st.out))
          else
            var b := EvalStmts(fuel - 1, body, State(BindAll(a.st.frames, params, vals), a.st.out));
            Outcome(if b.res.Err? then b.res else Ok(Void), b.st)
        case _ => Outcome(Err(NotCallable(name)), a.st)
  }

  /** The arguments of a call, left to right, each against the state the previous one left. */
  function EvalArgs(fuel: nat, args: seq<Node>, st: State): (o: Outcome<seq<Variable>>)
    requires |st.frames| > 0
    ensures Confined(st, o.st)
    ensures o.res.Ok? ==> |o.res.value| == |args|
    decreases fuel, args, 0
  {
    if args == [] then Outcome(Ok([]), st)
    else
      var first := EvalExpr(fuel, args[0], st);
      if first.res.Err? then Outcome(Err(first.res.error), first.st)
      else PrependOk([first.res.value], EvalArgs(fuel, args[1..], first.st))
  }
}
