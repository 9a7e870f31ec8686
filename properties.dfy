/** Properties of the evaluator, stated over the functions of `Semantics`. */
module Properties {
  import opened Lexer
  import opened Values
  import opened Env
  import opened Semantics
  import Runtime

  /**
   * Statements run in order: running `a + b` runs `a`, and runs `b` from the
   * state `a` left only when `a` succeeded.
   */
  lemma {:induction false} StatementsInOrder(fuel: nat, a: seq<Lex>, b: seq<Lex>, st: State)
    requires |st.frames| > 0
    ensures EvalStmts(fuel, a + b, st) ==
      var o := EvalStmts(fuel, a, st);
      if o.res.Err? then o else EvalStmts(fuel, b, o.st)
    decreases |a|
  {
    if a == [] {
      assert a + b == b;
    } else {
      assert (a + b)[0] == a[0] && (a + b)[1..] == a[1..] + b;
      var step := EvalLine(fuel, a[0], st);
      if step.res.Ok? {
        StatementsInOrder(fuel, a[1..], b, step.st);
      }
    }
  }

  /**
   * A `DEF` statement at the head of a list runs the definition, and the rest
   * of the list runs from the state it left only when it succeeded.
   */
  lemma DefStatement(fuel: nat, d: Def, rest: seq<Lex>, st: State)
    requires |st.frames| > 0
    ensures EvalStmts(fuel, [DEF(d)] + rest, st) ==
      var o := EvalDef(fuel, d, st);
      if o.res.Err? then Outcome(Err(o.res.error), o.st) else EvalStmts(fuel, rest, o.st)
  {
    assert ([DEF(d)] + rest)[0] == DEF(d) && ([DEF(d)] + rest)[1..] == rest;
  }

  /**
   * An `EXPR` statement at the head of a list evaluates the expression and
   * drops its value; the rest runs from the state it left only when it succeeded.
   */
  lemma ExprStatement(fuel: nat, e: Node, rest: seq<Lex>, st: State)
    requires |st.frames| > 0
    ensures EvalStmts(fuel, [EXPR(e)] + rest, st) ==
      var o := EvalExpr(fuel, e, st);
      if o.res.Err? then Outcome(Err(o.res.error), o.st) else EvalStmts(fuel, rest, o.st)
  {
    assert ([EXPR(e)] + rest)[0] == EXPR(e) && ([EXPR(e)] + rest)[1..] == rest;
  }

  /** A `RETURN` statement behaves exactly like an `EXPR` statement, wherever it stands. */
  lemma {:induction false} ReturnActsAsExpr(fuel: nat, lex: seq<Lex>, i: nat, e: Node, st: State)
    requires |st.frames| > 0 && i < |lex|
    ensures EvalStmts(fuel, lex[i := RETURN(e)], st) == EvalStmts(fuel, lex[i := EXPR(e)], st)
    decreases i
  {
    var withReturn, withExpr := lex[i := RETURN(e)], lex[i := EXPR(e)];
    if i == 0 {
      assert withReturn[1..] == withExpr[1..];
    } else {
      assert withReturn[0] == withExpr[0] == lex[0];
      var step := EvalLine(fuel, lex[0], st);
      if step.res.Ok? {
        assert withReturn[1..] == lex[1..][i - 1 := RETURN(e)];
        assert withExpr[1..] == lex[1..][i - 1 := EXPR(e)];
        ReturnActsAsExpr(fuel, lex[1..], i - 1, e, step.st);
      }
    }
  }

  /**
   * Arguments run in order: evaluating `a + b` evaluates `a`, and evaluates
   * `b` from the state `a` left only when `a` succeeded; the values of `a`
   * come first.
   */
  lemma {:induction false} ArgumentsInOrder(fuel: nat, a: seq<Node>, b: seq<Node>, st: State)
    requires |st.frames| > 0
    ensures EvalArgs(fuel, a + b, st) ==
      var o := EvalArgs(fuel, a, st);
      if o.res.Err? then o else PrependOk(o.res.value, EvalArgs(fuel, b, o.st))
    decreases |a|
  {
    if a == [] {
      assert a + b == b;
      var o := EvalArgs(fuel, b, st);
      if o.res.Ok? {
        assert [] + o.res.value == o.res.value;
      }
    } else {
      assert (a + b)[0] == a[0] && (a + b)[1..] == a[1..] + b;
      var first := EvalExpr(fuel, a[0], st);
      if first.res.Ok? {
        ArgumentsInOrder(fuel, a[1..], b, first.st);
        var o := EvalArgs(fuel, a[1..], first.st);
        if o.res.Ok? {
          var rest := EvalArgs(fuel, b, o.st);
          if rest.res.Ok? {
            assert [first.res.value] + (o.res.value + rest.res.value)
              == ([first.res.value] + o.res.value) + rest.res.value;
          }
        }
      }
    }
  }

  /**
   * A single argument evaluates to the value of its expression, in the state
   * that expression leaves. With `ArgumentsInOrder` this fixes the value of
   * every argument.
   */
  lemma ArgumentOne(fuel: nat, x: Node, st: State)
    requires |st.frames| > 0
    ensures EvalArgs(fuel, [x], st) ==
      var o := EvalExpr(fuel, x, st);
      if o.res.Err? then Outcome(Err(o.res.error), o.st) else Outcome(Ok([o.res.value]), o.st)
  {
    assert [x][1..] == [];
    var o := EvalExpr(fuel, x, st);
    if o.res.Ok? {
      assert [o.res.value] + [] == [o.res.value];
    }
  }

  /** Literals evaluate to the matching value and leave the state alone. */
  lemma LiteralsAreValues(fuel: nat, st: State, n: i32, s: string, params: seq<string>, body: seq<Lex>)
    requires |st.frames| > 0
    ensures EvalExpr(fuel, IntLit(n), st) == Outcome(Ok(Int(n)), st)
    ensures EvalExpr(fuel, StrLit(s), st) == Outcome(Ok(Str(s)), st)
    ensures EvalExpr(fuel, VoidLit, st) == Outcome(Ok(Void), st)
    ensures EvalExpr(fuel, LamdaLit(params, body), st) == Outcome(Ok(Lamda(params, body)), st)
  {
  }

  /**
   * A name evaluates to the value of its innermost binding and leaves the
   * state alone; it fails with `UnboundName` exactly when no frame binds it.
   */
  lemma CallReadsInnermost(fuel: nat, name: string, st: State)
    requires |st.frames| > 0
    ensures EvalExpr(fuel, Call(name), st).st == st
    ensures EvalExpr(fuel, Call(name), st).res == Err(UnboundName(name)) <==>
      forall k | 0 <= k < |st.frames| :: name !in st.frames[k]
    ensures EvalExpr(fuel, Call(name), st).res.Ok? ==>
      exists k :: InnermostAt(st.frames, name, k) && st.frames[k][name] == EvalExpr(fuel, Call(name), st).res.value
  {
    LookupInnermost(st.frames, name);
  }

  /** The expression contains no call, so evaluating it cannot change anything. */
  predicate CallFree(e: Node) {
    match e
    case FcCall(_, _) => false
    case Op(_, lhs, rhs) => CallFree(lhs) && CallFree(rhs)
    case _ => true
  }

  /** Only calls change the state: an expression without one leaves it as it was. */
  lemma {:induction false} CallFreeLeavesState(fuel: nat, e: Node, st: State)
    requires |st.frames| > 0 && CallFree(e)
    ensures EvalExpr(fuel, e, st).st == st
  {
    match e
    case Op(_, lhs, rhs) =>
      CallFreeLeavesState(fuel, lhs, st);
      var l := EvalExpr(fuel, lhs, st);
      if l.res.Ok? {
        CallFreeLeavesState(fuel, rhs, st);
      }
    case _ =>
  }

  /**
   * `Add` evaluates the left operand, then the right one from the state the
   * left one left, and adds the two values.
   */
  lemma AddEvaluatesBoth(fuel: nat, lhs: Node, rhs: Node, st: State)
    requires |st.frames| > 0
    requires EvalExpr(fuel, lhs, st).res.Ok?
    requires EvalExpr(fuel, rhs, EvalExpr(fuel, lhs, st).st).res.Ok?
    ensures var l := EvalExpr(fuel, lhs, st);
      var r := EvalExpr(fuel, rhs, l.st);
      EvalExpr(fuel, Op(Add, lhs, rhs), st) == Outcome(AddValues(l.res.value, r.res.value), r.st)
  {
  }

  /**
   * `Sub`, `Mult` and `Div` compute nothing: they succeed exactly when both
   * operands do, yield `Void`, and leave the state `Add` would leave.
   */
  lemma UnsupportedOperatorsYieldVoid(fuel: nat, joint: Joint, lhs: Node, rhs: Node, st: State)
    requires |st.frames| > 0 && joint != Add
    ensures var o := EvalExpr(fuel, Op(joint, lhs, rhs), st);
      var l := EvalExpr(fuel, lhs, st);
      && (o.res.Ok? <==> l.res.Ok? && EvalExpr(fuel, rhs, l.st).res.Ok?)
      && (o.res.Ok? ==> o.res.value == Void)
      && o.st == EvalExpr(fuel, Op(Add, lhs, rhs), st).st
  {
  }

  /** Additions: `2 + 3`, `"a" + "b"`, `2 + "b"` and `2147483647 + 1`. */
  lemma AdditionExamples(fuel: nat, st: State)
    requires |st.frames| > 0
    ensures EvalExpr(fuel, Op(Add, IntLit(2), IntLit(3)), st) == Outcome(Ok(Int(5)), st)
    ensures EvalExpr(fuel, Op(Add, StrLit("a"), StrLit("b")), st) == Outcome(Ok(Str("ab")), st)
    ensures EvalExpr(fuel, Op(Add, IntLit(2), StrLit("b")), st) == Outcome(Err(TypeMismatch), st)
    ensures EvalExpr(fuel, Op(Add, IntLit(0x7fff_ffff), IntLit(1)), st) == Outcome(Err(Overflow), st)
  {
    assert "a" + "b" == "ab";
  }

  /**
   * A call whose callee no frame binds fails with `UnboundName` before any
   * argument is evaluated, so the state is left alone.
   */
  lemma UnboundCallee(fuel: nat, name: string, args: seq<Node>, st: State)
    requires |st.frames| > 0 && Lookup(st.frames, name).None?
    ensures EvalExpr(fuel, FcCall(name, args), st) == Outcome(Err(UnboundName(name)), st)
  {
  }

  /**
   * A call to the printer, from any state and with any arguments: once the
   * arguments are evaluated it appends the first value to the output, keeps
   * the frames the arguments left, and fails when there is no argument.
   */
  lemma NativeCall(fuel: nat, name: string, args: seq<Node>, st: State)
    requires |st.frames| > 0 && Lookup(st.frames, name) == Some(Rusty(Stdio))
    ensures var a := EvalArgs(fuel, args, st);
      EvalExpr(fuel, FcCall(name, args), st) ==
        if a.res.Err? then Outcome(Err(a.res.error), a.st)
        else if |args| == 0 then Outcome(Err(IndexOutOfRange), a.st)
        else Outcome(Ok(Void), State(a.st.frames, a.st.out + [a.res.value[0]]))
  {
  }

  /**
   * A callee that is an integer, a string or `Void` is rejected with
   * `NotCallable`, but only after the arguments have been evaluated.
   */
  lemma NotCallableAfterArguments(fuel: nat, name: string, args: seq<Node>, st: State)
    requires |st.frames| > 0
    requires Lookup(st.frames, name).Some?
    requires var c := Lookup(st.frames, name).value; c.Int? || c.Str? || c.Void?
    ensures var a := EvalArgs(fuel, args, st);
      EvalExpr(fuel, FcCall(name, args), st) ==
        if a.res.Err? then Outcome(Err(a.res.error), a.st) else Outcome(Err(NotCallable(name)), a.st)
  {
  }

  /**
   * Calling a lambda with fewer arguments than parameters fails with
   * `IndexOutOfRange`; the parameters that had an argument stay bound.
   */
  lemma TooFewArguments(fuel: nat, name: string, args: seq<Node>, st: State)
    requires |st.frames| > 0
    requires Lookup(st.frames, name).Some? && Lookup(st.frames, name).value.Lamda?
    requires EvalArgs(fuel, args, st).res.Ok?
    requires |args| < |Lookup(st.frames, name).value.params|
    ensures var a := EvalArgs(fuel, args, st);
      var params := Lookup(st.frames, name).value.params;
      EvalExpr(fuel, FcCall(name, args), st) ==
        Outcome(Err(IndexOutOfRange), State(BindAll(a.st.frames, params[..|args|], a.res.value), a.st.out))
  {
  }

  /**
   * Calling a lambda binds its parameters in the caller's top frame, without
   * pushing a frame, and then runs its body there: the frames below the top
   * are untouched, and before the body runs each parameter resolves to the
   * argument at its last position while every other name resolves as before.
   * The call's own value is `Void`.
   */
  lemma LamdaCallIsFlat(fuel: nat, name: string, args: seq<Node>, st: State)
    requires |st.frames| > 0 && fuel > 0
    requires Lookup(st.frames, name).Some? && Lookup(st.frames, name).value.Lamda?
    requires EvalArgs(fuel, args, st).res.Ok?
    requires |Lookup(st.frames, name).value.params| <= |args|
    ensures var a := EvalArgs(fuel, args, st);
      var callee := Lookup(st.frames, name).value;
      var entry := BindAll(a.st.frames, callee.params, a.res.value);
      var o := EvalExpr(fuel, FcCall(name, args), st);
      && |entry| == |st.frames| && entry[..|entry| - 1] == st.frames[..|st.frames| - 1]
      && (forall i | 0 <= i < |callee.params| && callee.params[i] !in callee.params[i + 1..] ::
            Lookup(entry, callee.params[i]) == Some(a.res.value[i]))
      && (forall x | x !in callee.params :: Lookup(entry, x) == Lookup(a.st.frames, x))
      && o.st == EvalStmts(fuel - 1, callee.body, State(entry, a.st.out)).st
      && (o.res.Ok? <==> EvalStmts(fuel - 1, callee.body, State(entry, a.st.out)).res.Ok?)
      && (o.res.Ok? ==> o.res.value == Void)
  {
    var a := EvalArgs(fuel, args, st);
    var callee := Lookup(st.frames, name).value;
    BindAllLookup(a.st.frames, callee.params, a.res.value);
  }

  /**
   * A lambda call mutates the caller's frame: with `a = 10` in the caller's
   * frame, calling `f(4)` for `f = (a) { a = a + 1 }` leaves `a = 5` there.
   */
  lemma FlatMutationExample()
    ensures var f := Lamda(["a"], [DEF(Def("a", Op(Add, Call("a"), IntLit(1))))]);
      var st := State([map["f" := f, "a" := Int(10)]], []);
      var o := EvalExpr(1, FcCall("f", [IntLit(4)]), st);
      o.res == Ok(Void) && Lookup(o.st.frames, "a") == Some(Int(5))
  {
    var f := Lamda(["a"], [DEF(Def("a", Op(Add, Call("a"), IntLit(1))))]);
    var st := State([map["f" := f, "a" := Int(10)]], []);
    assert Lookup(st.frames, "f") == Some(f);
    assert [IntLit(4)][1..] == [] && [Int(4)] + [] == [Int(4)];
    assert EvalArgs(1, [], st) == Outcome(Ok([]), st);
    assert EvalArgs(1, [IntLit(4)], st) == Outcome(Ok([Int(4)]), st);
    LamdaCallIsFlat(1, "f", [IntLit(4)], st);
    IncrementBody(BindAll(st.frames, ["a"], [Int(4)]));
  }

  /** `a + 1` where `a` is 4 gives 5. */
  lemma IncrementExpr(st: State)
    requires |st.frames| > 0 && Lookup(st.frames, "a") == Some(Int(4))
    ensures EvalExpr(0, Op(Add, Call("a"), IntLit(1)), st) == Outcome(Ok(Int(5)), st)
  {
    assert EvalExpr(0, Call("a"), st) == Outcome(Ok(Int(4)), st);
    assert EvalExpr(0, IntLit(1), st) == Outcome(Ok(Int(1)), st);
    assert AddValues(Int(4), Int(1)) == Ok(Int(5));
  }

  /** The body of the lambda above, run where `a` is 4, leaves `a` = 5. */
  lemma IncrementBody(frames: seq<Frame>)
    requires |frames| > 0 && Lookup(frames, "a") == Some(Int(4))
    ensures var o := EvalStmts(0, [DEF(Def("a", Op(Add, Call("a"), IntLit(1))))], State(frames, []));
      o.res == Ok(Void) && Lookup(o.st.frames, "a") == Some(Int(5))
  {
    var body := [DEF(Def("a", Op(Add, Call("a"), IntLit(1))))];
    var inBody := State(frames, []);
    IncrementExpr(inBody);
    var after := State(Bind(frames, "a", Int(5)), []);
    assert EvalLine(0, body[0], inBody) == Outcome(Ok(()), after);
    assert body[1..] == [];
    assert EvalStmts(0, body[1..], after) == Outcome(Ok(Void), after);
  }

  /**
   * The callee is resolved before the arguments are evaluated: an argument
   * that rebinds the callee's name to an integer does not stop the call.
   */
  lemma CalleeResolvedFirstExample()
    ensures var g := Lamda([], [DEF(Def("f", IntLit(0)))]);
      var st := State([map["f" := Lamda([], []), "g" := g]], []);
      var o := EvalExpr(1, FcCall("f", [FcCall("g", [])]), st);
      o.res == Ok(Void) && Lookup(o.st.frames, "f") == Some(Int(0))
  {
    var g := Lamda([], [DEF(Def("f", IntLit(0)))]);
    var st := State([map["f" := Lamda([], []), "g" := g]], []);
    assert BindAll(st.frames, [], []) == st.frames;
    var body := EvalStmts(0, g.body, st);
    assert body.res.Ok? && Lookup(body.st.frames, "f") == Some(Int(0));
    var inner := EvalExpr(1, FcCall("g", []), st);
    assert inner.res == Ok(Void) && inner.st == body.st;
    var a := EvalArgs(1, [FcCall("g", [])], st);
    assert a.res.Ok? && Lookup(a.st.frames, "f") == Some(Int(0));
  }

  /** After the prelude, `stdio("hi")` writes `"hi"` to the output and yields `Void`. */
  lemma StdioPrintsArgument(fuel: nat)
    ensures EvalExpr(fuel, FcCall("stdio", [StrLit("hi")]), Runtime.PreludeState()) ==
      Outcome(Ok(Void), State(Runtime.PreludeState().frames, [Str("hi")]))
  {
    var st := Runtime.PreludeState();
    assert [StrLit("hi")][1..] == [] && [Str("hi")] + [] == [Str("hi")];
    assert EvalArgs(fuel, [], st) == Outcome(Ok([]), st);
    assert EvalArgs(fuel, [StrLit("hi")], st) == Outcome(Ok([Str("hi")]), st);
  }

  /** After the prelude, `stdio()` fails: the printer reads a first argument that is not there. */
  lemma StdioNeedsArgument(fuel: nat)
    ensures EvalExpr(fuel, FcCall("stdio", []), Runtime.PreludeState()) == Outcome(Err(IndexOutOfRange), Runtime.PreludeState())
  {
    var st := Runtime.PreludeState();
    assert EvalArgs(fuel, [], st) == Outcome(Ok([]), st);
  }

  /**
   * Fuel only cuts evaluation off: an evaluation that did not run out of fuel
   * gives the same outcome with more fuel.
   */
  lemma {:induction false} FuelMonotoneExpr(fuel: nat, e: Node, st: State)
    requires |st.frames| > 0 && EvalExpr(fuel, e, st).res != Err(OutOfFuel)
    ensures EvalExpr(fuel + 1, e, st) == EvalExpr(fuel, e, st)
    decreases fuel, e, 0
  {
    match e
    case FcCall(name, args) =>
      FuelMonotoneCall(fuel, name, args, st);
    case Op(_, lhs, rhs) =>
      FuelMonotoneExpr(fuel, lhs, st);
      var l := EvalExpr(fuel, lhs, st);
      if l.res.Ok? {
        FuelMonotoneExpr(fuel, rhs, l.st);
      }
    case _ =>
  }

  lemma {:induction false} FuelMonotoneCall(fuel: nat, name: string, args: seq<Node>, st: State)
    requires |st.frames| > 0 && EvalCall(fuel, name, args, st).res != Err(OutOfFuel)
    ensures EvalCall(fuel + 1, name, args, st) == EvalCall(fuel, name, args, st)
    decreases fuel, args, 1
  {
    if Lookup(st.frames, name).Some? {
      var callee := Lookup(st.frames, name).value;
      FuelMonotoneArgs(fuel, args, st);
      var a := EvalArgs(fuel, args, st);
      assert EvalArgs(fuel + 1, args, st) == a;
      if a.res.Ok? && callee.Lamda? && |callee.params| <= |a.res.value| {
        var bound := State(BindAll(a.st.frames, callee.params, a.res.value), a.st.out);
        var b := EvalStmts(fuel, callee.body, bound);
        assert EvalCall(fuel + 1, name, args, st) == Outcome(if b.res.Err? then b.res else Ok(Void), b.st);
        if fuel > 0 {
          FuelMonotoneStmts(fuel - 1, callee.body, bound);
          assert EvalCall(fuel, name, args, st) == Outcome(if b.res.Err? then b.res else Ok(Void), b.st);
        }
      } else {
        assert EvalCall(fuel + 1, name, args, st) == EvalCall(fuel, name, args, st);
      }
    }
  }

  lemma {:induction false} FuelMonotoneArgs(fuel: nat, args: seq<Node>, st: State)
    requires |st.frames| > 0 && EvalArgs(fuel, args, st).res != Err(OutOfFuel)
    ensures EvalArgs(fuel + 1, args, st) == EvalArgs(fuel, args, st)
    decreases fuel, args, 0
  {
    if args != [] {
      FuelMonotoneExpr(fuel, args[0], st);
      var first := EvalExpr(fuel, args[0], st);
      if first.res.Ok? {
        FuelMonotoneArgs(fuel, args[1..], first.st);
      }
    }
  }

  lemma {:induction false} FuelMonotoneStmts(fuel: nat, lex: seq<Lex>, st: State)
    requires |st.frames| > 0 && EvalStmts(fuel, lex, st).res != Err(OutOfFuel)
    ensures EvalStmts(fuel + 1, lex, st) == EvalStmts(fuel, lex, st)
    decreases fuel, lex, 0
  {
    if lex != [] {
      FuelMonotoneLine(fuel, lex[0], st);
      var step := EvalLine(fuel, lex[0], st);
      if step.res.Ok? {
        FuelMonotoneStmts(fuel, lex[1..], step.st);
      }
    }
  }

  lemma {:induction false} FuelMonotoneLine(fuel: nat, line: Lex, st: State)
    requires |st.frames| > 0 && EvalLine(fuel, line, st).res != Err(OutOfFuel)
    ensures EvalLine(fuel + 1, line, st) == EvalLine(fuel, line, st)
    decreases fuel, line, 0
  {
    match line
    case DEF(d) => FuelMonotoneExpr(fuel, d.value, st);
    case EXPR(e) => FuelMonotoneExpr(fuel, e, st);
    case RETURN(e) => FuelMonotoneExpr(fuel, e, st);
  }

  /** More fuel, by any amount, never changes an outcome that did not run out of fuel. */
  lemma {:induction false} FuelMonotoneExprLe(fuel: nat, fuel': nat, e: Node, st: State)
    requires |st.frames| > 0 && fuel <= fuel' && EvalExpr(fuel, e, st).res != Err(OutOfFuel)
    ensures EvalExpr(fuel', e, st) == EvalExpr(fuel, e, st)
    decreases fuel' - fuel
  {
    if fuel < fuel' {
      FuelMonotoneExpr(fuel, e, st);
      FuelMonotoneExprLe(fuel + 1, fuel', e, st);
    }
  }

  /** The same for whole statement lists, such as a program run from the prelude. */
  lemma {:induction false} FuelMonotoneStmtsLe(fuel: nat, fuel': nat, lex: seq<Lex>, st: State)
    requires |st.frames| > 0 && fuel <= fuel' && EvalStmts(fuel, lex, st).res != Err(OutOfFuel)
    ensures EvalStmts(fuel', lex, st) == EvalStmts(fuel, lex, st)
    decreases fuel' - fuel
  {
    if fuel < fuel' {
      FuelMonotoneStmts(fuel, lex, st);
      FuelMonotoneStmtsLe(fuel + 1, fuel', lex, st);
    }
  }
}
