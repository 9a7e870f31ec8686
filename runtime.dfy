/**
 * The evaluator as the runtime runs it: methods that update one environment
 * object in place and thread the printer's output. Each method is proved to
 * compute what the functions of `Semantics` describe.
 */
module Runtime {
  import opened Lexer
  import opened Values
  import opened Env
  import opened Semantics

  /** The state the prelude leaves: one frame, binding `stdio` to the printer. */
  function PreludeState(): (st: State)
    ensures |st.frames| == 1 && st.out == []
    ensures Lookup(st.frames, "stdio") == Some(Rusty(Stdio))
  {
    State(Bind([map[]], "stdio", Rusty(Stdio)), [])
  }

  /** Registers the printer under the name `stdio` in the top frame. */
  method Prelude(data: Vars)
    requires |data.frames| > 0
    modifies data
    ensures data.frames == Bind(old(data.frames), "stdio", Rusty(Stdio))
  {
    data.Insert("stdio", Rusty(Stdio));
  }

  /** Runs a program in a fresh environment that holds only the prelude. */
  method Start(lex: seq<Lex>, fuel: nat) returns (r: Result<Variable>, out: seq<Variable>)
    ensures r == EvalStmts(fuel, lex, PreludeState()).res
    ensures out == EvalStmts(fuel, lex, PreludeState()).st.out
  {
    var data := new Vars();
    Prelude(data);
    r, out := Run(lex, data, [], fuel);
  }

  /** Runs the statements in order against `data`; success yields `Void`. */
  method Run(lex: seq<Lex>, data: Vars, out: seq<Variable>, fuel: nat)
    returns (r: Result<Variable>, out': seq<Variable>)
    requires |data.frames| > 0
    modifies data
    ensures Outcome(r, State(data.frames, out')) == EvalStmts(fuel, lex, State(old(data.frames), out))
    ensures r.Ok? ==> r.value == Void
    ensures |data.frames| == old(|data.frames|)
    decreases fuel, lex, 0
  {
    ghost var st0 := State(data.frames, out);
    out' := out;
    for i := 0 to |lex|
      invariant |data.frames| > 0
      invariant EvalStmts(fuel, lex, st0) == EvalStmts(fuel, lex[i..], State(data.frames, out'))
    {
      assert lex[i..][0] == lex[i] && lex[i..][1..] == lex[i + 1..];
      match lex[i]
      case DEF(def) =>
        assert def < lex[i];
        var done;
        done, out' := RunDef(def, data, out', fuel);
        if done.Err? {
          return Err(done.error), out';
        }
      case EXPR(expr) =>
        assert expr < lex[i];
        var v;
        v, out' := RunExpr(expr, data, out', fuel);
        if v.Err? {
          return Err(v.error), out';
        }
      case RETURN(expr) =>
        assert expr < lex[i];
        var v;
        v, out' := RunExpr(expr, data, out', fuel);
        if v.Err? {
          return Err(v.error), out';
        }
    }
    assert lex[|lex|..] == [];
    r := Ok(Void);
  }

  /** Evaluates the value of a definition and binds it in the top frame. */
  method RunDef(def: Def, data: Vars, out: seq<Variable>, fuel: nat)
    returns (r: Result<()>, out': seq<Variable>)
    requires |data.frames| > 0
    modifies data
    ensures Outcome(r, State(data.frames, out')) == EvalDef(fuel, def, State(old(data.frames), out))
    decreases fuel, def, 0
  {
    var val;
    val, out' := RunExpr(def.value, data, out, fuel);
    if val.Err? {
      return Err(val.error), out';
    }
    data.Insert(def.name, val.value);
    r := Ok(());
  }

  /** Evaluates one expression against `data`. */
  method RunExpr(expr: Node, data: Vars, out: seq<Variable>, fuel: nat)
    returns (v: Result<Variable>, out': seq<Variable>)
    requires |data.frames| > 0
    modifies data
    ensures Outcome(v, State(data.frames, out')) == EvalExpr(fuel, expr, State(old(data.frames), out))
    ensures |data.frames| == old(|data.frames|)
    ensures data.frames[..|data.frames| - 1] == old(data.frames[..|data.frames| - 1])
    decreases fuel, expr, 0
  {
    out' := out;
    match expr
    case IntLit(n) =>
      v := Ok(Int(n));
    case StrLit(s) =>
      v := Ok(Str(s));
    case LamdaLit(params, body) =>
      v := Ok(Lamda(params, body));
    case VoidLit =>
      v := Ok(Void);
    case Call(name) =>
      var found := data.Get(name);
      v := if found.Some? then Ok(found.value) else Err(UnboundName(name));
    case FcCall(name, args) =>
      v, out' := RunFcCall(name, args, data, out, fuel);
    case Op(joint, lhs, rhs) =>
      var l;
      l, out' := RunExpr(lhs, data, out', fuel);
      if l.Err? {
        return l, out';
      }
      var r;
      r, out' := RunExpr(rhs, data, out', fuel);
      if r.Err? {
        return r, out';
      }
      match joint {
        case Add => v := AddValues(l.value, r.value);
        case Sub => v := Ok(Void);
        case Mult => v := Ok(Void);
        case Div => v := Ok(Void);
      }
  }

  /**
   * A call: the callee is looked up before the arguments are evaluated; a
   * host function receives the argument values, and a lambda has its
   * parameters bound in the current top frame, without pushing one, before
   * its body runs there. The call itself yields `Void`.
   */
  method RunFcCall(name: string, args: seq<Node>, data: Vars, out: seq<Variable>, fuel: nat)
    returns (v: Result<Variable>, out': seq<Variable>)
    requires |data.frames| > 0
    modifies data
    ensures Outcome(v, State(data.frames, out')) ==
      EvalCall(fuel, name, args, State(old(data.frames), out))
    decreases fuel, args, 1
  {
    out' := out;
    var fc := data.Get(name);
    if fc.None? {
      return Err(UnboundName(name)), out';
    }
    var vals;
    vals, out' := CollectArgs(args, data, out', fuel);
    if vals.Err? {
      return Err(vals.error), out';
    }
    match fc.value {
      case Rusty(f) =>
        var printed := CallNative(f, vals.value, out');
        if printed.Err? {
          return Err(printed.error), out';
        }
        out' := printed.value;
        v := Ok(Void);
      case Lamda(params, body) =>
        var bound := BindParams(params, vals.value, data);
        if bound.Err? {
          return Err(bound.error), out';
        }
        if fuel == 0 {
          return Err(OutOfFuel), out';
        }
        var b;
        b, out' := Run(body, data, out', fuel - 1);
        if b.Err? {
          return Err(b.error), out';
        }
        v := Ok(Void);
      case _ =>
        return Err(NotCallable(name)), out';
    }
  }

  /** Evaluates call arguments left to right, each against the state the previous one left. */
  method CollectArgs(args: seq<Node>, data: Vars, out: seq<Variable>, fuel: nat)
    returns (r: Result<seq<Variable>>, out': seq<Variable>)
    requires |data.frames| > 0
    modifies data
    ensures Outcome(r, State(data.frames, out')) == EvalArgs(fuel, args, State(old(data.frames), out))
    decreases fuel, args, 0
  {
    ghost var st0 := State(data.frames, out);
    out' := out;
    var vals: seq<Variable> := [];
    assert args[0..] == args;
    ghost var all := EvalArgs(fuel, args, st0);
    assert all.res.Ok? ==> [] + all.res.value == all.res.value;
    for i := 0 to |args|
      invariant |data.frames| > 0
      invariant EvalArgs(fuel, args, st0) == PrependOk(vals, EvalArgs(fuel, args[i..], State(data.frames, out')))
    {
      assert args[i..][0] == args[i] && args[i..][1..] == args[i + 1..];
      var a;
      a, out' := RunExpr(args[i], data, out', fuel);
      if a.Err? {
        return Err(a.error), out';
      }
      ghost var rest := EvalArgs(fuel, args[i + 1..], State(data.frames, out'));
      assert rest.res.Ok? ==> vals + ([a.value] + rest.res.value) == (vals + [a.value]) + rest.res.value;
      vals := vals + [a.value];
    }
    assert args[|args|..] == [];
    assert vals + [] == vals;
    r := Ok(vals);
  }

  /**
   * Binds each parameter to the argument at its position in the top frame.
   * It fails when an argument is missing, after binding the parameters
   * before it; extra arguments are ignored.
   */
  method BindParams(params: seq<string>, vals: seq<Variable>, data: Vars) returns (r: Result<()>)
    requires |data.frames| > 0
    modifies data
    ensures r.Ok? <==> |params| <= |vals|
    ensures r.Err? ==> r.error == IndexOutOfRange
    ensures r.Ok? ==> data.frames == BindAll(old(data.frames), params, vals)
    ensures r.Err? ==> data.frames == BindAll(old(data.frames), params[..|vals|], vals)
  {
    ghost var frames0 := data.frames;
    for pos := 0 to |params|
      invariant pos <= |vals|
      invariant data.frames == BindAll(frames0, params[..pos], vals)
    {
      if pos >= |vals| {
        return Err(IndexOutOfRange);
      }
      assert params[..pos + 1][..pos] == params[..pos];
      data.Insert(params[pos], vals[pos]);
    }
    assert params[..|params|] == params;
    r := Ok(());
  }
}
