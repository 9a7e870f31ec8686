# tof evaluator in Dafny

This project models the evaluator of the `tof` scripting language (`src/runtime.rs`).

The language has a small syntax tree. Statements are `DEF`, `EXPR` and `RETURN`. Expressions are integer and string literals, lambda literals, calls, name references, `Void` and binary operators. The runtime keeps one environment, `Vars`, which is a stack of frames mapping names to values. Evaluating a program walks the tree and updates that environment in place.

The model has six modules:

- `Lexer` (`lexer.dfy`): the tree shape the evaluator consumes. The `i32` integer type is here.
- `Values` (`values.dfy`): the runtime value `Variable` and the error results. Host functions (`Rusty`) are named by an identifier. The only host function is `Stdio`, the printer.
- `Env` (`env.dfy`):
  - the class `Vars`, with methods `Push`, `Pop`, `Insert` and `Get`;
  - the pure view of a frame stack: `Lookup` (innermost binding first) and `Bind` (write into the top frame).
- `Semantics` (`semantics.dfy`): the evaluator as total functions over a state. The state holds the frames and the printer's output trace. Every abort of the evaluator becomes an `Err` result, and the state reached so far is kept.
- `Runtime` (`runtime.dfy`): the evaluator as the runtime runs it. It is a set of methods that update one `Vars` object in place. Each method is proved to compute exactly what its `Semantics` function says.
- `Properties` (`properties.dfy`): lemmas about the evaluator.

Lambda calls can recurse without limit through lambdas stored in the environment. For that reason every evaluation function and method takes a `fuel` argument. Each lambda call uses one unit. When fuel runs out, the result is the error `OutOfFuel`. The lemmas `FuelMonotone*` prove that fuel only cuts evaluation short. One more unit of fuel never changes an outcome that did not run out of fuel. `FuelMonotoneExprLe` and `FuelMonotoneStmtsLe` extend this to any larger amount.

The errors are as follows. Each replaces a `panic!`, `unwrap` or out-of-bounds index in the source.

| error | raised when |
|---|---|
| `UnboundName` | a name reference or call names something no frame binds |
| `NotCallable` | a call's callee is an integer, a string or `Void` |
| `TypeMismatch` | `+` is applied to anything but two integers or two strings |
| `Overflow` | an integer `+` leaves the 32-bit range |
| `IndexOutOfRange` | a lambda gets fewer arguments than it has parameters, or `stdio` gets no argument |

The model follows the evaluator's code in these points:

- Extra arguments to a lambda are ignored. Only missing arguments fail, and they fail while the parameters are bound one at a time.
- `NotCallable` is raised after the arguments have been evaluated, not when the callee is looked up.
- `-`, `*` and `/` evaluate both operands and yield `Void`. They are not an error.
- A failed evaluation keeps the state reached at the failure. In the source, every one of these conditions aborts the process.

## Model

| member | source | states |
|---|---|---|
| `Env.LookupInnermost` | src/runtime.rs:38-45 | A lookup is absent exactly when no frame binds the name. Otherwise it gives the value from the innermost frame that binds it. |
| `Env.Bind` | src/runtime.rs:33-36 | Writing into the top frame keeps the number of frames and every lower frame. The top frame then maps the written name to the new value, so the name resolves to it. Every other name resolves as before. |
| `Env.Shadowing` | src/runtime.rs:25-45 | With `x = a` in the top frame, push and then bind `x = b`: `x` resolves to `b`. Dropping the pushed frame gives back exactly the earlier frames, where `x` resolves to `a`. |
| `Env.Vars.constructor` | src/runtime.rs:19-23 | A new environment has exactly one frame, and that frame is empty. |
| `Env.Vars.Push` | src/runtime.rs:25-27 | Appends one empty frame at the back. |
| `Env.Vars.Pop` | src/runtime.rs:29-31 | Removes the back frame. On an empty stack it changes nothing. |
| `Env.Vars.Insert` | src/runtime.rs:33-36 | Only the top frame changes, and it gains `id := data`. The frame count and the lower frames stay the same, and `id` then resolves to `data`. |
| `Env.Vars.Get` | src/runtime.rs:38-45 | The reverse scan returns the innermost binding, or `None`. There is no modifies clause, so the environment is unchanged. |
| `Env.ShadowingScenario` | src/runtime.rs:25-45 | The shadowing sequence run on a `Vars` object: the inner lookup sees `b`, the outer one sees `a`, and the frames end as they were after the first binding. |
| `Semantics.AddValues` | src/runtime.rs:144-159 | Addition succeeds exactly for two integers whose sum fits in `i32`, or for two strings. It gives the integer sum or the concatenation `lhs + rhs`. Any other pairing is `TypeMismatch`, and an out-of-range sum is `Overflow`. |
| `Semantics.CallNative` | src/runtime.rs:57-60 | The printer succeeds exactly when it has an argument. It then appends the first argument to the output trace. |
| `Semantics.BindAll` | src/runtime.rs:114-116 | Binding the parameters keeps the frame count and every frame below the top. |
| `Semantics.BindAllLookup` | src/runtime.rs:114-116 | After binding, each parameter resolves to the argument at its last position in the parameter list. Names that are not parameters resolve as before. |
| `Semantics.EvalStmts` | src/runtime.rs:64-80 | A statement list yields `Void` when it succeeds. It keeps the frame count and the lower frames, and only appends output. What each statement does is stated by `Properties.DefStatement`, `Properties.ExprStatement` and `Properties.ReturnActsAsExpr`, with `Properties.StatementsInOrder` for the order. |
| `Semantics.EvalLine` | src/runtime.rs:66-77 | One statement keeps the frame count and the lower frames, and only appends output. Through a list, a `DEF` line is `EvalDef` (`Properties.DefStatement`), and an `EXPR` or `RETURN` line is `EvalExpr` with the value dropped (`Properties.ExprStatement`, `Properties.ReturnActsAsExpr`). |
| `Semantics.EvalDef` | src/runtime.rs:82-85 | A definition succeeds exactly when its value does, and its output is the value's output. On failure the state is the one the value left. On success the name is bound in the top frame and resolves to the value, and every other name resolves as it did after the value was evaluated. |
| `Semantics.EvalExpr` | src/runtime.rs:87-167 | No expression adds or removes a frame or changes a lower frame. A call expression yields `Void`. |
| `Semantics.EvalCall` | src/runtime.rs:94-124 | A call keeps the frame count and the lower frames, and yields `Void` when it succeeds. |
| `Semantics.EvalArgs` | src/runtime.rs:97-108 | Evaluating the arguments gives one value per argument, and keeps the frame count and the lower frames. Which value each argument gets is stated by `Properties.ArgumentOne` and `Properties.ArgumentsInOrder`: each argument is evaluated left to right from the state the previous one left. |
| `Runtime.PreludeState` | src/runtime.rs:54-62 | After the prelude there is one frame, `stdio` is bound to the printer, and no output has been written. |
| `Runtime.Prelude` | src/runtime.rs:54-62 | Binds `stdio` to the printer in the top frame. |
| `Runtime.Start` | src/runtime.rs:48-52 | Running a program gives the result and output that `Semantics.EvalStmts` gives from the prelude state. |
| `Runtime.Run` | src/runtime.rs:64-80 | The statement loop computes `Semantics.EvalStmts` on the object's frames. It yields `Void` on success and keeps the frame count. |
| `Runtime.RunDef` | src/runtime.rs:82-85 | Evaluates the value, then inserts it under the name. The result equals `Semantics.EvalDef`. |
| `Runtime.RunExpr` | src/runtime.rs:87-167 | Computes `Semantics.EvalExpr` on the object's frames. It keeps the frame count and every lower frame. |
| `Runtime.RunFcCall` | src/runtime.rs:94-124 | Looks the callee up, collects the arguments, then calls the printer or binds and runs the lambda. The result equals `Semantics.EvalCall`. |
| `Runtime.CollectArgs` | src/runtime.rs:97-108 | The argument loop computes `Semantics.EvalArgs`. |
| `Runtime.BindParams` | src/runtime.rs:113-116 | Succeeds exactly when there are at least as many arguments as parameters. The frames are then `BindAll` of the parameters. On failure, only the parameters that had an argument are bound. |
| `Properties.StatementsInOrder` | src/runtime.rs:64-80 | Running `a + b` runs `a`, and then runs `b` from the state `a` left, but only if `a` succeeded. |
| `Properties.ArgumentsInOrder` | src/runtime.rs:97-108 | Evaluating the arguments `a + b` evaluates `a`, and evaluates `b` from the state `a` left only if `a` succeeded. The values of `a` come first, followed by those of `b`. |
| `Properties.ArgumentOne` | src/runtime.rs:97-108 | A single argument evaluates its expression: the value list is that expression's value, in the state it left, or its error. |
| `Properties.DefStatement` | src/runtime.rs:66-70 | A `DEF` at the head of a list evaluates the value and binds it under the name, exactly as `EvalDef` does. The rest of the list runs from the state it left only if it succeeded; otherwise its error ends the list. |
| `Properties.ExprStatement` | src/runtime.rs:71-73 | An `EXPR` at the head of a list evaluates the expression and drops its value. The rest runs from the state it left only if it succeeded; otherwise its error ends the list. |
| `Properties.ReturnActsAsExpr` | src/runtime.rs:71-76 | Replacing a `RETURN e` by `EXPR e` anywhere in a statement list changes nothing. |
| `Properties.LiteralsAreValues` | src/runtime.rs:91-93 | Integer, string, `Void` and lambda literals evaluate to the matching value, with the same parameters and body, and leave the state alone. |
| `Properties.CallReadsInnermost` | src/runtime.rs:125-127 | A name reference gives the innermost binding and leaves the state alone. It fails with `UnboundName` exactly when no frame binds the name. |
| `Properties.CallFreeLeavesState` | src/runtime.rs:87-167 | An expression that contains no call leaves the state unchanged. |
| `Properties.AddEvaluatesBoth` | src/runtime.rs:129-159 | `+` evaluates the left operand, then the right one from the state the left one left, and adds the two values. |
| `Properties.UnsupportedOperatorsYieldVoid` | src/runtime.rs:160-162 | `-`, `*` and `/` succeed exactly when both operands do. They yield `Void` and leave the same state as `+`. |
| `Properties.AdditionExamples` | src/runtime.rs:145-158 | `2 + 3` gives 5 and `"a" + "b"` gives `"ab"`. `2 + "b"` is `TypeMismatch`, and `2147483647 + 1` is `Overflow`. |
| `Properties.UnboundCallee` | src/runtime.rs:95-96 | A call whose callee no frame binds fails with `UnboundName` before any argument runs, and the state is unchanged. |
| `Properties.NativeCall` | src/runtime.rs:109-112 | From any state, a call to the printer evaluates the arguments first. It then appends the first value to the output, keeps the frames the arguments left and yields `Void`. With no argument it fails with `IndexOutOfRange`. |
| `Properties.NotCallableAfterArguments` | src/runtime.rs:109-122 | An integer, string or `Void` callee fails with `NotCallable`, after the arguments have been evaluated. |
| `Properties.TooFewArguments` | src/runtime.rs:113-116 | A lambda called with fewer arguments than parameters fails with `IndexOutOfRange`. The parameters that had an argument are already bound. |
| `Properties.LamdaCallIsFlat` | src/runtime.rs:94-119 | A lambda call pushes no frame and binds each parameter to its argument in the caller's top frame. It runs the body there and yields `Void`. |
| `Properties.FlatMutationExample` | src/runtime.rs:113-119 | With `a = 10` in the caller's frame, calling `f(4)` for `f = (a) { a = a + 1 }` leaves `a = 5` in that frame. |
| `Properties.CalleeResolvedFirstExample` | src/runtime.rs:95-108 | The callee is taken from the environment before the arguments run. An argument that rebinds the callee's name to an integer does not stop the call. |
| `Properties.StdioPrintsArgument` | src/runtime.rs:54-62 | After the prelude, `stdio("hi")` appends `"hi"` to the output and yields `Void`. |
| `Properties.StdioNeedsArgument` | src/runtime.rs:57-58 | After the prelude, `stdio()` fails with `IndexOutOfRange`. |
| `Properties.FuelMonotoneExpr` | src/runtime.rs:87-167 | With one more unit of fuel, an expression that did not run out of fuel has the same outcome. |
| `Properties.FuelMonotoneCall` | src/runtime.rs:94-124 | The same for calls. |
| `Properties.FuelMonotoneArgs` | src/runtime.rs:97-108 | The same for argument lists. |
| `Properties.FuelMonotoneStmts` | src/runtime.rs:64-80 | The same for statement lists. |
| `Properties.FuelMonotoneLine` | src/runtime.rs:66-77 | The same for single statements. |
| `Properties.FuelMonotoneExprLe` | src/runtime.rs:87-167 | With any amount of fuel at least as large, an expression that did not run out of fuel has the same outcome. |
| `Properties.FuelMonotoneStmtsLe` | src/runtime.rs:64-80 | The same for statement lists. |

## Left out

- `src/main.rs`, the command line and the interactive loop, is I/O only. The `Runtime` type and `eval` signature it calls are not part of this model.
- The tokenizer and parser are not part of this model. Source line numbers are dropped, because the evaluator only passes them along.
- The printer's debug formatting and console write are not modelled. A `stdio` call instead appends its first argument to an output trace that the evaluator threads through.
- Host functions are named by an identifier. Arbitrary Rust function pointers are not modelled, and `Stdio` is the only one.
- Copying the whole environment before a call (`data.clone()`) is not modelled. Only its effect is: the callee is looked up before the arguments are evaluated.
- Unbounded recursion is not modelled. The `fuel` bound with the `OutOfFuel` error stands in for the source's unbounded recursion, which would exhaust the stack.
- Process aborts are not modelled. A panic in the source ends the process, while the model returns an error with the state reached so far.
- Env.Vars.Insert: requires at least one frame, instead of modelling the `unwrap` panic on an empty stack. Only `Pop` on the last frame can empty the stack, and the evaluator never pops.
- Semantics.AddValues: an out-of-range integer sum is the error `Overflow`. That matches a debug build, which panics. It does not model the silent wrap-around of a release build.
