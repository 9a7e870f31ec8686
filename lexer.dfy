/**
 * The shape of the syntax tree the evaluator consumes. The tokenizer and
 * parser that build it are not part of this model; only the constructors the
 * evaluator matches on are declared, and source line numbers (which the
 * evaluator only passes along) are dropped.
 */
module Lexer {

  /** The bounds of a 32-bit signed integer: the least value, and one past the greatest. */
  const I32_MIN: int := -0x8000_0000
  const I32_LIMIT: int := 0x8000_0000

  /** True when `x` fits in 32 signed bits. */
  predicate InI32(x: int) {
    I32_MIN <= x < I32_LIMIT
  }

  /** A 32-bit signed integer, the width of the language's integers. */
  newtype i32 = x: int | I32_MIN <= x < I32_LIMIT

  /** Binary operators. Only `Add` has a meaning; the others evaluate their operands. */
  datatype Joint = Add | Sub | Mult | Div

  /** Expression nodes. */
  datatype Node =
    | IntLit(n: i32)
    | StrLit(s: string)
    | LamdaLit(params: seq<string>, body: seq<Lex>)
    | FcCall(name: string, args: seq<Node>)
    | Call(name: string)
    | VoidLit
    | Op(joint: Joint, lhs: Node, rhs: Node)

  /** A definition `name = value`. */
  datatype Def = Def(name: string, value: Node)

  /** Statements. */
  datatype Lex =
    | DEF(def: Def)
    | EXPR(expr: Node)
    | RETURN(expr: Node)
}
