/** Lambda terms, literal constants, primitive operators and the instructions of
    the SECD-style machine (src/syntax.rs and the uses in src/compiler.rs and
    src/codegen.rs). */
module Syntax {
  import opened Lists

  /** An identifier; equality is equality of its text. */
  type Ident = string

  datatype Expr =
    | Var(x: Ident)
    | Lambda(param: Ident, body: Expr)
    | Apply(fn: Expr, arg: Expr)

  /** Literal constants carried by `Const` instructions. */
  datatype Const = Int(n: int) | String(s: string) | Bool(b: bool)

  /** The built-in operators carried by `Primitive` instructions. */
  datatype Prim = Add | Sub | Mult | Append | Arabic | IsZero

  datatype Instruction =
    | Access(distance: int)
    | Closure(code: List<Instruction>)
    | Return
    | Apply
    | If(thenCode: List<Instruction>, elseCode: List<Instruction>)
    | Const(c: Const)
    | Primitive(op: Prim)
}
