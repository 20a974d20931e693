/**
 Stack entries of the calculator (`CalculatorBrain.Op`) and the platform
 arithmetic they are built from.
 */
module Ops {
  import opened Optional

  /**
   The parts of the platform's number handling the engine relies on but does not
   define itself: floating-point division, `divide(p, q)` being p / q, and square
   root (both total here, so that division by zero and roots of negative numbers
   need no precondition), the
   string interpolation that prints an operand, and the locale-aware number
   formatter that reads one back.
   */
  datatype Numerics = Numerics(
    divide: (real, real) -> real,
    squareRoot: real -> real,
    format: real -> string,
    parse: string -> Option<real>)

  /** One entry of the postfix program: a literal, or a named operation carrying its own function. */
  datatype Op =
    | Operand(value: real)
    | UnaryOperation(symbol: string, unary: real -> real)
    | BinaryOperation(symbol: string, binary: (real, real) -> real)

  /** The text an entry shows: an operand prints its value, an operation its symbol. */
  function Description(op: Op, format: real -> string): string
  {
    match op
    case Operand(v) => format(v)
    case UnaryOperation(symbol, _) => symbol
    case BinaryOperation(symbol, _) => symbol
  }
}
