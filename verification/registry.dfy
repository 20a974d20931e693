/** The table of operations the engine knows (`knownOps`, filled in by `init`). */
module Registry {
  import opened Ops

  const Times := "×"
  const Divide := "÷"
  const Plus := "+"
  const Minus := "−"
  const SquareRoot := "√"

  /**
   The registry. A binary operation receives first the value popped first (the
   one entered later), so `÷` and `−` swap their arguments to compute
   earlier-entered ÷ later-entered and earlier-entered − later-entered.
   */
  function KnownOps(n: Numerics): (m: map<string, Op>)
    ensures m.Keys == {Times, Divide, Plus, Minus, SquareRoot}
    ensures forall s :: s in m ==> Description(m[s], n.format) == s
    ensures m[SquareRoot].UnaryOperation?
    ensures forall s :: s in m && s != SquareRoot ==> m[s].BinaryOperation?
  {
    map[
      Times := BinaryOperation(Times, (a, b) => a * b),
      Divide := BinaryOperation(Divide, (a, b) => n.divide(b, a)),
      Plus := BinaryOperation(Plus, (a, b) => a + b),
      Minus := BinaryOperation(Minus, (a, b) => b - a),
      SquareRoot := UnaryOperation(SquareRoot, n.squareRoot)
    ]
  }

  /** Every operation entry is the registry's own entry for its symbol. */
  ghost predicate FromRegistry(n: Numerics, op: Op)
  {
    op.Operand? || (op.symbol in KnownOps(n) && KnownOps(n)[op.symbol] == op)
  }

  /** An operation from the registry is found again under its own description, the key it was learnt by. */
  lemma DescriptionIsKey(n: Numerics, op: Op)
    requires !op.Operand? && FromRegistry(n, op)
    ensures Description(op, n.format) in KnownOps(n)
    ensures KnownOps(n)[Description(op, n.format)] == op
  {
  }
}
