/**
 The calculator brain as a value: its number handling and its operand stack.
 Each public operation of `CalculatorBrain` is a function from one brain to
 the next together with the result it reports.
 */
module Engine {
  import opened Optional
  import opened Ops
  import opened Registry
  import opened Reducer
  import opened Serialization

  datatype Brain = Brain(numerics: Numerics, opStack: seq<Op>)

  /** What a mutating call leaves behind and what it returns. */
  datatype Step = Step(brain: Brain, result: Option<real>)

  /** A freshly constructed brain: the registry is fixed by `numerics`, the stack is empty. */
  function Init(n: Numerics): Brain
  {
    Brain(n, [])
  }

  /** The public `evaluate()`: the value of the whole stack, the remainder discarded. */
  function Result(b: Brain): Option<real>
  {
    Evaluate(b.opStack).result
  }

  /** `pushOperand`: appends the operand, which is then the top and so the value reported. */
  function PushOperand(b: Brain, operand: real): (r: Step)
    ensures r.brain == Brain(b.numerics, b.opStack + [Operand(operand)])
    ensures r.result == Some(operand)
  {
    var next := b.(opStack := b.opStack + [Operand(operand)]);
    Step(next, Result(next))
  }

  /**
   `performOperation`: a known symbol appends its registry entry; an unknown one
   changes nothing, so the result is the one the stack already had.
   */
  function PerformOperation(b: Brain, symbol: string): (r: Step)
    ensures r.brain.numerics == b.numerics
    ensures symbol in KnownOps(b.numerics) ==>
              r.brain.opStack == b.opStack + [KnownOps(b.numerics)[symbol]]
    ensures symbol !in KnownOps(b.numerics) ==> r.brain == b && r.result == Result(b)
    ensures r.result == Result(r.brain)
  {
    var known := KnownOps(b.numerics);
    var next := if symbol in known then b.(opStack := b.opStack + [known[symbol]]) else b;
    Step(next, Result(next))
  }

  /** The `program` getter. */
  function Program(b: Brain): seq<string>
  {
    Describe(b.opStack, b.numerics.format)
  }

  /**
   The `program` setter: anything but an array of strings is ignored;
   otherwise the stack is replaced wholesale by the loaded entries.
   */
  function SetProgram(b: Brain, value: PropertyList): (r: Brain)
    ensures value.Other? ==> r == b
    ensures value.StringArray? ==> r == Brain(b.numerics, Load(b.numerics, value.symbols))
    // The two clauses below are corollaries of the one above and the contract of Load.
    ensures value.StringArray? ==> |r.opStack| <= |value.symbols|
    ensures value.StringArray? ==> forall i :: 0 <= i < |r.opStack| ==> FromRegistry(b.numerics, r.opStack[i])
  {
    match value
    case StringArray(symbols) => b.(opStack := Load(b.numerics, symbols))
    case Other => b
  }

  /** The stack can be written out and read back: every entry is reloadable. */
  ghost predicate Saveable(b: Brain)
  {
    forall i :: 0 <= i < |b.opStack| ==> Reloadable(b.numerics, b.opStack[i])
  }

  /** Writing the program out and setting it again restores the same stack, hence the same result. */
  lemma ProgramRoundTrip(b: Brain)
    requires Saveable(b)
    ensures SetProgram(b, StringArray(Program(b))) == b
    ensures Result(SetProgram(b, StringArray(Program(b)))) == Result(b)
  {
    LoadDescribe(b.numerics, b.opStack);
  }

  /**
   A brain driven only through its public operations stays saveable, provided
   every operand pushed prints to a string that parses back to it and is not an
   operator symbol.
   */
  lemma PushOperandKeepsSaveable(b: Brain, operand: real)
    requires Saveable(b)
    requires Reloadable(b.numerics, Operand(operand))
    ensures Saveable(PushOperand(b, operand).brain)
  {
  }

  lemma PerformOperationKeepsSaveable(b: Brain, symbol: string)
    requires Saveable(b)
    ensures Saveable(PerformOperation(b, symbol).brain)
  {
  }

  /**
   Binary operations combine the two most recent values in entry order: after
   pushing x then y, `−` gives x − y and `÷` gives x ÷ y, whatever lies below.
   */
  lemma BinaryOperandOrder(b: Brain, x: real, y: real)
    ensures var s := PushOperand(PushOperand(b, x).brain, y).brain;
            && PerformOperation(s, Minus).result == Some(x - y)
            && PerformOperation(s, Divide).result == Some(b.numerics.divide(x, y))
            && PerformOperation(s, Plus).result == Some(x + y)
            && PerformOperation(s, Times).result == Some(x * y)
  {
    var known := KnownOps(b.numerics);
    forall symbol | symbol in {Minus, Divide, Plus, Times}
      ensures PerformOperation(PushOperand(PushOperand(b, x).brain, y).brain, symbol).result
              == Some(known[symbol].binary(y, x))
    {
      var op := known[symbol];
      var e := Binary(op.symbol, op.binary, Literal(x), Literal(y));
      assert b.opStack + [Operand(x)] + [Operand(y)] + [op] == b.opStack + Postfix(e);
      EvaluatePostfix(b.opStack, e);
    }
    assert known[Times].binary(y, x) == y * x == x * y;
  }

  /** A unary operation applies to the value just below it. */
  lemma UnaryOperand(b: Brain, x: real)
    ensures PerformOperation(PushOperand(b, x).brain, SquareRoot).result == Some(b.numerics.squareRoot(x))
  {
  }

  /** Entering 2, 3, +, 4, × on a fresh brain yields (2 + 3) × 4. */
  lemma ComposedProgram(n: Numerics)
    ensures var s1 := PushOperand(Init(n), 2.0).brain;
            var s2 := PushOperand(s1, 3.0).brain;
            var s3 := PerformOperation(s2, Plus).brain;
            var s4 := PushOperand(s3, 4.0).brain;
            PerformOperation(s4, Times).result == Some(20.0)
  {
  }

  /** An operator entered on an empty stack has no operands: no result, and the operator stays on the stack. */
  lemma OperatorOnEmptyStack(n: Numerics, symbol: string)
    requires symbol in KnownOps(n)
    ensures PerformOperation(Init(n), symbol).result == None
    ensures Evaluate(PerformOperation(Init(n), symbol).brain.opStack).remainingOps == [KnownOps(n)[symbol]]
  {
  }
}
