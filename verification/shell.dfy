/**
 `CalculatorBrain` as the object the view controller holds: one mutable
 operand stack, every call delegating to the functions of `Engine`.
 */
module Shell {
  import opened Optional
  import opened Ops
  import opened Serialization
  import Engine

  class CalculatorBrain {
    const numerics: Numerics
    var opStack: seq<Op>

    constructor (numerics: Numerics)
      ensures this.numerics == numerics && opStack == []
    {
      this.numerics := numerics;
      opStack := [];
    }

    function State(): Engine.Brain
      reads this
    {
      Engine.Brain(numerics, opStack)
    }

    method Evaluate() returns (r: Option<real>)
      ensures r == Engine.Result(State())
    {
      r := Engine.Result(State());
    }

    method PushOperand(operand: real) returns (r: Option<real>)
      modifies this
      ensures opStack == old(opStack) + [Operand(operand)]
      ensures r == Some(operand)
    {
      var step := Engine.PushOperand(State(), operand);
      opStack := step.brain.opStack;
      r := step.result;
    }

    method PerformOperation(symbol: string) returns (r: Option<real>)
      modifies this
      ensures Engine.Step(State(), r) == Engine.PerformOperation(old(State()), symbol)
    {
      var step := Engine.PerformOperation(State(), symbol);
      opStack := step.brain.opStack;
      r := step.result;
    }

    function Program(): seq<string>
      reads this
    {
      Engine.Program(State())
    }

    method SetProgram(value: PropertyList)
      modifies this
      ensures State() == Engine.SetProgram(old(State()), value)
    {
      opStack := Engine.SetProgram(State(), value).opStack;
    }
  }
}
