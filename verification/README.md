# Calculator brain: a verified model of the RPN evaluation engine

This project models `CalculatorBrain`, the engine of a small iOS calculator.
The engine keeps the numbers and operators the user enters as a postfix (Reverse Polish) program.
That program is a stack of `Op` entries: an operand, a unary operation or a binary operation.
The engine re-reduces the whole stack after every `pushOperand` and `performOperation`.

- `Ops` (ops.dfy): the `Op` tagged union and its `description`.
  `Numerics` bundles what the platform supplies: floating-point division and square root, the string interpolation of a `Double`, and `NSNumberFormatter` parsing.
  Each of these is an arbitrary total function, so the model holds for any of them.
- `Registry` (registry.dfy): `knownOps`, the fixed table `×`, `÷`, `+`, `−`, `√`.
- `Reducer` (reducer.dfy): the private recursive `evaluate(ops)`.
  Its reference semantics is an expression tree (`Expr`) with its postfix form (`Postfix`) and its value (`Value`).
  `EvaluateCharacterisation` proves that the reducer succeeds with value v and remainder rest exactly when the input is rest followed by the postfix form of a tree of value v.
- `Serialization` (serialization.dfy): the `program` getter, plus the setter's lenient loop that drops unreadable strings.
- `Engine` (engine.dfy): the brain as an immutable value.
  `pushOperand`, `performOperation` and the `program` setter are functions from one brain to the next.
- `Shell` (shell.dfy): the `CalculatorBrain` class with its single mutable `opStack`, delegating to `Engine`.

Numbers are `real`. `×`, `+` and `−` are exact real arithmetic.

The code appends a known operator to the stack even when the stack lacks operands for it.
The operator then stays at the bottom for good: nothing pushed later is ever reduced into it, and it only ever ends up in the remainder (`Reducer.StrandedOperator`).

## Model

| member | source | states |
|---|---|---|
| Registry.KnownOps | calculator/CalculatorBrain.swift:38-51 | the registry holds exactly the keys ×, ÷, +, −, √; each key is the description of the op stored under it; √ is unary and the other four are binary |
| Registry.DescriptionIsKey | calculator/CalculatorBrain.swift:19-30 | an operation held by the registry has as description the key it is stored under, so looking its description up gives it back |
| Reducer.Evaluate | calculator/CalculatorBrain.swift:84-111 | the remainder is always a prefix of the input; on failure it is the whole input, operator included; on success it is strictly shorter, so a non-empty suffix was consumed; an empty input gives no result |
| Reducer.EvaluatePostfix | calculator/CalculatorBrain.swift:84-111 | a stack ending in the postfix form of an expression reduces to that expression's value, with the binary function given the first-popped value first, and leaves exactly the entries below it |
| Reducer.Decompose | calculator/CalculatorBrain.swift:84-111 | whenever reduction succeeds, the consumed suffix is the postfix form of an expression whose value is the result |
| Reducer.EvaluateCharacterisation | calculator/CalculatorBrain.swift:84-111 | reduction yields value v with remainder rest if and only if the input is rest followed by the postfix form of an expression of value v |
| Reducer.PostfixPrefixReduces | calculator/CalculatorBrain.swift:84-111 | every non-empty prefix of an expression's postfix form, on any stack, reduces to some value |
| Reducer.ReachImpliesReduces | calculator/CalculatorBrain.swift:84-111 | if a reduction of ops followed by more entries consumes into ops, then ops alone reduces successfully |
| Reducer.StrandedOperator | calculator/CalculatorBrain.swift:84-111 | an operator appended to a stack that cannot supply its operands stays in the remainder at its own position whatever is entered after it |
| Reducer.EvaluateIgnoresPrefix | calculator/CalculatorBrain.swift:84-111 | entries below a successfully reduced suffix do not influence the result and are returned untouched in the remainder |
| Serialization.Describe | calculator/CalculatorBrain.swift:55-57 | the program has one string per stack entry, and the i-th string is the description of the i-th entry |
| Serialization.Load | calculator/CalculatorBrain.swift:69-77 | loading never yields more entries than strings, and every operation it yields is the registry's own entry for its symbol |
| Serialization.LoadAppend | calculator/CalculatorBrain.swift:69-77 | strings are loaded independently and in order: loading a concatenation gives the concatenation of the loads |
| Serialization.LoadSkipsUnreadable | calculator/CalculatorBrain.swift:70-77 | a string that is neither a known symbol nor a number is dropped without affecting the entries around it |
| Serialization.LoadReadsOperation | calculator/CalculatorBrain.swift:71-72 | a known symbol contributes exactly its registry entry, at its own position among the loaded entries |
| Serialization.LoadReadsNumber | calculator/CalculatorBrain.swift:74-75 | a string that is not a known symbol but that the formatter reads as v contributes exactly the operand v, at its own position |
| Serialization.LoadDescribe | calculator/CalculatorBrain.swift:55-80 | loading the described stack rebuilds the same stack when every entry is reloadable |
| Engine.PushOperand | calculator/CalculatorBrain.swift:121-124 | appends exactly one operand and changes nothing else; the value reported is the pushed operand |
| Engine.PerformOperation | calculator/CalculatorBrain.swift:126-131 | a known symbol appends its registry entry; an unknown symbol leaves the brain unchanged and reports the result the stack already had; the reported value is the evaluation of the new stack |
| Engine.SetProgram | calculator/CalculatorBrain.swift:67-80 | a value that is not an array of strings is ignored; otherwise the stack is replaced wholesale by the strings' entries in order (as Load, LoadReadsOperation, LoadReadsNumber and LoadSkipsUnreadable describe them), at most one per string, each operation being the registry's own; the numerics are kept |
| Engine.ProgramRoundTrip | calculator/CalculatorBrain.swift:55-80 | setting the program to what the getter returned restores the same stack and hence the same evaluation |
| Engine.PushOperandKeepsSaveable | calculator/CalculatorBrain.swift:121-124 | pushing an operand whose printed form parses back to it keeps the whole stack saveable |
| Engine.PerformOperationKeepsSaveable | calculator/CalculatorBrain.swift:126-131 | performing any symbol keeps the whole stack saveable |
| Engine.BinaryOperandOrder | calculator/CalculatorBrain.swift:43-46 | after pushing x then y onto any stack, − gives x − y, ÷ gives x ÷ y, + gives x + y and × gives x × y |
| Engine.UnaryOperand | calculator/CalculatorBrain.swift:95-98 | after pushing x onto any stack, √ gives the square root of x |
| Engine.ComposedProgram | calculator/CalculatorBrain.swift:121-131 | entering 2, 3, +, 4, × on a fresh brain yields 20 |
| Engine.OperatorOnEmptyStack | calculator/CalculatorBrain.swift:126-131 | an operator entered on a fresh brain yields no result and remains on the stack as the whole remainder |
| Shell.CalculatorBrain.Evaluate | calculator/CalculatorBrain.swift:113-118 | the public evaluate reports the reducer's result for the whole stack and discards the remainder |
| Shell.CalculatorBrain.PushOperand | calculator/CalculatorBrain.swift:121-124 | the object's stack grows by exactly the pushed operand, which is the value returned |
| Shell.CalculatorBrain.PerformOperation | calculator/CalculatorBrain.swift:126-131 | the object's stack and return value follow the engine's performOperation |
| Shell.CalculatorBrain.SetProgram | calculator/CalculatorBrain.swift:67-80 | the object's stack follows the engine's setter |

## Left out

- calculator/ViewController.swift is not part of this model. It holds the display label, the button handlers, the digit-typing state and the mapping of a missing result to 0, all of it presentation code.
- The diagnostic `print` in `evaluate()` is output only and is not modelled.
- IEEE `Double` semantics are not modelled: NaN from the square root of a negative number, infinities from division by zero, and rounding. Division and square root are the arbitrary total functions `Numerics.divide` and `Numerics.squareRoot`. `×`, `+` and `−` are exact.
- `"\(operand)"` formatting and `NSNumberFormatter` parsing are locale-dependent platform calls. They are the parameters `Numerics.format` and `Numerics.parse`.
- Engine.ProgramRoundTrip: holds only under the explicit assumption `Saveable`. For each operand, its printed form must parse back to the same value and must not be an operator symbol. Nothing about the real formatter guarantees this.
- The `AnyObject` cast `as? Array<String>` is the `PropertyList` datatype. Its `Other` case stands for every value that is not an array of strings.
