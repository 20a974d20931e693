/**
 The recursive reducer (`evaluate(ops)`): it consumes the postfix program from
 its top (the end of the sequence) and returns the value of the trailing
 expression together with the entries it left unconsumed.
 */
module Reducer {
  import opened Optional
  import opened Ops

  datatype Evaluation = Evaluation(result: Option<real>, remainingOps: seq<Op>)

  /**
   Reduce `ops` from the top. The remainder is always a prefix of the input:
   on failure it is the whole input, operator included; on success it is
   strictly shorter, which is also why the second recursive call of a binary
   operation terminates.
   */
  function Evaluate(ops: seq<Op>): (r: Evaluation)
    ensures |r.remainingOps| <= |ops| && r.remainingOps == ops[..|r.remainingOps|]
    ensures r.result.None? ==> r.remainingOps == ops
    ensures r.result.Some? ==> |r.remainingOps| < |ops|
    ensures ops == [] ==> r.result.None?
    decreases |ops|
  {
    if ops == [] then Evaluation(None, ops)
    else
      var remaining := ops[..|ops| - 1];
      match ops[|ops| - 1]
      case Operand(v) => Evaluation(Some(v), remaining)
      case UnaryOperation(_, f) =>
        var operand := Evaluate(remaining);
        if operand.result.Some? then
          Evaluation(Some(f(operand.result.value)), operand.remainingOps)
        else
          Evaluation(None, ops)
      case BinaryOperation(_, g) =>
        var first := Evaluate(remaining);
        if first.result.Some? then
          var second := Evaluate(first.remainingOps);
          if second.result.Some? then
            Evaluation(Some(g(first.result.value, second.result.value)), second.remainingOps)
          else
            Evaluation(None, ops)
        else
          Evaluation(None, ops)
  }

  /** An arithmetic expression tree: the reference meaning of a postfix program. */
  datatype Expr =
    | Literal(value: real)
    | Unary(symbol: string, f: real -> real, arg: Expr)
    | Binary(symbol: string, g: (real, real) -> real, left: Expr, right: Expr)

  /** The postfix program that builds `e`: operands first, operator last. */
  function Postfix(e: Expr): seq<Op>
  {
    match e
    case Literal(v) => [Operand(v)]
    case Unary(s, f, arg) => Postfix(arg) + [UnaryOperation(s, f)]
    case Binary(s, g, left, right) => Postfix(left) + Postfix(right) + [BinaryOperation(s, g)]
  }

  /**
   The value of `e`. A binary function is handed the right operand (popped
   first) before the left one, as the engine does.
   */
  function Value(e: Expr): real
  {
    match e
    case Literal(v) => v
    case Unary(_, f, arg) => f(Value(arg))
    case Binary(_, g, left, right) => g(Value(right), Value(left))
  }

  /** A program ending in the postfix form of `e` reduces to `e`'s value and leaves exactly what precedes it. */
  lemma {:induction false} EvaluatePostfix(prefix: seq<Op>, e: Expr)
    ensures Evaluate(prefix + Postfix(e)) == Evaluation(Some(Value(e)), prefix)
    decreases e
  {
    var ops := prefix + Postfix(e);
    match e
    case Literal(v) =>
      assert ops[..|ops| - 1] == prefix;
    case Unary(s, f, arg) =>
      assert ops == (prefix + Postfix(arg)) + [UnaryOperation(s, f)];
      assert ops[..|ops| - 1] == prefix + Postfix(arg);
      EvaluatePostfix(prefix, arg);
    case Binary(s, g, left, right) =>
      var middle := prefix + Postfix(left);
      assert ops == (middle + Postfix(right)) + [BinaryOperation(s, g)];
      assert ops[..|ops| - 1] == middle + Postfix(right);
      EvaluatePostfix(middle, right);
      EvaluatePostfix(prefix, left);
  }

  /** Conversely, whenever reduction succeeds, the consumed suffix is the postfix form of a tree with that value. */
  lemma {:induction false} Decompose(ops: seq<Op>) returns (e: Expr)
    requires Evaluate(ops).result.Some?
    ensures ops == Evaluate(ops).remainingOps + Postfix(e)
    ensures Evaluate(ops).result == Some(Value(e))
    decreases |ops|, 1
  {
    var remaining := ops[..|ops| - 1];
    match ops[|ops| - 1] {
      case Operand(v) =>
        e := Literal(v);
        assert ops == remaining + Postfix(e);
        EvaluatePostfix(remaining, e);
      case UnaryOperation(_, _) =>
        e := DecomposeUnary(ops);
      case BinaryOperation(_, _) =>
        e := DecomposeBinary(ops);
    }
  }

  /** The case of `Decompose` where the top entry is a unary operation. */
  lemma {:induction false} DecomposeUnary(ops: seq<Op>) returns (e: Expr)
    requires Evaluate(ops).result.Some? && ops[|ops| - 1].UnaryOperation?
    ensures ops == Evaluate(ops).remainingOps + Postfix(e)
    ensures Evaluate(ops).result == Some(Value(e))
    decreases |ops|, 0
  {
    var remaining := ops[..|ops| - 1];
    var top := ops[|ops| - 1];
    assert Evaluate(remaining).result.Some?;
    var arg := Decompose(remaining);
    e := Unary(top.symbol, top.unary, arg);
    var rest := Evaluate(remaining).remainingOps;
    assert ops == remaining + [top];
    assert ops == rest + Postfix(e);
    EvaluatePostfix(rest, e);
  }

  /** The case of `Decompose` where the top entry is a binary operation. */
  lemma {:induction false} DecomposeBinary(ops: seq<Op>) returns (e: Expr)
    requires Evaluate(ops).result.Some? && ops[|ops| - 1].BinaryOperation?
    ensures ops == Evaluate(ops).remainingOps + Postfix(e)
    ensures Evaluate(ops).result == Some(Value(e))
    decreases |ops|, 0
  {
    var remaining := ops[..|ops| - 1];
    var top := ops[|ops| - 1];
    var first := Evaluate(remaining);
    BinaryOperandsReduce(ops);
    var right := Decompose(remaining);
    var left := Decompose(first.remainingOps);
    e := Binary(top.symbol, top.binary, left, right);
    var rest := Evaluate(first.remainingOps).remainingOps;
    assert ops == rest + Postfix(e) by {
      assert ops == remaining + [top];
      assert remaining == rest + Postfix(left) + Postfix(right);
      assert Postfix(e) == Postfix(left) + Postfix(right) + [top];
    }
    EvaluatePostfix(rest, e);
  }

  /** A successful binary reduction obtained both of its operands. */
  lemma BinaryOperandsReduce(ops: seq<Op>)
    requires Evaluate(ops).result.Some? && ops[|ops| - 1].BinaryOperation?
    ensures Evaluate(ops[..|ops| - 1]).result.Some?
    ensures Evaluate(Evaluate(ops[..|ops| - 1]).remainingOps).result.Some?
  {
  }

  /**
   Reduction succeeds with value `v` leaving `rest` exactly when the input is
   `rest` followed by the postfix form of some expression whose value is `v`.
   */
  lemma EvaluateCharacterisation(ops: seq<Op>, v: real, rest: seq<Op>)
    ensures Evaluate(ops) == Evaluation(Some(v), rest) <==>
            exists e :: ops == rest + Postfix(e) && Value(e) == v
  {
    if Evaluate(ops) == Evaluation(Some(v), rest) {
      var e := Decompose(ops);
      assert ops == rest + Postfix(e) && Value(e) == v;
    }
    if exists e :: ops == rest + Postfix(e) && Value(e) == v {
      var e :| ops == rest + Postfix(e) && Value(e) == v;
      EvaluatePostfix(rest, e);
    }
  }

  /**
   Every non-empty prefix of a postfix form reduces: each entry of a postfix
   program is the last entry of the subexpression rooted at it.
   */
  lemma {:induction false} PostfixPrefixReduces(prefix: seq<Op>, e: Expr, k: nat)
    requires 0 < k <= |Postfix(e)|
    ensures Evaluate(prefix + Postfix(e)[..k]).result.Some?
    decreases e
  {
    if k == |Postfix(e)| {
      assert Postfix(e)[..k] == Postfix(e);
      EvaluatePostfix(prefix, e);
    } else {
      match e
      case Literal(_) =>
        assert false;
      case Unary(s, f, arg) =>
        assert Postfix(e)[..k] == Postfix(arg)[..k];
        PostfixPrefixReduces(prefix, arg, k);
      case Binary(s, g, left, right) =>
        var l := |Postfix(left)|;
        if k <= l {
          assert Postfix(e)[..k] == Postfix(left)[..k];
          PostfixPrefixReduces(prefix, left, k);
        } else {
          assert prefix + Postfix(e)[..k] == (prefix + Postfix(left)) + Postfix(right)[..k - l];
          PostfixPrefixReduces(prefix + Postfix(left), right, k - l);
        }
    }
  }

  /**
   Whatever is pushed on top of `ops`, a reduction that reaches down into
   `ops` implies that `ops` on its own already reduced.
   */
  lemma ReachImpliesReduces(ops: seq<Op>, t: seq<Op>)
    requires Evaluate(ops + t).result.Some?
    requires |Evaluate(ops + t).remainingOps| < |ops|
    ensures Evaluate(ops).result.Some?
  {
    var e := Decompose(ops + t);
    var rest := Evaluate(ops + t).remainingOps;
    assert ops == (ops + t)[..|ops|];
    assert ops == rest + Postfix(e)[..|ops| - |rest|];
    PostfixPrefixReduces(rest, e, |ops| - |rest|);
  }

  /**
   An operator that fails for lack of operands is stranded: whatever is pushed
   after it, it stays in the remainder at its own position.
   */
  lemma StrandedOperator(s: seq<Op>, op: Op, t: seq<Op>)
    requires Evaluate(s + [op]).result.None?
    ensures |Evaluate(s + [op] + t).remainingOps| > |s|
    ensures Evaluate(s + [op] + t).remainingOps[|s|] == op
  {
    var rem := Evaluate(s + [op] + t).remainingOps;
    if |rem| <= |s| {
      ReachImpliesReduces(s + [op], t);
    }
    assert rem[|s|] == (s + [op] + t)[|s|];
  }

  /** Entries below a successfully reduced suffix are never looked at: they end up in the remainder untouched. */
  lemma EvaluateIgnoresPrefix(prefix: seq<Op>, ops: seq<Op>)
    requires Evaluate(ops).result.Some?
    ensures Evaluate(prefix + ops) ==
            Evaluation(Evaluate(ops).result, prefix + Evaluate(ops).remainingOps)
  {
    var e := Decompose(ops);
    var rest := Evaluate(ops).remainingOps;
    assert prefix + ops == (prefix + rest) + Postfix(e);
    EvaluatePostfix(prefix + rest, e);
  }
}
