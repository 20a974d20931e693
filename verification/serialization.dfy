/**
 The `program` property: the stack as a list of strings (getter) and the
 lenient rebuild of a stack from such a list (setter).
 */
module Serialization {
  import opened Optional
  import opened Ops
  import opened Registry

  /** The untyped property list the setter receives: an array of strings, or anything else. */
  datatype PropertyList = StringArray(symbols: seq<string>) | Other

  /** The getter: one description per stack entry, bottom of the stack first. */
  function Describe(stack: seq<Op>, format: real -> string): (p: seq<string>)
    ensures |p| == |stack|
    ensures forall i :: 0 <= i < |p| ==> p[i] == Description(stack[i], format)
  {
    if stack == [] then []
    else Describe(stack[..|stack| - 1], format) + [Description(stack[|stack| - 1], format)]
  }

  /** The entry one string contributes: the known operation, else a parsed operand, else nothing. */
  function Entry(n: Numerics, symbol: string): seq<Op>
  {
    if symbol in KnownOps(n) then [KnownOps(n)[symbol]]
    else match n.parse(symbol)
      case Some(v) => [Operand(v)]
      case None => []
  }

  /** The setter's loop: the entries of `symbols`, in order, with unreadable strings dropped. */
  function Load(n: Numerics, symbols: seq<string>): (r: seq<Op>)
    ensures |r| <= |symbols|
    ensures forall i :: 0 <= i < |r| ==> FromRegistry(n, r[i])
  {
    if symbols == [] then []
    else Load(n, symbols[..|symbols| - 1]) + Entry(n, symbols[|symbols| - 1])
  }

  /** Loading is entry by entry: the result for a concatenation is the concatenation of the results. */
  lemma {:induction false} LoadAppend(n: Numerics, a: seq<string>, b: seq<string>)
    ensures Load(n, a + b) == Load(n, a) + Load(n, b)
    decreases |b|
  {
    if b == [] {
      assert a + b == a;
    } else {
      var b' := b[..|b| - 1];
      assert (a + b)[..|a + b| - 1] == a + b';
      assert (a + b)[|a + b| - 1] == b[|b| - 1];
      LoadAppend(n, a, b');
    }
  }

  /** A string that is neither a known symbol nor a number is skipped without affecting its neighbours. */
  lemma LoadSkipsUnreadable(n: Numerics, a: seq<string>, symbol: string, b: seq<string>)
    requires symbol !in KnownOps(n) && n.parse(symbol) == None
    ensures Load(n, a + [symbol] + b) == Load(n, a + b)
  {
    assert Entry(n, symbol) == [];
    assert [symbol][..0] == [];
    assert Load(n, [symbol]) == Load(n, []) + Entry(n, symbol) == [];
    LoadAppend(n, a + [symbol], b);
    LoadAppend(n, a, [symbol]);
    assert Load(n, a + [symbol]) == Load(n, a);
    LoadAppend(n, a, b);
  }

  /** A known symbol contributes its registry entry at its own position. */
  lemma LoadReadsOperation(n: Numerics, a: seq<string>, symbol: string, b: seq<string>)
    requires symbol in KnownOps(n)
    ensures Load(n, a + [symbol] + b) == Load(n, a) + [KnownOps(n)[symbol]] + Load(n, b)
  {
    assert [symbol][..0] == [];
    assert Load(n, [symbol]) == Load(n, []) + Entry(n, symbol) == [KnownOps(n)[symbol]];
    LoadAppend(n, a + [symbol], b);
    LoadAppend(n, a, [symbol]);
  }

  /** Any other string the formatter reads as `v` contributes the operand `v` at its own position. */
  lemma LoadReadsNumber(n: Numerics, a: seq<string>, symbol: string, v: real, b: seq<string>)
    requires symbol !in KnownOps(n) && n.parse(symbol) == Some(v)
    ensures Load(n, a + [symbol] + b) == Load(n, a) + [Operand(v)] + Load(n, b)
  {
    assert [symbol][..0] == [];
    assert Load(n, [symbol]) == Load(n, []) + Entry(n, symbol) == [Operand(v)];
    LoadAppend(n, a + [symbol], b);
    LoadAppend(n, a, [symbol]);
  }

  /**
   An entry survives a write and re-read of the program: an operand whose
   printed form parses back to the same value and is not an operator symbol,
   or an operation that is the registry's own.
   */
  ghost predicate Reloadable(n: Numerics, op: Op)
  {
    match op
    case Operand(v) => n.format(v) !in KnownOps(n) && n.parse(n.format(v)) == Some(v)
    case _ => FromRegistry(n, op)
  }

  /** Reading back the described stack rebuilds it, when every entry is reloadable. */
  lemma {:induction false} LoadDescribe(n: Numerics, stack: seq<Op>)
    requires forall i :: 0 <= i < |stack| ==> Reloadable(n, stack[i])
    ensures Load(n, Describe(stack, n.format)) == stack
    decreases |stack|
  {
    if stack != [] {
      var init := stack[..|stack| - 1];
      var p := Describe(stack, n.format);
      assert p[..|p| - 1] == Describe(init, n.format);
      LoadDescribe(n, init);
      assert stack == init + [stack[|stack| - 1]];
    }
  }
}
