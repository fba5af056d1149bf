/** The postfix stack evaluator of cmd/main.go (`evaluatePostfix`): a pure
    specification, one step per character, the imperative method over the
    operand slice, and what the operand count says about underflow. Values are
    exact reals, not float64. */
module Evaluator {
  import opened Common

  /** `a op b` for the operator character `op`. A character outside + - * /
      matches no case of the Go switch and leaves `result` at its zero value. */
  function Apply(op: char, a: real, b: real): Result<real>
  {
    if op == '+' then Ok(a + b)
    else if op == '-' then Ok(a - b)
    else if op == '*' then Ok(a * b)
    else if op == '/' then (if b == 0.0 then Err(DivisionByZero) else Ok(a / b))
    else Ok(0.0)
  }

  /** One iteration of the loop: a digit pushes its value; any other character
      pops `b` (the top) and then `a`, and pushes `a op b`. With fewer than two
      operands Go's `stack[len(stack)-1]` or `stack[len(stack)-2]` panics. */
  function EvalStep(stack: seq<real>, c: char): (r: Result<seq<real>>)
    ensures r.Err? <==> !IsDigit(c) && (|stack| < 2 || (c == '/' && Top(stack) == 0.0))
    ensures r.Err? ==> r.error == if |stack| < 2 then StackUnderflow else DivisionByZero
    ensures r.Ok? && IsDigit(c) ==> r.value == stack + [DigitValue(c) as real]
    ensures r.Ok? && !IsDigit(c) ==>
              |r.value| == |stack| - 1 && Pop(r.value) == stack[..|stack| - 2] &&
              Ok(Top(r.value)) == Apply(c, stack[|stack| - 2], Top(stack))
  {
    if IsDigit(c) then
      Ok(stack + [DigitValue(c) as real])
    else if |stack| < 2 then
      Err(StackUnderflow)
    else
      match Apply(c, stack[|stack| - 2], stack[|stack| - 1])
      case Err(e) => Err(e)
      case Ok(v) => Ok(stack[..|stack| - 2] + [v])
  }

  /** What `evaluatePostfix` returns for `postfix`: the BOTTOM entry of the
      operand stack, whatever is above it, or the panic it hits. */
  function Evaluate(postfix: seq<char>): Result<real>
  {
    match Fold(EvalStep, [], postfix)
    case Err(e) => Err(e)
    case Ok(stack) => if |stack| == 0 then Err(EmptyStack) else Ok(stack[0])
  }

  /** The `switch char` of `evaluatePostfix`, one arithmetic operation. */
  method Operate(c: char, a: real, b: real) returns (r: Result<real>)
    ensures r == Apply(c, a, b)
  {
    var result := 0.0;
    if c == '+' {
      result := a + b;
    } else if c == '-' {
      result := a - b;
    } else if c == '*' {
      result := a * b;
      ApplyMul(a, b);
    } else if c == '/' {
      if b == 0.0 {
        return Err(DivisionByZero);
      }
      result := a / b;
    }
    return Ok(result);
  }

  /** Products need this stated on its own for the verifier to unfold
      `Apply` inside `Operate`. */
  lemma ApplyMul(a: real, b: real)
    ensures Apply('*', a, b) == Ok(a * b)
  {
  }

  /** `evaluatePostfix`, as the loop over the operand slice it is. The
      per-operation timer is not modelled: the arithmetic always runs. */
  method EvaluatePostfix(postfix: seq<char>) returns (r: Result<real>)
    ensures r == Evaluate(postfix)
  {
    var stack: seq<real> := [];
    var i := 0;
    while i < |postfix|
      invariant 0 <= i <= |postfix|
      invariant Fold(EvalStep, [], postfix[..i]) == Ok(stack)
    {
      var c := postfix[i];
      FoldSnoc(EvalStep, [], postfix, i);
      if IsDigit(c) {
        stack := stack + [DigitValue(c) as real];
      } else {
        if |stack| < 2 {
          FoldPrefixErr(EvalStep, [], postfix, i + 1);
          assert postfix[..|postfix|] == postfix;
          return Err(StackUnderflow);
        }
        ghost var before := stack;
        var b := stack[|stack| - 1];
        var a := stack[|stack| - 2];
        stack := stack[..|stack| - 2];
        var result := Operate(c, a, b);
        if result.Err? {
          FoldPrefixErr(EvalStep, [], postfix, i + 1);
          assert postfix[..|postfix|] == postfix;
          return Err(result.error);
        }
        assert EvalStep(before, c) == Ok(stack + [result.value]);
        stack := stack + [result.value];
      }
      i := i + 1;
    }
    assert postfix[..i] == postfix;
    if |stack| == 0 {
      return Err(EmptyStack);
    }
    return Ok(stack[0]);
  }

  /** How many more operands than operators `s` holds: each digit pushes one
      entry and each other character takes one away. */
  function Height(s: seq<char>): int
  {
    2 * |Keep(IsDigit, s)| - |s|
  }

  lemma HeightSnoc(s: seq<char>, i: nat)
    requires i < |s|
    ensures Height(s[..i + 1]) == Height(s[..i]) + (if IsDigit(s[i]) then 1 else -1)
  {
    assert s[..i + 1] == s[..i] + [s[i]];
    KeepAppend(IsDigit, s[..i], [s[i]]);
    assert Keep(IsDigit, [s[i]]) == Keep(IsDigit, []) + (if IsDigit(s[i]) then [s[i]] else []);
  }

  /** A run that does not fail ends with exactly `Height(s)` more operands
      than it started with. */
  lemma {:induction false} EvalHeight(stack: seq<real>, s: seq<char>)
    requires Fold(EvalStep, stack, s).Ok?
    ensures |Fold(EvalStep, stack, s).value| == |stack| + Height(s)
    decreases |s|
  {
    if |s| > 0 {
      var n := |s| - 1;
      assert s[..n] == Pop(s) && s[..n + 1] == s;
      EvalHeight(stack, Pop(s));
      HeightSnoc(s, n);
    }
  }

  /** Stack underflow happens exactly at an operator that comes when the
      operands so far do not outnumber the operators by two: a run that
      underflows has such a position, and a run with such a position fails
      (at it, or at a division by zero before it). */
  lemma {:induction false} UnderflowPosition(stack: seq<real>, s: seq<char>)
    ensures Fold(EvalStep, stack, s) == Err(StackUnderflow) ==>
              exists k :: 0 <= k < |s| && !IsDigit(s[k]) && |stack| + Height(s[..k]) < 2
    ensures (exists k :: 0 <= k < |s| && !IsDigit(s[k]) && |stack| + Height(s[..k]) < 2) ==>
              Fold(EvalStep, stack, s).Err?
    decreases |s|
  {
    if |s| > 0 {
      var n := |s| - 1;
      var p := s[..n];
      assert Pop(s) == p;
      UnderflowPosition(stack, p);
      assert forall k :: 0 <= k < n ==> p[k] == s[k] && p[..k] == s[..k];
      if Fold(EvalStep, stack, p).Ok? {
        EvalHeight(stack, p);
      }
      if Fold(EvalStep, stack, s) == Err(StackUnderflow) {
        if Fold(EvalStep, stack, p).Ok? {
          assert !IsDigit(s[n]) && |stack| + Height(s[..n]) < 2;
        }
      }
      if exists k :: 0 <= k < |s| && !IsDigit(s[k]) && |stack| + Height(s[..k]) < 2 {
        var k :| 0 <= k < |s| && !IsDigit(s[k]) && |stack| + Height(s[..k]) < 2;
        if k == n && Fold(EvalStep, stack, p).Ok? {
          assert s[..k] == p;
        }
      }
    }
  }

  /** The only ways the loop itself fails are underflow and division by zero;
      an empty stack is found only when the result is read. */
  lemma {:induction false} EvalErrors(stack: seq<real>, s: seq<char>)
    ensures Fold(EvalStep, stack, s).Err? ==>
              Fold(EvalStep, stack, s).error in {StackUnderflow, DivisionByZero}
    decreases |s|
  {
    if |s| > 0 {
      EvalErrors(stack, Pop(s));
    }
  }

  /** A well-formed postfix text: every operator finds two operands, and one
      value is left at the end. */
  predicate WellFormedPostfix(s: seq<char>)
  {
    (forall k :: 0 <= k < |s| && !IsDigit(s[k]) ==> Height(s[..k]) >= 2) && Height(s) == 1
  }

  /** On a well-formed postfix text the evaluator neither underflows nor reads
      an empty stack, and the `stack[0]` it returns is the only value left. */
  lemma WellFormedSingleValue(s: seq<char>)
    requires WellFormedPostfix(s)
    ensures Evaluate(s) != Err(StackUnderflow) && Evaluate(s) != Err(EmptyStack)
    ensures Evaluate(s).Ok? ==> Fold(EvalStep, [], s) == Ok([Evaluate(s).value])
  {
    UnderflowPosition([], s);
    EvalErrors([], s);
    if Fold(EvalStep, [], s).Ok? {
      EvalHeight([], s);
      var stack := Fold(EvalStep, [], s).value;
      assert |stack| == 1 && stack == [stack[0]];
    }
  }

  /** Conversely, a run that ends with exactly one value was given
      well-formed postfix text. */
  lemma SingleValueWellFormed(s: seq<char>)
    requires Fold(EvalStep, [], s).Ok? && |Fold(EvalStep, [], s).value| == 1
    ensures WellFormedPostfix(s)
  {
    UnderflowPosition([], s);
    EvalHeight([], s);
  }

  /** The result is the bottom entry, not the only one: "123+" leaves 1 and 5
      on the stack and yields 1. */
  lemma ExampleBottomEntry()
    ensures Evaluate("123+") == Ok(1.0)
  {
    var s := "123+";
    assert s[..0] == [] && s[..4] == s;
    FoldSnoc(EvalStep, [], s, 0);
    assert [] + [1.0] == [1.0];
    assert Fold(EvalStep, [], s[..1]) == Ok([1.0]);
    FoldSnoc(EvalStep, [], s, 1);
    assert [1.0] + [2.0] == [1.0, 2.0];
    assert Fold(EvalStep, [], s[..2]) == Ok([1.0, 2.0]);
    FoldSnoc(EvalStep, [], s, 2);
    assert [1.0, 2.0] + [3.0] == [1.0, 2.0, 3.0];
    assert Fold(EvalStep, [], s[..3]) == Ok([1.0, 2.0, 3.0]);
    FoldSnoc(EvalStep, [], s, 3);
    assert [1.0, 2.0, 3.0][..1] + [5.0] == [1.0, 5.0];
    assert Fold(EvalStep, [], s) == Ok([1.0, 5.0]);
  }
}
