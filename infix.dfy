/** End-to-end meaning of the expression engine of cmd/main.go. An expression
    of the usual grammar (single digits, + - * /, parentheses) is a tree whose
    text is `Show`; on such a text `infixToPostfix` produces the tree's postfix
    form, and `evaluatePostfix` on that computes the tree's standard value, with
    '*' and '/' binding tighter than '+' and '-' and operators of equal rank
    grouping to the left. */
module Infix {
  import opened Common
  import opened Converter
  import opened Evaluator

  datatype Op = Add | Sub | Mul | Div

  type Digit = d: int | 0 <= d <= 9

  datatype Expr =
    | Num(d: Digit)
    | Bin(op: Op, l: Expr, r: Expr)
    | Paren(e: Expr)

  function OpChar(op: Op): (c: char)
    ensures IsOperator(c)
  {
    match op
    case Add => '+'
    case Sub => '-'
    case Mul => '*'
    case Div => '/'
  }

  function DigitChar(d: Digit): (c: char)
    ensures IsDigit(c) && DigitValue(c) == d
  {
    ('0' as int + d) as char
  }

  /** The infix text of an expression. */
  function Show(e: Expr): seq<char>
  {
    match e
    case Num(d) => [DigitChar(d)]
    case Bin(op, l, r) => Show(l) + [OpChar(op)] + Show(r)
    case Paren(x) => ['('] + Show(x) + [')']
  }

  /** The postfix text of an expression: operands first, then the operator. */
  function Postfix(e: Expr): seq<char>
  {
    match e
    case Num(d) => [DigitChar(d)]
    case Bin(op, l, r) => Postfix(l) + Postfix(r) + [OpChar(op)]
    case Paren(x) => Postfix(x)
  }

  /** Exact arithmetic on the tree's operators. */
  function Arith(op: Op, a: real, b: real): Result<real>
  {
    match op
    case Add => Ok(a + b)
    case Sub => Ok(a - b)
    case Mul => Ok(a * b)
    case Div => if b == 0.0 then Err(DivisionByZero) else Ok(a / b)
  }

  /** The value of an expression tree, left operand first. */
  function Value(e: Expr): Result<real>
  {
    match e
    case Num(d) => Ok(d as real)
    case Paren(x) => Value(x)
    case Bin(op, l, r) =>
      match Value(l)
      case Err(err) => Err(err)
      case Ok(a) =>
        match Value(r)
        case Err(err) => Err(err)
        case Ok(b) => Arith(op, a, b)
  }

  /** The rank of the loosest operator at the top of `e`; a digit or a
      parenthesised group binds tighter than any operator. */
  function TopPrec(e: Expr): int
  {
    match e
    case Bin(op, _, _) => Precedence(OpChar(op))
    case _ => 3
  }

  /** The tree is the one the usual grammar gives its text: a left operand
      binds at least as tightly as the operator, a right operand strictly
      more tightly (so equal ranks group to the left). */
  predicate WellFormed(e: Expr)
  {
    match e
    case Num(_) => true
    case Paren(x) => WellFormed(x)
    case Bin(op, l, r) =>
      WellFormed(l) && WellFormed(r) &&
      TopPrec(l) >= Precedence(OpChar(op)) && TopPrec(r) > Precedence(OpChar(op))
  }

  /** What the converter has emitted after reading `Show(e)`. */
  function Emitted(e: Expr): seq<char>
  {
    match e
    case Num(d) => [DigitChar(d)]
    case Paren(x) => Postfix(x)
    case Bin(_, l, r) => Postfix(l) + Emitted(r)
  }

  /** The operators of `e` still waiting on the stack after reading `Show(e)`,
      bottom first: the right spine of the tree. */
  function Pending(e: Expr): seq<char>
  {
    match e
    case Bin(op, _, r) => [OpChar(op)] + Pending(r)
    case _ => []
  }

  /** The waiting operators are operators that rank at least `TopPrec(e)`. */
  lemma {:induction false} PendingRanks(e: Expr)
    requires WellFormed(e)
    ensures forall t <- Pending(e) :: IsOperator(t) && TopPrec(e) <= Precedence(t)
  {
    match e
    case Num(_) =>
    case Paren(_) =>
    case Bin(op, l, r) =>
      PendingRanks(r);
  }

  /** Emitting the waiting operators completes the postfix text. */
  lemma {:induction false} PendingCompletes(e: Expr)
    ensures Emitted(e) + Rev(Pending(e)) == Postfix(e)
  {
    match e
    case Num(_) =>
    case Paren(_) =>
    case Bin(op, l, r) =>
      PendingCompletes(r);
      RevAppend([OpChar(op)], Pending(r));
      assert Rev([OpChar(op)]) == [OpChar(op)];
  }

  /** Everything waiting ranks at least as high as a `c` that ranks no higher
      than `e`'s loosest operator; in particular nothing waiting is a '('. */
  lemma PendingAbove(e: Expr, c: char)
    requires WellFormed(e) && Precedence(c) <= TopPrec(e)
    ensures forall x <- Pending(e) :: Precedence(c) <= Precedence(x) && x != '('
  {
    PendingRanks(e);
  }

  lemma FlushPending(e: Expr, out: seq<char>)
    ensures (out + Emitted(e)) + Rev(Pending(e)) == out + Postfix(e)
  {
    PendingCompletes(e);
  }

  /** An operator pops exactly the part `t` above a stack `st` whose top
      ranks below it, when all of `t` ranks at least as high. */
  lemma {:induction false} PopExactly(out: seq<char>, st: seq<char>, t: seq<char>, c: char)
    requires forall x <- t :: Precedence(c) <= Precedence(x)
    requires |st| == 0 || Precedence(Top(st)) < Precedence(c)
    ensures PopHigher(State(out, st + t), c) == State(out + Rev(t), st)
    decreases |t|
  {
    if |t| == 0 {
      assert st + t == st;
    } else {
      assert Pop(st + t) == st + Pop(t) && Top(st + t) == Top(t);
      assert Top(t) in t;
      assert forall x <- Pop(t) :: x in t;
      PopExactly(out + [Top(t)], st, Pop(t), c);
    }
  }

  /** A ')' pops exactly the '('-free part `t` above the '(' on `st`. */
  lemma {:induction false} PopToMatching(out: seq<char>, st: seq<char>, t: seq<char>)
    requires forall x <- t :: x != '('
    ensures PopToOpen(State(out, st + ['('] + t)) == State(out + Rev(t), st + ['('])
    decreases |t|
  {
    if |t| == 0 {
      assert st + ['('] + t == st + ['('];
    } else {
      assert Pop(st + ['('] + t) == st + ['('] + Pop(t) && Top(st + ['('] + t) == Top(t);
      assert Top(t) in t;
      assert forall x <- Pop(t) :: x in t;
      PopToMatching(out + [Top(t)], st, Pop(t));
    }
  }

  /** Reading `a` and then `b` is reading `b` from where `a` left off. */
  lemma RunConcat(st: State, a: seq<char>, b: seq<char>, s1: State)
    requires Run(st, a) == Ok(s1)
    ensures Run(st, a + b) == Run(s1, b)
  {
    FoldAppend(Step, st, a, b);
  }

  /** Reading one more character is one more step. */
  lemma RunSnoc(st: State, a: seq<char>, c: char, s1: State)
    requires Run(st, a) == Ok(s1)
    ensures Run(st, a + [c]) == Step(s1, c)
  {
    assert Pop(a + [c]) == a && Top(a + [c]) == c;
  }

  /** Reading the text of a well-formed `e` on top of a stack whose top ranks
      below `e`'s loosest operator emits `Emitted(e)` and leaves exactly
      `Pending(e)` above the stack. */
  lemma {:induction false} RunShow(e: Expr, out: seq<char>, st: seq<char>)
    requires WellFormed(e)
    requires |st| == 0 || Precedence(Top(st)) < TopPrec(e)
    ensures Run(State(out, st), Show(e)) == Ok(State(out + Emitted(e), st + Pending(e)))
    decreases e, 1
  {
    match e
    case Num(d) =>
      RunSnoc(State(out, st), [], DigitChar(d), State(out, st));
      assert [] + [DigitChar(d)] == Show(e);
      assert st + Pending(e) == st;
    case Paren(x) =>
      RunParen(x, out, st);
      assert st + Pending(e) == st;
    case Bin(op, l, r) =>
      RunBin(op, l, r, out, st);
      assert out + Emitted(e) == out + Postfix(l) + Emitted(r);
  }

  /** A ')' pops the '('-free part `t` above the '(' and drops the '('. */
  lemma CloseStep(out: seq<char>, st: seq<char>, t: seq<char>, done: seq<char>)
    requires forall x <- t :: x != '('
    requires done == out + Rev(t)
    ensures Step(State(out, st + ['('] + t), ')') == Ok(State(done, st))
  {
    PopToMatching(out, st, t);
    assert Pop(st + ['(']) == st;
  }

  /** The ')' after a well-formed group completes the group's postfix text
      and drops its '('. */
  lemma CloseGroup(x: Expr, out: seq<char>, st: seq<char>)
    requires WellFormed(x)
    ensures Step(State(out + Emitted(x), st + ['('] + Pending(x)), ')') == Ok(State(out + Postfix(x), st))
  {
    PendingAbove(x, '(');
    FlushPending(x, out);
    CloseStep(out + Emitted(x), st, Pending(x), out + Postfix(x));
  }

  lemma {:induction false} RunParen(x: Expr, out: seq<char>, st: seq<char>)
    requires WellFormed(x)
    ensures Run(State(out, st), Show(Paren(x))) == Ok(State(out + Postfix(x), st))
    decreases Paren(x), 0
  {
    var s0 := State(out, st);
    var open := State(out, st + ['(']);
    var mid := State(out + Emitted(x), st + ['('] + Pending(x));
    RunSnoc(s0, [], '(', s0);
    assert [] + ['('] == ['('];
    RunShow(x, out, st + ['(']);
    RunConcat(s0, ['('], Show(x), open);
    CloseGroup(x, out, st);
    RunSnoc(s0, ['('] + Show(x), ')', mid);
  }

  /** An operator pops the part `t` above a lower-ranked stack and is pushed. */
  lemma OperatorStep(out: seq<char>, st: seq<char>, t: seq<char>, c: char, done: seq<char>)
    requires IsOperator(c) && forall x <- t :: Precedence(c) <= Precedence(x)
    requires |st| == 0 || Precedence(Top(st)) < Precedence(c)
    requires done == out + Rev(t)
    ensures Step(State(out, st + t), c) == Ok(State(done, st + [c]))
  {
    PopExactly(out, st, t, c);
  }

  /** The operator after a well-formed left operand completes the operand's
      postfix text and is pushed. */
  lemma OperatorAfter(op: Op, l: Expr, out: seq<char>, st: seq<char>)
    requires WellFormed(l) && TopPrec(l) >= Precedence(OpChar(op))
    requires |st| == 0 || Precedence(Top(st)) < Precedence(OpChar(op))
    ensures Step(State(out + Emitted(l), st + Pending(l)), OpChar(op)) ==
            Ok(State(out + Postfix(l), st + [OpChar(op)]))
  {
    var c := OpChar(op);
    PendingAbove(l, c);
    FlushPending(l, out);
    OperatorStep(out + Emitted(l), st, Pending(l), c, out + Postfix(l));
  }

  lemma {:induction false} RunBin(op: Op, l: Expr, r: Expr, out: seq<char>, st: seq<char>)
    requires WellFormed(Bin(op, l, r))
    requires |st| == 0 || Precedence(Top(st)) < TopPrec(Bin(op, l, r))
    ensures Run(State(out, st), Show(Bin(op, l, r))) ==
            Ok(State(out + Postfix(l) + Emitted(r), st + ([OpChar(op)] + Pending(r))))
    decreases Bin(op, l, r), 0
  {
    var c := OpChar(op);
    RunShow(l, out, st);
    OperatorAfter(op, l, out, st);
    RunSnoc(State(out, st), Show(l), c, State(out + Emitted(l), st + Pending(l)));
    RunShow(r, out + Postfix(l), st + [c]);
    RunConcat(State(out, st), Show(l) + [c], Show(r), State(out + Postfix(l), st + [c]));
    assert st + [c] + Pending(r) == st + ([c] + Pending(r));
  }

  lemma ApplyArith(op: Op, a: real, b: real)
    ensures Apply(OpChar(op), a, b) == Arith(op, a, b)
  {
    match op
    case Add =>
    case Sub =>
    case Mul => assert Apply('*', a, b) == Ok(a * b);
    case Div =>
  }

  /** Evaluating the postfix text of any tree on top of `stack` pushes the
      tree's value, or stops with the error the value has. */
  lemma {:induction false} EvalPostfix(e: Expr, stack: seq<real>)
    ensures Fold(EvalStep, stack, Postfix(e)) ==
            match Value(e)
            case Err(err) => Err(err)
            case Ok(v) => Ok(stack + [v])
    decreases e
  {
    match e
    case Num(d) =>
      assert Pop([DigitChar(d)]) == [];
    case Paren(x) =>
      EvalPostfix(x, stack);
    case Bin(op, l, r) =>
      var c := OpChar(op);
      FoldAppend(EvalStep, stack, Postfix(l) + Postfix(r), [c]);
      FoldAppend(EvalStep, stack, Postfix(l), Postfix(r));
      EvalPostfix(l, stack);
      if Value(l).Ok? {
        var a := Value(l).value;
        EvalPostfix(r, stack + [a]);
        assert Pop([c]) == [];
        if Value(r).Ok? {
          var b := Value(r).value;
          var both := stack + [a] + [b];
          ApplyArith(op, a, b);
          assert both[..|both| - 2] == stack;
          assert both[|both| - 2] == a && Top(both) == b;
        }
      }
  }

  /** The whole pipeline on the text of a well-formed tree: conversion gives
      the tree's postfix form and evaluation the tree's value. */
  lemma EndToEnd(e: Expr)
    requires WellFormed(e)
    ensures Convert(Show(e)) == Ok(Postfix(e))
    ensures Evaluate(Postfix(e)) == Value(e)
  {
    RunShow(e, [], []);
    PendingCompletes(e);
    assert [] + Emitted(e) == Emitted(e) && [] + Pending(e) == Pending(e);
    assert Run(State([], []), Show(e)) == Ok(State(Emitted(e), Pending(e)));
    EvalPostfix(e, []);
  }

  /** "3+4*2" converts to "342*+", which evaluates to 11. */
  lemma ExamplePrecedence()
    ensures Convert("3+4*2") == Ok("342*+")
    ensures Evaluate("342*+") == Ok(11.0)
  {
    var e := Bin(Add, Num(3), Bin(Mul, Num(4), Num(2)));
    assert Show(e) == "3+4*2";
    assert Postfix(e) == "342*+";
    EndToEnd(e);
  }

  /** "(3+4)*2" converts to "34+2*", which evaluates to 14. */
  lemma ExampleGrouping()
    ensures Convert("(3+4)*2") == Ok("34+2*")
    ensures Evaluate("34+2*") == Ok(14.0)
  {
    var e := Bin(Mul, Paren(Bin(Add, Num(3), Num(4))), Num(2));
    assert Show(e) == "(3+4)*2";
    assert Postfix(e) == "34+2*";
    EndToEnd(e);
  }

  /** "8-3-1" groups to the left: "83-1-", which evaluates to 4. */
  lemma ExampleLeftAssociative()
    ensures Convert("8-3-1") == Ok("83-1-")
    ensures Evaluate("83-1-") == Ok(4.0)
  {
    var e := Bin(Sub, Bin(Sub, Num(8), Num(3)), Num(1));
    assert Show(e) == "8-3-1";
    assert Postfix(e) == "83-1-";
    EndToEnd(e);
  }

  /** An unclosed '(' is not an error for the converter: it is emitted last,
      "(3+4" becoming "34+(". */
  lemma ExampleUnclosed()
    ensures Convert("(3+4") == Ok("34+(")
  {
    ReadUnclosed();
    assert Flush(State("34", "(+")) == "34+(";
  }

  lemma ReadUnclosed()
    ensures Run(State([], []), "(3+4") == Ok(State("34", "(+"))
  {
    var e := Bin(Add, Num(3), Num(4));
    RunSnoc(State([], []), [], '(', State([], []));
    assert [] + ['('] == ['('];
    RunShow(e, [], ['(']);
    RunConcat(State([], []), ['('], Show(e), State([], ['(']));
    assert ['('] + Show(e) == "(3+4";
    assert Emitted(e) == "34" && Pending(e) == "+";
    assert [] + Emitted(e) == "34" && ['('] + Pending(e) == "(+";
  }

  /** The evaluator then finds one operand for the operator '(' and
      underflows. */
  lemma ExampleUnclosedUnderflows()
    ensures Evaluate("34+(") == Err(StackUnderflow)
  {
    var e := Bin(Add, Num(3), Num(4));
    EvalPostfix(e, []);
    FoldAppend(EvalStep, [], Postfix(e), ['(']);
    assert "34+(" == Postfix(e) + ['('];
    assert Pop(['(']) == [];
  }
}
