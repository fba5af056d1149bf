/** Character classes, operator precedence, the error and result types, and the
    left-to-right fold that both stack machines of cmd/main.go are built on. */
module Common {

  /** The ways one evaluation request can go wrong. In the Go program the first
      three are run-time panics (a slice bound or index out of range); the fourth
      stands in for the IEEE-754 infinity or NaN that float64 division by zero
      gives. */
  datatype Error =
    | UnmatchedClose   // a ')' finds no '(' on the operator stack
    | StackUnderflow   // an operator finds fewer than two operands
    | EmptyStack       // the operand stack is empty when the result is read
    | DivisionByZero

  datatype Result<T> = Ok(value: T) | Err(error: Error)

  /** An ASCII digit: the only operand the program knows. */
  predicate IsDigit(c: char) { '0' <= c <= '9' }

  predicate IsOperator(c: char) { c == '+' || c == '-' || c == '*' || c == '/' }

  predicate IsParen(c: char) { c == '(' || c == ')' }

  predicate IsNotParen(c: char) { !IsParen(c) }

  /** The characters an infix expression is meant to be written in. */
  predicate InAlphabet(c: char) { IsDigit(c) || IsOperator(c) || IsParen(c) }

  /** The number a single digit stands for (strconv.ParseFloat of one digit). */
  function DigitValue(c: char): (v: int)
    requires IsDigit(c)
    ensures 0 <= v <= 9
  {
    c as int - '0' as int
  }

  /** Operator precedence: '+' and '-' bind loosest, '*' and '/' tighter, and
      every other character, '(' included, ranks below both. */
  function Precedence(c: char): (p: int)
    ensures 0 <= p <= 2
    ensures p == 0 <==> !IsOperator(c)
    ensures p == 1 <==> (c == '+' || c == '-')
    ensures p == 2 <==> (c == '*' || c == '/')
  {
    if c == '+' || c == '-' then 1
    else if c == '*' || c == '/' then 2
    else 0
  }

  function Top<T>(s: seq<T>): T
    requires |s| > 0
  {
    s[|s| - 1]
  }

  function Pop<T>(s: seq<T>): seq<T>
    requires |s| > 0
  {
    s[..|s| - 1]
  }

  /** The elements of a stack `s` (top last) in the order popping produces them. */
  function Rev(s: seq<char>): (r: seq<char>)
    ensures |r| == |s|
    decreases |s|
  {
    if |s| == 0 then [] else [s[|s| - 1]] + Rev(s[..|s| - 1])
  }

  lemma {:induction false} RevMultiset(s: seq<char>)
    ensures multiset(Rev(s)) == multiset(s)
    decreases |s|
  {
    if |s| > 0 {
      RevMultiset(s[..|s| - 1]);
      assert s == s[..|s| - 1] + [s[|s| - 1]];
    }
  }

  lemma {:induction false} RevAppend(a: seq<char>, b: seq<char>)
    ensures Rev(a + b) == Rev(b) + Rev(a)
    decreases |b|
  {
    if |b| == 0 {
      assert a + b == a;
    } else {
      assert Pop(a + b) == a + Pop(b);
      RevAppend(a, Pop(b));
    }
  }

  /** The characters of `s` that satisfy `f`, in their original order. */
  function Keep(f: char -> bool, s: seq<char>): (r: seq<char>)
    ensures |r| <= |s|
    decreases |s|
  {
    if |s| == 0 then [] else Keep(f, Pop(s)) + (if f(Top(s)) then [Top(s)] else [])
  }

  lemma {:induction false} KeepAppend(f: char -> bool, a: seq<char>, b: seq<char>)
    ensures Keep(f, a + b) == Keep(f, a) + Keep(f, b)
    decreases |b|
  {
    if |b| == 0 {
      assert a + b == a;
    } else {
      assert Pop(a + b) == a + Pop(b);
      KeepAppend(f, a, Pop(b));
    }
  }

  /** A sequence none of whose characters satisfies `f` keeps nothing. */
  lemma {:induction false} KeepNone(f: char -> bool, s: seq<char>)
    requires forall c <- s :: !f(c)
    ensures Keep(f, s) == []
    decreases |s|
  {
    if |s| > 0 {
      assert Top(s) in s;
      forall c | c in Pop(s) ensures c in s { }
      KeepNone(f, Pop(s));
    }
  }

  /** A sequence all of whose characters satisfy `f` is kept whole. */
  lemma {:induction false} KeepAll(f: char -> bool, s: seq<char>)
    requires forall c <- s :: f(c)
    ensures Keep(f, s) == s
    decreases |s|
  {
    if |s| > 0 {
      assert Top(s) in s;
      forall c | c in Pop(s) ensures c in s { }
      KeepAll(f, Pop(s));
      assert s == Pop(s) + [Top(s)];
    }
  }

  /** Running a step function over the characters of `s` from left to right,
      stopping at the first error: the shape of both `for _, char := range`
      loops in cmd/main.go. */
  function Fold<S>(step: (S, char) -> Result<S>, st: S, s: seq<char>): Result<S>
    decreases |s|
  {
    if |s| == 0 then Ok(st)
    else
      match Fold(step, st, Pop(s))
      case Err(e) => Err(e)
      case Ok(mid) => step(mid, Top(s))
  }

  /** Continue a fold from an intermediate result. */
  function Resume<S>(step: (S, char) -> Result<S>, r: Result<S>, s: seq<char>): Result<S>
  {
    match r
    case Err(e) => Err(e)
    case Ok(mid) => Fold(step, mid, s)
  }

  lemma {:induction false} FoldAppend<S>(step: (S, char) -> Result<S>, st: S, a: seq<char>, b: seq<char>)
    ensures Fold(step, st, a + b) == Resume(step, Fold(step, st, a), b)
    decreases |b|
  {
    if |b| == 0 {
      assert a + b == a;
      match Fold(step, st, a)
      case Err(e) =>
      case Ok(mid) =>
    } else {
      assert Pop(a + b) == a + Pop(b);
      FoldAppend(step, st, a, Pop(b));
    }
  }

  /** Once a prefix has failed, the whole input fails with the same error. */
  lemma FoldPrefixErr<S>(step: (S, char) -> Result<S>, st: S, s: seq<char>, k: nat)
    requires k <= |s|
    requires Fold(step, st, s[..k]).Err?
    ensures Fold(step, st, s) == Fold(step, st, s[..k])
  {
    assert s == s[..k] + s[k..];
    FoldAppend(step, st, s[..k], s[k..]);
  }

  /** The fold over one more character is one more step. */
  lemma FoldSnoc<S>(step: (S, char) -> Result<S>, st: S, s: seq<char>, i: nat)
    requires i < |s|
    ensures Fold(step, st, s[..i + 1]) ==
              match Fold(step, st, s[..i])
              case Err(e) => Err(e)
              case Ok(mid) => step(mid, s[i])
  {
    assert Pop(s[..i + 1]) == s[..i];
  }
}
