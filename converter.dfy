/** The shunting-yard converter of cmd/main.go (`infixToPostfix`): a pure
    specification, one step per input character, and the imperative method that
    walks the input with an output slice and an operator stack. */
module Converter {
  import opened Common

  /** The converter's two slices: the postfix text emitted so far, and the
      operator stack with its top last. */
  datatype State = State(out: seq<char>, stack: seq<char>)

  /** Popping the top of a stack and then a top part of the rest pops a top
      part of the whole stack. */
  lemma PopOneMore(st: State, rest: State)
    requires |st.stack| > 0
    requires |rest.stack| <= |Pop(st.stack)| && rest.stack == Pop(st.stack)[..|rest.stack|]
    requires rest.out == st.out + [Top(st.stack)] + Rev(Pop(st.stack)[|rest.stack|..])
    ensures |rest.stack| <= |st.stack| && rest.stack == st.stack[..|rest.stack|]
    ensures rest.out == st.out + Rev(st.stack[|rest.stack|..])
    ensures forall t <- st.stack[|rest.stack|..] :: t == Top(st.stack) || t in Pop(st.stack)[|rest.stack|..]
  {
    var s, k := st.stack, |rest.stack|;
    RevOfTopPart(s, k);
    assert rest.out == st.out + ([Top(s)] + Rev(Pop(s)[k..]));
    assert s[..k] == Pop(s)[..k];
    forall t | t in s[k..] ensures t == Top(s) || t in Pop(s)[k..] {
      assert s[k..] == Pop(s)[k..] + [Top(s)];
    }
  }

  lemma RevOfTopPart(s: seq<char>, k: nat)
    requires k < |s|
    ensures Rev(s[k..]) == [Top(s)] + Rev(Pop(s)[k..])
  {
    assert Pop(s[k..]) == Pop(s)[k..];
  }

  /** The inner loop for an operator `c`: pop and emit operators while the top
      binds at least as tightly as `c`. It pops a top part of the stack, every
      popped character ranks at least as high as `c`, and it stops at the first
      one that ranks lower. */
  function PopHigher(st: State, c: char): (r: State)
    ensures |r.stack| <= |st.stack| && r.stack == st.stack[..|r.stack|]
    ensures r.out == st.out + Rev(st.stack[|r.stack|..])
    ensures forall t <- st.stack[|r.stack|..] :: Precedence(c) <= Precedence(t)
    ensures |r.stack| == 0 || Precedence(Top(r.stack)) < Precedence(c)
    decreases |st.stack|
  {
    if |st.stack| > 0 && Precedence(c) <= Precedence(Top(st.stack)) then
      var rest := PopHigher(State(st.out + [Top(st.stack)], Pop(st.stack)), c);
      PopOneMore(st, rest);
      rest
    else
      st
  }

  /** The inner loop for ')': pop and emit until a '(' is on top or the stack
      is empty. Nothing popped is a '('. */
  function PopToOpen(st: State): (r: State)
    ensures |r.stack| <= |st.stack| && r.stack == st.stack[..|r.stack|]
    ensures r.out == st.out + Rev(st.stack[|r.stack|..])
    ensures '(' !in st.stack[|r.stack|..]
    ensures |r.stack| == 0 || Top(r.stack) == '('
    decreases |st.stack|
  {
    if |st.stack| > 0 && Top(st.stack) != '(' then
      var rest := PopToOpen(State(st.out + [Top(st.stack)], Pop(st.stack)));
      PopOneMore(st, rest);
      rest
    else
      st
  }

  /** One iteration of the outer loop: a digit is emitted, '(' is pushed, ')'
      unwinds to the matching '(' and drops it (with no '(' left, Go's
      `stack[:len(stack)-1]` panics), and every other character is an operator. */
  function Step(st: State, c: char): Result<State>
  {
    if IsDigit(c) then
      Ok(State(st.out + [c], st.stack))
    else if c == '(' then
      Ok(State(st.out, st.stack + ['(']))
    else if c == ')' then
      var p := PopToOpen(st);
      if |p.stack| == 0 then Err(UnmatchedClose) else Ok(State(p.out, Pop(p.stack)))
    else
      var p := PopHigher(st, c);
      Ok(State(p.out, p.stack + [c]))
  }

  /** The converter's state after reading all of `s`. */
  function Run(st: State, s: seq<char>): Result<State>
  {
    Fold(Step, st, s)
  }

  /** The final loop: pop and emit whatever is left on the stack. */
  function Flush(st: State): (r: seq<char>)
    ensures r == st.out + Rev(st.stack)
    decreases |st.stack|
  {
    if |st.stack| == 0 then st.out
    else Flush(State(st.out + [Top(st.stack)], Pop(st.stack)))
  }

  /** What `infixToPostfix` returns for `infix`, or the panic it hits. */
  function Convert(infix: seq<char>): Result<seq<char>>
  {
    match Run(State([], []), infix)
    case Err(e) => Err(e)
    case Ok(st) => Ok(Flush(st))
  }

  /** The inner loop of cmd/main.go:170-173 on the two slices. */
  method UnwindToOpen(postfix0: seq<char>, stack0: seq<char>) returns (postfix: seq<char>, stack: seq<char>)
    ensures State(postfix, stack) == PopToOpen(State(postfix0, stack0))
  {
    postfix, stack := postfix0, stack0;
    while |stack| > 0 && stack[|stack| - 1] != '('
      invariant PopToOpen(State(postfix, stack)) == PopToOpen(State(postfix0, stack0))
      decreases |stack|
    {
      postfix := postfix + [stack[|stack| - 1]];
      stack := stack[..|stack| - 1];
    }
  }

  /** The inner loop of cmd/main.go:176-179 on the two slices. */
  method UnwindHigher(c: char, postfix0: seq<char>, stack0: seq<char>) returns (postfix: seq<char>, stack: seq<char>)
    ensures State(postfix, stack) == PopHigher(State(postfix0, stack0), c)
  {
    postfix, stack := postfix0, stack0;
    while |stack| > 0 && Precedence(c) <= Precedence(stack[|stack| - 1])
      invariant PopHigher(State(postfix, stack), c) == PopHigher(State(postfix0, stack0), c)
      decreases |stack|
    {
      postfix := postfix + [stack[|stack| - 1]];
      stack := stack[..|stack| - 1];
    }
  }

  /** `infixToPostfix`: the outer loop over the input and the final loop that
      empties the operator stack. */
  method InfixToPostfix(infix: seq<char>) returns (r: Result<seq<char>>)
    ensures r == Convert(infix)
  {
    var postfix: seq<char> := [];
    var stack: seq<char> := [];
    var i := 0;
    while i < |infix|
      invariant 0 <= i <= |infix|
      invariant Run(State([], []), infix[..i]) == Ok(State(postfix, stack))
    {
      var c := infix[i];
      FoldSnoc(Step, State([], []), infix, i);
      if IsDigit(c) {
        postfix := postfix + [c];
      } else if c == '(' {
        stack := stack + [c];
      } else if c == ')' {
        postfix, stack := UnwindToOpen(postfix, stack);
        if |stack| == 0 {
          FoldPrefixErr(Step, State([], []), infix, i + 1);
          assert infix[..|infix|] == infix;
          return Err(UnmatchedClose);
        }
        stack := stack[..|stack| - 1];
      } else {
        postfix, stack := UnwindHigher(c, postfix, stack);
        stack := stack + [c];
      }
      i := i + 1;
    }
    assert infix[..i] == infix;
    ghost var last := State(postfix, stack);
    while |stack| > 0
      invariant Flush(State(postfix, stack)) == Flush(last)
      decreases |stack|
    {
      postfix := postfix + [stack[|stack| - 1]];
      stack := stack[..|stack| - 1];
    }
    return Ok(postfix);
  }
}
