/** What the shunting-yard converter guarantees: the digits keep their order,
    ')' never reaches the output, the operator stack stays ordered by
    precedence, a balanced input in the expression alphabet comes out as a
    permutation of its non-parenthesis characters, and the converter fails
    exactly when a ')' has no '(' to match. */
module ConverterProps {
  import opened Common
  import opened Converter

  const Initial := State([], [])

  /* ---------------------------------------------------------------------- */
  /* Digits and ')'                                                          */
  /* ---------------------------------------------------------------------- */

  /** Nothing on the stack is a digit or a ')', and no ')' has been emitted. */
  predicate Clean(st: State)
  {
    (forall t <- st.stack :: !IsDigit(t) && t != ')') && ')' !in st.out
  }

  /** Popping a top part of a clean stack onto the output emits no digit and
      keeps the state clean. */
  lemma PopKeepsClean(st: State, k: nat)
    requires k <= |st.stack| && Clean(st)
    ensures Clean(State(st.out + Rev(st.stack[k..]), st.stack[..k]))
    ensures Keep(IsDigit, st.out + Rev(st.stack[k..])) == Keep(IsDigit, st.out)
  {
    var x := st.stack[k..];
    RevMultiset(x);
    assert forall t <- Rev(x) :: t in multiset(x);
    assert forall t <- Rev(x) :: !IsDigit(t) && t != ')';
    KeepNone(IsDigit, Rev(x));
    KeepAppend(IsDigit, st.out, Rev(x));
    assert forall t <- st.stack[..k] :: t in st.stack;
  }

  lemma {:induction false} StepKeepsClean(st: State, c: char)
    requires Clean(st) && Step(st, c).Ok?
    ensures Clean(Step(st, c).value)
    ensures Keep(IsDigit, Step(st, c).value.out) == Keep(IsDigit, st.out) + Keep(IsDigit, [c])
  {
    assert Keep(IsDigit, [c]) == (if IsDigit(c) then [c] else []) by {
      assert Pop([c]) == [] && Top([c]) == c;
    }
    if IsDigit(c) {
      KeepAppend(IsDigit, st.out, [c]);
    } else if c == '(' {
    } else if c == ')' {
      var p := PopToOpen(st);
      PopKeepsClean(st, |p.stack|);
      assert forall t <- Pop(p.stack) :: t in p.stack;
    } else {
      var p := PopHigher(st, c);
      PopKeepsClean(st, |p.stack|);
    }
  }

  lemma {:induction false} RunKeepsClean(s: seq<char>)
    requires Run(Initial, s).Ok?
    ensures Clean(Run(Initial, s).value)
    ensures Keep(IsDigit, Run(Initial, s).value.out) == Keep(IsDigit, s)
    decreases |s|
  {
    if |s| > 0 {
      var p := Pop(s);
      RunKeepsClean(p);
      StepKeepsClean(Run(Initial, p).value, Top(s));
      assert s == p + [Top(s)];
      KeepAppend(IsDigit, p, [Top(s)]);
    }
  }

  /** The digits of the postfix text are the digits of the infix text, in the
      same order, and the postfix text holds no ')'. */
  lemma ConvertKeepsDigits(s: seq<char>)
    requires Convert(s).Ok?
    ensures Keep(IsDigit, Convert(s).value) == Keep(IsDigit, s)
    ensures ')' !in Convert(s).value
  {
    RunKeepsClean(s);
    var st := Run(Initial, s).value;
    PopKeepsClean(st, 0);
    assert st.stack[0..] == st.stack;
  }

  /* ---------------------------------------------------------------------- */
  /* The operator-stack invariant                                            */
  /* ---------------------------------------------------------------------- */

  /** Every entry that is not a '(' either sits on a '(' or ranks strictly
      higher than the entry below it. */
  predicate Ordered(stack: seq<char>)
  {
    forall i :: 0 < i < |stack| && stack[i] != '(' ==>
      stack[i - 1] == '(' || Precedence(stack[i - 1]) < Precedence(stack[i])
  }

  lemma OrderedPrefix(stack: seq<char>, k: nat)
    requires Ordered(stack) && k <= |stack|
    ensures Ordered(stack[..k])
  {
    assert forall i :: 0 <= i < k ==> stack[..k][i] == stack[i];
  }

  /** Pushing onto an ordered stack keeps it ordered when the new entry is a
      '(' or sits on a '(' or on an entry that ranks lower. */
  lemma OrderedPush(stack: seq<char>, c: char)
    requires Ordered(stack)
    requires c == '(' || |stack| == 0 || Top(stack) == '(' || Precedence(Top(stack)) < Precedence(c)
    ensures Ordered(stack + [c])
  {
    var n := stack + [c];
    forall i | 0 < i < |n| && n[i] != '('
      ensures n[i - 1] == '(' || Precedence(n[i - 1]) < Precedence(n[i])
    {
      if i < |stack| {
        assert n[i - 1] == stack[i - 1] && n[i] == stack[i];
      }
    }
  }

  lemma {:induction false} StepKeepsOrdered(st: State, c: char)
    requires Ordered(st.stack) && Step(st, c).Ok?
    ensures Ordered(Step(st, c).value.stack)
  {
    if IsDigit(c) {
    } else if c == '(' {
      OrderedPush(st.stack, c);
    } else if c == ')' {
      var p := PopToOpen(st);
      OrderedPrefix(st.stack, |p.stack| - 1);
      assert Pop(p.stack) == st.stack[..|p.stack| - 1];
    } else {
      var p := PopHigher(st, c);
      OrderedPrefix(st.stack, |p.stack|);
      OrderedPush(p.stack, c);
    }
  }

  /** The converter's operator stack is ordered after every prefix of every
      input it accepts. */
  lemma {:induction false} RunKeepsOrdered(s: seq<char>)
    requires Run(Initial, s).Ok?
    ensures Ordered(Run(Initial, s).value.stack)
    decreases |s|
  {
    if |s| > 0 {
      RunKeepsOrdered(Pop(s));
      StepKeepsOrdered(Run(Initial, Pop(s)).value, Top(s));
    }
  }

  /** Above the topmost '(' (or in the whole stack when there is none) an
      ordered stack strictly increases in precedence from bottom to top. */
  lemma {:induction false} OrderedAboveOpen(stack: seq<char>, lo: nat, i: nat, j: nat)
    requires Ordered(stack)
    requires lo <= i < j < |stack|
    requires forall m :: lo <= m < |stack| ==> stack[m] != '('
    ensures Precedence(stack[i]) < Precedence(stack[j])
    decreases j - i
  {
    assert stack[j] != '(' && stack[j - 1] != '(';
    if i < j - 1 {
      OrderedAboveOpen(stack, lo, i, j - 1);
    }
  }

  /* ---------------------------------------------------------------------- */
  /* Parentheses: permutation and the unmatched-')' error                    */
  /* ---------------------------------------------------------------------- */

  /** How many '(' of `s` are still open at its end. */
  function Depth(s: seq<char>): int
  {
    multiset(s)['('] as int - multiset(s)[')'] as int
  }

  /** No prefix of `s` closes more parentheses than it opens. */
  predicate NeverNegative(s: seq<char>)
  {
    forall k :: 0 <= k <= |s| ==> Depth(s[..k]) >= 0
  }

  predicate Balanced(s: seq<char>)
  {
    NeverNegative(s) && Depth(s) == 0
  }

  predicate AllInAlphabet(s: seq<char>)
  {
    forall c <- s :: InAlphabet(c)
  }

  /** The converter's bookkeeping on alphabet input: everything read that is
      not a parenthesis is either emitted or waiting on the stack, no
      parenthesis is emitted, and the stack holds one '(' per open one. */
  predicate Accounted(st: State, read: seq<char>)
  {
    Tallied(st, read) && NoParens(st.out) && ')' !in st.stack && OpenCount(st.stack, read)
  }

  /** Every non-parenthesis read is emitted or waiting on the stack. */
  predicate Tallied(st: State, read: seq<char>)
  {
    multiset(st.out) + multiset(Keep(IsNotParen, st.stack)) == multiset(Keep(IsNotParen, read))
  }

  predicate NoParens(s: seq<char>)
  {
    '(' !in s && ')' !in s
  }

  /** One '(' on the stack per parenthesis still open in `read`. */
  predicate OpenCount(stack: seq<char>, read: seq<char>)
  {
    multiset(stack)['('] as int == Depth(read)
  }

  lemma KeepOne(f: char -> bool, c: char)
    ensures Keep(f, [c]) == if f(c) then [c] else []
  {
    assert Pop([c]) == [] && Top([c]) == c;
  }

  lemma DepthSnoc(s: seq<char>, c: char)
    ensures Depth(s + [c]) == Depth(s) + (if c == '(' then 1 else if c == ')' then -1 else 0)
  {
    assert multiset(s + [c]) == multiset(s) + multiset{c};
  }

  lemma ParenFreeCount(x: seq<char>)
    requires forall t <- x :: !IsParen(t)
    ensures multiset(x)['('] == 0 && multiset(x)[')'] == 0
  {
    assert '(' !in x && ')' !in x;
  }

  lemma RevParenFree(x: seq<char>)
    requires forall t <- x :: !IsParen(t)
    ensures forall t <- Rev(x) :: !IsParen(t)
  {
    RevMultiset(x);
    assert forall t <- Rev(x) :: t in multiset(x);
  }

  /** Popping a parenthesis-free top part `x` off `below + mid + x` (where
      `mid` is at most a '(') moves the characters of `x` to the output
      without changing the tally. */
  lemma MoveTally(out: seq<char>, below: seq<char>, mid: seq<char>, x: seq<char>)
    requires forall t <- x :: !IsParen(t)
    requires mid == [] || mid == ['(']
    ensures multiset(out + Rev(x)) + multiset(Keep(IsNotParen, below)) ==
            multiset(out) + multiset(Keep(IsNotParen, below + mid + x))
    ensures multiset(below + mid + x)['('] == multiset(below)['('] + multiset(mid)['(']
    ensures forall t <- Rev(x) :: !IsParen(t)
  {
    KeepAll(IsNotParen, x);
    KeepAppend(IsNotParen, below + mid, x);
    KeepAppend(IsNotParen, below, mid);
    if mid != [] {
      KeepOne(IsNotParen, '(');
    }
    RevMultiset(x);
    ParenFreeCount(x);
    RevParenFree(x);
  }

  lemma AccountDigit(st: State, read: seq<char>, c: char)
    requires IsDigit(c) && Accounted(st, read)
    ensures Accounted(State(st.out + [c], st.stack), read + [c])
  {
    DepthSnoc(read, c);
    KeepAppend(IsNotParen, read, [c]);
    KeepOne(IsNotParen, c);
  }

  lemma AccountOpen(st: State, read: seq<char>)
    requires Accounted(st, read)
    ensures Accounted(State(st.out, st.stack + ['(']), read + ['('])
  {
    DepthSnoc(read, '(');
    KeepAppend(IsNotParen, read, ['(']);
    KeepAppend(IsNotParen, st.stack, ['(']);
    KeepOne(IsNotParen, '(');
  }

  /** The ')' case on plain sequences: the stack is `below + ['('] + x`. */
  lemma CloseMove(out: seq<char>, below: seq<char>, x: seq<char>, read: seq<char>)
    requires Accounted(State(out, below + ['('] + x), read)
    requires forall t <- x :: !IsParen(t)
    ensures Accounted(State(out + Rev(x), below), read + [')'])
  {
    MoveTally(out, below, ['('], x);
    assert forall t <- below :: t in below + ['('] + x;
    DepthSnoc(read, ')');
    KeepAppend(IsNotParen, read, [')']);
    KeepOne(IsNotParen, ')');
  }

  /** The operator case on plain sequences: the stack is `below + x`. */
  lemma OperatorMove(out: seq<char>, below: seq<char>, x: seq<char>, read: seq<char>, c: char)
    requires IsOperator(c) && Accounted(State(out, below + [] + x), read)
    requires forall t <- x :: !IsParen(t)
    ensures Accounted(State(out + Rev(x), below + [c]), read + [c])
  {
    OperatorTally(out, below, x, read, c);
    MoveTally(out, below, [], x);
    assert forall t <- below :: t in below + [] + x;
    assert multiset(below + [c]) == multiset(below) + multiset{c};
    DepthSnoc(read, c);
  }

  lemma OperatorTally(out: seq<char>, below: seq<char>, x: seq<char>, read: seq<char>, c: char)
    requires IsOperator(c) && Tallied(State(out, below + [] + x), read)
    requires forall t <- x :: !IsParen(t)
    ensures Tallied(State(out + Rev(x), below + [c]), read + [c])
  {
    MoveTally(out, below, [], x);
    KeepAppend(IsNotParen, below, [c]);
    KeepOne(IsNotParen, c);
    KeepAppend(IsNotParen, read, [c]);
  }

  lemma AccountClose(st: State, read: seq<char>)
    requires Accounted(st, read) && Depth(read) >= 1
    ensures |PopToOpen(st).stack| > 0
    ensures Accounted(State(PopToOpen(st).out, Pop(PopToOpen(st).stack)), read + [')'])
  {
    assert '(' in st.stack by {
      assert '(' in multiset(st.stack);
    }
    var below, x := CloseSplit(st);
    CloseMove(st.out, below, x, read);
  }

  /** With a '(' on the stack, ')' pops a parenthesis-free top part `x`
      above the topmost '(' and emits it. */
  lemma CloseSplit(st: State) returns (below: seq<char>, x: seq<char>)
    requires '(' in st.stack && ')' !in st.stack
    ensures st == State(st.out, below + ['('] + x)
    ensures PopToOpen(st) == State(st.out + Rev(x), below + ['('])
    ensures forall t <- x :: !IsParen(t)
  {
    var p := PopToOpen(st);
    var k := |p.stack|;
    x := st.stack[k..];
    assert st.stack == st.stack[..k] + x;
    assert forall t <- x :: t in st.stack;
    below := Pop(p.stack);
    assert st.stack == below + ['('] + x;
  }

  lemma AccountOperator(st: State, read: seq<char>, c: char)
    requires IsOperator(c) && Accounted(st, read)
    ensures Accounted(State(PopHigher(st, c).out, PopHigher(st, c).stack + [c]), read + [c])
  {
    var p := PopHigher(st, c);
    var x := OperatorSplit(st, c);
    OperatorMove(st.out, p.stack, x, read, c);
  }

  /** An operator pops a parenthesis-free top part `x` of the stack (both
      parentheses rank below every operator) and emits it. */
  lemma OperatorSplit(st: State, c: char) returns (x: seq<char>)
    requires IsOperator(c)
    ensures st == State(st.out, PopHigher(st, c).stack + [] + x)
    ensures PopHigher(st, c).out == st.out + Rev(x)
    ensures forall t <- x :: !IsParen(t)
  {
    var p := PopHigher(st, c);
    x := st.stack[|p.stack|..];
    forall t <- x ensures !IsParen(t) {
      assert Precedence(c) <= Precedence(t);
    }
    assert st.stack == p.stack + [] + x;
  }

  lemma StepAccounted(st: State, read: seq<char>, c: char)
    requires InAlphabet(c) && Accounted(st, read) && Depth(read + [c]) >= 0
    ensures Step(st, c).Ok? && Accounted(Step(st, c).value, read + [c])
  {
    if IsDigit(c) {
      AccountDigit(st, read, c);
    } else if c == '(' {
      AccountOpen(st, read);
    } else if c == ')' {
      DepthSnoc(read, c);
      AccountClose(st, read);
    } else {
      AccountOperator(st, read, c);
    }
  }

  lemma {:induction false} RunAccounted(s: seq<char>)
    requires AllInAlphabet(s) && NeverNegative(s)
    ensures Run(Initial, s).Ok? && Accounted(Run(Initial, s).value, s)
    decreases |s|
  {
    if |s| == 0 {
      assert Keep(IsNotParen, []) == [];
    } else {
      var p := Pop(s);
      assert s == p + [Top(s)];
      assert forall k :: 0 <= k <= |p| ==> p[..k] == s[..k];
      assert Top(s) in s;
      RunAccounted(p);
      assert s[..|s|] == s;
      StepAccounted(Run(Initial, p).value, p, Top(s));
    }
  }

  /** A balanced input in the expression alphabet converts without error to a
      text with no parentheses that holds each non-parenthesis character of
      the input exactly as often as the input does. */
  lemma ConvertPermutes(s: seq<char>)
    requires AllInAlphabet(s) && Balanced(s)
    ensures Convert(s).Ok?
    ensures forall c <- Convert(s).value :: !IsParen(c)
    ensures multiset(Convert(s).value) == multiset(Keep(IsNotParen, s))
  {
    RunAccounted(s);
    var st := Run(Initial, s).value;
    assert '(' !in multiset(st.stack);
    assert forall t <- st.stack :: !IsParen(t) by {
      forall t <- st.stack ensures !IsParen(t) {
        assert t in multiset(st.stack);
      }
    }
    MoveTally(st.out, [], [], st.stack);
    assert [] + [] + st.stack == st.stack;
    assert Keep(IsNotParen, []) == [];
    assert forall c <- st.out :: !IsParen(c);
  }

  /** On any input, a ')' fails exactly when no '(' is left on the stack. */
  lemma CloseFailsIffNoOpen(st: State)
    ensures Step(st, ')').Err? <==> '(' !in st.stack
    ensures Step(st, ')').Err? ==> Step(st, ')').error == UnmatchedClose
  {
    var p := PopToOpen(st);
    var k := |p.stack|;
    assert st.stack == st.stack[..k] + st.stack[k..];
    if k > 0 {
      assert Top(p.stack) == st.stack[k - 1];
    }
  }

  /** On alphabet input that some prefix over-closes, the converter fails with
      `UnmatchedClose`. */
  lemma {:induction false} OverClosedFails(s: seq<char>)
    requires AllInAlphabet(s) && !NeverNegative(s)
    ensures Run(Initial, s) == Err(UnmatchedClose)
    decreases |s|
  {
    var p := Pop(s);
    assert forall c <- p :: c in s;
    if !NeverNegative(p) {
      OverClosedFails(p);
    } else {
      FirstOverClose(s);
      RunAccounted(p);
      var st := Run(Initial, p).value;
      assert '(' !in st.stack by {
        assert '(' !in multiset(st.stack);
      }
      CloseFailsIffNoOpen(st);
    }
  }

  /** The first prefix that over-closes ends in a ')' read at depth 0. */
  lemma FirstOverClose(s: seq<char>)
    requires !NeverNegative(s) && NeverNegative(Pop(s))
    ensures Top(s) == ')' && Depth(Pop(s)) == 0
    ensures Run(Initial, s) == Resume(Step, Run(Initial, Pop(s)), [')'])
  {
    var p := Pop(s);
    assert s == p + [Top(s)];
    assert forall k :: 0 <= k <= |p| ==> p[..k] == s[..k];
    assert s[..|s|] == s;
    DepthSnoc(p, Top(s));
    RunLast(s);
  }

  lemma RunLast(s: seq<char>)
    requires |s| > 0
    ensures Run(Initial, s) == Resume(Step, Run(Initial, Pop(s)), [Top(s)])
  {
    assert s == Pop(s) + [Top(s)];
    FoldAppend(Step, Initial, Pop(s), [Top(s)]);
    assert Pop([Top(s)]) == [];
  }

  /** On alphabet input the converter fails exactly when some prefix closes a
      parenthesis it never opened, and then with `UnmatchedClose`. */
  lemma ConvertFailsIffOverClosed(s: seq<char>)
    requires AllInAlphabet(s)
    ensures Convert(s).Err? <==> !NeverNegative(s)
    ensures Convert(s).Err? ==> Convert(s).error == UnmatchedClose
  {
    if NeverNegative(s) {
      RunAccounted(s);
    } else {
      OverClosedFails(s);
    }
  }
}
