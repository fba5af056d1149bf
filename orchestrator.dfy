/** The glue of cmd/main.go around the expression engine: the validity gate of
    `Start`, the conversion and one-job worker pool of `start_count`, and the
    value `Start` hands to `plusResult`. The pool is given exactly one task, so
    its outcome is the one worker run on that task. */
module Orchestrator {
  import opened Common
  import opened Converter
  import opened Evaluator
  import opened Infix
  import ConverterProps

  /** The number of consecutive ASCII digits of `e` from position `i` (`\d+`). */
  function DigitRun(e: seq<char>, i: nat): (n: nat)
    requires i <= |e|
    ensures i + n <= |e|
    ensures forall k :: i <= k < i + n ==> IsDigit(e[k])
    ensures i + n == |e| || !IsDigit(e[i + n])
    decreases |e| - i
  {
    if i < |e| && IsDigit(e[i]) then 1 + DigitRun(e, i + 1) else 0
  }

  /** The length of the match of `(\d+(\.\d+)?)|([+\-*\/])` that starts at
      position `i`, or 0 when none does: the first alternative takes a run of
      digits and, when a '.' and more digits follow, the fraction too; the
      second takes one operator. */
  function MatchLengthAt(e: seq<char>, i: nat): (n: nat)
    requires i <= |e|
    ensures i + n <= |e|
    ensures n > 0 <==> i < |e| && (IsDigit(e[i]) || IsOperator(e[i]))
    ensures n > 0 && IsDigit(e[i]) ==> n >= DigitRun(e, i)
    ensures n > 0 && !IsDigit(e[i]) ==> n == 1
  {
    var run := DigitRun(e, i);
    if run > 0 then
      var j := i + run;
      if j < |e| && e[j] == '.' && DigitRun(e, j + 1) > 0 then run + 1 + DigitRun(e, j + 1) else run
    else if i < |e| && IsOperator(e[i]) then 1
    else 0
  }

  /** `re.MatchString(expression)`: the pattern is not anchored, so a match
      anywhere in the text counts. */
  predicate Valid(e: seq<char>)
  {
    exists i :: 0 <= i < |e| && MatchLengthAt(e, i) > 0
  }

  /** The gate only asks for one digit or one of + - * / somewhere in the
      text: "a+b", "(7)" and "9" all pass, "(" and "x" do not. */
  lemma ValidIff(e: seq<char>)
    ensures Valid(e) <==> exists c <- e :: IsDigit(c) || IsOperator(c)
  {
    if exists c <- e :: IsDigit(c) || IsOperator(c) {
      var c :| c in e && (IsDigit(c) || IsOperator(c));
      var i :| 0 <= i < |e| && e[i] == c;
      assert MatchLengthAt(e, i) > 0;
    }
  }

  /** What `start_count` computes: `evaluatePostfix(infixToPostfix(e))`, or
      the panic one of them hits. */
  function Calculate(e: seq<char>): Result<real>
  {
    match Convert(e)
    case Err(err) => Err(err)
    case Ok(postfix) => Evaluate(postfix)
  }

  /** `worker`: evaluate each task received, in order, and send its result.
      A failing evaluation panics and takes the process down with it. */
  method Worker(tasks: seq<seq<char>>) returns (r: Result<seq<real>>)
    ensures r.Ok? <==> forall k :: 0 <= k < |tasks| ==> Evaluate(tasks[k]).Ok?
    ensures r.Ok? ==> |r.value| == |tasks| && forall k :: 0 <= k < |tasks| ==> Evaluate(tasks[k]) == Ok(r.value[k])
    ensures r.Err? ==> exists k :: 0 <= k < |tasks| && Evaluate(tasks[k]) == Err(r.error) &&
                                   forall j :: 0 <= j < k ==> Evaluate(tasks[j]).Ok?
  {
    var results: seq<real> := [];
    var i := 0;
    while i < |tasks|
      invariant 0 <= i <= |tasks| && |results| == i
      invariant forall k :: 0 <= k < i ==> Evaluate(tasks[k]) == Ok(results[k])
    {
      var result := EvaluatePostfix(tasks[i]);
      if result.Err? {
        return Err(result.error);
      }
      results := results + [result.value];
      i := i + 1;
    }
    return Ok(results);
  }

  /** The `for result = range results` loop: it keeps the last value
      received, and 0 when nothing arrives. */
  method Drain(results: seq<real>) returns (result: real)
    ensures |results| == 0 ==> result == 0.0
    ensures |results| > 0 ==> result == results[|results| - 1]
  {
    result := 0.0;
    var i := 0;
    while i < |results|
      invariant 0 <= i <= |results|
      invariant i == 0 ==> result == 0.0
      invariant i > 0 ==> result == results[i - 1]
    {
      result := results[i];
      i := i + 1;
    }
  }

  /** The agent's state: the worker count (a package variable, zero at
      start-up) and the values handed to `plusResult`, oldest first. */
  class Agent {
    var numWorkers: int
    var responses: seq<real>

    constructor ()
      ensures numWorkers == 0 && responses == []
    {
      numWorkers := 0;
      responses := [];
    }

    /** `start_count`: convert, default the worker count to 2 unless it is
        positive, send the single task to the pool and drain the results.
        The worker count is set only once conversion has not panicked. */
    method StartCount(e: seq<char>) returns (r: Result<real>)
      modifies this
      ensures r == Calculate(e)
      ensures numWorkers == if Convert(e).Ok? && old(numWorkers) <= 0 then 2 else old(numWorkers)
      ensures responses == old(responses)
    {
      var postfix := InfixToPostfix(e);
      if postfix.Err? {
        return Err(postfix.error);
      }
      if !(numWorkers > 0) {
        numWorkers := 2;
      }
      var sent := Worker([postfix.value]);
      if sent.Err? {
        return Err(sent.error);
      }
      var result := Drain(sent.value);
      return Ok(result);
    }

    /** `Start`: an input the gate rejects records 0; any other records the
        value `start_count` returns. A panic records nothing. */
    method Start(e: seq<char>) returns (r: Result<real>)
      modifies this
      ensures !Valid(e) ==> r == Ok(0.0) && numWorkers == old(numWorkers)
      ensures Valid(e) ==> r == Calculate(e)
      ensures Valid(e) ==>
                numWorkers == if Convert(e).Ok? && old(numWorkers) <= 0 then 2 else old(numWorkers)
      ensures r.Ok? ==> responses == old(responses) + [r.value]
      ensures r.Err? ==> responses == old(responses)
    {
      if !Valid(e) {
        responses := responses + [0.0];
        return Ok(0.0);
      }
      r := StartCount(e);
      if r.Ok? {
        responses := responses + [r.value];
      }
    }
  }

  /** A text with no digit converts to a text with no digit, and evaluating
      that fails: with nothing to push, the operand stack never grows. */
  lemma NoDigitsFails(e: seq<char>)
    requires forall c <- e :: !IsDigit(c)
    ensures Calculate(e).Err?
  {
    if Convert(e).Ok? {
      var p := Convert(e).value;
      ConverterProps.ConvertKeepsDigits(e);
      KeepNone(IsDigit, e);
      if Fold(EvalStep, [], p).Ok? {
        EvalHeight([], p);
        assert |Keep(IsDigit, p)| == 0;
      }
    }
  }

  /** Every input the gate rejects would have failed: the gate stands between
      such inputs and a panic. */
  lemma RejectedWouldFail(e: seq<char>)
    requires !Valid(e)
    ensures Calculate(e).Err?
  {
    ValidIff(e);
    NoDigitsFails(e);
  }

  /** The text of a well-formed expression passes the gate, and `Start`
      records the expression's standard value. */
  lemma StartOnExpression(e: Expr)
    requires WellFormed(e)
    ensures Valid(Show(e))
    ensures Calculate(Show(e)) == Value(e)
  {
    ShowHasDigit(e);
    ValidIff(Show(e));
    EndToEnd(e);
  }

  lemma {:induction false} ShowHasDigit(e: Expr)
    ensures exists c <- Show(e) :: IsDigit(c)
  {
    match e
    case Num(d) =>
      assert DigitChar(d) in Show(e);
    case Bin(op, l, r) =>
      ShowHasDigit(l);
      var c :| c in Show(l) && IsDigit(c);
      assert c in Show(e);
    case Paren(x) =>
      ShowHasDigit(x);
      var c :| c in Show(x) && IsDigit(c);
      assert c in Show(e);
  }
}
