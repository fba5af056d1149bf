# Expression engine of the calculator agent, in Dafny

The agent in `cmd/main.go` receives an arithmetic expression as text. Its
`Start` function first checks the text against a regular expression. A text
that does not match records 0. A text that matches is given to
`start_count`, and the value that comes back is recorded.

`start_count` works in three steps:

1. It converts the infix text to postfix with a shunting-yard pass
   (`infixToPostfix`, using `precedence`).
2. It sets the worker count to 2 unless the count is already positive.
3. It sends the postfix text to a pool of goroutines as its only job. A
   worker evaluates the job on a stack of operands (`evaluatePostfix`). The
   last result received is returned.

This project models that engine:

- `common.dfy` (module `Common`): character classes and `precedence`.
  It also holds the error and result types, and the left-to-right fold that
  both stack machines are built on.
- `converter.dfy` (module `Converter`): the converter. It has a pure
  step-by-step specification (`Step`, `Run`, `Flush`, `Convert`). It also has
  `InfixToPostfix`, the loops of the Go function on an output sequence and
  an operator stack, proved equal to `Convert`.
- `converter_props.dfy` (module `ConverterProps`): what the converter
  guarantees.
  - The digits keep their order, and `)` is never emitted.
  - The operator stack stays ordered by precedence.
  - A balanced input comes out as a permutation of its non-parenthesis
    characters.
  - The converter fails exactly when a `)` has no `(` to match.
- `evaluator.dfy` (module `Evaluator`): the evaluator. It has a pure
  specification (`EvalStep`, `Evaluate`) and `EvaluatePostfix`, the Go loop,
  proved equal to it. It also proves the operand-count lemmas: where an
  underflow happens, and when only one value is left.
- `infix.dfy` (module `Infix`): end-to-end meaning.
  - An expression of the usual grammar is a tree (`Expr`) whose text is
    `Show`. `WellFormed` says the tree is the one the precedence and
    left-associativity rules give that text.
  - For such a tree, the converter produces the tree's postfix form, and the
    evaluator computes the tree's value (`Value`).
- `orchestrator.dfy` (module `Orchestrator`): the regular-expression gate,
  `start_count` with its one-job pool, `worker`, and `Start`. The class
  `Agent` holds the package-level worker count and the list of values handed
  to `plusResult`.

Modelling decisions that follow the Go code:

- Values are exact `real`s.
- Each run-time panic of the Go code is an explicit error result:
  - `UnmatchedClose`: `stack[:len(stack)-1]` on an empty operator stack.
  - `StackUnderflow`: an operator finds fewer than two operands.
  - `EmptyStack`: `stack[0]` is read from an empty operand stack.
- The converter treats every character that is not a digit, `(` or `)` as an
  operator. One outside `+ - * /` has precedence 0, as `(` on the stack does.
  So an unclosed `(` is emitted at the end (`"(3+4"` gives `"34+("`), and a
  stray character such as a letter flushes the stack.
- The evaluator applies any non-digit character as an operator. A character
  other than `+ - * /` leaves the result at 0.
- The evaluator returns the bottom entry `stack[0]`, not the only one:
  `"123+"` gives 1.

## Model

| member | source | states |
|---|---|---|
| Common.Precedence | cmd/main.go:150-158 | '+' and '-' rank 1, '*' and '/' rank 2, every other character 0 (each rank exactly characterised) |
| Common.DigitValue | cmd/main.go:196-197 | a digit's value lies in 0..9 (the value of `ParseFloat` on one digit) |
| Converter.PopHigher | cmd/main.go:176-179 | the operator loop pops a top part of the stack onto the output in popping order; everything popped ranks at least as high as the incoming operator, and what remains on top ranks lower |
| Converter.PopToOpen | cmd/main.go:170-173 | the ')' loop pops a '('-free top part onto the output and stops with '(' on top or the stack empty |
| Converter.Flush | cmd/main.go:184-187 | the final loop emits the whole remaining stack, top first |
| Converter.UnwindToOpen | cmd/main.go:170-173 | the imperative inner loop computes exactly `PopToOpen` |
| Converter.UnwindHigher | cmd/main.go:176-179 | the imperative inner loop computes exactly `PopHigher` |
| Converter.InfixToPostfix | cmd/main.go:160-190 | the Go loops produce exactly the specification `Convert`, including the `UnmatchedClose` panic of line 174 |
| ConverterProps.ConvertKeepsDigits | cmd/main.go:164-187 | the digit subsequence of the output equals that of the input, and no ')' is ever emitted |
| ConverterProps.RunKeepsOrdered | cmd/main.go:176-180 | after every accepted prefix, each stacked entry that is not '(' sits on a '(' or on an entry of strictly lower precedence |
| ConverterProps.OrderedAboveOpen | cmd/main.go:176-180 | consequently, above the topmost '(' precedences strictly increase from bottom to top |
| ConverterProps.ConvertPermutes | cmd/main.go:164-187 | on balanced input over digits, + - * / and parentheses, conversion succeeds, emits no parenthesis, and the output is a permutation of the input's non-parenthesis characters |
| ConverterProps.RunAccounted | cmd/main.go:164-182 | on never-over-closed alphabet input, every non-parenthesis character read is emitted or waiting on the stack, and the stack holds one '(' per open parenthesis |
| ConverterProps.CloseFailsIffNoOpen | cmd/main.go:169-174 | a ')' fails exactly when the stack holds no '(' |
| ConverterProps.OverClosedFails | cmd/main.go:169-174 | alphabet input with a prefix closing more parentheses than it opens fails with `UnmatchedClose` |
| ConverterProps.ConvertFailsIffOverClosed | cmd/main.go:169-174 | on alphabet input, conversion fails if and only if some prefix over-closes, and then with `UnmatchedClose` |
| Evaluator.EvalStep | cmd/main.go:195-242 | one character: a digit pushes its value; any other character fails exactly on underflow or division by zero, and otherwise shrinks the stack by one, replacing `a`,`b` by `a op b` |
| Evaluator.EvaluatePostfix | cmd/main.go:192-246 | the Go loop computes exactly the specification `Evaluate`: the bottom entry `stack[0]`, or the panic it hits |
| Evaluator.EvalHeight | cmd/main.go:195-242 | a run that does not fail ends with exactly (digits − other characters) more operands than it started with |
| Evaluator.UnderflowPosition | cmd/main.go:200-201 | a run underflows only at an operator reached with fewer than two operands, and any such operator makes the run fail |
| Evaluator.EvalErrors | cmd/main.go:195-242 | the loop itself can fail only by underflow or division by zero |
| Evaluator.WellFormedSingleValue | cmd/main.go:245 | on well-formed postfix text the evaluator neither underflows nor reads an empty stack, and `stack[0]` is the only value left |
| Evaluator.SingleValueWellFormed | cmd/main.go:195-245 | conversely, a run that ends with exactly one operand and no panic was given well-formed postfix text |
| Evaluator.ExampleBottomEntry | cmd/main.go:245 | "123+" evaluates to 1, the bottom entry, though 5 is above it |
| Infix.PendingRanks | cmd/main.go:176-180 | after reading a well-formed expression, the operators left waiting on the stack rank at least as high as its loosest operator |
| Infix.PendingCompletes | cmd/main.go:184-187 | flushing the operators left waiting completes the expression's postfix form |
| Infix.PopExactly | cmd/main.go:176-179 | an operator pops exactly the higher-or-equal part above a lower-ranked stack |
| Infix.PopToMatching | cmd/main.go:170-173 | a ')' pops exactly the '('-free part above its '(' |
| Infix.RunShow | cmd/main.go:164-182 | reading a well-formed expression's text emits exactly its postfix form less its right spine of operators, which stays on the stack |
| Infix.EvalPostfix | cmd/main.go:195-242 | evaluating the postfix form of any expression tree pushes the tree's value or stops with the error that value has |
| Infix.EndToEnd | cmd/main.go:110-111 | for a well-formed expression, conversion yields its postfix form and evaluation yields its standard precedence-respecting, left-associative value |
| Infix.ExamplePrecedence | cmd/main.go:160-245 | "3+4*2" converts to "342*+" and evaluates to 11 |
| Infix.ExampleGrouping | cmd/main.go:160-245 | "(3+4)*2" converts to "34+2*" and evaluates to 14 |
| Infix.ExampleLeftAssociative | cmd/main.go:176 | "8-3-1" converts to "83-1-" and evaluates to 4 (the `<=` tie-break groups to the left) |
| Infix.ExampleUnclosed | cmd/main.go:184-187 | an unclosed '(' is emitted last: "(3+4" converts to "34+(" |
| Infix.ExampleUnclosedUnderflows | cmd/main.go:200-201 | evaluating "34+(" underflows at the '(' |
| Orchestrator.MatchLengthAt | cmd/main.go:96 | a match of the pattern starts at a position exactly when a digit or one of + - * / is there; a digit match takes the whole digit run |
| Orchestrator.DigitRun | cmd/main.go:96 | `\d+` takes the maximal run of ASCII digits |
| Orchestrator.ValidIff | cmd/main.go:96-97 | the unanchored gate accepts a text if and only if it contains an ASCII digit or one of + - * / |
| Orchestrator.Worker | cmd/main.go:142-148 | each task's result is its evaluation, in order; a failing evaluation stops the worker with that error |
| Orchestrator.Drain | cmd/main.go:134-139 | the drain loop returns the last result received, or 0 when none arrives |
| Orchestrator.Agent.constructor | cmd/main.go:18 | the worker count starts at 0 and nothing is recorded |
| Orchestrator.Agent.StartCount | cmd/main.go:110-140 | the one-job pool returns `evaluatePostfix(infixToPostfix(e))` whatever the worker count; the count becomes 2 when not positive, only after conversion succeeds; nothing is recorded |
| Orchestrator.Agent.Start | cmd/main.go:93-108 | rejected input records 0 and leaves the worker count alone; accepted input records the value `start_count` returns and sets the worker count to 2 when it was not positive and conversion succeeded; a panic records nothing |
| Orchestrator.RejectedWouldFail | cmd/main.go:96-99 | every text the gate rejects would have made `start_count` panic |
| Orchestrator.NoDigitsFails | cmd/main.go:110-111 | a text without digits always makes conversion or evaluation fail |
| Orchestrator.StartOnExpression | cmd/main.go:93-106 | the text of a well-formed expression passes the gate and its computed value is the expression's value |

## Left out

- SQLite persistence (`InitializeSQLiteDB`, `plusResult`). The model records
  the values handed to `plusResult` in `Agent.responses`. The id counter and
  the SQL statements are not modelled. The boolean argument of `plusResult` is
  never stored, so it is dropped.
- HTTP plumbing (`main`, `receiveData`) and all console logging.
- The goroutine pool, its channels and its `sync.WaitGroup`. Only one job is
  ever sent, so the pool is modelled as one sequential `Worker` run on that
  job followed by `Drain`. Scheduling and interleaving are not modelled. The
  worker count is kept in `Agent.numWorkers` but does not affect the result.
- Process failure. A converter panic aborts the request handler, and an
  evaluator panic in a worker goroutine ends the process. Both are modelled
  only as an `Err` result that records nothing.
- The per-operation one-second timers and their −1 result. The timer is
  freshly created, so the `default` arm always runs. The model always does
  the arithmetic.
- Evaluator.EvaluatePostfix: does not model IEEE-754 `float64`. Values are exact
  reals, so there is no rounding. Division by zero is the error
  `DivisionByZero`, where the Go code produces an infinity or NaN and goes on
  computing with it.
- Evaluator.EvalStep: the same deviation for division by zero, which is
  also the reason its failure condition names `'/'`.
- Orchestrator.Agent.Start: for a text whose evaluation divides by zero, such
  as `"1/0"`, the Go code computes `+Inf` (line 237) and hands it to
  `plusResult` (line 106). The model returns `Err(DivisionByZero)` and
  records nothing.
- `strconv.ParseFloat` is modelled only on a single digit, the only text it
  is given.
- Go's regexp engine is not modelled in general. Only the one pattern is,
  and only as far as whether a match exists and how long a match is.
- The commented-out code at the end of `cmd/main.go`.
- `server/service.go` (HTTP handlers, templates, JWT, SQL) and
  `internal/calculator.go` (a wrapper over an external evaluation library)
  are not part of this model.
