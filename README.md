# KAssert's assertion engine in Dafny

KAssert is a C++ assertion library. `KASSERT(expression, message, level)`
checks an expression when the level is enabled. When the check fails it
prints a report to the error stream and aborts. Where it can, the report
shows the operands of the failed comparison (the *expansion*), in the
style of Catch2. `THROWING_KASSERT` and `THROWING_KASSERT_SPECIFIED` throw
an exception instead, when the library is built in exception mode.

This project models the four headers that make up the engine:

- **Values and the logger** (`values.dfy`, `logger.dfy`).
  - Operands and message fragments are a `Value` datatype: integers, booleans, strings, vectors, pairs, and `Opaque` for a type without a stream operator.
  - `Render` gives the text a value streams as, with booleans spelled as words and containers rendered recursively.
  - `Logger` is a class with a private `buffer` and the text `out` the underlying stream has received.
  - Streaming appends to the buffer only. `Flush`, `Stream` and `Close` (the destructor) move the buffer to the stream.
  - The vector overload is a loop with a `first` flag, proved against `Render`.
- **C++ operators** (`native.dfy`). These are the nine operators decomposition intercepts plus `&&`/`||`, with their precedence.
  - `bool` promotes to 0/1.
  - `&`, `|` and `^` are computed on two's-complement bits of unbounded integers.
- **Expression decomposition** (`expression_decomposition.dfy`, `decomposition_properties.dfy`).
  - The assertion `a op1 b op2 c …` is a `Spine`: the first operand and the operator/operand steps along the left edge of the parse tree. Right operands are values C++ has already evaluated.
  - `Parses` admits exactly the spines whose operator precedence never decreases, which are the ones C++ can produce.
  - `FoldStepAsWritten` plays `Decomposer{} <= a` and the operator overloads of `LhsExpression` (expression_decomposition.hpp:208-223) and `BinaryExpression` (lines 119-138). A binary node grows with `&`, `^`, bitwise or, `==` and `!=`; any other operator converts it to `bool`. As at line 127, a node that grows keeps only the `bool` result of the node before it.
  - `FoldStep` is the intended step: the same shape, but a growing node keeps the value its operator produced. `Decompose` folds with it and `DecomposeAsWritten` with `FoldStepAsWritten`.
  - `Finalize` plays `finalize_expr`. `RenderBinary` plays `stringify`, and `StreamBinary` streams the same text into a logger.
- **Reports and exceptions** (`kassert.dfy`).
  - Assertion levels.
  - Both overloads of `evaluate_and_print_assertion`, as methods that stream into a temporary logger.
  - `build_what`, and `KassertException`.
- **Check policy** (`assertion_macros.dfy`).
  - `KASSERT` and `THROWING_KASSERT(_SPECIFIED)` return an `Outcome`: `NoOp`, `Abort(text written to the error stream)`, or `Throw(exception)`.
  - The build is a parameter: the active level and whether exception mode is on.

Decomposition is meant to change only the message, never the outcome. `KASSERT` is modelled as the code is written, on `DecomposeAsWritten`. The model proves the promise for the intended chaining, `Decompose` (`DecompositionPreservesOutcome`). The two decompositions agree, and the outcome is that of plain C++, unless a bitwise operator is followed by another operator (`AsWrittenAgreesWhenOnlyLastBitwise`). Where their truth values differ, the as-written one is wrong (see Findings).

## Model

| member | source | states |
|---|---|---|
| Values.NatToStringRoundTrip | include/kassert/kassert.hpp:135-136 | the decimal text of a row number reads back as the same number, so the rendering loses nothing |
| Values.IntToString | include/kassert/internal/logger.hpp:58-64 | an integer streams as non-empty text starting with a digit or a minus sign |
| Values.JoinSnoc | include/kassert/internal/logger.hpp:139-145 | one more vector element adds exactly one `, ` separator and its own text |
| Values.Render | include/kassert/internal/logger.hpp:58-64 | a streamed value other than a string gives non-empty text that does not start with `<` |
| Values.StringifyValue | include/kassert/internal/logger.hpp:102-109 | `stringify_value` writes `<?>` if and only if the operand has no stream operator (non-string operands) |
| Values.VectorRenderingExamples | include/kassert/internal/logger.hpp:135-147 | `[]`, `[0]` and `[1, 2, 3]` for the empty, one-element and three-element vectors |
| Values.PairRenderingExamples | include/kassert/internal/logger.hpp:160-163 | `(1, 2)`, `[(1, 2), (1, 3)]` and `([], 0)`: pairs render recursively in and around vectors |
| Values.ScalarRenderingExamples | include/kassert/internal/logger.hpp:51-53 | booleans stream as `true`/`false` (boolalpha) and integers as signed decimals |
| Logging.Logger.constructor | include/kassert/internal/logger.hpp:51-53 | a new logger has an empty buffer and leaves the stream as it was |
| Logging.Logger.Write | include/kassert/internal/logger.hpp:58-64 | streaming text appends it to the buffer and leaves the underlying stream unchanged |
| Logging.Logger.Log | include/kassert/internal/logger.hpp:58-64 | streaming any streamable value appends its rendering to the buffer only |
| Logging.Logger.LogVector | include/kassert/internal/logger.hpp:135-147 | the loop with the `first` flag appends exactly `Render` of the vector; the stream is untouched |
| Logging.Logger.LogElement | include/kassert/internal/logger.hpp:140-144 | one loop pass appends the separator unless this is the first element, then the element |
| Logging.Logger.LogPair | include/kassert/internal/logger.hpp:160-163 | appends `(first, second)` with both components rendered |
| Logging.Logger.Flush | include/kassert/internal/logger.hpp:75-78 | the stream receives the whole buffer and the buffer becomes empty, so a second flush adds nothing |
| Logging.Logger.Stream | include/kassert/internal/logger.hpp:69-72 | flushes first; the returned stream is the old stream followed by the old buffer |
| Logging.Logger.Close | include/kassert/internal/logger.hpp:82-84 | destruction flushes whatever is still buffered |
| Logging.StringifyInto | include/kassert/internal/logger.hpp:102-109 | appends `<?>` for an operand without a stream operator, its rendering otherwise |
| Logging.RenderMessage | include/kassert/internal/assertion_macros.hpp:120 | a message streamed into a fresh string logger reads back as the fragments' renderings in order |
| Logging.LogAndClose | include/kassert/internal/logger.hpp:58-84 | every fragment logged during a logger's life reaches the stream in order, as one piece, and only at destruction |
| NativeOps.Truthy | include/kassert/internal/expression_decomposition.hpp:166-168 | the conversion to `bool` is true exactly for a nonzero value |
| NativeOps.Apply | include/kassert/internal/expression_decomposition.hpp:208-223 | every operator yields a scalar, and a comparison yields a `bool` |
| NativeOps.BoolOperandTruth | include/kassert/internal/expression_decomposition.hpp:127 | with a `bool` on the left, `&` keeps only the lowest bit of the right operand, `^`/`!=` compare it with 0 or 1, and bitwise or tests it for nonzero |
| NativeOps.AndInt | include/kassert/internal/expression_decomposition.hpp:221 | bit 0 of `x & y` is set exactly when it is set in both operands; with a non-negative operand the result lies between 0 and that operand |
| NativeOps.OrInt | include/kassert/internal/expression_decomposition.hpp:222 | bit 0 of `x` bitwise-or `y` is set exactly when it is set in either operand; for non-negative operands the result is at least each operand and at most their sum |
| NativeOps.XorInt | include/kassert/internal/expression_decomposition.hpp:223 | bit 0 of `x ^ y` is set exactly when the operands' bits 0 differ; for non-negative operands the result lies between 0 and their sum |
| NativeOps.BoolLikeOperandUnchanged | include/kassert/internal/expression_decomposition.hpp:127 | replacing a 0-or-1 left operand by its `bool` changes no operator's result |
| Decomposition.Extend | include/kassert/internal/expression_decomposition.hpp:119-138 | a node grows into a longer chain exactly for `==`, `!=`, `&`, `^` and bitwise or, and the step computes the C++ value of the operator |
| Decomposition.FoldedTruth | include/kassert/internal/expression_decomposition.hpp:102-106 | `operator bool` of the pending operand or of a node is the truth of the value the fold state stands for |
| Decomposition.FoldStepAsWritten | include/kassert/internal/expression_decomposition.hpp:119-138 | as written, a step yields a node exactly when the intended step does, and the same state whenever the node it extends holds a `bool` |
| Decomposition.FoldStep | include/kassert/internal/expression_decomposition.hpp:208-223 | with the intended chaining, each fold step computes what the undecomposed expression computes at that step |
| Decomposition.Finalize | include/kassert/internal/expression_decomposition.hpp:250-265 | the finalized assertion has the truth of the fold state, and a node or unary expression can be rendered |
| Decomposition.Decompose | include/kassert/internal/expression_decomposition.hpp:240-265 | a lone operand becomes a unary expression over that operand; with an operator it never does |
| Decomposition.DecomposeAsWritten | include/kassert/internal/expression_decomposition.hpp:240-265 | as written, a lone operand becomes a unary expression over that operand; with an operator it never does |
| Decomposition.StreamBinary | include/kassert/internal/expression_decomposition.hpp:110-114 | streaming a node appends exactly its rendering (left side, operator between spaces, right operand) to the buffer |
| Decomposition.StreamExpr | include/kassert/internal/expression_decomposition.hpp:72-75 | `<<` of an expression appends its rendering; a unary expression renders as its operand |
| DecompositionProperties.FoldIsNative | include/kassert/internal/expression_decomposition.hpp:119-138 | the corrected fold computes, on every well-typed spine, the value plain C++ computes |
| DecompositionProperties.DecompositionPreservesOutcome | include/kassert/internal/expression_decomposition.hpp:39 | with the intended chaining, the decomposed assertion is true exactly when the plain C++ expression is true |
| DecompositionProperties.NodeFoldShape | include/kassert/internal/expression_decomposition.hpp:119-138 | after the first operator the fold stays a node exactly while every operator met is one a node overloads |
| DecompositionProperties.ExpansionIffFullyDecomposed | include/kassert/internal/expression_decomposition.hpp:250-265 | the evaluator receives an expression (and prints an expansion) if and only if the first operator is relational or bitwise and all later ones are `==`, `!=`, `&`, `^` or bitwise or |
| DecompositionProperties.LogicalStepOutcome | include/kassert/internal/expression_decomposition.hpp:104-106 | before a logical and/or the node or pending operand converts to its own truth, so the evaluator gets a `bool`: as written, the truth of the decomposed prefix combined with the right operand's; with the intended chaining, the prefix's C++ truth combined with it |
| DecompositionProperties.FoldStepRenders | include/kassert/internal/expression_decomposition.hpp:110-114 | one more chained operator appends itself and its operand to the rendering |
| DecompositionProperties.FoldRendersSpine | include/kassert/internal/expression_decomposition.hpp:110-114 | a fully decomposed chain renders as its operands joined by their operators, left to right |
| DecompositionProperties.RenderShowsAllOperands | include/kassert/internal/expression_decomposition.hpp:110-114 | the expansion of an n-operator chain shows all n+1 operands, each stringified on its own |
| DecompositionProperties.TwoOperatorChain | include/kassert/internal/expression_decomposition.hpp:119-138 | `a op1 b op2 c` decomposes into a node for `op2` over a node for `op1`; as written the outer node holds the truth of `bool(a op1 b) op2 c`, with the intended chaining that of `(a op1 b) op2 c` |
| DecompositionProperties.AsWrittenAgreesFrom | include/kassert/internal/expression_decomposition.hpp:127 | from any fold state whose node holds a `bool`, the as-written fold and the corrected fold give the same state while no bitwise operator is followed by another one |
| DecompositionProperties.AsWrittenAgreesWhenOnlyLastBitwise | include/kassert/internal/expression_decomposition.hpp:119-138 | as written, decomposition gives exactly the corrected decomposition, and so the C++ outcome, whenever no bitwise operator is followed by another operator |
| DecompositionProperties.AsWrittenExpansion | include/kassert/internal/expression_decomposition.hpp:110-138 | as written, the evaluator gets an expression exactly when the spine was decomposed all the way up, and its expansion shows every operand and operator, left to right |
| DecompositionProperties.AsWrittenForgetsNodeValue | include/kassert/internal/expression_decomposition.hpp:127 | as written, extending a node uses only its `bool` result, never the value it was computed from |
| DecompositionProperties.BitwiseChainFailsAsWritten | include/kassert/internal/expression_decomposition.hpp:127 | `5 == 5 ^ 3 ^ 1` holds in C++, fails as written, and holds with the corrected fold |
| DecompositionProperties.BitwiseChainPassesAsWritten | include/kassert/internal/expression_decomposition.hpp:127 | `5 == 5 ^ 3 ^ 2` fails in C++, passes as written, and fails with the corrected fold |
| DecompositionProperties.ChainedEqualityExample | tests/kassert_test.cpp:284 | `1 == 1 == 5` fails and expands to `1 == 1 == 5` |
| DecompositionProperties.EqualityThenAndExample | tests/kassert_test.cpp:286 | `5 == 5 & 0` fails and expands to `5 == 5 & 0` |
| DecompositionProperties.EqualityThenOrExample | tests/kassert_test.cpp:287 | `5 == 4`, bitwise-or `0`, fails and its expansion shows `5 == 4`, the bitwise-or sign and `0` |
| DecompositionProperties.NegatedOperandExample | tests/kassert_test.cpp:264 | `!lhs == rhs` with `lhs = 5` shows only the negated value: `false == 10` |
| DecompositionProperties.VectorOperandExample | tests/kassert_test.cpp:322 | unequal vectors fail and expand to `[1, 2, 3] == [1, 2]` |
| DecompositionProperties.PlaceholderExpansionExample | tests/kassert_test.cpp:378 | `RenderBinary` prints an opaque leaf as `<?>`, so the node for `CustomType{} == 42` renders as `<?> == 42` |
| Reporting.EnabledMonotone | include/kassert/kassert.hpp:166-168 | raising the active level or lowering an assertion's level never disables an enabled assertion |
| Reporting.DefaultLevels | include/kassert/kassert.hpp:35-53 | without a configured level exactly the levels up to `normal` (30) are enabled, `kthrow` (10) among them; at `kthrow`, `normal` is disabled |
| Reporting.BuildWhat | include/kassert/kassert.hpp:132-137 | the description starts with an empty line, ends with a line break, and is longer than the message and the expression text together |
| Reporting.BuildWhatRoundTrip | include/kassert/kassert.hpp:132-137 | the user message can be read back from the `build_what` text, so distinct messages give distinct descriptions |
| Reporting.BuildWhatMentions | include/kassert/kassert.hpp:132-137 | the description contains the expression text and the user message |
| Reporting.EvaluateAndPrintBool | include/kassert/kassert.hpp:184-192 | returns the result; writes nothing when it is true, and the two header lines and the tab-indented expression when it is false |
| Reporting.EvaluateAndPrintExpression | include/kassert/kassert.hpp:201-211 | returns `result()`; on failure writes the same report followed by `with expansion:` and the rendered expression, otherwise nothing |
| Reporting.WriteFailureReport | include/kassert/kassert.hpp:187-189 | the header and expression lines go into the logger's buffer in order |
| Reporting.WriteFunctionLine | include/kassert/kassert.hpp:187 | appends `<file>: In function '<function>':` and a line break |
| Reporting.WriteFailedLine | include/kassert/kassert.hpp:188 | appends `<file>:<row>: FAILED <type>` and a line break, the row in decimal |
| Reporting.WriteExpansion | include/kassert/kassert.hpp:207-208 | appends `with expansion:`, a tab, the streamed expression and a line break |
| Reporting.Report | include/kassert/kassert.hpp:184-211 | the evaluator writes nothing exactly when the assertion holds; a failure's text starts with the header lines and the expression text |
| Reporting.EvaluateAndPrint | include/kassert/kassert.hpp:184-211 | the overload for the finalized assertion returns its truth and writes exactly `Report` |
| Reporting.ReportMentions | include/kassert/kassert.hpp:201-211 | a failure report contains the expression text, and for an expression also its expansion |
| Reporting.KassertWhatIsMessage | include/kassert/kassert.hpp:147-153 | `what()` returns exactly the text the exception was built with |
| AssertionMacros.KassertImpl | include/kassert/internal/assertion_macros.hpp:57-73 | never throws; a disabled level does nothing; it aborts if and only if the level is enabled and the decomposition as written is false, which is when the plain expression is false unless a bitwise operator is followed by another operator |
| AssertionMacros.Kassert | include/kassert/internal/assertion_macros.hpp:86 | the three-argument form aborts exactly when enabled and the decomposition as written is false; the same as the plain expression being false when only the last operator may be bitwise |
| AssertionMacros.Kassert2 | include/kassert/internal/assertion_macros.hpp:87 | without a level it aborts exactly when the active level admits `normal` and the decomposition as written is false (the plain expression, when only the last operator may be bitwise) |
| AssertionMacros.Kassert1 | include/kassert/internal/assertion_macros.hpp:88 | without a message or level it aborts exactly when the active level admits `normal` and the decomposition as written is false (the plain expression, when only the last operator may be bitwise) |
| AssertionMacros.KassertAbortText | include/kassert/internal/assertion_macros.hpp:62-70 | a failing enabled `KASSERT` writes the report of the decomposition as written, then the message, then a line break; the text names the expression, contains the message and, for a fully decomposed expression, shows every operand |
| AssertionMacros.KassertDefaults | include/kassert/internal/assertion_macros.hpp:86-88 | `KASSERT(e)` is `KASSERT(e, "", normal)`, and on failure writes the report followed by a line break for the empty message |
| AssertionMacros.ExecuteKassert | include/kassert/internal/assertion_macros.hpp:57-73 | running the evaluator on the decomposition as written and then the message logger writes to an empty error stream exactly the outcome's text, and aborts exactly when the outcome is `Abort` |
| AssertionMacros.ThrowingImpl | include/kassert/internal/assertion_macros.hpp:93-110 | in exception mode it throws the given exception exactly when the plain expression is false; otherwise it aborts exactly when `kthrow` is enabled and the expression is false, writing the exception's `what()` and a line break |
| AssertionMacros.ThrowingKassertSpecified | include/kassert/internal/assertion_macros.hpp:124-134 | the thrown exception has the named type and the extra arguments, and its description carries the rendered message |
| AssertionMacros.ThrowingKassert2 | include/kassert/internal/assertion_macros.hpp:113-122 | `THROWING_KASSERT` throws a `KassertException` without extra arguments |
| AssertionMacros.ThrowingKassert1 | include/kassert/internal/assertion_macros.hpp:138 | without a message the description is `build_what` with the empty message |
| AssertionMacros.ThrowingInExceptionMode | include/kassert/internal/assertion_macros.hpp:93-99 | in exception mode it throws exactly when the expression is false, whatever the level, and never aborts; the description names the expression and the message |
| AssertionMacros.ThrowingMatchesKthrowAssertion | include/kassert/internal/assertion_macros.hpp:101-110 | outside exception mode it aborts exactly when `kthrow` is enabled and the plain expression is false, writing the description and a line break; that is when a `kthrow`-level `KASSERT` aborts, provided only the last operator may be bitwise |
| AssertionMacros.ThrowingTrueIsNoOp | include/kassert/internal/assertion_macros.hpp:96 | a true expression does nothing, in either mode and for any exception type |
| AssertionMacros.ExampleHeaderLines | include/kassert/kassert.hpp:187-188 | the header lines for `t.cpp:7` in `f` |
| AssertionMacros.ExampleDecomposition | tests/kassert_test.cpp:252 | `1 > 2` decomposes, as the library does it, into one false node rendering as `1 > 2` |
| AssertionMacros.ExampleReport | include/kassert/kassert.hpp:204-208 | the full report for the failed `1 > 2`, expansion included |
| AssertionMacros.FailedComparisonExample | tests/kassert_test.cpp:252 | `KASSERT(1 > 2)` aborts with the report, the expansion and the empty message |
| AssertionMacros.BitwiseChainKassertExample | include/kassert/internal/expression_decomposition.hpp:127 | `KASSERT(5 == 5 ^ 3 ^ 1)` aborts although the expression is 3 in C++, and `THROWING_KASSERT` of it does nothing |
| AssertionMacros.LevelGateExample | tests/kassert_test.cpp:73-74 | an assertion above the active level does nothing; one below it aborts |

## Left out

- Real streams, `std::abort` and `throw`. The error stream is a string. Aborting and throwing are `Outcome` values, and the effect of the abort on the process is not modelled.
- The interleaving of output from several processes, which motivates the logger's buffer. Only one logger at a time is modelled.
- DecompositionProperties.PlaceholderExpansionExample renders a node built by hand. Operators of user-defined types are not modelled: `Defined` (native.dfy) admits no `Opaque` operand, so no `WellTyped` spine holds one. Every comparison with an `Opaque` side is outside the fold, `KASSERT(CustomType{} == val)` as much as `CustomType{} == CustomType{}`; `Opaque` operands take part only in rendering (`<?>`).
- Containers and strings compare only with `==` and `!=`, structurally. Their `<` and the other operators are not modelled.
- Right operands are values the program has already computed. Evaluation order and side effects inside operands are not modelled. Short-circuiting appears only as the result of `&&`/`||` (`LogicalStepOutcome`).
- Integer widths. Operands are unbounded integers, and `&`, `|`, `^` act on two's complement of any width. C++ integer promotion and overflow are not modelled. The row number is a `nat` rather than a 32-bit `unsigned`.
- `__FILE__`, `__LINE__` and the function name are an input `SourceLocation`. The preprocessor arity dispatch becomes separate functions (`Kassert1`, `Kassert2`, `Kassert`). The `-Wparentheses` pragmas have no counterpart.
- User exception types. Their constructor arguments are recorded, and `what()` is a fixed text per type, as in the library's tests. Arbitrary user code in such constructors is not modelled.
- The type-level machinery (stream-operator detection, the `static_assert` on convertibility, `AlwaysFalse`) becomes the `Admissible`, `Streamable` and `WellTyped` preconditions.
- The evaluator's `type` argument. The doc comment on `evaluate_and_print_assertion` says it names the exception type outside exception mode. The code always passes `"ASSERTION"`, and the model follows the code.
- `THROWING_KASSERT` outside exception mode. The doc comment says it becomes a `KASSERT` at level `kthrow`. The code tests the plain expression and writes the exception's `what()` and a line break rather than the decomposed report, and the model follows the code (`ThrowingMatchesKthrowAssertion`, `BitwiseChainKassertExample`).
- Values.StringifyValue states the placeholder property for non-string operands only, because a string may itself hold the text `<?>`.
- `char` operands. C++ streams them as characters; `Int` renders in decimal and stands for the other integer types.
- `WellTyped` also admits a bitwise operator (`&`, `^`, bitwise or) as the first operator, as in `a & b`. C++ rejects that expression: `LhsExpression` builds the `bool` result of its `BinaryExpression` by brace initialisation from an integer (expression_decomposition.hpp:212), a narrowing conversion. The model gives such spines the value of the operator, although C++ gives them none.
- `WellTyped` also admits spines whose fold ends in a plain non-`bool` value rather than a node, such as `1 < 2 < 3 & 4`. C++ rejects them: only `bool` has its own `finalize_expr` overload, and the template one calls `make_unary()` on the `int` (expression_decomposition.hpp:250-265). `Finalize` gives them the truth of the value.

## Findings

| source | as written | input that shows it | evidently intended | confidence | as-written member | corrected member |
|---|---|---|---|---|---|---|
| include/kassert/internal/expression_decomposition.hpp:127 | a binary node extended by `&`, `^` or bitwise or computes `lhs.result() op rhs` on the node's `bool` result, not on the value the node's operator produced | `KASSERT(5 == 5 ^ 3 ^ 1)` aborts though the expression is 3; `KASSERT(5 == 5 ^ 3 ^ 2)` passes though it is 0 | decomposition changes only the message, never the outcome (expression_decomposition.hpp:39) | not executed | AssertionMacros.BitwiseChainKassertExample | DecompositionProperties.DecompositionPreservesOutcome |

`KASSERT` itself (`Kassert`, `KassertImpl`, `ExecuteKassert`) follows the code, so it keeps this discrepancy. `BitwiseChainFailsAsWritten` and `BitwiseChainPassesAsWritten` show it at the level of the decomposition. The intended chaining is `FoldStep` and `Decompose`, proved against plain C++ by `FoldIsNative` and `DecompositionPreservesOutcome`.
