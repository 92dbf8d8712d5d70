/** The check policy of include/kassert/internal/assertion_macros.hpp: what
    `KASSERT`, `THROWING_KASSERT` and `THROWING_KASSERT_SPECIFIED` do, given
    how the library is built. Aborting and throwing are outcomes here; the
    text an aborting check leaves on the error stream is part of the
    outcome. */
module AssertionMacros {
  import opened Values
  import opened NativeOps
  import opened Logging
  import opened Decomposition
  import opened DecompositionProperties
  import opened Reporting

  /** The build: the active assertion level and whether exception mode is
      on. */
  datatype Build = Build(activeLevel: int, exceptionMode: bool)

  /** What a check does: nothing, write to the error stream and abort, or
      throw. */
  datatype Outcome = NoOp | Abort(written: string) | Throw(exception: Exception)

  /** The kind label `KASSERT` reports. */
  const AssertionKind: string := "ASSERTION"

  predicate MessageStreamable(message: seq<Value>) {
    forall k :: 0 <= k < |message| ==> Streamable(message[k])
  }

  /** The body of `KASSERT`: a level the build disables compiles to nothing;
      otherwise `finalize_expr(Decomposer{} <= expression)` is evaluated, as
      the library is written, and on failure the report is written, then the
      user message and a line break through a second logger, and the program
      aborts. It aborts exactly when the decomposed assertion is false, which
      is when the plain expression is false unless a bitwise operator is
      followed by another operator. */
  function KassertImpl(kind: string, build: Build, expression: Spine, exprText: string,
                       where: SourceLocation, message: seq<Value>, level: int): (o: Outcome)
    requires WellTyped(expression) && MessageStreamable(message)
    ensures !o.Throw?
    ensures !AssertionEnabled(level, build.activeLevel) ==> o == NoOp
    ensures o.Abort? <==> AssertionEnabled(level, build.activeLevel) && !Truth(DecomposeAsWritten(expression))
    ensures OnlyLastBitwise(expression.steps) ==>
      (o.Abort? <==> AssertionEnabled(level, build.activeLevel) && !NativeTruth(expression))
  {
    AsWrittenAgreesWhenOnlyLastBitwise(expression);
    if !AssertionEnabled(level, build.activeLevel) then NoOp
    else
      var f := DecomposeAsWritten(expression);
      if Truth(f) then NoOp
      else Abort(Report(kind, f, where, exprText) + MessageText(message) + "\n")
  }

  /** `KASSERT(expression, message, level)`, always reporting `ASSERTION`. */
  function Kassert(build: Build, expression: Spine, exprText: string, where: SourceLocation,
                   message: seq<Value>, level: int): (o: Outcome)
    requires WellTyped(expression) && MessageStreamable(message)
    ensures o.Abort? <==> AssertionEnabled(level, build.activeLevel) && !Truth(DecomposeAsWritten(expression))
    ensures OnlyLastBitwise(expression.steps) ==>
      (o.Abort? <==> AssertionEnabled(level, build.activeLevel) && !NativeTruth(expression))
  {
    KassertImpl(AssertionKind, build, expression, exprText, where, message, level)
  }

  /** `KASSERT(expression, message)`: level `normal`. */
  function Kassert2(build: Build, expression: Spine, exprText: string, where: SourceLocation,
                    message: seq<Value>): (o: Outcome)
    requires WellTyped(expression) && MessageStreamable(message)
    ensures o.Abort? <==> build.activeLevel >= Normal && !Truth(DecomposeAsWritten(expression))
    ensures OnlyLastBitwise(expression.steps) ==>
      (o.Abort? <==> build.activeLevel >= Normal && !NativeTruth(expression))
  {
    Kassert(build, expression, exprText, where, message, Normal)
  }

  /** `KASSERT(expression)`: the empty message. */
  function Kassert1(build: Build, expression: Spine, exprText: string, where: SourceLocation): (o: Outcome)
    requires WellTyped(expression)
    ensures o.Abort? <==> build.activeLevel >= Normal && !Truth(DecomposeAsWritten(expression))
    ensures OnlyLastBitwise(expression.steps) ==>
      (o.Abort? <==> build.activeLevel >= Normal && !NativeTruth(expression))
  {
    Kassert2(build, expression, exprText, where, [Str("")])
  }

  /** A failed `KASSERT` writes the report (with the expansion when the
      expression was decomposed all the way), then the message, then a line
      break; the text names the expression, contains the message and, for a
      fully decomposed expression, shows every operand. */
  lemma KassertAbortText(build: Build, expression: Spine, exprText: string, where: SourceLocation,
                         message: seq<Value>, level: int)
    requires WellTyped(expression) && MessageStreamable(message)
    requires AssertionEnabled(level, build.activeLevel) && !Truth(DecomposeAsWritten(expression))
    ensures var o := Kassert(build, expression, exprText, where, message, level);
      o.Abort?
      && o.written == Report(AssertionKind, DecomposeAsWritten(expression), where, exprText) + MessageText(message) + "\n"
      && Contains(o.written, exprText)
      && Contains(o.written, MessageText(message))
    ensures FullyDecomposed(expression.steps) ==>
      Admissible(expression.first)
      && (forall k :: 0 <= k < |expression.steps| ==> Admissible(expression.steps[k].rhs))
      && Contains(Kassert(build, expression, exprText, where, message, level).written,
                  SpineText(expression.first, expression.steps))
  {
    var f := DecomposeAsWritten(expression);
    var r := Report(AssertionKind, f, where, exprText);
    var tail := MessageText(message) + "\n";
    assert r + MessageText(message) + "\n" == r + tail;
    ReportMentions(AssertionKind, f, where, exprText);
    ContainsExtended(r, tail, exprText);
    ContainsMiddle(r, MessageText(message), "\n");
    AsWrittenExpansion(expression);
    if FullyDecomposed(expression.steps) {
      ContainsExtended(r, tail, RenderExpr(f.expr));
    }
  }

  /** Omitting the message gives the empty message, and omitting the level
      gives `normal`: a failing `KASSERT(expression)` writes the report and
      one line break. */
  lemma KassertDefaults(build: Build, expression: Spine, exprText: string, where: SourceLocation)
    requires WellTyped(expression)
    ensures Kassert1(build, expression, exprText, where)
      == Kassert(build, expression, exprText, where, [Str("")], Normal)
    ensures var o := Kassert1(build, expression, exprText, where);
      o.Abort? ==> o.written == Report(AssertionKind, DecomposeAsWritten(expression), where, exprText) + "\n"
  {
    assert MessageText([Str("")]) == "";
  }

  /** `Kassert` unfolded down to the evaluator's result and text. */
  lemma KassertUnfolds(build: Build, expression: Spine, exprText: string, where: SourceLocation,
                       message: seq<Value>, level: int)
    requires WellTyped(expression) && MessageStreamable(message)
    ensures var f := DecomposeAsWritten(expression);
      Kassert(build, expression, exprText, where, message, level)
        == if !AssertionEnabled(level, build.activeLevel) || Truth(f) then NoOp
           else Abort(Report(AssertionKind, f, where, exprText) + MessageText(message) + "\n")
  {
  }

  /** A `KASSERT` running through the imperative evaluator and the message
      logger writes to an empty error stream exactly the outcome's text. */
  method ExecuteKassert(build: Build, expression: Spine, exprText: string, where: SourceLocation,
                        message: seq<Value>, level: int)
    returns (aborted: bool, written: string)
    requires WellTyped(expression) && MessageStreamable(message)
    ensures var o := Kassert(build, expression, exprText, where, message, level);
      aborted == o.Abort? && written == (if o.Abort? then o.written else "")
  {
    KassertUnfolds(build, expression, exprText, where, message, level);
    aborted, written := false, "";
    if AssertionEnabled(level, build.activeLevel) {
      var f := DecomposeAsWritten(expression);
      var ok, report := EvaluateAndPrint(AssertionKind, f, where, exprText, "");
      if !ok {
        MessageTextSnoc(message, Str("\n"));
        var _, after := LogAndClose(report, message + [Str("\n")]);
        Regroup3("", Report(AssertionKind, f, where, exprText), MessageText(message), "\n");
        written := after;
        aborted := true;
      }
    }
  }

  /* ---------- throwing checks ---------- */

  /** The throwing implementation for an exception already built from the
      description and the extra arguments. In exception mode the plain
      expression is tested, with no decomposition and no level, and a false
      one throws; otherwise the check is a `kthrow`-level assertion that
      writes the exception's `what()` and a line break and aborts. */
  function ThrowingImpl(build: Build, expression: Spine, exception: Exception): (o: Outcome)
    requires WellTyped(expression)
    ensures o.Throw? <==> build.exceptionMode && !NativeTruth(expression)
    ensures o.Abort? <==>
      !build.exceptionMode && AssertionEnabled(KThrow, build.activeLevel) && !NativeTruth(expression)
    ensures o.Throw? ==> o.exception == exception
    ensures o.Abort? ==> o.written == exception.What() + "\n"
  {
    if build.exceptionMode then
      if !NativeTruth(expression) then Throw(exception) else NoOp
    else if AssertionEnabled(KThrow, build.activeLevel) && !NativeTruth(expression) then
      Abort(exception.What() + "\n")
    else NoOp
  }

  /** `THROWING_KASSERT_SPECIFIED(expression, message, type, extra...)`: the
      exception is built from `build_what` over the expression text, the
      location and the rendered message, followed by the extra arguments. */
  function ThrowingKassertSpecified(build: Build, expression: Spine, exprText: string, where: SourceLocation,
                                    message: seq<Value>, exceptionType: ExceptionType, extra: seq<Value>): (o: Outcome)
    requires WellTyped(expression) && MessageStreamable(message)
    ensures o.Throw? ==> o.exception.kind == exceptionType && o.exception.extra == extra
    ensures o.Throw? ==> MessageOfWhat(o.exception.message, exprText, where) == Some(MessageText(message))
  {
    BuildWhatRoundTrip(exprText, where, MessageText(message));
    ThrowingImpl(build, expression,
      Exception(exceptionType, BuildWhat(exprText, where, MessageText(message)), extra))
  }

  /** `THROWING_KASSERT(expression, message)`: a `KassertException` without
      extra arguments. */
  function ThrowingKassert2(build: Build, expression: Spine, exprText: string, where: SourceLocation,
                            message: seq<Value>): (o: Outcome)
    requires WellTyped(expression) && MessageStreamable(message)
    ensures o.Throw? ==> o.exception.kind.KassertExceptionType? && o.exception.extra == []
  {
    ThrowingKassertSpecified(build, expression, exprText, where, message, KassertExceptionType, [])
  }

  /** `THROWING_KASSERT(expression)`: the empty message. */
  function ThrowingKassert1(build: Build, expression: Spine, exprText: string, where: SourceLocation): (o: Outcome)
    requires WellTyped(expression)
    ensures o.Throw? ==> o.exception.What() == BuildWhat(exprText, where, "")
  {
    assert MessageText([Str("")]) == "";
    ThrowingKassert2(build, expression, exprText, where, [Str("")])
  }

  /** In exception mode a throwing check throws exactly when the plain
      expression is false, whatever the active level; the `KassertException`
      it throws describes the expression and carries the message. */
  lemma ThrowingInExceptionMode(build: Build, expression: Spine, exprText: string, where: SourceLocation,
                                message: seq<Value>)
    requires WellTyped(expression) && MessageStreamable(message) && build.exceptionMode
    ensures var o := ThrowingKassert2(build, expression, exprText, where, message);
      (o.Throw? <==> !NativeTruth(expression)) && !o.Abort?
      && (o.Throw? ==> Contains(o.exception.What(), exprText) && Contains(o.exception.What(), MessageText(message)))
  {
    BuildWhatMentions(exprText, where, MessageText(message));
  }

  /** Outside exception mode a throwing check tests the plain expression
      under level `kthrow` and writes the exception's description instead of
      the report. It therefore aborts exactly when a `KASSERT` at level
      `kthrow` would, as long as no bitwise operator is followed by another
      operator (see `BitwiseChainKassertExample` for the other case). */
  lemma ThrowingMatchesKthrowAssertion(build: Build, expression: Spine, exprText: string, where: SourceLocation,
                                       message: seq<Value>)
    requires WellTyped(expression) && MessageStreamable(message) && !build.exceptionMode
    ensures var o := ThrowingKassert2(build, expression, exprText, where, message);
      !o.Throw?
      && (o.Abort? <==> AssertionEnabled(KThrow, build.activeLevel) && !NativeTruth(expression))
      && (OnlyLastBitwise(expression.steps) ==>
            o.Abort? == Kassert(build, expression, exprText, where, message, KThrow).Abort?)
      && (o.Abort? ==> o.written == BuildWhat(exprText, where, MessageText(message)) + "\n")
  {
    AsWrittenAgreesWhenOnlyLastBitwise(expression);
  }

  /** A throwing check whose expression holds does nothing, in either mode
      and for any exception type. */
  lemma ThrowingTrueIsNoOp(build: Build, expression: Spine, exprText: string, where: SourceLocation,
                           message: seq<Value>, exceptionType: ExceptionType, extra: seq<Value>)
    requires WellTyped(expression) && MessageStreamable(message) && NativeTruth(expression)
    ensures ThrowingKassertSpecified(build, expression, exprText, where, message, exceptionType, extra) == NoOp
  {
  }

  /* ---------- the library's own expectations ---------- */

  /** The two header lines for a failure in function `f` at `t.cpp:7`. */
  lemma ExampleHeaderLines()
    ensures FunctionLine(SourceLocation("t.cpp", 7, "f")) == "t.cpp: In function 'f':\n"
    ensures FailedLine(AssertionKind, SourceLocation("t.cpp", 7, "f")) == "t.cpp:7: FAILED ASSERTION\n"
  {
    assert Render(Int(7)) == "7";
  }

  /** `1 > 2` decomposes into one false binary node rendering as itself. */
  lemma ExampleDecomposition()
    ensures var e := BinaryExpr(Binary(Leaf(Int(1)), Gt, Int(2), false));
      WellTyped(Spine(Int(1), [Rel(Gt, Int(2))]))
      && DecomposeAsWritten(Spine(Int(1), [Rel(Gt, Int(2))])) == Expression(e)
      && RenderExpr(e) == "1 > 2"
  {
  }

  /** The report for the failed `1 > 2`: the two header lines, the
      expression text and the expansion. */
  lemma ExampleReport()
    ensures var e := BinaryExpr(Binary(Leaf(Int(1)), Gt, Int(2), false));
      ExprRenderable(e) && Convertible(e)
      && Report(AssertionKind, Expression(e), SourceLocation("t.cpp", 7, "f"), "1 > 2")
         == "t.cpp: In function 'f':\n" + "t.cpp:7: FAILED ASSERTION\n" + "\t1 > 2\n"
            + "with expansion:\n" + "\t1 > 2\n"
  {
    var where := SourceLocation("t.cpp", 7, "f");
    var e := BinaryExpr(Binary(Leaf(Int(1)), Gt, Int(2), false));
    ExampleDecomposition();
    ExampleHeaderLines();
    assert ExpansionReport(e) == "with expansion:\n" + "\t1 > 2\n";
    assert FailureReport(AssertionKind, where, "1 > 2")
      == "t.cpp: In function 'f':\n" + "t.cpp:7: FAILED ASSERTION\n" + "\t1 > 2\n";
  }

  /** `KASSERT(1 > 2)` in function `f` at `t.cpp:7` with the default build
      aborts with the report, the expansion and the empty message. */
  lemma FailedComparisonExample()
    ensures var s := Spine(Int(1), [Rel(Gt, Int(2))]);
      WellTyped(s)
      && Kassert1(Build(Normal, false), s, "1 > 2", SourceLocation("t.cpp", 7, "f"))
         == Abort("t.cpp: In function 'f':\n" + "t.cpp:7: FAILED ASSERTION\n" + "\t1 > 2\n"
                  + "with expansion:\n" + "\t1 > 2\n" + "\n")
  {
    var s := Spine(Int(1), [Rel(Gt, Int(2))]);
    var where := SourceLocation("t.cpp", 7, "f");
    ExampleDecomposition();
    KassertDefaults(Build(Normal, false), s, "1 > 2", where);
    ExampleReport();
  }

  /** `KASSERT(5 == 5 ^ 3 ^ 1)` aborts although the expression is 3, because
      the last `^` is applied to the `bool` stored for `5 == 5 ^ 3`; a
      `THROWING_KASSERT` of the same expression, which tests the plain value,
      does nothing, so outside exception mode it is not a `kthrow`-level
      `KASSERT` here. */
  lemma BitwiseChainKassertExample()
    ensures var s := Spine(Int(5), [Rel(Eq, Int(5)), Rel(BitXor, Int(3)), Rel(BitXor, Int(1))]);
      var b := Build(Normal, false);
      var w := SourceLocation("t.cpp", 7, "f");
      WellTyped(s) && NativeTruth(s)
      && Kassert1(b, s, "5 == 5 ^ 3 ^ 1", w).Abort?
      && Kassert(b, s, "5 == 5 ^ 3 ^ 1", w, [Str("")], KThrow).Abort?
      && ThrowingKassert1(b, s, "5 == 5 ^ 3 ^ 1", w) == NoOp
  {
    BitwiseChainFailsAsWritten();
  }

  /** `KASSERT(false, "", heavy)` with a level above the active one does
      nothing, while `light` below it aborts. */
  lemma LevelGateExample()
    ensures var s := Spine(Bool(false), []);
      WellTyped(s)
      && Kassert(Build(Normal, false), s, "false", SourceLocation("t.cpp", 1, "f"), [Str("")], Normal + 1) == NoOp
      && Kassert(Build(Normal, false), s, "false", SourceLocation("t.cpp", 1, "f"), [Str("")], Normal - 1).Abort?
  {
  }
}
