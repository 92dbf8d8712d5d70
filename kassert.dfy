/** Assertion levels, failure reports and the exception text of
    include/kassert/kassert.hpp. */
module Reporting {
  import opened Values
  import opened NativeOps
  import opened Logging
  import opened Decomposition

  /* ---------- assertion levels ---------- */

  /** The lowest predefined level, used by throwing checks outside exception
      mode. */
  const KThrow: int := 10
  /** The level of an assertion that names none. */
  const Normal: int := 30

  datatype Option<T> = None | Some(value: T)

  /** `KASSERT_ASSERTION_LEVEL`: the level the build configures, or `normal`
      when the build sets none. */
  function ActiveLevel(configured: Option<int>): int {
    match configured
    case None => Normal
    case Some(l) => l
  }

  /** `assertion_enabled`: an assertion is compiled in when its level does
      not exceed the active level. */
  predicate AssertionEnabled(level: int, active: int) {
    level <= active
  }

  /** Raising the active level never disables an assertion, and lowering an
      assertion's level never disables it either. */
  lemma EnabledMonotone(level: int, active: int, level': int, active': int)
    requires AssertionEnabled(level, active)
    requires level' <= level && active <= active'
    ensures AssertionEnabled(level', active')
  {
  }

  /** Without a configured level, exactly the assertions up to `normal` are
      enabled, `kthrow` among them; a build configured at `kthrow` disables
      `normal` assertions. */
  lemma DefaultLevels(level: int)
    ensures AssertionEnabled(level, ActiveLevel(None)) <==> level <= Normal
    ensures AssertionEnabled(KThrow, ActiveLevel(None)) && AssertionEnabled(Normal, ActiveLevel(None))
    ensures AssertionEnabled(KThrow, ActiveLevel(Some(KThrow)))
    ensures !AssertionEnabled(Normal, ActiveLevel(Some(KThrow)))
  {
  }

  /* ---------- texts ---------- */

  /** `SourceLocation`: file name, line number, function name. */
  datatype SourceLocation = SourceLocation(file: string, row: nat, func: string)

  /** The two header lines both overloads of `evaluate_and_print_assertion`
      write, followed by the tab-indented expression text. */
  function FailureReport(kind: string, where: SourceLocation, exprText: string): string {
    FunctionLine(where) + FailedLine(kind, where) + "\t" + exprText + "\n"
  }

  /** `<file>: In function '<function>':` and a line break. */
  function FunctionLine(where: SourceLocation): string {
    where.file + ": In function '" + where.func + "':\n"
  }

  /** `<file>:<row>: FAILED <kind>` and a line break; the row goes through
      the logger like any other integer. */
  function FailedLine(kind: string, where: SourceLocation): string {
    where.file + ":" + Render(Int(where.row)) + ": FAILED " + kind + "\n"
  }

  /** The expansion block the `Expression` overload adds. */
  function ExpansionReport(e: Expr): string
    requires ExprRenderable(e)
  {
    "with expansion:\n" + "\t" + RenderExpr(e) + "\n"
  }

  /** What evaluating a finalized assertion writes: nothing when it holds;
      otherwise the failure report, followed by the expansion when the
      assertion reached the evaluator as an expression. */
  function Report(kind: string, f: Finalized, where: SourceLocation, exprText: string): (r: string)
    requires f.Expression? ==> ExprRenderable(f.expr) && Convertible(f.expr)
    ensures r == "" <==> Truth(f)
    ensures !Truth(f) ==> FailureReport(kind, where, exprText) <= r
  {
    if Truth(f) then ""
    else
      match f
      case Boolean(_) => FailureReport(kind, where, exprText)
      case Expression(e) => FailureReport(kind, where, exprText) + ExpansionReport(e)
  }

  /** The part of `build_what`'s text that precedes the user message. */
  function WhatPrefix(expression: string, where: SourceLocation): string {
    "\n" + where.file + ": In function '" + where.func + "':\n"
    + where.file + ": " + NatToString(where.row) + ": FAILED ASSERTION\n"
    + "\t" + expression + "\n"
  }

  /** `build_what`: the description of a failed throwing check. Unlike the
      report it starts with an empty line, separates file and row by `": "`,
      always says `ASSERTION`, and ends with the user message and a line
      break. */
  function BuildWhat(expression: string, where: SourceLocation, message: string): (w: string)
    ensures |w| > |message| + |expression| + 1
    ensures w[0] == '\n' && w[|w| - 1] == '\n'
  {
    WhatPrefix(expression, where) + message + "\n"
  }

  /** Recovers the user message from a description, given the expression and
      the location it was built for; `None` when the text does not have the
      shape `build_what` produces. */
  function MessageOfWhat(what: string, expression: string, where: SourceLocation): Option<string> {
    var p := WhatPrefix(expression, where);
    if |what| >= |p| + 1 && what[..|p|] == p && what[|what| - 1] == '\n'
    then Some(what[|p|..|what| - 1])
    else None
  }

  /** `build_what` loses nothing: the user message can be read back from the
      description, so distinct messages give distinct descriptions. */
  lemma BuildWhatRoundTrip(expression: string, where: SourceLocation, message: string)
    ensures MessageOfWhat(BuildWhat(expression, where, message), expression, where) == Some(message)
  {
    var p := WhatPrefix(expression, where);
    var w := BuildWhat(expression, where, message);
    assert w == p + message + "\n";
    assert w[..|p|] == p;
    assert w[|p|..|w| - 1] == message;
  }

  /** `part` occurs in `text` starting at index `i`. */
  predicate OccursAt(text: string, part: string, i: int) {
    0 <= i <= |text| - |part| && text[i..i + |part|] == part
  }

  /** `part` occurs somewhere in `text`. */
  ghost predicate Contains(text: string, part: string) {
    exists i :: OccursAt(text, part, i)
  }

  /** Text that contains `part` still does after more text is appended. */
  lemma ContainsExtended(text: string, more: string, part: string)
    requires Contains(text, part)
    ensures Contains(text + more, part)
  {
    var i :| OccursAt(text, part, i);
    assert (text + more)[i..i + |part|] == text[i..i + |part|];
    assert OccursAt(text + more, part, i);
  }

  lemma ContainsMiddle(a: string, b: string, c: string)
    ensures Contains(a + b + c, b)
  {
    assert (a + b + c)[|a|..|a| + |b|] == b;
    assert OccursAt(a + b + c, b, |a|);
  }

  /** The description names the failed expression and carries the user
      message. */
  lemma BuildWhatMentions(expression: string, where: SourceLocation, message: string)
    ensures Contains(BuildWhat(expression, where, message), message)
    ensures Contains(BuildWhat(expression, where, message), expression)
  {
    var p := WhatPrefix(expression, where);
    assert BuildWhat(expression, where, message) == p + message + "\n";
    ContainsMiddle(p, message, "\n");
    var beforeExpr := "\n" + where.file + ": In function '" + where.func + "':\n"
      + where.file + ": " + NatToString(where.row) + ": FAILED ASSERTION\n" + "\t";
    assert BuildWhat(expression, where, message) == beforeExpr + expression + ("\n" + message + "\n");
    ContainsMiddle(beforeExpr, expression, "\n" + message + "\n");
  }

  /* ---------- evaluating and printing ---------- */

  /** `evaluate_and_print_assertion` for an assertion that reached the
      evaluator as a `bool`: returns it, and on failure streams the report
      through a temporary logger over the error stream, which receives it as
      one piece when the logger is destroyed. */
  method EvaluateAndPrintBool(kind: string, result: bool, where: SourceLocation, exprText: string,
                              sink: string)
    returns (ok: bool, written: string)
    ensures ok == result
    ensures written == if result then sink else sink + FailureReport(kind, where, exprText)
  {
    written := sink;
    if !result {
      var log := new Logger(sink);
      WriteFailureReport(log, kind, where, exprText);
      log.Close();
      written := log.out;
    }
    ok := result;
  }

  /** `evaluate_and_print_assertion` for an expression: returns its result,
      and on failure streams the report followed by the expansion. */
  method EvaluateAndPrintExpression(kind: string, e: Expr, where: SourceLocation, exprText: string,
                                    sink: string)
    returns (ok: bool, written: string)
    requires ExprRenderable(e) && Convertible(e)
    ensures ok == Result(e)
    ensures written == if ok then sink else sink + FailureReport(kind, where, exprText) + ExpansionReport(e)
  {
    written := sink;
    if !Result(e) {
      var log := new Logger(sink);
      WriteFailureReport(log, kind, where, exprText);
      WriteExpansion(log, e);
      log.Close();
      written := log.out;
    }
    ok := Result(e);
  }

  /** The header lines and the expression text, streamed fragment by
      fragment. */
  method WriteFailureReport(log: Logger, kind: string, where: SourceLocation, exprText: string)
    modifies log
    ensures log.buffer == old(log.buffer) + FailureReport(kind, where, exprText)
    ensures log.out == old(log.out)
  {
    ghost var start := log.buffer;
    WriteFunctionLine(log, where);
    WriteFailedLine(log, kind, where);
    log.Write("\t");
    log.Write(exprText);
    log.Write("\n");
    Regroup5(start, FunctionLine(where), FailedLine(kind, where), "\t", exprText, "\n");
  }

  method WriteFunctionLine(log: Logger, where: SourceLocation)
    modifies log
    ensures log.buffer == old(log.buffer) + FunctionLine(where)
    ensures log.out == old(log.out)
  {
    ghost var start := log.buffer;
    log.Write(where.file);
    log.Write(": In function '");
    log.Write(where.func);
    log.Write("':\n");
    Regroup4(start, where.file, ": In function '", where.func, "':\n");
  }

  method WriteFailedLine(log: Logger, kind: string, where: SourceLocation)
    modifies log
    ensures log.buffer == old(log.buffer) + FailedLine(kind, where)
    ensures log.out == old(log.out)
  {
    ghost var start := log.buffer;
    log.Write(where.file);
    log.Write(":");
    log.Log(Int(where.row));
    ghost var row := log.buffer;
    log.Write(": FAILED ");
    log.Write(kind);
    log.Write("\n");
    Regroup3(start, where.file, ":", Render(Int(where.row)));
    Regroup3(row, ": FAILED ", kind, "\n");
  }

  /** The expansion block, with the expression streamed into the logger. */
  method WriteExpansion(log: Logger, e: Expr)
    requires ExprRenderable(e)
    modifies log
    ensures log.buffer == old(log.buffer) + ExpansionReport(e)
    ensures log.out == old(log.out)
  {
    ghost var start := log.buffer;
    log.Write("with expansion:\n");
    log.Write("\t");
    StreamExpr(log, e);
    log.Write("\n");
    Regroup4(start, "with expansion:\n", "\t", RenderExpr(e), "\n");
  }

  /** The overload C++ picks for the finalized assertion: the result is the
      assertion's truth, and the error stream receives `Report`. */
  method EvaluateAndPrint(kind: string, f: Finalized, where: SourceLocation, exprText: string,
                          sink: string)
    returns (ok: bool, written: string)
    requires f.Expression? ==> ExprRenderable(f.expr) && Convertible(f.expr)
    ensures ok == Truth(f)
    ensures written == sink + Report(kind, f, where, exprText)
  {
    match f {
      case Boolean(b) =>
        ok, written := EvaluateAndPrintBool(kind, b, where, exprText, sink);
      case Expression(e) =>
        ok, written := EvaluateAndPrintExpression(kind, e, where, exprText, sink);
    }
  }

  /** A failing assertion's report names the expression text, and for an
      expression it shows the expansion. */
  lemma ReportMentions(kind: string, f: Finalized, where: SourceLocation, exprText: string)
    requires f.Expression? ==> ExprRenderable(f.expr) && Convertible(f.expr)
    requires !Truth(f)
    ensures Contains(Report(kind, f, where, exprText), exprText)
    ensures f.Expression? ==> Contains(Report(kind, f, where, exprText), RenderExpr(f.expr))
  {
    var head := FunctionLine(where) + FailedLine(kind, where) + "\t";
    var r := Report(kind, f, where, exprText);
    var tail := r[|head| + |exprText|..];
    assert r == head + exprText + tail;
    ContainsMiddle(head, exprText, tail);
    if f.Expression? {
      var front := FailureReport(kind, where, exprText) + "with expansion:\n" + "\t";
      assert r == front + RenderExpr(f.expr) + "\n";
      ContainsMiddle(front, RenderExpr(f.expr), "\n");
    }
  }

  /* ---------- exceptions ---------- */

  /** The exception type a throwing check names: `KassertException`, or a
      user type whose `what()` text is fixed by the type. */
  datatype ExceptionType = KassertExceptionType | CustomException(name: string, description: string)

  /** A constructed exception: its type, the description handed to its
      constructor and the further constructor arguments. */
  datatype Exception = Exception(kind: ExceptionType, message: string, extra: seq<Value>) {
    /** `what()`: a `KassertException` returns its description. */
    function What(): string {
      match kind
      case KassertExceptionType => message
      case CustomException(_, description) => description
    }
  }

  /** `KassertException::what()` returns exactly the text it was built with,
      whatever that text is. */
  lemma KassertWhatIsMessage(message: string)
    ensures Exception(KassertExceptionType, message, []).What() == message
  {
  }
}
