/** Expression decomposition (include/kassert/internal/expression_decomposition.hpp).

    `KASSERT(a op1 b op2 c ...)` expands to `Decomposer{} <= a op1 b op2 c ...`.
    The C++ grammar groups this as a left-leaning spine: the first operand is
    wrapped in a pending-left node, and each operator met along the spine
    either folds into a binary node (when the node overloads it) or converts
    the node to `bool` and continues as plain C++. The caller's expression is
    modelled by that spine, each right operand already evaluated. */
module Decomposition {
  import opened Values
  import opened NativeOps
  import opened Logging

  /** A binary node: the stored result, the left side, the operator's
      spelling and the right operand. */
  datatype Binary = Binary(lhs: Side, op: Op, rhs: Value, res: bool)

  /** The left side of a binary node: the first operand, or the binary node
      the chain grew from. */
  datatype Side = Leaf(operand: Value) | Chained(prev: Binary)

  /** The two kinds of finished expression node. */
  datatype Expr = Unary(operand: Value) | BinaryExpr(node: Binary)

  /** One operator met along the spine with its (evaluated) right operand. */
  datatype Step = Rel(op: Op, rhs: Value) | Logic(lop: LogicOp, rhs: Value)

  /** The caller's expression: its first operand and the operators that follow
      it at the top level, left to right. */
  datatype Spine = Spine(first: Value, steps: seq<Step>)

  /** What the fold has built so far: the pending-left wrapper, a binary node
      together with the C++ value it was computed from, or a plain value after
      the node has been converted to `bool`. */
  datatype Folded = Pending(operand: Value) | Node(node: Binary, value: Value) | Raw(value: Value)

  /** The argument `finalize_expr` hands to the evaluator. */
  datatype Finalized = Boolean(b: bool) | Expression(expr: Expr)

  /* ---------- rendering ---------- */

  /** Every operand in the node can be stringified. */
  predicate Renderable(n: Binary) {
    Admissible(n.rhs) && SideRenderable(n.lhs)
  }

  /** Every operand on the left side can be stringified. */
  predicate SideRenderable(s: Side) {
    match s
    case Leaf(a) => Admissible(a)
    case Chained(m) => Renderable(m)
  }

  predicate ExprRenderable(e: Expr) {
    match e
    case Unary(v) => Admissible(v)
    case BinaryExpr(n) => Renderable(n)
  }

  /** `BinaryExpression::stringify`: left side, the operator between single
      spaces, right operand; a nested node on the left is rendered the same
      way. */
  function RenderBinary(n: Binary): string
    requires Renderable(n)
  {
    RenderSide(n.lhs) + Infix(n.op) + StringifyValue(n.rhs)
  }

  /** An operator between single spaces. */
  function Infix(op: Op): string {
    " " + op.Text() + " "
  }

  /** The left side of a binary node as text. */
  function RenderSide(s: Side): string
    requires SideRenderable(s)
  {
    match s
    case Leaf(a) => StringifyValue(a)
    case Chained(m) => RenderBinary(m)
  }

  /** `Expression::stringify` for both kinds of node. */
  function RenderExpr(e: Expr): string
    requires ExprRenderable(e)
  {
    match e
    case Unary(v) => StringifyValue(v)
    case BinaryExpr(n) => RenderBinary(n)
  }

  /** `stringify` writing a binary node into a logger, fragment by fragment. */
  method StreamBinary(log: Logger, n: Binary)
    requires Renderable(n)
    modifies log
    ensures log.buffer == old(log.buffer) + RenderBinary(n)
    ensures log.out == old(log.out)
    decreases n, 1
  {
    ghost var start := log.buffer;
    StreamSide(log, n.lhs);
    log.Write(Infix(n.op));
    StringifyInto(log, n.rhs);
    Regroup3(start, RenderSide(n.lhs), Infix(n.op), StringifyValue(n.rhs));
  }

  /** The left side of a node written into a logger. */
  method StreamSide(log: Logger, s: Side)
    requires SideRenderable(s)
    modifies log
    ensures log.buffer == old(log.buffer) + RenderSide(s)
    ensures log.out == old(log.out)
    decreases s, 0
  {
    match s {
      case Leaf(a) => StringifyInto(log, a);
      case Chained(m) => StreamBinary(log, m);
    }
  }

  /** The `<<` of an expression into a logger. */
  method StreamExpr(log: Logger, e: Expr)
    requires ExprRenderable(e)
    modifies log
    ensures log.buffer == old(log.buffer) + RenderExpr(e)
    ensures log.out == old(log.out)
  {
    match e {
      case Unary(v) => StringifyInto(log, v);
      case BinaryExpr(n) => StreamBinary(log, n);
    }
  }

  /* ---------- results ---------- */

  /** A unary node needs an operand that converts to `bool`. */
  predicate Convertible(e: Expr) {
    e.Unary? ==> Scalar(e.operand)
  }

  /** `result()`: a binary node returns its stored result; a unary node
      converts its operand to `bool`. */
  function Result(e: Expr): bool
    requires Convertible(e)
  {
    match e
    case Unary(v) => Truthy(v)
    case BinaryExpr(n) => n.res
  }

  /** A state of the fold is consistent: a node's stored result is the truth
      of the value it was computed from, its operands render, and plain values
      are scalars. */
  predicate Valid(f: Folded) {
    match f
    case Pending(_) => true
    case Node(n, v) => Scalar(v) && n.res == Truthy(v) && Renderable(n)
    case Raw(v) => Scalar(v)
  }

  /** The C++ value a fold state stands for. */
  function NativeOf(f: Folded): Value {
    match f
    case Pending(a) => a
    case Node(_, v) => v
    case Raw(v) => v
  }

  /** `operator bool` of the pending-left wrapper and of a binary node: used
      when `&&` or `||` follows. */
  function FoldedTruth(f: Folded): (t: bool)
    requires Valid(f) && Scalar(NativeOf(f))
    ensures t == Truthy(NativeOf(f))
  {
    match f
    case Pending(a) => Truthy(a)
    case Node(n, _) => n.res
    case Raw(v) => Truthy(v)
  }

  /* ---------- the fold ---------- */

  /** The operands C++ accepts for one more step: any operator the first
      operand supports, and scalars after that (a node, or a plain value, is
      a `bool` or an integer). */
  predicate StepDefined(f: Folded, s: Step) {
    match f
    case Pending(a) =>
      (match s
       case Rel(op, b) => Defined(a, op, b) && Admissible(a)
       case Logic(_, b) => Scalar(a) && Scalar(b))
    case _ => Scalar(s.rhs)
  }

  predicate FoldDefined(f: Folded, steps: seq<Step>) {
    |steps| == 0 ||
    (StepDefined(f, steps[0]) && forall k :: 1 <= k < |steps| ==> Scalar(steps[k].rhs))
  }

  /** A binary node met by one more operator whose left operand is `lhs`:
      the node-overloaded operators (`& | ^ == !=`) grow the chain; any other
      operator converts the node and continues as plain C++. */
  function Extend(n: Binary, lhs: Value, op: Op, b: Value): (r: Folded)
    requires Renderable(n) && Scalar(lhs) && Scalar(b)
    ensures Valid(r) && NativeOf(r) == Apply(lhs, op, b)
    ensures r.Node? <==> op.Chains()
  {
    var v := Apply(lhs, op, b);
    if op.Chains() then Node(Binary(Chained(n), op, b, Truthy(v)), v) else Raw(v)
  }

  /** One step as the library is written: a pending-left operand folds with
      any of the nine operators into a binary node holding the result of
      `a op b`; a binary node folds further with the previous node's `bool`
      result as the left operand (`lhs.result() op rhs`). */
  function FoldStepAsWritten(f: Folded, s: Step): (r: Folded)
    requires Valid(f) && StepDefined(f, s)
    ensures Valid(r) && !r.Pending?
    ensures r.Node? <==> FoldStep(f, s).Node?
    ensures (f.Node? ==> f.value.Bool?) ==> r == FoldStep(f, s)
  {
    match s
    case Logic(lop, b) => Raw(Bool(Combine(FoldedTruth(f), lop, Truthy(b))))
    case Rel(op, b) =>
      match f
      case Pending(a) =>
        var v := Apply(a, op, b);
        Node(Binary(Leaf(a), op, b, Truthy(v)), v)
      case Node(n, _) => Extend(n, Bool(n.res), op, b)
      case Raw(v) => Raw(Apply(v, op, b))
  }

  /** One step as evidently intended: like `FoldStepAsWritten`, except that a
      binary node folds further with the C++ value it was computed from, so the
      fold computes exactly what the undecomposed expression computes. */
  function FoldStep(f: Folded, s: Step): (r: Folded)
    requires Valid(f) && StepDefined(f, s)
    ensures Valid(r) && !r.Pending?
    ensures StepDefined(Pending(NativeOf(f)), s)
    ensures NativeOf(r) == NativeStep(NativeOf(f), s)
  {
    match s
    case Logic(lop, b) => Raw(Bool(Combine(FoldedTruth(f), lop, Truthy(b))))
    case Rel(op, b) =>
      match f
      case Pending(a) =>
        var v := Apply(a, op, b);
        Node(Binary(Leaf(a), op, b, Truthy(v)), v)
      case Node(n, v) => Extend(n, v, op, b)
      case Raw(v) => Raw(Apply(v, op, b))
  }

  function FoldStepsAsWritten(f: Folded, steps: seq<Step>): (r: Folded)
    requires Valid(f) && FoldDefined(f, steps)
    ensures Valid(r)
    ensures |steps| == 0 ==> r == f
    ensures |steps| > 0 ==> !r.Pending?
    decreases |steps|
  {
    if |steps| == 0 then f
    else FoldStepsAsWritten(FoldStepAsWritten(f, steps[0]), steps[1..])
  }

  function FoldSteps(f: Folded, steps: seq<Step>): (r: Folded)
    requires Valid(f) && FoldDefined(f, steps)
    ensures Valid(r)
    ensures |steps| == 0 ==> r == f
    ensures |steps| > 0 ==> !r.Pending?
    decreases |steps|
  {
    if |steps| == 0 then f
    else FoldSteps(FoldStep(f, steps[0]), steps[1..])
  }

  /** `finalize_expr`: a pending-left operand becomes a unary node over the
      same operand, a binary node is passed on unchanged, and a plain value is
      passed on as `bool`. The truth is that of the fold state. */
  function Finalize(f: Folded): (r: Finalized)
    requires Valid(f) && Scalar(NativeOf(f))
    requires f.Pending? ==> Admissible(f.operand)
    ensures r.Expression? ==> ExprRenderable(r.expr) && Convertible(r.expr)
    ensures Truth(r) == FoldedTruth(f)
  {
    match f
    case Pending(a) => Expression(Unary(a))
    case Node(n, _) => Expression(BinaryExpr(n))
    case Raw(v) => Boolean(Truthy(v))
  }

  /** The truth the evaluator sees. */
  function Truth(f: Finalized): bool
    requires f.Expression? ==> Convertible(f.expr)
  {
    match f
    case Boolean(b) => b
    case Expression(e) => Result(e)
  }

  /** The precedence rank of a step's operator. */
  function Level(s: Step): nat {
    match s
    case Rel(op, _) => op.Precedence()
    case Logic(lop, _) => lop.Precedence()
  }

  /** A spine C++ can produce: going up the left spine of a parse tree the
      operators bind ever more loosely (an operator binding more tightly than
      its left neighbour takes the right operand away from it instead). The
      leading `Decomposer{} <=` is relational, so every operator listed here
      can follow it. */
  predicate Parses(steps: seq<Step>) {
    forall i, j :: 0 <= i < j < |steps| ==> Level(steps[i]) <= Level(steps[j])
  }

  /** A superset of the expressions C++ compiles that parse as this spine:
      every operator applies to its operands, and a lone operand converts to
      `bool`. */
  predicate WellTyped(s: Spine) {
    Parses(s.steps) && FoldDefined(Pending(s.first), s.steps) && (|s.steps| == 0 ==> Scalar(s.first))
  }

  /** The full decomposition `finalize_expr(Decomposer{} <= expression)`, with
      the intended chaining. */
  function Decompose(s: Spine): (r: Finalized)
    requires WellTyped(s)
    ensures r.Expression? ==> ExprRenderable(r.expr) && Convertible(r.expr)
    ensures |s.steps| == 0 ==> r == Expression(Unary(s.first))
    ensures |s.steps| > 0 ==> !(r.Expression? && r.expr.Unary?)
  {
    var f := FoldSteps(Pending(s.first), s.steps);
    Finalize(f)
  }

  /** The full decomposition as the library is written. */
  function DecomposeAsWritten(s: Spine): (r: Finalized)
    requires WellTyped(s)
    ensures r.Expression? ==> ExprRenderable(r.expr) && Convertible(r.expr)
    ensures |s.steps| == 0 ==> r == Expression(Unary(s.first))
    ensures |s.steps| > 0 ==> !(r.Expression? && r.expr.Unary?)
  {
    var f := FoldStepsAsWritten(Pending(s.first), s.steps);
    Finalize(f)
  }

  /* ---------- plain C++ evaluation, the reference ---------- */

  /** One operator of the undecomposed expression. */
  function NativeStep(acc: Value, s: Step): (r: Value)
    requires StepDefined(Pending(acc), s)
    ensures Scalar(r)
  {
    match s
    case Rel(op, b) => Apply(acc, op, b)
    case Logic(lop, b) => Bool(Combine(Truthy(acc), lop, Truthy(b)))
  }

  /** The undecomposed expression, evaluated left to right. */
  function NativeFold(acc: Value, steps: seq<Step>): (r: Value)
    requires FoldDefined(Pending(acc), steps)
    ensures |steps| == 0 ==> r == acc
    ensures |steps| > 0 ==> Scalar(r)
    decreases |steps|
  {
    if |steps| == 0 then acc
    else NativeFold(NativeStep(acc, steps[0]), steps[1..])
  }

  /** The truth of the undecomposed expression. */
  function NativeTruth(s: Spine): bool
    requires WellTyped(s)
  {
    Truthy(NativeFold(s.first, s.steps))
  }
}
