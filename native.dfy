/** The C++ meaning of the operators an assertion expression may contain, on
    integral and boolean operands (include/kassert/internal/expression_decomposition.hpp
    decomposes them; the values they produce are the language's own).

    A `bool` operand takes part in arithmetic as 0 or 1. Comparisons yield a
    `bool`; `&`, `|` and `^` yield an integer, computed bit by bit on the two's
    complement representation, of any width. */
module NativeOps {
  import opened Values

  /** The operators that can follow an operand inside a decomposed expression. */
  datatype Op = Eq | Ne | Lt | Le | Gt | Ge | BitAnd | BitOr | BitXor {

    /** The operator's spelling, as recorded in a binary node. */
    function Text(): string {
      match this
      case Eq => "=="
      case Ne => "!="
      case Lt => "<"
      case Le => "<="
      case Gt => ">"
      case Ge => ">="
      case BitAnd => "&"
      case BitOr => "|"
      case BitXor => "^"
    }

    /** The operators a binary node overloads, so that it can grow into a
        longer chain. */
    predicate Chains() {
      Eq? || Ne? || BitAnd? || BitOr? || BitXor?
    }

    predicate Equality() {
      Eq? || Ne?
    }

    predicate Comparison() {
      !(BitAnd? || BitOr? || BitXor?)
    }

    /** C++ precedence rank, smaller binding tighter: relational operators,
        then equality, then `&`, `^` and `|` in that order. */
    function Precedence(): nat {
      match this
      case Lt => 9
      case Le => 9
      case Gt => 9
      case Ge => 9
      case Eq => 10
      case Ne => 10
      case BitAnd => 11
      case BitXor => 12
      case BitOr => 13
    }
  }

  /** The short-circuiting logical operators, which decomposition never
      intercepts. */
  datatype LogicOp = And | Or {
    /** C++ precedence rank: both bind more loosely than every `Op`. */
    function Precedence(): nat {
      match this
      case And => 14
      case Or => 15
    }
  }

  function Combine(l: bool, op: LogicOp, r: bool): bool {
    match op
    case And => l && r
    case Or => l || r
  }

  /** The integer a scalar stands for in arithmetic. */
  function IntOf(v: Value): int
    requires Scalar(v)
  {
    match v
    case Int(i) => i
    case Bool(b) => if b then 1 else 0
  }

  /** Conversion to `bool`: nonzero integers are true. */
  function Truthy(v: Value): (t: bool)
    requires Scalar(v)
    ensures t <==> IntOf(v) != 0
  {
    match v
    case Int(i) => i != 0
    case Bool(b) => b
  }

  /** A scalar that is exactly 0 or 1, so that converting it to `bool` and back
      gives the same number. */
  predicate BoolLike(v: Value) {
    v.Bool? || (v.Int? && (v.i == 0 || v.i == 1))
  }

  /* ---------- two's complement bitwise operators on unbounded integers ---------- */

  function Abs(x: int): nat {
    if x < 0 then -x else x
  }

  /** Halving towards minus infinity strictly shrinks every number except 0
      and -1, which are its fixed points. */
  lemma HalfShrinks(x: int)
    ensures x / 2 == x <==> x == 0 || x == -1
    ensures Abs(x / 2) <= Abs(x)
    ensures x != 0 && x != -1 ==> Abs(x / 2) < Abs(x)
  {
  }

  /** Whether `x` is a sign-only number: all bits 0, or all bits 1. */
  predicate SignOnly(x: int) {
    x == 0 || x == -1
  }

  /** `x & y`: bit 0 is set when it is set in both operands, and with a
      non-negative operand the result lies between 0 and that operand. */
  function AndInt(x: int, y: int): (r: int)
    ensures r % 2 == (if x % 2 == 1 && y % 2 == 1 then 1 else 0)
    ensures x >= 0 ==> 0 <= r <= x
    ensures y >= 0 ==> 0 <= r <= y
    decreases Abs(x) + Abs(y)
  {
    if SignOnly(x) && SignOnly(y) then (if x == -1 && y == -1 then -1 else 0)
    else
      HalfShrinks(x); HalfShrinks(y);
      2 * AndInt(x / 2, y / 2) + (if x % 2 == 1 && y % 2 == 1 then 1 else 0)
  }

  /** `x | y`: bit 0 is set when it is set in either operand, and for
      non-negative operands the result is at least either one and at most
      their sum. */
  function OrInt(x: int, y: int): (r: int)
    ensures r % 2 == (if x % 2 == 1 || y % 2 == 1 then 1 else 0)
    ensures x >= 0 && y >= 0 ==> x <= r && y <= r && r <= x + y
    decreases Abs(x) + Abs(y)
  {
    if SignOnly(x) && SignOnly(y) then (if x == -1 || y == -1 then -1 else 0)
    else
      HalfShrinks(x); HalfShrinks(y);
      2 * OrInt(x / 2, y / 2) + (if x % 2 == 1 || y % 2 == 1 then 1 else 0)
  }

  /** `x ^ y`: bit 0 is set when the operands' bits 0 differ, and for
      non-negative operands the result lies between 0 and their sum. */
  function XorInt(x: int, y: int): (r: int)
    ensures r % 2 == (if x % 2 == y % 2 then 0 else 1)
    ensures x >= 0 && y >= 0 ==> 0 <= r <= x + y
    decreases Abs(x) + Abs(y)
  {
    if SignOnly(x) && SignOnly(y) then (if x == y then 0 else -1)
    else
      HalfShrinks(x); HalfShrinks(y);
      2 * XorInt(x / 2, y / 2) + (if x % 2 == y % 2 then 0 else 1)
  }

  /** `x | y` is zero exactly when both operands are. */
  lemma {:induction false} OrIntZero(x: int, y: int)
    ensures OrInt(x, y) == 0 <==> x == 0 && y == 0
    decreases Abs(x) + Abs(y)
  {
    if !(SignOnly(x) && SignOnly(y)) {
      HalfShrinks(x); HalfShrinks(y);
      OrIntZero(x / 2, y / 2);
    }
  }

  /** `x ^ y` is zero exactly when the operands are equal. */
  lemma {:induction false} XorIntZero(x: int, y: int)
    ensures XorInt(x, y) == 0 <==> x == y
    decreases Abs(x) + Abs(y)
  {
    if !(SignOnly(x) && SignOnly(y)) {
      HalfShrinks(x); HalfShrinks(y);
      XorIntZero(x / 2, y / 2);
    }
  }

  /** `0 & y` is zero. */
  lemma {:induction false} AndIntZero(y: int)
    ensures AndInt(0, y) == 0
    decreases Abs(y)
  {
    if !SignOnly(y) {
      HalfShrinks(y);
      AndIntZero(y / 2);
    }
  }

  /** `1 & y` keeps only the lowest bit of `y`. */
  lemma AndIntOne(y: int)
    ensures AndInt(1, y) == y % 2
  {
    AndIntZero(y / 2);
  }

  /* ---------- the operators on values ---------- */

  /** The operand combinations C++ accepts: any two scalars with any
      operator; two containers or strings only with `==` and `!=`, which
      compare them element by element. */
  predicate Defined(a: Value, op: Op, b: Value) {
    (Scalar(a) && Scalar(b))
    || (op.Equality() && !Scalar(a) && !Scalar(b) && Streamable(a) && Streamable(b))
  }

  /** The value of `a op b` in C++. */
  function Apply(a: Value, op: Op, b: Value): (r: Value)
    requires Defined(a, op, b)
    ensures Scalar(r)
    ensures op.Comparison() ==> r.Bool?
  {
    if !Scalar(a) then
      if op.Eq? then Bool(a == b) else Bool(a != b)
    else
      var x, y := IntOf(a), IntOf(b);
      match op
      case Eq => Bool(x == y)
      case Ne => Bool(x != y)
      case Lt => Bool(x < y)
      case Le => Bool(x <= y)
      case Gt => Bool(x > y)
      case Ge => Bool(x >= y)
      case BitAnd => Int(AndInt(x, y))
      case BitOr => Int(OrInt(x, y))
      case BitXor => Int(XorInt(x, y))
  }

  /** The truth of `p op b` when the left operand is a `bool` holding `p`, as
      happens when a decomposed binary node is combined further: the node
      enters the operation as 0 or 1, so `&` keeps only the lowest bit of `b`,
      and `==` compares `b` with 0 or 1. */
  lemma BoolOperandTruth(p: bool, op: Op, b: Value)
    requires Scalar(b)
    ensures var y := IntOf(b);
      Truthy(Apply(Bool(p), op, b)) ==
        match op
        case Eq => y == (if p then 1 else 0)
        case Ne => y != (if p then 1 else 0)
        case Lt => (if p then 1 else 0) < y
        case Le => (if p then 1 else 0) <= y
        case Gt => (if p then 1 else 0) > y
        case Ge => (if p then 1 else 0) >= y
        case BitAnd => p && y % 2 == 1
        case BitOr => p || y != 0
        case BitXor => y != (if p then 1 else 0)
  {
    var x, y := IntOf(Bool(p)), IntOf(b);
    match op {
      case BitAnd =>
        if p { AndIntOne(y); } else { AndIntZero(y); }
      case BitOr => OrIntZero(x, y);
      case BitXor => XorIntZero(x, y);
      case _ =>
    }
  }

  /** Converting a 0-or-1 operand to `bool` and back changes no result. */
  lemma BoolLikeOperandUnchanged(a: Value, op: Op, b: Value)
    requires Scalar(a) && BoolLike(a) && Scalar(b)
    ensures Apply(Bool(Truthy(a)), op, b) == Apply(a, op, b)
  {
  }
}
