/** What decomposition promises about the assertion it takes apart: the
    outcome is that of the plain C++ expression, the expansion shows every
    operand when the whole spine was decomposed, and `&&` or `||` switch the
    expansion off. Also the discrepancy between the library as written and
    that promise for chains of bitwise operators. */
module DecompositionProperties {
  import opened Values
  import opened NativeOps
  import opened Decomposition

  /* ---------- outcome ---------- */

  /** Every fold state stands for the value the plain C++ expression has at
      the same point. */
  lemma {:induction false} FoldIsNative(f: Folded, steps: seq<Step>)
    requires Valid(f) && FoldDefined(f, steps)
    ensures FoldDefined(Pending(NativeOf(f)), steps)
    ensures NativeOf(FoldSteps(f, steps)) == NativeFold(NativeOf(f), steps)
    decreases |steps|
  {
    if |steps| > 0 {
      var g := FoldStep(f, steps[0]);
      FoldIsNative(g, steps[1..]);
    }
  }

  /** Decomposition does not change what the assertion checks: the truth the
      evaluator sees is the truth of the undecomposed expression. */
  lemma DecompositionPreservesOutcome(s: Spine)
    requires WellTyped(s)
    ensures Truth(Decompose(s)) == NativeTruth(s)
  {
    FoldIsNative(Pending(s.first), s.steps);
  }

  /* ---------- shape of the result ---------- */

  /** The spine was decomposed all the way up: no `&&` or `||`, and every
      operator after the first is one a binary node overloads. */
  predicate FullyDecomposed(steps: seq<Step>) {
    forall k :: 0 <= k < |steps| ==> steps[k].Rel? && (k > 0 ==> steps[k].op.Chains())
  }

  /** Past the first operator, the fold stays a node exactly as long as every
      operator met is one a node overloads. */
  lemma {:induction false} NodeFoldShape(f: Folded, steps: seq<Step>)
    requires Valid(f) && !f.Pending? && FoldDefined(f, steps)
    ensures FoldSteps(f, steps).Node? <==>
      f.Node? && forall k :: 0 <= k < |steps| ==> steps[k].Rel? && steps[k].op.Chains()
    decreases |steps|
  {
    if |steps| > 0 {
      var g := FoldStep(f, steps[0]);
      NodeFoldShape(g, steps[1..]);
      assert forall k :: 1 <= k < |steps| ==> steps[k] == steps[1..][k - 1];
    }
  }

  /** The evaluator receives an expression (and prints an expansion) exactly
      when the spine was decomposed all the way up; any `&&`, `||`, or an
      operator a binary node does not overload, leaves a plain `bool`. */
  lemma ExpansionIffFullyDecomposed(s: Spine)
    requires WellTyped(s)
    ensures Decompose(s).Expression? <==> FullyDecomposed(s.steps)
  {
    if |s.steps| > 0 {
      var g := FoldStep(Pending(s.first), s.steps[0]);
      NodeFoldShape(g, s.steps[1..]);
      assert forall k :: 1 <= k < |s.steps| ==> s.steps[k] == s.steps[1..][k - 1];
    }
  }

  /** Folding one more step onto a spine is one more `FoldStep`. */
  lemma {:induction false} FoldStepsSnoc(f: Folded, pre: seq<Step>, st: Step)
    requires Valid(f) && FoldDefined(f, pre + [st])
    ensures FoldDefined(f, pre)
    ensures StepDefined(FoldSteps(f, pre), st)
    ensures FoldSteps(f, pre + [st]) == FoldStep(FoldSteps(f, pre), st)
    decreases |pre|
  {
    var all := pre + [st];
    if |pre| > 0 {
      assert all[0] == pre[0];
      assert forall k :: 1 <= k < |pre| ==> pre[k] == all[k];
      var g := FoldStep(f, pre[0]);
      assert all[1..] == pre[1..] + [st];
      FoldStepsSnoc(g, pre[1..], st);
    }
  }

  /** The same for the fold as written. */
  lemma {:induction false} FoldStepsAsWrittenSnoc(f: Folded, pre: seq<Step>, st: Step)
    requires Valid(f) && FoldDefined(f, pre + [st])
    ensures FoldDefined(f, pre)
    ensures StepDefined(FoldStepsAsWritten(f, pre), st)
    ensures FoldStepsAsWritten(f, pre + [st]) == FoldStepAsWritten(FoldStepsAsWritten(f, pre), st)
    decreases |pre|
  {
    var all := pre + [st];
    if |pre| > 0 {
      assert all[0] == pre[0];
      assert forall k :: 1 <= k < |pre| ==> pre[k] == all[k];
      var g := FoldStepAsWritten(f, pre[0]);
      assert all[1..] == pre[1..] + [st];
      FoldStepsAsWrittenSnoc(g, pre[1..], st);
    }
  }

  /** The prefix of a parsed, well-typed spine is parsed and well-typed. */
  lemma PrefixWellTyped(first: Value, pre: seq<Step>, st: Step)
    requires WellTyped(Spine(first, pre + [st]))
    requires |pre| > 0 || st.Logic?
    ensures WellTyped(Spine(first, pre))
  {
    FoldStepsSnoc(Pending(first), pre, st);
    var all := pre + [st];
    assert forall k :: 0 <= k < |pre| ==> pre[k] == all[k];
  }

  /** An `&&` or `||` on the spine converts what came before it to `bool`
      through `operator bool` and combines it with the right operand's truth
      as plain C++ does, so the evaluator gets a `bool`, and a false left side
      of `&&` (a true one of `||`) decides the outcome whatever the right
      operand is. As written, the left side is the truth the decomposed prefix
      has; with the intended chaining, that is the prefix's C++ truth. */
  lemma LogicalStepOutcome(first: Value, pre: seq<Step>, lop: LogicOp, b: Value)
    requires WellTyped(Spine(first, pre + [Logic(lop, b)]))
    ensures WellTyped(Spine(first, pre)) && Scalar(b)
    ensures DecomposeAsWritten(Spine(first, pre + [Logic(lop, b)]))
      == Boolean(Combine(Truth(DecomposeAsWritten(Spine(first, pre))), lop, Truthy(b)))
    ensures Decompose(Spine(first, pre + [Logic(lop, b)]))
      == Boolean(Combine(NativeTruth(Spine(first, pre)), lop, Truthy(b)))
  {
    PrefixWellTyped(first, pre, Logic(lop, b));
    assert (pre + [Logic(lop, b)])[|pre|] == Logic(lop, b);
    FoldStepsAsWrittenSnoc(Pending(first), pre, Logic(lop, b));
    FoldStepsSnoc(Pending(first), pre, Logic(lop, b));
    FoldIsNative(Pending(first), pre);
  }

  /* ---------- the expansion text ---------- */

  /** The operands of a fully decomposed spine joined by their operators
      (each between single spaces), each operand stringified on its own: the
      independent description of the expansion. */
  function SpineText(first: Value, steps: seq<Step>): string
    requires Admissible(first)
    requires forall k :: 0 <= k < |steps| ==> steps[k].Rel? && Admissible(steps[k].rhs)
  {
    if |steps| == 0 then StringifyValue(first)
    else
      var last := steps[|steps| - 1];
      SpineText(first, steps[..|steps| - 1]) + Infix(last.op) + StringifyValue(last.rhs)
  }

  /** Every operand of a defined spine can be stringified. */
  lemma OperandsAdmissible(first: Value, steps: seq<Step>)
    requires |steps| > 0 && FoldDefined(Pending(first), steps) && steps[0].Rel?
    ensures Admissible(first)
    ensures forall k :: 0 <= k < |steps| ==> Admissible(steps[k].rhs)
  {
  }

  /** One more decomposed operator appends itself and its right operand to
      the rendering. */
  lemma FoldStepRenders(f: Folded, st: Step)
    requires Valid(f) && StepDefined(f, st) && st.Rel?
    requires f.Pending? || (f.Node? && st.op.Chains())
    requires f.Pending? ==> Admissible(f.operand)
    ensures Admissible(st.rhs)
    ensures FoldStep(f, st).Node?
    ensures RenderBinary(FoldStep(f, st).node)
      == (if f.Pending? then StringifyValue(f.operand) else RenderBinary(f.node)) + Infix(st.op) + StringifyValue(st.rhs)
  {
  }

  /** A fully decomposed spine folds into a node that renders as the
      operands joined by their operators. */
  lemma {:induction false} FoldRendersSpine(first: Value, steps: seq<Step>)
    requires |steps| > 0 && FoldDefined(Pending(first), steps) && FullyDecomposed(steps)
    ensures Admissible(first) && forall k :: 0 <= k < |steps| ==> Admissible(steps[k].rhs)
    ensures FoldSteps(Pending(first), steps).Node?
    ensures RenderBinary(FoldSteps(Pending(first), steps).node) == SpineText(first, steps)
    decreases |steps|
  {
    OperandsAdmissible(first, steps);
    var n := |steps|;
    var pre, last := steps[..n - 1], steps[n - 1];
    assert steps == pre + [last];
    FoldStepsSnoc(Pending(first), pre, last);
    var f := FoldSteps(Pending(first), pre);
    if n > 1 {
      assert FullyDecomposed(pre);
      FoldRendersSpine(first, pre);
    }
    FoldStepRenders(f, last);
  }

  /** The expansion of a fully decomposed assertion shows every operand and
      every operator, left to right, as `stringify_value` prints each. */
  lemma RenderShowsAllOperands(s: Spine)
    requires WellTyped(s) && FullyDecomposed(s.steps)
    ensures Decompose(s).Expression?
    ensures Admissible(s.first) && forall k :: 0 <= k < |s.steps| ==> Admissible(s.steps[k].rhs)
    ensures RenderExpr(Decompose(s).expr) == SpineText(s.first, s.steps)
  {
    if |s.steps| > 0 {
      FoldRendersSpine(s.first, s.steps);
    }
  }

  /* ---------- as written versus intended ---------- */

  /** Every operator except possibly the last one is a comparison. */
  predicate OnlyLastBitwise(steps: seq<Step>) {
    forall k :: 0 <= k < |steps| - 1 ==> steps[k].Rel? ==> steps[k].op.Comparison()
  }

  lemma {:induction false} AsWrittenAgreesFrom(f: Folded, steps: seq<Step>)
    requires Valid(f) && FoldDefined(f, steps) && OnlyLastBitwise(steps)
    requires f.Node? ==> f.value.Bool?
    ensures FoldStepsAsWritten(f, steps) == FoldSteps(f, steps)
    decreases |steps|
  {
    if |steps| > 0 {
      var g := FoldStep(f, steps[0]);
      assert FoldStepAsWritten(f, steps[0]) == g;
      if |steps| > 1 {
        assert forall k :: 0 <= k < |steps[1..]| - 1 ==> steps[1..][k] == steps[k + 1];
        AsWrittenAgreesFrom(g, steps[1..]);
      }
    }
  }

  /** As long as no bitwise operator is followed by another operator, the
      library as written decomposes exactly as intended: a node built by a
      comparison holds a `bool`, so folding on its result loses nothing, and
      the outcome is that of plain C++. This covers every chained assertion
      the library's own tests make. */
  lemma AsWrittenAgreesWhenOnlyLastBitwise(s: Spine)
    requires WellTyped(s)
    ensures OnlyLastBitwise(s.steps) ==> DecomposeAsWritten(s) == Decompose(s)
    ensures OnlyLastBitwise(s.steps) ==> Truth(DecomposeAsWritten(s)) == NativeTruth(s)
  {
    if OnlyLastBitwise(s.steps) {
      AsWrittenAgreesFrom(Pending(s.first), s.steps);
      DecompositionPreservesOutcome(s);
    }
  }

  /** Two fold states that differ at most in the results their nodes store
      and the values those were computed from. */
  predicate SameShape(f: Folded, g: Folded)
    requires Valid(f) && Valid(g)
  {
    match f
    case Pending(_) => g == f
    case Node(n, _) => g.Node? && RenderBinary(n) == RenderBinary(g.node)
    case Raw(_) => g.Raw?
  }

  /** Folding from states of the same shape, as written and as intended,
      gives states of the same shape. */
  lemma {:induction false} SameShapeFolds(f: Folded, g: Folded, steps: seq<Step>)
    requires Valid(f) && Valid(g) && SameShape(f, g)
    requires FoldDefined(f, steps) && FoldDefined(g, steps)
    ensures SameShape(FoldStepsAsWritten(f, steps), FoldSteps(g, steps))
    decreases |steps|
  {
    if |steps| > 0 {
      var f1, g1 := FoldStepAsWritten(f, steps[0]), FoldStep(g, steps[0]);
      assert SameShape(f1, g1);
      SameShapeFolds(f1, g1, steps[1..]);
    }
  }

  /** The expansion the library prints as written is the one the intended
      decomposition gives: it appears exactly when the spine was decomposed
      all the way up, and then shows every operand and operator, left to
      right. Only the stored results differ. */
  lemma AsWrittenExpansion(s: Spine)
    requires WellTyped(s)
    ensures DecomposeAsWritten(s).Expression? <==> FullyDecomposed(s.steps)
    ensures FullyDecomposed(s.steps) ==>
      Admissible(s.first) && (forall k :: 0 <= k < |s.steps| ==> Admissible(s.steps[k].rhs))
      && RenderExpr(DecomposeAsWritten(s).expr) == SpineText(s.first, s.steps)
  {
    SameShapeFolds(Pending(s.first), Pending(s.first), s.steps);
    ExpansionIffFullyDecomposed(s);
    if FullyDecomposed(s.steps) {
      RenderShowsAllOperands(s);
    }
  }

  /** A node folds further on its stored `bool` only: two nodes that differ
      only in the C++ value they were computed from fold identically. */
  lemma AsWrittenForgetsNodeValue(n: Binary, v1: Value, v2: Value, st: Step)
    requires Valid(Node(n, v1)) && Valid(Node(n, v2))
    requires StepDefined(Node(n, v1), st)
    ensures FoldStepAsWritten(Node(n, v1), st) == FoldStepAsWritten(Node(n, v2), st)
  {
  }

  /** `5 == 5 ^ 3 ^ 1` is `1 ^ 3 ^ 1`, that is 3, so the plain assertion
      holds. The library stores `true` for `5 == 5 ^ 3` (whose value is 2),
      then folds the last `^` onto that `bool`, computes `1 ^ 1 == 0` and
      fails. The intended fold agrees with plain C++. */
  lemma BitwiseChainFailsAsWritten()
    ensures var s := Spine(Int(5), [Rel(Eq, Int(5)), Rel(BitXor, Int(3)), Rel(BitXor, Int(1))]);
      WellTyped(s) && NativeTruth(s) && !Truth(DecomposeAsWritten(s)) && Truth(Decompose(s))
  {
    assert XorInt(1, 3) == 2;
    assert XorInt(2, 1) == 3;
    assert XorInt(1, 1) == 0;
    var s := Spine(Int(5), [Rel(Eq, Int(5)), Rel(BitXor, Int(3)), Rel(BitXor, Int(1))]);
    DecompositionPreservesOutcome(s);
  }

  /** `5 == 5 ^ 3 ^ 2` is `1 ^ 3 ^ 2`, that is 0, so the plain assertion
      fails. The library folds the last `^` onto the stored `true`, computes
      `1 ^ 2 == 3` and passes. The intended fold agrees with plain C++. */
  lemma BitwiseChainPassesAsWritten()
    ensures var s := Spine(Int(5), [Rel(Eq, Int(5)), Rel(BitXor, Int(3)), Rel(BitXor, Int(2))]);
      WellTyped(s) && !NativeTruth(s) && Truth(DecomposeAsWritten(s)) && !Truth(Decompose(s))
  {
    assert XorInt(1, 3) == 2;
    assert XorInt(2, 2) == 0 by {
      assert XorInt(1, 1) == 0;
    }
    assert XorInt(1, 2) == 3;
    var s := Spine(Int(5), [Rel(Eq, Int(5)), Rel(BitXor, Int(3)), Rel(BitXor, Int(2))]);
    DecompositionPreservesOutcome(s);
  }

  /* ---------- the library's own expectations ---------- */

  /** A chain of two operators, the second one a node overloads, decomposes
      into a node for the second operator over a node for the first. With the
      intended chaining each node holds the truth of the C++ value computed so
      far; as written, the outer node combines the inner node's `bool` with
      the last operand. */
  lemma TwoOperatorChain(a: Value, op1: Op, b: Value, op2: Op, c: Value)
    requires WellTyped(Spine(a, [Rel(op1, b), Rel(op2, c)])) && op2.Chains()
    ensures Defined(a, op1, b) && Scalar(c)
    ensures var v := Apply(a, op1, b);
      var inner := Binary(Leaf(a), op1, b, Truthy(v));
      Decompose(Spine(a, [Rel(op1, b), Rel(op2, c)]))
        == Expression(BinaryExpr(Binary(Chained(inner), op2, c, Truthy(Apply(v, op2, c)))))
    ensures var v := Apply(a, op1, b);
      var inner := Binary(Leaf(a), op1, b, Truthy(v));
      DecomposeAsWritten(Spine(a, [Rel(op1, b), Rel(op2, c)]))
        == Expression(BinaryExpr(Binary(Chained(inner), op2, c, Truthy(Apply(Bool(Truthy(v)), op2, c)))))
  {
    var steps := [Rel(op1, b), Rel(op2, c)];
    assert steps[0] == Rel(op1, b) && steps[1] == Rel(op2, c);
    assert Defined(a, op1, b) && Scalar(c);
    var v := Apply(a, op1, b);
    var inner := Binary(Leaf(a), op1, b, Truthy(v));
    var f1 := FoldStep(Pending(a), Rel(op1, b));
    assert f1 == Node(inner, v);
    assert steps[1..] == [Rel(op2, c)];
    assert FoldSteps(Pending(a), steps) == FoldSteps(f1, [Rel(op2, c)]);
    assert [Rel(op2, c)][1..] == [];
    assert FoldSteps(f1, [Rel(op2, c)]) == FoldStep(f1, Rel(op2, c));
    assert FoldStepAsWritten(Pending(a), Rel(op1, b)) == f1;
    assert FoldStepsAsWritten(Pending(a), steps) == FoldStepsAsWritten(f1, [Rel(op2, c)]);
    assert FoldStepsAsWritten(f1, [Rel(op2, c)]) == FoldStepAsWritten(f1, Rel(op2, c));
  }

  /** `1 == 1 == 5`: chained comparisons keep every operand in the
      expansion, with the outcome of plain C++. */
  lemma ChainedEqualityExample()
    ensures var s := Spine(Int(1), [Rel(Eq, Int(1)), Rel(Eq, Int(5))]);
      WellTyped(s) && !Truth(DecomposeAsWritten(s)) && RenderExpr(DecomposeAsWritten(s).expr) == "1 == 1 == 5"
  {
    var s := Spine(Int(1), [Rel(Eq, Int(1)), Rel(Eq, Int(5))]);
    assert WellTyped(s);
    TwoOperatorChain(Int(1), Eq, Int(1), Eq, Int(5));
    assert Render(Int(1)) == "1" && Render(Int(5)) == "5";
  }

  /** `5 == 5 & 0`: a comparison followed by a bitwise operator. */
  lemma EqualityThenAndExample()
    ensures var s := Spine(Int(5), [Rel(Eq, Int(5)), Rel(BitAnd, Int(0))]);
      WellTyped(s) && !Truth(DecomposeAsWritten(s)) && RenderExpr(DecomposeAsWritten(s).expr) == "5 == 5 & 0"
  {
    var s := Spine(Int(5), [Rel(Eq, Int(5)), Rel(BitAnd, Int(0))]);
    assert WellTyped(s);
    TwoOperatorChain(Int(5), Eq, Int(5), BitAnd, Int(0));
    assert AndInt(1, 0) == 0 by {
      AndIntZero(0);
    }
    assert Render(Int(5)) == "5" && Render(Int(0)) == "0";
  }

  /** `5 == 4 | 0`: a false comparison or-ed with zero. */
  lemma EqualityThenOrExample()
    ensures var s := Spine(Int(5), [Rel(Eq, Int(4)), Rel(BitOr, Int(0))]);
      WellTyped(s) && !Truth(DecomposeAsWritten(s)) && RenderExpr(DecomposeAsWritten(s).expr) == "5 == 4 | 0"
  {
    var s := Spine(Int(5), [Rel(Eq, Int(4)), Rel(BitOr, Int(0))]);
    assert WellTyped(s);
    TwoOperatorChain(Int(5), Eq, Int(4), BitOr, Int(0));
    OrIntZero(0, 0);
    assert Render(Int(5)) == "5" && Render(Int(4)) == "4" && Render(Int(0)) == "0";
  }

  /** `!lhs == rhs`: the negated first operand is evaluated before
      decomposition, so only its value appears. */
  lemma NegatedOperandExample()
    ensures var s := Spine(Bool(false), [Rel(Eq, Int(10))]);
      WellTyped(s) && !Truth(DecomposeAsWritten(s)) && RenderExpr(DecomposeAsWritten(s).expr) == "false == 10"
  {
    var s := Spine(Bool(false), [Rel(Eq, Int(10))]);
    AsWrittenExpansion(s);
    AsWrittenAgreesWhenOnlyLastBitwise(s);
  }

  /** Vectors compare element by element and print in full. */
  lemma VectorOperandExample()
    ensures var s := Spine(Seq([Int(1), Int(2), Int(3)]), [Rel(Eq, Seq([Int(1), Int(2)]))]);
      WellTyped(s) && !Truth(DecomposeAsWritten(s)) && RenderExpr(DecomposeAsWritten(s).expr) == "[1, 2, 3] == [1, 2]"
  {
    var xs, ys := Seq([Int(1), Int(2), Int(3)]), Seq([Int(1), Int(2)]);
    assert Render(xs) == "[1, 2, 3]" by {
      assert ElementTexts([Int(1), Int(2), Int(3)]) == ["1", "2", "3"];
    }
    assert Render(ys) == "[1, 2]" by {
      assert ElementTexts([Int(1), Int(2)]) == ["1", "2"];
    }
    assert xs != ys by {
      assert |xs.elems| != |ys.elems|;
    }
    var s := Spine(xs, [Rel(Eq, ys)]);
    assert WellTyped(s);
    assert Decompose(s) == Expression(BinaryExpr(Binary(Leaf(xs), Eq, ys, false)));
    AsWrittenAgreesWhenOnlyLastBitwise(s);
  }

  /** An operand without a stream operator prints as `<?>` in the expansion.
      The node for `CustomType{} == 42`, whose user-defined `==` gives
      `false`, is built by hand: the fold admits no `Opaque` operand. */
  lemma PlaceholderExpansionExample()
    ensures RenderBinary(Binary(Leaf(Opaque), Eq, Int(42), false)) == "<?> == 42"
  {
  }
}
