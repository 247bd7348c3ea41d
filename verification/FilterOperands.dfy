/** What becomes of a filter in which a number stands as an operand of a logical operator. */
module FilterOperands {
  import opened Options
  import opened FilterSchema
  import opened FilterRender
  import opened FilterCompile
  import opened FilterCorrect

  /** The text `(i != 0)` that the legacy rewriting puts in the place of a number, as an expression. */
  function WrappedNumber(i: int): Expr { Call("_!=_", None, [Const(CInt(i)), Const(CInt(0))]) }

  /** The tree has a comparison that begins with a literal. */
  predicate ComparesLiteral(cond: Condition) {
    match cond
    case Logical(_, left, right) => ComparesLiteral(left) || ComparesLiteral(right)
    case NotCond(expr) => ComparesLiteral(expr)
    case Comparison(left, _, _) => left.LiteralValue?
    case _ => false
  }

  /** Such a tree does not render, for any schema, dialect and offset; folding does not save it. */
  lemma {:induction false} LiteralComparisonNeverRenders(sc: Schema, d: Dialect, n: nat, cond: Condition)
    requires ComparesLiteral(cond)
    ensures Render(sc, d, n, cond).Err?
    decreases cond
  {
    hide RenderLeaf, CombineAnd, CombineOr, Negate;
    match cond {
      case Logical(_, left, right) =>
        if ComparesLiteral(left) {
          LiteralComparisonNeverRenders(sc, d, n, left);
        } else if Render(sc, d, n, left).Ok? {
          LiteralComparisonNeverRenders(sc, d, n + |Render(sc, d, n, left).value.1|, right);
        }
      case NotCond(expr) => LiteralComparisonNeverRenders(sc, d, n, expr);
      case Comparison(left, op, right) => LiteralLeaf(sc, d, n, left, op, right);
    }
  }

  lemma LiteralLeaf(sc: Schema, d: Dialect, n: nat, left: ValueExpr, op: CompareOp, right: ValueExpr)
    requires left.LiteralValue?
    ensures RenderLeaf(sc, d, n, Comparison(left, op, right)).Err?
  {
    hide ScalarComparison, BoolColumnComparison, JsonBoolComparison, SizeComparison;
  }

  /** Below AND, OR and NOT the expression has a comparison that begins with a constant. */
  predicate HasConstantComparison(e: Expr) {
    match e
    case Call(fn, _, args) =>
      if fn == "_&&_" || fn == "_||_" || fn == "!_" then exists a <- args :: HasConstantComparison(a)
      else ToOperator(fn).Some? && |args| == 2 && GetConstValue(args[0]).Some?
    case _ => false
  }

  lemma {:induction false} BuiltComparesLiteral(e: Expr, sc: Schema, now: int)
    requires HasConstantComparison(e) && BuildCondition(e, sc, now).Ok?
    ensures ComparesLiteral(BuildCondition(e, sc, now).value)
    decreases e
  {
    hide BuildCondition;
    CallIsBuilt(e, sc, now);
    if e.fn == "_&&_" || e.fn == "_||_" || e.fn == "!_" {
      var a :| a in e.args && HasConstantComparison(a);
      var i :| 0 <= i < |e.args| && e.args[i] == a;
      BuiltComparesLiteral(e.args[i], sc, now);
    }
  }

  /** A filter with a comparison that begins with a constant never compiles. */
  lemma ConstantComparisonNeverCompiles(e: Expr, sc: Schema, d: Dialect, offset: nat, now: int)
    requires HasConstantComparison(e)
    ensures CompileToStatement(e, sc, d, offset, now).Err?
  {
    hide BuildCondition, Render, HasConstantComparison;
    if BuildCondition(e, sc, now).Ok? {
      BuiltComparesLiteral(e, sc, now);
      LiteralComparisonNeverRenders(sc, d, offset, BuildCondition(e, sc, now).value);
    }
  }

  /** So a rewritten number operand compiles for no dialect, whatever stands on the other side. */
  lemma RewrittenOperandNeverCompiles(fn: string, other: Expr, i: int, sc: Schema, d: Dialect, offset: nat, now: int)
    requires fn == "_&&_" || fn == "_||_"
    ensures CompileToStatement(Call(fn, None, [other, WrappedNumber(i)]), sc, d, offset, now).Err?
    ensures BuildCondition(WrappedNumber(i), sc, now)
            == Ok(Comparison(LiteralValue(LInt(i)), Neq, LiteralValue(LInt(0))))
  {
    hide BuildCondition, CompileToStatement;
    var args := [other, WrappedNumber(i)];
    assert HasConstantComparison(args[1]);
    ConstantComparisonNeverCompiles(Call(fn, None, args), sc, d, offset, now);
    WrappedNumberIsBuilt(i, sc, now);
  }

  lemma WrappedNumberIsBuilt(i: int, sc: Schema, now: int)
    ensures BuildCondition(WrappedNumber(i), sc, now)
            == Ok(Comparison(LiteralValue(LInt(i)), Neq, LiteralValue(LInt(0))))
  {
    assert BuildValue(Const(CInt(i)), sc, now) == Ok(LiteralValue(LInt(i)));
    assert BuildValue(Const(CInt(0)), sc, now) == Ok(LiteralValue(LInt(0)));
  }
}
