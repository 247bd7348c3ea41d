/** On which rows a condition has an answer: what it reads of a row, and when a NULL reaches its result. */
module FilterAnswers {
  import opened Options
  import opened FilterSchema
  import opened Sql
  import TagText
  import opened FilterRender
  import opened FilterArgs
  import opened FilterMeaning

  /** What the leaf reads is in the row: a column that is compared, listed or searched is not NULL, a compared flag is
      present or read as false, and the tags a membership test asks for are present. */
  ghost predicate LeafReads(sc: Schema, row: Row, fs: Reading, cond: Condition) {
    match cond
    case Comparison(FieldRef(name), _, right) =>
      name in sc &&
      (match sc[name].kind
       case JsonBool => FlagKnown(fs, row, sc[name])
       case _ => right == LiteralValue(LNull) || !row.Read(sc[name].column).NullV?)
    case InCond(target, values) =>
      values == [] ||
      (if target == FieldRef("tag") then RefTags(row, TAGS).Some?
       else target.FieldRef? && target.name in sc && !row.Read(sc[target.name].column).NullV?)
    case ElementIn(_, field) => field in sc && RefTags(row, sc[field]).Some?
    case ContainsCond(field, _) => field in sc && !row.Read(sc[field].column).NullV?
    case _ => true
  }

  /** Every leaf finds what it reads. */
  ghost predicate AllRead(sc: Schema, row: Row, fs: Reading, cond: Condition) {
    match cond
    case Logical(_, left, right) => AllRead(sc, row, fs, left) && AllRead(sc, row, fs, right)
    case NotCond(expr) => AllRead(sc, row, fs, expr)
    case Constant(_) => true
    case _ => LeafReads(sc, row, fs, cond)
  }

  /** The condition has an answer: its leaves find what they read, or one side of AND or OR decides. */
  ghost predicate Answers(sc: Schema, row: Row, fs: Reading, like: (string, string) -> bool, cond: Condition) {
    match cond
    case Logical(op, left, right) =>
      (Answers(sc, row, fs, like, left) && Answers(sc, row, fs, like, right)) ||
      Ref(sc, row, fs, like, left) == Of(op.OrOp?) || Ref(sc, row, fs, like, right) == Of(op.OrOp?)
    case NotCond(expr) => Answers(sc, row, fs, like, expr)
    case Constant(_) => true
    case _ => LeafReads(sc, row, fs, cond)
  }

  lemma {:induction false} AllReadAnswers(sc: Schema, row: Row, fs: Reading, like: (string, string) -> bool,
                                          cond: Condition)
    requires AllRead(sc, row, fs, cond)
    ensures Answers(sc, row, fs, like, cond)
  {
    hide Ref, LeafReads;
    match cond {
      case Logical(_, left, right) =>
        AllReadAnswers(sc, row, fs, like, left);
        AllReadAnswers(sc, row, fs, like, right);
      case NotCond(expr) => AllReadAnswers(sc, row, fs, like, expr);
      case _ =>
    }
  }

  lemma ScalarReads(row: Row, d: Dialect, n: nat, f: Field, op: CompareOp, right: ValueExpr)
    requires FieldFits(row, f) && FieldOk(f) && f.kind.Scalar? && ScalarComparison(d, n, f, op, right).Ok?
    ensures right.LiteralValue?
    ensures RefScalar(row, f, op, right.lit) != Unknown <==> right.lit.LNull? || !row.Read(f.column).NullV?
  {
    hide CompareInts, CompareStrings, ColumnExpr;
  }

  lemma BoolColumnReads(row: Row, d: Dialect, n: nat, f: Field, op: CompareOp, right: ValueExpr)
    requires FieldFits(row, f) && f.kind.BoolColumn? && BoolColumnComparison(d, n, f, op, right).Ok?
    ensures right.LiteralValue? && right.lit.LBool?
    ensures CompareValues(op, row.Read(f.column), BoolV(right.lit.b)) != Unknown <==> !row.Read(f.column).NullV?
  {
    hide CompareBools, BoolArg;
  }

  lemma FlagReads(row: Row, fs: Reading, d: Dialect, n: nat, f: Field, op: CompareOp, right: ValueExpr)
    requires FieldFits(row, f) && f.kind.JsonBool? && JsonBoolComparison(d, n, f, op, right).Ok?
    ensures right.LiteralValue? && right.lit.LBool?
    ensures RefJsonBool(fs, row, f, op, right.lit.b) != Unknown <==> FlagKnown(fs, row, f)
  {
    hide CompareBools, JsonExtract;
  }

  lemma FieldComparisonReads(sc: Schema, row: Row, fs: Reading, d: Dialect, n: nat, name: string, op: CompareOp,
                             right: ValueExpr)
    requires WellFormed(sc) && RowFits(sc, row) && ComparisonSql(sc, d, n, FieldRef(name), op, right).Ok?
    ensures right.LiteralValue?
    ensures RefComparison(sc, fs, row, FieldRef(name), op, right.lit) != Unknown
            <==> LeafReads(sc, row, fs, Comparison(FieldRef(name), op, right))
  {
    hide FieldFits, FieldOk, ScalarComparison, BoolColumnComparison, JsonBoolComparison, RefScalar, RefJsonBool,
         CompareValues, Row.Read, FlagKnown;
    var f := sc[name];
    assert FieldFits(row, f) && FieldOk(f);
    match f.kind {
      case BoolColumn => BoolColumnReads(row, d, n, f, op, right);
      case JsonBool => FlagReads(row, fs, d, n, f, op, right);
      case _ => ScalarReads(row, d, n, f, op, right);
    }
  }

  lemma {:induction false} TagsAbsent(fs: Reading, values: seq<ValueExpr>)
    ensures RefTagIn(fs, None, values) == if values == [] then False else Unknown
  {
    if values != [] { TagsAbsent(fs, values[1..]); }
  }

  lemma {:induction false} TagsKnown(fs: Reading, tags: seq<string>, d: Dialect, n: nat, f: Field,
                                     values: seq<ValueExpr>)
    requires TagTests(d, n, f, values).Ok?
    ensures RefTagIn(fs, Some(tags), values) != Unknown
    decreases |values|
  {
    hide HasTag, HasBelow, TagTest, ExactArg, BelowArg;
    if values != [] { TagsKnown(fs, tags, d, n + 2, f, values[1..]); }
  }

  lemma {:induction false} ScalarArgsCount(f: Field, values: seq<ValueExpr>)
    requires ScalarArgs(f, values).Ok?
    ensures |ScalarArgs(f, values).value| == |values|
  {
    if values != [] { ScalarArgsCount(f, values[1..]); }
  }

  lemma InReads(sc: Schema, row: Row, fs: Reading, like: (string, string) -> bool, d: Dialect, n: nat,
                target: ValueExpr, values: seq<ValueExpr>)
    requires WellFormed(sc) && RowFits(sc, row) && InSql(sc, d, n, target, values).Ok?
    ensures RefLeaf(sc, row, fs, like, InCond(target, values)) != Unknown
            <==> LeafReads(sc, row, fs, InCond(target, values))
  {
    hide RefTagIn, RefTags, ScalarArgs, TagTests, Params, ColumnExpr, FieldFits;
    if target.name == "tag" {
      TagsAbsent(fs, values);
      var f := ResolveAlias(sc, "tag").value;
      assert f == TAGS;
      if RefTags(row, TAGS).Some? { TagsKnown(fs, RefTags(row, TAGS).value, d, n, f, values); }
    } else {
      ScalarArgsCount(sc[target.name], values);
    }
  }

  /** A leaf has no answer exactly when it reads what is not there. */
  lemma LeafAnswersIff(sc: Schema, row: Row, fs: Reading, like: (string, string) -> bool, d: Dialect, n: nat,
                       cond: Condition)
    requires WellFormed(sc) && RowFits(sc, row) && IsLeaf(cond) && LeafSearchesText(sc, cond)
    requires RenderLeaf(sc, d, n, cond).Ok?
    ensures RefLeaf(sc, row, fs, like, cond) != Unknown <==> LeafReads(sc, row, fs, cond)
  {
    hide RefTagIn, RefTags, HasTag, InSql, ComparisonSql, FieldPredicateSql, RefComparison, ScalarArgs, RefIn,
         TagText.SomeExtends, TagText.SomeEndsIn, TagText.SomeOccurs, TagText.Fold, TagText.FoldAll, WellFormed,
         RowFits;
    match cond {
      case Comparison(left, op, right) => ComparisonReads(sc, row, fs, like, d, n, left, op, right);
      case InCond(target, values) => InReads(sc, row, fs, like, d, n, target, values);
      case ContainsCond(field, text) => ContainsReads(sc, row, field);
      case _ =>
    }
  }

  lemma ComparisonReads(sc: Schema, row: Row, fs: Reading, like: (string, string) -> bool, d: Dialect, n: nat,
                        left: ValueExpr, op: CompareOp, right: ValueExpr)
    requires WellFormed(sc) && RowFits(sc, row) && ComparisonSql(sc, d, n, left, op, right).Ok?
    ensures RefLeaf(sc, row, fs, like, Comparison(left, op, right)) != Unknown
            <==> LeafReads(sc, row, fs, Comparison(left, op, right))
  {
    hide RefScalar, RefJsonBool, ScalarComparison, BoolColumnComparison, JsonBoolComparison, CompareValues, CompareInts,
         RefTags, WellFormed, RowFits;
    if left.FieldRef? { FieldComparisonReads(sc, row, fs, d, n, left.name, op, right); }
  }

  lemma ContainsReads(sc: Schema, row: Row, field: string)
    requires WellFormed(sc) && RowFits(sc, row) && field in sc && sc[field].supportsContains
    ensures ScalarValue(row, sc[field]).StrV? <==> !row.Read(sc[field].column).NullV?
  {
    assert FieldFits(row, sc[field]) && FieldOk(sc[field]);
  }

  /** A condition has no answer exactly when some leaf reads what is not there and nothing beside it decides. */
  lemma {:induction false} AnswersIff(sc: Schema, row: Row, fs: Reading, like: (string, string) -> bool, d: Dialect,
                                      n: nat, cond: Condition)
    requires WellFormed(sc) && RowFits(sc, row) && SearchesText(sc, cond) && Render(sc, d, n, cond).Ok?
    ensures Ref(sc, row, fs, like, cond) != Unknown <==> Answers(sc, row, fs, like, cond)
    decreases cond
  {
    hide RenderLeaf, RefLeaf, LeafReads, CombineAnd, CombineOr, Negate, LeafSearchesText, WellFormed, RowFits;
    match cond {
      case Logical(_, left, right) =>
        AnswersIff(sc, row, fs, like, d, n, left);
        AnswersIff(sc, row, fs, like, d, n + |Render(sc, d, n, left).value.1|, right);
      case NotCond(expr) => AnswersIff(sc, row, fs, like, d, n, expr);
      case Constant(_) =>
      case _ => LeafAnswersIff(sc, row, fs, like, d, n, cond);
    }
  }
}
