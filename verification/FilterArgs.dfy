/** Constant folding, placeholder numbering, and the running of one statement. */
module FilterArgs {
  import opened Options
  import opened FilterSchema
  import opened Sql
  import opened FilterRender

  // ----- folding keeps the meaning -----

  function Meaning(db: Database, r: Rendered): Truth {
    match r case Trivial => True case Unsatisfiable => False case Fragment(s) => Eval(db, s)
  }

  /** A statement's meaning as a WHERE condition: empty SQL admits every row. */
  function StatementMeaning(db: Database, st: Statement): Truth {
    if st.sql.None? then True else Eval(db, st.sql.value)
  }

  /** The reference: every connective evaluated by the three-valued tables, nothing folded. */
  function Unfolded(db: Database, sc: Schema, d: Dialect, n: nat, cond: Condition): Truth
    requires Render(sc, d, n, cond).Ok?
    decreases cond
  {
    match cond
    case Logical(op, left, right) =>
      var l := Unfolded(db, sc, d, n, left);
      var r := Unfolded(db, sc, d, n + |Render(sc, d, n, left).value.1|, right);
      if op.AndOp? then l.And(r) else l.Or(r)
    case NotCond(expr) => Unfolded(db, sc, d, n, expr).Not()
    case Constant(value) => Of(value)
    case _ => Meaning(db, RenderLeaf(sc, d, n, cond).value.0)
  }

  lemma MeaningOfCombined(db: Database, l: Rendered, r: Rendered)
    ensures Meaning(db, CombineAnd(l, r)) == Meaning(db, l).And(Meaning(db, r))
    ensures Meaning(db, CombineOr(l, r)) == Meaning(db, l).Or(Meaning(db, r))
    ensures Meaning(db, Negate(l)) == Meaning(db, l).Not()
  {}

  lemma MeaningOfStatement(db: Database, r: Rendered, args: seq<Value>)
    ensures StatementMeaning(db, ToStatement(r, args)) == Meaning(db, r)
  {}

  /** Folding constants through AND, OR and NOT preserves the three-valued result on every row, NULLs included. */
  lemma {:induction false} FoldingKeepsMeaning(db: Database, sc: Schema, d: Dialect, n: nat, cond: Condition)
    requires Render(sc, d, n, cond).Ok?
    ensures Meaning(db, Render(sc, d, n, cond).value.0) == Unfolded(db, sc, d, n, cond)
    ensures StatementMeaning(db, ToStatement(Render(sc, d, n, cond).value.0, Render(sc, d, n, cond).value.1))
            == Unfolded(db, sc, d, n, cond)
    decreases cond
  {
    hide RenderLeaf, Meaning, CombineAnd, CombineOr, Negate, ToStatement, StatementMeaning, Truth.And, Truth.Or,
         Truth.Not;
    var out := Render(sc, d, n, cond).value;
    MeaningOfStatement(db, out.0, out.1);
    match cond {
      case Logical(op, left, right) =>
        var l := Render(sc, d, n, left).value;
        FoldingKeepsMeaning(db, sc, d, n, left);
        FoldingKeepsMeaning(db, sc, d, n + |l.1|, right);
        MeaningOfCombined(db, l.0, Render(sc, d, n + |l.1|, right).value.0);
      case NotCond(expr) =>
        FoldingKeepsMeaning(db, sc, d, n, expr);
        MeaningOfCombined(db, Render(sc, d, n, expr).value.0, Trivial);
      case Constant(value) => MeaningOfConstant(db, value);
      case _ =>
    }
  }

  lemma MeaningOfConstant(db: Database, value: bool)
    ensures Meaning(db, if value then Trivial else Unsatisfiable) == Of(value)
  {
  }

  // ----- placeholder numbers -----

  /** The placeholders for `vs`, numbered after `n`. */
  function Numbered(d: Dialect, n: nat, vs: seq<Value>): (r: seq<Slot>)
    ensures |r| == |vs| && forall i | 0 <= i < |vs| :: r[i] == Emit(d, n + i + 1, vs[i])
  {
    seq(|vs|, i requires 0 <= i < |vs| => Emit(d, n + i + 1, vs[i]))
  }

  lemma NumberedConcat(d: Dialect, n: nat, a: seq<Value>, b: seq<Value>)
    ensures Numbered(d, n, a + b) == Numbered(d, n, a) + Numbered(d, n + |a|, b)
  {}

  lemma NumberedOne(d: Dialect, n: nat, v: Value)
    ensures Numbered(d, n, [v]) == [Emit(d, n + 1, v)]
  {}

  lemma {:induction false} ParamsAreNumbered(d: Dialect, n: nat, vs: seq<Value>)
    ensures TermsSlots(Params(d, n, vs)) == Numbered(d, n, vs)
    decreases |vs|
  {
    if vs != [] {
      hide Numbered;
      ParamsAreNumbered(d, n + 1, vs[1..]);
      assert vs == [vs[0]] + vs[1..];
      NumberedConcat(d, n, [vs[0]], vs[1..]);
      NumberedOne(d, n, vs[0]);
      assert Params(d, n, vs)[0] == Param(Emit(d, n + 1, vs[0])) && Params(d, n, vs)[1..] == Params(d, n + 1, vs[1..]);
    }
  }

  lemma {:induction false} TagTestsAreNumbered(d: Dialect, n: nat, f: Field, values: seq<ValueExpr>)
    requires TagTests(d, n, f, values).Ok?
    ensures AllSlots(TagTests(d, n, f, values).value.0) == Numbered(d, n, TagTests(d, n, f, values).value.1)
    ensures |TagTests(d, n, f, values).value.0| == |values|
    decreases |values|
  {
    hide ExactArg, BelowArg, ExpectString;
    if values != [] {
      var s := ExpectString(values[0]).value;
      TagTestsAreNumbered(d, n + 2, f, values[1..]);
      NumberedConcat(d, n, [ExactArg(d, s), BelowArg(s)], TagTests(d, n + 2, f, values[1..]).value.1);
      TagTestSlots(d, n, f, s);
    }
  }

  lemma TagTestSlots(d: Dialect, n: nat, f: Field, s: string)
    ensures Slots(TagTest(d, n, f, s)) == Numbered(d, n, [ExactArg(d, s), BelowArg(s)])
  {
    hide ExactArg, BelowArg;
    ColumnTermsHaveNoSlots(d, f);
    var e, b := Emit(d, n + 1, ExactArg(d, s)), Emit(d, n + 2, BelowArg(s));
    assert Slots(ExactTest(d, f, e)) == [e];
    assert Slots(LikeTest(d, f, b)) == [b];
  }

  lemma ColumnTermsHaveNoSlots(d: Dialect, f: Field)
    ensures TermSlots(ColumnExpr(d, f)) == [] && TermSlots(JsonArray(f)) == [] && TermSlots(JsonExtract(d, f)) == []
    ensures TermSlots(ArrayAsText(d, f)) == [] && TermSlots(CastBoolean(JsonExtract(d, f))) == []
    ensures TermSlots(ArrayLength(OrEmptyArray(JsonArray(f)))) == []
  {
    assert TermSlots(OrEmptyArray(JsonArray(f))) == [];
  }

  lemma NullCheckSlots(d: Dialect, f: Field, s: Sql)
    ensures Slots(NullCheck(d, f, s)) == Slots(s)
  {
    ColumnTermsHaveNoSlots(d, f);
    var present := IsNotNull(JsonArray(f));
    assert Slots(present) == [];
    assert Slots(And(s, present)) == Slots(s) + [] == Slots(s);
    var nonEmpty := if d.SQLite? then Compare(JsonArray(f), Neq, TextLit("[]"))
                    else Compare(ArrayLength(JsonArray(f)), Gt, IntLit(0));
    assert Slots(nonEmpty) == [] + [];
    assert NullCheck(d, f, s) == And(And(s, present), nonEmpty);
    assert Slots(And(And(s, present), nonEmpty)) == Slots(s) + ([] + []) == Slots(s);
  }

  ghost predicate LeafOk(d: Dialect, n: nat, out: Outcome) {
    out.Ok? ==> out.value.0.Fragment? && Slots(out.value.0.sql) == Numbered(d, n, out.value.1)
  }

  lemma FieldComparisonIsNumbered(d: Dialect, n: nat, f: Field, op: CompareOp, right: ValueExpr)
    ensures LeafOk(d, n, ScalarComparison(d, n, f, op, right)) && LeafOk(d, n, BoolColumnComparison(d, n, f, op, right))
  {
    hide ColumnExpr, Slots, Emit, Numbered;
    CompareIsNumbered(d, n, f, op);
    assert Numbered(d, n, []) == [] by { NothingIsNumbered(d, n); }
  }

  /** A comparison with one placeholder, and the null tests. */
  lemma CompareIsNumbered(d: Dialect, n: nat, f: Field, op: CompareOp)
    ensures forall v :: Slots(Compare(ColumnExpr(d, f), op, Param(Emit(d, n + 1, v)))) == Numbered(d, n, [v])
    ensures forall v :: Slots(Compare(ColumnT(f.column), op, Param(Emit(d, n + 1, v)))) == Numbered(d, n, [v])
    ensures Slots(IsNull(ColumnExpr(d, f))) == [] && Slots(IsNotNull(ColumnExpr(d, f))) == []
  {
    hide ColumnExpr;
    ColumnTermsHaveNoSlots(d, f);
  }

  lemma NothingIsNumbered(d: Dialect, n: nat)
    ensures Numbered(d, n, []) == []
  {}

  lemma JsonComparisonIsNumbered(d: Dialect, n: nat, f: Field, op: CompareOp, right: ValueExpr)
    ensures LeafOk(d, n, JsonBoolComparison(d, n, f, op, right))
  {
    hide JsonExtract;
    ColumnTermsHaveNoSlots(d, f);
    var expr := JsonExtract(d, f);
    assert Slots(IsTrue(expr)) == [] && Slots(Not(IsTrue(expr))) == [];
    assert forall i :: Slots(Compare(expr, op, IntLit(i))) == [] + [];
    assert forall b :: Slots(Compare(expr, op, JsonBoolLit(b))) == [] + [];
    assert forall x :: Slots(Compare(CastBoolean(expr), op, Param(x))) == [] + [x];
  }

  lemma SizeComparisonIsNumbered(sc: Schema, d: Dialect, n: nat, args: seq<ValueExpr>, op: CompareOp, right: ValueExpr)
    ensures LeafOk(d, n, SizeComparison(sc, d, n, args, op, right))
  {
    hide JsonArray;
    if |args| == 1 && args[0].FieldRef? && args[0].name in sc { ColumnTermsHaveNoSlots(d, sc[args[0].name]); }
  }

  lemma ComparisonIsNumbered(sc: Schema, d: Dialect, n: nat, left: ValueExpr, op: CompareOp, right: ValueExpr)
    ensures LeafOk(d, n, ComparisonSql(sc, d, n, left, op, right))
  {
    hide ScalarComparison, BoolColumnComparison, JsonBoolComparison, SizeComparison, LeafOk, Slots, Numbered;
    ErrorIsNumbered(d, n);
    match left {
      case FieldRef(name) =>
        if name in sc {
          FieldComparisonIsNumbered(d, n, sc[name], op, right);
          JsonComparisonIsNumbered(d, n, sc[name], op, right);
        }
      case FunctionValue(_, args) => SizeComparisonIsNumbered(sc, d, n, args, op, right);
      case LiteralValue(_) =>
    }
  }

  lemma ErrorIsNumbered(d: Dialect, n: nat)
    ensures forall e :: LeafOk(d, n, Err(e))
  {}

  lemma InIsNumbered(sc: Schema, d: Dialect, n: nat, target: ValueExpr, values: seq<ValueExpr>)
    ensures LeafOk(d, n, InSql(sc, d, n, target, values))
  {
    hide TagTests, ScalarArgs, Params, ColumnExpr;
    if target.FieldRef? && target.name == "tag" {
      var f := ResolveAlias(sc, "tag");
      if f.Some? && TagTests(d, n, f.value, values).Ok? {
        TagTestsAreNumbered(d, n, f.value, values);
        var tests := TagTests(d, n, f.value, values).value.0;
        if |tests| == 1 { assert AllSlots(tests) == Slots(tests[0]) + []; }
      }
    } else if target.FieldRef? && target.name in sc {
      var f := sc[target.name];
      ColumnTermsHaveNoSlots(d, f);
      if ScalarArgs(f, values).Ok? {
        var vs := ScalarArgs(f, values).value;
        ParamsAreNumbered(d, n, vs);
        assert [] + TermsSlots(Params(d, n, vs)) == TermsSlots(Params(d, n, vs));
      }
    }
  }

  lemma ExistsIsNumbered(sc: Schema, d: Dialect, n: nat, field: string, pred: TagPredicate)
    ensures LeafOk(d, n, ExistsSql(sc, d, n, field, pred))
  {
    hide NullCheck, ExactTest, LikeTest, ExactArg, Emit;
    if field in sc && sc[field].kind.JsonList? {
      var f := sc[field];
      forall slot { TestSlots(d, f, slot); }
      match pred {
        case StartsWith(s) =>
          var first := if d.Postgres? then ExactArg(d, s) else StrV("%\"" + s + "\"%");
          var one, two := Emit(d, n + 1, first), Emit(d, n + 2, StrV("%\"" + s + "%"));
          NullCheckSlots(d, f, Or(if d.Postgres? then ExactTest(d, f, one) else LikeTest(d, f, one),
                                  LikeTest(d, f, two)));
        case EndsWith(s) => NullCheckSlots(d, f, LikeTest(d, f, Emit(d, n + 1, StrV("%" + s + "\"%"))));
        case Contains(s) => NullCheckSlots(d, f, LikeTest(d, f, Emit(d, n + 1, StrV("%" + s + "%"))));
      }
    }
  }

  lemma TestSlots(d: Dialect, f: Field, slot: Slot)
    ensures Slots(ExactTest(d, f, slot)) == [slot] && Slots(LikeTest(d, f, slot)) == [slot]
  {
    hide ArrayAsText, JsonArray;
    ColumnTermsHaveNoSlots(d, f);
  }

  lemma PredicateIsNumbered(d: Dialect, n: nat, f: Field)
    ensures LeafOk(d, n, FieldPredicateSql(d, f))
  {
    hide JsonExtract;
    ColumnTermsHaveNoSlots(d, f);
    assert TermSlots(OrJsonFalse(JsonExtract(d, f))) == [];
  }

  lemma ElementIsNumbered(sc: Schema, d: Dialect, n: nat, element: ValueExpr, field: string)
    ensures LeafOk(d, n, ElementInSql(sc, d, n, element, field))
  {
    hide ExactArg, JsonArray;
    if field in sc { ColumnTermsHaveNoSlots(d, sc[field]); }
  }

  lemma ContainsIsNumbered(sc: Schema, d: Dialect, n: nat, field: string, text: string)
    ensures LeafOk(d, n, ContainsSql(sc, d, n, field, text))
  {
    hide ColumnExpr;
    if field in sc { ColumnTermsHaveNoSlots(d, sc[field]); }
  }

  /** A leaf uses each of its arguments once, in order. */
  lemma LeafIsNumbered(sc: Schema, d: Dialect, n: nat, cond: Condition)
    requires IsLeaf(cond)
    ensures LeafOk(d, n, RenderLeaf(sc, d, n, cond))
  {
    hide ComparisonSql, InSql, ExistsSql, FieldPredicateSql, ElementInSql, ContainsSql, LeafOk;
    ErrorIsNumbered(d, n);
    match cond {
      case FieldPredicate(field) => if field in sc { PredicateIsNumbered(d, n, sc[field]); }
      case Comparison(left, op, right) => ComparisonIsNumbered(sc, d, n, left, op, right);
      case InCond(target, values) => InIsNumbered(sc, d, n, target, values);
      case ElementIn(element, field) => ElementIsNumbered(sc, d, n, element, field);
      case ContainsCond(field, text) => ContainsIsNumbered(sc, d, n, field, text);
      case Exists(field, pred) => ExistsIsNumbered(sc, d, n, field, pred);
    }
  }

  // ----- what folding does to a tree -----

  /** The constant a condition folds to; `None` when a leaf remains. */
  function Folded(cond: Condition): Option<bool> {
    match cond
    case Constant(value) => Some(value)
    case NotCond(expr) => (match Folded(expr) case None => None case Some(b) => Some(!b))
    case Logical(op, left, right) =>
      var l, r, absorbing := Folded(left), Folded(right), op.OrOp?;
      if l == Some(absorbing) || r == Some(absorbing) then Some(absorbing) else if l.Some? then r else None
    case _ => None
  }

  /** The leaf adds arguments when it is rendered. */
  predicate AddsArguments(sc: Schema, d: Dialect, leaf: Condition) {
    match leaf
    case Comparison(FieldRef(name), _, right) =>
      name in sc &&
      (match sc[name].kind case BoolColumn => true case JsonBool => d.Postgres? case _ => right != LiteralValue(LNull))
    case Comparison(_, _, _) => true
    case InCond(_, values) => values != []
    case ElementIn(_, _) => true
    case ContainsCond(_, _) => true
    case Exists(_, _) => true
    case _ => false
  }

  predicate HasArguments(sc: Schema, d: Dialect, cond: Condition) {
    match cond
    case Logical(_, left, right) => HasArguments(sc, d, left) || HasArguments(sc, d, right)
    case NotCond(expr) => HasArguments(sc, d, expr)
    case _ => AddsArguments(sc, d, cond)
  }

  /** No part of the tree that folds to a constant has a leaf with arguments. */
  predicate KeepsArgs(sc: Schema, d: Dialect, cond: Condition) {
    (Folded(cond).Some? ==> !HasArguments(sc, d, cond)) &&
    match cond
    case Logical(_, left, right) => KeepsArgs(sc, d, left) && KeepsArgs(sc, d, right)
    case NotCond(expr) => KeepsArgs(sc, d, expr)
    case _ => true
  }

  /** The result that stands for a folded tree. */
  predicate Stands(r: Rendered, folded: Option<bool>) {
    match r
    case Trivial => folded == Some(true)
    case Unsatisfiable => folded == Some(false)
    case Fragment(_) => folded.None?
  }

  lemma CombinedStands(op: LogicalOp, l: Rendered, left: Condition, r: Rendered, right: Condition)
    requires Stands(l, Folded(left)) && Stands(r, Folded(right))
    ensures Stands(if op.AndOp? then CombineAnd(l, r) else CombineOr(l, r), Folded(Logical(op, left, right)))
  {}

  lemma NegatedStands(r: Rendered, expr: Condition)
    requires Stands(r, Folded(expr))
    ensures Stands(Negate(r), Folded(NotCond(expr)))
  {}

  /** Whether a rendered tree is a constant, and which, can be read off the tree. */
  lemma {:induction false} FoldedIsRendered(sc: Schema, d: Dialect, n: nat, cond: Condition)
    requires Render(sc, d, n, cond).Ok?
    ensures Stands(Render(sc, d, n, cond).value.0, Folded(cond))
    decreases cond
  {
    hide RenderLeaf, CombineAnd, CombineOr, Negate, Stands, Folded;
    match cond {
      case Logical(op, left, right) =>
        var l := Render(sc, d, n, left).value;
        FoldedIsRendered(sc, d, n, left);
        FoldedIsRendered(sc, d, n + |l.1|, right);
        CombinedStands(op, l.0, left, Render(sc, d, n + |l.1|, right).value.0, right);
      case NotCond(expr) =>
        FoldedIsRendered(sc, d, n, expr);
        NegatedStands(Render(sc, d, n, expr).value.0, expr);
      case Constant(value) => ConstantStands(value);
      case _ => LeafStands(sc, d, n, cond);
    }
  }

  lemma ConstantStands(value: bool)
    ensures Stands(if value then Trivial else Unsatisfiable, Folded(Constant(value)))
  {}

  lemma LeafStands(sc: Schema, d: Dialect, n: nat, cond: Condition)
    requires IsLeaf(cond) && RenderLeaf(sc, d, n, cond).Ok?
    ensures Stands(RenderLeaf(sc, d, n, cond).value.0, Folded(cond))
  {
    hide RenderLeaf, Slots;
    LeafIsNumbered(sc, d, n, cond);
  }

  lemma {:induction false} TagArguments(d: Dialect, n: nat, f: Field, values: seq<ValueExpr>)
    requires TagTests(d, n, f, values).Ok?
    ensures TagTests(d, n, f, values).value.1 == [] <==> values == []
    decreases |values|
  {
    if values != [] { TagArguments(d, n + 2, f, values[1..]); }
  }

  lemma {:induction false} ScalarArguments(f: Field, values: seq<ValueExpr>)
    requires ScalarArgs(f, values).Ok?
    ensures |ScalarArgs(f, values).value| == |values|
    decreases |values|
  {
    if values != [] { ScalarArguments(f, values[1..]); }
  }

  lemma InArguments(sc: Schema, d: Dialect, n: nat, target: ValueExpr, values: seq<ValueExpr>)
    requires InSql(sc, d, n, target, values).Ok?
    ensures InSql(sc, d, n, target, values).value.1 == [] <==> values == []
  {
    hide TagTests, ScalarArgs, Params, ColumnExpr;
    if target.name == "tag" {
      TagArguments(d, n, ResolveAlias(sc, "tag").value, values);
    } else {
      ScalarArguments(sc[target.name], values);
    }
  }

  lemma ComparisonArguments(sc: Schema, d: Dialect, n: nat, left: ValueExpr, op: CompareOp, right: ValueExpr)
    requires ComparisonSql(sc, d, n, left, op, right).Ok?
    ensures ComparisonSql(sc, d, n, left, op, right).value.1 == [] <==>
            !AddsArguments(sc, d, Comparison(left, op, right))
  {
    hide ColumnExpr, JsonExtract, BoolArg, ScalarComparison, BoolColumnComparison, JsonBoolComparison, SizeComparison;
    if left.FieldRef? {
      FieldArguments(d, n, sc[left.name], op, right);
    } else {
      SizeArguments(sc, d, n, left.args, op, right);
    }
  }

  lemma FieldArguments(d: Dialect, n: nat, f: Field, op: CompareOp, right: ValueExpr)
    ensures ScalarComparison(d, n, f, op, right).Ok? ==>
              (ScalarComparison(d, n, f, op, right).value.1 == [] <==> right == LiteralValue(LNull))
    ensures BoolColumnComparison(d, n, f, op, right).Ok? ==> BoolColumnComparison(d, n, f, op, right).value.1 != []
    ensures JsonBoolComparison(d, n, f, op, right).Ok? ==>
              (JsonBoolComparison(d, n, f, op, right).value.1 == [] <==> !d.Postgres?)
  {
    hide ColumnExpr, JsonExtract, BoolArg;
  }

  lemma SizeArguments(sc: Schema, d: Dialect, n: nat, args: seq<ValueExpr>, op: CompareOp, right: ValueExpr)
    ensures SizeComparison(sc, d, n, args, op, right).Ok? ==> SizeComparison(sc, d, n, args, op, right).value.1 != []
  {}

  lemma LeafArguments(sc: Schema, d: Dialect, n: nat, cond: Condition)
    requires IsLeaf(cond) && RenderLeaf(sc, d, n, cond).Ok?
    ensures RenderLeaf(sc, d, n, cond).value.1 == [] <==> !AddsArguments(sc, d, cond)
  {
    hide ComparisonSql, InSql, NullCheck, ArrayAsText, ColumnExpr, JsonExtract, ExactArg;
    match cond {
      case Comparison(left, op, right) => ComparisonArguments(sc, d, n, left, op, right);
      case InCond(target, values) => InArguments(sc, d, n, target, values);
      case _ =>
    }
  }

  lemma {:induction false} ArgumentsIff(sc: Schema, d: Dialect, n: nat, cond: Condition)
    requires Render(sc, d, n, cond).Ok?
    ensures Render(sc, d, n, cond).value.1 == [] <==> !HasArguments(sc, d, cond)
    decreases cond
  {
    hide RenderLeaf, CombineAnd, CombineOr, Negate, AddsArguments;
    match cond {
      case Logical(_, left, right) =>
        ArgumentsIff(sc, d, n, left);
        ArgumentsIff(sc, d, n + |Render(sc, d, n, left).value.1|, right);
      case NotCond(expr) => ArgumentsIff(sc, d, n, expr);
      case Constant(_) => assert !AddsArguments(sc, d, cond) by { ConstantAddsNothing(sc, d, cond); }
      case _ => LeafArguments(sc, d, n, cond);
    }
  }

  lemma ConstantAddsNothing(sc: Schema, d: Dialect, cond: Condition)
    requires cond.Constant?
    ensures !AddsArguments(sc, d, cond)
  {}

  // ----- the placeholders of a rendered tree -----

  function SlotsOf(r: Rendered): seq<Slot> {
    match r case Fragment(s) => Slots(s) case _ => []
  }

  /** Every placeholder of `s` stands for an argument of `args`, numbered after `n` where it has a number. */
  ghost predicate EmittedFrom(d: Dialect, s: seq<Slot>, n: nat, args: seq<Value>) {
    forall x <- s ::
      if d.Postgres? then x.token.Dollar? && n < x.token.n <= n + |args| && args[x.token.n - n - 1] == x.v
      else x.token.Question? && x.v in args
  }

  /** The placeholders are all the arguments in order if `keeps`, and fewer otherwise. */
  ghost predicate Accounted(d: Dialect, n: nat, r: Rendered, args: seq<Value>, keeps: bool) {
    EmittedFrom(d, SlotsOf(r), n, args) && |SlotsOf(r)| <= |args| &&
    if keeps then SlotsOf(r) == Numbered(d, n, args) else |SlotsOf(r)| < |args|
  }

  lemma CombinedSlots(d: Dialect, n: nat, op: LogicalOp, l: Rendered, la: seq<Value>, lk: bool,
                      r: Rendered, ra: seq<Value>, rk: bool)
    requires Accounted(d, n, l, la, lk) && Accounted(d, n + |la|, r, ra, rk)
    ensures var c := if op.AndOp? then CombineAnd(l, r) else CombineOr(l, r);
            Accounted(d, n, c, la + ra, (!c.Fragment? ==> la == [] && ra == []) && lk && rk)
  {
    hide SlotsOf, EmittedFrom, Numbered;
    SlotsOfCombined(l, r);
    NumberedConcat(d, n, la, ra);
    EmittedConcat(d, SlotsOf(l), SlotsOf(r), n, la, ra);
    ConstantSlots(l);
    ConstantSlots(r);
    ConstantSlots(if op.AndOp? then CombineAnd(l, r) else CombineOr(l, r));
  }

  lemma ConstantSlots(r: Rendered)
    ensures !r.Fragment? ==> SlotsOf(r) == []
  {}

  lemma EmittedConcat(d: Dialect, s: seq<Slot>, t: seq<Slot>, n: nat, a: seq<Value>, b: seq<Value>)
    requires EmittedFrom(d, s, n, a) && EmittedFrom(d, t, n + |a|, b)
    ensures EmittedFrom(d, s, n, a + b) && EmittedFrom(d, t, n, a + b) && EmittedFrom(d, s + t, n, a + b)
    ensures EmittedFrom(d, [], n, a + b) && Numbered(d, n, []) == []
  {}

  /** Every placeholder stands for an argument that was added, with its value and its number; and the placeholders
      are all the arguments in order exactly when folding drops no leaf with arguments. */
  lemma {:induction false} SlotsAreEmitted(sc: Schema, d: Dialect, n: nat, cond: Condition)
    requires Render(sc, d, n, cond).Ok?
    ensures Accounted(d, n, Render(sc, d, n, cond).value.0, Render(sc, d, n, cond).value.1, KeepsArgs(sc, d, cond))
    decreases cond
  {
    hide RenderLeaf, CombineAnd, CombineOr, Negate, Accounted, HasArguments, Folded, Stands;
    FoldedIsRendered(sc, d, n, cond);
    ArgumentsIff(sc, d, n, cond);
    FragmentIff(Render(sc, d, n, cond).value.0, Folded(cond));
    match cond {
      case Logical(op, left, right) =>
        var l := Render(sc, d, n, left).value;
        var r := Render(sc, d, n + |l.1|, right).value;
        SlotsAreEmitted(sc, d, n, left);
        SlotsAreEmitted(sc, d, n + |l.1|, right);
        CombinedSlots(d, n, op, l.0, l.1, KeepsArgs(sc, d, left), r.0, r.1, KeepsArgs(sc, d, right));
      case NotCond(expr) =>
        SlotsAreEmitted(sc, d, n, expr);
        NegatedSlots(d, n, Render(sc, d, n, expr).value.0, Render(sc, d, n, expr).value.1, KeepsArgs(sc, d, expr));
        KeptConstant(d, n, Render(sc, d, n, expr).value.0, Render(sc, d, n, expr).value.1, KeepsArgs(sc, d, expr));
      case Constant(value) => ConstantAccounted(d, n, value);
      case _ =>
        LeafFolded(cond);
        LeafAccounted(sc, d, n, cond);
    }
  }

  lemma LeafFolded(cond: Condition)
    requires IsLeaf(cond)
    ensures Folded(cond).None?
  {}

  lemma FragmentIff(r: Rendered, folded: Option<bool>)
    requires Stands(r, folded)
    ensures r.Fragment? <==> folded.None?
  {}

  /** A constant keeps its arguments exactly when it has none. */
  lemma KeptConstant(d: Dialect, n: nat, r: Rendered, args: seq<Value>, keeps: bool)
    requires Accounted(d, n, r, args, keeps)
    ensures !r.Fragment? ==> (keeps <==> args == [])
    ensures Negate(r).Fragment? <==> r.Fragment?
  {}

  lemma NegatedSlots(d: Dialect, n: nat, r: Rendered, args: seq<Value>, keeps: bool)
    requires Accounted(d, n, r, args, keeps)
    ensures Accounted(d, n, Negate(r), args, keeps)
  {
    SlotsOfCombined(r, Trivial);
  }

  lemma ConstantAccounted(d: Dialect, n: nat, value: bool)
    ensures Accounted(d, n, if value then Trivial else Unsatisfiable, [], true)
  {}

  lemma LeafAccounted(sc: Schema, d: Dialect, n: nat, cond: Condition)
    requires IsLeaf(cond) && RenderLeaf(sc, d, n, cond).Ok?
    ensures Accounted(d, n, RenderLeaf(sc, d, n, cond).value.0, RenderLeaf(sc, d, n, cond).value.1, true)
  {
    hide RenderLeaf, Slots;
    LeafIsNumbered(sc, d, n, cond);
  }

  lemma SlotsOfCombined(l: Rendered, r: Rendered)
    ensures SlotsOf(CombineAnd(l, r)) ==
            if !CombineAnd(l, r).Fragment? then [] else if l.Trivial? then SlotsOf(r) else if r.Trivial? then SlotsOf(l)
            else SlotsOf(l) + SlotsOf(r)
    ensures SlotsOf(CombineOr(l, r)) ==
            if !CombineOr(l, r).Fragment? then [] else if l.Unsatisfiable? then SlotsOf(r)
            else if r.Unsatisfiable? then SlotsOf(l) else SlotsOf(l) + SlotsOf(r)
    ensures SlotsOf(Negate(l)) == SlotsOf(l)
  {}

  // ----- what the database binds -----

  /** Postgres: rendered after the arguments `earlier`, and whatever folding drops, each `$k` asks for its own
      argument, also when other arguments follow and wherever the fragment stands. */
  lemma PostgresBindsItsOwn(sc: Schema, cond: Condition, earlier: seq<Value>, later: seq<Value>, before: nat)
    requires Render(sc, Postgres, |earlier|, cond).Ok?
    ensures var o := Render(sc, Postgres, |earlier|, cond).value; Bound(before, SlotsOf(o.0), earlier + o.1 + later)
  {
    hide RenderLeaf, Slots, KeepsArgs;
    SlotsAreEmitted(sc, Postgres, |earlier|, cond);
    var o := Render(sc, Postgres, |earlier|, cond).value;
    var slots, all := SlotsOf(o.0), earlier + o.1 + later;
    forall i | 0 <= i < |slots| ensures ArgumentFor(slots[i].token, before + i, all) == Some(slots[i].v) {
      assert slots[i] in slots;
      assert all[slots[i].token.n - 1] == o.1[slots[i].token.n - |earlier| - 1];
    }
  }

  /** SQLite and MySQL: the placeholders ask for their own arguments and use up exactly the statement's if and
      only if folding drops no leaf with arguments. */
  lemma QuestionMarksBindIff(sc: Schema, d: Dialect, cond: Condition, earlier: seq<Value>, later: seq<Value>)
    requires Render(sc, d, |earlier|, cond).Ok? && !d.Postgres?
    ensures var o := Render(sc, d, |earlier|, cond).value;
            |SlotsOf(o.0)| == |o.1| && Bound(|earlier|, SlotsOf(o.0), earlier + o.1 + later) <==> KeepsArgs(sc, d, cond)
  {
    hide RenderLeaf, Slots, KeepsArgs;
    SlotsAreEmitted(sc, d, |earlier|, cond);
    var o := Render(sc, d, |earlier|, cond).value;
    var all := earlier + o.1 + later;
    forall i | 0 <= i < |o.1| ensures all[|earlier| + i] == o.1[i] {}
  }

  /** A query whose folding drops an argument: `(content == "a" || true) && content == "b"` asks for "a", and
      when it is run it is false on a row with content "b". */
  lemma DroppedArgumentShifts(db: Database)
    requires db.d.SQLite? && db.row.Read(Memo("content")) == StrV("b")
    ensures var sc: Schema := map["content" := ScalarField("content", StringType, Memo("content"), None)];
            var equals := (s: string) => Comparison(FieldRef("content"), Eq, LiteralValue(LString(s)));
            var cond := Logical(AndOp, Logical(OrOp, equals("a"), Constant(true)), equals("b"));
            var sql := Compare(ColumnT(Memo("content")), Eq, Param(Slot(Question, StrV("b"))));
            Render(sc, SQLite, 0, cond) == Ok((Fragment(sql), [StrV("a"), StrV("b")])) &&
            Eval(db, sql) == True && Execute(db, sql, 0, [StrV("a"), StrV("b")]) == Some(False)
  {
    hide Execute, Slots, RenderLeaf, Eval;
    ContentEquals(0, "a");
    ContentEquals(1, "b");
    var sc: Schema := map["content" := ScalarField("content", StringType, Memo("content"), None)];
    var a := Comparison(FieldRef("content"), Eq, LiteralValue(LString("a")));
    var b := Comparison(FieldRef("content"), Eq, LiteralValue(LString("b")));
    var r := Render(sc, SQLite, 1, b).value;
    OrTrueRenders(sc, 0, a, Render(sc, SQLite, 0, a).value);
    assert [StrV("a")] + [] == [StrV("a")] && [StrV("a")] + [StrV("b")] == [StrV("a"), StrV("b")];
    AndRenders(sc, 0, Logical(OrOp, a, Constant(true)), b, [StrV("a")], r);
    RunComparison(db, ColumnT(Memo("content")), StrV("b"), [StrV("a"), StrV("b")]);
    ContentIsB(db);
  }

  lemma OrTrueRenders(sc: Schema, n: nat, cond: Condition, out: (Rendered, seq<Value>))
    requires Render(sc, SQLite, n, cond) == Ok(out)
    ensures Render(sc, SQLite, n, Logical(OrOp, cond, Constant(true))) == Ok((Trivial, out.1 + []))
  {
    hide RenderLeaf;
  }

  lemma AndRenders(sc: Schema, n: nat, left: Condition, right: Condition, args: seq<Value>, out: (Rendered, seq<Value>))
    requires Render(sc, SQLite, n, left) == Ok((Trivial, args)) && Render(sc, SQLite, n + |args|, right) == Ok(out)
    requires out.0.Fragment?
    ensures Render(sc, SQLite, n, Logical(AndOp, left, right)) == Ok((out.0, args + out.1))
  {
    hide RenderLeaf;
  }

  lemma ContentIsB(db: Database)
    requires db.d.SQLite? && db.row.Read(Memo("content")) == StrV("b")
    ensures var column := ColumnT(Memo("content"));
            Eval(db, Compare(column, Eq, Param(Slot(Question, StrV("b"))))) == True &&
            Eval(db, Compare(column, Eq, Param(Slot(Question, StrV("a"))))) == False
  {}

  lemma ContentEquals(n: nat, s: string)
    ensures var sc: Schema := map["content" := ScalarField("content", StringType, Memo("content"), None)];
            var sql := Compare(ColumnT(Memo("content")), Eq, Param(Slot(Question, StrV(s))));
            Render(sc, SQLite, n, Comparison(FieldRef("content"), Eq, LiteralValue(LString(s))))
              == Ok((Fragment(sql), [StrV(s)]))
  {}

  lemma RunComparison(db: Database, column: Term, v: Value, all: seq<Value>)
    requires column.ColumnT? && all != []
    ensures Execute(db, Compare(column, Eq, Param(Slot(Question, v))), 0, all)
            == Some(Eval(db, Compare(column, Eq, Param(Slot(Question, all[0])))))
  {
    var s := Compare(column, Eq, Param(Slot(Question, v)));
    assert TermSlots(column) == [] && TermSlots(Param(Slot(Question, v))) == [Slot(Question, v)];
    assert Slots(s) == [] + [Slot(Question, v)] == [Slot(Question, v)];
    assert [Slot(Question, v)][1..] == [] && ArgumentsFor([], 1, all) == Some([]);
    assert ArgumentsFor(Slots(s), 0, all) == Some([all[0]] + []);
    var vs := [all[0]] + [];
    assert vs[..0] == [] && vs[0..] == vs;
    assert Bind(s, vs) == Compare(column, Eq, Param(Slot(Question, all[0])));
  }

  // ----- well-formed SQL -----

  /** The membership tests that remain after folding have lists the dialect accepts. */
  predicate KeptListsParse(d: Dialect, cond: Condition) {
    Folded(cond).Some? ||
    match cond
    case Logical(_, left, right) => KeptListsParse(d, left) && KeptListsParse(d, right)
    case NotCond(expr) => KeptListsParse(d, expr)
    case InCond(target, values) => values != [] || (d.SQLite? && target != FieldRef("tag"))
    case _ => true
  }

  lemma {:induction false} TagTestsParse(d: Dialect, n: nat, f: Field, values: seq<ValueExpr>)
    requires TagTests(d, n, f, values).Ok?
    ensures |TagTests(d, n, f, values).value.0| == |values|
    ensures forall t <- TagTests(d, n, f, values).value.0 :: Parses(d, t)
    decreases |values|
  {
    if values != [] { TagTestsParse(d, n + 2, f, values[1..]); }
  }

  lemma ParamsLength(d: Dialect, n: nat, vs: seq<Value>)
    ensures Params(d, n, vs) == [] <==> vs == []
  {}

  lemma InParsesIff(sc: Schema, d: Dialect, n: nat, target: ValueExpr, values: seq<ValueExpr>)
    requires InSql(sc, d, n, target, values).Ok?
    ensures InSql(sc, d, n, target, values).value.0.Fragment?
    ensures Parses(d, InSql(sc, d, n, target, values).value.0.sql) <==>
            KeptListsParse(d, InCond(target, values))
  {
    hide TagTests, ScalarArgs, Params;
    if target.name == "tag" {
      var f := ResolveAlias(sc, "tag").value;
      TagTestsParse(d, n, f, values);
      var tests := TagTests(d, n, f, values).value.0;
      if |tests| == 1 { assert tests[0] in tests; }
    } else {
      ScalarArguments(sc[target.name], values);
      ParamsLength(d, n, ScalarArgs(sc[target.name], values).value);
    }
  }

  lemma OtherLeavesParse(sc: Schema, d: Dialect, n: nat, cond: Condition)
    requires IsLeaf(cond) && !cond.InCond? && RenderLeaf(sc, d, n, cond).Ok?
    ensures RenderLeaf(sc, d, n, cond).value.0.Fragment? && Parses(d, RenderLeaf(sc, d, n, cond).value.0.sql)
  {
    hide ColumnExpr, JsonExtract, ArrayAsText, JsonArray, NullCheck, ComparisonSql, ExistsSql;
    match cond {
      case Comparison(left, op, right) => ComparisonParses(sc, d, n, left, op, right);
      case Exists(field, pred) =>
        ExistsIsNullCheck(sc, d, n, field, pred);
        var sql := ExistsSql(sc, d, n, field, pred).value.0.sql;
        var tested :| sql == NullCheck(d, sc[field], tested) && Parses(d, tested);
        NullCheckParses(d, sc[field], tested);
      case _ =>
    }
  }

  lemma ComparisonParses(sc: Schema, d: Dialect, n: nat, left: ValueExpr, op: CompareOp, right: ValueExpr)
    requires ComparisonSql(sc, d, n, left, op, right).Ok?
    ensures ComparisonSql(sc, d, n, left, op, right).value.0.Fragment?
    ensures Parses(d, ComparisonSql(sc, d, n, left, op, right).value.0.sql)
  {
    hide ScalarComparison, BoolColumnComparison, JsonBoolComparison, SizeComparison;
    if left.FieldRef? {
      FieldComparisonParses(d, n, sc[left.name], op, right);
    } else {
      SizeParses(sc, d, n, left.args, op, right);
    }
  }

  ghost predicate OutcomeParses(d: Dialect, out: Outcome) {
    out.Ok? ==> out.value.0.Fragment? && Parses(d, out.value.0.sql)
  }

  lemma FieldComparisonParses(d: Dialect, n: nat, f: Field, op: CompareOp, right: ValueExpr)
    ensures OutcomeParses(d, ScalarComparison(d, n, f, op, right)) &&
            OutcomeParses(d, BoolColumnComparison(d, n, f, op, right))
    ensures OutcomeParses(d, JsonBoolComparison(d, n, f, op, right))
  {
    hide ColumnExpr, JsonExtract, BoolArg;
    assert Parses(d, IsTrue(JsonExtract(d, f)));
  }

  lemma SizeParses(sc: Schema, d: Dialect, n: nat, args: seq<ValueExpr>, op: CompareOp, right: ValueExpr)
    ensures OutcomeParses(d, SizeComparison(sc, d, n, args, op, right))
  {
    hide JsonArray;
  }

  lemma ExistsIsNullCheck(sc: Schema, d: Dialect, n: nat, field: string, pred: TagPredicate)
    requires ExistsSql(sc, d, n, field, pred).Ok?
    ensures field in sc && ExistsSql(sc, d, n, field, pred).value.0.Fragment?
    ensures exists tested ::
              ExistsSql(sc, d, n, field, pred).value.0.sql == NullCheck(d, sc[field], tested) && Parses(d, tested)
  {
    hide ArrayAsText, NullCheck;
    var f := sc[field];
    match pred {
      case StartsWith(s) =>
        var first := if d.Postgres? then ExactArg(d, s) else StrV("%\"" + s + "\"%");
        var one, two := Emit(d, n + 1, first), Emit(d, n + 2, StrV("%\"" + s + "%"));
        var test := if d.Postgres? then ExactTest(d, f, one) else LikeTest(d, f, one);
        assert Parses(d, Or(test, LikeTest(d, f, two)));
      case EndsWith(s) => assert Parses(d, LikeTest(d, f, Emit(d, n + 1, StrV("%" + s + "\"%"))));
      case Contains(s) => assert Parses(d, LikeTest(d, f, Emit(d, n + 1, StrV("%" + s + "%"))));
    }
  }

  lemma NullCheckParses(d: Dialect, f: Field, s: Sql)
    requires Parses(d, s)
    ensures Parses(d, NullCheck(d, f, s))
  {
    assert Parses(d, And(s, IsNotNull(JsonArray(f))));
  }

  /** A membership test renders to SQL that parses exactly when its list is not empty, or is a list of plain
      values for SQLite. */
  lemma LeafParsesIff(sc: Schema, d: Dialect, n: nat, cond: Condition)
    requires IsLeaf(cond) && RenderLeaf(sc, d, n, cond).Ok?
    ensures RenderLeaf(sc, d, n, cond).value.0.Fragment?
    ensures Parses(d, RenderLeaf(sc, d, n, cond).value.0.sql) <==> KeptListsParse(d, cond)
  {
    hide InSql;
    if cond.InCond? { InParsesIff(sc, d, n, cond.target, cond.values); } else { OtherLeavesParse(sc, d, n, cond); }
  }

  predicate ResultParses(d: Dialect, r: Rendered) { r.Fragment? ==> Parses(d, r.sql) }

  lemma CombinedParses(d: Dialect, op: LogicalOp, l: Rendered, left: Condition, r: Rendered, right: Condition)
    requires Stands(l, Folded(left)) && Stands(r, Folded(right))
    requires ResultParses(d, l) <==> KeptListsParse(d, left)
    requires ResultParses(d, r) <==> KeptListsParse(d, right)
    ensures ResultParses(d, if op.AndOp? then CombineAnd(l, r) else CombineOr(l, r))
            <==> KeptListsParse(d, Logical(op, left, right))
  {}

  /** A condition renders to SQL that parses exactly when the lists that remain after folding are accepted. */
  lemma {:induction false} RenderParsesIff(sc: Schema, d: Dialect, n: nat, cond: Condition)
    requires Render(sc, d, n, cond).Ok?
    ensures ResultParses(d, Render(sc, d, n, cond).value.0) <==> KeptListsParse(d, cond)
    decreases cond
  {
    hide RenderLeaf, CombineAnd, CombineOr, Stands, Folded, Parses, KeptListsParse, ResultParses, Negate;
    match cond {
      case Logical(op, left, right) =>
        var l := Render(sc, d, n, left).value;
        FoldedIsRendered(sc, d, n, left);
        FoldedIsRendered(sc, d, n + |l.1|, right);
        RenderParsesIff(sc, d, n, left);
        RenderParsesIff(sc, d, n + |l.1|, right);
        CombinedParses(d, op, l.0, left, Render(sc, d, n + |l.1|, right).value.0, right);
      case NotCond(expr) =>
        FoldedIsRendered(sc, d, n, expr);
        RenderParsesIff(sc, d, n, expr);
        NegatedParses(d, Render(sc, d, n, expr).value.0, expr);
      case Constant(value) => ConstantParses(d, value);
      case _ => LeafParses(sc, d, n, cond);
    }
  }

  lemma NegatedParses(d: Dialect, r: Rendered, expr: Condition)
    requires Stands(r, Folded(expr)) && (ResultParses(d, r) <==> KeptListsParse(d, expr))
    ensures ResultParses(d, Negate(r)) <==> KeptListsParse(d, NotCond(expr))
  {}

  lemma ConstantParses(d: Dialect, value: bool)
    ensures ResultParses(d, if value then Trivial else Unsatisfiable) <==> KeptListsParse(d, Constant(value))
  {}

  lemma LeafParses(sc: Schema, d: Dialect, n: nat, cond: Condition)
    requires IsLeaf(cond) && RenderLeaf(sc, d, n, cond).Ok?
    ensures ResultParses(d, RenderLeaf(sc, d, n, cond).value.0) <==> KeptListsParse(d, cond)
  {
    hide RenderLeaf, KeptListsParse;
    LeafParsesIff(sc, d, n, cond);
  }

  // ----- running a statement -----

  /** Running a statement inside a query: the arguments `earlier` and as many placeholders stand before it, the
      arguments `later` follow. */
  function ExecuteStatement(db: Database, st: Statement, earlier: seq<Value>, later: seq<Value>): Option<Truth> {
    if st.sql.None? then Some(True) else Execute(db, st.sql.value, |earlier|, earlier + st.args + later)
  }

  /** The dialect finds the arguments of the condition: by their numbers, or because folding drops none. */
  predicate FindsArgs(sc: Schema, d: Dialect, cond: Condition) { d.Postgres? || KeepsArgs(sc, d, cond) }

  lemma RenderedBinds(sc: Schema, d: Dialect, cond: Condition, earlier: seq<Value>, later: seq<Value>)
    requires Render(sc, d, |earlier|, cond).Ok? && FindsArgs(sc, d, cond)
    ensures var o := Render(sc, d, |earlier|, cond).value; Bound(|earlier|, SlotsOf(o.0), earlier + o.1 + later)
  {
    hide Render, KeepsArgs, SlotsOf, Bound;
    if d.Postgres? {
      PostgresBindsItsOwn(sc, cond, earlier, later, |earlier|);
    } else {
      QuestionMarksBindIff(sc, d, cond, earlier, later);
    }
  }

  /** What a rendered condition does when it is run with its arguments is what it means, with every placeholder
      standing for its own value. */
  lemma StatementExecutes(sc: Schema, db: Database, cond: Condition, earlier: seq<Value>, later: seq<Value>)
    requires Render(sc, db.d, |earlier|, cond).Ok?
    requires FindsArgs(sc, db.d, cond) && KeptListsParse(db.d, cond)
    ensures var o := Render(sc, db.d, |earlier|, cond).value;
            ExecuteStatement(db, ToStatement(o.0, o.1), earlier, later) == Some(Meaning(db, o.0))
  {
    hide Render, KeepsArgs, KeptListsParse, Parses, Execute, Eval, FindsArgs;
    var o := Render(sc, db.d, |earlier|, cond).value;
    RenderParsesIff(sc, db.d, |earlier|, cond);
    RenderedBinds(sc, db.d, cond, earlier, later);
    match o.0 {
      case Fragment(s) => BoundExecutes(db, s, |earlier|, earlier + o.1 + later);
      case Trivial =>
      case Unsatisfiable => FalsumExecutes(db, |earlier|, earlier + o.1 + later);
    }
  }

  lemma FalsumExecutes(db: Database, before: nat, all: seq<Value>)
    ensures Execute(db, Falsum, before, all) == Some(False)
  {}
}
