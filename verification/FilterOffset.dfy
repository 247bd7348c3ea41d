/** Rendering at another offset shifts the placeholder numbers and nothing else. */
module FilterOffset {
  import opened Options
  import opened FilterSchema
  import opened Sql
  import opened FilterRender

  function ShiftSlot(slot: Slot, k: nat): Slot {
    match slot.token case Dollar(n) => slot.(token := Dollar(n + k)) case Question => slot
  }

  /** The term with `k` added to every placeholder number. */
  function ShiftTerm(t: Term, k: nat): Term {
    match t
    case Param(slot) => Param(ShiftSlot(slot, k))
    case UnixTimestamp(u) => UnixTimestamp(ShiftTerm(u, k))
    case CastBoolean(u) => CastBoolean(ShiftTerm(u, k))
    case CastText(u) => CastText(ShiftTerm(u, k))
    case ArrayLength(u) => ArrayLength(ShiftTerm(u, k))
    case OrEmptyArray(u) => OrEmptyArray(ShiftTerm(u, k))
    case OrJsonFalse(u) => OrJsonFalse(ShiftTerm(u, k))
    case _ => t
  }

  function ShiftTerms(ts: seq<Term>, k: nat): seq<Term> {
    if ts == [] then [] else [ShiftTerm(ts[0], k)] + ShiftTerms(ts[1..], k)
  }

  /** The fragment with `k` added to every placeholder number. */
  function Shift(s: Sql, k: nat): Sql {
    match s
    case Falsum => s
    case Compare(l, op, r) => Compare(ShiftTerm(l, k), op, ShiftTerm(r, k))
    case IsNull(t) => IsNull(ShiftTerm(t, k))
    case IsNotNull(t) => IsNotNull(ShiftTerm(t, k))
    case IsTrue(t) => IsTrue(ShiftTerm(t, k))
    case In(t, items) => In(ShiftTerm(t, k), ShiftTerms(items, k))
    case Like(t, p) => Like(ShiftTerm(t, k), ShiftTerm(p, k))
    case FoldedLike(t, p) => FoldedLike(ShiftTerm(t, k), ShiftTerm(p, k))
    case JsonContains(t, e) => JsonContains(ShiftTerm(t, k), ShiftTerm(e, k))
    case Not(a) => Not(Shift(a, k))
    case And(a, b) => And(Shift(a, k), Shift(b, k))
    case Or(a, b) => Or(Shift(a, k), Shift(b, k))
    case AnyOf(alts) => AnyOf(ShiftAll(alts, k))
  }

  function ShiftAll(alts: seq<Sql>, k: nat): (r: seq<Sql>)
    ensures |r| == |alts| && (r != [] ==> r[0] == Shift(alts[0], k))
  {
    if alts == [] then [] else [Shift(alts[0], k)] + ShiftAll(alts[1..], k)
  }

  function ShiftResult(r: Rendered, k: nat): Rendered {
    match r case Fragment(s) => Fragment(Shift(s, k)) case _ => r
  }

  function ShiftOutcome(out: Outcome, k: nat): Outcome {
    match out case Ok(o) => Ok((ShiftResult(o.0, k), o.1)) case Err(e) => Err(e)
  }

  /** `b` is `a` with `k` added to every placeholder number. */
  ghost predicate Shifts(a: Outcome, b: Outcome, k: nat) { b == ShiftOutcome(a, k) }

  lemma ColumnsStay(d: Dialect, f: Field, k: nat)
    ensures ShiftTerm(ColumnExpr(d, f), k) == ColumnExpr(d, f) && ShiftTerm(JsonArray(f), k) == JsonArray(f)
    ensures ShiftTerm(ColumnT(f.column), k) == ColumnT(f.column) && ShiftTerm(JsonExtract(d, f), k) == JsonExtract(d, f)
    ensures ShiftTerm(ArrayAsText(d, f), k) == ArrayAsText(d, f)
    ensures ShiftTerm(CastBoolean(JsonExtract(d, f)), k) == CastBoolean(JsonExtract(d, f))
    ensures ShiftTerm(OrJsonFalse(JsonExtract(d, f)), k) == OrJsonFalse(JsonExtract(d, f))
    ensures ShiftTerm(ArrayLength(OrEmptyArray(JsonArray(f))), k) == ArrayLength(OrEmptyArray(JsonArray(f)))
    ensures ShiftTerm(ArrayLength(JsonArray(f)), k) == ArrayLength(JsonArray(f))
  {
    assert ShiftTerm(OrEmptyArray(JsonArray(f)), k) == OrEmptyArray(JsonArray(f));
  }

  lemma EmitShifts(d: Dialect, n: nat, v: Value, k: nat)
    ensures ShiftTerm(Param(Emit(d, n, v)), k) == Param(Emit(d, n + k, v))
  {}

  /** A comparison whose right side is one placeholder. */
  lemma CompareShifts(d: Dialect, n: nat, t: Term, op: CompareOp, v: Value, k: nat)
    requires ShiftTerm(t, k) == t
    ensures Shift(Compare(t, op, Param(Emit(d, n + 1, v))), k) == Compare(t, op, Param(Emit(d, n + k + 1, v)))
  {
    hide Emit;
    EmitShifts(d, n + 1, v, k);
  }

  lemma TestsShift(t: Term, k: nat)
    requires ShiftTerm(t, k) == t
    ensures Shift(IsNull(t), k) == IsNull(t) && Shift(IsNotNull(t), k) == IsNotNull(t) &&
            Shift(IsTrue(t), k) == IsTrue(t)
    ensures Shift(Not(IsTrue(t)), k) == Not(IsTrue(t))
  {
    assert Shift(IsTrue(t), k) == IsTrue(t);
  }

  lemma ScalarShifts(d: Dialect, n: nat, f: Field, op: CompareOp, right: ValueExpr, k: nat)
    ensures Shifts(ScalarComparison(d, n, f, op, right), ScalarComparison(d, n + k, f, op, right), k)
  {
    hide ColumnExpr, Emit, Shift, ShiftTerm;
    ColumnsStay(d, f, k);
    TestsShift(ColumnExpr(d, f), k);
    if right.LiteralValue? && right.lit.LString? { CompareShifts(d, n, ColumnExpr(d, f), op, StrV(right.lit.s), k); }
    if right.LiteralValue? && right.lit.LInt? { CompareShifts(d, n, ColumnExpr(d, f), op, IntV(right.lit.i), k); }
  }

  lemma BoolColumnShifts(d: Dialect, n: nat, f: Field, op: CompareOp, right: ValueExpr, k: nat)
    ensures Shifts(BoolColumnComparison(d, n, f, op, right), BoolColumnComparison(d, n + k, f, op, right), k)
  {
    hide Emit, BoolArg, Shift, ShiftTerm;
    ColumnsStay(d, f, k);
    if right.LiteralValue? && right.lit.LBool? {
      CompareShifts(d, n, ColumnT(f.column), op, BoolArg(d, right.lit.b), k);
    }
  }

  lemma JsonComparisonShifts(d: Dialect, n: nat, f: Field, op: CompareOp, right: ValueExpr, k: nat)
    ensures Shifts(JsonBoolComparison(d, n, f, op, right), JsonBoolComparison(d, n + k, f, op, right), k)
  {
    hide JsonBoolComparison;
    match d {
      case SQLite => FlagTestShifts(n, f, op, right, k);
      case MySQL => JsonLiteralShifts(n, f, op, right, k);
      case Postgres => CastComparisonShifts(n, f, op, right, k);
    }
  }

  lemma FlagTestShifts(n: nat, f: Field, op: CompareOp, right: ValueExpr, k: nat)
    ensures Shifts(JsonBoolComparison(SQLite, n, f, op, right), JsonBoolComparison(SQLite, n + k, f, op, right), k)
  {
    hide JsonExtract, Shift, ShiftTerm;
    ColumnsStay(SQLite, f, k);
    TestsShift(JsonExtract(SQLite, f), k);
    if right.LiteralValue? && right.lit.LBool? {
      FixedCompareShifts(JsonExtract(SQLite, f), op, IntLit(if right.lit.b then 1 else 0), k);
    }
  }

  lemma JsonLiteralShifts(n: nat, f: Field, op: CompareOp, right: ValueExpr, k: nat)
    ensures Shifts(JsonBoolComparison(MySQL, n, f, op, right), JsonBoolComparison(MySQL, n + k, f, op, right), k)
  {
    hide JsonExtract, Shift, ShiftTerm;
    ColumnsStay(MySQL, f, k);
    if right.LiteralValue? && right.lit.LBool? {
      FixedCompareShifts(JsonExtract(MySQL, f), op, JsonBoolLit(right.lit.b), k);
    }
  }

  lemma CastComparisonShifts(n: nat, f: Field, op: CompareOp, right: ValueExpr, k: nat)
    ensures Shifts(JsonBoolComparison(Postgres, n, f, op, right), JsonBoolComparison(Postgres, n + k, f, op, right), k)
  {
    hide JsonExtract, Emit, Shift, ShiftTerm;
    ColumnsStay(Postgres, f, k);
    if right.LiteralValue? && right.lit.LBool? {
      CompareShifts(Postgres, n, CastBoolean(JsonExtract(Postgres, f)), op, BoolV(right.lit.b), k);
    }
  }

  lemma FixedCompareShifts(t: Term, op: CompareOp, u: Term, k: nat)
    requires ShiftTerm(t, k) == t && (u.IntLit? || u.JsonBoolLit?)
    ensures Shift(Compare(t, op, u), k) == Compare(t, op, u)
  {}

  lemma SizeShifts(sc: Schema, d: Dialect, n: nat, args: seq<ValueExpr>, op: CompareOp, right: ValueExpr, k: nat)
    ensures Shifts(SizeComparison(sc, d, n, args, op, right), SizeComparison(sc, d, n + k, args, op, right), k)
  {
    hide JsonArray, Emit, Shift, ShiftTerm;
    if |args| == 1 && args[0].FieldRef? && args[0].name in sc && right.LiteralValue? && right.lit.LInt? {
      var f := sc[args[0].name];
      ColumnsStay(d, f, k);
      CompareShifts(d, n, ArrayLength(OrEmptyArray(JsonArray(f))), op, IntV(right.lit.i), k);
    }
  }

  lemma ComparisonShifts(sc: Schema, d: Dialect, n: nat, left: ValueExpr, op: CompareOp, right: ValueExpr, k: nat)
    ensures Shifts(ComparisonSql(sc, d, n, left, op, right), ComparisonSql(sc, d, n + k, left, op, right), k)
  {
    hide ScalarComparison, BoolColumnComparison, JsonBoolComparison, SizeComparison, Shifts;
    ErrorsStay(k);
    if left.FieldRef? && left.name in sc {
      ScalarShifts(d, n, sc[left.name], op, right, k);
      BoolColumnShifts(d, n, sc[left.name], op, right, k);
      JsonComparisonShifts(d, n, sc[left.name], op, right, k);
    }
    if left.FunctionValue? { SizeShifts(sc, d, n, left.args, op, right, k); }
  }

  lemma ErrorsStay(k: nat)
    ensures forall e :: Shifts(Err(e), Err(e), k)
  {}

  lemma {:induction false} ParamsShift(d: Dialect, n: nat, vs: seq<Value>, k: nat)
    ensures Params(d, n + k, vs) == ShiftTerms(Params(d, n, vs), k)
    decreases |vs|
  {
    hide Emit;
    if vs != [] {
      ParamsShift(d, n + 1, vs[1..], k);
      EmitShifts(d, n + 1, vs[0], k);
    }
  }

  lemma TagTestShifts(d: Dialect, n: nat, f: Field, s: string, k: nat)
    ensures TagTest(d, n + k, f, s) == Shift(TagTest(d, n, f, s), k)
  {
    hide Emit, ExactArg, BelowArg, JsonArray, ArrayAsText;
    ColumnsStay(d, f, k);
    var e, b := Emit(d, n + 1, ExactArg(d, s)), Emit(d, n + 2, BelowArg(s));
    EmitShifts(d, n + 1, ExactArg(d, s), k);
    EmitShifts(d, n + 2, BelowArg(s), k);
    assert Shift(ExactTest(d, f, e), k) == ExactTest(d, f, Emit(d, n + 1 + k, ExactArg(d, s)));
    assert Shift(LikeTest(d, f, b), k) == LikeTest(d, f, Emit(d, n + 2 + k, BelowArg(s)));
  }

  lemma {:induction false} TagTestsShift(d: Dialect, n: nat, f: Field, values: seq<ValueExpr>, k: nat)
    ensures TagTests(d, n, f, values).Ok? <==> TagTests(d, n + k, f, values).Ok?
    ensures TagTests(d, n, f, values).Err? ==> TagTests(d, n + k, f, values) == TagTests(d, n, f, values)
    ensures TagTests(d, n, f, values).Ok? ==>
              var o := TagTests(d, n, f, values).value; TagTests(d, n + k, f, values) == Ok((ShiftAll(o.0, k), o.1))
    decreases |values|
  {
    hide TagTest, ExpectString, ExactArg, BelowArg;
    if values != [] && ExpectString(values[0]).Ok? {
      TagTestsShift(d, n + 2, f, values[1..], k);
      TagTestShifts(d, n, f, ExpectString(values[0]).value, k);
      if TagTests(d, n + 2, f, values[1..]).Ok? {
        PushShifts(TagTest(d, n, f, ExpectString(values[0]).value), TagTests(d, n + 2, f, values[1..]).value.0, k);
      }
    }
  }

  lemma PushShifts(s: Sql, rest: seq<Sql>, k: nat)
    ensures ShiftAll([s] + rest, k) == [Shift(s, k)] + ShiftAll(rest, k)
  {
    assert ([s] + rest)[1..] == rest;
  }

  lemma InShifts(sc: Schema, d: Dialect, n: nat, target: ValueExpr, values: seq<ValueExpr>, k: nat)
    ensures Shifts(InSql(sc, d, n, target, values), InSql(sc, d, n + k, target, values), k)
  {
    hide TagTests, ScalarArgs, Params, ColumnExpr, ShiftAll, ShiftTerms;
    if target.FieldRef? && target.name == "tag" {
      if ResolveAlias(sc, "tag").Some? { TagTestsShift(d, n, ResolveAlias(sc, "tag").value, values, k); }
    } else if target.FieldRef? && target.name in sc {
      ColumnsStay(d, sc[target.name], k);
      if ScalarArgs(sc[target.name], values).Ok? { ParamsShift(d, n, ScalarArgs(sc[target.name], values).value, k); }
    }
  }

  lemma NullCheckShifts(d: Dialect, f: Field, s: Sql, k: nat)
    ensures Shift(NullCheck(d, f, s), k) == NullCheck(d, f, Shift(s, k))
  {
    hide JsonArray;
    ColumnsStay(d, f, k);
    var present := IsNotNull(JsonArray(f));
    var nonEmpty := if d.SQLite? then Compare(JsonArray(f), Neq, TextLit("[]"))
                    else Compare(ArrayLength(JsonArray(f)), Gt, IntLit(0));
    assert Shift(present, k) == present && Shift(nonEmpty, k) == nonEmpty;
    assert Shift(And(s, present), k) == And(Shift(s, k), present);
    assert NullCheck(d, f, s) == And(And(s, present), nonEmpty);
  }

  lemma ExistsShifts(sc: Schema, d: Dialect, n: nat, field: string, pred: TagPredicate, k: nat)
    ensures Shifts(ExistsSql(sc, d, n, field, pred), ExistsSql(sc, d, n + k, field, pred), k)
  {
    hide NullCheck, LikeTest, ExactTest, Emit, ExactArg, Shift;
    if field in sc && sc[field].kind.JsonList? {
      var f := sc[field];
      match pred {
        case StartsWith(s) =>
          var first := if d.Postgres? then ExactArg(d, s) else StrV("%\"" + s + "\"%");
          var one, two := Emit(d, n + 1, first), Emit(d, n + 2, StrV("%\"" + s + "%"));
          TestShifts(d, n + 1, f, first, k);
          TestShifts(d, n + 2, f, StrV("%\"" + s + "%"), k);
          OrShifts(if d.Postgres? then ExactTest(d, f, one) else LikeTest(d, f, one), LikeTest(d, f, two), k);
          NullCheckShifts(d, f, Or(if d.Postgres? then ExactTest(d, f, one) else LikeTest(d, f, one),
                                   LikeTest(d, f, two)), k);
        case EndsWith(s) => PartShifts(d, n, f, "%" + s + "\"%", k);
        case Contains(s) => PartShifts(d, n, f, "%" + s + "%", k);
      }
    }
  }

  lemma TestShifts(d: Dialect, n: nat, f: Field, v: Value, k: nat)
    ensures Shift(ExactTest(d, f, Emit(d, n, v)), k) == ExactTest(d, f, Emit(d, n + k, v))
    ensures Shift(LikeTest(d, f, Emit(d, n, v)), k) == LikeTest(d, f, Emit(d, n + k, v))
  {
    hide Emit, ArrayAsText, JsonArray;
    ColumnsStay(d, f, k);
    EmitShifts(d, n, v, k);
  }

  lemma OrShifts(a: Sql, b: Sql, k: nat)
    ensures Shift(Or(a, b), k) == Or(Shift(a, k), Shift(b, k))
  {}

  lemma PartShifts(d: Dialect, n: nat, f: Field, pattern: string, k: nat)
    ensures Shift(NullCheck(d, f, LikeTest(d, f, Emit(d, n + 1, StrV(pattern)))), k)
            == NullCheck(d, f, LikeTest(d, f, Emit(d, n + k + 1, StrV(pattern))))
  {
    hide NullCheck, ArrayAsText, Emit;
    ColumnsStay(d, f, k);
    EmitShifts(d, n + 1, StrV(pattern), k);
    NullCheckShifts(d, f, LikeTest(d, f, Emit(d, n + 1, StrV(pattern))), k);
  }

  lemma PredicateShifts(d: Dialect, f: Field, k: nat)
    ensures Shifts(FieldPredicateSql(d, f), FieldPredicateSql(d, f), k)
  {
    hide JsonExtract;
    ColumnsStay(d, f, k);
    FixedCompareShifts(OrJsonFalse(JsonExtract(d, f)), Eq, JsonBoolLit(true), k);
  }

  lemma ElementShifts(sc: Schema, d: Dialect, n: nat, element: ValueExpr, field: string, k: nat)
    ensures Shifts(ElementInSql(sc, d, n, element, field), ElementInSql(sc, d, n + k, element, field), k)
  {
    hide JsonArray, Emit, ExactArg;
    if field in sc && element.LiteralValue? && element.lit.LString? {
      ColumnsStay(d, sc[field], k);
      EmitShifts(d, n + 1, ExactArg(d, element.lit.s), k);
    }
  }

  lemma ContainsShifts(sc: Schema, d: Dialect, n: nat, field: string, text: string, k: nat)
    ensures Shifts(ContainsSql(sc, d, n, field, text), ContainsSql(sc, d, n + k, field, text), k)
  {
    hide ColumnExpr, Emit;
    if field in sc {
      ColumnsStay(d, sc[field], k);
      EmitShifts(d, n + 1, StrV("%" + text + "%"), k);
    }
  }

  lemma LeafShifts(sc: Schema, d: Dialect, n: nat, cond: Condition, k: nat)
    requires IsLeaf(cond)
    ensures Shifts(RenderLeaf(sc, d, n, cond), RenderLeaf(sc, d, n + k, cond), k)
  {
    hide ComparisonSql, InSql, ExistsSql, FieldPredicateSql, ElementInSql, ContainsSql, Shifts;
    ErrorsStay(k);
    match cond {
      case FieldPredicate(field) => if field in sc { PredicateShifts(d, sc[field], k); }
      case ElementIn(element, field) => ElementShifts(sc, d, n, element, field, k);
      case ContainsCond(field, text) => ContainsShifts(sc, d, n, field, text, k);
      case Comparison(left, op, right) => ComparisonShifts(sc, d, n, left, op, right, k);
      case InCond(target, values) => InShifts(sc, d, n, target, values, k);
      case Exists(field, pred) => ExistsShifts(sc, d, n, field, pred, k);
    }
  }

  lemma CombinedShifts(op: LogicalOp, l: Rendered, r: Rendered, k: nat)
    ensures ShiftResult(if op.AndOp? then CombineAnd(l, r) else CombineOr(l, r), k)
            == if op.AndOp? then CombineAnd(ShiftResult(l, k), ShiftResult(r, k))
               else CombineOr(ShiftResult(l, k), ShiftResult(r, k))
    ensures ShiftResult(Negate(l), k) == Negate(ShiftResult(l, k))
  {}

  /** Rendering with `k` more numbers used up gives the same result, arguments and errors, with `k` added to
      every placeholder number. */
  lemma {:induction false} RenderShifts(sc: Schema, d: Dialect, n: nat, cond: Condition, k: nat)
    ensures Render(sc, d, n + k, cond) == ShiftOutcome(Render(sc, d, n, cond), k)
    decreases cond
  {
    hide RenderLeaf, CombineAnd, CombineOr, Negate, Shift;
    match cond {
      case Logical(op, left, right) =>
        RenderShifts(sc, d, n, left, k);
        if Render(sc, d, n, left).Ok? {
          var l := Render(sc, d, n, left).value;
          RenderShifts(sc, d, n + |l.1|, right, k);
          assert n + k + |l.1| == n + |l.1| + k;
          if Render(sc, d, n + |l.1|, right).Ok? {
            CombinedShifts(op, l.0, Render(sc, d, n + |l.1|, right).value.0, k);
          }
        }
      case NotCond(expr) =>
        RenderShifts(sc, d, n, expr, k);
        if Render(sc, d, n, expr).Ok? { CombinedShifts(AndOp, Render(sc, d, n, expr).value.0, Trivial, k); }
      case Constant(_) =>
      case _ => LeafShifts(sc, d, n, cond, k);
    }
  }
}
