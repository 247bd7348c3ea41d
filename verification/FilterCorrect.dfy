/** The meaning of CEL filters, and the theorem that compiled filters select the rows the filter holds of. */
module FilterCorrect {
  import opened Options
  import opened FilterSchema
  import opened Text
  import opened TagText
  import Sql
  import opened FilterRender
  import opened FilterArgs
  import opened FilterMeaning
  import opened FilterAnswers
  import opened FilterCompile

  // ----- CEL values -----

  datatype Cel = VInt(i: int) | VStr(s: string) | VBool(b: bool) | VNull | VList(elements: seq<string>)

  /** The row, the clock, the variables of enclosing macros, how the database folds case when it compares tags,
      and its reading of contains() on a text column.  With `Exactly(reading)` tags are compared as CEL compares
      text. */
  datatype Env = Env(sc: Schema, row: Sql.Row, now: int, reading: Reading, foldedLike: (string, string) -> bool,
                     locals: map<string, Cel>)

  function FromValue(v: Sql.Value): Option<Cel> {
    match v
    case NullV => Some(VNull)
    case IntV(i) => Some(VInt(i))
    case StrV(s) => Some(VStr(s))
    case BoolV(b) => Some(VBool(b))
    case _ => None
  }

  /** A row is stored without its false flags and its empty tag list. */
  ghost function FieldValue(env: Env, f: Field): Option<Cel> {
    match f.kind
    case Scalar => FromValue(ScalarValue(env.row, f))
    case BoolColumn => FromValue(env.row.Read(f.column))
    case JsonBool =>
      (match env.row.ReadJson(f.column, f.jsonPath)
       case None => Some(VBool(false))
       case Some(JBool(b)) => Some(VBool(b))
       case _ => None)
    case JsonList => var ts := RefTags(env.row, f); Some(VList(if ts.None? then [] else ts.value))
    case VirtualAlias => None
  }

  /** Section "Logical Operators" of the CEL definition: an error on one side is absorbed by the other. */
  function CelAnd(a: Option<Cel>, b: Option<Cel>): Option<Cel> {
    if a == Some(VBool(false)) || b == Some(VBool(false)) then Some(VBool(false))
    else if a == Some(VBool(true)) && b == Some(VBool(true)) then Some(VBool(true))
    else None
  }

  function CelOr(a: Option<Cel>, b: Option<Cel>): Option<Cel> {
    if a == Some(VBool(true)) || b == Some(VBool(true)) then Some(VBool(true))
    else if a == Some(VBool(false)) && b == Some(VBool(false)) then Some(VBool(false))
    else None
  }

  function CelNot(a: Option<Cel>): Option<Cel> {
    match a case Some(VBool(b)) => Some(VBool(!b)) case _ => None
  }

  /** The six comparisons, by the names CEL gives them. */
  predicate IsComparison(fn: string) {
    fn == "_==_" || fn == "_!=_" || fn == "_<_" || fn == "_<=_" || fn == "_>_" || fn == "_>=_"
  }

  /** Values of one kind are equal or not, and so is anything with null. */
  predicate Comparable(a: Cel, b: Cel) {
    a.VNull? || b.VNull? || (a.VInt? && b.VInt?) || (a.VStr? && b.VStr?) || (a.VBool? && b.VBool?)
  }

  /** The order of integers, of texts, and of truth values. */
  function CelBelow(a: Cel, b: Cel): Option<bool> {
    match (a, b)
    case (VInt(x), VInt(y)) => Some(x < y)
    case (VStr(x), VStr(y)) => Some(StrLess(x, y))
    case (VBool(x), VBool(y)) => Some(!x && y)
    case _ => None
  }

  function CelCompare(fn: string, a: Cel, b: Cel): Option<Cel> {
    if !Comparable(a, b) then None
    else if fn == "_==_" then Some(VBool(a == b))
    else if fn == "_!=_" then Some(VBool(a != b))
    else
      match (CelBelow(a, b), CelBelow(b, a))
      case (Some(below), Some(above)) =>
        if fn == "_<_" then Some(VBool(below))
        else if fn == "_>_" then Some(VBool(above))
        else if fn == "_<=_" then Some(VBool(!above))
        else if fn == "_>=_" then Some(VBool(!below))
        else None
      case _ => None
  }

  /** Sums, differences and products; one that overflows is an error. */
  function CelArith(fn: string, a: Option<Cel>, b: Option<Cel>): Option<Cel> {
    match (a, b)
    case (Some(VInt(x)), Some(VInt(y))) =>
      var n := if fn == "_+_" then x + y else if fn == "_-_" then x - y else x * y;
      if -0x8000_0000_0000_0000 <= n <= 0x7FFF_FFFF_FFFF_FFFF then Some(VInt(n)) else None
    case _ => None
  }

  /** A string test with both sides folded by `f`. */
  ghost function CelStringTest(fn: string, f: char -> char, a: Option<Cel>, b: Option<Cel>): Option<Cel> {
    match (a, b)
    case (Some(VStr(s)), Some(VStr(t))) =>
      var x, y := Fold(f, s), Fold(f, t);
      Some(VBool(if fn == "startsWith" then y <= x else if fn == "endsWith" then EndsIn(y, x) else Occurs(y, x)))
    case _ => None
  }

  /** Parts of tags are compared up to folding: only they are ever the value of a macro's variable. */
  function FoldFor(env: Env, target: Expr): char -> char {
    if target.Ident? && target.name in env.locals then env.reading.part else Same
  }

  function CelConst(c: FilterCompile.Constant): Option<Cel> {
    match c
    case CString(s) => Some(VStr(s))
    case CInt(i) => Some(VInt(i))
    case CUint(u) => if InInt64(u) then Some(VInt(u)) else None
    case CBool(b) => Some(VBool(b))
    case CNull => Some(VNull)
    case CBytes => None
  }

  /** The virtual field `tag` stands for "some tag, or a tag above it": `tag in ["a"]` holds of a row tagged
      `a` or `a/b`. */
  ghost predicate TagIn(fs: Reading, tags: seq<string>, listed: seq<Cel>) {
    exists v <- listed :: v.VStr? && (HasTag(fs, tags, v.s) || HasBelow(fs, tags, v.s))
  }

  predicate IsTagTest(env: Env, fn: string, args: seq<Expr>) {
    fn == "@in" && |args| == 2 && args[0] == Ident("tag") && "tag" in env.sc && args[1].ListExpr?
  }

  ghost function Eval(e: Expr, env: Env): Option<Cel>
    decreases e, 1, 0
  {
    match e
    case Ident(x) =>
      if x in env.locals then Some(env.locals[x])
      else if x in env.sc then FieldValue(env, env.sc[x]) else None
    case Const(c) => CelConst(c)
    case Call(fn, target, args) =>
      if IsTagTest(env, fn, args) then
        var listed := EvalAll(args[1].elements, env);
        if listed.None? then None
        else
          var ts := RefTags(env.row, TAGS);
          Some(VBool(TagIn(env.reading, if ts.None? then [] else ts.value, listed.value)))
      else if fn == "contains" && target.Some? && target.value.Ident? && target.value.name !in env.locals &&
        |args| == 1 then
        (match (Eval(target.value, env), Eval(args[0], env))
         case (Some(VStr(x)), Some(VStr(y))) => Some(VBool(env.foldedLike(x, "%" + y + "%")))
         case _ => None)
      else if fn == "startsWith" || fn == "endsWith" || fn == "contains" then
        if target.None? || |args| != 1 then None
        else CelStringTest(fn, FoldFor(env, target.value), Eval(target.value, env), Eval(args[0], env))
      else if |args| == 2 then
        if fn == "@in" && args[1].ListExpr? then
          var v, listed := Eval(args[0], env), EvalAll(args[1].elements, env);
          if v.None? || listed.None? then None else Some(VBool(v.value in listed.value))
        else
          var a, b := Eval(args[0], env), Eval(args[1], env);
          if fn == "_&&_" then CelAnd(a, b)
          else if fn == "_||_" then CelOr(a, b)
          else if IsComparison(fn) then
            (if a.None? || b.None? then None else CelCompare(fn, a.value, b.value))
          else if fn == "_+_" || fn == "_-_" || fn == "_*_" then CelArith(fn, a, b)
          else if fn == "@in" then
            (match (a, b)
             case (Some(VStr(s)), Some(VList(ts))) => Some(VBool(HasTag(env.reading, ts, s)))
             case _ => None)
          else None
      else if |args| == 1 then
        var a := Eval(args[0], env);
        if fn == "!_" then CelNot(a)
        else if fn == "size" then
          (match a case Some(VList(ts)) => Some(VInt(|ts|)) case Some(VStr(s)) => Some(VInt(|s|)) case _ => None)
        else None
      else if fn == "now" && args == [] then Some(VInt(env.now)) else None
    case Comprehension(iterVar, iterRange, accuVar, accuInit, loopStep) =>
      (match Eval(iterRange, env)
       case Some(VList(ts)) => EvalLoop(e, ts, Eval(accuInit, env), env)
       case _ => None)
    case _ => None
  }

  ghost function EvalAll(es: seq<Expr>, env: Env): Option<seq<Cel>>
    decreases es, 0, 0
  {
    if es == [] then Some([])
    else
      var v, rest := Eval(es[0], env), EvalAll(es[1..], env);
      if v.None? || rest.None? then None else Some([v.value] + rest.value)
  }

  /** The fold of a macro; an error in the accumulator reaches the step as an undefined variable. */
  ghost function EvalLoop(e: Expr, ts: seq<string>, accu: Option<Cel>, env: Env): Option<Cel>
    requires e.Comprehension?
    decreases e, 0, |ts|
  {
    if ts == [] then accu
    else
      var base := env.locals[e.iterVar := VStr(ts[0])];
      var locals := if accu.None? then base - {e.accuVar} else base[e.accuVar := accu.value];
      EvalLoop(e, ts[1..], Eval(e.loopStep, env.(locals := locals)), env)
  }

  // ----- values -----

  function LiteralCel(lit: Literal): Cel {
    match lit case LInt(i) => VInt(i) case LString(s) => VStr(s) case LBool(b) => VBool(b) case LNull => VNull
  }

  lemma ConstMeans(e: Expr, env: Env)
    requires GetConstValue(e).Some? && Eval(e, env).Some?
    ensures Eval(e, env).value == LiteralCel(GetConstValue(e).value)
  {
    if e.c.CUint? { WrapInRange(e.c.u); }
  }

  /** Folded arithmetic gives the value CEL gives, whenever CEL gives one: no sum overflows. */
  lemma {:induction false} NumericMeans(e: Expr, env: Env)
    requires EvaluateNumeric(e, env.now).Ok? && EvaluateNumeric(e, env.now).value.Some? && Eval(e, env).Some?
    ensures Eval(e, env).value == VInt(EvaluateNumeric(e, env.now).value.value)
    decreases e
  {
    if GetConstValue(e).Some? {
      ConstMeans(e, env);
    } else if e.fn != "now" {
      NumericMeans(e.args[0], env);
      NumericMeans(e.args[1], env);
      var x, y := Eval(e.args[0], env).value, Eval(e.args[1], env).value;
      assert Eval(e, env) == CelArith(e.fn, Some(x), Some(y));
      WrapInRange(Arithmetic(e.fn, x.i, y.i));
    }
  }

  lemma {:induction false} NegationMeans(e: Expr, env: Env)
    requires EvaluateBool(e).Ok? && EvaluateBool(e).value.Some? && Eval(e, env).Some?
    ensures Eval(e, env).value == VBool(EvaluateBool(e).value.value)
    decreases e
  {
    if GetConstValue(e).Some? {
      ConstMeans(e, env);
    } else {
      NegationMeans(e.args[0], env);
    }
  }

  /** A literal built from an expression is its CEL value. */
  lemma ValueMeans(e: Expr, env: Env)
    requires BuildValue(e, env.sc, env.now).Ok? && BuildValue(e, env.sc, env.now).value.LiteralValue? &&
             Eval(e, env).Some?
    ensures Eval(e, env).value == LiteralCel(BuildValue(e, env.sc, env.now).value.lit)
  {
    hide Eval;
    if GetConstValue(e).Some? {
      ConstMeans(e, env);
    } else if EvaluateNumeric(e, env.now).value.Some? {
      NumericMeans(e, env);
    } else {
      NegationMeans(e, env);
    }
  }

  /** Field references come from identifiers and size() from a size call. */
  lemma ValueShape(e: Expr, sc: Schema, now: int)
    requires BuildValue(e, sc, now).Ok?
    ensures BuildValue(e, sc, now).value.FieldRef? ==> e == Ident(BuildValue(e, sc, now).value.name) && e.name in sc
    ensures BuildValue(e, sc, now).value.FunctionValue? ==>
              e.Call? && e.fn == "size" && |e.args| == 1 && BuildValue(e.args[0], sc, now).Ok? &&
              BuildValue(e, sc, now).value == FunctionValue("size", [BuildValue(e.args[0], sc, now).value])
  {}

  lemma {:induction false} ValuesMean(es: seq<Expr>, env: Env)
    requires BuildValues(es, env.sc, env.now).Ok? && EvalAll(es, env).Some?
    requires forall v <- BuildValues(es, env.sc, env.now).value :: v.LiteralValue?
    ensures |BuildValues(es, env.sc, env.now).value| == |EvalAll(es, env).value| == |es|
    ensures forall i | 0 <= i < |es| ::
            EvalAll(es, env).value[i] == LiteralCel(BuildValues(es, env.sc, env.now).value[i].lit)
    decreases |es|
  {
    hide BuildValue, Eval;
    if es != [] {
      var vs := BuildValues(es, env.sc, env.now).value;
      assert vs[0] in vs && forall v <- vs[1..] :: v in vs;
      ValueMeans(es[0], env);
      ValuesMean(es[1..], env);
    }
  }

  // ----- rows -----

  ghost predicate EnvOk(env: Env) { WellFormed(env.sc) && RowFits(env.sc, env.row) && env.locals == map[] }

  ghost function RefOf(env: Env, cond: Condition): Sql.Truth { Ref(env.sc, env.row, env.reading, env.foldedLike, cond) }

  /** Where CEL gives a truth value, SQL gives the same one or none. */
  ghost predicate Consistent(t: Sql.Truth, v: Option<Cel>) {
    IsTruth(v) ==> t == Sql.Unknown || t == Sql.Of(v.value.b)
  }

  /** A truth value, rather than an error or a value of another type. */
  predicate IsTruth(v: Option<Cel>) { v.Some? && v.value.VBool? }

  // ----- operators -----

  /** The comparison an operator of the condition tree makes. */
  function OpCompare(op: CompareOp, a: Cel, b: Cel): Option<Cel> {
    match (a, b)
    case (VInt(x), VInt(y)) => Some(VBool(Sql.CompareInts(op, x, y)))
    case (VStr(x), VStr(y)) => Some(VBool(Sql.CompareStrings(op, x, y)))
    case (VBool(x), VBool(y)) => Some(VBool(Sql.CompareBools(op, x, y)))
    case _ =>
      if a.VNull? || b.VNull? then
        (if op.Eq? then Some(VBool(a == b)) else if op.Neq? then Some(VBool(a != b)) else None)
      else None
  }

  /** The operator a comparison is built with makes the comparison of that name. */
  lemma OperatorsByName(fn: string, a: Cel, b: Cel)
    ensures IsComparison(fn) <==> ToOperator(fn).Some?
    ensures IsComparison(fn) ==> CelCompare(fn, a, b) == OpCompare(ToOperator(fn).value, a, b)
  {
    if a.VStr? && b.VStr? { StrLessTotal(a.s, b.s); }
  }

  // ----- leaves -----

  lemma ScalarCel(env: Env, f: Field, op: CompareOp, lit: Literal)
    requires FieldFits(env.row, f) && FieldOk(f) && f.kind.Scalar?
    requires lit.LNull? ==> op.Eq? || op.Neq?
    requires lit.LNull? || (if f.ftype.StringType? then lit.LString? else lit.LInt?)
    ensures FieldValue(env, f).Some?
    ensures Consistent(RefScalar(env.row, f, op, lit), OpCompare(op, FieldValue(env, f).value, LiteralCel(lit)))
  {}

  lemma FlagCel(env: Env, f: Field, op: CompareOp, b: bool)
    requires FieldFits(env.row, f) && (f.kind.BoolColumn? || f.kind.JsonBool?)
    ensures FieldValue(env, f).Some?
    ensures Consistent(if f.kind.BoolColumn? then Sql.CompareValues(op, env.row.Read(f.column), Sql.BoolV(b))
                       else RefJsonBool(env.reading, env.row, f, op, b),
                       OpCompare(op, FieldValue(env, f).value, VBool(b)))
  {}

  lemma FieldComparisonCel(env: Env, d: Dialect, n: nat, name: string, op: CompareOp, right: ValueExpr)
    requires EnvOk(env) && ComparisonSql(env.sc, d, n, FieldRef(name), op, right).Ok?
    ensures name in env.sc && right.LiteralValue? && FieldValue(env, env.sc[name]).Some?
    ensures Consistent(RefOf(env, Comparison(FieldRef(name), op, right)),
                       OpCompare(op, FieldValue(env, env.sc[name]).value, LiteralCel(right.lit)))
  {
    hide Sql.CompareInts, Sql.CompareStrings, RefTags, ScalarValue, RefScalar, FieldValue, RefJsonBool, OpCompare,
         Sql.CompareValues, FieldFits, FieldOk, LiteralCel;
    ComparedField(env, d, n, name, op, right);
    var f := env.sc[name];
    if f.kind.Scalar? {
      ScalarCel(env, f, op, right.lit);
    } else {
      FlagCel(env, f, op, right.lit.b);
      FlagLiteral(right.lit);
    }
  }

  lemma FlagLiteral(lit: Literal)
    requires lit.LBool?
    ensures LiteralCel(lit) == VBool(lit.b)
  {}

  lemma ComparedField(env: Env, d: Dialect, n: nat, name: string, op: CompareOp, right: ValueExpr)
    requires EnvOk(env) && ComparisonSql(env.sc, d, n, FieldRef(name), op, right).Ok?
    ensures name in env.sc && right.LiteralValue? && FieldFits(env.row, env.sc[name]) && FieldOk(env.sc[name])
    ensures var f, lit := env.sc[name], right.lit;
            if f.kind.Scalar? then
              (lit.LNull? ==> op.Eq? || op.Neq?) &&
              (lit.LNull? || (if f.ftype.StringType? then lit.LString? else lit.LInt?))
            else lit.LBool? && (f.kind.BoolColumn? || f.kind.JsonBool?)
  {
    hide FieldFits, FieldOk, ScalarComparison, BoolColumnComparison, JsonBoolComparison;
    var f := env.sc[name];
    assert FieldFits(env.row, f) && FieldOk(f);
    ComparedLiteral(d, n, f, op, right);
    if f.kind.Scalar? { ScalarIsTyped(f); }
  }

  lemma ScalarIsTyped(f: Field)
    requires FieldOk(f) && f.kind.Scalar?
    ensures !f.ftype.BoolType?
  {}

  lemma ComparedLiteral(d: Dialect, n: nat, f: Field, op: CompareOp, right: ValueExpr)
    ensures ScalarComparison(d, n, f, op, right).Ok? ==>
              right.LiteralValue? && (right.lit.LNull? ==> op.Eq? || op.Neq?) &&
              (right.lit.LNull? || (if f.ftype.StringType? then right.lit.LString? else right.lit.LInt?))
    ensures BoolColumnComparison(d, n, f, op, right).Ok? || JsonBoolComparison(d, n, f, op, right).Ok? ==>
              right.LiteralValue? && right.lit.LBool?
  {
    hide ColumnExpr, JsonExtract, BoolArg;
  }

  lemma SizeComparisonCel(env: Env, d: Dialect, n: nat, name: string, op: CompareOp, right: ValueExpr)
    requires EnvOk(env) && ComparisonSql(env.sc, d, n, FunctionValue("size", [FieldRef(name)]), op, right).Ok?
    ensures name in env.sc && right.LiteralValue? && right.lit.LInt?
    ensures var v := FieldValue(env, env.sc[name]);
            v.Some? && v.value.VList? &&
            RefOf(env, Comparison(FunctionValue("size", [FieldRef(name)]), op, right))
            == Sql.Of(Sql.CompareInts(op, |v.value.elements|, right.lit.i))
  {
    hide Sql.CompareInts, RefTags;
  }

  lemma {:induction false} TagInCel(fs: Reading, tags: seq<string>, values: seq<ValueExpr>, listed: seq<Cel>)
    requires |values| == |listed|
    requires forall i | 0 <= i < |values| :: values[i].LiteralValue? && values[i].lit.LString? &&
                                                                      listed[i] == VStr(values[i].lit.s)
    ensures RefTagIn(fs, Some(tags), values) == Sql.Of(TagIn(fs, tags, listed))
    decreases |values|
  {
    hide HasTag, HasBelow;
    if values != [] {
      TagInCel(fs, tags, values[1..], listed[1..]);
      TagInSplit(fs, tags, listed);
    }
  }

  lemma TagInSplit(fs: Reading, tags: seq<string>, listed: seq<Cel>)
    requires listed != [] && listed[0].VStr?
    ensures TagIn(fs, tags, listed) <==>
            HasTag(fs, tags, listed[0].s) || HasBelow(fs, tags, listed[0].s) || TagIn(fs, tags, listed[1..])
  {
    hide HasTag, HasBelow;
    if v :| v in listed && v.VStr? && (HasTag(fs, tags, v.s) || HasBelow(fs, tags, v.s)) {
      assert v == listed[0] || v in listed[1..];
    }
    if v :| v in listed[1..] && v.VStr? && (HasTag(fs, tags, v.s) || HasBelow(fs, tags, v.s)) {
      assert v in listed;
    }
    assert listed[0] in listed;
  }

  lemma InCel(env: Env, d: Dialect, n: nat, args: seq<Expr>)
    requires EnvOk(env) && BuildIn(args, env.sc, env.now).Ok? && BuildIn(args, env.sc, env.now).value.InCond?
    requires RenderLeaf(env.sc, d, n, BuildIn(args, env.sc, env.now).value).Ok?
    requires IsTruth(Eval(Call("@in", None, args), env))
    ensures Consistent(RefOf(env, BuildIn(args, env.sc, env.now).value), Eval(Call("@in", None, args), env))
  {
    hide RefTagIn, RefIn, ScalarArgs, TagTests, EvalAll, BuildValues, RefTags, FieldFits, FieldValue,
         ScalarValue;
    var sc, name, es := env.sc, args[0].name, args[1].elements;
    var values := BuildValues(es, sc, env.now).value;
    var e := Call("@in", None, args);
    if name == "tag" {
      var f := ResolveAlias(sc, "tag").value;
      assert f == TAGS && sc["tags"] == TAGS;
      TagTestsAreStrings(d, n, f, values);
      ValuesMean(es, env);
      if RefTags(env.row, TAGS).Some? {
        TagInCel(env.reading, RefTags(env.row, TAGS).value, values, EvalAll(es, env).value);
      } else {
        TagsAbsent(env.reading, values);
        assert values == [] ==> !TagIn(env.reading, [], EvalAll(es, env).value);
      }
    } else {
      var f := sc[name];
      ScalarArgsAreLiterals(f, values);
      ValuesMean(es, env);
      ScalarInCel(env, f, values, EvalAll(es, env).value);
    }
  }

  lemma {:induction false} TagTestsAreStrings(d: Dialect, n: nat, f: Field, values: seq<ValueExpr>)
    requires TagTests(d, n, f, values).Ok?
    ensures forall v <- values :: v.LiteralValue? && v.lit.LString?
    decreases |values|
  {
    if values != [] { TagTestsAreStrings(d, n + 2, f, values[1..]); }
  }

  lemma {:induction false} ScalarArgsAreLiterals(f: Field, values: seq<ValueExpr>)
    requires ScalarArgs(f, values).Ok?
    ensures |ScalarArgs(f, values).value| == |values|
    ensures forall v <- values :: v.LiteralValue?
    ensures forall i | 0 <= i < |values| ::
              FromValue(ScalarArgs(f, values).value[i]) == Some(LiteralCel(values[i].lit)) &&
              !ScalarArgs(f, values).value[i].NullV?
    decreases |values|
  {
    if values != [] { ScalarArgsAreLiterals(f, values[1..]); }
  }

  lemma ScalarInCel(env: Env, f: Field, values: seq<ValueExpr>, listed: seq<Cel>)
    requires FieldFits(env.row, f) && f.kind.Scalar?
    requires ScalarArgs(f, values).Ok? && |listed| == |values| && forall v <- values :: v.LiteralValue?
    requires forall i | 0 <= i < |values| :: listed[i] == LiteralCel(values[i].lit)
    ensures FieldValue(env, f).Some?
    ensures Consistent(RefIn(ScalarValue(env.row, f), ScalarArgs(f, values).value),
                       Some(VBool(FieldValue(env, f).value in listed)))
  {
    hide ScalarArgs;
    ScalarArgsAreLiterals(f, values);
    var v, vs := ScalarValue(env.row, f), ScalarArgs(f, values).value;
    if v in vs {
      var i :| 0 <= i < |vs| && vs[i] == v;
      assert listed[i] == FieldValue(env, f).value;
    }
    if FieldValue(env, f).value in listed {
      var i :| 0 <= i < |listed| && listed[i] == FieldValue(env, f).value;
      assert FromValue(vs[i]) == FromValue(v);
      FromValueInjective(vs[i], v);
    }
  }

  lemma FromValueInjective(a: Sql.Value, b: Sql.Value)
    requires FromValue(a) == FromValue(b) && FromValue(a).Some?
    ensures a == b
  {}

  /** `x in tags` by the letter of CEL. */
  lemma ElementEval(env: Env, args: seq<Expr>)
    requires |args| == 2 && args[1].Ident? && IsTruth(Eval(Call("@in", None, args), env))
    ensures var a, b := Eval(args[0], env), Eval(args[1], env);
            a.Some? && a.value.VStr? && b.Some? && b.value.VList? &&
            Eval(Call("@in", None, args), env) == Some(VBool(HasTag(env.reading, b.value.elements, a.value.s)))
  {
    hide HasTag, FieldValue, CelArith, CelCompare, CelAnd, CelOr, CelStringTest;
  }

  lemma ElementInCel(env: Env, d: Dialect, n: nat, args: seq<Expr>)
    requires EnvOk(env) && BuildIn(args, env.sc, env.now).Ok? && BuildIn(args, env.sc, env.now).value.ElementIn?
    requires RenderLeaf(env.sc, d, n, BuildIn(args, env.sc, env.now).value).Ok?
    requires IsTruth(Eval(Call("@in", None, args), env))
    ensures Consistent(RefOf(env, BuildIn(args, env.sc, env.now).value), Eval(Call("@in", None, args), env))
  {
    hide BuildValue, HasTag, Eval, ExactTest, FieldFits;
    var c := BuildIn(args, env.sc, env.now).value;
    var f := env.sc[c.field];
    assert FieldFits(env.row, f) && f.kind.JsonList?;
    ElementEval(env, args);
    IdentEval(args[1].name, env);
    ValueMeans(args[0], env);
  }

  lemma IdentEval(x: string, env: Env)
    requires x !in env.locals && x in env.sc
    ensures Eval(Ident(x), env) == FieldValue(env, env.sc[x])
  {}

  // ----- macros -----

  /** What the macro expander makes of exists(): the step is `accu || predicate`. */
  predicate MacroShaped(sc: Schema, e: Expr) {
    match e
    case Call(_, _, args) => forall a <- args :: MacroShaped(sc, a)
    case Comprehension(iterVar, _, accuVar, _, step) =>
      accuVar !in sc && accuVar != iterVar &&
      (step.Call? && |step.args| == 2 ==> step.args[0] == Ident(accuVar))
    case _ => true
  }

  /** The predicate holds of a tag, up to folding by `f`. */
  ghost predicate Holds(f: char -> char, pred: TagPredicate, t: string) {
    match pred
    case StartsWith(s) => Fold(f, s) <= Fold(f, t)
    case EndsWith(s) => EndsIn(Fold(f, s), Fold(f, t))
    case Contains(s) => Occurs(Fold(f, s), Fold(f, t))
  }

  lemma PredicateCel(e: Expr, iterVar: string, env: Env, t: string)
    requires BuildPredicate(e, iterVar).Ok? && iterVar in env.locals && env.locals[iterVar] == VStr(t)
    ensures Eval(e, env) == Some(VBool(Holds(env.reading.part, BuildPredicate(e, iterVar).value, t)))
  {
    assert Eval(Ident(iterVar), env) == Some(VStr(t));
    assert e.args[0].Const? && e.args[0].c.CString?;
    assert Eval(e.args[0], env) == Some(VStr(e.args[0].c.s));
  }

  lemma StepCel(e: Expr, pred: TagPredicate, t: string, accu: Option<Cel>, env: Env, env': Env)
    requires e.Comprehension? && MacroShaped(env.sc, e) && IsExists(e.accuInit, e.loopStep) && |e.loopStep.args| == 2
    requires BuildPredicate(e.loopStep.args[1], e.iterVar) == Ok(pred)
    requires env'.sc == env.sc && env'.reading == env.reading && e.iterVar in env'.locals &&
             env'.locals[e.iterVar] == VStr(t)
    requires if accu.None? then e.accuVar !in env'.locals
             else e.accuVar in env'.locals && env'.locals[e.accuVar] == accu.value
    ensures Eval(e.loopStep, env') == CelOr(accu, Some(VBool(Holds(env.reading.part, pred, t))))
  {
    hide Holds, BuildPredicate;
    PredicateCel(e.loopStep.args[1], e.iterVar, env', t);
    assert Eval(e.loopStep.args[0], env') == accu;
    assert !IsTagTest(env', e.loopStep.fn, e.loopStep.args);
  }

  /** The fold of exists() is true exactly when some element satisfies the predicate. */
  lemma {:induction false} LoopCel(e: Expr, pred: TagPredicate, ts: seq<string>, accu: Option<Cel>, env: Env)
    requires e.Comprehension? && MacroShaped(env.sc, e) && IsExists(e.accuInit, e.loopStep) && |e.loopStep.args| == 2
    requires BuildPredicate(e.loopStep.args[1], e.iterVar) == Ok(pred)
    requires var r := EvalLoop(e, ts, accu, env); r.Some? && r.value.VBool?
    ensures EvalLoop(e, ts, accu, env).value.b <==>
            accu == Some(VBool(true)) || exists t <- ts :: Holds(env.reading.part, pred, t)
    decreases |ts|
  {
    hide Holds, BuildPredicate, Eval;
    if ts != [] {
      var base := env.locals[e.iterVar := VStr(ts[0])];
      var locals := if accu.None? then base - {e.accuVar} else base[e.accuVar := accu.value];
      StepCel(e, pred, ts[0], accu, env, env.(locals := locals));
      LoopCel(e, pred, ts[1..], CelOr(accu, Some(VBool(Holds(env.reading.part, pred, ts[0])))), env);
      assert ts == [ts[0]] + ts[1..];
      if t :| t in ts && Holds(env.reading.part, pred, t) { assert t == ts[0] || t in ts[1..]; }
      if t :| t in ts[1..] && Holds(env.reading.part, pred, t) { assert t in ts; }
      assert ts[0] in ts;
    }
  }

  lemma ExistsCel(env: Env, e: Expr)
    requires EnvOk(env) && e.Comprehension? && MacroShaped(env.sc, e) && BuildComprehension(e, env.sc).Ok?
    requires IsTruth(Eval(e, env))
    ensures RefOf(env, BuildComprehension(e, env.sc).value) == Sql.Of(Eval(e, env).value.b)
  {
    hide BuildPredicate, SomeExtends, SomeEndsIn, SomeOccurs, EvalLoop;
    var f := env.sc[e.iterRange.name];
    var pred := BuildPredicate(e.loopStep.args[1], e.iterVar).value;
    assert FieldFits(env.row, f);
    var stored := RefTags(env.row, f);
    var ts := if stored.None? then [] else stored.value;
    assert Eval(e.iterRange, env) == Some(VList(ts));
    LoopCel(e, pred, ts, Eval(e.accuInit, env), env);
    assert Eval(e.accuInit, env) == CelConst(e.accuInit.c);
    SameIsIdentity(ts, pred.s);
    SomeHolds(env.reading.part, pred, ts);
  }

  lemma SomeHolds(f: char -> char, pred: TagPredicate, ts: seq<string>)
    ensures (exists t <- ts :: Holds(f, pred, t)) <==>
            match pred
            case StartsWith(s) => SomeExtends(Fold(f, s), FoldAll(f, ts))
            case EndsWith(s) => SomeEndsIn(Fold(f, s), FoldAll(f, ts))
            case Contains(s) => SomeOccurs(Fold(f, s), FoldAll(f, ts))
  {
    hide Fold, EndsIn, Occurs;
    if t :| t in ts && Holds(f, pred, t) { FoldedMember(f, ts, t); }
    match pred {
      case StartsWith(s) => if u :| u in FoldAll(f, ts) && Fold(f, s) <= u { var t := Unfold(f, ts, u); }
      case EndsWith(s) => if u :| u in FoldAll(f, ts) && EndsIn(Fold(f, s), u) { var t := Unfold(f, ts, u); }
      case Contains(s) => if u :| u in FoldAll(f, ts) && Occurs(Fold(f, s), u) { var t := Unfold(f, ts, u); }
    }
  }

  lemma FoldedMember(f: char -> char, ts: seq<string>, t: string)
    requires t in ts
    ensures Fold(f, t) in FoldAll(f, ts)
  {
    var i :| 0 <= i < |ts| && ts[i] == t;
    assert FoldAll(f, ts)[i] == Fold(f, t);
  }

  lemma Unfold(f: char -> char, ts: seq<string>, u: string) returns (t: string)
    requires u in FoldAll(f, ts)
    ensures t in ts && Fold(f, t) == u
  {
    var i :| 0 <= i < |ts| && FoldAll(f, ts)[i] == u;
    t := ts[i];
  }

  // ----- whole filters -----

  lemma BuiltComparisonMeans(env: Env, d: Dialect, n: nat, fn: string, args: seq<Expr>)
    requires EnvOk(env) && ToOperator(fn).Some? && BuildComparison(ToOperator(fn).value, args, env.sc, env.now).Ok?
    requires RenderLeaf(env.sc, d, n, BuildComparison(ToOperator(fn).value, args, env.sc, env.now).value).Ok?
    requires Eval(args[0], env).Some? && Eval(args[1], env).Some?
    ensures Consistent(RefOf(env, BuildComparison(ToOperator(fn).value, args, env.sc, env.now).value),
                       CelCompare(fn, Eval(args[0], env).value, Eval(args[1], env).value))
  {
    hide CelCompare, ToOperator, BuildValue, ComparisonSql, RefOf, FieldValue, Sql.CompareInts;
    var op := ToOperator(fn).value;
    var left, right := BuildValue(args[0], env.sc, env.now).value, BuildValue(args[1], env.sc, env.now).value;
    ComparisonShape(env.sc, d, n, left, op, right);
    ValueMeans(args[1], env);
    ValueShape(args[0], env.sc, env.now);
    OperatorsByName(fn, Eval(args[0], env).value, Eval(args[1], env).value);
    if left.FieldRef? {
      FieldComparisonCel(env, d, n, left.name, op, right);
    } else {
      ValueShape(args[0].args[0], env.sc, env.now);
      SizeComparisonCel(env, d, n, left.args[0].name, op, right);
    }
  }

  lemma ComparisonShape(sc: Schema, d: Dialect, n: nat, left: ValueExpr, op: CompareOp, right: ValueExpr)
    requires ComparisonSql(sc, d, n, left, op, right).Ok?
    ensures right.LiteralValue?
    ensures left.FieldRef? || (left.FunctionValue? && left.fn == "size" && |left.args| == 1 && left.args[0].FieldRef?)
  {
    hide ColumnExpr, JsonExtract, JsonArray, BoolArg, Sql.Emit;
  }

  lemma IdentMeans(e: Expr, env: Env)
    requires EnvOk(env) && e.Ident? && BuildCondition(e, env.sc, env.now).Ok? && IsTruth(Eval(e, env))
    ensures RefOf(env, BuildCondition(e, env.sc, env.now).value) == Sql.Of(Eval(e, env).value.b)
  {
    var f := env.sc[e.name];
    assert FieldFits(env.row, f) && FieldOk(f) && (f.kind.BoolColumn? || f.kind.JsonBool?);
  }

  lemma ConstantMeans(e: Expr, env: Env)
    requires e.Const? && BuildCondition(e, env.sc, env.now).Ok?
    requires IsTruth(Eval(e, env))
    ensures RefOf(env, BuildCondition(e, env.sc, env.now).value) == Sql.Of(Eval(e, env).value.b)
  {}

  lemma ContainsCel(e: Expr, env: Env)
    requires EnvOk(env) && e.Call? && e.fn == "contains" && BuildContains(e.target, e.args, env.sc).Ok?
    requires IsTruth(Eval(e, env))
    ensures RefOf(env, BuildContains(e.target, e.args, env.sc).value) == Sql.Of(Eval(e, env).value.b)
  {
    var f := env.sc[e.target.value.name];
    assert FieldFits(env.row, f) && FieldOk(f);
    assert Eval(e.target.value, env) == FieldValue(env, f);
    assert Eval(e.args[0], env) == CelConst(e.args[0].c);
  }

  lemma InMeans(e: Expr, env: Env, d: Dialect, n: nat)
    requires EnvOk(env) && e.Call? && e.fn == "@in" && BuildIn(e.args, env.sc, env.now).Ok?
    requires RenderLeaf(env.sc, d, n, BuildIn(e.args, env.sc, env.now).value).Ok?
    requires IsTruth(Eval(e, env))
    ensures Consistent(RefOf(env, BuildIn(e.args, env.sc, env.now).value), Eval(e, env))
  {
    hide RenderLeaf, RefOf;
    assert Eval(e, env) == Eval(Call("@in", None, e.args), env);
    if BuildIn(e.args, env.sc, env.now).value.InCond? {
      InCel(env, d, n, e.args);
    } else {
      ElementInCel(env, d, n, e.args);
    }
  }

  lemma ConnectiveMeans(op: LogicalOp, a: Option<Cel>, b: Option<Cel>, l: Sql.Truth, r: Sql.Truth)
    requires Consistent(l, a) && Consistent(r, b)
    ensures Consistent(if op.AndOp? then l.And(r) else l.Or(r), if op.AndOp? then CelAnd(a, b) else CelOr(a, b))
  {}

  /** What `BuildCondition` makes of each kind of call. */
  lemma CallIsBuilt(e: Expr, sc: Schema, now: int)
    requires e.Call? && BuildCondition(e, sc, now).Ok?
    ensures var c := BuildCondition(e, sc, now).value;
      if e.fn == "_&&_" || e.fn == "_||_" then
        |e.args| == 2 && BuildCondition(e.args[0], sc, now).Ok? && BuildCondition(e.args[1], sc, now).Ok? &&
        c == Logical(if e.fn == "_&&_" then AndOp else OrOp, BuildCondition(e.args[0], sc, now).value,
                     BuildCondition(e.args[1], sc, now).value)
      else if e.fn == "!_" then
        |e.args| == 1 && BuildCondition(e.args[0], sc, now).Ok? &&
        c == NotCond(BuildCondition(e.args[0], sc, now).value)
      else if ToOperator(e.fn).Some? then BuildComparison(ToOperator(e.fn).value, e.args, sc, now) == Ok(c) && IsLeaf(c)
      else if e.fn == "@in" then BuildIn(e.args, sc, now) == Ok(c) && IsLeaf(c)
      else e.fn == "contains" && BuildContains(e.target, e.args, sc) == Ok(c) && IsLeaf(c)
  {
    hide BuildValues, BuildValue, ResolveAlias;
  }

  /** The built condition tree means what the expression means, where it has an answer. */
  lemma {:induction false} BuiltMeans(e: Expr, env: Env, d: Dialect, n: nat)
    requires EnvOk(env) && MacroShaped(env.sc, e) && BuildCondition(e, env.sc, env.now).Ok?
    requires Render(env.sc, d, n, BuildCondition(e, env.sc, env.now).value).Ok?
    ensures Consistent(RefOf(env, BuildCondition(e, env.sc, env.now).value), Eval(e, env))
    decreases e
  {
    hide EnvOk, RenderLeaf, BuildComparison, BuildIn, BuildContains, EvalLoop, Sql.Truth.And, Sql.Truth.Or, CelAnd,
         CelOr;
    match e {
      case Call(fn, target, args) => CallMeans(e, env, d, n);
      case Const(_) => if IsTruth(Eval(e, env)) { ConstantMeans(e, env); }
      case Ident(_) => if IsTruth(Eval(e, env)) { IdentMeans(e, env); }
      case Comprehension(_, _, _, _, _) => if IsTruth(Eval(e, env)) { ExistsCel(env, e); }
      case _ =>
    }
  }

  lemma {:induction false} CallMeans(e: Expr, env: Env, d: Dialect, n: nat)
    requires EnvOk(env) && e.Call? && MacroShaped(env.sc, e) && BuildCondition(e, env.sc, env.now).Ok?
    requires Render(env.sc, d, n, BuildCondition(e, env.sc, env.now).value).Ok?
    ensures Consistent(RefOf(env, BuildCondition(e, env.sc, env.now).value), Eval(e, env))
    decreases e, 0
  {
    hide EnvOk, RenderLeaf, BuildComparison, BuildIn, BuildContains, BuildCondition;
    CallIsBuilt(e, env.sc, env.now);
    if e.fn == "_&&_" || e.fn == "_||_" {
      ConnectiveCallMeans(e, env, d, n);
    } else if e.fn == "!_" {
      BuiltMeans(e.args[0], env, d, n);
    } else if !IsTruth(Eval(e, env)) {
    } else if ToOperator(e.fn).Some? {
      OperatorsByName(e.fn, VNull, VNull);
      BuiltComparisonMeans(env, d, n, e.fn, e.args);
    } else if e.fn == "@in" {
      InMeans(e, env, d, n);
    } else {
      ContainsCel(e, env);
    }
  }

  lemma {:induction false} ConnectiveCallMeans(e: Expr, env: Env, d: Dialect, n: nat)
    requires EnvOk(env) && e.Call? && (e.fn == "_&&_" || e.fn == "_||_")
    requires MacroShaped(env.sc, e) && BuildCondition(e, env.sc, env.now).Ok?
    requires Render(env.sc, d, n, BuildCondition(e, env.sc, env.now).value).Ok?
    ensures Consistent(RefOf(env, BuildCondition(e, env.sc, env.now).value), Eval(e, env))
    decreases e, 0, 0
  {
    hide EnvOk, RenderLeaf, BuildComparison, BuildIn, BuildContains, BuildCondition, CelAnd, CelOr, Sql.Truth.And,
         Sql.Truth.Or;
    CallIsBuilt(e, env.sc, env.now);
    var c := BuildCondition(e, env.sc, env.now).value;
    var a, b := Eval(e.args[0], env), Eval(e.args[1], env);
    assert Eval(e, env) == if c.op.AndOp? then CelAnd(a, b) else CelOr(a, b);
    BuiltMeans(e.args[0], env, d, n);
    BuiltMeans(e.args[1], env, d, n + |Render(env.sc, d, n, c.left).value.1|);
    ConnectiveMeans(c.op, a, b, RefOf(env, c.left), RefOf(env, c.right));
  }

  // ----- the compiler -----

  lemma {:induction false} BuiltSearchesText(e: Expr, sc: Schema, now: int)
    requires BuildCondition(e, sc, now).Ok?
    ensures SearchesText(sc, BuildCondition(e, sc, now).value)
    decreases e
  {
    hide BuildComparison, BuildIn, BuildCondition;
    if e.Call? {
      CallIsBuilt(e, sc, now);
      if e.fn == "_&&_" || e.fn == "_||_" {
        BuiltSearchesText(e.args[0], sc, now);
        BuiltSearchesText(e.args[1], sc, now);
      } else if e.fn == "!_" {
        BuiltSearchesText(e.args[0], sc, now);
      } else {
        BuiltLeafSearchesText(e, sc, now);
      }
    } else {
      OtherBuilt(e, sc, now);
    }
  }

  lemma BuiltLeafSearchesText(e: Expr, sc: Schema, now: int)
    requires e.Call? && BuildCondition(e, sc, now).Ok? && IsLeaf(BuildCondition(e, sc, now).value)
    ensures LeafSearchesText(sc, BuildCondition(e, sc, now).value)
  {
    hide BuildCondition, BuildValue, BuildValues, ResolveAlias;
    CallIsBuilt(e, sc, now);
  }

  lemma OtherBuilt(e: Expr, sc: Schema, now: int)
    requires !e.Call? && BuildCondition(e, sc, now).Ok?
    ensures SearchesText(sc, BuildCondition(e, sc, now).value)
  {}

  /** Compiling the filter and rendering the condition tree for a dialect, with `offset` placeholders before it. */
  function CompileToStatement(e: Expr, sc: Schema, d: Dialect, offset: nat, now: int): Result<Statement, string> {
    var cond :- BuildCondition(e, sc, now);
    var out :- Render(sc, d, offset, cond);
    Ok(ToStatement(out.0, out.1))
  }

  /** The environment a database gives a filter: its row, and its way of folding case. */
  function EnvOf(sc: Schema, db: Sql.Database, now: int): Env {
    Env(sc, db.row, now, ReadingOf(db), db.foldedLike, map[])
  }

  /** What the compiler relies on: columns hold values of their types, macros have the shape of the expander's, and
      search texts are admissible for LIKE on array text. */
  ghost predicate Admissible(sc: Schema, db: Sql.Database, e: Expr, cond: Condition) {
    DatabaseOk(sc, db) && MacroShaped(sc, e) && SearchesOk(db.d, cond)
  }

  ghost predicate AnswersOn(sc: Schema, db: Sql.Database, cond: Condition) {
    Answers(sc, db.row, ReadingOf(db), db.foldedLike, cond)
  }

  /** The result of a filter on a row: its truth value when it has an answer, and otherwise NULL. */
  ghost predicate Result(t: Sql.Truth, b: bool, answered: bool) {
    t == if answered then Sql.Of(b) else Sql.Unknown
  }

  lemma RefIsCel(e: Expr, sc: Schema, db: Sql.Database, now: int, n: nat)
    requires BuildCondition(e, sc, now).Ok? && Render(sc, db.d, n, BuildCondition(e, sc, now).value).Ok?
    requires Admissible(sc, db, e, BuildCondition(e, sc, now).value) && IsTruth(Eval(e, EnvOf(sc, db, now)))
    ensures var cond := BuildCondition(e, sc, now).value;
            Result(Ref(sc, db.row, ReadingOf(db), db.foldedLike, cond), Eval(e, EnvOf(sc, db, now)).value.b,
                   AnswersOn(sc, db, cond))
  {
    hide BuildCondition, Render, Eval, SearchesOk, RowFits, WellFormed, Folding, MacroShaped, Ref, ReadingOf, Answers,
         SearchesText;
    var cond := BuildCondition(e, sc, now).value;
    BuiltMeans(e, EnvOf(sc, db, now), db.d, n);
    BuiltSearchesText(e, sc, now);
    AnswersIff(sc, db.row, ReadingOf(db), db.foldedLike, db.d, n, cond);
  }

  /** Whenever a filter compiles for a dialect and the dialect finds its arguments and accepts its lists, running the
      statement between the arguments of other parts of a query gives, on every row, the truth value of the filter or
      NULL, and NULL exactly when the condition has no answer on the row.  Tags are compared up to the database's
      case folding. */
  lemma CompiledFilterIsCorrect(e: Expr, sc: Schema, db: Sql.Database, now: int, earlier: seq<Sql.Value>,
                                later: seq<Sql.Value>)
    requires CompileToStatement(e, sc, db.d, |earlier|, now).Ok? && IsTruth(Eval(e, EnvOf(sc, db, now)))
    requires var cond := BuildCondition(e, sc, now).value;
             Admissible(sc, db, e, cond) && FindsArgs(sc, db.d, cond) && KeptListsParse(db.d, cond)
    ensures var r := ExecuteStatement(db, CompileToStatement(e, sc, db.d, |earlier|, now).value, earlier, later);
            r.Some? && Result(r.value, Eval(e, EnvOf(sc, db, now)).value.b,
                              AnswersOn(sc, db, BuildCondition(e, sc, now).value))
  {
    hide BuildCondition, Render, Eval, SearchesOk, DatabaseOk, MacroShaped, ExecuteStatement, Ref, FindsArgs,
         KeptListsParse, SearchesText, ReadingOf, EnvOf, AnswersOn;
    var cond := BuildCondition(e, sc, now).value;
    BuiltSearchesText(e, sc, now);
    RunMeans(sc, db, cond, earlier, later);
    RefIsCel(e, sc, db, now, |earlier|);
  }

  /** So a row that has what the filter's leaves read, whatever else it lacks, is selected exactly when the filter is
      true of it. */
  lemma ReadRowsAreDecided(e: Expr, sc: Schema, db: Sql.Database, now: int, earlier: seq<Sql.Value>,
                           later: seq<Sql.Value>)
    requires CompileToStatement(e, sc, db.d, |earlier|, now).Ok? && IsTruth(Eval(e, EnvOf(sc, db, now)))
    requires var cond := BuildCondition(e, sc, now).value;
             Admissible(sc, db, e, cond) && FindsArgs(sc, db.d, cond) && KeptListsParse(db.d, cond) &&
             AllRead(sc, db.row, ReadingOf(db), cond)
    ensures ExecuteStatement(db, CompileToStatement(e, sc, db.d, |earlier|, now).value, earlier, later)
            == Some(Sql.Of(Eval(e, EnvOf(sc, db, now)).value.b))
  {
    hide BuildCondition, Render, Eval, Admissible, ExecuteStatement, FindsArgs, KeptListsParse, ReadingOf, EnvOf,
         Answers, AllRead;
    CompiledFilterIsCorrect(e, sc, db, now, earlier, later);
    AllReadAnswers(sc, db.row, ReadingOf(db), db.foldedLike, BuildCondition(e, sc, now).value);
  }

  ghost function ExactEnvOf(sc: Schema, db: Sql.Database, now: int): Env {
    EnvOf(sc, db, now).(reading := Exactly(ReadingOf(db)))
  }

  /** On databases whose folding does not matter for the filter, this is CEL's own reading of tags. */
  lemma ExactlyCompiledFilter(e: Expr, sc: Schema, db: Sql.Database, now: int, earlier: seq<Sql.Value>,
                              later: seq<Sql.Value>)
    requires CompileToStatement(e, sc, db.d, |earlier|, now).Ok? && IsTruth(Eval(e, ExactEnvOf(sc, db, now)))
    requires var cond := BuildCondition(e, sc, now).value;
             Admissible(sc, db, e, cond) && FindsArgs(sc, db.d, cond) && KeptListsParse(db.d, cond) &&
             FoldingIsIdle(sc, db.row, db.fold, cond)
    ensures var r := ExecuteStatement(db, CompileToStatement(e, sc, db.d, |earlier|, now).value, earlier, later);
            r.Some? && Result(r.value, Eval(e, ExactEnvOf(sc, db, now)).value.b,
                              AnswersOn(sc, db, BuildCondition(e, sc, now).value))
  {
    hide BuildCondition, Render, Eval, SearchesOk, MacroShaped, ExecuteStatement, Ref, FindsArgs, KeptListsParse,
         SearchesText, FoldingIsIdle, RowFits, WellFormed, Folding, Answers;
    var cond := BuildCondition(e, sc, now).value;
    BuiltSearchesText(e, sc, now);
    RunMeans(sc, db, cond, earlier, later);
    BuiltMeans(e, ExactEnvOf(sc, db, now), db.d, |earlier|);
    IdleRef(sc, db.row, ReadingOf(db), db.foldedLike, cond);
    AnswersIff(sc, db.row, ReadingOf(db), db.foldedLike, db.d, |earlier|, cond);
  }

  /** An empty list compiles: `tag in []` renders without an error for every dialect, to SQL that does not parse. */
  lemma EmptyListCompiles(d: Dialect, now: int)
    ensures var sc: Schema := map["tags" := TAGS, "tag" := TAG];
            var e := Call("@in", None, [Ident("tag"), ListExpr([])]);
            BuildCondition(e, sc, now) == Ok(InCond(FieldRef("tag"), [])) &&
            CompileToStatement(e, sc, d, 0, now) == Ok(Statement(Some(Sql.AnyOf([])), [])) &&
            !Sql.Parses(d, Sql.AnyOf([]))
  {
    var sc: Schema := map["tags" := TAGS, "tag" := TAG];
    assert BuildValues([], sc, now) == Ok([]);
    assert BuildIn([Ident("tag"), ListExpr([])], sc, now) == Ok(InCond(FieldRef("tag"), []));
    assert ResolveAlias(sc, "tag") == Some(TAGS);
  }
}
