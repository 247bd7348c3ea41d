/** Rendering a condition tree as SQL for one dialect. */
module FilterRender {
  import opened Options
  import opened FilterSchema
  import opened Sql

  /** A render result: always true, never true, or a fragment. */
  datatype Rendered = Trivial | Unsatisfiable | Fragment(sql: Sql)

  /** A result with the arguments it appended. */
  type Outcome = Result<(Rendered, seq<Value>), string>

  function ToFragment(s: Sql, args: seq<Value>): Outcome { Ok((Fragment(s), args)) }

  // ----- folding -----

  function CombineAnd(left: Rendered, right: Rendered): Rendered {
    if left.Unsatisfiable? || right.Unsatisfiable? then Unsatisfiable
    else if left.Trivial? then right
    else if right.Trivial? then left
    else Fragment(And(left.sql, right.sql))
  }

  function CombineOr(left: Rendered, right: Rendered): Rendered {
    if left.Trivial? || right.Trivial? then Trivial
    else if left.Unsatisfiable? then right
    else if right.Unsatisfiable? then left
    else Fragment(Or(left.sql, right.sql))
  }

  function Negate(child: Rendered): Rendered {
    match child case Trivial => Unsatisfiable case Unsatisfiable => Trivial case Fragment(s) => Fragment(Not(s))
  }

  // ----- terms -----

  function ColumnExpr(d: Dialect, f: Field): Term {
    if f.unixTime && d.MySQL? then UnixTimestamp(ColumnT(f.column)) else ColumnT(f.column)
  }

  function JsonExtract(d: Dialect, f: Field): Term {
    if d.Postgres? then JsonGetText(f.column, f.jsonPath) else JsonGet(f.column, f.jsonPath)
  }

  function JsonArray(f: Field): Term { JsonGet(f.column, f.jsonPath) }

  /** The array as the left side of LIKE. */
  function ArrayAsText(d: Dialect, f: Field): Term {
    if d.Postgres? then CastText(JsonArray(f)) else JsonArray(f)
  }

  function NullCheck(d: Dialect, f: Field, s: Sql): Sql {
    var present := IsNotNull(JsonArray(f));
    var nonEmpty := if d.SQLite? then Compare(JsonArray(f), Neq, TextLit("[]"))
                    else Compare(ArrayLength(JsonArray(f)), Gt, IntLit(0));
    And(And(s, present), nonEmpty)
  }

  function BoolArg(d: Dialect, b: bool): Value { if d.SQLite? then IntV(if b then 1 else 0) else BoolV(b) }

  function ExpectLiteral(e: ValueExpr): Result<Literal, string> {
    if e.LiteralValue? then Ok(e.lit) else Err("expression must be a literal")
  }

  function ExpectBool(e: ValueExpr): Result<bool, string> {
    var lit :- ExpectLiteral(e);
    if lit.LBool? then Ok(lit.b) else Err("boolean literal required")
  }

  function ToInt64(lit: Literal): Result<int, string> {
    if lit.LInt? then Ok(lit.i) else Err("cannot convert to int64")
  }

  function ExpectString(e: ValueExpr): Result<string, string> {
    var lit :- ExpectLiteral(e);
    if lit.LString? then Ok(lit.s) else Err("string literal required")
  }

  // ----- leaves; `n` placeholder numbers are used up before -----

  function FieldPredicateSql(d: Dialect, f: Field): Outcome {
    match f.kind
    case BoolColumn => ToFragment(IsTrue(ColumnT(f.column)), [])
    case JsonBool =>
      ToFragment(match d
                 case SQLite => IsTrue(JsonExtract(d, f))
                 case MySQL => Compare(OrJsonFalse(JsonExtract(d, f)), Eq, JsonBoolLit(true))
                 case Postgres => IsTrue(CastBoolean(JsonExtract(d, f))), [])
    case _ => Err("field cannot be used as a predicate")
  }

  function ScalarComparison(d: Dialect, n: nat, f: Field, op: CompareOp, right: ValueExpr): Outcome {
    var lit :- ExpectLiteral(right);
    var column := ColumnExpr(d, f);
    if lit.LNull? then
      if op.Eq? then ToFragment(IsNull(column), [])
      else if op.Neq? then ToFragment(IsNotNull(column), [])
      else Err("operator not supported for null comparison")
    else
      match f.ftype
      case StringType =>
        if lit.LString? then ToFragment(Compare(column, op, Param(Emit(d, n + 1, StrV(lit.s)))), [StrV(lit.s)])
        else Err("field expects string value")
      case BoolType => Err("unsupported data type")
      case _ =>
        var num :- ToInt64(lit);
        ToFragment(Compare(column, op, Param(Emit(d, n + 1, IntV(num)))), [IntV(num)])
  }

  function BoolColumnComparison(d: Dialect, n: nat, f: Field, op: CompareOp, right: ValueExpr): Outcome {
    var value :- ExpectBool(right);
    var v := BoolArg(d, value);
    ToFragment(Compare(ColumnT(f.column), op, Param(Emit(d, n + 1, v))), [v])
  }

  function JsonBoolComparison(d: Dialect, n: nat, f: Field, op: CompareOp, right: ValueExpr): Outcome {
    var value :- ExpectBool(right);
    var expr := JsonExtract(d, f);
    match d
    case SQLite =>
      if !op.Eq? && !op.Neq? then Err("operator not supported for boolean JSON field")
      else if f.name == "has_task_list" then ToFragment(Compare(expr, op, IntLit(if value then 1 else 0)), [])
      else if op.Eq? == value then ToFragment(IsTrue(expr), [])
      else ToFragment(Not(IsTrue(expr)), [])
    case MySQL => ToFragment(Compare(expr, op, JsonBoolLit(value)), [])
    case Postgres => ToFragment(Compare(CastBoolean(expr), op, Param(Emit(d, n + 1, BoolV(value)))), [BoolV(value)])
  }

  function SizeComparison(sc: Schema, d: Dialect, n: nat, args: seq<ValueExpr>, op: CompareOp,
                          right: ValueExpr): Outcome {
    if |args| != 1 then Err("size() expects one argument")
    else if !args[0].FieldRef? then Err("size() argument must be a field")
    else match Lookup(sc, args[0].name)
      case None => Err("unknown field")
      case Some(f) =>
        if !f.kind.JsonList? then Err("size() only supports tag lists")
        else
          var lit :- ExpectLiteral(right);
          var num :- ToInt64(lit);
          ToFragment(Compare(ArrayLength(OrEmptyArray(JsonArray(f))), op, Param(Emit(d, n + 1, IntV(num)))),
                     [IntV(num)])
  }

  function ComparisonSql(sc: Schema, d: Dialect, n: nat, left: ValueExpr, op: CompareOp, right: ValueExpr): Outcome {
    match left
    case FieldRef(name) =>
      (match Lookup(sc, name)
       case None => Err("unknown field")
       case Some(f) =>
         match f.kind
         case BoolColumn => BoolColumnComparison(d, n, f, op, right)
         case JsonBool => JsonBoolComparison(d, n, f, op, right)
         case Scalar => ScalarComparison(d, n, f, op, right)
         case _ => Err("field does not support comparison"))
    case FunctionValue(fn, args) =>
      if fn == "size" then SizeComparison(sc, d, n, args, op, right) else Err("unsupported function in comparison")
    case LiteralValue(_) => Err("comparison must start with a field reference or supported function")
  }

  /** The whole-tag test; its argument and its SQL around the given slot. */
  function ExactArg(d: Dialect, s: string): Value {
    if d.SQLite? then StrV("%\"" + s + "\"%") else StrV("\"" + s + "\"")
  }

  function ExactTest(d: Dialect, f: Field, slot: Slot): Sql {
    if d.SQLite? then Like(JsonArray(f), Param(slot)) else JsonContains(JsonArray(f), Param(slot))
  }

  function LikeTest(d: Dialect, f: Field, slot: Slot): Sql { Like(ArrayAsText(d, f), Param(slot)) }

  function BelowArg(s: string): Value { StrV("%\"" + s + "/%") }

  /** One element of `tag in [...]`: the tag itself or a tag below it. */
  function TagTest(d: Dialect, n: nat, f: Field, s: string): Sql {
    Or(ExactTest(d, f, Emit(d, n + 1, ExactArg(d, s))), LikeTest(d, f, Emit(d, n + 2, BelowArg(s))))
  }

  function TagTests(d: Dialect, n: nat, f: Field, values: seq<ValueExpr>): Result<(seq<Sql>, seq<Value>), string>
    decreases |values|
  {
    if values == [] then Ok(([], []))
    else
      var s :- ExpectString(values[0]);
      var rest :- TagTests(d, n + 2, f, values[1..]);
      Ok(([TagTest(d, n, f, s)] + rest.0, [ExactArg(d, s), BelowArg(s)] + rest.1))
  }

  function TagInList(sc: Schema, d: Dialect, n: nat, values: seq<ValueExpr>): Outcome {
    match ResolveAlias(sc, "tag")
    case None => Err("tag attribute is not configured")
    case Some(f) =>
      var tests :- TagTests(d, n, f, values);
      ToFragment(if |tests.0| == 1 then tests.0[0] else AnyOf(tests.0), tests.1)
  }

  function ScalarArg(f: Field, e: ValueExpr): Result<Value, string> {
    var lit :- ExpectLiteral(e);
    match f.ftype
    case StringType => if lit.LString? then Ok(StrV(lit.s)) else Err("field expects string values")
    case IntType => var num :- ToInt64(lit); Ok(IntV(num))
    case _ => Err("field does not support IN() comparisons")
  }

  function ScalarArgs(f: Field, values: seq<ValueExpr>): Result<seq<Value>, string>
    decreases |values|
  {
    if values == [] then Ok([])
    else
      var v :- ScalarArg(f, values[0]);
      var rest :- ScalarArgs(f, values[1..]);
      Ok([v] + rest)
  }

  /** Placeholders for `vs`, numbered after `n`. */
  function Params(d: Dialect, n: nat, vs: seq<Value>): seq<Term>
    decreases |vs|
  {
    if vs == [] then [] else [Param(Emit(d, n + 1, vs[0]))] + Params(d, n + 1, vs[1..])
  }

  function InSql(sc: Schema, d: Dialect, n: nat, target: ValueExpr, values: seq<ValueExpr>): Outcome {
    if !target.FieldRef? then Err("IN operator requires a field on the left-hand side")
    else if target.name == "tag" then TagInList(sc, d, n, values)
    else match Lookup(sc, target.name)
      case None => Err("unknown field")
      case Some(f) =>
        if !f.kind.Scalar? then Err("field does not support IN()")
        else
          var vs :- ScalarArgs(f, values);
          ToFragment(In(ColumnExpr(d, f), Params(d, n, vs)), vs)
  }

  function ElementInSql(sc: Schema, d: Dialect, n: nat, element: ValueExpr, field: string): Outcome {
    match Lookup(sc, field)
    case None => Err("unknown field")
    case Some(f) =>
      if !f.kind.JsonList? then Err("field is not a tag list")
      else
        var s :- ExpectString(element);
        ToFragment(ExactTest(d, f, Emit(d, n + 1, ExactArg(d, s))), [ExactArg(d, s)])
  }

  function ContainsSql(sc: Schema, d: Dialect, n: nat, field: string, text: string): Outcome {
    match Lookup(sc, field)
    case None => Err("unknown field")
    case Some(f) =>
      var v := StrV("%" + text + "%");
      ToFragment(FoldedLike(ColumnExpr(d, f), Param(Emit(d, n + 1, v))), [v])
  }

  function ExistsSql(sc: Schema, d: Dialect, n: nat, field: string, pred: TagPredicate): Outcome {
    match Lookup(sc, field)
    case None => Err("unknown field")
    case Some(f) =>
      if !f.kind.JsonList? then Err("field is not a JSON list")
      else match pred
        case StartsWith(s) =>
          var exact, prefix := ExactArg(d, s), StrV("%\"" + s + "%");
          var exactTest := if d.Postgres? then ExactTest(d, f, Emit(d, n + 1, exact))
                           else LikeTest(d, f, Emit(d, n + 1, StrV("%\"" + s + "\"%")));
          ToFragment(NullCheck(d, f, Or(exactTest, LikeTest(d, f, Emit(d, n + 2, prefix)))),
                     [if d.Postgres? then exact else StrV("%\"" + s + "\"%"), prefix])
        case EndsWith(s) =>
          var v := StrV("%" + s + "\"%");
          ToFragment(NullCheck(d, f, LikeTest(d, f, Emit(d, n + 1, v))), [v])
        case Contains(s) =>
          var v := StrV("%" + s + "%");
          ToFragment(NullCheck(d, f, LikeTest(d, f, Emit(d, n + 1, v))), [v])
  }

  // ----- conditions -----

  /** What rendering `cond` yields when `n` placeholder numbers are used up: the offset the caller asked for, and
      the arguments added since. */
  function Render(sc: Schema, d: Dialect, n: nat, cond: Condition): Outcome
    decreases cond
  {
    match cond
    case Logical(op, left, right) =>
      var l :- Render(sc, d, n, left);
      var r :- Render(sc, d, n + |l.1|, right);
      Ok((if op.AndOp? then CombineAnd(l.0, r.0) else CombineOr(l.0, r.0), l.1 + r.1))
    case NotCond(expr) =>
      var c :- Render(sc, d, n, expr);
      Ok((Negate(c.0), c.1))
    case Constant(value) => Ok((if value then Trivial else Unsatisfiable, []))
    case _ => RenderLeaf(sc, d, n, cond)
  }

  predicate IsLeaf(cond: Condition) { !cond.Logical? && !cond.NotCond? && !cond.Constant? }

  function RenderLeaf(sc: Schema, d: Dialect, n: nat, cond: Condition): Outcome
    requires IsLeaf(cond)
  {
    match cond
    case FieldPredicate(field) =>
      (match Lookup(sc, field) case None => Err("unknown field") case Some(f) => FieldPredicateSql(d, f))
    case Comparison(left, op, right) => ComparisonSql(sc, d, n, left, op, right)
    case InCond(target, values) => InSql(sc, d, n, target, values)
    case ElementIn(element, field) => ElementInSql(sc, d, n, element, field)
    case ContainsCond(field, text) => ContainsSql(sc, d, n, field, text)
    case Exists(field, pred) => ExistsSql(sc, d, n, field, pred)
  }

  /** The statement a program renders to; `None` is the empty SQL. */
  datatype Statement = Statement(sql: Option<Sql>, args: seq<Value>)

  function ToStatement(r: Rendered, args: seq<Value>): Statement {
    match r
    case Unsatisfiable => Statement(Some(Falsum), args)
    case Trivial => Statement(None, args)
    case Fragment(s) => Statement(Some(s), args)
  }

  /** The renderer object: it numbers placeholders and collects arguments as it walks the tree. */
  class Renderer {
    const schema: Schema
    const dialect: Dialect
    const placeholderOffset: nat
    var placeholderCounter: nat
    var args: seq<Value>

    predicate Valid()
      reads this
    {
      placeholderCounter == |args|
    }

    constructor (schema: Schema, dialect: Dialect, placeholderOffset: nat)
      ensures Valid() && args == []
      ensures this.schema == schema && this.dialect == dialect && this.placeholderOffset == placeholderOffset
    {
      this.schema, this.dialect, this.placeholderOffset := schema, dialect, placeholderOffset;
      placeholderCounter, args := 0, [];
    }

    /** The call returned what the specification says and appended exactly its arguments. */
    ghost predicate Rendered(spec: Outcome, r: Result<Rendered, string>, before: seq<Value>)
      reads this
    {
      Valid() && match spec case Err(e) => r == Err(e) case Ok(o) => r == Ok(o.0) && args == before + o.1
    }

    /** The placeholder numbers used up so far. */
    ghost function Used(): nat
      reads this
    {
      placeholderOffset + |args|
    }

    method AddArg(value: Value) returns (slot: Slot)
      requires Valid()
      modifies this`placeholderCounter, this`args
      ensures Valid() && args == old(args) + [value] && slot == Emit(dialect, Used(), value)
    {
      placeholderCounter := placeholderCounter + 1;
      args := args + [value];
      slot := Slot(if dialect.Postgres? then Dollar(placeholderOffset + placeholderCounter) else Question, value);
    }

    method Run(cond: Condition) returns (r: Result<Statement, string>)
      requires Valid() && args == []
      modifies this`placeholderCounter, this`args
      ensures r == match Render(schema, dialect, placeholderOffset, cond)
                   case Err(e) => Err(e)
                   case Ok(o) => Ok(ToStatement(o.0, o.1))
    {
      var result :- RenderCondition(cond);
      assert forall o: seq<Value> :: [] + o == o;
      return Ok(ToStatement(result, args));
    }

    method RenderCondition(cond: Condition) returns (r: Result<Rendered, string>)
      requires Valid()
      modifies this`placeholderCounter, this`args
      ensures Rendered(Render(schema, dialect, old(Used()), cond), r, old(args))
      decreases cond, 1
    {
      hide ComparisonSql, InSql, ElementInSql, ContainsSql, ExistsSql, FieldPredicateSql;
      match cond {
        case Logical(op, left, right) => r := RenderLogicalCondition(cond);
        case NotCond(expr) =>
          var child :- RenderCondition(expr);
          r := Ok(Negate(child));
        case FieldPredicate(name) =>
          var out := match Lookup(schema, name)
            case None => Err("unknown field")
            case Some(f) => FieldPredicateSql(dialect, f);
          NoArguments(schema, dialect, name);
          r := match out case Ok(o) => Ok(o.0) case Err(e) => Err(e);
        case Comparison(left, op, right) => r := RenderComparison(left, op, right);
        case InCond(target, values) => r := RenderInCondition(target, values);
        case ElementIn(element, field) => r := RenderElementInCondition(element, field);
        case ContainsCond(field, text) => r := RenderContainsCondition(field, text);
        case Exists(field, pred) => r := RenderListComprehension(field, pred);
        case Constant(value) => r := Ok(if value then Trivial else Unsatisfiable);
      }
    }

    method RenderLogicalCondition(cond: Condition) returns (r: Result<Rendered, string>)
      requires Valid() && cond.Logical?
      modifies this`placeholderCounter, this`args
      ensures Rendered(Render(schema, dialect, old(Used()), cond), r, old(args))
      decreases cond, 0
    {
      hide RenderLeaf, CombineAnd, CombineOr, Negate;
      var left :- RenderCondition(cond.left);
      var right :- RenderCondition(cond.right);
      r := Ok(if cond.op.AndOp? then CombineAnd(left, right) else CombineOr(left, right));
    }

    method RenderComparison(left: ValueExpr, op: CompareOp, right: ValueExpr) returns (r: Result<Rendered, string>)
      requires Valid()
      modifies this`placeholderCounter, this`args
      ensures Rendered(ComparisonSql(schema, dialect, old(Used()), left, op, right), r, old(args))
    {
      match left {
        case FieldRef(name) =>
          var field := Lookup(schema, name);
          if field.None? { return Err("unknown field"); }
          match field.value.kind {
            case BoolColumn => r := RenderBoolColumnComparison(field.value, op, right);
            case JsonBool => r := RenderJSONBoolComparison(field.value, op, right);
            case Scalar => r := RenderScalarComparison(field.value, op, right);
            case _ => r := Err("field does not support comparison");
          }
        case FunctionValue(fn, fnArgs) => r := RenderFunctionComparison(fn, fnArgs, op, right);
        case LiteralValue(_) => r := Err("comparison must start with a field reference or supported function");
      }
    }

    method RenderFunctionComparison(fn: string, fnArgs: seq<ValueExpr>, op: CompareOp, right: ValueExpr)
      returns (r: Result<Rendered, string>)
      requires Valid()
      modifies this`placeholderCounter, this`args
      ensures Rendered(ComparisonSql(schema, dialect, old(Used()), FunctionValue(fn, fnArgs), op, right), r, old(args))
    {
      if fn != "size" { return Err("unsupported function in comparison"); }
      if |fnArgs| != 1 { return Err("size() expects one argument"); }
      if !fnArgs[0].FieldRef? { return Err("size() argument must be a field"); }
      var field := Lookup(schema, fnArgs[0].name);
      if field.None? { return Err("unknown field"); }
      if !field.value.kind.JsonList? { return Err("size() only supports tag lists"); }
      var lit :- ExpectLiteral(right);
      var value :- ToInt64(lit);
      var slot := AddArg(IntV(value));
      return Ok(Fragment(Compare(ArrayLength(OrEmptyArray(JsonArray(field.value))), op, Param(slot))));
    }

    method RenderScalarComparison(field: Field, op: CompareOp, right: ValueExpr) returns (r: Result<Rendered, string>)
      requires Valid()
      modifies this`placeholderCounter, this`args
      ensures Rendered(ScalarComparison(dialect, old(Used()), field, op, right), r, old(args))
    {
      var lit :- ExpectLiteral(right);
      var column := ColumnExpr(dialect, field);
      if lit.LNull? {
        if op.Eq? { return Ok(Fragment(IsNull(column))); }
        if op.Neq? { return Ok(Fragment(IsNotNull(column))); }
        return Err("operator not supported for null comparison");
      }
      var slot: Slot;
      match field.ftype {
        case StringType =>
          if !lit.LString? { return Err("field expects string value"); }
          slot := AddArg(StrV(lit.s));
        case BoolType => return Err("unsupported data type");
        case _ =>
          var num :- ToInt64(lit);
          slot := AddArg(IntV(num));
      }
      return Ok(Fragment(Compare(column, op, Param(slot))));
    }

    method RenderBoolColumnComparison(field: Field, op: CompareOp, right: ValueExpr)
        returns (r: Result<Rendered, string>)
      requires Valid()
      modifies this`placeholderCounter, this`args
      ensures Rendered(BoolColumnComparison(dialect, old(Used()), field, op, right), r, old(args))
    {
      var value :- ExpectBool(right);
      var slot := AddArg(BoolArg(dialect, value));
      return Ok(Fragment(Compare(ColumnT(field.column), op, Param(slot))));
    }

    method RenderJSONBoolComparison(field: Field, op: CompareOp, right: ValueExpr) returns (r: Result<Rendered, string>)
      requires Valid()
      modifies this`placeholderCounter, this`args
      ensures Rendered(JsonBoolComparison(dialect, old(Used()), field, op, right), r, old(args))
    {
      var value :- ExpectBool(right);
      var expr := JsonExtract(dialect, field);
      match dialect {
        case SQLite =>
          if !op.Eq? && !op.Neq? { return Err("operator not supported for boolean JSON field"); }
          if field.name == "has_task_list" {
            return Ok(Fragment(Compare(expr, op, IntLit(if value then 1 else 0))));
          }
          return Ok(Fragment(if op.Eq? == value then IsTrue(expr) else Not(IsTrue(expr))));
        case MySQL => return Ok(Fragment(Compare(expr, op, JsonBoolLit(value))));
        case Postgres =>
          var slot := AddArg(BoolV(value));
          return Ok(Fragment(Compare(CastBoolean(expr), op, Param(slot))));
      }
    }

    method RenderInCondition(target: ValueExpr, values: seq<ValueExpr>) returns (r: Result<Rendered, string>)
      requires Valid()
      modifies this`placeholderCounter, this`args
      ensures Rendered(InSql(schema, dialect, old(Used()), target, values), r, old(args))
    {
      if !target.FieldRef? { return Err("IN operator requires a field on the left-hand side"); }
      if target.name == "tag" {
        r := RenderTagInList(values);
        return;
      }
      var field := Lookup(schema, target.name);
      if field.None? { return Err("unknown field"); }
      if !field.value.kind.Scalar? { return Err("field does not support IN()"); }
      r := RenderScalarInCondition(field.value, values);
    }

    method RenderTagInList(values: seq<ValueExpr>) returns (r: Result<Rendered, string>)
      requires Valid()
      modifies this`placeholderCounter, this`args
      ensures Rendered(TagInList(schema, dialect, old(Used()), values), r, old(args))
    {
      hide ExpectString, ExactArg, BelowArg, ExactTest, LikeTest;
      var field := ResolveAlias(schema, "tag");
      if field.None? { return Err("tag attribute is not configured"); }
      ghost var before := args;
      ghost var spec := TagTests(dialect, placeholderOffset + |before|, field.value, values);
      var conditions: seq<Sql> := [];
      var k := 0;
      AfterTestsStart(spec, before);
      assert values[0..] == values;
      while k < |values|
        invariant 0 <= k <= |values| && Valid() && |args| >= |before|
        invariant AfterTests(spec, conditions, args, before, TagTests(dialect, Used(), field.value, values[k..]))
      {
        var s := ExpectString(values[k]);
        if s.Err? { return Err(s.error); }
        AfterTestsNext(spec, conditions, args, before, dialect, placeholderOffset, field.value, values[k..], s.value);
        assert values[k..][1..] == values[k + 1..];
        assert args + [ExactArg(dialect, s.value)] + [BelowArg(s.value)]
               == args + [ExactArg(dialect, s.value), BelowArg(s.value)];
        var exact := AddArg(ExactArg(dialect, s.value));
        var below := AddArg(BelowArg(s.value));
        conditions := conditions + [Or(ExactTest(dialect, field.value, exact), LikeTest(dialect, field.value, below))];
        k := k + 1;
      }
      assert values[k..] == [];
      assert conditions + [] == conditions && before + args[|before|..] == args;
      return Ok(Fragment(if |conditions| == 1 then conditions[0] else AnyOf(conditions)));
    }

    method RenderElementInCondition(element: ValueExpr, name: string) returns (r: Result<Rendered, string>)
      requires Valid()
      modifies this`placeholderCounter, this`args
      ensures Rendered(ElementInSql(schema, dialect, old(Used()), element, name), r, old(args))
    {
      var field := Lookup(schema, name);
      if field.None? { return Err("unknown field"); }
      if !field.value.kind.JsonList? { return Err("field is not a tag list"); }
      var s :- ExpectString(element);
      var slot := AddArg(ExactArg(dialect, s));
      return Ok(Fragment(ExactTest(dialect, field.value, slot)));
    }

    method RenderScalarInCondition(field: Field, values: seq<ValueExpr>) returns (r: Result<Rendered, string>)
      requires Valid()
      modifies this`placeholderCounter, this`args
      ensures Rendered(match ScalarArgs(field, values)
                       case Err(e) => Err(e)
                       case Ok(vs) => ToFragment(In(ColumnExpr(dialect, field), Params(dialect, old(Used()), vs)), vs),
                         r, old(args))
    {
      hide ScalarArg;
      ghost var before := args;
      ghost var spec := ScalarArgs(field, values);
      var placeholders: seq<Term> := [];
      var k := 0;
      AfterParamsStart(spec, before, dialect, placeholderOffset);
      assert values[0..] == values;
      while k < |values|
        invariant 0 <= k <= |values| && Valid() && |args| >= |before|
        invariant AfterParams(spec, placeholders, args, before, dialect, placeholderOffset,
                              ScalarArgs(field, values[k..]))
      {
        var v := ScalarArg(field, values[k]);
        if v.Err? { return Err(v.error); }
        AfterParamsNext(spec, placeholders, args, before, dialect, placeholderOffset, field, values[k..], v.value);
        assert values[k..][1..] == values[k + 1..];
        var slot := AddArg(v.value);
        placeholders := placeholders + [Param(slot)];
        k := k + 1;
      }
      assert values[k..] == [];
      assert placeholders + [] == placeholders && before + args[|before|..] == args &&
             args[|before|..] + [] == args[|before|..];
      return Ok(Fragment(In(ColumnExpr(dialect, field), placeholders)));
    }

    method RenderContainsCondition(name: string, text: string) returns (r: Result<Rendered, string>)
      requires Valid()
      modifies this`placeholderCounter, this`args
      ensures Rendered(ContainsSql(schema, dialect, old(Used()), name, text), r, old(args))
    {
      var field := Lookup(schema, name);
      if field.None? { return Err("unknown field"); }
      var slot := AddArg(StrV("%" + text + "%"));
      return Ok(Fragment(FoldedLike(ColumnExpr(dialect, field.value), Param(slot))));
    }

    method RenderListComprehension(name: string, pred: TagPredicate) returns (r: Result<Rendered, string>)
      requires Valid()
      modifies this`placeholderCounter, this`args
      ensures Rendered(ExistsSql(schema, dialect, old(Used()), name, pred), r, old(args))
    {
      var field := Lookup(schema, name);
      if field.None? { return Err("unknown field"); }
      if !field.value.kind.JsonList? { return Err("field is not a JSON list"); }
      var slot: Slot;
      match pred {
        case StartsWith(s) =>
          var exactTest: Sql;
          if dialect.Postgres? {
            var exact := AddArg(ExactArg(dialect, s));
            exactTest := ExactTest(dialect, field.value, exact);
          } else {
            var exact := AddArg(StrV("%\"" + s + "\"%"));
            exactTest := LikeTest(dialect, field.value, exact);
          }
          slot := AddArg(StrV("%\"" + s + "%"));
          return Ok(Fragment(NullCheck(dialect, field.value, Or(exactTest, LikeTest(dialect, field.value, slot)))));
        case EndsWith(s) => slot := AddArg(StrV("%" + s + "\"%"));
        case Contains(s) => slot := AddArg(StrV("%" + s + "%"));
      }
      return Ok(Fragment(NullCheck(dialect, field.value, LikeTest(dialect, field.value, slot))));
    }
  }

  /** The loop over the tags has done a prefix of what the specification does. */
  ghost predicate AfterTests(spec: Result<(seq<Sql>, seq<Value>), string>, done: seq<Sql>, args: seq<Value>,
                             before: seq<Value>, rest: Result<(seq<Sql>, seq<Value>), string>) {
    before <= args &&
    match rest
    case Err(e) => spec == Err(e)
    case Ok(t) => spec == Ok((done + t.0, args[|before|..] + t.1))
  }

  lemma AfterTestsStart(spec: Result<(seq<Sql>, seq<Value>), string>, before: seq<Value>)
    ensures AfterTests(spec, [], before, before, spec)
  {
    if spec.Ok? { assert [] + spec.value.0 == spec.value.0 && before[|before|..] + spec.value.1 == spec.value.1; }
  }

  lemma AfterTestsNext(spec: Result<(seq<Sql>, seq<Value>), string>, done: seq<Sql>, args: seq<Value>,
                       before: seq<Value>, d: Dialect, offset: nat, f: Field, values: seq<ValueExpr>, s: string)
    requires values != [] && ExpectString(values[0]) == Ok(s)
    requires AfterTests(spec, done, args, before, TagTests(d, offset + |args|, f, values))
    ensures AfterTests(spec, done + [TagTest(d, offset + |args|, f, s)], args + [ExactArg(d, s), BelowArg(s)], before,
                       TagTests(d, offset + |args| + 2, f, values[1..]))
  {
    hide ExpectString, ExactArg, BelowArg, TagTest;
    var rest, two := TagTests(d, offset + |args| + 2, f, values[1..]), [ExactArg(d, s), BelowArg(s)];
    if rest.Ok? {
      assert done + ([TagTest(d, offset + |args|, f, s)] + rest.value.0)
             == (done + [TagTest(d, offset + |args|, f, s)]) + rest.value.0;
      assert args[|before|..] + (two + rest.value.1) == (args + two)[|before|..] + rest.value.1;
    }
  }

  lemma AfterParamsStart(spec: Result<seq<Value>, string>, before: seq<Value>, d: Dialect, offset: nat)
    ensures AfterParams(spec, [], before, before, d, offset, spec)
  {
    if spec.Ok? {
      assert before[|before|..] + spec.value == spec.value;
      assert [] + Params(d, offset + |before|, spec.value) == Params(d, offset + |before|, spec.value);
    }
  }

  lemma AfterParamsNext(spec: Result<seq<Value>, string>, done: seq<Term>, args: seq<Value>, before: seq<Value>,
                        d: Dialect, offset: nat, f: Field, values: seq<ValueExpr>, v: Value)
    requires values != [] && ScalarArg(f, values[0]) == Ok(v)
    requires AfterParams(spec, done, args, before, d, offset, ScalarArgs(f, values))
    ensures AfterParams(spec, done + [Param(Emit(d, offset + |args| + 1, v))], args + [v], before, d, offset,
                        ScalarArgs(f, values[1..]))
  {
    hide ScalarArg, Emit;
    var rest := ScalarArgs(f, values[1..]);
    if rest.Ok? {
      assert args[|before|..] + ([v] + rest.value) == (args + [v])[|before|..] + rest.value;
      var n := offset + |args|;
      assert done + ([Param(Emit(d, n + 1, v))] + Params(d, n + 1, rest.value))
          == (done + [Param(Emit(d, n + 1, v))]) + Params(d, n + 1, rest.value);
    }
  }

  ghost predicate AfterParams(spec: Result<seq<Value>, string>, done: seq<Term>, args: seq<Value>, before: seq<Value>,
                              d: Dialect, offset: nat, rest: Result<seq<Value>, string>) {
    before <= args &&
    match rest
    case Err(e) => spec == Err(e)
    case Ok(vs) => spec == Ok(args[|before|..] + vs) &&
                   Params(d, offset + |before|, args[|before|..] + vs) == done + Params(d, offset + |args|, vs)
  }

  lemma NoArguments(sc: Schema, d: Dialect, name: string)
    ensures match Lookup(sc, name)
            case None => true
            case Some(f) => FieldPredicateSql(d, f).Ok? ==> FieldPredicateSql(d, f).value.1 == []
  {}
}
