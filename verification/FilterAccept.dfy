/** Which filters compile. */
module FilterAccept {
  import opened Options
  import opened FilterSchema
  import Sql
  import opened FilterRender
  import opened FilterCompile
  import opened FilterCorrect

  /** The filters of the language, with constants in the places of values. */
  datatype Filter =
    | Both(left: Filter, right: Filter)
    | Either(left: Filter, right: Filter)
    | Negated(inner: Filter)
    | Always(b: bool)
    | Flag(name: string)
    | Compared(name: string, fn: string, c: FilterCompile.Constant)
    | Sized(name: string, fn: string, c: FilterCompile.Constant)
    | Listed(name: string, cs: seq<FilterCompile.Constant>)
    | Tagged(c: FilterCompile.Constant, name: string)
    | Containing(name: string, text: string)
    | SomeTag(name: string, iterVar: string, accuVar: string, pred: TagPredicate)

  function Consts(cs: seq<FilterCompile.Constant>): (r: seq<Expr>)
    ensures |r| == |cs| && forall i | 0 <= i < |cs| :: r[i] == Const(cs[i])
  {
    seq(|cs|, i requires 0 <= i < |cs| => Const(cs[i]))
  }

  function PredicateExpr(pred: TagPredicate, iterVar: string): Expr {
    match pred
    case StartsWith(s) => Call("startsWith", Some(Ident(iterVar)), [Const(CString(s))])
    case EndsWith(s) => Call("endsWith", Some(Ident(iterVar)), [Const(CString(s))])
    case Contains(s) => Call("contains", Some(Ident(iterVar)), [Const(CString(s))])
  }

  /** The checked expression of a filter. */
  function ExprOf(f: Filter): Expr {
    match f
    case Both(left, right) => Call("_&&_", None, [ExprOf(left), ExprOf(right)])
    case Either(left, right) => Call("_||_", None, [ExprOf(left), ExprOf(right)])
    case Negated(inner) => Call("!_", None, [ExprOf(inner)])
    case Always(b) => Const(CBool(b))
    case Flag(name) => Ident(name)
    case Compared(name, fn, c) => Call(fn, None, [Ident(name), Const(c)])
    case Sized(name, fn, c) => Call(fn, None, [Call("size", None, [Ident(name)]), Const(c)])
    case Listed(name, cs) => Call("@in", None, [Ident(name), ListExpr(Consts(cs))])
    case Tagged(c, name) => Call("@in", None, [Const(c), Ident(name)])
    case Containing(name, text) => Call("contains", Some(Ident(name)), [Const(CString(text))])
    case SomeTag(name, iterVar, accuVar, pred) =>
      Comprehension(iterVar, Ident(name), accuVar, Const(CBool(false)),
                    Call("_||_", None, [Ident(accuVar), PredicateExpr(pred, iterVar)]))
  }

  /** Comparisons bear the names of comparisons. */
  predicate WellNamed(f: Filter) {
    match f
    case Both(left, right) => WellNamed(left) && WellNamed(right)
    case Either(left, right) => WellNamed(left) && WellNamed(right)
    case Negated(inner) => WellNamed(inner)
    case Compared(_, fn, _) => IsComparison(fn)
    case Sized(_, fn, _) => IsComparison(fn)
    case _ => true
  }

  predicate IsEquality(fn: string) { fn == "_==_" || fn == "_!=_" }

  predicate IsNumber(c: FilterCompile.Constant) { c.CInt? || c.CUint? }

  /** The field may be compared in this way: with null for equality, or with a value of its type; a flag in a JSON
      payload is compared for equality only in SQLite. */
  predicate Comparison(f: Field, d: Dialect, fn: string, c: FilterCompile.Constant) {
    match f.kind
    case Scalar => if c.CNull? then IsEquality(fn) else if f.ftype.StringType? then c.CString? else IsNumber(c)
    case BoolColumn => c.CBool?
    case JsonBool => c.CBool? && (d.SQLite? ==> IsEquality(fn))
    case _ => false
  }

  predicate Allowed(f: Field, fn: string) {
    f.allowedOps.Some? ==> ToOperator(fn).Some? && ToOperator(fn).value in f.allowedOps.value
  }

  /** The filter is one the dialect takes. */
  predicate Accepted(f: Filter, sc: Schema, d: Dialect) {
    match f
    case Both(left, right) => Accepted(left, sc, d) && Accepted(right, sc, d)
    case Either(left, right) => Accepted(left, sc, d) && Accepted(right, sc, d)
    case Negated(inner) => Accepted(inner, sc, d)
    case Always(_) => true
    case Flag(name) => name in sc && (sc[name].kind.BoolColumn? || sc[name].kind.JsonBool?)
    case Compared(name, fn, c) => name in sc && Allowed(sc[name], fn) && Comparison(sc[name], d, fn, c)
    case Sized(name, _, c) => name in sc && sc[name].kind.JsonList? && IsNumber(c)
    case Listed(name, cs) =>
      name in sc && (name == "tag" || sc[name].kind.Scalar?) && forall c <- cs :: Listable(name, sc[name], c)
    case Tagged(c, name) => name in sc && sc[name].kind.JsonList? && c.CString?
    case Containing(name, _) => name in sc && sc[name].supportsContains
    case SomeTag(name, _, _, _) => name in sc && sc[name].kind.JsonList?
  }

  /** Tags are listed as texts, texts as texts and integers as integers; nothing else is listed. */
  predicate Listable(name: string, f: Field, c: FilterCompile.Constant) {
    if name == "tag" || (f.kind.Scalar? && f.ftype.StringType?) then c.CString?
    else f.kind.Scalar? && f.ftype.IntType? && IsNumber(c)
  }

  // ----- leaves -----

  /** The expression is built and rendered. */
  predicate Compiles(e: Expr, sc: Schema, d: Dialect, n: nat, now: int) {
    BuildCondition(e, sc, now).Ok? && Render(sc, d, n, BuildCondition(e, sc, now).value).Ok?
  }

  lemma ConstantIsLiteral(c: FilterCompile.Constant, sc: Schema, now: int)
    ensures BuildValue(Const(c), sc, now)
            == match GetConstValue(Const(c)) case Some(lit) => Ok(LiteralValue(lit))
               case None => Err("unsupported value expression")
    ensures GetConstValue(Const(c)).None? <==> c.CBytes?
  {}

  lemma ComparedCompiles(name: string, fn: string, c: FilterCompile.Constant, sc: Schema, d: Dialect, n: nat, now: int)
    requires WellFormed(sc) && IsComparison(fn)
    ensures Compiles(ExprOf(Compared(name, fn, c)), sc, d, n, now) <==> Accepted(Compared(name, fn, c), sc, d)
  {
    hide BuildValue, ComparisonSql, BuildCondition;
    OperatorsByName(fn, VNull, VNull);
    ConstantIsLiteral(c, sc, now);
    IdentIsField(name, sc, now);
    var op := ToOperator(fn).value;
    assert BuildCondition(ExprOf(Compared(name, fn, c)), sc, now)
           == BuildComparison(op, [Ident(name), Const(c)], sc, now)
      by { ComparisonIsBuilt(fn, Ident(name), Const(c), sc, now); }
    if name in sc && !c.CBytes? {
      if sc[name].kind.VirtualAlias? { AliasAllowed(sc, name); }
      ComparisonCompiles(name, fn, c, sc, d, n);
    }
  }

  lemma ComparisonIsBuilt(fn: string, a: Expr, b: Expr, sc: Schema, now: int)
    requires ToOperator(fn).Some?
    ensures BuildCondition(Call(fn, None, [a, b]), sc, now) == BuildComparison(ToOperator(fn).value, [a, b], sc, now)
  {
    hide BuildComparison;
  }

  lemma IdentIsField(name: string, sc: Schema, now: int)
    ensures BuildValue(Ident(name), sc, now) == if name in sc then Ok(FieldRef(name)) else Err("unknown identifier")
  {}

  lemma AliasAllowed(sc: Schema, name: string)
    requires WellFormed(sc) && name in sc && sc[name].kind.VirtualAlias?
    ensures name == "tag" && ResolveAlias(sc, name) == Some(TAGS)
  {}

  /** Rendering a comparison of a field with a constant. */
  lemma ComparisonCompiles(name: string, fn: string, c: FilterCompile.Constant, sc: Schema, d: Dialect, n: nat)
    requires WellFormed(sc) && name in sc && IsComparison(fn) && !c.CBytes?
    ensures ComparisonSql(sc, d, n, FieldRef(name), ToOperator(fn).value,
                          LiteralValue(GetConstValue(Const(c)).value)).Ok?
            <==> Comparison(sc[name], d, fn, c)
  {
    hide ScalarComparison, BoolColumnComparison, JsonBoolComparison, ToOperator, FieldOk, IsComparison, GetConstValue;
    var f := sc[name];
    OperatorsByName(fn, VNull, VNull);
    EqualityByName(fn);
    ConstantKinds(c);
    assert FieldOk(f);
    FieldComparisonCompiles(f, ToOperator(fn).value, GetConstValue(Const(c)).value, d, n);
  }

  lemma FieldComparisonCompiles(f: Field, op: CompareOp, lit: Literal, d: Dialect, n: nat)
    requires FieldOk(f)
    ensures f.kind.Scalar? ==>
              (ScalarComparison(d, n, f, op, LiteralValue(lit)).Ok? <==>
               if lit.LNull? then op.Eq? || op.Neq? else if f.ftype.StringType? then lit.LString? else lit.LInt?)
    ensures BoolColumnComparison(d, n, f, op, LiteralValue(lit)).Ok? <==> lit.LBool?
    ensures JsonBoolComparison(d, n, f, op, LiteralValue(lit)).Ok? <==>
            lit.LBool? && (d.SQLite? ==> op.Eq? || op.Neq?)
  {
    hide ColumnExpr, JsonExtract, BoolArg;
  }

  lemma EqualityByName(fn: string)
    requires IsComparison(fn)
    ensures ToOperator(fn).Some? && (IsEquality(fn) <==> ToOperator(fn).value.Eq? || ToOperator(fn).value.Neq?)
  {}

  lemma ConstantKinds(c: FilterCompile.Constant)
    requires !c.CBytes?
    ensures var lit := GetConstValue(Const(c));
            lit.Some? && (lit.value.LNull? <==> c.CNull?) && (lit.value.LString? <==> c.CString?) &&
            (lit.value.LBool? <==> c.CBool?) && (lit.value.LInt? <==> IsNumber(c))
  {}

  lemma SizedCompiles(name: string, fn: string, c: FilterCompile.Constant, sc: Schema, d: Dialect, n: nat, now: int)
    requires IsComparison(fn)
    ensures Compiles(ExprOf(Sized(name, fn, c)), sc, d, n, now) <==> Accepted(Sized(name, fn, c), sc, d)
  {
    hide BuildCondition, BuildValue, ToOperator, JsonArray;
    OperatorsByName(fn, VNull, VNull);
    var size := Call("size", None, [Ident(name)]);
    ConstantIsLiteral(c, sc, now);
    SizeIsFunction(name, sc, now);
    ComparisonIsBuilt(fn, size, Const(c), sc, now);
  }

  lemma SizeIsFunction(name: string, sc: Schema, now: int)
    ensures BuildValue(Call("size", None, [Ident(name)]), sc, now)
            == if name in sc then Ok(FunctionValue("size", [FieldRef(name)])) else Err("unknown identifier")
  {
    hide EvaluateNumeric, EvaluateBool;
    IdentIsField(name, sc, now);
    SizeIsNoConstant(name, now);
    var e := Call("size", None, [Ident(name)]);
    assert e.args[0] == Ident(name);
  }

  lemma SizeIsNoConstant(name: string, now: int)
    ensures var e := Call("size", None, [Ident(name)]);
            EvaluateNumeric(e, now) == Ok(None) && EvaluateBool(e) == Ok(None) && GetConstValue(e).None?
  {}

  lemma {:induction false} ConstantsAreLiterals(cs: seq<FilterCompile.Constant>, sc: Schema, now: int)
    ensures BuildValues(Consts(cs), sc, now).Ok? <==> forall c <- cs :: !c.CBytes?
    ensures BuildValues(Consts(cs), sc, now).Ok? ==>
              var vs := BuildValues(Consts(cs), sc, now).value;
              |vs| == |cs| && forall i | 0 <= i < |cs| :: vs[i] == LiteralValue(GetConstValue(Const(cs[i])).value)
    decreases |cs|
  {
    hide BuildValue, GetConstValue;
    if cs != [] {
      var rest := cs[1..];
      assert cs == [cs[0]] + rest;
      assert Consts(cs)[1..] == Consts(rest) by { ConstsTail(cs); }
      assert Consts(cs)[0] == Const(cs[0]);
      ConstantIsLiteral(cs[0], sc, now);
      ConstantsAreLiterals(rest, sc, now);
    }
  }

  lemma ConstsTail(cs: seq<FilterCompile.Constant>)
    requires cs != []
    ensures Consts(cs)[1..] == Consts(cs[1..])
  {}

  lemma {:induction false} ScalarsListed(f: Field, vs: seq<ValueExpr>)
    ensures ScalarArgs(f, vs).Ok? <==> forall v <- vs :: ScalarArg(f, v).Ok?
    decreases |vs|
  {
    hide ScalarArg;
    if vs != [] {
      assert vs == [vs[0]] + vs[1..];
      ScalarsListed(f, vs[1..]);
    }
  }

  lemma {:induction false} TagsListed(d: Dialect, n: nat, f: Field, vs: seq<ValueExpr>)
    ensures TagTests(d, n, f, vs).Ok? <==> forall v <- vs :: ExpectString(v).Ok?
    decreases |vs|
  {
    hide ExpectString;
    if vs != [] {
      assert vs == [vs[0]] + vs[1..];
      TagsListed(d, n + 2, f, vs[1..]);
    }
  }

  lemma ListedCompiles(name: string, cs: seq<FilterCompile.Constant>, sc: Schema, d: Dialect, n: nat, now: int)
    requires WellFormed(sc)
    ensures Compiles(ExprOf(Listed(name, cs)), sc, d, n, now) <==> Accepted(Listed(name, cs), sc, d)
  {
    hide BuildValues, BuildValue, InSql, BuildCondition, Listable;
    var e := ExprOf(Listed(name, cs));
    assert BuildCondition(e, sc, now) == BuildIn(e.args, sc, now) by { InIsBuilt(e.args, sc, now); }
    ConstantsAreLiterals(cs, sc, now);
    if name in sc {
      if sc[name].kind.VirtualAlias? { AliasAllowed(sc, name); }
      if name == "tag" { TagIsAlias(sc); }
      if forall c <- cs :: !c.CBytes? {
        var vs := BuildValues(Consts(cs), sc, now).value;
        ValuesListed(name, sc[name], cs, vs);
        InRenders(sc, d, n, name, vs);
      } else {
        var c :| c in cs && c.CBytes?;
        assert !Listable(name, sc[name], c) by { BytesAreNotListed(name, sc[name], c); }
      }
    }
  }

  lemma InRenders(sc: Schema, d: Dialect, n: nat, name: string, vs: seq<ValueExpr>)
    requires WellFormed(sc) && name in sc
    ensures InSql(sc, d, n, FieldRef(name), vs).Ok? <==>
            if name == "tag" then forall v <- vs :: ExpectString(v).Ok?
            else sc[name].kind.Scalar? && forall v <- vs :: ScalarArg(sc[name], v).Ok?
  {
    hide ScalarArgs, TagTests, Params, ColumnExpr, ScalarArg, ExpectString, WellFormed;
    if name == "tag" {
      TagIsAlias(sc);
      TagsListed(d, n, TAGS, vs);
    } else {
      ScalarsListed(sc[name], vs);
    }
  }

  lemma InIsBuilt(args: seq<Expr>, sc: Schema, now: int)
    ensures BuildCondition(Call("@in", None, args), sc, now) == BuildIn(args, sc, now)
  {
    hide BuildIn;
  }

  lemma TagIsAlias(sc: Schema)
    requires WellFormed(sc) && "tag" in sc
    ensures ResolveAlias(sc, "tag") == Some(TAGS) && sc["tag"].kind.VirtualAlias?
  {
    assert sc["tag"].name == "tag" && FieldOk(sc["tag"]);
  }

  lemma BytesAreNotListed(name: string, f: Field, c: FilterCompile.Constant)
    requires c.CBytes?
    ensures !Listable(name, f, c)
  {}

  /** The values of a list are such that rendering takes them exactly when they may be listed. */
  lemma ValuesListed(name: string, f: Field, cs: seq<FilterCompile.Constant>, vs: seq<ValueExpr>)
    requires |vs| == |cs| && forall i | 0 <= i < |cs| :: !cs[i].CBytes? &&
                                                          vs[i] == LiteralValue(GetConstValue(Const(cs[i])).value)
    ensures name == "tag" ==> ((forall v <- vs :: ExpectString(v).Ok?) <==> forall c <- cs :: Listable(name, f, c))
    ensures name != "tag" && f.kind.Scalar? ==>
              ((forall v <- vs :: ScalarArg(f, v).Ok?) <==> forall c <- cs :: Listable(name, f, c))
  {
    hide ScalarArg, ExpectString, Listable;
    forall i | 0 <= i < |cs|
      ensures name == "tag" ==> (ExpectString(vs[i]).Ok? <==> Listable(name, f, cs[i]))
      ensures name != "tag" && f.kind.Scalar? ==> (ScalarArg(f, vs[i]).Ok? <==> Listable(name, f, cs[i]))
    {
      ValueListed(name, f, cs[i]);
    }
    assert forall i | 0 <= i < |cs| :: vs[i] in vs && cs[i] in cs;
    forall v | v in vs ensures exists i :: 0 <= i < |vs| && vs[i] == v {}
    forall c | c in cs ensures exists i :: 0 <= i < |cs| && cs[i] == c {}
  }

  lemma ValueListed(name: string, f: Field, c: FilterCompile.Constant)
    requires !c.CBytes?
    ensures var v := LiteralValue(GetConstValue(Const(c)).value);
            (name == "tag" ==> (ExpectString(v).Ok? <==> Listable(name, f, c))) &&
            (name != "tag" && f.kind.Scalar? ==> (ScalarArg(f, v).Ok? <==> Listable(name, f, c)))
  {}

  lemma TaggedCompiles(c: FilterCompile.Constant, name: string, sc: Schema, d: Dialect, n: nat, now: int)
    ensures Compiles(ExprOf(Tagged(c, name)), sc, d, n, now) <==> Accepted(Tagged(c, name), sc, d)
  {
    hide BuildValue, BuildCondition, ExactTest, ExactArg;
    var e := ExprOf(Tagged(c, name));
    InIsBuilt(e.args, sc, now);
    ConstantIsLiteral(c, sc, now);
  }

  lemma ContainingCompiles(name: string, text: string, sc: Schema, d: Dialect, n: nat, now: int)
    ensures Compiles(ExprOf(Containing(name, text)), sc, d, n, now) <==> Accepted(Containing(name, text), sc, d)
  {
    hide ColumnExpr;
  }

  lemma SomeTagCompiles(f: Filter, sc: Schema, d: Dialect, n: nat, now: int)
    requires f.SomeTag?
    ensures Compiles(ExprOf(f), sc, d, n, now) <==> Accepted(f, sc, d)
  {
    hide ExistsSql, BuildCondition, BuildPredicate;
    var e := ExprOf(f);
    ExistsRenders(sc, d, n, f.name, f.pred);
    assert BuildCondition(e, sc, now) == BuildComprehension(e, sc) by { MacroIsBuilt(e, sc, now); }
    assert BuildPredicate(e.loopStep.args[1], e.iterVar) == Ok(f.pred) by { PredicateIsBuilt(f.pred, f.iterVar); }
  }

  lemma ExistsRenders(sc: Schema, d: Dialect, n: nat, name: string, pred: TagPredicate)
    ensures ExistsSql(sc, d, n, name, pred).Ok? <==> name in sc && sc[name].kind.JsonList?
  {
    hide NullCheck, ExactTest, LikeTest, ExactArg;
  }

  lemma MacroIsBuilt(e: Expr, sc: Schema, now: int)
    requires e.Comprehension?
    ensures BuildCondition(e, sc, now) == BuildComprehension(e, sc)
  {
    hide BuildComprehension;
  }

  lemma PredicateIsBuilt(pred: TagPredicate, iterVar: string)
    ensures BuildPredicate(PredicateExpr(pred, iterVar), iterVar) == Ok(pred)
  {}

  lemma FlagCompiles(name: string, sc: Schema, d: Dialect, n: nat, now: int)
    requires WellFormed(sc)
    ensures Compiles(ExprOf(Flag(name)), sc, d, n, now) <==> Accepted(Flag(name), sc, d)
  {
    hide JsonExtract;
    if name in sc { assert FieldOk(sc[name]); }
  }

  // ----- whole filters -----

  /** A filter of the language compiles exactly when all its parts are taken: which fields may be compared in which way,
      listed, searched or tested, and for which dialect. */
  lemma {:induction false} FilterCompilesIff(f: Filter, sc: Schema, d: Dialect, n: nat, now: int)
    requires WellFormed(sc) && WellNamed(f)
    ensures Compiles(ExprOf(f), sc, d, n, now) <==> Accepted(f, sc, d)
    ensures Compiles(ExprOf(f), sc, d, n, now) <==> CompileToStatement(ExprOf(f), sc, d, n, now).Ok?
    decreases f, 1
  {
    hide BuildComparison, BuildIn, BuildContains, BuildComprehension, RenderLeaf, CombineAnd, CombineOr, Negate;
    match f {
      case Both(_, _) => JoinedCompiles(f, sc, d, n, now);
      case Either(_, _) => JoinedCompiles(f, sc, d, n, now);
      case Negated(inner) => FilterCompilesIff(inner, sc, d, n, now);
      case Always(_) =>
      case Flag(name) => FlagCompiles(name, sc, d, n, now);
      case Compared(name, fn, c) => ComparedCompiles(name, fn, c, sc, d, n, now);
      case Sized(name, fn, c) => SizedCompiles(name, fn, c, sc, d, n, now);
      case Listed(name, cs) => ListedCompiles(name, cs, sc, d, n, now);
      case Tagged(c, name) => TaggedCompiles(c, name, sc, d, n, now);
      case Containing(name, text) => ContainingCompiles(name, text, sc, d, n, now);
      case SomeTag(_, _, _, _) => SomeTagCompiles(f, sc, d, n, now);
    }
  }

  lemma {:induction false} JoinedCompiles(f: Filter, sc: Schema, d: Dialect, n: nat, now: int)
    requires WellFormed(sc) && WellNamed(f) && (f.Both? || f.Either?)
    ensures Compiles(ExprOf(f), sc, d, n, now) <==> Accepted(f.left, sc, d) && Accepted(f.right, sc, d)
    decreases f, 0
  {
    hide BuildCondition, RenderLeaf, CombineAnd, CombineOr, Negate, Accepted;
    JoinIsBuilt(if f.Both? then "_&&_" else "_||_", ExprOf(f.left), ExprOf(f.right), sc, now);
    FilterCompilesIff(f.left, sc, d, n, now);
    if Compiles(ExprOf(f.left), sc, d, n, now) {
      var l := Render(sc, d, n, BuildCondition(ExprOf(f.left), sc, now).value).value;
      FilterCompilesIff(f.right, sc, d, n + |l.1|, now);
    }
  }

  lemma JoinIsBuilt(fn: string, a: Expr, b: Expr, sc: Schema, now: int)
    requires fn == "_&&_" || fn == "_||_"
    ensures var l, r := BuildCondition(a, sc, now), BuildCondition(b, sc, now);
            var built := BuildCondition(Call(fn, None, [a, b]), sc, now);
            if l.Ok? && r.Ok? then built == Ok(Logical(if fn == "_&&_" then AndOp else OrOp, l.value, r.value))
            else built.Err?
  {
    hide BuildComparison, BuildIn, BuildContains, BuildComprehension;
  }

  /** A number alone admits every row, or if it is zero none. */
  lemma NumberAlone(i: int, sc: Schema, d: Dialect, n: nat, now: int)
    ensures CompileToStatement(Const(CInt(i)), sc, d, n, now)
            == Ok(Statement(if i == 0 then Some(Sql.Falsum) else None, []))
  {}
}
