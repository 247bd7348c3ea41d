/** What rendered conditions mean on a row, independently of the dialect. */
module FilterMeaning {
  import opened Options
  import opened FilterSchema
  import opened TagText
  import opened Sql
  import opened FilterRender
  import opened FilterArgs

  /** The columns behind a field hold values of its kind. */
  ghost predicate FieldFits(row: Row, f: Field) {
    match f.kind
    case Scalar =>
      var v := row.Read(f.column);
      v.NullV? || (match f.ftype case StringType => v.StrV? case IntType => v.IntV? case TimestampType => v.StampV?
                   case BoolType => false)
    case BoolColumn => row.Read(f.column).NullV? || row.Read(f.column).BoolV?
    case JsonBool => var j := row.ReadJson(f.column, f.jsonPath); j.None? || j.value.JBool?
    case JsonList => var j := row.ReadJson(f.column, f.jsonPath); j.None? || (j.value.JList? && AllPlain(j.value.tags))
    case VirtualAlias => true
  }

  ghost predicate RowFits(sc: Schema, row: Row) { forall n <- sc :: FieldFits(row, sc[n]) }

  // ----- the reference -----

  /** How a database reads rows: it folds case in whole tags by `exact` and in parts of tags by `part`, and when
      `absentIsFalse` it compares an absent flag as false. */
  datatype Reading = Reading(exact: char -> char, part: char -> char, absentIsFalse: bool)

  function Same(c: char): char { c }

  function ReadingOf(db: Database): Reading {
    Reading(if db.d.SQLite? then db.fold else Same, db.fold, db.d.SQLite?)
  }

  /** SQLite compares `has_task_list` with a number, and the other flags by a test that is never NULL. */
  predicate FlagKnown(fs: Reading, row: Row, f: Field) {
    row.ReadJson(f.column, f.jsonPath).Some? || (fs.absentIsFalse && f.name != "has_task_list")
  }

  /** A scalar column as the number or text it stands for. */
  function ScalarValue(row: Row, f: Field): Value {
    match row.Read(f.column) case StampV(e) => IntV(e) case v => v
  }

  ghost predicate HasTag(fs: Reading, tags: seq<string>, s: string) { Fold(fs.exact, s) in FoldAll(fs.exact, tags) }

  ghost predicate HasBelow(fs: Reading, tags: seq<string>, s: string) {
    SomeExtends(Fold(fs.part, s + "/"), FoldAll(fs.part, tags))
  }

  ghost function RefScalar(row: Row, f: Field, op: CompareOp, lit: Literal): Truth {
    match lit
    case LNull => if op.Eq? then Of(ScalarValue(row, f).NullV?) else Of(!ScalarValue(row, f).NullV?)
    case LString(s) => CompareValues(op, ScalarValue(row, f), StrV(s))
    case LInt(i) => CompareValues(op, ScalarValue(row, f), IntV(i))
    case LBool(b) => Unknown
  }

  ghost function RefJsonBool(fs: Reading, row: Row, f: Field, op: CompareOp, b: bool): Truth {
    match row.ReadJson(f.column, f.jsonPath)
    case Some(JBool(x)) => Of(CompareBools(op, x, b))
    case _ => if FlagKnown(fs, row, f) then Of(CompareBools(op, false, b)) else Unknown
  }

  ghost function RefTags(row: Row, f: Field): Option<seq<string>> {
    match row.ReadJson(f.column, f.jsonPath) case Some(JList(tags)) => Some(tags) case _ => None
  }

  ghost function RefComparison(sc: Schema, fs: Reading, row: Row, left: ValueExpr, op: CompareOp, right: Literal)
    : Truth
  {
    match left
    case FieldRef(name) =>
      (match Lookup(sc, name)
       case None => Unknown
       case Some(f) =>
         match f.kind
         case BoolColumn => (match right case LBool(b) => CompareValues(op, row.Read(f.column), BoolV(b))
                             case _ => Unknown)
         case JsonBool => (match right case LBool(b) => RefJsonBool(fs, row, f, op, b) case _ => Unknown)
         case _ => RefScalar(row, f, op, right))
    case FunctionValue(_, args) =>
      if |args| == 1 && args[0].FieldRef? && args[0].name in sc && right.LInt? then
        var tags := RefTags(row, sc[args[0].name]);
        Of(CompareInts(op, if tags.None? then 0 else |tags.value|, right.i))
      else Unknown
    case LiteralValue(_) => Unknown
  }

  /** `tag in [...]`: some listed text is a tag or has a tag below it. */
  ghost function RefTagIn(fs: Reading, tags: Option<seq<string>>, values: seq<ValueExpr>): Truth {
    if values == [] then False
    else
      (match (tags, values[0])
       case (Some(ts), LiteralValue(LString(s))) => Of(HasTag(fs, ts, s) || HasBelow(fs, ts, s))
       case _ => Unknown).Or(RefTagIn(fs, tags, values[1..]))
  }

  ghost function RefIn(v: Value, vs: seq<Value>): Truth {
    if vs == [] then False else if v.NullV? then Unknown else Of(v in vs)
  }

  ghost function RefExists(fs: Reading, tags: Option<seq<string>>, pred: TagPredicate): Truth {
    match tags
    case None => False
    case Some(ts) =>
      var all := FoldAll(fs.part, ts);
      match pred
      case StartsWith(s) => Of(SomeExtends(Fold(fs.part, s), all))
      case EndsWith(s) => Of(SomeEndsIn(Fold(fs.part, s), all))
      case Contains(s) => Of(SomeOccurs(Fold(fs.part, s), all))
  }

  /** The dialect-free meaning of a leaf condition. */
  ghost function RefLeaf(sc: Schema, row: Row, fs: Reading, foldedLike: (string, string) -> bool, cond: Condition)
    : Truth
    requires IsLeaf(cond)
  {
    match cond
    case FieldPredicate(field) =>
      (match Lookup(sc, field)
       case None => Unknown
       case Some(f) =>
         if f.kind.BoolColumn? then Of(row.Read(f.column) == BoolV(true))
         else Of(row.ReadJson(f.column, f.jsonPath) == Some(JBool(true))))
    case Comparison(left, op, right) =>
      if right.LiteralValue? then RefComparison(sc, fs, row, left, op, right.lit) else Unknown
    case InCond(target, values) =>
      if target == FieldRef("tag") then
        (match ResolveAlias(sc, "tag") case None => Unknown case Some(f) => RefTagIn(fs, RefTags(row, f), values))
      else if !target.FieldRef? then Unknown
      else (match Lookup(sc, target.name)
            case None => Unknown
            case Some(f) => match ScalarArgs(f, values)
              case Err(_) => Unknown
              case Ok(vs) => RefIn(ScalarValue(row, f), vs))
    case ElementIn(element, field) =>
      (match (Lookup(sc, field), element)
       case (Some(f), LiteralValue(LString(s))) =>
         (match RefTags(row, f) case None => Unknown case Some(ts) => Of(HasTag(fs, ts, s)))
       case _ => Unknown)
    case ContainsCond(field, text) =>
      (match Lookup(sc, field)
       case None => Unknown
       case Some(f) => match ScalarValue(row, f) case StrV(x) => Of(foldedLike(x, "%" + text + "%")) case _ => Unknown)
    case Exists(field, pred) =>
      (match Lookup(sc, field) case None => Unknown case Some(f) => RefExists(fs, RefTags(row, f), pred))
  }

  ghost function Ref(sc: Schema, row: Row, fs: Reading, foldedLike: (string, string) -> bool, cond: Condition): Truth {
    match cond
    case Logical(op, left, right) =>
      var l, r := Ref(sc, row, fs, foldedLike, left), Ref(sc, row, fs, foldedLike, right);
      if op.AndOp? then l.And(r) else l.Or(r)
    case NotCond(expr) => Ref(sc, row, fs, foldedLike, expr).Not()
    case Constant(value) => Of(value)
    case _ => RefLeaf(sc, row, fs, foldedLike, cond)
  }

  // ----- what the tag tests ask of their search text -----

  predicate PlainSearch(s: string) { Plain(s) && NoWildcard(s) }

  ghost predicate TagTextOk(d: Dialect, s: string) { PlainSearch(s) && (d.SQLite? ==> ExactOk(s, ArraySeparator(d))) }

  ghost predicate LeafTagsOk(d: Dialect, cond: Condition) {
    match cond
    case InCond(target, values) =>
      target == FieldRef("tag") ==> forall v <- values :: v.LiteralValue? && v.lit.LString? ==> TagTextOk(d, v.lit.s)
    case ElementIn(element, _) => element.LiteralValue? && element.lit.LString? ==> TagTextOk(d, element.lit.s)
    case Exists(_, pred) =>
      PlainSearch(pred.s) &&
      (match pred
       case StartsWith(s) => PrefixOk(s, ArraySeparator(d))
       case EndsWith(s) => SuffixOk(s, ArraySeparator(d))
       case Contains(s) => InnerOk(s, ArraySeparator(d)))
    case _ => true
  }

  /** The search texts of all tag tests are ones LIKE finds exactly. */
  ghost predicate SearchesOk(d: Dialect, cond: Condition) {
    match cond
    case Logical(_, left, right) => SearchesOk(d, left) && SearchesOk(d, right)
    case NotCond(expr) => SearchesOk(d, expr)
    case _ => LeafTagsOk(d, cond)
  }

  // ----- leaf by leaf -----

  ghost predicate DatabaseOk(sc: Schema, db: Database) {
    WellFormed(sc) && RowFits(sc, db.row) && Folding(db.fold)
  }

  lemma ScalarColumn(db: Database, f: Field)
    requires FieldFits(db.row, f) && FieldOk(f) && f.kind.Scalar?
    ensures EvalTerm(db, ColumnExpr(db.d, f)) == ScalarValue(db.row, f)
    ensures !ScalarValue(db.row, f).JsonV?
  {}

  lemma ScalarMeans(db: Database, n: nat, f: Field, op: CompareOp, right: ValueExpr)
    requires FieldFits(db.row, f) && FieldOk(f) && f.kind.Scalar? && ScalarComparison(db.d, n, f, op, right).Ok?
    ensures right.LiteralValue?
    ensures Meaning(db, ScalarComparison(db.d, n, f, op, right).value.0) == RefScalar(db.row, f, op, right.lit)
  {
    hide ColumnExpr;
    ScalarColumn(db, f);
  }

  lemma BoolColumnMeans(db: Database, n: nat, f: Field, op: CompareOp, right: ValueExpr)
    requires FieldFits(db.row, f) && f.kind.BoolColumn? && BoolColumnComparison(db.d, n, f, op, right).Ok?
    ensures right.LiteralValue? && right.lit.LBool?
    ensures Meaning(db, BoolColumnComparison(db.d, n, f, op, right).value.0)
            == CompareValues(op, db.row.Read(f.column), BoolV(right.lit.b))
  {
    var v := db.row.Read(f.column);
    var arg := BoolArg(db.d, right.lit.b);
    assert BoolColumnComparison(db.d, n, f, op, right).value.0.sql
           == Compare(ColumnT(f.column), op, Param(Emit(db.d, n + 1, arg)));
    assert EvalTerm(db, ColumnT(f.column)) == Stored(db.d, v);
    assert EvalTerm(db, Param(Emit(db.d, n + 1, arg))) == Stored(db.d, arg);
    if v.BoolV? && !db.d.Postgres? {
      assert Stored(db.d, v) == IntV(if v.b then 1 else 0) && Stored(db.d, arg) == IntV(if right.lit.b then 1 else 0);
    }
  }

  lemma JsonBoolMeans(db: Database, n: nat, f: Field, op: CompareOp, right: ValueExpr)
    requires FieldFits(db.row, f) && f.kind.JsonBool? && JsonBoolComparison(db.d, n, f, op, right).Ok?
    ensures right.LiteralValue? && right.lit.LBool?
    ensures Meaning(db, JsonBoolComparison(db.d, n, f, op, right).value.0)
            == RefJsonBool(ReadingOf(db), db.row, f, op, right.lit.b)
  {
    hide JsonExtract, EvalTerm;
    var t, stored := JsonExtract(db.d, f), db.row.ReadJson(f.column, f.jsonPath);
    if stored.Some? { ExtractedFlag(db, f, stored.value.b); } else { ExtractedNothing(db, f); }
    var x := stored.Some? && stored.value.b;
    match db.d {
      case SQLite => assert Eval(db, IsTrue(t)) == Of(x) && Eval(db, Not(IsTrue(t))) == Of(!x);
      case MySQL =>
      case Postgres =>
    }
  }

  lemma ExtractedNothing(db: Database, f: Field)
    requires db.row.ReadJson(f.column, f.jsonPath).None?
    ensures EvalTerm(db, JsonExtract(db.d, f)).NullV? && EvalTerm(db, CastBoolean(JsonExtract(db.d, f))).NullV?
  {}

  /** What a stored flag is read as. */
  lemma ExtractedFlag(db: Database, f: Field, x: bool)
    requires db.row.ReadJson(f.column, f.jsonPath) == Some(JBool(x))
    ensures db.d.SQLite? ==> EvalTerm(db, JsonExtract(db.d, f)) == IntV(if x then 1 else 0)
    ensures db.d.MySQL? ==> EvalTerm(db, JsonExtract(db.d, f)) == JsonV(JBool(x))
    ensures db.d.Postgres? ==> EvalTerm(db, CastBoolean(JsonExtract(db.d, f))) == BoolV(x)
    ensures forall b :: EvalTerm(db, IntLit(b)) == IntV(b)
    ensures forall b :: EvalTerm(db, JsonBoolLit(b)) == JsonV(JBool(b))
    ensures forall slot :: EvalTerm(db, Param(slot)) == Stored(db.d, slot.v)
  {
    assert "true" != "false";
  }

  lemma FieldPredicateMeans(db: Database, f: Field)
    requires FieldFits(db.row, f) && FieldPredicateSql(db.d, f).Ok?
    ensures Eval(db, FieldPredicateSql(db.d, f).value.0.sql) ==
            if f.kind.BoolColumn? then Of(db.row.Read(f.column) == BoolV(true))
            else Of(db.row.ReadJson(f.column, f.jsonPath) == Some(JBool(true)))
  {
    var t := JsonExtract(db.d, f);
    assert EvalTerm(db, ColumnT(f.column)) == Stored(db.d, db.row.Read(f.column));
    match db.d {
      case SQLite =>
      case MySQL =>
        assert EvalTerm(db, OrJsonFalse(t)) == if EvalTerm(db, t).NullV? then JsonV(JBool(false)) else EvalTerm(db, t);
      case Postgres =>
        assert EvalTerm(db, CastBoolean(t)) ==
               (match EvalTerm(db, t)
                case StrV(x) => (if x == "true" then BoolV(true) else if x == "false" then BoolV(false) else NullV)
                case _ => NullV);
        assert "true" != "false";
    }
  }

  lemma ArrayTerm(db: Database, f: Field)
    requires FieldFits(db.row, f) && f.kind.JsonList?
    ensures EvalTerm(db, JsonArray(f)) == (match RefTags(db.row, f) case None => NullV
                                           case Some(tags) => JsonV(JList(tags)))
    ensures RefTags(db.row, f).Some? ==> AllPlain(RefTags(db.row, f).value)
  {}

  lemma SizeMeans(sc: Schema, db: Database, n: nat, args: seq<ValueExpr>, op: CompareOp, right: ValueExpr)
    requires RowFits(sc, db.row) && SizeComparison(sc, db.d, n, args, op, right).Ok?
    ensures right.LiteralValue?
    ensures Meaning(db, SizeComparison(sc, db.d, n, args, op, right).value.0)
            == RefComparison(sc, ReadingOf(db), db.row, FunctionValue("size", args), op, right.lit)
  {
    hide JsonArray;
    var a := JsonArray(sc[args[0].name]);
    ArrayTerm(db, sc[args[0].name]);
    assert EvalTerm(db, OrEmptyArray(a)) == if EvalTerm(db, a).NullV? then JsonV(JList([])) else EvalTerm(db, a);
    assert EvalTerm(db, ArrayLength(OrEmptyArray(a))).IntV?;
  }

  // ----- tag tests -----

  lemma SeparatorOk(d: Dialect)
    ensures Separator(ArraySeparator(d))
  {}

  /** LIKE on the array as text, with everything folded. */
  lemma LikeOnTags(db: Database, f: Field, slot: Slot, a: string, s: string, b: string)
    requires FieldFits(db.row, f) && f.kind.JsonList? && Folding(db.fold) && slot.v == StrV(a + s + b)
    requires (forall i | 0 <= i < |a| :: Structural(a[i])) && (forall i | 0 <= i < |b| :: Structural(b[i]))
    ensures Eval(db, LikeTest(db.d, f, slot)) ==
            match RefTags(db.row, f)
            case None => Unknown
            case Some(ts) => Of(TagText.Like(a + Fold(db.fold, s) + b,
                                             ArrayText(FoldAll(db.fold, ts), ArraySeparator(db.d))))
    ensures RefTags(db.row, f).Some? ==> AllPlain(FoldAll(db.fold, RefTags(db.row, f).value))
  {
    hide JsonArray, Fold, FoldAll, ArrayText, TagText.Like;
    SeparatorOk(db.d);
    FoldAround(db.fold, a, s, b);
    LikeOnText(db, f, slot);
    if RefTags(db.row, f).Some? {
      ArrayTerm(db, f);
      FoldArrayText(db.fold, RefTags(db.row, f).value, ArraySeparator(db.d));
    }
  }

  lemma LikeOnText(db: Database, f: Field, slot: Slot)
    requires FieldFits(db.row, f) && f.kind.JsonList? && slot.v.StrV?
    ensures Eval(db, LikeTest(db.d, f, slot)) ==
            match RefTags(db.row, f)
            case None => Unknown
            case Some(ts) => Of(TagText.Like(Fold(db.fold, slot.v.s),
                                             Fold(db.fold, ArrayText(ts, ArraySeparator(db.d)))))
  {
    hide JsonArray, Fold, ArrayText, TagText.Like;
    ArrayTerm(db, f);
    var a := JsonArray(f);
    assert EvalTerm(db, CastText(a)) == AsText(db.d, EvalTerm(db, a));
    assert EvalTerm(db, Param(slot)) == slot.v;
  }

  lemma SearchFolds(db: Database, s: string)
    requires Folding(db.fold) && PlainSearch(s)
    ensures Plain(Fold(db.fold, s)) && NoWildcard(Fold(db.fold, s)) && Quoteless(Fold(db.fold, s))
  {
    FoldKeepsPlain(db.fold, s);
    EscapePlain(Fold(db.fold, s));
  }

  lemma SameIsIdentity(tags: seq<string>, s: string)
    ensures Fold(Same, s) == s && FoldAll(Same, tags) == tags
  {
    FoldSame(Same, s);
    forall i | 0 <= i < |tags| ensures Fold(Same, tags[i]) == tags[i] { FoldSame(Same, tags[i]); }
  }

  lemma ExactMeans(db: Database, f: Field, slot: Slot, s: string)
    requires FieldFits(db.row, f) && f.kind.JsonList? && Folding(db.fold) && TagTextOk(db.d, s)
    requires slot.v == ExactArg(db.d, s)
    ensures Eval(db, ExactTest(db.d, f, slot)) ==
            match RefTags(db.row, f) case None => Unknown case Some(ts) => Of(HasTag(ReadingOf(db), ts, s))
  {
    hide JsonArray, Fold, FoldAll, ArrayText, TagText.Like, ExactOk;
    ArrayTerm(db, f);
    SeparatorOk(db.d);
    if db.d.SQLite? {
      assert "%\"" + s + "\"%" == "%\"" + s + "\"%";
      LikeOnTags(db, f, slot, "%\"", s, "\"%");
      assert ArrayAsText(db.d, f) == JsonArray(f);
      SearchFolds(db, s);
      FoldKeepsOk(db.fold, s, ArraySeparator(db.d));
      if RefTags(db.row, f).Some? {
        LikeExact(Fold(db.fold, s), FoldAll(db.fold, RefTags(db.row, f).value), ArraySeparator(db.d));
      }
    } else {
      QuotedParses(s);
      if RefTags(db.row, f).Some? { SameIsIdentity(RefTags(db.row, f).value, s); }
    }
  }

  lemma QuotedParses(s: string)
    requires Plain(s)
    ensures ParseString("\"" + s + "\"") == Some(s)
  {
    var q := "\"" + s + "\"";
    assert q[1..|q| - 1] == s;
  }

  lemma BelowMeans(db: Database, f: Field, slot: Slot, s: string)
    requires FieldFits(db.row, f) && f.kind.JsonList? && Folding(db.fold) && PlainSearch(s)
    requires slot.v == BelowArg(s)
    ensures Eval(db, LikeTest(db.d, f, slot)) ==
            match RefTags(db.row, f) case None => Unknown case Some(ts) => Of(HasBelow(ReadingOf(db), ts, s))
  {
    hide JsonArray, Fold, FoldAll, ArrayText, TagText.Like, LikeTest;
    LikeOnTags(db, f, slot, "%\"", s, "/%");
    SeparatorOk(db.d);
    SearchFolds(db, s);
    FoldAround(db.fold, "", s, "/");
    assert "" + s + "/" == s + "/" && "" + Fold(db.fold, s) + "/" == Fold(db.fold, s) + "/";
    if RefTags(db.row, f).Some? {
      LikeBelow(Fold(db.fold, s), FoldAll(db.fold, RefTags(db.row, f).value), ArraySeparator(db.d));
    }
  }

  lemma TagTestMeans(db: Database, n: nat, f: Field, s: string)
    requires FieldFits(db.row, f) && f.kind.JsonList? && Folding(db.fold) && TagTextOk(db.d, s)
    ensures Eval(db, TagTest(db.d, n, f, s)) ==
            match RefTags(db.row, f)
            case None => Unknown
            case Some(ts) => Of(HasTag(ReadingOf(db), ts, s) || HasBelow(ReadingOf(db), ts, s))
  {
    hide JsonArray, Fold, FoldAll, ArrayText, TagText.Like, ExactOk, LikeTest, ExactTest, HasTag, HasBelow;
    ExactMeans(db, f, Emit(db.d, n + 1, ExactArg(db.d, s)), s);
    BelowMeans(db, f, Emit(db.d, n + 2, BelowArg(s)), s);
  }

  lemma {:induction false} TagTestsMean(db: Database, n: nat, f: Field, values: seq<ValueExpr>)
    requires FieldFits(db.row, f) && f.kind.JsonList? && Folding(db.fold) && TagTests(db.d, n, f, values).Ok?
    requires forall v <- values :: v.LiteralValue? && v.lit.LString? ==> TagTextOk(db.d, v.lit.s)
    ensures EvalAny(db, TagTests(db.d, n, f, values).value.0) == RefTagIn(ReadingOf(db), RefTags(db.row, f), values)
    decreases |values|
  {
    hide TagTest, HasTag, HasBelow, TagTextOk, FieldFits, RefTags, ReadingOf, ExactArg, BelowArg;
    if values != [] {
      assert values[0] in values && forall v <- values[1..] :: v in values;
      TagTestMeans(db, n, f, values[0].lit.s);
      TagTestsMean(db, n + 2, f, values[1..]);
    }
  }

  lemma NullCheckMeans(db: Database, f: Field, s: Sql, t: Truth)
    requires FieldFits(db.row, f) && f.kind.JsonList?
    requires RefTags(db.row, f).Some? && RefTags(db.row, f).value != [] ==> Eval(db, s) == t
    ensures Eval(db, NullCheck(db.d, f, s)) ==
            match RefTags(db.row, f) case None => False case Some(ts) => if ts == [] then False else t
  {
    hide JsonArray, ArrayText, Truth.And;
    var a := JsonArray(f);
    var ts := RefTags(db.row, f);
    var nonEmpty := if db.d.SQLite? then Compare(a, Neq, TextLit("[]")) else Compare(ArrayLength(a), Gt, IntLit(0));
    NonEmptyMeans(db, f);
    assert Eval(db, And(s, IsNotNull(a))) == Eval(db, s).And(Of(ts.Some?));
    assert Eval(db, NullCheck(db.d, f, s)) == Eval(db, s).And(Of(ts.Some?)).And(Eval(db, nonEmpty));
    AndTable(Eval(db, s), Eval(db, nonEmpty));
  }

  lemma AndTable(t: Truth, u: Truth)
    ensures t.And(True) == t && t.And(False) == False && False.And(u) == False
  {}

  lemma NonEmptyMeans(db: Database, f: Field)
    requires FieldFits(db.row, f) && f.kind.JsonList?
    ensures var a, ts := JsonArray(f), RefTags(db.row, f);
            Eval(db, IsNotNull(a)) == Of(ts.Some?) &&
            (ts.Some? ==>
               Eval(db, if db.d.SQLite? then Compare(a, Neq, TextLit("[]")) else Compare(ArrayLength(a), Gt, IntLit(0)))
               == Of(ts.value != []))
  {
    hide JsonArray, ArrayText;
    ArrayTerm(db, f);
    var a, ts := JsonArray(f), RefTags(db.row, f);
    if ts.Some? {
      EmptyArrayText(ts.value, ArraySeparator(db.d));
      assert EvalTerm(db, ArrayLength(a)) == IntV(|ts.value|);
    }
  }

  lemma EmptyArrayText(tags: seq<string>, sep: string)
    ensures ArrayText(tags, sep) == "[]" <==> tags == []
  {
    if tags == [] {
      assert ArrayText(tags, sep) == "[" + "" + "]";
    } else {
      assert |Elements(tags, sep)| >= 2;
      assert |ArrayText(tags, sep)| >= 4;
    }
  }

  ghost predicate PredOk(d: Dialect, pred: TagPredicate) {
    PlainSearch(pred.s) &&
    (match pred
     case StartsWith(s) => PrefixOk(s, ArraySeparator(d))
     case EndsWith(s) => SuffixOk(s, ArraySeparator(d))
     case Contains(s) => InnerOk(s, ArraySeparator(d)))
  }

  lemma PartMeans(db: Database, f: Field, slot: Slot, pred: TagPredicate)
    requires FieldFits(db.row, f) && f.kind.JsonList? && Folding(db.fold) && PredOk(db.d, pred)
    requires slot.v == StrV(match pred case StartsWith(s) => "%\"" + s + "%" case EndsWith(s) => "%" + s + "\"%"
                            case Contains(s) => "%" + s + "%")
    requires RefTags(db.row, f).Some? && RefTags(db.row, f).value != []
    ensures Eval(db, LikeTest(db.d, f, slot)) == RefExists(ReadingOf(db), RefTags(db.row, f), pred)
  {
    hide JsonArray, Fold, FoldAll, ArrayText, TagText.Like, LikeTest, PrefixOk, SuffixOk, InnerOk, SomeExtends,
         SomeEndsIn, SomeOccurs;
    var sep := ArraySeparator(db.d);
    SeparatorOk(db.d);
    SearchFolds(db, pred.s);
    FoldKeepsOk(db.fold, pred.s, sep);
    var s', all := Fold(db.fold, pred.s), FoldAll(db.fold, RefTags(db.row, f).value);
    assert all != [] by { FoldAllLength(db.fold, RefTags(db.row, f).value); }
    match pred {
      case StartsWith(s) =>
        LikeOnTags(db, f, slot, "%\"", s, "%");
        LikePrefixed(s', all, sep);
      case EndsWith(s) =>
        LikeOnTags(db, f, slot, "%", s, "\"%");
        LikeSuffixed(s', all, sep);
      case Contains(s) =>
        LikeOnTags(db, f, slot, "%", s, "%");
        LikeInner(s', all, sep);
    }
  }

  lemma FoldAllLength(f: char -> char, tags: seq<string>)
    ensures |FoldAll(f, tags)| == |tags|
  {}

  /** The whole-tag half of a startsWith test adds nothing to the prefix half. */
  lemma ExactHalfIsIncluded(db: Database, f: Field, n: nat, s: string, test: Sql)
    requires FieldFits(db.row, f) && f.kind.JsonList? && Folding(db.fold) && PlainSearch(s)
    requires RefTags(db.row, f).Some?
    requires test == if db.d.Postgres? then ExactTest(db.d, f, Emit(db.d, n, ExactArg(db.d, s)))
                     else LikeTest(db.d, f, Emit(db.d, n, StrV("%\"" + s + "\"%")))
    ensures Eval(db, test) == False || Eval(db, test) == True
    ensures Eval(db, test) == True ==> SomeExtends(Fold(db.fold, s), FoldAll(db.fold, RefTags(db.row, f).value)) ||
                                       s == ArraySeparator(db.d)
  {
    hide JsonArray, FoldAll, ArrayText, TagText.Like, LikeTest, ExactTest;
    var tags := RefTags(db.row, f).value;
    SeparatorOk(db.d);
    if db.d.Postgres? {
      ExactMeans(db, f, Emit(db.d, n, ExactArg(db.d, s)), s);
      SameIsIdentity(tags, s);
      if s in tags { FoldAllHas(db.fold, tags, s); }
    } else {
      LikeOnTags(db, f, Emit(db.d, n, StrV("%\"" + s + "\"%")), "%\"", s, "\"%");
      SearchFolds(db, s);
      FoldKeepsOk(db.fold, s, ArraySeparator(db.d));
      if ExactOk(s, ArraySeparator(db.d)) {
        LikeExact(Fold(db.fold, s), FoldAll(db.fold, tags), ArraySeparator(db.d));
      }
    }
  }

  lemma FoldAllHas(f: char -> char, tags: seq<string>, s: string)
    requires s in tags
    ensures Fold(f, s) in FoldAll(f, tags)
  {
    var i :| 0 <= i < |tags| && tags[i] == s;
    assert FoldAll(f, tags)[i] == Fold(f, s);
  }

  lemma ExistsMeans(sc: Schema, db: Database, n: nat, field: string, pred: TagPredicate)
    requires DatabaseOk(sc, db) && ExistsSql(sc, db.d, n, field, pred).Ok? && PredOk(db.d, pred)
    ensures field in sc
    ensures Eval(db, ExistsSql(sc, db.d, n, field, pred).value.0.sql)
            == RefExists(ReadingOf(db), RefTags(db.row, sc[field]), pred)
  {
    hide JsonArray, Fold, FoldAll, ArrayText, TagText.Like, LikeTest, ExactTest, ExactArg, PredOk, NullCheck, Folding,
         RefTags, FieldFits, SomeExtends, WellFormed;
    var f := sc[field];
    var ts := RefTags(db.row, f);
    var ref := RefExists(ReadingOf(db), ts, pred);
    var slot := Emit(db.d, n + 1, StrV(match pred
                                       case StartsWith(s) => "%\"" + s + "%"
                                       case EndsWith(s) => "%" + s + "\"%"
                                       case Contains(s) => "%" + s + "%"));
    NoTagsNoneExists(db.fold, pred);
    match pred {
      case StartsWith(s) =>
        var first := if db.d.Postgres? then ExactArg(db.d, s) else StrV("%\"" + s + "\"%");
        var one := Emit(db.d, n + 1, first);
        var test := if db.d.Postgres? then ExactTest(db.d, f, one) else LikeTest(db.d, f, one);
        var like := LikeTest(db.d, f, Emit(db.d, n + 2, slot.v));
        assert ExistsSql(sc, db.d, n, field, pred).value.0.sql == NullCheck(db.d, f, Or(test, like));
        if ts.Some? && ts.value != [] {
          PartMeans(db, f, Emit(db.d, n + 2, slot.v), pred);
          PrefixSearch(db.d, s);
          ExactHalfIsIncluded(db, f, n + 1, s, test);
        }
        NullCheckMeans(db, f, Or(test, like), ref);
      case _ =>
        if ts.Some? && ts.value != [] { PartMeans(db, f, slot, pred); }
        NullCheckMeans(db, f, LikeTest(db.d, f, slot), ref);
    }
  }

  lemma PrefixSearch(d: Dialect, s: string)
    requires PredOk(d, StartsWith(s))
    ensures PlainSearch(s) && s != ArraySeparator(d)
  {}

  lemma NoTagsNoneExists(f: char -> char, pred: TagPredicate)
    ensures forall fs: Reading | fs.part == f :: RefExists(fs, Some([]), pred) == False
  {
    assert FoldAll(f, []) == [];
  }

  lemma {:induction false} InMeans(db: Database, n: nat, v: Value, vs: seq<Value>)
    requires !v.JsonV?
    requires forall x <- vs ::
               (x.StrV? || x.IntV?) && (v.NullV? || (v.StrV? && x.StrV?) || (v.IntV? && x.IntV?))
    ensures EvalIn(db, v, Params(db.d, n, vs)) == RefIn(v, vs)
    decreases |vs|
  {
    if vs != [] {
      InMeans(db, n + 1, v, vs[1..]);
      assert vs == [vs[0]] + vs[1..];
      assert EvalTerm(db, Param(Emit(db.d, n + 1, vs[0]))) == vs[0];
      assert Params(db.d, n, vs)[1..] == Params(db.d, n + 1, vs[1..]);
      assert v in vs <==> v == vs[0] || v in vs[1..];
    }
  }

  lemma {:induction false} ScalarArgsFit(f: Field, values: seq<ValueExpr>)
    requires ScalarArgs(f, values).Ok?
    ensures forall x <- ScalarArgs(f, values).value ::
              (f.ftype.StringType? && x.StrV?) || (f.ftype.IntType? && x.IntV?)
    decreases |values|
  {
    if values != [] { ScalarArgsFit(f, values[1..]); }
  }

  lemma InCondMeans(sc: Schema, db: Database, n: nat, target: ValueExpr, values: seq<ValueExpr>)
    requires DatabaseOk(sc, db) && InSql(sc, db.d, n, target, values).Ok? && LeafTagsOk(db.d, InCond(target, values))
    ensures Eval(db, InSql(sc, db.d, n, target, values).value.0.sql)
            == RefLeaf(sc, db.row, ReadingOf(db), db.foldedLike, InCond(target, values))
  {
    hide TagTests, RefTagIn, ScalarArgs, Params, EvalIn, RefIn, RefTags, TagTextOk, ColumnExpr, ScalarValue, ReadingOf;
    if target.name == "tag" {
      var f := ResolveAlias(sc, "tag").value;
      assert f == TAGS;
      TagTestsMean(db, n, f, values);
      var tests := TagTests(db.d, n, f, values).value.0;
      if |tests| == 1 { SingleTest(db, tests); }
    } else {
      var f := sc[target.name];
      var vs := ScalarArgs(f, values).value;
      ScalarColumn(db, f);
      ScalarArgsFit(f, values);
      ScalarKind(db, f);
      InMeans(db, n, ScalarValue(db.row, f), vs);
    }
  }

  lemma ScalarKind(db: Database, f: Field)
    requires FieldFits(db.row, f) && f.kind.Scalar?
    ensures var v := ScalarValue(db.row, f);
            v.NullV? || (if f.ftype.StringType? then v.StrV? else v.IntV?)
  {}

  lemma SingleTest(db: Database, tests: seq<Sql>)
    requires |tests| == 1
    ensures EvalAny(db, tests) == Eval(db, tests[0])
  {
    assert EvalAny(db, tests[1..]) == False;
  }

  lemma ComparisonMeans(sc: Schema, db: Database, n: nat, left: ValueExpr, op: CompareOp, right: ValueExpr)
    requires DatabaseOk(sc, db) && ComparisonSql(sc, db.d, n, left, op, right).Ok?
    ensures right.LiteralValue?
    ensures Meaning(db, ComparisonSql(sc, db.d, n, left, op, right).value.0)
            == RefComparison(sc, ReadingOf(db), db.row, left, op, right.lit)
  {
    hide ScalarComparison, BoolColumnComparison, JsonBoolComparison, SizeComparison, RefScalar, RefJsonBool,
         CompareValues, RefTags, CompareInts, Row.Read;
    if left.FieldRef? {
      var f := sc[left.name];
      match f.kind {
        case BoolColumn => BoolColumnMeans(db, n, f, op, right);
        case JsonBool => JsonBoolMeans(db, n, f, op, right);
        case _ => ScalarMeans(db, n, f, op, right);
      }
    } else {
      SizeMeans(sc, db, n, left.args, op, right);
    }
  }

  /** Only text columns are searched with contains(); `buildContainsCondition` makes no other conditions. */
  predicate LeafSearchesText(sc: Schema, cond: Condition) {
    cond.ContainsCond? && cond.field in sc ==> sc[cond.field].supportsContains
  }

  lemma ContainsMeans(sc: Schema, db: Database, n: nat, field: string, text: string)
    requires DatabaseOk(sc, db) && ContainsSql(sc, db.d, n, field, text).Ok?
    requires LeafSearchesText(sc, ContainsCond(field, text))
    ensures Eval(db, ContainsSql(sc, db.d, n, field, text).value.0.sql)
            == RefLeaf(sc, db.row, ReadingOf(db), db.foldedLike, ContainsCond(field, text))
  {
    hide ColumnExpr;
    ScalarColumn(db, sc[field]);
  }

  /** A rendered leaf means what the dialect-free reference says. */
  lemma LeafMeans(sc: Schema, db: Database, n: nat, cond: Condition)
    requires DatabaseOk(sc, db) && IsLeaf(cond) && RenderLeaf(sc, db.d, n, cond).Ok?
    requires LeafTagsOk(db.d, cond) && LeafSearchesText(sc, cond)
    ensures RenderLeaf(sc, db.d, n, cond).value.0.Fragment?
    ensures Eval(db, RenderLeaf(sc, db.d, n, cond).value.0.sql)
            == RefLeaf(sc, db.row, ReadingOf(db), db.foldedLike, cond)
  {
    hide ComparisonSql, InSql, ElementInSql, ExistsSql, ContainsSql, FieldPredicateSql, RefComparison, RefTagIn, RefIn,
         RefExists, HasTag, ReadingOf, Folding, ScalarValue, ScalarArgs, Slots;
    LeafIsNumbered(sc, db.d, n, cond);
    match cond {
      case FieldPredicate(field) => FieldPredicateMeans(db, sc[field]);
      case Comparison(left, op, right) => ComparisonMeans(sc, db, n, left, op, right);
      case InCond(target, values) => InCondMeans(sc, db, n, target, values);
      case ElementIn(element, field) => ElementInMeans(sc, db, n, element, field);
      case ContainsCond(field, text) => ContainsMeans(sc, db, n, field, text);
      case Exists(field, pred) => ExistsMeans(sc, db, n, field, pred);
    }
  }

  lemma ElementInMeans(sc: Schema, db: Database, n: nat, element: ValueExpr, field: string)
    requires DatabaseOk(sc, db) && ElementInSql(sc, db.d, n, element, field).Ok? &&
             LeafTagsOk(db.d, ElementIn(element, field))
    ensures Eval(db, ElementInSql(sc, db.d, n, element, field).value.0.sql)
            == RefLeaf(sc, db.row, ReadingOf(db), db.foldedLike, ElementIn(element, field))
  {
    hide HasTag, ReadingOf, ExactTest, ExactArg, RefTags;
    ExactMeans(db, sc[field], Emit(db.d, n + 1, ExactArg(db.d, element.lit.s)), element.lit.s);
  }

  predicate SearchesText(sc: Schema, cond: Condition) {
    match cond
    case Logical(_, left, right) => SearchesText(sc, left) && SearchesText(sc, right)
    case NotCond(expr) => SearchesText(sc, expr)
    case _ => LeafSearchesText(sc, cond)
  }

  /** A rendered condition has, on every row, the three-valued result of the dialect-free reference. */
  lemma RenderMeans(sc: Schema, db: Database, n: nat, cond: Condition)
    requires DatabaseOk(sc, db) && Render(sc, db.d, n, cond).Ok?
    requires SearchesOk(db.d, cond) && SearchesText(sc, cond)
    ensures Meaning(db, Render(sc, db.d, n, cond).value.0) == Ref(sc, db.row, ReadingOf(db), db.foldedLike, cond)
  {
    FoldingKeepsMeaning(db, sc, db.d, n, cond);
    UnfoldedIsRef(sc, db, n, cond);
  }

  lemma {:induction false} UnfoldedIsRef(sc: Schema, db: Database, n: nat, cond: Condition)
    requires DatabaseOk(sc, db) && Render(sc, db.d, n, cond).Ok?
    requires SearchesOk(db.d, cond) && SearchesText(sc, cond)
    ensures Unfolded(db, sc, db.d, n, cond) == Ref(sc, db.row, ReadingOf(db), db.foldedLike, cond)
    decreases cond
  {
    hide RenderLeaf, RefLeaf, DatabaseOk, Truth.And, Truth.Or, Truth.Not, CombineAnd, CombineOr, Negate, ReadingOf,
         LeafTagsOk, LeafSearchesText;
    match cond {
      case Logical(op, left, right) =>
        UnfoldedIsRef(sc, db, n, left);
        UnfoldedIsRef(sc, db, n + |Render(sc, db.d, n, left).value.1|, right);
      case NotCond(expr) => UnfoldedIsRef(sc, db, n, expr);
      case Constant(_) =>
      case _ => LeafMeans(sc, db, n, cond);
    }
  }

  // ----- agreement of the dialects -----

  ghost predicate FixedBy(f: char -> char, s: string) { forall i | 0 <= i < |s| :: f(s[i]) == s[i] }

  /** The folding does not touch the row's tags, as when they are all in lower case. */
  ghost predicate RowSettled(sc: Schema, row: Row, f: char -> char) {
    forall n <- sc :: RefTags(row, sc[n]).Some? ==> forall t <- RefTags(row, sc[n]).value :: FixedBy(f, t)
  }

  ghost predicate CondSettled(f: char -> char, cond: Condition) {
    match cond
    case Logical(_, left, right) => CondSettled(f, left) && CondSettled(f, right)
    case NotCond(expr) => CondSettled(f, expr)
    case InCond(_, values) => forall v <- values :: v.LiteralValue? && v.lit.LString? ==> FixedBy(f, v.lit.s)
    case ElementIn(element, _) => element.LiteralValue? && element.lit.LString? ==> FixedBy(f, element.lit.s)
    case Exists(_, pred) => FixedBy(f, pred.s)
    case _ => true
  }

  /** The condition has a test of tags. */
  predicate TestsTags(cond: Condition) {
    match cond
    case Logical(_, left, right) => TestsTags(left) || TestsTags(right)
    case NotCond(expr) => TestsTags(expr)
    case InCond(target, _) => target == FieldRef("tag")
    case ElementIn(_, _) => true
    case Exists(_, _) => true
    case _ => false
  }

  predicate NoContains(cond: Condition) {
    match cond
    case Logical(_, left, right) => NoContains(left) && NoContains(right)
    case NotCond(expr) => NoContains(expr)
    case ContainsCond(_, _) => false
    case _ => true
  }

  /** The same reading without case folding. */
  function Exactly(fs: Reading): Reading { fs.(exact := Same, part := Same) }

  /** The folding of whole tags is that of parts, or none. */
  ghost predicate Uniform(fs: Reading) { fs.exact == fs.part || fs.exact == Same }

  lemma FixedFold(f: char -> char, s: string)
    requires FixedBy(f, s)
    ensures Fold(f, s) == s
  {}

  lemma FixedFoldAll(f: char -> char, tags: seq<string>)
    requires forall t <- tags :: FixedBy(f, t)
    ensures FoldAll(f, tags) == tags
  {
    forall i | 0 <= i < |tags| ensures FoldAll(f, tags)[i] == tags[i] {
      assert tags[i] in tags;
      FixedFold(f, tags[i]);
    }
  }

  lemma SettledTags(fs: Reading, tags: seq<string>, s: string)
    requires Folding(fs.part) && Uniform(fs) && (forall t <- tags :: FixedBy(fs.part, t)) && FixedBy(fs.part, s)
    ensures HasTag(fs, tags, s) == HasTag(Exactly(fs), tags, s)
    ensures HasBelow(fs, tags, s) == HasBelow(Exactly(fs), tags, s)
  {
    hide Fold, FoldAll;
    FixedFold(fs.part, s);
    FixedFoldAll(fs.part, tags);
    SameIsIdentity(tags, s);
    SameIsIdentity(tags, s + "/");
    FixedFold(fs.part, s + "/") by { assert forall i | 0 <= i < |s| :: (s + "/")[i] == s[i]; }
  }

  lemma {:induction false} SettledTagIn(fs: Reading, tags: Option<seq<string>>, values: seq<ValueExpr>)
    requires Folding(fs.part) && Uniform(fs) && (tags.Some? ==> forall t <- tags.value :: FixedBy(fs.part, t))
    requires forall v <- values :: v.LiteralValue? && v.lit.LString? ==> FixedBy(fs.part, v.lit.s)
    ensures RefTagIn(fs, tags, values) == RefTagIn(Exactly(fs), tags, values)
    decreases |values|
  {
    hide HasTag, HasBelow, FixedBy, Folding, Uniform, Exactly;
    if values != [] {
      assert values[0] in values && forall v <- values[1..] :: v in values;
      SettledTagIn(fs, tags, values[1..]);
      if tags.Some? && values[0].LiteralValue? && values[0].lit.LString? {
        SettledTags(fs, tags.value, values[0].lit.s);
      }
    }
  }

  lemma SettledExists(fs: Reading, tags: Option<seq<string>>, pred: TagPredicate)
    requires (tags.Some? ==> forall t <- tags.value :: FixedBy(fs.part, t)) && FixedBy(fs.part, pred.s)
    ensures RefExists(fs, tags, pred) == RefExists(Exactly(fs), tags, pred)
  {
    hide Fold, FoldAll, SomeExtends, SomeEndsIn, SomeOccurs;
    FixedFold(fs.part, pred.s);
    if tags.Some? {
      FixedFoldAll(fs.part, tags.value);
      SameIsIdentity(tags.value, pred.s);
    } else {
      SameIsIdentity([], pred.s);
    }
  }

  lemma TagsSettled(sc: Schema, row: Row, f: char -> char)
    requires RowSettled(sc, row, f) && "tags" in sc && sc["tags"] == TAGS
    ensures RefTags(row, TAGS).Some? ==> forall t <- RefTags(row, TAGS).value :: FixedBy(f, t)
  {
    assert RefTags(row, TAGS) == RefTags(row, sc["tags"]);
  }

  /** The case folding does not matter: the condition tests no tags, or the folding touches none of those involved. */
  ghost predicate FoldingIsIdle(sc: Schema, row: Row, f: char -> char, cond: Condition) {
    TestsTags(cond) ==> RowSettled(sc, row, f) && CondSettled(f, cond)
  }

  /** Every compared flag is present in the row. */
  ghost predicate FlagsKnown(sc: Schema, row: Row, cond: Condition) {
    match cond
    case Logical(_, left, right) => FlagsKnown(sc, row, left) && FlagsKnown(sc, row, right)
    case NotCond(expr) => FlagsKnown(sc, row, expr)
    case Comparison(FieldRef(name), _, _) =>
      name in sc && sc[name].kind.JsonBool? ==> row.ReadJson(sc[name].column, sc[name].jsonPath).Some?
    case _ => true
  }

  /** What the reference depends on: case folding only in tag tests, contains() only where it stands, and the reading
      of absent flags only where one is compared. */
  lemma {:induction false} RefDependsOn(sc: Schema, row: Row, fs: Reading, gs: Reading,
                                        g: (string, string) -> bool, h: (string, string) -> bool, cond: Condition)
    requires TestsTags(cond) ==> fs.exact == gs.exact && fs.part == gs.part
    requires fs.absentIsFalse == gs.absentIsFalse || (RowFits(sc, row) && FlagsKnown(sc, row, cond))
    requires g == h || NoContains(cond)
    ensures Ref(sc, row, fs, g, cond) == Ref(sc, row, gs, h, cond)
  {
    hide RefIn, ScalarArgs, RefTags, Truth.And, Truth.Or, Truth.Not, RefTagIn, RefScalar, RefJsonBool, RowFits, Fold,
         FoldAll, SomeExtends, SomeEndsIn, SomeOccurs;
    match cond {
      case Logical(_, left, right) =>
        RefDependsOn(sc, row, fs, gs, g, h, left);
        RefDependsOn(sc, row, fs, gs, g, h, right);
      case NotCond(expr) => RefDependsOn(sc, row, fs, gs, g, h, expr);
      case Comparison(FieldRef(name), op, LiteralValue(LBool(b))) =>
        if name in sc && sc[name].kind.JsonBool? { FlagReads(sc, row, fs, gs, name, op, b); }
      case InCond(target, values) =>
        if target == FieldRef("tag") && ResolveAlias(sc, "tag").Some? {
          TagInReads(fs, gs, RefTags(row, ResolveAlias(sc, "tag").value), values);
        }
      case _ =>
    }
  }

  lemma FlagReads(sc: Schema, row: Row, fs: Reading, gs: Reading, name: string, op: CompareOp, b: bool)
    requires name in sc && sc[name].kind.JsonBool?
    requires fs.absentIsFalse == gs.absentIsFalse ||
             (RowFits(sc, row) && row.ReadJson(sc[name].column, sc[name].jsonPath).Some?)
    ensures RefJsonBool(fs, row, sc[name], op, b) == RefJsonBool(gs, row, sc[name], op, b)
  {
    if fs.absentIsFalse != gs.absentIsFalse { assert FieldFits(row, sc[name]); }
  }

  lemma {:induction false} TagInReads(fs: Reading, gs: Reading, tags: Option<seq<string>>, values: seq<ValueExpr>)
    requires fs.exact == gs.exact && fs.part == gs.part
    ensures RefTagIn(fs, tags, values) == RefTagIn(gs, tags, values)
    decreases |values|
  {
    hide Fold, FoldAll, SomeExtends;
    if values != [] { TagInReads(fs, gs, tags, values[1..]); }
  }

  lemma IdleRef(sc: Schema, row: Row, fs: Reading, like: (string, string) -> bool, cond: Condition)
    requires WellFormed(sc) && Folding(fs.part) && Uniform(fs) && FoldingIsIdle(sc, row, fs.part, cond)
    ensures Ref(sc, row, fs, like, cond) == Ref(sc, row, Exactly(fs), like, cond)
  {
    hide Ref, RowSettled, CondSettled, WellFormed, Folding, Uniform;
    if TestsTags(cond) {
      SettledRef(sc, row, fs, like, cond);
    } else {
      RefDependsOn(sc, row, fs, Exactly(fs), like, like, cond);
    }
  }

  /** On settled rows and conditions the reference does not depend on the case folding. */
  lemma {:induction false} SettledRef(sc: Schema, row: Row, fs: Reading, like: (string, string) -> bool,
                                      cond: Condition)
    requires WellFormed(sc) && Folding(fs.part) && Uniform(fs)
    requires RowSettled(sc, row, fs.part) && CondSettled(fs.part, cond)
    ensures Ref(sc, row, fs, like, cond) == Ref(sc, row, Exactly(fs), like, cond)
  {
    hide RefTagIn, RefExists, HasTag, FixedBy, Folding, RefIn, ScalarArgs, RefTags, Truth.And, Truth.Or, Truth.Not,
         RefScalar, Uniform;
    match cond {
      case Logical(_, left, right) =>
        SettledRef(sc, row, fs, like, left);
        SettledRef(sc, row, fs, like, right);
      case NotCond(expr) => SettledRef(sc, row, fs, like, expr);
      case InCond(target, values) =>
        if target == FieldRef("tag") && ResolveAlias(sc, "tag").Some? {
          assert ResolveAlias(sc, "tag").value == TAGS && "tags" in sc && sc["tags"] == TAGS;
          TagsSettled(sc, row, fs.part);
          SettledTagIn(fs, RefTags(row, TAGS), values);
        }
      case ElementIn(element, field) =>
        if field in sc && element.LiteralValue? && element.lit.LString? && RefTags(row, sc[field]).Some? {
          SettledTags(fs, RefTags(row, sc[field]).value, element.lit.s);
        }
      case Exists(field, pred) =>
        if field in sc { SettledExists(fs, RefTags(row, sc[field]), pred); }
      case _ =>
    }
  }

  /** What a condition yields when it is compiled for a database and run there between other parts of a query. */
  ghost function Run(sc: Schema, db: Database, cond: Condition, earlier: seq<Value>, later: seq<Value>): Option<Truth>
    requires Render(sc, db.d, |earlier|, cond).Ok?
  {
    var o := Render(sc, db.d, |earlier|, cond).value;
    ExecuteStatement(db, ToStatement(o.0, o.1), earlier, later)
  }

  /** Running a condition gives the three-valued result of the reference, without an error, when the dialect finds
      its arguments and accepts its lists. */
  lemma RunMeans(sc: Schema, db: Database, cond: Condition, earlier: seq<Value>, later: seq<Value>)
    requires DatabaseOk(sc, db) && Render(sc, db.d, |earlier|, cond).Ok?
    requires SearchesOk(db.d, cond) && SearchesText(sc, cond)
    requires FindsArgs(sc, db.d, cond) && KeptListsParse(db.d, cond)
    ensures Run(sc, db, cond, earlier, later) == Some(Ref(sc, db.row, ReadingOf(db), db.foldedLike, cond))
  {
    hide Render, Ref, SearchesOk, FindsArgs, KeptListsParse, ExecuteStatement, Meaning, DatabaseOk, SearchesText;
    StatementExecutes(sc, db, cond, earlier, later);
    RenderMeans(sc, db, |earlier|, cond);
  }

  /** The two dialects read the flags the condition compares alike. */
  ghost predicate FlagsReadAlike(sc: Schema, a: Database, b: Database, cond: Condition) {
    (a.d.SQLite? <==> b.d.SQLite?) || FlagsKnown(sc, a.row, cond)
  }

  /** Any two databases, of whatever dialect, give a condition without contains() the same three-valued result
      when it is run on the same row: search texts are admissible in both, each dialect finds its arguments and
      accepts the lists, compared flags are present unless both or neither is SQLite, and either the databases
      fold case alike or neither folding matters. */
  lemma DialectsAgree(sc: Schema, a: Database, b: Database, cond: Condition)
    requires a.row == b.row && DatabaseOk(sc, a) && DatabaseOk(sc, b)
    requires Render(sc, a.d, 0, cond).Ok? && Render(sc, b.d, 0, cond).Ok?
    requires FindsArgs(sc, a.d, cond) && FindsArgs(sc, b.d, cond)
    requires KeptListsParse(a.d, cond) && KeptListsParse(b.d, cond)
    requires SearchesOk(a.d, cond) && SearchesOk(b.d, cond) && NoContains(cond) && FlagsReadAlike(sc, a, b, cond)
    requires (ReadingOf(a).exact == ReadingOf(b).exact && a.fold == b.fold) ||
             (FoldingIsIdle(sc, a.row, a.fold, cond) && FoldingIsIdle(sc, b.row, b.fold, cond))
    ensures Run(sc, a, cond, [], []) == Run(sc, b, cond, [], []) != None
  {
    hide SearchesOk, Ref, FoldingIsIdle, RowFits, WellFormed, Folding, Run, FindsArgs, KeptListsParse, Render,
         SearchesText, FlagsKnown;
    NoContainsSearchesText(sc, cond);
    RunMeans(sc, a, cond, [], []);
    RunMeans(sc, b, cond, [], []);
    var fs, gs := ReadingOf(a), ReadingOf(b);
    if fs.exact == gs.exact && a.fold == b.fold {
      RefDependsOn(sc, a.row, fs, gs, a.foldedLike, b.foldedLike, cond);
    } else {
      IdleRef(sc, a.row, fs, a.foldedLike, cond);
      IdleRef(sc, b.row, gs, b.foldedLike, cond);
      RefDependsOn(sc, a.row, Exactly(fs), Exactly(gs), a.foldedLike, b.foldedLike, cond);
    }
  }

  lemma {:induction false} NoContainsSearchesText(sc: Schema, cond: Condition)
    requires NoContains(cond)
    ensures SearchesText(sc, cond)
  {
    match cond {
      case Logical(_, left, right) =>
        NoContainsSearchesText(sc, left);
        NoContainsSearchesText(sc, right);
      case NotCond(expr) => NoContainsSearchesText(sc, expr);
      case _ =>
    }
  }

  /** A flag compared for equality: SQLite and the other two dialects agree exactly when the flag is present
      in the row or is `has_task_list`; when it is absent SQLite answers and the others do not. */
  lemma AbsentFlagSplitsDialects(f: Field, op: CompareOp, b: bool, sqlite: Database, other: Database)
    requires f.kind.JsonBool? && (op.Eq? || op.Neq?) && sqlite.row == other.row && FieldFits(sqlite.row, f)
    requires sqlite.d.SQLite? && !other.d.SQLite?
    ensures var value := LiteralValue(LBool(b));
            var x := Eval(sqlite, JsonBoolComparison(SQLite, 0, f, op, value).value.0.sql);
            var y := Eval(other, JsonBoolComparison(other.d, 0, f, op, value).value.0.sql);
            (x == y <==> sqlite.row.ReadJson(f.column, f.jsonPath).Some? || f.name == "has_task_list") &&
            (sqlite.row.ReadJson(f.column, f.jsonPath).None? ==> y == Unknown)
  {
    var value := LiteralValue(LBool(b));
    if sqlite.row.ReadJson(f.column, f.jsonPath).Some? {
      JsonBoolMeans(sqlite, 0, f, op, value);
      JsonBoolMeans(other, 0, f, op, value);
    } else {
      var t, u := JsonExtract(SQLite, f), JsonExtract(other.d, f);
      assert EvalTerm(sqlite, t) == NullV && EvalTerm(other, u) == NullV;
      assert EvalTerm(other, CastBoolean(u)) == NullV;
      assert Eval(sqlite, IsTrue(t)) == False && Eval(sqlite, Not(IsTrue(t))) == True;
    }
  }
}
