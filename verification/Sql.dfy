/** The SQL fragments the renderer emits: syntax, placeholders and their binding, and three-valued meaning. */
module Sql {
  import opened Options
  import opened FilterSchema
  import TagText
  import opened Text

  // ----- values and truth -----

  datatype JsonNode = JBool(b: bool) | JList(tags: seq<string>)

  /** `StampV` is a native timestamp, which only MySQL stores. */
  datatype Value = NullV | IntV(i: int) | StrV(s: string) | BoolV(b: bool) | StampV(epoch: int) | JsonV(node: JsonNode)

  datatype Truth = True | False | Unknown {
    function Not(): Truth { match this case True => False case False => True case Unknown => Unknown }
    function And(o: Truth): Truth {
      if False? || o.False? then False else if True? && o.True? then True else Unknown
    }
    function Or(o: Truth): Truth {
      if True? || o.True? then True else if False? && o.False? then False else Unknown
    }
  }

  function Of(b: bool): Truth { if b then True else False }

  // ----- syntax -----

  /** The text of a placeholder, all the database sees of it. */
  datatype Token = Question | Dollar(n: nat)

  /** A placeholder: its text, and the value it was emitted for.  Execution puts the value of the argument
      list in place of `v` that the text asks for. */
  datatype Slot = Slot(token: Token, v: Value)

  /** The `k`-th placeholder of a query. */
  function Emit(d: Dialect, k: nat, v: Value): Slot { Slot(if d.Postgres? then Dollar(k) else Question, v) }

  datatype Term =
    | ColumnT(column: Column)
    | UnixTimestamp(of: Term)
    | JsonGet(column: Column, path: seq<string>)      // JSON_EXTRACT(c, '$.p') or c->'p'
    | JsonGetText(column: Column, path: seq<string>)  // c->>'p'
    | CastBoolean(of: Term)                           // (t)::boolean
    | CastText(of: Term)                              // (t)::text
    | ArrayLength(of: Term)
    | OrEmptyArray(of: Term)                          // COALESCE(t, <empty array>)
    | OrJsonFalse(of: Term)                           // COALESCE(t, CAST('false' AS JSON))
    | JsonBoolLit(b: bool)                            // CAST('true' AS JSON)
    | IntLit(i: int)
    | TextLit(s: string)
    | Param(slot: Slot)

  datatype Sql =
    | Falsum                                          // 1 = 0
    | Compare(l: Term, op: CompareOp, r: Term)
    | IsNull(t: Term)
    | IsNotNull(t: Term)
    | IsTrue(t: Term)
    | In(t: Term, items: seq<Term>)
    | Like(t: Term, pattern: Term)
    | FoldedLike(t: Term, pattern: Term)              // the dialect's rendering of contains()
    | JsonContains(t: Term, element: Term)            // JSON_CONTAINS(t, e) or t @> jsonb_build_array(e::json)
    | Not(s: Sql)
    | And(a: Sql, b: Sql)
    | Or(a: Sql, b: Sql)
    | AnyOf(alts: seq<Sql>)                           // (a OR b OR ...)

  /** `()` is not SQL, except that SQLite accepts an empty list after IN. */
  predicate Parses(d: Dialect, s: Sql) {
    match s
    case In(_, items) => items != [] || d.SQLite?
    case Not(a) => Parses(d, a)
    case And(a, b) => Parses(d, a) && Parses(d, b)
    case Or(a, b) => Parses(d, a) && Parses(d, b)
    case AnyOf(alts) => alts != [] && forall a <- alts :: Parses(d, a)
    case _ => true
  }

  // ----- placeholders in text order -----

  function TermSlots(t: Term): seq<Slot> {
    match t
    case Param(slot) => [slot]
    case UnixTimestamp(u) => TermSlots(u)
    case CastBoolean(u) => TermSlots(u)
    case CastText(u) => TermSlots(u)
    case ArrayLength(u) => TermSlots(u)
    case OrEmptyArray(u) => TermSlots(u)
    case OrJsonFalse(u) => TermSlots(u)
    case _ => []
  }

  function TermsSlots(ts: seq<Term>): seq<Slot> {
    if ts == [] then [] else TermSlots(ts[0]) + TermsSlots(ts[1..])
  }

  /** The placeholders of a fragment, left to right. */
  function Slots(s: Sql): seq<Slot> {
    match s
    case Falsum => []
    case Compare(l, _, r) => TermSlots(l) + TermSlots(r)
    case IsNull(t) => TermSlots(t)
    case IsNotNull(t) => TermSlots(t)
    case IsTrue(t) => TermSlots(t)
    case In(t, items) => TermSlots(t) + TermsSlots(items)
    case Like(t, p) => TermSlots(t) + TermSlots(p)
    case FoldedLike(t, p) => TermSlots(t) + TermSlots(p)
    case JsonContains(t, e) => TermSlots(t) + TermSlots(e)
    case Not(a) => Slots(a)
    case And(a, b) => Slots(a) + Slots(b)
    case Or(a, b) => Slots(a) + Slots(b)
    case AnyOf(alts) => AllSlots(alts)
  }

  function AllSlots(alts: seq<Sql>): seq<Slot> {
    if alts == [] then [] else Slots(alts[0]) + AllSlots(alts[1..])
  }

  // ----- binding -----

  /** Puts the values `vs` in place of the placeholders, left to right. */
  function BindTerm(t: Term, vs: seq<Value>): Term
    requires |vs| == |TermSlots(t)|
  {
    match t
    case Param(slot) => Param(slot.(v := vs[0]))
    case UnixTimestamp(u) => UnixTimestamp(BindTerm(u, vs))
    case CastBoolean(u) => CastBoolean(BindTerm(u, vs))
    case CastText(u) => CastText(BindTerm(u, vs))
    case ArrayLength(u) => ArrayLength(BindTerm(u, vs))
    case OrEmptyArray(u) => OrEmptyArray(BindTerm(u, vs))
    case OrJsonFalse(u) => OrJsonFalse(BindTerm(u, vs))
    case _ => t
  }

  function BindTerms(ts: seq<Term>, vs: seq<Value>): seq<Term>
    requires |vs| == |TermsSlots(ts)|
  {
    if ts == [] then []
    else
      var k := |TermSlots(ts[0])|;
      [BindTerm(ts[0], vs[..k])] + BindTerms(ts[1..], vs[k..])
  }

  function Bind(s: Sql, vs: seq<Value>): Sql
    requires |vs| == |Slots(s)|
  {
    match s
    case Falsum => s
    case Compare(l, op, r) => var k := |TermSlots(l)|; Compare(BindTerm(l, vs[..k]), op, BindTerm(r, vs[k..]))
    case IsNull(t) => IsNull(BindTerm(t, vs))
    case IsNotNull(t) => IsNotNull(BindTerm(t, vs))
    case IsTrue(t) => IsTrue(BindTerm(t, vs))
    case In(t, items) => var k := |TermSlots(t)|; In(BindTerm(t, vs[..k]), BindTerms(items, vs[k..]))
    case Like(t, p) => var k := |TermSlots(t)|; Like(BindTerm(t, vs[..k]), BindTerm(p, vs[k..]))
    case FoldedLike(t, p) => var k := |TermSlots(t)|; FoldedLike(BindTerm(t, vs[..k]), BindTerm(p, vs[k..]))
    case JsonContains(t, e) => var k := |TermSlots(t)|; JsonContains(BindTerm(t, vs[..k]), BindTerm(e, vs[k..]))
    case Not(a) => Not(Bind(a, vs))
    case And(a, b) => var k := |Slots(a)|; And(Bind(a, vs[..k]), Bind(b, vs[k..]))
    case Or(a, b) => var k := |Slots(a)|; Or(Bind(a, vs[..k]), Bind(b, vs[k..]))
    case AnyOf(alts) => AnyOf(BindAll(alts, vs))
  }

  function BindAll(alts: seq<Sql>, vs: seq<Value>): seq<Sql>
    requires |vs| == |AllSlots(alts)|
  {
    if alts == [] then []
    else
      var k := |Slots(alts[0])|;
      [Bind(alts[0], vs[..k])] + BindAll(alts[1..], vs[k..])
  }

  function ValuesOf(slots: seq<Slot>): (r: seq<Value>)
    ensures |r| == |slots| && forall i | 0 <= i < |slots| :: r[i] == slots[i].v
  {
    seq(|slots|, i requires 0 <= i < |slots| => slots[i].v)
  }

  lemma ValuesOfConcat(a: seq<Slot>, b: seq<Slot>)
    ensures ValuesOf(a + b)[..|a|] == ValuesOf(a) && ValuesOf(a + b)[|a|..] == ValuesOf(b)
  {}

  lemma {:induction false} BindOwnTerm(t: Term)
    ensures BindTerm(t, ValuesOf(TermSlots(t))) == t
  {
    match t {
      case UnixTimestamp(u) => BindOwnTerm(u);
      case CastBoolean(u) => BindOwnTerm(u);
      case CastText(u) => BindOwnTerm(u);
      case ArrayLength(u) => BindOwnTerm(u);
      case OrEmptyArray(u) => BindOwnTerm(u);
      case OrJsonFalse(u) => BindOwnTerm(u);
      case _ =>
    }
  }

  lemma {:induction false} BindOwnTerms(ts: seq<Term>)
    ensures BindTerms(ts, ValuesOf(TermsSlots(ts))) == ts
  {
    if ts != [] {
      ValuesOfConcat(TermSlots(ts[0]), TermsSlots(ts[1..]));
      BindOwnTerm(ts[0]);
      BindOwnTerms(ts[1..]);
    }
  }

  /** Binding every placeholder to the value it was emitted for gives the intended fragment. */
  lemma {:induction false} BindOwn(s: Sql)
    ensures Bind(s, ValuesOf(Slots(s))) == s
  {
    match s {
      case Falsum =>
      case Compare(l, _, r) => BindOwnPair(l, r);
      case IsNull(t) => BindOwnTerm(t);
      case IsNotNull(t) => BindOwnTerm(t);
      case IsTrue(t) => BindOwnTerm(t);
      case In(t, items) =>
        ValuesOfConcat(TermSlots(t), TermsSlots(items));
        BindOwnTerm(t);
        BindOwnTerms(items);
      case Like(t, p) => BindOwnPair(t, p);
      case FoldedLike(t, p) => BindOwnPair(t, p);
      case JsonContains(t, e) => BindOwnPair(t, e);
      case Not(a) => BindOwn(a);
      case And(a, b) =>
        ValuesOfConcat(Slots(a), Slots(b));
        BindOwn(a);
        BindOwn(b);
      case Or(a, b) =>
        ValuesOfConcat(Slots(a), Slots(b));
        BindOwn(a);
        BindOwn(b);
      case AnyOf(alts) => BindOwnAll(alts);
    }
  }

  lemma BindOwnPair(t: Term, u: Term)
    ensures var vs := ValuesOf(TermSlots(t) + TermSlots(u));
            BindTerm(t, vs[..|TermSlots(t)|]) == t && BindTerm(u, vs[|TermSlots(t)|..]) == u
  {
    ValuesOfConcat(TermSlots(t), TermSlots(u));
    BindOwnTerm(t);
    BindOwnTerm(u);
  }

  lemma {:induction false} BindOwnAll(alts: seq<Sql>)
    ensures BindAll(alts, ValuesOf(AllSlots(alts))) == alts
  {
    if alts != [] {
      ValuesOfConcat(Slots(alts[0]), AllSlots(alts[1..]));
      BindOwn(alts[0]);
      BindOwnAll(alts[1..]);
    }
  }

  // ----- three-valued meaning -----

  /** One stored row, read the same way whatever the dialect. */
  datatype Row = Row(columns: map<Column, Value>, json: map<(Column, seq<string>), JsonNode>) {
    function Read(c: Column): Value { if c in columns then columns[c] else NullV }
    function ReadJson(c: Column, path: seq<string>): Option<JsonNode> {
      if (c, path) in json then Some(json[(c, path)]) else None
    }
  }

  /** A row in a database: the dialect, the case folding of its LIKE, and its rendering of contains(). */
  datatype Database = Database(d: Dialect, row: Row, fold: char -> char, foldedLike: (string, string) -> bool)

  function ArraySeparator(d: Dialect): string { if d.SQLite? then "," else ", " }

  /** How a dialect stores and binds a value: only Postgres has booleans, only MySQL has timestamps. */
  function Stored(d: Dialect, v: Value): Value {
    match v
    case BoolV(b) => if d.Postgres? then v else IntV(if b then 1 else 0)
    case StampV(e) => if d.MySQL? then v else IntV(e)
    case _ => v
  }

  function EvalTerm(db: Database, t: Term): Value {
    match t
    case ColumnT(c) => Stored(db.d, db.row.Read(c))
    case UnixTimestamp(u) => (match EvalTerm(db, u) case StampV(e) => IntV(e) case _ => NullV)
    case JsonGet(c, path) =>
      (match db.row.ReadJson(c, path)
       case None => NullV
       case Some(JBool(b)) => if db.d.SQLite? then IntV(if b then 1 else 0) else JsonV(JBool(b))
       case Some(JList(tags)) => JsonV(JList(tags)))
    case JsonGetText(c, path) =>
      (match db.row.ReadJson(c, path)
       case None => NullV
       case Some(JBool(b)) => StrV(if b then "true" else "false")
       case Some(JList(tags)) => StrV(TagText.ArrayText(tags, ArraySeparator(db.d))))
    case CastBoolean(u) =>
      (match EvalTerm(db, u)
       case StrV(s) => if s == "true" then BoolV(true) else if s == "false" then BoolV(false) else NullV
       case _ => NullV)
    case CastText(u) => AsText(db.d, EvalTerm(db, u))
    case ArrayLength(u) => (match EvalTerm(db, u) case JsonV(JList(tags)) => IntV(|tags|) case _ => NullV)
    case OrEmptyArray(u) => var v := EvalTerm(db, u); if v.NullV? then JsonV(JList([])) else v
    case OrJsonFalse(u) => var v := EvalTerm(db, u); if v.NullV? then JsonV(JBool(false)) else v
    case JsonBoolLit(b) => JsonV(JBool(b))
    case IntLit(i) => IntV(i)
    case TextLit(s) => StrV(s)
    case Param(slot) => Stored(db.d, slot.v)
  }

  /** A JSON array used as text. */
  function AsText(d: Dialect, v: Value): Value {
    match v
    case JsonV(JList(tags)) => StrV(TagText.ArrayText(tags, ArraySeparator(d)))
    case _ => v
  }

  predicate CompareInts(op: CompareOp, a: int, b: int) {
    match op case Eq => a == b case Neq => a != b case Lt => a < b case Lte => a <= b case Gt => a > b
      case Gte => a >= b
  }

  predicate CompareStrings(op: CompareOp, a: string, b: string) {
    match op
    case Eq => a == b
    case Neq => a != b
    case Lt => StrLess(a, b)
    case Lte => a == b || StrLess(a, b)
    case Gt => StrLess(b, a)
    case Gte => a == b || StrLess(b, a)
  }

  /** What the comparison operators of SQL mean. */
  lemma OperatorsMean(a: int, b: int)
    ensures (CompareInts(Lt, a, b) <==> b - a > 0) && (CompareInts(Gt, a, b) <==> a - b > 0)
    ensures (CompareInts(Lte, a, b) <==> a - b <= 0) && (CompareInts(Gte, a, b) <==> b - a <= 0)
    ensures (CompareInts(Eq, a, b) <==> a - b == 0) && (CompareInts(Neq, a, b) <==> a - b != 0)
  {}

  /** Booleans order like 0 and 1. */
  predicate CompareBools(op: CompareOp, a: bool, b: bool) { CompareInts(op, if a then 1 else 0, if b then 1 else 0) }

  /** NULL on either side, or kinds that do not compare, give no truth value. */
  function CompareValues(op: CompareOp, a: Value, b: Value): Truth {
    match (a, b)
    case (IntV(x), IntV(y)) => Of(CompareInts(op, x, y))
    case (StrV(x), StrV(y)) => Of(CompareStrings(op, x, y))
    case (BoolV(x), BoolV(y)) => Of(CompareBools(op, x, y))
    case (JsonV(JBool(x)), JsonV(JBool(y))) => Of(CompareBools(op, x, y))
    case _ => Unknown
  }

  predicate Truthy(v: Value) {
    match v case IntV(i) => i != 0 case BoolV(b) => b case JsonV(JBool(b)) => b case _ => false
  }

  /** The string of a JSON text that is one quoted plain string. */
  function ParseString(s: string): Option<string> {
    if |s| >= 2 && s[0] == '"' && s[|s| - 1] == '"' && TagText.Plain(s[1..|s| - 1]) then Some(s[1..|s| - 1]) else None
  }

  function EvalContains(t: Value, e: Value): Truth {
    match (t, e)
    case (JsonV(JList(tags)), StrV(s)) => (match ParseString(s) case Some(x) => Of(x in tags) case None => Unknown)
    case _ => Unknown
  }

  function EvalLike(db: Database, t: Value, p: Value): Truth {
    match (AsText(db.d, t), p)
    case (StrV(x), StrV(y)) => Of(TagText.Like(TagText.Fold(db.fold, y), TagText.Fold(db.fold, x)))
    case _ => Unknown
  }

  function EvalIn(db: Database, v: Value, items: seq<Term>): Truth {
    if items == [] then False else CompareValues(Eq, v, EvalTerm(db, items[0])).Or(EvalIn(db, v, items[1..]))
  }

  function Eval(db: Database, s: Sql): Truth {
    match s
    case Falsum => False
    case Compare(l, op, r) => CompareValues(op, AsText(db.d, EvalTerm(db, l)), AsText(db.d, EvalTerm(db, r)))
    case IsNull(t) => Of(EvalTerm(db, t).NullV?)
    case IsNotNull(t) => Of(!EvalTerm(db, t).NullV?)
    case IsTrue(t) => Of(Truthy(EvalTerm(db, t)))
    case In(t, items) => EvalIn(db, EvalTerm(db, t), items)
    case Like(t, p) => EvalLike(db, EvalTerm(db, t), EvalTerm(db, p))
    case FoldedLike(t, p) =>
      (match (EvalTerm(db, t), EvalTerm(db, p)) case (StrV(x), StrV(y)) => Of(db.foldedLike(x, y)) case _ => Unknown)
    case JsonContains(t, e) => EvalContains(EvalTerm(db, t), EvalTerm(db, e))
    case Not(a) => Eval(db, a).Not()
    case And(a, b) => Eval(db, a).And(Eval(db, b))
    case Or(a, b) => Eval(db, a).Or(Eval(db, b))
    case AnyOf(alts) => EvalAny(db, alts)
  }

  function EvalAny(db: Database, alts: seq<Sql>): Truth {
    if alts == [] then False else Eval(db, alts[0]).Or(EvalAny(db, alts[1..]))
  }

  // ----- execution -----

  /** The argument the database takes for a placeholder with `before` placeholders in front of it. */
  function ArgumentFor(token: Token, before: nat, all: seq<Value>): Option<Value> {
    match token
    case Dollar(k) => if 1 <= k <= |all| then Some(all[k - 1]) else None
    case Question => if before < |all| then Some(all[before]) else None
  }

  /** The arguments for a list of placeholders; `None` when one is missing. */
  function ArgumentsFor(slots: seq<Slot>, before: nat, all: seq<Value>): (r: Option<seq<Value>>)
    ensures r.Some? ==> |r.value| == |slots|
  {
    if slots == [] then Some([])
    else
      var v, rest := ArgumentFor(slots[0].token, before, all), ArgumentsFor(slots[1..], before + 1, all);
      if v.None? || rest.None? then None else Some([v.value] + rest.value)
  }

  /** Running a fragment of a query on a row: `before` placeholders stand in front of it and `all` are the
      arguments of the whole query.  `None` is an error of the database. */
  function Execute(db: Database, s: Sql, before: nat, all: seq<Value>): Option<Truth> {
    var vs := ArgumentsFor(Slots(s), before, all);
    if !Parses(db.d, s) || vs.None? then None else Some(Eval(db, Bind(s, vs.value)))
  }

  /** Every placeholder asks for the argument it was emitted for. */
  ghost predicate Bound(before: nat, slots: seq<Slot>, all: seq<Value>) {
    forall i | 0 <= i < |slots| :: ArgumentFor(slots[i].token, before + i, all) == Some(slots[i].v)
  }

  lemma {:induction false} BoundIffOwnArguments(before: nat, slots: seq<Slot>, all: seq<Value>)
    ensures Bound(before, slots, all) <==> ArgumentsFor(slots, before, all) == Some(ValuesOf(slots))
    decreases |slots|
  {
    if slots != [] {
      var rest := slots[1..];
      BoundIffOwnArguments(before + 1, rest, all);
      assert ValuesOf(slots) == [slots[0].v] + ValuesOf(rest);
      if Bound(before, slots, all) {
        forall i | 0 <= i < |rest| ensures ArgumentFor(rest[i].token, before + 1 + i, all) == Some(rest[i].v) {
          assert rest[i] == slots[i + 1];
        }
      }
      if Bound(before + 1, rest, all) && ArgumentFor(slots[0].token, before, all) == Some(slots[0].v) {
        forall i | 0 <= i < |slots| ensures ArgumentFor(slots[i].token, before + i, all) == Some(slots[i].v) {
          if i > 0 { assert slots[i] == rest[i - 1]; }
        }
      }
      if ArgumentsFor(slots, before, all) == Some(ValuesOf(slots)) {
        assert ArgumentsFor(slots, before, all).value[1..] == ValuesOf(rest);
      }
    }
  }

  /** A fragment whose placeholders ask for their own arguments has, when it is run, its intended meaning. */
  lemma BoundExecutes(db: Database, s: Sql, before: nat, all: seq<Value>)
    requires Parses(db.d, s) && Bound(before, Slots(s), all)
    ensures Execute(db, s, before, all) == Some(Eval(db, s))
  {
    hide Bound, Eval, Bind;
    BoundIffOwnArguments(before, Slots(s), all);
    BindOwn(s);
  }
}
