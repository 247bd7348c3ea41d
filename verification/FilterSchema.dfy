/** Filter fields, the condition tree, and the two schemas. */
module FilterSchema {
  import opened Options

  datatype Dialect = SQLite | MySQL | Postgres

  datatype FieldType = StringType | IntType | BoolType | TimestampType

  datatype FieldKind = Scalar | BoolColumn | JsonBool | JsonList | VirtualAlias

  datatype CompareOp = Eq | Neq | Lt | Lte | Gt | Gte

  datatype Column = Column(table: string, name: string)

  /** `unixTime` stands for the `UNIX_TIMESTAMP(%s)` override of the MySQL dialect. */
  datatype Field = Field(name: string, kind: FieldKind, ftype: FieldType, column: Column, jsonPath: seq<string>,
                         aliasFor: string, supportsContains: bool, unixTime: bool, allowedOps: Option<set<CompareOp>>)

  type Schema = map<string, Field>

  function Lookup(sc: Schema, name: string): Option<Field> {
    if name in sc then Some(sc[name]) else None
  }

  function ResolveAlias(sc: Schema, name: string): Option<Field> {
    match Lookup(sc, name)
    case None => None
    case Some(f) => if f.kind.VirtualAlias? then Lookup(sc, f.aliasFor) else Some(f)
  }

  // ----- the condition tree -----

  datatype Literal = LInt(i: int) | LString(s: string) | LBool(b: bool) | LNull

  datatype ValueExpr =
    | FieldRef(name: string)
    | LiteralValue(lit: Literal)
    | FunctionValue(fn: string, args: seq<ValueExpr>)

  datatype TagPredicate = StartsWith(s: string) | EndsWith(s: string) | Contains(s: string)

  datatype LogicalOp = AndOp | OrOp

  datatype Condition =
    | Logical(op: LogicalOp, left: Condition, right: Condition)
    | NotCond(expr: Condition)
    | FieldPredicate(field: string)
    | Comparison(lhs: ValueExpr, cmp: CompareOp, rhs: ValueExpr)
    | InCond(target: ValueExpr, values: seq<ValueExpr>)
    | ElementIn(element: ValueExpr, field: string)
    | ContainsCond(field: string, text: string)
    | Exists(field: string, pred: TagPredicate)
    | Constant(value: bool)

  // ----- the two schemas -----

  const EQUALITY := Some({Eq, Neq})

  function Memo(name: string): Column { Column("memo", name) }

  function ScalarField(name: string, t: FieldType, c: Column, ops: Option<set<CompareOp>>): Field {
    Field(name, Scalar, t, c, [], "", false, t.TimestampType?, ops)
  }

  function Flag(name: string, key: string): Field {
    Field(name, JsonBool, BoolType, Memo("payload"), ["property", key], "", false, false, EQUALITY)
  }

  /** A field table, keyed by field name. */
  function SchemaOf(fields: seq<Field>): Schema {
    if fields == [] then map[] else SchemaOf(fields[..|fields| - 1])[fields[|fields| - 1].name := fields[|fields| - 1]]
  }

  const TAGS := Field("tags", JsonList, StringType, Memo("payload"), ["tags"], "", false, false, None)
  const TAG := Field("tag", VirtualAlias, StringType, Column("", ""), [], "tags", false, false, None)

  const MEMO_FIELDS: seq<Field> :=
    [ScalarField("content", StringType, Memo("content"), None).(supportsContains := true),
     ScalarField("creator_id", IntType, Memo("creator_id"), EQUALITY),
     ScalarField("created_ts", TimestampType, Memo("created_ts"), None),
     ScalarField("updated_ts", TimestampType, Memo("updated_ts"), None),
     Field("pinned", BoolColumn, BoolType, Memo("pinned"), [], "", false, false, EQUALITY),
     ScalarField("visibility", StringType, Memo("visibility"), EQUALITY),
     Flag("has_task_list", "hasTaskList"),
     Flag("has_link", "hasLink"),
     Flag("has_code", "hasCode"),
     Flag("has_incomplete_tasks", "hasIncompleteTasks"),
     ScalarField("notebook_id", IntType, Memo("notebook_id"), EQUALITY),
     TAGS,
     TAG]

  const ATTACHMENT_FIELDS: seq<Field> :=
    [ScalarField("filename", StringType, Column("attachment", "filename"), None).(supportsContains := true),
     ScalarField("mime_type", StringType, Column("attachment", "type"), None),
     ScalarField("create_time", TimestampType, Column("attachment", "created_ts"), None),
     ScalarField("memo_id", IntType, Column("attachment", "memo_id"), EQUALITY)]

  /** What the compiler relies on for one field: timestamps carry the override and nothing else does, kinds
      match types, only string columns support contains(), only `tag` is an alias, and only `tags` is a list. */
  predicate FieldOk(f: Field) {
    (f.kind.Scalar? ==> (f.unixTime <==> f.ftype.TimestampType?)) &&
    (f.ftype.BoolType? <==> f.kind.BoolColumn? || f.kind.JsonBool?) &&
    (f.supportsContains ==> f.kind.Scalar? && f.ftype.StringType?) &&
    (f.kind.VirtualAlias? <==> f.name == "tag") &&
    (f.kind.VirtualAlias? ==> f == TAG) &&
    (f.kind.JsonList? ==> f == TAGS)
  }

  ghost predicate WellFormed(sc: Schema) {
    (forall n <- sc :: sc[n].name == n && FieldOk(sc[n])) && ("tag" in sc ==> Lookup(sc, "tags") == Some(TAGS))
  }

  lemma {:induction false} TableFields(fields: seq<Field>)
    requires forall f <- fields :: FieldOk(f)
    ensures forall n <- SchemaOf(fields) :: SchemaOf(fields)[n].name == n && SchemaOf(fields)[n] in fields
  {
    if fields != [] { TableFields(fields[..|fields| - 1]); }
  }

  lemma SchemasAreWellFormed()
    ensures WellFormed(SchemaOf(MEMO_FIELDS)) && WellFormed(SchemaOf(ATTACHMENT_FIELDS))
  {
    hide FieldOk, SchemaOf;
    MemoFieldsOk();
    AttachmentFieldsOk();
    TableFields(MEMO_FIELDS);
    TableFields(ATTACHMENT_FIELDS);
    TagsInMemo();
  }

  lemma TagsInMemo()
    ensures Lookup(SchemaOf(MEMO_FIELDS), "tags") == Some(TAGS)
  {
    var n := |MEMO_FIELDS| - 1;
    assert MEMO_FIELDS[..n][|MEMO_FIELDS[..n]| - 1] == TAGS;
    assert TAG.name != "tags";
  }

  lemma MemoFieldsOk()
    ensures forall f <- MEMO_FIELDS :: FieldOk(f)
  {
    forall i | 0 <= i < |MEMO_FIELDS| ensures FieldOk(MEMO_FIELDS[i]) {}
  }

  lemma AttachmentFieldsOk()
    ensures forall f <- ATTACHMENT_FIELDS :: FieldOk(f) && f.name != "tag"
  {
    forall i | 0 <= i < |ATTACHMENT_FIELDS|
      ensures FieldOk(ATTACHMENT_FIELDS[i]) && ATTACHMENT_FIELDS[i].name != "tag" {}
  }

  // ----- where the fields lie -----

  function Upper(c: char): char { if 'a' <= c <= 'z' then c - 32 as char else c }

  /** A name in the spelling of JSON: `has_link` is `hasLink`. */
  function Camel(name: string): string {
    if name == "" then ""
    else if name[0] == '_' && |name| > 1 then [Upper(name[1])] + Camel(name[2..])
    else [name[0]] + Camel(name[1..])
  }

  predicate Ends(s: string, end: string) { |end| <= |s| && s[|s| - |end|..] == end }

  /** A field of memos lies in the column of its name, or in the payload under its name; the name tells its type; and
      only texts to be searched, times and tags may be compared other than for equality. */
  predicate MemoFieldOk(f: Field) {
    (f.kind.Scalar? || f.kind.BoolColumn? ==> f.column == Column("memo", f.name)) &&
    (f.kind.JsonBool? ==> f.column == Column("memo", "payload") && f.jsonPath == ["property", Camel(f.name)]) &&
    (f.kind.JsonList? ==> f.column == Column("memo", "payload") && f.jsonPath == [f.name]) &&
    (f.kind.Scalar? ==>
       (f.ftype.TimestampType? <==> Ends(f.name, "_ts")) && (f.ftype.IntType? <==> Ends(f.name, "_id"))) &&
    (f.supportsContains <==> f.name == "content") &&
    f.allowedOps == if f.supportsContains || f.ftype.TimestampType? || f.kind.JsonList? || f.kind.VirtualAlias? then
                      None
                    else Some({Eq, Neq})
  }

  lemma MemoFieldsLie()
    ensures forall f <- MEMO_FIELDS :: MemoFieldOk(f)
  {
    hide Ends, Camel;
    ShortSpellings();
    TaskListSpelling();
    IncompleteTasksSpelling();
    Endings();
    forall i | 0 <= i < |MEMO_FIELDS| ensures MemoFieldOk(MEMO_FIELDS[i]) {}
  }

  lemma {:induction false} CamelWord(word: string, rest: string)
    requires '_' !in word
    ensures Camel(word + rest) == word + Camel(rest)
  {
    if word == "" {
      assert word + rest == rest;
    } else {
      CamelWord(word[1..], rest);
      assert (word + rest)[1..] == word[1..] + rest;
    }
  }

  /** A word, and after an underscore another word with its first letter apart. */
  lemma CamelTwo(word: string, c: char, rest: string)
    requires '_' !in word
    ensures Camel(word + ("_" + ([c] + rest))) == word + ([Upper(c)] + Camel(rest))
  {
    hide Camel;
    CamelWord(word, "_" + ([c] + rest));
    CamelHump(c, rest);
  }

  lemma CamelHump(c: char, rest: string)
    ensures Camel("_" + ([c] + rest)) == [Upper(c)] + Camel(rest)
  {
    assert ("_" + ([c] + rest))[2..] == rest;
  }

  lemma CamelEnd(word: string)
    requires '_' !in word
    ensures Camel(word) == word
  {
    CamelWord(word, "");
    assert word + "" == word && Camel("") == "";
  }

  lemma ShortSpellings()
    ensures Camel("has_link") == "hasLink" && Camel("has_code") == "hasCode"
  {
    hide Camel;
    CamelEnd("ink");
    CamelTwo("has", 'l', "ink");
    CamelEnd("ode");
    CamelTwo("has", 'c', "ode");
    assert "has" + ("_" + (['l'] + "ink")) == "has_link" && "has" + (['L'] + "ink") == "hasLink";
    assert "has" + ("_" + (['c'] + "ode")) == "has_code" && "has" + (['C'] + "ode") == "hasCode";
  }

  lemma TaskListSpelling()
    ensures Camel("has_task_list") == "hasTaskList"
  {
    hide Camel;
    CamelEnd("ist");
    CamelTwo("ask", 'l', "ist");
    CamelTwo("has", 't', "ask" + ("_" + (['l'] + "ist")));
    assert "has" + ("_" + (['t'] + ("ask" + ("_" + (['l'] + "ist"))))) == "has_task_list";
    assert "has" + (['T'] + ("ask" + (['L'] + "ist"))) == "hasTaskList";
  }

  lemma IncompleteTasksSpelling()
    ensures Camel("has_incomplete_tasks") == "hasIncompleteTasks"
  {
    hide Camel;
    CamelEnd("asks");
    CamelTwo("ncomplete", 't', "asks");
    CamelTwo("has", 'i', "ncomplete" + ("_" + (['t'] + "asks")));
    assert "has" + ("_" + (['i'] + ("ncomplete" + ("_" + (['t'] + "asks"))))) == "has_incomplete_tasks";
    assert "has" + (['I'] + ("ncomplete" + (['T'] + "asks"))) == "hasIncompleteTasks";
  }

  lemma Endings()
    ensures Ends("created_ts", "_ts") && Ends("updated_ts", "_ts") && Ends("creator_id", "_id")
    ensures Ends("notebook_id", "_id")
    ensures !Ends("content", "_ts") && !Ends("visibility", "_ts") && !Ends("creator_id", "_ts")
    ensures !Ends("notebook_id", "_ts")
    ensures !Ends("content", "_id") && !Ends("visibility", "_id") && !Ends("created_ts", "_id")
    ensures !Ends("updated_ts", "_id")
  {}
}
