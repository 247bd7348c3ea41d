/** The joining of several filters into one query. */
module FilterQuery {
  import opened Options
  import opened FilterSchema
  import opened Sql
  import opened FilterRender
  import opened FilterArgs
  import opened FilterOffset

  /** The WHERE list and argument list a store driver hands over. */
  class Query {
    var clauses: seq<Sql>
    var args: seq<Value>

    constructor (clauses: seq<Sql>, args: seq<Value>)
      ensures this.clauses == clauses && this.args == args
    {
      this.clauses, this.args := clauses, args;
    }

    /** Renders the filters one after the other, each at the offset of the arguments there are; a filter with
        empty SQL adds nothing at all, and the first filter that fails ends the work. */
    method AppendConditions(sc: Schema, d: Dialect, filters: seq<Condition>) returns (err: Option<string>)
      modifies this
      ensures (clauses, args, err) == Appended(sc, d, filters, old(clauses), old(args))
    {
      hide Render;
      var k := 0;
      while k < |filters|
        invariant 0 <= k <= |filters|
        invariant Appended(sc, d, filters[k..], clauses, args) == Appended(sc, d, filters, old(clauses), old(args))
      {
        var renderer := new Renderer(sc, d, |args|);
        var stmt := renderer.Run(filters[k]);
        assert filters[k..][1..] == filters[k + 1..];
        if stmt.Err? {
          return Some(stmt.error);
        }
        if stmt.value.sql.Some? {
          clauses := clauses + [stmt.value.sql.value];
          args := args + stmt.value.args;
        }
        k := k + 1;
      }
      return None;
    }
  }

  function Appended(sc: Schema, d: Dialect, filters: seq<Condition>, clauses: seq<Sql>, args: seq<Value>)
    : (seq<Sql>, seq<Value>, Option<string>)
    decreases |filters|
  {
    if filters == [] then (clauses, args, None)
    else match Render(sc, d, |args|, filters[0])
      case Err(e) => (clauses, args, Some(e))
      case Ok(o) =>
        match ToStatement(o.0, o.1).sql
        case None => Appended(sc, d, filters[1..], clauses, args)
        case Some(s) => Appended(sc, d, filters[1..], clauses + [s], args + o.1)
  }

  /** The first filter that does not render ends the work with its error, and what was appended before it stays; when
      all render there is no error. */
  lemma {:induction false} FirstErrorEnds(sc: Schema, d: Dialect, good: seq<Condition>, rest: seq<Condition>,
                                          clauses: seq<Sql>, args: seq<Value>)
    requires forall f <- good :: Render(sc, d, 0, f).Ok?
    requires rest == [] || Render(sc, d, 0, rest[0]).Err?
    ensures var before := Appended(sc, d, good, clauses, args);
            Appended(sc, d, good + rest, clauses, args)
            == (before.0, before.1, if rest == [] then None else Some(Render(sc, d, 0, rest[0]).error))
    decreases |good|
  {
    hide Render;
    if good == [] {
      assert good + rest == rest;
      if rest != [] { RenderShifts(sc, d, 0, rest[0], |args|); }
    } else {
      var f := good[0];
      assert f in good && forall g <- good[1..] :: g in good;
      assert (good + rest)[0] == f && (good + rest)[1..] == good[1..] + rest;
      RenderShifts(sc, d, 0, f, |args|);
      var o := Render(sc, d, |args|, f).value;
      match ToStatement(o.0, o.1).sql {
        case None => FirstErrorEnds(sc, d, good[1..], rest, clauses, args);
        case Some(c) => FirstErrorEnds(sc, d, good[1..], rest, clauses + [c], args + o.1);
      }
    }
  }

  /** The number of placeholders in a list of clauses. */
  function PlaceholderCount(clauses: seq<Sql>): nat {
    if clauses == [] then 0
    else PlaceholderCount(clauses[..|clauses| - 1]) + |Slots(clauses[|clauses| - 1])|
  }

  /** Every placeholder of every clause asks for its own argument in the joined query. */
  ghost predicate AllBound(clauses: seq<Sql>, args: seq<Value>) {
    forall k | 0 <= k < |clauses| :: Bound(PlaceholderCount(clauses[..k]), Slots(clauses[k]), args)
  }

  /** Every filter that adds a clause keeps its arguments. */
  predicate AllKeepArgs(sc: Schema, d: Dialect, filters: seq<Condition>) {
    forall f <- filters :: Folded(f) == Some(true) || KeepsArgs(sc, d, f)
  }

  lemma BoundMore(before: nat, slots: seq<Slot>, all: seq<Value>, more: seq<Value>)
    requires Bound(before, slots, all)
    ensures Bound(before, slots, all + more)
  {
    forall i | 0 <= i < |slots| ensures ArgumentFor(slots[i].token, before + i, all + more) == Some(slots[i].v) {
      assert ArgumentFor(slots[i].token, before + i, all) == Some(slots[i].v);
    }
  }

  lemma AllBoundPush(clauses: seq<Sql>, args: seq<Value>, c: Sql, more: seq<Value>)
    requires AllBound(clauses, args) && Bound(PlaceholderCount(clauses), Slots(c), args + more)
    ensures AllBound(clauses + [c], args + more)
    ensures PlaceholderCount(clauses + [c]) == PlaceholderCount(clauses) + |Slots(c)|
  {
    hide Bound, Slots;
    var all := clauses + [c];
    assert all[..|all| - 1] == clauses;
    forall k | 0 <= k < |all| ensures Bound(PlaceholderCount(all[..k]), Slots(all[k]), args + more) {
      if k < |clauses| {
        assert all[..k] == clauses[..k];
        BoundMore(PlaceholderCount(all[..k]), Slots(all[k]), args, more);
      } else {
        assert all[..k] == clauses;
      }
    }
  }

  lemma StatementSlots(r: Rendered, args: seq<Value>)
    ensures var st := ToStatement(r, args);
            if r.Trivial? then st.sql.None? else st.sql.Some? && Slots(st.sql.value) == SlotsOf(r)
  {}

  /** Postgres: after any list of filters, every `$k` of the joined query asks for the argument it was emitted for. */
  lemma {:induction false} JoinedPostgresFilters(sc: Schema, filters: seq<Condition>, clauses: seq<Sql>,
                                                 args: seq<Value>)
    requires AllBound(clauses, args)
    ensures AllBound(Appended(sc, Postgres, filters, clauses, args).0, Appended(sc, Postgres, filters, clauses, args).1)
    decreases |filters|
  {
    hide AllBound, Render, Slots, Bound;
    if filters != [] && Render(sc, Postgres, |args|, filters[0]).Ok? {
      var o := Render(sc, Postgres, |args|, filters[0]).value;
      var st := ToStatement(o.0, o.1).sql;
      if st.Some? {
        PostgresBindsItsOwn(sc, filters[0], args, [], PlaceholderCount(clauses));
        assert args + o.1 + [] == args + o.1;
        StatementSlots(o.0, o.1);
        AllBoundPush(clauses, args, st.value, o.1);
        JoinedPostgresFilters(sc, filters[1..], clauses + [st.value], args + o.1);
      } else {
        JoinedPostgresFilters(sc, filters[1..], clauses, args);
      }
    }
  }

  /** The filters render, at whatever offset. */
  predicate AllRender(sc: Schema, d: Dialect, filters: seq<Condition>) {
    forall f <- filters :: Render(sc, d, 0, f).Ok?
  }

  lemma RendersAnywhere(sc: Schema, d: Dialect, n: nat, f: Condition)
    ensures Render(sc, d, n, f).Ok? <==> Render(sc, d, 0, f).Ok?
  {
    hide Render;
    RenderShifts(sc, d, 0, f, n);
  }

  lemma TrivialIff(r: Rendered, folded: Option<bool>)
    requires Stands(r, folded)
    ensures r.Trivial? <==> folded == Some(true)
  {}

  /** SQLite and MySQL: if the query handed over uses its arguments exactly, then after the filters it still
      does, with every placeholder asking for its own, if and only if no appended filter drops arguments. */
  lemma {:induction false} JoinedQuestionMarkFilters(sc: Schema, d: Dialect, filters: seq<Condition>,
                                                     clauses: seq<Sql>, args: seq<Value>)
    requires !d.Postgres? && AllBound(clauses, args) && PlaceholderCount(clauses) == |args| && AllRender(sc, d, filters)
    ensures var r := Appended(sc, d, filters, clauses, args);
            r.2 == None && (AllBound(r.0, r.1) && PlaceholderCount(r.0) == |r.1| <==> AllKeepArgs(sc, d, filters))
    decreases |filters|
  {
    hide AllBound, Render, Slots, KeepsArgs, Bound, Stands, Folded;
    if filters != [] {
      var f, rest := filters[0], filters[1..];
      assert filters == [f] + rest;
      RendersAnywhere(sc, d, |args|, f);
      var o := Render(sc, d, |args|, f).value;
      StatementSlots(o.0, o.1);
      FoldedIsRendered(sc, d, |args|, f);
      TrivialIff(o.0, Folded(f));
      if o.0.Trivial? {
        JoinedQuestionMarkFilters(sc, d, rest, clauses, args);
      } else {
        var c := ToStatement(o.0, o.1).sql.value;
        QuestionMarksBindIff(sc, d, f, args, []);
        assert args + o.1 + [] == args + o.1;
        assert (clauses + [c])[..|clauses|] == clauses;
        if KeepsArgs(sc, d, f) {
          AllBoundPush(clauses, args, c, o.1);
          JoinedQuestionMarkFilters(sc, d, rest, clauses + [c], args + o.1);
        } else {
          FewerPlaceholders(sc, d, f, |args|);
          ShortfallRemains(sc, d, rest, clauses + [c], args + o.1);
        }
      }
    }
  }

  lemma FewerPlaceholders(sc: Schema, d: Dialect, f: Condition, n: nat)
    requires Render(sc, d, n, f).Ok?
    ensures var o := Render(sc, d, n, f).value;
            |SlotsOf(o.0)| <= |o.1| && (!KeepsArgs(sc, d, f) ==> |SlotsOf(o.0)| < |o.1|)
  {
    hide Render, KeepsArgs, SlotsOf;
    SlotsAreEmitted(sc, d, n, f);
  }

  /** Arguments without a placeholder are never made up for by later filters. */
  lemma {:induction false} ShortfallRemains(sc: Schema, d: Dialect, filters: seq<Condition>, clauses: seq<Sql>,
                                            args: seq<Value>)
    requires AllRender(sc, d, filters)
    ensures var r := Appended(sc, d, filters, clauses, args);
            r.2 == None && |r.1| - PlaceholderCount(r.0) >= |args| - PlaceholderCount(clauses)
    decreases |filters|
  {
    hide Render, Slots, KeepsArgs;
    if filters != [] {
      var f, rest := filters[0], filters[1..];
      assert filters == [f] + rest;
      RendersAnywhere(sc, d, |args|, f);
      var o := Render(sc, d, |args|, f).value;
      StatementSlots(o.0, o.1);
      if o.0.Trivial? {
        ShortfallRemains(sc, d, rest, clauses, args);
      } else {
        var c := ToStatement(o.0, o.1).sql.value;
        FewerPlaceholders(sc, d, f, |args|);
        assert (clauses + [c])[..|clauses|] == clauses;
        ShortfallRemains(sc, d, rest, clauses + [c], args + o.1);
      }
    }
  }

  // ----- running the joined query -----

  /** Running the clauses joined by AND; an error in one is an error of the query. */
  function ExecuteAll(db: Database, clauses: seq<Sql>, args: seq<Value>): Option<Truth> {
    if clauses == [] then Some(True)
    else
      var n := |clauses| - 1;
      var front := ExecuteAll(db, clauses[..n], args);
      var last := Execute(db, clauses[n], PlaceholderCount(clauses[..n]), args);
      if front.None? || last.None? then None else Some(front.value.And(last.value))
  }

  /** The intended meaning of the clauses. */
  function EvalAll(db: Database, clauses: seq<Sql>): Truth {
    if clauses == [] then True else EvalAll(db, clauses[..|clauses| - 1]).And(Eval(db, clauses[|clauses| - 1]))
  }

  predicate AllParse(d: Dialect, clauses: seq<Sql>) { forall c <- clauses :: Parses(d, c) }

  /** A joined query in which every placeholder asks for its own argument has, when it is run, its intended meaning. */
  lemma {:induction false} BoundQueryExecutes(db: Database, clauses: seq<Sql>, args: seq<Value>)
    requires AllBound(clauses, args) && AllParse(db.d, clauses)
    ensures ExecuteAll(db, clauses, args) == Some(EvalAll(db, clauses))
  {
    hide Parses, Execute, Eval, Bound;
    if clauses != [] {
      var n := |clauses| - 1;
      forall k | 0 <= k < n ensures Bound(PlaceholderCount(clauses[..n][..k]), Slots(clauses[..n][k]), args) {
        assert clauses[..n][..k] == clauses[..k];
      }
      BoundQueryExecutes(db, clauses[..n], args);
      BoundExecutes(db, clauses[n], PlaceholderCount(clauses[..n]), args);
    }
  }

  /** The filters find their arguments. */
  predicate AllFindArgs(sc: Schema, d: Dialect, filters: seq<Condition>) { d.Postgres? || AllKeepArgs(sc, d, filters) }

  predicate AllListsParse(d: Dialect, filters: seq<Condition>) { forall f <- filters :: KeptListsParse(d, f) }

  /** The meanings of the rendered filters, joined by AND; `n` is the offset of the first. */
  function MeaningOfAll(db: Database, sc: Schema, filters: seq<Condition>, n: nat): Truth
    requires AllRender(sc, db.d, filters)
    decreases |filters|
  {
    if filters == [] then True
    else
      RendersAnywhere(sc, db.d, n, filters[0]);
      var o := Render(sc, db.d, n, filters[0]).value;
      assert forall f <- filters[1..] :: f in filters;
      Meaning(db, o.0).And(MeaningOfAll(db, sc, filters[1..], if o.0.Trivial? then n else n + |o.1|))
  }

  /** The clauses appended mean the filters appended. */
  lemma {:induction false} AppendedMeans(db: Database, sc: Schema, filters: seq<Condition>, clauses: seq<Sql>,
                                         args: seq<Value>)
    requires AllRender(sc, db.d, filters) && AllListsParse(db.d, filters) && AllParse(db.d, clauses)
    ensures var r := Appended(sc, db.d, filters, clauses, args);
            AllParse(db.d, r.0) && EvalAll(db, r.0) == EvalAll(db, clauses).And(MeaningOfAll(db, sc, filters, |args|))
    decreases |filters|
  {
    hide Render, Eval, Parses, KeptListsParse, Meaning;
    if filters == [] {
      AndTrue(EvalAll(db, clauses));
    } else {
      var f, rest := filters[0], filters[1..];
      assert filters == [f] + rest;
      RendersAnywhere(sc, db.d, |args|, f);
      var o := Render(sc, db.d, |args|, f).value;
      StatementMeans(db, o.0, o.1);
      RenderParsesIff(sc, db.d, |args|, f);
      if o.0.Trivial? {
        AppendedMeans(db, sc, rest, clauses, args);
        AndTrue(MeaningOfAll(db, sc, rest, |args|));
      } else {
        var c := ToStatement(o.0, o.1).sql.value;
        assert (clauses + [c])[..|clauses|] == clauses;
        AppendedMeans(db, sc, rest, clauses + [c], args + o.1);
        AndAssociates(EvalAll(db, clauses), Eval(db, c), MeaningOfAll(db, sc, rest, |args + o.1|));
      }
    }
  }

  lemma StatementMeans(db: Database, r: Rendered, args: seq<Value>)
    ensures var st := ToStatement(r, args);
            if r.Trivial? then st.sql.None? && Meaning(db, r) == True
            else st.sql.Some? && Eval(db, st.sql.value) == Meaning(db, r) &&
                 (ResultParses(db.d, r) ==> Parses(db.d, st.sql.value))
  {}

  lemma AndTrue(a: Truth)
    ensures a.And(True) == a && True.And(a) == a
  {}

  lemma AndAssociates(a: Truth, b: Truth, c: Truth)
    ensures a.And(b).And(c) == a.And(b.And(c))
  {}

  /** A query built from nothing but filters is, when it is run, the conjunction of what the filters mean:
      unconditionally on Postgres, and with `?` when no filter drops arguments. */
  lemma JoinedFiltersExecute(db: Database, sc: Schema, filters: seq<Condition>)
    requires AllRender(sc, db.d, filters) && AllListsParse(db.d, filters) && AllFindArgs(sc, db.d, filters)
    ensures var r := Appended(sc, db.d, filters, [], []);
            ExecuteAll(db, r.0, r.1) == Some(MeaningOfAll(db, sc, filters, 0))
  {
    hide Render, AllKeepArgs, AllListsParse, AllParse, AllBound;
    assert AllBound([], []) && AllParse(db.d, []) by { NoClauses(db.d); }
    if db.d.Postgres? {
      JoinedPostgresFilters(sc, filters, [], []);
    } else {
      JoinedQuestionMarkFilters(sc, db.d, filters, [], []);
    }
    AppendedMeans(db, sc, filters, [], []);
    var r := Appended(sc, db.d, filters, [], []);
    BoundQueryExecutes(db, r.0, r.1);
    AndTrue(MeaningOfAll(db, sc, filters, 0));
  }

  lemma NoClauses(d: Dialect)
    ensures AllBound([], []) && AllParse(d, []) && PlaceholderCount([]) == 0
  {}
}
