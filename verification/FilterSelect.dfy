/** The rows a list of filters selects. */
module FilterSelect {
  import opened Options
  import opened FilterSchema
  import opened FilterRender
  import opened FilterArgs
  import opened FilterQuery
  import opened FilterMeaning
  import opened FilterCompile
  import opened FilterCorrect
  import Sql

  /** The condition trees of the filters. */
  function Built(es: seq<Expr>, sc: Schema, now: int): (r: seq<Condition>)
    requires forall e <- es :: BuildCondition(e, sc, now).Ok?
    ensures |r| == |es| && forall i | 0 <= i < |es| :: r[i] == BuildCondition(es[i], sc, now).value
  {
    seq(|es|, i requires 0 <= i < |es| => BuildCondition(es[i], sc, now).value)
  }

  /** Every filter compiles for the dialect, is admissible, and has a truth value on the row. */
  ghost predicate AllAnswerable(es: seq<Expr>, sc: Schema, db: Sql.Database, now: int) {
    forall e <- es ::
      BuildCondition(e, sc, now).Ok? && Render(sc, db.d, 0, BuildCondition(e, sc, now).value).Ok? &&
      Admissible(sc, db, e, BuildCondition(e, sc, now).value) && IsTruth(Eval(e, EnvOf(sc, db, now)))
  }

  /** The filter is true of the row, or false of it, and its condition has an answer on the row. */
  ghost predicate Says(e: Expr, sc: Schema, db: Sql.Database, now: int, b: bool) {
    BuildCondition(e, sc, now).Ok? && AnswersOn(sc, db, BuildCondition(e, sc, now).value) &&
    Eval(e, EnvOf(sc, db, now)) == Some(VBool(b))
  }

  ghost predicate AllSayTrue(es: seq<Expr>, sc: Schema, db: Sql.Database, now: int) {
    forall e <- es :: Says(e, sc, db, now, true)
  }

  ghost predicate SomeSaysFalse(es: seq<Expr>, sc: Schema, db: Sql.Database, now: int) {
    exists e <- es :: Says(e, sc, db, now, false)
  }

  lemma FilterMeans(e: Expr, sc: Schema, db: Sql.Database, now: int, n: nat)
    requires AllAnswerable([e], sc, db, now)
    ensures Render(sc, db.d, n, BuildCondition(e, sc, now).value).Ok?
    ensures var t := Meaning(db, Render(sc, db.d, n, BuildCondition(e, sc, now).value).value.0);
            (t.True? <==> Says(e, sc, db, now, true)) && (t.False? <==> Says(e, sc, db, now, false))
  {
    hide BuildCondition, Render, Eval, SearchesOk, MacroShaped, Ref, Meaning, SearchesText, EnvOf, AnswersOn,
         DatabaseOk;
    assert e in [e];
    RendersAnywhere(sc, db.d, n, BuildCondition(e, sc, now).value);
    BuiltSearchesText(e, sc, now);
    RenderMeans(sc, db, n, BuildCondition(e, sc, now).value);
    RefIsCel(e, sc, db, now, n);
  }

  lemma {:induction false} ConjunctionMeans(es: seq<Expr>, sc: Schema, db: Sql.Database, now: int, n: nat)
    requires AllAnswerable(es, sc, db, now) && AllRender(sc, db.d, Built(es, sc, now))
    ensures var t := MeaningOfAll(db, sc, Built(es, sc, now), n);
            (t.True? <==> AllSayTrue(es, sc, db, now)) && (t.False? <==> SomeSaysFalse(es, sc, db, now))
    decreases |es|
  {
    hide BuildCondition, Render, Eval, Admissible, Meaning, EnvOf, AllSayTrue, SomeSaysFalse, Sql.Truth.And;
    if es == [] {
      NobodySays(sc, db, now);
    } else {
      var e, rest := es[0], es[1..];
      assert es == [e] + rest;
      assert Built(es, sc, now)[1..] == Built(rest, sc, now);
      FilterMeans(e, sc, db, now, n);
      var o := Render(sc, db.d, n, Built(es, sc, now)[0]).value;
      var after := if o.0.Trivial? then n else n + |o.1|;
      ConjunctionMeans(rest, sc, db, now, after);
      Conjunction(Meaning(db, o.0), MeaningOfAll(db, sc, Built(rest, sc, now), after));
      OneMoreSays(e, rest, sc, db, now);
    }
  }

  lemma Conjunction(t: Sql.Truth, u: Sql.Truth)
    ensures (t.And(u).True? <==> t.True? && u.True?) && (t.And(u).False? <==> t.False? || u.False?)
  {}

  lemma NobodySays(sc: Schema, db: Sql.Database, now: int)
    ensures AllSayTrue([], sc, db, now) && !SomeSaysFalse([], sc, db, now)
  {}

  lemma OneMoreSays(e: Expr, rest: seq<Expr>, sc: Schema, db: Sql.Database, now: int)
    ensures AllSayTrue([e] + rest, sc, db, now) <==> Says(e, sc, db, now, true) && AllSayTrue(rest, sc, db, now)
    ensures SomeSaysFalse([e] + rest, sc, db, now) <==>
            Says(e, sc, db, now, false) || SomeSaysFalse(rest, sc, db, now)
  {
    hide Says;
    var es := [e] + rest;
    assert e in es && forall x <- rest :: x in es;
  }

  /** A query made of filters alone selects a row exactly when all of them are true of it and each has an answer on
      it, and its result is false exactly when one of them that has an answer is false: on Postgres whatever the
      filters are, with `?` when no filter drops arguments, and with lists the dialect accepts. */
  lemma FiltersSelectTheirRows(es: seq<Expr>, sc: Schema, db: Sql.Database, now: int)
    requires AllAnswerable(es, sc, db, now)
    requires AllFindArgs(sc, db.d, Built(es, sc, now)) && AllListsParse(db.d, Built(es, sc, now))
    ensures var q := Appended(sc, db.d, Built(es, sc, now), [], []);
            var r := ExecuteAll(db, q.0, q.1);
            r.Some? && (r.value.True? <==> AllSayTrue(es, sc, db, now)) &&
            (r.value.False? <==> SomeSaysFalse(es, sc, db, now))
  {
    hide BuildCondition, Render, Eval, Admissible, EnvOf, AllFindArgs, AllListsParse, AllSayTrue, SomeSaysFalse;
    forall f | f in Built(es, sc, now) ensures Render(sc, db.d, 0, f).Ok? {
      var i :| 0 <= i < |es| && Built(es, sc, now)[i] == f;
      assert es[i] in es;
    }
    JoinedFiltersExecute(db, sc, Built(es, sc, now));
    ConjunctionMeans(es, sc, db, now, 0);
  }
}
