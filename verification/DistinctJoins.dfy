/** DISTINCT over one join, when the selected columns are those of the left table. */
module DistinctJoins {
  import opened Ir
  import opened Lists
  import opened Semantics
  import opened Pipeline
  import opened Constraints
  import opened Rewrites
  import opened TableRows
  import opened Distinct
  import opened JoinElimination
  import JoinToExists

  /** A row-level query of a table joined by column equalities that selects columns of that table. */
  predicate LeftOfJoin(q: SelectQuery) {
    && |q.joins| == 1 && q.table.Some? && q.joins[0].subquery.None? && RowLevel(q)
    && q.SourceName() != q.joins[0].RelationName()
    && (forall p :: p in q.projections ==> JoinToExists.LeftItem(p, q.SourceName()))
    && JoinPairs(q.joins[0].Conditions(), q.SourceName(), q.joins[0].RelationName()).Some?
  }

  function JoinKey(q: SelectQuery): seq<KeyPair>
    requires LeftOfJoin(q)
  {
    JoinPairs(q.joins[0].Conditions(), q.SourceName(), q.joins[0].RelationName()).value
  }

  function NonEmpty<T, U>(f: T -> seq<U>): T -> bool {
    x => f(x) != []
  }

  /** Expanding each element to at most one, which looks like it, keeps the images of those that expand at all. */
  lemma FlatMapImages<T(!new), U(!new), V(!new)>(f: T -> seq<U>, h: U -> V, g: T -> V, s: seq<T>)
    requires forall x :: x in s ==> |f(x)| <= 1 && forall y :: y in f(x) ==> h(y) == g(x)
    ensures Map(h, FlatMap(f, s)) == Map(g, Filter(NonEmpty(f), s))
  {
    var single := (x: T) => [g(x)];
    var images := (x: T) => Map(h, f(x));
    forall x | x in s ensures images(x) == if NonEmpty(f)(x) then single(x) else [] {
      if f(x) != [] {
        assert f(x)[0] in f(x);
      }
    }
    MapFlatMap(h, f, images, s);
    FlatMapFilter(images, single, NonEmpty(f), s);
    FlatMapSingle(single, g, Filter(NonEmpty(f), s));
  }

  lemma PlainLeft(q: SelectQuery)
    requires LeftOfJoin(q)
    ensures PlainColumns(q.projections) && NoStars(q.projections) && ItemsInScope(q)
  {
    forall p | p in q.projections ensures p.Column? && InScope(q, p.column) {
      assert JoinToExists.LeftItem(p, q.SourceName());
    }
  }

  /** A joined row shows the columns of its left row. */
  lemma JoinedLooksLikeLeft(w: World, q: SelectQuery, rec: Record, y: Env)
    requires LeftOfJoin(q)
    requires y in JoinRow(w.engine, q.joins[0], JoinRelation(w, q.joins[0]))([Binding(q.SourceName(), rec)])
    ensures RowRecord(w, q.projections)(y) == RowRecord(w, q.projections)([Binding(q.SourceName(), rec)])
  {
    var j, env, rel := q.joins[0], [Binding(q.SourceName(), rec)], JoinRelation(w, q.joins[0]);
    if y in Matches(w.engine, j, rel, env) {
      assert y in Map(Extend(env, j.RelationName()), rel.rows);
      var k :| 0 <= k < |rel.rows| && y == Extend(env, j.RelationName())(rel.rows[k]);
      JoinToExists.ProjectStays(w, q, q.projections, rec, j.RelationName(), rel.rows[k]);
    } else {
      JoinToExists.ProjectStays(w, q, q.projections, rec, j.RelationName(), NullRecord(rel.cols));
    }
  }

  /** A unique key of the joined table inside the join columns leaves each left row once, and a key of the left table
      keeps those apart. */
  lemma KeyedJoinApart(w: World, q: SelectQuery, t: TableConstraints, joined: TableConstraints)
    requires LeftOfJoin(q) && TableMeets(w, RowsOf(w, q), t) && TableMeets(w, JoinRelation(w, q.joins[0]).rows, joined)
    requires t.NonNullUniqueKeyContainedIn(ItemNames(q.projections)).Some?
    requires joined.UniqueKeyContainedIn(Rights(JoinKey(q))).Some?
    ensures NoDuplicates(Map(RowRecord(w, q.projections), FromRows(w, q)))
  {
    var r, j, rel := q.(joins := []), q.joins[0], JoinRelation(w, q.joins[0]);
    var f, show, xs := JoinRow(w.engine, j, rel), RowRecord(w, q.projections), SourceRows(q, SourceRelation(w, q));
    var key := joined.UniqueKeyContainedIn(Rights(JoinKey(q))).value;
    PlainLeft(q);
    PlainColumnNames(q.projections);
    OneJoin(w, q);
    RowsProjectApart(w, r, t);
    FilterApart(NonEmpty(f), show, xs);
    forall x | x in xs ensures |f(x)| <= 1 && forall y :: y in f(x) ==> show(y) == show(x) {
      var i :| 0 <= i < |xs| && xs[i] == x;
      var rec := SourceRelation(w, q).rows[i];
      assert x == [Binding(q.SourceName(), rec)];
      AtMostOneMatch(w, j, rel, q.SourceName(), rec, key);
      forall y | y in f(x) ensures show(y) == show(x) {
        JoinedLooksLikeLeft(w, q, rec, y);
      }
    }
    FlatMapImages(f, show, show, xs);
  }

  /** DISTINCT then removes nothing, after any filter. */
  lemma KeyedJoinNoop(w: World, q: SelectQuery, t: TableConstraints, joined: TableConstraints)
    requires LeftOfJoin(q) && TableMeets(w, RowsOf(w, q), t) && TableMeets(w, JoinRelation(w, q.joins[0]).rows, joined)
    requires t.NonNullUniqueKeyContainedIn(ItemNames(q.projections)).Some?
    requires joined.UniqueKeyContainedIn(Rights(JoinKey(q))).Some? && q.distinct
    ensures Eval(w, q) == Eval(w, q.(distinct := false))
  {
    hide TableMeets;
    hide Body;
    var r := q.(distinct := false);
    KeyedJoinApart(w, q, t, joined);
    FilterApart(WhereHolds(w, q.predicates), RowRecord(w, q.projections), FromRows(w, q));
    SameFrom(w, q, r);
    RowLevelRecords(w, r, FromRows(w, q));
    DistinctBody(w, q, FromRows(w, q));
    DistinctRowsAll(Body(w, r, FromRows(w, q)));
    SameEval(w, q, r);
  }

  /** A left join or inner join of one row with its one match. */
  lemma OneMatchRow(w: World, q: SelectQuery, rec: Record, row: Record)
    requires |q.joins| == 1 && q.table.Some? && RowsOf(w, q) == [rec] && JoinRelation(w, q.joins[0]).rows == [row]
    requires OnHolds(w.engine, q.joins[0].Conditions())([Binding(q.SourceName(), rec),
      Binding(q.joins[0].RelationName(), row)])
    ensures FromRows(w, q) == [[Binding(q.SourceName(), rec), Binding(q.joins[0].RelationName(), row)]]
  {
    hide OnHolds;
    hide JoinRelation;
    var j, rel, env := q.joins[0], JoinRelation(w, q.joins[0]), [Binding(q.SourceName(), rec)];
    var both := env + [Binding(j.RelationName(), row)];
    assert both == [env[0], Binding(j.RelationName(), row)];
    OneJoin(w, q);
    assert SourceRows(q, SourceRelation(w, q)) == [env];
    assert Map(Extend(env, j.RelationName()), rel.rows) == [both];
    FilterAll(OnHolds(w.engine, j.Conditions()), [both]);
    var f := JoinRow(w.engine, j, rel);
    assert f(env) == [both];
    FlatMapOne(f, env);
  }

  /** One left row with two matches. */
  lemma TwoMatchRows(w: World, q: SelectQuery, rec: Record, x: Record, y: Record)
    requires |q.joins| == 1 && q.table.Some? && RowsOf(w, q) == [rec] && JoinRelation(w, q.joins[0]).rows == [x, y]
    requires var a, r, on := Binding(q.SourceName(), rec), q.joins[0].RelationName(),
      OnHolds(w.engine, q.joins[0].Conditions());
             on([a, Binding(r, x)]) && on([a, Binding(r, y)])
    ensures var a, r := Binding(q.SourceName(), rec), q.joins[0].RelationName();
            FromRows(w, q) == [[a, Binding(r, x)], [a, Binding(r, y)]]
  {
    hide OnHolds;
    hide JoinRelation;
    var j, rel, env := q.joins[0], JoinRelation(w, q.joins[0]), [Binding(q.SourceName(), rec)];
    var ms := [env + [Binding(j.RelationName(), x)], env + [Binding(j.RelationName(), y)]];
    assert ms[0] == [env[0], Binding(j.RelationName(), x)] && ms[1] == [env[0], Binding(j.RelationName(), y)];
    OneJoin(w, q);
    assert SourceRows(q, SourceRelation(w, q)) == [env];
    assert Map(Extend(env, j.RelationName()), rel.rows) == ms;
    FilterAll(OnHolds(w.engine, j.Conditions()), ms);
    var f := JoinRow(w.engine, j, rel);
    assert f(env) == ms;
    FlatMapOne(f, env);
  }

  lemma FlatMapOne<T, U>(f: T -> seq<U>, x: T)
    ensures FlatMap(f, [x]) == f(x)
  {
    assert [x][1..] == [] && FlatMap(f, [x]) == f(x) + FlatMap(f, []);
  }
}
