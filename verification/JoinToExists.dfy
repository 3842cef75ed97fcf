/** Replacing SELECT DISTINCT over an INNER JOIN by a correlated EXISTS. */
module JoinToExists {
  import opened Ir
  import opened Lists
  import opened Semantics
  import opened Pipeline
  import opened Constraints
  import opened Rewrites
  import opened TableRows
  import opened Distinct
  import opened JoinElimination

  predicate LeftFilter(p: WherePredicate, left: string) {
    (p.Compare? || p.InList?) && p.left.table == Some(left)
  }

  predicate LeftItem(p: Projection, left: string) {
    p.Column? && p.column.table == Some(left)
  }

  predicate Connects(j: Join, left: string) {
    {j.condition.left.Table(), j.condition.right.Table()} == {Some(left), Some(j.RelationName())}
  }

  function ExistsFor(j: Join): WherePredicate {
    Exists(j.table, j.alias, false, j.condition)
  }

  /** The constraints play no part. */
  function SuggestExists(q: SelectQuery): Suggestion {
    var no := s => Suggestion(RewriteJoinDistinctToExists, s, None);
    if !q.distinct || |q.joins| != 1 then no(NotApplicable)
    else if q.groupBy != [] || q.having != [] then no(NotApplicable)
    else if q.qualify != [] then no(Undecided)
    else
      var j := q.joins[0];
      if j.subquery.Some? || !j.joinType.Inner? || j.extraConditions != [] then no(NotApplicable)
      else if q.ReferencesCte() then no(Undecided)
      else if !q.IsDirectTable() then no(Unsupported)
      else
        var left := q.SourceName();
        if exists p :: p in q.predicates && !LeftFilter(p, left) then no(Undecided)
        else if exists p :: p in q.projections && !LeftItem(p, left) then no(Undecided)
        else if !Connects(j, left) then no(Undecided)
        else
          Suggestion(RewriteJoinDistinctToExists, ProvenEquivalent,
            Some(q.(distinct := false, joins := [], predicates := q.predicates + [ExistsFor(j)])))
  }

  // ----- DISTINCT over runs of equal rows

  predicate RunOf<T(==)>(s: seq<T>, x: T) {
    forall i :: 0 <= i < |s| ==> s[i] == x
  }

  predicate ExpandsToRun<T, U(==)>(f: T -> seq<U>, h: T -> U, keep: T -> bool, x: T) {
    (keep(x) <==> f(x) != []) && RunOf(f(x), h(x))
  }

  lemma DedupStep<T(!new)>(x: T, s: seq<T>)
    ensures Dedup([x] + s) == [x] + Dedup(Filter(Differs(x), s))
  {
    assert ([x] + s)[1..] == s;
  }

  /** A run of equal elements counts once. */
  lemma {:induction false} DedupRun<T(!new)>(run: seq<T>, x: T, rest: seq<T>)
    requires run != [] && RunOf(run, x)
    ensures Dedup(run + rest) == [x] + Filter(Differs(x), Dedup(rest))
    decreases |run|
  {
    if |run| == 1 {
      assert run == [x];
      DedupStep(x, rest);
      DedupFilter(Differs(x), rest);
    } else {
      var tail := run[1..];
      assert run + rest == [x] + (tail + rest);
      DedupStep(x, tail + rest);
      DedupFilter(Differs(x), tail + rest);
      DedupRun(tail, x, rest);
      FilterStep(x, Filter(Differs(x), Dedup(rest)));
      FilterAll(Differs(x), Filter(Differs(x), Dedup(rest)));
    }
  }

  lemma FilterStep<T(!new)>(x: T, s: seq<T>)
    ensures Filter(Differs(x), [x] + s) == Filter(Differs(x), s)
  {
    assert ([x] + s)[1..] == s;
  }

  /** Expanding every kept input to a run of copies of its image, and every other input to nothing, and then
      removing duplicates, is removing duplicates from the images of the kept inputs. */
  lemma {:induction false} DedupRuns<T(!new), U(!new)>(f: T -> seq<U>, h: T -> U, keep: T -> bool, s: seq<T>)
    requires forall x :: x in s ==> ExpandsToRun(f, h, keep, x)
    ensures Dedup(FlatMap(f, s)) == Dedup(Map(h, Filter(keep, s)))
  {
    if s != [] {
      assert ExpandsToRun(f, h, keep, s[0]);
      DedupRuns(f, h, keep, s[1..]);
      var rest := Filter(keep, s[1..]);
      if keep(s[0]) {
        DedupRun(f(s[0]), h(s[0]), FlatMap(f, s[1..]));
        DedupImages(h, s[0], rest);
        assert Filter(keep, s) == [s[0]] + rest;
      } else {
        assert FlatMap(f, s) == FlatMap(f, s[1..]);
        assert Filter(keep, s) == rest;
      }
    }
  }

  lemma DedupImages<T(!new), U(!new)>(h: T -> U, x: T, s: seq<T>)
    ensures Dedup(Map(h, [x] + s)) == [h(x)] + Filter(Differs(h(x)), Dedup(Map(h, s)))
  {
    assert Map(h, [x] + s) == [h(x)] + Map(h, s);
    DedupStep(h(x), Map(h, s));
    DedupFilter(Differs(h(x)), Map(h, s));
  }

  // ----- soundness

  lemma LeftColumnStays(q: SelectQuery, rec: Record, r: string, row: Record, c: ColName)
    requires r != q.SourceName() && c.table == Some(q.SourceName())
    ensures Lookup([Binding(q.SourceName(), rec)] + [Binding(r, row)], c) == Lookup([Binding(q.SourceName(), rec)], c)
  {
  }

  lemma WhereStays(w: World, q: SelectQuery, rec: Record, r: string, row: Record)
    requires r != q.SourceName() && forall p :: p in q.predicates ==> LeftFilter(p, q.SourceName())
    ensures WhereHolds(w, q.predicates)([Binding(q.SourceName(), rec)] + [Binding(r, row)])
         == WhereHolds(w, q.predicates)([Binding(q.SourceName(), rec)])
  {
    forall p | p in q.predicates
      ensures PredicateTruth(w, p, [Binding(q.SourceName(), rec)] + [Binding(r, row)])
           == PredicateTruth(w, p, [Binding(q.SourceName(), rec)])
    {
      LeftColumnStays(q, rec, r, row, p.left);
    }
  }

  lemma {:induction false} ProjectStays(w: World, q: SelectQuery, ps: seq<Projection>, rec: Record, r: string,
    row: Record)
    requires r != q.SourceName() && forall p :: p in ps ==> LeftItem(p, q.SourceName())
    ensures Project(w.engine, ps, [[Binding(q.SourceName(), rec)] + [Binding(r, row)]])
         == Project(w.engine, ps, [[Binding(q.SourceName(), rec)]])
  {
    if ps != [] {
      assert LeftItem(ps[0], q.SourceName());
      LeftColumnStays(q, rec, r, row, ps[0].column);
      ProjectStays(w, q, ps[1..], rec, r, row);
    }
  }

  /** The ON equality reads the same in the joined row and inside EXISTS. */
  lemma ConditionSwaps(w: World, q: SelectQuery, j: Join, rec: Record, row: Record)
    requires Connects(j, q.SourceName()) && j.RelationName() != q.SourceName()
    ensures JoinTruth(w.engine, j.condition, [Binding(q.SourceName(), rec)] + [Binding(j.RelationName(), row)])
         == JoinTruth(w.engine, j.condition, [Binding(j.RelationName(), row)] + [Binding(q.SourceName(), rec)])
  {
    var l, r := q.SourceName(), j.RelationName();
    var tables := {j.condition.left.Table(), j.condition.right.Table()};
    assert Some(l) in tables && Some(r) in tables;
    assert j.condition.left.Table() in {Some(l), Some(r)} && j.condition.right.Table() in {Some(l), Some(r)};
    assert [Binding(l, rec)] + [Binding(r, row)] == [Binding(l, rec), Binding(r, row)];
    assert [Binding(r, row)] + [Binding(l, rec)] == [Binding(r, row), Binding(l, rec)];
    SideSwaps(w, j.condition.left, l, r, rec, row);
    SideSwaps(w, j.condition.right, l, r, rec, row);
  }

  lemma SideSwaps(w: World, s: JoinSide, l: string, r: string, rec: Record, row: Record)
    requires l != r && (s.Table() == Some(l) || s.Table() == Some(r))
    ensures SideValue(w.engine, s, [Binding(l, rec), Binding(r, row)]) ==
      SideValue(w.engine, s, [Binding(r, row), Binding(l, rec)])
  {
    LookupOfTwo(l, r, rec, row, s.column);
    LookupOfTwo(r, l, row, rec, s.column);
  }

  /** EXISTS holds on a left row exactly when the join finds a partner for it. */
  lemma ExistsIsMatch(w: World, q: SelectQuery, j: Join, rec: Record)
    requires Connects(j, q.SourceName()) && j.RelationName() != q.SourceName() && j.extraConditions == []
    ensures PredicateTruth(w, ExistsFor(j), [Binding(q.SourceName(), rec)]).True3?
       <==> Matches(w.engine, j, TableRelation(w, j.table), [Binding(q.SourceName(), rec)]) != []
  {
    var env, rel, ms := [Binding(q.SourceName(), rec)], TableRelation(w, j.table),
      Matches(w.engine, j, TableRelation(w, j.table), [Binding(q.SourceName(), rec)]);
    if PredicateTruth(w, ExistsFor(j), env).True3? {
      var row :| row in rel.rows && ExistsMatch(w.engine, j.RelationName(), j.condition, env, row);
      ConditionSwaps(w, q, j, rec, row);
      var k :| 0 <= k < |rel.rows| && rel.rows[k] == row;
      assert Map(Extend(env, j.RelationName()), rel.rows)[k] == env + [Binding(j.RelationName(), row)];
      assert env + [Binding(j.RelationName(), row)] in ms;
    }
    if ms != [] {
      assert ms[0] in ms && ms[0] in Map(Extend(env, j.RelationName()), rel.rows);
      var k :| 0 <= k < |rel.rows| && ms[0] == Extend(env, j.RelationName())(rel.rows[k]);
      ConditionSwaps(w, q, j, rec, rel.rows[k]);
      assert j.condition in j.Conditions();
      assert rel.rows[k] in rel.rows && ExistsMatch(w.engine, j.RelationName(), j.condition, env, rel.rows[k]);
    }
  }

  /** The result rows that one left row contributes to the joined query. */
  function Contribution(w: World, q: SelectQuery): Env -> seq<Record>
    requires |q.joins| == 1
  {
    env =>
      Map(RowRecord(w, q.projections),
        Filter(WhereHolds(w, q.predicates), Matches(w.engine, q.joins[0], TableRelation(w, q.joins[0].table), env)))
  }

  predicate ExistsShape(q: SelectQuery) {
    && |q.joins| == 1 && q.joins[0].joinType.Inner? && q.joins[0].subquery.None? && q.joins[0].extraConditions == []
    && q.table.Some? && q.groupBy == [] && q.having == [] && q.qualify == [] && q.distinct
    && (forall p :: p in q.predicates ==> LeftFilter(p, q.SourceName()))
    && (forall p :: p in q.projections ==> LeftItem(p, q.SourceName()))
    && Connects(q.joins[0], q.SourceName()) && q.joins[0].RelationName() != q.SourceName() && !q.OrdersByAggregate()
  }

  function ExistsQuery(q: SelectQuery): SelectQuery
    requires |q.joins| == 1
  {
    q.(distinct := false, joins := [], predicates := q.predicates + [ExistsFor(q.joins[0])])
  }

  lemma MatchLooksLikeLeft(w: World, q: SelectQuery, rec: Record, m: Env)
    requires ExistsShape(q)
    requires m in Matches(w.engine, q.joins[0], TableRelation(w, q.joins[0].table), [Binding(q.SourceName(), rec)])
    ensures RowRecord(w, q.projections)(m) == RowRecord(w, q.projections)([Binding(q.SourceName(), rec)])
    ensures WhereHolds(w, q.predicates)(m) == WhereHolds(w, q.predicates)([Binding(q.SourceName(), rec)])
  {
    var j, x, rel := q.joins[0], [Binding(q.SourceName(), rec)], TableRelation(w, q.joins[0].table);
    assert m in Map(Extend(x, j.RelationName()), rel.rows);
    var k :| 0 <= k < |rel.rows| && m == Extend(x, j.RelationName())(rel.rows[k]);
    ProjectStays(w, q, q.projections, rec, j.RelationName(), rel.rows[k]);
    WhereStays(w, q, rec, j.RelationName(), rel.rows[k]);
  }

  lemma ExistsWhere(w: World, q: SelectQuery, env: Env)
    requires |q.joins| == 1
    ensures WhereHolds(w, ExistsQuery(q).predicates)(env)
       <==> WhereHolds(w, q.predicates)(env) && PredicateTruth(w, ExistsFor(q.joins[0]), env).True3?
  {
    var ps := ExistsQuery(q).predicates;
    assert ExistsFor(q.joins[0]) in ps && forall p :: p in q.predicates ==> p in ps;
  }

  /** A left row contributes copies of its own projection, and at least one exactly when it passes the rewritten
      WHERE clause. */
  lemma ContributionIsRun(w: World, q: SelectQuery, rec: Record)
    requires ExistsShape(q)
    ensures ExpandsToRun(Contribution(w, q), RowRecord(w, q.projections), WhereHolds(w, ExistsQuery(q).predicates),
              [Binding(q.SourceName(), rec)])
  {
    var x := [Binding(q.SourceName(), rec)];
    var ms := Matches(w.engine, q.joins[0], TableRelation(w, q.joins[0].table), x);
    var c := Contribution(w, q)(x);
    assert (WhereHolds(w, q.predicates)(x) && ms != [] <==> c != []) && RunOf(c, RowRecord(w, q.projections)(x)) by {
      MatchesFilterTogether(w, q, rec, ms);
      assert c == Map(RowRecord(w, q.projections), Filter(WhereHolds(w, q.predicates), ms));
    }
    assert WhereHolds(w, ExistsQuery(q).predicates)(x) <==> WhereHolds(w, q.predicates)(x) && ms != [] by {
      ExistsIsMatch(w, q, q.joins[0], rec);
      ExistsWhere(w, q, x);
    }
  }

  lemma MatchesFilterTogether(w: World, q: SelectQuery, rec: Record, ms: seq<Env>)
    requires ExistsShape(q)
    requires ms == Matches(w.engine, q.joins[0], TableRelation(w, q.joins[0].table), [Binding(q.SourceName(), rec)])
    ensures var x := [Binding(q.SourceName(), rec)];
            && Filter(WhereHolds(w, q.predicates), ms) == (if WhereHolds(w, q.predicates)(x) then ms else [])
            && RunOf(Map(RowRecord(w, q.projections), ms), RowRecord(w, q.projections)(x))
  {
    var x, where, show := [Binding(q.SourceName(), rec)], WhereHolds(w, q.predicates), RowRecord(w, q.projections);
    forall m | m in ms ensures where(m) == where(x) {
      MatchLooksLikeLeft(w, q, rec, m);
    }
    forall i | 0 <= i < |ms| ensures Map(show, ms)[i] == show(x) {
      assert ms[i] in ms;
      MatchLooksLikeLeft(w, q, rec, ms[i]);
    }
    if where(x) { FilterAll(where, ms); } else { FilterNone(where, ms); }
  }

  lemma JoinRecords(w: World, q: SelectQuery)
    requires ExistsShape(q)
    ensures Records(Body(w, q, FromRows(w, q)))
         == Dedup(FlatMap(Contribution(w, q), SourceRows(q, SourceRelation(w, q))))
  {
    var xs, show := SourceRows(q, SourceRelation(w, q)), RowRecord(w, q.projections);
    var f := JoinRow(w.engine, q.joins[0], JoinRelation(w, q.joins[0]));
    var part := (x: Env) => Filter(WhereHolds(w, q.predicates), f(x));
    OneJoin(w, q);
    FilterFlatMap(WhereHolds(w, q.predicates), f, part, xs);
    MapFlatMap(show, part, Contribution(w, q), xs);
    PlainItems(q);
    RowLevelRecords(w, q, FromRows(w, q));
  }

  lemma PlainItems(q: SelectQuery)
    requires ExistsShape(q)
    ensures RowLevel(q) && RowLevel(ExistsQuery(q)) && PlainColumns(q.projections) && ItemsInScope(ExistsQuery(q))
  {
    forall p | p in q.projections ensures p.Column? && p.column.table == Some(q.SourceName()) {
      assert LeftItem(p, q.SourceName());
    }
  }

  lemma ExistsRecords(w: World, q: SelectQuery)
    requires ExistsShape(q)
    ensures var r, xs := ExistsQuery(q), SourceRows(q, SourceRelation(w, q));
            Records(Body(w, r, FromRows(w, r)))
            == Map(RowRecord(w, q.projections), Filter(WhereHolds(w, r.predicates), xs))
  {
    OneJoin(w, q);
    SameFrom(w, ExistsQuery(q), q.(joins := []));
    PlainItems(q);
    RowLevelRecords(w, ExistsQuery(q), FromRows(w, ExistsQuery(q)));
  }

  lemma RunsCollapse(w: World, q: SelectQuery, xs: seq<Env>)
    requires ExistsShape(q) && xs == SourceRows(q, SourceRelation(w, q))
    ensures Dedup(FlatMap(Contribution(w, q), xs))
         == Dedup(Map(RowRecord(w, q.projections), Filter(WhereHolds(w, ExistsQuery(q).predicates), xs)))
  {
    var f, show, where := Contribution(w, q), RowRecord(w, q.projections), WhereHolds(w, ExistsQuery(q).predicates);
    forall x | x in xs ensures ExpandsToRun(f, show, where, x) {
      var i :| 0 <= i < |xs| && xs[i] == x;
      assert x == [Binding(q.SourceName(), SourceRelation(w, q).rows[i])];
      ContributionIsRun(w, q, SourceRelation(w, q).rows[i]);
    }
    DedupRuns(f, show, where, xs);
  }

  /** The rows of the DISTINCT join are the rows of the EXISTS query without repetitions, in the same order. */
  lemma JoinIsDedupOfExists(w: World, q: SelectQuery)
    requires ExistsShape(q)
    ensures var r := ExistsQuery(q);
            Records(Body(w, q, FromRows(w, q))) == Dedup(Records(Body(w, r, FromRows(w, r))))
  {
    JoinRecords(w, q);
    ExistsRecords(w, q);
    RunsCollapse(w, q, SourceRows(q, SourceRelation(w, q)));
  }

  /** What the rule takes for granted: different relation names, and no aggregate in ORDER BY. */
  predicate ExistsLimits(q: SelectQuery) {
    |q.joins| == 1 && q.joins[0].RelationName() != q.SourceName() && !q.OrdersByAggregate()
  }

  /** No two left rows that pass the filters and have a match project alike. */
  ghost predicate MatchedRowsApart(w: World, q: SelectQuery)
    requires |q.joins| == 1
  {
    NoDuplicates(Records(Body(w, ExistsQuery(q), FromRows(w, ExistsQuery(q)))))
  }

  lemma ProvenExists(q: SelectQuery)
    requires SuggestExists(q).Proven() && ExistsLimits(q)
    ensures ExistsShape(q) && SuggestExists(q).rewritten == Some(ExistsQuery(q))
  {
  }

  /** The rewrite always keeps the set of rows, and keeps the bag exactly when the matched left rows project to
      pairwise different rows. */
  lemma JoinToExistsExact(w: World, q: SelectQuery)
    requires SuggestExists(q).Proven() && ExistsLimits(q) && Unlimited(q)
    ensures var r := SuggestExists(q).rewritten.value;
            && (forall x :: x in Answer(w, q) <==> x in Answer(w, r))
            && (Answer(w, q) == Answer(w, r) <==> MatchedRowsApart(w, q))
  {
    hide Body;
    var r := ExistsQuery(q);
    ProvenExists(q);
    JoinIsDedupOfExists(w, q);
    AnswerIsBody(w, q);
    AnswerIsBody(w, r);
    var records := Records(Body(w, r, FromRows(w, r)));
    DedupKeepsBag(records);
    forall x ensures x in Answer(w, q) <==> x in Answer(w, r) {
      DedupMembers(records, x);
    }
  }

  /** The left column of the join equality. */
  function JoinColumn(q: SelectQuery): string
    requires |q.joins| == 1
  {
    var c := q.joins[0].condition;
    if c.left.Table() == Some(q.SourceName()) then c.left.Name() else c.right.Name()
  }

  /** A unique key of the left table whose columns are all projected, and non-null either by constraint or because
      the join compares them. */
  predicate MatchKey(q: SelectQuery, t: TableConstraints, key: seq<string>)
    requires |q.joins| == 1
  {
    && key in t.unique && Within(key, ItemNames(q.projections))
    && forall c :: c in key ==> t.IsNonNull(c) || c == JoinColumn(q)
  }

  /** A left row with a partner has a value in the join column. */
  lemma MatchedIsPresent(w: World, q: SelectQuery, rec: Record)
    requires ExistsShape(q) && WhereHolds(w, ExistsQuery(q).predicates)([Binding(q.SourceName(), rec)])
    ensures Get(rec, JoinColumn(q)).Val?
  {
    var j, l, r := q.joins[0], q.SourceName(), q.joins[0].RelationName();
    ExistsWhere(w, q, [Binding(l, rec)]);
    var row :| row in TableRelation(w, j.table).rows && ExistsMatch(w.engine, r, j.condition, [Binding(l, rec)], row);
    var tables := {j.condition.left.Table(), j.condition.right.Table()};
    assert Some(l) in tables && j.condition.left.Table() in tables && j.condition.right.Table() in tables;
    assert [Binding(r, row)] + [Binding(l, rec)] == [Binding(r, row), Binding(l, rec)];
    if j.condition.left.Table() == Some(l) {
      LookupOfTwo(r, l, row, rec, j.condition.left.column);
    } else {
      LookupOfTwo(r, l, row, rec, j.condition.right.column);
    }
  }

  lemma MatchedPairApart(w: World, q: SelectQuery, t: TableConstraints, key: seq<string>, i: int, k: int)
    requires ExistsShape(q) && TableMeets(w, RowsOf(w, q), t) && MatchKey(q, t, key) && 0 <= i < k < |RowsOf(w, q)|
    requires forall n :: n in {i, k} ==>
               WhereHolds(w, ExistsQuery(q).predicates)([Binding(q.SourceName(), RowsOf(w, q)[n])])
    ensures RowRecord(w, q.projections)([Binding(q.SourceName(), RowsOf(w, q)[i])])
         != RowRecord(w, q.projections)([Binding(q.SourceName(), RowsOf(w, q)[k])])
  {
    var rows := RowsOf(w, q);
    PlainItems(q);
    MatchedIsPresent(w, q, rows[i]);
    MatchedIsPresent(w, q, rows[k]);
    forall c | c in key ensures Get(rows[i], c).Val? && Get(rows[k], c).Val? {
      if t.IsNonNull(c) { assert NeverNull(rows, c); }
    }
    assert UniqueOn(rows, key) && KeyPresent(rows[i], key) && KeyPresent(rows[k], key);
    var c :| c in key && Get(rows[i], c) != Get(rows[k], c);
    PlainColumnNames(q.projections);
    ProjectApart(w, ExistsQuery(q), rows[i], rows[k], c);
  }

  lemma KeyKeepsMatchedApart(w: World, q: SelectQuery, t: TableConstraints, key: seq<string>)
    requires ExistsShape(q) && TableMeets(w, RowsOf(w, q), t) && MatchKey(q, t, key)
    ensures MatchedRowsApart(w, q)
  {
    var xs, rows := SourceRows(q, SourceRelation(w, q)), RowsOf(w, q);
    var where, show := WhereHolds(w, ExistsQuery(q).predicates), RowRecord(w, q.projections);
    ExistsRecords(w, q);
    forall i, k | 0 <= i < k < |xs| && where(xs[i]) && where(xs[k]) ensures show(xs[i]) != show(xs[k]) {
      assert xs[i] == [Binding(q.SourceName(), rows[i])] && xs[k] == [Binding(q.SourceName(), rows[k])];
      MatchedPairApart(w, q, t, key, i, k);
    }
    FilterApartIf(where, show, xs);
  }

  /** Such a key makes the rewrite exact, under any row window. */
  lemma JoinToExistsWithKey(w: World, q: SelectQuery, catalog: Catalog, key: seq<string>)
    requires Meets(w, catalog) && SuggestExists(q).Proven() && ExistsLimits(q) && OrderSafe(q)
    requires catalog.Table(q.table.value).Some? && MatchKey(q, catalog.Table(q.table.value).value, key)
    ensures Answer(w, q) == Answer(w, SuggestExists(q).rewritten.value)
  {
    hide Body;
    var r, t := ExistsQuery(q), catalog.Table(q.table.value).value;
    ProvenExists(q);
    assert TableMeets(w, RowsOf(w, q), t);
    KeyKeepsMatchedApart(w, q, t, key);
    JoinIsDedupOfExists(w, q);
    DedupNoDuplicates(Records(Body(w, r, FromRows(w, r))));
    SameRecordsSameAnswer(w, q, r);
  }
}
