/** Moving the WHERE clause of an outer query into the simple projection it reads from. */
module Pushdown {
  import opened Ir
  import opened Lists
  import opened Semantics
  import opened Pipeline
  import opened Rewrites
  import opened TableRows
  import opened Distinct
  import Bags

  predicate SameProjectionNames(outer: seq<Projection>, inner: seq<Projection>) {
    PlainColumns(outer) && PlainColumns(inner) && ItemNames(outer) == ItemNames(inner)
  }

  predicate CanPush(c: ColName, alias: Option<string>, innerNames: seq<string>) {
    c.name in innerNames && (c.table.None? || c.table == alias)
  }

  function UnqualifiedItems(ps: seq<Projection>): (r: seq<Projection>)
    requires PlainColumns(ps)
  {
    seq(|ps|, i requires 0 <= i < |ps| => ps[i].(column := ps[i].column.Unqualified()))
  }

  function UnqualifiedPredicates(ps: seq<WherePredicate>): seq<WherePredicate>
    requires forall p :: p in ps ==> p.Compare?
  {
    seq(|ps|, i requires 0 <= i < |ps| => Compare(ps[i].left.Unqualified(), ps[i].operator, ps[i].right))
  }

  /** A fresh query: the outer and inner ORDER BY, LIMIT and OFFSET are gone. */
  function Pushed(q: SelectQuery, inner: SelectQuery): SelectQuery
    requires PlainColumns(q.projections) && forall p :: p in q.predicates ==> p.Compare?
  {
    SelectQuery(inner.table, inner.tableAlias, false, None, None, [], UnqualifiedItems(q.projections),
      inner.predicates + UnqualifiedPredicates(q.predicates), [], [], [], [], None, None, false, q.rawSql)
  }

  function SuggestPushdown(q: SelectQuery): Suggestion {
    var no := s => Suggestion(PredicatePushdown, s, None);
    if q.subquery.None? || q.predicates == [] then no(NotApplicable)
    else if q.ReferencesCte() then no(Undecided)
    else
      var inner := q.subquery.value;
      if q.qualify != [] || inner.qualify != [] then no(Undecided)
      else if q.groupBy != [] || inner.groupBy != [] || q.having != [] || inner.having != [] then no(NotApplicable)
      else if q.joins != [] || inner.joins != [] then no(Unsupported)
      else if q.distinct || inner.distinct then no(Unsupported)
      else if exists p :: p in q.predicates && !p.Compare? then no(Unsupported)
      else if !inner.IsDirectTable() then no(Unsupported)
      else if !SameProjectionNames(q.projections, inner.projections) then no(Undecided)
      else if exists p :: p in q.predicates && !CanPush(p.left, q.alias, ItemNames(inner.projections)) then
        no(Undecided)
      else Suggestion(PredicatePushdown, ProvenEquivalent, Some(Pushed(q, inner)))
  }

  // ----- soundness

  /** The column that a name means in the result of a projection: that of the first item so named. */
  function SourceColumn(ps: seq<Projection>, name: string): Option<string>
    requires PlainColumns(ps)
  {
    if ps == [] then None
    else
      assert ps[0] in ps;
      if ps[0].OutputName() == name then Some(ps[0].column.name) else SourceColumn(ps[1..], name)
  }

  /** Every selected column is found under its own name. */
  predicate AliasesAgree(ps: seq<Projection>) {
    PlainColumns(ps) ==> forall n :: n in ItemNames(ps) ==> SourceColumn(ps, n) == Some(n)
  }

  /** What the rule does not look at: the aliases and the row window of the inner query. */
  predicate PushdownLimits(q: SelectQuery) {
    && PushdownScope(q) && Unlimited(q.subquery.value) && AliasesAgree(q.subquery.value.projections)
  }

  /** SQL's own scoping: every column resolves, and ORDER BY holds no aggregate, for neither query groups. */
  predicate PushdownScope(q: SelectQuery) {
    && q.table.None? && q.subquery.Some? && ItemsInScope(q) && !q.OrdersByAggregate()
    && ItemsInScope(q.subquery.value) && !q.subquery.value.OrdersByAggregate()
  }

  predicate PushdownShape(q: SelectQuery) {
    && PushdownLimits(q) && q.groupBy == [] && q.having == [] && q.qualify == [] && q.joins == [] && !q.distinct
    && (forall p :: p in q.predicates ==> p.Compare?)
    && var inner := q.subquery.value;
       && SingleTable(inner) && inner.groupBy == [] && inner.having == [] && inner.qualify == [] && !inner.distinct
       && SameProjectionNames(q.projections, inner.projections)
       && forall p :: p in q.predicates ==> CanPush(p.left, q.alias, ItemNames(inner.projections))
  }

  lemma ProvenPushdown(q: SelectQuery)
    requires SuggestPushdown(q).Proven() && PushdownLimits(q)
    ensures PushdownShape(q) && SuggestPushdown(q).rewritten == Some(Pushed(q, q.subquery.value))
  {
  }

  /** A name reads the column it means back from the projected row. */
  lemma {:induction false} ReadBack(w: World, inner: SelectQuery, ps: seq<Projection>, row: Record, name: string)
    requires PlainColumns(ps) && forall p :: p in ps ==> InScope(inner, p.column)
    ensures Get(Project(w.engine, ps, [[Binding(inner.SourceName(), row)]]), name)
         == if SourceColumn(ps, name).Some? then Get(row, SourceColumn(ps, name).value) else Null
  {
    if ps != [] {
      assert ps[0] in ps;
      ColumnOfRow(inner, ps[0].column, row);
      ReadBack(w, inner, ps[1..], row, name);
      var rec, rest := Project(w.engine, ps, [[Binding(inner.SourceName(), row)]]),
                       Project(w.engine, ps[1..], [[Binding(inner.SourceName(), row)]]);
      assert rec == [Field(ps[0].OutputName(), Get(row, ps[0].column.name))] + rest;
      assert rec[1..] == rest;
    }
  }

  /** The outer row built from an inner row. */
  function OuterRow(w: World, q: SelectQuery): Env -> Env
    requires q.subquery.Some?
  {
    env => [Binding(q.SourceName(), Project(w.engine, q.subquery.value.projections, [env]))]
  }

  lemma ColumnThrough(w: World, q: SelectQuery, row: Record, c: ColName)
    requires PushdownShape(q) && InScope(q, c) && c.name in ItemNames(q.subquery.value.projections)
    ensures var env := [Binding(q.subquery.value.SourceName(), row)];
            Lookup(OuterRow(w, q)(env), c) == Lookup(env, c.Unqualified())
  {
    var inner := q.subquery.value;
    var env := [Binding(inner.SourceName(), row)];
    ReadBack(w, inner, inner.projections, row, c.name);
    ColumnOfRow(q, c, Project(w.engine, inner.projections, [env]));
    ColumnOfRow(inner, c.Unqualified(), row);
  }

  predicate Readable(q: SelectQuery, p: Projection) {
    p.Column? && InScope(q, p.column) && q.subquery.Some? && p.column.name in ItemNames(q.subquery.value.projections)
  }

  lemma AllReadable(q: SelectQuery)
    requires PushdownShape(q)
    ensures forall p :: p in q.projections ==> Readable(q, p)
  {
    forall p | p in q.projections ensures Readable(q, p) {
      var k :| 0 <= k < |q.projections| && q.projections[k] == p;
      assert ItemNames(q.projections)[k] == p.column.name;
    }
  }

  lemma ItemThrough(w: World, q: SelectQuery, p: Projection, row: Record)
    requires PushdownShape(q) && Readable(q, p)
    ensures var env := [Binding(q.subquery.value.SourceName(), row)];
            ItemFields(w.engine, p, [OuterRow(w, q)(env)]) ==
              ItemFields(w.engine, p.(column := p.column.Unqualified()), [env])
  {
    ColumnThrough(w, q, row, p.column);
  }

  /** Lists of items that give the same fields one by one give the same row. */
  lemma {:induction false} ProjectPairwise(g: Engine, ps: seq<Projection>, qs: seq<Projection>, u: Unit, v: Unit)
    requires |ps| == |qs| && forall i :: 0 <= i < |ps| ==> ItemFields(g, ps[i], u) == ItemFields(g, qs[i], v)
    ensures Project(g, ps, u) == Project(g, qs, v)
  {
    hide ItemFields;
    if ps != [] {
      ProjectPairwise(g, ps[1..], qs[1..], u, v);
    }
  }

  lemma ProjectThrough(w: World, q: SelectQuery, ps: seq<Projection>, row: Record)
    requires PushdownShape(q) && PlainColumns(ps)
    requires forall p :: p in ps ==> Readable(q, p)
    ensures var env := [Binding(q.subquery.value.SourceName(), row)];
            Project(w.engine, ps, [OuterRow(w, q)(env)]) == Project(w.engine, UnqualifiedItems(ps), [env])
  {
    hide OuterRow;
    hide ItemFields;
    hide Project;
    var env, qs := [Binding(q.subquery.value.SourceName(), row)], UnqualifiedItems(ps);
    forall i | 0 <= i < |ps|
      ensures ItemFields(w.engine, ps[i], [OuterRow(w, q)(env)]) == ItemFields(w.engine, qs[i], [env])
    {
      assert Readable(q, ps[i]);
      ItemThrough(w, q, ps[i], row);
    }
    ProjectPairwise(w.engine, ps, qs, [OuterRow(w, q)(env)], [env]);
  }

  lemma WhereThrough(w: World, q: SelectQuery, row: Record)
    requires PushdownShape(q)
    ensures var env := [Binding(q.subquery.value.SourceName(), row)];
            WhereHolds(w, q.predicates)(OuterRow(w, q)(env))
            == WhereHolds(w, UnqualifiedPredicates(q.predicates))(env)
  {
    hide OuterRow;
    var env, ps := [Binding(q.subquery.value.SourceName(), row)], UnqualifiedPredicates(q.predicates);
    forall i | 0 <= i < |ps|
      ensures PredicateTruth(w, q.predicates[i], OuterRow(w, q)(env)) == PredicateTruth(w, ps[i], env)
    {
      assert q.predicates[i] in q.predicates;
      ColumnThrough(w, q, row, q.predicates[i].left);
    }
    WherePairwise(w, q.predicates, ps, OuterRow(w, q)(env), env);
  }

  /** Lists of predicates that are equally true one by one. */
  lemma WherePairwise(w: World, ps: seq<WherePredicate>, qs: seq<WherePredicate>, x: Env, y: Env)
    requires |ps| == |qs| && forall i :: 0 <= i < |ps| ==> PredicateTruth(w, ps[i], x) == PredicateTruth(w, qs[i], y)
    ensures WhereHolds(w, ps)(x) == WhereHolds(w, qs)(y)
  {
    hide PredicateTruth;
    if WhereHolds(w, ps)(x) {
      forall q | q in qs ensures PredicateTruth(w, q, y).True3? {
        var i :| 0 <= i < |qs| && qs[i] == q;
        assert ps[i] in ps;
      }
    }
    if WhereHolds(w, qs)(y) {
      forall p | p in ps ensures PredicateTruth(w, p, x).True3? {
        var i :| 0 <= i < |ps| && ps[i] == p;
        assert qs[i] in qs;
      }
    }
  }

  lemma InnerRows(w: World, q: SelectQuery)
    requires PushdownShape(q)
    ensures var inner := q.subquery.value;
            var xs := Map(OuterRow(w, q), Filter(WhereHolds(w, inner.predicates), FromRows(w, inner)));
            multiset(FromRows(w, q)) == multiset(xs) && (inner.orderBy == [] ==> FromRows(w, q) == xs)
  {
    hide Body;
    hide Project;
    var inner := q.subquery.value;
    assert RowLevel(inner);
    var kept := Filter(WhereHolds(w, inner.predicates), FromRows(w, inner));
    var rs := Map(RowRecord(w, inner.projections), kept);
    RowLevelRecords(w, inner, FromRows(w, inner));
    assert Map(Bind(q.SourceName()), rs) == Map(OuterRow(w, q), kept);
    assert FromRows(w, q) == Map(Bind(q.SourceName()), Eval(w, inner).rows);
    AnswerIsBody(w, inner);
    Bags.MapBag(Bind(q.SourceName()), Eval(w, inner).rows, rs);
    if inner.orderBy == [] {
      UnlimitedRows(w, inner);
    }
  }

  lemma WhereAppend(w: World, a: seq<WherePredicate>, b: seq<WherePredicate>, env: Env)
    ensures WhereHolds(w, a + b)(env) == (WhereHolds(w, a)(env) && WhereHolds(w, b)(env))
  {
    assert forall p :: p in a + b <==> p in a || p in b;
  }

  lemma RowsThrough(w: World, q: SelectQuery)
    requires PushdownShape(q)
    ensures var r := Pushed(q, q.subquery.value);
            var xs := Filter(WhereHolds(w, q.predicates), FromRows(w, q));
            var ys := Map(OuterRow(w, q), Filter(WhereHolds(w, r.predicates), FromRows(w, r)));
            multiset(xs) == multiset(ys) && (q.subquery.value.orderBy == [] ==> xs == ys)
  {
    var inner, r := q.subquery.value, Pushed(q, q.subquery.value);
    var below, pushed := WhereHolds(w, inner.predicates), WhereHolds(w, UnqualifiedPredicates(q.predicates));
    var envs := FromRows(w, inner);
    SingleTableRows(w, r);
    InnerRows(w, q);
    SingleTableRows(w, inner);
    forall x | x in envs
      ensures pushed(x) == WhereHolds(w, q.predicates)(OuterRow(w, q)(x))
      ensures WhereHolds(w, r.predicates)(x) == (pushed(x) && below(x))
    {
      var i :| 0 <= i < |envs| && envs[i] == x;
      WhereThrough(w, q, RowsOf(w, inner)[i]);
      WhereAppend(w, inner.predicates, UnqualifiedPredicates(q.predicates), x);
    }
    FilterMap(WhereHolds(w, q.predicates), OuterRow(w, q), pushed, Filter(below, envs));
    FilterBoth(pushed, below, WhereHolds(w, r.predicates), envs);
    Bags.FilterBag(WhereHolds(w, q.predicates), FromRows(w, q), Map(OuterRow(w, q), Filter(below, envs)));
  }

  lemma RecordsThrough(w: World, q: SelectQuery, kept: seq<Env>)
    requires PushdownShape(q)
    requires forall x :: x in kept ==> x in FromRows(w, q.subquery.value)
    ensures Map(RowRecord(w, q.projections), Map(OuterRow(w, q), kept))
         == Map(RowRecord(w, UnqualifiedItems(q.projections)), kept)
  {
    var inner := q.subquery.value;
    AllReadable(q);
    SingleTableRows(w, inner);
    forall i | 0 <= i < |kept|
      ensures RowRecord(w, q.projections)(OuterRow(w, q)(kept[i]))
           == RowRecord(w, UnqualifiedItems(q.projections))(kept[i])
    {
      assert kept[i] in FromRows(w, inner);
      var k :| 0 <= k < |FromRows(w, inner)| && FromRows(w, inner)[k] == kept[i];
      ProjectThrough(w, q, q.projections, RowsOf(w, inner)[k]);
    }
  }

  /** Before ORDER BY and LIMIT, both queries have the same rows, in the same order unless the subquery sorts its
      own. */
  lemma PushdownBody(w: World, q: SelectQuery)
    requires PushdownShape(q)
    ensures var r := Pushed(q, q.subquery.value);
            var xs, ys := Records(Body(w, q, FromRows(w, q))), Records(Body(w, r, FromRows(w, r)));
            multiset(xs) == multiset(ys) && (q.subquery.value.orderBy == [] ==> xs == ys)
  {
    var r := Pushed(q, q.subquery.value);
    var kept := Filter(WhereHolds(w, r.predicates), FromRows(w, r));
    assert RowLevel(q) && RowLevel(r);
    RowLevelRecords(w, q, FromRows(w, q));
    RowLevelRecords(w, r, FromRows(w, r));
    RowsThrough(w, q);
    SingleTableRows(w, r);
    SingleTableRows(w, q.subquery.value);
    RecordsThrough(w, q, kept);
    Bags.MapBag(RowRecord(w, q.projections), Filter(WhereHolds(w, q.predicates), FromRows(w, q)),
      Map(OuterRow(w, q), kept));
  }

  /** The outer row window keeps all of `n` rows. */
  predicate WindowKeeps(limit: Option<nat>, offset: Option<nat>, n: nat) {
    (offset.None? || offset.value == 0 || n == 0) && (limit.None? || n <= limit.value)
  }

  lemma WindowExact<T(!new)>(limit: Option<nat>, offset: Option<nat>, rows: seq<T>)
    ensures WindowKeeps(limit, offset, |rows|) <==> Window(limit, offset, rows) == rows
    ensures !WindowKeeps(limit, offset, |rows|) ==> |Window(limit, offset, rows)| < |rows|
  {
    assert rows[0..] == rows;
  }

  /** The pushed query returns the same bag exactly when the row window that it loses would have kept every row. */
  lemma PushdownExact(w: World, q: SelectQuery)
    requires SuggestPushdown(q).Proven() && PushdownLimits(q)
    ensures var r := SuggestPushdown(q).rewritten.value;
            Answer(w, q) == Answer(w, r) <==> WindowKeeps(q.limit, q.offset, |Eval(w, r).rows|)
  {
    hide Body;
    var r := Pushed(q, q.subquery.value);
    ProvenPushdown(q);
    PushdownBody(w, q);
    AnswerIsBody(w, r);
    var rows := Body(w, q, FromRows(w, q));
    var ordered := Records(Ordered(w.engine, OrderItems(q), rows));
    SortedBag(w, OrderItems(q), rows);
    assert multiset(ordered) == Answer(w, r);
    assert |ordered| == |multiset(ordered)| == |Eval(w, r).rows| by {
      assert |multiset(Eval(w, r).rows)| == |Eval(w, r).rows|;
    }
    WindowExact(q.limit, q.offset, ordered);
    assert Answer(w, q) == multiset(Window(q.limit, q.offset, ordered));
    assert |Answer(w, q)| == |Window(q.limit, q.offset, ordered)|;
  }
}
