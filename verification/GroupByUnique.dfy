/** Dropping GROUP BY when its columns hold a trusted non-null unique key. */
module GroupByUnique {
  import opened Ir
  import opened Lists
  import opened Semantics
  import opened Pipeline
  import opened Constraints
  import opened Rewrites
  import opened TableRows

  function ColumnKeys(keys: seq<GroupByKey>): seq<string> {
    if keys == [] then []
    else (if keys[0].ColumnKey? then [keys[0].column.name] else []) + ColumnKeys(keys[1..])
  }

  predicate BelongsToQuery(c: ColName, q: SelectQuery) {
    c.table.None? || (q.table.Some? && ValidPrefix(c.table.value, q.tableAlias, q.table.value))
  }

  predicate SingleRowAggregate(p: Projection) {
    p.Computed? && p.expr.Aggregate? && !p.expr.fn.Count? && p.alias.Some?
  }

  /** What a SELECT item becomes without the grouping; None when the rule does not support it. */
  function Collapsed(p: Projection, q: SelectQuery, groupColumns: seq<string>): Option<Projection> {
    if p.Column? then
      if BelongsToQuery(p.column, q) && p.column.name in groupColumns then Some(p) else None
    else if SingleRowAggregate(p) && BelongsToQuery(p.expr.column, q) then Some(Column(p.expr.column, p.alias))
    else None
  }

  function CollapsedAll(ps: seq<Projection>, q: SelectQuery, groupColumns: seq<string>): (r: Option<seq<Projection>>)
    ensures r.Some? ==> |r.value| == |ps|
  {
    if ps == [] then Some([])
    else
      var first, rest := Collapsed(ps[0], q, groupColumns), CollapsedAll(ps[1..], q, groupColumns);
      if first.Some? && rest.Some? then Some([first.value] + rest.value) else None
  }

  /** The loop over the projections, which stops at the first unsupported item. */
  method CollapseProjections(q: SelectQuery, groupColumns: seq<string>) returns (r: Option<seq<Projection>>)
    ensures r == CollapsedAll(q.projections, q, groupColumns)
  {
    var done := [];
    var i := 0;
    while i < |q.projections|
      invariant 0 <= i <= |q.projections|
      invariant CollapsedAll(q.projections, q, groupColumns).Some? <==>
                CollapsedAll(q.projections[i..], q, groupColumns).Some?
      invariant CollapsedAll(q.projections, q, groupColumns).Some? ==>
                  CollapsedAll(q.projections, q, groupColumns).value
                  == done + CollapsedAll(q.projections[i..], q, groupColumns).value
    {
      var p := Collapsed(q.projections[i], q, groupColumns);
      assert q.projections[i..][1..] == q.projections[i + 1..];
      if p.None? {
        return None;
      }
      done := done + [p.value];
      i := i + 1;
    }
    assert q.projections[i..] == [] && CollapsedAll(q.projections, q, groupColumns).value == done;
    return Some(done);
  }

  function SuggestGroupBy(q: SelectQuery, catalog: Catalog): Suggestion {
    var no := s => Suggestion(CollapseUniqueGroupBy, s, None);
    if q.groupBy == [] then no(NotApplicable)
    else if q.distinct || q.joins != [] || q.having != [] || q.qualify != [] then no(NotApplicable)
    else if q.ReferencesCte() then no(Undecided)
    else if q.TableName().None? then no(Unsupported)
    else
      var t := catalog.Table(q.TableName().value);
      if t.None? then no(NotApplicable)
      else
        var columns := ColumnKeys(q.groupBy);
        if |columns| != |q.groupBy| then no(NotApplicable)
        else if t.value.NonNullUniqueKeyContainedIn(columns).None? then
          no(if t.value.UniqueKeyContainedIn(columns).None? then NotApplicable else Undecided)
        else
          var ps := CollapsedAll(q.projections, q, columns);
          if ps.None? then no(NotApplicable)
          else Suggestion(CollapseUniqueGroupBy, ProvenEquivalent, Some(q.(projections := ps.value, groupBy := [])))
  }

  // ----- soundness

  predicate KeysInScope(q: SelectQuery) {
    forall k :: k in q.groupBy && k.ColumnKey? ==> InScope(q, k.column)
  }

  lemma {:induction false} ColumnKeysLength(keys: seq<GroupByKey>)
    ensures |ColumnKeys(keys)| <= |keys|
    ensures |ColumnKeys(keys)| == |keys| ==>
              forall i :: 0 <= i < |keys| ==> keys[i].ColumnKey? && ColumnKeys(keys)[i] == keys[i].column.name
  {
    if keys != [] {
      ColumnKeysLength(keys[1..]);
    }
  }

  function KeyFn(w: World, keys: seq<GroupByKey>): Env -> seq<Value> {
    env => KeyOf(w.engine, keys, env)
  }

  lemma FirstGroupAlone(w: World, keys: seq<GroupByKey>, envs: seq<Env>)
    requires envs != [] && NoDuplicates(Map(KeyFn(w, keys), envs))
    ensures Groups(w.engine, keys, envs) == [[envs[0]]] + Groups(w.engine, keys, envs[1..])
  {
    var key := KeyOf(w.engine, keys, envs[0]);
    forall e | e in envs[1..] ensures KeyOf(w.engine, keys, e) != key {
      var j :| 0 <= j < |envs[1..]| && envs[1..][j] == e;
      assert Map(KeyFn(w, keys), envs)[0] != Map(KeyFn(w, keys), envs)[j + 1];
    }
    FilterNone(HasKey(w.engine, keys, key), envs[1..]);
    FilterAll(LacksKey(w.engine, keys, key), envs[1..]);
    assert [envs[0]] + [] == [envs[0]];
  }

  lemma AloneStep(envs: seq<Env>)
    requires envs != []
    ensures Map(Alone(), envs) == [[envs[0]]] + Map(Alone(), envs[1..])
  {
  }

  /** Rows with pairwise different keys make one group each, in row order. */
  lemma {:induction false} GroupsAlone(w: World, keys: seq<GroupByKey>, envs: seq<Env>)
    requires NoDuplicates(Map(KeyFn(w, keys), envs))
    ensures Groups(w.engine, keys, envs) == Map(Alone(), envs)
  {
    if envs == [] {
    } else {
      FirstGroupAlone(w, keys, envs);
      TailApart(KeyFn(w, keys), envs);
      GroupsAlone(w, keys, envs[1..]);
      AloneStep(envs);
    }
  }

  /** Two rows of the table never share the group key. */
  lemma KeysApart(w: World, q: SelectQuery, t: TableConstraints)
    requires SingleTable(q) && TableMeets(w, RowsOf(w, q), t) && KeysInScope(q)
    requires |ColumnKeys(q.groupBy)| == |q.groupBy|
    requires t.NonNullUniqueKeyContainedIn(ColumnKeys(q.groupBy)).Some?
    ensures NoDuplicates(Map(KeyFn(w, q.groupBy), FromRows(w, q)))
  {
    SingleTableRows(w, q);
    ColumnKeysLength(q.groupBy);
    var rows, ks := RowsOf(w, q), Map(KeyFn(w, q.groupBy), FromRows(w, q));
    forall i, j | 0 <= i < j < |ks| ensures ks[i] != ks[j] {
      KeyTellsRowsApart(w, q, t, ColumnKeys(q.groupBy), i, j);
      var c :| c in ColumnKeys(q.groupBy) && Get(rows[i], c) != Get(rows[j], c);
      var k :| 0 <= k < |q.groupBy| && ColumnKeys(q.groupBy)[k] == c;
      assert q.groupBy[k] in q.groupBy && InScope(q, q.groupBy[k].column);
      ColumnOfRow(q, q.groupBy[k].column, rows[i]);
      ColumnOfRow(q, q.groupBy[k].column, rows[j]);
      assert ks[i][k] != ks[j][k];
    }
  }

  lemma GroupsAreRows(w: World, q: SelectQuery, t: TableConstraints)
    requires SingleTable(q) && TableMeets(w, RowsOf(w, q), t) && KeysInScope(q)
    requires q.groupBy != [] && |ColumnKeys(q.groupBy)| == |q.groupBy| && q.having == [] && q.qualify == []
    requires t.NonNullUniqueKeyContainedIn(ColumnKeys(q.groupBy)).Some?
    ensures Selected(w, q, FromRows(w, q)) == Map(Alone(), Filter(WhereHolds(w, q.predicates), FromRows(w, q)))
  {
    KeysApart(w, q, t);
    SelectedAll(w, q, FromRows(w, q));
    var kept := Filter(WhereHolds(w, q.predicates), FromRows(w, q));
    FilterApart(WhereHolds(w, q.predicates), KeyFn(w, q.groupBy), FromRows(w, q));
    GroupsAlone(w, q.groupBy, kept);
  }

  /** MAX, MIN and ANY_VALUE of one row are that row's value, NULL included. */
  lemma AggregateOfOne(w: World, fn: AggregateFn, c: ColName, env: Env)
    requires !fn.Count?
    ensures ExprValue(w.engine, Aggregate(fn, c), [env]) == Lookup(env, c)
  {
    var v := Lookup(env, c);
    assert Map(ColumnOf(c), [env]) == [v];
    assert Filter(IsVal(), [v]) == if v.Val? then [v] else [];
  }

  lemma {:induction false} CollapsedProjects(w: World, q: SelectQuery, ps: seq<Projection>, cols: seq<string>, env: Env)
    requires CollapsedAll(ps, q, cols).Some?
    ensures Project(w.engine, ps, [env]) == Project(w.engine, CollapsedAll(ps, q, cols).value, [env])
  {
    if ps != [] {
      CollapsedProjects(w, q, ps[1..], cols, env);
      if ps[0].Computed? {
        AggregateOfOne(w, ps[0].expr.fn, ps[0].expr.column, env);
      }
      var rs := CollapsedAll(ps, q, cols).value;
      assert rs[1..] == CollapsedAll(ps[1..], q, cols).value;
    }
  }

  lemma {:induction false} CollapsedPlain(q: SelectQuery, ps: seq<Projection>, cols: seq<string>)
    requires CollapsedAll(ps, q, cols).Some?
    ensures !AnyAggregate(CollapsedAll(ps, q, cols).value)
  {
    if ps != [] {
      CollapsedPlain(q, ps[1..], cols);
    }
  }

  lemma {:induction false} CollapsedNames(q: SelectQuery, ps: seq<Projection>, cols: seq<string>)
    requires CollapsedAll(ps, q, cols).Some?
    ensures NamedAlike(ps, CollapsedAll(ps, q, cols).value)
  {
    if ps != [] {
      CollapsedNames(q, ps[1..], cols);
    }
  }

  lemma CollapsedRows(w: World, q: SelectQuery, cols: seq<string>, kept: seq<Env>)
    requires CollapsedAll(q.projections, q, cols).Some?
    ensures Map(Output(w.engine, q.projections), Map(Alone(), kept))
         == Map(Output(w.engine, CollapsedAll(q.projections, q, cols).value), Map(Alone(), kept))
  {
    forall i | 0 <= i < |kept|
      ensures Output(w.engine, q.projections)([kept[i]])
           == Output(w.engine, CollapsedAll(q.projections, q, cols).value)([kept[i]])
    {
      CollapsedProjects(w, q, q.projections, cols, kept[i]);
    }
  }

  lemma GroupedBody(w: World, q: SelectQuery, t: TableConstraints)
    requires SingleTable(q) && TableMeets(w, RowsOf(w, q), t) && KeysInScope(q) && !q.distinct
    requires q.groupBy != [] && |ColumnKeys(q.groupBy)| == |q.groupBy| && q.having == [] && q.qualify == []
    requires t.NonNullUniqueKeyContainedIn(ColumnKeys(q.groupBy)).Some?
    ensures Body(w, q, FromRows(w, q))
         == Map(Output(w.engine, q.projections), Map(Alone(), Filter(WhereHolds(w, q.predicates), FromRows(w, q))))
  {
    GroupsAreRows(w, q, t);
  }

  lemma PlainBody(w: World, r: SelectQuery, envs: seq<Env>)
    requires r.groupBy == [] && r.having == [] && r.qualify == [] && !r.Aggregates() && !r.distinct
    ensures Body(w, r, envs) == Map(Output(w.engine, r.projections),
      Map(Alone(), Filter(WhereHolds(w, r.predicates), envs)))
  {
    SelectedAll(w, r, envs);
  }

  lemma CollapseSound(w: World, q: SelectQuery, t: TableConstraints, ps: seq<Projection>)
    requires SingleTable(q) && TableMeets(w, RowsOf(w, q), t) && KeysInScope(q) && !q.distinct
    requires q.groupBy != [] && |ColumnKeys(q.groupBy)| == |q.groupBy| && q.having == [] && q.qualify == []
    requires t.NonNullUniqueKeyContainedIn(ColumnKeys(q.groupBy)).Some?
    requires CollapsedAll(q.projections, q, ColumnKeys(q.groupBy)) == Some(ps) && !q.OrdersByAggregate()
    ensures Eval(w, q) == Eval(w, q.(projections := ps, groupBy := []))
  {
    hide Body;
    hide TableMeets;
    hide CollapsedAll;
    var r := q.(projections := ps, groupBy := []);
    SameFrom(w, q, r);
    GroupedBody(w, q, t);
    CollapsedPlain(q, q.projections, ColumnKeys(q.groupBy));
    PlainBody(w, r, FromRows(w, q));
    CollapsedRows(w, q, ColumnKeys(q.groupBy), Filter(WhereHolds(w, q.predicates), FromRows(w, q)));
    CollapsedProjects(w, q, q.projections, ColumnKeys(q.groupBy), Header(w, q));
    CollapsedNames(q, q.projections, ColumnKeys(q.groupBy));
    SameOutputs(q.projections, ps);
    SameEval(w, q, r);
  }

  /** Without GROUP BY the query returns the very same relation: each group was a single row. */
  lemma GroupByCollapse(w: World, q: SelectQuery, catalog: Catalog)
    requires Meets(w, catalog) && SuggestGroupBy(q, catalog).Proven() && KeysInScope(q) && !q.OrdersByAggregate()
    ensures Eval(w, q) == Eval(w, SuggestGroupBy(q, catalog).rewritten.value)
  {
    hide Eval;
    var t := catalog.Table(q.table.value).value;
    assert TableMeets(w, RowsOf(w, q), t);
    CollapseSound(w, q, t, SuggestGroupBy(q, catalog).rewritten.value.projections);
  }

  // ----- an aggregate in ORDER BY

  /** A query over an empty table: no group without rows, but one group when there is no GROUP BY. */
  lemma EmptyTable(w: World, q: SelectQuery)
    requires SingleTable(q) && RowsOf(w, q) == [] && q.having == [] && q.qualify == [] && !q.distinct
    ensures |Body(w, q, FromRows(w, q))| == if q.groupBy == [] && q.Aggregates() then 1 else 0
  {
    SingleTableRows(w, q);
    SelectedAll(w, q, FromRows(w, q));
  }

  lemma FirstShown(w: World, q: SelectQuery)
    requires ShowsFirst(q)
    ensures Eval(w, q).rows == [] <==> Body(w, q, FromRows(w, q)) == []
  {
    hide Body;
    SortedLength(w, OrderItems(q), Body(w, q, FromRows(w, q)));
  }

  lemma EmptyWorldMeets(catalog: Catalog)
    ensures WellFormed(PlainWorld(map[])) && Meets(PlainWorld(map[]), catalog)
  {
  }

  /** Left in ORDER BY without the grouping, the aggregate makes one row out of an empty table. */
  lemma AggregateOrderFails(w: World, q: SelectQuery, catalog: Catalog)
    requires SuggestGroupBy(q, catalog).Proven() && q.OrdersByAggregate() && ShowsFirst(q)
    requires q.table.Some? && RowsOf(w, q) == []
    ensures Answer(w, q) != Answer(w, SuggestGroupBy(q, catalog).rewritten.value)
  {
    hide Body;
    hide CollapsedAll;
    hide Eval;
    var r := SuggestGroupBy(q, catalog).rewritten.value;
    EmptyTable(w, q);
    EmptyTable(w, r);
    FirstShown(w, q);
    FirstShown(w, r);
    assert |Answer(w, q)| == |Eval(w, q).rows| && |Answer(w, r)| == |Eval(w, r).rows|;
  }

  lemma SuggestedTable(q: SelectQuery, catalog: Catalog)
    requires SuggestGroupBy(q, catalog).Proven()
    ensures q.table.Some?
  {
  }

  /** The rule does not look at ORDER BY: on all databases that meet the constraints, the collapse is right if and only
      if ORDER BY holds no aggregate. */
  lemma CollapseOrderExact(q: SelectQuery, catalog: Catalog)
    requires SuggestGroupBy(q, catalog).Proven() && KeysInScope(q) && ShowsFirst(q)
    ensures (forall w: World :: WellFormed(w) && Meets(w, catalog) ==>
               Answer(w, q) == Answer(w, SuggestGroupBy(q, catalog).rewritten.value)) <==> !q.OrdersByAggregate()
  {
    hide Eval;
    hide SuggestGroupBy;
    hide Meets;
    if q.OrdersByAggregate() {
      SuggestedTable(q, catalog);
      AggregateOrderFails(PlainWorld(map[]), q, catalog);
      EmptyWorldMeets(catalog);
    } else {
      forall w: World | WellFormed(w) && Meets(w, catalog)
        ensures Answer(w, q) == Answer(w, SuggestGroupBy(q, catalog).rewritten.value)
      {
        GroupByCollapse(w, q, catalog);
      }
    }
  }
}
