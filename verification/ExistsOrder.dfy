/** ORDER BY and row windows around the rewrite of a DISTINCT join to EXISTS. */
module ExistsOrder {
  import opened Ir
  import opened Lists
  import opened Semantics
  import opened Pipeline
  import opened Constraints
  import opened Rewrites
  import opened TableRows
  import opened Distinct
  import opened Widening
  import opened JoinElimination
  import opened JoinToExists

  // ----- what the result rows are made of

  lemma {:induction false} DistinctIn(rows: seq<OutRow>)
    ensures forall o :: o in DistinctRows(rows) ==> o in rows
    decreases |rows|
  {
    if rows != [] {
      DistinctIn(Filter(OtherRecord(rows[0].record), rows[1..]));
    }
  }

  /** A result row of a row-level query comes from one row of FROM that passes WHERE. */
  predicate MadeOf(w: World, q: SelectQuery, o: OutRow, env: Env) {
    WhereHolds(w, q.predicates)(env) && o == OutRow([env], Project(w.engine, q.projections, [env]))
  }

  lemma BodyRow(w: World, q: SelectQuery, envs: seq<Env>, o: OutRow) returns (env: Env)
    requires RowLevel(q) && o in Body(w, q, envs)
    ensures env in envs && MadeOf(w, q, o, env)
  {
    hide WhereHolds;
    hide Project;
    SelectedAll(w, q, envs);
    var kept := Filter(WhereHolds(w, q.predicates), envs);
    var rows := Map(Output(w.engine, q.projections), Map(Alone(), kept));
    DistinctIn(rows);
    var u := MapSource(Output(w.engine, q.projections), Map(Alone(), kept), o);
    env := MapSource(Alone(), kept, u);
  }

  /** A result row of the EXISTS query comes from a left row. */
  lemma ExistsRow(w: World, q: SelectQuery, o: OutRow) returns (rec: Record)
    requires ExistsShape(q) && o in Body(w, ExistsQuery(q), FromRows(w, ExistsQuery(q)))
    ensures rec in RowsOf(w, q) && MadeOf(w, ExistsQuery(q), o, [Binding(q.SourceName(), rec)])
  {
    hide Body;
    PlainItems(q);
    OneJoin(w, q);
    SameFrom(w, ExistsQuery(q), q.(joins := []));
    var env := BodyRow(w, ExistsQuery(q), FromRows(w, ExistsQuery(q)), o);
    rec := MapSource(Bind(q.SourceName()), RowsOf(w, q), env);
  }

  /** A row of the join is a left row with one of its matches. */
  lemma JoinedFrom(w: World, q: SelectQuery, env: Env) returns (rec: Record, row: Record)
    requires ExistsShape(q) && env in FromRows(w, q)
    ensures rec in RowsOf(w, q) && row in JoinRelation(w, q.joins[0]).rows
    ensures env == [Binding(q.SourceName(), rec)] + [Binding(q.joins[0].RelationName(), row)]
    ensures env in Matches(w.engine, q.joins[0], TableRelation(w, q.joins[0].table), [Binding(q.SourceName(), rec)])
  {
    hide OnHolds;
    var j := q.joins[0];
    OneJoin(w, q);
    var f := JoinRow(w.engine, j, JoinRelation(w, j));
    InFlatMap(f, SourceRows(q, SourceRelation(w, q)), env);
    var x :| x in SourceRows(q, SourceRelation(w, q)) && env in f(x);
    rec := MapSource(Bind(q.SourceName()), RowsOf(w, q), x);
    assert env in Matches(w.engine, j, TableRelation(w, j.table), x);
    row := MapSource(Extend(x, j.RelationName()), TableRelation(w, j.table).rows, env);
  }

  /** Its left row passes the rewritten WHERE clause and projects alike. */
  lemma LeftOfMatch(w: World, q: SelectQuery, rec: Record, env: Env)
    requires ExistsShape(q) && WhereHolds(w, q.predicates)(env)
    requires env in Matches(w.engine, q.joins[0], TableRelation(w, q.joins[0].table), [Binding(q.SourceName(), rec)])
    ensures WhereHolds(w, ExistsQuery(q).predicates)([Binding(q.SourceName(), rec)])
    ensures Project(w.engine, q.projections, [env]) ==
      Project(w.engine, q.projections, [[Binding(q.SourceName(), rec)]])
  {
    hide Matches;
    hide WhereHolds;
    hide Project;
    MatchLooksLikeLeft(w, q, rec, env);
    ExistsIsMatch(w, q, q.joins[0], rec);
    ExistsWhere(w, q, [Binding(q.SourceName(), rec)]);
    assert RowRecord(w, q.projections)(env) == Project(w.engine, q.projections, [env]);
  }

  /** A result row of the join comes from a left row that passes the rewritten WHERE clause, and a row of the joined
      table. */
  lemma JoinedRow(w: World, q: SelectQuery, o: OutRow) returns (rec: Record, row: Record)
    requires ExistsShape(q) && o in Body(w, q, FromRows(w, q))
    ensures rec in RowsOf(w, q) && row in JoinRelation(w, q.joins[0]).rows
    ensures o.unit == [[Binding(q.SourceName(), rec), Binding(q.joins[0].RelationName(), row)]]
    ensures MadeOf(w, ExistsQuery(q), OutRow([[Binding(q.SourceName(), rec)]], o.record),
      [Binding(q.SourceName(), rec)])
  {
    hide Body;
    hide WhereHolds;
    hide Project;
    hide FromRows;
    hide Matches;
    hide JoinRelation;
    PlainItems(q);
    var env := BodyRow(w, q, FromRows(w, q), o);
    rec, row := JoinedFrom(w, q, env);
    LeftOfMatch(w, q, rec, env);
    assert env == [Binding(q.SourceName(), rec), Binding(q.joins[0].RelationName(), row)];
  }

  /** Left rows that project alike are the same row. */
  lemma SameLeftRow(w: World, q: SelectQuery, a: Record, b: Record)
    requires ExistsShape(q) && MatchedRowsApart(w, q) && a in RowsOf(w, q) && b in RowsOf(w, q)
    requires var l, where := q.SourceName(), WhereHolds(w, ExistsQuery(q).predicates);
             where([Binding(l, a)]) && where([Binding(l, b)])
    requires RowRecord(w, q.projections)([Binding(q.SourceName(), a)]) ==
      RowRecord(w, q.projections)([Binding(q.SourceName(), b)])
    ensures a == b
  {
    hide Body;
    hide WhereHolds;
    hide RowRecord;
    var l, xs, where := q.SourceName(), SourceRows(q, SourceRelation(w, q)), WhereHolds(w, ExistsQuery(q).predicates);
    var kept := Filter(where, xs);
    ExistsRecords(w, q);
    InSource(w, q, a);
    InSource(w, q, b);
    var i :| 0 <= i < |kept| && kept[i] == [Binding(l, a)];
    var k :| 0 <= k < |kept| && kept[k] == [Binding(l, b)];
    var records := Map(RowRecord(w, q.projections), kept);
    assert records[i] == records[k];
    assert [Binding(l, a)][0] == [Binding(l, b)][0];
  }

  lemma InSource(w: World, q: SelectQuery, rec: Record)
    requires q.table.Some? && rec in RowsOf(w, q)
    ensures [Binding(q.SourceName(), rec)] in SourceRows(q, SourceRelation(w, q))
  {
    var i :| 0 <= i < |RowsOf(w, q)| && RowsOf(w, q)[i] == rec;
    assert SourceRows(q, SourceRelation(w, q))[i] == [Binding(q.SourceName(), rec)];
  }

  // ----- ORDER BY

  lemma NoUnqualified(q: SelectQuery)
    requires ExistsShape(q)
    ensures forall name :: !ClauseUses(q, name)
  {
    forall name ensures !ClauseUses(q, name) {
      forall p | p in q.projections ensures !(p.Column? && p.column == ColName(None, name)) {
        assert LeftItem(p, q.SourceName());
      }
      forall p | p in q.predicates ensures !FilterColumn(p, ColName(None, name)) {
        assert LeftFilter(p, q.SourceName());
      }
    }
  }

  /** ORDER BY sees the left row only. */
  lemma SeenLeft(w: World, q: SelectQuery, rec: Record, row: Record, record: Record)
    requires ExistsShape(q) && OrderFree(w, q)
    requires Names(rec) == SourceRelation(w, q).cols && Names(row) == JoinRelation(w, q.joins[0]).cols
    ensures var x, y := [Binding(q.SourceName(), rec)],
      [Binding(q.SourceName(), rec), Binding(q.joins[0].RelationName(), row)];
            SortKeyOf(OrderItems(q), OutRow([x], record)) == SortKeyOf(OrderItems(q), OutRow([y], record))
  {
    hide ClauseUses;
    hide OrderUses;
    hide OrderItems;
    var r := q.joins[0].RelationName();
    var x, y := [Binding(q.SourceName(), rec)], [Binding(q.SourceName(), rec), Binding(r, row)];
    NoUnqualified(q);
    HiddenRow(w, q, rec, row);
    forall i | 0 <= i < |OrderItems(q)| ensures Seen([x])(OrderItems(q)[i]) == Seen([y])(OrderItems(q)[i]) {
      var o := OrderItems(q)[i];
      var p := OrderItemOf(q, o);
      forall n | n in o.code.names ensures Covered(n, x, y) {
        UsedByItem(q, o, n);
      }
      VisibleWidened(r, x, y, o.code);
      assert VisibleUnit(o.code)([x]) == [Visible(o.code)(x)] && VisibleUnit(o.code)([y]) == [Visible(o.code)(y)];
    }
    assert Map(Seen([x]), OrderItems(q)) == Map(Seen([y]), OrderItems(q));
  }

  lemma UsedByItem(q: SelectQuery, o: OrderByItem, n: string)
    requires o in OrderItems(q) && n in o.code.names
    ensures UsesUnqualified(q, n)
  {
    assert OrderUses(q, n);
  }

  lemma RowNames(w: World, q: SelectQuery, rec: Record, row: Record)
    requires ExistsShape(q) && WellFormed(w) && rec in RowsOf(w, q) && row in JoinRelation(w, q.joins[0]).rows
    ensures Names(rec) == SourceRelation(w, q).cols && Names(row) == JoinRelation(w, q.joins[0]).cols
  {
  }

  lemma RowSortsAlike(w: World, q: SelectQuery, a: OutRow, b: OutRow)
    requires ExistsShape(q) && MatchedRowsApart(w, q) && OrderFree(w, q) && WellFormed(w) && a.record == b.record
    requires a in Body(w, q, FromRows(w, q)) && b in Body(w, ExistsQuery(q), FromRows(w, ExistsQuery(q)))
    ensures SortKeyOf(OrderItems(q), a) == SortKeyOf(OrderItems(q), b)
  {
    hide Body;
    hide FromRows;
    hide OrderFree;
    hide OrderItems;
    hide SortKeyOf;
    hide WhereHolds;
    hide MatchedRowsApart;
    hide ExistsShape;
    var rec, row := JoinedRow(w, q, a);
    var other := ExistsRow(w, q, b);
    assert RowRecord(w, q.projections)([Binding(q.SourceName(), rec)]) ==
      RowRecord(w, q.projections)([Binding(q.SourceName(), other)]);
    SameLeftRow(w, q, rec, other);
    RowNames(w, q, rec, row);
    SeenLeft(w, q, rec, row, a.record);
    assert a == OutRow(a.unit, a.record);
  }

  /** The rows of both queries sort alike. */
  lemma ExistsSortsAlike(w: World, q: SelectQuery)
    requires ExistsShape(q) && MatchedRowsApart(w, q) && OrderFree(w, q) && WellFormed(w)
    ensures var r := ExistsQuery(q); SortAlike(OrderItems(q), Body(w, q, FromRows(w, q)), Body(w, r, FromRows(w, r)))
  {
    hide Body;
    hide FromRows;
    hide OrderFree;
    hide OrderItems;
    hide SortKeyOf;
    var r := ExistsQuery(q);
    hide ExistsShape;
    var xs, ys := Body(w, q, FromRows(w, q)), Body(w, r, FromRows(w, r));
    JoinIsDedupOfExists(w, q);
    DedupNoDuplicates(Records(ys));
    assert |xs| == |Records(xs)| == |Records(ys)| == |ys|;
    forall i | 0 <= i < |xs| ensures SortKeyOf(OrderItems(q), xs[i]) == SortKeyOf(OrderItems(q), ys[i]) {
      assert Records(xs)[i] == xs[i].record && Records(ys)[i] == ys[i].record;
      RowSortsAlike(w, q, xs[i], ys[i]);
    }
  }

  lemma SameColumns(w: World, q: SelectQuery)
    requires ExistsShape(q)
    ensures Eval(w, q).cols == Eval(w, ExistsQuery(q)).cols
  {
    hide Body;
    hide Finish;
    hide FromRows;
    OneJoinHeader(w, q);
    var a, b := Header(w, q)[0], Header(w, q)[1];
    assert Header(w, ExistsQuery(q)) == [a] && [a] + [b] == [a, b];
    ProjectStays(w, q, q.projections, a.record, b.relation, b.record);
  }

  /** With a key the rewrite returns the very same relation, under any ORDER BY that leaves the joined table alone and
      any row window. */
  lemma ExistsRelation(w: World, q: SelectQuery, catalog: Catalog, key: seq<string>)
    requires Meets(w, catalog) && WellFormed(w) && SuggestExists(q).Proven() && ExistsLimits(q) && OrderFree(w, q)
    requires q.table.Some? && catalog.Table(q.table.value).Some? && MatchKey(q, catalog.Table(q.table.value).value, key)
    ensures Eval(w, q) == Eval(w, SuggestExists(q).rewritten.value)
  {
    hide Body;
    hide OrderFree;
    hide OrderItems;
    hide FromRows;
    var r, t := ExistsQuery(q), catalog.Table(q.table.value).value;
    ProvenExists(q);
    assert TableMeets(w, RowsOf(w, q), t);
    KeyKeepsMatchedApart(w, q, t, key);
    ExistsSortsAlike(w, q);
    SameItems(q);
    SortAlikeSameRows(w, q, r);
    SameColumns(w, q);
  }

  lemma SameItems(q: SelectQuery)
    requires |q.joins| == 1
    ensures SameEnd(q, ExistsQuery(q))
  {
  }

  lemma SameAcceptance(w: World, q: SelectQuery)
    requires ExistsShape(q)
    ensures OrderAccepted(w, ExistsQuery(q)) <==> OrderAccepted(w, q.(joins := []))
  {
    hide InFrom;
    hide NameKnown;
    var r, s := ExistsQuery(q), q.(joins := []);
    assert Header(w, r) == Header(w, s);
    forall t ensures InFrom(w, r, t) == InFrom(w, s, t) {
      SameHeaders(w, r, s, t);
    }
    forall n ensures NameKnown(w, r, n) == NameKnown(w, s, n) {
      SameHeaders(w, r, s, n);
    }
  }

  lemma SameHeaders(w: World, r: SelectQuery, s: SelectQuery, n: string)
    requires Header(w, r) == Header(w, s) && r.projections == s.projections
    ensures InFrom(w, r, n) == InFrom(w, s, n) && NameKnown(w, r, n) == NameKnown(w, s, n)
  {
  }

  /** The rule does not look at ORDER BY: with a key the rewrite is accepted and right exactly when ORDER BY names
      neither the joined table nor a column that it alone has. */
  lemma ExistsOrderExact(w: World, q: SelectQuery, catalog: Catalog, key: seq<string>)
    requires Meets(w, catalog) && WellFormed(w) && SuggestExists(q).Proven() && ExistsLimits(q) && OrderAccepted(w, q)
    requires q.table.Some? && catalog.Table(q.table.value).Some? && MatchKey(q, catalog.Table(q.table.value).value, key)
    ensures var r := SuggestExists(q).rewritten.value;
            OrderAccepted(w, r) && Answer(w, q) == Answer(w, r) <==> OrderFree(w, q)
  {
    hide Eval;
    hide OrderFree;
    hide OrderAccepted;
    ProvenExists(q);
    SameAcceptance(w, q);
    OrderStaysAccepted(w, q);
    if OrderFree(w, q) {
      ExistsRelation(w, q, catalog, key);
    }
  }
}
