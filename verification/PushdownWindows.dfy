/** Pushdown loses the row windows of both queries: decided over all databases, together with the aliases. */
module PushdownWindows {
  import opened Ir
  import opened Lists
  import opened Semantics
  import opened Pipeline
  import opened Constraints
  import opened Rewrites
  import opened TableRows
  import opened Distinct
  import opened Pushdown
  import opened PushdownAliases

  // ----- how many rows come out

  lemma WindowLength<T(!new)>(limit: Option<nat>, offset: Option<nat>, rows: seq<T>)
    ensures |Window(limit, offset, rows)| <= |rows|
    ensures (limit.Some? || offset.GetOr(0) > 0) && |rows| > limit.GetOr(0) ==> |Window(limit, offset, rows)| < |rows|
  {
  }

  /** At most one result row for each row of FROM, and fewer when a row window cuts some. */
  lemma RowCount(w: World, q: SelectQuery)
    requires RowLevel(q)
    ensures |Eval(w, q).rows| <= |FromRows(w, q)|
    ensures !Unlimited(q) && |FromRows(w, q)| > q.limit.GetOr(0) ==> |Eval(w, q).rows| < |FromRows(w, q)|
  {
    hide Body;
    var rows := Body(w, q, FromRows(w, q));
    RowLevelRecords(w, q, FromRows(w, q));
    SortedLength(w, OrderItems(q), rows);
    WindowLength(q.limit, q.offset, Records(Ordered(w.engine, OrderItems(q), rows)));
  }

  // ----- a table of equal rows

  function Copies(q: SelectQuery, n: nat): seq<Record>
    requires q.subquery.Some?
  {
    seq(n, i => NamedRow(q))
  }

  ghost function CopiesWorld(q: SelectQuery, n: nat): World
    requires q.subquery.Some? && q.subquery.value.table.Some?
  {
    PlainWorld(map[q.subquery.value.table.value := Relation(ColumnsOf(q), Copies(q, n))])
  }

  lemma CopiesWellFormed(q: SelectQuery, n: nat)
    requires q.subquery.Some? && q.subquery.value.table.Some?
    ensures WellFormed(CopiesWorld(q, n))
  {
    assert Names(NamedRow(q)) == ColumnsOf(q);
  }

  lemma CopiesFrom(w: World, q: SelectQuery, n: nat)
    requires PlainPushdown(q) && q.subquery.value.table.Some? && w == CopiesWorld(q, n)
    ensures |FromRows(w, q.subquery.value)| == n
    ensures FromRows(w, Pushed(q, q.subquery.value)) == seq(n, i => InnerEnv(q))
  {
    hide SuggestPushdown;
    hide NamedRow;
    PlainShape(q);
    SingleTableRows(w, q.subquery.value);
    SingleTableRows(w, Pushed(q, q.subquery.value));
  }

  /** The pushed query returns all of them. */
  lemma AllCopies(w: World, q: SelectQuery, n: nat)
    requires PlainPushdown(q) && q.subquery.value.table.Some? && w == CopiesWorld(q, n)
    ensures |Eval(w, Pushed(q, q.subquery.value)).rows| == n
  {
    hide SuggestPushdown;
    hide NamedRow;
    hide Body;
    hide WhereHolds;
    PlainShape(q);
    var r := Pushed(q, q.subquery.value);
    CopiesFrom(w, q, n);
    PushedPasses(w, q);
    FilterAll(WhereHolds(w, r.predicates), FromRows(w, r));
    assert RowLevel(r);
    RowLevelRecords(w, r, FromRows(w, r));
    UnlimitedRows(w, r);
  }

  /** More rows than either LIMIT lets through. */
  function EnoughRows(q: SelectQuery): nat
    requires q.subquery.Some?
  {
    1 + q.limit.GetOr(0) + q.subquery.value.limit.GetOr(0)
  }

  /** The query returns fewer. */
  lemma FewerRows(w: World, q: SelectQuery)
    requires PlainPushdown(q) && !NoWindows(q) && q.subquery.value.table.Some? && w == CopiesWorld(q, EnoughRows(q))
    ensures |Eval(w, q).rows| < EnoughRows(q)
  {
    hide SuggestPushdown;
    hide CopiesWorld;
    hide Eval;
    PlainShape(q);
    CopiesFrom(w, q, EnoughRows(q));
    RowCount(w, q.subquery.value);
    FromSubquery(w, q);
    RowCount(w, q);
  }

  lemma FromSubquery(w: World, q: SelectQuery)
    requires q.table.None? && q.subquery.Some? && q.joins == []
    ensures |FromRows(w, q)| == |Eval(w, q.subquery.value).rows|
  {
  }

  lemma WindowsLose(q: SelectQuery)
    requires PlainPushdown(q) && !NoWindows(q) && q.subquery.value.table.Some?
    ensures var w := CopiesWorld(q, EnoughRows(q));
            WellFormed(w) && Answer(w, q) != Answer(w, SuggestPushdown(q).rewritten.value)
  {
    hide SuggestPushdown;
    hide CopiesWorld;
    hide Eval;
    PlainShape(q);
    var w, r := CopiesWorld(q, EnoughRows(q)), Pushed(q, q.subquery.value);
    CopiesWellFormed(q, EnoughRows(q));
    FewerRows(w, q);
    AllCopies(w, q, EnoughRows(q));
    assert |Answer(w, q)| == |Eval(w, q).rows| && |Answer(w, r)| == |Eval(w, r).rows|;
  }

  /** The rewrite is right on every database if and only if neither query has a row window and every selected column
      goes by its own name in the subquery. */
  lemma PushdownDecided(q: SelectQuery)
    requires PlainPushdown(q)
    ensures (forall w: World :: WellFormed(w) ==> Answer(w, q) == Answer(w, SuggestPushdown(q).rewritten.value))
       <==> Unlimited(q) && Unlimited(q.subquery.value) && AliasesAgree(q.subquery.value.projections)
  {
    hide SuggestPushdown;
    hide Eval;
    hide WellFormed;
    PlainShape(q);
    if NoWindows(q) {
      AliasesDecided(q);
    } else {
      WindowsLose(q);
    }
  }

  // ----- inputs on which the rule goes wrong

  /** SELECT a FROM (SELECT a FROM t [LIMIT below]) s WHERE a IS NOT NULL [LIMIT above] */
  function WindowedPushdown(t: string, s: string, a: string, below: Option<nat>, above: Option<nat>): SelectQuery {
    var inner := SelectQuery(Some(t), None, false, None, None, [], [Column(ColName(None, a), None)], [], [], [], [], [],
      below,
      None, false, "");
    SelectQuery(None, None, false, Some(inner), Some(s), [], [Column(ColName(None, a), None)],
      [Compare(ColName(None, a), IsNotNull, None)], [], [], [], [], above, None, false, "")
  }

  lemma WindowedSuggested(t: string, s: string, a: string, below: Option<nat>, above: Option<nat>)
    ensures var q := WindowedPushdown(t, s, a, below, above);
            PlainPushdown(q) && AliasesAgree(q.subquery.value.projections)
  {
    var q := WindowedPushdown(t, s, a, below, above);
    var ps := q.subquery.value.projections;
    assert ItemNames(q.projections) == [a] && ItemNames(ps) == [a];
    assert SameProjectionNames(q.projections, ps) && !q.ReferencesCte() && a in [a];
    assert SourceColumn(ps, a) == Some(a);
  }

  /** LIMIT 1 of the subquery is lost: two equal rows come back instead of one. */
  lemma InnerWindowLost(t: string, s: string, a: string)
    ensures var q := WindowedPushdown(t, s, a, Some(1), None);
            var w := CopiesWorld(q, 2);
            && SuggestPushdown(q).Proven() && AliasesAgree(q.subquery.value.projections) && WellFormed(w)
            && Answer(w, q) != Answer(w, SuggestPushdown(q).rewritten.value)
  {
    hide SuggestPushdown;
    hide Eval;
    hide CopiesWorld;
    WindowedSuggested(t, s, a, Some(1), None);
    WindowsLose(WindowedPushdown(t, s, a, Some(1), None));
  }

  /** So is LIMIT 1 of the outer query. */
  lemma OuterWindowLost(t: string, s: string, a: string)
    ensures var q := WindowedPushdown(t, s, a, None, Some(1));
            var w := CopiesWorld(q, 2);
            && SuggestPushdown(q).Proven() && AliasesAgree(q.subquery.value.projections) && WellFormed(w)
            && Answer(w, q) != Answer(w, SuggestPushdown(q).rewritten.value)
  {
    hide SuggestPushdown;
    hide Eval;
    hide CopiesWorld;
    WindowedSuggested(t, s, a, None, Some(1));
    WindowsLose(WindowedPushdown(t, s, a, None, Some(1)));
  }
}
