/** Pushdown compares column names and not aliases: decided over all databases for queries without row windows. */
module PushdownAliases {
  import opened Ir
  import opened Lists
  import opened Semantics
  import opened Pipeline
  import opened Constraints
  import opened Rewrites
  import opened TableRows
  import opened Distinct
  import opened Pushdown
  import opened Witnesses
  import opened UnqualifiedColumns

  /** An unfiltered subquery, and an outer query that asks for columns that are not NULL. */
  predicate PlainPushdown(q: SelectQuery) {
    && SuggestPushdown(q).Proven() && PushdownScope(q)
    && q.subquery.value.predicates == [] && forall p :: p in q.predicates ==> p.Compare? && p.operator.IsNotNull?
  }

  predicate NoWindows(q: SelectQuery) {
    Unlimited(q) && q.subquery.Some? && Unlimited(q.subquery.value)
  }

  lemma PlainShape(q: SelectQuery)
    requires PlainPushdown(q)
    ensures SuggestPushdown(q).rewritten == Some(Pushed(q, q.subquery.value))
    ensures q.joins == [] && RowLevel(q) && RowLevel(q.subquery.value) && SingleTable(q.subquery.value)
    ensures PlainColumns(q.projections) && PlainColumns(q.subquery.value.projections) && !q.subquery.value.distinct
    ensures ItemNames(q.projections) == ItemNames(q.subquery.value.projections)
    ensures forall p :: p in q.predicates ==> CanPush(p.left, q.alias, ItemNames(q.subquery.value.projections))
  {
  }

  function Spelled(): string -> Value {
    c => Val(Text(c))
  }

  function ColumnsOf(q: SelectQuery): seq<string>
    requires q.subquery.Some?
  {
    ItemNames(q.subquery.value.projections)
  }

  /** One row whose values are the names of their columns. */
  function NamedRow(q: SelectQuery): Record
    requires q.subquery.Some?
  {
    BuildRow(ColumnsOf(q), Spelled())
  }

  ghost function NamedWorld(q: SelectQuery): World
    requires q.subquery.Some? && q.subquery.value.table.Some?
  {
    PlainWorld(map[q.subquery.value.table.value := Relation(ColumnsOf(q), [NamedRow(q)])])
  }

  lemma NamedValue(q: SelectQuery, c: string)
    requires q.subquery.Some? && c in ColumnsOf(q)
    ensures Get(NamedRow(q), c) == Val(Text(c))
  {
    GetBuilt(ColumnsOf(q), Spelled(), c);
  }

  function InnerEnv(q: SelectQuery): Env
    requires q.subquery.Some?
  {
    [Binding(q.subquery.value.SourceName(), NamedRow(q))]
  }

  lemma PushedFrom(w: World, q: SelectQuery)
    requires PlainPushdown(q) && w == NamedWorld(q)
    ensures FromRows(w, q.subquery.value) == FromRows(w, Pushed(q, q.subquery.value)) == [InnerEnv(q)]
  {
    hide SuggestPushdown;
    hide NamedRow;
    PlainShape(q);
    SingleTableRows(w, q.subquery.value);
    SingleTableRows(w, Pushed(q, q.subquery.value));
  }

  lemma NotNullPasses(w: World, q: SelectQuery, p: WherePredicate)
    requires q.subquery.Some? && p.Compare? && p.operator.IsNotNull? && p.left.table.None?
    requires p.left.name in ColumnsOf(q)
    ensures PredicateTruth(w, p, InnerEnv(q)).True3?
  {
    hide NamedRow;
    ColumnOfRow(q.subquery.value, p.left, NamedRow(q));
    NamedValue(q, p.left.name);
  }

  lemma AllPass(w: World, q: SelectQuery, ps: seq<WherePredicate>)
    requires q.subquery.Some?
    requires forall p :: p in ps ==> p.Compare? && p.operator.IsNotNull? && p.left.name in ColumnsOf(q)
    ensures WhereHolds(w, UnqualifiedPredicates(ps))(InnerEnv(q))
  {
    hide PredicateTruth;
    hide InnerEnv;
    var us := UnqualifiedPredicates(ps);
    forall u | u in us ensures PredicateTruth(w, u, InnerEnv(q)).True3? {
      var i :| 0 <= i < |us| && u == us[i];
      assert ps[i] in ps;
      NotNullPasses(w, q, u);
    }
  }

  lemma PushedPasses(w: World, q: SelectQuery)
    requires PlainPushdown(q)
    ensures WhereHolds(w, Pushed(q, q.subquery.value).predicates)(InnerEnv(q))
  {
    hide SuggestPushdown;
    hide WhereHolds;
    hide UnqualifiedPredicates;
    hide InnerEnv;
    PlainShape(q);
    AllPass(w, q, q.predicates);
    assert Pushed(q, q.subquery.value).predicates == UnqualifiedPredicates(q.predicates);
  }

  /** The pushed query returns the row. */
  lemma PushedRow(w: World, q: SelectQuery)
    requires PlainPushdown(q) && w == NamedWorld(q)
    ensures Answer(w, Pushed(q, q.subquery.value)) ==
      multiset{Project(w.engine, UnqualifiedItems(q.projections), [InnerEnv(q)])}
  {
    hide SuggestPushdown;
    hide NamedRow;
    hide Eval;
    hide FromRows;
    hide WhereHolds;
    hide Project;
    PlainShape(q);
    PushedFrom(w, q);
    PushedPasses(w, q);
    OneRowAnswer(w, Pushed(q, q.subquery.value), InnerEnv(q));
  }

  function OuterEnv(w: World, q: SelectQuery): Env
    requires q.subquery.Some?
  {
    [Binding(q.SourceName(), Project(w.engine, q.subquery.value.projections, [InnerEnv(q)]))]
  }

  lemma OuterFrom(w: World, q: SelectQuery)
    requires PlainPushdown(q) && NoWindows(q) && w == NamedWorld(q)
    ensures FromRows(w, q) == [OuterEnv(w, q)]
  {
    hide SuggestPushdown;
    hide NamedRow;
    hide Eval;
    PlainShape(q);
    PushedFrom(w, q);
    OneRowAnswer(w, q.subquery.value, InnerEnv(q));
    assert SourceRelation(w, q).rows == [Project(w.engine, q.subquery.value.projections, [InnerEnv(q)])];
    assert SourceRows(q, SourceRelation(w, q)) == [OuterEnv(w, q)];
  }

  lemma {:induction false} SourceIsItem(ps: seq<Projection>, name: string)
    requires PlainColumns(ps) && SourceColumn(ps, name).Some?
    ensures SourceColumn(ps, name).value in ItemNames(ps)
  {
    assert ItemNames(ps)[0] == ps[0].Name() && ps[0] in ps;
    if ps[0].OutputName() != name {
      SourceIsItem(ps[1..], name);
      var k :| 0 <= k < |ps[1..]| && ItemNames(ps[1..])[k] == SourceColumn(ps, name).value;
      assert ItemNames(ps)[k + 1] == ItemNames(ps[1..])[k];
    }
  }

  /** The item of a name that the aliases lead elsewhere has another value in the subquery than in the table. */
  lemma ItemMisread(w: World, q: SelectQuery, k: nat)
    requires PlainPushdown(q) && k < |q.projections| && PlainColumns(q.subquery.value.projections)
    requires PlainColumns(q.projections)
    requires var n := q.projections[k].Name();
             n in ColumnsOf(q) && SourceColumn(q.subquery.value.projections, n) != Some(n)
    ensures Project(w.engine, q.projections, [OuterEnv(w, q)]) != Project(w.engine, UnqualifiedItems(q.projections),
      [InnerEnv(q)])
  {
    hide SuggestPushdown;
    hide NamedRow;
    hide Project;
    var inner, c, us := q.subquery.value, q.projections[k].column, UnqualifiedItems(q.projections);
    assert q.projections[k] in q.projections && us[k].column == c.Unqualified();
    var rec := Project(w.engine, inner.projections, [InnerEnv(q)]);
    ReadBack(w, inner, inner.projections, NamedRow(q), c.name);
    if SourceColumn(inner.projections, c.name).Some? {
      SourceIsItem(inner.projections, c.name);
      NamedValue(q, SourceColumn(inner.projections, c.name).value);
    }
    NamedValue(q, c.name);
    ColumnOfRow(q, c, rec);
    ColumnOfRow(inner, c.Unqualified(), NamedRow(q));
    assert Lookup(OuterEnv(w, q), c) != Lookup(InnerEnv(q), c.Unqualified());
    assert NoStars(us);
    ProjectedField(w.engine, q.projections, k, [OuterEnv(w, q)]);
    ProjectedField(w.engine, us, k, [InnerEnv(q)]);
  }

  lemma MisreadItem(q: SelectQuery) returns (k: nat)
    requires q.subquery.Some? && PlainColumns(q.subquery.value.projections)
    requires ItemNames(q.projections) == ColumnsOf(q) && !AliasesAgree(q.subquery.value.projections)
    ensures k < |q.projections|
    ensures var n := q.projections[k].Name();
            n in ColumnsOf(q) && SourceColumn(q.subquery.value.projections, n) != Some(n)
  {
    hide SourceColumn;
    var ps := q.subquery.value.projections;
    var n :| n in ItemNames(ps) && SourceColumn(ps, n) != Some(n);
    k :| 0 <= k < |ItemNames(q.projections)| && ItemNames(q.projections)[k] == n;
  }

  lemma SomeItemMisread(w: World, q: SelectQuery)
    requires PlainPushdown(q) && !AliasesAgree(q.subquery.value.projections) && PlainColumns(q.projections)
    ensures Project(w.engine, q.projections, [OuterEnv(w, q)]) != Project(w.engine, UnqualifiedItems(q.projections),
      [InnerEnv(q)])
  {
    hide SuggestPushdown;
    hide Project;
    hide InnerEnv;
    hide OuterEnv;
    hide Pushed;
    hide UnqualifiedItems;
    hide AliasesAgree;
    hide SourceColumn;
    PlainShape(q);
    var k := MisreadItem(q);
    ItemMisread(w, q, k);
  }

  lemma NoRowAnswer(w: World, q: SelectQuery, env: Env)
    requires RowLevel(q) && Unlimited(q) && FromRows(w, q) == [env] && !WhereHolds(w, q.predicates)(env)
    ensures Answer(w, q) == multiset{}
  {
    hide Body;
    FilterNone(WhereHolds(w, q.predicates), [env]);
    AnswerIsBody(w, q);
    RowLevelRecords(w, q, [env]);
  }

  /** A name that the aliases lead elsewhere tells the two queries apart. */
  lemma MisreadDiffers(q: SelectQuery)
    requires PlainPushdown(q) && NoWindows(q) && !AliasesAgree(q.subquery.value.projections)
    ensures Answer(NamedWorld(q), q) != Answer(NamedWorld(q), SuggestPushdown(q).rewritten.value)
  {
    hide SuggestPushdown;
    hide NamedRow;
    hide Eval;
    hide Project;
    hide FromRows;
    hide WhereHolds;
    hide UnqualifiedItems;
    hide NamedWorld;
    PlainShape(q);
    var w, inner := NamedWorld(q), q.subquery.value;
    PushedRow(w, q);
    OuterFrom(w, q);
    if WhereHolds(w, q.predicates)(OuterEnv(w, q)) {
      OneRowAnswer(w, q, OuterEnv(w, q));
      SomeItemMisread(w, q);
      DifferentRows(Project(w.engine, q.projections, [OuterEnv(w, q)]),
        Project(w.engine, UnqualifiedItems(q.projections), [InnerEnv(q)]));
    } else {
      NoRowAnswer(w, q, OuterEnv(w, q));
      assert |Answer(w, Pushed(q, inner))| == 1;
    }
  }

  lemma NamedWellFormed(q: SelectQuery)
    requires q.subquery.Some? && q.subquery.value.table.Some?
    ensures WellFormed(NamedWorld(q))
  {
    assert Names(NamedRow(q)) == ColumnsOf(q);
  }

  /** Without row windows the rewrite is right on every database if and only if every selected column goes by its own
      name in the subquery. */
  lemma AliasesDecided(q: SelectQuery)
    requires PlainPushdown(q) && NoWindows(q)
    ensures (forall w: World :: WellFormed(w) ==> Answer(w, q) == Answer(w, SuggestPushdown(q).rewritten.value))
       <==> AliasesAgree(q.subquery.value.projections)
  {
    hide SuggestPushdown;
    hide Eval;
    hide WellFormed;
    if AliasesAgree(q.subquery.value.projections) {
      forall w: World | WellFormed(w) ensures Answer(w, q) == Answer(w, SuggestPushdown(q).rewritten.value) {
        PushdownExact(w, q);
      }
    } else {
      MisreadDiffers(q);
      PlainShape(q);
      NamedWellFormed(q);
    }
  }

  // ----- an input on which the rule goes wrong

  /** SELECT a, b FROM (SELECT a AS b, b AS a FROM t) s WHERE a IS NOT NULL */
  function SwappedAliases(t: string, s: string, a: string, b: string): SelectQuery {
    var inner := SelectQuery(Some(t), None, false, None, None, [],
      [Column(ColName(None, a), Some(b)), Column(ColName(None, b), Some(a))], [], [], [], [], [], None, None, false,
        "");
    SelectQuery(None, None, false, Some(inner), Some(s), [],
      [Column(ColName(None, a), None), Column(ColName(None, b), None)],
      [Compare(ColName(None, a), IsNotNull, None)], [], [], [], [], None, None, false, "")
  }

  /** It is rewritten, and reads `a` where the query reads `b`. */
  lemma AliasesMisread(t: string, s: string, a: string, b: string)
    requires a != b
    ensures var q := SwappedAliases(t, s, a, b);
            && SuggestPushdown(q).Proven() && WellFormed(NamedWorld(q))
            && Answer(NamedWorld(q), q) != Answer(NamedWorld(q), SuggestPushdown(q).rewritten.value)
  {
    hide Eval;
    var q := SwappedAliases(t, s, a, b);
    SwapSuggested(t, s, a, b);
    MisreadDiffers(q);
    NamedWellFormed(q);
  }

  lemma SwapSuggested(t: string, s: string, a: string, b: string)
    requires a != b
    ensures var q := SwappedAliases(t, s, a, b);
            PlainPushdown(q) && NoWindows(q) && !AliasesAgree(q.subquery.value.projections)
  {
    var q := SwappedAliases(t, s, a, b);
    var ps := q.subquery.value.projections;
    assert ItemNames(q.projections) == [a, b] && ItemNames(ps) == [a, b];
    assert SameProjectionNames(q.projections, ps) && !q.ReferencesCte() && a in [a, b];
    assert a in ItemNames(ps) && ps[1..][0].OutputName() == a && SourceColumn(ps, a) == Some(b);
  }
}
