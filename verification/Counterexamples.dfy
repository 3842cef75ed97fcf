/** Inputs on which an unchecked case of a rule goes wrong, each on a database that meets every constraint. Table and
    column names are arbitrary. */
module Counterexamples {
  import opened Ir
  import opened Lists
  import opened Semantics
  import opened Pipeline
  import opened Constraints
  import opened Rewrites
  import opened TableRows
  import opened Distinct
  import opened DistinctJoins
  import opened Witnesses
  import opened UnqualifiedColumns
  import opened Widening
  import JoinElimination
  import GroupByUnique
  import Verifier

  const ONE := Val(Number(1.0))
  const TWO := Val(Number(2.0))

  function PlainQuery(table: string, projections: seq<Projection>): SelectQuery {
    SelectQuery(Some(table), None, false, None, None, [], projections, [], [], [], [], [], None, None, false, "")
  }

  function KeyOn(k: string, nullable: Option<bool>): TableConstraints {
    TableConstraints(map[k := ColumnConstraint(nullable, [])], [[k]], [])
  }

  lemma OneItem(g: Engine, p: Projection, env: Env)
    ensures Project(g, [p], [env]) == ItemFields(g, p, [env])
  {
    assert [p][1..] == [] && Project(g, [], [env]) == [];
  }

  // ----- the DISTINCT check of the verifier

  /** SELECT DISTINCT l.k FROM l JOIN r ON l.k = r.k */
  function DistinctJoin(l: string, r: string, k: string): SelectQuery {
    PlainQuery(l, [Column(ColName(Some(l), k), None)]).(
      joins := [Join(Inner, r, None, false, None, EqualColumns(l, r, k), [])], distinct := true)
  }

  function NonNullKey(l: string, k: string): Catalog {
    Catalog(map[l := KeyOn(k, Some(false))])
  }

  lemma KeyFound(k: string, names: seq<string>)
    requires names == [k]
    ensures KeyOn(k, Some(false)).NonNullUniqueKeyContainedIn(names).Some?
  {
    var t := KeyOn(k, Some(false));
    assert [k] in t.unique && Within([k], names) && t.AllNonNull([k]);
  }

  /** A DISTINCT removal is proven whenever its check says so. */
  lemma RemovalProven(q: SelectQuery, catalog: Catalog)
    requires q.distinct && Verifier.CheckDistinctRemoval(q, catalog).status.ProvenEquivalent?
    ensures Verifier.CheckEquivalence(q, q.(distinct := false), catalog).status.ProvenEquivalent?
  {
    hide Verifier.CheckDistinctRemoval;
    hide Verifier.FirstReplay;
    assert Verifier.IsDistinctRemoval(q, q.(distinct := false));
  }

  lemma DistinctJoinShape(l: string, r: string, k: string)
    requires l != r
    ensures PlainJoinedDistinct(DistinctJoin(l, r, k))
    ensures Verifier.CheckDistinctRemoval(DistinctJoin(l, r, k), NonNullKey(l, k)).status.ProvenEquivalent?
  {
    var q := DistinctJoin(l, r, k);
    assert q.joins[0].Conditions() == [EqualColumns(l, r, k)];
    PairOfKey(l, r, k);
    KeyFound(k, ItemNames(q.projections));
  }

  /** The check looks at the names of the projected columns and not at the joins: a key of one joined table does not
      keep the rows of the join apart. */
  lemma DistinctJoinMisjudged(l: string, r: string, k: string)
    requires l != r
    ensures var q, catalog := DistinctJoin(l, r, k), NonNullKey(l, k);
            && Verifier.CheckEquivalence(q, q.(distinct := false), catalog).status.ProvenEquivalent?
            && exists w: World :: WellFormed(w) && Meets(w, catalog) && Answer(w, q) != Answer(w, q.(distinct := false))
  {
    hide Eval;
    hide Verifier.CheckEquivalence;
    hide Verifier.CheckDistinctRemoval;
    var q, catalog := DistinctJoin(l, r, k), NonNullKey(l, k);
    DistinctJoinShape(l, r, k);
    RemovalProven(q, catalog);
    assert ConstraintsOf(q, catalog) == KeyOn(k, Some(false)) && JoinedConstraints(q, catalog).unique == [];
    JoinedTwinWorldMeets(q, catalog);
    JoinedTwinsDiffer(q, catalog);
    var w := JoinedTwinWorld(q, catalog);
    assert WellFormed(w) && Meets(w, catalog) && Answer(w, q) != Answer(w, q.(distinct := false));
  }

  /** SELECT DISTINCT <expression> AS k FROM t */
  function DistinctExpression(t: string, k: string, code: OpaqueSql): SelectQuery {
    PlainQuery(t, [Computed(Opaque(code), Some(k))]).(distinct := true)
  }

  lemma DistinctExpressionShape(t: string, k: string, code: OpaqueSql)
    ensures PlainDistinct(DistinctExpression(t, k, code))
    ensures Verifier.CheckDistinctRemoval(DistinctExpression(t, k, code), NonNullKey(t, k)).status.ProvenEquivalent?
    ensures var names := ColumnNames(DistinctExpression(t, k, code).projections);
            KeyOn(k, Some(false)).NonNullUniqueKeyContainedIn(names).None?
  {
    KeyFound(k, ItemNames(DistinctExpression(t, k, code).projections));
    assert ColumnNames(DistinctExpression(t, k, code).projections) == [];
    assert k in [k];
  }

  /** An expression with the alias of a key is taken for the key. */
  lemma AliasedExpressionMisjudged(t: string, k: string, code: OpaqueSql)
    ensures var q, catalog := DistinctExpression(t, k, code), NonNullKey(t, k);
            && Verifier.CheckEquivalence(q, q.(distinct := false), catalog).status.ProvenEquivalent?
            && exists w: World :: WellFormed(w) && Meets(w, catalog) && Answer(w, q) != Answer(w, q.(distinct := false))
  {
    hide Eval;
    hide Verifier.CheckEquivalence;
    hide Verifier.CheckDistinctRemoval;
    var q, catalog := DistinctExpression(t, k, code), NonNullKey(t, k);
    DistinctExpressionShape(t, k, code);
    RemovalProven(q, catalog);
    TwinsDiffer(q, catalog);
    var w := TwinWorld(q, catalog);
    assert WellFormed(w) && Meets(w, catalog) && Answer(w, q) != Answer(w, q.(distinct := false));
  }

  // ----- ORDER BY

  /** SELECT id, MAX(x) AS m FROM t GROUP BY id ORDER BY MAX(x) LIMIT 1 */
  function OrderedGroups(t: string, id: string, x: string, m: string): SelectQuery {
    PlainQuery(t, [Column(ColName(None, id), None), Computed(Aggregate(Max, ColName(None, x)), Some(m))]).(
      groupBy := [ColumnKey(ColName(None, id))],
      orderBy := [OrderByItem(OpaqueSql("MAX(x)", [], [x]), true, false)], limit := Some(1))
  }

  lemma OrderedGroupsSuggested(t: string, id: string, x: string, m: string)
    ensures var q := OrderedGroups(t, id, x, m);
            GroupByUnique.SuggestGroupBy(q, NonNullKey(t, id)).Proven() && q.OrdersByAggregate()
  {
    var q := OrderedGroups(t, id, x, m);
    assert GroupByUnique.ColumnKeys(q.groupBy[1..]) == [];
    assert GroupByUnique.ColumnKeys(q.groupBy) == [id];
    KeyFound(id, GroupByUnique.ColumnKeys(q.groupBy));
    assert GroupByUnique.CollapsedAll(q.projections[1..][1..], q, [id]) == Some([]);
    assert GroupByUnique.CollapsedAll(q.projections[1..], q, [id]).Some?;
    assert q.orderBy[0] in q.orderBy;
  }

  /** An empty table with the two columns. */
  ghost function ColumnsOnly(t: string, id: string, x: string): World {
    PlainWorld(map[t := Relation([id, x], [])])
  }

  lemma OrderedGroupsAccepted(w: World, t: string, id: string, x: string, m: string)
    requires w == ColumnsOnly(t, id, x)
    ensures OrderAccepted(w, OrderedGroups(t, id, x, m))
  {
    var q := OrderedGroups(t, id, x, m);
    assert Header(w, q)[0] in Header(w, q) && Header(w, q)[0].record == NullRecord([id, x]);
    JoinElimination.NullFields([id, x], x);
    assert NameKnown(w, q, x);
  }

  /** The aggregate stays in ORDER BY when the grouping goes: no engine has to accept that, and where it makes one group
      of the table, an empty table gets a row. */
  lemma AggregateOrderMisjudged(t: string, id: string, x: string, m: string)
    ensures var q, catalog, w := OrderedGroups(t, id, x, m), NonNullKey(t, id), ColumnsOnly(t, id, x);
            && GroupByUnique.SuggestGroupBy(q, catalog).Proven() && WellFormed(w) && Meets(w, catalog)
            && OrderAccepted(w, q) && !OrderAccepted(w, GroupByUnique.SuggestGroupBy(q, catalog).rewritten.value)
            && Answer(w, q) != Answer(w, GroupByUnique.SuggestGroupBy(q, catalog).rewritten.value)
  {
    hide Eval;
    var q, catalog, w := OrderedGroups(t, id, x, m), NonNullKey(t, id), ColumnsOnly(t, id, x);
    OrderedGroupsSuggested(t, id, x, m);
    OrderedGroupsAccepted(w, t, id, x, m);
    GroupByUnique.AggregateOrderFails(w, q, catalog);
    NoRowsMeet(w, NonNullKey(t, id).tables[t]);
    GroupByUnique.CollapsedPlain(q, q.projections, GroupByUnique.ColumnKeys(q.groupBy));
  }

  /** SELECT l.k FROM l LEFT JOIN r ON l.k = r.k ORDER BY r.<text> LIMIT 1 */
  function OrderedJoin(l: string, r: string, k: string, text: string): SelectQuery {
    PlainQuery(l, [Column(ColName(Some(l), k), None)]).(
      joins := [Join(Left, r, None, false, None, EqualColumns(l, r, k), [])],
      orderBy := [OrderByItem(OpaqueSql(text, [r], []), false, false)], limit := Some(1))
  }

  lemma OrderedJoinSuggested(l: string, r: string, k: string, text: string)
    requires l != r
    ensures JoinElimination.SuggestLeft(OrderedJoin(l, r, k, text), UniqueRight(r, k)).Proven()
    ensures JoinElimination.SuggestLeft(OrderedJoin(l, r, k, text), UniqueRight(r, k)).rewritten
         == Some(OrderedJoin(l, r, k, text).(joins := []))
  {
    var j, t := OrderedJoin(l, r, k, text).joins[0], UniqueRight(r, k).tables[r];
    assert j.Conditions() == [EqualColumns(l, r, k)];
    PairOfKey(l, r, k);
    assert JoinElimination.Rights([JoinElimination.KeyPair(k, k)]) == [k];
    assert JoinElimination.RightJoinKeys(j, Some(l)) == Some([k]);
    assert [k] in t.unique && Within([k], [k]);
  }

  predicate SeesSomething(k: SortKey) {
    k.seen != [] && k.seen[0] != [] && k.seen[0][0] != []
  }

  /** Two left rows without a match, and an engine that turns round what it sees of the joined table. */
  ghost function TurnedWorld(l: string, k: string): World {
    var w := PlainWorld(map[l := Relation([k], [[Field(k, ONE)], [Field(k, TWO)]])]);
    w.(engine := w.engine.(before := (items: seq<OrderByItem>, a: SortKey, b: SortKey) => SeesSomething(a)))
  }

  lemma TurnedWorldMeets(l: string, r: string, k: string)
    requires l != r
    ensures WellFormed(TurnedWorld(l, k)) && Meets(TurnedWorld(l, k), UniqueRight(r, k))
  {
    var a, b := [Field(k, ONE)], [Field(k, TWO)];
    assert Names(a) == [k] && Names(b) == [k];
  }

  lemma UnmatchedRows(w: World, q: SelectQuery, x: Record, y: Record)
    requires |q.joins| == 1 && q.joins[0].joinType.Left? && q.table.Some? && RowsOf(w, q) == [x, y]
    requires JoinRelation(w, q.joins[0]) == Relation([], [])
    ensures var s, b := q.SourceName(), Binding(q.joins[0].RelationName(), []);
            FromRows(w, q) == [[Binding(s, x), b], [Binding(s, y), b]]
  {
    hide JoinRelation;
    var j, s := q.joins[0], q.SourceName();
    var f := JoinRow(w.engine, j, Relation([], []));
    JoinElimination.OneJoin(w, q);
    assert NullRecord([]) == [];
    assert [Binding(s, x)] + [Binding(j.RelationName(), [])] == [Binding(s, x), Binding(j.RelationName(), [])];
    assert [Binding(s, y)] + [Binding(j.RelationName(), [])] == [Binding(s, y), Binding(j.RelationName(), [])];
    assert Matches(w.engine, j, Relation([], []), [Binding(s, x)]) == [];
    assert Matches(w.engine, j, Relation([], []), [Binding(s, y)]) == [];
    assert f([Binding(s, x)]) == [[Binding(s, x), Binding(j.RelationName(), [])]];
    assert f([Binding(s, y)]) == [[Binding(s, y), Binding(j.RelationName(), [])]];
    var xs := [[Binding(s, x)], [Binding(s, y)]];
    assert SourceRows(q, SourceRelation(w, q)) == xs;
    assert xs == [[Binding(s, x)]] + [[Binding(s, y)]];
    FlatMapAppend(f, [[Binding(s, x)]], [[Binding(s, y)]]);
    FlatMapOne(f, [Binding(s, x)]);
    FlatMapOne(f, [Binding(s, y)]);
  }

  lemma TwoRowBody(w: World, q: SelectQuery, x: Env, y: Env)
    requires RowLevel(q) && !q.distinct && q.predicates == []
    ensures Body(w, q, [x, y]) == [OutRow([x], Project(w.engine, q.projections, [x])),
      OutRow([y], Project(w.engine, q.projections, [y]))]
  {
    hide Body;
    hide Project;
    FilterAll(WhereHolds(w, q.predicates), [x, y]);
    GroupByUnique.PlainBody(w, q, [x, y]);
  }

  /** The first of two rows that ORDER BY leaves or turns round. */
  lemma FirstOfTwo(w: World, q: SelectQuery, x: Env, y: Env)
    requires RowLevel(q) && !q.distinct && q.predicates == [] && FromRows(w, q) == [x, y]
    requires q.orderBy != [] && q.limit == Some(1) && q.offset.None?
    ensures var turned := w.engine.before(OrderItems(q),
      SortKeyOf(OrderItems(q), OutRow([y], Project(w.engine, q.projections, [y]))),
                            SortKeyOf(OrderItems(q), OutRow([x], Project(w.engine, q.projections, [x]))));
            Eval(w, q).rows == [Project(w.engine, q.projections, [if turned then y else x])]
  {
    hide SortKeyOf;
    hide Body;
    hide FromRows;
    hide Ordered;
    hide Project;
    hide RowLevel;
    TwoRowBody(w, q, x, y);
    SortTwo(w.engine, OrderItems(q), Body(w, q, [x, y]));
  }

  lemma KeyItem(g: Engine, l: string, k: string, rec: Record, rest: Env)
    requires rec != [] && rec[0].name == k
    ensures Project(g, [Column(ColName(Some(l), k), None)], [[Binding(l, rec)] + rest]) == [Field(k, rec[0].value)]
  {
    var env := [Binding(l, rec)] + rest;
    OneItem(g, Column(ColName(Some(l), k), None), env);
    assert env[0] == Binding(l, rec) && Lookup(env, ColName(Some(l), k)) == Get(rec, k);
  }

  /** ORDER BY still names the joined table when the join is gone: no engine has to accept that, and where it is
      accepted another row comes first. */
  lemma JoinOrderMisjudged(l: string, r: string, k: string, text: string)
    requires l != r
    ensures var q, catalog, w := OrderedJoin(l, r, k, text), UniqueRight(r, k), TurnedWorld(l, k);
            && JoinElimination.SuggestLeft(q, catalog).Proven() && WellFormed(w) && Meets(w, catalog)
            && OrderAccepted(w, q) && !OrderAccepted(w, JoinElimination.SuggestLeft(q, catalog).rewritten.value)
            && Answer(w, q) != Answer(w, JoinElimination.SuggestLeft(q, catalog).rewritten.value)
  {
    hide Eval;
    hide Meets;
    hide JoinElimination.SuggestLeft;
    var q, w := OrderedJoin(l, r, k, text), TurnedWorld(l, k);
    OrderedJoinSuggested(l, r, k, text);
    TurnedWorldMeets(l, r, k);
    OrderedJoinAccepted(w, l, r, k, text);
    TurnedAnswers(w, l, r, k, text);
    DifferentRows([Field(k, TWO)], [Field(k, ONE)]);
  }

  lemma OrderedJoinAccepted(w: World, l: string, r: string, k: string, text: string)
    requires l != r
    ensures var q := OrderedJoin(l, r, k, text); OrderAccepted(w, q) && !OrderAccepted(w, q.(joins := []))
  {
    var q := OrderedJoin(l, r, k, text);
    JoinElimination.OneJoinHeader(w, q);
    assert Header(w, q)[1] in Header(w, q) && InFrom(w, q, r);
    assert q.orderBy[0] in q.orderBy && r in q.orderBy[0].code.tables && !InFrom(w, q.(joins := []), r);
    assert !q.OrdersByAggregate();
  }

  lemma TurnedAnswers(w: World, l: string, r: string, k: string, text: string)
    requires l != r && w == TurnedWorld(l, k)
    ensures Answer(w, OrderedJoin(l, r, k, text)) == multiset{[Field(k, TWO)]}
    ensures Answer(w, OrderedJoin(l, r, k, text).(joins := [])) == multiset{[Field(k, ONE)]}
  {
    hide Eval;
    hide FromRows;
    hide Project;
    var q, a, b, right := OrderedJoin(l, r, k, text), [Field(k, ONE)], [Field(k, TWO)], Binding(r, []);
    var p, x, y := q.(joins := []), [Binding(l, a)], [Binding(l, b)];
    assert RowLevel(q) && RowLevel(p);
    UnmatchedRows(w, q, a, b);
    assert x + [right] == [Binding(l, a), right] && y + [right] == [Binding(l, b), right];
    assert FromRows(w, p) == [x, y] by {
      SingleTableRows(w, p);
    }
    FirstOfTwo(w, q, x + [right], y + [right]);
    FirstOfTwo(w, p, x, y);
    ItemsKept(q);
    ItemsKept(p);
    SeenOfJoined(q.orderBy, y, right, r);
    KeyItem(w.engine, l, k, b, [right]);
    KeyItem(w.engine, l, k, a, []);
    assert x + [] == x;
  }

  lemma ItemsKept(q: SelectQuery)
    requires |q.orderBy| == 1 && q.orderBy[0].code.names == []
    ensures OrderItems(q) == q.orderBy
  {
  }

  /** ORDER BY sees the joined row, and nothing without the join. */
  lemma SeenOfJoined(items: seq<OrderByItem>, y: Env, right: Binding, r: string)
    requires |items| == 1 && items[0].code.tables == [r] && items[0].code.names == []
    requires right.relation == r && |y| == 1 && y[0].relation != r
    ensures forall rec :: SeesSomething(SortKeyOf(items, OutRow([y + [right]], rec)))
    ensures forall rec :: !SeesSomething(SortKeyOf(items, OutRow([y], rec)))
  {
    var code := items[0].code;
    FilterAppend(Mentioned(code.tables), y, [right]);
    assert Filter(Mentioned(code.tables), [right]) == [right];
    assert y[1..] == [] && Filter(Mentioned(code.tables), y) == [];
    assert Visible(code)(y) == [] && Visible(code)(y + [right]) != [];
    forall rec ensures SeesSomething(SortKeyOf(items, OutRow([y + [right]], rec))) {
      assert VisibleUnit(code)([y + [right]]) == [Visible(code)(y + [right])];
    }
    forall rec ensures !SeesSomething(SortKeyOf(items, OutRow([y], rec))) {
      assert VisibleUnit(code)([y]) == [Visible(code)(y)];
    }
  }
}
