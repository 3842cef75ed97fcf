/** LEFT JOIN elimination takes unqualified columns for the left table's: decided over all databases of a schema. */
module UnqualifiedColumns {
  import opened Ir
  import opened Lists
  import opened Semantics
  import opened Pipeline
  import opened Constraints
  import opened Rewrites
  import opened TableRows
  import opened Distinct
  import opened DistinctJoins
  import opened JoinElimination
  import opened Widening
  import opened Witnesses
  import JoinToExists
  import ExistsOrder

  /** The column names of the two tables. */
  datatype Schema = Schema(left: seq<string>, right: seq<string>)

  ghost predicate HasSchema(w: World, q: SelectQuery, s: Schema)
    requires |q.joins| == 1 && q.table.Some?
  {
    TableRelation(w, q.table.value).cols == s.left && TableRelation(w, q.joins[0].table).cols == s.right
  }

  /** No unqualified column of the query, ORDER BY included, is in the joined table alone. */
  ghost predicate StayLeft(q: SelectQuery, s: Schema) {
    forall name :: UsesUnqualified(q, name) ==> name in s.left || name !in s.right
  }

  /** An unfiltered LEFT JOIN of two different tables that selects plain columns and that the rule removes. */
  predicate PlainLeftJoin(q: SelectQuery, catalog: Catalog) {
    && SuggestLeft(q, catalog).Proven() && |q.joins| == 1 && q.IsDirectTable() && RowLevel(q) && ShowsFirst(q)
    && q.predicates == []
    && PlainColumns(q.projections) && q.SourceName() != q.joins[0].RelationName() && q.table.value != q.joins[0].table
  }

  /** ORDER BY names relations and columns that the two tables have. */
  predicate OrderKnown(q: SelectQuery, s: Schema)
    requires |q.joins| == 1
  {
    forall o :: o in q.orderBy ==>
      && (forall r :: r in o.code.tables ==> r == q.SourceName() || r == q.joins[0].RelationName())
      && forall n :: n in o.code.names ==> n in ItemOutputs(q.projections) || n in s.left || n in s.right
  }

  lemma KnownAccepted(w: World, q: SelectQuery, catalog: Catalog, s: Schema)
    requires PlainLeftJoin(q, catalog) && HasSchema(w, q, s) && OrderKnown(q, s)
    ensures OrderAccepted(w, q)
  {
    hide SuggestLeft;
    JoinPairsKnown(q, catalog);
    OneJoinHeader(w, q);
    var a, b := Header(w, q)[0], Header(w, q)[1];
    forall o, r | o in q.orderBy && r in o.code.tables ensures InFrom(w, q, r) {
    }
    forall o, n | o in q.orderBy && n in o.code.names ensures NameKnown(w, q, n) {
      NullFields(s.left, n);
      NullFields(s.right, n);
    }
  }

  function Pairs(q: SelectQuery, catalog: Catalog): seq<KeyPair>
    requires PlainLeftJoin(q, catalog)
  {
    JoinPairs(q.joins[0].Conditions(), q.SourceName(), q.joins[0].RelationName()).value
  }

  /** The tables have the columns that the join and the constraints name. */
  predicate SchemaFits(q: SelectQuery, catalog: Catalog, s: Schema)
    requires PlainLeftJoin(q, catalog)
  {
    && Within(Lefts(Pairs(q, catalog)), s.left) && Within(Rights(Pairs(q, catalog)), s.right)
    && (forall c :: c in ConstraintsOf(q, catalog).columns ==> c in s.left)
    && forall c :: c in JoinedConstraints(q, catalog).columns ==> c in s.right
  }

  function OneRow(cols: seq<string>): Record {
    BuildRow(cols, Constantly(0))
  }

  /** One row in each table, all its values equal. */
  ghost function OneRowWorld(q: SelectQuery, s: Schema): World
    requires |q.joins| == 1 && q.table.Some?
  {
    PlainWorld(map[q.joins[0].table := Relation(s.right, [OneRow(s.right)]), q.table.value :=
      Relation(s.left, [OneRow(s.left)])])
  }

  lemma OneRowMeets(w: World, cols: seq<string>, t: TableConstraints)
    requires KeysOnly(t) && forall c :: c in t.columns ==> c in cols
    ensures TableMeets(w, [OneRow(cols)], t)
  {
    forall c, r | c in t.columns && r in [OneRow(cols)] ensures Get(r, c).Val? {
      GetBuilt(cols, Constantly(0), c);
    }
  }

  lemma OneRowWorldMeets(q: SelectQuery, catalog: Catalog, s: Schema)
    requires PlainLeftJoin(q, catalog) && SchemaFits(q, catalog, s)
    requires KeysOnly(ConstraintsOf(q, catalog)) && KeysOnly(JoinedConstraints(q, catalog))
    ensures var w := OneRowWorld(q, s); WellFormed(w) && Meets(w, catalog) && HasSchema(w, q, s)
  {
    hide TableMeets;
    hide OneRow;
    hide SuggestLeft;
    hide KeysOnly;
    var w := OneRowWorld(q, s);
    forall name | name in catalog.tables ensures TableMeets(w, TableRelation(w, name).rows, catalog.tables[name]) {
      if name == q.table.value {
        OneRowMeets(w, s.left, ConstraintsOf(q, catalog));
      } else if name == q.joins[0].table {
        OneRowMeets(w, s.right, JoinedConstraints(q, catalog));
      } else {
        NoRowsMeet(w, catalog.tables[name]);
      }
    }
    OneRowNames(s.left);
    OneRowNames(s.right);
  }

  lemma OneRowNames(cols: seq<string>)
    ensures Names(OneRow(cols)) == cols
  {
  }

  lemma OneRowsJoin(w: World, q: SelectQuery, catalog: Catalog, s: Schema)
    requires PlainLeftJoin(q, catalog) && SchemaFits(q, catalog, s) && w == OneRowWorld(q, s)
    ensures FromRows(w, q)
         == [[Binding(q.SourceName(), OneRow(s.left)), Binding(q.joins[0].RelationName(), OneRow(s.right))]]
  {
    hide SuggestLeft;
    hide OneRow;
    hide OnHolds;
    var ps, rec, row, j := Pairs(q, catalog), OneRow(s.left), OneRow(s.right), q.joins[0];
    forall p | p in ps ensures Get(rec, p.left).Val? && Get(rec, p.left) == Get(row, p.right) {
      var k :| 0 <= k < |ps| && ps[k] == p;
      assert Lefts(ps)[k] == p.left && Rights(ps)[k] == p.right;
      OneRowValue(s.left, p.left);
      OneRowValue(s.right, p.right);
    }
    JoinPairsKnown(q, catalog);
    assert JoinRelation(w, j).rows == [row];
    OnIsPairs(w, j.Conditions(), q.SourceName(), j.RelationName(), rec, row);
    OneMatchRow(w, q, rec, row);
  }

  lemma OneRowValue(cols: seq<string>, c: string)
    ensures Get(OneRow(cols), c) == if c in cols then Val(Number(0.0)) else Null
  {
    GetBuilt(cols, Constantly(0), c);
  }

  lemma JoinPairsKnown(q: SelectQuery, catalog: Catalog)
    requires PlainLeftJoin(q, catalog)
    ensures JoinPairs(q.joins[0].Conditions(), q.SourceName(), q.joins[0].RelationName()).Some?
    ensures q.joins[0].subquery.None? && catalog.Table(q.joins[0].table).Some?
    ensures SuggestLeft(q, catalog).rewritten == Some(q.(joins := []))
  {
  }

  /** An unqualified column of the joined table alone has a value in the join and none without it. */
  lemma ColumnLost(q: SelectQuery, catalog: Catalog, s: Schema)
    requires PlainLeftJoin(q, catalog) && SchemaFits(q, catalog, s)
    requires exists name :: ClauseUses(q, name) && name !in s.left && name in s.right
    ensures Answer(OneRowWorld(q, s), q) != Answer(OneRowWorld(q, s), q.(joins := []))
  {
    hide SuggestLeft;
    hide OneRow;
    hide Eval;
    hide Project;
    hide ItemFields;
    var w, r := OneRowWorld(q, s), q.(joins := []);
    var x := [Binding(q.SourceName(), OneRow(s.left))];
    var y := [Binding(q.SourceName(), OneRow(s.left)), Binding(q.joins[0].RelationName(), OneRow(s.right))];
    OneRowsJoin(w, q, catalog, s);
    SingleTableRows(w, r);
    assert FromRows(w, r) == [x];
    OneRowAnswer(w, q, y);
    OneRowAnswer(w, r, x);
    var name :| ClauseUses(q, name) && name !in s.left && name in s.right;
    var p :| p in q.projections && p.Column? && p.column == ColName(None, name);
    ColumnDiffers(w.engine, q, s, p);
    var k :| 0 <= k < |q.projections| && q.projections[k] == p;
    ProjectedField(w.engine, q.projections, k, [x]);
    ProjectedField(w.engine, q.projections, k, [y]);
    DifferentRows(Project(w.engine, q.projections, [x]), Project(w.engine, q.projections, [y]));
  }

  lemma DifferentRows(a: Record, b: Record)
    requires a != b
    ensures multiset{a} != multiset{b}
  {
    assert a in multiset{a} && a !in multiset{b};
  }

  lemma ColumnDiffers(g: Engine, q: SelectQuery, s: Schema, p: Projection)
    requires |q.joins| == 1 && p.Column? && p.column.table.None?
    requires p.column.name !in s.left && p.column.name in s.right
    ensures var x, y := [Binding(q.SourceName(), OneRow(s.left))],
                        [Binding(q.SourceName(), OneRow(s.left)), Binding(q.joins[0].RelationName(), OneRow(s.right))];
            ItemFields(g, p, [x])[0] != ItemFields(g, p, [y])[0]
  {
    hide OneRow;
    var a, b := OneRow(s.left), OneRow(s.right);
    OneRowNames(s.left);
    OneRowNames(s.right);
    HasFieldNames(a, p.column.name);
    HasFieldNames(b, p.column.name);
    OneRowValue(s.right, p.column.name);
    var x, y := [Binding(q.SourceName(), a)], [Binding(q.SourceName(), a), Binding(q.joins[0].RelationName(), b)];
    assert y[1..] == [Binding(q.joins[0].RelationName(), b)] && x[1..] == [];
    assert !IsNamedBy(y[0], p.column) && IsNamedBy(y[1..][0], p.column);
    assert Lookup(y, p.column) == Lookup(y[1..], p.column);
    assert Lookup(x, p.column) == Null && Lookup(y, p.column) == Get(b, p.column.name);
    assert ItemFields(g, p, [x])[0].value == Null && ItemFields(g, p, [y])[0].value.Val?;
  }

  /** The rewrite is accepted and returns the same bag. */
  ghost predicate RightOn(w: World, q: SelectQuery, r: SelectQuery) {
    OrderAccepted(w, r) && Answer(w, q) == Answer(w, r)
  }

  lemma StaysRight(w: World, q: SelectQuery, catalog: Catalog, s: Schema)
    requires PlainLeftJoin(q, catalog) && OrderKnown(q, s) && WellFormed(w) && Meets(w, catalog) && HasSchema(w, q, s)
    requires StayLeft(q, s) && !OrderNames(q, q.joins[0].RelationName())
    ensures RightOn(w, q, q.(joins := []))
  {
    hide Eval;
    hide Meets;
    hide SuggestLeft;
    JoinPairsKnown(q, catalog);
    KnownAccepted(w, q, catalog, s);
    assert LeftJoinScope(w, q) && OrderFree(w, q);
    LeftJoinOrderExact(w, q, catalog);
  }

  lemma GoesWrong(q: SelectQuery, catalog: Catalog, s: Schema)
    requires PlainLeftJoin(q, catalog) && SchemaFits(q, catalog, s) && OrderKnown(q, s)
    requires !StayLeft(q, s) || OrderNames(q, q.joins[0].RelationName())
    requires HasSchema(OneRowWorld(q, s), q, s)
    ensures !RightOn(OneRowWorld(q, s), q, q.(joins := []))
  {
    hide Eval;
    hide SuggestLeft;
    hide SchemaFits;
    hide OrderUses;
    hide ClauseUses;
    JoinPairsKnown(q, catalog);
    if forall name :: ClauseUses(q, name) ==> name in s.left || name !in s.right {
      KnownAccepted(OneRowWorld(q, s), q, catalog, s);
      OrderStaysAccepted(OneRowWorld(q, s), q);
      assert !OrderFree(OneRowWorld(q, s), q);
    } else {
      ColumnLost(q, catalog, s);
    }
  }

  /** On all databases of a schema that meet the constraints, removing the LEFT JOIN is accepted and right if and only
      if no unqualified column belongs to the joined table alone and ORDER BY does not name it. */
  lemma UnqualifiedDecided(q: SelectQuery, catalog: Catalog, s: Schema)
    requires PlainLeftJoin(q, catalog) && SchemaFits(q, catalog, s) && OrderKnown(q, s)
    requires KeysOnly(ConstraintsOf(q, catalog)) && KeysOnly(JoinedConstraints(q, catalog))
    ensures (forall w: World :: WellFormed(w) && Meets(w, catalog) && HasSchema(w, q, s) ==>
               RightOn(w, q, SuggestLeft(q, catalog).rewritten.value))
       <==> StayLeft(q, s) && !OrderNames(q, q.joins[0].RelationName())
  {
    hide Eval;
    hide Meets;
    hide SchemaFits;
    hide SuggestLeft;
    hide OrderKnown;
    hide StayLeft;
    hide RightOn;
    JoinPairsKnown(q, catalog);
    if StayLeft(q, s) && !OrderNames(q, q.joins[0].RelationName()) {
      forall w: World | WellFormed(w) && Meets(w, catalog) && HasSchema(w, q, s)
        ensures RightOn(w, q, q.(joins := []))
      {
        StaysRight(w, q, catalog, s);
      }
    } else {
      OneRowWorldMeets(q, catalog, s);
      GoesWrong(q, catalog, s);
    }
  }

  // ----- an input on which the rule goes wrong

  function EqualColumns(l: string, r: string, k: string): JoinCondition {
    JoinCondition(ColumnSide(ColName(Some(l), k)), ColumnSide(ColName(Some(r), k)))
  }

  /** SELECT c FROM l LEFT JOIN r ON l.k = r.k */
  function UnqualifiedJoin(l: string, r: string, k: string, c: string): SelectQuery {
    SelectQuery(Some(l), None, false, None, None, [Join(Left, r, None, false, None, EqualColumns(l, r, k), [])],
      [Column(ColName(None, c), None)], [], [], [], [], [], None, None, false, "")
  }

  function UniqueRight(r: string, k: string): Catalog {
    Catalog(map[r := TableConstraints(map[k := ColumnConstraint(None, [])], [[k]], [])])
  }

  lemma PairOfKey(l: string, r: string, k: string)
    requires l != r
    ensures JoinPairs([EqualColumns(l, r, k)], l, r) == Some([KeyPair(k, k)])
  {
    var cs := [EqualColumns(l, r, k)];
    assert JoinPair(cs[0], l, r) == Some(KeyPair(k, k));
    assert JoinPairs(cs[1..], l, r) == Some([]);
    assert [KeyPair(k, k)] + [] == [KeyPair(k, k)];
  }

  lemma UnqualifiedSuggested(l: string, r: string, k: string, c: string)
    requires l != r
    ensures PlainLeftJoin(UnqualifiedJoin(l, r, k, c), UniqueRight(r, k))
    ensures Pairs(UnqualifiedJoin(l, r, k, c), UniqueRight(r, k)) == [KeyPair(k, k)]
  {
    var j, t := UnqualifiedJoin(l, r, k, c).joins[0], UniqueRight(r, k).tables[r];
    assert j.Conditions() == [EqualColumns(l, r, k)];
    PairOfKey(l, r, k);
    assert Rights([KeyPair(k, k)]) == [k];
    assert RightJoinKeys(j, Some(l)) == Some([k]);
    assert [k] in t.unique && Within([k], [k]);
  }

  /** The rule drops a LEFT JOIN whose only use is an unqualified column, and the column's values with it. */
  lemma UnqualifiedColumnLost(l: string, r: string, k: string, c: string)
    requires l != r && k != c
    ensures var q, w := UnqualifiedJoin(l, r, k, c), OneRowWorld(UnqualifiedJoin(l, r, k, c), Schema([k], [k, c]));
            && SuggestLeft(q, UniqueRight(r, k)).Proven() && WellFormed(w) && Meets(w, UniqueRight(r, k))
            && Answer(w, q) != Answer(w, SuggestLeft(q, UniqueRight(r, k)).rewritten.value)
  {
    hide SuggestLeft;
    hide Eval;
    var q, catalog, s := UnqualifiedJoin(l, r, k, c), UniqueRight(r, k), Schema([k], [k, c]);
    UnqualifiedSuggested(l, r, k, c);
    JoinPairsKnown(q, catalog);
    assert q.projections[0] in q.projections && ClauseUses(q, c);
    OneRowWorldMeets(q, catalog, s);
    ColumnLost(q, catalog, s);
  }

  // ----- and in ORDER BY

  /** SELECT l.k FROM l LEFT JOIN r ON l.k = r.k ORDER BY c */
  function OrderedByRight(l: string, r: string, k: string, c: string): SelectQuery {
    UnqualifiedJoin(l, r, k, c).(projections := [Column(ColName(Some(l), k), None)],
      orderBy := [OrderByItem(OpaqueSql(c, [], [c]), false, false)])
  }

  /** Empty tables of those columns. */
  ghost function SchemaWorld(l: string, left: seq<string>, r: string, right: seq<string>): World {
    PlainWorld(map[r := Relation(right, []), l := Relation(left, [])])
  }

  lemma SchemaWorldMeets(l: string, left: seq<string>, r: string, right: seq<string>, catalog: Catalog)
    ensures var w := SchemaWorld(l, left, r, right); WellFormed(w) && Meets(w, catalog)
  {
    hide TableMeets;
    var w := SchemaWorld(l, left, r, right);
    forall name | name in catalog.tables ensures TableMeets(w, TableRelation(w, name).rows, catalog.tables[name]) {
      NoRowsMeet(w, catalog.tables[name]);
    }
  }

  /** A column of the joined table alone, in ORDER BY only. */
  lemma OrderColumnLost(w: World, q: SelectQuery, c: string)
    requires |q.joins| == 1 && q.HasSource() && q.SourceName() != q.joins[0].RelationName()
    requires q.orderBy == [OrderByItem(OpaqueSql(c, [], [c]), false, false)] && c !in ItemOutputs(q.projections)
    requires c in JoinRelation(w, q.joins[0]).cols && c !in SourceRelation(w, q).cols
    ensures OrderAccepted(w, q) && !OrderAccepted(w, q.(joins := []))
  {
    OneJoinHeader(w, q);
    NullFields(JoinRelation(w, q.joins[0]).cols, c);
    NullFields(SourceRelation(w, q).cols, c);
    var b := Header(w, q)[1];
    assert NameKnown(w, q, c) && !NameKnown(w, q.(joins := []), c);
    assert q.orderBy[0] in q.orderBy && c in q.orderBy[0].code.names;
  }

  /** LEFT JOIN elimination leaves an ORDER BY that names no column any more. */
  lemma OrderColumnMisjudged(l: string, r: string, k: string, c: string)
    requires l != r && k != c
    ensures var q, w, catalog := OrderedByRight(l, r, k, c), SchemaWorld(l, [k], r, [k, c]), UniqueRight(r, k);
            && SuggestLeft(q, catalog).Proven() && WellFormed(w) && Meets(w, catalog)
            && OrderAccepted(w, q) && !OrderAccepted(w, SuggestLeft(q, catalog).rewritten.value)
  {
    hide SuggestLeft;
    var q, w, catalog := OrderedByRight(l, r, k, c), SchemaWorld(l, [k], r, [k, c]), UniqueRight(r, k);
    OrderedByRightSuggested(l, r, k, c);
    SchemaWorldMeets(l, [k], r, [k, c], catalog);
    assert forall p :: p in q.projections ==> p == q.projections[0];
    OrderColumnLost(w, q, c);
  }

  lemma OrderedByRightSuggested(l: string, r: string, k: string, c: string)
    requires l != r
    ensures var q, catalog := OrderedByRight(l, r, k, c), UniqueRight(r, k);
            SuggestLeft(q, catalog).Proven() && SuggestLeft(q, catalog).rewritten == Some(q.(joins := []))
  {
    var j, t := OrderedByRight(l, r, k, c).joins[0], UniqueRight(r, k).tables[r];
    assert j.Conditions() == [EqualColumns(l, r, k)];
    PairOfKey(l, r, k);
    assert Rights([KeyPair(k, k)]) == [k];
    assert RightJoinKeys(j, Some(l)) == Some([k]);
    assert [k] in t.unique && Within([k], [k]);
  }

  /** SELECT l.k FROM l JOIN r ON l.k = r.k ORDER BY c */
  function ParentOrdered(l: string, r: string, k: string, c: string): SelectQuery {
    var q := OrderedByRight(l, r, k, c);
    q.(joins := [q.joins[0].(joinType := Inner)])
  }

  function ChildAndParent(l: string, r: string, k: string): Catalog {
    var required := ColumnConstraint(Some(false), []);
    Catalog(map[r := TableConstraints(map[k := required], [[k]], []),
                l := TableConstraints(map[k := required], [], [ForeignKey([k], r, [k])])])
  }

  /** So does foreign key elimination. */
  lemma ParentColumnMisjudged(l: string, r: string, k: string, c: string)
    requires l != r && k != c
    ensures var q, w, catalog := ParentOrdered(l, r, k, c), SchemaWorld(l, [k], r, [k, c]), ChildAndParent(l, r, k);
            && SuggestForeignKey(q, catalog).Proven() && WellFormed(w) && Meets(w, catalog)
            && OrderAccepted(w, q) && !OrderAccepted(w, SuggestForeignKey(q, catalog).rewritten.value)
  {
    hide SuggestForeignKey;
    var q, w, catalog := ParentOrdered(l, r, k, c), SchemaWorld(l, [k], r, [k, c]), ChildAndParent(l, r, k);
    ParentOrderedSuggested(l, r, k, c);
    SchemaWorldMeets(l, [k], r, [k, c], catalog);
    assert forall p :: p in q.projections ==> p == q.projections[0];
    OrderColumnLost(w, q, c);
  }

  lemma ParentOrderedSuggested(l: string, r: string, k: string, c: string)
    requires l != r
    ensures var q, catalog := ParentOrdered(l, r, k, c), ChildAndParent(l, r, k);
            SuggestForeignKey(q, catalog).Proven() && SuggestForeignKey(q, catalog).rewritten == Some(q.(joins := []))
  {
    var q, catalog := ParentOrdered(l, r, k, c), ChildAndParent(l, r, k);
    var j, parent, child := q.joins[0], catalog.tables[r], catalog.tables[l];
    assert j.Conditions() == [EqualColumns(l, r, k)];
    PairOfKey(l, r, k);
    assert Rights([KeyPair(k, k)]) == [k] && Lefts([KeyPair(k, k)]) == [k];
    assert ForeignKeyJoinKey(q, j) == Some([KeyPair(k, k)]);
    assert ForeignKey([k], r, [k]) in child.foreignKeys && child.AllNonNull([k]);
    assert [k] in parent.unique && Within([k], [k]);
  }

  /** SELECT DISTINCT l.k FROM l JOIN r ON l.k = r.k ORDER BY c */
  function DistinctOrdered(l: string, r: string, k: string, c: string): SelectQuery {
    ParentOrdered(l, r, k, c).(distinct := true)
  }

  /** A column of the joined table alone, which ORDER BY still names. */
  lemma ExistsColumnMisjudged(l: string, r: string, k: string, c: string)
    requires l != r && k != c
    ensures var q, w, catalog := DistinctOrdered(l, r, k, c), SchemaWorld(l, [k], r, [k, c]), UniqueRight(l, k);
            && JoinToExists.SuggestExists(q).Proven() && WellFormed(w) && Meets(w, catalog)
            && OrderAccepted(w, q) && !OrderAccepted(w, JoinToExists.SuggestExists(q).rewritten.value)
  {
    hide OrderAccepted;
    var q, w, catalog := DistinctOrdered(l, r, k, c), SchemaWorld(l, [k], r, [k, c]), UniqueRight(l, k);
    SchemaWorldMeets(l, [k], r, [k, c], catalog);
    assert q.joins[0].condition == EqualColumns(l, r, k) && !q.ReferencesCte();
    assert JoinToExists.Connects(q.joins[0], l);
    assert forall p :: p in q.projections ==> p == q.projections[0];
    JoinToExists.ProvenExists(q);
    ExistsOrder.SameAcceptance(w, q);
    OrderColumnLost(w, q, c);
  }
}
