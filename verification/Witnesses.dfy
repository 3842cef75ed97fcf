/** When DISTINCT may go, and when a DISTINCT join may become EXISTS, decided over all databases: the constraint
    looked for is there, or two rows that only a forbidden key could tell apart are a counterexample. */
module Witnesses {
  import opened Ir
  import opened Lists
  import opened Semantics
  import opened Pipeline
  import opened Constraints
  import opened Rewrites
  import opened TableRows
  import opened Distinct
  import opened DistinctJoins
  import JoinToExists
  import JoinElimination
  import Verifier

  // ----- two rows that agree on what is projected

  function Cell(t: TableConstraints, names: seq<string>, forced: set<string>, i: int): string -> Value {
    c =>
      if c !in names then Val(Number(i as real))
      else if t.IsNonNull(c) || c in forced then Val(Number(0.0))
      else Null
  }

  function Constantly(i: int): string -> Value {
    c => Val(Number(i as real))
  }

  function BuildRow(cols: seq<string>, cell: string -> Value): Record {
    seq(|cols|, k requires 0 <= k < |cols| => Field(cols[k], cell(cols[k])))
  }

  lemma {:induction false} GetBuilt(cols: seq<string>, cell: string -> Value, c: string)
    ensures Get(BuildRow(cols, cell), c) == if c in cols then cell(c) else Null
  {
    if cols != [] {
      assert BuildRow(cols, cell)[1..] == BuildRow(cols[1..], cell);
      GetBuilt(cols[1..], cell, c);
    }
  }

  function BuildTable(cols: seq<string>, first: string -> Value, second: string -> Value): Relation {
    Relation(cols, [BuildRow(cols, first), BuildRow(cols, second)])
  }

  ghost function Listing(s: set<string>): (r: seq<string>)
    ensures forall c :: c in s <==> c in r
  {
    if s == {} then []
    else
      var c :| c in s;
      assert forall x :: x in s <==> x == c || x in s - {c};
      [c] + Listing(s - {c})
  }

  function Flatten(keys: seq<seq<string>>): seq<string> {
    if keys == [] then [] else keys[0] + Flatten(keys[1..])
  }

  lemma {:induction false} InFlatten(keys: seq<seq<string>>, key: seq<string>, c: string)
    requires key in keys && c in key
    ensures c in Flatten(keys)
  {
    if key != keys[0] {
      InFlatten(keys[1..], key, c);
    }
  }

  /** Every column the constraints or the query talk about. */
  ghost function AllColumns(t: TableConstraints, names: seq<string>): (r: seq<string>)
    ensures forall c :: c in names || c in t.columns ==> c in r
  {
    names + Listing(t.columns.Keys) + Flatten(t.unique)
  }

  lemma KeyColumnsListed(t: TableConstraints, names: seq<string>, key: seq<string>)
    requires key in t.unique
    ensures forall c :: c in key ==> c in AllColumns(t, names)
  {
    forall c | c in key ensures c in AllColumns(t, names) {
      InFlatten(t.unique, key, c);
    }
  }

  /** Unique keys and non-null columns, nothing else. */
  predicate KeysOnly(t: TableConstraints) {
    t.foreignKeys == [] && forall c :: c in t.columns ==> t.columns[c].acceptedValues == []
  }

  /** Whether some unique key inside the projection has only columns that cannot be NULL. */
  ghost predicate KeyInside(t: TableConstraints, names: seq<string>, forced: set<string>) {
    exists k :: k in t.unique && KeyIs(t, names, forced, k)
  }

  predicate KeyIs(t: TableConstraints, names: seq<string>, forced: set<string>, k: seq<string>) {
    Within(k, names) && forall c :: c in k ==> t.IsNonNull(c) || c in forced
  }

  ghost function TwinTable(t: TableConstraints, names: seq<string>, forced: set<string>): Relation {
    BuildTable(AllColumns(t, names + Listing(forced)), Cell(t, names, forced, 0), Cell(t, names, forced, 1))
  }

  lemma TwinCells(t: TableConstraints, names: seq<string>, forced: set<string>, c: string, i: int)
    requires i == 0 || i == 1
    ensures c in names || c in forced || c in t.columns || (exists k :: k in t.unique && c in k) ==>
              Get(TwinTable(t, names, forced).rows[i], c) == Cell(t, names, forced, i)(c)
  {
    var listed := names + Listing(forced);
    GetBuilt(AllColumns(t, listed), Cell(t, names, forced, 0), c);
    GetBuilt(AllColumns(t, listed), Cell(t, names, forced, 1), c);
    if exists k :: k in t.unique && c in k {
      var k :| k in t.unique && c in k;
      KeyColumnsListed(t, listed, k);
    }
  }

  /** The two rows meet the constraints when no usable key lies inside the projection: each key either sees the
      difference outside, or is exempt by a NULL. */
  lemma TwinsMeet(w: World, t: TableConstraints, names: seq<string>, forced: set<string>)
    requires KeysOnly(t) && !KeyInside(t, names, forced)
    ensures TableMeets(w, TwinTable(t, names, forced).rows, t)
  {
    var rows := TwinTable(t, names, forced).rows;
    forall k | k in t.unique ensures UniqueOn(rows, k) {
      TwinsUnique(t, names, forced, k);
    }
    forall c, r | c in t.columns && t.columns[c].nullable == Some(false) && r in rows ensures Get(r, c).Val? {
      TwinCells(t, names, forced, c, 0);
      TwinCells(t, names, forced, c, 1);
      assert t.IsNonNull(c);
    }
  }

  lemma TwinsUnique(t: TableConstraints, names: seq<string>, forced: set<string>, k: seq<string>)
    requires k in t.unique && !KeyInside(t, names, forced)
    ensures UniqueOn(TwinTable(t, names, forced).rows, k)
  {
    var rows := TwinTable(t, names, forced).rows;
    assert !KeyIs(t, names, forced, k);
    if Within(k, names) {
      var c :| c in k && !(t.IsNonNull(c) || c in forced);
      TwinCells(t, names, forced, c, 0);
      assert Get(rows[0], c) == Null;
    } else {
      var c :| c in k && c !in names;
      TwinCells(t, names, forced, c, 0);
      TwinCells(t, names, forced, c, 1);
      assert Get(rows[0], c) != Get(rows[1], c);
    }
  }

  /** Plain columns and expressions that no rule looks into. */
  predicate ColumnsAndOpaque(ps: seq<Projection>) {
    forall p :: p in ps ==> p.Column? || (p.Computed? && p.expr.Opaque?)
  }

  /** Opaque expressions have no value. */
  ghost predicate Silent(g: Engine) {
    forall s, e :: g.scalar(s, e) == Null
  }

  /** The two rows project alike. */
  lemma {:induction false} TwinsProjectAlike(
    w: World, q: SelectQuery, ps: seq<Projection>, t: TableConstraints, names: seq<string>, forced: set<string>)
    requires ColumnsAndOpaque(ps) && Silent(w.engine)
    requires forall p :: p in ps && p.Column? ==> InScope(q, p.column) && p.column.name in names
    ensures var rows := TwinTable(t, names, forced).rows;
            Project(w.engine, ps, [[Binding(q.SourceName(), rows[0])]]) ==
              Project(w.engine, ps, [[Binding(q.SourceName(), rows[1])]])
  {
    if ps != [] {
      var rows := TwinTable(t, names, forced).rows;
      assert ps[0] in ps;
      if ps[0].Column? {
        var c := ps[0].column;
        ColumnOfRow(q, c, rows[0]);
        ColumnOfRow(q, c, rows[1]);
        TwinCells(t, names, forced, c.name, 0);
        TwinCells(t, names, forced, c.name, 1);
      }
      TwinsProjectAlike(w, q, ps[1..], t, names, forced);
    }
  }

  lemma NamesListed(ps: seq<Projection>)
    requires PlainColumns(ps)
    ensures forall p :: p in ps ==> p.column.name in ItemNames(ps)
  {
    forall p | p in ps ensures p.column.name in ItemNames(ps) {
      var k :| 0 <= k < |ps| && ps[k] == p;
      assert ItemNames(ps)[k] == p.column.name;
    }
  }

  lemma BuiltWellFormed(cols: seq<string>, first: string -> Value, second: string -> Value)
    ensures forall r :: r in BuildTable(cols, first, second).rows ==> Names(r) == cols
  {
    assert Names(BuildRow(cols, first)) == cols && Names(BuildRow(cols, second)) == cols;
  }

  // ----- DISTINCT removal

  /** A DISTINCT query over one table, columns or opaque expressions, no filter and no row window. */
  predicate PlainDistinct(q: SelectQuery) {
    && q.distinct && q.IsDirectTable() && !q.tableIsCte && q.joins == [] && q.predicates == []
    && q.groupBy == [] && q.having == [] && q.qualify == [] && Unlimited(q)
    && ColumnsAndOpaque(q.projections) && ItemsInScope(q) && !q.OrdersByAggregate()
  }

  function ConstraintsOf(q: SelectQuery, catalog: Catalog): TableConstraints
    requires q.table.Some?
  {
    catalog.Table(q.table.value).GetOr(TableConstraints(map[], [], []))
  }

  ghost predicate AlwaysSame(catalog: Catalog, q: SelectQuery, r: SelectQuery) {
    forall w: World :: WellFormed(w) && Meets(w, catalog) ==> Answer(w, q) == Answer(w, r)
  }

  ghost function TwinWorld(q: SelectQuery, catalog: Catalog): World
    requires q.table.Some?
  {
    PlainWorld(map[q.table.value := TwinTable(ConstraintsOf(q, catalog), ColumnNames(q.projections), {})])
  }

  lemma KeyInsideIsFound(t: TableConstraints, names: seq<string>)
    ensures KeyInside(t, names, {}) <==> t.NonNullUniqueKeyContainedIn(names).Some?
  {
    if t.NonNullUniqueKeyContainedIn(names).Some? {
      assert KeyIs(t, names, {}, t.NonNullUniqueKeyContainedIn(names).value);
    }
  }

  lemma TwinWorldMeets(q: SelectQuery, catalog: Catalog)
    requires q.table.Some? && KeysOnly(ConstraintsOf(q, catalog))
    requires ConstraintsOf(q, catalog).NonNullUniqueKeyContainedIn(ColumnNames(q.projections)).None?
    ensures WellFormed(TwinWorld(q, catalog)) && Meets(TwinWorld(q, catalog), catalog)
  {
    hide KeyInside;
    hide AllColumns;
    hide BuildTable;
    hide TableMeets;
    hide KeysOnly;
    var t, names, w := ConstraintsOf(q, catalog), ColumnNames(q.projections), TwinWorld(q, catalog);
    KeyInsideIsFound(t, names);
    forall name | name in catalog.tables ensures TableMeets(w, TableRelation(w, name).rows, catalog.tables[name]) {
      if name == q.table.value {
        TwinsMeet(w, t, names, {});
      } else {
        NoRowsMeet(w, catalog.tables[name]);
      }
    }
    TwinColumns(t, names, {});
  }

  lemma NoRowsMeet(w: World, t: TableConstraints)
    ensures TableMeets(w, [], t)
  {
  }

  lemma TwinColumns(t: TableConstraints, names: seq<string>, forced: set<string>)
    ensures forall r :: r in TwinTable(t, names, forced).rows ==> Names(r) == TwinTable(t, names, forced).cols
  {
    BuiltWellFormed(AllColumns(t, names + Listing(forced)), Cell(t, names, forced, 0), Cell(t, names, forced, 1));
  }

  lemma TwinRecords(w: World, q: SelectQuery, t: TableConstraints)
    requires q.table.Some? && RowsOf(w, q) == TwinTable(t, ColumnNames(q.projections), {}).rows
    requires ColumnsAndOpaque(q.projections) && ItemsInScope(q) && Silent(w.engine)
    ensures var xs := Map(Bind(q.SourceName()), RowsOf(w, q));
            var rs := Map(RowRecord(w, q.projections), xs);
            |rs| == 2 && rs[0] == rs[1]
  {
    TwinsProjectAlike(w, q, q.projections, t, ColumnNames(q.projections), {});
  }

  lemma UnfilteredRecords(w: World, q: SelectQuery)
    requires PlainDistinct(q.(distinct := true))
    ensures var rs := Map(RowRecord(w, q.projections), Map(Bind(q.SourceName()), RowsOf(w, q)));
            Answer(w, q) == multiset(if q.distinct then Dedup(rs) else rs)
  {
    SingleTableRows(w, q);
    FilterAll(WhereHolds(w, q.predicates), FromRows(w, q));
    assert RowLevel(q);
    RowLevelRecords(w, q, FromRows(w, q));
    AnswerIsBody(w, q);
  }

  /** Without the key, the two-row database meets the constraints and DISTINCT removes one of its rows. */
  lemma TwinsDiffer(q: SelectQuery, catalog: Catalog)
    requires PlainDistinct(q) && KeysOnly(ConstraintsOf(q, catalog))
    requires ConstraintsOf(q, catalog).NonNullUniqueKeyContainedIn(ColumnNames(q.projections)).None?
    ensures var w := TwinWorld(q, catalog);
            && WellFormed(w) && Meets(w, catalog)
            && |Answer(w, q)| == 1 && |Answer(w, q.(distinct := false))| == 2
  {
    hide Eval;
    var w, r := TwinWorld(q, catalog), q.(distinct := false);
    TwinWorldMeets(q, catalog);
    UnfilteredRecords(w, q);
    UnfilteredRecords(w, r);
    TwinRecords(w, q, ConstraintsOf(q, catalog));
    TwoAlike(Map(RowRecord(w, q.projections), Map(Bind(q.SourceName()), RowsOf(w, q))));
  }

  lemma TwoAlike<T(!new)>(s: seq<T>)
    requires |s| == 2 && s[0] == s[1]
    ensures Dedup(s) == [s[0]]
  {
    assert s[1..] == [s[1]];
    assert Filter(Differs(s[0]), s[1..]) == [];
  }

  /** DISTINCT may go on every database that meets the constraints if and only if a trusted non-null unique key lies
      among the items that are plain columns; the alias of an expression does not count. */
  lemma DistinctDecided(q: SelectQuery, catalog: Catalog)
    requires PlainDistinct(q) && KeysOnly(ConstraintsOf(q, catalog))
    ensures AlwaysSame(catalog, q, q.(distinct := false))
       <==> ConstraintsOf(q, catalog).NonNullUniqueKeyContainedIn(ColumnNames(q.projections)).Some?
  {
    if ConstraintsOf(q, catalog).NonNullUniqueKeyContainedIn(ColumnNames(q.projections)).Some? {
      forall w: World | WellFormed(w) && Meets(w, catalog) ensures Answer(w, q) == Answer(w, q.(distinct := false)) {
        assert TableMeets(w, RowsOf(w, q), ConstraintsOf(q, catalog));
        DistinctIsNoop(w, q, ConstraintsOf(q, catalog));
      }
    } else {
      TwinsDiffer(q, catalog);
    }
  }

  lemma ColumnsAreItems(ps: seq<Projection>)
    ensures Within(ColumnNames(ps), ItemNames(ps))
  {
    forall c | c in ColumnNames(ps) ensures c in ItemNames(ps) {
      var p :| p in ps && p.Column? && p.column.name == c;
      var k :| 0 <= k < |ps| && ps[k] == p;
      assert ItemNames(ps)[k] == c;
    }
  }

  /** A key among the columns is a key among the items. */
  lemma KeyAmongItems(t: TableConstraints, ps: seq<Projection>)
    ensures t.NonNullUniqueKeyContainedIn(ColumnNames(ps)).Some? ==> t.NonNullUniqueKeyContainedIn(ItemNames(ps)).Some?
  {
    ColumnsAreItems(ps);
    if t.NonNullUniqueKeyContainedIn(ColumnNames(ps)).Some? {
      var k := t.NonNullUniqueKeyContainedIn(ColumnNames(ps)).value;
      assert k in t.unique && Within(k, ItemNames(ps)) && t.AllNonNull(k);
    }
  }

  // ----- DISTINCT over a join

  function JoinedConstraints(q: SelectQuery, catalog: Catalog): TableConstraints
    requires |q.joins| == 1
  {
    catalog.Table(q.joins[0].table).GetOr(TableConstraints(map[], [], []))
  }

  /** A DISTINCT query over a join of two different tables, columns of the left one, no filter and no row window. */
  predicate PlainJoinedDistinct(q: SelectQuery) {
    && q.distinct && q.IsDirectTable() && !q.tableIsCte && LeftOfJoin(q) && !q.joins[0].tableIsCte
    && q.predicates == [] && Unlimited(q) && q.joins[0].table != q.table.value
  }

  ghost function LeftColumns(q: SelectQuery, catalog: Catalog): seq<string>
    requires LeftOfJoin(q)
  {
    AllColumns(ConstraintsOf(q, catalog), JoinElimination.Lefts(JoinKey(q)))
  }

  function RightNames(q: SelectQuery): seq<string>
    requires LeftOfJoin(q)
  {
    JoinElimination.Rights(JoinKey(q))
  }

  function SetOf(s: seq<string>): set<string> {
    set c | c in s
  }

  ghost function RightTwins(q: SelectQuery, catalog: Catalog): Relation
    requires LeftOfJoin(q)
  {
    TwinTable(JoinedConstraints(q, catalog), RightNames(q), SetOf(RightNames(q)))
  }

  ghost function LeftRow(q: SelectQuery, catalog: Catalog): Record
    requires LeftOfJoin(q)
  {
    BuildRow(LeftColumns(q, catalog), Constantly(0))
  }

  /** One left row, and two right rows that agree with it on the join columns. */
  ghost function JoinedTwinWorld(q: SelectQuery, catalog: Catalog): World
    requires LeftOfJoin(q)
  {
    PlainWorld(map[
      q.joins[0].table := RightTwins(q, catalog),
      q.table.value := Relation(LeftColumns(q, catalog), [LeftRow(q, catalog)])])
  }

  lemma LeftRowMeets(w: World, q: SelectQuery, catalog: Catalog)
    requires LeftOfJoin(q) && KeysOnly(ConstraintsOf(q, catalog))
    ensures TableMeets(w, [LeftRow(q, catalog)], ConstraintsOf(q, catalog))
  {
    var t := ConstraintsOf(q, catalog);
    forall c, r | c in t.columns && r in [LeftRow(q, catalog)] ensures Get(r, c).Val? {
      GetBuilt(LeftColumns(q, catalog), Constantly(0), c);
    }
  }

  lemma AnyKeyInside(t: TableConstraints, names: seq<string>)
    ensures KeyInside(t, names, SetOf(names)) <==> t.UniqueKeyContainedIn(names).Some?
  {
    if t.UniqueKeyContainedIn(names).Some? {
      assert KeyIs(t, names, SetOf(names), t.UniqueKeyContainedIn(names).value);
    }
  }

  lemma JoinedTwinWorldMeets(q: SelectQuery, catalog: Catalog)
    requires PlainJoinedDistinct(q) && KeysOnly(ConstraintsOf(q, catalog)) && KeysOnly(JoinedConstraints(q, catalog))
    requires JoinedConstraints(q, catalog).UniqueKeyContainedIn(RightNames(q)).None?
    ensures WellFormed(JoinedTwinWorld(q, catalog)) && Meets(JoinedTwinWorld(q, catalog), catalog)
  {
    hide KeyInside;
    hide AllColumns;
    hide BuildTable;
    hide TableMeets;
    hide KeysOnly;
    var w, t, joined := JoinedTwinWorld(q, catalog), ConstraintsOf(q, catalog), JoinedConstraints(q, catalog);
    AnyKeyInside(joined, RightNames(q));
    forall name | name in catalog.tables ensures TableMeets(w, TableRelation(w, name).rows, catalog.tables[name]) {
      if name == q.table.value {
        LeftRowMeets(w, q, catalog);
      } else if name == q.joins[0].table {
        TwinsMeet(w, joined, RightNames(q), SetOf(RightNames(q)));
      } else {
        NoRowsMeet(w, catalog.tables[name]);
      }
    }
    TwinColumns(joined, RightNames(q), SetOf(RightNames(q)));
    assert Names(LeftRow(q, catalog)) == LeftColumns(q, catalog);
  }

  /** Both right rows match the left row. */
  lemma TwinsJoin(w: World, q: SelectQuery, catalog: Catalog, i: int)
    requires LeftOfJoin(q) && (i == 0 || i == 1)
    ensures OnHolds(w.engine, q.joins[0].Conditions())(
              [Binding(q.SourceName(), LeftRow(q, catalog)),
                Binding(q.joins[0].RelationName(), RightTwins(q, catalog).rows[i])])
  {
    var ps, rec, row := JoinKey(q), LeftRow(q, catalog), RightTwins(q, catalog).rows[i];
    forall p | p in ps ensures Get(rec, p.left).Val? && Get(rec, p.left) == Get(row, p.right) {
      var k :| 0 <= k < |ps| && ps[k] == p;
      assert JoinElimination.Lefts(ps)[k] == p.left && RightNames(q)[k] == p.right;
      GetBuilt(LeftColumns(q, catalog), Constantly(0), p.left);
      TwinCells(JoinedConstraints(q, catalog), RightNames(q), SetOf(RightNames(q)), p.right, i);
    }
    JoinElimination.OnIsPairs(w, q.joins[0].Conditions(), q.SourceName(), q.joins[0].RelationName(), rec, row);
  }

  lemma JoinedTwinRows(w: World, q: SelectQuery, catalog: Catalog)
    requires PlainJoinedDistinct(q) && w == JoinedTwinWorld(q, catalog)
    ensures var a, rows := Binding(q.SourceName(), LeftRow(q, catalog)), RightTwins(q, catalog).rows;
            var r := q.joins[0].RelationName();
            FromRows(w, q) == [[a, Binding(r, rows[0])], [a, Binding(r, rows[1])]]
  {
    hide AllColumns;
    hide FromRows;
    hide OnHolds;
    TwinsJoin(w, q, catalog, 0);
    TwinsJoin(w, q, catalog, 1);
    var rows := RightTwins(q, catalog).rows;
    assert RowsOf(w, q) == [LeftRow(q, catalog)] && JoinRelation(w, q.joins[0]).rows == [rows[0], rows[1]];
    TwoMatchRows(w, q, LeftRow(q, catalog), rows[0], rows[1]);
  }

  lemma JoinedTwinsDiffer(q: SelectQuery, catalog: Catalog)
    requires PlainJoinedDistinct(q)
    ensures Answer(JoinedTwinWorld(q, catalog), q) != Answer(JoinedTwinWorld(q, catalog), q.(distinct := false))
  {
    hide Eval;
    hide JoinKey;
    var w, rec, rows, r := JoinedTwinWorld(q, catalog), LeftRow(q, catalog), RightTwins(q, catalog).rows,
      q.joins[0].RelationName();
    var a := Binding(q.SourceName(), rec);
    JoinedTwinRows(w, q, catalog);
    JoinToExists.ProjectStays(w, q, q.projections, rec, r, rows[0]);
    JoinToExists.ProjectStays(w, q, q.projections, rec, r, rows[1]);
    assert [a] + [Binding(r, rows[0])] == [a, Binding(r, rows[0])] &&
      [a] + [Binding(r, rows[1])] == [a, Binding(r, rows[1])];
    SameRowTwice(w, q, [a, Binding(r, rows[0])], [a, Binding(r, rows[1])]);
  }

  /** Over a join, DISTINCT may go on every database that meets the constraints if and only if the join columns contain
      a unique key of the joined table; the key that the check finds among the selected columns is not enough. */
  lemma DistinctJoinDecided(q: SelectQuery, catalog: Catalog)
    requires PlainJoinedDistinct(q) && KeysOnly(ConstraintsOf(q, catalog)) && KeysOnly(JoinedConstraints(q, catalog))
    requires ConstraintsOf(q, catalog).NonNullUniqueKeyContainedIn(ItemNames(q.projections)).Some?
    ensures Verifier.CheckDistinctRemoval(q, catalog).status.ProvenEquivalent?
    ensures AlwaysSame(catalog, q, q.(distinct := false))
       <==> JoinedConstraints(q, catalog).UniqueKeyContainedIn(RightNames(q)).Some?
  {
    hide Eval;
    hide TableMeets;
    hide KeysOnly;
    PlainLeft(q);
    assert !q.HasAggregate();
    if JoinedConstraints(q, catalog).UniqueKeyContainedIn(RightNames(q)).Some? {
      forall w: World | WellFormed(w) && Meets(w, catalog) ensures Answer(w, q) == Answer(w, q.(distinct := false)) {
        assert TableMeets(w, RowsOf(w, q), ConstraintsOf(q, catalog));
        assert TableMeets(w, JoinRelation(w, q.joins[0]).rows, JoinedConstraints(q, catalog));
        KeyedJoinNoop(w, q, ConstraintsOf(q, catalog), JoinedConstraints(q, catalog));
      }
    } else {
      JoinedTwinWorldMeets(q, catalog);
      JoinedTwinsDiffer(q, catalog);
    }
  }

  // ----- DISTINCT join to EXISTS

  predicate NoEmptyKey(t: TableConstraints) {
    forall k :: k in t.unique ==> k != []
  }

  /** The right column of the join equality. */
  function RightColumn(q: SelectQuery): string
    requires |q.joins| == 1
  {
    var c := q.joins[0].condition;
    if c.left.Table() == Some(q.SourceName()) then c.right.Name() else c.left.Name()
  }

  /** A DISTINCT join of two different tables without filter and row window. */
  predicate PlainDistinctJoin(q: SelectQuery) {
    && JoinToExists.SuggestExists(q).Proven() && JoinToExists.ExistsLimits(q) && Unlimited(q) && q.predicates == []
    && q.joins[0].table != q.table.value && !q.tableIsCte
  }

  ghost function PartnerTable(q: SelectQuery, catalog: Catalog): Relation
    requires |q.joins| == 1
  {
    BuildTable(AllColumns(JoinedConstraints(q, catalog), [RightColumn(q)]), Constantly(0), Constantly(1))
  }

  ghost function PartnerWorld(q: SelectQuery, catalog: Catalog): World
    requires q.table.Some? && |q.joins| == 1
  {
    PlainWorld(map[
      q.joins[0].table := PartnerTable(q, catalog),
      q.table.value := TwinTable(ConstraintsOf(q, catalog), LeftNames(q), {JoinToExists.JoinColumn(q)})])
  }

  function LeftNames(q: SelectQuery): seq<string> {
    ItemNames(q.projections)
  }

  lemma PartnersMeet(w: World, q: SelectQuery, catalog: Catalog)
    requires |q.joins| == 1 && KeysOnly(JoinedConstraints(q, catalog)) && NoEmptyKey(JoinedConstraints(q, catalog))
    ensures TableMeets(w, PartnerTable(q, catalog).rows, JoinedConstraints(q, catalog))
  {
    var t, cols, rows := JoinedConstraints(q, catalog), AllColumns(JoinedConstraints(q, catalog), [RightColumn(q)]),
      PartnerTable(q, catalog).rows;
    forall k | k in t.unique ensures UniqueOn(rows, k) {
      KeyColumnsListed(t, [RightColumn(q)], k);
      assert k[0] in k;
      GetBuilt(cols, Constantly(0), k[0]);
      GetBuilt(cols, Constantly(1), k[0]);
      assert Get(rows[0], k[0]) != Get(rows[1], k[0]);
    }
    forall c, r | c in t.columns && r in rows ensures Get(r, c).Val? {
      GetBuilt(cols, Constantly(0), c);
      GetBuilt(cols, Constantly(1), c);
    }
  }

  lemma ConditionReads(w: World, q: SelectQuery, rec: Record, row: Record)
    requires JoinToExists.ExistsShape(q)
    ensures var j := q.joins[0];
            JoinTruth(w.engine, j.condition, [Binding(j.RelationName(), row)] + [Binding(q.SourceName(), rec)])
            == Eq3(Get(rec, JoinToExists.JoinColumn(q)), Get(row, RightColumn(q)))
  {
    var j, l, r := q.joins[0], q.SourceName(), q.joins[0].RelationName();
    var tables := {j.condition.left.Table(), j.condition.right.Table()};
    assert Some(l) in tables && Some(r) in tables && j.condition.left.Table() in tables &&
      j.condition.right.Table() in tables;
    assert [Binding(r, row)] + [Binding(l, rec)] == [Binding(r, row), Binding(l, rec)];
    JoinElimination.LookupOfTwo(r, l, row, rec, j.condition.left.column);
    JoinElimination.LookupOfTwo(r, l, row, rec, j.condition.right.column);
  }

  /** The partner of left row `i`. */
  function PartnerOf(q: SelectQuery, i: int): int
    requires |q.joins| == 1
  {
    if JoinToExists.JoinColumn(q) in LeftNames(q) then 0 else i
  }

  lemma PartnerHasValue(q: SelectQuery, catalog: Catalog, i: int)
    requires |q.joins| == 1 && q.table.Some? && (i == 0 || i == 1)
    ensures var c := JoinToExists.JoinColumn(q);
            var v := Get(TwinTable(ConstraintsOf(q, catalog), LeftNames(q), {c}).rows[i], c);
            v.Val? && v == Get(PartnerTable(q, catalog).rows[PartnerOf(q, i)], RightColumn(q))
  {
    var c, right := JoinToExists.JoinColumn(q), PartnerTable(q, catalog);
    TwinCells(ConstraintsOf(q, catalog), LeftNames(q), {c}, c, i);
    GetBuilt(right.cols, Constantly(0), RightColumn(q));
    GetBuilt(right.cols, Constantly(1), RightColumn(q));
  }

  lemma PartnerFound(w: World, q: SelectQuery, rec: Record, row: Record)
    requires JoinToExists.ExistsShape(q) && q.predicates == []
    requires row in TableRelation(w, q.joins[0].table).rows
    requires Get(rec, JoinToExists.JoinColumn(q)).Val?
    requires Get(rec, JoinToExists.JoinColumn(q)) == Get(row, RightColumn(q))
    ensures WhereHolds(w, JoinToExists.ExistsQuery(q).predicates)([Binding(q.SourceName(), rec)])
  {
    var j := q.joins[0];
    ConditionReads(w, q, rec, row);
    assert ExistsMatch(w.engine, j.RelationName(), j.condition, [Binding(q.SourceName(), rec)], row);
    JoinToExists.ExistsWhere(w, q, [Binding(q.SourceName(), rec)]);
  }

  /** Each of the two left rows finds its partner. */
  lemma TwinsHavePartners(w: World, q: SelectQuery, catalog: Catalog, i: int)
    requires JoinToExists.ExistsShape(q) && q.predicates == [] && q.joins[0].table != q.table.value
    requires w == PartnerWorld(q, catalog) && (i == 0 || i == 1)
    ensures WhereHolds(w, JoinToExists.ExistsQuery(q).predicates)([Binding(q.SourceName(), RowsOf(w, q)[i])])
  {
    var row := PartnerTable(q, catalog).rows[PartnerOf(q, i)];
    PartnerHasValue(q, catalog, i);
    assert TableRelation(w, q.joins[0].table) == PartnerTable(q, catalog);
    PartnerFound(w, q, RowsOf(w, q)[i], row);
  }

  lemma PartnerWorldMeets(q: SelectQuery, catalog: Catalog)
    requires |q.joins| == 1 && q.table.Some? && q.joins[0].table != q.table.value
    requires KeysOnly(ConstraintsOf(q, catalog))
    requires KeysOnly(JoinedConstraints(q, catalog)) && NoEmptyKey(JoinedConstraints(q, catalog))
    requires !KeyInside(ConstraintsOf(q, catalog), LeftNames(q), {JoinToExists.JoinColumn(q)})
    ensures WellFormed(PartnerWorld(q, catalog)) && Meets(PartnerWorld(q, catalog), catalog)
  {
    var t, names, c, w := ConstraintsOf(q, catalog), LeftNames(q), JoinToExists.JoinColumn(q), PartnerWorld(q, catalog);
    forall name | name in catalog.tables ensures TableMeets(w, TableRelation(w, name).rows, catalog.tables[name]) {
      if name == q.table.value {
        TwinsMeet(w, t, names, {c});
      } else if name == q.joins[0].table {
        PartnersMeet(w, q, catalog);
      }
    }
    BuiltWellFormed(AllColumns(t, names + Listing({c})), Cell(t, names, {c}, 0), Cell(t, names, {c}, 1));
    BuiltWellFormed(AllColumns(JoinedConstraints(q, catalog), [RightColumn(q)]), Constantly(0), Constantly(1));
  }

  lemma MatchedTwinsAlike(q: SelectQuery, catalog: Catalog)
    requires PlainDistinctJoin(q)
    ensures !JoinToExists.MatchedRowsApart(PartnerWorld(q, catalog), q)
  {
    hide Body;
    var w, r, c := PartnerWorld(q, catalog), JoinToExists.ExistsQuery(q), JoinToExists.JoinColumn(q);
    JoinToExists.ProvenExists(q);
    JoinToExists.ExistsRecords(w, q);
    JoinToExists.PlainItems(q);
    var xs, rows := SourceRows(q, SourceRelation(w, q)), RowsOf(w, q);
    TwinsHavePartners(w, q, catalog, 0);
    TwinsHavePartners(w, q, catalog, 1);
    assert xs[0] == [Binding(q.SourceName(), rows[0])] && xs[1] == [Binding(q.SourceName(), rows[1])];
    FilterAll(WhereHolds(w, r.predicates), xs);
    NamesListed(q.projections);
    TwinsProjectAlike(w, q, q.projections, ConstraintsOf(q, catalog), LeftNames(q), {c});
    var rs := Map(RowRecord(w, q.projections), xs);
    assert |rs| == 2 && rs[0] == rs[1];
  }

  lemma MatchKeyIs(q: SelectQuery, t: TableConstraints, k: seq<string>)
    requires |q.joins| == 1
    ensures k in t.unique && KeyIs(t, LeftNames(q), {JoinToExists.JoinColumn(q)}, k) <==> JoinToExists.MatchKey(q, t, k)
  {
  }

  lemma KeyHasTable(q: SelectQuery, catalog: Catalog, key: seq<string>)
    requires |q.joins| == 1 && q.table.Some? && JoinToExists.MatchKey(q, ConstraintsOf(q, catalog), key)
    ensures catalog.Table(q.table.value) == Some(ConstraintsOf(q, catalog))
  {
  }

  /** The rewrite to EXISTS, which never reads the constraints, is right on every database that meets them if and
      only if the left table has a unique key inside the projection whose columns are non-null or joined on. */
  lemma JoinToExistsDecided(q: SelectQuery, catalog: Catalog)
    requires PlainDistinctJoin(q) && KeysOnly(ConstraintsOf(q, catalog))
    requires KeysOnly(JoinedConstraints(q, catalog)) && NoEmptyKey(JoinedConstraints(q, catalog))
    ensures AlwaysSame(catalog, q, JoinToExists.SuggestExists(q).rewritten.value)
       <==> exists key :: JoinToExists.MatchKey(q, ConstraintsOf(q, catalog), key)
  {
    hide Eval;
    hide PartnerWorld;
    hide Meets;
    hide WellFormed;
    hide JoinToExists.MatchKey;
    hide KeyIs;
    hide JoinToExists.MatchedRowsApart;
    var t, r := ConstraintsOf(q, catalog), JoinToExists.SuggestExists(q).rewritten.value;
    if key :| JoinToExists.MatchKey(q, t, key) {
      KeyHasTable(q, catalog, key);
      forall w: World | WellFormed(w) && Meets(w, catalog) ensures Answer(w, q) == Answer(w, r) {
        JoinToExists.JoinToExistsWithKey(w, q, catalog, key);
      }
    } else {
      forall k
        ensures k in t.unique && KeyIs(t, LeftNames(q), {JoinToExists.JoinColumn(q)}, k) <==>
          JoinToExists.MatchKey(q, t, k)
      {
        MatchKeyIs(q, t, k);
      }
      assert !KeyInside(t, LeftNames(q), {JoinToExists.JoinColumn(q)});
      var w := PartnerWorld(q, catalog);
      PartnerWorldMeets(q, catalog);
      MatchedTwinsAlike(q, catalog);
      JoinToExists.JoinToExistsExact(w, q);
      assert Answer(w, q) != Answer(w, r);
    }
  }
}
