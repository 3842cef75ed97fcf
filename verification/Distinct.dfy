/** Removing DISTINCT when the projection holds a trusted non-null unique key. */
module Distinct {
  import opened Ir
  import opened Lists
  import opened Semantics
  import opened Pipeline
  import opened Constraints
  import opened Rewrites
  import opened TableRows

  function ItemNames(ps: seq<Projection>): (r: seq<string>)
    ensures |r| == |ps|
    ensures forall i :: 0 <= i < |ps| ==> r[i] == ps[i].Name()
  {
    seq(|ps|, i requires 0 <= i < |ps| => ps[i].Name())
  }

  predicate PlainColumns(ps: seq<Projection>) {
    forall p :: p in ps ==> p.Column?
  }

  /** The names of the items that are plain columns. */
  function ColumnNames(ps: seq<Projection>): (r: seq<string>)
    ensures forall c :: c in r <==> exists p :: p in ps && p.Column? && p.column.name == c
  {
    if ps == [] then []
    else
      assert ps == [ps[0]] + ps[1..];
      (if ps[0].Column? then [ps[0].column.name] else []) + ColumnNames(ps[1..])
  }

  lemma {:induction false} PlainColumnNames(ps: seq<Projection>)
    requires PlainColumns(ps)
    ensures ColumnNames(ps) == ItemNames(ps)
  {
    if ps != [] {
      PlainColumnNames(ps[1..]);
      assert ps[0] in ps && ItemNames(ps) == [ps[0].Name()] + ItemNames(ps[1..]);
    }
  }

  predicate NoStars(ps: seq<Projection>) {
    forall p :: p in ps ==> !p.Star?
  }

  function SuggestDistinct(q: SelectQuery, catalog: Catalog): Suggestion {
    var no := s => Suggestion(RemoveRedundantDistinct, s, None);
    if !q.distinct then no(NotApplicable)
    else if q.groupBy != [] || q.having != [] then no(NotApplicable)
    else if q.joins != [] then no(NotApplicable)
    else if q.ReferencesCte() then no(Undecided)
    else if q.TableName().None? then no(Unsupported)
    else
      var t := catalog.Table(q.TableName().value);
      if t.None? then no(Undecided)
      else if !PlainColumns(q.projections) then no(Undecided)
      else if t.value.NonNullUniqueKeyContainedIn(ItemNames(q.projections)).None? then no(Undecided)
      else Suggestion(RemoveRedundantDistinct, ProvenEquivalent, Some(q.(distinct := false)))
  }

  // ----- soundness

  /** The database resolves every projected column to the query's relation. */
  predicate ItemsInScope(q: SelectQuery) {
    forall p :: p in q.projections && p.Column? ==> InScope(q, p.column)
  }

  /** Without stars, each item is one field of the result row. */
  lemma {:induction false} ProjectedField(g: Engine, ps: seq<Projection>, k: nat, u: Unit)
    requires NoStars(ps) && k < |ps|
    ensures k < |Project(g, ps, u)| && ItemFields(g, ps[k], u) == [Project(g, ps, u)[k]]
  {
    if k > 0 {
      ProjectedField(g, ps[1..], k - 1, u);
    }
  }

  /** A projected plain column shows up in the result row. */
  lemma ProjectedValue(w: World, q: SelectQuery, ps: seq<Projection>, k: nat, r: Record)
    requires NoStars(ps) && k < |ps| && ps[k].Column? && InScope(q, ps[k].column)
    ensures var out := Project(w.engine, ps, [[Binding(q.SourceName(), r)]]);
            k < |out| && out[k].value == Get(r, ps[k].column.name)
  {
    ProjectedField(w.engine, ps, k, [[Binding(q.SourceName(), r)]]);
    ColumnOfRow(q, ps[k].column, r);
  }

  function RowAlone(w: World, q: SelectQuery): Record -> Unit {
    r => [[Binding(q.SourceName(), r)]]
  }

  /** Rows of a table that differ on some projected column project to different result rows. */
  lemma ProjectApart(w: World, q: SelectQuery, r: Record, s: Record, column: string)
    requires NoStars(q.projections) && ItemsInScope(q)
    requires column in ColumnNames(q.projections) && Get(r, column) != Get(s, column)
    ensures Project(w.engine, q.projections, [[Binding(q.SourceName(), r)]])
         != Project(w.engine, q.projections, [[Binding(q.SourceName(), s)]])
  {
    var p :| p in q.projections && p.Column? && p.column.name == column;
    var k :| 0 <= k < |q.projections| && q.projections[k] == p;
    ProjectedValue(w, q, q.projections, k, r);
    ProjectedValue(w, q, q.projections, k, s);
  }

  /** No two rows of the table project alike. */
  lemma RowsProjectApart(w: World, q: SelectQuery, t: TableConstraints)
    requires SingleTable(q) && TableMeets(w, RowsOf(w, q), t)
    requires NoStars(q.projections) && ItemsInScope(q)
    requires t.NonNullUniqueKeyContainedIn(ColumnNames(q.projections)).Some?
    ensures NoDuplicates(Map(RowRecord(w, q.projections), FromRows(w, q)))
  {
    var rows, show := RowsOf(w, q), RowRecord(w, q.projections);
    SingleTableRows(w, q);
    var shown := Map(show, FromRows(w, q));
    forall i, j | 0 <= i < j < |shown| ensures shown[i] != shown[j] {
      KeyTellsRowsApart(w, q, t, ColumnNames(q.projections), i, j);
      var c :| c in ColumnNames(q.projections) && Get(rows[i], c) != Get(rows[j], c);
      ProjectApart(w, q, rows[i], rows[j], c);
    }
  }

  /** Nor do any two that survive WHERE and QUALIFY. */
  lemma ProjectionsApart(w: World, q: SelectQuery, t: TableConstraints)
    requires SingleTable(q) && TableMeets(w, RowsOf(w, q), t)
    requires NoStars(q.projections) && ItemsInScope(q) && q.groupBy == [] && q.having == []
    requires t.NonNullUniqueKeyContainedIn(ColumnNames(q.projections)).Some?
    ensures NoDuplicates(Records(Map(Output(w.engine, q.projections), Selected(w, q, FromRows(w, q)))))
  {
    hide Chosen;
    hide TableMeets;
    RowsProjectApart(w, q, t);
    var envs := FromRows(w, q);
    var kept := Filter(WhereHolds(w, q.predicates), envs);
    FilterApart(WhereHolds(w, q.predicates), RowRecord(w, q.projections), envs);
    if q.Aggregates() {
      OneGroup(w, q, kept);
    } else {
      SelectedApart(w, q, kept);
    }
  }

  /** A query that makes one group of all rows has at most one result row. */
  lemma OneGroup(w: World, q: SelectQuery, kept: seq<Env>)
    ensures |Chosen(w.engine, q.having, q.qualify, [kept])| <= 1
  {
    hide HavingHolds;
    var units := Filter(HavingHolds(w.engine, q.having), [kept]);
    var marks := QualifyMarks(w.engine, q.qualify, units);
    assert |marks| == |units| <= 1;
    assert units != [] ==> PickMarked(units[1..], marks[1..]) == [];
  }

  lemma SelectedApart(w: World, q: SelectQuery, kept: seq<Env>)
    requires q.having == []
    requires NoDuplicates(Map(RowRecord(w, q.projections), kept))
    ensures NoDuplicates(Records(Map(Output(w.engine, q.projections),
      Chosen(w.engine, q.having, q.qualify, Map(Alone(), kept)))))
  {
    var units := Map(Alone(), kept);
    FilterAll(HavingHolds(w.engine, q.having), units);
    var h := (u: Unit) => Project(w.engine, q.projections, u);
    assert Map(h, units) == Map(RowRecord(w, q.projections), kept);
    PickApart(h, units, QualifyMarks(w.engine, q.qualify, units));
    var chosen := Chosen(w.engine, q.having, q.qualify, units);
    assert Records(Map(Output(w.engine, q.projections), chosen)) == Map(h, chosen);
  }

  /** Dropping DISTINCT changes nothing when a trusted non-null unique key is projected. */
  lemma DistinctIsNoop(w: World, q: SelectQuery, t: TableConstraints)
    requires SingleTable(q) && TableMeets(w, RowsOf(w, q), t)
    requires NoStars(q.projections) && ItemsInScope(q) && q.groupBy == [] && q.having == []
    requires t.NonNullUniqueKeyContainedIn(ColumnNames(q.projections)).Some?
    ensures Eval(w, q) == Eval(w, q.(distinct := false))
  {
    hide TableMeets;
    hide FromRows;
    hide Chosen;
    hide Header;
    var r := q.(distinct := false);
    SameFrom(w, q, r);
    ProjectionsApart(w, q, t);
    DistinctRowsAll(Map(Output(w.engine, q.projections), Selected(w, q, FromRows(w, q))));
    assert Selected(w, r, FromRows(w, q)) == Selected(w, q, FromRows(w, q));
    SameEval(w, q, r);
  }

  lemma DistinctRemoval(w: World, q: SelectQuery, catalog: Catalog)
    requires Meets(w, catalog) && SuggestDistinct(q, catalog).Proven() && ItemsInScope(q)
    ensures Eval(w, q) == Eval(w, SuggestDistinct(q, catalog).rewritten.value)
  {
    hide Eval;
    var t := catalog.Table(q.table.value).value;
    assert TableMeets(w, RowsOf(w, q), t);
    PlainColumnNames(q.projections);
    DistinctIsNoop(w, q, t);
  }

  predicate NoDuplicateRecords(w: World, q: SelectQuery) {
    NoDuplicates(Records(Body(w, q, FromRows(w, q))))
  }

  lemma DistinctBody(w: World, q: SelectQuery, envs: seq<Env>)
    requires q.distinct
    ensures Body(w, q, envs) == DistinctRows(Body(w, q.(distinct := false), envs))
  {
  }

  /** Whatever the query, removing DISTINCT keeps the bag exactly when it had nothing to remove. */
  lemma DistinctExact(w: World, q: SelectQuery)
    requires q.distinct && Unlimited(q)
    ensures var r := q.(distinct := false); Answer(w, q) == Answer(w, r) <==> NoDuplicateRecords(w, r)
  {
    hide Body;
    var r := q.(distinct := false);
    SameFrom(w, q, r);
    AnswerIsBody(w, q);
    AnswerIsBody(w, r);
    DistinctBody(w, q, FromRows(w, q));
    DistinctRecords(Body(w, r, FromRows(w, r)));
    DedupKeepsBag(Records(Body(w, r, FromRows(w, r))));
  }

  /** A row that the FROM clause has twice. */
  lemma SameRowTwice(w: World, q: SelectQuery, x: Env, y: Env)
    requires RowLevel(q) && Unlimited(q) && q.predicates == [] && q.distinct && FromRows(w, q) == [x, y]
    requires Project(w.engine, q.projections, [x]) == Project(w.engine, q.projections, [y])
    ensures Answer(w, q) != Answer(w, q.(distinct := false))
  {
    var r := q.(distinct := false);
    SameFrom(w, q, r);
    FilterAll(WhereHolds(w, r.predicates), [x, y]);
    RowLevelRecords(w, r, [x, y]);
    var rows := Map(RowRecord(w, r.projections), [x, y]);
    assert rows[0] == rows[1];
    DistinctExact(w, q);
  }

  /** A row-level query whose one source row passes WHERE. */
  lemma OneRowAnswer(w: World, q: SelectQuery, env: Env)
    requires RowLevel(q) && ShowsFirst(q) && FromRows(w, q) == [env] && WhereHolds(w, q.predicates)(env)
    ensures Eval(w, q).rows == [Project(w.engine, q.projections, [env])]
    ensures Answer(w, q) == multiset{Project(w.engine, q.projections, [env])}
  {
    hide Body;
    FilterAll(WhereHolds(w, q.predicates), [env]);
    RowLevelRecords(w, q, [env]);
    var rows := Map(RowRecord(w, q.projections), [env]);
    assert rows == [Project(w.engine, q.projections, [env])] && rows[0..] == rows;
    DedupNoDuplicates(rows);
    OneRowSorted(w.engine, OrderItems(q), Body(w, q, [env]));
  }

  lemma OneRowSorted(g: Engine, items: seq<OrderByItem>, rows: seq<OutRow>)
    requires |rows| == 1
    ensures Ordered(g, items, rows) == rows
  {
    assert rows[1..] == [] && Sorted(g, items, rows[1..]) == [];
  }
}
