/** A set-operation CTE keeps its name out of scope, so a query on it takes the constraints of a table of that name. */
module SkippedCtes {
  import opened Ir
  import opened Lists
  import opened Semantics
  import opened Pipeline
  import opened Constraints
  import opened Rewrites
  import opened Registry
  import opened TableRows
  import opened Distinct
  import opened Statements
  import opened Ctes
  import opened Fragments
  import opened Witnesses
  import StarReaders
  import Splicing

  // ----- names that no constraint is about

  ghost predicate Untrusted(name: string, catalog: Catalog) {
    && name !in catalog.tables
    && forall n, fk :: n in catalog.tables && fk in catalog.tables[n].foreignKeys ==> fk.refTable != name
  }

  /** The WITH clause leaves the tables that constraints are about as they were. */
  lemma BoundMeets(w: World, ctes: seq<Cte>, catalog: Catalog)
    requires Meets(w, catalog) && forall c :: c in ctes ==> Untrusted(c.name, catalog)
    ensures Meets(Bound(w, ctes), catalog)
  {
    var v := Bound(w, ctes);
    BoundEngine(w, ctes);
    forall n | n in catalog.tables ensures TableMeets(v, TableRelation(v, n).rows, catalog.tables[n]) {
      Splicing.BoundOutside(w, ctes, n);
      var t, rows := catalog.tables[n], TableRelation(w, n).rows;
      assert TableMeets(w, rows, t);
      forall fk | fk in t.foreignKeys ensures ForeignKeyHolds(rows, fk, TableRelation(v, fk.refTable).rows) {
        assert forall c :: c in ctes ==> c.name != fk.refTable;
        Splicing.BoundOutside(w, ctes, fk.refTable);
      }
      assert forall c :: c in t.columns && t.columns[c].acceptedValues != [] ==>
        AcceptsOnly(v, rows, c, t.columns[c].acceptedValues);
    }
  }

  /** When no CTE has the name of a table with constraints, a proven rewrite of a query on any of them, skipped or not,
      keeps the bag of rows. */
  lemma UntrustedNamesSafe(w: World, ctes: seq<Cte>, rule: RuleName, q: SelectQuery, catalog: Catalog)
    requires Meets(w, catalog) && forall c :: c in ctes ==> Untrusted(c.name, catalog)
    requires WellFormed(Bound(w, ctes)) && RuleLimits(rule, Bound(w, ctes), q, catalog)
    requires Suggest(rule, q, catalog).Proven()
    ensures Answer(Bound(w, ctes), q) == Answer(Bound(w, ctes), Suggest(rule, q, catalog).rewritten.value)
  {
    hide Suggest;
    hide Eval;
    hide RuleLimits;
    hide Meets;
    BoundMeets(w, ctes, catalog);
    SuggestionSound(rule, Bound(w, ctes), q, catalog);
  }

  // ----- one set operation that takes the name of a trusted table

  /** A WITH clause of one set operation, and the query on it. */
  predicate Skipped(s: Statement, q: SelectQuery) {
    !s.recursive && |s.ctes| == 1 && s.ctes[0].body.SetOperation? && q.table == Some(s.ctes[0].name) && s.outer == q
  }

  /** SELECT DISTINCT of columns of one relation, unfiltered. */
  predicate DistinctReader(q: SelectQuery) {
    PlainDistinct(q) && PlainColumns(q.projections) && !q.ReferencesCte()
  }

  /** Its name is not in scope, so the query is parsed as one on the table of that name. */
  lemma SkippedParsed(s: Statement, q: SelectQuery)
    requires Skipped(s, q) && DistinctReader(q)
    ensures ParseFragment(Statement(false, [], s.outer), SelectBodies(s.ctes)) == Resolved(q)
    ensures QueryFragment(OuterAt, Resolved(q)) in AllFragments(s)
  {
    assert SelectBodies(s.ctes[..0]) == map[];
    assert SelectBodies(s.ctes) == map[];
    assert MarkAll(s.outer.predicates, map[]) == s.outer.predicates;
    assert AllFragments(s) == CteFragments(s.ctes) + [OuterFragment(s)];
  }

  /** What the rule looks for: constraints on a table of that name, with a non-null unique key among the columns. */
  predicate TrustedName(q: SelectQuery, catalog: Catalog) {
    && q.table.Some? && q.table.value in catalog.tables
    && catalog.tables[q.table.value].NonNullUniqueKeyContainedIn(ItemNames(q.projections)).Some?
  }

  lemma SuggestedWhenTrusted(q: SelectQuery, catalog: Catalog)
    requires DistinctReader(q)
    ensures Suggest(RemoveRedundantDistinct, q, catalog).Proven() <==> TrustedName(q, catalog)
    ensures TrustedName(q, catalog) ==>
              Suggest(RemoveRedundantDistinct, q, catalog).rewritten == Some(q.(distinct := false))
  {
  }

  function StarFrom(table: string): SelectQuery {
    SelectQuery(Some(table), None, false, None, None, [], [Star(None)], [], [], [], [], [], None, None, false, "")
  }

  /** WITH name AS (SELECT * FROM a UNION ALL SELECT * FROM a) q */
  function DoubledCte(a: string, q: SelectQuery): Statement
    requires q.table.Some?
  {
    var part := Select(Statement(false, [], StarFrom(a)));
    Statement(false, [Cte(q.table.value, SetOperation([], UnionAll, part, part))], q)
  }

  /** A name that is neither the CTE's nor that of a table with constraints. */
  ghost function OtherTable(q: SelectQuery, catalog: Catalog): string
    requires q.table.Some?
  {
    StarReaders.Fresh([q.table.value] + Listing(catalog.tables.Keys))
  }

  lemma OtherIsOther(q: SelectQuery, catalog: Catalog)
    requires q.table.Some?
    ensures OtherTable(q, catalog) != q.table.value && OtherTable(q, catalog) !in catalog.tables
  {
    var names := [q.table.value] + Listing(catalog.tables.Keys);
    StarReaders.FreshIsLonger(names);
    assert q.table.value == names[0];
    forall n | n in catalog.tables ensures n in names {
      assert n in Listing(catalog.tables.Keys);
    }
  }

  function OneRow(q: SelectQuery): Record {
    BuildRow(ItemNames(q.projections), Constantly(0))
  }

  /** A database of one row, in a table that no constraint is about. */
  ghost function OneRowWorld(q: SelectQuery, catalog: Catalog): World
    requires q.table.Some?
  {
    PlainWorld(map[OtherTable(q, catalog) := Relation(ItemNames(q.projections), [OneRow(q)])])
  }

  lemma OneRowWorldMeets(q: SelectQuery, catalog: Catalog)
    requires q.table.Some?
    ensures WellFormed(OneRowWorld(q, catalog)) && Meets(OneRowWorld(q, catalog), catalog)
  {
    hide TableMeets;
    var w := OneRowWorld(q, catalog);
    OtherIsOther(q, catalog);
    forall n | n in catalog.tables ensures TableMeets(w, TableRelation(w, n).rows, catalog.tables[n]) {
      NoRowsMeet(w, catalog.tables[n]);
    }
    assert Names(OneRow(q)) == ItemNames(q.projections);
  }

  lemma DoubledBody(w: World, a: string)
    ensures var part, rows := Select(Statement(false, [], StarFrom(a))), TableRelation(w, a).rows;
            BodyRelation(w, SetOperation([], UnionAll, part, part)).rows == rows + rows
  {
    hide Eval;
    var none: seq<Cte> := [];
    var part := Select(Statement(false, none, StarFrom(a)));
    StarSound(w, StarFrom(a));
    assert Bound(w, none) == w;
    assert BodyRelation(w, part) == Eval(Bound(w, none), StarFrom(a));
    assert BodyRelation(w, SetOperation(none, UnionAll, part, part)) ==
      Combine(UnionAll, BodyRelation(w, part), BodyRelation(w, part));
  }

  lemma DoubledRows(w: World, a: string, q: SelectQuery)
    requires q.table.Some?
    ensures TableRelation(Bound(w, DoubledCte(a, q).ctes), q.table.value).rows ==
      TableRelation(w, a).rows + TableRelation(w, a).rows
  {
    hide Eval;
    var ctes := DoubledCte(a, q).ctes;
    var before := ctes[..0];
    assert before == [] && Bound(w, before) == w && |ctes| == 1;
    DoubledBody(w, a);
    assert Bound(w, ctes) == Define(w, q.table.value, CteRelation(w, ctes[0]));
  }

  lemma RowDoubled(v: World, q: SelectQuery, row: Record)
    requires DistinctReader(q) && RowsOf(v, q) == [row, row]
    ensures Answer(v, q) != Answer(v, q.(distinct := false))
  {
    hide Eval;
    var env := [Binding(q.SourceName(), row)];
    SingleTableRows(v, q);
    assert FromRows(v, q) == [env, env];
    SameRowTwice(v, q, env, env);
  }

  /** The set operation has the row twice, and DISTINCT made a difference. */
  lemma DoubledDiffers(q: SelectQuery, catalog: Catalog)
    requires DistinctReader(q)
    ensures var s, w := DoubledCte(OtherTable(q, catalog), q), OneRowWorld(q, catalog);
            multiset(EvalStatement(w, s).rows) != multiset(EvalStatement(w, s.(outer := q.(distinct := false))).rows)
  {
    hide Eval;
    var s, w := DoubledCte(OtherTable(q, catalog), q), OneRowWorld(q, catalog);
    DoubledRows(w, OtherTable(q, catalog), q);
    assert RowsOf(Bound(w, s.ctes), q) == [OneRow(q), OneRow(q)];
    RowDoubled(Bound(w, s.ctes), q, OneRow(q));
  }

  /** The splice of the suggestion keeps the statement's bag. */
  ghost predicate SpliceRight(w: World, s: Statement, catalog: Catalog) {
    Suggest(RemoveRedundantDistinct, s.outer, catalog).Proven() ==>
      multiset(EvalStatement(w, s).rows)
      == multiset(EvalStatement(w, s.(outer :=
        Suggest(RemoveRedundantDistinct, s.outer, catalog).rewritten.value)).rows)
  }

  ghost predicate AlwaysRight(q: SelectQuery, catalog: Catalog) {
    forall s, w: World :: Skipped(s, q) && WellFormed(w) && Meets(w, catalog) ==> SpliceRight(w, s, catalog)
  }

  /** What is suggested for the query is right for every set operation and every database that meets the constraints if
      and only if no table of the CTE's name is trusted to have a key among the columns. */
  lemma SkippedDecided(q: SelectQuery, catalog: Catalog)
    requires DistinctReader(q)
    ensures AlwaysRight(q, catalog) <==> !TrustedName(q, catalog)
  {
    hide Eval;
    hide Suggest;
    hide Meets;
    hide WellFormed;
    SuggestedWhenTrusted(q, catalog);
    if TrustedName(q, catalog) {
      var s, w := DoubledCte(OtherTable(q, catalog), q), OneRowWorld(q, catalog);
      OneRowWorldMeets(q, catalog);
      DoubledDiffers(q, catalog);
      assert Skipped(s, q) && !SpliceRight(w, s, catalog);
    }
  }

  /** WITH t AS (SELECT * FROM a UNION ALL SELECT * FROM a) SELECT DISTINCT x FROM t, and a non-null unique key x
      declared on a table t: DISTINCT is dropped, and the row that was returned once is returned twice. */
  lemma SkippedCteFails(t: string, x: string)
    ensures var q := StarFrom(t).(projections := [Column(ColName(None, x), None)], distinct := true);
            var catalog := Catalog(map[t := TableConstraints(map[x := ColumnConstraint(Some(false), [])], [[x]], [])]);
            var s, w := DoubledCte(OtherTable(q, catalog), q), OneRowWorld(q, catalog);
            && QueryFragment(OuterAt, Resolved(q)) in AllFragments(s)
            && Suggest(RemoveRedundantDistinct, q, catalog).Proven()
            && WellFormed(w) && Meets(w, catalog) && !SpliceRight(w, s, catalog)
  {
    hide Eval;
    hide Suggest;
    hide Meets;
    hide WellFormed;
    var q := StarFrom(t).(projections := [Column(ColName(None, x), None)], distinct := true);
    var catalog := Catalog(map[t := TableConstraints(map[x := ColumnConstraint(Some(false), [])], [[x]], [])]);
    KeyTrusted(q, catalog, t, x);
    SuggestedWhenTrusted(q, catalog);
    SkippedParsed(DoubledCte(OtherTable(q, catalog), q), q);
    OneRowWorldMeets(q, catalog);
    DoubledDiffers(q, catalog);
  }

  lemma KeyTrusted(q: SelectQuery, catalog: Catalog, t: string, x: string)
    requires q == StarFrom(t).(projections := [Column(ColName(None, x), None)], distinct := true)
    requires catalog == Catalog(map[t := TableConstraints(map[x := ColumnConstraint(Some(false), [])], [[x]], [])])
    ensures DistinctReader(q) && TrustedName(q, catalog)
  {
    var names := ItemNames(q.projections);
    assert names == [x];
    assert [x] in catalog.tables[t].unique && Within([x], names) && catalog.tables[t].AllNonNull([x]);
  }
}
