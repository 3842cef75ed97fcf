/** The verdict of the verifier on a DISTINCT removal, decided over all databases for plain items under LIMIT and for
    SELECT *. */
module DistinctVerdicts {
  import opened Ir
  import opened Lists
  import opened Semantics
  import opened Pipeline
  import opened Constraints
  import opened Rewrites
  import opened TableRows
  import opened Distinct
  import opened Witnesses
  import opened Counterexamples
  import Ctes
  import Verifier

  // ----- plain items, with LIMIT

  /** Columns or opaque expressions of one table, unfiltered; LIMIT without ORDER BY, and no OFFSET. */
  predicate LimitedDistinct(q: SelectQuery) {
    PlainDistinct(NoWindow(q)) && q.offset.GetOr(0) == 0 && (q.limit.Some? ==> q.orderBy == [])
  }

  /** LIMIT shows one row at most. */
  predicate ShowsOne(q: SelectQuery) {
    q.limit.Some? && q.limit.value <= 1
  }

  function Key(q: SelectQuery, catalog: Catalog): Option<seq<string>>
    requires q.table.Some?
  {
    ConstraintsOf(q, catalog).NonNullUniqueKeyContainedIn(ColumnNames(q.projections))
  }

  lemma PlainRows(w: World, q: SelectQuery)
    requires PlainDistinct(q) && q.orderBy == []
    ensures var rs := Eval(w, q.(distinct := false)).rows; Eval(w, q).rows == Dedup(rs)
  {
    hide Body;
    var r := q.(distinct := false);
    SameFrom(w, q, r);
    UnlimitedRows(w, q);
    UnlimitedRows(w, r);
    DistinctBody(w, q, FromRows(w, q));
    DistinctRecords(Body(w, r, FromRows(w, q)));
  }

  /** The first row is the first row without repetitions. */
  lemma OneShown(w: World, q: SelectQuery)
    requires LimitedDistinct(q) && ShowsOne(q)
    ensures Eval(w, q).rows == Eval(w, q.(distinct := false)).rows
  {
    hide Eval;
    var r := q.(distinct := false);
    PlainRows(w, NoWindow(q));
    assert NoWindow(q).(distinct := false) == NoWindow(r);
    WindowedRows(w, q);
    WindowedRows(w, r);
    var rs := Eval(w, NoWindow(r)).rows;
    assert rs != [] ==> Dedup(rs)[0] == rs[0];
  }

  lemma KeyedLimit(w: World, q: SelectQuery, catalog: Catalog)
    requires LimitedDistinct(q) && Meets(w, catalog) && Key(q, catalog).Some?
    ensures Eval(w, q) == Eval(w, q.(distinct := false))
  {
    hide Eval;
    hide TableMeets;
    assert TableMeets(w, RowsOf(w, q), ConstraintsOf(q, catalog));
    DistinctIsNoop(w, q, ConstraintsOf(q, catalog));
  }

  lemma KeylessLimit(q: SelectQuery, catalog: Catalog)
    requires LimitedDistinct(q) && KeysOnly(ConstraintsOf(q, catalog)) && Key(q, catalog).None? && !ShowsOne(q)
    ensures var w := TwinWorld(q, catalog);
            WellFormed(w) && Meets(w, catalog) && Answer(w, q) != Answer(w, q.(distinct := false))
  {
    hide Eval;
    hide Meets;
    var w, r := TwinWorld(q, catalog), q.(distinct := false);
    assert TwinWorld(NoWindow(q), catalog) == w && NoWindow(q).(distinct := false) == NoWindow(r);
    TwinsDiffer(NoWindow(q), catalog);
    assert |Eval(w, NoWindow(q)).rows| == |Answer(w, NoWindow(q))| &&
      |Eval(w, NoWindow(r)).rows| == |Answer(w, NoWindow(r))|;
    if q.limit.Some? {
      WindowedRows(w, q);
      WindowedRows(w, r);
      assert |Eval(w, q).rows| == 1 && |Eval(w, r).rows| == 2;
      assert |Answer(w, q)| == 1 && |Answer(w, r)| == 2;
    } else {
      NoLimit(w, q);
      NoLimit(w, r);
    }
  }

  lemma NoLimit(w: World, q: SelectQuery)
    requires Unlimited(q)
    ensures Answer(w, q) == Answer(w, NoWindow(q))
  {
    hide Body;
    SameFrom(w, q, NoWindow(q));
    SameBodyWithoutWindow(w, q, FromRows(w, q));
    AnswerIsBody(w, q);
    AnswerIsBody(w, NoWindow(q));
  }

  /** DISTINCT may go on every database that meets the constraints if and only if a trusted non-null unique key lies
      among the plain columns, or LIMIT shows one row at most. */
  lemma LimitedDecided(q: SelectQuery, catalog: Catalog)
    requires LimitedDistinct(q) && KeysOnly(ConstraintsOf(q, catalog))
    ensures AlwaysSame(catalog, q, q.(distinct := false)) <==> Key(q, catalog).Some? || ShowsOne(q)
  {
    hide Eval;
    hide Meets;
    hide TwinWorld;
    hide WellFormed;
    if ShowsOne(q) {
      forall w: World | WellFormed(w) && Meets(w, catalog) ensures Answer(w, q) == Answer(w, q.(distinct := false)) {
        OneShown(w, q);
      }
    } else if Key(q, catalog).Some? {
      forall w: World | WellFormed(w) && Meets(w, catalog) ensures Answer(w, q) == Answer(w, q.(distinct := false)) {
        KeyedLimit(w, q, catalog);
      }
    } else {
      KeylessLimit(q, catalog);
    }
  }

  /** The verdict, read over all databases: without such a LIMIT what is always right is "proven"; for plain columns
      whatever is proven is always right; and "not equivalent" is wrong exactly when LIMIT shows one row at most. */
  lemma DistinctVerdictExact(q: SelectQuery, catalog: Catalog)
    requires LimitedDistinct(q) && KeysOnly(ConstraintsOf(q, catalog))
    ensures var v, same := Verifier.CheckDistinctRemoval(q, catalog).status,
      AlwaysSame(catalog, q, q.(distinct := false));
            && (same && !ShowsOne(q) ==> v.ProvenEquivalent?)
            && (PlainColumns(q.projections) && v.ProvenEquivalent? ==> same)
            && (v.NotEquivalent? ==> (same <==> ShowsOne(q)))
  {
    hide AlwaysSame;
    hide KeysOnly;
    LimitedDecided(q, catalog);
    KeyAmongItems(ConstraintsOf(q, catalog), q.projections);
    assert !q.HasAggregate();
    if PlainColumns(q.projections) {
      PlainColumnNames(q.projections);
    }
  }

  /** SELECT DISTINCT a FROM t LIMIT 1 without constraints: refuted, and right on every database. */
  lemma LimitOneMisjudged(t: string, a: string)
    ensures var q, catalog := PlainQuery(t, [Column(ColName(None, a), None)]).(distinct := true, limit := Some(1)),
      Catalog(map[]);
            Verifier.CheckDistinctRemoval(q, catalog).status.NotEquivalent? &&
              AlwaysSame(catalog, q, q.(distinct := false))
  {
    hide AlwaysSame;
    var q := PlainQuery(t, [Column(ColName(None, a), None)]).(distinct := true, limit := Some(1));
    LimitedDecided(q, Catalog(map[]));
  }

  // ----- SELECT DISTINCT *

  predicate StarDistinct(q: SelectQuery) {
    && q.distinct && q.IsDirectTable() && !q.tableIsCte && q.joins == [] && q.predicates == []
    && q.groupBy == [] && q.having == [] && q.qualify == [] && Unlimited(q)
    && q.projections == [Star(None)] && !q.OrdersByAggregate()
  }

  /** Some unique key has only columns that are trusted non-null. */
  predicate HasNonNullKey(t: TableConstraints) {
    exists k :: k in t.unique && t.AllNonNull(k)
  }

  lemma StarAnswer(w: World, q: SelectQuery)
    requires StarDistinct(q.(distinct := true))
    ensures Answer(w, q) == multiset(if q.distinct then Dedup(RowsOf(w, q)) else RowsOf(w, q))
  {
    hide Body;
    var rows, envs := RowsOf(w, q), FromRows(w, q);
    SingleTableRows(w, q);
    FilterAll(WhereHolds(w, q.predicates), envs);
    RowLevelRecords(w, q, envs);
    forall i | 0 <= i < |rows| ensures RowRecord(w, q.projections)(envs[i]) == rows[i] {
      Ctes.OnlyStar(w.engine, q.SourceName(), rows[i]);
    }
    assert Map(RowRecord(w, q.projections), envs) == rows;
    AnswerIsBody(w, q);
  }

  lemma KeyedRows(w: World, rows: seq<Record>, t: TableConstraints)
    requires TableMeets(w, rows, t) && HasNonNullKey(t)
    ensures NoDuplicates(rows)
  {
    var k :| k in t.unique && t.AllNonNull(k);
    forall i, j | 0 <= i < j < |rows| ensures rows[i] != rows[j] {
      NonNullKeySeparates(w, rows, t, k, i, j);
    }
  }

  ghost function StarTwins(q: SelectQuery, catalog: Catalog): World
    requires q.table.Some?
  {
    PlainWorld(map[q.table.value :=
      TwinTable(ConstraintsOf(q, catalog), AllColumns(ConstraintsOf(q, catalog), []), {})])
  }

  lemma NoKeyInside(t: TableConstraints)
    requires !HasNonNullKey(t)
    ensures !KeyInside(t, AllColumns(t, []), {})
  {
  }

  lemma StarTwinsMeet(q: SelectQuery, catalog: Catalog)
    requires q.table.Some? && KeysOnly(ConstraintsOf(q, catalog)) && !HasNonNullKey(ConstraintsOf(q, catalog))
    ensures WellFormed(StarTwins(q, catalog)) && Meets(StarTwins(q, catalog), catalog)
  {
    hide KeyInside;
    hide AllColumns;
    hide BuildTable;
    hide TableMeets;
    hide KeysOnly;
    hide HasNonNullKey;
    var t, w := ConstraintsOf(q, catalog), StarTwins(q, catalog);
    NoKeyInside(t);
    forall name | name in catalog.tables ensures TableMeets(w, TableRelation(w, name).rows, catalog.tables[name]) {
      if name == q.table.value {
        TwinsMeet(w, t, AllColumns(t, []), {});
      } else {
        NoRowsMeet(w, catalog.tables[name]);
      }
    }
    TwinColumns(t, AllColumns(t, []), {});
  }

  /** With every column listed, the twins are the same row. */
  lemma StarTwinsAlike(t: TableConstraints)
    ensures var rows := TwinTable(t, AllColumns(t, []), {}).rows; |rows| == 2 && rows[0] == rows[1]
  {
    var names := AllColumns(t, []);
    var cols := AllColumns(t, names + Listing({}));
    forall c | c in cols ensures Cell(t, names, {}, 0)(c) == Cell(t, names, {}, 1)(c) {
      assert c in names;
    }
    var rows := TwinTable(t, names, {}).rows;
    forall i | 0 <= i < |cols| ensures rows[0][i] == rows[1][i] {
      assert cols[i] in cols;
    }
    assert rows[0] == rows[1];
  }

  lemma StarTwinsDiffer(q: SelectQuery, catalog: Catalog)
    requires StarDistinct(q)
    ensures Answer(StarTwins(q, catalog), q) != Answer(StarTwins(q, catalog), q.(distinct := false))
  {
    hide Eval;
    hide TwinTable;
    var w := StarTwins(q, catalog);
    StarTwinsAlike(ConstraintsOf(q, catalog));
    StarAnswer(w, q);
    StarAnswer(w, q.(distinct := false));
    TwoAlike(RowsOf(w, q));
    assert |multiset(RowsOf(w, q))| == 2;
  }

  /** DISTINCT * may go on every database that meets the constraints if and only if the table has a unique key of
      non-null columns. The check looks for a key of one column named `*` and, with no such key, never says so. */
  lemma StarDecided(q: SelectQuery, catalog: Catalog)
    requires StarDistinct(q) && KeysOnly(ConstraintsOf(q, catalog))
    ensures AlwaysSame(catalog, q, q.(distinct := false)) <==> HasNonNullKey(ConstraintsOf(q, catalog))
    ensures (forall k :: k in ConstraintsOf(q, catalog).unique ==> !Within(k, ["*"])) ==>
              Verifier.CheckDistinctRemoval(q, catalog).status.NotEquivalent?
  {
    hide Eval;
    hide Meets;
    hide HasNonNullKey;
    hide StarTwins;
    hide KeysOnly;
    assert ItemNames(q.projections) == ["*"];
    assert !q.HasAggregate();
    var r := q.(distinct := false);
    if HasNonNullKey(ConstraintsOf(q, catalog)) {
      forall w: World | WellFormed(w) && Meets(w, catalog) ensures Answer(w, q) == Answer(w, r) {
        StarKeyed(w, q, catalog);
      }
    } else {
      StarTwinsMeet(q, catalog);
      StarTwinsDiffer(q, catalog);
    }
  }

  lemma StarKeyed(w: World, q: SelectQuery, catalog: Catalog)
    requires StarDistinct(q) && Meets(w, catalog) && HasNonNullKey(ConstraintsOf(q, catalog))
    ensures Answer(w, q) == Answer(w, q.(distinct := false))
  {
    hide Eval;
    hide TableMeets;
    assert TableMeets(w, RowsOf(w, q), ConstraintsOf(q, catalog));
    KeyedRows(w, RowsOf(w, q), ConstraintsOf(q, catalog));
    StarAnswer(w, q);
    StarAnswer(w, q.(distinct := false));
    DedupNoDuplicates(RowsOf(w, q));
  }

  /** SELECT DISTINCT * FROM t with a non-null unique key: refuted, and right on every database that meets the
      constraints. */
  lemma StarMisjudged(t: string, k: string)
    requires k != "*"
    ensures var q, catalog := PlainQuery(t, [Star(None)]).(distinct := true), NonNullKey(t, k);
            Verifier.CheckDistinctRemoval(q, catalog).status.NotEquivalent? &&
              AlwaysSame(catalog, q, q.(distinct := false))
  {
    hide AlwaysSame;
    hide Verifier.CheckDistinctRemoval;
    var q, catalog := PlainQuery(t, [Star(None)]).(distinct := true), NonNullKey(t, k);
    assert ConstraintsOf(q, catalog) == KeyOn(k, Some(false)) && k in [k];
    assert [k] in KeyOn(k, Some(false)).unique && KeyOn(k, Some(false)).AllNonNull([k]);
    StarDecided(q, catalog);
  }
}
