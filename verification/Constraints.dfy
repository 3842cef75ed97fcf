/** Trusted constraints and what it means for a database to meet them. */
module Constraints {
  import opened Ir
  import opened Semantics

  datatype ColumnConstraint = ColumnConstraint(nullable: Option<bool>, acceptedValues: seq<Literal>)

  datatype ForeignKey = ForeignKey(columns: seq<string>, refTable: string, refColumns: seq<string>)

  datatype TableConstraints = TableConstraints(
    columns: map<string, ColumnConstraint>,
    unique: seq<seq<string>>,
    foreignKeys: seq<ForeignKey>)
  {
    predicate IsNonNull(column: string) {
      column in columns && columns[column].nullable == Some(false)
    }

    predicate AllNonNull(key: seq<string>) {
      forall c :: c in key ==> IsNonNull(c)
    }

    predicate HasForeignKey(cols: seq<string>, refTable: string, refColumns: seq<string>) {
      ForeignKey(cols, refTable, refColumns) in foreignKeys
    }

    /** The first unique key all of whose columns are requested. */
    function UniqueKeyContainedIn(requested: seq<string>): (r: Option<seq<string>>)
      ensures r.Some? ==> r.value in unique && Within(r.value, requested)
      ensures r.None? ==> forall k :: k in unique ==> !Within(k, requested)
    {
      FirstKey(unique, requested, false)
    }

    /** The first such key whose columns are all trusted non-null. */
    function NonNullUniqueKeyContainedIn(requested: seq<string>): (r: Option<seq<string>>)
      ensures r.Some? ==> r.value in unique && Within(r.value, requested) && AllNonNull(r.value)
      ensures r.None? ==> forall k :: k in unique && Within(k, requested) ==> !AllNonNull(k)
    {
      FirstKey(unique, requested, true)
    }

    function FirstKey(keys: seq<seq<string>>, requested: seq<string>, nonNull: bool): (r: Option<seq<string>>)
      ensures r.Some? ==> r.value in keys && Within(r.value, requested) && (nonNull ==> AllNonNull(r.value))
      ensures r.None? ==> forall k :: k in keys && Within(k, requested) ==> nonNull && !AllNonNull(k)
    {
      if keys == [] then None
      else if Within(keys[0], requested) && (nonNull ==> AllNonNull(keys[0])) then Some(keys[0])
      else FirstKey(keys[1..], requested, nonNull)
    }
  }

  datatype Catalog = Catalog(tables: map<string, TableConstraints>) {
    function Table(name: string): Option<TableConstraints> {
      if name in tables then Some(tables[name]) else None
    }
  }

  predicate Within(key: seq<string>, requested: seq<string>) {
    forall c :: c in key ==> c in requested
  }

  // ----- databases that meet the constraints

  /** A row with a NULL in the key is exempt from it. */
  predicate KeyPresent(r: Record, key: seq<string>) {
    forall c :: c in key ==> Get(r, c).Val?
  }

  predicate AgreesOn(r: Record, s: Record, key: seq<string>) {
    forall c :: c in key ==> Get(r, c) == Get(s, c)
  }

  predicate UniqueOn(rows: seq<Record>, key: seq<string>) {
    forall i, j :: 0 <= i < j < |rows| && KeyPresent(rows[i], key) && KeyPresent(rows[j], key)
      ==> !AgreesOn(rows[i], rows[j], key)
  }

  predicate NeverNull(rows: seq<Record>, column: string) {
    forall r :: r in rows ==> Get(r, column).Val?
  }

  predicate AcceptsOnly(w: World, rows: seq<Record>, column: string, accepted: seq<Literal>) {
    forall r :: r in rows && Get(r, column).Val? ==> Get(r, column) in LiteralValues(w.engine, accepted)
  }

  predicate RefersTo(r: Record, columns: seq<string>, p: Record, refColumns: seq<string>) {
    |columns| == |refColumns| && forall i :: 0 <= i < |columns| ==> Get(p, refColumns[i]) == Get(r, columns[i])
  }

  predicate ForeignKeyHolds(rows: seq<Record>, fk: ForeignKey, parents: seq<Record>) {
    forall r :: r in rows && KeyPresent(r, fk.columns) ==> HasParent(r, fk, parents)
  }

  predicate HasParent(r: Record, fk: ForeignKey, parents: seq<Record>) {
    exists p :: p in parents && RefersTo(r, fk.columns, p, fk.refColumns)
  }

  predicate TableMeets(w: World, rows: seq<Record>, t: TableConstraints) {
    && (forall c :: c in t.columns ==>
          && (t.columns[c].nullable == Some(false) ==> NeverNull(rows, c))
          && (t.columns[c].acceptedValues != [] ==> AcceptsOnly(w, rows, c, t.columns[c].acceptedValues)))
    && (forall k :: k in t.unique ==> UniqueOn(rows, k))
    && (forall fk :: fk in t.foreignKeys ==> ForeignKeyHolds(rows, fk, TableRelation(w, fk.refTable).rows))
  }

  predicate Meets(w: World, catalog: Catalog) {
    forall name :: name in catalog.tables ==> TableMeets(w, TableRelation(w, name).rows, catalog.tables[name])
  }

  /** Rows carry exactly the columns of their table. */
  predicate WellFormed(w: World) {
    forall name :: name in w.tables ==> forall r :: r in w.tables[name].rows ==> Names(r) == w.tables[name].cols
  }

  /** Two different rows never agree on a trusted non-null unique key. */
  lemma NonNullKeySeparates(w: World, rows: seq<Record>, t: TableConstraints, key: seq<string>, i: int, j: int)
    requires TableMeets(w, rows, t) && key in t.unique && t.AllNonNull(key)
    requires 0 <= i < j < |rows|
    ensures exists c :: c in key && Get(rows[i], c) != Get(rows[j], c)
  {
    assert UniqueOn(rows, key);
    forall c, r | c in key && r in rows ensures Get(r, c).Val? {
      assert t.IsNonNull(c) && NeverNull(rows, c);
    }
    assert KeyPresent(rows[i], key) && KeyPresent(rows[j], key);
    assert !AgreesOn(rows[i], rows[j], key);
  }
}
