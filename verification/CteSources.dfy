/** A CTE in FROM or JOIN is replaced by the table that its chain of pass-through CTEs ends at. */
module CteSources {
  import opened Ir
  import opened Lists
  import opened Semantics
  import opened Pipeline
  import opened TableRows
  import opened Distinct
  import opened Statements
  import opened Ctes
  import Pushdown

  predicate PassesSource(cte: SelectQuery) {
    (StarPassThrough(cte) || IdentityProjection(cte)) && cte.IsDirectTable()
  }

  /** The table at the end of the chain. */
  function PassThrough(name: string, ctes: map<string, SelectQuery>, seen: set<string>): Scoped<string>
    requires name in ctes
    decreases |ctes.Keys - seen|
  {
    if name in seen then Rejected(CircularReference)
    else if !PassesSource(ctes[name]) then Rejected(NotPassThrough)
    else if ctes[name].table.value !in ctes then Resolved(ctes[name].table.value)
    else
      assert ctes.Keys - (seen + {name}) == ctes.Keys - seen - {name};
      PassThrough(ctes[name].table.value, ctes, seen + {name})
  }

  /** What an opaque CTE must still be: a chain of reads from one direct table each. */
  function OpaqueError(name: string, ctes: map<string, SelectQuery>, seen: set<string>): Option<CteError>
    requires name in ctes
    decreases |ctes.Keys - seen|
  {
    if name in seen then Some(CircularReference)
    else if !ctes[name].IsDirectTable() then Some(NotOneTable)
    else if ctes[name].table.value !in ctes then None
    else
      assert ctes.Keys - (seen + {name}) == ctes.Keys - seen - {name};
      OpaqueError(ctes[name].table.value, ctes, seen + {name})
  }

  datatype Source = Source(table: string, alias: Option<string>, isCte: bool)

  /** A rejected pass-through falls back to an opaque relation of the CTE's name. */
  function CteSource(name: string, alias: Option<string>, ctes: map<string, SelectQuery>): Scoped<Source>
    requires name in ctes
  {
    var base := PassThrough(name, ctes, {});
    if base.Resolved? then Resolved(Source(base.value, Some(alias.GetOr(name)), false))
    else
      var error := OpaqueError(name, ctes, {});
      if error.Some? then Rejected(error.value) else Resolved(Source(name, alias, true))
  }

  /** The fallback hides no circular chain. */
  lemma {:induction false} CircularStaysRejected(name: string, ctes: map<string, SelectQuery>, seen: set<string>)
    requires name in ctes
    ensures PassThrough(name, ctes, seen) == Rejected(CircularReference) ==>
              OpaqueError(name, ctes, seen) == Some(CircularReference)
    decreases |ctes.Keys - seen|
  {
    if name !in seen && PassesSource(ctes[name]) && ctes[name].table.value in ctes {
      assert ctes.Keys - (seen + {name}) == ctes.Keys - seen - {name};
      CircularStaysRejected(ctes[name].table.value, ctes, seen + {name});
    }
  }

  // ----- what the table at the end has to do with the CTE

  /** Every CTE of the chain selects all its columns. */
  predicate StarChain(name: string, ctes: map<string, SelectQuery>, seen: set<string>)
    requires name in ctes
    decreases |ctes.Keys - seen|
  {
    name !in seen ==>
      && StarPassThrough(ctes[name]) && Unlimited(ctes[name])
      && (ctes[name].IsDirectTable() && ctes[name].table.value in ctes ==>
            (assert ctes.Keys - (seen + {name}) == ctes.Keys - seen - {name};
             StarChain(ctes[name].table.value, ctes, seen + {name})))
  }

  predicate StarLink(w: World, name: string, cte: SelectQuery) {
    StarPassThrough(cte) && Unlimited(cte) && cte.table.Some? ==>
      TableRelation(w, name) == TableRelation(w, cte.table.value)
  }

  ghost predicate StarLinks(w: World, ctes: map<string, SelectQuery>) {
    forall n :: n in ctes ==> StarLink(w, n, ctes[n])
  }

  lemma StarStep(w: World, name: string, cte: SelectQuery)
    requires StandsFor(w, name, cte)
    ensures StarLink(w, name, cte)
  {
    if StarPassThrough(cte) && Unlimited(cte) && cte.table.Some? {
      StarSound(w, cte);
    }
  }

  lemma AllStarLinks(w: World, ctes: map<string, SelectQuery>)
    requires Consistent(w, ctes)
    ensures StarLinks(w, ctes)
  {
    forall n | n in ctes ensures StarLink(w, n, ctes[n]) {
      StarStep(w, n, ctes[n]);
    }
  }

  lemma {:induction false} FollowStars(w: World, name: string, ctes: map<string, SelectQuery>, seen: set<string>)
    requires StarLinks(w, ctes) && name in ctes && StarChain(name, ctes, seen)
    requires PassThrough(name, ctes, seen).Resolved?
    ensures TableRelation(w, PassThrough(name, ctes, seen).value) == TableRelation(w, name)
    decreases |ctes.Keys - seen|
  {
    assert StarLink(w, name, ctes[name]);
    if ctes[name].table.value in ctes {
      assert ctes.Keys - (seen + {name}) == ctes.Keys - seen - {name};
      FollowStars(w, ctes[name].table.value, ctes, seen + {name});
    }
  }

  /** A chain of SELECT * of any length ends at the very same relation. */
  lemma StarChainSame(w: World, name: string, ctes: map<string, SelectQuery>)
    requires Consistent(w, ctes) && name in ctes && StarChain(name, ctes, {}) && PassThrough(name, ctes, {}).Resolved?
    ensures TableRelation(w, PassThrough(name, ctes, {}).value) == TableRelation(w, name)
  {
    AllStarLinks(w, ctes);
    FollowStars(w, name, ctes, {});
  }

  predicate KeepsColumns(cte: SelectQuery, cs: set<string>) {
    && Unlimited(cte)
    && (StarPassThrough(cte)
        || (PlainColumns(cte.projections) && ItemsInScope(cte) && forall c :: c in cs ==>
          c in ItemNames(cte.projections)))
  }

  /** Every CTE of the chain keeps the columns. */
  predicate ChainKeeps(name: string, ctes: map<string, SelectQuery>, seen: set<string>, cs: set<string>)
    requires name in ctes
    decreases |ctes.Keys - seen|
  {
    name !in seen ==>
      && KeepsColumns(ctes[name], cs)
      && (ctes[name].IsDirectTable() && ctes[name].table.value in ctes ==>
            (assert ctes.Keys - (seen + {name}) == ctes.Keys - seen - {name};
             ChainKeeps(ctes[name].table.value, ctes, seen + {name}, cs)))
  }

  predicate RowCarries(x: Record, y: Record, cs: set<string>) {
    forall c :: c in cs ==> Get(x, c) == Get(y, c)
  }

  /** Row for row, both relations have the same values in the columns. */
  predicate Carries(a: Relation, b: Relation, cs: set<string>) {
    |a.rows| == |b.rows| && forall i :: 0 <= i < |a.rows| ==> RowCarries(a.rows[i], b.rows[i], cs)
  }

  lemma CarriesOn(a: Relation, b: Relation, c: Relation, cs: set<string>)
    requires Carries(a, b, cs) && Carries(b, c, cs)
    ensures Carries(a, c, cs)
  {
    forall i | 0 <= i < |a.rows| ensures RowCarries(a.rows[i], c.rows[i], cs) {
      assert RowCarries(a.rows[i], b.rows[i], cs) && RowCarries(b.rows[i], c.rows[i], cs);
    }
  }

  lemma IdentityRows(w: World, cte: SelectQuery)
    requires IdentityProjection(cte) && cte.table.Some? && Unlimited(cte) && PlainColumns(cte.projections)
    ensures Eval(w, cte).rows == Map(RowRecord(w, cte.projections), Map(Bind(cte.SourceName()), RowsOf(w, cte)))
  {
    SingleTableRows(w, cte);
    BareRows(w, cte);
    WindowAll(cte.offset, Map(RowRecord(w, cte.projections), FromRows(w, cte)));
  }

  lemma {:induction false} IdentitySource(ps: seq<Projection>, c: string)
    requires PlainColumns(ps) && c in ItemNames(ps) && forall p :: p in ps && p.Column? ==> p.alias.None?
    ensures Pushdown.SourceColumn(ps, c) == Some(c)
  {
    assert ps[0] in ps;
    if ps[0].column.name != c {
      var k :| 0 <= k < |ps| && ItemNames(ps)[k] == c;
      assert ItemNames(ps[1..])[k - 1] == c;
      IdentitySource(ps[1..], c);
    }
  }

  lemma IdentityCarries(w: World, cte: SelectQuery, cs: set<string>)
    requires IdentityProjection(cte) && cte.table.Some? && Unlimited(cte) && PlainColumns(cte.projections)
    requires ItemsInScope(cte) && forall c :: c in cs ==> c in ItemNames(cte.projections)
    ensures Carries(Eval(w, cte), TableRelation(w, cte.table.value), cs)
  {
    hide Eval;
    var rows := RowsOf(w, cte);
    IdentityRows(w, cte);
    forall i | 0 <= i < |rows| ensures RowCarries(Eval(w, cte).rows[i], rows[i], cs) {
      assert Eval(w, cte).rows[i] == RowRecord(w, cte.projections)([Binding(cte.SourceName(), rows[i])]);
      forall c | c in cs ensures Get(Eval(w, cte).rows[i], c) == Get(rows[i], c) {
        IdentitySource(cte.projections, c);
        Pushdown.ReadBack(w, cte, cte.projections, rows[i], c);
      }
    }
  }

  predicate CarryLink(w: World, name: string, cte: SelectQuery, cs: set<string>) {
    PassesSource(cte) && KeepsColumns(cte, cs) ==>
      Carries(TableRelation(w, name), TableRelation(w, cte.table.value), cs)
  }

  ghost predicate CarryLinks(w: World, ctes: map<string, SelectQuery>, cs: set<string>) {
    forall n :: n in ctes ==> CarryLink(w, n, ctes[n], cs)
  }

  lemma StepCarries(w: World, name: string, cte: SelectQuery, cs: set<string>)
    requires StandsFor(w, name, cte)
    ensures CarryLink(w, name, cte, cs)
  {
    if PassesSource(cte) && KeepsColumns(cte, cs) {
      if StarPassThrough(cte) {
        StarSound(w, cte);
      } else {
        IdentityCarries(w, cte, cs);
      }
    }
  }

  lemma AllCarryLinks(w: World, ctes: map<string, SelectQuery>, cs: set<string>)
    requires Consistent(w, ctes)
    ensures CarryLinks(w, ctes, cs)
  {
    forall n | n in ctes ensures CarryLink(w, n, ctes[n], cs) {
      StepCarries(w, n, ctes[n], cs);
    }
  }

  lemma {:induction false} FollowColumns(w: World, name: string, ctes: map<string, SelectQuery>, seen: set<string>,
    cs: set<string>)
    requires CarryLinks(w, ctes, cs) && name in ctes && ChainKeeps(name, ctes, seen, cs)
    requires PassThrough(name, ctes, seen).Resolved?
    ensures Carries(TableRelation(w, name), TableRelation(w, PassThrough(name, ctes, seen).value), cs)
    decreases |ctes.Keys - seen|
  {
    hide Carries;
    assert CarryLink(w, name, ctes[name], cs);
    if ctes[name].table.value in ctes {
      assert ctes.Keys - (seen + {name}) == ctes.Keys - seen - {name};
      FollowColumns(w, ctes[name].table.value, ctes, seen + {name}, cs);
      CarriesOn(TableRelation(w, name), TableRelation(w, ctes[name].table.value),
        TableRelation(w, PassThrough(name, ctes, seen).value), cs);
    }
  }

  /** Columns kept by every CTE of the chain have, row for row, the same values at both ends. */
  lemma ChainCarries(w: World, name: string, ctes: map<string, SelectQuery>, cs: set<string>)
    requires Consistent(w, ctes) && name in ctes && ChainKeeps(name, ctes, {}, cs)
    requires PassThrough(name, ctes, {}).Resolved?
    ensures Carries(TableRelation(w, name), TableRelation(w, PassThrough(name, ctes, {}).value), cs)
  {
    AllCarryLinks(w, ctes, cs);
    FollowColumns(w, name, ctes, {}, cs);
  }

  // ----- which columns a CTE of the chain has

  lemma {:induction false} PlainNames(g: Engine, ps: seq<Projection>, u: Unit)
    requires PlainColumns(ps)
    ensures Names(Project(g, ps, u)) == OutputNames(ps)
  {
    if ps != [] {
      PlainNames(g, ps[1..], u);
      assert OutputNames(ps) == [ps[0].OutputName()] + OutputNames(ps[1..]);
    }
  }

  lemma IdentityNames(w: World, name: string, cte: SelectQuery)
    requires StandsFor(w, name, cte)
    requires IdentityProjection(cte) && cte.table.Some? && Unlimited(cte) && PlainColumns(cte.projections)
    ensures forall r :: r in TableRelation(w, name).rows ==> Names(r) == OutputNames(cte.projections)
  {
    IdentityRows(w, cte);
    forall r | r in TableRelation(w, name).rows ensures Names(r) == OutputNames(cte.projections) {
      var i :| 0 <= i < |Eval(w, cte).rows| && Eval(w, cte).rows[i] == r;
      PlainNames(w.engine, cte.projections, [[Binding(cte.SourceName(), RowsOf(w, cte)[i])]]);
    }
  }
}
