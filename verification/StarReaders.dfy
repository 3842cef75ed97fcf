/** SELECT * over a CTE that is read through to its table, decided over all databases. */
module StarReaders {
  import opened Ir
  import opened Lists
  import opened Semantics
  import opened Pipeline
  import opened TableRows
  import opened Distinct
  import opened Statements
  import opened Ctes
  import opened CteSources
  import opened Fragments
  import opened FragmentSources
  import opened Witnesses
  import Splicing

  /** SELECT * FROM one relation, with a filter for values that are present or an ORDER BY, so that the query itself
      does not just pass the relation on. */
  predicate StarReader(q: SelectQuery) {
    && q.IsDirectTable() && q.joins == [] && q.projections == [Star(None)] && RowLevel(q) && Unlimited(q) && !q.distinct
    && (forall p :: p in q.predicates ==> p.Compare? && p.operator.IsNotNull? && InScope(q, p.left))
    && (q.predicates != [] || q.orderBy != [])
  }

  /** The table at the end of the chain, under the name that the query uses for the CTE. */
  function Repointed(q: SelectQuery, base: string): SelectQuery
    requires q.table.Some?
  {
    q.(table := Some(base), tableAlias := Some(q.SourceName()), tableIsCte := false)
  }

  /** Every CTE of the chain is a star or a list of columns. */
  predicate PlainChain(name: string, ctes: map<string, SelectQuery>, seen: set<string>)
    requires name in ctes
    decreases |ctes.Keys - seen|
  {
    name !in seen ==>
      && Unlimited(ctes[name]) && (StarPassThrough(ctes[name]) || PlainColumns(ctes[name].projections))
      && (ctes[name].IsDirectTable() && ctes[name].table.value in ctes ==>
            (assert ctes.Keys - (seen + {name}) == ctes.Keys - seen - {name};
             PlainChain(ctes[name].table.value, ctes, seen + {name})))
  }

  /** The columns that the CTEs of the chain list. */
  function ChainNames(name: string, ctes: map<string, SelectQuery>, seen: set<string>): seq<string>
    requires name in ctes
    decreases |ctes.Keys - seen|
  {
    if name in seen then []
    else
      OutputNames(ctes[name].projections)
      + if ctes[name].IsDirectTable() && ctes[name].table.value in ctes then
          assert ctes.Keys - (seen + {name}) == ctes.Keys - seen - {name};
          ChainNames(ctes[name].table.value, ctes, seen + {name})
        else []
  }

  lemma ReaderParsed(q: SelectQuery, scope: map<string, SelectQuery>)
    requires StarReader(q) && q.table.value in scope && PassThrough(q.table.value, scope, {}).Resolved?
    ensures ParseFragment(Statement(false, [], q), scope) ==
      Resolved(Repointed(q, PassThrough(q.table.value, scope, {}).value))
  {
    assert Resolve(q, scope, {}) == Resolved(q);
    forall i | 0 <= i < |q.predicates| ensures MarkExists(q.predicates[i], scope) == q.predicates[i] {
      assert q.predicates[i] in q.predicates;
    }
    assert MarkAll(q.predicates, scope) == q.predicates;
  }

  // ----- a column that no CTE of the chain lists

  function Fresh(names: seq<string>): string {
    if names == [] then "x" else names[0] + Fresh(names[1..])
  }

  lemma {:induction false} FreshIsLonger(names: seq<string>)
    ensures forall n :: n in names ==> |n| < |Fresh(names)|
    ensures |Fresh(names)| > 0
  {
    if names != [] {
      FreshIsLonger(names[1..]);
      assert names == [names[0]] + names[1..];
    }
  }

  predicate NameLink(w: World, name: string, cte: SelectQuery) {
    IdentityProjection(cte) && cte.table.Some? && Unlimited(cte) && PlainColumns(cte.projections) ==>
      forall r :: r in TableRelation(w, name).rows ==> Names(r) == OutputNames(cte.projections)
  }

  ghost predicate NameLinks(w: World, ctes: map<string, SelectQuery>) {
    forall n :: n in ctes ==> NameLink(w, n, ctes[n])
  }

  lemma AllNameLinks(w: World, ctes: map<string, SelectQuery>)
    requires Consistent(w, ctes)
    ensures NameLinks(w, ctes)
  {
    hide Eval;
    forall n | n in ctes ensures NameLink(w, n, ctes[n]) {
      assert StandsFor(w, n, ctes[n]);
      if IdentityProjection(ctes[n]) && ctes[n].table.Some? && Unlimited(ctes[n]) && PlainColumns(ctes[n].projections) {
        IdentityNames(w, n, ctes[n]);
      }
    }
  }

  /** A chain that does not select everything on the way has no rows with another column. */
  lemma {:induction false} ChainLacks(w: World, name: string, ctes: map<string, SelectQuery>, seen: set<string>,
    f: string)
    requires StarLinks(w, ctes) && NameLinks(w, ctes) && name in ctes && PassThrough(name, ctes, seen).Resolved?
    requires PlainChain(name, ctes, seen) && !StarChain(name, ctes, seen) && f !in ChainNames(name, ctes, seen)
    ensures forall r :: r in TableRelation(w, name).rows ==> f !in Names(r)
    decreases |ctes.Keys - seen|
  {
    var cte := ctes[name];
    if StarPassThrough(cte) {
      assert StarLink(w, name, cte);
      assert ctes.Keys - (seen + {name}) == ctes.Keys - seen - {name};
      ChainLacks(w, cte.table.value, ctes, seen + {name}, f);
    } else {
      assert NameLink(w, name, cte);
    }
  }

  // ----- the query on the CTE and on the table

  /** Whatever the query returns is a row of its relation. */
  lemma ReaderRows(w: World, q: SelectQuery)
    requires StarReader(q)
    ensures forall x :: x in Answer(w, q) ==> x in RowsOf(w, q)
  {
    hide Body;
    AnswerIsBody(w, q);
    RowLevelRecords(w, q, FromRows(w, q));
    SingleTableRows(w, q);
    var kept := Filter(WhereHolds(w, q.predicates), FromRows(w, q));
    forall x | x in Map(RowRecord(w, q.projections), kept) ensures x in RowsOf(w, q) {
      var env := MapSource(RowRecord(w, q.projections), kept, x);
      var rec := MapSource(Bind(q.SourceName()), RowsOf(w, q), env);
      OnlyStar(w.engine, q.SourceName(), rec);
    }
  }

  /** A row with a value in every column that the query tests is returned. */
  lemma RowReturned(w: World, q: SelectQuery, row: Record)
    requires StarReader(q) && RowsOf(w, q) == [row] && forall p :: p in q.predicates ==> Get(row, p.left.name).Val?
    ensures row in Answer(w, q)
  {
    hide Eval;
    var env := [Binding(q.SourceName(), row)];
    SingleTableRows(w, q);
    assert FromRows(w, q) == [env];
    forall p | p in q.predicates ensures PredicateTruth(w, p, env).True3? {
      ColumnOfRow(q, p.left, row);
    }
    OneRowAnswer(w, q, env);
    OnlyStar(w.engine, q.SourceName(), row);
  }

  function TestedNames(ps: seq<WherePredicate>): (r: seq<string>)
    requires forall p :: p in ps ==> p.Compare?
    ensures |r| == |ps| && forall i :: 0 <= i < |ps| ==> r[i] == ps[i].left.name
  {
    seq(|ps|, i requires 0 <= i < |ps| => ps[i].left.name)
  }

  function TableColumns(q: SelectQuery, listed: seq<string>): seq<string>
    requires StarReader(q)
  {
    TestedNames(q.predicates) + listed + [Fresh(listed)]
  }

  /** A table of one row with one column more than the chain lists. */
  ghost function WideWorld(q: SelectQuery, base: string, listed: seq<string>): World
    requires StarReader(q)
  {
    PlainWorld(map[base := Relation(TableColumns(q, listed), [BuildRow(TableColumns(q, listed), Constantly(0))])])
  }

  lemma WideRowReturned(q: SelectQuery, base: string, listed: seq<string>)
    requires StarReader(q)
    ensures var w, cols := WideWorld(q, base, listed), TableColumns(q, listed);
            WellFormedTable(w, base) && BuildRow(cols, Constantly(0)) in Answer(w, Repointed(q, base))
  {
    hide Eval;
    var w, cols, r := WideWorld(q, base, listed), TableColumns(q, listed), Repointed(q, base);
    var row := BuildRow(cols, Constantly(0));
    assert Names(row) == cols;
    forall p | p in q.predicates ensures Get(row, p.left.name).Val? {
      var i :| 0 <= i < |q.predicates| && q.predicates[i] == p;
      assert TestedNames(q.predicates)[i] in cols;
      GetBuilt(cols, Constantly(0), p.left.name);
    }
    assert StarReader(r);
    RowReturned(w, r, row);
  }

  predicate WellFormedTable(w: World, name: string) {
    forall r :: r in TableRelation(w, name).rows ==> Names(r) == TableRelation(w, name).cols
  }

  /** The query that reads the table, on the database without the CTEs. */
  lemma TableOutside(w: World, ctes: seq<Cte>, q: SelectQuery, base: string)
    requires StarReader(q) && ScopeOf(ctes).Resolved? && base !in ScopeOf(ctes).value
    ensures Eval(Bound(w, ctes), Repointed(q, base)) == Eval(w, Repointed(q, base))
  {
    hide Eval;
    ScopeIsBodies(ctes);
    var r := Repointed(q, base);
    forall c | c in ctes ensures !Mentions(r, c.name) {
      var i :| 0 <= i < |ctes| && ctes[i] == c;
      assert ctes[i].name in ScopeOf(ctes).value;
    }
    Splicing.BoundFrame(w, ctes, r);
  }

  lemma {:induction false} BaseOutside(name: string, ctes: map<string, SelectQuery>, seen: set<string>)
    requires name in ctes && PassThrough(name, ctes, seen).Resolved?
    ensures PassThrough(name, ctes, seen).value !in ctes
    decreases |ctes.Keys - seen|
  {
    if ctes[name].table.value in ctes {
      assert ctes.Keys - (seen + {name}) == ctes.Keys - seen - {name};
      BaseOutside(ctes[name].table.value, ctes, seen + {name});
    }
  }

  predicate ReadsChain(s: Statement) {
    && ScopeOf(s.ctes).Resolved? && NoNestedWith(s.ctes) && StarReader(s.outer)
    && s.outer.table.value in ScopeOf(s.ctes).value
    && PassThrough(s.outer.table.value, ScopeOf(s.ctes).value, {}).Resolved?
    && PlainChain(s.outer.table.value, ScopeOf(s.ctes).value, {})
  }

  function BaseOf(s: Statement): string
    requires ReadsChain(s)
  {
    PassThrough(s.outer.table.value, ScopeOf(s.ctes).value, {}).value
  }

  lemma StarsRight(w: World, s: Statement)
    requires ReadsChain(s) && DefinedBeforeUse(s.ctes) && StarChain(s.outer.table.value, ScopeOf(s.ctes).value, {})
    ensures EvalStatement(w, s) == Eval(w, Repointed(s.outer, BaseOf(s)))
  {
    hide Eval;
    hide StarReader;
    var scope, v := ScopeOf(s.ctes).value, Bound(w, s.ctes);
    ScopeIsBodies(s.ctes);
    BoundIsConsistent(w, s.ctes);
    ReaderParsed(s.outer, scope);
    ParsedSources(s.outer, scope);
    SourcesMean(v, s.outer, scope);
    BaseOutside(s.outer.table.value, scope, {});
    TableOutside(w, s.ctes, s.outer, BaseOf(s));
  }

  lemma ParsedSources(q: SelectQuery, scope: map<string, SelectQuery>)
    requires StarReader(q) && q.table.value in scope && PassThrough(q.table.value, scope, {}).Resolved?
    requires StarChain(q.table.value, scope, {})
    ensures SourcesReadable(q, scope)
    ensures ReadSources(q, scope) == Resolved(Repointed(q, PassThrough(q.table.value, scope, {}).value))
  {
    ReaderParsed(q, scope);
    assert Resolve(q, scope, {}) == Resolved(q);
  }

  /** A database on which the table's row has a column more than the CTE's. */
  lemma ColumnsAppear(s: Statement)
    requires ReadsChain(s) && DefinedBeforeUse(s.ctes) && !StarChain(s.outer.table.value, ScopeOf(s.ctes).value, {})
    ensures var listed := ChainNames(s.outer.table.value, ScopeOf(s.ctes).value, {});
            var w := WideWorld(s.outer, BaseOf(s), listed);
            WellFormedTable(w, BaseOf(s)) &&
              multiset(EvalStatement(w, s).rows) != Answer(w, Repointed(s.outer, BaseOf(s)))
  {
    hide Eval;
    hide TableColumns;
    hide WideWorld;
    var scope, name := ScopeOf(s.ctes).value, s.outer.table.value;
    var listed := ChainNames(name, scope, {});
    var w, cols := WideWorld(s.outer, BaseOf(s), listed), TableColumns(s.outer, listed);
    var v, row := Bound(w, s.ctes), BuildRow(cols, Constantly(0));
    WideRowReturned(s.outer, BaseOf(s), listed);
    ScopeIsBodies(s.ctes);
    BoundIsConsistent(w, s.ctes);
    ChainLacksFresh(v, name, scope);
    ReaderRows(v, s.outer);
    FreshListed(s.outer, listed);
    assert row !in RowsOf(v, s.outer);
  }

  lemma FreshListed(q: SelectQuery, listed: seq<string>)
    requires StarReader(q)
    ensures Fresh(listed) in Names(BuildRow(TableColumns(q, listed), Constantly(0)))
  {
    var cols := TableColumns(q, listed);
    assert Names(BuildRow(cols, Constantly(0))) == cols && cols[|cols| - 1] == Fresh(listed);
  }

  lemma ChainLacksFresh(v: World, name: string, scope: map<string, SelectQuery>)
    requires Consistent(v, scope) && name in scope && PassThrough(name, scope, {}).Resolved?
    requires PlainChain(name, scope, {}) && !StarChain(name, scope, {})
    ensures forall r :: r in TableRelation(v, name).rows ==> Fresh(ChainNames(name, scope, {})) !in Names(r)
  {
    hide Eval;
    var listed := ChainNames(name, scope, {});
    AllStarLinks(v, scope);
    AllNameLinks(v, scope);
    FreshIsLonger(listed);
    ChainLacks(v, name, scope, {}, Fresh(listed));
  }

  /** Where SELECT * does not just pass a CTE on, the query is parsed as one on the table at the end of the chain, and
      that is right on every database if and only if every CTE of the chain selects everything. */
  lemma StarReaderDecided(s: Statement)
    requires ReadsChain(s) && DefinedBeforeUse(s.ctes)
    ensures ParseFragment(Statement(false, [], s.outer), SelectBodies(s.ctes)) ==
      Resolved(Repointed(s.outer, BaseOf(s)))
    ensures (forall w: World :: multiset(EvalStatement(w, s).rows) == Answer(w, Repointed(s.outer, BaseOf(s))))
       <==> StarChain(s.outer.table.value, ScopeOf(s.ctes).value, {})
  {
    hide Eval;
    hide StarReader;
    ScopeIsBodies(s.ctes);
    ReaderParsed(s.outer, ScopeOf(s.ctes).value);
    if StarChain(s.outer.table.value, ScopeOf(s.ctes).value, {}) {
      forall w: World ensures multiset(EvalStatement(w, s).rows) == Answer(w, Repointed(s.outer, BaseOf(s))) {
        StarsRight(w, s);
      }
    } else {
      ColumnsAppear(s);
    }
  }

  // ----- an input on which the code goes wrong

  /** WITH c AS (SELECT a FROM t) SELECT * FROM c WHERE a IS NOT NULL */
  function StarOverColumn(c: string, t: string, a: string): Statement {
    var body := SelectQuery(Some(t), None, false, None, None, [], [Column(ColName(None, a), None)], [], [], [], [], [],
      None,
      None, false, "");
    Statement(false, [Cte(c, Select(Statement(false, [], body)))],
      SelectQuery(Some(c), None, false, None, None, [], [Star(None)], [Compare(ColName(None, a), IsNotNull, None)], [],
        [], [],
        [], None, None, false, ""))
  }

  lemma StarOverColumnShape(c: string, t: string, a: string)
    requires c != t
    ensures var s := StarOverColumn(c, t, a);
            ReadsChain(s) && DefinedBeforeUse(s.ctes) && !StarChain(s.outer.table.value, ScopeOf(s.ctes).value, {})
  {
    var s := StarOverColumn(c, t, a);
    var body := s.ctes[0].body.statement.outer;
    assert s.ctes[..0] == [] && ScopeOf(s.ctes[..0]) == Resolved(map[]);
    assert ScopeOf(s.ctes) == Resolved(map[c := body]);
    assert !Mentions(body, c);
  }

  /** The query comes back with every column of the table. */
  lemma StarReaderFails(c: string, t: string, a: string)
    requires c != t
    ensures var s := StarOverColumn(c, t, a);
            && ReadsChain(s)
            && ParseFragment(Statement(false, [], s.outer), SelectBodies(s.ctes)) ==
              Resolved(Repointed(s.outer, BaseOf(s)))
            && exists w: World :: WellFormedTable(w, BaseOf(s))
                 && multiset(EvalStatement(w, s).rows) != Answer(w, Repointed(s.outer, BaseOf(s)))
  {
    hide Eval;
    var s := StarOverColumn(c, t, a);
    StarOverColumnShape(c, t, a);
    StarReaderDecided(s);
    ColumnsAppear(s);
  }
}
