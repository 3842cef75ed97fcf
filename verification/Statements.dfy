/** WITH clauses: each CTE is evaluated with the ones before it in scope, and its name then hides any table. */
module Statements {
  import opened Ir
  import opened Lists
  import opened Semantics
  import opened Pipeline

  datatype Cte = Cte(name: string, body: CteBody)

  datatype SetOperator = UnionAll | Union | Intersect | Except

  datatype CteBody =
    | Select(statement: Statement)
    | SetOperation(inner: seq<Cte>, operator: SetOperator, left: CteBody, right: CteBody)

  datatype Statement = Statement(recursive: bool, ctes: seq<Cte>, outer: SelectQuery)

  function Define(w: World, name: string, rel: Relation): World {
    w.(tables := w.tables[name := rel])
  }

  function BodyRelation(w: World, b: CteBody): Relation
    decreases b, 0
  {
    match b
    case Select(s) => Eval(Bound(w, s.ctes), s.outer)
    case SetOperation(inner, op, left, right) =>
      var v := Bound(w, inner);
      Combine(op, BodyRelation(v, left), BodyRelation(v, right))
  }

  function Combine(op: SetOperator, a: Relation, b: Relation): Relation {
    match op
    case UnionAll => Relation(a.cols, a.rows + b.rows)
    case Union => Relation(a.cols, Dedup(a.rows + b.rows))
    case Intersect => Relation(a.cols, Dedup(Filter((r: Record) => r in b.rows, a.rows)))
    case Except => Relation(a.cols, Dedup(Filter((r: Record) => r !in b.rows, a.rows)))
  }

  function CteRelation(w: World, c: Cte): Relation
    decreases c, 0
  {
    BodyRelation(w, c.body)
  }

  /** The database after the WITH clause. */
  function Bound(w: World, ctes: seq<Cte>): World
    decreases ctes, 0
  {
    if ctes == [] then w
    else
      var before := Bound(w, ctes[..|ctes| - 1]);
      Define(before, ctes[|ctes| - 1].name, CteRelation(before, ctes[|ctes| - 1]))
  }

  function EvalStatement(w: World, s: Statement): Relation {
    Eval(Bound(w, s.ctes), s.outer)
  }

  // ----- a query depends only on the tables it mentions

  ghost predicate Mentions(q: SelectQuery, name: string) {
    || (q.table == Some(name))
    || (q.subquery.Some? && Mentions(q.subquery.value, name))
    || (exists j :: j in q.joins && (j.table == name || (j.subquery.Some? && Mentions(j.subquery.value, name))))
    || (exists p :: p in q.predicates && p.Exists? && p.table == name)
  }

  ghost predicate AgreeOn(v: World, w: World, q: SelectQuery) {
    v.engine == w.engine && forall name :: Mentions(q, name) ==> TableRelation(v, name) == TableRelation(w, name)
  }

  lemma {:induction false} EvalFrame(v: World, w: World, q: SelectQuery)
    requires AgreeOn(v, w, q)
    ensures Eval(v, q) == Eval(w, q)
    decreases q, 1
  {
    hide Body;
    if q.table.None? && q.subquery.Some? {
      EvalFrame(v, w, q.subquery.value);
    }
    assert SourceRelation(v, q) == SourceRelation(w, q);
    forall j | j in q.joins ensures JoinRelation(v, j) == JoinRelation(w, j) {
      if j.subquery.Some? {
        forall name | Mentions(j.subquery.value, name) ensures TableRelation(v, name) == TableRelation(w, name) {
          assert Mentions(q, name);
        }
        EvalFrame(v, w, j.subquery.value);
      } else {
        assert Mentions(q, j.table);
      }
    }
    JoinRelationsFrame(v, w, q.joins);
    assert FromRows(v, q) == FromRows(w, q) && Header(v, q) == Header(w, q);
    BodyFrame(v, w, q, FromRows(w, q));
  }

  lemma BodyFrame(v: World, w: World, q: SelectQuery, envs: seq<Env>)
    requires AgreeOn(v, w, q)
    ensures Body(v, q, envs) == Body(w, q, envs)
  {
    forall env | env in envs ensures WhereHolds(v, q.predicates)(env) == WhereHolds(w, q.predicates)(env) {
      forall p | p in q.predicates ensures PredicateTruth(v, p, env) == PredicateTruth(w, p, env) {
        if p.Exists? { assert Mentions(q, p.table); }
      }
    }
    FilterSame(WhereHolds(v, q.predicates), WhereHolds(w, q.predicates), envs);
  }

  lemma {:induction false} JoinRelationsFrame(v: World, w: World, joins: seq<Join>)
    requires forall j :: j in joins ==> JoinRelation(v, j) == JoinRelation(w, j)
    ensures JoinRelations(v, joins) == JoinRelations(w, joins)
  {
    if joins != [] {
      JoinRelationsFrame(v, w, joins[1..]);
    }
  }

  // ----- scopes of plain CTEs

  datatype CteError =
    RecursiveWith | NotASelect | DuplicateName | CircularReference | NotPassThrough | NotOneTable | NestedWith

  datatype Scoped<+T> = Resolved(value: T) | Rejected(error: CteError)

  /** The bodies by name. A WITH clause nested in a body is not looked at. */
  function ScopeOf(ctes: seq<Cte>): Scoped<map<string, SelectQuery>> {
    if ctes == [] then Resolved(map[])
    else
      var last, before := ctes[|ctes| - 1], ScopeOf(ctes[..|ctes| - 1]);
      if before.Rejected? then before
      else if !last.body.Select? then Rejected(NotASelect)
      else if last.name in before.value then Rejected(DuplicateName)
      else Resolved(before.value[last.name := last.body.statement.outer])
  }

  /** The SELECT bodies by name, the first of each name; other CTEs are skipped. */
  function SelectBodies(ctes: seq<Cte>): map<string, SelectQuery> {
    if ctes == [] then map[]
    else
      var last, before := ctes[|ctes| - 1], SelectBodies(ctes[..|ctes| - 1]);
      if last.body.Select? && last.name !in before then before[last.name := last.body.statement.outer] else before
  }

  predicate DistinctNames(ctes: seq<Cte>) {
    forall i, j :: 0 <= i < j < |ctes| ==> ctes[i].name != ctes[j].name
  }

  predicate NoNestedWith(ctes: seq<Cte>) {
    forall c :: c in ctes && c.body.Select? ==> c.body.statement.ctes == []
  }

  /** No body mentions its own CTE or a later one. */
  ghost predicate DefinedBeforeUse(ctes: seq<Cte>) {
    forall i, j :: 0 <= i <= j < |ctes| && ctes[i].body.Select? ==>
      !Mentions(ctes[i].body.statement.outer, ctes[j].name)
  }

  predicate StandsFor(w: World, name: string, body: SelectQuery) {
    TableRelation(w, name) == Eval(w, body)
  }

  /** Every CTE name stands for what its body returns. */
  ghost predicate Consistent(w: World, scope: map<string, SelectQuery>) {
    forall n :: n in scope ==> StandsFor(w, n, scope[n])
  }

  predicate Defines(c: Cte, name: string, body: SelectQuery) {
    c.name == name && c.body.Select? && c.body.statement.outer == body
  }

  lemma {:induction false} BodyNames(ctes: seq<Cte>)
    ensures forall n :: n in SelectBodies(ctes) ==>
              exists i :: 0 <= i < |ctes| && Defines(ctes[i], n, SelectBodies(ctes)[n])
    decreases |ctes|
  {
    if ctes != [] {
      var before, last := ctes[..|ctes| - 1], ctes[|ctes| - 1];
      BodyNames(before);
      forall n | n in SelectBodies(ctes)
        ensures exists i :: 0 <= i < |ctes| && Defines(ctes[i], n, SelectBodies(ctes)[n])
      {
        if n in SelectBodies(before) {
          var i :| 0 <= i < |before| && Defines(before[i], n, SelectBodies(before)[n]);
          assert ctes[i] == before[i];
        } else {
          assert Defines(ctes[|ctes| - 1], n, SelectBodies(ctes)[n]);
        }
      }
    }
  }

  /** A WITH clause of plain SELECTs that is accepted has different names, each with its own body. */
  lemma {:induction false} ScopeIsBodies(ctes: seq<Cte>)
    requires ScopeOf(ctes).Resolved?
    ensures SelectBodies(ctes) == ScopeOf(ctes).value && DistinctNames(ctes)
    ensures forall i :: 0 <= i < |ctes| ==> ctes[i].name in ScopeOf(ctes).value
    decreases |ctes|
  {
    if ctes != [] {
      ScopeIsBodies(ctes[..|ctes| - 1]);
      forall i | 0 <= i < |ctes| - 1 ensures ctes[i].name in ScopeOf(ctes[..|ctes| - 1]).value {
        assert ctes[..|ctes| - 1][i] == ctes[i];
      }
      forall i, j | 0 <= i < j < |ctes| ensures ctes[i].name != ctes[j].name {
        if j < |ctes| - 1 {
          assert ctes[..|ctes| - 1][i] == ctes[i] && ctes[..|ctes| - 1][j] == ctes[j];
        }
      }
    }
  }

  lemma DefineUnmentioned(w: World, name: string, rel: Relation, q: SelectQuery)
    requires !Mentions(q, name)
    ensures Eval(Define(w, name, rel), q) == Eval(w, q)
  {
    EvalFrame(w, Define(w, name, rel), q);
  }

  lemma DefineStands(w: World, name: string, body: SelectQuery, n: string, q: SelectQuery)
    requires if n == name then q == body else StandsFor(w, n, q)
    requires !Mentions(q, name)
    ensures StandsFor(Define(w, name, Eval(w, body)), n, q)
  {
    hide Eval;
    DefineUnmentioned(w, name, Eval(w, body), q);
  }

  /** Defining a name that no body mentions leaves the others as they were. */
  lemma DefineKeepsOthers(w: World, scope: map<string, SelectQuery>, name: string, rel: Relation)
    requires Consistent(w, scope) && name !in scope && forall n :: n in scope ==> !Mentions(scope[n], name)
    ensures Consistent(Define(w, name, rel), scope)
  {
    hide Eval;
    forall n | n in scope ensures StandsFor(Define(w, name, rel), n, scope[n]) {
      assert StandsFor(w, n, scope[n]);
      DefineUnmentioned(w, name, rel, scope[n]);
    }
  }

  lemma DefineKeepsConsistent(w: World, scope: map<string, SelectQuery>, name: string, body: SelectQuery)
    requires Consistent(w, scope) && name !in scope && !Mentions(body, name)
    requires forall n :: n in scope ==> !Mentions(scope[n], name)
    ensures Consistent(Define(w, name, Eval(w, body)), scope[name := body])
  {
    var after := scope[name := body];
    forall n | n in after ensures StandsFor(Define(w, name, Eval(w, body)), n, after[n]) {
      DefineStands(w, name, body, n, after[n]);
    }
  }

  lemma BeforeLast(ctes: seq<Cte>)
    requires ctes != [] && DefinedBeforeUse(ctes) && NoNestedWith(ctes) && DistinctNames(ctes)
    ensures var before := ctes[..|ctes| - 1]; DefinedBeforeUse(before) && NoNestedWith(before) && DistinctNames(before)
  {
    var before := ctes[..|ctes| - 1];
    assert forall k :: 0 <= k < |before| ==> before[k] == ctes[k];
    assert forall c :: c in before ==> c in ctes;
  }

  lemma BodiesUnmentioned(ctes: seq<Cte>)
    requires ctes != [] && DefinedBeforeUse(ctes) && DistinctNames(ctes)
    ensures var before, last := SelectBodies(ctes[..|ctes| - 1]), ctes[|ctes| - 1];
            && (last.body.Select? ==> !Mentions(last.body.statement.outer, last.name))
            && last.name !in before && forall n :: n in before ==> !Mentions(before[n], last.name)
  {
    var before, last := ctes[..|ctes| - 1], ctes[|ctes| - 1];
    BodyNames(before);
    forall n | n in SelectBodies(before) ensures n != last.name && !Mentions(SelectBodies(before)[n], last.name) {
      var i :| 0 <= i < |before| && Defines(before[i], n, SelectBodies(before)[n]);
      assert before[i] == ctes[i];
    }
  }

  lemma PlainCte(w: World, c: Cte)
    requires c.body.Select? && c.body.statement.ctes == []
    ensures CteRelation(w, c) == Eval(w, c.body.statement.outer)
  {
    var s := c.body.statement;
    assert Bound(w, s.ctes) == w;
    assert BodyRelation(w, c.body) == Eval(Bound(w, s.ctes), s.outer);
  }

  /** Under sequential scoping, names used only after their definition are consistent with their bodies. */
  lemma {:induction false} BoundIsConsistent(w: World, ctes: seq<Cte>)
    requires DistinctNames(ctes) && NoNestedWith(ctes) && DefinedBeforeUse(ctes)
    ensures Consistent(Bound(w, ctes), SelectBodies(ctes))
    decreases |ctes|
  {
    if ctes != [] {
      var before, last := ctes[..|ctes| - 1], ctes[|ctes| - 1];
      BodiesUnmentioned(ctes);
      BeforeLast(ctes);
      BoundIsConsistent(w, before);
      if last.body.Select? {
        assert last in ctes;
        PlainCte(Bound(w, before), last);
        DefineKeepsConsistent(Bound(w, before), SelectBodies(before), last.name, last.body.statement.outer);
      } else {
        DefineKeepsOthers(Bound(w, before), SelectBodies(before), last.name, CteRelation(Bound(w, before), last));
      }
    }
  }

  lemma {:induction false} BoundEngine(w: World, ctes: seq<Cte>)
    ensures Bound(w, ctes).engine == w.engine
    decreases |ctes|
  {
    if ctes != [] {
      BoundEngine(w, ctes[..|ctes| - 1]);
    }
  }
}
