/** The code looks CTE names up in the whole WITH clause; in SQL a body sees only the CTEs before it. Decided over all
    databases for chains of SELECT *. */
module ForwardReferences {
  import opened Ir
  import opened Lists
  import opened Semantics
  import opened Pipeline
  import opened Statements
  import opened Ctes
  import opened CteSources
  import Splicing

  function SourceOf(c: Cte): string {
    if c.body.Select? then c.body.statement.outer.table.GetOr("") else ""
  }

  /** The table that a name means when the first `n` CTEs are in scope and pass on what they read. */
  function Behind(ctes: seq<Cte>, n: nat, name: string): string
    requires n <= |ctes|
  {
    if n == 0 then name
    else if ctes[n - 1].name == name then Behind(ctes, n - 1, SourceOf(ctes[n - 1]))
    else Behind(ctes, n - 1, name)
  }

  /** The CTE of that place, or a later one, has the name. */
  predicate DefinedFrom(ctes: seq<Cte>, i: nat, name: string) {
    exists k :: i <= k < |ctes| && ctes[k].name == name
  }

  /** No CTE followed from the name on reads a name that is defined at or after it. */
  predicate ReadsBackwards(ctes: seq<Cte>, n: nat, name: string)
    requires n <= |ctes|
  {
    n > 0 ==>
      if ctes[n - 1].name == name then
        !DefinedFrom(ctes, n - 1, SourceOf(ctes[n - 1])) && ReadsBackwards(ctes, n - 1, SourceOf(ctes[n - 1]))
      else ReadsBackwards(ctes, n - 1, name)
  }

  // ----- what SQL's scoping makes of the chain

  predicate StarCte(c: Cte) {
    && c.body.Select? && c.body.statement.ctes == [] && StarPassThrough(c.body.statement.outer)
    && Unlimited(c.body.statement.outer) && c.body.statement.outer.table.Some?
  }

  predicate StarsBehind(ctes: seq<Cte>, n: nat, name: string)
    requires n <= |ctes|
  {
    n > 0 ==>
      if ctes[n - 1].name == name then StarCte(ctes[n - 1]) && StarsBehind(ctes, n - 1, SourceOf(ctes[n - 1]))
      else StarsBehind(ctes, n - 1, name)
  }

  lemma StarCteMeans(w: World, c: Cte)
    requires StarCte(c)
    ensures CteRelation(w, c) == TableRelation(w, SourceOf(c))
  {
    PlainCte(w, c);
    StarSound(w, c.body.statement.outer);
  }

  /** Each name means the table behind it. */
  lemma {:induction false} BehindMeans(w: World, ctes: seq<Cte>, n: nat, name: string)
    requires n <= |ctes| && StarsBehind(ctes, n, name)
    ensures TableRelation(Bound(w, ctes[..n]), name) == TableRelation(w, Behind(ctes, n, name))
  {
    if n == 0 {
      assert Bound(w, ctes[..0]) == w;
    } else {
      var before, last := Bound(w, ctes[..n - 1]), ctes[n - 1];
      assert ctes[..n][..n - 1] == ctes[..n - 1] && ctes[..n][n - 1] == last;
      assert Bound(w, ctes[..n]) == Define(before, last.name, CteRelation(before, last));
      if last.name == name {
        StarCteMeans(before, last);
        BehindMeans(w, ctes, n - 1, SourceOf(last));
      } else {
        BehindMeans(w, ctes, n - 1, name);
      }
    }
  }

  // ----- what the code makes of it

  /** Plain SELECT CTEs of different names, and their bodies by name. */
  ghost predicate PlainCtes(ctes: seq<Cte>, scope: map<string, SelectQuery>) {
    && DistinctNames(ctes) && NoNestedWith(ctes) && (forall c :: c in ctes ==> c.body.Select?)
    && (forall i :: 0 <= i < |ctes| ==> ctes[i].name in scope && scope[ctes[i].name] == ctes[i].body.statement.outer)
    && forall name :: name in scope ==> DefinedFrom(ctes, 0, name)
  }

  lemma {:induction false} AllSelects(ctes: seq<Cte>)
    requires ScopeOf(ctes).Resolved?
    ensures forall c :: c in ctes ==> c.body.Select?
    decreases |ctes|
  {
    if ctes != [] {
      AllSelects(ctes[..|ctes| - 1]);
      assert ctes == ctes[..|ctes| - 1] + [ctes[|ctes| - 1]];
    }
  }

  lemma ScopeIsPlain(ctes: seq<Cte>)
    requires ScopeOf(ctes).Resolved? && NoNestedWith(ctes)
    ensures PlainCtes(ctes, ScopeOf(ctes).value)
  {
    AllSelects(ctes);
    ScopeIsBodies(ctes);
    BodyNames(ctes);
    forall i | 0 <= i < |ctes| ensures ScopeOf(ctes).value[ctes[i].name] == ctes[i].body.statement.outer {
      var j :| 0 <= j < |ctes| && Defines(ctes[j], ctes[i].name, ScopeOf(ctes).value[ctes[i].name]);
      assert i == j;
    }
  }

  /** The name is read through to a table by way of SELECT * only, or is that table. */
  predicate EndsAt(name: string, scope: map<string, SelectQuery>, seen: set<string>, base: string) {
    if name in scope then StarChain(name, scope, seen) && PassThrough(name, scope, seen) == Resolved(base)
    else name == base
  }

  lemma EndsNext(ctes: seq<Cte>, scope: map<string, SelectQuery>, i: nat, seen: set<string>, base: string)
    requires PlainCtes(ctes, scope) && i < |ctes| && EndsAt(ctes[i].name, scope, seen, base)
    ensures StarCte(ctes[i]) && EndsAt(SourceOf(ctes[i]), scope, seen + {ctes[i].name}, base)
  {
    var name := ctes[i].name;
    assert ctes[i] in ctes && ctes[i].body.statement.ctes == [];
    assert scope.Keys - (seen + {name}) == scope.Keys - seen - {name};
  }

  lemma {:induction false} StarsFollowed(ctes: seq<Cte>, scope: map<string, SelectQuery>, n: nat, name: string,
    seen: set<string>, base: string)
    requires PlainCtes(ctes, scope) && n <= |ctes| && EndsAt(name, scope, seen, base)
    ensures StarsBehind(ctes, n, name)
  {
    hide PlainCtes;
    hide EndsAt;
    if n > 0 {
      if ctes[n - 1].name == name {
        EndsNext(ctes, scope, n - 1, seen, base);
        StarsFollowed(ctes, scope, n - 1, SourceOf(ctes[n - 1]), seen + {name}, base);
      } else {
        StarsFollowed(ctes, scope, n - 1, name, seen, base);
      }
    }
  }

  /** Where nothing is read forwards, both find the same table. */
  lemma {:induction false} BackwardsAgree(ctes: seq<Cte>, scope: map<string, SelectQuery>, n: nat, name: string,
    seen: set<string>, base: string)
    requires PlainCtes(ctes, scope) && n <= |ctes| && EndsAt(name, scope, seen, base)
    requires !DefinedFrom(ctes, n, name) && ReadsBackwards(ctes, n, name)
    ensures Behind(ctes, n, name) == base
  {
    if n == 0 {
      assert name !in scope;
    } else if ctes[n - 1].name == name {
      EndsNext(ctes, scope, n - 1, seen, base);
      hide PlainCtes;
      hide EndsAt;
      BackwardsAgree(ctes, scope, n - 1, SourceOf(ctes[n - 1]), seen + {name}, base);
    } else {
      BackwardsAgree(ctes, scope, n - 1, name, seen, base);
    }
  }

  lemma {:induction false} NotDefinedBefore(ctes: seq<Cte>, n: nat, name: string)
    requires n <= |ctes| && forall k :: 0 <= k < n ==> ctes[k].name != name
    ensures Behind(ctes, n, name) == name
  {
    if n > 0 {
      NotDefinedBefore(ctes, n - 1, name);
    }
  }

  /** A name read forwards means a table that a later CTE hides. */
  lemma {:induction false} ForwardsHidden(ctes: seq<Cte>, n: nat, name: string)
    requires DistinctNames(ctes) && n <= |ctes| && !ReadsBackwards(ctes, n, name)
    ensures DefinedFrom(ctes, 0, Behind(ctes, n, name))
  {
    if ctes[n - 1].name != name {
      ForwardsHidden(ctes, n - 1, name);
    } else if DefinedFrom(ctes, n - 1, SourceOf(ctes[n - 1])) {
      NotDefinedBefore(ctes, n - 1, SourceOf(ctes[n - 1]));
    } else {
      ForwardsHidden(ctes, n - 1, SourceOf(ctes[n - 1]));
    }
  }

  lemma {:induction false} BaseOutside(ctes: map<string, SelectQuery>, name: string, seen: set<string>)
    requires name in ctes && PassThrough(name, ctes, seen).Resolved?
    ensures PassThrough(name, ctes, seen).value !in ctes
    decreases |ctes.Keys - seen|
  {
    if ctes[name].table.value in ctes {
      assert ctes.Keys - (seen + {name}) == ctes.Keys - seen - {name};
      BaseOutside(ctes, ctes[name].table.value, seen + {name});
    }
  }

  /** SQL and the code find the same table exactly when nothing is read forwards. */
  lemma SameTableExact(ctes: seq<Cte>, name: string)
    requires ScopeOf(ctes).Resolved? && NoNestedWith(ctes) && name in ScopeOf(ctes).value
    requires var scope := ScopeOf(ctes).value; StarChain(name, scope, {}) && PassThrough(name, scope, {}).Resolved?
    ensures var scope := ScopeOf(ctes).value;
            && StarsBehind(ctes, |ctes|, name) && PassThrough(name, scope, {}).value !in scope
            && (Behind(ctes, |ctes|, name) == PassThrough(name, scope, {}).value <==>
              ReadsBackwards(ctes, |ctes|, name))
  {
    var scope := ScopeOf(ctes).value;
    var base := PassThrough(name, scope, {}).value;
    ScopeIsPlain(ctes);
    BaseOutside(scope, name, {});
    StarsFollowed(ctes, scope, |ctes|, name, {}, base);
    if ReadsBackwards(ctes, |ctes|, name) {
      BackwardsAgree(ctes, scope, |ctes|, name, {}, base);
    } else {
      ForwardsHidden(ctes, |ctes|, name);
      var k :| 0 <= k < |ctes| && ctes[k].name == Behind(ctes, |ctes|, name);
      assert ctes[k].name in scope;
    }
  }

  // ----- decided over all databases

  /** One row in one table. */
  ghost function OneTable(name: string): World {
    PlainWorld(map[name := Relation([], [[]])])
  }

  lemma TablesFound(w: World, ctes: seq<Cte>, name: string, base: string)
    requires StarsBehind(ctes, |ctes|, name) && forall c :: c in ctes ==> c.name != base
    ensures TableRelation(Bound(w, ctes), name) == TableRelation(w, Behind(ctes, |ctes|, name))
    ensures TableRelation(Bound(w, ctes), base) == TableRelation(w, base)
  {
    assert ctes[..|ctes|] == ctes;
    BehindMeans(w, ctes, |ctes|, name);
    Splicing.BoundOutside(w, ctes, base);
  }

  lemma TablesTold(ctes: seq<Cte>, name: string, base: string)
    requires StarsBehind(ctes, |ctes|, name) && forall c :: c in ctes ==> c.name != base
    ensures (forall w: World :: TableRelation(Bound(w, ctes), name) == TableRelation(Bound(w, ctes), base))
       <==> Behind(ctes, |ctes|, name) == base
  {
    if Behind(ctes, |ctes|, name) == base {
      forall w: World ensures TableRelation(Bound(w, ctes), name) == TableRelation(Bound(w, ctes), base) {
        TablesFound(w, ctes, name, base);
      }
    } else {
      var w := OneTable(base);
      TablesFound(w, ctes, name, base);
      assert TableRelation(w, Behind(ctes, |ctes|, name)).rows == [] && TableRelation(w, base).rows == [[]];
    }
  }

  /** A CTE may be replaced by the table at the end of its chain on every database if and only if no CTE of the chain
      reads a name that is defined at or after it. */
  lemma ForwardExact(ctes: seq<Cte>, name: string)
    requires ScopeOf(ctes).Resolved? && NoNestedWith(ctes) && name in ScopeOf(ctes).value
    requires var scope := ScopeOf(ctes).value; StarChain(name, scope, {}) && PassThrough(name, scope, {}).Resolved?
    ensures var base := PassThrough(name, ScopeOf(ctes).value, {}).value;
            (forall w: World :: TableRelation(Bound(w, ctes), name) == TableRelation(Bound(w, ctes), base))
            <==> ReadsBackwards(ctes, |ctes|, name)
  {
    hide Bound;
    var base := PassThrough(name, ScopeOf(ctes).value, {}).value;
    SameTableExact(ctes, name);
    ScopeIsPlain(ctes);
    assert forall c :: c in ctes ==> c.name != base by {
      forall c | c in ctes ensures c.name in ScopeOf(ctes).value {
        var i :| 0 <= i < |ctes| && ctes[i] == c;
      }
    }
    TablesTold(ctes, name, base);
  }

  // ----- whole statements

  predicate StarRead(q: SelectQuery) {
    StarPassThrough(q) && Unlimited(q) && q.IsDirectTable()
  }

  /** A star chain resolves to SELECT * of the table at its end. */
  lemma {:induction false} StarsResolve(q: SelectQuery, scope: map<string, SelectQuery>, seen: set<string>,
    base: string)
    requires StarRead(q) && EndsAt(q.table.value, scope, seen, base) && base !in scope
    ensures Resolve(q, scope, seen).Resolved?
    ensures var r := Resolve(q, scope, seen).value; StarPassThrough(r) && Unlimited(r) && r.table == Some(base)
    decreases |scope.Keys - seen|
  {
    if q.table.value in scope {
      var name := q.table.value;
      assert scope.Keys - (seen + {name}) == scope.Keys - seen - {name};
      StarsResolve(scope[name], scope, seen + {name}, base);
    }
  }

  /** A statement that reads SELECT * along such a chain is resolved to a query that returns the same relation on every
      database if and only if no CTE of the chain reads forwards. */
  lemma ForwardDecided(s: Statement)
    requires ScopeOf(s.ctes).Resolved? && NoNestedWith(s.ctes) && StarRead(s.outer)
    requires s.outer.table.value in ScopeOf(s.ctes).value
    requires var name, scope := s.outer.table.value, ScopeOf(s.ctes).value;
             StarChain(name, scope, {}) && PassThrough(name, scope, {}).Resolved?
    ensures Resolve(s.outer, ScopeOf(s.ctes).value, {}).Resolved?
    ensures (forall w: World ::
              Eval(Bound(w, s.ctes), Resolve(s.outer, ScopeOf(s.ctes).value, {}).value) == EvalStatement(w, s))
       <==> ReadsBackwards(s.ctes, |s.ctes|, s.outer.table.value)
  {
    hide Eval;
    hide Bound;
    hide ScopeOf;
    hide ReadsBackwards;
    var name, scope := s.outer.table.value, ScopeOf(s.ctes).value;
    var base := PassThrough(name, scope, {}).value;
    SameTableExact(s.ctes, name);
    StarsResolve(s.outer, scope, {}, base);
    var r := Resolve(s.outer, scope, {}).value;
    forall w: World
      ensures Eval(Bound(w, s.ctes), r) == TableRelation(Bound(w, s.ctes), base)
      ensures EvalStatement(w, s) == TableRelation(Bound(w, s.ctes), name)
    {
      StarSound(Bound(w, s.ctes), r);
      StarSound(Bound(w, s.ctes), s.outer);
    }
    ForwardExact(s.ctes, name);
  }

  // ----- an input on which the code goes wrong

  function StarOf(table: string): SelectQuery {
    SelectQuery(Some(table), None, false, None, None, [], [Star(None)], [], [], [], [], [], None, None, false, "")
  }

  /** WITH a AS (SELECT * FROM b), b AS (SELECT * FROM c) SELECT * FROM a */
  function ReadsForward(a: string, b: string, c: string): Statement {
    var first, second := Statement(false, [], StarOf(b)), Statement(false, [], StarOf(c));
    Statement(false, [Cte(a, Select(first)), Cte(b, Select(second))], StarOf(a))
  }

  lemma ForwardScope(a: string, b: string, c: string)
    requires a != b && b != c && a != c
    ensures ScopeOf(ReadsForward(a, b, c).ctes) == Resolved(map[a := StarOf(b), b := StarOf(c)])
  {
    var ctes := ReadsForward(a, b, c).ctes;
    assert ctes[..1][..0] == [] && ScopeOf([]) == Resolved(map[]);
    assert ScopeOf(ctes[..1]) == Resolved(map[a := StarOf(b)]);
  }

  lemma ForwardResolved(a: string, b: string, c: string)
    requires a != b && b != c && a != c
    ensures Resolve(StarOf(a), map[a := StarOf(b), b := StarOf(c)], {}) == Resolved(StarOf(c))
  {
    var scope := map[a := StarOf(b), b := StarOf(c)];
    assert Resolve(StarOf(c), scope, {a, b}) == Resolved(StarOf(c));
    assert {a} + {b} == {a, b} && {} + {a} == {a};
    assert Resolve(StarOf(b), scope, {a}) == Resolved(StarOf(c));
  }

  /** `a` reads the table `b`, which is empty; the code has it read the CTE `b`, and with it the row of `c`. */
  lemma ForwardMisread(a: string, b: string, c: string)
    requires a != b && b != c && a != c
    ensures var s, w := ReadsForward(a, b, c), OneTable(c);
            && ScopeOf(s.ctes).Resolved? && Resolve(s.outer, ScopeOf(s.ctes).value, {}) == Resolved(StarOf(c))
            && Eval(Bound(w, s.ctes), StarOf(c)).rows == [[]] && EvalStatement(w, s).rows == []
  {
    hide Eval;
    hide Bound;
    hide ScopeOf;
    var s, w := ReadsForward(a, b, c), OneTable(c);
    ForwardScope(a, b, c);
    ForwardResolved(a, b, c);
    StarSound(Bound(w, s.ctes), StarOf(c));
    StarSound(Bound(w, s.ctes), s.outer);
    Splicing.BoundOutside(w, s.ctes, c);
    assert s.ctes[..2] == s.ctes;
    assert Behind(s.ctes, 0, b) == b && Behind(s.ctes, 1, a) == b && Behind(s.ctes, 2, a) == b;
    assert StarsBehind(s.ctes, 0, b) && StarsBehind(s.ctes, 1, a) && StarsBehind(s.ctes, 2, a);
    BehindMeans(w, s.ctes, 2, a);
    assert TableRelation(w, b).rows == [];
  }
}
