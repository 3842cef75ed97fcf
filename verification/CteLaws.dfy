/** What reading through CTEs gives: one step of a chain at a time, item by item. */
module CteLaws {
  import opened Ir
  import opened Lists
  import opened Statements
  import opened Ctes

  // ----- one list of items read through another

  /** The name under which an outer query can ask for the item. */
  predicate GivesName(p: Projection, name: string) {
    match p
    case Column(c, alias) => if alias.Some? then alias.value == name else c.name == name
    case Star(t) => t.Some? && name == "*"
    case Computed(_, alias) => alias == Some(name)
  }

  /** The item asks for a column of that name. */
  predicate AsksFor(p: Projection, name: string) {
    match p
    case Column(c, _) => c.name == name
    case Star(_) => name == "*"
    case Computed(_, _) => false
  }

  ghost predicate Answers(p: Projection, inner: Projection) {
    exists name :: AsksFor(p, name) && GivesName(inner, name)
  }

  /** The last inner item of the name that is asked for. */
  ghost predicate LastAnswer(p: Projection, inner: seq<Projection>, k: nat) {
    k < |inner| && Answers(p, inner[k]) && forall m :: k < m < |inner| ==> !Answers(p, inner[m])
  }

  /** The inner item, under the alias of the outer one if that has any. */
  predicate Renamed(p: Projection, inner: Projection, r: Projection) {
    if p.Column? && p.alias.Some? then
      match inner
      case Column(c, _) => r == Column(c, p.alias)
      case Star(_) => r == inner
      case Computed(e, _) => r == Computed(e, p.alias)
    else r == inner
  }

  /** What one outer item becomes: everything for a star, otherwise the item it asks for. */
  ghost predicate ItemReads(p: Projection, inner: seq<Projection>, part: seq<Projection>) {
    if p == Star(None) then part == inner
    else |part| == 1 && exists k: nat :: LastAnswer(p, inner, k) && Renamed(p, inner[k], part[0])
  }

  ghost predicate Found(p: Projection, inner: seq<Projection>) {
    p == Star(None) || exists i :: 0 <= i < |inner| && Answers(p, inner[i])
  }

  function Concat(parts: seq<seq<Projection>>): seq<Projection> {
    if parts == [] then [] else parts[0] + Concat(parts[1..])
  }

  lemma AnswersExact(p: Projection, inner: Projection)
    ensures Answers(p, inner) <==> ReferenceName(p).Some? && NameGiven(inner) == ReferenceName(p)
  {
    if ReferenceName(p).Some? && NameGiven(inner) == ReferenceName(p) {
      assert AsksFor(p, ReferenceName(p).value) && GivesName(inner, ReferenceName(p).value);
    }
  }

  lemma {:induction false} FindExact(p: Projection, inner: seq<Projection>)
    requires ReferenceName(p).Some?
    ensures var r := FindItem(inner, ReferenceName(p).value);
            && (r.Some? <==> exists i :: 0 <= i < |inner| && Answers(p, inner[i]))
            && (r.Some? ==> exists k: nat :: LastAnswer(p, inner, k) && inner[k] == r.value)
  {
    hide Answers;
    if inner != [] {
      var later, rest := FindItem(inner[1..], ReferenceName(p).value), inner[1..];
      FindExact(p, rest);
      AnswersExact(p, inner[0]);
      if later.Some? {
        var k: nat :| LastAnswer(p, rest, k) && rest[k] == later.value;
        assert inner[k + 1] == rest[k];
        LastLater(p, inner, k);
      } else {
        forall i | 1 <= i < |inner| ensures !Answers(p, inner[i]) {
          assert inner[i] == rest[i - 1];
        }
        if Answers(p, inner[0]) {
          assert LastAnswer(p, inner, 0);
        }
      }
    }
  }

  lemma LastLater(p: Projection, inner: seq<Projection>, k: nat)
    requires inner != [] && LastAnswer(p, inner[1..], k)
    ensures LastAnswer(p, inner, k + 1)
  {
    hide Answers;
    forall m | k + 1 < m < |inner| ensures !Answers(p, inner[m]) {
      assert inner[m] == inner[1..][m - 1];
    }
  }

  lemma ItemExact(p: Projection, inner: seq<Projection>)
    ensures var r := InlineItem(p, inner);
            (r.Some? <==> Found(p, inner)) && (r.Some? ==> ItemReads(p, inner, r.value))
  {
    hide LastAnswer;
    if p != Star(None) {
      if ReferenceName(p).Some? {
        FindExact(p, inner);
      } else {
        forall i | 0 <= i < |inner| ensures !Answers(p, inner[i]) {
          AnswersExact(p, inner[i]);
        }
      }
    }
  }

  lemma {:induction false} ItemsExact(ps: seq<Projection>, inner: seq<Projection>) returns (parts: seq<seq<Projection>>)
    ensures var r := InlineItems(ps, inner);
            && (r.Some? <==> forall p :: p in ps ==> Found(p, inner))
            && (r.Some? ==> |parts| == |ps| && r.value == Concat(parts)
                            && forall i :: 0 <= i < |ps| ==> ItemReads(ps[i], inner, parts[i]))
  {
    hide Found;
    hide ItemReads;
    parts := [];
    if ps != [] {
      ItemExact(ps[0], inner);
      var rest := ItemsExact(ps[1..], inner);
      assert forall p :: p in ps <==> p == ps[0] || p in ps[1..];
      if InlineItems(ps, inner).Some? {
        parts := [InlineItem(ps[0], inner).value] + rest;
        assert parts[1..] == rest;
      }
    }
  }

  // ----- one query read through another

  /** SELECT of items that all have a name, and no other clause but OFFSET. */
  ghost predicate NamedSelect(q: SelectQuery) {
    && q.joins == [] && q.predicates == [] && q.groupBy == [] && q.having == [] && q.qualify == [] && q.orderBy == []
    && q.limit.None? && !q.distinct && forall p :: p in q.projections ==> exists name :: GivesName(p, name)
  }

  /** The inner query with the items that the outer one asks for and its DISTINCT; the outer query itself when an item
      cannot be found or the inner query does more than select. */
  ghost predicate ReadsAs(outer: SelectQuery, inner: SelectQuery, r: SelectQuery) {
    if NamedSelect(inner) && forall p :: p in outer.projections ==> Found(p, inner.projections) then
      && r == inner.(projections := r.projections, distinct := outer.distinct)
      && exists parts :: |parts| == |outer.projections| && r.projections == Concat(parts)
           && forall i :: 0 <= i < |parts| ==> ItemReads(outer.projections[i], inner.projections, parts[i])
    else r == outer
  }

  lemma NamedExact(q: SelectQuery)
    ensures NamedSelect(q) <==> SimpleProjection(q)
  {
    forall p ensures (exists name :: GivesName(p, name)) <==> NameGiven(p).Some? {
      if NameGiven(p).Some? {
        assert GivesName(p, NameGiven(p).value);
      }
    }
  }

  lemma InlinedExact(outer: SelectQuery, inner: SelectQuery)
    ensures ReadsAs(outer, inner, Inlined(outer, inner))
  {
    hide Found;
    hide ItemReads;
    NamedExact(inner);
    var parts := ItemsExact(outer.projections, inner.projections);
  }

  // ----- one step of a chain

  /** A chain that is accepted with some names already read is accepted with fewer, to the same query. */
  lemma {:induction false} SeenLess(q: SelectQuery, ctes: map<string, SelectQuery>, seen: set<string>,
    less: set<string>)
    requires Resolve(q, ctes, seen).Resolved? && less <= seen
    ensures Resolve(q, ctes, less) == Resolve(q, ctes, seen)
    decreases |ctes.Keys - seen|
  {
    if ReadsCte(q, ctes) && PassesThrough(q) {
      var name := q.table.value;
      assert ctes.Keys - (seen + {name}) == ctes.Keys - seen - {name};
      SeenLess(ctes[name], ctes, seen + {name}, less + {name});
    }
  }

  /** SELECT *, or columns and stars only, without any other clause but OFFSET and, for columns, DISTINCT. */
  predicate SelectsOnly(q: SelectQuery) {
    && q.joins == [] && q.predicates == [] && q.groupBy == [] && q.having == [] && q.qualify == [] && q.orderBy == []
    && q.limit.None? && forall p :: p in q.projections ==> p.Column? || p.Star?
  }

  lemma PassesThroughExact(q: SelectQuery)
    ensures PassesThrough(q) <==> SelectsOnly(q)
  {
    if StarPassThrough(q) {
      assert forall p :: p in q.projections ==> p == Star(None);
    }
  }

  /** SELECT * of a CTE is what the CTE is, a list of columns of a CTE is read from what the CTE is, and everything else
      is left as it is. */
  lemma ResolveExact(q: SelectQuery, ctes: map<string, SelectQuery>)
    requires Resolve(q, ctes, {}).Resolved?
    ensures var r := Resolve(q, ctes, {}).value;
            if q.table.Some? && q.table.value in ctes && SelectsOnly(q) then
              var below := Resolve(ctes[q.table.value], ctes, {});
              && below.Resolved?
              && if q.projections == [Star(None)] && !q.distinct then r == below.value else ReadsAs(q, below.value, r)
            else r == q
  {
    hide ReadsAs;
    PassesThroughExact(q);
    if ReadsCte(q, ctes) && PassesThrough(q) {
      var name := q.table.value;
      SeenLess(ctes[name], ctes, {} + {name}, {});
      InlinedExact(q, Resolve(ctes[name], ctes, {}).value);
    }
  }

  // ----- which WITH clauses are accepted

  predicate GoodCte(ctes: seq<Cte>, i: nat)
    requires i < |ctes|
  {
    ctes[i].body.Select? && forall k :: 0 <= k < i ==> ctes[k].name != ctes[i].name
  }

  /** The first CTE that is no SELECT, or has the name of an earlier one, says why the clause is rejected. */
  predicate BadFirst(ctes: seq<Cte>, i: nat, e: CteError) {
    && i < |ctes| && !GoodCte(ctes, i) && (forall k :: 0 <= k < i ==> GoodCte(ctes, k))
    && e == if ctes[i].body.Select? then DuplicateName else NotASelect
  }

  predicate MapsBody(c: Cte, scope: map<string, SelectQuery>) {
    c.body.Select? && c.name in scope && scope[c.name] == c.body.statement.outer
  }

  /** The scope maps the name of each of the first `n` CTEs to its body, and no other name. */
  ghost predicate MapsBodies(ctes: seq<Cte>, n: nat, scope: map<string, SelectQuery>)
    requires n <= |ctes|
  {
    && (forall i :: 0 <= i < n ==> MapsBody(ctes[i], scope))
    && scope.Keys == set i | 0 <= i < n :: ctes[i].name
  }

  lemma MapsMore(ctes: seq<Cte>, n: nat, scope: map<string, SelectQuery>)
    requires n < |ctes| && MapsBodies(ctes, n, scope) && ctes[n].body.Select? && GoodCte(ctes, n)
    ensures ctes[n].name !in scope
    ensures MapsBodies(ctes, n + 1, scope[ctes[n].name := ctes[n].body.statement.outer])
  {
    var after := scope[ctes[n].name := ctes[n].body.statement.outer];
    forall i | 0 <= i < n ensures MapsBody(ctes[i], after) {
      assert MapsBody(ctes[i], scope) && ctes[i].name != ctes[n].name;
    }
    assert (set i | 0 <= i < n + 1 :: ctes[i].name) == (set i | 0 <= i < n :: ctes[i].name) + {ctes[n].name};
  }

  /** A WITH clause is accepted exactly when it has SELECTs under different names, and maps each name to its body. */
  lemma {:induction false} ScopeOfExact(ctes: seq<Cte>, n: nat)
    requires n <= |ctes|
    ensures var r := ScopeOf(ctes[..n]);
            && (r.Resolved? <==> forall i :: 0 <= i < n ==> GoodCte(ctes, i))
            && (r.Rejected? ==> exists i: nat :: i < n && BadFirst(ctes, i, r.error))
            && (r.Resolved? ==> MapsBodies(ctes, n, r.value))
    decreases n
  {
    if n == 0 {
      assert ctes[..0] == [];
    } else {
      hide MapsBodies;
      hide GoodCte;
      hide ScopeOf;
      var m := n - 1;
      ScopeOfExact(ctes, m);
      ScopeUnfold(ctes, m);
      var before := ScopeOf(ctes[..m]);
      if before.Resolved? {
        NotSelectBad(ctes, m);
        if ctes[m].body.Select? && GoodCte(ctes, m) {
          MapsMore(ctes, m, before.value);
        } else if ctes[m].body.Select? {
          NotNew(ctes, m, before.value);
          assert BadFirst(ctes, m, DuplicateName);
        } else {
          assert BadFirst(ctes, m, NotASelect);
        }
      }
    }
  }

  lemma ScopeUnfold(ctes: seq<Cte>, m: nat)
    requires m < |ctes|
    ensures var before, r := ScopeOf(ctes[..m]), ScopeOf(ctes[..m + 1]);
            && (before.Rejected? ==> r == before)
            && (before.Resolved? && !ctes[m].body.Select? ==> r == Rejected(NotASelect))
            && (before.Resolved? && ctes[m].body.Select? && ctes[m].name in before.value ==>
                  r == Rejected(DuplicateName))
            && (before.Resolved? && ctes[m].body.Select? && ctes[m].name !in before.value ==>
                  r == Resolved(before.value[ctes[m].name := ctes[m].body.statement.outer]))
  {
    assert ctes[..m + 1][..m] == ctes[..m] && ctes[..m + 1][m] == ctes[m];
  }

  lemma NotSelectBad(ctes: seq<Cte>, n: nat)
    requires n < |ctes|
    ensures !ctes[n].body.Select? ==> !GoodCte(ctes, n)
  {
  }

  lemma NotNew(ctes: seq<Cte>, n: nat, scope: map<string, SelectQuery>)
    requires n < |ctes| && MapsBodies(ctes, n, scope) && ctes[n].body.Select? && !GoodCte(ctes, n)
    ensures ctes[n].name in scope
  {
    var k :| 0 <= k < n && ctes[k].name == ctes[n].name;
    assert MapsBody(ctes[k], scope);
  }
}
