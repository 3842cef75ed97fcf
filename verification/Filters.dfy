/** Removing WHERE predicates that the constraints make always true. */
module Filters {
  import opened Ir
  import opened Lists
  import opened Semantics
  import opened Constraints
  import opened Rewrites
  import opened TableRows

  predicate PrefixAccepted(c: ColName, alias: Option<string>, table: string) {
    c.table.Some? ==> ValidPrefix(c.table.value, alias, table)
  }

  predicate TrustedNotNull(p: WherePredicate, alias: Option<string>, table: string, t: TableConstraints) {
    p.Compare? && p.operator.IsNotNull? && PrefixAccepted(p.left, alias, table) && t.IsNonNull(p.left.name)
  }

  predicate RedundantIn(p: WherePredicate, alias: Option<string>, table: string, t: TableConstraints) {
    && p.InList? && !p.negated && PrefixAccepted(p.left, alias, table)
    && t.IsNonNull(p.left.name)
    && t.columns[p.left.name].acceptedValues != []
    && Spellings(t.columns[p.left.name].acceptedValues) == Spellings(p.values)
  }

  function Spellings(ls: seq<Literal>): set<Literal> {
    set v | v in ls
  }

  /** The predicates that a filter rule considers, and those it removes. */
  predicate Candidate(rule: RuleName, p: WherePredicate) {
    if rule.RemoveRedundantNotNullFilter? then p.Compare? && p.operator.IsNotNull? else p.InList? && !p.negated
  }

  predicate Redundant(rule: RuleName, q: SelectQuery, table: string, t: TableConstraints, p: WherePredicate) {
    if rule.RemoveRedundantNotNullFilter? then TrustedNotNull(p, q.tableAlias, table, t)
    else RedundantIn(p, q.tableAlias, table, t)
  }

  function StaysIn(rule: RuleName, q: SelectQuery, table: string, t: TableConstraints): WherePredicate -> bool {
    p => !Redundant(rule, q, table, t, p)
  }

  /** `apply`: every redundant predicate goes. */
  function SuggestFilter(rule: RuleName, q: SelectQuery, catalog: Catalog): Suggestion {
    var no := s => Suggestion(rule, s, None);
    if !exists p :: p in q.predicates && Candidate(rule, p) then no(NotApplicable)
    else if q.ReferencesCte() then no(Undecided)
    else if !q.IsDirectTable() || q.joins != [] then no(Unsupported)
    else
      var name := q.TableName();
      var t := if name.Some? then catalog.Table(name.value) else None;
      if t.None? then no(Undecided)
      else
        var kept := Filter(StaysIn(rule, q, name.value, t.value), q.predicates);
        if |kept| == |q.predicates| then no(NotApplicable)
        else Suggestion(rule, ProvenEquivalent, Some(q.(predicates := kept)))
  }

  function FilterContext(q: SelectQuery, catalog: Catalog): Option<TableConstraints> {
    if !q.IsDirectTable() || q.joins != [] || q.TableName().None? then None else catalog.Table(q.TableName().value)
  }

  predicate RedundantAt(rule: RuleName, q: SelectQuery, catalog: Catalog, i: nat) {
    && i < |q.predicates| && FilterContext(q, catalog).Some?
    && Redundant(rule, q, q.TableName().value, FilterContext(q, catalog).value, q.predicates[i])
  }

  function FilterMatches(rule: RuleName, q: SelectQuery, catalog: Catalog, from: nat): seq<Match>
    decreases |q.predicates| - from
  {
    if from >= |q.predicates| then []
    else (if RedundantAt(rule, q, catalog, from) then [Match(rule, PredicateTarget(from))] else [])
         + FilterMatches(rule, q, catalog, from + 1)
  }

  /** `apply_match`: one predicate goes. */
  function ApplyFilterMatch(rule: RuleName, q: SelectQuery, catalog: Catalog,
    m: Match): Result<Suggestion, MatchError> {
    if m.rule != rule || !m.target.PredicateTarget? || FilterContext(q, catalog).None? then Err(InvalidMatch)
    else if !RedundantAt(rule, q, catalog, m.target.index) then Err(NoLongerApplicable)
    else
      var i := m.target.index;
      Ok(Suggestion(rule, ProvenEquivalent, Some(q.(predicates := q.predicates[..i] + q.predicates[i + 1..]))))
  }

  // ----- soundness

  /** Qualifiers are the relation's own name: a table name holds no dot. */
  predicate PlainTableName(q: SelectQuery) {
    q.table.Some? ==> '.' !in q.table.value
  }

  lemma {:induction false} InListTrue(v: Value, items: seq<Value>)
    requires v.Val?
    ensures In3(v, items).True3? <==> v in items
  {
    if items != [] {
      InListTrue(v, items[1..]);
      assert items == [items[0]] + items[1..];
    }
  }

  lemma SameKeysSameValues(w: World, a: seq<Literal>, b: seq<Literal>, v: Value)
    requires forall x :: x in a ==> x in b
    requires v in LiteralValues(w.engine, a)
    ensures v in LiteralValues(w.engine, b)
  {
    var i :| 0 <= i < |a| && LiteralValues(w.engine, a)[i] == v;
    assert a[i] in b;
    var j :| 0 <= j < |b| && b[j] == a[i];
    assert LiteralValues(w.engine, b)[j] == v;
  }

  lemma RedundantHolds(w: World, rule: RuleName, q: SelectQuery, t: TableConstraints, p: WherePredicate)
    requires SingleTable(q) && PlainTableName(q) && TableMeets(w, RowsOf(w, q), t)
    requires Redundant(rule, q, q.table.value, t, p)
    ensures TrueOnEveryRow(w, q, p)
  {
    SingleTableRows(w, q);
    forall env | env in FromRows(w, q) ensures PredicateTruth(w, p, env).True3? {
      var i :| 0 <= i < |RowsOf(w, q)| && env == Bind(q.SourceName())(RowsOf(w, q)[i]);
      var r := RowsOf(w, q)[i];
      assert r in RowsOf(w, q) && NeverNull(RowsOf(w, q), p.left.name);
      ColumnOfRow(q, p.left, r);
      if p.InList? {
        var accepted := t.columns[p.left.name].acceptedValues;
        assert AcceptsOnly(w, RowsOf(w, q), p.left.name, accepted);
        forall x | x in accepted ensures x in p.values {
          assert x in Spellings(accepted);
        }
        SameKeysSameValues(w, accepted, p.values, Get(r, p.left.name));
        InListTrue(Get(r, p.left.name), LiteralValues(w.engine, p.values));
      }
    }
  }

  /** Removing all redundant IS NOT NULL (or accepted-values IN) predicates leaves the very same relation. */
  lemma FilterRemoval(w: World, rule: RuleName, q: SelectQuery, catalog: Catalog)
    requires Meets(w, catalog) && SuggestFilter(rule, q, catalog).Proven() && PlainTableName(q)
    ensures Eval(w, q) == Eval(w, SuggestFilter(rule, q, catalog).rewritten.value)
  {
    hide Eval;
    var t := catalog.Table(q.table.value).value;
    assert TableMeets(w, RowsOf(w, q), t);
    var kept := SuggestFilter(rule, q, catalog).rewritten.value.predicates;
    forall p | p in q.predicates ensures p in kept || TrueOnEveryRow(w, q, p) {
      if p !in kept {
        RedundantHolds(w, rule, q, t, p);
      }
    }
    DropTruePredicates(w, q, kept);
  }

  /** Removing one matched predicate leaves the very same relation. */
  lemma FilterMatchRemoval(w: World, rule: RuleName, q: SelectQuery, catalog: Catalog, m: Match)
    requires Meets(w, catalog) && ApplyFilterMatch(rule, q, catalog, m).Ok? && PlainTableName(q)
    ensures Eval(w, q) == Eval(w, ApplyFilterMatch(rule, q, catalog, m).value.rewritten.value)
  {
    var t, i := FilterContext(q, catalog).value, m.target.index;
    assert TableMeets(w, RowsOf(w, q), t);
    var kept := q.predicates[..i] + q.predicates[i + 1..];
    RedundantHolds(w, rule, q, t, q.predicates[i]);
    forall p | p in q.predicates ensures p in kept || p == q.predicates[i] {
      var k :| 0 <= k < |q.predicates| && q.predicates[k] == p;
      if k < i { assert kept[k] == p; } else if k > i { assert kept[k - 1] == p; }
    }
    DropTruePredicates(w, q, kept);
  }
}
