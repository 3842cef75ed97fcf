/** Splicing a proven fragment back keeps the meaning of the whole query. */
module Splicing {
  import opened Ir
  import opened Lists
  import opened Semantics
  import opened Pipeline
  import opened Constraints
  import opened Rewrites
  import opened Registry
  import opened TableRows
  import opened Statements
  import opened Ctes
  import opened CteSources
  import opened Fragments
  import opened FragmentSources
  import opened Bags
  import PairReduction
  import Distinct
  import Pushdown
  import JoinToExists
  import ExistsOrder
  import JoinElimination
  import Filters
  import AcceptedValuesCase
  import CountDistinctRule
  import GroupByUnique

  // ----- a proven suggestion keeps columns and rows

  lemma PlainColumnNames(w: World, q: SelectQuery, r: SelectQuery)
    requires Distinct.PlainColumns(q.projections) && Distinct.PlainColumns(r.projections)
    requires OutputNames(q.projections) == OutputNames(r.projections)
    ensures Eval(w, q).cols == Eval(w, r).cols
  {
    PlainNames(w.engine, q.projections, [Header(w, q)]);
    PlainNames(w.engine, r.projections, [Header(w, r)]);
  }

  lemma PushdownKeepsRelation(w: World, q: SelectQuery)
    requires Pushdown.SuggestPushdown(q).Proven() && Pushdown.PushdownLimits(q) && Unlimited(q) && OrderKept(q)
    ensures Eval(w, q) == Eval(w, Pushdown.SuggestPushdown(q).rewritten.value)
  {
    Pushdown.ProvenPushdown(q);
    PushedRelation(w, q, Pushdown.Pushed(q, q.subquery.value));
  }

  lemma PushedShape(q: SelectQuery, r: SelectQuery)
    requires Pushdown.PushdownShape(q) && r == Pushdown.Pushed(q, q.subquery.value)
    ensures Unlimited(r) && r.orderBy == [] && OutputNames(q.projections) == OutputNames(r.projections)
    ensures Distinct.PlainColumns(q.projections) && Distinct.PlainColumns(r.projections)
  {
  }

  lemma PushedRelation(w: World, q: SelectQuery, r: SelectQuery)
    requires Pushdown.PushdownShape(q) && Unlimited(q) && OrderKept(q) && r == Pushdown.Pushed(q, q.subquery.value)
    ensures Eval(w, q) == Eval(w, r)
  {
    hide Eval;
    hide Body;
    Pushdown.PushdownBody(w, q);
    PushedShape(q, r);
    UnlimitedRows(w, q);
    UnlimitedRows(w, r);
    PlainColumnNames(w, q, r);
  }

  /** No ORDER BY, here or in the derived table. */
  predicate OrderKept(q: SelectQuery) {
    q.orderBy == [] && (q.subquery.Some? ==> q.subquery.value.orderBy == [])
  }

  /** The rewrite returns the rows in the same order: EXISTS when ORDER BY leaves the joined table alone, pushdown,
      which loses ORDER BY, when there is none. */
  ghost predicate RelationKept(rule: RuleName, w: World, q: SelectQuery) {
    match rule
    case RewriteJoinDistinctToExists => |q.joins| == 1 && JoinElimination.OrderFree(w, q)
    case PredicatePushdown => OrderKept(q)
    case _ => true
  }

  /** Such a proven suggestion returns the very same relation: columns, rows and their order. */
  lemma SuggestionKeepsRelation(rule: RuleName, w: World, q: SelectQuery, catalog: Catalog)
    requires Meets(w, catalog) && WellFormed(w) && RuleLimits(rule, w, q, catalog) && RelationKept(rule, w, q)
    requires Suggest(rule, q, catalog).Proven()
    ensures Eval(w, q) == Eval(w, Suggest(rule, q, catalog).rewritten.value)
  {
    match rule
    case RemoveUnusedLeftJoin => JoinElimination.LeftJoinElimination(w, q, catalog);
    case RemoveForeignKeyInnerJoin => JoinElimination.ForeignKeyJoinElimination(w, q, catalog);
    case RewriteJoinDistinctToExists =>
      var key :| JoinToExists.MatchKey(q, catalog.Table(q.table.value).value, key);
      ExistsOrder.ExistsRelation(w, q, catalog, key);
    case RemoveRedundantNotNullFilter => Filters.FilterRemoval(w, rule, q, catalog);
    case RemoveRedundantAcceptedValuesFilter => Filters.FilterRemoval(w, rule, q, catalog);
    case SimplifyAcceptedValuesCase =>
      var i := ItemSuggested(rule, q, catalog);
      AcceptedValuesCase.CaseSimplification(w, q, catalog, i);
    case RemoveRedundantDistinct => Distinct.DistinctRemoval(w, q, catalog);
    case RemoveRedundantCountDistinct =>
      var i := ItemSuggested(rule, q, catalog);
      CountDistinctRule.CountDistinctRemoval(w, q, catalog, i);
    case CollapseUniqueGroupBy => GroupByUnique.GroupByCollapse(w, q, catalog);
    case PredicatePushdown => PushdownKeepsRelation(w, q);
  }

  lemma PushdownKeepsColumns(w: World, q: SelectQuery)
    requires Pushdown.SuggestPushdown(q).Proven() && Pushdown.PushdownLimits(q)
    ensures Eval(w, q).cols == Eval(w, Pushdown.SuggestPushdown(q).rewritten.value).cols
  {
    hide Eval;
    Pushdown.ProvenPushdown(q);
    PushedShape(q, Pushdown.Pushed(q, q.subquery.value));
    PlainColumnNames(w, q, Pushdown.Pushed(q, q.subquery.value));
  }

  lemma OtherRulesKeepColumns(rule: RuleName, w: World, q: SelectQuery, catalog: Catalog)
    requires !RelationKept(rule, w, q) && RuleLimits(rule, w, q, catalog) && Suggest(rule, q, catalog).Proven()
    ensures Eval(w, q).cols == Eval(w, Suggest(rule, q, catalog).rewritten.value).cols
  {
    hide Eval;
    if rule.PredicatePushdown? {
      PushdownKeepsColumns(w, q);
    } else {
      JoinToExists.ProvenExists(q);
      ExistsOrder.SameColumns(w, q);
    }
  }

  /** Every proven suggestion returns the same columns and the same bag of rows. */
  lemma SuggestionKeepsBag(rule: RuleName, w: World, q: SelectQuery, catalog: Catalog)
    requires Meets(w, catalog) && WellFormed(w) && RuleLimits(rule, w, q, catalog)
    requires Suggest(rule, q, catalog).Proven()
    ensures SameBag(Eval(w, q), Eval(w, Suggest(rule, q, catalog).rewritten.value))
  {
    hide Eval;
    hide RelationKept;
    SuggestionSound(rule, w, q, catalog);
    if RelationKept(rule, w, q) {
      SuggestionKeepsRelation(rule, w, q, catalog);
    } else {
      OtherRulesKeepColumns(rule, w, q, catalog);
    }
  }

  // ----- splicing one body into the WITH clause

  predicate PlainBodyAt(s: Statement, i: nat) {
    i < |s.ctes| && s.ctes[i].body.Select? && s.ctes[i].body.statement.ctes == []
  }

  lemma ReplacedAt(s: Statement, i: nat, r: SelectQuery)
    requires PlainBodyAt(s, i) && DistinctNames(s.ctes)
    ensures Replaced(s, CteAt(s.ctes[i].name), r) == Some(s.(ctes := s.ctes[i := Cte(s.ctes[i].name, PlainBody(r))]))
  {
    var found := FirstNamed(s.ctes, s.ctes[i].name);
    assert s.ctes[i] in s.ctes;
  }

  lemma PlainBodyMeans(w: World, name: string, q: SelectQuery)
    ensures CteRelation(w, Cte(name, PlainBody(q))) == Eval(w, q)
  {
    PlainCte(w, Cte(name, PlainBody(q)));
  }

  /** The WITH clause before and after splicing. */
  lemma SplicedBound(w: World, s: Statement, i: nat, r: SelectQuery, t: Statement)
    requires PlainBodyAt(s, i) && DistinctNames(s.ctes) && Replaced(s, CteAt(s.ctes[i].name), r) == Some(t)
    ensures var v := Bound(w, s.ctes[..i]);
            && Bound(w, s.ctes) == Bound(Define(v, s.ctes[i].name, Eval(v, s.ctes[i].body.statement.outer)),
              s.ctes[i + 1..])
            && Bound(w, t.ctes) == Bound(Define(v, s.ctes[i].name, Eval(v, r)), s.ctes[i + 1..])
            && t.outer == s.outer
  {
    hide Eval;
    ReplacedAt(s, i, r);
    assert t.ctes[..i] == s.ctes[..i] && t.ctes[i + 1..] == s.ctes[i + 1..];
    PairReduction.BoundAt(w, s.ctes, i);
    PairReduction.BoundAt(w, t.ctes, i);
    PlainCte(Bound(w, s.ctes[..i]), s.ctes[i]);
    PlainBodyMeans(Bound(w, s.ctes[..i]), s.ctes[i].name, r);
  }

  /** A CTE body replaced by one that returns the same relation, with any CTEs before and after it. */
  lemma SpliceSound(w: World, s: Statement, i: nat, r: SelectQuery, t: Statement)
    requires PlainBodyAt(s, i) && DistinctNames(s.ctes) && Replaced(s, CteAt(s.ctes[i].name), r) == Some(t)
    requires Eval(Bound(w, s.ctes[..i]), s.ctes[i].body.statement.outer) == Eval(Bound(w, s.ctes[..i]), r)
    ensures EvalStatement(w, t) == EvalStatement(w, s)
  {
    hide Eval;
    SplicedBound(w, s, i, r, t);
  }

  /** The same for a body that returns the same bag, when nothing after it can see row order. */
  lemma SpliceBag(steady: bool, w: World, s: Statement, i: nat, r: SelectQuery, t: Statement)
    requires PlainBodyAt(s, i) && DistinctNames(s.ctes) && Replaced(s, CteAt(s.ctes[i].name), r) == Some(t)
    requires BlindAfter(steady, s, i) && (steady ==> BagEngine(w.engine))
    requires SameBag(Eval(Bound(w, s.ctes[..i]), s.ctes[i].body.statement.outer), Eval(Bound(w, s.ctes[..i]), r))
    ensures SameBag(EvalStatement(w, s), EvalStatement(w, t))
  {
    hide Eval;
    var v := Bound(w, s.ctes[..i]);
    hide BagEngine;
    SplicedBound(w, s, i, r, t);
    BoundEngine(w, s.ctes[..i]);
    BlindTail(steady, v, s.ctes[i].name, Eval(v, s.ctes[i].body.statement.outer), Eval(v, r), s.ctes[i + 1..], s.outer);
  }

  // ----- suggestions for fragments

  ghost predicate MentionsNone(q: SelectQuery, ctes: seq<Cte>) {
    forall c :: c in ctes ==> !Mentions(q, c.name)
  }

  lemma {:induction false} BoundOutside(w: World, ctes: seq<Cte>, name: string)
    requires forall c :: c in ctes ==> c.name != name
    ensures TableRelation(Bound(w, ctes), name) == TableRelation(w, name)
    ensures Bound(w, ctes).engine == w.engine
    decreases |ctes|
  {
    if ctes != [] {
      BoundOutside(w, ctes[..|ctes| - 1], name);
      assert ctes[|ctes| - 1] in ctes;
    }
  }

  /** A query that mentions no CTE means the same inside and outside the WITH clause. */
  lemma BoundFrame(w: World, ctes: seq<Cte>, q: SelectQuery)
    requires MentionsNone(q, ctes)
    ensures Eval(Bound(w, ctes), q) == Eval(w, q)
  {
    BoundEngine(w, ctes);
    forall name | Mentions(q, name) ensures TableRelation(Bound(w, ctes), name) == TableRelation(w, name) {
      BoundOutside(w, ctes, name);
    }
    EvalFrame(Bound(w, ctes), w, q);
  }

  /** The statement behind a fragment: a CTE body, or the outer query at the end. */
  function BodyAt(s: Statement, i: nat): Statement
    requires i == |s.ctes| || PlainBodyAt(s, i)
  {
    if i == |s.ctes| then Statement(false, [], s.outer) else s.ctes[i].body.statement
  }

  predicate PlainWith(s: Statement) {
    DistinctNames(s.ctes) && NoNestedWith(s.ctes)
  }

  /** The fragment, resolved to base tables that no CTE before it hides, and a proven rewrite of it. */
  ghost predicate ProvenFragment(s: Statement, i: nat, rule: RuleName, q: SelectQuery, r: SelectQuery, catalog: Catalog)
    requires i == |s.ctes| || PlainBodyAt(s, i)
  {
    var before := s.ctes[..i];
    && ParseLimits(BodyAt(s, i), SelectBodies(before))
    && ParseFragment(BodyAt(s, i), SelectBodies(before)) == Resolved(q)
    && IsProven(rule, q, r, catalog) && MentionsNone(q, before) && MentionsNone(r, before)
  }

  predicate IsProven(rule: RuleName, q: SelectQuery, r: SelectQuery, catalog: Catalog) {
    Suggest(rule, q, catalog).Proven() && Suggest(rule, q, catalog).rewritten == Some(r)
  }

  ghost predicate Trusted(w: World, rule: RuleName, q: SelectQuery, catalog: Catalog) {
    Meets(w, catalog) && WellFormed(w) && RuleLimits(rule, w, q, catalog)
  }

  lemma PrefixPlain(s: Statement, i: nat)
    requires PlainWith(s) && DefinedBeforeUse(s.ctes) && i <= |s.ctes|
    ensures var before := s.ctes[..i]; DistinctNames(before) && NoNestedWith(before) && DefinedBeforeUse(before)
  {
    var before := s.ctes[..i];
    assert forall k :: 0 <= k < |before| ==> before[k] == s.ctes[k];
    assert forall c :: c in before ==> c in s.ctes;
  }

  /** Where the fragment stands, it means the parsed query on the base tables. */
  lemma FragmentOnTables(w: World, s: Statement, i: nat, q: SelectQuery)
    requires PlainWith(s) && DefinedBeforeUse(s.ctes) && (i == |s.ctes| || PlainBodyAt(s, i))
    requires var before := s.ctes[..i];
             && ParseLimits(BodyAt(s, i), SelectBodies(before))
             && ParseFragment(BodyAt(s, i), SelectBodies(before)) == Resolved(q) && MentionsNone(q, before)
    ensures Eval(Bound(w, s.ctes[..i]), BodyAt(s, i).outer) == Eval(w, q)
  {
    PrefixPlain(s, i);
    BoundIsConsistent(w, s.ctes[..i]);
    ParsedMeans(Bound(w, s.ctes[..i]), BodyAt(s, i), SelectBodies(s.ctes[..i]), q);
    BoundFrame(w, s.ctes[..i], q);
  }

  /** Rewriting one CTE body by a proven suggestion leaves the whole query's relation as it was. */
  lemma CteSuggestionSound(
    w: World, s: Statement, i: nat, rule: RuleName, q: SelectQuery, r: SelectQuery, t: Statement, catalog: Catalog)
    requires PlainWith(s) && DefinedBeforeUse(s.ctes) && PlainBodyAt(s, i)
    requires ProvenFragment(s, i, rule, q, r, catalog) && Trusted(w, rule, q, catalog) && RelationKept(rule, w, q)
    requires Replaced(s, CteAt(s.ctes[i].name), r) == Some(t)
    ensures EvalStatement(w, t) == EvalStatement(w, s)
  {
    hide Eval;
    hide Suggest;
    FragmentOnTables(w, s, i, q);
    BoundFrame(w, s.ctes[..i], r);
    SuggestionKeepsRelation(rule, w, q, catalog);
    SpliceSound(w, s, i, r, t);
  }

  /** With ORDER BY in the body, the bag of the whole query stays when nothing after the CTE can see row order. */
  lemma CteSuggestionBag(
    steady: bool, w: World, s: Statement, i: nat, rule: RuleName, q: SelectQuery, r: SelectQuery, t: Statement,
      catalog: Catalog)
    requires PlainWith(s) && DefinedBeforeUse(s.ctes) && PlainBodyAt(s, i)
    requires BlindAfter(steady, s, i) && (steady ==> BagEngine(w.engine))
    requires ProvenFragment(s, i, rule, q, r, catalog) && Trusted(w, rule, q, catalog)
    requires Replaced(s, CteAt(s.ctes[i].name), r) == Some(t)
    ensures SameBag(EvalStatement(w, s), EvalStatement(w, t))
  {
    hide Eval;
    hide Suggest;
    FragmentOnTables(w, s, i, q);
    BoundFrame(w, s.ctes[..i], r);
    SuggestionKeepsBag(rule, w, q, catalog);
    SpliceBag(steady, w, s, i, r, t);
  }

  /** Rewriting the outer query by a proven suggestion leaves the bag of rows as it was. */
  lemma OuterSuggestionSound(
    w: World, s: Statement, rule: RuleName, q: SelectQuery, r: SelectQuery, t: Statement, catalog: Catalog)
    requires PlainWith(s) && DefinedBeforeUse(s.ctes)
    requires ProvenFragment(s, |s.ctes|, rule, q, r, catalog) && Trusted(w, rule, q, catalog)
    requires Replaced(s, OuterAt, r) == Some(t)
    ensures multiset(EvalStatement(w, t).rows) == multiset(EvalStatement(w, s).rows)
  {
    hide Eval;
    hide Suggest;
    assert s.ctes[..|s.ctes|] == s.ctes;
    FragmentOnTables(w, s, |s.ctes|, q);
    BoundFrame(w, s.ctes, r);
    SuggestionSound(rule, w, q, catalog);
  }

  // ----- whatever is suggested for a subtree

  function LocationAt(s: Statement, i: nat): Location
    requires i <= |s.ctes|
  {
    if i == |s.ctes| then OuterAt else CteAt(s.ctes[i].name)
  }

  /** The place and the scope that a fragment was parsed at. */
  predicate ParsedAt(s: Statement, i: nat, f: QueryFragment) {
    && i <= |s.ctes| && (i < |s.ctes| ==> s.ctes[i].body.Select?) && f.location == LocationAt(s, i)
    && f.query == ParseFragment(
         if i == |s.ctes| then Statement(false, [], s.outer) else s.ctes[i].body.statement, SelectBodies(s.ctes[..i]))
  }

  lemma {:induction false} CteFragmentPlace(s: Statement, n: nat, f: QueryFragment)
    requires n <= |s.ctes| && f in CteFragments(s.ctes[..n])
    ensures exists i: nat :: i < n && ParsedAt(s, i, f)
    decreases n
  {
    var ctes := s.ctes[..n];
    assert ctes[..n - 1] == s.ctes[..n - 1] && ctes[n - 1] == s.ctes[n - 1];
    if f in CteFragments(ctes[..n - 1]) {
      CteFragmentPlace(s, n - 1, f);
    } else {
      assert ParsedAt(s, n - 1, f);
    }
  }

  lemma FragmentPlace(s: Statement, f: QueryFragment)
    requires f in AllFragments(s)
    ensures exists i: nat :: ParsedAt(s, i, f)
  {
    assert s.ctes[..|s.ctes|] == s.ctes;
    if f in CteFragments(s.ctes) {
      CteFragmentPlace(s, |s.ctes|, f);
      var i: nat :| i < |s.ctes| && ParsedAt(s, i, f);
    } else {
      assert ParsedAt(s, |s.ctes|, f);
    }
  }

  /** Nothing after the CTE can see row order on this engine. */
  ghost predicate BlindHere(w: World, s: Statement, i: nat)
    requires i < |s.ctes|
  {
    BlindAfter(false, s, i) || (BlindAfter(true, s, i) && BagEngine(w.engine))
  }

  /** What a suggestion takes for granted where it is spliced in. */
  ghost predicate SplicedWithin(w: World, s: Statement, i: nat, x: SubtreeSuggestion, catalog: Catalog)
    requires i == |s.ctes| || PlainBodyAt(s, i)
  {
    && ParseLimits(BodyAt(s, i), SelectBodies(s.ctes[..i])) && Trusted(w, x.rule, x.original, catalog)
    && MentionsNone(x.original, s.ctes[..i]) && MentionsNone(x.fragment, s.ctes[..i])
    && (i < |s.ctes| ==> RelationKept(x.rule, w, x.original) || BlindHere(w, s, i))
  }

  ghost predicate SubtreeLimits(w: World, s: Statement, x: SubtreeSuggestion, catalog: Catalog) {
    && PlainWith(s) && DefinedBeforeUse(s.ctes)
    && forall i :: 0 <= i <= |s.ctes| && (i == |s.ctes| || PlainBodyAt(s, i)) && LocationAt(s, i) == x.location ==>
         SplicedWithin(w, s, i, x, catalog)
  }

  lemma SplicedHere(w: World, s: Statement, i: nat, x: SubtreeSuggestion, catalog: Catalog)
    requires PlainWith(s) && DefinedBeforeUse(s.ctes) && (i == |s.ctes| || PlainBodyAt(s, i))
    requires ProvenFragment(s, i, x.rule, x.original, x.fragment, catalog) && Trusted(w, x.rule, x.original, catalog)
    requires i < |s.ctes| ==> RelationKept(x.rule, w, x.original) || BlindHere(w, s, i)
    requires Replaced(s, LocationAt(s, i), x.fragment) == Some(x.rewritten)
    ensures multiset(EvalStatement(w, x.rewritten).rows) == multiset(EvalStatement(w, s).rows)
  {
    hide Suggest;
    hide Eval;
    if i == |s.ctes| {
      OuterSuggestionSound(w, s, x.rule, x.original, x.fragment, x.rewritten, catalog);
    } else if RelationKept(x.rule, w, x.original) {
      CteSuggestionSound(w, s, i, x.rule, x.original, x.fragment, x.rewritten, catalog);
    } else {
      CteSuggestionBag(!BlindAfter(false, s, i), w, s, i, x.rule, x.original, x.fragment, x.rewritten, catalog);
    }
  }

  lemma OfferedHere(w: World, s: Statement, catalog: Catalog, rules: seq<RuleName>,
    x: SubtreeSuggestion) returns (i: nat)
    requires Offered(s, catalog, rules, AllFragments(s), x) && SubtreeLimits(w, s, x, catalog)
    ensures (i == |s.ctes| || PlainBodyAt(s, i)) && LocationAt(s, i) == x.location
    ensures ParsedAt(s, i, QueryFragment(x.location, Resolved(x.original)))
  {
    hide Suggest;
    hide Eval;
    var f := QueryFragment(x.location, Resolved(x.original));
    FragmentPlace(s, f);
    i :| ParsedAt(s, i, f);
    assert i < |s.ctes| ==> s.ctes[i] in s.ctes;
  }

  /** Every suggestion for a subtree of a WITH query leaves the bag of rows of the whole query as it was. */
  lemma SubtreeSuggestionSound(w: World, s: Statement, catalog: Catalog, rules: seq<RuleName>, x: SubtreeSuggestion)
    requires Offered(s, catalog, rules, AllFragments(s), x) && SubtreeLimits(w, s, x, catalog)
    ensures multiset(EvalStatement(w, x.rewritten).rows) == multiset(EvalStatement(w, s).rows)
  {
    hide Suggest;
    hide Eval;
    var i := OfferedHere(w, s, catalog, rules, x);
    assert SplicedWithin(w, s, i, x, catalog);
    SplicedHere(w, s, i, x, catalog);
  }
}
