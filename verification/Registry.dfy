/** The rules together: whole-query suggestions, the list of single matches, and replaying one of them. */
module Registry {
  import opened Ir
  import opened Semantics
  import opened Pipeline
  import opened Constraints
  import opened Rewrites
  import opened TableRows
  import opened Distinct
  import JoinElimination
  import JoinToExists
  import ExistsOrder
  import Filters
  import AcceptedValuesCase
  import CountDistinctRule
  import GroupByUnique
  import Pushdown

  const DEFAULT_RULES: seq<RuleName> := [
    RemoveUnusedLeftJoin, RemoveForeignKeyInnerJoin, RewriteJoinDistinctToExists, RemoveRedundantNotNullFilter,
    RemoveRedundantAcceptedValuesFilter, SimplifyAcceptedValuesCase, RemoveRedundantDistinct,
    RemoveRedundantCountDistinct, CollapseUniqueGroupBy, PredicatePushdown]

  function Suggest(rule: RuleName, q: SelectQuery, catalog: Catalog): Suggestion {
    match rule
    case RemoveUnusedLeftJoin => JoinElimination.SuggestLeft(q, catalog)
    case RemoveForeignKeyInnerJoin => JoinElimination.SuggestForeignKey(q, catalog)
    case RewriteJoinDistinctToExists => JoinToExists.SuggestExists(q)
    case RemoveRedundantNotNullFilter => Filters.SuggestFilter(rule, q, catalog)
    case RemoveRedundantAcceptedValuesFilter => Filters.SuggestFilter(rule, q, catalog)
    case SimplifyAcceptedValuesCase => AcceptedValuesCase.SuggestCase(q, catalog)
    case RemoveRedundantDistinct => SuggestDistinct(q, catalog)
    case RemoveRedundantCountDistinct => CountDistinctRule.SuggestCountDistinct(q, catalog)
    case CollapseUniqueGroupBy => GroupByUnique.SuggestGroupBy(q, catalog)
    case PredicatePushdown => Pushdown.SuggestPushdown(q)
  }

  function SuggestAll(q: SelectQuery, catalog: Catalog, rules: seq<RuleName>): seq<Suggestion> {
    seq(|rules|, i requires 0 <= i < |rules| => Suggest(rules[i], q, catalog))
  }

  /** The target of a rule that matches a query at most once. */
  function OnlyTarget(rule: RuleName): Target {
    match rule
    case RemoveRedundantDistinct => DistinctTarget
    case CollapseUniqueGroupBy => GroupByTarget
    case PredicatePushdown => SubqueryTarget
    case _ => JoinTarget
  }

  predicate PerItem(rule: RuleName) {
    rule.SimplifyAcceptedValuesCase? || rule.RemoveRedundantCountDistinct?
  }

  predicate PerPredicate(rule: RuleName) {
    rule.RemoveRedundantNotNullFilter? || rule.RemoveRedundantAcceptedValuesFilter?
  }

  function SuggestItem(rule: RuleName, q: SelectQuery, catalog: Catalog, i: nat): Suggestion
    requires i < |q.projections| && PerItem(rule)
  {
    if rule.SimplifyAcceptedValuesCase? then AcceptedValuesCase.SuggestCaseAt(q, catalog, i)
    else CountDistinctRule.SuggestAt(q, catalog, i)
  }

  function ItemMatches(rule: RuleName, q: SelectQuery, catalog: Catalog, from: nat): seq<Match>
    requires PerItem(rule)
    decreases |q.projections| - from
  {
    if from >= |q.projections| then []
    else (if SuggestItem(rule, q, catalog, from).Proven() then [Match(rule, ProjectionTarget(from))] else [])
         + ItemMatches(rule, q, catalog, from + 1)
  }

  function Matches(rule: RuleName, q: SelectQuery, catalog: Catalog): seq<Match> {
    if PerItem(rule) then ItemMatches(rule, q, catalog, 0)
    else if PerPredicate(rule) then Filters.FilterMatches(rule, q, catalog, 0)
    else if Suggest(rule, q, catalog).Proven() then [Match(rule, OnlyTarget(rule))]
    else []
  }

  function AvailableMatches(q: SelectQuery, catalog: Catalog, rules: seq<RuleName>): seq<Match> {
    if rules == [] then [] else Matches(rules[0], q, catalog) + AvailableMatches(q, catalog, rules[1..])
  }

  function ApplyMatch(q: SelectQuery, catalog: Catalog, m: Match): Result<Suggestion, MatchError> {
    if PerPredicate(m.rule) then Filters.ApplyFilterMatch(m.rule, q, catalog, m)
    else if PerItem(m.rule) then
      if !m.target.ProjectionTarget? || m.target.index >= |q.projections| then Err(InvalidMatch)
      else if !SuggestItem(m.rule, q, catalog, m.target.index).Proven() then Err(NoLongerApplicable)
      else Ok(SuggestItem(m.rule, q, catalog, m.target.index))
    else if m.target != OnlyTarget(m.rule) then Err(InvalidMatch)
    else if !Suggest(m.rule, q, catalog).Proven() then Err(NoLongerApplicable)
    else Ok(Suggest(m.rule, q, catalog))
  }

  // ----- what is available can be applied

  lemma {:induction false} FilterMatchesApply(rule: RuleName, q: SelectQuery, catalog: Catalog, from: nat, m: Match)
    requires PerPredicate(rule)
    ensures m in Filters.FilterMatches(rule, q, catalog, from) ==> ApplyMatch(q, catalog, m).Ok?
    decreases |q.predicates| - from
  {
    if from < |q.predicates| {
      FilterMatchesApply(rule, q, catalog, from + 1, m);
    }
  }

  lemma {:induction false} ItemMatchesApply(rule: RuleName, q: SelectQuery, catalog: Catalog, from: nat, m: Match)
    requires PerItem(rule)
    ensures m in ItemMatches(rule, q, catalog, from) ==> ApplyMatch(q, catalog, m).Ok?
    decreases |q.projections| - from
  {
    if from < |q.projections| {
      ItemMatchesApply(rule, q, catalog, from + 1, m);
    }
  }

  /** Every available match can be applied to the query it was found on, and gives a proven rewrite. */
  lemma {:induction false} AvailableMatchesApply(q: SelectQuery, catalog: Catalog, rules: seq<RuleName>, m: Match)
    requires m in AvailableMatches(q, catalog, rules)
    ensures ApplyMatch(q, catalog, m).Ok? && ApplyMatch(q, catalog, m).value.Proven() && m.rule in rules
  {
    if m in Matches(rules[0], q, catalog) {
      if PerItem(rules[0]) {
        ItemMatchesApply(rules[0], q, catalog, 0, m);
        ItemMatchRule(rules[0], q, catalog, 0, m);
      } else if PerPredicate(rules[0]) {
        FilterMatchesApply(rules[0], q, catalog, 0, m);
        FilterMatchRule(rules[0], q, catalog, 0, m);
      }
    } else {
      AvailableMatchesApply(q, catalog, rules[1..], m);
    }
  }

  lemma {:induction false} ItemMatchRule(rule: RuleName, q: SelectQuery, catalog: Catalog, from: nat, m: Match)
    requires PerItem(rule) && m in ItemMatches(rule, q, catalog, from)
    ensures m.rule == rule
    decreases |q.projections| - from
  {
    if m in ItemMatches(rule, q, catalog, from + 1) {
      ItemMatchRule(rule, q, catalog, from + 1, m);
    }
  }

  lemma {:induction false} FilterMatchRule(rule: RuleName, q: SelectQuery, catalog: Catalog, from: nat, m: Match)
    requires m in Filters.FilterMatches(rule, q, catalog, from)
    ensures m.rule == rule
    decreases |q.predicates| - from
  {
    if m in Filters.FilterMatches(rule, q, catalog, from + 1) {
      FilterMatchRule(rule, q, catalog, from + 1, m);
    }
  }

  // ----- soundness of all rules together

  /** What each rule takes for granted without checking it. */
  ghost predicate RuleLimits(rule: RuleName, w: World, q: SelectQuery, catalog: Catalog) {
    match rule
    case RemoveUnusedLeftJoin => JoinElimination.LeftJoinLimits(w, q)
    case RemoveForeignKeyInnerJoin => JoinElimination.ForeignKeyLimits(w, q)
    case RewriteJoinDistinctToExists =>
      && JoinToExists.ExistsLimits(q) && (OrderSafe(q) || JoinElimination.OrderFree(w, q)) && q.table.Some?
      && catalog.Table(q.table.value).Some?
      && exists key :: JoinToExists.MatchKey(q, catalog.Table(q.table.value).value, key)
    case RemoveRedundantNotNullFilter => Filters.PlainTableName(q)
    case RemoveRedundantAcceptedValuesFilter => Filters.PlainTableName(q)
    case SimplifyAcceptedValuesCase =>
      forall i :: 0 <= i < |q.projections| ==> AcceptedValuesCase.CaseLimits(w, q, catalog, i)
    case RemoveRedundantDistinct => ItemsInScope(q)
    case RemoveRedundantCountDistinct => true
    case CollapseUniqueGroupBy => GroupByUnique.KeysInScope(q) && !q.OrdersByAggregate()
    case PredicatePushdown => Pushdown.PushdownLimits(q) && Unlimited(q)
  }

  lemma ItemSuggestionSound(rule: RuleName, w: World, q: SelectQuery, catalog: Catalog, i: nat)
    requires Meets(w, catalog) && WellFormed(w) && PerItem(rule) && RuleLimits(rule, w, q, catalog)
    requires i < |q.projections| && SuggestItem(rule, q, catalog, i).Proven()
    ensures Answer(w, q) == Answer(w, SuggestItem(rule, q, catalog, i).rewritten.value)
  {
    if rule.SimplifyAcceptedValuesCase? {
      AcceptedValuesCase.CaseSimplification(w, q, catalog, i);
    } else {
      CountDistinctRule.CountDistinctRemoval(w, q, catalog, i);
    }
  }

  /** The suggestion over all items is the suggestion for one of them. */
  lemma ItemSuggested(rule: RuleName, q: SelectQuery, catalog: Catalog) returns (i: nat)
    requires PerItem(rule) && Suggest(rule, q, catalog).Proven()
    ensures i < |q.projections| && Suggest(rule, q, catalog) == SuggestItem(rule, q, catalog, i)
  {
    if rule.SimplifyAcceptedValuesCase? {
      i :| 0 <= i < |q.projections| && AcceptedValuesCase.CaseAt(q, catalog)(i) == Suggest(rule, q, catalog);
    } else {
      i :| 0 <= i < |q.projections| && CountDistinctRule.At(q, catalog)(i) == Suggest(rule, q, catalog);
    }
  }

  lemma PushdownSound(w: World, q: SelectQuery)
    requires Pushdown.SuggestPushdown(q).Proven() && Pushdown.PushdownLimits(q) && Unlimited(q)
    ensures Answer(w, q) == Answer(w, Pushdown.SuggestPushdown(q).rewritten.value)
  {
    Pushdown.PushdownExact(w, q);
  }

  /** Every proven suggestion returns the same bag of rows on every database that meets the constraints. */
  lemma SuggestionSound(rule: RuleName, w: World, q: SelectQuery, catalog: Catalog)
    requires Meets(w, catalog) && WellFormed(w) && RuleLimits(rule, w, q, catalog)
    requires Suggest(rule, q, catalog).Proven()
    ensures Answer(w, q) == Answer(w, Suggest(rule, q, catalog).rewritten.value)
  {
    match rule
    case RemoveUnusedLeftJoin => JoinElimination.LeftJoinElimination(w, q, catalog);
    case RemoveForeignKeyInnerJoin => JoinElimination.ForeignKeyJoinElimination(w, q, catalog);
    case RewriteJoinDistinctToExists =>
      var key :| JoinToExists.MatchKey(q, catalog.Table(q.table.value).value, key);
      if OrderSafe(q) {
        JoinToExists.JoinToExistsWithKey(w, q, catalog, key);
      } else {
        ExistsOrder.ExistsRelation(w, q, catalog, key);
      }
    case RemoveRedundantNotNullFilter => Filters.FilterRemoval(w, rule, q, catalog);
    case RemoveRedundantAcceptedValuesFilter => Filters.FilterRemoval(w, rule, q, catalog);
    case SimplifyAcceptedValuesCase =>
      var i := ItemSuggested(rule, q, catalog);
      ItemSuggestionSound(rule, w, q, catalog, i);
    case RemoveRedundantDistinct => DistinctRemoval(w, q, catalog);
    case RemoveRedundantCountDistinct =>
      var i := ItemSuggested(rule, q, catalog);
      ItemSuggestionSound(rule, w, q, catalog, i);
    case CollapseUniqueGroupBy => GroupByUnique.GroupByCollapse(w, q, catalog);
    case PredicatePushdown => PushdownSound(w, q);
  }

  /** So does every replayed match. */
  lemma MatchSound(w: World, q: SelectQuery, catalog: Catalog, m: Match)
    requires Meets(w, catalog) && WellFormed(w) && RuleLimits(m.rule, w, q, catalog)
    requires ApplyMatch(q, catalog, m).Ok? && ApplyMatch(q, catalog, m).value.Proven()
    ensures Answer(w, q) == Answer(w, ApplyMatch(q, catalog, m).value.rewritten.value)
  {
    if PerPredicate(m.rule) {
      Filters.FilterMatchRemoval(w, m.rule, q, catalog, m);
    } else if PerItem(m.rule) {
      ItemSuggestionSound(m.rule, w, q, catalog, m.target.index);
    } else {
      SuggestionSound(m.rule, w, q, catalog);
    }
  }
}
