/** Nothing that a rule can do is missed: which matches are available, and what the verifier then proves. */
module Completeness {
  import opened Ir
  import opened Lists
  import opened Constraints
  import opened Rewrites
  import opened Registry
  import opened Applicability
  import Filters
  import AcceptedValuesCase
  import CountDistinctRule
  import Distinct
  import Verifier

  // ----- available matches

  /** Predicate `i` of the only table's filters is redundant. */
  predicate FilterOffered(rule: RuleName, q: SelectQuery, catalog: Catalog, i: nat) {
    && i < |q.predicates| && q.table.Some? && Reads(q, catalog, q.table.value)
    && IsRedundant(rule, q, q.table.value, catalog.tables[q.table.value], q.predicates[i])
  }

  /** What each rule can be applied to: the join, one predicate, one item, or the whole query. */
  ghost predicate Offered(rule: RuleName, q: SelectQuery, catalog: Catalog, target: Target) {
    match rule
    case RemoveUnusedLeftJoin => target.JoinTarget? && LeftJoinApplies(q, catalog)
    case RemoveForeignKeyInnerJoin => target.JoinTarget? && ForeignKeyApplies(q, catalog)
    case RewriteJoinDistinctToExists => target.JoinTarget? && ExistsApplies(q)
    case RemoveRedundantNotNullFilter => target.PredicateTarget? && FilterOffered(rule, q, catalog, target.index)
    case RemoveRedundantAcceptedValuesFilter => target.PredicateTarget? && FilterOffered(rule, q, catalog, target.index)
    case SimplifyAcceptedValuesCase => target.ProjectionTarget? && CaseApplies(q, catalog, target.index)
    case RemoveRedundantDistinct => target.DistinctTarget? && DistinctApplies(q, catalog)
    case RemoveRedundantCountDistinct => target.ProjectionTarget? && CountDistinctApplies(q, catalog, target.index)
    case CollapseUniqueGroupBy => target.GroupByTarget? && GroupByApplies(q, catalog)
    case PredicatePushdown => target.SubqueryTarget? && PushdownApplies(q)
  }

  lemma FilterOfferedExact(rule: RuleName, q: SelectQuery, catalog: Catalog, i: nat)
    ensures FilterOffered(rule, q, catalog, i) <==> Filters.RedundantAt(rule, q, catalog, i)
  {
    hide IsRedundant;
    hide Filters.Redundant;
    if i < |q.predicates| && q.table.Some? && Reads(q, catalog, q.table.value) {
      RedundantExact(rule, q, q.table.value, catalog.tables[q.table.value], q.predicates[i]);
    }
  }

  /** A rule for whole queries suggests a rewrite exactly when it is offered one. */
  lemma WholeExact(rule: RuleName, q: SelectQuery, catalog: Catalog)
    requires !PerItem(rule) && !PerPredicate(rule)
    ensures Suggest(rule, q, catalog).Proven() <==> Offered(rule, q, catalog, OnlyTarget(rule))
    ensures forall t :: Offered(rule, q, catalog, t) ==> t == OnlyTarget(rule)
  {
    hide LeftJoinApplies;
    hide ForeignKeyApplies;
    hide ExistsApplies;
    hide DistinctApplies;
    hide GroupByApplies;
    hide PushdownApplies;
    match rule
    case RemoveUnusedLeftJoin => LeftJoinExact(q, catalog);
    case RemoveForeignKeyInnerJoin => ForeignKeyExact(q, catalog);
    case RewriteJoinDistinctToExists => ExistsExact(q);
    case RemoveRedundantDistinct => DistinctExact(q, catalog);
    case CollapseUniqueGroupBy => GroupByExact(q, catalog);
    case PredicatePushdown => PushdownExact(q);
  }

  lemma ItemExact(rule: RuleName, q: SelectQuery, catalog: Catalog, i: nat)
    requires PerItem(rule)
    ensures Offered(rule, q, catalog, ProjectionTarget(i))
       <==> i < |q.projections| && SuggestItem(rule, q, catalog, i).Proven()
  {
    hide CaseApplies;
    hide CountDistinctApplies;
    if i < |q.projections| {
      CaseExact(q, catalog, i);
      CountDistinctExact(q, catalog, i);
    } else {
      NoItem(q, catalog, i);
    }
  }

  lemma NoItem(q: SelectQuery, catalog: Catalog, i: nat)
    requires i >= |q.projections|
    ensures !CaseApplies(q, catalog, i) && !CountDistinctApplies(q, catalog, i)
  {
  }

  lemma {:induction false} ItemMatchesExact(rule: RuleName, q: SelectQuery, catalog: Catalog, from: nat, m: Match)
    requires PerItem(rule)
    ensures m in ItemMatches(rule, q, catalog, from)
       <==> && m.rule == rule && m.target.ProjectionTarget? && from <= m.target.index
            && Offered(rule, q, catalog, m.target)
    decreases |q.projections| - from
  {
    hide SuggestItem;
    hide Offered;
    if m.target.ProjectionTarget? {
      ItemExact(rule, q, catalog, m.target.index);
    }
    if from < |q.projections| {
      ItemMatchesExact(rule, q, catalog, from + 1, m);
    }
  }

  lemma {:induction false} FilterMatchesExact(rule: RuleName, q: SelectQuery, catalog: Catalog, from: nat, m: Match)
    requires PerPredicate(rule)
    ensures m in Filters.FilterMatches(rule, q, catalog, from)
       <==> && m.rule == rule && m.target.PredicateTarget? && from <= m.target.index
            && FilterOffered(rule, q, catalog, m.target.index)
    decreases |q.predicates| - from
  {
    hide FilterOffered;
    hide Filters.RedundantAt;
    if m.target.PredicateTarget? {
      FilterOfferedExact(rule, q, catalog, m.target.index);
      RedundantInRange(rule, q, catalog, m.target.index);
    }
    if from < |q.predicates| {
      FilterMatchesExact(rule, q, catalog, from + 1, m);
    }
  }

  lemma RedundantInRange(rule: RuleName, q: SelectQuery, catalog: Catalog, i: nat)
    ensures Filters.RedundantAt(rule, q, catalog, i) ==> i < |q.predicates|
  {
  }

  lemma MatchesExact(rule: RuleName, q: SelectQuery, catalog: Catalog, m: Match)
    ensures m in Matches(rule, q, catalog) <==> m.rule == rule && Offered(rule, q, catalog, m.target)
  {
    hide Suggest;
    hide FilterOffered;
    if PerItem(rule) {
      ItemMatchesExact(rule, q, catalog, 0, m);
    } else if PerPredicate(rule) {
      FilterMatchesExact(rule, q, catalog, 0, m);
    } else {
      WholeExact(rule, q, catalog);
    }
  }

  /** The available matches are those that some listed rule is offered, no more and no fewer. */
  lemma {:induction false} AvailableExact(q: SelectQuery, catalog: Catalog, rules: seq<RuleName>, m: Match)
    ensures m in AvailableMatches(q, catalog, rules) <==> m.rule in rules && Offered(m.rule, q, catalog, m.target)
  {
    hide Matches;
    hide Offered;
    if rules != [] {
      AvailableExact(q, catalog, rules[1..], m);
      MatchesExact(rules[0], q, catalog, m);
      assert m.rule in rules <==> m.rule == rules[0] || m.rule in rules[1..];
    }
  }

  // ----- their order

  function Position(t: Target): nat {
    match t
    case PredicateTarget(i) => i
    case ProjectionTarget(i) => i
    case _ => 0
  }

  /** `a` stands before `b`: an earlier rule, or an earlier place in the query for the same rule. */
  predicate Before(rules: seq<RuleName>, a: Match, b: Match) {
    exists i, k :: 0 <= i <= k < |rules| && rules[i] == a.rule && rules[k] == b.rule
                   && (i == k ==> Position(a.target) < Position(b.target))
  }

  /** Matches of one rule at rising positions. */
  predicate Rising(rule: RuleName, from: nat, ms: seq<Match>) {
    && (forall x :: 0 <= x < |ms| ==> ms[x].rule == rule && Position(ms[x].target) >= from)
    && forall x, y :: 0 <= x < y < |ms| ==> Position(ms[x].target) < Position(ms[y].target)
  }

  lemma RisingStep(rule: RuleName, from: nat, first: seq<Match>, rest: seq<Match>)
    requires Rising(rule, from + 1, rest) && |first| <= 1
    requires first != [] ==> first[0].rule == rule && Position(first[0].target) == from
    ensures Rising(rule, from, first + rest)
  {
    var ms := first + rest;
    forall x | 0 <= x < |ms| ensures ms[x].rule == rule && Position(ms[x].target) >= from {
      assert ms[x] == if x < |first| then first[x] else rest[x - |first|];
    }
    forall x, y | 0 <= x < y < |ms| ensures Position(ms[x].target) < Position(ms[y].target) {
      assert ms[y] == rest[y - |first|];
      assert ms[x] == if x < |first| then first[x] else rest[x - |first|];
    }
  }

  lemma {:induction false} ItemsInOrder(rule: RuleName, q: SelectQuery, catalog: Catalog, from: nat)
    requires PerItem(rule)
    ensures Rising(rule, from, ItemMatches(rule, q, catalog, from))
    decreases |q.projections| - from
  {
    hide SuggestItem;
    hide Rising;
    if from < |q.projections| {
      ItemsInOrder(rule, q, catalog, from + 1);
      RisingStep(rule, from,
        if SuggestItem(rule, q, catalog, from).Proven() then [Match(rule, ProjectionTarget(from))] else [],
        ItemMatches(rule, q, catalog, from + 1));
    } else {
      NoneRising(rule, from);
    }
  }

  lemma {:induction false} FiltersInOrder(rule: RuleName, q: SelectQuery, catalog: Catalog, from: nat)
    ensures Rising(rule, from, Filters.FilterMatches(rule, q, catalog, from))
    decreases |q.predicates| - from
  {
    hide Filters.RedundantAt;
    hide Rising;
    if from < |q.predicates| {
      FiltersInOrder(rule, q, catalog, from + 1);
      RisingStep(rule, from,
        if Filters.RedundantAt(rule, q, catalog, from) then [Match(rule, PredicateTarget(from))] else [],
        Filters.FilterMatches(rule, q, catalog, from + 1));
    } else {
      NoneRising(rule, from);
    }
  }

  lemma NoneRising(rule: RuleName, from: nat)
    ensures Rising(rule, from, [])
  {
  }

  lemma RuleInOrder(rule: RuleName, q: SelectQuery, catalog: Catalog)
    ensures Rising(rule, 0, Matches(rule, q, catalog))
  {
    hide Suggest;
    if PerItem(rule) {
      ItemsInOrder(rule, q, catalog, 0);
    } else if PerPredicate(rule) {
      FiltersInOrder(rule, q, catalog, 0);
    } else {
      assert |Matches(rule, q, catalog)| <= 1;
      assert forall m :: m in Matches(rule, q, catalog) ==> m.rule == rule;
    }
  }

  ghost predicate InOrder(rules: seq<RuleName>, ms: seq<Match>) {
    && (forall x :: 0 <= x < |ms| ==> ms[x].rule in rules)
    && forall x, y :: 0 <= x < y < |ms| ==> Before(rules, ms[x], ms[y])
  }

  lemma RulesInOrder(rules: seq<RuleName>, first: seq<Match>, rest: seq<Match>)
    requires rules != [] && Rising(rules[0], 0, first) && InOrder(rules[1..], rest)
    ensures InOrder(rules, first + rest)
  {
    var ms := first + rest;
    forall x | 0 <= x < |ms| ensures ms[x].rule in rules {
      assert ms[x] == if x < |first| then first[x] else rest[x - |first|];
    }
    forall x, y | 0 <= x < y < |ms| ensures Before(rules, ms[x], ms[y]) {
      if y < |first| {
        assert ms[x] == first[x] && ms[y] == first[y];
        assert rules[0] == ms[x].rule && rules[0] == ms[y].rule;
      } else if x < |first| {
        assert ms[x] == first[x] && ms[y] == rest[y - |first|];
        assert rest[y - |first|].rule in rules[1..];
        var k :| 0 <= k < |rules[1..]| && rules[1..][k] == ms[y].rule;
        assert rules[0] == ms[x].rule && rules[k + 1] == ms[y].rule;
      } else {
        assert ms[x] == rest[x - |first|] && ms[y] == rest[y - |first|];
        assert Before(rules[1..], rest[x - |first|], rest[y - |first|]);
        BeforeLater(rules, ms[x], ms[y]);
      }
    }
  }

  lemma BeforeLater(rules: seq<RuleName>, a: Match, b: Match)
    requires rules != [] && Before(rules[1..], a, b)
    ensures Before(rules, a, b)
  {
    var i, k :| 0 <= i <= k < |rules[1..]| && rules[1..][i] == a.rule && rules[1..][k] == b.rule
                && (i == k ==> Position(a.target) < Position(b.target));
    assert rules[i + 1] == a.rule && rules[k + 1] == b.rule;
  }

  /** Matches come rule by rule in the order of the rules, and for one rule in the order of the query. */
  lemma {:induction false} AvailableInOrder(q: SelectQuery, catalog: Catalog, rules: seq<RuleName>)
    ensures InOrder(rules, AvailableMatches(q, catalog, rules))
  {
    hide Matches;
    if rules != [] {
      RuleInOrder(rules[0], q, catalog);
      AvailableInOrder(q, catalog, rules[1..]);
      RulesInOrder(rules, Matches(rules[0], q, catalog), AvailableMatches(q, catalog, rules[1..]));
    }
  }

  // ----- replaying

  /** A match can be replayed exactly when it is offered. One of a predicate drops that predicate; the others give what
      their rule suggests for the query or the item. */
  lemma ApplyExact(q: SelectQuery, catalog: Catalog, m: Match)
    ensures var r := ApplyMatch(q, catalog, m);
            && (r.Ok? <==> Offered(m.rule, q, catalog, m.target))
            && (r.Ok? ==> r.value.Proven())
            && (r.Ok? && PerItem(m.rule) ==>
                  m.target.index < |q.projections| && r.value == SuggestItem(m.rule, q, catalog, m.target.index))
            && (r.Ok? && PerPredicate(m.rule) ==>
                  && m.target.index < |q.predicates|
                  && r.value == Suggestion(m.rule, ProvenEquivalent,
                       Some(q.(predicates := q.predicates[..m.target.index] + q.predicates[m.target.index + 1..]))))
            && (r.Ok? && !PerItem(m.rule) && !PerPredicate(m.rule) ==> r.value == Suggest(m.rule, q, catalog))
  {
    hide Suggest;
    hide SuggestItem;
    hide FilterOffered;
    if PerPredicate(m.rule) {
      if m.target.PredicateTarget? {
        FilterOfferedExact(m.rule, q, catalog, m.target.index);
      }
    } else if PerItem(m.rule) {
      if m.target.ProjectionTarget? {
        ItemExact(m.rule, q, catalog, m.target.index);
      }
    } else {
      WholeExact(m.rule, q, catalog);
    }
  }

  /** The item that a rule over items is about: the first one it is offered. */
  ghost predicate FirstItem(rule: RuleName, q: SelectQuery, catalog: Catalog, i: nat) {
    && i < |q.projections| && Offered(rule, q, catalog, ProjectionTarget(i))
    && forall k: nat :: k < i ==> !Offered(rule, q, catalog, ProjectionTarget(k))
  }

  lemma {:induction false} FirstProvenIndex(suggest: nat -> Suggestion, n: nat, from: nat, blocker: Option<Suggestion>,
    otherwise: Suggestion) returns (i: nat)
    requires forall k: nat :: suggest(k).status.ProvenEquivalent? ==> suggest(k).Proven()
    requires !otherwise.Proven() && (blocker.Some? ==> !blocker.value.Proven())
    ensures var r := CountDistinctRule.FirstProven(suggest, n, from, blocker, otherwise);
            && (r.Proven() <==> i < n)
            && (i < n ==> from <= i && r == suggest(i) && suggest(i).Proven())
            && forall k: nat :: from <= k < i && k < n ==> !suggest(k).Proven()
    decreases n - from
  {
    if from >= n {
      i := if from > n then from else n;
    } else if suggest(from).status.ProvenEquivalent? {
      i := from;
    } else {
      i := FirstProvenIndex(suggest, n, from + 1,
        if blocker.None? && !suggest(from).status.NotApplicable? then Some(suggest(from)) else blocker, otherwise);
    }
  }

  /** A rule over items suggests a rewrite exactly when it is offered some item, and then for the first one. */
  lemma FirstItemExact(rule: RuleName, q: SelectQuery, catalog: Catalog)
    requires PerItem(rule)
    ensures Suggest(rule, q, catalog).Proven() <==> exists i: nat :: Offered(rule, q, catalog, ProjectionTarget(i))
    ensures Suggest(rule, q, catalog).Proven() ==>
              exists i: nat ::
                FirstItem(rule, q, catalog, i) && Suggest(rule, q, catalog) == SuggestItem(rule, q, catalog, i)
  {
    hide Offered;
    hide AcceptedValuesCase.SuggestCaseAt;
    hide CountDistinctRule.SuggestAt;
    forall k: nat
      ensures Offered(rule, q, catalog, ProjectionTarget(k))
         <==> k < |q.projections| && SuggestItem(rule, q, catalog, k).Proven()
    {
      ItemExact(rule, q, catalog, k);
    }
    var i: nat;
    if rule.SimplifyAcceptedValuesCase? {
      CasesProven(q, catalog);
      i := FirstProvenIndex(AcceptedValuesCase.CaseAt(q, catalog), |q.projections|, 0, None,
        AcceptedValuesCase.NoCase());
      assert forall k: nat :: k < |q.projections| ==>
        AcceptedValuesCase.CaseAt(q, catalog)(k) == SuggestItem(rule, q, catalog, k);
    } else {
      CountsProven(q, catalog);
      i := FirstProvenIndex(CountDistinctRule.At(q, catalog), |q.projections|, 0, None, CountDistinctRule.Nothing());
      assert forall k: nat :: k < |q.projections| ==>
        CountDistinctRule.At(q, catalog)(k) == SuggestItem(rule, q, catalog, k);
    }
    if i < |q.projections| {
      assert FirstItem(rule, q, catalog, i);
    }
  }

  lemma CaseRewrites(q: SelectQuery, catalog: Catalog, i: nat)
    requires i < |q.projections|
    ensures var s := AcceptedValuesCase.SuggestCaseAt(q, catalog, i); s.status.ProvenEquivalent? ==> s.Proven()
    ensures var s := CountDistinctRule.SuggestAt(q, catalog, i); s.status.ProvenEquivalent? ==> s.Proven()
  {
  }

  lemma CasesProven(q: SelectQuery, catalog: Catalog)
    ensures forall k: nat :: AcceptedValuesCase.CaseAt(q, catalog)(k).status.ProvenEquivalent? ==>
                               AcceptedValuesCase.CaseAt(q, catalog)(k).Proven()
  {
    forall k: nat
      ensures AcceptedValuesCase.CaseAt(q, catalog)(k).status.ProvenEquivalent? ==>
                AcceptedValuesCase.CaseAt(q, catalog)(k).Proven()
    {
      hide AcceptedValuesCase.SuggestCaseAt;
      if k < |q.projections| {
        assert AcceptedValuesCase.CaseAt(q, catalog)(k) == AcceptedValuesCase.SuggestCaseAt(q, catalog, k);
        CaseRewrites(q, catalog, k);
      } else {
        assert AcceptedValuesCase.CaseAt(q, catalog)(k) == AcceptedValuesCase.NoCase();
      }
    }
  }

  lemma CountsProven(q: SelectQuery, catalog: Catalog)
    ensures forall k: nat :: CountDistinctRule.At(q, catalog)(k).status.ProvenEquivalent? ==>
                               CountDistinctRule.At(q, catalog)(k).Proven()
  {
    forall k: nat
      ensures CountDistinctRule.At(q, catalog)(k).status.ProvenEquivalent? ==>
                CountDistinctRule.At(q, catalog)(k).Proven()
    {
      hide CountDistinctRule.SuggestAt;
      if k < |q.projections| {
        assert CountDistinctRule.At(q, catalog)(k) == CountDistinctRule.SuggestAt(q, catalog, k);
        CaseRewrites(q, catalog, k);
      } else {
        assert CountDistinctRule.At(q, catalog)(k) == CountDistinctRule.Nothing();
      }
    }
  }

  // ----- what the verifier proves

  /** Replaying some match of a default rule gives the rewritten query, up to its provenance text. */
  ghost predicate Replayable(q: SelectQuery, rewritten: SelectQuery, catalog: Catalog) {
    exists m: Match :: Offered(m.rule, q, catalog, m.target) && ReplaysTo(q, catalog, m, rewritten)
  }

  predicate ReplaysTo(q: SelectQuery, catalog: Catalog, m: Match, rewritten: SelectQuery) {
    var r := ApplyMatch(q, catalog, m);
    r.Ok? && r.value.rewritten.Some? && r.value.rewritten.value.(rawSql := rewritten.rawSql) == rewritten
  }

  /** Only DISTINCT is gone. */
  predicate DropsDistinct(q: SelectQuery, rewritten: SelectQuery) {
    q.distinct && rewritten == q.(distinct := false, rawSql := rewritten.rawSql)
  }

  /** The whole-query rules that are tried last. */
  predicate TriedWhole(rule: RuleName) {
    || rule.RemoveRedundantNotNullFilter? || rule.RemoveUnusedLeftJoin? || rule.RewriteJoinDistinctToExists?
    || rule.PredicatePushdown?
  }

  predicate SuggestsIt(rule: RuleName, q: SelectQuery, catalog: Catalog, rewritten: SelectQuery) {
    var s := Suggest(rule, q, catalog);
    s.Proven() && s.rewritten.value.(rawSql := rewritten.rawSql) == rewritten
  }

  ghost predicate RewrittenWhole(q: SelectQuery, rewritten: SelectQuery, catalog: Catalog) {
    exists rule :: TriedWhole(rule) && SuggestsIt(rule, q, catalog, rewritten)
  }

  /** The names that the items are known by. */
  function Names(q: SelectQuery): set<string> {
    set p | p in q.projections :: p.Name()
  }

  /** An ungrouped query whose FROM table is a base table; joins do not matter. */
  predicate PlainSource(q: SelectQuery) {
    q.groupBy == [] && q.having == [] && q.table.Some? && q.subquery.None? && !q.tableIsCte
  }

  predicate Keyed(q: SelectQuery, catalog: Catalog) {
    && q.table.Some? && q.table.value in catalog.tables
    && exists key :: key in catalog.tables[q.table.value].unique && forall c :: c in key ==> c in Names(q)
  }

  predicate KeyedNonNull(q: SelectQuery, catalog: Catalog) {
    q.table.Some? && q.table.value in catalog.tables && KeyAmong(catalog.tables[q.table.value], Names(q))
  }

  lemma SameExceptText(a: SelectQuery, b: SelectQuery)
    ensures SameNormalized(a, b) <==> a.(rawSql := b.rawSql) == b
  {
    if SameNormalized(a, b) {
      assert a.(rawSql := "").(rawSql := b.rawSql) == b.(rawSql := "").(rawSql := b.rawSql);
    }
    if a.(rawSql := b.rawSql) == b {
      assert a.(rawSql := b.rawSql).(rawSql := "") == b.(rawSql := "");
    }
  }

  lemma DropsDistinctExact(q: SelectQuery, rewritten: SelectQuery)
    ensures Verifier.IsDistinctRemoval(q, rewritten) <==> DropsDistinct(q, rewritten)
  {
    SameExceptText(q.(distinct := false), rewritten);
  }

  lemma ReplaysToExact(q: SelectQuery, catalog: Catalog, m: Match, rewritten: SelectQuery)
    ensures ReplaysTo(q, catalog, m, rewritten)
       <==> var s := ApplyMatch(q, catalog, m); s.Ok? && Verifier.IsRewriteTo(s.value, rewritten)
  {
    hide Offered;
    ApplyExact(q, catalog, m);
    var s := ApplyMatch(q, catalog, m);
    if s.Ok? {
      SameExceptText(s.value.rewritten.value, rewritten);
    }
  }

  lemma {:induction false} FirstReplayExact(q: SelectQuery, rewritten: SelectQuery, catalog: Catalog, ms: seq<Match>)
    ensures Verifier.FirstReplay(q, rewritten, catalog, ms).Some?
       <==> exists m :: m in ms && ReplaysTo(q, catalog, m, rewritten)
  {
    hide ApplyMatch;
    hide ReplaysTo;
    hide Verifier.IsRewriteTo;
    if ms != [] {
      ReplaysToExact(q, catalog, ms[0], rewritten);
      FirstReplayExact(q, rewritten, catalog, ms[1..]);
      assert forall m :: m in ms <==> m == ms[0] || m in ms[1..];
    }
  }

  lemma DefaultIsAll(rule: RuleName)
    ensures rule in DEFAULT_RULES
  {
    match rule
    case RemoveUnusedLeftJoin => assert DEFAULT_RULES[0] == rule;
    case RemoveForeignKeyInnerJoin => assert DEFAULT_RULES[1] == rule;
    case RewriteJoinDistinctToExists => assert DEFAULT_RULES[2] == rule;
    case RemoveRedundantNotNullFilter => assert DEFAULT_RULES[3] == rule;
    case RemoveRedundantAcceptedValuesFilter => assert DEFAULT_RULES[4] == rule;
    case SimplifyAcceptedValuesCase => assert DEFAULT_RULES[5] == rule;
    case RemoveRedundantDistinct => assert DEFAULT_RULES[6] == rule;
    case RemoveRedundantCountDistinct => assert DEFAULT_RULES[7] == rule;
    case CollapseUniqueGroupBy => assert DEFAULT_RULES[8] == rule;
    case PredicatePushdown => assert DEFAULT_RULES[9] == rule;
  }

  lemma ReplayableExact(q: SelectQuery, rewritten: SelectQuery, catalog: Catalog)
    ensures Replayable(q, rewritten, catalog)
       <==> Verifier.FirstReplay(q, rewritten, catalog, AvailableMatches(q, catalog, DEFAULT_RULES)).Some?
  {
    hide AvailableMatches;
    hide Offered;
    hide ReplaysTo;
    var ms := AvailableMatches(q, catalog, DEFAULT_RULES);
    FirstReplayExact(q, rewritten, catalog, ms);
    forall m: Match ensures m in ms <==> Offered(m.rule, q, catalog, m.target) {
      AvailableExact(q, catalog, DEFAULT_RULES, m);
      DefaultIsAll(m.rule);
    }
  }

  lemma {:induction false} FirstWholeExact(q: SelectQuery, rewritten: SelectQuery, catalog: Catalog,
    rules: seq<RuleName>)
    ensures Verifier.FirstWhole(q, rewritten, catalog, rules).Some?
       <==> exists rule :: rule in rules && SuggestsIt(rule, q, catalog, rewritten)
  {
    hide Suggest;
    if rules != [] {
      var s := Suggest(rules[0], q, catalog);
      if s.rewritten.Some? {
        SameExceptText(s.rewritten.value, rewritten);
      }
      assert Verifier.IsRewriteTo(s, rewritten) <==> SuggestsIt(rules[0], q, catalog, rewritten);
      FirstWholeExact(q, rewritten, catalog, rules[1..]);
      assert forall r :: r in rules <==> r == rules[0] || r in rules[1..];
    }
  }

  lemma WholeRulesExact(q: SelectQuery, rewritten: SelectQuery, catalog: Catalog)
    ensures RewrittenWhole(q, rewritten, catalog)
       <==> Verifier.FirstWhole(q, rewritten, catalog, Verifier.WHOLE_RULES).Some?
  {
    hide SuggestsIt;
    FirstWholeExact(q, rewritten, catalog, Verifier.WHOLE_RULES);
    forall rule ensures rule in Verifier.WHOLE_RULES <==> TriedWhole(rule) {
      assert Verifier.WHOLE_RULES[0].RemoveRedundantNotNullFilter? && Verifier.WHOLE_RULES[1].RemoveUnusedLeftJoin?;
      assert Verifier.WHOLE_RULES[2].RewriteJoinDistinctToExists? && Verifier.WHOLE_RULES[3].PredicatePushdown?;
    }
  }

  /** The verdict of the DISTINCT check, by the keys among the item names. */
  lemma DistinctCheckExact(q: SelectQuery, catalog: Catalog)
    ensures var s := Verifier.CheckDistinctRemoval(q, catalog).status;
            && (s.ProvenEquivalent? <==> PlainSource(q) && !q.HasAggregate() && KeyedNonNull(q, catalog))
            && (s.NotEquivalent? <==> PlainSource(q) && !q.HasAggregate() && !Keyed(q, catalog))
            && (s.Unsupported? <==>
                  q.groupBy == [] && q.having == [] && (q.table.None? || q.subquery.Some? || q.tableIsCte))
            && !s.NotApplicable?
  {
    var names := Distinct.ItemNames(q.projections);
    forall c ensures c in names <==> c in Names(q) {
      if c in names {
        var i :| 0 <= i < |names| && names[i] == c;
        assert q.projections[i] in q.projections;
      }
      if c in Names(q) {
        var p :| p in q.projections && p.Name() == c;
        var i :| 0 <= i < |q.projections| && q.projections[i] == p;
        assert names[i] == c;
      }
    }
    if q.table.Some? && q.table.value in catalog.tables {
      var t := catalog.tables[q.table.value];
      KeyAmongExact(t, names, Names(q));
      KeyedExact(t, names, Names(q));
    }
  }

  lemma KeyedExact(t: TableConstraints, names: seq<string>, columns: set<string>)
    requires forall c :: c in names <==> c in columns
    ensures (exists key :: key in t.unique && forall c :: c in key ==> c in columns)
       <==> t.UniqueKeyContainedIn(names).Some?
  {
    var key := t.UniqueKeyContainedIn(names);
    if key.Some? {
      assert key.value in t.unique && forall c :: c in key.value ==> c in columns;
    }
  }

  /** The verdict on every pair: proven for the same query, for the replay of an offered match, for the removal of a
      DISTINCT over a key by name, and for the suggestion of a whole-query rule; refuted only for the removal of a
      DISTINCT over no key. */
  lemma CheckDecided(q: SelectQuery, rewritten: SelectQuery, catalog: Catalog)
    ensures var s := Verifier.CheckEquivalence(q, rewritten, catalog).status;
            var apart := q != rewritten && !Replayable(q, rewritten, catalog);
            && (s.ProvenEquivalent? <==>
                  || !apart
                  || (DropsDistinct(q, rewritten) && PlainSource(q) && !q.HasAggregate() && KeyedNonNull(q, catalog))
                  || (!DropsDistinct(q, rewritten) && RewrittenWhole(q, rewritten, catalog)))
            && (s.NotEquivalent? <==>
                  apart && DropsDistinct(q, rewritten) && PlainSource(q) && !q.HasAggregate() && !Keyed(q, catalog))
            && (s.Unsupported? <==>
                  && apart && DropsDistinct(q, rewritten) && q.groupBy == [] && q.having == []
                  && (q.table.None? || q.subquery.Some? || q.tableIsCte))
            && !s.NotApplicable?
  {
    hide Replayable;
    hide RewrittenWhole;
    hide AvailableMatches;
    hide Verifier.CheckDistinctRemoval;
    hide Verifier.FirstWhole;
    hide Verifier.FirstReplay;
    hide Keyed;
    hide KeyedNonNull;
    hide PlainSource;
    hide DropsDistinct;
    hide Verifier.IsDistinctRemoval;
    ReplayableExact(q, rewritten, catalog);
    DropsDistinctExact(q, rewritten);
    DistinctCheckExact(q, catalog);
    WholeRulesExact(q, rewritten, catalog);
  }

  // ----- the verifier and the rules' own suggestions

  /** The verifier proves what a rule suggests, under any text, when the rule matches a query at most once or suggests
      the rewrite of a single item. */
  lemma SuggestionVerifies(rule: RuleName, q: SelectQuery, catalog: Catalog, text: string)
    requires Suggest(rule, q, catalog).Proven() && !PerPredicate(rule)
    ensures Verifier.CheckEquivalence(q, Suggest(rule, q, catalog).rewritten.value.(rawSql := text), catalog)
              .status.ProvenEquivalent?
  {
    hide Verifier.CheckEquivalence;
    hide Suggest;
    hide SuggestItem;
    hide AvailableMatches;
    hide Offered;
    var m := Match(rule, OnlyTarget(rule));
    if PerItem(rule) {
      FirstItemExact(rule, q, catalog);
      var i: nat :| FirstItem(rule, q, catalog, i)
                    && Suggest(rule, q, catalog) == SuggestItem(rule, q, catalog, i);
      m := Match(rule, ProjectionTarget(i));
    } else {
      WholeExact(rule, q, catalog);
    }
    AvailableExact(q, catalog, DEFAULT_RULES, m);
    DefaultIsAll(rule);
    ApplyExact(q, catalog, m);
    Verifier.AvailableMatchVerifies(q, catalog, m, text);
  }

  lemma DropStep<T>(s: seq<T>, k: nat)
    requires k + 1 < |s|
    ensures [s[0]] + (s[1..][..k] + s[1..][k + 1..]) == s[..k + 1] + s[k + 2..]
  {
    assert s[..k + 1] == [s[0]] + s[1..][..k];
    assert s[k + 2..] == s[1..][k + 1..];
  }

  lemma {:induction false} OneDropped<T(!new)>(f: T -> bool, s: seq<T>) returns (i: nat)
    requires |Filter(f, s)| == |s| - 1
    ensures i < |s| && !f(s[i]) && Filter(f, s) == s[..i] + s[i + 1..]
  {
    if f(s[0]) {
      var rest := s[1..];
      var k := OneDropped(f, rest);
      i := k + 1;
      DropStep(s, k);
    } else {
      i := 0;
      AllKept(f, s[1..]);
    }
  }

  lemma {:induction false} AllKept<T(!new)>(f: T -> bool, s: seq<T>)
    requires |Filter(f, s)| == |s|
    ensures Filter(f, s) == s
  {
    if s != [] {
      AllKept(f, s[1..]);
    }
  }

  /** Replaying a match of any other kind than a filter's keeps the predicates of a query over one table. */
  lemma ReplayKeepsPredicates(q: SelectQuery, catalog: Catalog, m: Match)
    requires q.table.Some? && Reads(q, catalog, q.table.value) && Offered(m.rule, q, catalog, m.target)
    requires !PerPredicate(m.rule)
    ensures var r := ApplyMatch(q, catalog, m);
            r.Ok? && r.value.Proven() && r.value.rewritten.value.predicates == q.predicates
  {
    hide LeftJoinApplies;
    hide ForeignKeyApplies;
    hide ExistsApplies;
    hide PushdownApplies;
    hide CaseApplies;
    hide CountDistinctApplies;
    hide DistinctApplies;
    hide GroupByApplies;
    ApplyExact(q, catalog, m);
    JoinsNeeded(q, catalog);
    match m.rule
    case RemoveUnusedLeftJoin =>
    case RemoveForeignKeyInnerJoin =>
    case RewriteJoinDistinctToExists =>
    case PredicatePushdown =>
    case SimplifyAcceptedValuesCase => KeptByCase(q, catalog, m.target.index);
    case RemoveRedundantCountDistinct => CountDistinctExact(q, catalog, m.target.index);
    case RemoveRedundantDistinct => DistinctExact(q, catalog);
    case CollapseUniqueGroupBy => GroupByExact(q, catalog);
  }

  lemma KeptByCase(q: SelectQuery, catalog: Catalog, i: nat)
    requires i < |q.projections| && AcceptedValuesCase.SuggestCaseAt(q, catalog, i).Proven()
    ensures AcceptedValuesCase.SuggestCaseAt(q, catalog, i).rewritten.value.predicates == q.predicates
  {
  }

  lemma JoinsNeeded(q: SelectQuery, catalog: Catalog)
    requires q.table.Some? && Reads(q, catalog, q.table.value)
    ensures !LeftJoinApplies(q, catalog) && !ForeignKeyApplies(q, catalog) && !ExistsApplies(q) && !PushdownApplies(q)
  {
  }

  /** A rewrite that lacks two predicates or more of a query over one table is no replay. */
  lemma TwoDroppedNotReplayed(q: SelectQuery, catalog: Catalog, rewritten: SelectQuery)
    requires q.table.Some? && Reads(q, catalog, q.table.value) && |rewritten.predicates| + 2 <= |q.predicates|
    ensures !Replayable(q, rewritten, catalog)
  {
    hide Offered;
    hide Suggest;
    hide SuggestItem;
    if Replayable(q, rewritten, catalog) {
      var m: Match :| Offered(m.rule, q, catalog, m.target) && ReplaysTo(q, catalog, m, rewritten);
      ApplyExact(q, catalog, m);
      if !PerPredicate(m.rule) {
        ReplayKeepsPredicates(q, catalog, m);
      }
      assert false;
    }
  }

  /** The rules that are tried last do not drop an IN predicate of a query over one table. */
  lemma InListKeptWhole(q: SelectQuery, catalog: Catalog, rewritten: SelectQuery, p: WherePredicate)
    requires q.table.Some? && Reads(q, catalog, q.table.value)
    requires p in q.predicates && p.InList? && p !in rewritten.predicates
    ensures !RewrittenWhole(q, rewritten, catalog)
  {
    hide LeftJoinApplies;
    hide ExistsApplies;
    hide PushdownApplies;
    hide Suggest;
    if RewrittenWhole(q, rewritten, catalog) {
      var rule :| TriedWhole(rule) && SuggestsIt(rule, q, catalog, rewritten);
      if rule.RemoveRedundantNotNullFilter? {
        NotNullKeeps(q, catalog, p);
      } else {
        JoinsNeeded(q, catalog);
        WholeExact(rule, q, catalog);
      }
      assert false;
    }
  }

  lemma NotNullKeeps(q: SelectQuery, catalog: Catalog, p: WherePredicate)
    requires Suggest(RemoveRedundantNotNullFilter, q, catalog).Proven() && p in q.predicates && p.InList?
    ensures p in Suggest(RemoveRedundantNotNullFilter, q, catalog).rewritten.value.predicates
  {
    FilterExact(RemoveRedundantNotNullFilter, q, catalog);
  }

  /** The verifier proves what the NOT NULL rule suggests. What the accepted-values rule suggests it proves exactly when
      a single predicate goes; the removal of several stays undecided. */
  lemma FilterDecided(rule: RuleName, q: SelectQuery, catalog: Catalog, text: string)
    requires PerPredicate(rule) && Suggest(rule, q, catalog).Proven()
    ensures var r := Suggest(rule, q, catalog).rewritten.value;
            var s := Verifier.CheckEquivalence(q, r.(rawSql := text), catalog).status;
            && (s.ProvenEquivalent? <==>
                  rule.RemoveRedundantNotNullFilter? || |r.predicates| + 1 == |q.predicates|)
            && (s.ProvenEquivalent? || s.Undecided?)
  {
    hide Verifier.CheckEquivalence;
    hide Offered;
    hide FilterOffered;
    hide IsRedundant;
    FilterExact(rule, q, catalog);
    var name, t := q.table.value, catalog.tables[q.table.value];
    var keeps := Keeps(rule, q, name, t);
    var kept := Filter(keeps, q.predicates);
    var r := q.(predicates := kept).(rawSql := text);
    var gone :| gone in q.predicates && IsRedundant(rule, q, name, t, gone);
    FilterStrict(keeps, q.predicates);
    assert Suggest(rule, q, catalog).rewritten.value.(rawSql := text) == r;
    CheckDecided(q, r, catalog);
    if rule.RemoveRedundantNotNullFilter? {
      assert TriedWhole(rule) && SuggestsIt(rule, q, catalog, r);
    } else if |kept| + 1 == |q.predicates| {
      var i := OneDropped(keeps, q.predicates);
      OnePredicateReplays(rule, q, catalog, i, r);
    } else {
      TwoDroppedNotReplayed(q, catalog, r);
      GoneIsInList(rule, q, name, t, gone);
      InListKeptWhole(q, catalog, r, gone);
    }
  }

  lemma GoneIsInList(rule: RuleName, q: SelectQuery, name: string, t: TableConstraints, p: WherePredicate)
    requires !rule.RemoveRedundantNotNullFilter? && IsRedundant(rule, q, name, t, p)
    ensures p.InList?
  {
  }

  lemma OnePredicateReplays(rule: RuleName, q: SelectQuery, catalog: Catalog, i: nat, r: SelectQuery)
    requires PerPredicate(rule) && q.table.Some? && Reads(q, catalog, q.table.value) && i < |q.predicates|
    requires IsRedundant(rule, q, q.table.value, catalog.tables[q.table.value], q.predicates[i])
    requires r == q.(predicates := q.predicates[..i] + q.predicates[i + 1..], rawSql := r.rawSql)
    ensures Replayable(q, r, catalog)
  {
    var m := Match(rule, PredicateTarget(i));
    assert FilterOffered(rule, q, catalog, i) && Offered(m.rule, q, catalog, m.target);
    ApplyExact(q, catalog, m);
    assert ReplaysTo(q, catalog, m, r);
  }

  // ----- an input whose suggestion stays undecided

  function StatusIsOpen(): WherePredicate {
    InList(ColName(None, "status"), [Literal("open", true)], false)
  }

  /** SELECT id FROM orders WHERE status IN ('open') AND status IN ('open'). */
  function AskedTwice(): SelectQuery {
    SelectQuery(Some("orders"), None, false, None, None, [], [Column(ColName(None, "id"), None)],
      [StatusIsOpen(), StatusIsOpen()], [], [], [], [], None, None, false, "")
  }

  /** status is never NULL, and always 'open'. */
  function OnlyOpen(): Catalog {
    Catalog(map["orders" :=
        TableConstraints(map["status" := ColumnConstraint(Some(false), [Literal("open", true)])], [], [])])
  }

  /** The rule proves that both filters may go; the verifier does not confirm it. */
  lemma TwoFiltersUndecided(text: string)
    ensures var s := Suggest(RemoveRedundantAcceptedValuesFilter, AskedTwice(), OnlyOpen());
            && s.Proven() && s.rewritten.value.predicates == []
            && Verifier.CheckEquivalence(AskedTwice(), s.rewritten.value.(rawSql := text), OnlyOpen())
                 .status.Undecided?
  {
    hide Verifier.CheckEquivalence;
    var rule, q, catalog := RemoveRedundantAcceptedValuesFilter, AskedTwice(), OnlyOpen();
    var t := catalog.tables["orders"];
    var keeps := Keeps(rule, q, "orders", t);
    assert StatusIsOpen() in q.predicates && IsRedundant(rule, q, "orders", t, StatusIsOpen());
    assert Reads(q, catalog, "orders") && NoCte(q) && FilterApplies(rule, q, catalog);
    FilterNone(keeps, q.predicates);
    FilterExact(rule, q, catalog);
    FilterDecided(rule, q, catalog, text);
  }
}
