/** Applying proven rewrites one after another until none is left. */
module Chain {
  import opened Ir
  import opened Lists
  import opened Semantics
  import opened Constraints
  import opened Rewrites
  import opened Registry
  import Filters
  import AcceptedValuesCase
  import CountDistinctRule
  import GroupByUnique
  import JoinToExists
  import Pushdown

  // ----- what every rewrite uses up

  /** CASE branches and COUNT(DISTINCT)s, counted through nested expressions. */
  function ExprSize(e: Expr): nat
    decreases e, 1
  {
    match e
    case CountDistinct(_) => 1
    case Case(branches, default) => BranchesSize(branches) + (if default.Some? then ExprSize(default.value) else 0)
    case _ => 0
  }

  function BranchesSize(branches: seq<Branch>): nat
    decreases branches, 0
  {
    if branches == [] then 0 else BranchSize(branches[0]) + BranchesSize(branches[1..])
  }

  function BranchSize(b: Branch): nat
    decreases b, 0
  {
    1 + ExprSize(b.result)
  }

  function ItemSize(p: Projection): nat {
    if p.Computed? then ExprSize(p.expr) else 0
  }

  function ItemsSize(ps: seq<Projection>): nat {
    if ps == [] then 0 else ItemSize(ps[0]) + ItemsSize(ps[1..])
  }

  /** Twice the joins, plus predicates, group keys, the DISTINCT flag, CASE branches, COUNT(DISTINCT)s and subquery
      levels. */
  function Measure(q: SelectQuery): nat {
    2 * |q.joins| + |q.predicates| + |q.groupBy| + (if q.distinct then 1 else 0) + ItemsSize(q.projections)
    + (if q.subquery.Some? then 1 + Measure(q.subquery.value) else 0)
  }

  lemma {:induction false} BranchesAppend(a: seq<Branch>, b: seq<Branch>)
    ensures BranchesSize(a + b) == BranchesSize(a) + BranchesSize(b)
  {
    if a == [] {
      assert a + b == b;
    } else {
      assert (a + b)[1..] == a[1..] + b;
      BranchesAppend(a[1..], b);
    }
  }

  lemma {:induction false} SimplifyShrinks(
    branches: seq<Branch>, kept: seq<Branch>, changed: bool, default: Option<Expr>,
    verdict: Condition -> AcceptedValuesCase.Verdict)
    requires AcceptedValuesCase.SimplifyFrom(branches, kept, changed, default, verdict).Some?
    ensures ExprSize(AcceptedValuesCase.SimplifyFrom(branches, kept, changed, default, verdict).value)
         <= ExprSize(Case(kept + branches, default))
    ensures changed || ExprSize(AcceptedValuesCase.SimplifyFrom(branches, kept, changed, default, verdict).value)
                       < ExprSize(Case(kept + branches, default))
  {
    BranchesAppend(kept, branches);
    if branches != [] {
      var b, rest := branches[0], branches[1..];
      if verdict(b.condition).AlwaysFalse? {
        BranchesAppend(kept, rest);
        SimplifyShrinks(rest, kept, true, default, verdict);
      } else if kept != [] || !verdict(b.condition).AlwaysTrue? {
        assert kept + branches == kept + [b] + rest;
        SimplifyShrinks(rest, kept + [b], changed, default, verdict);
      }
    }
  }

  lemma {:induction false} ReplacedItemSize(ps: seq<Projection>, i: nat, p: Projection)
    requires i < |ps|
    ensures ItemsSize(ps[i := p]) + ItemSize(ps[i]) == ItemsSize(ps) + ItemSize(p)
  {
    if i == 0 {
      assert ps[0 := p][1..] == ps[1..];
    } else {
      assert ps[i := p][1..] == ps[1..][i - 1 := p];
      ReplacedItemSize(ps[1..], i - 1, p);
    }
  }

  lemma {:induction false} PlainItemsSize(ps: seq<Projection>)
    requires forall p :: p in ps ==> p.Column?
    ensures ItemsSize(ps) == 0
  {
    if ps != [] {
      assert ps[0] in ps;
      PlainItemsSize(ps[1..]);
    }
  }

  lemma {:induction false} CollapsedColumns(q: SelectQuery, ps: seq<Projection>, cols: seq<string>)
    requires GroupByUnique.CollapsedAll(ps, q, cols).Some?
    ensures forall p :: p in GroupByUnique.CollapsedAll(ps, q, cols).value ==> p.Column?
  {
    if ps != [] {
      CollapsedColumns(q, ps[1..], cols);
    }
  }

  lemma CaseShrinks(q: SelectQuery, catalog: Catalog, i: nat)
    requires i < |q.projections| && AcceptedValuesCase.SuggestCaseAt(q, catalog, i).Proven()
    ensures Measure(AcceptedValuesCase.SuggestCaseAt(q, catalog, i).rewritten.value) < Measure(q)
  {
    hide AcceptedValuesCase.SuggestCaseAt;
    var p := q.projections[i];
    AcceptedValuesCase.ProvenCase(q, catalog, i);
    var verdict := AcceptedValuesCase.VerdictFor(catalog.Table(q.table.value).value, q.tableAlias, q.table.value);
    SimplifyShrinks(p.expr.branches, [], false, p.expr.default, verdict);
    assert [] + p.expr.branches == p.expr.branches;
    var e := AcceptedValuesCase.SimplifyCase(p.expr, verdict).value;
    ReplacedItemSize(q.projections, i, AcceptedValuesCase.Simplified(p, e));
    assert ItemSize(AcceptedValuesCase.Simplified(p, e)) < ItemSize(p);
  }

  lemma CountShrinks(q: SelectQuery, catalog: Catalog, i: nat)
    requires i < |q.projections| && CountDistinctRule.SuggestAt(q, catalog, i).Proven()
    ensures Measure(CountDistinctRule.SuggestAt(q, catalog, i).rewritten.value) < Measure(q)
  {
    ReplacedItemSize(q.projections, i, CountDistinctRule.WithoutDistinct(q.projections[i]));
  }

  lemma ItemShrinks(rule: RuleName, q: SelectQuery, catalog: Catalog, i: nat)
    requires PerItem(rule) && i < |q.projections| && SuggestItem(rule, q, catalog, i).Proven()
    ensures Measure(SuggestItem(rule, q, catalog, i).rewritten.value) < Measure(q)
  {
    hide Measure;
    hide AcceptedValuesCase.SuggestCaseAt;
    hide CountDistinctRule.SuggestAt;
    if rule.SimplifyAcceptedValuesCase? {
      CaseShrinks(q, catalog, i);
    } else {
      CountShrinks(q, catalog, i);
    }
  }

  lemma GroupByShrinks(q: SelectQuery, catalog: Catalog)
    requires GroupByUnique.SuggestGroupBy(q, catalog).Proven()
    ensures Measure(GroupByUnique.SuggestGroupBy(q, catalog).rewritten.value) < Measure(q)
  {
    CollapsedColumns(q, q.projections, GroupByUnique.ColumnKeys(q.groupBy));
    PlainItemsSize(GroupByUnique.SuggestGroupBy(q, catalog).rewritten.value.projections);
  }

  lemma PushdownShrinks(q: SelectQuery)
    requires Pushdown.SuggestPushdown(q).Proven()
    ensures Measure(Pushdown.SuggestPushdown(q).rewritten.value) < Measure(q)
  {
    PlainItemsSize(Pushdown.UnqualifiedItems(q.projections));
  }

  /** Every proven suggestion uses something up. */
  lemma SuggestionShrinks(rule: RuleName, q: SelectQuery, catalog: Catalog)
    requires Suggest(rule, q, catalog).Proven()
    ensures Measure(Suggest(rule, q, catalog).rewritten.value) < Measure(q)
  {
    match rule
    case SimplifyAcceptedValuesCase =>
      var i := ItemSuggested(rule, q, catalog);
      ItemShrinks(rule, q, catalog, i);
    case RemoveRedundantCountDistinct =>
      var i := ItemSuggested(rule, q, catalog);
      ItemShrinks(rule, q, catalog, i);
    case CollapseUniqueGroupBy => GroupByShrinks(q, catalog);
    case PredicatePushdown => PushdownShrinks(q);
    case _ =>
  }

  /** So does every replayed match, hence every action of an episode. */
  lemma MatchShrinks(q: SelectQuery, catalog: Catalog, m: Match)
    requires ApplyMatch(q, catalog, m).Ok? && ApplyMatch(q, catalog, m).value.Proven()
    ensures Measure(ApplyMatch(q, catalog, m).value.rewritten.value) < Measure(q)
  {
    if PerItem(m.rule) {
      ItemShrinks(m.rule, q, catalog, m.target.index);
    } else if !PerPredicate(m.rule) {
      SuggestionShrinks(m.rule, q, catalog);
    }
  }

  /** The provenance text is not counted. */
  lemma MeasureNormalized(a: SelectQuery, b: SelectQuery)
    requires SameNormalized(a, b)
    ensures Measure(a) == Measure(b)
  {
    assert Measure(a) == Measure(a.(rawSql := ""));
    assert Measure(b) == Measure(b.(rawSql := ""));
  }

  // ----- the chain

  datatype ChainStatus = FixedPoint | MaxSteps | Cycle

  function NextProven(q: SelectQuery, catalog: Catalog, rules: seq<RuleName>): (r: Option<Suggestion>)
    ensures r.Some? ==> r.value.Proven() && exists rule :: rule in rules && Suggest(rule, q, catalog) == r.value
    ensures r.None? ==> forall rule :: rule in rules ==> !Suggest(rule, q, catalog).Proven()
  {
    if rules == [] then None
    else if Suggest(rules[0], q, catalog).Proven() then Some(Suggest(rules[0], q, catalog))
    else NextProven(q, catalog, rules[1..])
  }

  /** The suggestion of rule `i`, the first in order that has a proven one. */
  predicate FirstOf(q: SelectQuery, catalog: Catalog, rules: seq<RuleName>, i: nat) {
    && i < |rules| && Suggest(rules[i], q, catalog).Proven()
    && forall k :: 0 <= k < i ==> !Suggest(rules[k], q, catalog).Proven()
  }

  /** A step is taken exactly when some rule has a proven suggestion, and it is that of the first such rule. */
  lemma {:induction false} NextIsFirst(q: SelectQuery, catalog: Catalog, rules: seq<RuleName>)
    ensures var r := NextProven(q, catalog, rules);
            && (r.Some? <==> exists rule :: rule in rules && Suggest(rule, q, catalog).Proven())
            && (r.Some? ==> exists i: nat :: FirstOf(q, catalog, rules, i) && r.value == Suggest(rules[i], q, catalog))
  {
    hide Suggest;
    if rules != [] {
      if Suggest(rules[0], q, catalog).Proven() {
        assert FirstOf(q, catalog, rules, 0) && rules[0] in rules;
      } else {
        NextIsFirst(q, catalog, rules[1..]);
        if NextProven(q, catalog, rules).Some? {
          var i: nat :| FirstOf(q, catalog, rules[1..], i)
                        && NextProven(q, catalog, rules).value == Suggest(rules[1..][i], q, catalog);
          forall k | 0 <= k < i + 1 ensures !Suggest(rules[k], q, catalog).Proven() {
            assert k > 0 ==> rules[k] == rules[1..][k - 1];
          }
          assert FirstOf(q, catalog, rules, i + 1);
        }
      }
    }
  }

  /** What rewrites a query once, if anything does. */
  type Stepper = SelectQuery -> Option<SelectQuery>

  function FirstRewrite(catalog: Catalog, rules: seq<RuleName>): Stepper {
    q => var s := NextProven(q, catalog, rules); if s.None? then None else s.value.rewritten
  }

  ghost predicate Shrinks(next: Stepper) {
    forall q :: next(q).Some? ==> Measure(next(q).value) < Measure(q)
  }

  lemma RewriteShrinks(q: SelectQuery, catalog: Catalog, rules: seq<RuleName>)
    requires NextProven(q, catalog, rules).Some?
    ensures Measure(NextProven(q, catalog, rules).value.rewritten.value) < Measure(q)
  {
    hide Suggest;
    var rule :| rule in rules && Suggest(rule, q, catalog) == NextProven(q, catalog, rules).value;
    SuggestionShrinks(rule, q, catalog);
  }

  lemma FirstRewriteShrinks(catalog: Catalog, rules: seq<RuleName>)
    ensures Shrinks(FirstRewrite(catalog, rules))
  {
    hide NextProven;
    forall q | NextProven(q, catalog, rules).Some?
      ensures Measure(NextProven(q, catalog, rules).value.rewritten.value) < Measure(q)
    {
      RewriteShrinks(q, catalog, rules);
    }
  }

  /** Each state is the rewrite of the one before it. */
  predicate IsChain(states: seq<SelectQuery>, next: Stepper) {
    states != [] && forall i :: 0 <= i < |states| - 1 ==> next(states[i]) == Some(states[i + 1])
  }

  /** No state comes back, and the number of steps is bounded by what the first state had to use up. */
  lemma {:induction false} ChainShrinks(states: seq<SelectQuery>, next: Stepper, i: nat, j: nat)
    requires Shrinks(next) && IsChain(states, next) && i <= j < |states|
    ensures Measure(states[j]) + (j - i) <= Measure(states[i])
    ensures i < j ==> states[i] != states[j]
    decreases j - i
  {
    if i < j {
      assert next(states[i]) == Some(states[i + 1]);
      ChainShrinks(states, next, i + 1, j);
    }
  }

  /** The texts seen so far are those of the states so far. */
  ghost predicate SeenAre(seen: set<string>, states: seq<SelectQuery>, canonical: SelectQuery -> string) {
    forall s :: s in seen <==> exists i :: 0 <= i < |states| && canonical(states[i]) == s
  }

  /** Two different statements that the canonical text does not tell apart. */
  predicate Confused(q: SelectQuery, last: SelectQuery, next: Stepper, canonical: SelectQuery -> string) {
    next(last).Some? && q != next(last).value && canonical(q) == canonical(next(last).value)
  }

  /** The loop, for any way of rewriting once that uses something up. `canonical` is the text by which two statements
      count as the same. */
  method Follow(q: SelectQuery, next: Stepper, maxSteps: nat, canonical: SelectQuery -> string)
    returns (states: seq<SelectQuery>, status: ChainStatus)
    requires Shrinks(next)
    ensures IsChain(states, next) && states[0] == q
    ensures |states| - 1 <= maxSteps && |states| - 1 + Measure(states[|states| - 1]) <= Measure(q)
    ensures status.FixedPoint? ==> next(states[|states| - 1]).None?
    ensures status.MaxSteps? ==> |states| - 1 == maxSteps
    ensures status.Cycle? ==> exists i ::
      0 <= i < |states| && Confused(states[i], states[|states| - 1], next, canonical)
  {
    states := [q];
    var seen := {canonical(q)};
    assert canonical(states[0]) == canonical(q);
    var step := 1;
    while step <= maxSteps
      invariant 1 <= step <= maxSteps + 1 && |states| == step
      invariant IsChain(states, next) && states[0] == q
      invariant SeenAre(seen, states, canonical)
    {
      var current := states[|states| - 1];
      ChainShrinks(states, next, 0, |states| - 1);
      if next(current).None? {
        return states, FixedPoint;
      }
      var rewritten := next(current).value;
      if canonical(rewritten) in seen {
        var i :| 0 <= i < |states| && canonical(states[i]) == canonical(rewritten);
        ConfusedState(states, next, i, rewritten, canonical);
        return states, Cycle;
      }
      SeenGrows(seen, states, rewritten, canonical);
      seen := seen + {canonical(rewritten)};
      states := states + [rewritten];
      step := step + 1;
    }
    ChainShrinks(states, next, 0, |states| - 1);
    return states, MaxSteps;
  }

  lemma SeenGrows(seen: set<string>, states: seq<SelectQuery>, next: SelectQuery, canonical: SelectQuery -> string)
    requires SeenAre(seen, states, canonical)
    ensures SeenAre(seen + {canonical(next)}, states + [next], canonical)
  {
    var all := states + [next];
    forall s | s in seen + {canonical(next)} ensures exists i :: 0 <= i < |all| && canonical(all[i]) == s {
      if s == canonical(next) {
        assert canonical(all[|states|]) == s;
      } else {
        var i :| 0 <= i < |states| && canonical(states[i]) == s;
        assert canonical(all[i]) == s;
      }
    }
    forall i | 0 <= i < |all| ensures canonical(all[i]) in seen + {canonical(next)} {
      if i < |states| {
        assert canonical(states[i]) in seen;
      }
    }
  }

  lemma ConfusedState(states: seq<SelectQuery>, next: Stepper, i: nat, r: SelectQuery, canonical: SelectQuery -> string)
    requires Shrinks(next) && IsChain(states, next) && next(states[|states| - 1]) == Some(r)
    requires i < |states| && canonical(states[i]) == canonical(r)
    ensures Confused(states[i], states[|states| - 1], next, canonical)
  {
    ChainShrinks(states, next, i, |states| - 1);
  }

  /** Rewrites a statement without WITH clause by the first proven suggestion, for at most `maxSteps` steps. */
  method SuggestRewriteChain(
    q: SelectQuery, catalog: Catalog, rules: seq<RuleName>, maxSteps: nat, canonical: SelectQuery -> string)
    returns (states: seq<SelectQuery>, status: ChainStatus)
    ensures IsChain(states, FirstRewrite(catalog, rules)) && states[0] == q
    ensures |states| - 1 <= maxSteps && |states| - 1 + Measure(states[|states| - 1]) <= Measure(q)
    ensures status.FixedPoint? ==> FirstRewrite(catalog, rules)(states[|states| - 1]).None?
    ensures status.MaxSteps? ==> |states| - 1 == maxSteps
    ensures status.Cycle? ==>
              exists i :: 0 <= i < |states| && Confused(states[i], states[|states| - 1], FirstRewrite(catalog, rules),
                canonical)
  {
    FirstRewriteShrinks(catalog, rules);
    states, status := Follow(q, FirstRewrite(catalog, rules), maxSteps, canonical);
  }

  /** A query at which the chain stops has no proven suggestion left. */
  lemma FixedPointIsDone(q: SelectQuery, catalog: Catalog, rules: seq<RuleName>, rule: RuleName)
    requires FirstRewrite(catalog, rules)(q).None? && rule in rules
    ensures !Suggest(rule, q, catalog).Proven()
  {
    hide Suggest;
  }

  /** A next state with the text of an earlier one has used up as much: texts are parsed back, so the same text is the
      same statement. */
  predicate SameTextSameMeasure(q: SelectQuery, r: Option<SelectQuery>, canonical: SelectQuery -> string) {
    r.Some? && canonical(q) == canonical(r.value) ==> Measure(q) == Measure(r.value)
  }

  /** With room for more steps than the statement has parts to use up, the chain always ends with no rewrite left. */
  lemma ChainReachesFixedPoint(
    states: seq<SelectQuery>, status: ChainStatus, next: Stepper, maxSteps: nat, canonical: SelectQuery -> string)
    requires Shrinks(next) && IsChain(states, next) && Measure(states[0]) < maxSteps
    requires status.MaxSteps? ==> |states| - 1 == maxSteps
    requires status.Cycle? ==> exists i ::
      0 <= i < |states| && Confused(states[i], states[|states| - 1], next, canonical)
    requires forall i :: 0 <= i < |states| ==> SameTextSameMeasure(states[i], next(states[|states| - 1]), canonical)
    ensures status.FixedPoint?
  {
    ChainShrinks(states, next, 0, |states| - 1);
    if status.Cycle? {
      var i :| 0 <= i < |states| && Confused(states[i], states[|states| - 1], next, canonical);
      ChainShrinks(states, next, i, |states| - 1);
    }
  }

  /** Every rule that could have made the step is within its limits. */
  ghost predicate StepLimits(w: World, q: SelectQuery, r: SelectQuery, catalog: Catalog) {
    forall rule :: Suggest(rule, q, catalog).Proven() && Suggest(rule, q, catalog).rewritten.value == r
      ==> RuleLimits(rule, w, q, catalog)
  }

  lemma StepKeepsAnswer(w: World, q: SelectQuery, r: SelectQuery, catalog: Catalog, rules: seq<RuleName>)
    requires Meets(w, catalog) && WellFormed(w) && FirstRewrite(catalog, rules)(q) == Some(r)
    requires StepLimits(w, q, r, catalog)
    ensures Answer(w, q) == Answer(w, r)
  {
    hide Suggest;
    hide RuleLimits;
    hide Eval;
    var rule :| rule in rules && Suggest(rule, q, catalog) == NextProven(q, catalog, rules).value;
    SuggestionSound(rule, w, q, catalog);
  }

  /** The whole chain keeps the answer. */
  lemma {:induction false} ChainSound(w: World, states: seq<SelectQuery>, catalog: Catalog, rules: seq<RuleName>,
    n: nat)
    requires Meets(w, catalog) && WellFormed(w) && IsChain(states, FirstRewrite(catalog, rules)) && n < |states|
    requires forall i :: 0 <= i < |states| - 1 ==> StepLimits(w, states[i], states[i + 1], catalog)
    ensures Answer(w, states[0]) == Answer(w, states[n])
    decreases n
  {
    hide StepLimits;
    hide Eval;
    hide FirstRewrite;
    if n > 0 {
      ChainSound(w, states, catalog, rules, n - 1);
      assert StepLimits(w, states[n - 1], states[n - 1 + 1], catalog);
      StepKeepsAnswer(w, states[n - 1], states[n], catalog, rules);
    }
  }
}
