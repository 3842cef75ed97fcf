# QuerySeal, verified

QuerySeal rewrites SQL under constraints that somebody trusts (unique keys, non-null columns, accepted values, foreign
keys) and claims that each rewrite returns the same bag of rows. This project models three connected parts of it in
Dafny and proves what they promise. `dafny verify dfyconfig.toml` checks everything.

**SQL and the rules.** `Ir` is the syntax of a SELECT query as the repository keeps it. `Semantics` gives it a meaning
after SQL-92 (ISO/IEC 9075:1992, sections 6.9, 7.5, 7.6, 7.7, 8.8, 8.12): NULL, three-valued conditions, duplicates, INNER and LEFT
JOIN, GROUP BY, DISTINCT, correlated EXISTS, row order and row windows. A relation is a list of rows and the answer of a
query the multiset of its list. SQL text that no rule interprets (opaque scalars, HAVING, QUALIFY, the items of ORDER BY)
is an arbitrary function of the part of the row that the text can see: the relations it names as qualifiers and the values of
the columns it names without one; a name in ORDER BY that is a result column means that column. So every theorem holds for any
such text. `Reading` collects what a query reads of a row and proves that its result, order included, depends on nothing else.
`Constraints` says when a database meets a catalog; a row with a NULL in a unique key is exempt from that key. On top of
that stand the ten rules (`JoinElimination`, `JoinToExists`, `Filters`, `AcceptedValuesCase`, `Distinct`,
`CountDistinctRule`, `GroupByUnique`, `Pushdown`), their `Registry`, the `Verifier`, the rewrite `Chain`, comma joins
(`CommaJoins`), WITH clauses (`Statements`, `Ctes`, `CteSources`), fragments and subtree rewrites (`Fragments`,
`FragmentSources`, `Splicing`) and the reduction of query pairs (`PairReduction`). Soundness alone would let a rule do nothing:
`Applicability` says, in terms of the query and the catalog, exactly when each rule suggests a rewrite and which one,
`Completeness` that no match is missed and what the verifier then proves, and `CteLaws` and `FragmentLaws` what reading through
CTEs gives, which fragments there are and when they parse. `ExistsOrder` has what ORDER BY does to the
rewrite to EXISTS. `Bags` proves that a query which cannot see row order turns equal bags into equal bags. `Witnesses`,
`DistinctVerdicts`, `UnqualifiedColumns`, `CaseVerdicts`, `PushdownAliases`, `PushdownWindows`, `CteLimits`, `StarReaders`,
`ForwardReferences`, `SkippedCtes` and `PairWindows` decide over all databases when a branch without a guard is right;
`Counterexamples` has single inputs.

**Episodes and search.** `Environment` is the state machine with its class; the SQL texts, the parser, the verifier and the
measured reward are parameters. `Ranking`, `Replays`, `Games`, `Search` and `Exhaustive` are the searches, imperative as in
the source, over nodes that replay an action sequence from the start; each returns a ghost account of the nodes it went through,
which its contract describes. `RankingLaws` is the order of nodes position by position. `Games` states, as laws about an arbitrary replay
function, the only facts the searches need, and proves that replaying in the environment obeys them. `BuiltinBackend` runs
the environment with the repository's own verifier and joins its soundness to that of whole episodes.

**Timings.** `TimingCache` is the cache of measured queries with its rescaling, rewards as real factors (the reward is the
logarithm of the factor).

## What is false of the code

Each of these is a branch that the code does not guard; the last one is a proof that it does not find. The lemma named first
gives the exact condition, over all databases that meet the constraints unless it says otherwise; the others give inputs that
fail.

- JOIN-DISTINCT to EXISTS asks for no key. The set of rows is always kept; the bag exactly when a projected unique key is
  non-null or compared by the join (`Witnesses.JoinToExistsDecided`); on one database, when the matched left rows project to
  different rows (`JoinToExists.JoinToExistsExact`).
- The DISTINCT check of the verifier does not look at joins: over a join, DISTINCT may go exactly when the join columns
  contain a unique key of the joined table (`Witnesses.DistinctJoinDecided`, `Counterexamples.DistinctJoinMisjudged`). Nor
  does it see that a name is the alias of an expression: only a key among the plain columns counts
  (`Witnesses.DistinctDecided`, `Counterexamples.AliasedExpressionMisjudged`).
- The same check refutes what is right: a single-row LIMIT makes DISTINCT harmless, and "not equivalent" is wrong exactly there
  (`DistinctVerdicts.DistinctVerdictExact`, `DistinctVerdicts.LimitOneMisjudged`); for SELECT DISTINCT * it looks for a column
  named `*` and refutes although DISTINCT may go exactly when the table has a non-null unique key
  (`DistinctVerdicts.StarDecided`, `DistinctVerdicts.StarMisjudged`).
- Pushdown loses LIMIT and OFFSET of both queries and compares names instead of aliases: for unfiltered subqueries it is right
  exactly when neither query has a row window and every selected column goes by its own name
  (`PushdownWindows.PushdownDecided`, `PushdownWindows.InnerWindowLost`, `PushdownWindows.OuterWindowLost`,
  `PushdownAliases.AliasesMisread`).
- LEFT JOIN elimination takes unqualified columns for the left table's, those of ORDER BY included: accepted and right on the
  databases of a schema exactly when none belongs to the joined table alone and ORDER BY does not name that table
  (`UnqualifiedColumns.UnqualifiedDecided`, `UnqualifiedColumns.UnqualifiedColumnLost`,
  `UnqualifiedColumns.OrderColumnMisjudged`).
- Both join eliminations and the rewrite to EXISTS keep an ORDER BY that is about the removed table: on each database the rewrite
  is accepted and right exactly when ORDER BY names neither that table nor a column that it alone has, under any row window
  (`JoinElimination.LeftJoinOrderExact`, `JoinElimination.ForeignKeyOrderExact`, `ExistsOrder.ExistsOrderExact`,
  `Counterexamples.JoinOrderMisjudged`, `UnqualifiedColumns.ParentColumnMisjudged`, `UnqualifiedColumns.ExistsColumnMisjudged`).
- Collapsing GROUP BY keeps an aggregate in ORDER BY: right exactly when there is none (`GroupByUnique.CollapseOrderExact`,
  `Counterexamples.AggregateOrderMisjudged`).
- CASE simplification takes `IN (SELECT ...)` for an empty list: spellings apart, a verdict on a condition is right on every row
  of every database exactly when the condition is none of those (`CaseVerdicts.SubqueryVerdictExact`,
  `CaseVerdicts.SubqueryMisjudged`).
  It compares literals by their spelling: "never true" is right for every accepted value exactly when no listed literal denotes
  one (`AcceptedValuesCase.AlwaysFalseExact`, `CaseVerdicts.SpellingMisjudged`).
- Reading through a CTE loses the OFFSET of SELECT * (`CteLimits.StarOffsetExact`) and of a projection
  (`CteLimits.InlineOffsetExact`), and moves DISTINCT in front of the CTE's OFFSET (`CteLimits.InlineDistinctExact`): each is
  right exactly when the OFFSET skips nothing. It inlines aggregates (`CteLimits.InlineAggregateExact`: right exactly when
  an aggregate is still selected).
- A CTE that lists columns is replaced by its table even under a SELECT * that does more than pass it on: right exactly when
  every CTE on the way selects everything (`StarReaders.StarReaderDecided`, `StarReaders.StarReaderFails`).
- A set-operation CTE keeps its name out of scope, so a query on it takes the constraints of a table of that name. The
  comment at src/qseal/parser/fragments.py:43-48 says that no trusted premises are attached to it; the code attaches them.
  What is then suggested is right for every set operation exactly when no table of that name is trusted to have a key
  (`SkippedCtes.SkippedDecided`, `SkippedCtes.SkippedCteFails`); with no CTE named like a table of the catalog every rule is
  safe (`SkippedCtes.UntrustedNamesSafe`).
- CTE names are looked up in the whole WITH clause, whatever their order, although in SQL a body sees only the CTEs before it:
  for chains of SELECT *, reading through is right on every database exactly when no CTE that is followed reads a name defined
  at or after it (`ForwardReferences.ForwardDecided`, `ForwardReferences.ForwardExact`, `ForwardReferences.ForwardMisread`).
- Equal bags of a reduced pair do not make the full pair equal when a row window comes after the fragment: before a SELECT * with
  ORDER BY and row window they do exactly when the window shows every row or none (`PairWindows.WindowDecided`,
  `PairWindows.WindowSeesOrder`).
- The verifier replays accepted-values matches one predicate at a time and never the rule as a whole: what that rule suggests is
  proven exactly when a single predicate goes, and stays undecided when several do (`Completeness.FilterDecided`,
  `Completeness.TwoFiltersUndecided`).

The other conditions are SQL's own scoping: columns belong to the relation they name, relation names differ, and CTE names do
not hide a table that a fragment reads. The theorems about WITH clauses take CTE names to be used after their definition; the
bullet on CTE names above says what happens otherwise.

## Model

| member | source | states |
|---|---|---|
| Constraints.TableConstraints.UniqueKeyContainedIn | src/qseal/constraints/model.py:49-54 | the key found is declared unique and lies inside the requested columns; none found means none does |
| Constraints.TableConstraints.NonNullUniqueKeyContainedIn | src/qseal/constraints/model.py:59-67 | the same with every key column trusted non-null |
| Constraints.NonNullKeySeparates | src/qseal/constraints/model.py:39-43 | two rows of a table never agree on a trusted non-null unique key, although rows with NULL are exempt from unique keys |
| JoinElimination.CollectJoinPairs | src/qseal/rewrites/join_elimination.py:339-365 | the loop returns the column pairs of all ON equalities, or nothing as soon as one connects other relations |
| JoinElimination.AtMostOneMatch | src/qseal/rewrites/join_elimination.py:90-124 | a row has at most one partner when the joined columns contain a unique key, because NULL keys never match |
| JoinElimination.LeftJoinElimination | src/qseal/rewrites/join_elimination.py:45-124 | removing an unused LEFT JOIN on columns that contain a unique key leaves the very same relation, with no non-null premise, under any row window and any ORDER BY that is not about the joined table |
| Applicability.LeftJoinExact | src/qseal/rewrites/join_elimination.py:45-124 | the rule suggests dropping the join exactly for a LEFT-joined base table whose ON clause pairs columns with a declared unique key, single or composite, and that nothing else may name |
| JoinElimination.LeftJoinOrderExact | src/qseal/rewrites/join_elimination.py:287-302 | the rewrite is accepted and right exactly when ORDER BY names neither the joined table nor, without qualifier, a column that it alone has |
| JoinElimination.ChildHasMatch | src/qseal/rewrites/join_elimination.py:215-262 | a non-null foreign key finds a parent for every child row |
| JoinElimination.ForeignKeyJoinElimination | src/qseal/rewrites/join_elimination.py:166-284 | removing an unused INNER JOIN backed by a non-null foreign key to a unique key leaves the very same relation, under the same ORDER BY |
| Applicability.ForeignKeyExact | src/qseal/rewrites/join_elimination.py:166-284 | the same for an INNER join along a declared non-null foreign key to a unique key, of any number of columns |
| JoinElimination.ForeignKeyOrderExact | src/qseal/rewrites/join_elimination.py:305-336 | it is accepted and right exactly when ORDER BY names neither the parent nor a column that it alone has |
| JoinToExists.ExistsIsMatch | src/qseal/rewrites/join_distinct_exists.py:153-170 | EXISTS is true on a left row exactly when the join finds a partner for it |
| JoinToExists.JoinIsDedupOfExists | src/qseal/rewrites/join_distinct_exists.py:137-170 | the DISTINCT join returns the rows of the EXISTS query without repetitions, in the same order |
| JoinToExists.JoinToExistsExact | src/qseal/rewrites/join_distinct_exists.py:45-181 | the set of rows is always kept; the bag exactly when the matched left rows project apart |
| Applicability.ExistsExact | src/qseal/rewrites/join_distinct_exists.py:45-181 | the rewrite is suggested exactly for SELECT DISTINCT of columns of the FROM table joined by one equality, written either way round |
| JoinToExists.JoinToExistsWithKey | src/qseal/rewrites/join_distinct_exists.py:45-181 | a projected unique key, non-null or compared by the join, keeps the bag: under any row window without ORDER BY, and under any ORDER BY without row window |
| ExistsOrder.ExistsRelation | src/qseal/rewrites/join_distinct_exists.py:151-181 | with such a key the rewrite returns the very same relation under any row window and any ORDER BY that is not about the joined table |
| ExistsOrder.ExistsOrderExact | src/qseal/rewrites/join_distinct_exists.py:151-170 | with such a key it is accepted and right exactly when ORDER BY names neither the joined table nor a column that it alone has |
| Witnesses.JoinToExistsDecided | src/qseal/rewrites/join_distinct_exists.py:45-181 | the rewrite is right on every database meeting the constraints if and only if such a key is declared |
| Filters.FilterRemoval | src/qseal/rewrites/not_null_filter.py:71-146 | removing all redundant IS NOT NULL or IN predicates leaves the very same relation |
| Applicability.FilterExact | src/qseal/rewrites/not_null_filter.py:71-146 | a filter rule suggests a rewrite exactly when some predicate over the only table is redundant, and keeps exactly the others |
| Filters.FilterMatchRemoval | src/qseal/rewrites/accepted_values_filter.py:33-52 | so does removing the one predicate of a match |
| Distinct.ProjectionsApart | src/qseal/rewrites/distinct.py:42-125 | rows that survive WHERE and QUALIFY project to different rows when a non-null unique key is projected |
| Distinct.DistinctRemoval | src/qseal/rewrites/distinct.py:42-125 | the rule leaves the very same relation |
| Applicability.DistinctExact | src/qseal/rewrites/distinct.py:42-125 | DISTINCT removal is suggested exactly for plain columns of the only table with a non-null unique key among them |
| DistinctJoins.KeyedJoinNoop | src/qseal/verifier/check.py:178-264 | over a join on a unique key of the joined table, DISTINCT of left columns with a non-null unique key removes nothing |
| CountDistinctRule.FirstProven | src/qseal/rewrites/count_distinct.py:55-73 | a proven suggestion comes from one of the indexes, and one is returned whenever some index has one |
| CountDistinctRule.SuggestFirst | src/qseal/rewrites/count_distinct.py:55-73 | the loop with its first-blocker accumulator returns that suggestion |
| CountDistinctRule.GroupedApart | src/qseal/rewrites/count_distinct.py:75-182 | no group holds a value of the counted column twice, under any WHERE and GROUP BY |
| CountDistinctRule.CountDistinctRemoval | src/qseal/rewrites/count_distinct.py:75-182 | COUNT(DISTINCT c) and COUNT(c) give the very same relation when c is a non-null unique key |
| Applicability.CountDistinctExact | src/qseal/rewrites/count_distinct.py:75-182 | the rule applies to an item exactly when it counts a non-null unique key of the only table |
| GroupByUnique.CollapseProjections | src/qseal/rewrites/group_by_unique.py:121-138 | the loop rewrites every item or stops at the first unsupported one |
| GroupByUnique.GroupsAreRows | src/qseal/rewrites/group_by_unique.py:100-119 | every group over a non-null unique key is a single row, after any WHERE |
| GroupByUnique.CollapsedProjects | src/qseal/rewrites/group_by_unique.py:157-197 | on a single row the collapsed items have the values of the grouped columns and of MAX, MIN and ANY_VALUE, NULL included |
| GroupByUnique.GroupByCollapse | src/qseal/rewrites/group_by_unique.py:45-154 | dropping the GROUP BY leaves the very same relation when ORDER BY holds no aggregate |
| Applicability.GroupByExact | src/qseal/rewrites/group_by_unique.py:45-154 | the collapse is suggested exactly when the grouped columns hold a non-null unique key and every item is one of them or MAX, MIN or ANY_VALUE under an alias |
| GroupByUnique.CollapseOrderExact | src/qseal/rewrites/group_by_unique.py:138-141 | the collapse is right on every database meeting the constraints if and only if ORDER BY holds no aggregate |
| AcceptedValuesCase.SimplifiedCase | src/qseal/rewrites/accepted_values_case.py:175-220 | the loop over the branches returns the simplified expression, or nothing when nothing changes |
| Applicability.SimplifiedExact | src/qseal/rewrites/accepted_values_case.py:175-220 | what is left of a CASE: the default, the result of a first branch always taken, or the branches that can be met |
| AcceptedValuesCase.AlwaysFalseExact | src/qseal/rewrites/accepted_values_case.py:276-292 | the verdict "never true" is right for every accepted value exactly when no listed literal denotes an accepted value |
| Applicability.VerdictExact | src/qseal/rewrites/accepted_values_case.py:225-292 | "always true" exactly when every accepted value is listed, "never true" exactly when none is |
| AcceptedValuesCase.ConditionVerdictRight | src/qseal/rewrites/accepted_values_case.py:236-273 | a verdict on a condition is right on every row that meets the accepted-values and non-null premises, when its listed literals denote no accepted value in another spelling |
| CaseVerdicts.SubqueryVerdictExact | src/qseal/rewrites/accepted_values_case.py:262-271 | such a verdict is right on every row of every database meeting the constraints and telling spellings apart if and only if the condition is no IN with a subquery |
| CaseVerdicts.SubqueryMisjudged | src/qseal/rewrites/accepted_values_case.py:262-271 | a proven CASE simplification that drops a taken branch whose condition is IN (SELECT ...) |
| CaseVerdicts.SpellingMisjudged | src/qseal/rewrites/accepted_values_case.py:236-260 | on any engine where two literals denote one value, accepting one and listing the other drops a taken branch |
| AcceptedValuesCase.SimplifyKeepsValue | src/qseal/rewrites/accepted_values_case.py:175-220 | dropping, keeping and short-circuiting branches keeps the value of the CASE, for any number of branches |
| AcceptedValuesCase.CaseSimplification | src/qseal/rewrites/accepted_values_case.py:66-152 | the rule leaves the very same relation for literal lists and items that keep their name |
| Applicability.CaseExact | src/qseal/rewrites/accepted_values_case.py:66-152 | the rule applies to an item exactly when some condition is never met or the first one always is, and leaves the branches that can be met |
| Pushdown.PushdownBody | src/qseal/rewrites/predicate_pushdown.py:44-165 | before the outer ORDER BY and row window both queries have the same bag of rows, in the same order unless the subquery has an ORDER BY |
| Applicability.PushdownExact | src/qseal/rewrites/predicate_pushdown.py:44-165 | pushdown is suggested exactly for comparisons over a plain derived table selecting the same columns, with the pushed query field by field |
| Pushdown.PushdownExact | src/qseal/rewrites/predicate_pushdown.py:139-151 | on one database, the pushed query returns the same bag exactly when the lost outer row window would have kept every row |
| PushdownAliases.AliasesDecided | src/qseal/rewrites/predicate_pushdown.py:168-174 | for unfiltered subqueries without row windows the rewrite is right on every database if and only if every selected column goes by its own name |
| PushdownWindows.PushdownDecided | src/qseal/rewrites/predicate_pushdown.py:45-165 | for unfiltered subqueries the rewrite is right on every database if and only if neither query has a row window and every selected column goes by its own name |
| PushdownWindows.InnerWindowLost | src/qseal/rewrites/predicate_pushdown.py:139-151 | a proven pushdown that loses LIMIT 1 of the subquery and returns a row more |
| PushdownWindows.OuterWindowLost | src/qseal/rewrites/predicate_pushdown.py:139-151 | the same for LIMIT 1 of the outer query |
| PushdownAliases.AliasesMisread | src/qseal/rewrites/predicate_pushdown.py:168-174 | a proven pushdown through swapped aliases that changes the answer |
| Registry.AvailableMatchesApply | src/qseal/rewrites/registry.py:78-99 | every available match applies to the query it was found on and gives a proven rewrite of one of the rules; the next rows say which matches are available |
| Completeness.AvailableExact | src/qseal/rewrites/registry.py:78-88 | a match is available if and only if its rule is listed and is offered that join, predicate, item or query |
| Completeness.AvailableInOrder | src/qseal/rewrites/registry.py:83-87 | matches come in the order of the rules, and for one rule in the order of the query |
| Completeness.ApplyExact | src/qseal/rewrites/registry.py:90-99 | a match can be replayed if and only if it is offered; one of a predicate drops that predicate only |
| Completeness.FirstItemExact | src/qseal/rewrites/count_distinct.py:55-73 | a rule over items suggests a rewrite exactly when it is offered some item, and then for the first |
| Registry.SuggestionSound | src/qseal/rewrites/registry.py:70-75 | every proven suggestion of every rule keeps the bag on every database that meets the constraints |
| Registry.MatchSound | src/qseal/rewrites/registry.py:90-99 | so does every replayed match |
| Verifier.NormalizedSame | src/qseal/verifier/check.py:136-146 | queries equal up to the provenance text return the same relation |
| Verifier.CheckEquivalenceSound | src/qseal/verifier/check.py:12-133 | PROVEN_EQUIVALENT by identity, replay or DISTINCT removal means equal bags on every database that meets the constraints |
| Completeness.CheckDecided | src/qseal/verifier/check.py:12-133 | each verdict on every pair, if and only if: proven by identity, by a replay of an offered match, by DISTINCT over a key by name, or by a whole-query rule; refuted only for DISTINCT over no key |
| Verifier.AvailableMatchVerifies | src/qseal/verifier/check.py:45-59 | whatever an available match rewrites a query to is reported as proven; with Completeness.AvailableExact, whatever a rule is offered |
| Completeness.SuggestionVerifies | src/qseal/verifier/check.py:45-59 | what a rule suggests for the whole query or for one item is proven, under any text |
| Completeness.FilterDecided | src/qseal/verifier/check.py:45-84 | what the NOT NULL rule suggests is proven; what the accepted-values rule suggests is proven if and only if a single predicate goes |
| Completeness.TwoFiltersUndecided | src/qseal/verifier/check.py:45-133 | a query whose two redundant IN predicates the rule drops, and the verifier does not confirm it |
| Completeness.DistinctCheckExact | src/qseal/verifier/check.py:178-264 | the verdict of the DISTINCT check by the declared keys among the item names |
| Witnesses.TwinsDiffer | src/qseal/verifier/check.py:253-263 | without a non-null unique key in the projection there is a database meeting the constraints with two equal projected rows |
| Witnesses.DistinctDecided | src/qseal/verifier/check.py:221-264 | DISTINCT may go on every database meeting the constraints if and only if a non-null unique key lies among the plain columns, aliases of expressions not counted |
| Witnesses.DistinctJoinDecided | src/qseal/verifier/check.py:178-237 | over a join, if and only if the join columns contain a unique key of the joined table, whatever key the check finds |
| DistinctVerdicts.LimitedDecided | src/qseal/verifier/check.py:221-264 | with LIMIT, DISTINCT may go on every database if and only if such a key exists or one row at most is shown |
| DistinctVerdicts.DistinctVerdictExact | src/qseal/verifier/check.py:178-264 | unless one row at most is shown, what is always right is PROVEN_EQUIVALENT; for plain columns nothing else is; and NOT_EQUIVALENT is wrong exactly when one row at most is shown |
| DistinctVerdicts.StarDecided | src/qseal/verifier/check.py:183-264 | DISTINCT * may go on every database if and only if the table has a non-null unique key, while the check, which looks for a key on a column named `*`, says NOT_EQUIVALENT either way |
| DistinctVerdicts.StarMisjudged | src/qseal/verifier/check.py:183-264 | a refuted removal of DISTINCT * that is right on every database meeting the constraints |
| DistinctVerdicts.LimitOneMisjudged | src/qseal/verifier/check.py:183-264 | the same for LIMIT 1 |
| Chain.SuggestionShrinks | src/qseal/rewrites/chain.py:50-109 | every proven whole-query suggestion strictly lowers one measure of the query |
| Chain.MatchShrinks | src/qseal/rewrites/registry.py:90-99 | so does every replayed match |
| Chain.NextProven | src/qseal/rewrites/chain.py:122-128 | the next step is a proven suggestion of one of the rules; none means no rule has one |
| Chain.NextIsFirst | src/qseal/rewrites/chain.py:122-128 | a step is taken exactly when some rule has a proven suggestion, and is that of the first such rule |
| Chain.FirstRewriteShrinks | src/qseal/rewrites/chain.py:112-140 | the step of the chain strictly lowers the measure |
| Chain.Follow | src/qseal/rewrites/chain.py:50-109 | the loop returns a chain of rewrites within both bounds; FIXED_POINT means nothing is left; CYCLE means the canonical text confused two queries |
| Chain.SuggestRewriteChain | src/qseal/rewrites/chain.py:37-109 | the same for first proven suggestions |
| Chain.FixedPointIsDone | src/qseal/rewrites/chain.py:77-84 | where the chain stops no rule has a proven suggestion |
| Chain.ChainShrinks | src/qseal/rewrites/chain.py:50-109 | no query comes back, and the number of steps is bounded by the measure of the first |
| Chain.ChainReachesFixedPoint | src/qseal/rewrites/chain.py:50-109 | with more steps than the measure the chain always ends with nothing left, unless a next query has the text of an earlier one of another measure |
| Chain.ChainSound | src/qseal/rewrites/chain.py:37-109 | every state of the chain has the bag of the first |
| CommaJoins.SelectTree.PromoteCommaJoins | src/qseal/parser/sqlglot_parser.py:783-866 | it succeeds if and only if every comma join is a direct table that some WHERE equality of two qualified columns links, either way round, to a table before it; the first that is not says the error and the tree stays; otherwise each takes exactly its linking conjuncts, in order, and WHERE keeps the rest, with the same rows |
| CommaJoins.PromoteJoins | src/qseal/parser/sqlglot_parser.py:821-854 | the loop over the joins computes the promotion that the next row describes |
| CommaJoins.PromotionDecided | src/qseal/parser/sqlglot_parser.py:783-866 | promotion succeeds exactly when no comma join is blocked, the error is that of the first blocked one, and ON and WHERE get exactly the conjuncts that link and those that do not |
| CommaJoins.PromotionKeepsRows | src/qseal/parser/sqlglot_parser.py:783-866 | promotion keeps the rows under three-valued logic for any list of cross, INNER and LEFT joins over different names |
| CommaJoins.PromotionConserves | src/qseal/parser/sqlglot_parser.py:824-864 | every WHERE conjunct ends up in exactly one ON condition or in the leftover WHERE |
| CommaJoins.PromotionLeavesNoComma | src/qseal/parser/sqlglot_parser.py:824-852 | no join without ON is left |
| CommaJoins.PromotionCorrect | src/qseal/parser/sqlglot_parser.py:783-866 | all of that about the whole promotion |
| Statements.ScopeIsBodies | src/qseal/parser/sqlglot_parser.py:203-216 | an accepted WITH clause maps different names to their own bodies |
| CteLaws.ScopeOfExact | src/qseal/parser/sqlglot_parser.py:203-216 | a WITH clause is accepted exactly when it has SELECTs under different names; the first other CTE says the error |
| Statements.BoundIsConsistent | src/qseal/parser/sqlglot_parser.py:203-216 | when names are used after their definition, every CTE name stands for what its body returns |
| Ctes.ResolveRejectsCycles | src/qseal/parser/sqlglot_parser.py:219-244 | a query is rejected if and only if following its sources comes back to a CTE already read |
| CteLaws.ResolveExact | src/qseal/parser/sqlglot_parser.py:219-275 | SELECT * of a CTE is what the CTE resolves to, a list of columns is read from it, and everything else stays |
| CteLaws.InlinedExact | src/qseal/parser/sqlglot_parser.py:247-275 | item by item: a star becomes all inner items, a column the last inner item of its name under its own alias; one that is missing leaves the query as it is |
| Ctes.StarSound | src/qseal/parser/sqlglot_parser.py:386-398 | SELECT * FROM a relation is that relation |
| Ctes.InlineSound | src/qseal/parser/sqlglot_parser.py:247-275 | inlining a projection keeps columns and rows |
| Ctes.ResolveSound | src/qseal/parser/sqlglot_parser.py:219-275 | following a chain of any length keeps columns and rows |
| Ctes.ResolveStatementSound | src/qseal/parser/sqlglot_parser.py:43-44 | the query that replaces a WITH statement whose names are used after their definition returns what the statement returns |
| ForwardReferences.ForwardExact | src/qseal/parser/sqlglot_parser.py:348-383 | a CTE may be replaced by the table at the end of its chain of SELECT * on every database if and only if no CTE of the chain reads a name defined at or after it |
| ForwardReferences.ForwardDecided | src/qseal/parser/sqlglot_parser.py:219-244 | a statement that reads such a chain is resolved rightly on every database under the same condition |
| ForwardReferences.ForwardMisread | src/qseal/parser/sqlglot_parser.py:219-244 | an input whose first CTE reads a base table that the second CTE hides from the code |
| CteLimits.StarOffsetExact | src/qseal/parser/sqlglot_parser.py:386-398 | reading through SELECT * is right on every database exactly when OFFSET skips nothing |
| CteLimits.InlineOffsetExact | src/qseal/parser/sqlglot_parser.py:401-412 | so is inlining a projection that has an OFFSET |
| CteLimits.InlineDistinctExact | src/qseal/parser/sqlglot_parser.py:247-275 | inlining DISTINCT over a CTE with OFFSET is right on every database exactly when that OFFSET skips nothing |
| CteLimits.InlineAggregateExact | src/qseal/parser/sqlglot_parser.py:421-433 | inlining an aggregate projection is right on every database exactly when an aggregate is still selected |
| CteSources.CircularStaysRejected | src/qseal/parser/sqlglot_parser.py:284-297 | the fallback to an opaque relation hides no circular chain |
| CteSources.StarChainSame | src/qseal/parser/sqlglot_parser.py:348-383 | a chain of SELECT * of any length ends at the very same relation |
| CteSources.ChainCarries | src/qseal/parser/sqlglot_parser.py:348-383 | columns kept by every CTE of a chain have, row for row, the same values at both ends |
| Reading.BodyAlike | src/qseal/ir/model.py:31-42 | rows that agree on what the text of a query reads give the same result rows, groups and QUALIFY included |
| Applicability.ExprReadsExact | src/qseal/ir/model.py:42-45 | an expression counts as a use of a relation exactly when something it reads is unqualified or names the relation |
| Applicability.AggregateExact | src/qseal/parser/sqlglot_parser.py:538-544 | an item is an aggregate exactly when it, or something a CASE in it returns, is an aggregate call |
| FragmentSources.FromPaired | src/qseal/parser/sqlglot_parser.py:278-300 | FROM and JOIN over tables in place of CTEs give rows that agree on every column the query reads |
| StarReaders.StarReaderDecided | src/qseal/parser/sqlglot_parser.py:348-383 | SELECT * that does more than pass a CTE on is parsed as one on the table behind it, which is right on every database if and only if every CTE on the way selects everything |
| StarReaders.StarReaderFails | src/qseal/parser/sqlglot_parser.py:415-418 | an input whose result gains the table's other columns |
| Bags.GroupsBag | src/qseal/verifier/pair_reduction.py:16-19 | reordering rows reorders groups: grouped columns, COUNT, COUNT(DISTINCT) and, on an engine whose aggregates depend on bags only, MAX, MIN, opaque aggregates and HAVING give the same bag of result rows |
| Bags.EvalBag | src/qseal/verifier/pair_reduction.py:16-19 | a query that cannot see row order, grouped or not, turns tables with equal bags into results with equal bags |
| Bags.BoundBag | src/qseal/verifier/pair_reduction.py:16-19 | so does a whole WITH clause, set operations included |
| PairReduction.ReducePair | src/qseal/verifier/pair_reduction.py:8-72 | a pair is reduced exactly when it differs in one CTE body only, and then to that body on each side with the CTEs before it |
| PairReduction.FragmentPairMeans | src/qseal/verifier/pair_reduction.py:60-72 | the two sides return, in that order, what the differing CTE of each statement returns where it stands |
| PairReduction.ReducedPairSound | src/qseal/verifier/pair_reduction.py:16-19 | whenever the reduced pair returns the same rows in the same order, so does the full pair |
| PairReduction.ReducedPairBag | src/qseal/verifier/pair_reduction.py:16-19 | whenever it returns the same bag, so does the full pair, if nothing after the fragment sees row order |
| PairReduction.ReducedPairProves | src/qseal/verifier/pair_reduction.py:13-22 | bags proven equal on all databases, or on those of steady engines, for the reduced pair are equal there for the full pair, for any CTEs before and after that do not see row order |
| PairWindows.WindowDecided | src/qseal/verifier/pair_reduction.py:13-22 | before a SELECT * with ORDER BY and row window, equal bags of every reduced pair mean equal bags of the full pair if and only if the window shows every row or none |
| PairWindows.WindowSeesOrder | src/qseal/verifier/pair_reduction.py:13-22 | a pair with equal fragments on all databases whose full queries differ under any other row window |
| PairReduction.FragmentDifferenceRefutesNothing | src/qseal/verifier/pair_reduction.py:21-23 | a pair whose fragments differ on a database although the full queries agree on all |
| Fragments.ParseSelectFragments | src/qseal/parser/fragments.py:28-63 | the loop returns each SELECT body parsed with the CTEs before it, then the outer query |
| FragmentLaws.FragmentsExact | src/qseal/parser/fragments.py:28-63 | one fragment for each first SELECT of a name, in order, parsed with exactly the SELECTs before it in scope, and at last the outer query with all of them |
| FragmentLaws.ParsedExact | src/qseal/parser/sqlglot_parser.py:111-160 | a fragment parses exactly when it has no WITH clause, no circular chain and only relations that can be followed, and which table each becomes |
| FragmentLaws.SourceExact | src/qseal/parser/sqlglot_parser.py:278-300 | a CTE is read through exactly when its chain only passes columns on, stays a relation when the chain ends at a table, and is rejected otherwise |
| Fragments.FirstNamed | src/qseal/parser/fragments.py:84-90 | the first CTE of a name, none exactly when no CTE has it |
| Fragments.ReplaceFragment | src/qseal/parser/fragments.py:66-90 | the loop replaces the body of the first CTE of that name, or the outer query under its WITH clause |
| Fragments.OfferRule | src/qseal/rewrites/subtree.py:33-47 | a proven suggestion for a fragment, spliced into the whole query |
| Fragments.SuggestFragment | src/qseal/rewrites/subtree.py:33-71 | the inner loop offers all rules on one fragment, each proof once |
| Fragments.SuggestSubtree | src/qseal/rewrites/subtree.py:11-72 | all suggestions are proven and spliced, in the order of fragments and rules, each from the first place of its proof, and no proven one is missing |
| FragmentLaws.KeyExact | src/qseal/rewrites/subtree.py:49-56 | two suggestions count as one proof exactly when rule, fragment and rewrite are the same up to the provenance texts |
| FragmentSources.SourcesMean | src/qseal/parser/sqlglot_parser.py:278-300 | pointing FROM and JOIN at the tables behind CTEs keeps the relation when each CTE on the way selects everything or every column the query reads |
| FragmentSources.ParsedMeans | src/qseal/parser/fragments.py:103-114 | a parsed fragment returns what its text returns with the CTEs before it in scope |
| Splicing.SuggestionKeepsRelation | src/qseal/rewrites/registry.py:70-75 | every proven suggestion keeps columns, rows and row order, pushdown when no ORDER BY is lost and EXISTS when ORDER BY is not about the joined table |
| Splicing.SuggestionKeepsBag | src/qseal/rewrites/registry.py:70-75 | every proven suggestion keeps columns and the bag of rows |
| Splicing.SpliceSound | src/qseal/rewrites/subtree.py:20-24 | a body replaced by one with the same relation keeps the whole query, for any CTEs before and after |
| Splicing.SpliceBag | src/qseal/rewrites/subtree.py:20-24 | a body replaced by one with the same bag keeps the bag of the whole query when nothing after it can see row order |
| Splicing.CteSuggestionSound | src/qseal/rewrites/subtree.py:33-47 | a proven rewrite of a CTE body that keeps row order leaves the relation of the whole query as it was |
| Splicing.CteSuggestionBag | src/qseal/rewrites/subtree.py:33-47 | any proven rewrite of a CTE body, ORDER BY included, leaves the bag of the whole query as it was when nothing after it can see row order |
| Splicing.OuterSuggestionSound | src/qseal/rewrites/subtree.py:33-47 | a proven rewrite of the outer query leaves the bag as it was |
| Splicing.SubtreeSuggestionSound | src/qseal/rewrites/subtree.py:11-72 | whatever is suggested for a subtree leaves the bag of the whole query as it was |
| SkippedCtes.SkippedDecided | src/qseal/parser/fragments.py:43-58 | dropping DISTINCT over a set-operation CTE is right for every set operation and database if and only if no table of its name is trusted to have a key among the columns |
| SkippedCtes.SkippedCteFails | src/qseal/parser/fragments.py:43-58 | an input on which the rewrite returns a row twice |
| SkippedCtes.UntrustedNamesSafe | src/qseal/parser/fragments.py:43-58 | with no CTE named like a table that constraints are about, every rule is right on fragments over skipped CTEs |
| UnqualifiedColumns.UnqualifiedDecided | src/qseal/rewrites/join_elimination.py:287-302 | on the databases of a schema removing an unfiltered LEFT JOIN is accepted and right if and only if no unqualified column, ORDER BY included, belongs to the joined table alone and ORDER BY does not name it |
| UnqualifiedColumns.UnqualifiedColumnLost | src/qseal/rewrites/join_elimination.py:287-302 | a proven LEFT JOIN elimination that changes the answer through an unqualified column |
| UnqualifiedColumns.OrderColumnMisjudged | src/qseal/rewrites/join_elimination.py:287-302 | a proven LEFT JOIN elimination whose ORDER BY names a column that is gone |
| UnqualifiedColumns.ParentColumnMisjudged | src/qseal/rewrites/join_elimination.py:305-336 | the same for foreign key elimination |
| UnqualifiedColumns.ExistsColumnMisjudged | src/qseal/rewrites/join_distinct_exists.py:151-170 | the same for the rewrite to EXISTS |
| Counterexamples.DistinctJoinMisjudged | src/qseal/verifier/check.py:183-237 | a pair over a join reported PROVEN_EQUIVALENT that is wrong on a database meeting the constraints |
| Counterexamples.AliasedExpressionMisjudged | src/qseal/verifier/check.py:183-237 | the same for an expression under the alias of a key |
| Counterexamples.AggregateOrderMisjudged | src/qseal/rewrites/group_by_unique.py:138-141 | a proven collapse that leaves MAX in ORDER BY, is not accepted and gives an empty table a row |
| Counterexamples.JoinOrderMisjudged | src/qseal/rewrites/join_elimination.py:287-302 | a proven LEFT JOIN elimination that leaves the table in ORDER BY, is not accepted and changes the first row |
| Environment.FindAction | src/qseal/research/environment/core.py:177-182 | the first action of that identifier, none exactly when it is not on offer |
| Environment.ActionsExact | src/qseal/research/environment/core.py:265-286 | one action for each available match, in order, under its identifier |
| Environment.RewriteEnvironment.Reset | src/qseal/research/environment/core.py:162-173 | the new state and result, or unsupported SQL with the state as it was |
| Environment.ResetExact | src/qseal/research/environment/core.py:162-173 | reset starts at the task's SQL with its actions, unless it does not parse |
| Environment.RewriteEnvironment.Step | src/qseal/research/environment/core.py:175-248 | the new state and the transition or error, for every branch of the source; the step limit refuses only when reached, and an offered action that applies is taken |
| Environment.StepRefused | src/qseal/research/environment/core.py:175-263 | each refusal if and only if its condition holds; the step limit refuses only when it is reached |
| Environment.StepProgress | src/qseal/research/environment/core.py:175-248 | an action on offer that applies proposes the printed rewrite and is refused only when that is proven and does not parse; with the next observation, the flags and the reward, -1 for a refuted pair and -0.25 for an undecided one |
| Environment.OfferedSteps | src/qseal/research/environment/core.py:175-248 | in every state that calls reach, each action on offer applies, and with rewrites that parse back its step succeeds |
| Environment.StepOutcome | src/qseal/research/environment/core.py:175-263 | an error changes nothing, a failed proof keeps the observation and ends the episode, a proven step goes one on within the limit, and nothing succeeds once done; StepProgress says when a step succeeds |
| Environment.RunSafe | src/qseal/research/environment/core.py:162-263 | after any sequence of reset and step with a sound verifier the current SQL means the initial SQL, within the step limit |
| Environment.RunWithinMeasure | src/qseal/research/environment/core.py:175-248 | when printed rewrites parse back, steps taken plus rewrites still possible never exceed the measure of the initial query |
| Environment.NeverTruncated | src/qseal/research/environment/core.py:223 | a step limit as large as that measure never cuts an episode short |
| BuiltinBackend.VerdictMeansSame | src/qseal/verifier/backends/builtin.py:11-63 | two SQL texts proven by the built-in verifier, within the limits of that proof, have the same bag of rows; a set operation is only ever proven equal to itself |
| BuiltinBackend.DecideExact | src/qseal/verifier/backends/builtin.py:11-63 | unsupported SQL, single queries and set operations each get their verdict |
| BuiltinBackend.EpisodeKeepsAnswer | src/qseal/research/environment/core.py:162-263 | with the built-in verifier any sequence of reset and step keeps the bag of rows of the initial query, on every database meeting the task's catalog, as long as each rewrite taken is within its limits |
| BuiltinBackend.NoProofFails | src/qseal/research/environment/core.py:175-248 | with the default rules, when printed rewrites parse back, the built-in verifier proves every action on offer |
| BuiltinBackend.OffersProceed | src/qseal/research/environment/core.py:175-248 | with the default rules every action on offer is then taken, proven |
| Ranking.TieTotal | src/qseal/research/search/algorithms.py:445-450 | tie keys are totally ordered |
| RankingLaws.TieExact | src/qseal/research/search/algorithms.py:445-450 | under the endpoint policy ended nodes come first; then fewer actions, then the smaller identifier at the first difference |
| RankingLaws.PreferredExact | src/qseal/research/search/algorithms.py:429-442 | more reward by over the margin decides, otherwise ties do, and one of two nodes is always preferred or equal |
| Ranking.RankNodes | src/qseal/research/search/algorithms.py:407-426 | the loop computes the ranking and ends |
| Ranking.RankingGuarantees | src/qseal/research/search/algorithms.py:407-426 | the ranking is a permutation, no later node beats an earlier one by more than the margin, and the head is tie-minimal near the maximum |
| RankingLaws.RankedGrouped | src/qseal/research/search/algorithms.py:407-426 | the ranking is a list of groups: all nodes within the margin of the best, in tie order, then the same of the rest |
| Ranking.BestNode | src/qseal/research/search/algorithms.py:397-404 | the returned node is within the margin of the maximum and first in tie order among those |
| Ranking.DeduplicateNodes | src/qseal/research/search/algorithms.py:379-394 | the dictionary loop keeps one node for each text |
| RankingLaws.DeduplicatedExact | src/qseal/research/search/algorithms.py:379-394 | texts in the order of their first occurrence, each kept by the node that no later one displaced |
| Search.DeduplicatedMembers | src/qseal/research/search/algorithms.py:379-394 | each text that occurs is kept once, by a node of the input, with margin zero by a best one |
| Replays.RunSequence | src/qseal/research/search/algorithms.py:332-361 | driving a new environment computes the replay of the sequence |
| Replays.SequenceMore | src/qseal/research/search/algorithms.py:332-361 | one action more is one step more, unless the episode was over |
| Replays.SequenceTraces | src/qseal/research/search/algorithms.py:332-361 | a replayed node holds exactly the transitions that reset and step answer, their sum and the last observation |
| Replays.SequenceOutcome | src/qseal/research/search/algorithms.py:332-361 | every replayed node offers the actions of its SQL, and was proven throughout unless its last proof failed |
| Replays.MeasureBoundsSteps | src/qseal/research/environment/core.py:223 | a step limit as large as the measure of the initial query never binds in a search |
| Games.ReplayIsLawful | src/qseal/research/search/algorithms.py:317-376 | replaying obeys the laws: children, failed proofs, and a future that depends on the SQL only |
| Search.ExpandNode | src/qseal/research/search/algorithms.py:364-376 | the children in the order of the actions |
| Search.GreedySearch | src/qseal/research/search/algorithms.py:175-208 | from the root, each node is followed by its best child while that is preferred; the end and the number of explored nodes are exact; with the shorter tie policy k >= 1 accepted steps gain more than k times the margin |
| Search.FirstByScore | src/qseal/research/search/algorithms.py:145-151 | the action of highest score, then of smallest identifier |
| Search.PolicyAbstainSearch | src/qseal/research/search/algorithms.py:128-172 | the same for the child of the highest scored action |
| Search.BestNotNegative | src/qseal/research/search/algorithms.py:397-450 | with the root among the candidates the best is within the margin of zero, and with the shorter tie policy not negative |
| Search.BeamSearch | src/qseal/research/search/algorithms.py:211-253 | each frontier is the first of the ranking of one node for each text among the children of the one before, until none is active; the best node of all frontiers is returned, replayable and, with the shorter tie policy, never of negative reward |
| Exhaustive.AllSequencesCovered | src/qseal/research/search/algorithms.py:277-305 | when the frontier is empty every replayable sequence is covered by the best node of its SQL |
| Exhaustive.BudgetSuffices | src/qseal/research/search/algorithms.py:280-302 | a node budget as large as the number of sequences that can be generated is never exceeded |
| Exhaustive.OneIdEachDiffers | src/qseal/research/search/algorithms.py:284-293 | rules listed once with one identifier for each match never offer two actions under one identifier |
| Exhaustive.CountedExact | src/qseal/research/search/algorithms.py:289-302 | a generated node is no candidate exactly when its text's best node is worth more by over the margin, or as much up to the margin and no later in tie order |
| Exhaustive.GeneratedBounded | src/qseal/research/search/algorithms.py:294-314 | whatever was pruned, no generated node beats the one returned by more than twice the margin |
| Exhaustive.ExhaustiveSearch | src/qseal/research/search/algorithms.py:256-314 | with margin zero, within the node budget and when the step limit never binds, the reward returned is the highest over all action sequences; the search is cut only after exactly max_nodes generated sequences with an action left out; breadth first, the sequences generated and the candidates kept determine each other, and the best candidate is returned |
| TimingCache.CachedPerformanceEvaluator.EvaluateQuery | src/qseal/research/environment/cache.py:97-109 | the cached or newly stored result, the new store, hits and misses |
| TimingCache.CachedPerformanceEvaluator.EvaluateQueryPair | src/qseal/research/environment/cache.py:111-174 | both results are those in the store: cached ones as they were, two new ones exactly as measured side by side, one new one rescaled; with hits and misses |
| TimingCache.NormalizeExact | src/qseal/research/environment/cache.py:224-284 | one factor takes the measured anchor to the cached one and multiplies every time; trusted exactly when all three are, with the first reason; unusable anchors change nothing |
| TimingCache.CallExact | src/qseal/research/environment/cache.py:111-174 | which keys a call adds and what each holds: taken alone, side by side, or rescaled |
| TimingCache.HitsExact | src/qseal/research/environment/cache.py:130-134 | hits are the looked-up keys found in the store |
| TimingCache.NormalizeKeepsRatio | src/qseal/research/environment/cache.py:224-284 | a rescaled measurement stands to the cached anchor as the two were measured |
| TimingCache.NewStateKeepsRatio | src/qseal/research/environment/cache.py:150-156 | a call with the original cached keeps the measured ratio |
| TimingCache.NewOriginalKeepsRatio | src/qseal/research/environment/cache.py:157-163 | a call with the rewritten state cached keeps it too |
| TimingCache.FreshPairKeepsRatio | src/qseal/research/environment/cache.py:164-173 | two new states measured side by side keep the measured ratio, and earn exactly it when both are usable |
| TimingCache.NeverOverwritten | src/qseal/research/environment/cache.py:168-174 | no sequence of calls overwrites a cached timing |
| TimingCache.RewardedExactly | src/qseal/research/environment/core.py:351-392 | a pair earns a reward exactly when both timings completed confidently with positive medians |
| TimingCache.BenchmarkExact | src/qseal/research/environment/core.py:351-380 | status, speedup, row counts and confidence of a pair of states |
| TimingCache.PathTelescopes | src/qseal/research/environment/cache.py:111-174 | the speedups along any path multiply to the first median over the last, whatever else was measured in between |
| TimingCache.PathIndependent | src/qseal/research/environment/cache.py:111-174 | two paths between the same states earn the same total reward |

## Left out

- Parsing SQL text, printing and quoting it, dialects and whitespace: what a rule prints is taken to parse back to the query that
  the model calls its rewrite, up to the provenance text.
- CountDistinctRule.CountDistinctRemoval: SQL leaves the column name of an expression without alias to the implementation; here
  all have the same, so a name derived from the text of the expression is not compared.
- AcceptedValuesCase.CaseSimplification: the same, and an item without alias that becomes a plain column is excluded, because it
  would take that column's name.
- Set-operation queries at the top level, where the verifier compares texts only, and HAVING: opaque text here.
- Qualified table names (`table_sql`): a table is its name.
- Derived tables in FROM and JOIN of a WITH fragment are left as they are instead of being resolved recursively, and the checks
  of an opaque CTE's own clauses are not repeated.
- A WITH clause nested in a CTE body: the code rejects or ignores it depending on the path; the theorems about CTEs assume none.
- Window functions: QUALIFY is an arbitrary choice of rows.
- Recursive WITH clauses are rejected, as in the code.
- Chain.SuggestRewriteChain: models statements without a WITH clause, whose steps are whole-query rewrites; steps taken inside a
  subtree are covered one at a time by Splicing.SubtreeSuggestionSound.
- Bags.EvalBag: leaves out ANY_VALUE, QUALIFY and row windows, which may see row order, and items of a grouped query that are
  neither grouped columns nor aggregates; MAX, MIN, opaque aggregates and HAVING are covered for engines on which they depend on
  the bag of a group only, values being totally ordered. The same holds for Splicing.SpliceBag and PairReduction.ReducedPairBag.
  Splicing.SpliceSound and PairReduction.ReducedPairSound have no such limit for bodies that keep row order.
- JoinToExists.JoinToExistsWithKey: an ORDER BY about the joined table together with a row window is left out; by
  ExistsOrder.ExistsOrderExact the rewrite is then not accepted.
- PushdownWindows.PushdownDecided: covers unfiltered subqueries under IS NOT NULL; with other filters a lost row window can be
  harmless because no database lets enough rows through.
- ForwardReferences.ForwardExact: covers chains of SELECT *; a list of columns on the way changes what is kept of the rows as well.
- Environment.RunSafe: assumes the verifier sound for trusted catalogs; BuiltinBackend.EpisodeKeepsAnswer discharges that for the
  built-in one, within the limits of its proofs. Trajectory recording and the transition's reason text are not part of the model.
- The external solvers, benchmarking, EXPLAIN comparison and the logarithm of the reward: measured medians are arbitrary reals.
- Fixed-order, random and plain policy search, which take steps without comparing them; the cached verifier; scoring and reports.
- Floating-point rounding: rewards and medians are reals.
- JSON files of the timing cache: the store is a map and loading never fails.
- Assumption and reason texts of suggestions and verdicts.
