/** What every rewrite rule reports. */
module Rewrites {
  import opened Ir

  datatype Status = ProvenEquivalent | NotEquivalent | NotApplicable | Undecided | Unsupported

  datatype RuleName =
    | RemoveUnusedLeftJoin
    | RemoveForeignKeyInnerJoin
    | RewriteJoinDistinctToExists
    | RemoveRedundantNotNullFilter
    | RemoveRedundantAcceptedValuesFilter
    | SimplifyAcceptedValuesCase
    | RemoveRedundantDistinct
    | RemoveRedundantCountDistinct
    | CollapseUniqueGroupBy
    | PredicatePushdown

  datatype Suggestion = Suggestion(rule: RuleName, status: Status, rewritten: Option<SelectQuery>) {
    predicate Proven() {
      status.ProvenEquivalent? && rewritten.Some?
    }
  }

  /** Which part of the query a match rewrites. */
  datatype Target =
    | JoinTarget
    | PredicateTarget(index: nat)
    | ProjectionTarget(index: nat)
    | DistinctTarget
    | GroupByTarget
    | SubqueryTarget

  datatype Match = Match(rule: RuleName, target: Target)

  datatype Result<+T, +E> = Ok(value: T) | Err(error: E)

  datatype MatchError = InvalidMatch | NoLongerApplicable
}
