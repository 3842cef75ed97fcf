/** Deciding whether a rewritten query is equivalent to the original one. */
module Verifier {
  import opened Ir
  import opened Lists
  import opened Semantics
  import opened Pipeline
  import opened Constraints
  import opened Rewrites
  import opened TableRows
  import opened Distinct
  import opened DistinctJoins
  import opened Registry
  import Filters
  import JoinElimination
  import JoinToExists
  import Pushdown

  datatype Method = Identity | Replay(rule: RuleName) | DistinctCheck

  datatype Verification = Verification(status: Status, how: Option<Method>)

  predicate IsRewriteTo(s: Suggestion, rewritten: SelectQuery) {
    s.Proven() && SameNormalized(s.rewritten.value, rewritten)
  }

  /** The rule of the first available match whose replay gives the rewritten query. */
  function FirstReplay(q: SelectQuery, rewritten: SelectQuery, catalog: Catalog, ms: seq<Match>): Option<RuleName> {
    if ms == [] then None
    else
      var s := ApplyMatch(q, catalog, ms[0]);
      if s.Ok? && IsRewriteTo(s.value, rewritten) then Some(ms[0].rule)
      else FirstReplay(q, rewritten, catalog, ms[1..])
  }

  predicate IsDistinctRemoval(original: SelectQuery, rewritten: SelectQuery) {
    original.distinct && !rewritten.distinct && SameNormalized(original.(distinct := false), rewritten)
  }

  /** Looks at the names of the projected items only, and never at the joins. */
  function CheckDistinctRemoval(q: SelectQuery, catalog: Catalog): Verification {
    if q.groupBy != [] || q.having != [] then Verification(Undecided, Some(DistinctCheck))
    else if q.TableName().None? then Verification(Unsupported, Some(DistinctCheck))
    else if q.HasAggregate() then Verification(Undecided, Some(DistinctCheck))
    else
      var t, names := catalog.Table(q.TableName().value), ItemNames(q.projections);
      if t.Some? && t.value.NonNullUniqueKeyContainedIn(names).Some? then
        Verification(ProvenEquivalent, Some(DistinctCheck))
      else if t.Some? && t.value.UniqueKeyContainedIn(names).Some? then Verification(Undecided, Some(DistinctCheck))
      else Verification(NotEquivalent, Some(DistinctCheck))
  }

  /** The rules tried as a whole once no single match fits. */
  const WHOLE_RULES: seq<RuleName> := [
    RemoveRedundantNotNullFilter, RemoveUnusedLeftJoin, RewriteJoinDistinctToExists, PredicatePushdown]

  function FirstWhole(q: SelectQuery, rewritten: SelectQuery, catalog: Catalog,
    rules: seq<RuleName>): Option<RuleName> {
    if rules == [] then None
    else if IsRewriteTo(Suggest(rules[0], q, catalog), rewritten) then Some(rules[0])
    else FirstWhole(q, rewritten, catalog, rules[1..])
  }

  function CheckEquivalence(original: SelectQuery, rewritten: SelectQuery, catalog: Catalog): Verification {
    if original == rewritten then Verification(ProvenEquivalent, Some(Identity))
    else
      var replay := FirstReplay(original, rewritten, catalog, AvailableMatches(original, catalog, DEFAULT_RULES));
      if replay.Some? then Verification(ProvenEquivalent, Some(Replay(replay.value)))
      else if IsDistinctRemoval(original, rewritten) then CheckDistinctRemoval(original, catalog)
      else
        var whole := FirstWhole(original, rewritten, catalog, WHOLE_RULES);
        if whole.Some? then Verification(ProvenEquivalent, Some(Replay(whole.value)))
        else Verification(Undecided, None)
  }

  // ----- soundness

  lemma SameBody(w: World, q: SelectQuery, text: string, envs: seq<Env>)
    ensures Body(w, q.(rawSql := text), envs) == Body(w, q, envs)
  {
  }

  lemma NormalizedSame(w: World, a: SelectQuery, b: SelectQuery)
    requires SameNormalized(a, b)
    ensures Eval(w, a) == Eval(w, b)
  {
    hide Body;
    assert a.(rawSql := "").(rawSql := b.rawSql) == b;
    var c := a.(rawSql := b.rawSql);
    assert b == c;
    SameFrom(w, a, c);
    SameBody(w, a, b.rawSql, FromRows(w, a));
    SameEval(w, a, c);
  }

  /** A trusted non-null unique key among the items that are plain columns of the only table. */
  predicate KeyedItems(q: SelectQuery, catalog: Catalog) {
    && SingleTable(q) && NoStars(q.projections) && ItemsInScope(q) && catalog.Table(q.table.value).Some?
    && catalog.Table(q.table.value).value.NonNullUniqueKeyContainedIn(ColumnNames(q.projections)).Some?
  }

  /** One join on a unique key of the joined table, and columns of the left table with such a key selected. */
  predicate KeyedJoin(q: SelectQuery, catalog: Catalog) {
    && LeftOfJoin(q) && !q.joins[0].tableIsCte && catalog.Table(q.table.value).Some?
    && catalog.Table(q.joins[0].table).Some?
    && catalog.Table(q.table.value).value.NonNullUniqueKeyContainedIn(ItemNames(q.projections)).Some?
    && catalog.Table(q.joins[0].table).value.UniqueKeyContainedIn(JoinElimination.Rights(JoinKey(q))).Some?
  }

  /** What the DISTINCT check takes for granted: that names are columns, and that joins do not multiply rows. */
  predicate DistinctCheckLimits(q: SelectQuery, catalog: Catalog) {
    KeyedItems(q, catalog) || KeyedJoin(q, catalog)
  }

  ghost predicate Limits(how: Method, w: World, q: SelectQuery, catalog: Catalog) {
    match how
    case Identity => true
    case Replay(rule) => RuleLimits(rule, w, q, catalog)
    case DistinctCheck => DistinctCheckLimits(q, catalog)
  }

  lemma {:induction false} ReplaySound(
    w: World, q: SelectQuery, rewritten: SelectQuery, catalog: Catalog, ms: seq<Match>, rule: RuleName)
    requires Meets(w, catalog) && WellFormed(w) && RuleLimits(rule, w, q, catalog)
    requires FirstReplay(q, rewritten, catalog, ms) == Some(rule)
    ensures Answer(w, q) == Answer(w, rewritten)
  {
    var s := ApplyMatch(q, catalog, ms[0]);
    if s.Ok? && IsRewriteTo(s.value, rewritten) {
      MatchSound(w, q, catalog, ms[0]);
      NormalizedSame(w, s.value.rewritten.value, rewritten);
    } else {
      ReplaySound(w, q, rewritten, catalog, ms[1..], rule);
    }
  }

  lemma {:induction false} WholeSound(
    w: World, q: SelectQuery, rewritten: SelectQuery, catalog: Catalog, rules: seq<RuleName>, rule: RuleName)
    requires Meets(w, catalog) && WellFormed(w) && RuleLimits(rule, w, q, catalog)
    requires FirstWhole(q, rewritten, catalog, rules) == Some(rule)
    ensures Answer(w, q) == Answer(w, rewritten)
  {
    if IsRewriteTo(Suggest(rules[0], q, catalog), rewritten) {
      SuggestionSound(rule, w, q, catalog);
      NormalizedSame(w, Suggest(rule, q, catalog).rewritten.value, rewritten);
    } else {
      WholeSound(w, q, rewritten, catalog, rules[1..], rule);
    }
  }

  lemma DistinctCheckSound(w: World, q: SelectQuery, rewritten: SelectQuery, catalog: Catalog)
    requires Meets(w, catalog) && DistinctCheckLimits(q, catalog) && IsDistinctRemoval(q, rewritten)
    requires CheckDistinctRemoval(q, catalog).status.ProvenEquivalent?
    ensures Answer(w, q) == Answer(w, rewritten)
  {
    hide Eval;
    hide TableMeets;
    var t := catalog.Table(q.table.value).value;
    assert TableMeets(w, RowsOf(w, q), t);
    if KeyedItems(q, catalog) {
      DistinctIsNoop(w, q, t);
    } else {
      assert TableMeets(w, JoinRelation(w, q.joins[0]).rows, catalog.Table(q.joins[0].table).value);
      KeyedJoinNoop(w, q, t, catalog.Table(q.joins[0].table).value);
    }
    NormalizedSame(w, q.(distinct := false), rewritten);
  }

  /** A pair reported as proven returns the same bag of rows on every database that meets the constraints, whether
      by identity, by replaying a rule or by DISTINCT removal. */
  lemma CheckEquivalenceSound(w: World, original: SelectQuery, rewritten: SelectQuery, catalog: Catalog)
    requires Meets(w, catalog) && WellFormed(w)
    requires CheckEquivalence(original, rewritten, catalog).status.ProvenEquivalent?
    requires Limits(CheckEquivalence(original, rewritten, catalog).how.value, w, original, catalog)
    ensures Answer(w, original) == Answer(w, rewritten)
  {
    var ms := AvailableMatches(original, catalog, DEFAULT_RULES);
    if original == rewritten {
    } else if FirstReplay(original, rewritten, catalog, ms).Some? {
      ReplaySound(w, original, rewritten, catalog, ms, FirstReplay(original, rewritten, catalog, ms).value);
    } else if IsDistinctRemoval(original, rewritten) {
      DistinctCheckSound(w, original, rewritten, catalog);
    } else {
      WholeSound(w, original, rewritten, catalog, WHOLE_RULES,
        FirstWhole(original, rewritten, catalog, WHOLE_RULES).value);
    }
  }

  // ----- completeness for the verifier's own rewrites

  lemma {:induction false} ReplayFound(q: SelectQuery, rewritten: SelectQuery, catalog: Catalog, ms: seq<Match>,
    m: Match)
    requires m in ms && ApplyMatch(q, catalog, m).Ok? && IsRewriteTo(ApplyMatch(q, catalog, m).value, rewritten)
    ensures FirstReplay(q, rewritten, catalog, ms).Some?
  {
    if ms[0] != m {
      ReplayFound(q, rewritten, catalog, ms[1..], m);
    }
  }

  /** Whatever an available match rewrites a query to, whatever its provenance text, is reported as proven. */
  lemma AvailableMatchVerifies(q: SelectQuery, catalog: Catalog, m: Match, text: string)
    requires m in AvailableMatches(q, catalog, DEFAULT_RULES)
    ensures ApplyMatch(q, catalog, m).Ok? && ApplyMatch(q, catalog, m).value.Proven()
    ensures var r := ApplyMatch(q, catalog, m).value.rewritten.value;
            CheckEquivalence(q, r.(rawSql := text), catalog).status.ProvenEquivalent?
  {
    AvailableMatchesApply(q, catalog, DEFAULT_RULES, m);
    var r := ApplyMatch(q, catalog, m).value.rewritten.value;
    ReplayFound(q, r.(rawSql := text), catalog, AvailableMatches(q, catalog, DEFAULT_RULES), m);
  }
}
