/** Episodes verified by the built-in verifier: which soundness the environment gets from it. */
module BuiltinBackend {
  import opened Ir
  import Lists
  import opened Semantics
  import opened Constraints
  import opened Rewrites
  import opened Registry
  import opened Environment
  import Verifier

  /** Anything that does not parse is unsupported; set operations are compared as they are. */
  function Decide(a: Parsed, b: Parsed, catalog: Catalog): Status {
    if a.UnsupportedSql? || b.UnsupportedSql? then Unsupported
    else if a.Single? && b.Single? then Verifier.CheckEquivalence(a.query, b.query, catalog).status
    else if a == b then ProvenEquivalent
    else Undecided
  }

  /** SQL that does not parse is unsupported; two single queries get the verifier's verdict; a set operation is proven
      equal to itself, by its text, and otherwise nothing is decided. */
  lemma DecideExact(a: Parsed, b: Parsed, catalog: Catalog)
    ensures (a.UnsupportedSql? || b.UnsupportedSql?) ==> Decide(a, b, catalog) == Unsupported
    ensures a.Single? && b.Single? ==>
              Decide(a, b, catalog) == Verifier.CheckEquivalence(a.query, b.query, catalog).status
    ensures a.SetQuery? && b.SetQuery? ==>
              Decide(a, b, catalog) == if a.text == b.text then ProvenEquivalent else Undecided
    ensures (a.SetQuery? && b.Single?) || (a.Single? && b.SetQuery?) ==> Decide(a, b, catalog) == Undecided
  {
    hide Verifier.CheckEquivalence;
  }

  ghost predicate UsesBuiltin(c: Config) {
    forall a, b, k {:trigger c.verify(a, b, k)} :: c.verify(a, b, k) == Decide(c.parse(a), c.parse(b), k)
  }

  /** Whatever the verifier proves about the query is within the limits of how it was proved. */
  ghost predicate WithinLimits(w: World, q: SelectQuery, r: SelectQuery, k: Catalog) {
    Verifier.CheckEquivalence(q, r, k).status.ProvenEquivalent? ==>
      Verifier.CheckEquivalence(q, r, k).how.Some? &&
        Verifier.Limits(Verifier.CheckEquivalence(q, r, k).how.value, w, q, k)
  }

  /** What SQL means on a database: the bag of rows of a query, the text of a set operation. */
  function Meaning(c: Config, w: World): string -> (multiset<Record>, string) {
    sql =>
      match c.parse(sql)
      case UnsupportedSql => (multiset{}, sql)
      case SetQuery(text) => (multiset{}, text)
      case Single(q) => (Answer(w, q), "")
  }

  function Trusts(w: World): Catalog -> bool {
    k => Meets(w, k)
  }

  lemma ProvenMeansSame(w: World, a: SelectQuery, b: SelectQuery, k: Catalog)
    requires WellFormed(w) && Meets(w, k) && WithinLimits(w, a, b, k)
    requires Verifier.CheckEquivalence(a, b, k).status.ProvenEquivalent?
    ensures Answer(w, a) == Answer(w, b)
  {
    hide Eval;
    hide Verifier.CheckEquivalence;
    hide Verifier.Limits;
    Verifier.CheckEquivalenceSound(w, a, b, k);
  }

  /** The verdict on two SQL texts, when the proof is within the limits of its method. */
  lemma VerdictMeansSame(c: Config, w: World, a: string, b: string, k: Catalog)
    requires UsesBuiltin(c) && WellFormed(w) && Meets(w, k)
    requires c.parse(a).Single? && c.parse(b).Single? ==> WithinLimits(w, c.parse(a).query, c.parse(b).query, k)
    requires c.verify(a, b, k).ProvenEquivalent?
    ensures Meaning(c, w)(a) == Meaning(c, w)(b)
  {
    hide Answer;
    hide Verifier.CheckEquivalence;
    hide Meets;
    hide WithinLimits;
    assert Decide(c.parse(a), c.parse(b), k).ProvenEquivalent?;
    if c.parse(a).Single? && c.parse(b).Single? {
      ProvenMeansSame(w, c.parse(a).query, c.parse(b).query, k);
    }
  }

  /** A rewrite that this call goes on to is within the limits of its proof. */
  ghost predicate CallWithinLimits(c: Config, w: World, s: State, op: Op) {
    op.StepOp? ==>
      var r := StepState(c, s, op.id).1;
      r.Ok? && r.value.status.ProvenEquivalent?
      && c.parse(s.observation.value.currentSql).Single? && c.parse(r.value.proposedSql).Single? ==>
        WithinLimits(w, c.parse(s.observation.value.currentSql).query, c.parse(r.value.proposedSql).query,
          s.task.value.catalog)
  }

  ghost predicate RunWithinLimits(c: Config, w: World, ops: seq<Op>) {
    forall n :: 0 <= n < |ops| ==> CallWithinLimits(c, w, Run(c, FRESH, ops[..n]), ops[n])
  }

  lemma CallKeepsAnswer(c: Config, w: World, s: State, op: Op)
    requires UsesBuiltin(c) && WellFormed(w) && CallWithinLimits(c, w, s, op)
    requires Safe(c, Meaning(c, w), Trusts(w), s)
    ensures Safe(c, Meaning(c, w), Trusts(w), Do(c, s, op))
  {
    hide Meets;
    hide WithinLimits;
    hide Meaning;
    hide Decide;
    hide ActionsOf;
    hide Proposal;
    DoSteady(c, s, op);
    if op.StepOp? {
      StepOutcome(c, s, op.id);
      var r := StepState(c, s, op.id).1;
      if r.Ok? && r.value.status.ProvenEquivalent? && Meets(w, s.task.value.catalog) {
        VerdictMeansSame(c, w, s.observation.value.currentSql, r.value.proposedSql, s.task.value.catalog);
      }
    }
  }

  lemma {:induction false} BuiltinRunSafe(c: Config, w: World, ops: seq<Op>)
    requires UsesBuiltin(c) && WellFormed(w) && RunWithinLimits(c, w, ops)
    ensures Safe(c, Meaning(c, w), Trusts(w), Run(c, FRESH, ops))
    decreases |ops|
  {
    hide CallWithinLimits;
    if ops != [] {
      var before := ops[..|ops| - 1];
      forall n | 0 <= n < |before| ensures CallWithinLimits(c, w, Run(c, FRESH, before[..n]), before[n]) {
        assert before[..n] == ops[..n];
      }
      BuiltinRunSafe(c, w, before);
      CallKeepsAnswer(c, w, Run(c, FRESH, before), ops[|ops| - 1]);
    }
  }

  /** Any sequence of calls leaves the current query with the bag of rows of the initial one, as long as the rewrites
      taken on the way are within the limits of their proofs. */
  lemma EpisodeKeepsAnswer(c: Config, w: World, ops: seq<Op>)
    requires UsesBuiltin(c) && WellFormed(w) && RunWithinLimits(c, w, ops)
    ensures var s := Run(c, FRESH, ops);
            s.observation.Some? && s.task.Some? && Meets(w, s.task.value.catalog)
            && c.parse(s.observation.value.currentSql).Single? && c.parse(s.observation.value.initialSql).Single? ==>
              Answer(w, c.parse(s.observation.value.currentSql).query) ==
                Answer(w, c.parse(s.observation.value.initialSql).query)
  {
    hide Answer;
    hide Meets;
    hide RunWithinLimits;
    BuiltinRunSafe(c, w, ops);
  }

  /** The verifier proves a replayed match under whatever text it was parsed from. */
  lemma ReplayIsProven(c: Config, catalog: Catalog, q: SelectQuery, a: Action, p: SelectQuery)
    requires a in ActionsOf(c, catalog, Single(q)) && c.rules == DEFAULT_RULES
    requires ApplyMatch(q, catalog, a.match_).Ok? && ApplyMatch(q, catalog, a.match_).value.Proven() ==>
               SameNormalized(p, ApplyMatch(q, catalog, a.match_).value.rewritten.value)
    ensures ApplyMatch(q, catalog, a.match_).Ok? && ApplyMatch(q, catalog, a.match_).value.Proven()
    ensures Verifier.CheckEquivalence(q, p, catalog).status.ProvenEquivalent?
  {
    hide ApplyMatch;
    hide Verifier.CheckEquivalence;
    hide AvailableMatches;
    var ms := AvailableMatches(q, catalog, c.rules);
    var i :| 0 <= i < |ms| && Lists.Map(ActionFor(c), ms)[i] == a;
    assert ms[i] in ms && a.match_ == ms[i];
    ActionApplies(c, catalog, q, a);
    var r := ApplyMatch(q, catalog, a.match_).value.rewritten.value;
    Verifier.AvailableMatchVerifies(q, catalog, a.match_, p.rawSql);
    assert p.(rawSql := "").(rawSql := p.rawSql) == p &&
      r.(rawSql := "").(rawSql := p.rawSql) == r.(rawSql := p.rawSql);
  }

  /** With the default rules and printed rewrites that parse back, the built-in verifier proves every action: no step
      fails its proof. */
  lemma NoProofFails(c: Config, s: State, id: string)
    requires UsesBuiltin(c) && RoundTrips(c) && c.rules == DEFAULT_RULES && Steady(c, s)
    ensures var r := StepState(c, s, id).1; r.Ok? ==> r.value.status.ProvenEquivalent?
  {
    hide Verifier.CheckEquivalence;
    hide ApplyMatch;
    var (t, r) := StepState(c, s, id);
    if r.Ok? {
      var o, task := s.observation.value, s.task.value;
      var q := c.parse(o.currentSql).query;
      assert ParsesBack(c, q, task.catalog, r.value.action.match_);
      ActionApplies(c, task.catalog, q, r.value.action);
      ReplayIsProven(c, task.catalog, q, r.value.action, c.parse(r.value.proposedSql).query);
      assert c.verify(o.currentSql, r.value.proposedSql, task.catalog) == r.value.status;
    }
  }

  /** And as long as steps are left, every action on offer is taken, proven. */
  lemma OffersProceed(c: Config, s: State, id: string)
    requires UsesBuiltin(c) && RoundTrips(c) && c.rules == DEFAULT_RULES && Steady(c, s)
    requires InPlay(s) && Offers(s.observation.value, id)
    ensures var r := StepState(c, s, id).1; r.Ok? && r.value.status.ProvenEquivalent?
  {
    hide StepState;
    hide Steady;
    OfferedSteps(c, s, id);
    NoProofFails(c, s, id);
  }
}
