/** Episodes of verified rewrites: the state machine that a search drives. */
module Environment {
  import opened Ir
  import opened Lists
  import opened Constraints
  import opened Rewrites
  import opened Registry
  import Chain

  /** A set operation is known by its text. */
  datatype Parsed = UnsupportedSql | SetQuery(text: string) | Single(query: SelectQuery)

  datatype Task = Task(sql: string, catalog: Catalog, maxSteps: nat)

  datatype Action = Action(id: string, match_: Match)

  datatype Observation = Observation(initialSql: string, currentSql: string, stepIndex: nat, actions: seq<Action>)

  datatype Transition = Transition(
    action: Action,
    observation: Observation,
    proposedSql: string,
    reward: real,
    terminated: bool,
    truncated: bool,
    status: Status)

  /** What an environment is made with. Parsing, the verifier and the measured reward are outside of it. */
  datatype Config = Config(
    parse: string -> Parsed,
    render: SelectQuery -> string,
    actionId: Match -> string,
    rules: seq<RuleName>,
    verify: (string, string, Catalog) -> Status,
    reward: (string, string) -> real)

  datatype StepError =
    | NotReset
    | EpisodeComplete
    | NoActions
    | StepLimitReached
    | ActionUnavailable
    | SqlUnsupported
    | MatchRefused(error: MatchError)
    | NoSqlProduced

  datatype State = State(task: Option<Task>, observation: Option<Observation>, done: bool)

  function ActionFor(c: Config): Match -> Action {
    m => Action(c.actionId(m), m)
  }

  function ActionsOf(c: Config, catalog: Catalog, parsed: Parsed): seq<Action> {
    if parsed.Single? then Map(ActionFor(c), AvailableMatches(parsed.query, catalog, c.rules)) else []
  }

  function ObservationFor(c: Config, task: Task, sql: string, stepIndex: nat, parsed: Parsed): Observation {
    Observation(task.sql, sql, stepIndex, ActionsOf(c, task.catalog, parsed))
  }

  function ResetState(c: Config, s: State, task: Task): (State, Result<Observation, StepError>) {
    var parsed := c.parse(task.sql);
    if parsed.UnsupportedSql? then (s, Err(SqlUnsupported))
    else
      var o := ObservationFor(c, task, task.sql, 0, parsed);
      (State(Some(task), Some(o), false), Ok(o))
  }

  function FindAction(actions: seq<Action>, id: string): (r: Option<Action>)
    ensures r.Some? ==> r.value in actions && r.value.id == id
    ensures r.None? ==> forall a :: a in actions ==> a.id != id
  {
    if actions == [] then None else if actions[0].id == id then Some(actions[0]) else FindAction(actions[1..], id)
  }

  function ActiveError(s: State): Option<StepError> {
    if s.task.None? || s.observation.None? then Some(NotReset)
    else if s.done then Some(EpisodeComplete)
    else if s.observation.value.actions == [] then Some(NoActions)
    else if s.observation.value.stepIndex >= s.task.value.maxSteps then Some(StepLimitReached)
    else None
  }

  function FailureReward(status: Status): real {
    if status.NotEquivalent? then -1.0 else -0.25
  }

  /** The rewritten SQL of an action. */
  function Proposal(c: Config, task: Task, o: Observation, a: Action): Result<string, StepError> {
    var parsed := c.parse(o.currentSql);
    if !parsed.Single? then Err(SqlUnsupported)
    else
      var s := ApplyMatch(parsed.query, task.catalog, a.match_);
      if s.Err? then Err(MatchRefused(s.error))
      else if s.value.rewritten.None? then Err(NoSqlProduced)
      else Ok(c.render(s.value.rewritten.value))
  }

  function StepState(c: Config, s: State, id: string): (State, Result<Transition, StepError>) {
    var inactive := ActiveError(s);
    if inactive.Some? then (s, Err(inactive.value))
    else
      var task, o := s.task.value, s.observation.value;
      var action := FindAction(o.actions, id);
      if action.None? then (s, Err(ActionUnavailable))
      else
        var proposal := Proposal(c, task, o, action.value);
        if proposal.Err? then (s, Err(proposal.error))
        else
          var status := c.verify(o.currentSql, proposal.value, task.catalog);
          if !status.ProvenEquivalent? then
            (s.(done := true),
             Ok(Transition(action.value, o, proposal.value, FailureReward(status), true, false, status)))
          else
            var parsed := c.parse(proposal.value);
            if parsed.UnsupportedSql? then (s, Err(SqlUnsupported))
            else
              var next := ObservationFor(c, task, proposal.value, o.stepIndex + 1, parsed);
              var truncated := next.stepIndex >= task.maxSteps && next.actions != [];
              var terminated := next.actions == [];
              (State(s.task, Some(next), terminated || truncated),
               Ok(Transition(action.value, next, proposal.value, c.reward(o.currentSql, proposal.value), terminated,
                 truncated, status)))
  }

  predicate AtStepLimit(s: State) {
    s.task.Some? && s.observation.Some? && s.observation.value.stepIndex >= s.task.value.maxSteps
  }

  /** An action on offer that still applies is taken: its printed rewrite is proposed, and refused only when it is
      proven and does not parse. */
  ghost predicate TakesOffer(c: Config, s: State, id: string, r: Result<Transition, StepError>) {
    InPlay(s) && Offers(s.observation.value, id) && OfferApplies(c, s, id) ==>
      var o, a, catalog := s.observation.value, Offered(s.observation.value, id), s.task.value.catalog;
      var proposed := c.render(ApplyMatch(c.parse(o.currentSql).query, catalog, a.match_).value.rewritten.value);
      && (r.Ok? ==> r.value.action == a && r.value.proposedSql == proposed)
      && (r.Err? <==> c.verify(o.currentSql, proposed, catalog).ProvenEquivalent? && c.parse(proposed).UnsupportedSql?)
  }

  class RewriteEnvironment {
    const config: Config
    var task: Option<Task>
    var observation: Option<Observation>
    var done: bool

    constructor (config: Config)
      ensures this.config == config && Current() == State(None, None, false)
    {
      this.config := config;
      task := None;
      observation := None;
      done := false;
    }

    function Current(): State
      reads this
    {
      State(task, observation, done)
    }

    method Reset(newTask: Task) returns (r: Result<Observation, StepError>)
      modifies this
      ensures (Current(), r) == ResetState(config, old(Current()), newTask)
    {
      var parsed := config.parse(newTask.sql);
      if parsed.UnsupportedSql? {
        return Err(SqlUnsupported);
      }
      var o := ObservationFor(config, newTask, newTask.sql, 0, parsed);
      task := Some(newTask);
      observation := Some(o);
      done := false;
      return Ok(o);
    }

    method Step(id: string) returns (r: Result<Transition, StepError>)
      modifies this
      ensures (Current(), r) == StepState(config, old(Current()), id)
      ensures r == Err(StepLimitReached) ==> AtStepLimit(old(Current()))
      ensures TakesOffer(config, old(Current()), id, r)
    {
      hide ActionsOf;
      hide Proposal;
      hide TakesOffer;
      hide AtStepLimit;
      StepPromises(config, Current(), id);
      var inactive := ActiveError(Current());
      if inactive.Some? {
        return Err(inactive.value);
      }
      var o := observation.value;
      var action := FindAction(o.actions, id);
      if action.None? {
        return Err(ActionUnavailable);
      }
      var proposal := Proposal(config, task.value, o, action.value);
      if proposal.Err? {
        return Err(proposal.error);
      }
      var status := config.verify(o.currentSql, proposal.value, task.value.catalog);
      if !status.ProvenEquivalent? {
        done := true;
        return Ok(Transition(action.value, o, proposal.value, FailureReward(status), true, false, status));
      }
      var parsed := config.parse(proposal.value);
      if parsed.UnsupportedSql? {
        return Err(SqlUnsupported);
      }
      var next := ObservationFor(config, task.value, proposal.value, o.stepIndex + 1, parsed);
      var truncated := next.stepIndex >= task.value.maxSteps && next.actions != [];
      var terminated := next.actions == [];
      observation := Some(next);
      done := terminated || truncated;
      return Ok(Transition(action.value, next, proposal.value, config.reward(o.currentSql, proposal.value), terminated,
        truncated, status));
    }
  }

  // ----- when a step succeeds, and to what

  /** An episode that may go on: reset, not over, with actions and steps left. */
  predicate InPlay(s: State) {
    && s.task.Some? && s.observation.Some? && !s.done
    && |s.observation.value.actions| > 0 && s.observation.value.stepIndex < s.task.value.maxSteps
  }

  predicate Offers(o: Observation, id: string) {
    exists k :: 0 <= k < |o.actions| && o.actions[k].id == id
  }

  predicate IsFirst(actions: seq<Action>, id: string, k: nat) {
    k < |actions| && actions[k].id == id && forall i :: 0 <= i < k ==> actions[i].id != id
  }

  lemma {:induction false} FoundFirst(actions: seq<Action>, id: string)
    ensures FindAction(actions, id).Some? ==>
              exists k :: 0 <= k < |actions| && IsFirst(actions, id, k) && actions[k] == FindAction(actions, id).value
  {
    if actions != [] && actions[0].id != id {
      FoundFirst(actions[1..], id);
      if FindAction(actions, id).Some? {
        var k :| 0 <= k < |actions[1..]| && IsFirst(actions[1..], id, k)
                 && actions[1..][k] == FindAction(actions, id).value;
        assert IsFirst(actions, id, k + 1) by {
          forall i | 0 <= i < k + 1 ensures actions[i].id != id {
            assert i > 0 ==> actions[i] == actions[1..][i - 1];
          }
        }
      }
    } else if actions != [] {
      assert IsFirst(actions, id, 0);
    }
  }

  /** The first action of that identifier. */
  ghost function Offered(o: Observation, id: string): (a: Action)
    requires Offers(o, id)
    ensures exists k :: 0 <= k < |o.actions| && IsFirst(o.actions, id, k) && o.actions[k] == a
  {
    FoundFirst(o.actions, id);
    var k :| 0 <= k < |o.actions| && IsFirst(o.actions, id, k); o.actions[k]
  }

  /** The match of the action still applies to the current query and gives a proven rewrite. */
  ghost predicate OfferApplies(c: Config, s: State, id: string)
    requires s.task.Some? && s.observation.Some? && Offers(s.observation.value, id)
  {
    var o := s.observation.value;
    && c.parse(o.currentSql).Single?
    && var applied := ApplyMatch(c.parse(o.currentSql).query, s.task.value.catalog, Offered(o, id).match_);
       applied.Ok? && applied.value.Proven()
  }

  lemma OfferedIsFound(o: Observation, id: string)
    requires Offers(o, id)
    ensures FindAction(o.actions, id) == Some(Offered(o, id))
  {
    FoundFirst(o.actions, id);
    var k :| 0 <= k < |o.actions| && IsFirst(o.actions, id, k) && o.actions[k] == FindAction(o.actions, id).value;
    var n :| 0 <= n < |o.actions| && IsFirst(o.actions, id, n) && o.actions[n] == Offered(o, id);
    assert k == n;
  }

  /** Every refusal and its reason: the step limit refuses only when it is reached. */
  lemma StepRefused(c: Config, s: State, id: string)
    ensures var r := StepState(c, s, id).1;
            && (r == Err(NotReset) <==> s.task.None? || s.observation.None?)
            && (r == Err(EpisodeComplete) <==> s.task.Some? && s.observation.Some? && s.done)
            && (r == Err(NoActions) <==>
                  s.task.Some? && s.observation.Some? && !s.done && |s.observation.value.actions| == 0)
            && (r == Err(StepLimitReached) <==>
                  && s.task.Some? && s.observation.Some? && !s.done && |s.observation.value.actions| > 0
                  && s.observation.value.stepIndex >= s.task.value.maxSteps)
            && (r == Err(ActionUnavailable) <==> InPlay(s) && !Offers(s.observation.value, id))
            && (r.Err? && (r.error.MatchRefused? || r.error.NoSqlProduced? || r.error.SqlUnsupported?) ==>
                  InPlay(s) && Offers(s.observation.value, id))
  {
    hide Proposal;
    if s.task.Some? && s.observation.Some? {
      var o := s.observation.value;
      if Offers(o, id) {
        OfferedIsFound(o, id);
      } else if FindAction(o.actions, id).Some? {
        FoundFirst(o.actions, id);
        assert false;
      }
      if InPlay(s) && Offers(o, id) {
        ProposalErrors(c, s.task.value, o, Offered(o, id));
      }
    }
  }

  lemma ProposalErrors(c: Config, task: Task, o: Observation, a: Action)
    ensures var r := Proposal(c, task, o, a);
            r.Err? ==> r.error.MatchRefused? || r.error.NoSqlProduced? || r.error.SqlUnsupported?
  {
  }

  /** An action on offer whose match applies proposes the printed rewrite. A failed proof costs 1 when the pair is
      refuted and a quarter otherwise, and ends the episode where it was; a proof goes on to the proposal, whose own
      actions say whether the episode is over, and whose reward is the measured one. Only a proven proposal that does
      not parse is refused. */
  lemma StepProgress(c: Config, s: State, id: string)
    requires InPlay(s) && Offers(s.observation.value, id) && OfferApplies(c, s, id)
    ensures var (t, r) := StepState(c, s, id);
            var o, a, catalog := s.observation.value, Offered(s.observation.value, id), s.task.value.catalog;
            var rewrite := ApplyMatch(c.parse(o.currentSql).query, catalog, a.match_).value.rewritten.value;
            var proposed := c.render(rewrite);
            var status := c.verify(o.currentSql, proposed, catalog);
            && (r.Err? <==> status.ProvenEquivalent? && c.parse(proposed).UnsupportedSql?)
            && (r.Err? ==> r.error == SqlUnsupported && t == s)
            && (r.Ok? ==> r.value.action == a && r.value.proposedSql == proposed && r.value.status == status
                          && t.task == s.task && t.observation == Some(r.value.observation)
                          && (t.done <==> r.value.terminated || r.value.truncated))
            && (r.Ok? && !status.ProvenEquivalent? ==>
                  && r.value.reward == (if status == NotEquivalent then -1.0 else -0.25)
                  && r.value.observation == o && r.value.terminated && !r.value.truncated)
            && (r.Ok? && status.ProvenEquivalent? ==>
                  && r.value.reward == c.reward(o.currentSql, proposed)
                  && r.value.observation.currentSql == proposed
                  && r.value.observation.initialSql == s.task.value.sql
                  && r.value.observation.stepIndex == o.stepIndex + 1
                  && r.value.observation.actions == ActionsOf(c, catalog, c.parse(proposed))
                  && (r.value.terminated <==> |r.value.observation.actions| == 0)
                  && (r.value.truncated <==>
                        |r.value.observation.actions| > 0 && o.stepIndex + 1 >= s.task.value.maxSteps))
  {
    hide ActionsOf;
    OfferedIsFound(s.observation.value, id);
  }

  /** One action for each available match, in order, under its identifier; none for what is not a single query. */
  lemma ActionsExact(c: Config, catalog: Catalog, p: Parsed)
    ensures var actions := ActionsOf(c, catalog, p);
            && (!p.Single? ==> actions == [])
            && (p.Single? ==>
                  var ms := AvailableMatches(p.query, catalog, c.rules);
                  && |actions| == |ms|
                  && forall i :: 0 <= i < |ms| ==> actions[i].match_ == ms[i] && actions[i].id == c.actionId(ms[i]))
  {
    hide AvailableMatches;
  }

  /** A task starts at its own SQL with the actions of that SQL, unless the SQL does not parse. */
  lemma ResetExact(c: Config, s: State, task: Task)
    ensures var (t, r) := ResetState(c, s, task);
            && (r.Err? <==> c.parse(task.sql).UnsupportedSql?)
            && (r.Err? ==> r.error == SqlUnsupported && t == s)
            && (r.Ok? ==>
                  && t.task == Some(task) && t.observation == Some(r.value) && !t.done
                  && r.value.initialSql == task.sql && r.value.currentSql == task.sql && r.value.stepIndex == 0
                  && r.value.actions == ActionsOf(c, task.catalog, c.parse(task.sql)))
  {
    hide ActionsOf;
  }

  lemma StepPromises(c: Config, s: State, id: string)
    ensures var r := StepState(c, s, id).1; (r == Err(StepLimitReached) ==> AtStepLimit(s)) && TakesOffer(c, s, id, r)
  {
    hide StepState;
    StepRefused(c, s, id);
    if InPlay(s) && Offers(s.observation.value, id) && OfferApplies(c, s, id) {
      StepProgress(c, s, id);
    }
  }

  // ----- one step

  /** A step either fails and changes nothing, or ends the episode on a failed proof with the observation as it was, or
      moves one step on to proven SQL. Nothing happens once the episode is done. */
  lemma StepOutcome(c: Config, s: State, id: string)
    ensures var (t, r) := StepState(c, s, id);
            && (s.done ==> r.Err?)
            && (r.Err? ==> t == s)
            && (r.Ok? && !r.value.status.ProvenEquivalent? ==>
                  && t == s.(done := true) && Some(r.value.observation) == s.observation
                  && r.value.reward < 0.0 && r.value.terminated)
            && (r.Ok? && r.value.status.ProvenEquivalent? ==>
                  && t.observation == Some(r.value.observation) && t.task == s.task && s.observation.Some?
                  && t.observation.value.stepIndex == s.observation.value.stepIndex + 1 <= s.task.value.maxSteps
                  && c.verify(s.observation.value.currentSql, t.observation.value.currentSql,
                    s.task.value.catalog).ProvenEquivalent?
                  && (t.done <==> r.value.terminated || r.value.truncated))
  {
  }

  // ----- whole runs

  datatype Op = ResetOp(task: Task) | StepOp(id: string)

  function Do(c: Config, s: State, op: Op): State {
    match op
    case ResetOp(task) => ResetState(c, s, task).0
    case StepOp(id) => StepState(c, s, id).0
  }

  function Run(c: Config, s: State, ops: seq<Op>): State
    decreases |ops|
  {
    if ops == [] then s else Do(c, Run(c, s, ops[..|ops| - 1]), ops[|ops| - 1])
  }

  const FRESH := State(None, None, false)

  /** With a catalog that can be trusted, SQL proven equivalent means the same. */
  ghost predicate Sound<M(!new)>(c: Config, meaning: string -> M, trusted: Catalog -> bool) {
    forall a, b, k :: trusted(k) && c.verify(a, b, k).ProvenEquivalent? ==> meaning(a) == meaning(b)
  }

  /** Within the step limit, and with the actions of the current SQL on offer. */
  predicate Steady(c: Config, s: State) {
    s.observation.Some? ==>
      && s.task.Some?
      && var o := s.observation.value;
         && o.initialSql == s.task.value.sql && o.stepIndex <= s.task.value.maxSteps
         && o.actions == ActionsOf(c, s.task.value.catalog, c.parse(o.currentSql))
  }

  /** And the current SQL means what the initial SQL means, if the task's catalog can be trusted. */
  predicate Safe<M(==)>(c: Config, meaning: string -> M, trusted: Catalog -> bool, s: State) {
    && Steady(c, s)
    && (s.observation.Some? && trusted(s.task.value.catalog) ==>
          meaning(s.observation.value.currentSql) == meaning(s.observation.value.initialSql))
  }

  lemma DoSteady(c: Config, s: State, op: Op)
    requires Steady(c, s)
    ensures Steady(c, Do(c, s, op))
  {
    if op.StepOp? {
      StepOutcome(c, s, op.id);
    }
  }

  lemma {:induction false} RunSteady(c: Config, ops: seq<Op>)
    ensures Steady(c, Run(c, FRESH, ops))
    decreases |ops|
  {
    if ops != [] {
      RunSteady(c, ops[..|ops| - 1]);
      DoSteady(c, Run(c, FRESH, ops[..|ops| - 1]), ops[|ops| - 1]);
    }
  }

  lemma DoSafe<M(!new)>(c: Config, meaning: string -> M, trusted: Catalog -> bool, s: State, op: Op)
    requires Sound(c, meaning, trusted) && Safe(c, meaning, trusted, s)
    ensures Safe(c, meaning, trusted, Do(c, s, op))
  {
    DoSteady(c, s, op);
    if op.StepOp? {
      StepOutcome(c, s, op.id);
    }
  }

  /** With a sound verifier every state that any sequence of calls reaches is safe. */
  lemma {:induction false} RunSafe<M(!new)>(c: Config, meaning: string -> M, trusted: Catalog -> bool, ops: seq<Op>)
    requires Sound(c, meaning, trusted)
    ensures Safe(c, meaning, trusted, Run(c, FRESH, ops))
    decreases |ops|
  {
    if ops != [] {
      RunSafe(c, meaning, trusted, ops[..|ops| - 1]);
      DoSafe(c, meaning, trusted, Run(c, FRESH, ops[..|ops| - 1]), ops[|ops| - 1]);
    }
  }

  // ----- how long an episode can last

  /** What a replayed match rewrites a parsed query to parses back from its text, up to the text itself. */
  predicate ParsesBack(c: Config, q: SelectQuery, catalog: Catalog, m: Match) {
    var s := ApplyMatch(q, catalog, m);
    s.Ok? && s.value.Proven() ==>
      var p := c.parse(c.render(s.value.rewritten.value)); p.Single? && SameNormalized(p.query, s.value.rewritten.value)
  }

  ghost predicate RoundTrips(c: Config) {
    forall sql, catalog, m :: c.parse(sql).Single? ==> ParsesBack(c, c.parse(sql).query, catalog, m)
  }

  function SizeOf(p: Parsed): nat {
    if p.Single? then Chain.Measure(p.query) else 0
  }

  /** The steps taken so far and the rewrites still possible never exceed what the initial query had to use up. */
  predicate WithinMeasure(c: Config, s: State) {
    s.observation.Some? ==>
      var o := s.observation.value; o.stepIndex + SizeOf(c.parse(o.currentSql)) <= SizeOf(c.parse(o.initialSql))
  }

  lemma ProposalShrinks(c: Config, task: Task, o: Observation, a: Action)
    requires RoundTrips(c) && Proposal(c, task, o, a).Ok?
    requires c.parse(o.currentSql).Single?
    requires ApplyMatch(c.parse(o.currentSql).query, task.catalog, a.match_).value.Proven()
    ensures SizeOf(c.parse(Proposal(c, task, o, a).value)) < SizeOf(c.parse(o.currentSql))
  {
    var q := c.parse(o.currentSql).query;
    assert ParsesBack(c, q, task.catalog, a.match_);
    Chain.MatchShrinks(q, task.catalog, a.match_);
    Chain.MeasureNormalized(c.parse(Proposal(c, task, o, a).value).query,
      ApplyMatch(q, task.catalog, a.match_).value.rewritten.value);
  }

  lemma ActionApplies(c: Config, catalog: Catalog, q: SelectQuery, a: Action)
    requires a in ActionsOf(c, catalog, Single(q))
    ensures ApplyMatch(q, catalog, a.match_).Ok? && ApplyMatch(q, catalog, a.match_).value.Proven()
  {
    var ms := AvailableMatches(q, catalog, c.rules);
    var i :| 0 <= i < |ms| && Map(ActionFor(c), ms)[i] == a;
    AvailableMatchesApply(q, catalog, c.rules, ms[i]);
  }

  /** In every state that calls reach, each action on offer can be taken while steps are left; with printed rewrites
      that parse back it never fails. */
  lemma OfferedSteps(c: Config, s: State, id: string)
    requires Steady(c, s) && InPlay(s) && Offers(s.observation.value, id)
    ensures OfferApplies(c, s, id)
    ensures RoundTrips(c) ==> StepState(c, s, id).1.Ok?
  {
    hide StepState;
    var o, a := s.observation.value, Offered(s.observation.value, id);
    var q := c.parse(o.currentSql).query;
    ActionApplies(c, s.task.value.catalog, q, a);
    StepProgress(c, s, id);
    if RoundTrips(c) {
      assert ParsesBack(c, q, s.task.value.catalog, a.match_);
    }
  }

  lemma DoWithinMeasure(c: Config, s: State, op: Op)
    requires RoundTrips(c) && Steady(c, s) && WithinMeasure(c, s)
    ensures WithinMeasure(c, Do(c, s, op))
  {
    if op.StepOp? {
      var (t, r) := StepState(c, s, op.id);
      if r.Ok? && r.value.status.ProvenEquivalent? {
        var o := s.observation.value;
        ActionApplies(c, s.task.value.catalog, c.parse(o.currentSql).query, r.value.action);
        ProposalShrinks(c, s.task.value, o, r.value.action);
      }
    }
  }

  lemma {:induction false} RunWithinMeasure(c: Config, ops: seq<Op>)
    requires RoundTrips(c)
    ensures WithinMeasure(c, Run(c, FRESH, ops))
    decreases |ops|
  {
    if ops != [] {
      RunSteady(c, ops[..|ops| - 1]);
      RunWithinMeasure(c, ops[..|ops| - 1]);
      DoWithinMeasure(c, Run(c, FRESH, ops[..|ops| - 1]), ops[|ops| - 1]);
    }
  }

  lemma NothingLeftNoActions(c: Config, catalog: Catalog, p: Parsed)
    requires SizeOf(p) == 0
    ensures ActionsOf(c, catalog, p) == []
  {
    if p.Single? && ActionsOf(c, catalog, p) != [] {
      var a := ActionsOf(c, catalog, p)[0];
      ActionApplies(c, catalog, p.query, a);
      Chain.MatchShrinks(p.query, catalog, a.match_);
    }
  }

  /** A step limit as large as the initial query's measure never cuts an episode short. */
  lemma NeverTruncated(c: Config, ops: seq<Op>, id: string)
    requires RoundTrips(c)
    requires var s := Run(c, FRESH, ops); s.task.Some? ==> SizeOf(c.parse(s.task.value.sql)) <= s.task.value.maxSteps
    ensures var r := StepState(c, Run(c, FRESH, ops), id).1; r.Ok? ==> !r.value.truncated
  {
    hide StepState;
    hide Steady;
    hide WithinMeasure;
    RunSteady(c, ops);
    RunWithinMeasure(c, ops);
    NotCut(c, Run(c, FRESH, ops), id);
  }

  lemma NotCut(c: Config, s: State, id: string)
    requires RoundTrips(c) && Steady(c, s) && WithinMeasure(c, s)
    requires s.task.Some? ==> SizeOf(c.parse(s.task.value.sql)) <= s.task.value.maxSteps
    ensures var r := StepState(c, s, id).1; r.Ok? ==> !r.value.truncated
  {
    var (t, r) := StepState(c, s, id);
    DoWithinMeasure(c, s, StepOp(id));
    if r.Ok? && r.value.truncated {
      NothingLeftNoActions(c, s.task.value.catalog, c.parse(r.value.observation.currentSql));
    }
  }
}
