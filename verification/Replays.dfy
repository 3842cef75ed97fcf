/** A search node is a replayed sequence of actions; its children replay one action more. */
module Replays {
  import opened Ir
  import opened Lists
  import opened Rewrites
  import opened Environment
  import opened Ranking
  import Chain

  datatype Episode = Episode(state: State, node: Node)

  function Root(c: Config, task: Task): Result<Episode, StepError> {
    var (s, r) := ResetState(c, FRESH, task);
    if r.Err? then Err(r.error)
    else Ok(Episode(s, Node([], [], r.value, 0.0, r.value.actions == [], false)))
  }

  function Extended(n: Node, t: Transition): Node {
    Node(n.actionIds + [t.action.id], n.transitions + [t], t.observation, n.reward + t.reward, t.terminated,
      t.truncated)
  }

  function Extend(c: Config, e: Episode, id: string): Result<Episode, StepError> {
    var (s, r) := StepState(c, e.state, id);
    if r.Err? then Err(r.error) else Ok(Episode(s, Extended(e.node, r.value)))
  }

  predicate Over(n: Node) {
    n.terminated || n.truncated
  }

  /** Replays the actions until the episode is over. */
  function Replay(c: Config, e: Episode, ids: seq<string>): Result<Episode, StepError>
    decreases |ids|
  {
    if ids == [] then Ok(e)
    else
      var next := Extend(c, e, ids[0]);
      if next.Err? || Over(next.value.node) then next else Replay(c, next.value, ids[1..])
  }

  /** Replaying from the start in a new environment. */
  function Sequence(c: Config, task: Task, ids: seq<string>): Result<Node, StepError> {
    var root := Root(c, task);
    if root.Err? then Err(root.error)
    else
      var e := Replay(c, root.value, ids);
      if e.Err? then Err(e.error) else Ok(e.value.node)
  }

  method RunSequence(c: Config, task: Task, ids: seq<string>) returns (r: Result<Node, StepError>)
    ensures r == Sequence(c, task, ids)
  {
    var env := new RewriteEnvironment(c);
    var start := env.Reset(task);
    if start.Err? {
      return Err(start.error);
    }
    var node := Node([], [], start.value, 0.0, start.value.actions == [], false);
    var i := 0;
    while i < |ids|
      invariant 0 <= i <= |ids| && env.config == c && fresh(env)
      invariant Root(c, task).Ok?
      invariant Replay(c, Root(c, task).value, ids) == Replay(c, Episode(env.Current(), node), ids[i..])
    {
      assert ids[i..][0] == ids[i] && ids[i..][1..] == ids[i + 1..];
      var t := env.Step(ids[i]);
      if t.Err? {
        return Err(t.error);
      }
      node := Extended(node, t.value);
      i := i + 1;
      if Over(node) {
        return Ok(node);
      }
    }
    return Ok(node);
  }

  // ----- nodes that replay to themselves

  predicate Reached(c: Config, task: Task, n: Node) {
    Sequence(c, task, n.actionIds) == Ok(n)
  }

  function StateAt(task: Task, n: Node): State {
    State(Some(task), Some(n.observation), false)
  }

  /** One more action after a node whose episode goes on. */
  function Child(c: Config, task: Task, n: Node, id: string): Result<Node, StepError> {
    var (s, r) := StepState(c, StateAt(task, n), id);
    if r.Err? then Err(r.error) else Ok(Extended(n, r.value))
  }

  predicate StateFits(task: Task, e: Episode) {
    && e.state.task == Some(task) && e.state.observation == Some(e.node.observation)
    && (!Over(e.node) ==> !e.state.done)
  }

  lemma ExtendFits(c: Config, task: Task, e: Episode, id: string)
    requires StateFits(task, e)
    ensures Extend(c, e, id).Ok? ==> StateFits(task, Extend(c, e, id).value)
  {
    StepOutcome(c, e.state, id);
  }

  lemma {:induction false} ReplayFits(c: Config, task: Task, e: Episode, ids: seq<string>)
    requires StateFits(task, e)
    ensures Replay(c, e, ids).Ok? ==> StateFits(task, Replay(c, e, ids).value)
    decreases |ids|
  {
    if ids != [] {
      ExtendFits(c, task, e, ids[0]);
      var next := Extend(c, e, ids[0]);
      if next.Ok? {
        ReplayFits(c, task, next.value, ids[1..]);
      }
    }
  }

  /** Replaying one action more is one step more, unless the episode was already over. */
  lemma {:induction false} ReplayMore(c: Config, e: Episode, ids: seq<string>, id: string)
    ensures Replay(c, e, ids).Err? ==> Replay(c, e, ids + [id]) == Replay(c, e, ids)
    ensures Replay(c, e, ids).Ok? ==>
              var f := Replay(c, e, ids).value;
              Replay(c, e, ids + [id]) == if ids != [] && Over(f.node) then Ok(f) else Extend(c, f, id)
    decreases |ids|
  {
    var more := ids + [id];
    if ids == [] {
      assert more == [id] && more[1..] == [];
    } else {
      assert more[0] == ids[0] && more[1..] == ids[1..] + [id];
      var next := Extend(c, e, ids[0]);
      if next.Ok? && !Over(next.value.node) {
        ReplayMore(c, next.value, ids[1..], id);
        assert ids[1..] == [] ==> Replay(c, next.value, ids[1..]) == Ok(next.value);
      }
    }
  }

  /** What replaying one action more gives, for any sequence whatever. */
  lemma SequenceMore(c: Config, task: Task, ids: seq<string>, id: string)
    ensures Sequence(c, task, ids + [id]).Ok? ==>
              && Sequence(c, task, ids).Ok?
              && var n := Sequence(c, task, ids).value;
                 Sequence(c, task, ids + [id]) == if Over(n) then Ok(n) else Child(c, task, n, id)
    ensures Sequence(c, task, ids).Ok? && !Over(Sequence(c, task, ids).value) ==>
              Sequence(c, task, ids + [id]) == Child(c, task, Sequence(c, task, ids).value, id)
  {
    var root := Root(c, task);
    if root.Ok? {
      ReplayMore(c, root.value, ids, id);
      ReplayFits(c, task, root.value, ids);
    }
  }

  lemma ChildReached(c: Config, task: Task, n: Node, id: string)
    requires Reached(c, task, n) && !Over(n)
    ensures Sequence(c, task, n.actionIds + [id]) == Child(c, task, n, id)
    ensures Child(c, task, n, id).Ok? ==>
              Child(c, task, n, id).value.actionIds == n.actionIds + [id] &&
                Reached(c, task, Child(c, task, n, id).value)
  {
    SequenceMore(c, task, n.actionIds, id);
  }

  // ----- what a child can be

  function Sql(n: Node): string {
    n.observation.currentSql
  }

  /** The actions on offer are those of the SQL. */
  predicate Faithful(c: Config, task: Task, n: Node) {
    n.observation == ObservationFor(c, task, Sql(n), n.observation.stepIndex, c.parse(Sql(n)))
  }

  /** The SQL was proven at every step. */
  predicate Proper(c: Config, task: Task, n: Node) {
    && Faithful(c, task, n) && n.observation.stepIndex == |n.actionIds|
    && (n.terminated <==> n.observation.actions == [])
    && (n.truncated ==> n.observation.actions != [] && n.observation.stepIndex >= task.maxSteps)
    && (n.Active() && n.actionIds != [] ==> n.observation.stepIndex < task.maxSteps)
  }

  /** The last proof failed: the SQL is the parent's, and the reward is lower. */
  predicate FailedAfter(n: Node, child: Node) {
    child.observation == n.observation && child.reward < n.reward && child.terminated && !child.truncated
  }

  lemma ChildOutcome(c: Config, task: Task, n: Node, id: string)
    requires Proper(c, task, n) && !Over(n) && Child(c, task, n, id).Ok?
    ensures var child := Child(c, task, n, id).value;
            FailedAfter(n, child) || (Proper(c, task, child) && child.reward == n.reward + c.reward(Sql(n), Sql(child)))
    ensures |Child(c, task, n, id).value.actionIds| == |n.actionIds| + 1
    ensures |n.actionIds| < task.maxSteps
  {
    StepOutcome(c, StateAt(task, n), id);
  }

  /** Children of nodes with the same SQL have the same SQL and gain the same reward. */
  lemma SameSqlSameChild(c: Config, task: Task, m: Node, n: Node, id: string)
    requires Faithful(c, task, m) && Faithful(c, task, n) && Sql(m) == Sql(n)
    requires Child(c, task, m, id).Ok? && Child(c, task, n, id).Ok?
    ensures var x, y := Child(c, task, m, id).value, Child(c, task, n, id).value;
            Sql(x) == Sql(y) && x.reward - m.reward == y.reward - n.reward
  {
  }

  lemma ChildIsAction(c: Config, task: Task, n: Node, id: string)
    requires Child(c, task, n, id).Ok?
    ensures exists a :: a in n.observation.actions && a.id == id
  {
  }

  lemma RootProper(c: Config, task: Task)
    requires Root(c, task).Ok?
    ensures Proper(c, task, Root(c, task).value.node) && Reached(c, task, Root(c, task).value.node)
    ensures Sequence(c, task, []) == Ok(Root(c, task).value.node)
  {
  }

  /** Every replayed node offers the actions of its SQL, and is proper unless its last proof failed. */
  lemma {:induction false} SequenceOutcome(c: Config, task: Task, ids: seq<string>)
    ensures Sequence(c, task, ids).Ok? ==>
              var n := Sequence(c, task, ids).value;
              Faithful(c, task, n) &&
                (Proper(c, task, n) || (n.terminated && !n.truncated && n.observation.actions != []))
    decreases |ids|
  {
    if ids == [] {
      if Root(c, task).Ok? { RootProper(c, task); }
    } else {
      var before, id := ids[..|ids| - 1], ids[|ids| - 1];
      assert ids == before + [id];
      SequenceMore(c, task, before, id);
      SequenceOutcome(c, task, before);
      if Sequence(c, task, ids).Ok? && !Over(Sequence(c, task, before).value) {
        ChildOutcome(c, task, Sequence(c, task, before).value, id);
      }
    }
  }

  /** A sequence that is not over has run all its actions. */
  lemma {:induction false} SequenceRuns(c: Config, task: Task, ids: seq<string>)
    ensures Sequence(c, task, ids).Ok? && !Over(Sequence(c, task, ids).value) ==>
              Sequence(c, task, ids).value.actionIds == ids && Reached(c, task, Sequence(c, task, ids).value)
    decreases |ids|
  {
    if ids == [] {
      if Root(c, task).Ok? { RootProper(c, task); }
    } else {
      var before, id := ids[..|ids| - 1], ids[|ids| - 1];
      assert ids == before + [id];
      SequenceMore(c, task, before, id);
      SequenceRuns(c, task, before);
      if Sequence(c, task, ids).Ok? && !Over(Sequence(c, task, before).value) {
        ChildReached(c, task, Sequence(c, task, before).value, id);
      }
    }
  }

  // ----- replaying is running the environment

  /** A reset and then one step for each action. */
  function Calls(task: Task, ids: seq<string>): seq<Op> {
    [ResetOp(task)] + seq(|ids|, i requires 0 <= i < |ids| => StepOp(ids[i]))
  }

  function Total(ts: seq<Transition>): real {
    if ts == [] then 0.0 else Total(ts[..|ts| - 1]) + ts[|ts| - 1].reward
  }

  predicate TakenAt(c: Config, task: Task, ids: seq<string>, ts: seq<Transition>, k: nat)
    requires k < |ts| && k < |ids|
  {
    StepState(c, Run(c, FRESH, Calls(task, ids[..k])), ids[k]).1 == Ok(ts[k]) && ts[k].action.id == ids[k]
  }

  /** The node holds what the environment answers to the first actions: to all of them unless the episode ends before.
      Its reward is their sum, and its observation the last one. */
  predicate Traces(c: Config, task: Task, ids: seq<string>, n: Node) {
    var ts := n.transitions;
    && |ts| == |n.actionIds| <= |ids| && n.actionIds == ids[..|ts|] && (|ts| < |ids| ==> Over(n))
    && (forall k :: 0 <= k < |ts| ==> TakenAt(c, task, ids, ts, k))
    && n.reward == Total(ts)
    && (if ts == [] then
          && ResetState(c, FRESH, task).1 == Ok(n.observation)
          && (n.terminated <==> n.observation.actions == []) && !n.truncated
        else
          var last := ts[|ts| - 1];
          n.observation == last.observation && n.terminated == last.terminated && n.truncated == last.truncated)
  }

  lemma CallsMore(c: Config, task: Task, before: seq<string>, id: string)
    ensures Run(c, FRESH, Calls(task, before + [id])) == StepState(c, Run(c, FRESH, Calls(task, before)), id).0
  {
    var ops := Calls(task, before + [id]);
    assert ops == Calls(task, before) + [StepOp(id)] && ops[..|ops| - 1] == Calls(task, before);
  }

  lemma CallsNone(c: Config, task: Task)
    ensures Run(c, FRESH, Calls(task, [])) == ResetState(c, FRESH, task).0
  {
    var ops := Calls(task, []);
    assert ops == [ResetOp(task)] && ops[..0] == [] && Run(c, FRESH, []) == FRESH;
  }

  /** More actions after the episode is over change nothing. */
  lemma TracesOver(c: Config, task: Task, before: seq<string>, id: string, n: Node)
    requires Traces(c, task, before, n) && Over(n)
    ensures Traces(c, task, before + [id], n)
  {
    hide TakenAt;
    var ids := before + [id];
    assert ids[..|n.transitions|] == before[..|n.transitions|];
    forall k | 0 <= k < |n.transitions| ensures TakenAt(c, task, ids, n.transitions, k) {
      assert TakenAt(c, task, before, n.transitions, k);
      TakenSame(c, task, before, ids, n.transitions, n.transitions, k);
    }
  }

  lemma TakenSame(c: Config, task: Task, before: seq<string>, ids: seq<string>, ts: seq<Transition>,
    us: seq<Transition>, k: nat)
    requires before <= ids && ts <= us && k < |ts| && k < |before| && TakenAt(c, task, before, ts, k)
    ensures TakenAt(c, task, ids, us, k)
  {
    assert ids[..k] == before[..k];
  }

  lemma ChildExtends(c: Config, task: Task, n: Node, id: string) returns (t: Transition)
    requires Child(c, task, n, id).Ok?
    ensures Child(c, task, n, id).value == Extended(n, t) && t.action.id == id
    ensures StepState(c, StateAt(task, n), id).1 == Ok(t)
  {
    hide Proposal;
    hide ActionsOf;
    t := StepState(c, StateAt(task, n), id).1.value;
  }

  lemma TakenLast(c: Config, task: Task, before: seq<string>, id: string, n: Node, t: Transition)
    requires |n.transitions| == |before| && Run(c, FRESH, Calls(task, before)) == StateAt(task, n)
    requires StepState(c, StateAt(task, n), id).1 == Ok(t) && t.action.id == id
    ensures TakenAt(c, task, before + [id], n.transitions + [t], |before|)
  {
    hide StepState;
    assert (before + [id])[..|before|] == before;
  }

  lemma TotalMore(ts: seq<Transition>, t: Transition)
    ensures Total(ts + [t]) == Total(ts) + t.reward
  {
    assert (ts + [t])[..|ts|] == ts;
  }

  lemma TracesChild(c: Config, task: Task, before: seq<string>, id: string, n: Node)
    requires Traces(c, task, before, n) && !Over(n) && Child(c, task, n, id).Ok?
    requires Run(c, FRESH, Calls(task, before)) == StateAt(task, n)
    ensures Traces(c, task, before + [id], Child(c, task, n, id).value)
  {
    hide TakenAt;
    hide Child;
    hide StepState;
    hide Run;
    hide Total;
    var t := ChildExtends(c, task, n, id);
    var ids, ts := before + [id], n.transitions + [t];
    assert ts[..|n.transitions|] == n.transitions && ids[..|before|] == before && n.actionIds == before;
    assert ids[..|ts|] == ids;
    TotalMore(n.transitions, t);
    TakenLast(c, task, before, id, n, t);
    forall k | 0 <= k < |before| ensures TakenAt(c, task, ids, ts, k) {
      TakenSame(c, task, before, ids, n.transitions, ts, k);
    }
  }

  lemma ChildStateAt(c: Config, task: Task, n: Node, id: string)
    requires !Over(n) && Child(c, task, n, id).Ok?
    ensures var m := Child(c, task, n, id).value; !Over(m) ==> StepState(c, StateAt(task, n), id).0 == StateAt(task, m)
  {
    StepOutcome(c, StateAt(task, n), id);
  }

  /** A replayed node is what driving the environment through its actions gives. */
  lemma {:induction false} SequenceTraces(c: Config, task: Task, ids: seq<string>)
    requires Sequence(c, task, ids).Ok?
    ensures var n := Sequence(c, task, ids).value;
            && Traces(c, task, ids, n)
            && (!Over(n) ==> Run(c, FRESH, Calls(task, ids)) == StateAt(task, n))
    decreases |ids|
  {
    if ids == [] {
      CallsNone(c, task);
    } else {
      hide Sequence;
      hide Traces;
      hide StepState;
      hide Child;
      var before, id := ids[..|ids| - 1], ids[|ids| - 1];
      assert ids == before + [id];
      SequenceMore(c, task, before, id);
      SequenceTraces(c, task, before);
      var n := Sequence(c, task, before).value;
      if Over(n) {
        TracesOver(c, task, before, id, n);
      } else {
        TracesChild(c, task, before, id, n);
        ChildStateAt(c, task, n, id);
        CallsMore(c, task, before, id);
      }
    }
  }

  // ----- the step limit

  predicate NodeWithinMeasure(c: Config, task: Task, n: Node) {
    n.observation.stepIndex + SizeOf(c.parse(Sql(n))) <= SizeOf(c.parse(task.sql))
  }

  lemma ChildWithinMeasure(c: Config, task: Task, n: Node, id: string)
    requires RoundTrips(c) && Faithful(c, task, n) && NodeWithinMeasure(c, task, n)
    ensures Child(c, task, n, id).Ok? ==> NodeWithinMeasure(c, task, Child(c, task, n, id).value)
  {
    var (t, r) := StepState(c, StateAt(task, n), id);
    if r.Ok? && r.value.status.ProvenEquivalent? {
      ActionApplies(c, task.catalog, c.parse(Sql(n)).query, r.value.action);
      ProposalShrinks(c, task, n.observation, r.value.action);
    }
  }

  lemma RootWithinMeasure(c: Config, task: Task)
    ensures Sequence(c, task, []).Ok? ==> NodeWithinMeasure(c, task, Sequence(c, task, []).value)
  {
  }

  lemma {:induction false} SequenceWithinMeasure(c: Config, task: Task, ids: seq<string>)
    requires RoundTrips(c)
    ensures Sequence(c, task, ids).Ok? ==> NodeWithinMeasure(c, task, Sequence(c, task, ids).value)
    decreases |ids|
  {
    hide NodeWithinMeasure;
    hide Proper;
    hide Faithful;
    hide Child;
    if ids == [] {
      RootWithinMeasure(c, task);
    } else {
      var before, id := ids[..|ids| - 1], ids[|ids| - 1];
      assert ids == before + [id];
      SequenceMore(c, task, before, id);
      SequenceWithinMeasure(c, task, before);
      SequenceOutcome(c, task, before);
      if Sequence(c, task, ids).Ok? && !Over(Sequence(c, task, before).value) {
        ChildWithinMeasure(c, task, Sequence(c, task, before).value, id);
      }
    }
  }

  /** No replayed sequence is cut short by the step limit. */
  ghost predicate StepLimitNeverBinds(c: Config, task: Task) {
    forall ids :: Sequence(c, task, ids).Ok? ==> !Sequence(c, task, ids).value.truncated
  }

  /** A step limit as large as the initial query's measure never binds. */
  lemma MeasureBoundsSteps(c: Config, task: Task)
    requires RoundTrips(c) && SizeOf(c.parse(task.sql)) <= task.maxSteps
    ensures StepLimitNeverBinds(c, task)
  {
    forall ids | Sequence(c, task, ids).Ok? ensures !Sequence(c, task, ids).value.truncated {
      var n := Sequence(c, task, ids).value;
      SequenceOutcome(c, task, ids);
      SequenceWithinMeasure(c, task, ids);
      if n.truncated && Proper(c, task, n) {
        NothingLeftNoActions(c, task.catalog, c.parse(Sql(n)));
      }
    }
  }
}
