/** What the searches need to know about replayed sequences, as laws of an arbitrary function from action sequences to
    nodes; replaying in a rewrite environment obeys them. */
module Games {
  import opened Rewrites
  import opened Environment
  import opened Ranking
  import Replays

  datatype Game = Game(run: seq<string> -> Result<Node, StepError>)

  function Sql(n: Node): string {
    n.observation.currentSql
  }

  predicate Over(n: Node) {
    n.terminated || n.truncated
  }

  predicate Reached(g: Game, n: Node) {
    g.run(n.actionIds) == Ok(n)
  }

  /** Every step so far was proven: the episode is over exactly when nothing is left to do or no step is left. */
  predicate Settled(n: Node, maxSteps: nat) {
    && (n.terminated <==> n.observation.actions == [])
    && (n.Active() && n.actionIds != [] ==> |n.actionIds| < maxSteps)
  }

  /** The last proof failed: the SQL is the parent's, and the reward is lower. */
  predicate FailedAfter(n: Node, child: Node) {
    child.observation == n.observation && child.reward < n.reward && child.terminated
  }

  predicate RootLaw(g: Game, maxSteps: nat) {
    g.run([]).Ok? ==> var n := g.run([]).value; n.actionIds == [] && n.reward == 0.0 && Settled(n, maxSteps)
  }

  predicate ChildLaw(g: Game, maxSteps: nat, n: Node, id: string) {
    Reached(g, n) && Settled(n, maxSteps) && !Over(n) && g.run(n.actionIds + [id]).Ok? ==>
      var child := g.run(n.actionIds + [id]).value;
      && child.actionIds == n.actionIds + [id] && Reached(g, child) && |n.actionIds| < maxSteps
      && (FailedAfter(n, child) || Settled(child, maxSteps))
      && exists a :: a in n.observation.actions && a.id == id
  }

  /** A longer sequence is one step more, unless the episode was already over. */
  predicate SequenceLaw(g: Game, maxSteps: nat, ids: seq<string>, id: string) {
    g.run(ids + [id]).Ok? ==>
      && g.run(ids).Ok?
      && var n := g.run(ids).value;
         if Over(n) then g.run(ids + [id]) == Ok(n) else Reached(g, n) && n.actionIds == ids && Settled(n, maxSteps)
  }

  /** The future of a node depends on its SQL only. */
  predicate SameSqlLaw(g: Game, maxSteps: nat, m: Node, n: Node, id: string) {
    Reached(g, m) && Settled(m, maxSteps) && !Over(m) && Reached(g, n) && Settled(n, maxSteps) && !Over(n) &&
      Sql(m) == Sql(n) ==>
      && m.observation.actions == n.observation.actions
      && (g.run(m.actionIds + [id]).Ok? && g.run(n.actionIds + [id]).Ok? ==>
            var x, y := g.run(m.actionIds + [id]).value, g.run(n.actionIds + [id]).value;
            Sql(x) == Sql(y) && x.reward - m.reward == y.reward - n.reward)
  }

  /** Two settled nodes with the same SQL offer the same actions. */
  predicate OfferLaw(g: Game, maxSteps: nat, m: Node, n: Node) {
    Reached(g, m) && Settled(m, maxSteps) && Reached(g, n) && Settled(n, maxSteps) && Sql(m) == Sql(n) ==>
      m.observation.actions == n.observation.actions
  }

  ghost predicate Lawful(g: Game, maxSteps: nat) {
    && RootLaw(g, maxSteps)
    && (forall n, id :: ChildLaw(g, maxSteps, n, id))
    && (forall ids, id :: SequenceLaw(g, maxSteps, ids, id))
    && (forall m, n, id :: SameSqlLaw(g, maxSteps, m, n, id))
    && (forall m, n :: OfferLaw(g, maxSteps, m, n))
  }

  // ----- replaying in a rewrite environment

  function GameOf(c: Config, task: Task): Game {
    Game(ids => Replays.Sequence(c, task, ids))
  }

  ghost predicate Plays(g: Game, c: Config, task: Task) {
    forall ids {:trigger Replays.Sequence(c, task, ids)} :: g.run(ids) == Replays.Sequence(c, task, ids)
  }

  method Play(c: Config, task: Task, ghost g: Game, ids: seq<string>) returns (r: Result<Node, StepError>)
    requires Plays(g, c, task)
    ensures r == g.run(ids)
  {
    r := Replays.RunSequence(c, task, ids);
  }

  lemma SettledIsProper(c: Config, task: Task, n: Node)
    requires Replays.Reached(c, task, n)
    ensures Replays.Faithful(c, task, n) && (Settled(n, task.maxSteps) ==> Replays.Proper(c, task, n))
  {
    Replays.SequenceOutcome(c, task, n.actionIds);
  }

  lemma ProperIsSettled(c: Config, task: Task, n: Node)
    requires Replays.Proper(c, task, n)
    ensures Settled(n, task.maxSteps)
  {
  }

  lemma ReplayRootLaw(c: Config, task: Task)
    ensures RootLaw(GameOf(c, task), task.maxSteps)
  {
    if Replays.Root(c, task).Ok? {
      Replays.RootProper(c, task);
      ProperIsSettled(c, task, Replays.Root(c, task).value.node);
    }
  }

  lemma ReplayChildLaw(c: Config, task: Task, n: Node, id: string)
    ensures ChildLaw(GameOf(c, task), task.maxSteps, n, id)
  {
    if Replays.Reached(c, task, n) && Settled(n, task.maxSteps) && !Over(n) {
      SettledIsProper(c, task, n);
      Replays.ChildReached(c, task, n, id);
      if Replays.Child(c, task, n, id).Ok? {
        var child := Replays.Child(c, task, n, id).value;
        Replays.ChildOutcome(c, task, n, id);
        Replays.ChildIsAction(c, task, n, id);
        if Replays.Proper(c, task, child) {
          ProperIsSettled(c, task, child);
        }
      }
    }
  }

  lemma ReplaySequenceLaw(c: Config, task: Task, ids: seq<string>, id: string)
    ensures SequenceLaw(GameOf(c, task), task.maxSteps, ids, id)
  {
    Replays.SequenceMore(c, task, ids, id);
    Replays.SequenceRuns(c, task, ids);
    if Replays.Sequence(c, task, ids).Ok? && !Over(Replays.Sequence(c, task, ids).value) {
      Replays.SequenceOutcome(c, task, ids);
      ProperIsSettled(c, task, Replays.Sequence(c, task, ids).value);
    }
  }

  lemma ReplayOfferLaw(c: Config, task: Task, m: Node, n: Node)
    ensures OfferLaw(GameOf(c, task), task.maxSteps, m, n)
  {
    if Replays.Reached(c, task, m) && Replays.Reached(c, task, n) {
      SettledIsProper(c, task, m);
      SettledIsProper(c, task, n);
    }
  }

  lemma ReplaySameSqlLaw(c: Config, task: Task, m: Node, n: Node, id: string)
    ensures SameSqlLaw(GameOf(c, task), task.maxSteps, m, n, id)
  {
    if Replays.Reached(c, task, m) && Replays.Reached(c, task, n) && !Over(m) && !Over(n) && Sql(m) == Sql(n) {
      SettledIsProper(c, task, m);
      SettledIsProper(c, task, n);
      Replays.ChildReached(c, task, m, id);
      Replays.ChildReached(c, task, n, id);
      if Replays.Child(c, task, m, id).Ok? && Replays.Child(c, task, n, id).Ok? {
        Replays.SameSqlSameChild(c, task, m, n, id);
      }
    }
  }

  lemma ReplayIsLawful(c: Config, task: Task)
    ensures Plays(GameOf(c, task), c, task) && Lawful(GameOf(c, task), task.maxSteps)
  {
    ReplayRootLaw(c, task);
    forall n, id ensures ChildLaw(GameOf(c, task), task.maxSteps, n, id) {
      ReplayChildLaw(c, task, n, id);
    }
    forall ids, id ensures SequenceLaw(GameOf(c, task), task.maxSteps, ids, id) {
      ReplaySequenceLaw(c, task, ids, id);
    }
    forall m, n, id ensures SameSqlLaw(GameOf(c, task), task.maxSteps, m, n, id) {
      ReplaySameSqlLaw(c, task, m, n, id);
    }
    forall m, n ensures OfferLaw(GameOf(c, task), task.maxSteps, m, n) {
      ReplayOfferLaw(c, task, m, n);
    }
  }
}
