/** Greedy, abstaining policy and beam search over sequences of verified rewrites. */
module Search {
  import opened Lists
  import opened Rewrites
  import opened Environment
  import opened Ranking
  import opened RankingLaws
  import opened Games
  import Replays

  datatype Outcome = Outcome(node: Node, explored: nat, stoppedEarly: bool, searchTruncated: bool)

  datatype SearchError = InvalidMargin | InvalidBeamWidth | InvalidMaxNodes | StepFailed(error: StepError)

  predicate IsChild(g: Game, n: Node, id: string, child: Node) {
    g.run(n.actionIds + [id]) == Ok(child)
  }

  /** The children of a node, one for each action, in order. */
  method ExpandNode(c: Config, task: Task, ghost g: Game, n: Node) returns (r: Result<seq<Node>, StepError>)
    requires Plays(g, c, task)
    ensures r.Ok? ==>
              && |r.value| == |n.observation.actions|
              && forall i :: 0 <= i < |r.value| ==> IsChild(g, n, n.observation.actions[i].id, r.value[i])
  {
    var children := [];
    for i := 0 to |n.observation.actions|
      invariant |children| == i
      invariant forall k :: 0 <= k < i ==> IsChild(g, n, n.observation.actions[k].id, children[k])
    {
      var child := Play(c, task, g, n.actionIds + [n.observation.actions[i].id]);
      if child.Err? {
        return Err(child.error);
      }
      children := children + [child.value];
    }
    return Ok(children);
  }

  // ----- searches that keep one node

  /** A reached node from which the search may go on. */
  predicate Standing(g: Game, n: Node, maxSteps: nat) {
    Reached(g, n) && (Settled(n, maxSteps) || Over(n)) && |n.actionIds| <= maxSteps
  }

  /** Every step taken gained more than the margin. */
  predicate Worthwhile(n: Node, margin: real) {
    if n.actionIds == [] then n.reward == 0.0 else n.reward > |n.actionIds| as real * margin
  }

  /** No step lost more than the margin. */
  predicate LosesLittle(n: Node, margin: real) {
    n.reward >= -(|n.actionIds| as real * margin)
  }

  predicate Gains(n: Node, margin: real, tie: TiePolicy) {
    LosesLittle(n, margin) && (tie.Shorter? ==> Worthwhile(n, margin))
  }

  lemma ChildStands(g: Game, maxSteps: nat, n: Node, id: string, child: Node)
    requires Lawful(g, maxSteps) && Standing(g, n, maxSteps) && n.Active() && IsChild(g, n, id, child)
    ensures Standing(g, child, maxSteps) && |child.actionIds| == |n.actionIds| + 1 && |n.actionIds| < maxSteps
  {
    assert ChildLaw(g, maxSteps, n, id);
  }

  /** A step taken because the child is preferred. */
  lemma AcceptedGains(n: Node, child: Node, margin: real, tie: TiePolicy)
    requires margin >= 0.0 && |child.actionIds| == |n.actionIds| + 1
    requires Gains(n, margin, tie) && !PreferredOrEqual(n, child, margin, tie)
    ensures Gains(child, margin, tie)
  {
    var k, total := |n.actionIds| as real, |n.actionIds| as real * margin;
    assert |child.actionIds| as real == k + 1.0;
    assert |child.actionIds| as real * margin == total + margin by {
      assert (k + 1.0) * margin == k * margin + margin;
    }
    assert n.reward >= -total && child.reward >= n.reward - margin;
    assert LosesLittle(child, margin);
    if tie.Shorter? {
      assert TieLe(n, child, tie) && child.reward > n.reward + margin;
      assert n.actionIds == [] ==> total == 0.0;
      assert n.reward >= total;
    }
  }

  lemma RootGains(g: Game, maxSteps: nat, margin: real, tie: TiePolicy)
    requires Lawful(g, maxSteps) && g.run([]).Ok?
    ensures Standing(g, g.run([]).value, maxSteps) && Gains(g.run([]).value, margin, tie)
  {
    assert RootLaw(g, maxSteps);
  }

  // ----- which nodes a search goes through

  ghost predicate ChildOf(g: Game, n: Node, m: Node) {
    exists a :: a in n.observation.actions && IsChild(g, n, a.id, m)
  }

  /** A child that no other child beats by more than the margin. */
  ghost predicate AmongBest(g: Game, n: Node, m: Node, margin: real) {
    ChildOf(g, n, m) && forall x :: ChildOf(g, n, x) ==> x.reward <= m.reward + margin
  }

  /** The first of those in tie order. */
  ghost predicate BestChild(g: Game, n: Node, m: Node, margin: real, tie: TiePolicy) {
    AmongBest(g, n, m, margin) && forall x :: AmongBest(g, n, x, margin) ==> TieLe(m, x, tie)
  }

  lemma BestIsBestChild(g: Game, n: Node, children: seq<Node>, m: Node, margin: real, tie: TiePolicy)
    requires |children| == |n.observation.actions| && margin >= 0.0
    requires forall i :: 0 <= i < |children| ==> IsChild(g, n, n.observation.actions[i].id, children[i])
    requires m in children && MaxReward(children) - m.reward <= margin
    requires forall x :: x in children && MaxReward(children) - x.reward <= margin ==> TieLe(m, x, tie)
    ensures BestChild(g, n, m, margin, tie)
  {
    forall x ensures ChildOf(g, n, x) <==> x in children {
      if ChildOf(g, n, x) {
        var a :| a in n.observation.actions && IsChild(g, n, a.id, x);
        var i :| 0 <= i < |children| && n.observation.actions[i] == a;
        assert children[i] == x;
      }
      if x in children {
        var i :| 0 <= i < |children| && children[i] == x;
        assert n.observation.actions[i] in n.observation.actions;
      }
    }
    forall x | AmongBest(g, n, x, margin) ensures TieLe(m, x, tie) {
      assert Richest(children) in children;
    }
  }

  /** From the root, each node followed by its best child, which is always preferred. */
  ghost predicate GreedyPath(g: Game, path: seq<Node>, margin: real, tie: TiePolicy) {
    && |path| > 0 && g.run([]) == Ok(path[0])
    && forall i :: 0 <= i && i + 1 < |path| ==> GreedyStep(g, path, i, margin, tie)
  }

  ghost predicate GreedyStep(g: Game, path: seq<Node>, i: nat, margin: real, tie: TiePolicy)
    requires i + 1 < |path|
  {
    && path[i].Active() && BestChild(g, path[i], path[i + 1], margin, tie)
    && !PreferredOrEqual(path[i], path[i + 1], margin, tie)
  }

  function AllActions(path: seq<Node>): nat {
    if path == [] then 0 else AllActions(path[..|path| - 1]) + |path[|path| - 1].observation.actions|
  }

  lemma AllActionsMore(path: seq<Node>, n: Node)
    ensures AllActions(path + [n]) == AllActions(path) + |n.observation.actions|
  {
    assert (path + [n])[..|path|] == path;
  }

  /** The path ends where nothing is left to do, or where the best child is not preferred. */
  ghost predicate GreedyEnd(g: Game, path: seq<Node>, o: Outcome, margin: real, tie: TiePolicy)
    requires |path| > 0
  {
    var last := path[|path| - 1];
    && o.node == last && !o.searchTruncated && (o.stoppedEarly <==> last.Active())
    && (o.stoppedEarly ==> exists m :: BestChild(g, last, m, margin, tie) && PreferredOrEqual(last, m, margin, tie))
    && o.explored == AllActions(if o.stoppedEarly then path else path[..|path| - 1])
  }

  /** The path so far, and what was explored before its last node. */
  ghost predicate GreedySoFar(g: Game, path: seq<Node>, node: Node, explored: nat, margin: real, tie: TiePolicy) {
    GreedyPath(g, path, margin, tie) && path[|path| - 1] == node && explored == AllActions(path[..|path| - 1])
  }

  lemma GreedyStarts(g: Game, margin: real, tie: TiePolicy)
    requires g.run([]).Ok?
    ensures GreedySoFar(g, [g.run([]).value], g.run([]).value, 0, margin, tie)
  {
  }

  lemma GreedySteps(g: Game, path: seq<Node>, node: Node, explored: nat, m: Node, margin: real, tie: TiePolicy)
    requires GreedySoFar(g, path, node, explored, margin, tie) && node.Active() && BestChild(g, node, m, margin, tie)
    requires !PreferredOrEqual(node, m, margin, tie)
    ensures GreedySoFar(g, path + [m], m, explored + |node.observation.actions|, margin, tie)
  {
    hide BestChild;
    hide PreferredOrEqual;
    AllActionsMore(path[..|path| - 1], node);
    hide AllActions;
    var after := path + [m];
    assert path == path[..|path| - 1] + [node] && after[..|after| - 1] == path;
    forall i | 0 <= i && i + 1 < |after| ensures GreedyStep(g, after, i, margin, tie) {
      if i + 1 < |path| {
        assert GreedyStep(g, path, i, margin, tie);
      }
    }
  }

  lemma GreedyStops(g: Game, path: seq<Node>, node: Node, explored: nat, m: Node, margin: real, tie: TiePolicy)
    requires GreedySoFar(g, path, node, explored, margin, tie)
    ensures GreedyPath(g, path, margin, tie)
    ensures !node.Active() ==> GreedyEnd(g, path, Outcome(node, explored, false, false), margin, tie)
    ensures node.Active() && BestChild(g, node, m, margin, tie) && PreferredOrEqual(node, m, margin, tie) ==>
              GreedyEnd(g, path, Outcome(node, explored + |node.observation.actions|, true, false), margin, tie)
  {
    hide BestChild;
    hide PreferredOrEqual;
    AllActionsMore(path[..|path| - 1], node);
    assert path == path[..|path| - 1] + [node];
  }

  method GreedyIn(c: Config, task: Task, margin: real, tie: TiePolicy,
    ghost g: Game) returns (r: Result<Outcome, SearchError>, ghost path: seq<Node>)
    requires Plays(g, c, task) && Lawful(g, task.maxSteps) && margin >= 0.0
    ensures r.Ok? ==> Standing(g, r.value.node, task.maxSteps) && Gains(r.value.node, margin, tie)
    ensures r.Ok? ==> GreedyPath(g, path, margin, tie) && GreedyEnd(g, path, r.value, margin, tie)
    ensures r.Err? ==> r.error.StepFailed?
  {
    hide BestChild;
    hide PreferredOrEqual;
    hide Lawful;
    hide GreedySoFar;
    hide GreedyPath;
    hide GreedyEnd;
    path := [];
    var start := Play(c, task, g, []);
    if start.Err? {
      return Err(StepFailed(start.error)), path;
    }
    var node := start.value;
    path := [node];
    var explored: nat := 0;
    RootGains(g, task.maxSteps, margin, tie);
    GreedyStarts(g, margin, tie);
    while node.Active()
      invariant Standing(g, node, task.maxSteps) && Gains(node, margin, tie)
      invariant GreedySoFar(g, path, node, explored, margin, tie)
      decreases task.maxSteps - |node.actionIds|
    {
      var candidates := ExpandNode(c, task, g, node);
      if candidates.Err? {
        return Err(StepFailed(candidates.error)), path;
      }
      var candidate := BestNode(candidates.value, margin, tie);
      BestIsBestChild(g, node, candidates.value, candidate, margin, tie);
      GreedyStops(g, path, node, explored, candidate, margin, tie);
      ghost var before := explored;
      explored := explored + |candidates.value|;
      var i :| 0 <= i < |candidates.value| && candidates.value[i] == candidate;
      ChildStands(g, task.maxSteps, node, node.observation.actions[i].id, candidate);
      if PreferredOrEqual(node, candidate, margin, tie) {
        return Ok(Outcome(node, explored, true, false)), path;
      }
      AcceptedGains(node, candidate, margin, tie);
      GreedySteps(g, path, node, before, candidate, margin, tie);
      path := path + [candidate];
      node := candidate;
    }
    GreedyStops(g, path, node, explored, node, margin, tie);
    return Ok(Outcome(node, explored, false, false)), path;
  }

  /** Greedy search follows the best children while they are preferred, and returns the replayable node where that ends;
      with the shorter tie policy its k >= 1 accepted steps gained more than k times the margin. */
  method GreedySearch(c: Config, task: Task, margin: real, tie: TiePolicy)
    returns (r: Result<Outcome, SearchError>, ghost path: seq<Node>)
    ensures r == Err(InvalidMargin) <==> margin < 0.0
    ensures r.Ok? ==> margin >= 0.0 && Replays.Reached(c, task, r.value.node) && Gains(r.value.node, margin, tie)
    ensures r.Ok? ==> GreedyPath(GameOf(c, task), path, margin, tie)
                      && GreedyEnd(GameOf(c, task), path, r.value, margin, tie)
  {
    if margin < 0.0 {
      return Err(InvalidMargin), [];
    }
    ReplayIsLawful(c, task);
    r, path := GreedyIn(c, task, margin, tie, GameOf(c, task));
  }

  type Scorer = (Observation, string) -> real

  /** The order of candidate actions: highest score first, then by identifier. */
  predicate ScoredBefore(score: Scorer, o: Observation, a: Action, b: Action) {
    score(o, a.id) > score(o, b.id) || (score(o, a.id) == score(o, b.id) && Lex(CharLe())(a.id, b.id))
  }

  lemma ScoredTransitive(score: Scorer, o: Observation, a: Action, b: Action, d: Action)
    ensures ScoredBefore(score, o, a, b) || ScoredBefore(score, o, b, a)
    ensures ScoredBefore(score, o, a, b) && ScoredBefore(score, o, b, d) ==> ScoredBefore(score, o, a, d)
  {
    LexTotal(CharLe());
  }

  method FirstByScore(score: Scorer, o: Observation) returns (best: Action)
    requires o.actions != []
    ensures best in o.actions && forall b :: b in o.actions ==> ScoredBefore(score, o, best, b)
  {
    best := o.actions[0];
    ScoredTransitive(score, o, best, best, best);
    for i := 1 to |o.actions|
      invariant best in o.actions && forall k :: 0 <= k < i ==> ScoredBefore(score, o, best, o.actions[k])
    {
      var next := o.actions[i];
      ScoredTransitive(score, o, best, next, next);
      ScoredTransitive(score, o, next, next, next);
      if !ScoredBefore(score, o, best, next) {
        forall k | 0 <= k < i ensures ScoredBefore(score, o, next, o.actions[k]) {
          ScoredTransitive(score, o, next, best, o.actions[k]);
        }
        best := next;
      }
    }
  }

  /** No action on offer scores higher, and none that scores the same has a smaller identifier. */
  predicate TopScored(score: Scorer, o: Observation, a: Action) {
    a in o.actions && forall b :: b in o.actions ==>
      score(o, b.id) < score(o, a.id) || (score(o, b.id) == score(o, a.id) && TextUpTo(a.id, b.id))
  }

  /** The node that the highest scored action leads to. */
  ghost predicate ScoredChild(g: Game, score: Scorer, n: Node, m: Node) {
    exists a :: TopScored(score, n.observation, a) && IsChild(g, n, a.id, m)
  }

  lemma FirstIsTop(g: Game, score: Scorer, n: Node, a: Action, m: Node)
    requires a in n.observation.actions && IsChild(g, n, a.id, m)
    requires forall b :: b in n.observation.actions ==> ScoredBefore(score, n.observation, a, b)
    ensures ScoredChild(g, score, n, m)
  {
    forall b | b in n.observation.actions
      ensures score(n.observation, b.id) < score(n.observation, a.id)
              || (score(n.observation, b.id) == score(n.observation, a.id) && TextUpTo(a.id, b.id))
    {
      assert ScoredBefore(score, n.observation, a, b);
      TextExact(a.id, b.id);
    }
    assert TopScored(score, n.observation, a);
  }

  /** From the root, each node followed by the child of its highest scored action, which is always preferred. */
  ghost predicate ScoredPath(g: Game, score: Scorer, path: seq<Node>, margin: real, tie: TiePolicy) {
    && |path| > 0 && g.run([]) == Ok(path[0])
    && forall i :: 0 <= i && i + 1 < |path| ==> ScoredStep(g, score, path, i, margin, tie)
  }

  ghost predicate ScoredStep(g: Game, score: Scorer, path: seq<Node>, i: nat, margin: real, tie: TiePolicy)
    requires i + 1 < |path|
  {
    && path[i].Active() && ScoredChild(g, score, path[i], path[i + 1])
    && !PreferredOrEqual(path[i], path[i + 1], margin, tie)
  }

  lemma ScoredMore(g: Game, score: Scorer, path: seq<Node>, m: Node, margin: real, tie: TiePolicy)
    requires ScoredPath(g, score, path, margin, tie) && path[|path| - 1].Active()
    requires ScoredChild(g, score, path[|path| - 1], m) && !PreferredOrEqual(path[|path| - 1], m, margin, tie)
    ensures ScoredPath(g, score, path + [m], margin, tie)
  {
    hide ScoredChild;
    hide PreferredOrEqual;
    forall i | 0 <= i && i + 1 < |path + [m]| ensures ScoredStep(g, score, path + [m], i, margin, tie) {
      if i + 1 < |path| {
        assert ScoredStep(g, score, path, i, margin, tie);
      }
    }
  }

  /** The path ends where nothing is left to do, or where that child is not preferred. */
  ghost predicate ScoredEnd(g: Game, score: Scorer, path: seq<Node>, o: Outcome, margin: real, tie: TiePolicy)
    requires |path| > 0
  {
    var last := path[|path| - 1];
    && o.node == last && !o.searchTruncated && (o.stoppedEarly <==> last.Active())
    && (o.stoppedEarly ==> exists m :: ScoredChild(g, score, last, m) && PreferredOrEqual(last, m, margin, tie))
    && o.explored == if o.stoppedEarly then |path| else |path| - 1
  }

  method AbstainIn(c: Config, task: Task, score: Scorer, margin: real, tie: TiePolicy, ghost g: Game)
    returns (r: Result<Outcome, SearchError>, ghost path: seq<Node>)
    requires Plays(g, c, task) && Lawful(g, task.maxSteps) && margin >= 0.0
    ensures r.Ok? ==> Standing(g, r.value.node, task.maxSteps) && Gains(r.value.node, margin, tie)
    ensures r.Ok? ==> ScoredPath(g, score, path, margin, tie) && ScoredEnd(g, score, path, r.value, margin, tie)
    ensures r.Err? ==> r.error.StepFailed?
  {
    hide ScoredChild;
    hide PreferredOrEqual;
    hide Lawful;
    path := [];
    var start := Play(c, task, g, []);
    if start.Err? {
      return Err(StepFailed(start.error)), path;
    }
    var node := start.value;
    path := [node];
    var explored: nat := 0;
    RootGains(g, task.maxSteps, margin, tie);
    while node.Active()
      invariant Standing(g, node, task.maxSteps) && Gains(node, margin, tie)
      invariant ScoredPath(g, score, path, margin, tie) && path[|path| - 1] == node && explored == |path| - 1
      decreases task.maxSteps - |node.actionIds|
    {
      var action := FirstByScore(score, node.observation);
      var candidate := Play(c, task, g, node.actionIds + [action.id]);
      if candidate.Err? {
        return Err(StepFailed(candidate.error)), path;
      }
      explored := explored + 1;
      ChildStands(g, task.maxSteps, node, action.id, candidate.value);
      FirstIsTop(g, score, node, action, candidate.value);
      if PreferredOrEqual(node, candidate.value, margin, tie) {
        return Ok(Outcome(node, explored, true, false)), path;
      }
      AcceptedGains(node, candidate.value, margin, tie);
      ScoredMore(g, score, path, candidate.value, margin, tie);
      path := path + [candidate.value];
      node := candidate.value;
    }
    return Ok(Outcome(node, explored, false, false)), path;
  }

  /** Following the scored policy until its next step does not pay. */
  method PolicyAbstainSearch(c: Config, task: Task, score: Scorer, margin: real, tie: TiePolicy)
    returns (r: Result<Outcome, SearchError>, ghost path: seq<Node>)
    ensures r == Err(InvalidMargin) <==> margin < 0.0
    ensures r.Ok? ==> margin >= 0.0 && Replays.Reached(c, task, r.value.node) && Gains(r.value.node, margin, tie)
    ensures r.Ok? ==> ScoredPath(GameOf(c, task), score, path, margin, tie)
                      && ScoredEnd(GameOf(c, task), score, path, r.value, margin, tie)
  {
    if margin < 0.0 {
      return Err(InvalidMargin), [];
    }
    ReplayIsLawful(c, task);
    r, path := AbstainIn(c, task, score, margin, tie, GameOf(c, task));
  }

  // ----- beam search

  /** Reached, and as deep as the round when there is more to do. */
  predicate AtRound(g: Game, n: Node, maxSteps: nat, round: nat) {
    Reached(g, n) && (n.Active() ==> Settled(n, maxSteps) && |n.actionIds| == round)
  }

  predicate AllAtRound(g: Game, ns: seq<Node>, maxSteps: nat, round: nat) {
    forall n :: n in ns ==> AtRound(g, n, maxSteps, round)
  }

  predicate AllReached(g: Game, ns: seq<Node>) {
    forall n :: n in ns ==> Reached(g, n)
  }

  predicate AnyActive(ns: seq<Node>) {
    exists n :: n in ns && n.Active()
  }

  lemma ChildAtRound(g: Game, maxSteps: nat, n: Node, id: string, child: Node, round: nat)
    requires Lawful(g, maxSteps) && AtRound(g, n, maxSteps, round) && n.Active() && IsChild(g, n, id, child)
    ensures AtRound(g, child, maxSteps, round + 1) && round < maxSteps
  {
    assert ChildLaw(g, maxSteps, n, id);
  }

  /** One list for each node: its children in the order of its actions, or the node itself when it is not active. */
  predicate Parts(g: Game, frontier: seq<Node>, parts: seq<seq<Node>>) {
    && |parts| == |frontier|
    && forall i :: 0 <= i < |parts| ==>
         if frontier[i].Active() then
           && |parts[i]| == |frontier[i].observation.actions|
           && forall k :: 0 <= k < |parts[i]| ==>
                IsChild(g, frontier[i], frontier[i].observation.actions[k].id, parts[i][k])
         else parts[i] == [frontier[i]]
  }

  function Joined(parts: seq<seq<Node>>): seq<Node> {
    if parts == [] then [] else Joined(parts[..|parts| - 1]) + parts[|parts| - 1]
  }

  lemma JoinedMore(parts: seq<seq<Node>>, part: seq<Node>)
    ensures Joined(parts + [part]) == Joined(parts) + part
  {
    assert (parts + [part])[..|parts|] == parts;
  }

  function IfActive(n: Node): nat {
    if n.Active() then |n.observation.actions| else 0
  }

  /** How many children the active nodes have together. */
  function Offspring(frontier: seq<Node>): nat {
    if frontier == [] then 0 else Offspring(frontier[..|frontier| - 1]) + IfActive(frontier[|frontier| - 1])
  }

  ghost predicate PartsSoFar(g: Game, done: seq<Node>, parts: seq<seq<Node>>, expanded: seq<Node>, explored: nat) {
    Parts(g, done, parts) && expanded == Joined(parts) && explored == Offspring(done)
  }

  predicate PartOf(g: Game, n: Node, part: seq<Node>) {
    if n.Active() then
      && |part| == |n.observation.actions|
      && forall k :: 0 <= k < |part| ==> IsChild(g, n, n.observation.actions[k].id, part[k])
    else part == [n]
  }

  lemma NoParts(g: Game)
    ensures PartsSoFar(g, [], [], [], 0)
  {
  }

  lemma PartsDone(g: Game, done: seq<Node>, parts: seq<seq<Node>>, expanded: seq<Node>, explored: nat)
    requires PartsSoFar(g, done, parts, expanded, explored)
    ensures Parts(g, done, parts) && expanded == Joined(parts) && explored == Offspring(done)
  {
  }

  lemma PartsStep(g: Game, done: seq<Node>, parts: seq<seq<Node>>, expanded: seq<Node>, explored: nat, n: Node,
    part: seq<Node>)
    requires PartsSoFar(g, done, parts, expanded, explored) && PartOf(g, n, part)
    ensures PartsSoFar(g, done + [n], parts + [part], expanded + part, explored + IfActive(n))
  {
    hide IsChild;
    JoinedMore(parts, part);
    assert (done + [n])[..|done|] == done;
  }

  /** One round: every active node is replaced by its children. */
  method ExpandFrontier(c: Config, task: Task, ghost g: Game, frontier: seq<Node>, ghost round: nat)
    returns (r: Result<seq<Node>, StepError>, explored: nat, ghost parts: seq<seq<Node>>)
    requires Plays(g, c, task) && Lawful(g, task.maxSteps) && AllAtRound(g, frontier, task.maxSteps, round)
    ensures r.Ok? ==> AllAtRound(g, r.value, task.maxSteps, round + 1) && (AnyActive(frontier) ==>
      round < task.maxSteps)
    ensures r.Ok? ==> Parts(g, frontier, parts) && r.value == Joined(parts) && explored == Offspring(frontier)
  {
    hide PartsSoFar;
    var expanded: seq<Node> := [];
    explored, parts := 0, [];
    NoParts(g);
    for i := 0 to |frontier|
      invariant AllAtRound(g, expanded, task.maxSteps, round + 1)
      invariant AnyActive(frontier[..i]) ==> round < task.maxSteps
      invariant PartsSoFar(g, frontier[..i], parts, expanded, explored)
    {
      var n := frontier[i];
      assert frontier[..i + 1] == frontier[..i] + [n] && AtRound(g, n, task.maxSteps, round);
      if n.Active() {
        var children := ExpandNode(c, task, g, n);
        if children.Err? {
          return Err(children.error), explored, parts;
        }
        forall child | child in children.value
          ensures AtRound(g, child, task.maxSteps, round + 1) && round < task.maxSteps
        {
          var k :| 0 <= k < |children.value| && children.value[k] == child;
          ChildAtRound(g, task.maxSteps, n, n.observation.actions[k].id, child, round);
        }
        assert children.value[0] in children.value;
        PartsStep(g, frontier[..i], parts, expanded, explored, n, children.value);
        explored := explored + |children.value|;
        expanded := expanded + children.value;
        parts := parts + [children.value];
      } else {
        PartsStep(g, frontier[..i], parts, expanded, explored, n, [n]);
        expanded := expanded + [n];
        parts := parts + [[n]];
      }
    }
    assert frontier[..|frontier|] == frontier;
    PartsDone(g, frontier, parts, expanded, explored);
    return Ok(expanded), explored, parts;
  }

  /** With margin zero, some kept node with the same text is worth at least as much. */
  predicate Outdone(kept: seq<Node>, n: Node) {
    exists m :: m in kept && m.observation.currentSql == n.observation.currentSql && m.reward >= n.reward
  }

  /** One node for each text that occurs; with margin zero, a best one. */
  lemma {:induction false} DeduplicatedMembers(nodes: seq<Node>, margin: real, tie: TiePolicy)
    ensures OnePerText(Deduplicated(nodes, margin, tie))
    ensures forall n :: n in Deduplicated(nodes, margin, tie) ==> n in nodes
    ensures forall sql :: HasText(Deduplicated(nodes, margin, tie), sql) <==> HasText(nodes, sql)
    ensures margin == 0.0 ==> forall n :: n in nodes ==> Outdone(Deduplicated(nodes, margin, tie), n)
    decreases |nodes|
  {
    if nodes != [] {
      var before, last := nodes[..|nodes| - 1], nodes[|nodes| - 1];
      assert nodes == before + [last];
      DeduplicatedMembers(before, margin, tie);
      KeepFacts(Deduplicated(before, margin, tie), last, margin, tie);
      if margin == 0.0 {
        forall n | n in nodes ensures Outdone(Deduplicated(nodes, margin, tie), n) {
          StillOutdone(Deduplicated(before, margin, tie), last, tie, n);
        }
      }
      forall sql ensures HasText(nodes, sql) <==> HasText(before, sql) || sql == last.observation.currentSql {
        if n :| n in nodes && n.observation.currentSql == sql {
          assert n in before || n == last;
        }
      }
    }
  }

  lemma StillOutdone(kept: seq<Node>, last: Node, tie: TiePolicy, n: Node)
    requires OnePerText(kept) && (Outdone(kept, n) || n == last)
    ensures Outdone(Keep(kept, last, 0.0, tie), n)
  {
    KeepFacts(kept, last, 0.0, tie);
    if Outdone(kept, n) {
      var m :| m in kept && m.observation.currentSql == n.observation.currentSql && m.reward >= n.reward;
      assert m in Keep(kept, last, 0.0, tie) || last in Keep(kept, last, 0.0, tie);
    }
  }

  /** The next frontier: of the children, one node for each text, and of those the first in the ranking. */
  ghost predicate NextFrontier(g: Game, width: nat, before: seq<Node>, after: seq<Node>, margin: real, tie: TiePolicy)
    requires margin >= 0.0
  {
    exists parts :: Parts(g, before, parts)
      && after == FirstOf(Ranked(Sort(Deduplicated(Joined(parts), margin, tie), tie), margin, tie), width)
  }

  function FirstOf(s: seq<Node>, width: nat): (r: seq<Node>)
    ensures r <= s && |r| == if |s| <= width then |s| else width
  {
    if |s| <= width then s else s[..width]
  }

  /** Frontiers from the root on, each made from the one before, until none of the nodes is active. */
  ghost predicate Rounds(g: Game, width: nat, rounds: seq<seq<Node>>, margin: real, tie: TiePolicy)
    requires margin >= 0.0
  {
    && |rounds| > 0 && g.run([]).Ok? && rounds[0] == [g.run([]).value]
    && forall i :: 0 <= i && i + 1 < |rounds| ==> NextRound(g, width, rounds, i, margin, tie)
  }

  ghost predicate NextRound(g: Game, width: nat, rounds: seq<seq<Node>>, i: nat, margin: real, tie: TiePolicy)
    requires margin >= 0.0 && i + 1 < |rounds|
  {
    AnyActive(rounds[i]) && NextFrontier(g, width, rounds[i], rounds[i + 1], margin, tie)
  }

  function Explored(rounds: seq<seq<Node>>): nat {
    if rounds == [] then 0 else Explored(rounds[..|rounds| - 1]) + Offspring(rounds[|rounds| - 1])
  }

  lemma ExploredMore(rounds: seq<seq<Node>>, frontier: seq<Node>)
    ensures Explored(rounds + [frontier]) == Explored(rounds) + Offspring(frontier)
  {
    assert (rounds + [frontier])[..|rounds|] == rounds;
  }

  /** The outcome is the first in tie order of the nodes within the margin of the best of all frontiers. */
  ghost predicate BeamEnd(rounds: seq<seq<Node>>, o: Outcome, margin: real, tie: TiePolicy)
    requires |rounds| > 0
  {
    && !AnyActive(rounds[|rounds| - 1]) && !o.stoppedEarly && !o.searchTruncated
    && o.explored == Explored(rounds[..|rounds| - 1])
    && var all := Joined(rounds);
       && all != [] && o.node in all && MaxReward(all) - o.node.reward <= margin
       && forall n :: n in all && MaxReward(all) - n.reward <= margin ==> TieLe(o.node, n, tie)
  }

  ghost predicate RoundsSoFar(g: Game, width: nat, rounds: seq<seq<Node>>, frontier: seq<Node>, seen: seq<Node>,
    explored: nat, margin: real, tie: TiePolicy)
    requires margin >= 0.0
  {
    && Rounds(g, width, rounds, margin, tie) && rounds[|rounds| - 1] == frontier
    && seen == Joined(rounds) && explored == Explored(rounds[..|rounds| - 1])
  }

  lemma RoundsStart(g: Game, width: nat, margin: real, tie: TiePolicy)
    requires margin >= 0.0 && g.run([]).Ok?
    ensures var root := g.run([]).value; RoundsSoFar(g, width, [[root]], [root], [root], 0, margin, tie)
  {
    var root := g.run([]).value;
    JoinedMore([], [root]);
    assert [] + [[root]] == [[root]];
  }

  lemma RoundsStep(g: Game, width: nat, rounds: seq<seq<Node>>, frontier: seq<Node>, seen: seq<Node>, explored: nat,
    next: seq<Node>, margin: real, tie: TiePolicy)
    requires margin >= 0.0 && RoundsSoFar(g, width, rounds, frontier, seen, explored, margin, tie)
    requires AnyActive(frontier) && NextFrontier(g, width, frontier, next, margin, tie)
    ensures RoundsSoFar(g, width, rounds + [next], next, seen + next, explored + Offspring(frontier), margin, tie)
  {
    hide NextFrontier;
    hide AnyActive;
    JoinedMore(rounds, next);
    ExploredMore(rounds[..|rounds| - 1], frontier);
    assert rounds == rounds[..|rounds| - 1] + [frontier] && (rounds + [next])[..|rounds|] == rounds;
    forall i | 0 <= i && i + 1 < |rounds + [next]| ensures NextRound(g, width, rounds + [next], i, margin, tie) {
      if i + 1 < |rounds| {
        assert NextRound(g, width, rounds, i, margin, tie);
      }
    }
  }

  lemma RoundsEnd(g: Game, width: nat, rounds: seq<seq<Node>>, frontier: seq<Node>, seen: seq<Node>, explored: nat,
    best: Node, margin: real, tie: TiePolicy)
    requires margin >= 0.0 && RoundsSoFar(g, width, rounds, frontier, seen, explored, margin, tie)
    requires !AnyActive(frontier) && best in seen && MaxReward(seen) - best.reward <= margin
    requires forall n :: n in seen && MaxReward(seen) - n.reward <= margin ==> TieLe(best, n, tie)
    ensures Rounds(g, width, rounds, margin, tie)
    ensures BeamEnd(rounds, Outcome(best, explored, false, false), margin, tie)
  {
    hide TieLe;
  }

  lemma KeptAtRound(g: Game, expanded: seq<Node>, width: nat, margin: real, tie: TiePolicy, maxSteps: nat, round: nat)
    requires margin >= 0.0 && AllAtRound(g, expanded, maxSteps, round)
    ensures var next := FirstOf(Ranked(Sort(Deduplicated(expanded, margin, tie), tie), margin, tie), width);
            AllAtRound(g, next, maxSteps, round) && AllReached(g, next)
  {
    hide AtRound;
    hide Sort;
    hide Ranked;
    var kept := Deduplicated(expanded, margin, tie);
    DeduplicatedMembers(expanded, margin, tie);
    RankedSorted(kept, margin, tie);
    var ranked := Ranked(Sort(kept, tie), margin, tie);
    forall n | n in FirstOf(ranked, width) ensures AtRound(g, n, maxSteps, round) && Reached(g, n) {
      assert n in ranked && n in expanded;
      RoundReached(g, n, maxSteps, round);
    }
  }

  lemma RoundReached(g: Game, n: Node, maxSteps: nat, round: nat)
    requires AtRound(g, n, maxSteps, round)
    ensures Reached(g, n)
  {
  }

  lemma SeenMore(g: Game, seen: seq<Node>, more: seq<Node>, root: Node)
    requires AllReached(g, seen) && root in seen && AllReached(g, more)
    ensures AllReached(g, seen + more) && root in seen + more
  {
  }

  lemma RootAtRound(g: Game, maxSteps: nat)
    requires Lawful(g, maxSteps) && g.run([]).Ok?
    ensures var root := g.run([]).value;
            AllAtRound(g, [root], maxSteps, 0) && AllReached(g, [root]) && root.reward == 0.0
  {
    assert RootLaw(g, maxSteps);
  }

  method BeamIn(c: Config, task: Task, width: nat, margin: real, tie: TiePolicy, ghost g: Game)
    returns (r: Result<Outcome, SearchError>, ghost rounds: seq<seq<Node>>)
    requires Plays(g, c, task) && Lawful(g, task.maxSteps) && margin >= 0.0 && width >= 1
    ensures r.Ok? ==> Reached(g, r.value.node) && r.value.node.reward >= -margin
    ensures r.Ok? && tie.Shorter? ==> r.value.node.reward >= 0.0
    ensures r.Ok? ==> Rounds(g, width, rounds, margin, tie) && BeamEnd(rounds, r.value, margin, tie)
    ensures r.Err? ==> r.error.StepFailed?
  {
    hide NextFrontier;
    hide RoundsSoFar;
    hide Rounds;
    hide BeamEnd;
    hide Lawful;
    hide Sort;
    hide Ranked;
    hide TieLe;
    hide AllReached;
    hide AllAtRound;
    hide AnyActive;
    rounds := [];
    var start := Play(c, task, g, []);
    if start.Err? {
      return Err(StepFailed(start.error)), rounds;
    }
    var root := start.value;
    var explored: nat := 0;
    RootAtRound(g, task.maxSteps);
    var frontier, seen := [root], [root];
    ghost var round := 0;
    rounds := [frontier];
    RoundsStart(g, width, margin, tie);
    while AnyActive(frontier)
      invariant AllAtRound(g, frontier, task.maxSteps, round) && round <= task.maxSteps
      invariant AllReached(g, seen) && root in seen
      invariant RoundsSoFar(g, width, rounds, frontier, seen, explored, margin, tie)
      decreases task.maxSteps - round
    {
      var expanded, more;
      ghost var parts;
      expanded, more, parts := ExpandFrontier(c, task, g, frontier, round);
      if expanded.Err? {
        return Err(StepFailed(expanded.error)), rounds;
      }
      ghost var before, exploredBefore := frontier, explored;
      explored := explored + more;
      var kept := DeduplicateNodes(expanded.value, margin, tie);
      var ranked := RankNodes(kept, margin, tie);
      KeptAtRound(g, expanded.value, width, margin, tie, task.maxSteps, round + 1);
      frontier := FirstOf(ranked, width);
      NextIs(g, width, before, parts, frontier, margin, tie);
      RoundsStep(g, width, rounds, before, seen, exploredBefore, frontier, margin, tie);
      SeenMore(g, seen, frontier, root);
      seen := seen + frontier;
      rounds := rounds + [frontier];
      round := round + 1;
    }
    var best := BestNode(seen, margin, tie);
    BestNotNegative(g, task.maxSteps, seen, best, margin, tie);
    RoundsEnd(g, width, rounds, frontier, seen, explored, best, margin, tie);
    return Ok(Outcome(best, explored, false, false)), rounds;
  }

  lemma NextIs(g: Game, width: nat, before: seq<Node>, parts: seq<seq<Node>>, after: seq<Node>, margin: real,
    tie: TiePolicy)
    requires margin >= 0.0 && Parts(g, before, parts)
    requires after == FirstOf(Ranked(Sort(Deduplicated(Joined(parts), margin, tie), tie), margin, tie), width)
    ensures NextFrontier(g, width, before, after, margin, tie)
  {
  }

  lemma RankedSorted(kept: seq<Node>, margin: real, tie: TiePolicy)
    requires margin >= 0.0
    ensures forall n :: n in Ranked(Sort(kept, tie), margin, tie) <==> n in kept
  {
    SortMembers(kept, tie);
    RankedMembers(Sort(kept, tie), margin, tie);
  }

  /** With the root among the candidates the best one is within the margin of doing nothing, and with the shorter tie
      policy never worse. */
  lemma BestNotNegative(g: Game, maxSteps: nat, seen: seq<Node>, best: Node, margin: real, tie: TiePolicy)
    requires Lawful(g, maxSteps) && margin >= 0.0 && seen != [] && AllReached(g, seen)
    requires g.run([]).Ok? && g.run([]).value in seen && best in seen
    requires MaxReward(seen) - best.reward <= margin
    requires forall n :: n in seen && MaxReward(seen) - n.reward <= margin ==> TieLe(best, n, tie)
    ensures Reached(g, best) && best.reward >= -margin && (tie.Shorter? ==> best.reward >= 0.0)
  {
    var root := g.run([]).value;
    assert RootLaw(g, maxSteps);
    if tie.Shorter? && MaxReward(seen) <= margin {
      assert TieLe(best, root, tie);
      assert best.actionIds == [] && Reached(g, best);
    }
  }

  method BeamSearch(c: Config, task: Task, width: int, margin: real, tie: TiePolicy)
    returns (r: Result<Outcome, SearchError>, ghost rounds: seq<seq<Node>>)
    ensures r == Err(InvalidBeamWidth) <==> width < 1
    ensures r == Err(InvalidMargin) <==> width >= 1 && margin < 0.0
    ensures r.Ok? ==> margin >= 0.0 && Rounds(GameOf(c, task), width, rounds, margin, tie)
                      && BeamEnd(rounds, r.value, margin, tie)
    ensures r.Ok? ==> margin >= 0.0 && Replays.Reached(c, task, r.value.node) && r.value.node.reward >= -margin
    ensures r.Ok? && tie.Shorter? ==> r.value.node.reward >= 0.0
  {
    if width < 1 {
      return Err(InvalidBeamWidth), [];
    }
    if margin < 0.0 {
      return Err(InvalidMargin), [];
    }
    ReplayIsLawful(c, task);
    r, rounds := BeamIn(c, task, width, margin, tie, GameOf(c, task));
  }
}
