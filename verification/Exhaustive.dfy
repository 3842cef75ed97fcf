/** Exhaustive search prunes nodes by SQL text and still finds the highest reward. */
module Exhaustive {
  import opened Ir
  import opened Lists
  import opened Rewrites
  import opened Registry
  import opened Environment
  import opened Ranking
  import opened Games
  import opened Search
  import Completeness
  import Replays
  import Chain

  /** The best node for each SQL text. */
  type BestBySql = map<string, Node>

  /** The step limit cuts no sequence short. */
  ghost predicate NeverCut(g: Game) {
    forall ids :: g.run(ids).Ok? ==> !g.run(ids).value.truncated
  }

  /** The best node with the child's text is worth at least as much as the child. */
  predicate ChildCovered(g: Game, best: BestBySql, n: Node, id: string) {
    && g.run(n.actionIds + [id]).Ok?
    && var child := g.run(n.actionIds + [id]).value;
       Sql(child) in best && best[Sql(child)].reward >= child.reward
  }

  /** All children of the node were generated and are covered, up to some action. */
  predicate ExpandedTo(g: Game, best: BestBySql, n: Node, upTo: nat) {
    upTo <= |n.observation.actions| && forall k :: 0 <= k < upTo ==>
      ChildCovered(g, best, n, n.observation.actions[k].id)
  }

  predicate Expanded(g: Game, best: BestBySql, n: Node) {
    ExpandedTo(g, best, n, |n.observation.actions|)
  }

  predicate Covered(best: BestBySql, n: Node) {
    Sql(n) in best && best[Sql(n)].reward >= n.reward
  }

  /** A text's best node: its sequence was proven throughout, and it waits in the frontier, is being expanded, or has
      been expanded. */
  predicate Kept(g: Game, maxSteps: nat, best: BestBySql, frontier: seq<Node>, current: set<Node>, sql: string)
    requires sql in best
  {
    var n := best[sql];
    && Sql(n) == sql && Reached(g, n) && Settled(n, maxSteps)
    && (n.Active() ==> n in frontier || n in current || Expanded(g, best, n))
  }

  ghost predicate KeptAll(g: Game, maxSteps: nat, best: BestBySql, frontier: seq<Node>, current: set<Node>) {
    forall sql :: sql in best ==> Kept(g, maxSteps, best, frontier, current, sql)
  }

  predicate CoveredAll(best: BestBySql, ns: seq<Node>) {
    forall n :: n in ns ==> Covered(best, n)
  }

  predicate BestSeen(best: BestBySql, seen: seq<Node>) {
    forall sql :: sql in best ==> best[sql] in seen
  }

  /** What the loop keeps when the margin is zero and nothing is cut short. */
  ghost predicate Inv(g: Game, maxSteps: nat, best: BestBySql, frontier: seq<Node>, current: set<Node>,
    seen: seq<Node>) {
    && KeptAll(g, maxSteps, best, frontier, current) && CoveredAll(best, frontier)
    && (forall n :: n in current ==> Covered(best, n)) && BestSeen(best, seen)
    && g.run([]).Ok? && Covered(best, g.run([]).value)
  }

  // ----- replacing the best node of a text

  predicate Improves(best: BestBySql, child: Node) {
    Sql(child) in best ==> best[Sql(child)].reward <= child.reward
  }

  lemma ImprovedCovers(best: BestBySql, child: Node, n: Node)
    requires Improves(best, child) && Covered(best, n)
    ensures Covered(best[Sql(child) := child], n)
  {
  }

  lemma ImprovedExpansion(g: Game, best: BestBySql, child: Node, n: Node, upTo: nat)
    requires Improves(best, child) && ExpandedTo(g, best, n, upTo)
    ensures ExpandedTo(g, best[Sql(child) := child], n, upTo)
  {
    forall k | 0 <= k < upTo ensures ChildCovered(g, best[Sql(child) := child], n, n.observation.actions[k].id) {
      assert ChildCovered(g, best, n, n.observation.actions[k].id);
    }
  }

  lemma ImprovedKept(
    g: Game, maxSteps: nat, best: BestBySql, frontier: seq<Node>, current: set<Node>, child: Node, after: seq<Node>,
      sql: string)
    requires Improves(best, child) && Reached(g, child) && Settled(child, maxSteps)
    requires sql != Sql(child) ==> sql in best && Kept(g, maxSteps, best, frontier, current, sql)
    requires after == if child.Active() then frontier + [child] else frontier
    ensures Kept(g, maxSteps, best[Sql(child) := child], after, current, sql)
  {
    var n := best[Sql(child) := child][sql];
    if sql != Sql(child) && n.Active() && n !in frontier && n !in current {
      ImprovedExpansion(g, best, child, n, |n.observation.actions|);
    }
  }

  /** The child takes the place of its text's best node. */
  lemma ChildReplaces(
    g: Game, maxSteps: nat, best: BestBySql, frontier: seq<Node>, current: set<Node>, seen: seq<Node>, child: Node,
      after: seq<Node>)
    requires Inv(g, maxSteps, best, frontier, current, seen)
    requires Improves(best, child) && Reached(g, child) && Settled(child, maxSteps)
    requires after == if child.Active() then frontier + [child] else frontier
    ensures Inv(g, maxSteps, best[Sql(child) := child], after, current, seen + [child])
  {
    var better := best[Sql(child) := child];
    forall sql | sql in better ensures Kept(g, maxSteps, better, after, current, sql) {
      assert sql != Sql(child) ==> sql in best && Kept(g, maxSteps, best, frontier, current, sql);
      ImprovedKept(g, maxSteps, best, frontier, current, child, after, sql);
    }
    forall n | n in after ensures Covered(better, n) {
      if n != child { ImprovedCovers(best, child, n); }
    }
    forall n | n in current ensures Covered(better, n) {
      ImprovedCovers(best, child, n);
    }
    ImprovedCovers(best, child, g.run([]).value);
  }

  /** A child is kept out when its text's best node is at least as good, and comes in otherwise. A failed proof never
      comes in. */
  lemma ChildDecided(g: Game, maxSteps: nat, best: BestBySql, n: Node, id: string, tie: TiePolicy)
    requires Lawful(g, maxSteps) && Reached(g, n) && Settled(n, maxSteps) && n.Active() && Covered(best, n)
    requires g.run(n.actionIds + [id]).Ok?
    ensures var child := g.run(n.actionIds + [id]).value;
            if Sql(child) in best && PreferredOrEqual(best[Sql(child)], child, 0.0, tie)
            then ChildCovered(g, best, n, id)
            else Improves(best, child) && Reached(g, child) && Settled(child, maxSteps)
                 && ChildCovered(g, best[Sql(child) := child], n, id)
  {
    assert ChildLaw(g, maxSteps, n, id);
  }

  // ----- when the frontier is empty

  /** Every sequence ends at a node whose text's best node is worth at least as much. */
  lemma {:induction false} AllSequencesCovered(g: Game, maxSteps: nat, best: BestBySql, seen: seq<Node>,
    ids: seq<string>)
    requires Lawful(g, maxSteps) && NeverCut(g) && Inv(g, maxSteps, best, [], {}, seen) && g.run(ids).Ok?
    ensures Covered(best, g.run(ids).value)
    decreases |ids|
  {
    if ids != [] {
      var before, id := ids[..|ids| - 1], ids[|ids| - 1];
      assert ids == before + [id];
      assert SequenceLaw(g, maxSteps, before, id);
      AllSequencesCovered(g, maxSteps, best, seen, before);
      if !Over(g.run(before).value) {
        StepCovered(g, maxSteps, best, seen, g.run(before).value, id);
      }
    } else {
      assert ids == [];
    }
  }

  lemma StepCovered(g: Game, maxSteps: nat, best: BestBySql, seen: seq<Node>, n: Node, id: string)
    requires Lawful(g, maxSteps) && NeverCut(g) && Inv(g, maxSteps, best, [], {}, seen)
    requires Reached(g, n) && !Over(n) && Covered(best, n) && g.run(n.actionIds + [id]).Ok?
    requires Settled(n, maxSteps)
    ensures Covered(best, g.run(n.actionIds + [id]).value)
  {
    var b := best[Sql(n)];
    assert Kept(g, maxSteps, best, [], {}, Sql(n));
    assert OfferLaw(g, maxSteps, b, n) && ChildLaw(g, maxSteps, n, id);
    assert g.run(b.actionIds).Ok? && !b.truncated && b.Active() && Expanded(g, best, b);
    var a :| a in n.observation.actions && a.id == id;
    var k :| 0 <= k < |b.observation.actions| && b.observation.actions[k] == a;
    assert ChildCovered(g, best, b, b.observation.actions[k].id);
    assert SameSqlLaw(g, maxSteps, b, n, id);
  }

  // ----- the search

  /** Everything kept is replayable, the root among it. */
  predicate Sane(g: Game, maxSteps: nat, frontier: seq<Node>, seen: seq<Node>) {
    && (forall n :: n in frontier ==> Reached(g, n) && Settled(n, maxSteps)) && AllReached(g, seen)
    && g.run([]).Ok? && g.run([]).value in seen
  }

  /** A child that its text's best node keeps out changes nothing; any other takes its place and is a candidate. */
  ghost predicate Considered(best: BestBySql, frontier: seq<Node>, seen: seq<Node>, child: Node, margin: real,
    tie: TiePolicy, best': BestBySql, frontier': seq<Node>, seen': seq<Node>) {
    if Sql(child) in best && PreferredOrEqual(best[Sql(child)], child, margin, tie)
    then best' == best && frontier' == frontier && seen' == seen
    else best' == best[Sql(child) := child] && seen' == seen + [child]
         && frontier' == if child.Active() then frontier + [child] else frontier
  }

  /** One child: kept out, or in for its text. */
  method Consider(
    best: BestBySql, frontier: seq<Node>, seen: seq<Node>, child: Node, margin: real, tie: TiePolicy)
    returns (best': BestBySql, frontier': seq<Node>, seen': seq<Node>)
    ensures Considered(best, frontier, seen, child, margin, tie, best', frontier', seen')
  {
    best', frontier', seen' := best, frontier, seen;
    if Sql(child) in best && PreferredOrEqual(best[Sql(child)], child, margin, tie) {
      return;
    }
    best', seen' := best[Sql(child) := child], seen + [child];
    if child.Active() {
      frontier' := frontier + [child];
    }
  }

  lemma ConsiderKeeps(
    g: Game, maxSteps: nat, best: BestBySql, frontier: seq<Node>, seen: seq<Node>, n: Node, upTo: nat, child: Node,
    tie: TiePolicy, best': BestBySql, frontier': seq<Node>, seen': seq<Node>)
    requires Lawful(g, maxSteps) && Inv(g, maxSteps, best, frontier, {n}, seen)
    requires Reached(g, n) && Settled(n, maxSteps) && n.Active()
    requires ExpandedTo(g, best, n, upTo) && upTo < |n.observation.actions|
    requires IsChild(g, n, n.observation.actions[upTo].id, child)
    requires Considered(best, frontier, seen, child, 0.0, tie, best', frontier', seen')
    ensures Inv(g, maxSteps, best', frontier', {n}, seen') && Covered(best', n) && ExpandedTo(g, best', n, upTo + 1)
  {
    assert n in {n} && Covered(best, n);
    ChildDecided(g, maxSteps, best, n, n.observation.actions[upTo].id, tie);
    if best' != best || seen' != seen {
      ChildReplaces(g, maxSteps, best, frontier, {n}, seen, child, frontier');
      ImprovedExpansion(g, best, child, n, upTo);
      ImprovedCovers(best, child, n);
    }
  }

  /** A fully expanded node is no longer current. */
  lemma DoneExpanding(g: Game, maxSteps: nat, best: BestBySql, frontier: seq<Node>, seen: seq<Node>, n: Node)
    requires Inv(g, maxSteps, best, frontier, {n}, seen) && Expanded(g, best, n)
    ensures Inv(g, maxSteps, best, frontier, {}, seen)
  {
    forall sql | sql in best ensures Kept(g, maxSteps, best, frontier, {}, sql) {
      assert Kept(g, maxSteps, best, frontier, {n}, sql);
    }
  }

  /** The head of the frontier becomes current. */
  lemma StartExpanding(g: Game, maxSteps: nat, best: BestBySql, frontier: seq<Node>, seen: seq<Node>)
    requires frontier != [] && Inv(g, maxSteps, best, frontier, {}, seen)
    ensures Inv(g, maxSteps, best, frontier[1..], {frontier[0]}, seen)
  {
    forall sql | sql in best ensures Kept(g, maxSteps, best, frontier[1..], {frontier[0]}, sql) {
      assert Kept(g, maxSteps, best, frontier, {}, sql);
      assert frontier == [frontier[0]] + frontier[1..];
    }
  }

  lemma SkipInactive(g: Game, maxSteps: nat, best: BestBySql, frontier: seq<Node>, seen: seq<Node>)
    requires frontier != [] && Inv(g, maxSteps, best, frontier, {}, seen) && !frontier[0].Active()
    ensures Inv(g, maxSteps, best, frontier[1..], {}, seen)
  {
    forall sql | sql in best ensures Kept(g, maxSteps, best, frontier[1..], {}, sql) {
      assert Kept(g, maxSteps, best, frontier, {}, sql);
      assert frontier == [frontier[0]] + frontier[1..];
    }
  }

  lemma ConsiderSane(g: Game, maxSteps: nat, best: BestBySql, frontier: seq<Node>, seen: seq<Node>, n: Node,
    id: string, child: Node, margin: real, tie: TiePolicy, best': BestBySql, frontier': seq<Node>, seen': seq<Node>)
    requires Lawful(g, maxSteps) && Sane(g, maxSteps, frontier, seen)
    requires Reached(g, n) && Settled(n, maxSteps) && n.Active() && IsChild(g, n, id, child)
    requires Considered(best, frontier, seen, child, margin, tie, best', frontier', seen')
    ensures Sane(g, maxSteps, frontier', seen')
  {
    hide PreferredOrEqual;
    assert ChildLaw(g, maxSteps, n, id);
  }

  // ----- what has been generated

  /** One more action on offer at a replayed node where the search may go on. */
  predicate Offerable(g: Game, ids: seq<string>) {
    && |ids| > 0 && g.run(ids[..|ids| - 1]).Ok?
    && var n := g.run(ids[..|ids| - 1]).value;
       n.actionIds == ids[..|ids| - 1] && n.Active() && exists a :: a in n.observation.actions && a.id == ids[|ids| - 1]
  }

  predicate DifferentIds(n: Node) {
    forall i, k :: 0 <= i < k < |n.observation.actions| ==> n.observation.actions[i].id != n.observation.actions[k].id
  }

  /** No node offers two actions under one identifier. */
  ghost predicate IdsDiffer(g: Game) {
    forall n :: Reached(g, n) && n.Active() ==> DifferentIds(n)
  }

  function Next(n: Node, k: nat): seq<string>
    requires k < |n.observation.actions|
  {
    n.actionIds + [n.observation.actions[k].id]
  }

  /** Nothing was generated twice, and no node is expanded twice: what waits was generated, and was not expanded. */
  ghost predicate Logged(frontier: seq<Node>, generated: seq<seq<string>>, expanded: set<seq<string>>) {
    && NoDuplicates(generated)
    && (forall s :: s in generated ==> |s| > 0 && s[..|s| - 1] in expanded)
    && (forall s :: s in expanded ==> s == [] || s in generated)
    && (forall n :: n in frontier && n.Active() ==>
          n.actionIds !in expanded && (n.actionIds == [] || n.actionIds in generated))
    && forall i, k :: 0 <= i < k < |frontier| && frontier[i].Active() && frontier[k].Active() ==>
         frontier[i].actionIds != frontier[k].actionIds
  }

  /** Of the children of the node, only the first few were generated. */
  ghost predicate ChildrenTo(n: Node, generated: seq<seq<string>>, upTo: nat) {
    upTo <= |n.observation.actions| && forall s :: s in generated && |s| > 0 && s[..|s| - 1] == n.actionIds ==>
      exists k :: 0 <= k < upTo && s == Next(n, k)
  }

  lemma StartLog(g: Game, maxSteps: nat)
    requires Lawful(g, maxSteps) && g.run([]).Ok?
    ensures LogHolds(g, [g.run([]).value], [], {})
  {
    assert RootLaw(g, maxSteps);
  }

  lemma LogStart(frontier: seq<Node>, generated: seq<seq<string>>, expanded: set<seq<string>>)
    requires frontier != [] && frontier[0].Active() && Logged(frontier, generated, expanded)
    ensures Logged(frontier[1..], generated, expanded + {frontier[0].actionIds}) && NoDuplicates(generated)
    ensures ChildrenTo(frontier[0], generated, 0)
  {
    var n, rest := frontier[0], frontier[1..];
    forall m | m in rest && m.Active() ensures m in frontier && m.actionIds != n.actionIds {
      var k :| 0 <= k < |rest| && rest[k] == m;
      assert frontier[k + 1] == m;
    }
  }

  lemma LogSkip(frontier: seq<Node>, generated: seq<seq<string>>, expanded: set<seq<string>>)
    requires frontier != [] && Logged(frontier, generated, expanded)
    ensures Logged(frontier[1..], generated, expanded)
  {
    assert forall m :: m in frontier[1..] ==> m in frontier;
  }

  lemma NextIsNew(n: Node, generated: seq<seq<string>>, i: nat)
    requires i < |n.observation.actions| && DifferentIds(n) && ChildrenTo(n, generated, i)
    ensures Next(n, i) !in generated
  {
    var s := Next(n, i);
    assert s[..|s| - 1] == n.actionIds;
    forall k | 0 <= k < i ensures Next(n, k) != s {
      assert Next(n, k)[|n.actionIds|] != s[|n.actionIds|];
    }
  }

  lemma OneMoreChild(n: Node, generated: seq<seq<string>>, i: nat)
    requires i < |n.observation.actions| && ChildrenTo(n, generated, i)
    ensures ChildrenTo(n, generated + [Next(n, i)], i + 1)
  {
    var s := Next(n, i);
    forall x | x in generated + [s] && |x| > 0 && x[..|x| - 1] == n.actionIds
      ensures exists k :: 0 <= k < i + 1 && x == Next(n, k)
    {
      if x in generated {
        var k :| 0 <= k < i && x == Next(n, k);
      } else {
        assert x == Next(n, i);
      }
    }
  }

  lemma LogGenerated(frontier: seq<Node>, generated: seq<seq<string>>, expanded: set<seq<string>>, s: seq<string>)
    requires Logged(frontier, generated, expanded) && s !in generated && |s| > 0 && s[..|s| - 1] in expanded
    ensures Logged(frontier, generated + [s], expanded)
  {
    assert forall x :: x in generated + [s] <==> x in generated || x == s;
  }

  lemma LogPushed(frontier: seq<Node>, generated: seq<seq<string>>, expanded: set<seq<string>>, child: Node)
    requires Logged(frontier, generated, expanded) && child.actionIds in generated && child.actionIds !in expanded
    requires forall n :: n in frontier && n.Active() ==> n.actionIds != child.actionIds
    ensures Logged(frontier + [child], generated, expanded)
  {
    var after := frontier + [child];
    forall m | m in after ensures m in frontier || m == child {
    }
    forall a, b | 0 <= a < b < |after| && after[a].Active() && after[b].Active()
      ensures after[a].actionIds != after[b].actionIds
    {
      assert after[a] == frontier[a] && frontier[a] in frontier;
      assert b < |frontier| ==> after[b] == frontier[b];
    }
  }

  lemma LogChild(frontier: seq<Node>, generated: seq<seq<string>>, expanded: set<seq<string>>, n: Node, i: nat,
    child: Node, frontier': seq<Node>)
    requires Logged(frontier, generated, expanded) && n.actionIds in expanded
    requires i < |n.observation.actions| && DifferentIds(n) && ChildrenTo(n, generated, i)
    requires child.actionIds == Next(n, i)
    requires frontier' == frontier || frontier' == frontier + [child]
    ensures Logged(frontier', generated + [child.actionIds], expanded)
    ensures ChildrenTo(n, generated + [child.actionIds], i + 1)
  {
    var s := child.actionIds;
    NextIsNew(n, generated, i);
    OneMoreChild(n, generated, i);
    assert s[..|s| - 1] == n.actionIds && s != [];
    assert s !in expanded && forall m :: m in frontier && m.Active() ==> m.actionIds != s;
    hide ChildrenTo;
    hide DifferentIds;
    LogGenerated(frontier, generated, expanded, s);
    hide Logged;
    if frontier' != frontier {
      assert s in generated + [s];
      LogPushed(frontier, generated + [s], expanded, child);
    }
  }

  lemma NextOfferable(g: Game, n: Node, i: nat)
    requires Reached(g, n) && n.Active() && i < |n.observation.actions|
    ensures Offerable(g, Next(n, i))
  {
    var s := Next(n, i);
    assert s[..|s| - 1] == n.actionIds && s[|s| - 1] == n.observation.actions[i].id;
    assert n.observation.actions[i] in n.observation.actions;
  }

  ghost predicate AllOfferable(g: Game, generated: seq<seq<string>>) {
    forall s :: s in generated ==> Offerable(g, s)
  }

  /** An action that could have been taken but was not generated. */
  ghost predicate LeftOut(g: Game, generated: seq<seq<string>>) {
    exists s :: Offerable(g, s) && (IdsDiffer(g) ==> s !in generated)
  }

  /** The log between expansions, and during one, as long as identifiers differ. */
  ghost predicate LogHolds(g: Game, frontier: seq<Node>, generated: seq<seq<string>>, expanded: set<seq<string>>) {
    IdsDiffer(g) ==> Logged(frontier, generated, expanded)
  }

  ghost predicate LogWithin(g: Game, frontier: seq<Node>, generated: seq<seq<string>>, expanded: set<seq<string>>,
    n: Node, i: nat) {
    IdsDiffer(g) ==> Logged(frontier, generated, expanded) && n.actionIds in expanded && ChildrenTo(n, generated, i)
  }

  lemma LogEnters(g: Game, frontier: seq<Node>, generated: seq<seq<string>>, expanded: set<seq<string>>)
    requires frontier != [] && frontier[0].Active() && LogHolds(g, frontier, generated, expanded)
    ensures LogWithin(g, frontier[1..], generated, expanded + {frontier[0].actionIds}, frontier[0], 0)
  {
    if IdsDiffer(g) {
      LogStart(frontier, generated, expanded);
    }
  }

  lemma LogSkips(g: Game, frontier: seq<Node>, generated: seq<seq<string>>, expanded: set<seq<string>>)
    requires frontier != [] && LogHolds(g, frontier, generated, expanded)
    ensures LogHolds(g, frontier[1..], generated, expanded)
  {
    if IdsDiffer(g) {
      LogSkip(frontier, generated, expanded);
    }
  }

  lemma LogLeaves(g: Game, frontier: seq<Node>, generated: seq<seq<string>>, expanded: set<seq<string>>, n: Node,
    i: nat)
    requires LogWithin(g, frontier, generated, expanded, n, i)
    ensures LogHolds(g, frontier, generated, expanded)
  {
  }

  lemma LogSteps(g: Game, maxSteps: nat, frontier: seq<Node>, generated: seq<seq<string>>, expanded: set<seq<string>>,
    n: Node, i: nat, child: Node, frontier': seq<Node>)
    requires LogWithin(g, frontier, generated, expanded, n, i) && i < |n.observation.actions|
    requires Lawful(g, maxSteps) && Reached(g, n) && Settled(n, maxSteps) && n.Active()
    requires IsChild(g, n, n.observation.actions[i].id, child)
    requires frontier' == frontier || frontier' == frontier + [child]
    ensures LogWithin(g, frontier', generated + [Next(n, i)], expanded, n, i + 1)
  {
    assert ChildLaw(g, maxSteps, n, n.observation.actions[i].id);
    if IdsDiffer(g) {
      LogChild(frontier, generated, expanded, n, i, child, frontier');
    }
  }

  lemma LogDistinct(g: Game, frontier: seq<Node>, generated: seq<seq<string>>, expanded: set<seq<string>>)
    requires LogHolds(g, frontier, generated, expanded)
    ensures IdsDiffer(g) ==> NoDuplicates(generated)
  {
  }

  lemma NextLeftOut(g: Game, n: Node, i: nat, frontier: seq<Node>, generated: seq<seq<string>>,
    expanded: set<seq<string>>)
    requires Reached(g, n) && n.Active() && i < |n.observation.actions|
    requires LogWithin(g, frontier, generated, expanded, n, i)
    ensures LeftOut(g, generated)
  {
    NextOfferable(g, n, i);
    if IdsDiffer(g) {
      NextIsNew(n, generated, i);
    }
  }

  lemma OneMoreOfferable(g: Game, n: Node, i: nat, generated: seq<seq<string>>)
    requires Reached(g, n) && n.Active() && i < |n.observation.actions| && AllOfferable(g, generated)
    ensures Offerable(g, Next(n, i)) && AllOfferable(g, generated + [Next(n, i)])
  {
    NextOfferable(g, n, i);
    assert forall s :: s in generated + [Next(n, i)] <==> s in generated || s == Next(n, i);
  }

  lemma {:induction false} DistinctWithin<T>(s: seq<T>, all: set<T>)
    requires NoDuplicates(s) && forall x :: x in s ==> x in all
    ensures |s| <= |all|
  {
    if s != [] {
      var last, before := s[|s| - 1], s[..|s| - 1];
      forall x | x in before ensures x in all - {last} {
        var k :| 0 <= k < |before| && before[k] == x;
        assert s[k] == x;
      }
      DistinctWithin(before, all - {last});
    }
  }

  /** A budget as large as the number of sequences that can be generated is never exceeded. */
  lemma BudgetSuffices(g: Game, generated: seq<seq<string>>, all: set<seq<string>>)
    requires IdsDiffer(g) && NoDuplicates(generated) && AllOfferable(g, generated)
    requires forall s :: Offerable(g, s) ==> s in all
    ensures |all| <= |generated| ==> !LeftOut(g, generated)
  {
    if LeftOut(g, generated) {
      var s :| Offerable(g, s) && s !in generated;
      var more := generated + [s];
      forall x | x in more ensures x in all {
        assert x in generated || x == s;
      }
      DistinctWithin(more, all);
    }
  }

  ghost predicate OneIdEach(c: Config) {
    NoDuplicates(c.rules) && forall a, b :: a != b ==> c.actionId(a) != c.actionId(b)
  }

  /** Rules listed once, with one identifier for each match, never offer two actions under one identifier. */
  lemma OneIdEachDiffers(c: Config, task: Task)
    requires OneIdEach(c)
    ensures IdsDiffer(GameOf(c, task))
  {
    forall n | Reached(GameOf(c, task), n) && n.Active() ensures DifferentIds(n) {
      SettledIsProper(c, task, n);
      var parsed := c.parse(Sql(n));
      var ms := AvailableMatches(parsed.query, task.catalog, c.rules);
      Completeness.AvailableInOrder(parsed.query, task.catalog, c.rules);
      ActionsExact(c, task.catalog, parsed);
      forall i, k | 0 <= i < k < |ms| ensures ms[i] != ms[k] {
        assert Completeness.Before(c.rules, ms[i], ms[k]);
      }
    }
  }

  // ----- in which order, and what is kept

  /** The best node of each text, and the candidates. */
  datatype Tally = Tally(best: BestBySql, seen: seq<Node>)

  function Counted(t: Tally, child: Node, margin: real, tie: TiePolicy): Tally {
    if Sql(child) in t.best && PreferredOrEqual(t.best[Sql(child)], child, margin, tie) then t
    else Tally(t.best[Sql(child) := child], t.seen + [child])
  }

  /** A child is no candidate exactly when the best node of its text is worth more by over the margin, or as much up to
      the margin and no later in tie order; otherwise it is the next candidate, and the best of its text. */
  lemma CountedExact(t: Tally, child: Node, margin: real, tie: TiePolicy)
    requires margin >= 0.0
    ensures var r, sql := Counted(t, child, margin, tie), child.observation.currentSql;
            var keptOut := sql in t.best &&
                             (t.best[sql].reward - child.reward > margin
                              || (-margin <= t.best[sql].reward - child.reward && TieLe(t.best[sql], child, tie)));
            && (keptOut ==> r == t)
            && (!keptOut ==> r.seen == t.seen + [child] && r.best == t.best[sql := child])
  {
    hide TieLe;
  }

  /** The root, and then each generated node that the best one of its text so far does not keep out. */
  function TallyOf(g: Game, root: Node, generated: seq<seq<string>>, margin: real, tie: TiePolicy): Tally {
    if generated == [] then Tally(map[Sql(root) := root], [root])
    else
      var before, child := TallyOf(g, root, generated[..|generated| - 1], margin, tie),
        g.run(generated[|generated| - 1]);
      if child.Ok? then Counted(before, child.value, margin, tie) else before
  }

  lemma TallyMore(g: Game, root: Node, generated: seq<seq<string>>, s: seq<string>, margin: real, tie: TiePolicy)
    requires g.run(s).Ok?
    ensures TallyOf(g, root, generated + [s], margin, tie)
         == Counted(TallyOf(g, root, generated, margin, tie), g.run(s).value, margin, tie)
  {
    assert (generated + [s])[..|generated|] == generated;
  }

  function IsActive(): Node -> bool {
    (n: Node) => n.Active()
  }

  /** The sequences of the children of a node, in the order of its actions. */
  function Nexts(): Node -> seq<seq<string>> {
    (n: Node) => seq(|n.observation.actions|, k requires 0 <= k < |n.observation.actions| => Next(n, k))
  }

  /** All children of the candidates that are active, in the order of the candidates. */
  function AllNexts(seen: seq<Node>): seq<seq<string>> {
    FlatMap(Nexts(), Filter(IsActive(), seen))
  }

  /** Between expansions: the active candidates are those expanded so far and then those of the frontier. */
  ghost predicate Ordered(seen: seq<Node>, frontier: seq<Node>, generated: seq<seq<string>>, done: seq<Node>) {
    && Filter(IsActive(), seen) == done + Filter(IsActive(), frontier)
    && generated == FlatMap(Nexts(), done)
  }

  /** During the expansion of `n`. */
  ghost predicate OrderedWithin(seen: seq<Node>, frontier: seq<Node>, generated: seq<seq<string>>, done: seq<Node>,
    n: Node, i: nat) {
    && Filter(IsActive(), seen) == done + [n] + Filter(IsActive(), frontier)
    && i <= |Nexts()(n)| && generated == FlatMap(Nexts(), done) + Nexts()(n)[..i]
  }

  lemma TallyNone(g: Game, root: Node, margin: real, tie: TiePolicy)
    ensures TallyOf(g, root, [], margin, tie) == Tally(map[Sql(root) := root], [root])
  {
  }

  lemma OrderStarts(root: Node)
    ensures Ordered([root], [root], [], [])
  {
  }

  lemma OrderEnters(seen: seq<Node>, frontier: seq<Node>, generated: seq<seq<string>>, done: seq<Node>)
    requires frontier != [] && frontier[0].Active() && Ordered(seen, frontier, generated, done)
    ensures OrderedWithin(seen, frontier[1..], generated, done, frontier[0], 0)
  {
    var n, rest := frontier[0], Filter(IsActive(), frontier[1..]);
    assert Filter(IsActive(), frontier) == [n] + rest;
    assert done + ([n] + rest) == done + [n] + rest;
  }

  lemma OrderSkips(seen: seq<Node>, frontier: seq<Node>, generated: seq<seq<string>>, done: seq<Node>)
    requires frontier != [] && !frontier[0].Active() && Ordered(seen, frontier, generated, done)
    ensures Ordered(seen, frontier[1..], generated, done)
  {
    assert Filter(IsActive(), frontier) == Filter(IsActive(), frontier[1..]);
  }

  lemma OrderSteps(seen: seq<Node>, frontier: seq<Node>, generated: seq<seq<string>>, done: seq<Node>, n: Node, i: nat,
    child: Node, seen': seq<Node>, frontier': seq<Node>)
    requires OrderedWithin(seen, frontier, generated, done, n, i) && i < |n.observation.actions|
    requires (seen' == seen && frontier' == frontier)
             || (seen' == seen + [child] && frontier' == if child.Active() then frontier + [child] else frontier)
    ensures OrderedWithin(seen', frontier', generated + [Next(n, i)], done, n, i + 1)
  {
    TakeOne(FlatMap(Nexts(), done), Nexts()(n), i);
    if seen' != seen {
      ActiveMore(seen, child);
      ActiveMore(frontier, child);
      ThenOne(done + [n], Filter(IsActive(), frontier), child);
    }
  }

  lemma ActiveMore(ns: seq<Node>, child: Node)
    ensures Filter(IsActive(), ns + [child]) ==
              if child.Active() then Filter(IsActive(), ns) + [child] else Filter(IsActive(), ns)
  {
    FilterAppend(IsActive(), ns, [child]);
  }

  lemma TakeSome<T>(before: seq<T>, all: seq<T>, i: nat, after: seq<T>)
    requires i < |all|
    ensures before + all[..i] < before + all + after
  {
    assert all == all[..i] + all[i..];
  }

  lemma TakeOne<T>(before: seq<T>, all: seq<T>, i: nat)
    requires i < |all|
    ensures before + all[..i] + [all[i]] == before + all[..i + 1]
  {
  }

  lemma ThenOne<T>(before: seq<T>, rest: seq<T>, x: T)
    ensures before + rest + [x] == before + (rest + [x])
  {
  }

  lemma OrderLeaves(seen: seq<Node>, frontier: seq<Node>, generated: seq<seq<string>>, done: seq<Node>, n: Node)
    requires OrderedWithin(seen, frontier, generated, done, n, |n.observation.actions|)
    ensures Ordered(seen, frontier, generated, done + [n])
  {
    var all := Nexts()(n);
    assert all[..|all|] == all;
    FlatMapAppend(Nexts(), done, [n]);
    assert FlatMap(Nexts(), [n]) == all + [];
  }

  lemma OrderCut(seen: seq<Node>, frontier: seq<Node>, generated: seq<seq<string>>, done: seq<Node>, n: Node, i: nat)
    requires OrderedWithin(seen, frontier, generated, done, n, i) && i < |n.observation.actions|
    ensures generated < AllNexts(seen)
  {
    var all, before, rest := Nexts()(n), FlatMap(Nexts(), done), Filter(IsActive(), frontier);
    FlatMapAppend(Nexts(), done + [n], rest);
    FlatMapAppend(Nexts(), done, [n]);
    assert FlatMap(Nexts(), [n]) == all + [];
    var after := FlatMap(Nexts(), rest);
    assert AllNexts(seen) == before + all + after;
    TakeSome(before, all, i, after);
  }

  lemma OrderEnds(seen: seq<Node>, generated: seq<seq<string>>, done: seq<Node>)
    requires Ordered(seen, [], generated, done)
    ensures generated == AllNexts(seen)
  {
    assert done + [] == done;
  }

  predicate BestAreSeen(t: Tally) {
    forall sql :: sql in t.best ==> t.best[sql] in t.seen && Sql(t.best[sql]) == sql
  }

  /** Some candidate is worth at least as much, up to the margin. */
  predicate Matched(seen: seq<Node>, n: Node, margin: real) {
    exists m :: m in seen && m.reward + margin >= n.reward
  }

  lemma {:induction false} TallyCovers(g: Game, root: Node, generated: seq<seq<string>>, margin: real, tie: TiePolicy)
    requires margin >= 0.0
    ensures var t := TallyOf(g, root, generated, margin, tie);
            && BestAreSeen(t)
            && forall s :: s in generated && g.run(s).Ok? ==> Matched(t.seen, g.run(s).value, margin)
    decreases |generated|
  {
    if generated != [] {
      hide TieLe;
      var earlier, last := generated[..|generated| - 1], generated[|generated| - 1];
      TallyCovers(g, root, earlier, margin, tie);
      var before, t := TallyOf(g, root, earlier, margin, tie), TallyOf(g, root, generated, margin, tie);
      assert generated == earlier + [last] && before.seen <= t.seen;
      assert forall m :: m in before.seen ==> m in t.seen;
      if g.run(last).Ok? {
        var child := g.run(last).value;
        assert t == Counted(before, child, margin, tie);
        if t == before {
          assert before.best[Sql(child)] in t.seen;
        } else {
          assert child in t.seen;
        }
      }
      forall s | s in generated && g.run(s).Ok? ensures Matched(t.seen, g.run(s).value, margin) {
        if s in earlier {
          var m :| m in before.seen && m.reward + margin >= g.run(s).value.reward;
        }
      }
    }
  }

  /** No generated node beats the one returned by more than twice the margin, whatever was pruned. */
  lemma GeneratedBounded(g: Game, generated: seq<seq<string>>, seen: seq<Node>, truncated: bool, best: Node,
    margin: real, tie: TiePolicy)
    requires margin >= 0.0 && Accounted(g, generated, seen, truncated, margin, tie) && BestOf(seen, best, margin, tie)
    ensures forall s :: s in generated && g.run(s).Ok? ==> g.run(s).value.reward <= best.reward + 2.0 * margin
  {
    TallyCovers(g, g.run([]).value, generated, margin, tie);
    forall s | s in generated && g.run(s).Ok? ensures g.run(s).value.reward <= best.reward + 2.0 * margin {
      var m :| m in seen && m.reward + margin >= g.run(s).value.reward;
    }
  }

  /** The best of the candidates. */
  ghost predicate BestOf(seen: seq<Node>, n: Node, margin: real, tie: TiePolicy) {
    && seen != [] && n in seen && MaxReward(seen) - n.reward <= margin
    && forall m :: m in seen && MaxReward(seen) - m.reward <= margin ==> TieLe(n, m, tie)
  }

  /** The candidates are what the generated sequences leave, and these are all children of the active candidates, in
      order; of a search that was cut they are the first ones only. */
  ghost predicate Accounted(g: Game, generated: seq<seq<string>>, seen: seq<Node>, truncated: bool, margin: real,
    tie: TiePolicy) {
    && g.run([]).Ok? && seen == TallyOf(g, g.run([]).value, generated, margin, tie).seen
    && if truncated then generated < AllNexts(seen) else generated == AllNexts(seen)
  }

  // ----- the account of a run

  /** What has been expanded so far: the sequences, and the nodes in order. */
  datatype Account = Account(expanded: set<seq<string>>, done: seq<Node>)

  /** What has been generated and what is left, between expansions. */
  ghost predicate Balanced(g: Game, best: BestBySql, seen: seq<Node>, frontier: seq<Node>, generated: seq<seq<string>>,
    a: Account, margin: real, tie: TiePolicy) {
    && g.run([]).Ok? && AllOfferable(g, generated) && LogHolds(g, frontier, generated, a.expanded)
    && Ordered(seen, frontier, generated, a.done)
    && TallyOf(g, g.run([]).value, generated, margin, tie) == Tally(best, seen)
  }

  /** The same during the expansion of `n`. */
  ghost predicate BalancedWithin(g: Game, best: BestBySql, seen: seq<Node>, frontier: seq<Node>,
    generated: seq<seq<string>>, a: Account, n: Node, i: nat, margin: real, tie: TiePolicy) {
    && g.run([]).Ok? && AllOfferable(g, generated) && LogWithin(g, frontier, generated, a.expanded, n, i)
    && OrderedWithin(seen, frontier, generated, a.done, n, i)
    && TallyOf(g, g.run([]).value, generated, margin, tie) == Tally(best, seen)
  }

  function Entered(a: Account, n: Node): Account {
    Account(a.expanded + {n.actionIds}, a.done)
  }

  function Left(a: Account, n: Node): Account {
    Account(a.expanded, a.done + [n])
  }

  lemma AccountStarts(g: Game, maxSteps: nat, margin: real, tie: TiePolicy)
    requires Lawful(g, maxSteps) && g.run([]).Ok?
    ensures var root := g.run([]).value;
            Balanced(g, map[Sql(root) := root], [root], [root], [], Account({}, []), margin, tie)
  {
    StartLog(g, maxSteps);
    OrderStarts(g.run([]).value);
    TallyNone(g, g.run([]).value, margin, tie);
  }

  lemma AccountEnters(g: Game, best: BestBySql, seen: seq<Node>, frontier: seq<Node>, generated: seq<seq<string>>,
    a: Account, margin: real, tie: TiePolicy)
    requires frontier != [] && frontier[0].Active() && Balanced(g, best, seen, frontier, generated, a, margin, tie)
    ensures BalancedWithin(g, best, seen, frontier[1..], generated, Entered(a, frontier[0]), frontier[0], 0, margin,
              tie)
  {
    hide LogHolds;
    hide LogWithin;
    hide TallyOf;
    hide Ordered;
    hide OrderedWithin;
    LogEnters(g, frontier, generated, a.expanded);
    OrderEnters(seen, frontier, generated, a.done);
  }

  lemma AccountSkips(g: Game, best: BestBySql, seen: seq<Node>, frontier: seq<Node>, generated: seq<seq<string>>,
    a: Account, margin: real, tie: TiePolicy)
    requires frontier != [] && !frontier[0].Active() && Balanced(g, best, seen, frontier, generated, a, margin, tie)
    ensures Balanced(g, best, seen, frontier[1..], generated, a, margin, tie)
  {
    hide LogHolds;
    hide TallyOf;
    hide Ordered;
    LogSkips(g, frontier, generated, a.expanded);
    OrderSkips(seen, frontier, generated, a.done);
  }

  lemma AccountSteps(g: Game, maxSteps: nat, best: BestBySql, seen: seq<Node>, frontier: seq<Node>,
    generated: seq<seq<string>>, a: Account, n: Node, i: nat, child: Node, best': BestBySql, seen': seq<Node>,
    frontier': seq<Node>, margin: real, tie: TiePolicy)
    requires BalancedWithin(g, best, seen, frontier, generated, a, n, i, margin, tie) && i < |n.observation.actions|
    requires Lawful(g, maxSteps) && Reached(g, n) && Settled(n, maxSteps) && n.Active()
    requires IsChild(g, n, n.observation.actions[i].id, child)
    requires Considered(best, frontier, seen, child, margin, tie, best', frontier', seen')
    ensures BalancedWithin(g, best', seen', frontier', generated + [Next(n, i)], a, n, i + 1, margin, tie)
  {
    hide LogWithin;
    hide TallyOf;
    hide OrderedWithin;
    hide AllOfferable;
    hide PreferredOrEqual;
    hide Lawful;
    LogSteps(g, maxSteps, frontier, generated, a.expanded, n, i, child, frontier');
    OrderSteps(seen, frontier, generated, a.done, n, i, child, seen', frontier');
    TallyMore(g, g.run([]).value, generated, Next(n, i), margin, tie);
    OneMoreOfferable(g, n, i, generated);
  }

  lemma AccountLeaves(g: Game, best: BestBySql, seen: seq<Node>, frontier: seq<Node>, generated: seq<seq<string>>,
    a: Account, n: Node, margin: real, tie: TiePolicy)
    requires BalancedWithin(g, best, seen, frontier, generated, a, n, |n.observation.actions|, margin, tie)
    ensures Balanced(g, best, seen, frontier, generated, Left(a, n), margin, tie)
  {
    hide LogHolds;
    hide LogWithin;
    hide TallyOf;
    hide Ordered;
    hide OrderedWithin;
    LogLeaves(g, frontier, generated, a.expanded, n, |n.observation.actions|);
    OrderLeaves(seen, frontier, generated, a.done, n);
  }

  /** Cut in the middle of an expansion: an action is left over, and what was generated comes first. */
  lemma AccountCut(g: Game, best: BestBySql, seen: seq<Node>, frontier: seq<Node>, generated: seq<seq<string>>,
    a: Account, n: Node, i: nat, margin: real, tie: TiePolicy)
    requires BalancedWithin(g, best, seen, frontier, generated, a, n, i, margin, tie) && i < |n.observation.actions|
    requires Reached(g, n) && n.Active()
    ensures LeftOut(g, generated) && Closed(g, seen, generated, true, margin, tie)
  {
    hide TallyOf;
    hide AllNexts;
    hide OrderedWithin;
    LogLeaves(g, frontier, generated, a.expanded, n, i);
    LogDistinct(g, frontier, generated, a.expanded);
    NextLeftOut(g, n, i, frontier, generated, a.expanded);
    OrderCut(seen, frontier, generated, a.done, n, i);
  }

  lemma AccountEnds(g: Game, best: BestBySql, seen: seq<Node>, generated: seq<seq<string>>, a: Account, margin: real,
    tie: TiePolicy)
    requires Balanced(g, best, seen, [], generated, a, margin, tie)
    ensures Closed(g, seen, generated, false, margin, tie)
  {
    hide TallyOf;
    hide AllNexts;
    LogDistinct(g, [], generated, a.expanded);
    OrderEnds(seen, generated, a.done);
  }

  /** The account of a finished run. */
  ghost predicate Closed(g: Game, seen: seq<Node>, generated: seq<seq<string>>, truncated: bool, margin: real,
    tie: TiePolicy) {
    && AllOfferable(g, generated) && (IdsDiffer(g) ==> NoDuplicates(generated))
    && Accounted(g, generated, seen, truncated, margin, tie)
  }

  /** Generates the children of one node, until the node budget is spent. */
  method ExpandInto(c: Config, task: Task, ghost g: Game, n: Node, best0: BestBySql, frontier0: seq<Node>,
    seen0: seq<Node>, explored0: nat, maxNodes: nat, margin: real, tie: TiePolicy,
    ghost generated0: seq<seq<string>>, ghost account: Account)
    returns (error: Option<StepError>, best: BestBySql, frontier: seq<Node>, seen: seq<Node>, explored: nat, cut: bool,
      ghost generated: seq<seq<string>>)
    requires Plays(g, c, task) && Lawful(g, task.maxSteps) && Sane(g, task.maxSteps, frontier0, seen0)
    requires Reached(g, n) && Settled(n, task.maxSteps) && n.Active() && explored0 <= maxNodes
    requires BalancedWithin(g, best0, seen0, frontier0, generated0, account, n, 0, margin, tie)
    requires |generated0| == explored0
    ensures Sane(g, task.maxSteps, frontier, seen) && explored0 <= explored <= maxNodes && |generated| == explored
    ensures error.None? && !cut ==>
              && explored == explored0 + |n.observation.actions| > explored0
              && Balanced(g, best, seen, frontier, generated, Left(account, n), margin, tie)
    ensures cut ==> explored == maxNodes && LeftOut(g, generated) && Closed(g, seen, generated, true, margin, tie)
    ensures error.Some? ==> exists ids :: Offerable(g, ids) && g.run(ids) == Err(error.value)
    ensures error.None? && !cut && margin == 0.0 && Inv(g, task.maxSteps, best0, frontier0, {n}, seen0) ==>
              Inv(g, task.maxSteps, best, frontier, {}, seen)
  {
    hide Balanced;
    hide BalancedWithin;
    hide Considered;
    hide Closed;
    hide LeftOut;
    hide Offerable;
    hide Inv;
    hide Sane;
    hide Lawful;
    error, best, frontier, seen, explored, cut := None, best0, frontier0, seen0, explored0, false;
    generated := generated0;
    ghost var exact := margin == 0.0 && Inv(g, task.maxSteps, best0, frontier0, {n}, seen0);
    for i := 0 to |n.observation.actions|
      invariant Sane(g, task.maxSteps, frontier, seen) && explored == explored0 + i == |generated| <= maxNodes
      invariant exact ==> Inv(g, task.maxSteps, best, frontier, {n}, seen) && ExpandedTo(g, best, n, i)
      invariant BalancedWithin(g, best, seen, frontier, generated, account, n, i, margin, tie)
      invariant !cut && error.None?
    {
      if explored >= maxNodes {
        AccountCut(g, best, seen, frontier, generated, account, n, i, margin, tie);
        cut := true;
        return;
      }
      var child := Play(c, task, g, n.actionIds + [n.observation.actions[i].id]);
      if child.Err? {
        error := Some(child.error);
        NextOfferable(g, n, i);
        return;
      }
      explored := explored + 1;
      ghost var b, f, s := best, frontier, seen;
      best, frontier, seen := Consider(best, frontier, seen, child.value, margin, tie);
      ConsiderSane(g, task.maxSteps, b, f, s, n, n.observation.actions[i].id, child.value, margin, tie, best, frontier,
        seen);
      AccountSteps(g, task.maxSteps, b, s, f, generated, account, n, i, child.value, best, seen, frontier, margin, tie);
      generated := generated + [Next(n, i)];
      if exact {
        ConsiderKeeps(g, task.maxSteps, b, f, s, n, i, child.value, tie, best, frontier, seen);
      }
    }
    AccountLeaves(g, best, seen, frontier, generated, account, n, margin, tie);
    if exact {
      DoneExpanding(g, task.maxSteps, best, frontier, seen, n);
    }
  }

  lemma StartInv(g: Game, maxSteps: nat, root: Node)
    requires Lawful(g, maxSteps) && g.run([]) == Ok(root)
    ensures Sane(g, maxSteps, [root], [root]) && Inv(g, maxSteps, map[Sql(root) := root], [root], {}, [root])
  {
    assert RootLaw(g, maxSteps);
  }

  method ExhaustiveIn(c: Config, task: Task, maxNodes: nat, margin: real, tie: TiePolicy, ghost g: Game)
    returns (r: Result<Outcome, SearchError>, ghost generated: seq<seq<string>>, ghost seen: seq<Node>)
    requires Plays(g, c, task) && Lawful(g, task.maxSteps) && margin >= 0.0
    ensures r.Ok? ==> Reached(g, r.value.node) && r.value.node.reward >= -margin && r.value.explored <= maxNodes
    ensures r.Ok? && tie.Shorter? ==> r.value.node.reward >= 0.0
    ensures r.Ok? && !r.value.searchTruncated && margin == 0.0 && NeverCut(g) ==>
              forall ids :: g.run(ids).Ok? ==> g.run(ids).value.reward <= r.value.node.reward
    ensures r.Ok? ==> |generated| == r.value.explored
                      && Closed(g, seen, generated, r.value.searchTruncated, margin, tie)
                      && BestOf(seen, r.value.node, margin, tie) && !r.value.stoppedEarly
    ensures r.Ok? && r.value.searchTruncated ==> r.value.explored == maxNodes && LeftOut(g, generated)
    ensures r.Err? ==> r.error.StepFailed? && (g.run([]) == Err(r.error.error)
                                               || exists ids :: Offerable(g, ids) && g.run(ids) == Err(r.error.error))
  {
    hide Balanced;
    hide BalancedWithin;
    hide Closed;
    hide LeftOut;
    hide Inv;
    hide PreferredOrEqual;
    generated, seen := [], [];
    ghost var account := Account({}, []);
    var start := Play(c, task, g, []);
    if start.Err? {
      return Err(StepFailed(start.error)), generated, seen;
    }
    var root := start.value;
    var frontier, candidates := [root], [root];
    var best: BestBySql := map[Sql(root) := root];
    var explored: nat, searchTruncated := 0, false;
    StartInv(g, task.maxSteps, root);
    AccountStarts(g, task.maxSteps, margin, tie);
    while frontier != []
      invariant Sane(g, task.maxSteps, frontier, candidates) && explored <= maxNodes
      invariant margin == 0.0 && !searchTruncated ==> Inv(g, task.maxSteps, best, frontier, {}, candidates)
      invariant |generated| == explored
      invariant !searchTruncated ==> Balanced(g, best, candidates, frontier, generated, account, margin, tie)
      invariant searchTruncated ==>
                  && frontier == [] && explored == maxNodes && LeftOut(g, generated)
                  && Closed(g, candidates, generated, true, margin, tie)
      decreases maxNodes - explored, |frontier|
    {
      var node := frontier[0];
      if node.Active() {
        if margin == 0.0 && !searchTruncated {
          StartExpanding(g, task.maxSteps, best, frontier, candidates);
        }
        AccountEnters(g, best, candidates, frontier, generated, account, margin, tie);
        var error, cut;
        error, best, frontier, candidates, explored, cut, generated :=
          ExpandInto(c, task, g, node, best, frontier[1..], candidates, explored, maxNodes, margin, tie, generated,
            Entered(account, node));
        if error.Some? {
          return Err(StepFailed(error.value)), generated, candidates;
        }
        account := Left(Entered(account, node), node);
        if cut {
          searchTruncated := true;
          frontier := [];
        }
      } else {
        if margin == 0.0 && !searchTruncated {
          SkipInactive(g, task.maxSteps, best, frontier, candidates);
        }
        AccountSkips(g, best, candidates, frontier, generated, account, margin, tie);
        frontier := frontier[1..];
      }
    }
    if !searchTruncated {
      AccountEnds(g, best, candidates, generated, account, margin, tie);
    }
    var winner := BestNode(candidates, margin, tie);
    BestNotNegative(g, task.maxSteps, candidates, winner, margin, tie);
    if margin == 0.0 && !searchTruncated && NeverCut(g) {
      Optimal(g, task.maxSteps, best, candidates, winner);
    }
    return Ok(Outcome(winner, explored, false, searchTruncated)), generated, candidates;
  }

  lemma Optimal(g: Game, maxSteps: nat, best: BestBySql, seen: seq<Node>, winner: Node)
    requires Lawful(g, maxSteps) && NeverCut(g) && Inv(g, maxSteps, best, [], {}, seen) && seen != []
    requires MaxReward(seen) <= winner.reward
    ensures forall ids :: g.run(ids).Ok? ==> g.run(ids).value.reward <= winner.reward
  {
    forall ids | g.run(ids).Ok? ensures g.run(ids).value.reward <= winner.reward {
      AllSequencesCovered(g, maxSteps, best, seen, ids);
      assert best[Sql(g.run(ids).value)] in seen;
    }
  }

  /** With margin zero, within the node budget, and when the step limit never binds, the returned reward is the highest
      over all action sequences that can be replayed, although nodes are pruned by SQL text. The search is cut only
      after exactly `maxNodes` generated sequences, with an action left over; so never with a budget as large as the
      number of sequences that can be generated, as long as no node offers two actions under one identifier. */
  method ExhaustiveSearch(c: Config, task: Task, maxNodes: int, margin: real, tie: TiePolicy)
    returns (r: Result<Outcome, SearchError>, ghost generated: seq<seq<string>>, ghost seen: seq<Node>)
    ensures r == Err(InvalidMaxNodes) <==> maxNodes < 1
    ensures r == Err(InvalidMargin) <==> maxNodes >= 1 && margin < 0.0
    ensures r.Ok? ==> |generated| == r.value.explored && AllOfferable(GameOf(c, task), generated)
                      && (IdsDiffer(GameOf(c, task)) ==> NoDuplicates(generated))
    ensures r.Ok? ==> Accounted(GameOf(c, task), generated, seen, r.value.searchTruncated, margin, tie)
                      && BestOf(seen, r.value.node, margin, tie)
    ensures r.Ok? && r.value.searchTruncated ==>
              r.value.explored == maxNodes && LeftOut(GameOf(c, task), generated)
    ensures r.Ok? && r.value.searchTruncated && IdsDiffer(GameOf(c, task)) ==>
              forall all: set<seq<string>> ::
                (forall ids :: Offerable(GameOf(c, task), ids) ==> ids in all) ==> |all| > maxNodes
    ensures r.Err? && r.error.StepFailed? ==>
              || Replays.Sequence(c, task, []) == Err(r.error.error)
              || exists ids :: Offerable(GameOf(c, task), ids) && GameOf(c, task).run(ids) == Err(r.error.error)
    ensures r.Ok? ==> margin >= 0.0 && Replays.Reached(c, task, r.value.node) && r.value.node.reward >= -margin
                      && r.value.explored <= maxNodes
    ensures r.Ok? && tie.Shorter? ==> r.value.node.reward >= 0.0
    ensures r.Ok? && !r.value.searchTruncated && margin == 0.0 && Replays.StepLimitNeverBinds(c, task) ==>
              forall ids :: Replays.Sequence(c, task, ids).Ok? ==>
                Replays.Sequence(c, task, ids).value.reward <= r.value.node.reward
  {
    if maxNodes < 1 {
      return Err(InvalidMaxNodes), [], [];
    }
    if margin < 0.0 {
      return Err(InvalidMargin), [], [];
    }
    ReplayIsLawful(c, task);
    r, generated, seen := ExhaustiveIn(c, task, maxNodes, margin, tie, GameOf(c, task));
    if Replays.StepLimitNeverBinds(c, task) {
      forall ids | GameOf(c, task).run(ids).Ok? ensures !GameOf(c, task).run(ids).value.truncated {
        assert GameOf(c, task).run(ids) == Replays.Sequence(c, task, ids);
      }
      assert NeverCut(GameOf(c, task));
    }
    if r.Ok? && r.value.searchTruncated && IdsDiffer(GameOf(c, task)) {
      forall all: set<seq<string>> | forall ids :: Offerable(GameOf(c, task), ids) ==> ids in all
        ensures |all| > maxNodes
      {
        BudgetSuffices(GameOf(c, task), generated, all);
      }
    }
    if r.Ok? && !r.value.searchTruncated && margin == 0.0 && Replays.StepLimitNeverBinds(c, task) {
      forall ids | Replays.Sequence(c, task, ids).Ok?
        ensures Replays.Sequence(c, task, ids).value.reward <= r.value.node.reward
      {
        assert GameOf(c, task).run(ids) == Replays.Sequence(c, task, ids);
      }
    }
  }
}
