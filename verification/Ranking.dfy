/** Which search node comes first: rewards up to a margin, then ties. */
module Ranking {
  import opened Lists
  import opened Environment

  datatype Node = Node(
    actionIds: seq<string>,
    transitions: seq<Transition>,
    observation: Observation,
    reward: real,
    terminated: bool,
    truncated: bool)
  {
    predicate Active() {
      !terminated && !truncated && observation.actions != []
    }
  }

  datatype TiePolicy = Shorter | Endpoint

  // ----- the order of tie keys

  /** Lexicographic order, a proper prefix first. */
  predicate LexLe<T(==)>(le: (T, T) -> bool, a: seq<T>, b: seq<T>) {
    a == [] || (b != [] && if a[0] == b[0] then LexLe(le, a[1..], b[1..]) else le(a[0], b[0]))
  }

  function Lex<T(==)>(le: (T, T) -> bool): (seq<T>, seq<T>) -> bool {
    (a, b) => LexLe(le, a, b)
  }

  ghost predicate TotalOrder<T(!new)>(le: (T, T) -> bool) {
    && (forall x, y :: le(x, y) || le(y, x))
    && (forall x, y :: le(x, y) && le(y, x) ==> x == y)
    && forall x, y, z :: le(x, y) && le(y, z) ==> le(x, z)
  }

  lemma {:induction false} LexPair<T(!new)>(le: (T, T) -> bool, a: seq<T>, b: seq<T>)
    requires TotalOrder(le)
    ensures LexLe(le, a, b) || LexLe(le, b, a)
    ensures LexLe(le, a, b) && LexLe(le, b, a) ==> a == b
  {
    if a != [] && b != [] && a[0] == b[0] {
      LexPair(le, a[1..], b[1..]);
      assert a == [a[0]] + a[1..] && b == [b[0]] + b[1..];
    }
  }

  lemma {:induction false} LexTransitive<T(!new)>(le: (T, T) -> bool, a: seq<T>, b: seq<T>, c: seq<T>)
    requires TotalOrder(le) && LexLe(le, a, b) && LexLe(le, b, c)
    ensures LexLe(le, a, c)
  {
    if a != [] && a[0] == b[0] && b[0] == c[0] {
      LexTransitive(le, a[1..], b[1..], c[1..]);
    }
  }

  lemma LexTotal<T(!new)>(le: (T, T) -> bool)
    requires TotalOrder(le)
    ensures TotalOrder(Lex(le))
  {
    forall a, b ensures Lex(le)(a, b) || Lex(le)(b, a) {
      LexPair(le, a, b);
    }
    forall a, b | Lex(le)(a, b) && Lex(le)(b, a) ensures a == b {
      LexPair(le, a, b);
    }
    forall a, b, c | Lex(le)(a, b) && Lex(le)(b, c) ensures Lex(le)(a, c) {
      LexTransitive(le, a, b, c);
    }
  }

  function CharLe(): (char, char) -> bool {
    (a: char, b: char) => a <= b
  }

  function IdsLe(): (seq<string>, seq<string>) -> bool {
    Lex(Lex(CharLe()))
  }

  lemma IdsTotal()
    ensures TotalOrder(IdsLe())
  {
    LexTotal(CharLe());
    LexTotal(Lex(CharLe()));
  }

  datatype Key = Key(endpointRank: int, length: nat, ids: seq<string>)

  function TieKey(n: Node, tie: TiePolicy): Key {
    Key(if tie.Endpoint? && !n.Active() then 0 else 1, |n.actionIds|, n.actionIds)
  }

  predicate KeyLe(a: Key, b: Key) {
    if a.endpointRank != b.endpointRank then a.endpointRank < b.endpointRank
    else if a.length != b.length then a.length < b.length
    else IdsLe()(a.ids, b.ids)
  }

  predicate TieLe(a: Node, b: Node, tie: TiePolicy) {
    KeyLe(TieKey(a, tie), TieKey(b, tie))
  }

  lemma TieTotal(a: Node, b: Node, c: Node, tie: TiePolicy)
    ensures TieLe(a, b, tie) || TieLe(b, a, tie)
    ensures TieLe(a, b, tie) && TieLe(b, a, tie) ==> TieKey(a, tie) == TieKey(b, tie)
    ensures TieLe(a, b, tie) && TieLe(b, c, tie) ==> TieLe(a, c, tie)
  {
    IdsTotal();
  }

  predicate PreferredOrEqual(incumbent: Node, challenger: Node, margin: real, tie: TiePolicy) {
    if incumbent.reward > challenger.reward + margin then true
    else if challenger.reward > incumbent.reward + margin then false
    else TieLe(incumbent, challenger, tie)
  }

  // ----- sorting

  function Insert(n: Node, s: seq<Node>, tie: TiePolicy): seq<Node> {
    if s == [] || TieLe(n, s[0], tie) then [n] + s else [s[0]] + Insert(n, s[1..], tie)
  }

  /** A stable sort by tie key. */
  function Sort(s: seq<Node>, tie: TiePolicy): seq<Node> {
    if s == [] then [] else Insert(s[0], Sort(s[1..], tie), tie)
  }

  predicate SortedByTie(s: seq<Node>, tie: TiePolicy) {
    forall i, j :: 0 <= i < j < |s| ==> TieLe(s[i], s[j], tie)
  }

  lemma {:induction false} InsertKeeps(n: Node, s: seq<Node>, tie: TiePolicy)
    requires SortedByTie(s, tie)
    ensures SortedByTie(Insert(n, s, tie), tie) && multiset(Insert(n, s, tie)) == multiset{n} + multiset(s)
  {
    hide TieLe;
    if s != [] {
      assert s == [s[0]] + s[1..];
      if TieLe(n, s[0], tie) {
        forall j | 0 <= j < |s| ensures TieLe(n, s[j], tie) {
          TieTotal(n, s[0], s[j], tie);
        }
      } else {
        InsertKeeps(n, s[1..], tie);
        var rest := Insert(n, s[1..], tie);
        forall j | 0 <= j < |rest| ensures TieLe(s[0], rest[j], tie) {
          TieTotal(n, s[0], n, tie);
          assert rest[j] in multiset(rest);
          assert rest[j] == n || rest[j] in s[1..];
        }
      }
    }
  }

  lemma {:induction false} SortSorts(s: seq<Node>, tie: TiePolicy)
    ensures SortedByTie(Sort(s, tie), tie) && multiset(Sort(s, tie)) == multiset(s)
  {
    if s != [] {
      SortSorts(s[1..], tie);
      InsertKeeps(s[0], Sort(s[1..], tie), tie);
      assert s == [s[0]] + s[1..];
    }
  }

  lemma SortMembers(s: seq<Node>, tie: TiePolicy)
    ensures forall n :: n in Sort(s, tie) <==> n in s
    ensures |Sort(s, tie)| == |s|
  {
    SortSorts(s, tie);
    forall n ensures n in Sort(s, tie) <==> n in s {
      assert n in Sort(s, tie) <==> n in multiset(Sort(s, tie));
      assert n in s <==> n in multiset(s);
    }
    assert |multiset(s)| == |s| && |multiset(Sort(s, tie))| == |Sort(s, tie)|;
  }

  // ----- ranking

  /** Some node of the highest reward. */
  function Richest(s: seq<Node>): (r: Node)
    requires s != []
    ensures r in s && forall n :: n in s ==> n.reward <= r.reward
  {
    if |s| == 1 then s[0]
    else
      var m := Richest(s[1..]);
      assert s == [s[0]] + s[1..];
      if m.reward < s[0].reward then s[0] else m
  }

  function MaxReward(s: seq<Node>): (r: real)
    requires s != []
    ensures forall n :: n in s ==> n.reward <= r
  {
    Richest(s).reward
  }

  function Near(best: real, margin: real): Node -> bool {
    (n: Node) => best - n.reward <= margin
  }

  function Far(best: real, margin: real): Node -> bool {
    (n: Node) => !(best - n.reward <= margin)
  }

  lemma FarFewer(s: seq<Node>, margin: real)
    requires s != [] && margin >= 0.0
    ensures |Filter(Far(MaxReward(s), margin), s)| < |s|
  {
    assert !Far(MaxReward(s), margin)(Richest(s));
    FilterStrict(Far(MaxReward(s), margin), s);
  }

  function Ranked(s: seq<Node>, margin: real, tie: TiePolicy): seq<Node>
    requires margin >= 0.0
    decreases |s|
  {
    if s == [] then []
    else
      var best := MaxReward(s);
      FarFewer(s, margin);
      Sort(Filter(Near(best, margin), s), tie) + Ranked(Filter(Far(best, margin), s), margin, tie)
  }

  lemma RankedStep(s: seq<Node>, margin: real, tie: TiePolicy)
    requires margin >= 0.0 && s != []
    ensures var near, far := Filter(Near(MaxReward(s), margin), s), Filter(Far(MaxReward(s), margin), s);
            Ranked(s, margin, tie) == Sort(near, tie) + Ranked(far, margin, tie) && |far| < |s|
  {
    FarFewer(s, margin);
  }

  /** One round of the ranking, after the nodes ranked so far. */
  lemma RankedRound(ranked: seq<Node>, s: seq<Node>, margin: real, tie: TiePolicy)
    requires margin >= 0.0 && s != []
    ensures var near, far := Filter(Near(MaxReward(s), margin), s), Filter(Far(MaxReward(s), margin), s);
            (ranked + Sort(near, tie)) + Ranked(far, margin, tie) == ranked + Ranked(s, margin, tie) && |far| < |s|
  {
    hide Sort;
    hide Ranked;
    RankedStep(s, margin, tie);
  }

  lemma NothingRanked(ranked: seq<Node>, margin: real, tie: TiePolicy)
    requires margin >= 0.0
    ensures ranked + Ranked([], margin, tie) == ranked
  {
  }

  method RankNodes(nodes: seq<Node>, margin: real, tie: TiePolicy) returns (ranked: seq<Node>)
    requires margin >= 0.0
    ensures ranked == Ranked(Sort(nodes, tie), margin, tie)
  {
    hide Sort;
    hide Ranked;
    ranked := [];
    var remaining := Sort(nodes, tie);
    assert [] + Ranked(remaining, margin, tie) == Ranked(remaining, margin, tie);
    while remaining != []
      invariant ranked + Ranked(remaining, margin, tie) == Ranked(Sort(nodes, tie), margin, tie)
      decreases |remaining|
    {
      var best := MaxReward(remaining);
      RankedRound(ranked, remaining, margin, tie);
      ranked := ranked + Sort(Filter(Near(best, margin), remaining), tie);
      remaining := Filter(Far(best, margin), remaining);
    }
    NothingRanked(ranked, margin, tie);
  }

  lemma {:induction false} RankedPermutes(s: seq<Node>, margin: real, tie: TiePolicy)
    requires margin >= 0.0
    ensures multiset(Ranked(s, margin, tie)) == multiset(s)
    decreases |s|
  {
    if s != [] {
      var best := MaxReward(s);
      FarFewer(s, margin);
      SortSorts(Filter(Near(best, margin), s), tie);
      RankedPermutes(Filter(Far(best, margin), s), margin, tie);
      FilterSplits(Near(best, margin), Far(best, margin), s);
    }
  }

  lemma RankedMembers(s: seq<Node>, margin: real, tie: TiePolicy)
    requires margin >= 0.0
    ensures forall n :: n in Ranked(s, margin, tie) <==> n in s
    ensures |Ranked(s, margin, tie)| == |s|
  {
    RankedPermutes(s, margin, tie);
    var r := Ranked(s, margin, tie);
    forall n ensures n in r <==> n in s {
      assert n in r <==> n in multiset(r);
      assert n in s <==> n in multiset(s);
    }
    assert |multiset(s)| == |s| && |multiset(r)| == |r|;
  }

  /** No later node beats an earlier one by more than the margin. */
  predicate OrderedWithin(r: seq<Node>, margin: real) {
    forall i, j :: 0 <= i < j < |r| ==> r[j].reward <= r[i].reward + margin
  }

  lemma OrderedAppend(front: seq<Node>, back: seq<Node>, best: real, margin: real)
    requires margin >= 0.0 && OrderedWithin(back, margin)
    requires forall n :: n in front ==> n.reward <= best <= n.reward + margin
    requires forall n :: n in back ==> n.reward <= best
    ensures OrderedWithin(front + back, margin)
  {
    var all := front + back;
    forall i, j | 0 <= i < j < |all| ensures all[j].reward <= all[i].reward + margin {
      if i < |front| {
        assert all[i] in front && all[j] in all;
        assert all[j].reward <= best;
      } else {
        assert all[i] == back[i - |front|] && all[j] == back[j - |front|];
      }
    }
  }

  lemma {:induction false} RankedOrder(s: seq<Node>, margin: real, tie: TiePolicy)
    requires margin >= 0.0
    ensures OrderedWithin(Ranked(s, margin, tie), margin)
    decreases |s|
  {
    if s != [] {
      var near, far := Filter(Near(MaxReward(s), margin), s), Filter(Far(MaxReward(s), margin), s);
      RankedStep(s, margin, tie);
      RankedOrder(far, margin, tie);
      SortMembers(near, tie);
      RankedMembers(far, margin, tie);
      OrderedAppend(Sort(near, tie), Ranked(far, margin, tie), MaxReward(s), margin);
    }
  }

  /** The head is near the maximum, and nothing as near comes before it in the tie order. */
  lemma RankedHead(s: seq<Node>, margin: real, tie: TiePolicy)
    requires margin >= 0.0 && s != []
    ensures var r := Ranked(s, margin, tie);
            && r != [] && r[0] in s && MaxReward(s) - r[0].reward <= margin
            && forall n :: n in s && MaxReward(s) - n.reward <= margin ==> TieLe(r[0], n, tie)
  {
    hide TieLe;
    hide Ranked;
    hide Sort;
    var best := MaxReward(s);
    var near := Filter(Near(best, margin), s);
    var front := Sort(near, tie);
    var top := Richest(s);
    RankedStep(s, margin, tie);
    assert Near(best, margin)(top) && top in near;
    SortMembers(near, tie);
    SortSorts(near, tie);
    assert front[0] in front && front[0] in near && Ranked(s, margin, tie)[0] == front[0];
    forall n | n in s && best - n.reward <= margin ensures TieLe(front[0], n, tie) {
      assert Near(best, margin)(n) && n in near && n in front;
      var k :| 0 <= k < |front| && front[k] == n;
      TieTotal(n, n, n, tie);
    }
  }

  /** The node a search returns. */
  method BestNode(nodes: seq<Node>, margin: real, tie: TiePolicy) returns (best: Node)
    requires margin >= 0.0 && nodes != []
    ensures best in nodes && MaxReward(nodes) - best.reward <= margin
    ensures forall n :: n in nodes && MaxReward(nodes) - n.reward <= margin ==> TieLe(best, n, tie)
  {
    var ranked := RankNodes(nodes, margin, tie);
    SortMembers(nodes, tie);
    RankedHead(Sort(nodes, tie), margin, tie);
    SameMax(nodes, Sort(nodes, tie));
    best := ranked[0];
  }

  lemma SameMax(s: seq<Node>, t: seq<Node>)
    requires s != [] && t != [] && forall n :: n in s <==> n in t
    ensures MaxReward(s) == MaxReward(t)
  {
    assert Richest(s) in t && Richest(t) in s;
  }

  /** Ranking is a permutation in which no later node beats an earlier one by more than the margin, headed by the first
      in tie order among the nodes near the maximum. */
  lemma RankingGuarantees(nodes: seq<Node>, margin: real, tie: TiePolicy)
    requires margin >= 0.0
    ensures var r := Ranked(Sort(nodes, tie), margin, tie);
            && multiset(r) == multiset(nodes)
            && OrderedWithin(r, margin)
            && (nodes != [] ==>
                  && r != [] && MaxReward(nodes) - r[0].reward <= margin
                  && forall n :: n in nodes && MaxReward(nodes) - n.reward <= margin ==> TieLe(r[0], n, tie))
  {
    var sorted := Sort(nodes, tie);
    SortSorts(nodes, tie);
    SortMembers(nodes, tie);
    RankedPermutes(sorted, margin, tie);
    RankedOrder(sorted, margin, tie);
    if nodes != [] {
      RankedHead(sorted, margin, tie);
      SameMax(nodes, sorted);
    }
  }

  // ----- one node for each SQL text

  /** The kept nodes in the order in which their texts first appeared. */
  function Keep(kept: seq<Node>, n: Node, margin: real, tie: TiePolicy): seq<Node> {
    if kept == [] then [n]
    else if kept[0].observation.currentSql == n.observation.currentSql then
      if PreferredOrEqual(kept[0], n, margin, tie) then kept else [n] + kept[1..]
    else [kept[0]] + Keep(kept[1..], n, margin, tie)
  }

  function Deduplicated(nodes: seq<Node>, margin: real, tie: TiePolicy): seq<Node> {
    if nodes == [] then [] else Keep(Deduplicated(nodes[..|nodes| - 1], margin, tie), nodes[|nodes| - 1], margin, tie)
  }

  predicate OnePerText(s: seq<Node>) {
    forall i, j :: 0 <= i < j < |s| ==> s[i].observation.currentSql != s[j].observation.currentSql
  }

  predicate HasText(s: seq<Node>, sql: string) {
    exists n :: n in s && n.observation.currentSql == sql
  }

  /** The dictionary of the best node by text is the list of kept nodes. */
  method DeduplicateNodes(nodes: seq<Node>, margin: real, tie: TiePolicy) returns (kept: seq<Node>)
    ensures kept == Deduplicated(nodes, margin, tie)
  {
    kept := [];
    assert nodes[..0] == [];
    for i := 0 to |nodes|
      invariant kept == Deduplicated(nodes[..i], margin, tie)
    {
      assert nodes[..i + 1][..i] == nodes[..i] && nodes[..i + 1][i] == nodes[i];
      kept := Keep(kept, nodes[i], margin, tie);
    }
    assert nodes[..|nodes|] == nodes;
  }

  lemma {:induction false} KeepFacts(kept: seq<Node>, n: Node, margin: real, tie: TiePolicy)
    requires OnePerText(kept)
    ensures var r := Keep(kept, n, margin, tie);
            && OnePerText(r) && (forall m :: m in r ==> m in kept || m == n)
            && (forall sql :: HasText(r, sql) <==> HasText(kept, sql) || sql == n.observation.currentSql)
            && (forall m :: m in kept ==> m in r || (m.observation.currentSql == n.observation.currentSql
                                                     && n in r && !PreferredOrEqual(m, n, margin, tie)))
            && (n in r || exists m :: m in r && m in kept && m.observation.currentSql == n.observation.currentSql
                                      && PreferredOrEqual(m, n, margin, tie))
  {
    var r := Keep(kept, n, margin, tie);
    if kept != [] {
      assert kept == [kept[0]] + kept[1..];
      if kept[0].observation.currentSql != n.observation.currentSql {
        KeepFacts(kept[1..], n, margin, tie);
        var rest := Keep(kept[1..], n, margin, tie);
        forall j | 0 <= j < |rest| ensures rest[j].observation.currentSql != kept[0].observation.currentSql {
          assert rest[j] in rest && (rest[j] in kept[1..] || rest[j] == n);
        }
        forall sql ensures HasText(r, sql) <==> HasText(kept, sql) || sql == n.observation.currentSql {
          assert HasText(r, sql) <==> kept[0].observation.currentSql == sql || HasText(rest, sql);
          assert HasText(kept, sql) <==> kept[0].observation.currentSql == sql || HasText(kept[1..], sql);
        }
      } else {
        assert r == kept || r == [n] + kept[1..];
        assert kept[0] in kept;
      }
    } else {
      assert n in r;
    }
  }
}
