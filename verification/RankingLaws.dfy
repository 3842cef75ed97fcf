/** What ranking, ties and the choice of one node for each text come to, position by position. */
module RankingLaws {
  import opened Lists
  import opened Environment
  import opened Ranking

  // ----- ties

  /** `a` begins `b`, or is smaller at the first character where they differ. */
  predicate TextUpTo(a: string, b: string) {
    a <= b || exists i :: 0 <= i < |a| && i < |b| && a[..i] == b[..i] && a[i] < b[i]
  }

  /** `a` begins `b`, or has the smaller identifier where they first differ. */
  predicate IdsUpTo(a: seq<string>, b: seq<string>) {
    a <= b || exists i :: 0 <= i < |a| && i < |b| && a[..i] == b[..i] && a[i] != b[i] && TextUpTo(a[i], b[i])
  }

  /** `a` is smaller at the first position where the two differ. */
  ghost predicate DiffersUp<T(!new)>(le: (T, T) -> bool, a: seq<T>, b: seq<T>, i: nat) {
    i < |a| && i < |b| && a[..i] == b[..i] && a[i] != b[i] && le(a[i], b[i])
  }

  lemma DiffersLater<T(!new)>(le: (T, T) -> bool, a: seq<T>, b: seq<T>, i: nat)
    requires DiffersUp(le, a, b, i)
    ensures i > 0 ==> a[0] == b[0]
  {
    if i > 0 {
      assert a[..i][0] == a[0] && b[..i][0] == b[0];
    }
  }

  lemma {:induction false} LexExact<T(!new)>(le: (T, T) -> bool, a: seq<T>, b: seq<T>)
    ensures LexLe(le, a, b) <==> a <= b || exists i: nat :: DiffersUp(le, a, b, i)
  {
    if a != [] && b != [] {
      var x, y := a[1..], b[1..];
      if a[0] == b[0] {
        LexExact(le, x, y);
        if i: nat :| DiffersUp(le, x, y, i) {
          assert a[..i + 1] == [a[0]] + x[..i] && b[..i + 1] == [b[0]] + y[..i];
          assert DiffersUp(le, a, b, i + 1);
        }
        if i: nat :| DiffersUp(le, a, b, i) {
          assert i > 0 && x[..i - 1] == a[..i][1..] && y[..i - 1] == b[..i][1..];
          assert DiffersUp(le, x, y, i - 1);
        }
        assert x <= y <==> a <= b by {
          assert a == [a[0]] + x && b == [b[0]] + y;
        }
      } else {
        forall i: nat | DiffersUp(le, a, b, i) ensures i == 0 {
          DiffersLater(le, a, b, i);
        }
        assert le(a[0], b[0]) ==> DiffersUp(le, a, b, 0);
      }
    }
  }

  lemma TextExact(a: string, b: string)
    ensures Lex(CharLe())(a, b) <==> TextUpTo(a, b)
  {
    LexExact(CharLe(), a, b);
    if i: nat :| DiffersUp(CharLe(), a, b, i) {
      assert a[i] < b[i];
    }
    if i: nat :| i < |a| && i < |b| && a[..i] == b[..i] && a[i] < b[i] {
      assert DiffersUp(CharLe(), a, b, i);
    }
  }

  lemma IdsExact(a: seq<string>, b: seq<string>)
    ensures IdsLe()(a, b) <==> IdsUpTo(a, b)
  {
    LexExact(Lex(CharLe()), a, b);
    if i: nat :| DiffersUp(Lex(CharLe()), a, b, i) {
      TextExact(a[i], b[i]);
    }
    if i: nat :| i < |a| && i < |b| && a[..i] == b[..i] && a[i] != b[i] && TextUpTo(a[i], b[i]) {
      TextExact(a[i], b[i]);
      assert DiffersUp(Lex(CharLe()), a, b, i);
    }
  }

  /** Fewer actions first, then by identifiers. */
  predicate NotLater(a: Node, b: Node) {
    |a.actionIds| < |b.actionIds| || (|a.actionIds| == |b.actionIds| && IdsUpTo(a.actionIds, b.actionIds))
  }

  /** Under the endpoint policy a node where nothing is left to do comes before one that could go on; otherwise fewer
      actions come first, and then identifiers decide. */
  lemma TieExact(a: Node, b: Node, tie: TiePolicy)
    ensures tie.Shorter? ==> (TieLe(a, b, tie) <==> NotLater(a, b))
    ensures tie.Endpoint? ==>
              (TieLe(a, b, tie) <==> (!a.Active() && b.Active()) || (a.Active() == b.Active() && NotLater(a, b)))
  {
    IdsExact(a.actionIds, b.actionIds);
  }

  /** More reward by over a margin decides; otherwise ties do. */
  lemma PreferredExact(a: Node, b: Node, margin: real, tie: TiePolicy)
    requires margin >= 0.0
    ensures a.reward - b.reward > margin ==> PreferredOrEqual(a, b, margin, tie)
    ensures b.reward - a.reward > margin ==> !PreferredOrEqual(a, b, margin, tie)
    ensures -margin <= a.reward - b.reward <= margin ==> (PreferredOrEqual(a, b, margin, tie) <==> TieLe(a, b, tie))
    ensures PreferredOrEqual(a, b, margin, tie) || PreferredOrEqual(b, a, margin, tie)
  {
    hide TieLe;
    TieTotal(a, b, b, tie);
  }

  // ----- ranking

  /** The first `n` nodes are those within the margin of the best, in tie order. */
  ghost predicate FirstGroup(r: seq<Node>, n: nat, margin: real, tie: TiePolicy) {
    && 0 < n <= |r| && SortedByTie(r[..n], tie)
    && exists top :: top in r[..n]
         && (forall x :: x in r ==> x.reward <= top.reward)
         && (forall x :: x in r[..n] ==> top.reward - x.reward <= margin)
         && (forall x :: x in r[n..] ==> top.reward - x.reward > margin)
  }

  /** Group after group. */
  ghost predicate Grouped(r: seq<Node>, margin: real, tie: TiePolicy)
    decreases |r|
  {
    r == [] || exists n: nat :: FirstGroup(r, n, margin, tie) && Grouped(r[n..], margin, tie)
  }

  lemma GroupFirst(front: seq<Node>, back: seq<Node>, top: Node, margin: real, tie: TiePolicy)
    requires top in front && SortedByTie(front, tie)
    requires forall x :: x in front ==> x.reward <= top.reward && top.reward - x.reward <= margin
    requires forall x :: x in back ==> x.reward <= top.reward && top.reward - x.reward > margin
    ensures FirstGroup(front + back, |front|, margin, tie)
  {
    hide TieLe;
    var r := front + back;
    assert r[..|front|] == front && r[|front|..] == back;
    forall x | x in r ensures x.reward <= top.reward {
      assert x in front || x in back;
    }
  }

  lemma GroupedStep(r: seq<Node>, n: nat, margin: real, tie: TiePolicy)
    requires FirstGroup(r, n, margin, tie) && Grouped(r[n..], margin, tie)
    ensures Grouped(r, margin, tie)
  {
  }

  /** The ranking consists of groups: those within the margin of the best, in tie order, then the same of the rest. */
  lemma {:induction false} RankedGrouped(s: seq<Node>, margin: real, tie: TiePolicy)
    requires margin >= 0.0
    ensures Grouped(Ranked(s, margin, tie), margin, tie)
    decreases |s|
  {
    if s != [] {
      hide Ranked;
      hide Sort;
      hide SortedByTie;
      hide FirstGroup;
      hide Grouped;
      var best := MaxReward(s);
      var near, far := Filter(Near(best, margin), s), Filter(Far(best, margin), s);
      var front, back := Sort(near, tie), Ranked(far, margin, tie);
      var top := Richest(s);
      RankedStep(s, margin, tie);
      RankedGrouped(far, margin, tie);
      SortMembers(near, tie);
      SortSorts(near, tie);
      RankedMembers(far, margin, tie);
      assert Near(best, margin)(top) && top in near;
      forall x | x in front ensures x.reward <= top.reward && top.reward - x.reward <= margin {
        assert x in near && Near(best, margin)(x);
      }
      forall x | x in back ensures x.reward <= top.reward && top.reward - x.reward > margin {
        assert x in far && Far(best, margin)(x);
      }
      GroupFirst(front, back, top, margin, tie);
      assert (front + back)[|front|..] == back;
      GroupedStep(front + back, |front|, margin, tie);
    }
  }

  // ----- one node for each text

  function Text(): Node -> string {
    (n: Node) => n.observation.currentSql
  }

  function OfText(sql: string): Node -> bool {
    (n: Node) => n.observation.currentSql == sql
  }

  /** The last of the nodes that was not kept out by the best before it. */
  function Champion(s: seq<Node>, margin: real, tie: TiePolicy): Node
    requires s != []
  {
    var last := s[|s| - 1];
    if |s| == 1 then last
    else
      var before := Champion(s[..|s| - 1], margin, tie);
      if PreferredOrEqual(before, last, margin, tie) then before else last
  }

  ghost predicate Champions(nodes: seq<Node>, kept: seq<Node>, margin: real, tie: TiePolicy) {
    forall k :: 0 <= k < |kept| ==> IsChampion(nodes, kept[k], margin, tie)
  }

  lemma FilterLast<T(!new)>(f: T -> bool, s: seq<T>, x: T)
    ensures Filter(f, s + [x]) == if f(x) then Filter(f, s) + [x] else Filter(f, s)
  {
    FilterAppend(f, s, [x]);
  }

  lemma DedupCons<T(!new)>(y: T, s: seq<T>)
    ensures Dedup([y] + s) == [y] + Dedup(Filter(Differs(y), s))
  {
    assert ([y] + s)[1..] == s;
  }

  lemma DedupSame<T(!new)>(y: T, rest: seq<T>)
    ensures Dedup([y] + rest + [y]) == Dedup([y] + rest)
  {
    hide Dedup;
    assert [y] + rest + [y] == [y] + (rest + [y]);
    DedupCons(y, rest);
    DedupCons(y, rest + [y]);
    FilterLast(Differs(y), rest, y);
  }

  lemma DedupOther<T(!new)>(y: T, rest: seq<T>, x: T)
    requires x != y
    ensures var others := Filter(Differs(y), rest);
            && Dedup([y] + rest) == [y] + Dedup(others)
            && Dedup([y] + rest + [x]) == [y] + Dedup(others + [x])
            && (x in [y] + rest <==> x in others)
  {
    hide Dedup;
    assert [y] + rest + [x] == [y] + (rest + [x]);
    DedupCons(y, rest);
    DedupCons(y, rest + [x]);
    FilterLast(Differs(y), rest, x);
    InCons(x, y, rest);
  }

  lemma PrependAppend<T>(y: T, s: seq<T>, x: T)
    ensures [y] + (s + [x]) == [y] + s + [x]
  {
  }

  lemma {:induction false} DedupLast<T(!new)>(s: seq<T>, x: T)
    ensures Dedup(s + [x]) == if x in s then Dedup(s) else Dedup(s) + [x]
    decreases |s|
  {
    if s == [] {
      assert s + [x] == [x];
    } else {
      hide Dedup;
      var y, rest := s[0], s[1..];
      assert s == [y] + rest;
      if x == y {
        DedupSame(y, rest);
      } else {
        DedupLast(Filter(Differs(y), rest), x);
        DedupOther(y, rest, x);
        var others := Filter(Differs(y), rest);
        if x !in others {
          PrependAppend(y, Dedup(others), x);
        }
      }
    }
  }

  lemma {:induction false} KeepAt(kept: seq<Node>, n: Node, margin: real, tie: TiePolicy)
    requires OnePerText(kept)
    ensures var r := Keep(kept, n, margin, tie);
            && (forall k :: 0 <= k < |kept| && kept[k].observation.currentSql != n.observation.currentSql ==>
                  k < |r| && r[k] == kept[k])
            && (forall k :: 0 <= k < |kept| && kept[k].observation.currentSql == n.observation.currentSql ==>
                  |r| == |kept| && r[k] == if PreferredOrEqual(kept[k], n, margin, tie) then kept[k] else n)
            && (!HasText(kept, n.observation.currentSql) ==> r == kept + [n])
  {
    if kept != [] {
      assert kept == [kept[0]] + kept[1..];
      if kept[0].observation.currentSql != n.observation.currentSql {
        KeepAt(kept[1..], n, margin, tie);
        var rest := Keep(kept[1..], n, margin, tie);
        forall k | 0 <= k < |kept| ensures k > 0 ==> kept[k] == kept[1..][k - 1] {
        }
        assert HasText(kept[1..], n.observation.currentSql) ==> HasText(kept, n.observation.currentSql);
      } else {
        assert kept[0] in kept;
      }
    }
  }

  lemma KeepTexts(kept: seq<Node>, n: Node, margin: real, tie: TiePolicy)
    requires OnePerText(kept)
    ensures var r := Keep(kept, n, margin, tie);
            Map(Text(), r) == if HasText(kept, n.observation.currentSql) then Map(Text(), kept)
                              else Map(Text(), kept) + [n.observation.currentSql]
  {
    hide PreferredOrEqual;
    var r := Keep(kept, n, margin, tie);
    KeepAt(kept, n, margin, tie);
    hide Keep;
    if HasText(kept, n.observation.currentSql) {
      var m :| m in kept && m.observation.currentSql == n.observation.currentSql;
      var k :| 0 <= k < |kept| && kept[k] == m;
      assert |r| == |kept|;
      assert forall j :: 0 <= j < |kept| ==> r[j].observation.currentSql == kept[j].observation.currentSql;
    }
  }

  lemma TextsStep(before: seq<Node>, last: Node, kept: seq<Node>, margin: real, tie: TiePolicy)
    requires OnePerText(kept) && Map(Text(), kept) == Dedup(Map(Text(), before))
    requires forall t :: HasText(kept, t) <==> HasText(before, t)
    ensures Map(Text(), Keep(kept, last, margin, tie)) == Dedup(Map(Text(), before + [last]))
  {
    hide Keep;
    hide Dedup;
    var sql := last.observation.currentSql;
    KeepTexts(kept, last, margin, tie);
    HasTextMap(before, sql);
    assert Map(Text(), before + [last]) == Map(Text(), before) + [sql];
    DedupLast(Map(Text(), before), sql);
  }

  lemma HasTextStep(before: seq<Node>, last: Node, t: string)
    ensures HasText(before + [last], t) <==> HasText(before, t) || t == last.observation.currentSql
  {
    assert forall n :: n in before + [last] <==> n in before || n == last;
  }

  /** The texts are kept in the order in which they first appear, each by its champion. */
  lemma {:induction false} DeduplicatedExact(nodes: seq<Node>, margin: real, tie: TiePolicy)
    ensures var kept := Deduplicated(nodes, margin, tie);
            && OnePerText(kept) && Map(Text(), kept) == Dedup(Map(Text(), nodes)) && Champions(nodes, kept, margin, tie)
            && forall sql :: HasText(kept, sql) <==> HasText(nodes, sql)
    decreases |nodes|
  {
    if nodes != [] {
      hide Keep;
      hide Dedup;
      hide Champions;
      hide OnePerText;
      hide PreferredOrEqual;
      hide HasText;
      var before, last := nodes[..|nodes| - 1], nodes[|nodes| - 1];
      var kept := Deduplicated(before, margin, tie);
      assert nodes == before + [last];
      DeduplicatedExact(before, margin, tie);
      KeepFacts(kept, last, margin, tie);
      TextsStep(before, last, kept, margin, tie);
      ChampionsStep(before, last, kept, margin, tie);
      forall t ensures HasText(nodes, t) <==> HasText(before, t) || t == last.observation.currentSql {
        HasTextStep(before, last, t);
      }
    }
  }

  lemma HasTextMap(s: seq<Node>, sql: string)
    ensures HasText(s, sql) <==> sql in Map(Text(), s)
  {
    if n :| n in s && n.observation.currentSql == sql {
      var i :| 0 <= i < |s| && s[i] == n;
      assert Map(Text(), s)[i] == sql;
    }
    if sql in Map(Text(), s) {
      var i :| 0 <= i < |Map(Text(), s)| && Map(Text(), s)[i] == sql;
      assert s[i] in s;
    }
  }

  ghost predicate IsChampion(nodes: seq<Node>, n: Node, margin: real, tie: TiePolicy) {
    var same := Filter(OfText(n.observation.currentSql), nodes);
    same != [] && n == Champion(same, margin, tie)
  }

  /** A further node of another text, of the same text, and of a new one. */
  lemma ChampionStays(before: seq<Node>, last: Node, n: Node, margin: real, tie: TiePolicy)
    requires IsChampion(before, n, margin, tie) && n.observation.currentSql != last.observation.currentSql
    ensures IsChampion(before + [last], n, margin, tie)
  {
    FilterLast(OfText(n.observation.currentSql), before, last);
  }

  lemma ChampionChallenged(before: seq<Node>, last: Node, n: Node, margin: real, tie: TiePolicy)
    requires IsChampion(before, n, margin, tie) && n.observation.currentSql == last.observation.currentSql
    ensures IsChampion(before + [last], if PreferredOrEqual(n, last, margin, tie) then n else last, margin, tie)
  {
    hide PreferredOrEqual;
    var same := Filter(OfText(n.observation.currentSql), before);
    FilterLast(OfText(n.observation.currentSql), before, last);
    assert (same + [last])[..|same|] == same;
  }

  lemma ChampionAppears(before: seq<Node>, last: Node, margin: real, tie: TiePolicy)
    requires !HasText(before, last.observation.currentSql)
    ensures IsChampion(before + [last], last, margin, tie)
  {
    var f := OfText(last.observation.currentSql);
    FilterLast(f, before, last);
    FilterNone(f, before);
    assert Filter(f, before + [last]) == [last];
  }

  lemma ChampionsStep(before: seq<Node>, last: Node, kept: seq<Node>, margin: real, tie: TiePolicy)
    requires OnePerText(kept) && Champions(before, kept, margin, tie)
    requires forall t :: HasText(kept, t) <==> HasText(before, t)
    ensures Champions(before + [last], Keep(kept, last, margin, tie), margin, tie)
  {
    hide PreferredOrEqual;
    hide IsChampion;
    hide HasText;
    var r, sql := Keep(kept, last, margin, tie), last.observation.currentSql;
    KeepAt(kept, last, margin, tie);
    KeepTexts(kept, last, margin, tie);
    assert |Map(Text(), r)| == |r| && |Map(Text(), kept)| == |kept|;
    hide Keep;
    forall k | 0 <= k < |r| ensures IsChampion(before + [last], r[k], margin, tie) {
      if k >= |kept| {
        ChampionAppears(before, last, margin, tie);
      } else if kept[k].observation.currentSql == sql {
        ChampionChallenged(before, last, kept[k], margin, tie);
      } else {
        ChampionStays(before, last, kept[k], margin, tie);
      }
    }
  }
}
