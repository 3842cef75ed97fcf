/** Shrinking a pair of WITH queries that differ in one CTE to that CTE. */
module PairReduction {
  import opened Ir
  import opened Lists
  import opened Semantics
  import opened Pipeline
  import opened TableRows
  import opened Statements
  import opened Bags
  import Ctes

  datatype Pair = Pair(original: CteBody, rewritten: CteBody)

  function WithClause(b: CteBody): seq<Cte> {
    match b
    case Select(s) => s.ctes
    case SetOperation(inner, _, _, _) => inner
  }

  function Prefixed(prefix: seq<Cte>, b: CteBody): CteBody {
    match b
    case Select(s) => Select(s.(ctes := prefix))
    case SetOperation(_, op, left, right) => SetOperation(prefix, op, left, right)
  }

  predicate SameNames(a: seq<Cte>, b: seq<Cte>) {
    |a| == |b| && forall k :: 0 <= k < |a| ==> a[k].name == b[k].name
  }

  predicate DifferOnlyAt(a: seq<Cte>, b: seq<Cte>, i: nat)
    requires |a| == |b|
  {
    i < |a| && forall k :: 0 <= k < |a| ==> (a[k].body == b[k].body <==> k != i)
  }

  predicate Comparable(a: Statement, b: Statement) {
    a.ctes != [] && b.ctes != [] && !a.recursive && !b.recursive && SameNames(a.ctes, b.ctes) && a.outer == b.outer
  }

  predicate ReducibleAt(a: Statement, b: Statement, i: nat) {
    && Comparable(a, b) && DifferOnlyAt(a.ctes, b.ctes, i)
    && WithClause(a.ctes[i].body) == [] && WithClause(b.ctes[i].body) == []
  }

  /** The two differing bodies, each with the CTEs before it. */
  function FragmentPair(a: Statement, b: Statement, i: nat): Pair
    requires i < |a.ctes| && i < |b.ctes|
  {
    Pair(Prefixed(a.ctes[..i], a.ctes[i].body), Prefixed(b.ctes[..i], b.ctes[i].body))
  }

  /** `None` on either side is SQL that does not parse. */
  method ReducePair(original: Option<CteBody>, rewritten: Option<CteBody>) returns (r: Option<Pair>)
    ensures r.Some? ==> original.Some? && original.value.Select? && rewritten.Some? && rewritten.value.Select?
    ensures original.Some? && original.value.Select? && rewritten.Some? && rewritten.value.Select? ==>
              var a, b := original.value.statement, rewritten.value.statement;
              && (r.Some? <==> exists i :: ReducibleAt(a, b, i))
              && forall i :: ReducibleAt(a, b, i) ==> r == Some(FragmentPair(a, b, i))
  {
    if original.None? || rewritten.None? {
      return None;
    }
    if !original.value.Select? || !rewritten.value.Select? {
      return None;
    }
    var a, b := original.value.statement, rewritten.value.statement;
    if a.ctes == [] || b.ctes == [] || a.recursive || b.recursive {
      return None;
    }
    if |a.ctes| != |b.ctes| || a.outer != b.outer {
      return None;
    }
    var differing: seq<nat> := [];
    for index := 0 to |a.ctes|
      invariant forall k :: 0 <= k < index ==> a.ctes[k].name == b.ctes[k].name
      invariant forall n :: 0 <= n < |differing| ==> differing[n] < index
      invariant forall m, n :: 0 <= m < n < |differing| ==> differing[m] < differing[n]
      invariant forall k :: 0 <= k < index ==> (a.ctes[k].body != b.ctes[k].body <==> k in differing)
    {
      if a.ctes[index].name != b.ctes[index].name {
        return None;
      }
      if a.ctes[index].body != b.ctes[index].body {
        differing := differing + [index];
      }
    }
    forall i: nat | DifferOnlyAt(a.ctes, b.ctes, i) ensures differing == [i] {
      OnlyOneDiffers(a, b, differing, i);
    }
    if |differing| != 1 {
      return None;
    }
    var index := differing[0];
    if WithClause(a.ctes[index].body) != [] || WithClause(b.ctes[index].body) != [] {
      return None;
    }
    assert ReducibleAt(a, b, index);
    return Some(FragmentPair(a, b, index));
  }

  lemma OnlyOneDiffers(a: Statement, b: Statement, differing: seq<nat>, i: nat)
    requires |a.ctes| == |b.ctes| && DifferOnlyAt(a.ctes, b.ctes, i)
    requires forall n :: 0 <= n < |differing| ==> differing[n] < |a.ctes|
    requires forall m, n :: 0 <= m < n < |differing| ==> differing[m] < differing[n]
    requires forall k :: 0 <= k < |a.ctes| ==> (a.ctes[k].body != b.ctes[k].body <==> k in differing)
    ensures differing == [i]
  {
    assert |differing| > 1 ==> differing[0] < differing[1];
    assert i in differing;
    forall n | 0 <= n < |differing| ensures differing[n] == i {
      var k := differing[n];
      assert k in differing && a.ctes[k].body != b.ctes[k].body;
    }
  }

  /** The two sides of a reduced pair return, in that order, what the differing CTE of the original and of the rewritten
      statement returns where it stands. */
  lemma FragmentPairMeans(w: World, a: Statement, b: Statement, i: nat)
    requires ReducibleAt(a, b, i)
    ensures var pair := FragmentPair(a, b, i);
            && BodyRelation(w, pair.original) == CteRelation(Bound(w, a.ctes[..i]), a.ctes[i])
            && BodyRelation(w, pair.rewritten) == CteRelation(Bound(w, b.ctes[..i]), b.ctes[i])
  {
    hide Eval;
    PrefixedMeans(w, a.ctes[..i], a.ctes[i].body);
    PrefixedMeans(w, b.ctes[..i], b.ctes[i].body);
  }

  // ----- congruence

  lemma {:induction false} BoundSplit(w: World, before: seq<Cte>, after: seq<Cte>)
    ensures Bound(w, before + after) == Bound(Bound(w, before), after)
    decreases |after|
  {
    if after == [] {
      assert before + after == before;
    } else {
      var all := before + after;
      assert all[..|all| - 1] == before + after[..|after| - 1];
      assert all[|all| - 1] == after[|after| - 1];
      BoundSplit(w, before, after[..|after| - 1]);
    }
  }

  lemma PrefixedMeans(w: World, prefix: seq<Cte>, b: CteBody)
    requires WithClause(b) == []
    ensures BodyRelation(w, Prefixed(prefix, b)) == BodyRelation(Bound(w, prefix), b)
  {
    assert Bound(Bound(w, prefix), []) == Bound(w, prefix);
  }

  /** A prover's verdict on a pair: the same bag of rows on every database, or on those of steady engines. */
  ghost predicate EqualOn(steady: bool, a: CteBody, b: CteBody) {
    forall w: World :: (steady ==> BagEngine(w.engine)) ==> SameBag(BodyRelation(w, a), BodyRelation(w, b))
  }

  /** The relation bound at one place of a WITH clause, and what follows from there. */
  lemma BoundAt(w: World, ctes: seq<Cte>, i: nat)
    requires i < |ctes|
    ensures var v := Bound(w, ctes[..i]);
            Bound(w, ctes) == Bound(Define(v, ctes[i].name, CteRelation(v, ctes[i])), ctes[i + 1..])
  {
    hide Eval;
    var upTo := ctes[..i + 1];
    assert ctes == upTo + ctes[i + 1..] && upTo[..i] == ctes[..i] && upTo[i] == ctes[i];
    BoundSplit(w, upTo, ctes[i + 1..]);
  }

  lemma RestSame(a: seq<Cte>, b: seq<Cte>, i: nat)
    requires SameNames(a, b) && i < |a| && forall k :: 0 <= k < |a| && k != i ==> a[k].body == b[k].body
    ensures a[..i] == b[..i] && a[i + 1..] == b[i + 1..]
  {
    forall k | 0 <= k < |a| && k != i ensures a[k] == b[k] {
      assert a[k].name == b[k].name && a[k].body == b[k].body;
    }
  }

  /** Two CTE lists that differ in one body bind the same relations when the two bodies return the same relation. */
  lemma OneBodyReplaced(w: World, a: seq<Cte>, b: seq<Cte>, i: nat)
    requires SameNames(a, b) && i < |a| && forall k :: 0 <= k < |a| && k != i ==> a[k].body == b[k].body
    requires CteRelation(Bound(w, a[..i]), a[i]) == CteRelation(Bound(w, a[..i]), b[i])
    ensures Bound(w, a) == Bound(w, b)
  {
    hide Eval;
    RestSame(a, b, i);
    BoundAt(w, a, i);
    BoundAt(w, b, i);
  }

  /** The reduced pair stands, on every database, for the two differing bodies where they are. */
  lemma FragmentsMean(w: World, a: Statement, b: Statement, i: nat)
    requires ReducibleAt(a, b, i)
    ensures var v, pair := Bound(w, a.ctes[..i]), FragmentPair(a, b, i);
            && a.ctes[..i] == b.ctes[..i] && a.ctes[i + 1..] == b.ctes[i + 1..] && a.ctes[i].name == b.ctes[i].name
            && BodyRelation(w, pair.original) == CteRelation(v, a.ctes[i])
            && BodyRelation(w, pair.rewritten) == CteRelation(v, b.ctes[i])
  {
    hide Eval;
    RestSame(a.ctes, b.ctes, i);
    PrefixedMeans(w, a.ctes[..i], a.ctes[i].body);
    PrefixedMeans(w, b.ctes[..i], b.ctes[i].body);
  }

  /** Whenever the reduced pair returns the same relation on a database, rows in the same order, so does the full
      pair. */
  lemma ReducedPairSound(w: World, a: Statement, b: Statement, i: nat)
    requires ReducibleAt(a, b, i)
    requires BodyRelation(w, FragmentPair(a, b, i).original) == BodyRelation(w, FragmentPair(a, b, i).rewritten)
    ensures EvalStatement(w, a) == EvalStatement(w, b)
  {
    FragmentsMean(w, a, b, i);
    OneBodyReplaced(w, a.ctes, b.ctes, i);
  }

  /** Whenever it returns the same bag of rows, so does the full pair, if nothing after the fragment sees row order. */
  lemma ReducedPairBag(steady: bool, w: World, a: Statement, b: Statement, i: nat)
    requires ReducibleAt(a, b, i) && BlindAfter(steady, a, i) && (steady ==> BagEngine(w.engine))
    requires SameBag(BodyRelation(w, FragmentPair(a, b, i).original), BodyRelation(w, FragmentPair(a, b, i).rewritten))
    ensures SameBag(EvalStatement(w, a), EvalStatement(w, b))
  {
    hide Eval;
    FragmentsMean(w, a, b, i);
    var v := Bound(w, a.ctes[..i]);
    BoundAt(w, a.ctes, i);
    BoundAt(w, b.ctes, i);
    BoundEngine(w, a.ctes[..i]);
    BlindTail(steady, v, a.ctes[i].name, CteRelation(v, a.ctes[i]), CteRelation(v, b.ctes[i]), a.ctes[i + 1..],
      a.outer);
  }

  /** Proving the reduced pair equal on all databases proves the full pair equal on all databases; where MAX, MIN, an
      opaque aggregate or HAVING comes after the fragment, on all databases of steady engines. */
  lemma ReducedPairProves(steady: bool, a: Statement, b: Statement, i: nat)
    requires ReducibleAt(a, b, i) && BlindAfter(steady, a, i)
    requires EqualOn(steady, FragmentPair(a, b, i).original, FragmentPair(a, b, i).rewritten)
    ensures EqualOn(steady, Select(a), Select(b))
  {
    hide Eval;
    hide BagEngine;
    forall w: World | steady ==> BagEngine(w.engine)
      ensures SameBag(BodyRelation(w, Select(a)), BodyRelation(w, Select(b)))
    {
      assert SameBag(BodyRelation(w, FragmentPair(a, b, i).original), BodyRelation(w, FragmentPair(a, b, i).rewritten));
      ReducedPairBag(steady, w, a, b, i);
    }
  }

  // ----- a difference between the fragments refutes nothing

  function BareQuery(table: string, limit: Option<nat>): SelectQuery {
    SelectQuery(Some(table), None, false, None, None, [], [], [], [], [], [], [], limit, None, false, "")
  }

  function UnusedCte(limit: Option<nat>): Statement {
    Statement(false, [Cte("c", Select(Statement(false, [], BareQuery("t", limit))))], BareQuery("t", None))
  }

  lemma BareQueryMentions(limit: Option<nat>, name: string)
    ensures Mentions(BareQuery("t", limit), name) ==> name == "t"
  {
  }

  lemma EmptyLimit(w: World)
    ensures Eval(w, BareQuery("t", Some(0))).rows == []
  {
  }

  lemma NoColumns(w: World, q: SelectQuery)
    requires SingleTable(q) && RowLevel(q) && Unlimited(q) && q.orderBy == [] && q.predicates == [] && !q.distinct
    requires q.projections == [] && RowsOf(w, q) == [[]]
    ensures Eval(w, q).rows == [[]]
  {
    hide Body;
    var envs := FromRows(w, q);
    SingleTableRows(w, q);
    FilterAll(WhereHolds(w, q.predicates), envs);
    RowLevelRecords(w, q, envs);
    UnlimitedRows(w, q);
    assert Map(RowRecord(w, q.projections), envs) == [[]];
  }

  lemma BareRow(w: World)
    requires TableRelation(w, "t").rows == [[]]
    ensures Eval(w, BareQuery("t", None)).rows == [[]]
  {
    hide Eval;
    NoColumns(w, BareQuery("t", None));
  }

  /** A pair whose fragments differ on some database although the full queries agree on all. */
  lemma FragmentDifferenceRefutesNothing()
    ensures ReducibleAt(UnusedCte(None), UnusedCte(Some(0)), 0)
    ensures var pair := FragmentPair(UnusedCte(None), UnusedCte(Some(0)), 0);
            !EqualOn(false, pair.original, pair.rewritten)
    ensures EqualOn(false, Select(UnusedCte(None)), Select(UnusedCte(Some(0))))
  {
    UnusedCteReducible();
    FragmentsDiffer(PlainWorld(map["t" := Relation([], [[]])]));
    UnusedCteIgnored();
  }

  lemma UnusedCteReducible()
    ensures ReducibleAt(UnusedCte(None), UnusedCte(Some(0)), 0)
  {
    assert BareQuery("t", None).limit != BareQuery("t", Some(0)).limit;
  }

  lemma UnusedCteIgnored()
    ensures EqualOn(false, Select(UnusedCte(None)), Select(UnusedCte(Some(0))))
  {
    hide Eval;
    forall w: World
      ensures SameBag(BodyRelation(w, Select(UnusedCte(None))), BodyRelation(w, Select(UnusedCte(Some(0)))))
    {
      UnusedCteMeans(w, None);
      UnusedCteMeans(w, Some(0));
    }
  }

  lemma FragmentsDiffer(w: World)
    requires TableRelation(w, "t").rows == [[]]
    ensures var pair := FragmentPair(UnusedCte(None), UnusedCte(Some(0)), 0);
            !EqualOn(false, pair.original, pair.rewritten)
  {
    hide Eval;
    FragmentMeans(w, None);
    FragmentMeans(w, Some(0));
    BareRow(w);
    EmptyLimit(w);
    assert BodyRelation(w, FragmentPair(UnusedCte(None), UnusedCte(Some(0)), 0).original).rows == [[]];
  }

  lemma FragmentMeans(w: World, limit: Option<nat>)
    ensures var c := UnusedCte(limit).ctes[0];
            BodyRelation(w, Prefixed(UnusedCte(limit).ctes[..0], c.body)) == Eval(w, BareQuery("t", limit))
  {
    var ctes := UnusedCte(limit).ctes;
    assert ctes[..0] == [] && Bound(w, []) == w;
    PrefixedMeans(w, ctes[..0], ctes[0].body);
  }

  lemma UnusedCteMeans(w: World, limit: Option<nat>)
    ensures EvalStatement(w, UnusedCte(limit)) == Eval(w, BareQuery("t", None))
  {
    var ctes := UnusedCte(limit).ctes;
    assert ctes[..0] == [] && Bound(w, []) == w;
    forall n ensures Mentions(BareQuery("t", None), n) ==> n == "t" {
      BareQueryMentions(None, n);
    }
    DefineUnmentioned(w, "c", CteRelation(w, ctes[0]), BareQuery("t", None));
  }
}
