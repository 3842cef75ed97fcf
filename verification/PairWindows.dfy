/** A row window behind the fragment of a reduced pair: decided over all pairs and databases. */
module PairWindows {
  import opened Ir
  import opened Lists
  import opened Semantics
  import opened Pipeline
  import opened TableRows
  import opened Statements
  import opened Bags
  import opened PairReduction
  import Ctes

  /** SELECT * FROM name [ORDER BY ...] [LIMIT ...] [OFFSET ...] */
  predicate StarTail(q: SelectQuery, name: string) {
    && q.table == Some(name) && q.subquery.None? && q.joins == [] && q.projections == [Star(None)] && q.predicates == []
    && !q.distinct && RowLevel(q)
  }

  function Ending(before: seq<Cte>, name: string, body: CteBody, outer: SelectQuery): Statement {
    Statement(false, before + [Cte(name, body)], outer)
  }

  ghost predicate FragmentsEqual(a: Statement, b: Statement, i: nat) {
    ReducibleAt(a, b, i) && EqualOn(false, FragmentPair(a, b, i).original, FragmentPair(a, b, i).rewritten)
  }

  /** If the two bodies form a reduced pair that is equal everywhere, so is the full pair. */
  ghost predicate ReductionHolds(before: seq<Cte>, name: string, x: CteBody, y: CteBody, outer: SelectQuery) {
    var a, b := Ending(before, name, x, outer), Ending(before, name, y, outer);
    FragmentsEqual(a, b, |before|) ==> EqualOn(false, Select(a), Select(b))
  }

  // ----- no row window, or one that shows nothing

  lemma WholeTail(before: seq<Cte>, name: string, x: CteBody, y: CteBody, outer: SelectQuery)
    requires StarTail(outer, name) && Unlimited(outer)
    ensures ReductionHolds(before, name, x, y, outer)
  {
    hide EqualOn;
    hide OrderBlindBody;
    var a, b := Ending(before, name, x, outer), Ending(before, name, y, outer);
    assert a.ctes[|before| + 1..] == [];
    if FragmentsEqual(a, b, |before|) {
      ReducedPairProves(false, a, b, |before|);
    }
  }

  lemma EmptyWindow(w: World, q: SelectQuery)
    requires q.limit == Some(0)
    ensures Eval(w, q).rows == [] && Eval(w, q).cols == Eval(w, NoWindow(q)).cols
  {
    hide Body;
    SameFrom(w, q, NoWindow(q));
  }

  lemma EmptyTail(before: seq<Cte>, name: string, x: CteBody, y: CteBody, outer: SelectQuery)
    requires StarTail(outer, name) && outer.limit == Some(0)
    ensures ReductionHolds(before, name, x, y, outer)
  {
    hide Eval;
    hide Bound;
    var a, b := Ending(before, name, x, outer), Ending(before, name, y, outer);
    var c, d := Ending(before, name, x, NoWindow(outer)), Ending(before, name, y, NoWindow(outer));
    WholeTail(before, name, x, y, NoWindow(outer));
    if FragmentsEqual(a, b, |before|) {
      assert FragmentsEqual(c, d, |before|);
      forall w: World ensures SameBag(BodyRelation(w, Select(a)), BodyRelation(w, Select(b))) {
        assert SameBag(BodyRelation(w, Select(c)), BodyRelation(w, Select(d)));
        EmptyWindow(Bound(w, a.ctes), outer);
        EmptyWindow(Bound(w, b.ctes), outer);
      }
    }
  }

  // ----- an engine that sorts rows backwards

  function Reverse<T>(s: seq<T>): seq<T> {
    if s == [] then [] else Reverse(s[1..]) + [s[0]]
  }

  lemma {:induction false} ReverseAt<T>(s: seq<T>)
    ensures |Reverse(s)| == |s| && forall i :: 0 <= i < |s| ==> Reverse(s)[i] == s[|s| - 1 - i]
  {
    if s != [] {
      ReverseAt(s[1..]);
    }
  }

  ghost function Backwards(rows: seq<Record>): World {
    var w := PlainWorld(map["t" := Relation(["x"], rows)]);
    w.(engine := w.engine.(before := (items, a, b) => true))
  }

  lemma {:induction false} InsertLast(g: Engine, items: seq<OrderByItem>, r: OutRow, rows: seq<OutRow>)
    requires forall a, b :: g.before(items, a, b)
    ensures InsertRow(g, items, r, rows) == rows + [r]
  {
    if rows != [] {
      InsertLast(g, items, r, rows[1..]);
    }
  }

  lemma {:induction false} SortedBackwards(g: Engine, items: seq<OrderByItem>, rows: seq<OutRow>)
    requires forall a, b :: g.before(items, a, b)
    ensures Records(Sorted(g, items, rows)) == Reverse(Records(rows))
  {
    hide SortKeyOf;
    if rows != [] {
      SortedBackwards(g, items, rows[1..]);
      InsertLast(g, items, rows[0], Sorted(g, items, rows[1..]));
      assert Records(rows)[1..] == Records(rows[1..]) && Records(rows)[0] == rows[0].record;
      var tail := Sorted(g, items, rows[1..]);
      assert Records(tail + [rows[0]]) == Records(tail) + [rows[0].record];
    }
  }

  lemma TailBody(w: World, q: SelectQuery)
    requires SingleTable(q) && RowLevel(q) && q.projections == [Star(None)] && q.predicates == [] && !q.distinct
    ensures Records(Body(w, q, FromRows(w, q))) == RowsOf(w, q)
  {
    var rows, envs := RowsOf(w, q), FromRows(w, q);
    SingleTableRows(w, q);
    FilterAll(WhereHolds(w, q.predicates), envs);
    RowLevelRecords(w, q, envs);
    forall i | 0 <= i < |rows| ensures RowRecord(w, q.projections)(envs[i]) == rows[i] {
      Ctes.OnlyStar(w.engine, q.SourceName(), rows[i]);
    }
    assert Map(RowRecord(w, q.projections), envs) == rows;
  }

  function Turned(q: SelectQuery, rows: seq<Record>): seq<Record> {
    if q.orderBy == [] then rows else Reverse(rows)
  }

  lemma TailRows(w: World, q: SelectQuery, name: string)
    requires StarTail(q, name) && forall items, a, b :: w.engine.before(items, a, b)
    ensures Eval(w, q).rows == Window(q.limit, q.offset, Turned(q, TableRelation(w, name).rows))
  {
    hide Body;
    TailBody(w, q);
    SortedBackwards(w.engine, OrderItems(q), Body(w, q, FromRows(w, q)));
  }

  /** SELECT * FROM t [ORDER BY x] */
  function Fragment(order: seq<OrderByItem>): SelectQuery {
    SelectQuery(Some("t"), None, false, None, None, [], [Star(None)], [], [], [], [], order, None, None, false, "")
  }

  const BY_X := [OrderByItem(OpaqueSql("x", [], ["x"]), false, false)]

  function Pick(order: seq<OrderByItem>, name: string, outer: SelectQuery): Statement {
    Ending([], name, Select(Statement(false, [], Fragment(order))), outer)
  }

  lemma PickMeans(w: World, order: seq<OrderByItem>, name: string, outer: SelectQuery)
    requires StarTail(outer, name) && (forall items, a, b :: w.engine.before(items, a, b))
    requires !(exists o :: o in order && o.aggregate)
    ensures EvalStatement(w, Pick(order, name, outer)).rows
         == Window(outer.limit, outer.offset, Turned(outer, Turned(Fragment(order), TableRelation(w, "t").rows)))
  {
    hide Eval;
    hide Turned;
    hide Window;
    var ctes, q := Pick(order, name, outer).ctes, Fragment(order);
    assert ctes == [ctes[0]] && ctes[..0] == [] && Bound(w, []) == w;
    PlainCte(w, ctes[0]);
    assert Bound(w, ctes) == Define(w, name, Eval(w, q));
    assert StarTail(q, "t");
    TailRows(w, q, "t");
    WholeWindow(Turned(q, TableRelation(w, "t").rows));
    TailRows(Bound(w, ctes), outer, name);
  }

  lemma WholeWindow(rows: seq<Record>)
    ensures Window(None, None, rows) == rows
  {
  }

  // ----- and a row that only one of two windows shows

  function Numbered(n: nat): seq<Record> {
    seq(n, i requires 0 <= i < n => [Field("x", Val(Number(i as real)))])
  }

  lemma NumberedApart(n: nat, i: nat, j: nat)
    requires i < n && j < n && i != j
    ensures Numbered(n)[i] != Numbered(n)[j]
  {
    assert Numbered(n)[i][0].value != Numbered(n)[j][0].value;
  }

  lemma NumberedLength(n: nat)
    ensures |Numbered(n)| == n
  {
  }

  function First(q: SelectQuery): nat {
    q.offset.GetOr(0)
  }

  function Enough(q: SelectQuery): nat {
    2 * (First(q) + q.limit.GetOr(0))
  }

  lemma WindowAt<T(!new)>(limit: Option<nat>, offset: Option<nat>, rows: seq<T>)
    ensures var k, shown := offset.GetOr(0), Window(limit, offset, rows);
            && (k < |rows| && limit != Some(0) ==> shown != []) && (shown != [] ==> k + |shown| <= |rows|)
            && (limit.Some? ==> |shown| <= limit.value)
            && forall i :: 0 <= i < |shown| ==> shown[i] == rows[k + i]
  {
  }

  /** The first row shown of a long enough list is not shown of the reversed list. */
  lemma WindowsDiffer(q: SelectQuery)
    requires !Unlimited(q) && q.limit != Some(0)
    ensures var rows := Numbered(Enough(q));
            multiset(Window(q.limit, q.offset, rows)) != multiset(Window(q.limit, q.offset, Reverse(rows)))
  {
    hide Window;
    hide Numbered;
    var rows, k := Numbered(Enough(q)), First(q);
    ReverseAt(rows);
    NumberedLength(Enough(q));
    WindowAt(q.limit, q.offset, rows);
    WindowAt(q.limit, q.offset, Reverse(rows));
    var a, b := Window(q.limit, q.offset, rows), Window(q.limit, q.offset, Reverse(rows));
    assert a[0] == rows[k] && rows[k] in a;
    forall i | 0 <= i < |b| ensures b[i] != rows[k] {
      assert b[i] == Reverse(rows)[k + i] == rows[|rows| - 1 - k - i];
      NumberedApart(|rows|, |rows| - 1 - k - i, k);
    }
    assert rows[k] in multiset(a) && rows[k] !in multiset(b);
  }

  lemma {:induction false} ReverseTwice<T>(s: seq<T>)
    ensures Reverse(Reverse(s)) == s
  {
    ReverseAt(s);
    ReverseAt(Reverse(s));
  }

  lemma PicksDiffer(name: string, outer: SelectQuery)
    requires StarTail(outer, name) && !Unlimited(outer) && outer.limit != Some(0)
    ensures var w := Backwards(Numbered(Enough(outer)));
            !SameBag(EvalStatement(w, Pick(BY_X, name, outer)), EvalStatement(w, Pick([], name, outer)))
  {
    hide Eval;
    hide Window;
    hide Numbered;
    hide Reverse;
    var rows := Numbered(Enough(outer));
    var w := Backwards(rows);
    PickMeans(w, BY_X, name, outer);
    PickMeans(w, [], name, outer);
    ReverseTwice(rows);
    WindowsDiffer(outer);
  }

  lemma OrderKeepsBag(w: World)
    ensures SameBag(Eval(w, Fragment(BY_X)), Eval(w, Fragment([])))
  {
    hide Body;
    var q, r := Fragment(BY_X), Fragment([]);
    TailBody(w, q);
    TailBody(w, r);
    AnswerIsBody(w, q);
    AnswerIsBody(w, r);
    SameFrom(w, q, r);
  }

  lemma PicksReduce(name: string, outer: SelectQuery)
    ensures var a, b := Pick(BY_X, name, outer), Pick([], name, outer);
            FragmentsEqual(a, b, 0)
  {
    hide Eval;
    var a, b := Pick(BY_X, name, outer), Pick([], name, outer);
    assert Fragment(BY_X).orderBy != Fragment([]).orderBy;
    forall w: World
      ensures SameBag(BodyRelation(w, FragmentPair(a, b, 0).original), BodyRelation(w, FragmentPair(a, b, 0).rewritten))
    {
      FragmentsMean(w, a, b, 0);
      assert a.ctes[..0] == [] && Bound(w, []) == w;
      PlainCte(w, a.ctes[0]);
      PlainCte(w, b.ctes[0]);
      OrderKeepsBag(w);
    }
  }

  /** The fragments WITH c AS (SELECT * FROM t [ORDER BY x]) have the same bag of rows on every database, and any row
      window over them tells the full queries apart. */
  lemma WindowSeesOrder(name: string, outer: SelectQuery)
    requires StarTail(outer, name) && !Unlimited(outer) && outer.limit != Some(0)
    ensures var x, y := Select(Statement(false, [], Fragment(BY_X))), Select(Statement(false, [], Fragment([])));
            !ReductionHolds([], name, x, y, outer)
  {
    hide Eval;
    PicksReduce(name, outer);
    PicksDiffer(name, outer);
    var w := Backwards(Numbered(Enough(outer)));
    var a, b := Pick(BY_X, name, outer), Pick([], name, outer);
    assert BodyRelation(w, Select(a)) == EvalStatement(w, a) && BodyRelation(w, Select(b)) == EvalStatement(w, b);
    assert !EqualOn(false, Select(a), Select(b));
  }

  /** Before a SELECT * with ORDER BY and row window, reduced pairs with equal bags make full pairs with equal bags,
      whatever the bodies and the CTEs before them, if and only if the window shows every row or none. */
  lemma WindowDecided(name: string, outer: SelectQuery)
    requires StarTail(outer, name)
    ensures (forall before: seq<Cte>, x: CteBody, y: CteBody :: ReductionHolds(before, name, x, y, outer))
       <==> Unlimited(outer) || outer.limit == Some(0)
  {
    hide ReductionHolds;
    if Unlimited(outer) {
      forall before: seq<Cte>, x: CteBody, y: CteBody ensures ReductionHolds(before, name, x, y, outer) {
        WholeTail(before, name, x, y, outer);
      }
    } else if outer.limit == Some(0) {
      forall before: seq<Cte>, x: CteBody, y: CteBody ensures ReductionHolds(before, name, x, y, outer) {
        EmptyTail(before, name, x, y, outer);
      }
    } else {
      WindowSeesOrder(name, outer);
    }
  }
}
