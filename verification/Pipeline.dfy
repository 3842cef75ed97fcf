/** Facts about the stages of a query that every rewrite proof uses. */
module Pipeline {
  import opened Ir
  import opened Lists
  import opened Semantics

  // ----- ORDER BY and LIMIT see only the rows before them

  lemma RecordsStep(r: OutRow, rows: seq<OutRow>)
    ensures Records([r] + rows) == [r.record] + Records(rows)
  {
  }

  lemma {:induction false} InsertRowBag(w: World, items: seq<OrderByItem>, r: OutRow, rows: seq<OutRow>)
    ensures multiset(Records(InsertRow(w.engine, items, r, rows))) == multiset(Records(rows)) + multiset{r.record}
  {
    hide SortKeyOf;
    if rows == [] || !w.engine.before(items, SortKeyOf(items, rows[0]), SortKeyOf(items, r)) {
      RecordsStep(r, rows);
    } else {
      InsertRowBag(w, items, r, rows[1..]);
      RecordsStep(rows[0], InsertRow(w.engine, items, r, rows[1..]));
      RecordsStep(rows[0], rows[1..]);
      assert rows == [rows[0]] + rows[1..];
    }
  }

  /** Sorting keeps the bag, whatever the sort keys are. */
  lemma {:induction false} SortedBag(w: World, items: seq<OrderByItem>, rows: seq<OutRow>)
    ensures multiset(Records(Sorted(w.engine, items, rows))) == multiset(Records(rows))
  {
    hide SortKeyOf;
    hide InsertRow;
    if rows != [] {
      SortedBag(w, items, rows[1..]);
      InsertRowBag(w, items, rows[0], Sorted(w.engine, items, rows[1..]));
      RecordsStep(rows[0], rows[1..]);
      assert rows == [rows[0]] + rows[1..];
    }
  }

  lemma {:induction false} SortedLength(w: World, items: seq<OrderByItem>, rows: seq<OutRow>)
    ensures |Sorted(w.engine, items, rows)| == |rows|
  {
    if rows != [] {
      SortedLength(w, items, rows[1..]);
      InsertLength(w, items, rows[0], Sorted(w.engine, items, rows[1..]));
    }
  }

  lemma {:induction false} InsertLength(w: World, items: seq<OrderByItem>, r: OutRow, rows: seq<OutRow>)
    ensures |InsertRow(w.engine, items, r, rows)| == |rows| + 1
  {
    if rows != [] {
      InsertLength(w, items, r, rows[1..]);
    }
  }

  predicate Unlimited(q: SelectQuery) {
    q.limit.None? && (q.offset.None? || q.offset == Some(0))
  }

  /** A row window that shows the first row. */
  predicate ShowsFirst(q: SelectQuery) {
    (q.offset.None? || q.offset.value == 0) && q.limit != Some(0)
  }

  /** Without a row window the answer is the bag of the rows before ORDER BY. */
  lemma AnswerIsBody(w: World, q: SelectQuery)
    requires Unlimited(q)
    ensures Answer(w, q) == multiset(Records(Body(w, q, FromRows(w, q))))
  {
    var rows := Body(w, q, FromRows(w, q));
    SortedBag(w, OrderItems(q), rows);
    var rs := Records(Ordered(w.engine, OrderItems(q), rows));
    assert rs[0..] == rs;
  }

  function NoWindow(q: SelectQuery): SelectQuery {
    q.(limit := None, offset := None)
  }

  lemma UnlimitedRows(w: World, q: SelectQuery)
    requires q.orderBy == [] && Unlimited(q)
    ensures Eval(w, q).rows == Records(Body(w, q, FromRows(w, q)))
  {
    hide Body;
    var rows := Records(Body(w, q, FromRows(w, q)));
    assert rows[0..] == rows;
  }

  /** ORDER BY cannot tell the rows of one list from those of the other. */
  predicate SortAlike(items: seq<OrderByItem>, xs: seq<OutRow>, ys: seq<OutRow>) {
    |xs| == |ys| && forall i :: 0 <= i < |xs| ==> SortKeyOf(items, xs[i]) == SortKeyOf(items, ys[i])
  }

  lemma {:induction false} InsertAlike(w: World, items: seq<OrderByItem>, x: OutRow, y: OutRow, xs: seq<OutRow>,
    ys: seq<OutRow>)
    requires SortKeyOf(items, x) == SortKeyOf(items, y) && SortAlike(items, xs, ys)
    ensures SortAlike(items, InsertRow(w.engine, items, x, xs), InsertRow(w.engine, items, y, ys))
  {
    hide SortKeyOf;
    if xs != [] && w.engine.before(items, SortKeyOf(items, xs[0]), SortKeyOf(items, x)) {
      InsertAlike(w, items, x, y, xs[1..], ys[1..]);
    }
  }

  lemma {:induction false} SortedAlike(w: World, items: seq<OrderByItem>, xs: seq<OutRow>, ys: seq<OutRow>)
    requires SortAlike(items, xs, ys)
    ensures SortAlike(items, Sorted(w.engine, items, xs), Sorted(w.engine, items, ys))
  {
    hide SortKeyOf;
    if xs != [] {
      SortedAlike(w, items, xs[1..], ys[1..]);
      InsertAlike(w, items, xs[0], ys[0], Sorted(w.engine, items, xs[1..]), Sorted(w.engine, items, ys[1..]));
    }
  }

  /** Two rows change places exactly when the second sorts before the first. */
  lemma SortTwo(g: Engine, items: seq<OrderByItem>, rows: seq<OutRow>)
    requires |rows| == 2 && items != []
    ensures Records(Ordered(g, items, rows))
         == if g.before(items, SortKeyOf(items, rows[1]), SortKeyOf(items, rows[0])) then
           [rows[1].record, rows[0].record]
            else [rows[0].record, rows[1].record]
  {
    assert rows[1..] == [rows[1]];
    assert Sorted(g, items, [rows[1]]) == [rows[1]];
    assert [rows[1]][1..] == [] && InsertRow(g, items, rows[0], []) == [rows[0]];
    assert InsertRow(g, items, rows[0], [rows[1]])
        == if g.before(items, SortKeyOf(items, rows[1]), SortKeyOf(items, rows[0])) then [rows[1], rows[0]]
          else [rows[0], rows[1]];
  }

  predicate SameEnd(q: SelectQuery, r: SelectQuery) {
    OrderItems(q) == OrderItems(r) && q.limit == r.limit && q.offset == r.offset
  }

  lemma SameBodyWithoutWindow(w: World, q: SelectQuery, envs: seq<Env>)
    ensures Body(w, NoWindow(q), envs) == Body(w, q, envs)
  {
  }

  /** The row window comes last. */
  lemma WindowedRows(w: World, q: SelectQuery)
    requires q.orderBy == []
    ensures Eval(w, q).rows == Window(q.limit, q.offset, Eval(w, NoWindow(q)).rows)
  {
    hide Body;
    SameFrom(w, q, NoWindow(q));
    SameBodyWithoutWindow(w, q, FromRows(w, q));
  }

  /** Rows that ORDER BY cannot tell apart come out in the same order, and the row window keeps the same ones. */
  lemma SortAlikeSameRows(w: World, q: SelectQuery, r: SelectQuery)
    requires SameEnd(q, r) && SortAlike(OrderItems(q), Body(w, q, FromRows(w, q)), Body(w, r, FromRows(w, r)))
    ensures Eval(w, q).rows == Eval(w, r).rows
  {
    hide Body;
    var xs, ys := Body(w, q, FromRows(w, q)), Body(w, r, FromRows(w, r));
    SortedAlike(w, OrderItems(q), xs, ys);
    var a, b := Ordered(w.engine, OrderItems(q), xs), Ordered(w.engine, OrderItems(q), ys);
    assert SortAlike(OrderItems(q), a, b);
    forall i | 0 <= i < |a| ensures a[i].record == b[i].record {
      assert SortKeyOf(OrderItems(q), a[i]).record == SortKeyOf(OrderItems(q), b[i]).record;
    }
    assert Records(a) == Records(b);
  }

  /** The order of rows cannot show in the bag: there is no ORDER BY, or no row window behind it. */
  predicate OrderSafe(q: SelectQuery) {
    q.orderBy == [] || Unlimited(q)
  }

  /** Two queries with the same final clauses and the same rows before them return the same bag. */
  lemma SameRecordsSameAnswer(w: World, q: SelectQuery, r: SelectQuery)
    requires SameEnd(q, r) && OrderSafe(q)
    requires Records(Body(w, q, FromRows(w, q))) == Records(Body(w, r, FromRows(w, r)))
    ensures Answer(w, q) == Answer(w, r)
    ensures q.orderBy == [] ==> Eval(w, q).rows == Eval(w, r).rows
  {
    if q.orderBy != [] {
      AnswerIsBody(w, q);
      AnswerIsBody(w, r);
    }
  }

  // ----- DISTINCT

  lemma OtherRecordsStay(r: Record, rows: seq<OutRow>)
    ensures Records(Filter(OtherRecord(r), rows)) == Filter(Differs(r), Records(rows))
  {
    FilterMap(Differs(r), RecordOf(), OtherRecord(r), rows);
  }

  lemma {:induction false} DistinctRecords(rows: seq<OutRow>)
    ensures Records(DistinctRows(rows)) == Dedup(Records(rows))
    decreases |rows|
  {
    if rows != [] {
      var first := rows[0].record;
      var rest := Filter(OtherRecord(first), rows[1..]);
      DistinctRecords(rest);
      OtherRecordsStay(first, rows[1..]);
      RecordsStep(rows[0], DistinctRows(rest));
      assert Records(rows)[1..] == Records(rows[1..]);
    }
  }

  lemma {:induction false} DistinctRowsAll(rows: seq<OutRow>)
    requires NoDuplicates(Records(rows))
    ensures DistinctRows(rows) == rows
    decreases |rows|
  {
    if rows != [] {
      forall x | x in rows[1..] ensures OtherRecord(rows[0].record)(x) {
        var i :| 0 <= i < |rows[1..]| && rows[1..][i] == x;
        assert Records(rows)[0] != Records(rows)[i + 1];
      }
      FilterAll(OtherRecord(rows[0].record), rows[1..]);
      forall i, j | 0 <= i < j < |rows[1..]| ensures Records(rows[1..])[i] != Records(rows[1..])[j] {
        assert Records(rows)[i + 1] != Records(rows)[j + 1];
      }
      DistinctRowsAll(rows[1..]);
    }
  }

  // ----- plain queries: no grouping, no HAVING, no QUALIFY

  predicate RowLevel(q: SelectQuery) {
    q.groupBy == [] && q.having == [] && q.qualify == [] && !q.Aggregates()
  }

  lemma {:induction false} PickAll<T(!new)>(s: seq<T>, marks: seq<bool>)
    requires |s| == |marks| && forall i :: 0 <= i < |s| ==> marks[i]
    ensures PickMarked(s, marks) == s
  {
    if s != [] {
      PickAll(s[1..], marks[1..]);
    }
  }

  lemma {:induction false} PickedIn<T(!new)>(s: seq<T>, marks: seq<bool>)
    requires |s| == |marks|
    ensures forall x :: x in PickMarked(s, marks) ==> x in s
  {
    if s != [] {
      PickedIn(s[1..], marks[1..]);
    }
  }

  function RowRecord(w: World, ps: seq<Projection>): Env -> Record {
    env => Project(w.engine, ps, [env])
  }

  /** The groups a query without HAVING and QUALIFY keeps are all its groups. */
  lemma SelectedAll(w: World, q: SelectQuery, envs: seq<Env>)
    requires q.having == [] && q.qualify == []
    ensures Selected(w, q, envs) ==
            Grouped(w.engine, q.groupBy, q.Aggregates(), Filter(WhereHolds(w, q.predicates), envs))
  {
    var groups := Grouped(w.engine, q.groupBy, q.Aggregates(), Filter(WhereHolds(w, q.predicates), envs));
    FilterAll(HavingHolds(w.engine, q.having), groups);
    PickAll(groups, QualifyMarks(w.engine, q.qualify, groups));
  }

  /** A row-level query projects every row that passes WHERE. */
  lemma RowLevelRecords(w: World, q: SelectQuery, envs: seq<Env>)
    requires RowLevel(q)
    ensures var rs := Map(RowRecord(w, q.projections), Filter(WhereHolds(w, q.predicates), envs));
            Records(Body(w, q, envs)) == if q.distinct then Dedup(rs) else rs
  {
    var kept := Filter(WhereHolds(w, q.predicates), envs);
    SelectedAll(w, q, envs);
    var rows := Map(Output(w.engine, q.projections), Map(Alone(), kept));
    assert Records(rows) == Map(RowRecord(w, q.projections), kept);
    DistinctRecords(rows);
  }

  // ----- names in ORDER BY

  /** The items give result columns of the same names. */
  predicate NamedAlike(ps: seq<Projection>, qs: seq<Projection>) {
    |ps| == |qs| && forall i :: 0 <= i < |ps| ==> ps[i].Star? == qs[i].Star? && ps[i].OutputName() == qs[i].OutputName()
  }

  lemma OutputsWithin(ps: seq<Projection>, qs: seq<Projection>)
    requires NamedAlike(ps, qs)
    ensures ItemOutputs(ps) <= ItemOutputs(qs)
  {
    forall n | n in ItemOutputs(ps) ensures n in ItemOutputs(qs) {
      var p :| p in ps && !p.Star? && p.OutputName() == n;
      var i :| 0 <= i < |ps| && ps[i] == p;
      assert qs[i] in qs;
    }
  }

  /** Then ORDER BY means the same columns by its names. */
  lemma SameOutputs(ps: seq<Projection>, qs: seq<Projection>)
    requires NamedAlike(ps, qs)
    ensures ItemOutputs(ps) == ItemOutputs(qs)
  {
    OutputsWithin(ps, qs);
    OutputsWithin(qs, ps);
  }

  // ----- the FROM clause

  predicate SameSource(q: SelectQuery, r: SelectQuery) {
    q.table == r.table && q.tableAlias == r.tableAlias && q.subquery == r.subquery && q.alias == r.alias
  }

  lemma SameFrom(w: World, q: SelectQuery, r: SelectQuery)
    requires SameSource(q, r) && q.joins == r.joins
    ensures FromRows(w, q) == FromRows(w, r) && Header(w, q) == Header(w, r)
    ensures SourceRelation(w, q) == SourceRelation(w, r)
  {
  }

  /** Same rows before ORDER BY, same columns, same final clauses: the same relation. */
  lemma SameEval(w: World, q: SelectQuery, r: SelectQuery)
    requires SameEnd(q, r)
    requires Body(w, q, FromRows(w, q)) == Body(w, r, FromRows(w, r))
    requires Names(Project(w.engine, q.projections, [Header(w, q)])) ==
      Names(Project(w.engine, r.projections, [Header(w, r)]))
    ensures Eval(w, q) == Eval(w, r)
  {
  }
}
