/** When reading through a CTE is right, decided over all databases: the two checks that the code leaves out. */
module CteLimits {
  import opened Ir
  import opened Lists
  import opened Semantics
  import opened Pipeline
  import opened TableRows
  import opened Distinct
  import opened Statements
  import opened Ctes

  /** SELECT * with an OFFSET is read through, and the OFFSET is lost: right only when it skips nothing. */
  lemma StarOffsetExact(q: SelectQuery)
    requires StarPassThrough(q) && q.table.Some?
    ensures (forall w: World :: Eval(w, q) == TableRelation(w, q.table.value)) <==> Unlimited(q)
  {
    hide Eval;
    if Unlimited(q) {
      forall w: World ensures Eval(w, q) == TableRelation(w, q.table.value) {
        StarSound(w, q);
      }
    } else {
      var w := PlainWorld(map[q.table.value := Relation([], [[]])]);
      OffsetSkips(w, q);
      assert Eval(w, q) != TableRelation(w, q.table.value);
    }
  }

  /** An OFFSET skips the only row of a table. */
  lemma OffsetSkips(w: World, q: SelectQuery)
    requires StarPassThrough(q) && q.table.Some? && !Unlimited(q) && |TableRelation(w, q.table.value).rows| == 1
    ensures Eval(w, q).rows == []
  {
    hide Eval;
    SingleTableRows(w, q);
    BareRows(w, q);
    assert |FromRows(w, q)| == 1;
  }

  // ----- a projection over a projection

  /** An outer projection of a CTE that is itself a projection of another table. */
  predicate InlineShape(outer: SelectQuery, inner: SelectQuery) {
    && ProjectionPassThrough(outer) && outer.table.Some? && ItemsInScope(outer) && PlainInner(inner)
    && InlineItems(outer.projections, inner.projections).Some? && inner.IsDirectTable() && inner.table != outer.table
  }

  function Copies(n: nat): seq<Record> {
    seq(n, i => [])
  }

  function Skip(q: SelectQuery): nat {
    q.offset.GetOr(0)
  }

  /** A table with one row more than the CTE skips, all of them alike. */
  ghost function AlikeTable(inner: SelectQuery): World
    requires inner.table.Some?
  {
    PlainWorld(map[inner.table.value := Relation([], Copies(Skip(inner) + 1))])
  }

  ghost function AlikeWorld(outer: SelectQuery, inner: SelectQuery): World
    requires outer.table.Some? && inner.table.Some?
  {
    Define(AlikeTable(inner), outer.table.value, Eval(AlikeTable(inner), inner))
  }

  lemma AlikeStands(outer: SelectQuery, inner: SelectQuery)
    requires InlineShape(outer, inner)
    ensures StandsFor(AlikeWorld(outer, inner), outer.table.value, inner)
    ensures TableRelation(AlikeWorld(outer, inner), inner.table.value).rows == Copies(Skip(inner) + 1)
  {
    hide Eval;
    assert !Mentions(inner, outer.table.value);
    DefineUnmentioned(AlikeTable(inner), outer.table.value, Eval(AlikeTable(inner), inner), inner);
  }

  lemma DedupSame<T(!new)>(s: seq<T>)
    requires s != [] && forall x :: x in s ==> x == s[0]
    ensures Dedup(s) == [s[0]]
  {
    forall x | x in s[1..] ensures !Differs(s[0])(x) {
      assert x in s;
    }
    FilterNone(Differs(s[0]), s[1..]);
  }

  lemma AlikeRecords(w: World, q: SelectQuery, n: nat)
    requires q.table.Some? && q.joins == [] && RowsOf(w, q) == Copies(n) && n > 0
    ensures var rs := Map(RowRecord(w, q.projections), FromRows(w, q)); |rs| == n && Dedup(rs) == [rs[0]]
  {
    hide Project;
    SingleTableRows(w, q);
    var rs := Map(RowRecord(w, q.projections), FromRows(w, q));
    forall x | x in rs ensures x == rs[0] {
      var i :| 0 <= i < |rs| && rs[i] == x;
      assert FromRows(w, q)[i] == FromRows(w, q)[0];
    }
    DedupSame(rs);
  }

  lemma InlinedCount(w: World, outer: SelectQuery, inner: SelectQuery)
    requires InlineShape(outer, inner) && TableRelation(w, inner.table.value).rows == Copies(Skip(inner) + 1)
    ensures |Eval(w, Inlined(outer, inner)).rows| == if outer.distinct && !Unlimited(inner) then 0 else 1
  {
    hide Eval;
    hide RowRecord;
    hide FromRows;
    InlinedShape(outer, inner);
    var r := Inlined(outer, inner);
    AlikeRecords(w, r, Skip(inner) + 1);
    BareRows(w, r);
  }

  lemma OuterCount(w: World, outer: SelectQuery, inner: SelectQuery)
    requires InlineShape(outer, inner) && StandsFor(w, outer.table.value, inner)
    requires TableRelation(w, inner.table.value).rows == Copies(Skip(inner) + 1)
    ensures |Eval(w, outer).rows| == if Unlimited(outer) then 1 else 0
  {
    hide Eval;
    hide RowRecord;
    InlinedShape(outer, inner);
    BareRows(w, inner);
    SingleTableRows(w, inner);
    SingleTableRows(w, outer);
    BareRows(w, outer);
    var os := Map(RowRecord(w, outer.projections), FromRows(w, outer));
    assert |os| == 1;
    DedupSame(os);
  }

  /** The OFFSET of the outer query is lost when it is inlined: right on every database exactly when it skips
      nothing. */
  lemma InlineOffsetExact(outer: SelectQuery, inner: SelectQuery)
    requires InlineShape(outer, inner) && WindowSafe(outer, inner)
    ensures (forall w: World :: StandsFor(w, outer.table.value, inner) ==>
      Eval(w, Inlined(outer, inner)) == Eval(w, outer))
       <==> Unlimited(outer)
  {
    hide Eval;
    if Unlimited(outer) {
      forall w: World | StandsFor(w, outer.table.value, inner)
        ensures Eval(w, Inlined(outer, inner)) == Eval(w, outer)
      {
        InlineSound(w, outer, inner);
      }
    } else {
      AlikeStands(outer, inner);
      OuterCount(AlikeWorld(outer, inner), outer, inner);
      InlinedCount(AlikeWorld(outer, inner), outer, inner);
    }
  }

  /** DISTINCT moves in front of the OFFSET of the CTE: right on every database exactly when that skips nothing. */
  lemma InlineDistinctExact(outer: SelectQuery, inner: SelectQuery)
    requires InlineShape(outer, inner) && outer.distinct && Unlimited(outer)
    ensures (forall w: World :: StandsFor(w, outer.table.value, inner) ==>
      Eval(w, Inlined(outer, inner)) == Eval(w, outer))
       <==> Unlimited(inner)
  {
    hide Eval;
    if Unlimited(inner) {
      forall w: World | StandsFor(w, outer.table.value, inner)
        ensures Eval(w, Inlined(outer, inner)) == Eval(w, outer)
      {
        InlineSound(w, outer, inner);
      }
    } else {
      AlikeStands(outer, inner);
      OuterCount(AlikeWorld(outer, inner), outer, inner);
      InlinedCount(AlikeWorld(outer, inner), outer, inner);
    }
  }

  // ----- a CTE that aggregates

  /** A bare aggregate query has one row, made from all rows of its source. */
  lemma AggregateRow(w: World, q: SelectQuery)
    requires BareSelect(q) && Unlimited(q) && q.HasAggregate()
    ensures Eval(w, q).rows == [Project(w.engine, q.projections, FromRows(w, q))]
  {
    hide Body;
    OneGroup(w, q, FromRows(w, q));
    UnlimitedRows(w, q);
  }

  lemma OneGroup(w: World, q: SelectQuery, envs: seq<Env>)
    requires BareSelect(q) && q.HasAggregate()
    ensures Records(Body(w, q, envs)) == [Project(w.engine, q.projections, envs)]
  {
    FilterAll(WhereHolds(w, q.predicates), envs);
    SelectedAll(w, q, envs);
    assert Selected(w, q, envs) == [envs];
    var row := Output(w.engine, q.projections)(envs);
    assert Map(Output(w.engine, q.projections), [envs]) == [row];
    DistinctRowsAll([row]);
  }

  /** Everything but the missing aggregate check. */
  predicate AggregateShape(outer: SelectQuery, inner: SelectQuery) {
    && ProjectionPassThrough(outer) && PlainOuter(outer)
    && SimpleProjection(inner) && Unlimited(inner) && inner.HasAggregate()
    && NamedItems(inner.projections) && NoDuplicates(OutputNames(inner.projections))
    && "*" !in OutputNames(inner.projections)
    && InlineItems(outer.projections, inner.projections).Some?
    && inner.IsDirectTable() && inner.table != outer.table
  }

  lemma OneRow(w: World, outer: SelectQuery, rec: Record)
    requires ProjectionPassThrough(outer) && PlainOuter(outer) && TableRelation(w, outer.table.value).rows == [rec]
    ensures Eval(w, outer).rows == [Project(w.engine, outer.projections, [CteRow(outer, rec)])]
  {
    hide Eval;
    hide Project;
    SingleTableRows(w, outer);
    assert FromRows(w, outer) == [CteRow(outer, rec)];
    NoOuterAggregate(outer);
    BareRows(w, outer);
    var rs := [Project(w.engine, outer.projections, [CteRow(outer, rec)])];
    assert Map(RowRecord(w, outer.projections), [CteRow(outer, rec)]) == rs;
    DedupNoDuplicates(rs);
    WindowAll(outer.offset, rs);
  }

  lemma NoOuterAggregate(outer: SelectQuery)
    requires ProjectionPassThrough(outer)
    ensures !outer.HasAggregate()
  {
  }

  lemma OuterOfAggregate(w: World, outer: SelectQuery, inner: SelectQuery)
    requires AggregateShape(outer, inner) && StandsFor(w, outer.table.value, inner)
    ensures Eval(w, outer).rows == [Project(w.engine, Inlined(outer, inner).projections, FromRows(w, inner))]
  {
    hide Body;
    AggregateRow(w, inner);
    OneRow(w, outer, Project(w.engine, inner.projections, FromRows(w, inner)));
    InlineAllItems(w.engine, outer, outer.projections, inner.projections, FromRows(w, inner));
  }

  lemma AggregateKept(w: World, outer: SelectQuery, inner: SelectQuery)
    requires AggregateShape(outer, inner) && StandsFor(w, outer.table.value, inner)
    requires Inlined(outer, inner).HasAggregate()
    ensures Eval(w, Inlined(outer, inner)) == Eval(w, outer)
  {
    var r := Inlined(outer, inner);
    OuterOfAggregate(w, outer, inner);
    SameFrom(w, inner, r);
    AggregateRow(w, r);
    AggregateColumns(w, outer, inner);
  }

  lemma AggregateColumns(w: World, outer: SelectQuery, inner: SelectQuery)
    requires AggregateShape(outer, inner) && StandsFor(w, outer.table.value, inner)
    ensures Eval(w, Inlined(outer, inner)).cols == Eval(w, outer).cols
  {
    hide Body;
    hide Finish;
    hide FromRows;
    var header := [Header(w, inner)];
    var rec := Project(w.engine, inner.projections, header);
    SameFrom(w, inner, Inlined(outer, inner));
    InlineAllItems(w.engine, outer, outer.projections, inner.projections, header);
    assert Names(NullRecord(Names(rec))) == Names(rec);
    ProjectNames(w.engine, outer, outer.projections, rec, NullRecord(Names(rec)));
    assert Header(w, outer) == CteRow(outer, NullRecord(Names(rec)));
  }

  /** The database where the source of the CTE is empty and the CTE has its one row. */
  ghost function EmptySource(outer: SelectQuery, inner: SelectQuery): World
    requires outer.table.Some?
  {
    Define(PlainWorld(map[]), outer.table.value, Eval(PlainWorld(map[]), inner))
  }

  lemma EmptySourceStands(outer: SelectQuery, inner: SelectQuery)
    requires AggregateShape(outer, inner)
    ensures StandsFor(EmptySource(outer, inner), outer.table.value, inner)
  {
    hide Eval;
    DefineUnmentioned(PlainWorld(map[]), outer.table.value, Eval(PlainWorld(map[]), inner), inner);
  }

  lemma NoSourceRows(w: World, r: SelectQuery)
    requires BareSelect(r) && Unlimited(r) && !r.HasAggregate()
    requires r.table.Some? && TableRelation(w, r.table.value).rows == []
    ensures Eval(w, r).rows == []
  {
    SingleTableRows(w, r);
    BareRows(w, r);
  }

  lemma AggregateLost(outer: SelectQuery, inner: SelectQuery)
    requires AggregateShape(outer, inner) && !Inlined(outer, inner).HasAggregate()
    ensures Eval(EmptySource(outer, inner), Inlined(outer, inner)) != Eval(EmptySource(outer, inner), outer)
  {
    hide Eval;
    EmptySourceStands(outer, inner);
    OuterOfAggregate(EmptySource(outer, inner), outer, inner);
    NoSourceRows(EmptySource(outer, inner), Inlined(outer, inner));
  }

  /** Reading an aggregate CTE through a projection is right on every database exactly when an aggregate is still
      selected. */
  lemma InlineAggregateExact(outer: SelectQuery, inner: SelectQuery)
    requires AggregateShape(outer, inner)
    ensures (forall w: World :: StandsFor(w, outer.table.value, inner) ==>
      Eval(w, Inlined(outer, inner)) == Eval(w, outer))
       <==> Inlined(outer, inner).HasAggregate()
  {
    if Inlined(outer, inner).HasAggregate() {
      forall w: World | StandsFor(w, outer.table.value, inner)
        ensures Eval(w, Inlined(outer, inner)) == Eval(w, outer)
      {
        AggregateKept(w, outer, inner);
      }
    } else {
      EmptySourceStands(outer, inner);
      AggregateLost(outer, inner);
    }
  }
}
