/** Adding one relation at the end of every row changes nothing for clauses that do not look at it. */
module Widening {
  import opened Ir
  import opened Lists
  import opened Semantics
  import opened Pipeline
  import opened Reading

  /** `y` is `x` followed by one row of relation `r`. */
  predicate Widens(r: string, x: Env, y: Env) {
    |y| == |x| + 1 && y[..|x|] == x && y[|x|].relation == r
  }

  /** An unqualified name still means the same column. */
  predicate Covered(name: string, x: Env, y: Env) {
    (exists b :: b in x && HasField(b.record, name)) || (y != [] && !HasField(y[|y| - 1].record, name))
  }

  predicate FilterColumn(p: WherePredicate, c: ColName) {
    (p.Compare? || p.InList?) && p.left == c
  }

  /** SELECT or WHERE names the column without qualifier. */
  predicate ClauseUses(q: SelectQuery, name: string) {
    || (exists p :: p in q.projections && p.Column? && p.column == ColName(None, name))
    || (exists p :: p in q.predicates && FilterColumn(p, ColName(None, name)))
  }

  /** ORDER BY does, and means no result column by it. */
  predicate OrderUses(q: SelectQuery, name: string) {
    exists o :: o in OrderItems(q) && name in o.code.names
  }

  predicate UsesUnqualified(q: SelectQuery, name: string) {
    ClauseUses(q, name) || OrderUses(q, name)
  }

  ghost predicate Hidden(q: SelectQuery, r: string, x: Env, y: Env) {
    Widens(r, x, y) && forall name :: UsesUnqualified(q, name) ==> Covered(name, x, y)
  }

  ghost predicate HiddenAll(q: SelectQuery, r: string, xs: seq<Env>, ys: seq<Env>) {
    |xs| == |ys| && forall i :: 0 <= i < |xs| ==> Hidden(q, r, xs[i], ys[i])
  }

  lemma {:induction false} LookupWidened(r: string, x: Env, y: Env, c: ColName)
    requires Widens(r, x, y)
    requires if c.table.Some? then c.table.value != r else Covered(c.name, x, y)
    ensures Lookup(x, c) == Lookup(y, c)
  {
    if x == [] {
    } else if IsNamedBy(x[0], c) {
      assert y[0] == y[..|x|][0];
    } else {
      assert y[0] == y[..|x|][0];
      assert y[1..][..|x| - 1] == y[..|x|][1..];
      LookupWidened(r, x[1..], y[1..], c);
    }
  }

  lemma VisibleWidened(r: string, x: Env, y: Env, code: OpaqueSql)
    requires Widens(r, x, y) && r !in code.tables && forall n :: n in code.names ==> Covered(n, x, y)
    ensures Visible(code)(x) == Visible(code)(y)
  {
    assert y == x + [y[|x|]];
    FilterAppend(Mentioned(code.tables), x, [y[|x|]]);
    FilterNone(Mentioned(code.tables), [y[|x|]]);
    forall n | n in code.names ensures Lookup(x, ColName(None, n)) == Lookup(y, ColName(None, n)) {
      LookupWidened(r, x, y, ColName(None, n));
    }
    VisibleParts(code, x, y);
  }

  // ----- clauses that leave the relation alone

  predicate ItemUses(p: Projection, r: string) {
    p == Star(None) || p.Table() == Some(r) || p.MayReference(r)
  }

  predicate FilterUses(p: WherePredicate, r: string) {
    !(p.Compare? || p.InList?) || p.left.table == Some(r)
  }

  predicate Unused(q: SelectQuery, r: string) {
    && (forall p :: p in q.projections ==> !ItemUses(p, r))
    && (forall p :: p in q.predicates ==> !FilterUses(p, r))
    && (forall p :: p in q.qualify ==> !p.MayReference(r))
  }

  lemma {:induction false} RelationFieldsWidened(r: string, x: Env, y: Env, t: string)
    requires Widens(r, x, y) && t != r
    ensures RelationFields(x, t) == RelationFields(y, t)
  {
    if x == [] {
      assert y == [y[0]];
    } else {
      assert y[0] == y[..|x|][0];
      assert y[1..][..|x| - 1] == y[..|x|][1..];
      RelationFieldsWidened(r, x[1..], y[1..], t);
    }
  }

  // ----- what is read leaves the relation alone

  /** The read cannot see the relation; an unqualified column is one that the query may use. */
  ghost predicate Avoids(q: SelectQuery, rd: Read, r: string) {
    match rd
    case OfColumn(c) => if c.table.Some? then c.table.value != r else UsesUnqualified(q, c.name)
    case OfCode(code) => r !in code.tables && forall n :: n in code.names ==> UsesUnqualified(q, n)
    case OfRelation(t) => t != r
    case OfAll => false
    case OfRow => false
  }

  ghost predicate AllAvoid(q: SelectQuery, rs: Reads, r: string) {
    forall rd :: rd in rs ==> Avoids(q, rd, r)
  }

  lemma AvoidedAlike(q: SelectQuery, rs: Reads, r: string, x: Env, y: Env)
    requires Hidden(q, r, x, y) && AllAvoid(q, rs, r)
    ensures Alike(rs, x, y)
  {
    forall rd | rd in rs ensures ReadAlike(rd, x, y) {
      assert Avoids(q, rd, r);
      match rd
      case OfColumn(c) => LookupWidened(r, x, y, c);
      case OfCode(code) => VisibleWidened(r, x, y, code);
      case OfRelation(t) => RelationFieldsWidened(r, x, y, t);
    }
  }

  lemma HiddenAlike(q: SelectQuery, rs: Reads, r: string, xs: seq<Env>, ys: seq<Env>)
    requires HiddenAll(q, r, xs, ys) && AllAvoid(q, rs, r)
    ensures AllAlike(rs, xs, ys)
  {
    hide Hidden;
    hide AllAvoid;
    forall i | 0 <= i < |xs| ensures Alike(rs, xs[i], ys[i]) {
      AvoidedAlike(q, rs, r, xs[i], ys[i]);
    }
  }

  lemma OperandAvoids(q: SelectQuery, o: Operand, r: string)
    requires !OperandMayReference(o, r)
    ensures AllAvoid(q, OperandReads(o), r)
  {
  }

  lemma ConditionAvoids(q: SelectQuery, c: Condition, r: string)
    requires !ConditionMayReference(c, r)
    ensures AllAvoid(q, ConditionReads(c), r)
  {
    if c.InCondition? {
      forall rd | rd in AllReads(OperandReads, c.items) ensures Avoids(q, rd, r) {
        FromAllReads(OperandReads, c.items, rd);
        var o :| o in c.items && rd in OperandReads(o);
        OperandAvoids(q, o, r);
      }
    }
  }

  lemma {:induction false} ExprAvoids(q: SelectQuery, e: Expr, r: string)
    requires !ExprMayReference(e, r)
    ensures AllAvoid(q, ExprReads(e), r)
    decreases e, 1
  {
    if e.Case? {
      BranchesAvoid(q, e.branches, r);
      if e.default.Some? {
        ExprAvoids(q, e.default.value, r);
      }
    }
  }

  lemma {:induction false} BranchesAvoid(q: SelectQuery, branches: seq<Branch>, r: string)
    requires forall b :: b in branches ==> !ConditionMayReference(b.condition, r) && !ExprMayReference(b.result, r)
    ensures AllAvoid(q, BranchesReads(branches), r)
    decreases branches, 0
  {
    if branches != [] {
      assert branches[0] in branches;
      ConditionAvoids(q, branches[0].condition, r);
      BranchAvoids(q, branches[0], r);
      BranchesAvoid(q, branches[1..], r);
    }
  }

  lemma {:induction false} BranchAvoids(q: SelectQuery, b: Branch, r: string)
    requires !ExprMayReference(b.result, r)
    ensures AllAvoid(q, ExprReads(b.result), r)
    decreases b, 0
  {
    ExprAvoids(q, b.result, r);
  }

  lemma ItemAvoids(q: SelectQuery, p: Projection, r: string)
    requires p in q.projections && !ItemUses(p, r)
    ensures AllAvoid(q, ItemReads(p), r)
  {
    match p
    case Column(c, _) => if c.table.None? { assert c == ColName(None, c.name); }
    case Star(_) =>
    case Computed(e, _) => ExprAvoids(q, e, r);
  }

  lemma FilterAvoids(q: SelectQuery, p: WherePredicate, r: string)
    requires p in q.predicates && !FilterUses(p, r)
    ensures AllAvoid(q, PredicateReads(p), r)
  {
    assert FilterColumn(p, p.left);
    if p.left.table.None? { assert p.left == ColName(None, p.left.name); }
  }

  /** A query that does not use the relation reads nothing of it. */
  lemma UnusedAvoids(q: SelectQuery, r: string)
    requires Unused(q, r) && q.groupBy == []
    ensures AllAvoid(q, BodyReads(q), r)
  {
    hide Avoids;
    hide ItemReads;
    hide PredicateReads;
    hide ItemUses;
    hide FilterUses;
    forall rd | rd in BodyReads(q) ensures Avoids(q, rd, r) {
      if rd in AllReads(ItemReads, q.projections) {
        FromAllReads(ItemReads, q.projections, rd);
        var p :| p in q.projections && rd in ItemReads(p);
        ItemAvoids(q, p, r);
      } else if rd in AllReads(PredicateReads, q.predicates) {
        FromAllReads(PredicateReads, q.predicates, rd);
        var p :| p in q.predicates && rd in PredicateReads(p);
        FilterAvoids(q, p, r);
      } else {
        FromAllReads(CodeReads, q.qualify, rd);
        CodesAvoid(q, rd, r);
      }
    }
  }

  lemma CodesAvoid(q: SelectQuery, rd: Read, r: string)
    requires Unused(q, r) && exists p :: p in q.qualify && rd in CodeReads(p)
    ensures Avoids(q, rd, r)
  {
  }

  // ----- ORDER BY

  /** Some ORDER BY item names the relation. */
  predicate OrderNames(q: SelectQuery, r: string) {
    exists o :: o in q.orderBy && r in o.code.tables
  }

  /** What the query reads, ORDER BY included. */
  function SeenReads(q: SelectQuery): Reads {
    BodyReads(q) + AllReads(OrderReads, OrderItems(q))
  }

  lemma OrderItemOf(q: SelectQuery, o: OrderByItem) returns (p: OrderByItem)
    requires o in OrderItems(q)
    ensures p in q.orderBy && o == FromNames(ItemOutputs(q.projections))(p)
  {
    p := MapSource(FromNames(ItemOutputs(q.projections)), q.orderBy, o);
  }

  lemma SeenAvoids(q: SelectQuery, r: string)
    requires Unused(q, r) && q.groupBy == [] && !OrderNames(q, r)
    ensures AllAvoid(q, SeenReads(q), r)
  {
    UnusedAvoids(q, r);
    forall rd | rd in AllReads(OrderReads, OrderItems(q)) ensures Avoids(q, rd, r) {
      FromAllReads(OrderReads, OrderItems(q), rd);
      var o :| o in OrderItems(q) && rd in OrderReads(o);
      var p := OrderItemOf(q, o);
      assert p.code.tables == o.code.tables;
    }
  }

  /** The rows a query returns do not depend on a relation it does not use. */
  lemma BodyWidened(w: World, q: SelectQuery, r: string, xs: seq<Env>, ys: seq<Env>)
    requires HiddenAll(q, r, xs, ys) && Unused(q, r) && q.groupBy == [] && q.having == [] && !OrderNames(q, r)
    ensures RowsAlike(SeenReads(q), Body(w, q, xs), Body(w, q, ys))
  {
    hide Body;
    hide AllAvoid;
    hide Unused;
    hide HiddenAll;
    SeenAvoids(q, r);
    HiddenAlike(q, SeenReads(q), r, xs, ys);
    BodyAlike(w, q, SeenReads(q), xs, ys);
  }

  // ----- what an engine accepts

  /** The relation is one of the FROM clause. */
  predicate InFrom(w: World, q: SelectQuery, r: string) {
    exists b :: b in Header(w, q) && b.relation == r
  }

  /** The name is that of a result column, or of a column of the FROM clause. */
  predicate NameKnown(w: World, q: SelectQuery, name: string) {
    name in ItemOutputs(q.projections) || exists b :: b in Header(w, q) && HasField(b.record, name)
  }

  /** ORDER BY names relations and columns that are there, and has an aggregate only in a query that groups. */
  predicate OrderAccepted(w: World, q: SelectQuery) {
    && (forall o :: o in q.orderBy ==>
          && (forall r :: r in o.code.tables ==> InFrom(w, q, r))
          && forall n :: n in o.code.names ==> NameKnown(w, q, n))
    && (q.OrdersByAggregate() ==> q.groupBy != [] || q.HasAggregate())
  }
}
