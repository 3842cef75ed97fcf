/** When each rule suggests a rewrite, and which: conditions on the query and the catalog in their own terms. */
module Applicability {
  import opened Ir
  import opened Lists
  import opened Constraints
  import opened Rewrites
  import opened TableRows
  import opened Reading
  import JoinElimination
  import JoinToExists
  import Filters
  import AcceptedValuesCase
  import Distinct
  import CountDistinctRule
  import GroupByUnique
  import Pushdown
  import Widening

  // ----- the sources of a query

  /** Neither FROM, JOIN, a derived table nor an EXISTS reads a CTE. */
  predicate NoCte(q: SelectQuery) {
    && !q.tableIsCte && (forall j :: j in q.joins ==> !j.tableIsCte)
    && (forall p :: p in q.predicates ==> !(p.Exists? && p.tableIsCte))
    && (q.subquery.Some? ==> NoCte(q.subquery.value))
  }

  lemma {:induction false} NoCteExact(q: SelectQuery)
    ensures NoCte(q) <==> !q.ReferencesCte()
  {
    if q.subquery.Some? {
      NoCteExact(q.subquery.value);
    }
  }

  /** The only source is that table, for which there are constraints. */
  predicate Reads(q: SelectQuery, catalog: Catalog, name: string) {
    q.table == Some(name) && q.subquery.None? && !q.tableIsCte && q.joins == [] && name in catalog.tables
  }

  /** The name the FROM table goes by. */
  predicate GoesBy(q: SelectQuery, name: string) {
    q.tableAlias == Some(name) || (q.tableAlias.None? && q.table == Some(name))
  }

  /** What follows the last dot. */
  predicate IsLastPart(part: string, name: string) {
    '.' !in part && (part == name || exists i :: 0 <= i < |name| && name[i] == '.' && name[i + 1..] == part)
  }

  lemma {:induction false} LastPartExact(part: string, name: string)
    ensures IsLastPart(part, name) <==> part == LastSegment(name)
  {
    LastSegmentIs(name);
    var last := LastSegment(name);
    if IsLastPart(part, name) && part != last {
      LastPartUnique(part, last, name);
    }
  }

  lemma {:induction false} LastSegmentIs(name: string)
    ensures IsLastPart(LastSegment(name), name)
  {
    if '.' in name {
      LastSegmentIs(name[1..]);
      var last := LastSegment(name);
      if last == name[1..] {
        assert name[0] == '.';
      } else {
        var i :| 0 <= i < |name[1..]| && name[1..][i] == '.' && name[1..][i + 1..] == last;
        assert name[i + 1] == '.' && name[i + 1 + 1..] == last;
      }
    }
  }

  lemma NoDotAfter(name: string, i: nat, j: nat)
    requires i < |name| && j < |name| && name[j] == '.' && '.' !in name[i + 1..]
    ensures j <= i
  {
  }

  lemma LastPartUnique(a: string, b: string, name: string)
    requires IsLastPart(a, name) && IsLastPart(b, name)
    ensures a == b
  {
    if a != name && b != name {
      var i :| 0 <= i < |name| && name[i] == '.' && name[i + 1..] == a;
      var j :| 0 <= j < |name| && name[j] == '.' && name[j + 1..] == b;
      NoDotAfter(name, i, j);
      NoDotAfter(name, j, i);
    }
  }

  /** A column without qualifier, or under the alias, or without alias under the table's name or the last part of it. */
  predicate OwnColumn(c: ColName, q: SelectQuery, name: string) {
    c.table.Some? ==>
      if q.tableAlias.Some? then c.table.value == q.tableAlias.value
      else c.table.value == name || IsLastPart(c.table.value, name)
  }

  lemma OwnColumnExact(c: ColName, q: SelectQuery, name: string)
    ensures OwnColumn(c, q, name) <==> Filters.PrefixAccepted(c, q.tableAlias, name)
  {
    if c.table.Some? {
      LastPartExact(c.table.value, name);
    }
  }

  /** Declared unique, trusted non-null, and made of the given columns. */
  predicate KeyAmong(t: TableConstraints, columns: set<string>) {
    exists key :: key in t.unique && forall c :: c in key ==>
      c in columns && c in t.columns && t.columns[c].nullable == Some(false)
  }

  lemma KeyAmongExact(t: TableConstraints, requested: seq<string>, columns: set<string>)
    requires forall c :: c in requested <==> c in columns
    ensures KeyAmong(t, columns) <==> t.NonNullUniqueKeyContainedIn(requested).Some?
  {
    var key := t.NonNullUniqueKeyContainedIn(requested);
    if key.Some? {
      assert key.value in t.unique && forall c :: c in key.value ==> t.IsNonNull(c);
    }
  }

  // ----- aggregates

  /** The expression itself, and what a CASE can return. */
  function Results(e: Expr): set<Expr>
    decreases e, 1
  {
    {e} + if e.Case? then BranchResults(e.branches) + (if e.default.Some? then Results(e.default.value) else {}) else {}
  }

  function BranchResults(branches: seq<Branch>): set<Expr>
    decreases branches, 0
  {
    if branches == [] then {} else ResultsOf(branches[0]) + BranchResults(branches[1..])
  }

  function ResultsOf(b: Branch): set<Expr>
    decreases b, 0
  {
    Results(b.result)
  }

  predicate AggregateCall(e: Expr) {
    e.OpaqueAggregate? || e.Aggregate? || e.CountDistinct?
  }

  predicate SomeAggregate(es: set<Expr>) {
    exists e :: e in es && AggregateCall(e)
  }

  lemma SomeAggregateUnion(a: set<Expr>, b: set<Expr>)
    ensures SomeAggregate(a + b) <==> SomeAggregate(a) || SomeAggregate(b)
  {
    assert forall e :: e in a + b <==> e in a || e in b;
  }

  /** An expression is an aggregate exactly when it, or something a CASE in it returns, is an aggregate call. */
  lemma {:induction false} AggregateExact(e: Expr)
    ensures ContainsAggregate(e) <==> SomeAggregate(Results(e))
    decreases e, 1
  {
    assert SomeAggregate({e}) <==> AggregateCall(e) by {
      assert e in {e};
    }
    if e.Case? {
      BranchesAggregateExact(e.branches);
      var last: set<Expr> := if e.default.Some? then Results(e.default.value) else {};
      if e.default.Some? {
        AggregateExact(e.default.value);
      }
      SomeAggregateUnion(BranchResults(e.branches), last);
      SomeAggregateUnion({e}, BranchResults(e.branches) + last);
    } else {
      assert Results(e) == {e};
    }
  }

  lemma {:induction false} BranchesAggregateExact(branches: seq<Branch>)
    ensures (exists b :: b in branches && ContainsAggregate(b.result)) <==> SomeAggregate(BranchResults(branches))
    decreases branches, 0
  {
    if branches != [] {
      BranchAggregateExact(branches[0]);
      BranchesAggregateExact(branches[1..]);
      SomeAggregateUnion(ResultsOf(branches[0]), BranchResults(branches[1..]));
      assert forall x :: x in branches <==> x == branches[0] || x in branches[1..];
    }
  }

  lemma {:induction false} BranchAggregateExact(b: Branch)
    ensures ContainsAggregate(b.result) <==> SomeAggregate(ResultsOf(b))
    decreases b, 0
  {
    AggregateExact(b.result);
  }

  // ----- joins

  /** An ON equality of two qualified columns, written either way. */
  predicate IsPair(c: JoinCondition, left: string, right: string, p: JoinElimination.KeyPair) {
    var l, r := ColumnSide(ColName(Some(left), p.left)), ColumnSide(ColName(Some(right), p.right));
    c == JoinCondition(l, r) || (left != right && c == JoinCondition(r, l))
  }

  /** The ON clause says that the paired columns are equal, and nothing else. */
  predicate OnPairs(j: Join, left: string, right: string, ps: seq<JoinElimination.KeyPair>) {
    && |ps| == 1 + |j.extraConditions| && IsPair(j.condition, left, right, ps[0])
    && forall i :: 0 <= i < |j.extraConditions| ==> IsPair(j.extraConditions[i], left, right, ps[i + 1])
  }

  lemma {:induction false} PairsExact(cs: seq<JoinCondition>, l: string, r: string, ps: seq<JoinElimination.KeyPair>)
    ensures JoinElimination.JoinPairs(cs, l, r) == Some(ps)
       <==> |ps| == |cs| && forall i :: 0 <= i < |cs| ==> IsPair(cs[i], l, r, ps[i])
  {
    if cs == [] || ps == [] {
      if cs != [] {
        assert JoinElimination.JoinPairs(cs, l, r) != Some([]);
      }
    } else {
      PairsExact(cs[1..], l, r, ps[1..]);
      PairExact(cs[0], l, r, ps[0]);
      assert ps == [ps[0]] + ps[1..];
      if |ps| == |cs| && forall i :: 0 <= i < |cs| ==> IsPair(cs[i], l, r, ps[i]) {
        forall i | 0 <= i < |cs[1..]| ensures IsPair(cs[1..][i], l, r, ps[1..][i]) {
          assert IsPair(cs[i + 1], l, r, ps[i + 1]);
        }
      }
      if JoinElimination.JoinPairs(cs, l, r) == Some(ps) {
        forall i | 0 <= i < |cs| ensures IsPair(cs[i], l, r, ps[i]) {
          if i > 0 {
            assert IsPair(cs[1..][i - 1], l, r, ps[1..][i - 1]);
          }
        }
      }
    }
  }

  lemma PairExact(c: JoinCondition, l: string, r: string, p: JoinElimination.KeyPair)
    ensures JoinElimination.JoinPair(c, l, r) == Some(p) <==> IsPair(c, l, r, p)
  {
  }

  lemma OnPairsExact(j: Join, l: string, r: string, ps: seq<JoinElimination.KeyPair>)
    ensures OnPairs(j, l, r, ps) <==> JoinElimination.JoinPairs(j.Conditions(), l, r) == Some(ps)
  {
    var cs := j.Conditions();
    PairsExact(cs, l, r, ps);
    assert |cs| == 1 + |j.extraConditions| && cs[0] == j.condition;
    assert forall i :: 0 <= i < |j.extraConditions| ==> cs[i + 1] == j.extraConditions[i];
    if |ps| == |cs| && OnPairs(j, l, r, ps) {
      forall i | 0 <= i < |cs| ensures IsPair(cs[i], l, r, ps[i]) {
        if i > 0 {
          assert IsPair(j.extraConditions[i - 1], l, r, ps[i - 1 + 1]);
        }
      }
    }
    if |ps| == |cs| && forall i :: 0 <= i < |cs| ==> IsPair(cs[i], l, r, ps[i]) {
      forall i | 0 <= i < |j.extraConditions| ensures IsPair(j.extraConditions[i], l, r, ps[i + 1]) {
        assert IsPair(cs[i + 1], l, r, ps[i + 1]);
      }
    }
  }

  predicate LeftsApart(ps: seq<JoinElimination.KeyPair>) {
    forall i, k :: 0 <= i < k < |ps| ==> ps[i].left != ps[k].left
  }

  predicate RightsApart(ps: seq<JoinElimination.KeyPair>) {
    forall i, k :: 0 <= i < k < |ps| ==> ps[i].right != ps[k].right
  }

  /** A declared unique key, of one column or of several, all of whose columns the pairs compare. */
  predicate ComparesKey(t: TableConstraints, ps: seq<JoinElimination.KeyPair>) {
    exists key :: key in t.unique && forall c :: c in key ==> exists p :: p in ps && p.right == c
  }

  lemma RightsMembers(ps: seq<JoinElimination.KeyPair>, c: string)
    ensures c in JoinElimination.Rights(ps) <==> exists p :: p in ps && p.right == c
  {
    var rights := JoinElimination.Rights(ps);
    if c in rights {
      var i :| 0 <= i < |rights| && rights[i] == c;
      assert ps[i] in ps;
    }
    if exists p :: p in ps && p.right == c {
      var p :| p in ps && p.right == c;
      var i :| 0 <= i < |ps| && ps[i] == p;
      assert rights[i] == c;
    }
  }

  lemma ComparesKeyExact(t: TableConstraints, ps: seq<JoinElimination.KeyPair>)
    ensures ComparesKey(t, ps) <==> t.UniqueKeyContainedIn(JoinElimination.Rights(ps)).Some?
  {
    var rights := JoinElimination.Rights(ps);
    forall c ensures c in rights <==> exists p :: p in ps && p.right == c {
      RightsMembers(ps, c);
    }
    var key := t.UniqueKeyContainedIn(rights);
    if key.Some? {
      assert key.value in t.unique && forall c :: c in key.value ==> exists p :: p in ps && p.right == c;
    }
  }

  /** Something an expression reads may be a column of the relation: unqualified names may be anybody's. */
  predicate MayRead(rd: Read, relation: string) {
    match rd
    case OfColumn(c) => c.table.None? || c.table.value == relation
    case OfCode(code) => |code.names| > 0 || relation in code.tables
    case _ => false
  }

  predicate MayReadAny(rs: Reads, relation: string) {
    exists rd :: rd in rs && MayRead(rd, relation)
  }

  lemma MayReadUnion(a: Reads, b: Reads, relation: string)
    ensures MayReadAny(a + b, relation) <==> MayReadAny(a, relation) || MayReadAny(b, relation)
  {
    if MayReadAny(a, relation) {
      var rd :| rd in a && MayRead(rd, relation);
      assert rd in a + b;
    }
    if MayReadAny(b, relation) {
      var rd :| rd in b && MayRead(rd, relation);
      assert rd in a + b;
    }
  }

  lemma MayReadOne(rd: Read, relation: string)
    ensures MayReadAny({rd}, relation) <==> MayRead(rd, relation)
  {
    assert rd in {rd};
  }

  lemma OperandReadsExact(o: Operand, relation: string)
    ensures OperandMayReference(o, relation) <==> MayReadAny(OperandReads(o), relation)
  {
    if o.ColumnOperand? {
      MayReadOne(OfColumn(o.column), relation);
    } else if o.OtherOperand? {
      MayReadOne(OfCode(o.code), relation);
    }
  }

  lemma {:induction false} OperandsReadExact(os: seq<Operand>, relation: string)
    ensures (exists o :: o in os && OperandMayReference(o, relation))
       <==> MayReadAny(AllReads(OperandReads, os), relation)
  {
    if os != [] {
      OperandsReadExact(os[1..], relation);
      OperandReadsExact(os[0], relation);
      MayReadUnion(OperandReads(os[0]), AllReads(OperandReads, os[1..]), relation);
      assert forall o :: o in os <==> o == os[0] || o in os[1..];
    }
  }

  lemma ConditionReadsExact(c: Condition, relation: string)
    ensures ConditionMayReference(c, relation) <==> MayReadAny(ConditionReads(c), relation)
  {
    match c
    case EqCondition(a, b) =>
      OperandReadsExact(a, relation);
      OperandReadsExact(b, relation);
      MayReadUnion(OperandReads(a), OperandReads(b), relation);
    case InCondition(s, items, query) =>
      OperandReadsExact(s, relation);
      OperandsReadExact(items, relation);
      MayReadUnion(OperandReads(s), AllReads(OperandReads, items), relation);
      var last: Reads := if query.Some? then {OfCode(query.value)} else {};
      if query.Some? {
        MayReadOne(OfCode(query.value), relation);
      }
      MayReadUnion(OperandReads(s) + AllReads(OperandReads, items), last, relation);
    case OtherCondition(code) => MayReadOne(OfCode(code), relation);
  }

  /** An expression counts as a use of the relation exactly when something it reads may be a column of it. */
  lemma {:induction false} ExprReadsExact(e: Expr, relation: string)
    ensures ExprMayReference(e, relation) <==> MayReadAny(ExprReads(e), relation)
    decreases e, 1
  {
    match e
    case Opaque(code) => MayReadOne(OfCode(code), relation);
    case OpaqueAggregate(code) => MayReadOne(OfCode(code), relation);
    case ColumnExpr(c) => MayReadOne(OfColumn(c), relation);
    case NullExpr =>
    case Case(branches, default) =>
      BranchesReadExact(branches, relation);
      var last: Reads := if default.Some? then ExprReads(default.value) else {};
      if default.Some? {
        ExprReadsExact(default.value, relation);
      }
      MayReadUnion(BranchesReads(branches), last, relation);
    case Aggregate(_, c) => MayReadOne(OfColumn(c), relation);
    case CountDistinct(c) => MayReadOne(OfColumn(c), relation);
  }

  lemma {:induction false} BranchesReadExact(branches: seq<Branch>, relation: string)
    ensures (exists b :: b in branches &&
              (ConditionMayReference(b.condition, relation) || ExprMayReference(b.result, relation)))
       <==> MayReadAny(BranchesReads(branches), relation)
    decreases branches, 0
  {
    if branches != [] {
      BranchReadExact(branches[0], relation);
      BranchesReadExact(branches[1..], relation);
      MayReadUnion(BranchReads(branches[0]), BranchesReads(branches[1..]), relation);
      assert forall x :: x in branches <==> x == branches[0] || x in branches[1..];
    }
  }

  lemma {:induction false} BranchReadExact(b: Branch, relation: string)
    ensures ConditionMayReference(b.condition, relation) || ExprMayReference(b.result, relation)
       <==> MayReadAny(BranchReads(b), relation)
    decreases b, 0
  {
    ConditionReadsExact(b.condition, relation);
    ExprReadsExact(b.result, relation);
    MayReadUnion(ConditionReads(b.condition), ExprReads(b.result), relation);
  }

  /** The SELECT item cannot be about the relation; a plain column without qualifier is taken for another's. */
  predicate ItemApart(p: Projection, relation: string) {
    match p
    case Column(c, _) => c.table != Some(relation)
    case Star(t) => t.Some? && t.value != relation
    case Computed(e, _) => forall rd :: rd in ExprReads(e) ==> !MayRead(rd, relation)
  }

  predicate FilterApart(p: WherePredicate, relation: string) {
    match p
    case Compare(c, _, _) => c.table != Some(relation)
    case InList(c, _, _) => c.table != Some(relation)
    case OpaquePredicate(_) => false
    case Exists(_, _, _, _) => false
  }

  predicate CodeApart(code: OpaqueSql, relation: string) {
    |code.names| == 0 && relation !in code.tables
  }

  lemma ItemApartExact(p: Projection, relation: string)
    ensures ItemApart(p, relation) <==> !Widening.ItemUses(p, relation)
  {
    if p.Computed? {
      ExprReadsExact(p.expr, relation);
    }
  }

  /** The left table's name and the pairs that the ON clause compares, a unique key of the joined table among them. */
  predicate LeftPairs(q: SelectQuery, j: Join, t: TableConstraints, left: string, ps: seq<JoinElimination.KeyPair>) {
    GoesBy(q, left) && OnPairs(j, left, j.RelationName(), ps) && RightsApart(ps) && ComparesKey(t, ps)
  }

  /** A base table joined LEFT by equalities that compare a unique key of it, and named by nothing else. */
  ghost predicate LeftJoinApplies(q: SelectQuery, catalog: Catalog) {
    && |q.joins| == 1 && q.groupBy == [] && q.having == [] && NoCte(q)
    && var j := q.joins[0];
       && j.joinType.Left? && j.subquery.None? && j.table in catalog.tables
       && (forall p :: p in q.projections ==> ItemApart(p, j.RelationName()))
       && (forall p :: p in q.predicates ==> FilterApart(p, j.RelationName()))
       && (forall p :: p in q.qualify ==> CodeApart(p, j.RelationName()))
       && exists left, ps :: LeftPairs(q, j, catalog.tables[j.table], left, ps)
  }

  /** The rule suggests dropping the join exactly then. */
  lemma LeftJoinExact(q: SelectQuery, catalog: Catalog)
    ensures JoinElimination.SuggestLeft(q, catalog).Proven() <==> LeftJoinApplies(q, catalog)
    ensures LeftJoinApplies(q, catalog) ==>
              JoinElimination.SuggestLeft(q, catalog)
              == Suggestion(RemoveUnusedLeftJoin, ProvenEquivalent, Some(q.(joins := [])))
  {
    hide LeftPairs;
    hide JoinElimination.RightJoinKeys;
    NoCteExact(q);
    if |q.joins| == 1 {
      var j := q.joins[0];
      assert j in q.joins;
      forall p ensures ItemApart(p, j.RelationName()) <==> !Widening.ItemUses(p, j.RelationName()) {
        ItemApartExact(p, j.RelationName());
      }
      if j.table in catalog.tables {
        LeftKeysExact(q, j, catalog.tables[j.table]);
      }
    }
  }

  lemma LeftKeysExact(q: SelectQuery, j: Join, t: TableConstraints)
    ensures (exists left, ps :: LeftPairs(q, j, t, left, ps))
       <==> var key := JoinElimination.RightJoinKeys(j, JoinElimination.LeftRelation(q));
            key.Some? && t.UniqueKeyContainedIn(key.value).Some?
  {
    var name := JoinElimination.LeftRelation(q);
    if exists left, ps :: LeftPairs(q, j, t, left, ps) {
      var left, ps :| LeftPairs(q, j, t, left, ps);
      OnPairsExact(j, left, j.RelationName(), ps);
      RightsApartExact(ps);
      ComparesKeyExact(t, ps);
    }
    var key := JoinElimination.RightJoinKeys(j, name);
    if key.Some? && t.UniqueKeyContainedIn(key.value).Some? {
      var ps := JoinElimination.JoinPairs(j.Conditions(), name.value, j.RelationName()).value;
      OnPairsExact(j, name.value, j.RelationName(), ps);
      RightsApartExact(ps);
      ComparesKeyExact(t, ps);
      assert LeftPairs(q, j, t, name.value, ps);
    }
  }

  lemma RightsApartExact(ps: seq<JoinElimination.KeyPair>)
    ensures RightsApart(ps) <==> NoDuplicates(JoinElimination.Rights(ps))
    ensures LeftsApart(ps) <==> NoDuplicates(JoinElimination.Lefts(ps))
  {
    var rights, lefts := JoinElimination.Rights(ps), JoinElimination.Lefts(ps);
    if NoDuplicates(rights) {
      forall i, k | 0 <= i < k < |ps| ensures ps[i].right != ps[k].right {
        assert rights[i] != rights[k];
      }
    }
    if NoDuplicates(lefts) {
      forall i, k | 0 <= i < k < |ps| ensures ps[i].left != ps[k].left {
        assert lefts[i] != lefts[k];
      }
    }
  }

  /** The SELECT item is a column or a star under another relation's name. */
  predicate ItemNamesOther(p: Projection, relation: string) {
    match p
    case Column(c, _) => c.table.Some? && c.table.value != relation
    case Star(t) => t.Some? && t.value != relation
    case Computed(_, _) => false
  }

  predicate FilterNamesOther(p: WherePredicate, relation: string) {
    match p
    case Compare(c, _, _) => c.table.Some? && c.table.value != relation
    case InList(c, _, _) => c.table.Some? && c.table.value != relation
    case OpaquePredicate(_) => false
    case Exists(_, _, _, _) => false
  }

  /** A declared foreign key from the left columns of the pairs to their right columns. */
  predicate Declares(t: TableConstraints, parent: string, ps: seq<JoinElimination.KeyPair>) {
    exists fk :: fk in t.foreignKeys && fk.refTable == parent && |fk.columns| == |ps| == |fk.refColumns|
                 && forall i :: 0 <= i < |ps| ==> fk.columns[i] == ps[i].left && fk.refColumns[i] == ps[i].right
  }

  lemma DeclaresExact(t: TableConstraints, parent: string, ps: seq<JoinElimination.KeyPair>)
    ensures Declares(t, parent, ps)
       <==> t.HasForeignKey(JoinElimination.Lefts(ps), parent, JoinElimination.Rights(ps))
  {
    var lefts, rights := JoinElimination.Lefts(ps), JoinElimination.Rights(ps);
    if Declares(t, parent, ps) {
      var fk :| fk in t.foreignKeys && fk.refTable == parent && |fk.columns| == |ps| == |fk.refColumns|
                && forall i :: 0 <= i < |ps| ==> fk.columns[i] == ps[i].left && fk.refColumns[i] == ps[i].right;
      assert fk.columns == lefts && fk.refColumns == rights;
    }
  }

  /** The pairs that the ON clause compares: a trusted foreign key, non-null here and unique there. */
  predicate KeyPairs(q: SelectQuery, j: Join, child: TableConstraints, parent: TableConstraints, left: string,
    ps: seq<JoinElimination.KeyPair>) {
    && GoesBy(q, left) && OnPairs(j, left, j.RelationName(), ps) && LeftsApart(ps) && RightsApart(ps)
    && Declares(child, j.table, ps) && ComparesKey(parent, ps)
    && forall p :: p in ps ==> p.left in child.columns && child.columns[p.left].nullable == Some(false)
  }

  /** A base table joined INNER along a trusted non-null foreign key, while everything else names another relation. */
  ghost predicate ForeignKeyApplies(q: SelectQuery, catalog: Catalog) {
    && |q.joins| == 1 && q.groupBy == [] && q.having == [] && NoCte(q)
    && q.table.Some? && q.table.value in catalog.tables
    && var j := q.joins[0];
       && j.joinType.Inner? && j.subquery.None? && j.table in catalog.tables
       && (forall p :: p in q.projections ==> ItemNamesOther(p, j.RelationName()))
       && (forall p :: p in q.predicates ==> FilterNamesOther(p, j.RelationName()))
       && (forall p :: p in q.qualify ==> CodeApart(p, j.RelationName()))
       && exists left, ps :: KeyPairs(q, j, catalog.tables[q.table.value], catalog.tables[j.table], left, ps)
  }

  lemma ForeignKeyExact(q: SelectQuery, catalog: Catalog)
    ensures JoinElimination.SuggestForeignKey(q, catalog).Proven() <==> ForeignKeyApplies(q, catalog)
    ensures ForeignKeyApplies(q, catalog) ==>
              JoinElimination.SuggestForeignKey(q, catalog)
              == Suggestion(RemoveForeignKeyInnerJoin, ProvenEquivalent, Some(q.(joins := [])))
  {
    hide KeyPairs;
    hide JoinElimination.ForeignKeyJoinKey;
    NoCteExact(q);
    if |q.joins| == 1 && q.groupBy == [] {
      var j := q.joins[0];
      assert j in q.joins;
      NamesOtherExact(q, j.RelationName());
      if q.table.Some? && q.table.value in catalog.tables && j.table in catalog.tables {
        ForeignKeysExact(q, j, catalog.tables[q.table.value], catalog.tables[j.table]);
      }
    }
  }

  lemma NamesOtherExact(q: SelectQuery, relation: string)
    requires q.groupBy == []
    ensures JoinElimination.MayUse(q, relation)
       <==> !((forall p :: p in q.projections ==> ItemNamesOther(p, relation))
              && (forall p :: p in q.predicates ==> FilterNamesOther(p, relation))
              && (forall p :: p in q.qualify ==> CodeApart(p, relation)))
  {
    forall p ensures ItemNamesOther(p, relation) <==> !JoinElimination.MayUseItem(p, relation) {
    }
    forall p ensures FilterNamesOther(p, relation) <==> !JoinElimination.MayUseFilter(p, relation) {
    }
    forall p: OpaqueSql ensures CodeApart(p, relation) <==> !(p.Unqualified() || p.MayReference(relation)) {
    }
  }

  lemma ForeignKeysExact(q: SelectQuery, j: Join, child: TableConstraints, parent: TableConstraints)
    requires q.table.Some?
    ensures (exists left, ps :: KeyPairs(q, j, child, parent, left, ps))
       <==> var key := JoinElimination.ForeignKeyJoinKey(q, j);
            && key.Some?
            && child.HasForeignKey(JoinElimination.Lefts(key.value), j.table, JoinElimination.Rights(key.value))
            && child.AllNonNull(JoinElimination.Lefts(key.value))
            && parent.UniqueKeyContainedIn(JoinElimination.Rights(key.value)).Some?
  {
    if exists left, ps :: KeyPairs(q, j, child, parent, left, ps) {
      var left, ps :| KeyPairs(q, j, child, parent, left, ps);
      assert left == q.SourceName();
      ForeignPairsExact(q, j, child, parent, ps);
    }
    var ps := JoinElimination.ForeignKeyJoinKey(q, j);
    if ps.Some? {
      ForeignPairsExact(q, j, child, parent, ps.value);
    }
  }

  lemma ForeignPairsExact(q: SelectQuery, j: Join, child: TableConstraints, parent: TableConstraints,
    ps: seq<JoinElimination.KeyPair>)
    requires q.table.Some?
    ensures KeyPairs(q, j, child, parent, q.SourceName(), ps)
       <==> && JoinElimination.ForeignKeyJoinKey(q, j) == Some(ps)
            && child.HasForeignKey(JoinElimination.Lefts(ps), j.table, JoinElimination.Rights(ps))
            && child.AllNonNull(JoinElimination.Lefts(ps))
            && parent.UniqueKeyContainedIn(JoinElimination.Rights(ps)).Some?
  {
    OnPairsExact(j, q.SourceName(), j.RelationName(), ps);
    RightsApartExact(ps);
    ComparesKeyExact(parent, ps);
    DeclaresExact(child, j.table, ps);
    var lefts := JoinElimination.Lefts(ps);
    if child.AllNonNull(lefts) {
      forall p | p in ps ensures child.IsNonNull(p.left) {
        var i :| 0 <= i < |ps| && ps[i] == p;
        assert lefts[i] in lefts;
      }
    }
    if forall p :: p in ps ==> p.left in child.columns && child.columns[p.left].nullable == Some(false) {
      forall c | c in lefts ensures child.IsNonNull(c) {
        var i :| 0 <= i < |lefts| && lefts[i] == c;
        assert ps[i] in ps;
      }
    }
  }

  /** The FROM table's qualifier on the one side of the ON equality and the joined table's on the other. */
  predicate Spans(j: Join, left: string) {
    var a, b := j.condition.left, j.condition.right;
    && a.ColumnSide? && b.ColumnSide?
    && ((a.column.table == Some(left) && b.column.table == Some(j.RelationName()))
        || (a.column.table == Some(j.RelationName()) && b.column.table == Some(left)))
  }

  predicate OnlyFilters(p: WherePredicate, left: string) {
    match p
    case Compare(c, _, _) => c.table == Some(left)
    case InList(c, _, _) => c.table == Some(left)
    case OpaquePredicate(_) => false
    case Exists(_, _, _, _) => false
  }

  /** SELECT DISTINCT of columns of the FROM table, joined INNER to one base table by one equality. */
  predicate ExistsApplies(q: SelectQuery) {
    && q.distinct && |q.joins| == 1 && q.groupBy == [] && q.having == [] && q.qualify == [] && NoCte(q)
    && q.table.Some? && q.subquery.None?
    && var j, left := q.joins[0], if q.tableAlias.Some? then q.tableAlias.value else q.table.value;
       && j.joinType.Inner? && j.subquery.None? && j.extraConditions == [] && Spans(j, left)
       && (forall p :: p in q.predicates ==> OnlyFilters(p, left))
       && (forall p :: p in q.projections ==> p.Column? && p.column.table == Some(left))
  }

  lemma ExistsExact(q: SelectQuery)
    ensures JoinToExists.SuggestExists(q).Proven() <==> ExistsApplies(q)
    ensures ExistsApplies(q) ==>
              var j := q.joins[0];
              JoinToExists.SuggestExists(q)
              == Suggestion(RewriteJoinDistinctToExists, ProvenEquivalent,
                   Some(q.(distinct := false, joins := [],
                           predicates := q.predicates + [Exists(j.table, j.alias, false, j.condition)])))
  {
    NoCteExact(q);
    if |q.joins| == 1 && q.table.Some? {
      var j, left := q.joins[0], q.SourceName();
      assert j in q.joins;
      SpansExact(j, left);
    }
  }

  lemma SpansExact(j: Join, left: string)
    ensures Spans(j, left) <==> JoinToExists.Connects(j, left)
  {
    var a, b := j.condition.left.Table(), j.condition.right.Table();
    var x, y := Some(left), Some(j.RelationName());
    if JoinToExists.Connects(j, left) {
      assert a in {x, y} && b in {x, y} && x in {a, b} && y in {a, b};
    }
  }

  // ----- rules about one table

  /** IS NOT NULL on a column trusted non-null, or IN over exactly the accepted values of such a column. */
  predicate IsRedundant(rule: RuleName, q: SelectQuery, name: string, t: TableConstraints, p: WherePredicate) {
    match p
    case Compare(c, operator, _) =>
      && rule.RemoveRedundantNotNullFilter? && operator.IsNotNull? && OwnColumn(c, q, name)
      && c.name in t.columns && t.columns[c.name].nullable == Some(false)
    case InList(c, values, negated) =>
      && !rule.RemoveRedundantNotNullFilter? && !negated && OwnColumn(c, q, name)
      && c.name in t.columns && t.columns[c.name].nullable == Some(false)
      && t.columns[c.name].acceptedValues != []
      && (forall v :: v in t.columns[c.name].acceptedValues ==> v in values)
      && (forall v :: v in values ==> v in t.columns[c.name].acceptedValues)
    case OpaquePredicate(_) => false
    case Exists(_, _, _, _) => false
  }

  lemma RedundantExact(rule: RuleName, q: SelectQuery, name: string, t: TableConstraints, p: WherePredicate)
    ensures IsRedundant(rule, q, name, t, p) <==> Filters.Redundant(rule, q, name, t, p)
    ensures IsRedundant(rule, q, name, t, p) ==> Filters.Candidate(rule, p)
  {
    match p
    case Compare(c, _, _) => OwnColumnExact(c, q, name);
    case InList(c, values, _) =>
      OwnColumnExact(c, q, name);
      if c.name in t.columns {
        SpellingsExact(t.columns[c.name].acceptedValues, values);
      }
    case OpaquePredicate(_) =>
    case Exists(_, _, _, _) =>
  }

  lemma SpellingsExact(a: seq<Literal>, b: seq<Literal>)
    ensures Filters.Spellings(a) == Filters.Spellings(b) <==> forall v :: v in a <==> v in b
  {
    if Filters.Spellings(a) == Filters.Spellings(b) {
      forall v ensures v in a <==> v in b {
        assert v in Filters.Spellings(a) <==> v in Filters.Spellings(b);
      }
    }
  }

  function Keeps(rule: RuleName, q: SelectQuery, name: string, t: TableConstraints): WherePredicate -> bool {
    p => !IsRedundant(rule, q, name, t, p)
  }

  /** Some predicate over the only table is redundant. */
  ghost predicate FilterApplies(rule: RuleName, q: SelectQuery, catalog: Catalog) {
    && NoCte(q) && q.table.Some? && Reads(q, catalog, q.table.value)
    && exists p :: p in q.predicates && IsRedundant(rule, q, q.table.value, catalog.tables[q.table.value], p)
  }

  lemma FilterExact(rule: RuleName, q: SelectQuery, catalog: Catalog)
    ensures Filters.SuggestFilter(rule, q, catalog).Proven() <==> FilterApplies(rule, q, catalog)
    ensures FilterApplies(rule, q, catalog) ==>
              Filters.SuggestFilter(rule, q, catalog)
              == Suggestion(rule, ProvenEquivalent,
                   Some(q.(predicates :=
                             Filter(Keeps(rule, q, q.table.value, catalog.tables[q.table.value]), q.predicates))))
  {
    hide IsRedundant;
    hide Filters.Redundant;
    hide Filters.Candidate;
    hide Filters.StaysIn;
    hide Keeps;
    NoCteExact(q);
    if q.table.Some? && Reads(q, catalog, q.table.value) {
      KeptExact(rule, q, q.table.value, catalog.tables[q.table.value]);
    }
  }

  lemma KeptExact(rule: RuleName, q: SelectQuery, name: string, t: TableConstraints)
    ensures var kept := Filter(Filters.StaysIn(rule, q, name, t), q.predicates);
            && kept == Filter(Keeps(rule, q, name, t), q.predicates)
            && (|kept| < |q.predicates| <==> exists p :: p in q.predicates && IsRedundant(rule, q, name, t, p))
    ensures (exists p :: p in q.predicates && IsRedundant(rule, q, name, t, p)) ==>
              exists p :: p in q.predicates && Filters.Candidate(rule, p)
  {
    hide IsRedundant;
    hide Filters.Redundant;
    hide Filters.Candidate;
    var stays := Filters.StaysIn(rule, q, name, t);
    forall p
      ensures IsRedundant(rule, q, name, t, p) <==> Filters.Redundant(rule, q, name, t, p)
      ensures IsRedundant(rule, q, name, t, p) ==> Filters.Candidate(rule, p)
    {
      RedundantExact(rule, q, name, t, p);
    }
    FilterSame(Keeps(rule, q, name, t), stays, q.predicates);
    if p :| p in q.predicates && IsRedundant(rule, q, name, t, p) {
      assert !stays(p);
      FilterStrict(stays, q.predicates);
    } else {
      FilterAll(stays, q.predicates);
    }
  }

  /** SELECT DISTINCT of plain columns of the only table, a trusted non-null unique key among them. */
  ghost predicate DistinctApplies(q: SelectQuery, catalog: Catalog) {
    && q.distinct && q.groupBy == [] && q.having == [] && NoCte(q) && q.table.Some? && Reads(q, catalog, q.table.value)
    && (forall p :: p in q.projections ==> p.Column?)
    && KeyAmong(catalog.tables[q.table.value], set p | p in q.projections && p.Column? :: p.column.name)
  }

  lemma DistinctExact(q: SelectQuery, catalog: Catalog)
    ensures Distinct.SuggestDistinct(q, catalog).Proven() <==> DistinctApplies(q, catalog)
    ensures DistinctApplies(q, catalog) ==>
              Distinct.SuggestDistinct(q, catalog)
              == Suggestion(RemoveRedundantDistinct, ProvenEquivalent, Some(q.(distinct := false)))
  {
    NoCteExact(q);
    if q.table.Some? && Reads(q, catalog, q.table.value) && Distinct.PlainColumns(q.projections) {
      var names := Distinct.ItemNames(q.projections);
      var columns := set p | p in q.projections && p.Column? :: p.column.name;
      forall c ensures c in names <==> c in columns {
        ItemNamesExact(q.projections, c);
      }
      KeyAmongExact(catalog.tables[q.table.value], names, columns);
    }
  }

  lemma ItemNamesExact(ps: seq<Projection>, c: string)
    requires forall p :: p in ps ==> p.Column?
    ensures c in Distinct.ItemNames(ps) <==> exists p :: p in ps && p.column.name == c
  {
    var names := Distinct.ItemNames(ps);
    if c in names {
      var i :| 0 <= i < |names| && names[i] == c;
      assert ps[i] in ps;
    }
    if exists p :: p in ps && p.column.name == c {
      var p :| p in ps && p.column.name == c;
      var i :| 0 <= i < |ps| && ps[i] == p;
      assert names[i] == c;
    }
  }

  /** Item `i` counts distinct values of a column of the only table that is a trusted non-null unique key by itself. */
  ghost predicate CountDistinctApplies(q: SelectQuery, catalog: Catalog, i: nat) {
    && i < |q.projections| && q.projections[i].Computed? && q.projections[i].expr.CountDistinct?
    && !q.distinct && q.having == [] && q.qualify == [] && NoCte(q) && q.table.Some? && Reads(q, catalog, q.table.value)
    && var c := q.projections[i].expr.column;
       && (c.table.Some? ==> GoesBy(q, c.table.value))
       && KeyAmong(catalog.tables[q.table.value], {c.name})
  }

  lemma CountDistinctExact(q: SelectQuery, catalog: Catalog, i: nat)
    requires i < |q.projections|
    ensures CountDistinctRule.SuggestAt(q, catalog, i).Proven() <==> CountDistinctApplies(q, catalog, i)
    ensures CountDistinctApplies(q, catalog, i) ==>
              var p := q.projections[i];
              CountDistinctRule.SuggestAt(q, catalog, i)
              == Suggestion(RemoveRedundantCountDistinct, ProvenEquivalent,
                   Some(q.(projections := q.projections[i := Computed(Aggregate(Count, p.expr.column), p.alias)])))
  {
    NoCteExact(q);
    var p := q.projections[i];
    if q.table.Some? && Reads(q, catalog, q.table.value) && p.Computed? && p.expr.CountDistinct? {
      var c := p.expr.column;
      KeyAmongExact(catalog.tables[q.table.value], [c.name], {c.name});
      assert c.table.Some? ==> (GoesBy(q, c.table.value) <==> c.table.value == q.SourceName());
    }
  }

  /** A grouped column, or MAX, MIN or ANY_VALUE of a column under an alias. */
  predicate ItemCollapses(p: Projection, q: SelectQuery, name: string) {
    match p
    case Column(c, _) =>
      OwnColumn(c, q, name) && exists k :: k in q.groupBy && k.ColumnKey? && k.column.name == c.name
    case Star(_) => false
    case Computed(e, alias) => alias.Some? && e.Aggregate? && e.fn != Count && OwnColumn(e.column, q, name)
  }

  predicate CollapsesTo(p: Projection, p': Projection) {
    match p
    case Column(_, _) => p' == p
    case Star(_) => false
    case Computed(e, alias) => e.Aggregate? && p' == Column(e.column, alias)
  }

  /** The only table grouped by columns with a trusted non-null unique key among them, all items supported. */
  ghost predicate GroupByApplies(q: SelectQuery, catalog: Catalog) {
    && |q.groupBy| > 0 && !q.distinct && q.having == [] && q.qualify == [] && NoCte(q)
    && q.table.Some? && Reads(q, catalog, q.table.value)
    && (forall k :: k in q.groupBy ==> k.ColumnKey?)
    && KeyAmong(catalog.tables[q.table.value], set k | k in q.groupBy && k.ColumnKey? :: k.column.name)
    && forall p :: p in q.projections ==> ItemCollapses(p, q, q.table.value)
  }

  /** Every item collapsed, and no grouping. */
  predicate CollapsedQuery(q: SelectQuery, r: SelectQuery) {
    && r == q.(projections := r.projections, groupBy := []) && |r.projections| == |q.projections|
    && forall i :: 0 <= i < |q.projections| ==> CollapsesTo(q.projections[i], r.projections[i])
  }

  lemma GroupByExact(q: SelectQuery, catalog: Catalog)
    ensures GroupByUnique.SuggestGroupBy(q, catalog).Proven() <==> GroupByApplies(q, catalog)
    ensures GroupByApplies(q, catalog) ==>
              var s := GroupByUnique.SuggestGroupBy(q, catalog);
              && s == Suggestion(CollapseUniqueGroupBy, ProvenEquivalent, s.rewritten)
              && CollapsedQuery(q, s.rewritten.value)
  {
    hide KeyAmong;
    hide ItemCollapses;
    NoCteExact(q);
    if q.table.Some? && Reads(q, catalog, q.table.value) {
      var keys := GroupByUnique.ColumnKeys(q.groupBy);
      ColumnKeysExact(q.groupBy);
      var columns := set k | k in q.groupBy && k.ColumnKey? :: k.column.name;
      assert forall c :: c in keys <==> c in columns;
      KeyAmongExact(catalog.tables[q.table.value], keys, columns);
      CollapsedExact(q.projections, q, q.table.value, keys);
    }
  }

  lemma {:induction false} ColumnKeysExact(keys: seq<GroupByKey>)
    ensures |GroupByUnique.ColumnKeys(keys)| <= |keys|
    ensures |GroupByUnique.ColumnKeys(keys)| == |keys| <==> forall k :: k in keys ==> k.ColumnKey?
    ensures forall c :: c in GroupByUnique.ColumnKeys(keys) <==>
                        exists k :: k in keys && k.ColumnKey? && k.column.name == c
  {
    if keys != [] {
      ColumnKeysExact(keys[1..]);
      assert forall k :: k in keys <==> k == keys[0] || k in keys[1..];
    }
  }

  lemma CollapsedOne(p: Projection, q: SelectQuery, name: string, columns: seq<string>)
    requires q.table == Some(name)
    requires forall c :: c in columns <==> exists k :: k in q.groupBy && k.ColumnKey? && k.column.name == c
    ensures var r := GroupByUnique.Collapsed(p, q, columns);
            && (r.Some? <==> ItemCollapses(p, q, name)) && (r.Some? ==> CollapsesTo(p, r.value))
  {
    match p
    case Column(c, _) => OwnColumnExact(c, q, name);
    case Star(_) =>
    case Computed(e, _) =>
      if e.Aggregate? {
        OwnColumnExact(e.column, q, name);
      }
  }

  lemma {:induction false} CollapsedExact(ps: seq<Projection>, q: SelectQuery, name: string, columns: seq<string>)
    requires q.table == Some(name)
    requires forall c :: c in columns <==> exists k :: k in q.groupBy && k.ColumnKey? && k.column.name == c
    ensures var r := GroupByUnique.CollapsedAll(ps, q, columns);
            && (r.Some? <==> forall p :: p in ps ==> ItemCollapses(p, q, name))
            && (r.Some? ==> forall i :: 0 <= i < |ps| ==> CollapsesTo(ps[i], r.value[i]))
  {
    hide ItemCollapses;
    hide GroupByUnique.Collapsed;
    hide CollapsesTo;
    if ps != [] {
      CollapsedOne(ps[0], q, name, columns);
      CollapsedExact(ps[1..], q, name, columns);
      assert forall p :: p in ps <==> p == ps[0] || p in ps[1..];
    }
  }

  // ----- pushdown

  predicate PlainAlike(outer: seq<Projection>, inner: seq<Projection>) {
    && |outer| == |inner|
    && forall i :: 0 <= i < |outer| ==>
         outer[i].Column? && inner[i].Column? && outer[i].column.name == inner[i].column.name
  }

  /** Filters over a derived table that selects the same columns of one base table. */
  predicate PushdownApplies(q: SelectQuery) {
    && q.subquery.Some? && |q.predicates| > 0 && NoCte(q)
    && q.qualify == [] && q.groupBy == [] && q.having == [] && q.joins == [] && !q.distinct
    && var inner := q.subquery.value;
       && inner.qualify == [] && inner.groupBy == [] && inner.having == [] && inner.joins == [] && !inner.distinct
       && inner.table.Some? && inner.subquery.None? && PlainAlike(q.projections, inner.projections)
       && forall p :: p in q.predicates ==>
            && p.Compare? && (p.left.table.Some? ==> p.left.table == q.alias)
            && exists i :: 0 <= i < |inner.projections| && inner.projections[i].Name() == p.left.name
  }

  /** The columns of the outer query and the filters of both, straight from the base table, without qualifiers. */
  predicate PushedDown(q: SelectQuery, inner: SelectQuery, r: SelectQuery) {
    && r.table == inner.table && r.tableAlias == inner.tableAlias && !r.tableIsCte && r.subquery.None? && r.alias.None?
    && r.joins == [] && r.groupBy == [] && r.having == [] && r.qualify == [] && r.orderBy == []
    && r.limit.None? && r.offset.None? && !r.distinct && r.rawSql == q.rawSql
    && |r.projections| == |q.projections|
    && (forall i :: 0 <= i < |q.projections| ==>
          q.projections[i].Column?
          && r.projections[i] == Column(ColName(None, q.projections[i].column.name), q.projections[i].alias))
    && |r.predicates| == |inner.predicates| + |q.predicates|
    && (forall i :: 0 <= i < |inner.predicates| ==> r.predicates[i] == inner.predicates[i])
    && forall i :: 0 <= i < |q.predicates| ==>
         q.predicates[i].Compare?
         && r.predicates[|inner.predicates| + i]
            == Compare(ColName(None, q.predicates[i].left.name), q.predicates[i].operator, q.predicates[i].right)
  }

  lemma PlainAlikeExact(outer: seq<Projection>, inner: seq<Projection>)
    ensures PlainAlike(outer, inner) <==> Pushdown.SameProjectionNames(outer, inner)
    ensures PlainAlike(outer, inner) ==> Distinct.PlainColumns(outer)
  {
    if PlainAlike(outer, inner) {
      assert Distinct.ItemNames(outer) == Distinct.ItemNames(inner);
    }
    if Pushdown.SameProjectionNames(outer, inner) {
      assert |Distinct.ItemNames(outer)| == |Distinct.ItemNames(inner)|;
      forall i | 0 <= i < |outer| ensures outer[i].Column? && inner[i].Column? && outer[i].Name() == inner[i].Name() {
        assert outer[i] in outer && inner[i] in inner;
        assert Distinct.ItemNames(outer)[i] == Distinct.ItemNames(inner)[i];
      }
    }
  }

  lemma PushdownExact(q: SelectQuery)
    ensures Pushdown.SuggestPushdown(q).Proven() <==> PushdownApplies(q)
    ensures PushdownApplies(q) ==>
              var s := Pushdown.SuggestPushdown(q);
              && s == Suggestion(PredicatePushdown, ProvenEquivalent, s.rewritten)
              && PushedDown(q, q.subquery.value, s.rewritten.value)
  {
    hide PlainAlike;
    hide Pushdown.SameProjectionNames;
    hide PushedDown;
    hide Pushdown.Pushed;
    NoCteExact(q);
    if q.subquery.Some? {
      var inner := q.subquery.value;
      PlainAlikeExact(q.projections, inner.projections);
      forall n
        ensures n in Distinct.ItemNames(inner.projections)
           <==> exists i :: 0 <= i < |inner.projections| && inner.projections[i].Name() == n
      {
        var names := Distinct.ItemNames(inner.projections);
        assert n in names <==> exists i :: 0 <= i < |names| && names[i] == n;
        if exists i :: 0 <= i < |inner.projections| && inner.projections[i].Name() == n {
          var i :| 0 <= i < |inner.projections| && inner.projections[i].Name() == n;
          assert names[i] == n;
        }
      }
      if Pushdown.SuggestPushdown(q).Proven() {
        PushedExact(q, inner);
      }
    }
  }

  lemma PushedExact(q: SelectQuery, inner: SelectQuery)
    requires Distinct.PlainColumns(q.projections) && forall p :: p in q.predicates ==> p.Compare?
    ensures PushedDown(q, inner, Pushdown.Pushed(q, inner))
  {
    forall i | 0 <= i < |q.projections| ensures q.projections[i].Column? {
      assert q.projections[i] in q.projections;
    }
  }

  // ----- CASE

  /** The condition compares the column with exactly these literals. */
  predicate Compares(c: Condition, column: ColName, literals: seq<Literal>) {
    match c
    case EqCondition(a, b) =>
      && |literals| == 1
      && ((a == ColumnOperand(column) && b == LiteralOperand(literals[0]))
          || (b == ColumnOperand(column) && a == LiteralOperand(literals[0])))
    case InCondition(subject, items, _) =>
      && subject == ColumnOperand(column) && |items| == |literals|
      && forall i :: 0 <= i < |items| ==> items[i] == LiteralOperand(literals[i])
    case OtherCondition(_) => false
  }

  lemma {:induction false} LiteralsExact(items: seq<Operand>, ls: seq<Literal>)
    ensures AcceptedValuesCase.LiteralsOf(items) == Some(ls)
       <==> |items| == |ls| && forall i :: 0 <= i < |items| ==> items[i] == LiteralOperand(ls[i])
  {
    if items != [] && ls != [] {
      LiteralsExact(items[1..], ls[1..]);
      assert ls == [ls[0]] + ls[1..];
      if AcceptedValuesCase.LiteralsOf(items) == Some(ls) {
        forall i | 0 <= i < |items| ensures items[i] == LiteralOperand(ls[i]) {
          assert i > 0 ==> items[i] == items[1..][i - 1] && ls[i] == ls[1..][i - 1];
        }
      }
    }
  }

  lemma TestExact(c: Condition, column: ColName, ls: seq<Literal>)
    ensures AcceptedValuesCase.TestOf(c) == Some(AcceptedValuesCase.Test(column, ls)) <==> Compares(c, column, ls)
  {
    match c
    case EqCondition(_, _) => assert |ls| == 1 ==> ls == [ls[0]];
    case InCondition(_, items, _) => LiteralsExact(items, ls);
    case OtherCondition(_) =>
  }

  /** The column is the table's own, trusted non-null, with exactly these accepted values. */
  predicate Accepts(q: SelectQuery, name: string, t: TableConstraints, c: ColName, values: seq<Literal>) {
    && OwnColumn(c, q, name) && c.name in t.columns && t.columns[c.name].nullable == Some(false)
    && t.columns[c.name].acceptedValues == values && |values| > 0
  }

  /** Every accepted value is listed. */
  ghost predicate SurelyTrue(q: SelectQuery, name: string, t: TableConstraints, c: Condition) {
    exists column, literals, values ::
      && Compares(c, column, literals) && Accepts(q, name, t, column, values)
      && forall v :: v in values ==> v in literals
  }

  /** No accepted value is listed. */
  ghost predicate SurelyFalse(q: SelectQuery, name: string, t: TableConstraints, c: Condition) {
    exists column, literals, values ::
      && Compares(c, column, literals) && Accepts(q, name, t, column, values)
      && forall v :: v in values ==> v !in literals
  }

  lemma VerdictExact(q: SelectQuery, name: string, t: TableConstraints, c: Condition)
    ensures var v := AcceptedValuesCase.ConditionVerdict(c, t, q.tableAlias, name);
            && (v.AlwaysTrue? <==> SurelyTrue(q, name, t, c)) && (v.AlwaysFalse? <==> SurelyFalse(q, name, t, c))
  {
    var v := AcceptedValuesCase.ConditionVerdict(c, t, q.tableAlias, name);
    var test := AcceptedValuesCase.TestOf(c);
    forall column, ls ensures Compares(c, column, ls) <==> test == Some(AcceptedValuesCase.Test(column, ls)) {
      TestExact(c, column, ls);
    }
    if test.Some? {
      var column, ls := test.value.column, test.value.literals;
      OwnColumnExact(column, q, name);
      var domain := AcceptedValuesCase.AcceptedDomain(column, t, q.tableAlias, name);
      assert forall values :: Accepts(q, name, t, column, values) <==> domain == Some(values);
      if domain.Some? {
        DomainExact(domain.value, ls);
        assert Compares(c, column, ls) && Accepts(q, name, t, column, domain.value);
      }
    }
  }

  lemma DomainExact(domain: seq<Literal>, ls: seq<Literal>)
    requires domain != []
    ensures var v := AcceptedValuesCase.DomainVerdict(domain, ls);
            && (v.AlwaysTrue? <==> forall x :: x in domain ==> x in ls)
            && (v.AlwaysFalse? <==> forall x :: x in domain ==> x !in ls)
  {
    var a, b := Filters.Spellings(domain), Filters.Spellings(ls);
    assert domain[0] in domain && domain[0] in a;
    assert forall x :: x in domain <==> x in a;
    assert forall x :: x in ls <==> x in b;
    assert a <= b <==> forall x :: x in domain ==> x in ls;
    assert a !! b <==> forall x :: x in domain ==> x !in ls;
  }

  /** The branches whose condition can hold. */
  function MayHold(verdict: Condition -> AcceptedValuesCase.Verdict): Branch -> bool {
    (b: Branch) => !verdict(b.condition).AlwaysFalse?
  }

  /** What is left of a CASE once branches that never hold are gone and a first branch that always holds is taken. */
  predicate LeftOver(kept: seq<Branch>, default: Option<Expr>, verdict: Condition -> AcceptedValuesCase.Verdict,
    e: Expr) {
    if kept == [] then e == (if default.Some? then default.value else NullExpr)
    else if verdict(kept[0].condition).AlwaysTrue? then e == kept[0].result
    else e == Case(kept, default)
  }

  /** A simplification is found exactly when some branch never holds or the first always does. */
  lemma SimplifiedExact(branches: seq<Branch>, default: Option<Expr>,
    verdict: Condition -> AcceptedValuesCase.Verdict)
    ensures var r := AcceptedValuesCase.SimplifyCase(Case(branches, default), verdict);
            && (r.Some? <==> (exists b :: b in branches && verdict(b.condition).AlwaysFalse?)
                             || (|branches| > 0 && verdict(branches[0].condition).AlwaysTrue?))
            && (r.Some? ==> LeftOver(Filter(MayHold(verdict), branches), default, verdict, r.value))
  {
    SimplifyFromExact(branches, [], false, default, verdict);
    assert [] + Filter(MayHold(verdict), branches) == Filter(MayHold(verdict), branches);
    if |branches| > 0 && verdict(branches[0].condition).AlwaysTrue? {
      assert Filter(MayHold(verdict), branches)[0] == branches[0];
    }
    var kept := Filter(MayHold(verdict), branches);
    if kept != [] && verdict(kept[0].condition).AlwaysTrue? {
      if forall b :: b in branches ==> !verdict(b.condition).AlwaysFalse? {
        FilterAll(MayHold(verdict), branches);
      }
    }
  }

  lemma {:induction false} SimplifyFromExact(branches: seq<Branch>, kept: seq<Branch>, changed: bool,
    default: Option<Expr>, verdict: Condition -> AcceptedValuesCase.Verdict)
    requires kept != [] ==> !verdict(kept[0].condition).AlwaysTrue?
    ensures var r := AcceptedValuesCase.SimplifyFrom(branches, kept, changed, default, verdict);
            var all := kept + Filter(MayHold(verdict), branches);
            && (r.Some? <==> changed || (exists b :: b in branches && verdict(b.condition).AlwaysFalse?)
                             || (all != [] && verdict(all[0].condition).AlwaysTrue?))
            && (r.Some? ==> LeftOver(all, default, verdict, r.value))
  {
    var rest := Filter(MayHold(verdict), branches);
    if branches == [] {
      assert kept + rest == kept;
    } else {
      var b := branches[0];
      assert forall x :: x in branches <==> x == b || x in branches[1..];
      match verdict(b.condition)
      case AlwaysFalse => SimplifyFromExact(branches[1..], kept, true, default, verdict);
      case AlwaysTrue =>
        assert kept + rest == kept + [b] + Filter(MayHold(verdict), branches[1..]);
        if kept != [] {
          SimplifyFromExact(branches[1..], kept + [b], changed, default, verdict);
        }
      case NoVerdict =>
        assert kept + rest == kept + [b] + Filter(MayHold(verdict), branches[1..]);
        SimplifyFromExact(branches[1..], kept + [b], changed, default, verdict);
    }
  }

  /** Item `i` is a CASE over the only table with a branch that never holds or a first branch that always does. */
  ghost predicate CaseApplies(q: SelectQuery, catalog: Catalog, i: nat) {
    && i < |q.projections| && q.projections[i].Computed? && q.projections[i].expr.Case?
    && q.groupBy == [] && q.having == [] && q.qualify == [] && NoCte(q)
    && q.table.Some? && Reads(q, catalog, q.table.value)
    && var branches, name := q.projections[i].expr.branches, q.table.value;
       || (exists b :: b in branches && SurelyFalse(q, name, catalog.tables[name], b.condition))
       || (|branches| > 0 && SurelyTrue(q, name, catalog.tables[name], branches[0].condition))
  }

  /** The item is replaced by what is left of the CASE, parsed back. */
  ghost predicate CaseLeft(q: SelectQuery, name: string, t: TableConstraints, i: nat, r: SelectQuery)
    requires i < |q.projections| && q.projections[i].Computed? && q.projections[i].expr.Case?
  {
    var e, alias := q.projections[i].expr, q.projections[i].alias;
    exists left :: LeftOf(Filter(CanHold(q, name, t), e.branches), e.default, q, name, t, left)
                   && r == q.(projections := q.projections[i :=
                                if left.ColumnExpr? then Column(left.column, alias) else Computed(left, alias)])
  }

  /** Branches other than those that never hold. */
  ghost function CanHold(q: SelectQuery, name: string, t: TableConstraints): Branch -> bool {
    (b: Branch) => !SurelyFalse(q, name, t, b.condition)
  }

  ghost predicate LeftOf(kept: seq<Branch>, default: Option<Expr>, q: SelectQuery, name: string, t: TableConstraints,
    e: Expr) {
    if kept == [] then e == (if default.Some? then default.value else NullExpr)
    else if SurelyTrue(q, name, t, kept[0].condition) then e == kept[0].result
    else e == Case(kept, default)
  }

  lemma CaseExact(q: SelectQuery, catalog: Catalog, i: nat)
    requires i < |q.projections|
    ensures AcceptedValuesCase.SuggestCaseAt(q, catalog, i).Proven() <==> CaseApplies(q, catalog, i)
    ensures CaseApplies(q, catalog, i) ==>
              var s := AcceptedValuesCase.SuggestCaseAt(q, catalog, i);
              && s == Suggestion(SimplifyAcceptedValuesCase, ProvenEquivalent, s.rewritten)
              && CaseLeft(q, q.table.value, catalog.tables[q.table.value], i, s.rewritten.value)
  {
    hide SurelyTrue;
    hide SurelyFalse;
    hide AcceptedValuesCase.ConditionVerdict;
    hide AcceptedValuesCase.SimplifyCase;
    NoCteExact(q);
    var p := q.projections[i];
    if q.table.Some? && Reads(q, catalog, q.table.value) && p.Computed? && p.expr.Case? {
      var name, t := q.table.value, catalog.tables[q.table.value];
      var verdict := AcceptedValuesCase.VerdictFor(t, q.tableAlias, name);
      forall c
        ensures verdict(c).AlwaysTrue? <==> SurelyTrue(q, name, t, c)
        ensures verdict(c).AlwaysFalse? <==> SurelyFalse(q, name, t, c)
      {
        VerdictExact(q, name, t, c);
      }
      SimplifiedExact(p.expr.branches, p.expr.default, verdict);
      if CaseApplies(q, catalog, i) {
        var left := AcceptedValuesCase.SimplifyCase(p.expr, verdict).value;
        FilterSame(MayHold(verdict), CanHold(q, name, t), p.expr.branches);
        assert LeftOf(Filter(CanHold(q, name, t), p.expr.branches), p.expr.default, q, name, t, left);
      }
    }
  }
}
