/** Removing a join whose relation is unused: LEFT JOIN on a unique key, and INNER JOIN backed by a foreign key. */
module JoinElimination {
  import opened Ir
  import opened Lists
  import opened Semantics
  import opened Pipeline
  import opened Constraints
  import opened Rewrites
  import opened Reading
  import opened Widening

  datatype KeyPair = KeyPair(left: string, right: string)

  /** The columns that one ON equality connects, whichever way round it is written. */
  function JoinPair(c: JoinCondition, left: string, right: string): Option<KeyPair> {
    if c.left.Table() == Some(left) && c.right.Table() == Some(right) then
      Some(KeyPair(c.left.Name(), c.right.Name()))
    else if c.right.Table() == Some(left) && c.left.Table() == Some(right) then
      Some(KeyPair(c.right.Name(), c.left.Name()))
    else None
  }

  function JoinPairs(cs: seq<JoinCondition>, left: string, right: string): Option<seq<KeyPair>> {
    if cs == [] then Some([])
    else
      var first, rest := JoinPair(cs[0], left, right), JoinPairs(cs[1..], left, right);
      if first.Some? && rest.Some? then Some([first.value] + rest.value) else None
  }

  function Lefts(ps: seq<KeyPair>): seq<string> {
    seq(|ps|, i requires 0 <= i < |ps| => ps[i].left)
  }

  function Rights(ps: seq<KeyPair>): seq<string> {
    seq(|ps|, i requires 0 <= i < |ps| => ps[i].right)
  }

  function LeftRelation(q: SelectQuery): Option<string> {
    if q.tableAlias.Some? then q.tableAlias else q.table
  }

  /** The joined table's key columns, when every ON equality connects the two relations and no column repeats. */
  function RightJoinKeys(j: Join, left: Option<string>): Option<seq<string>> {
    if left.None? then None
    else
      var ps := JoinPairs(j.Conditions(), left.value, j.RelationName());
      if ps.Some? && ps.value != [] && NoDuplicates(Rights(ps.value)) then Some(Rights(ps.value)) else None
  }

  function ForeignKeyJoinKey(q: SelectQuery, j: Join): Option<seq<KeyPair>> {
    if q.table.None? then None
    else
      var ps := JoinPairs(j.Conditions(), q.SourceName(), j.RelationName());
      if ps.Some? && ps.value != [] && NoDuplicates(Lefts(ps.value)) && NoDuplicates(Rights(ps.value)) then ps
      else None
  }

  /** The loop that collects the key columns of a join, giving up at the first foreign equality. */
  method CollectJoinPairs(cs: seq<JoinCondition>, left: string, right: string) returns (r: Option<seq<KeyPair>>)
    ensures r == JoinPairs(cs, left, right)
  {
    var pairs := [];
    var i := 0;
    while i < |cs|
      invariant 0 <= i <= |cs|
      invariant JoinPairs(cs, left, right).Some? <==> JoinPairs(cs[i..], left, right).Some?
      invariant JoinPairs(cs, left, right).Some? ==>
                  JoinPairs(cs, left, right).value == pairs + JoinPairs(cs[i..], left, right).value
    {
      var pair := JoinPair(cs[i], left, right);
      assert cs[i..][1..] == cs[i + 1..];
      if pair.None? {
        return None;
      }
      pairs := pairs + [pair.value];
      i := i + 1;
    }
    assert cs[i..] == [] && JoinPairs(cs, left, right).value == pairs;
    return Some(pairs);
  }

  function SuggestLeft(q: SelectQuery, catalog: Catalog): Suggestion {
    var no := s => Suggestion(RemoveUnusedLeftJoin, s, None);
    if |q.joins| != 1 then no(NotApplicable)
    else if q.groupBy != [] || q.having != [] then no(NotApplicable)
    else
      var j := q.joins[0];
      if j.subquery.Some? then no(NotApplicable)
      else if !j.joinType.Left? then no(NotApplicable)
      else if q.ReferencesCte() then no(Undecided)
      else if !Unused(q, j.RelationName()) then no(Undecided)
      else
        var key := RightJoinKeys(j, LeftRelation(q));
        if key.None? then no(Undecided)
        else
          var t := if j.tableIsCte then None else catalog.Table(j.table);
          if t.None? || t.value.UniqueKeyContainedIn(key.value).None? then no(Undecided)
          else Suggestion(RemoveUnusedLeftJoin, ProvenEquivalent, Some(q.(joins := [])))
  }

  predicate MayUseItem(p: Projection, relation: string) {
    p == Star(None) || p.Table().None? || p.Table() == Some(relation) || p.MayReference(relation)
  }

  predicate MayUseFilter(p: WherePredicate, relation: string) {
    !(p.Compare? || p.InList?) || p.left.table.None? || p.left.table == Some(relation)
  }

  predicate MayUseKey(k: GroupByKey, relation: string) {
    k.ExpressionKey? || ColumnMayReference(k.column, relation)
  }

  predicate MayUse(q: SelectQuery, relation: string) {
    || (exists p :: p in q.projections && MayUseItem(p, relation))
    || (exists k :: k in q.groupBy && MayUseKey(k, relation))
    || (exists p :: p in q.predicates && MayUseFilter(p, relation))
    || (exists p :: p in q.qualify && (p.Unqualified() || p.MayReference(relation)))
  }

  function SuggestForeignKey(q: SelectQuery, catalog: Catalog): Suggestion {
    var no := s => Suggestion(RemoveForeignKeyInnerJoin, s, None);
    if |q.joins| != 1 then no(NotApplicable)
    else if q.groupBy != [] || q.having != [] then no(NotApplicable)
    else
      var j := q.joins[0];
      if j.subquery.Some? then no(NotApplicable)
      else if !j.joinType.Inner? then no(NotApplicable)
      else if q.ReferencesCte() || q.table.None? || q.tableIsCte then no(Undecided)
      else if MayUse(q, j.RelationName()) then no(Undecided)
      else
        var key := ForeignKeyJoinKey(q, j);
        if key.None? then no(Undecided)
        else
          var child := catalog.Table(q.table.value);
          var parent := if j.tableIsCte then None else catalog.Table(j.table);
          var childKey, parentKey := Lefts(key.value), Rights(key.value);
          if child.None? || !child.value.HasForeignKey(childKey, j.table, parentKey) then no(NotApplicable)
          else if !child.value.AllNonNull(childKey) then no(Undecided)
          else if parent.None? || parent.value.UniqueKeyContainedIn(parentKey).None? then no(Undecided)
          else Suggestion(RemoveForeignKeyInnerJoin, ProvenEquivalent, Some(q.(joins := [])))
  }

  // ----- soundness

  /** An ON clause of collected pairs holds exactly when every pair is equal and non-null. */
  predicate PairsEqual(ps: seq<KeyPair>, rec: Record, row: Record) {
    forall p :: p in ps ==> Get(rec, p.left).Val? && Get(rec, p.left) == Get(row, p.right)
  }

  lemma LookupOfTwo(l: string, r: string, rec: Record, row: Record, c: ColName)
    requires l != r
    ensures var env := [Binding(l, rec), Binding(r, row)];
            && (c.table == Some(l) ==> Lookup(env, c) == Get(rec, c.name))
            && (c.table == Some(r) ==> Lookup(env, c) == Get(row, c.name))
  {
    var env := [Binding(l, rec), Binding(r, row)];
    assert env[1..] == [Binding(r, row)];
  }

  lemma {:induction false} OnIsPairs(w: World, cs: seq<JoinCondition>, l: string, r: string, rec: Record, row: Record)
    requires l != r && JoinPairs(cs, l, r).Some?
    ensures OnHolds(w.engine, cs)([Binding(l, rec), Binding(r, row)]) <==>
      PairsEqual(JoinPairs(cs, l, r).value, rec, row)
  {
    if cs != [] {
      var env := [Binding(l, rec), Binding(r, row)];
      OnIsPairs(w, cs[1..], l, r, rec, row);
      var p := JoinPair(cs[0], l, r).value;
      LookupOfTwo(l, r, rec, row, cs[0].left.column);
      LookupOfTwo(l, r, rec, row, cs[0].right.column);
      assert JoinTruth(w.engine, cs[0], env).True3? <==> Get(rec, p.left).Val? && Get(rec, p.left) == Get(row, p.right);
      assert forall c :: c in cs <==> c == cs[0] || c in cs[1..];
      var ps := JoinPairs(cs, l, r).value;
      assert ps == [p] + ps[1..];
    }
  }

  /** Two rows that meet the same ON clause agree, non-null, on the collected key. */
  lemma MatchesAgree(ps: seq<KeyPair>, rec: Record, a: Record, b: Record, key: seq<string>)
    requires PairsEqual(ps, rec, a) && PairsEqual(ps, rec, b) && Within(key, Rights(ps))
    ensures KeyPresent(a, key) && KeyPresent(b, key) && AgreesOn(a, b, key)
  {
    forall c | c in key ensures Get(a, c).Val? && Get(a, c) == Get(b, c) {
      assert c in Rights(ps);
      var i :| 0 <= i < |ps| && Rights(ps)[i] == c;
      assert ps[i] in ps;
    }
  }

  lemma {:induction false} FilterAtMostOne<T(!new)>(f: T -> bool, s: seq<T>)
    requires forall i, j :: 0 <= i < j < |s| ==> !(f(s[i]) && f(s[j]))
    ensures |Filter(f, s)| <= 1
  {
    if s != [] {
      forall i, j | 0 <= i < j < |s[1..]| ensures !(f(s[1..][i]) && f(s[1..][j])) {
        assert !(f(s[i + 1]) && f(s[j + 1]));
      }
      if f(s[0]) {
        forall x | x in s[1..] ensures !f(x) {
          var j :| 0 <= j < |s[1..]| && s[1..][j] == x;
          assert !(f(s[0]) && f(s[j + 1]));
        }
        FilterNone(f, s[1..]);
      } else {
        FilterAtMostOne(f, s[1..]);
      }
    }
  }

  /** A unique key inside the join columns lets each left row match at most one right row. */
  lemma AtMostOneMatch(w: World, j: Join, rel: Relation, l: string, rec: Record, key: seq<string>)
    requires l != j.RelationName() && JoinPairs(j.Conditions(), l, j.RelationName()).Some?
    requires Within(key, Rights(JoinPairs(j.Conditions(), l, j.RelationName()).value)) && UniqueOn(rel.rows, key)
    ensures |Matches(w.engine, j, rel, [Binding(l, rec)])| <= 1
  {
    var r, env, ps := j.RelationName(), [Binding(l, rec)], JoinPairs(j.Conditions(), l, j.RelationName()).value;
    var s := Map(Extend(env, r), rel.rows);
    var f := OnHolds(w.engine, j.Conditions());
    forall a, b | 0 <= a < b < |s| ensures !(f(s[a]) && f(s[b])) {
      assert s[a] == [Binding(l, rec), Binding(r, rel.rows[a])];
      assert s[b] == [Binding(l, rec), Binding(r, rel.rows[b])];
      OnIsPairs(w, j.Conditions(), l, r, rec, rel.rows[a]);
      OnIsPairs(w, j.Conditions(), l, r, rec, rel.rows[b]);
      if f(s[a]) && f(s[b]) {
        MatchesAgree(ps, rec, rel.rows[a], rel.rows[b], key);
      }
    }
    FilterAtMostOne(f, s);
  }

  lemma SomeMatch(w: World, j: Join, rel: Relation, l: string, rec: Record, row: Record)
    requires l != j.RelationName() && JoinPairs(j.Conditions(), l, j.RelationName()).Some?
    requires row in rel.rows && PairsEqual(JoinPairs(j.Conditions(), l, j.RelationName()).value, rec, row)
    ensures Matches(w.engine, j, rel, [Binding(l, rec)]) != []
  {
    OnIsPairs(w, j.Conditions(), l, j.RelationName(), rec, row);
    var env := [Binding(l, rec)];
    var y := Extend(env, j.RelationName())(row);
    assert y == [Binding(l, rec), Binding(j.RelationName(), row)];
    assert y in Map(Extend(env, j.RelationName()), rel.rows);
    assert y in Matches(w.engine, j, rel, env);
  }

  lemma HasFieldNames(r: Record, name: string)
    ensures HasField(r, name) <==> name in Names(r)
  {
    if HasField(r, name) {
      var i :| 0 <= i < |r| && r[i].name == name;
      assert Names(r)[i] == name;
    }
    if name in Names(r) {
      var i :| 0 <= i < |r| && Names(r)[i] == name;
    }
  }

  /** Every unqualified column of the query belongs to the left table, or to neither. */
  ghost predicate UnqualifiedStayLeft(w: World, q: SelectQuery)
    requires |q.joins| == 1
  {
    forall name :: UsesUnqualified(q, name) ==>
      name in SourceRelation(w, q).cols || name !in JoinRelation(w, q.joins[0]).cols
  }

  /** What a row of the joined relation looks like, matched or filled with NULLs. */
  predicate RightRow(rel: Relation, row: Record) {
    Names(row) == rel.cols
  }

  lemma HiddenRow(w: World, q: SelectQuery, rec: Record, row: Record)
    requires |q.joins| == 1 && UnqualifiedStayLeft(w, q)
    requires Names(rec) == SourceRelation(w, q).cols && Names(row) == JoinRelation(w, q.joins[0]).cols
    ensures var r := q.joins[0].RelationName();
            Hidden(q, r, [Binding(q.SourceName(), rec)], [Binding(q.SourceName(), rec), Binding(r, row)])
  {
    var r := q.joins[0].RelationName();
    var x, y := [Binding(q.SourceName(), rec)], [Binding(q.SourceName(), rec), Binding(r, row)];
    assert y[..1] == x;
    forall name | UsesUnqualified(q, name) ensures Covered(name, x, y) {
      HasFieldNames(rec, name);
      HasFieldNames(row, name);
      assert x[0] in x;
    }
  }

  function OnlyRow(f: Env -> seq<Env>): Env -> Env {
    x => if |f(x)| == 1 then f(x)[0] else x
  }

  lemma OneJoin(w: World, q: SelectQuery)
    requires |q.joins| == 1
    ensures var j := q.joins[0];
            && JoinRelations(w, q.joins) == [JoinRelation(w, j)]
            && FromRows(w, q) == FlatMap(JoinRow(w.engine, j, JoinRelation(w, j)), SourceRows(q, SourceRelation(w, q)))
            && FromRows(w, q.(joins := [])) == SourceRows(q, SourceRelation(w, q))
  {
    var j, xs := q.joins[0], SourceRows(q, SourceRelation(w, q));
    assert JoinRelations(w, q.joins[1..]) == [];
    var ys := FlatMap(JoinRow(w.engine, j, JoinRelation(w, j)), xs);
    assert JoinRows(w.engine, ys, q.joins[1..], [JoinRelation(w, j)][1..]) == ys;
  }

  predicate ExactlyOne(w: World, q: SelectQuery, rec: Record)
    requires |q.joins| == 1
  {
    |JoinRow(w.engine, q.joins[0], JoinRelation(w, q.joins[0]))([Binding(q.SourceName(), rec)])| == 1
  }

  lemma OneMatchRows(w: World, q: SelectQuery)
    requires |q.joins| == 1 && q.HasSource()
    requires forall rec :: rec in SourceRelation(w, q).rows ==> ExactlyOne(w, q, rec)
    ensures var xs, f := SourceRows(q, SourceRelation(w, q)),
      JoinRow(w.engine, q.joins[0], JoinRelation(w, q.joins[0]));
            && FromRows(w, q) == Map(OnlyRow(f), xs)
            && forall i :: 0 <= i < |xs| ==> OnlyRow(f)(xs[i]) in f(xs[i])
  {
    OneJoin(w, q);
    var src := SourceRelation(w, q);
    var xs, f := SourceRows(q, src), JoinRow(w.engine, q.joins[0], JoinRelation(w, q.joins[0]));
    forall i | 0 <= i < |xs| ensures f(xs[i]) == [OnlyRow(f)(xs[i])] {
      assert xs[i] == [Binding(q.SourceName(), src.rows[i])] && src.rows[i] in src.rows;
      assert ExactlyOne(w, q, src.rows[i]);
    }
    FlatMapSingle(f, OnlyRow(f), xs);
  }

  /** With exactly one right row for each left row, the unused join changes neither columns nor rows. */
  lemma OneMatchEach(w: World, q: SelectQuery)
    requires |q.joins| == 1 && q.joins[0].subquery.None? && q.table.Some? && WellFormed(w)
    requires UnqualifiedStayLeft(w, q) && Unused(q, q.joins[0].RelationName())
    requires !OrderNames(q, q.joins[0].RelationName())
    requires q.groupBy == [] && q.having == []
    requires forall rec :: rec in SourceRelation(w, q).rows ==> ExactlyOne(w, q, rec)
    ensures var r := q.(joins := []);
            RowsAlike(SeenReads(q), Body(w, r, FromRows(w, r)), Body(w, q, FromRows(w, q))) &&
            Eval(w, q).cols == Eval(w, r).cols
  {
    var name, src, r := q.joins[0].RelationName(), SourceRelation(w, q), q.(joins := []);
    var xs, ys := SourceRows(q, src), FromRows(w, q);
    OneMatchRows(w, q);
    forall i | 0 <= i < |xs| ensures Hidden(q, name, xs[i], ys[i]) {
      assert xs[i] == [Binding(q.SourceName(), src.rows[i])];
      JoinedRowShape(w, q, src.rows[i], ys[i]);
    }
    BodyWidened(w, q, name, xs, ys);
    OneJoin(w, q);
    BodyIgnoresJoins(w, q, xs);
    HeaderWidened(w, q);
  }

  lemma BodyIgnoresJoins(w: World, q: SelectQuery, envs: seq<Env>)
    ensures Body(w, q, envs) == Body(w, q.(joins := []), envs)
  {
  }

  lemma JoinedRowShape(w: World, q: SelectQuery, rec: Record, y: Env)
    requires |q.joins| == 1 && q.joins[0].subquery.None? && q.table.Some? && WellFormed(w)
    requires UnqualifiedStayLeft(w, q) && rec in SourceRelation(w, q).rows
    requires y in JoinRow(w.engine, q.joins[0], JoinRelation(w, q.joins[0]))([Binding(q.SourceName(), rec)])
    ensures Hidden(q, q.joins[0].RelationName(), [Binding(q.SourceName(), rec)], y)
  {
    var j, rel, env := q.joins[0], JoinRelation(w, q.joins[0]), [Binding(q.SourceName(), rec)];
    if y in Matches(w.engine, j, rel, env) {
      assert y in Map(Extend(env, j.RelationName()), rel.rows);
      var i :| 0 <= i < |rel.rows| && y == Extend(env, j.RelationName())(rel.rows[i]);
      HiddenRow(w, q, rec, rel.rows[i]);
    } else {
      assert Names(NullRecord(rel.cols)) == rel.cols;
      HiddenRow(w, q, rec, NullRecord(rel.cols));
      assert y == [env[0], Binding(j.RelationName(), NullRecord(rel.cols))];
    }
  }

  lemma HeaderWidened(w: World, q: SelectQuery)
    requires |q.joins| == 1 && q.joins[0].subquery.None? && q.table.Some?
    requires UnqualifiedStayLeft(w, q) && Unused(q, q.joins[0].RelationName()) && q.groupBy == []
    requires !OrderNames(q, q.joins[0].RelationName())
    ensures Eval(w, q).cols == Eval(w, q.(joins := [])).cols
  {
    var j, r := q.joins[0], q.(joins := []);
    var a, b := NullRecord(SourceRelation(w, q).cols), NullRecord(JoinRelation(w, j).cols);
    assert Names(a) == SourceRelation(w, q).cols && Names(b) == JoinRelation(w, j).cols;
    HiddenRow(w, q, a, b);
    assert JoinRelations(w, q.joins) == [JoinRelation(w, j)] by {
      assert JoinRelations(w, q.joins[1..]) == [];
    }
    assert Header(w, r) == [Binding(q.SourceName(), a)];
    assert Header(w, q) == [Binding(q.SourceName(), a), Binding(j.RelationName(), b)] by {
      assert JoinHeader(q.joins[1..], [JoinRelation(w, j)][1..]) == [];
    }
    SeenAvoids(q, j.RelationName());
    HiddenAlike(q, SeenReads(q), j.RelationName(), [Header(w, r)], [Header(w, q)]);
    ProjectAlike(w.engine, SeenReads(q), q.projections, [Header(w, r)], [Header(w, q)]);
  }

  /** Rows that look alike to the whole query come out in the same order. */
  lemma DroppedJoin(w: World, q: SelectQuery)
    requires |q.joins| == 1
    requires var r := q.(joins := []);
             RowsAlike(SeenReads(q), Body(w, r, FromRows(w, r)), Body(w, q, FromRows(w, q))) &&
             Eval(w, q).cols == Eval(w, r).cols
    ensures Eval(w, q) == Eval(w, q.(joins := []))
  {
    hide Body;
    var r := q.(joins := []);
    AlikeSorts(SeenReads(q), OrderItems(q), Body(w, r, FromRows(w, r)), Body(w, q, FromRows(w, q)));
    SortAlikeSameRows(w, r, q);
  }

  /** Every unqualified column of SELECT and WHERE belongs to the left table, or to neither. */
  ghost predicate ClausesStayLeft(w: World, q: SelectQuery)
    requires |q.joins| == 1
  {
    forall name :: ClauseUses(q, name) ==>
      name in SourceRelation(w, q).cols || name !in JoinRelation(w, q.joins[0]).cols
  }

  /** So does every one of ORDER BY. */
  ghost predicate OrderStaysLeft(w: World, q: SelectQuery)
    requires |q.joins| == 1
  {
    forall name :: OrderUses(q, name) ==>
      name in SourceRelation(w, q).cols || name !in JoinRelation(w, q.joins[0]).cols
  }

  /** What the rule takes for granted: SQL's own scoping, and that unqualified columns are the left table's. */
  ghost predicate LeftJoinScope(w: World, q: SelectQuery) {
    && |q.joins| == 1 && q.SourceName() != q.joins[0].RelationName() && ClausesStayLeft(w, q)
    && (q.tableAlias.Some? ==> q.table.Some?)
  }

  /** ORDER BY leaves the removed relation alone. */
  ghost predicate OrderFree(w: World, q: SelectQuery)
    requires |q.joins| == 1
  {
    !OrderNames(q, q.joins[0].RelationName()) && OrderStaysLeft(w, q)
  }

  ghost predicate LeftJoinLimits(w: World, q: SelectQuery) {
    LeftJoinScope(w, q) && OrderFree(w, q)
  }

  /** Each left row has one joined row: its match on a unique key, or NULLs. */
  lemma LeftJoinRows(w: World, q: SelectQuery, catalog: Catalog)
    requires Meets(w, catalog) && WellFormed(w) && SuggestLeft(q, catalog).Proven() && LeftJoinLimits(w, q)
    ensures var r := q.(joins := []);
            RowsAlike(SeenReads(q), Body(w, r, FromRows(w, r)), Body(w, q, FromRows(w, q))) &&
            Eval(w, q).cols == Eval(w, r).cols
  {
    hide Body;
    var j, t := q.joins[0], catalog.Table(q.joins[0].table).value;
    var rel, key := JoinRelation(w, j), t.UniqueKeyContainedIn(RightJoinKeys(j, LeftRelation(q)).value).value;
    assert TableMeets(w, rel.rows, t) && UniqueOn(rel.rows, key);
    forall rec | rec in SourceRelation(w, q).rows
      ensures ExactlyOne(w, q, rec)
    {
      AtMostOneMatch(w, j, rel, q.SourceName(), rec, key);
    }
    OneMatchEach(w, q);
  }

  /** Removing an unused LEFT JOIN on columns that contain a unique key leaves the very same relation. No column needs
      to be non-null: NULL keys match nothing. */
  lemma LeftJoinElimination(w: World, q: SelectQuery, catalog: Catalog)
    requires Meets(w, catalog) && WellFormed(w) && SuggestLeft(q, catalog).Proven() && LeftJoinLimits(w, q)
    ensures Eval(w, q) == Eval(w, SuggestLeft(q, catalog).rewritten.value)
  {
    hide Body;
    hide Eval;
    LeftJoinRows(w, q, catalog);
    DroppedJoin(w, q);
  }

  lemma OneJoinHeader(w: World, q: SelectQuery)
    requires |q.joins| == 1 && q.HasSource()
    ensures var a := Binding(q.SourceName(), NullRecord(SourceRelation(w, q).cols));
            var b := Binding(q.joins[0].RelationName(), NullRecord(JoinRelation(w, q.joins[0]).cols));
            Header(w, q) == [a, b] && Header(w, q.(joins := [])) == [a]
  {
    OneJoin(w, q);
    assert JoinHeader(q.joins[1..], [JoinRelation(w, q.joins[0])][1..]) == [];
  }

  lemma NullFields(cols: seq<string>, name: string)
    ensures HasField(NullRecord(cols), name) <==> name in cols
  {
    assert Names(NullRecord(cols)) == cols;
    HasFieldNames(NullRecord(cols), name);
  }

  lemma OrderUsesOf(q: SelectQuery, o: OrderByItem, name: string)
    requires o in q.orderBy && name in o.code.names && name !in ItemOutputs(q.projections)
    ensures OrderUses(q, name)
  {
    var p := FromNames(ItemOutputs(q.projections))(o);
    var i :| 0 <= i < |q.orderBy| && q.orderBy[i] == o;
    assert OrderItems(q)[i] == p;
    assert name in p.code.names;
  }

  lemma OrderUsesFrom(q: SelectQuery, name: string) returns (o: OrderByItem)
    requires OrderUses(q, name)
    ensures o in q.orderBy && name in o.code.names && name !in ItemOutputs(q.projections)
  {
    var p :| p in OrderItems(q) && name in p.code.names;
    o := OrderItemOf(q, p);
  }

  /** Without the join, ORDER BY is accepted exactly when it left the joined relation alone. */
  lemma OrderStaysAccepted(w: World, q: SelectQuery)
    requires |q.joins| == 1 && q.HasSource() && q.SourceName() != q.joins[0].RelationName() && OrderAccepted(w, q)
    ensures OrderAccepted(w, q.(joins := [])) <==> OrderFree(w, q)
  {
    hide OrderUses;
    var r, name := q.(joins := []), q.joins[0].RelationName();
    OneJoinHeader(w, q);
    var a, b := Header(w, q)[0], Header(w, q)[1];
    forall n ensures HasField(a.record, n) <==> n in SourceRelation(w, q).cols {
      NullFields(SourceRelation(w, q).cols, n);
    }
    forall n ensures HasField(b.record, n) <==> n in JoinRelation(w, q.joins[0]).cols {
      NullFields(JoinRelation(w, q.joins[0]).cols, n);
    }
    assert a in Header(w, r);
    if OrderFree(w, q) {
      forall o, t | o in q.orderBy && t in o.code.tables ensures InFrom(w, r, t) {
        assert InFrom(w, q, t) && t != name;
      }
      forall o, n | o in q.orderBy && n in o.code.names ensures NameKnown(w, r, n) {
        assert NameKnown(w, q, n);
        if n !in ItemOutputs(q.projections) {
          OrderUsesOf(q, o, n);
        }
      }
    }
    if OrderAccepted(w, r) {
      forall n | OrderUses(q, n) ensures n in SourceRelation(w, q).cols || n !in JoinRelation(w, q.joins[0]).cols {
        var o := OrderUsesFrom(q, n);
        assert NameKnown(w, r, n);
      }
    }
  }

  /** The rule does not look at ORDER BY: its rewrite is accepted and returns the same bag exactly when no item of ORDER
      BY names the joined relation or a column that it alone has. */
  lemma LeftJoinOrderExact(w: World, q: SelectQuery, catalog: Catalog)
    requires Meets(w, catalog) && WellFormed(w) && SuggestLeft(q, catalog).Proven() && LeftJoinScope(w, q)
    requires OrderAccepted(w, q) && q.HasSource()
    ensures var r := SuggestLeft(q, catalog).rewritten.value;
            OrderAccepted(w, r) && Answer(w, q) == Answer(w, r) <==> OrderFree(w, q)
  {
    hide Eval;
    hide OrderFree;
    hide OrderAccepted;
    OrderStaysAccepted(w, q);
    if OrderFree(w, q) {
      LeftJoinElimination(w, q, catalog);
    }
  }

  predicate ForeignKeyScope(q: SelectQuery) {
    |q.joins| == 1 && q.SourceName() != q.joins[0].RelationName()
  }

  ghost predicate ForeignKeyLimits(w: World, q: SelectQuery) {
    ForeignKeyScope(q) && OrderFree(w, q)
  }

  /** A non-null foreign key gives every child row a parent with equal key columns. */
  lemma ChildHasMatch(w: World, q: SelectQuery, catalog: Catalog, rec: Record)
    requires Meets(w, catalog) && SuggestForeignKey(q, catalog).Proven() && ForeignKeyScope(q)
    requires rec in SourceRelation(w, q).rows
    ensures Matches(w.engine, q.joins[0], JoinRelation(w, q.joins[0]), [Binding(q.SourceName(), rec)]) != []
  {
    var j, child, ps := q.joins[0], catalog.Table(q.table.value).value, ForeignKeyJoinKey(q, q.joins[0]).value;
    var rel, fk := JoinRelation(w, j), ForeignKey(Lefts(ps), j.table, Rights(ps));
    var rows := SourceRelation(w, q).rows;
    assert TableMeets(w, rows, child) && fk in child.foreignKeys && ForeignKeyHolds(rows, fk, rel.rows);
    forall c | c in fk.columns ensures Get(rec, c).Val? {
      assert child.IsNonNull(c) && NeverNull(rows, c);
    }
    assert KeyPresent(rec, fk.columns) && HasParent(rec, fk, rel.rows);
    var row :| row in rel.rows && RefersTo(rec, fk.columns, row, fk.refColumns);
    forall p | p in ps ensures Get(rec, p.left).Val? && Get(rec, p.left) == Get(row, p.right) {
      var i :| 0 <= i < |ps| && ps[i] == p;
      assert fk.columns[i] == p.left && fk.refColumns[i] == p.right;
      assert fk.columns[i] in fk.columns;
    }
    SomeMatch(w, j, rel, q.SourceName(), rec, row);
  }

  /** The rule looks for unqualified columns itself, ORDER BY excepted. */
  lemma ForeignKeyClauses(q: SelectQuery, catalog: Catalog)
    requires SuggestForeignKey(q, catalog).Proven()
    ensures q.HasSource() && forall name :: !ClauseUses(q, name)
  {
  }

  /** A non-null foreign key finds a parent for every child row, and the unique parent key finds no second one. */
  lemma ForeignKeyRows(w: World, q: SelectQuery, catalog: Catalog)
    requires Meets(w, catalog) && WellFormed(w) && SuggestForeignKey(q, catalog).Proven() && ForeignKeyLimits(w, q)
    ensures var r := q.(joins := []);
            RowsAlike(SeenReads(q), Body(w, r, FromRows(w, r)), Body(w, q, FromRows(w, q))) &&
            Eval(w, q).cols == Eval(w, r).cols
  {
    hide Eval;
    hide Body;
    hide OrderUses;
    var j, t, ps := q.joins[0], catalog.Table(q.joins[0].table).value, ForeignKeyJoinKey(q, q.joins[0]).value;
    var rel, key := JoinRelation(w, j), t.UniqueKeyContainedIn(Rights(ps)).value;
    assert TableMeets(w, rel.rows, t) && UniqueOn(rel.rows, key);
    forall rec | rec in SourceRelation(w, q).rows
      ensures ExactlyOne(w, q, rec)
    {
      AtMostOneMatch(w, j, rel, q.SourceName(), rec, key);
      ChildHasMatch(w, q, catalog, rec);
    }
    ForeignKeyClauses(q, catalog);
    OneMatchEach(w, q);
  }

  /** Removing an unused INNER JOIN to a parent table leaves the very same relation. */
  lemma ForeignKeyJoinElimination(w: World, q: SelectQuery, catalog: Catalog)
    requires Meets(w, catalog) && WellFormed(w) && SuggestForeignKey(q, catalog).Proven() && ForeignKeyLimits(w, q)
    ensures Eval(w, q) == Eval(w, SuggestForeignKey(q, catalog).rewritten.value)
  {
    hide Eval;
    hide Body;
    ForeignKeyRows(w, q, catalog);
    DroppedJoin(w, q);
  }

  /** This rule does not look at ORDER BY either. */
  lemma ForeignKeyOrderExact(w: World, q: SelectQuery, catalog: Catalog)
    requires Meets(w, catalog) && WellFormed(w) && SuggestForeignKey(q, catalog).Proven() && ForeignKeyScope(q)
    requires OrderAccepted(w, q)
    ensures var r := SuggestForeignKey(q, catalog).rewritten.value;
            OrderAccepted(w, r) && Answer(w, q) == Answer(w, r) <==> OrderFree(w, q)
  {
    hide Eval;
    hide OrderFree;
    hide OrderAccepted;
    ForeignKeyClauses(q, catalog);
    OrderStaysAccepted(w, q);
    if OrderFree(w, q) {
      ForeignKeyJoinElimination(w, q, catalog);
    }
  }
}
