/** COUNT(DISTINCT c) is COUNT(c) when c is trusted unique and non-null. */
module CountDistinctRule {
  import opened Ir
  import opened Lists
  import opened Semantics
  import opened Pipeline
  import opened Constraints
  import opened Rewrites
  import opened TableRows

  function CountDistinctColumn(p: Projection): Option<ColName> {
    if p.Computed? && p.expr.CountDistinct? then Some(p.expr.column) else None
  }

  function WithoutDistinct(p: Projection): Projection
    requires CountDistinctColumn(p).Some?
  {
    p.(expr := Aggregate(Count, p.expr.column))
  }

  function SuggestAt(q: SelectQuery, catalog: Catalog, i: nat): Suggestion
    requires i < |q.projections|
  {
    var no := s => Suggestion(RemoveRedundantCountDistinct, s, None);
    var c := CountDistinctColumn(q.projections[i]);
    if c.None? then no(NotApplicable)
    else if q.distinct || q.joins != [] || q.having != [] || q.qualify != [] then no(NotApplicable)
    else if q.ReferencesCte() then no(Undecided)
    else if q.TableName().None? then no(Unsupported)
    else if c.value.table.Some? && c.value.table.value != q.SourceName() then no(Undecided)
    else
      var t := catalog.Table(q.TableName().value);
      if t.None? || t.value.NonNullUniqueKeyContainedIn([c.value.name]).None? then no(Undecided)
      else
        Suggestion(RemoveRedundantCountDistinct, ProvenEquivalent,
          Some(q.(projections := q.projections[i := WithoutDistinct(q.projections[i])])))
  }

  /** The suggestion of `apply`: the first proven index, else the first verdict worth reporting. */
  function FirstProven(suggest: nat -> Suggestion, n: nat, from: nat, blocker: Option<Suggestion>,
    otherwise: Suggestion)
    : (r: Suggestion)
    ensures r.Proven() ==> (exists i :: from <= i < n && suggest(i) == r) || blocker == Some(r) || otherwise == r
    ensures (exists i :: from <= i < n && suggest(i).Proven()) ==> r.status.ProvenEquivalent?
    decreases n - from
  {
    if from >= n then blocker.GetOr(otherwise)
    else if suggest(from).status.ProvenEquivalent? then suggest(from)
    else
      FirstProven(suggest, n, from + 1,
        if blocker.None? && !suggest(from).status.NotApplicable? then Some(suggest(from)) else blocker, otherwise)
  }

  /** The loop over the projections in `apply`. */
  method SuggestFirst(q: SelectQuery, catalog: Catalog) returns (r: Suggestion)
    ensures r == SuggestCountDistinct(q, catalog)
  {
    var blocker: Option<Suggestion> := None;
    var i := 0;
    while i < |q.projections|
      invariant 0 <= i <= |q.projections|
      invariant SuggestCountDistinct(q, catalog) ==
                FirstProven(At(q, catalog), |q.projections|, i, blocker, Nothing())
    {
      var s := SuggestAt(q, catalog, i);
      if s.status.ProvenEquivalent? {
        return s;
      }
      if !s.status.NotApplicable? && blocker.None? {
        blocker := Some(s);
      }
      i := i + 1;
    }
    return blocker.GetOr(Nothing());
  }

  function Nothing(): Suggestion {
    Suggestion(RemoveRedundantCountDistinct, NotApplicable, None)
  }

  function At(q: SelectQuery, catalog: Catalog): nat -> Suggestion {
    (i: nat) => if i < |q.projections| then SuggestAt(q, catalog, i) else Nothing()
  }

  function SuggestCountDistinct(q: SelectQuery, catalog: Catalog): Suggestion {
    FirstProven(At(q, catalog), |q.projections|, 0, None, Nothing())
  }

  // ----- soundness

  /** All rows of every group come from rows that differ on the counted column. */
  lemma {:induction false} GroupsApart(w: World, keys: seq<GroupByKey>, envs: seq<Env>, c: ColName)
    requires NoDuplicates(Map(ColumnOf(c), envs))
    ensures forall u :: u in Groups(w.engine, keys, envs) ==> NoDuplicates(Map(ColumnOf(c), u))
    decreases |envs|
  {
    if envs != [] {
      var key := KeyOf(w.engine, keys, envs[0]);
      FilterApart(HasKey(w.engine, keys, key), ColumnOf(c), envs);
      assert Filter(HasKey(w.engine, keys, key), envs) == [envs[0]] + Filter(HasKey(w.engine, keys, key), envs[1..]);
      TailApart(ColumnOf(c), envs);
      FilterApart(LacksKey(w.engine, keys, key), ColumnOf(c), envs[1..]);
      GroupsApart(w, keys, Filter(LacksKey(w.engine, keys, key), envs[1..]), c);
    }
  }

  lemma GroupedApart(w: World, q: SelectQuery, envs: seq<Env>, c: ColName)
    requires NoDuplicates(Map(ColumnOf(c), envs)) && q.HasAggregate() && q.having == [] && q.qualify == []
    ensures forall u :: u in Selected(w, q, envs) ==> NoDuplicates(Map(ColumnOf(c), u))
  {
    SelectedAll(w, q, envs);
    FilterApart(WhereHolds(w, q.predicates), ColumnOf(c), envs);
    GroupsApart(w, q.groupBy, Filter(WhereHolds(w, q.predicates), envs), c);
  }

  lemma CountsAgree(w: World, c: ColName, u: Unit)
    requires NoDuplicates(Map(ColumnOf(c), u))
    ensures ExprValue(w.engine, CountDistinct(c), u) == ExprValue(w.engine, Aggregate(Count, c), u)
  {
    var vs := Map(ColumnOf(c), u);
    var id := (v: Value) => v;
    assert Map(id, vs) == vs;
    FilterApart(IsVal(), id, vs);
    assert Map(id, Filter(IsVal(), vs)) == Filter(IsVal(), vs);
    DedupNoDuplicates(Filter(IsVal(), vs));
  }

  lemma {:induction false} ProjectReplaced(w: World, ps: seq<Projection>, i: nat, p: Projection, u: Unit)
    requires i < |ps| && ItemFields(w.engine, ps[i], u) == ItemFields(w.engine, p, u)
    ensures Project(w.engine, ps, u) == Project(w.engine, ps[i := p], u)
  {
    if i > 0 {
      assert ps[i := p][1..] == ps[1..][i - 1 := p];
      ProjectReplaced(w, ps[1..], i - 1, p, u);
    } else {
      assert ps[i := p][1..] == ps[1..];
    }
  }

  lemma SelectedSame(w: World, q: SelectQuery, i: nat, p: Projection, envs: seq<Env>)
    requires i < |q.projections| && AnyAggregate(q.projections[i := p]) == q.HasAggregate()
    ensures Selected(w, q.(projections := q.projections[i := p]), envs) == Selected(w, q, envs)
  {
    hide Chosen;
    hide Grouped;
    hide AnyAggregate;
  }

  lemma OutputsSame(w: World, q: SelectQuery, i: nat, p: Projection, units: seq<Unit>)
    requires i < |q.projections|
    requires forall u :: u in units ==> ItemFields(w.engine, q.projections[i], u) == ItemFields(w.engine, p, u)
    ensures Map(Output(w.engine, q.projections), units) == Map(Output(w.engine, q.projections[i := p]), units)
  {
    hide ItemFields;
    hide Project;
    forall k | 0 <= k < |units|
      ensures Output(w.engine, q.projections)(units[k]) == Output(w.engine, q.projections[i := p])(units[k])
    {
      assert units[k] in units;
      ProjectReplaced(w, q.projections, i, p, units[k]);
    }
  }

  lemma ItemNamed(g: Engine, p: Projection, u: Unit)
    requires !p.Star?
    ensures Names(ItemFields(g, p, u)) == [p.OutputName()]
  {
  }

  /** Replacing one SELECT item by one with the same value in every unit changes nothing. */
  lemma ReplaceItem(w: World, q: SelectQuery, i: nat, p: Projection)
    requires i < |q.projections| && AnyAggregate(q.projections[i := p]) == q.HasAggregate()
    requires !p.Star? && !q.projections[i].Star? && p.OutputName() == q.projections[i].OutputName()
    requires forall u :: u in Selected(w, q, FromRows(w, q)) ==>
               ItemFields(w.engine, q.projections[i], u) == ItemFields(w.engine, p, u)
    ensures Eval(w, q) == Eval(w, q.(projections := q.projections[i := p]))
  {
    hide Eval;
    hide Selected;
    hide ItemFields;
    hide Project;
    hide FromRows;
    hide Header;
    var r := q.(projections := q.projections[i := p]);
    SameFrom(w, q, r);
    SelectedSame(w, q, i, p, FromRows(w, q));
    OutputsSame(w, q, i, p, Selected(w, q, FromRows(w, q)));
    ItemNamed(w.engine, p, [Header(w, q)]);
    ItemNamed(w.engine, q.projections[i], [Header(w, q)]);
    NamesReplaced(w, q.projections, i, p, [Header(w, q)]);
    SameOutputs(q.projections, r.projections);
    SameEval(w, q, r);
  }

  lemma {:induction false} NamesReplaced(w: World, ps: seq<Projection>, i: nat, p: Projection, u: Unit)
    requires i < |ps| && Names(ItemFields(w.engine, p, u)) == Names(ItemFields(w.engine, ps[i], u))
    ensures Names(Project(w.engine, ps, u)) == Names(Project(w.engine, ps[i := p], u))
  {
    var ps' := ps[i := p];
    NamesAppend(ItemFields(w.engine, ps[0], u), Project(w.engine, ps[1..], u));
    NamesAppend(ItemFields(w.engine, ps'[0], u), Project(w.engine, ps'[1..], u));
    if i > 0 {
      assert ps'[1..] == ps[1..][i - 1 := p];
      NamesReplaced(w, ps[1..], i - 1, p, u);
    } else {
      assert ps'[1..] == ps[1..];
    }
  }

  lemma NamesAppend(a: Record, b: Record)
    ensures Names(a + b) == Names(a) + Names(b)
  {
  }

  /** The counted column differs between any two rows of the table. */
  lemma CountedColumnApart(w: World, q: SelectQuery, t: TableConstraints, c: ColName)
    requires SingleTable(q) && InScope(q, c) && TableMeets(w, RowsOf(w, q), t)
    requires t.NonNullUniqueKeyContainedIn([c.name]).Some?
    ensures NoDuplicates(Map(ColumnOf(c), FromRows(w, q)))
  {
    SingleTableRows(w, q);
    var rows, vs := RowsOf(w, q), Map(ColumnOf(c), FromRows(w, q));
    forall i, j | 0 <= i < j < |vs| ensures vs[i] != vs[j] {
      KeyTellsRowsApart(w, q, t, [c.name], i, j);
      ColumnOfRow(q, c, rows[i]);
      ColumnOfRow(q, c, rows[j]);
    }
  }

  lemma StillAggregate(ps: seq<Projection>, i: nat)
    requires i < |ps| && CountDistinctColumn(ps[i]).Some?
    ensures AnyAggregate(ps) && AnyAggregate(ps[i := WithoutDistinct(ps[i])])
  {
    var p := WithoutDistinct(ps[i]);
    assert ps[i] in ps && ps[i].IsAggregate();
    assert ps[i := p][i] == p && p.IsAggregate();
  }

  lemma CountItem(w: World, p: Projection, u: Unit)
    requires CountDistinctColumn(p).Some?
    ensures Names(ItemFields(w.engine, WithoutDistinct(p), u)) == Names(ItemFields(w.engine, p, u))
    ensures NoDuplicates(Map(ColumnOf(p.expr.column), u)) ==>
      ItemFields(w.engine, p, u) == ItemFields(w.engine, WithoutDistinct(p), u)
  {
    if NoDuplicates(Map(ColumnOf(p.expr.column), u)) {
      CountsAgree(w, p.expr.column, u);
    }
  }

  lemma WithoutDistinctSound(w: World, q: SelectQuery, t: TableConstraints, i: nat)
    requires i < |q.projections| && CountDistinctColumn(q.projections[i]).Some?
    requires SingleTable(q) && q.having == [] && q.qualify == [] && TableMeets(w, RowsOf(w, q), t)
    requires InScope(q, q.projections[i].expr.column)
    requires t.NonNullUniqueKeyContainedIn([q.projections[i].expr.column.name]).Some?
    ensures Eval(w, q) == Eval(w, q.(projections := q.projections[i := WithoutDistinct(q.projections[i])]))
  {
    var p := q.projections[i];
    CountedColumnApart(w, q, t, p.expr.column);
    StillAggregate(q.projections, i);
    var units := Selected(w, q, FromRows(w, q));
    GroupedApart(w, q, FromRows(w, q), p.expr.column);
    forall u | u in units ensures ItemFields(w.engine, p, u) == ItemFields(w.engine, WithoutDistinct(p), u) {
      CountItem(w, p, u);
    }
    CountItem(w, p, [Header(w, q)]);
    ReplaceItem(w, q, i, WithoutDistinct(p));
  }

  /** Dropping DISTINCT from one COUNT keeps the relation, with or without GROUP BY and under every filter. */
  lemma CountDistinctRemoval(w: World, q: SelectQuery, catalog: Catalog, i: nat)
    requires Meets(w, catalog) && i < |q.projections| && SuggestAt(q, catalog, i).Proven()
    ensures Eval(w, q) == Eval(w, SuggestAt(q, catalog, i).rewritten.value)
  {
    hide Eval;
    assert TableMeets(w, RowsOf(w, q), catalog.Table(q.table.value).value);
    WithoutDistinctSound(w, q, catalog.Table(q.table.value).value, i);
  }
}
