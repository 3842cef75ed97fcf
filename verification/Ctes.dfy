/** Reading through CTEs that only pass columns on. */
module Ctes {
  import opened Ir
  import opened Lists
  import opened Semantics
  import opened Pipeline
  import opened TableRows
  import opened Distinct
  import opened Statements

  // ----- the shapes that are read through; none of them looks at OFFSET

  predicate BareSelect(q: SelectQuery) {
    && q.joins == [] && q.predicates == [] && q.groupBy == [] && q.having == [] && q.qualify == []
    && q.orderBy == [] && q.limit.None?
  }

  predicate StarPassThrough(q: SelectQuery) {
    BareSelect(q) && !q.distinct && q.projections == [Star(None)]
  }

  /** The column an outer item asks for. */
  function ReferenceName(p: Projection): Option<string> {
    match p
    case Column(c, _) => Some(c.name)
    case Star(_) => Some("*")
    case Computed(_, _) => None
  }

  /** The name under which an inner item can be asked for. */
  function NameGiven(p: Projection): Option<string> {
    match p
    case Column(c, a) => Some(a.GetOr(c.name))
    case Star(t) => if t.Some? then Some("*") else None
    case Computed(_, a) => a
  }

  predicate ProjectionPassThrough(q: SelectQuery) {
    BareSelect(q) && forall p :: p in q.projections ==> ReferenceName(p).Some?
  }

  predicate SimpleProjection(q: SelectQuery) {
    BareSelect(q) && !q.distinct && forall p :: p in q.projections ==> NameGiven(p).Some?
  }

  predicate IdentityProjection(q: SelectQuery) {
    SimpleProjection(q) && forall p :: p in q.projections ==> (p.Column? && p.alias.None?) || p.Star?
  }

  /** The item of that name; the last one wins. */
  function FindItem(ps: seq<Projection>, name: string): Option<Projection> {
    if ps == [] then None
    else
      var later := FindItem(ps[1..], name);
      if later.Some? then later else if NameGiven(ps[0]) == Some(name) then Some(ps[0]) else None
  }

  function WithAlias(p: Projection, alias: Option<string>): Projection {
    if alias.None? then p
    else match p
      case Column(c, _) => Column(c, alias)
      case Star(_) => p
      case Computed(e, _) => Computed(e, alias)
  }

  function InlineItem(p: Projection, inner: seq<Projection>): Option<seq<Projection>> {
    if p == Star(None) then Some(inner)
    else if ReferenceName(p).None? then None
    else
      var found := FindItem(inner, ReferenceName(p).value);
      if found.None? then None else Some([WithAlias(found.value, if p.Column? then p.alias else None)])
  }

  function InlineItems(ps: seq<Projection>, inner: seq<Projection>): Option<seq<Projection>> {
    if ps == [] then Some([])
    else
      var first, rest := InlineItem(ps[0], inner), InlineItems(ps[1..], inner);
      if first.Some? && rest.Some? then Some(first.value + rest.value) else None
  }

  function Inlined(outer: SelectQuery, resolved: SelectQuery): SelectQuery {
    if !SimpleProjection(resolved) then outer
    else
      var items := InlineItems(outer.projections, resolved.projections);
      if items.None? then outer else resolved.(projections := items.value, distinct := outer.distinct)
  }

  predicate ReadsCte(q: SelectQuery, ctes: map<string, SelectQuery>) {
    q.table.Some? && q.table.value in ctes
  }

  predicate PassesThrough(q: SelectQuery) {
    StarPassThrough(q) || ProjectionPassThrough(q)
  }

  /** Follows a chain of pass-through CTEs; ends because the names still unseen get fewer. */
  function Resolve(q: SelectQuery, ctes: map<string, SelectQuery>, seen: set<string>): Scoped<SelectQuery>
    decreases |ctes.Keys - seen|
  {
    if !ReadsCte(q, ctes) then Resolved(q)
    else if q.table.value in seen then Rejected(CircularReference)
    else if !PassesThrough(q) then Resolved(q)
    else
      var name := q.table.value;
      assert ctes.Keys - (seen + {name}) == ctes.Keys - seen - {name};
      var resolved := Resolve(ctes[name], ctes, seen + {name});
      if resolved.Rejected? || StarPassThrough(q) then resolved
      else Resolved(Inlined(q, resolved.value))
  }

  // ----- exactly the circular chains are rejected

  /** The CTE names read one after another: each query but the last passes its source on. */
  predicate Visits(q: SelectQuery, ctes: map<string, SelectQuery>, names: seq<string>)
    decreases |names|
  {
    names != [] ==>
      && ReadsCte(q, ctes) && names[0] == q.table.value
      && (|names| > 1 ==> PassesThrough(q) && Visits(ctes[names[0]], ctes, names[1..]))
  }

  predicate Repeats(names: seq<string>, seen: set<string>) {
    !NoDuplicates(names) || exists n :: n in names && n in seen
  }

  lemma RepeatsTail(names: seq<string>, seen: set<string>)
    requires names != [] && names[0] !in seen
    ensures Repeats(names, seen) <==> Repeats(names[1..], seen + {names[0]})
  {
    var tail := names[1..];
    if Repeats(names, seen) {
      if !NoDuplicates(names) {
        var i, j :| 0 <= i < j < |names| && names[i] == names[j];
        assert tail[j - 1] == names[j];
        if i == 0 {
          assert tail[j - 1] in tail && tail[j - 1] in seen + {names[0]};
        } else {
          assert tail[i - 1] == names[i];
        }
      } else {
        var n :| n in names && n in seen;
        assert n in tail && n in seen + {names[0]};
      }
    }
    if Repeats(tail, seen + {names[0]}) {
      if !NoDuplicates(tail) {
        var i, j :| 0 <= i < j < |tail| && tail[i] == tail[j];
        assert names[i + 1] == names[j + 1];
      } else {
        var n :| n in tail && n in seen + {names[0]};
        var j :| 0 <= j < |tail| && tail[j] == n;
        assert names[j + 1] == n;
        if n == names[0] { assert names[0] == names[j + 1]; } else { assert n in names && n in seen; }
      }
    }
  }

  lemma {:induction false} RejectedHasCycle(q: SelectQuery, ctes: map<string, SelectQuery>, seen: set<string>)
    returns (names: seq<string>)
    requires Resolve(q, ctes, seen).Rejected?
    ensures Visits(q, ctes, names) && Repeats(names, seen)
    decreases |ctes.Keys - seen|
  {
    var name := q.table.value;
    if name in seen {
      names := [name];
      assert name in names;
    } else {
      assert ctes.Keys - (seen + {name}) == ctes.Keys - seen - {name};
      var rest := RejectedHasCycle(ctes[name], ctes, seen + {name});
      names := [name] + rest;
      assert names[1..] == rest;
      RepeatsTail(names, seen);
    }
  }

  lemma {:induction false} CycleIsRejected(q: SelectQuery, ctes: map<string, SelectQuery>, seen: set<string>,
    names: seq<string>)
    requires Visits(q, ctes, names) && Repeats(names, seen)
    ensures Resolve(q, ctes, seen).Rejected?
    decreases |ctes.Keys - seen|
  {
    if names[0] !in seen {
      RepeatsTail(names, seen);
      assert ctes.Keys - (seen + {names[0]}) == ctes.Keys - seen - {names[0]};
      CycleIsRejected(ctes[names[0]], ctes, seen + {names[0]}, names[1..]);
    }
  }

  /** A query is rejected if and only if following its sources comes back to a CTE already read. */
  lemma ResolveRejectsCycles(q: SelectQuery, ctes: map<string, SelectQuery>)
    ensures Resolve(q, ctes, {}).Rejected? <==> exists names :: Visits(q, ctes, names) && !NoDuplicates(names)
  {
    if Resolve(q, ctes, {}).Rejected? {
      var names := RejectedHasCycle(q, ctes, {});
      assert Visits(q, ctes, names) && !NoDuplicates(names);
    }
    if names :| Visits(q, ctes, names) && !NoDuplicates(names) {
      CycleIsRejected(q, ctes, {}, names);
    }
  }

  // ----- meaning

  /** Every item is one named field. */
  predicate NamedItems(ps: seq<Projection>) {
    forall p :: p in ps ==> p.Column? || (p.Computed? && p.alias.Some?)
  }

  function OutputNames(ps: seq<Projection>): seq<string> {
    seq(|ps|, i requires 0 <= i < |ps| => ps[i].OutputName())
  }

  lemma {:induction false} ProjectAppend(g: Engine, a: seq<Projection>, b: seq<Projection>, u: Unit)
    ensures Project(g, a + b, u) == Project(g, a, u) + Project(g, b, u)
  {
    if a == [] {
      assert a + b == b;
    } else {
      assert (a + b)[1..] == a[1..] + b;
      ProjectAppend(g, a[1..], b, u);
    }
  }

  /** Reading a name back from a projected row gives the value of the item of that name. */
  lemma {:induction false} ReadItem(g: Engine, ps: seq<Projection>, name: string, u: Unit)
    requires NamedItems(ps) && NoDuplicates(OutputNames(ps)) && FindItem(ps, name).Some?
    ensures FindItem(ps, name).value in ps && FindItem(ps, name).value.OutputName() == name
    ensures ItemFields(g, FindItem(ps, name).value, u) == [Field(name, Get(Project(g, ps, u), name))]
  {
    assert ps[0] in ps;
    var names, rec := OutputNames(ps), Project(g, ps, u);
    assert OutputNames(ps[1..]) == names[1..];
    forall i, j | 0 <= i < j < |names[1..]| ensures names[1..][i] != names[1..][j] {
      assert names[i + 1] != names[j + 1];
    }
    assert rec[1..] == Project(g, ps[1..], u);
    if FindItem(ps[1..], name).Some? {
      ReadItem(g, ps[1..], name, u);
      var k :| 0 <= k < |ps[1..]| && ps[1..][k] == FindItem(ps, name).value;
      assert names[0] != names[k + 1];
    }
  }

  lemma {:induction false} NotFound(ps: seq<Projection>, name: string)
    requires FindItem(ps, name).None?
    ensures forall p :: p in ps ==> NameGiven(p) != Some(name)
  {
    if ps != [] {
      NotFound(ps[1..], name);
    }
  }

  /** What the code does not check about the inner query: no aggregate, one field per item, different names. */
  predicate PlainInner(q: SelectQuery) {
    && SimpleProjection(q) && !q.HasAggregate()
    && NamedItems(q.projections) && NoDuplicates(OutputNames(q.projections)) && "*" !in OutputNames(q.projections)
  }

  /** And about the outer one: no OFFSET, and columns that belong to the CTE. */
  predicate PlainOuter(q: SelectQuery) {
    Unlimited(q) && q.table.Some? && ItemsInScope(q)
  }

  /** Nor does it check that DISTINCT is not moved in front of an OFFSET. */
  predicate WindowSafe(outer: SelectQuery, inner: SelectQuery) {
    outer.distinct ==> Unlimited(inner)
  }

  function CteRow(q: SelectQuery, rec: Record): Env {
    [Binding(q.SourceName(), rec)]
  }

  lemma InlineOneItem(g: Engine, outer: SelectQuery, p: Projection, inner: seq<Projection>, u: Unit)
    requires NamedItems(inner) && NoDuplicates(OutputNames(inner)) && "*" !in OutputNames(inner)
    requires InlineItem(p, inner).Some? && (p.Column? ==> InScope(outer, p.column))
    ensures ItemFields(g, p, [CteRow(outer, Project(g, inner, u))]) == Project(g, InlineItem(p, inner).value, u)
  {
    var rec := Project(g, inner, u);
    StarNotFound(inner);
    if p == Star(None) {
      assert StarFields(CteRow(outer, rec)) == rec + [];
    } else if p.Column? {
      ReadItem(g, inner, p.column.name, u);
      ColumnOfRow(outer, p.column, rec);
    }
  }

  lemma {:induction false} StarNotFound(ps: seq<Projection>)
    requires NamedItems(ps) && "*" !in OutputNames(ps)
    ensures FindItem(ps, "*").None?
  {
    if ps != [] {
      assert OutputNames(ps)[0] != "*" && ps[0] in ps;
      assert OutputNames(ps[1..]) == OutputNames(ps)[1..];
      StarNotFound(ps[1..]);
    }
  }

  lemma {:induction false} InlineAllItems(g: Engine, outer: SelectQuery, ps: seq<Projection>, inner: seq<Projection>,
    u: Unit)
    requires NamedItems(inner) && NoDuplicates(OutputNames(inner)) && "*" !in OutputNames(inner)
    requires InlineItems(ps, inner).Some? && forall p :: p in ps && p.Column? ==> InScope(outer, p.column)
    ensures Project(g, ps, [CteRow(outer, Project(g, inner, u))]) == Project(g, InlineItems(ps, inner).value, u)
  {
    if ps != [] {
      InlineOneItem(g, outer, ps[0], inner, u);
      InlineAllItems(g, outer, ps[1..], inner, u);
      ProjectAppend(g, InlineItem(ps[0], inner).value, InlineItems(ps[1..], inner).value, u);
    }
  }

  lemma StarFieldsOne(relation: string, rec: Record)
    ensures StarFields([Binding(relation, rec)]) == rec
  {
    assert [Binding(relation, rec)][1..] == [] && rec + [] == rec;
  }

  lemma ItemNamesSame(g: Engine, outer: SelectQuery, p: Projection, a: Record, b: Record)
    requires Names(a) == Names(b) && !p.Computed?
    ensures Names(ItemFields(g, p, [CteRow(outer, a)])) == Names(ItemFields(g, p, [CteRow(outer, b)]))
  {
    var x, y := CteRow(outer, a), CteRow(outer, b);
    StarFieldsOne(outer.SourceName(), a);
    StarFieldsOne(outer.SourceName(), b);
    match p
    case Column(c, _) =>
      assert ItemFields(g, p, [x]) == [Field(p.OutputName(), Lookup(x, c))];
      assert ItemFields(g, p, [y]) == [Field(p.OutputName(), Lookup(y, c))];
    case Star(t) =>
  }

  /** Column names of a projection depend only on the column names it reads. */
  lemma {:induction false} ProjectNames(g: Engine, outer: SelectQuery, ps: seq<Projection>, a: Record, b: Record)
    requires Names(a) == Names(b) && forall p :: p in ps ==> ReferenceName(p).Some?
    ensures Names(Project(g, ps, [CteRow(outer, a)])) == Names(Project(g, ps, [CteRow(outer, b)]))
  {
    if ps != [] {
      ProjectNames(g, outer, ps[1..], a, b);
      assert ReferenceName(ps[0]).Some?;
      ItemNamesSame(g, outer, ps[0], a, b);
      NamesOfAppend(ItemFields(g, ps[0], [CteRow(outer, a)]), Project(g, ps[1..], [CteRow(outer, a)]));
      NamesOfAppend(ItemFields(g, ps[0], [CteRow(outer, b)]), Project(g, ps[1..], [CteRow(outer, b)]));
    }
  }

  lemma NamesOfAppend(a: Record, b: Record)
    ensures Names(a + b) == Names(a) + Names(b)
  {
  }

  function AsCteRow(g: Engine, outer: SelectQuery, inner: seq<Projection>): Env -> Env {
    x => CteRow(outer, Project(g, inner, [x]))
  }

  /** The rows of a bare, row-level query, one for each row of its source. */
  lemma BareRows(w: World, q: SelectQuery)
    requires BareSelect(q) && !q.HasAggregate()
    ensures var rs := Map(RowRecord(w, q.projections), FromRows(w, q));
            Eval(w, q).rows == Window(None, q.offset, if q.distinct then Dedup(rs) else rs)
  {
    FilterAll(WhereHolds(w, q.predicates), FromRows(w, q));
    assert RowLevel(q);
    RowLevelRecords(w, q, FromRows(w, q));
  }

  lemma WindowAll<T>(offset: Option<nat>, s: seq<T>)
    requires offset.None? || offset == Some(0)
    ensures Window(None, offset, s) == s
  {
    assert s[0..] == s;
  }

  lemma WindowMap<T, U>(f: T -> U, offset: Option<nat>, s: seq<T>)
    ensures Map(f, Window(None, offset, s)) == Window(None, offset, Map(f, s))
  {
  }

  lemma {:induction false} NoAggregateInlined(ps: seq<Projection>, inner: seq<Projection>)
    requires InlineItems(ps, inner).Some? && !AnyAggregate(inner)
    ensures !AnyAggregate(InlineItems(ps, inner).value)
  {
    if ps != [] {
      NoAggregateInlined(ps[1..], inner);
      forall p | p in InlineItem(ps[0], inner).value ensures !p.IsAggregate() {
        if ps[0] != Star(None) {
          FoundIn(inner, ReferenceName(ps[0]).value);
        }
      }
    }
  }

  lemma {:induction false} FoundIn(ps: seq<Projection>, name: string)
    ensures FindItem(ps, name).Some? ==> FindItem(ps, name).value in ps
  {
    if ps != [] {
      FoundIn(ps[1..], name);
    }
  }

  lemma OuterRows(w: World, outer: SelectQuery, inner: SelectQuery)
    requires PlainOuter(outer) && outer.joins == [] && PlainInner(inner)
    requires TableRelation(w, outer.table.value) == Eval(w, inner)
    ensures FromRows(w, outer) ==
            Map(AsCteRow(w.engine, outer, inner.projections), Window(None, inner.offset, FromRows(w, inner)))
  {
    BareRows(w, inner);
    SingleTableRows(w, outer);
    WindowMap(RowRecord(w, inner.projections), inner.offset, FromRows(w, inner));
  }

  lemma InlinedRecords(w: World, outer: SelectQuery, inner: SelectQuery, xs: seq<Env>)
    requires PlainOuter(outer) && PlainInner(inner) && InlineItems(outer.projections, inner.projections).Some?
    ensures Map(RowRecord(w, outer.projections), Map(AsCteRow(w.engine, outer, inner.projections), xs))
         == Map(RowRecord(w, InlineItems(outer.projections, inner.projections).value), xs)
  {
    forall i | 0 <= i < |xs|
      ensures RowRecord(w, outer.projections)(AsCteRow(w.engine, outer, inner.projections)(xs[i]))
           == RowRecord(w, InlineItems(outer.projections, inner.projections).value)(xs[i])
    {
      InlineAllItems(w.engine, outer, outer.projections, inner.projections, [xs[i]]);
    }
  }

  lemma InlinedShape(outer: SelectQuery, inner: SelectQuery)
    requires ProjectionPassThrough(outer) && PlainInner(inner)
    requires InlineItems(outer.projections, inner.projections).Some?
    ensures var r := Inlined(outer, inner);
            && r == inner.(projections := InlineItems(outer.projections, inner.projections).value,
                           distinct := outer.distinct)
            && BareSelect(r) && !r.HasAggregate() && !outer.HasAggregate()
  {
    NoAggregateInlined(outer.projections, inner.projections);
  }

  /** Inlining a projection CTE keeps columns and rows. */
  lemma InlineSound(w: World, outer: SelectQuery, inner: SelectQuery)
    requires ProjectionPassThrough(outer) && PlainOuter(outer) && PlainInner(inner) && WindowSafe(outer, inner)
    requires TableRelation(w, outer.table.value) == Eval(w, inner)
    ensures Eval(w, Inlined(outer, inner)) == Eval(w, outer)
  {
    if InlineItems(outer.projections, inner.projections).Some? {
      InlineRows(w, outer, inner);
      InlineColumns(w, outer, inner);
    }
  }

  lemma InlineRows(w: World, outer: SelectQuery, inner: SelectQuery)
    requires ProjectionPassThrough(outer) && PlainOuter(outer) && PlainInner(inner) && WindowSafe(outer, inner)
    requires TableRelation(w, outer.table.value) == Eval(w, inner)
    requires InlineItems(outer.projections, inner.projections).Some?
    ensures Eval(w, Inlined(outer, inner)).rows == Eval(w, outer).rows
  {
    hide Eval;
    hide FromRows;
    hide Inlined;
    hide InlineItems;
    hide RowRecord;
    var r, envs := Inlined(outer, inner), FromRows(w, inner);
    InlinedShape(outer, inner);
    SameFrom(w, inner, r);
    BareRows(w, r);
    BareRows(w, outer);
    OuterRows(w, outer, inner);
    InlinedRecords(w, outer, inner, Window(None, inner.offset, envs));
    WindowMap(RowRecord(w, r.projections), inner.offset, envs);
    var rs := Map(RowRecord(w, r.projections), envs);
    WindowAll(outer.offset, if outer.distinct then Dedup(Window(None, inner.offset, rs))
      else Window(None, inner.offset, rs));
    if outer.distinct {
      WindowAll(inner.offset, rs);
      WindowAll(inner.offset, Dedup(rs));
    }
  }

  lemma InlineColumns(w: World, outer: SelectQuery, inner: SelectQuery)
    requires ProjectionPassThrough(outer) && PlainOuter(outer) && PlainInner(inner)
    requires TableRelation(w, outer.table.value) == Eval(w, inner)
    requires InlineItems(outer.projections, inner.projections).Some?
    ensures Eval(w, Inlined(outer, inner)).cols == Eval(w, outer).cols
  {
    hide Body;
    hide Finish;
    hide FromRows;
    var r, header := Inlined(outer, inner), [Header(w, inner)];
    var rec := Project(w.engine, inner.projections, header);
    SameFrom(w, inner, r);
    InlineAllItems(w.engine, outer, outer.projections, inner.projections, header);
    assert Names(NullRecord(Names(rec))) == Names(rec);
    ProjectNames(w.engine, outer, outer.projections, rec, NullRecord(Names(rec)));
    assert Header(w, outer) == CteRow(outer, NullRecord(Names(rec)));
  }

  lemma OnlyStar(g: Engine, name: string, rec: Record)
    ensures Project(g, [Star(None)], [[Binding(name, rec)]]) == rec
  {
    StarFieldsOne(name, rec);
    assert [Star(None)][1..] == [] && rec + [] == rec;
  }

  lemma StarRowsSame(w: World, q: SelectQuery)
    requires StarPassThrough(q) && Unlimited(q) && q.table.Some?
    ensures Eval(w, q).rows == TableRelation(w, q.table.value).rows
  {
    hide Eval;
    hide Project;
    var rows := TableRelation(w, q.table.value).rows;
    assert !q.HasAggregate() && q.joins == [];
    BareRows(w, q);
    WindowAll(q.offset, Map(RowRecord(w, q.projections), FromRows(w, q)));
    SingleTableRows(w, q);
    forall i | 0 <= i < |rows| ensures RowRecord(w, q.projections)([Binding(q.SourceName(), rows[i])]) == rows[i] {
      OnlyStar(w.engine, q.SourceName(), rows[i]);
    }
    assert Map(RowRecord(w, q.projections), FromRows(w, q)) == rows;
  }

  lemma StarColumnsSame(w: World, q: SelectQuery)
    requires StarPassThrough(q) && q.table.Some?
    ensures Eval(w, q).cols == TableRelation(w, q.table.value).cols
  {
    hide Body;
    hide Finish;
    hide FromRows;
    var rel := TableRelation(w, q.table.value);
    OnlyStar(w.engine, q.SourceName(), NullRecord(rel.cols));
    assert Header(w, q) == [Binding(q.SourceName(), NullRecord(rel.cols))];
    assert Names(NullRecord(rel.cols)) == rel.cols;
  }

  /** SELECT * FROM a relation is that relation. */
  lemma StarSound(w: World, q: SelectQuery)
    requires StarPassThrough(q) && Unlimited(q) && q.table.Some?
    ensures Eval(w, q) == TableRelation(w, q.table.value)
  {
    hide Eval;
    StarRowsSame(w, q);
    StarColumnsSame(w, q);
  }

  /** What the chain takes for granted, step by step. */
  predicate ChainLimits(q: SelectQuery, ctes: map<string, SelectQuery>, seen: set<string>)
    decreases |ctes.Keys - seen|
  {
    if !ReadsCte(q, ctes) || q.table.value in seen || !PassesThrough(q) then true
    else
      var name := q.table.value;
      assert ctes.Keys - (seen + {name}) == ctes.Keys - seen - {name};
      var resolved := Resolve(ctes[name], ctes, seen + {name});
      && Unlimited(q)
      && ChainLimits(ctes[name], ctes, seen + {name})
      && (!StarPassThrough(q) && resolved.Resolved? ==>
            PlainOuter(q) && (SimpleProjection(resolved.value) ==>
              PlainInner(resolved.value) && WindowSafe(q, resolved.value)))
  }

  predicate SameMeaning(w: World, q: SelectQuery, r: SelectQuery) {
    Eval(w, q) == Eval(w, r)
  }

  /** One step of the chain: the body stands for the CTE name, and `resolved` means what the body means. */
  lemma ChainStep(w: World, q: SelectQuery, resolved: SelectQuery)
    requires PassesThrough(q) && q.table.Some? && Unlimited(q)
    requires TableRelation(w, q.table.value) == Eval(w, resolved)
    requires !StarPassThrough(q) ==>
               PlainOuter(q) && (SimpleProjection(resolved) ==> PlainInner(resolved) && WindowSafe(q, resolved))
    ensures SameMeaning(w, if StarPassThrough(q) then resolved else Inlined(q, resolved), q)
  {
    if StarPassThrough(q) {
      StarSound(w, q);
    } else if SimpleProjection(resolved) {
      InlineSound(w, q, resolved);
    }
  }

  predicate Follows(q: SelectQuery, ctes: map<string, SelectQuery>, seen: set<string>) {
    ReadsCte(q, ctes) && q.table.value !in seen && PassesThrough(q)
  }

  /** What the chain resolves to below `q`. */
  function Below(q: SelectQuery, ctes: map<string, SelectQuery>, seen: set<string>): Scoped<SelectQuery>
    requires ReadsCte(q, ctes)
  {
    Resolve(ctes[q.table.value], ctes, seen + {q.table.value})
  }

  /** The chain from `q` on is within limits and resolves to `r`. */
  predicate ResolvesTo(q: SelectQuery, ctes: map<string, SelectQuery>, seen: set<string>, r: SelectQuery) {
    ChainLimits(q, ctes, seen) && Resolve(q, ctes, seen) == Resolved(r)
  }

  /** Below a query that passes its CTE on, the chain resolves to something whose meaning decides that of `r`. */
  lemma FollowedStep(w: World, q: SelectQuery, ctes: map<string, SelectQuery>, seen: set<string>, r: SelectQuery)
    returns (below: SelectQuery)
    requires ReadsCte(q, ctes)
    ensures Follows(q, ctes, seen) && ResolvesTo(q, ctes, seen, r) ==>
              && ResolvesTo(ctes[q.table.value], ctes, seen + {q.table.value}, below)
              && |ctes.Keys - (seen + {q.table.value})| < |ctes.Keys - seen|
              && (TableRelation(w, q.table.value) == Eval(w, below) ==> SameMeaning(w, r, q))
  {
    hide Eval;
    below := q;
    if Follows(q, ctes, seen) && ResolvesTo(q, ctes, seen, r) {
      var name := q.table.value;
      assert ctes.Keys - (seen + {name}) == ctes.Keys - seen - {name};
      below := Below(q, ctes, seen).value;
      if TableRelation(w, name) == Eval(w, below) {
        ChainStep(w, q, below);
      }
    }
  }

  lemma NameMeans(w: World, ctes: map<string, SelectQuery>, name: string, r: SelectQuery)
    requires name in ctes
    ensures Consistent(w, ctes) && SameMeaning(w, r, ctes[name]) ==> TableRelation(w, name) == Eval(w, r)
  {
    if Consistent(w, ctes) {
      assert StandsFor(w, name, ctes[name]);
    }
  }

  /** Following a chain of any length keeps columns and rows. */
  lemma {:induction false} ResolveSound(
    w: World, q: SelectQuery, ctes: map<string, SelectQuery>, seen: set<string>, r: SelectQuery)
    ensures Consistent(w, ctes) && ResolvesTo(q, ctes, seen, r) ==> SameMeaning(w, r, q)
    decreases |ctes.Keys - seen|
  {
    if Follows(q, ctes, seen) && ResolvesTo(q, ctes, seen, r) {
      var below := FollowedStep(w, q, ctes, seen, r);
      ResolveSound(w, ctes[q.table.value], ctes, seen + {q.table.value}, below);
      NameMeans(w, ctes, q.table.value, below);
    } else if ResolvesTo(q, ctes, seen, r) {
      assert r == q;
    }
  }

  /** The query that replaces a WITH statement returns, in the scope of its CTEs, what the statement returns. */
  lemma ResolveStatementSound(w: World, s: Statement)
    requires ScopeOf(s.ctes).Resolved? && NoNestedWith(s.ctes) && DefinedBeforeUse(s.ctes)
    requires ChainLimits(s.outer, ScopeOf(s.ctes).value, {}) && Resolve(s.outer, ScopeOf(s.ctes).value, {}).Resolved?
    ensures Eval(Bound(w, s.ctes), Resolve(s.outer, ScopeOf(s.ctes).value, {}).value) == EvalStatement(w, s)
  {
    ScopeIsBodies(s.ctes);
    BoundIsConsistent(w, s.ctes);
    ResolveSound(Bound(w, s.ctes), s.outer, ScopeOf(s.ctes).value, {},
      Resolve(s.outer, ScopeOf(s.ctes).value, {}).value);
  }
}
