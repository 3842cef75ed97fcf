/** A query whose CTE sources are replaced by the tables behind them returns the same relation. */
module FragmentSources {
  import opened Ir
  import opened Lists
  import opened Semantics
  import opened Pipeline
  import opened TableRows
  import opened Statements
  import opened Ctes
  import opened CteSources
  import opened Fragments
  import opened Reading
  import Pushdown

  // ----- what a query reads of a source

  function JoinReads(j: Join): Reads {
    AllReads(EqualityReads, j.Conditions())
  }

  /** Everything that the query reads; HAVING may read everything. */
  function QueryReads(q: SelectQuery): Reads {
    BodyReads(q) + AllReads(OrderReads, OrderItems(q)) + AllReads(JoinReads, q.joins)
    + if q.having == [] then {} else {OfRow}
  }

  /** The columns that may be those of the relation. */
  function NamesRead(rs: Reads, relation: string): set<string> {
    set rd | rd in rs && rd.OfColumn? && (rd.column.table.None? || rd.column.table == Some(relation)) :: rd.column.name
  }

  predicate ByName(rd: Read, relation: string, alone: bool) {
    match rd
    case OfColumn(c) => c.table.Some? || alone
    case OfCode(code) => !code.MayReference(relation)
    case OfRelation(t) => t != relation
    case OfAll => false
    case OfRow => false
  }

  /** The relation is read column by column only; unqualified columns are its own when it stands alone. */
  predicate ReadByName(rs: Reads, relation: string, alone: bool) {
    forall rd :: rd in rs ==> ByName(rd, relation, alone)
  }

  /** A CTE that is read through to a table selects everything on the way, or every column that is read. */
  predicate ReadsThrough(name: string, relation: string, rs: Reads, alone: bool, scope: map<string, SelectQuery>) {
    name in scope && PassThrough(name, scope, {}).Resolved? ==>
      || StarChain(name, scope, {})
      || (ReadByName(rs, relation, alone) && ChainKeeps(name, scope, {}, NamesRead(rs, relation)))
  }

  predicate SourcesReadable(q: SelectQuery, scope: map<string, SelectQuery>) {
    && (q.table.Some? ==> ReadsThrough(q.table.value, q.SourceName(), QueryReads(q), q.joins == [], scope))
    && forall j :: j in q.joins && j.subquery.None? ==>
      ReadsThrough(j.table, j.RelationName(), QueryReads(q), false, scope)
  }

  // ----- records and rows that carry what is read

  predicate RecordsAlike(rs: Reads, alone: bool, relation: string, a: Record, b: Record) {
    a == b || (ReadByName(rs, relation, alone) && RowCarries(a, b, NamesRead(rs, relation)))
  }

  predicate BindingsAlike(rs: Reads, alone: bool, a: Binding, b: Binding) {
    a.relation == b.relation && RecordsAlike(rs, alone, a.relation, a.record, b.record)
  }

  predicate EnvsAlike(rs: Reads, alone: bool, x: Env, y: Env) {
    |x| == |y| && (alone ==> |x| <= 1) && forall i :: 0 <= i < |x| ==> BindingsAlike(rs, alone, x[i], y[i])
  }

  lemma {:induction false} QualifiedAlike(rs: Reads, alone: bool, x: Env, y: Env, c: ColName)
    requires EnvsAlike(rs, alone, x, y) && OfColumn(c) in rs && c.table.Some?
    ensures Lookup(x, c) == Lookup(y, c)
  {
    if x != [] {
      assert BindingsAlike(rs, alone, x[0], y[0]);
      if IsNamedBy(x[0], c) {
        assert x[0].record != y[0].record ==> c.name in NamesRead(rs, x[0].relation);
      } else {
        QualifiedAlike(rs, alone, x[1..], y[1..], c);
      }
    }
  }

  /** Where a column without qualifier, a star or opaque SQL may read everything, nothing differs. */
  lemma SeesAll(rs: Reads, alone: bool, x: Env, y: Env, rd: Read)
    requires EnvsAlike(rs, alone, x, y) && rd in rs
    requires rd.OfAll? || rd.OfRow? || (rd.OfCode? && rd.code.Unqualified()) ||
             (rd.OfColumn? && rd.column.table.None? && !alone)
    ensures x == y
  {
    forall i | 0 <= i < |x| ensures x[i] == y[i] {
      assert BindingsAlike(rs, alone, x[i], y[i]);
      assert x[i].record != y[i].record ==> ByName(rd, x[i].relation, alone);
    }
  }

  lemma UnqualifiedAlike(rs: Reads, x: Env, y: Env, c: ColName)
    requires EnvsAlike(rs, true, x, y) && OfColumn(c) in rs && c.table.None?
    ensures Lookup(x, c) == Lookup(y, c)
  {
    if x != [] {
      var a, b := x[0], y[0];
      assert x == [a] && y == [b] && BindingsAlike(rs, true, a, b);
      assert a.record != b.record ==> c.name in NamesRead(rs, a.relation);
      ReadAlone(a, c);
      ReadAlone(b, c);
    }
  }

  lemma ReadAlone(b: Binding, c: ColName)
    requires c.table.None?
    ensures Lookup([b], c) == Get(b.record, c.name)
  {
    if !HasField(b.record, c.name) {
      GetMissing(b.record, c.name);
    }
  }

  lemma {:induction false} MentionedAlike(rs: Reads, alone: bool, x: Env, y: Env, code: OpaqueSql)
    requires EnvsAlike(rs, alone, x, y) && OfCode(code) in rs
    ensures Filter(Mentioned(code.tables), x) == Filter(Mentioned(code.tables), y)
  {
    if x != [] {
      assert BindingsAlike(rs, alone, x[0], y[0]);
      assert x[0].record != y[0].record ==> ByName(OfCode(code), x[0].relation, alone);
      MentionedAlike(rs, alone, x[1..], y[1..], code);
    }
  }

  lemma {:induction false} FieldsAlike(rs: Reads, alone: bool, x: Env, y: Env, t: string)
    requires EnvsAlike(rs, alone, x, y) && OfRelation(t) in rs
    ensures RelationFields(x, t) == RelationFields(y, t)
  {
    if x != [] {
      assert BindingsAlike(rs, alone, x[0], y[0]);
      assert x[0].record != y[0].record ==> ByName(OfRelation(t), x[0].relation, alone);
      FieldsAlike(rs, alone, x[1..], y[1..], t);
    }
  }

  /** Rows that carry what is read look alike to what reads them. */
  lemma EnvsLookAlike(rs: Reads, alone: bool, x: Env, y: Env)
    requires EnvsAlike(rs, alone, x, y)
    ensures Alike(rs, x, y)
  {
    hide EnvsAlike;
    forall rd | rd in rs ensures ReadAlike(rd, x, y) {
      match rd
      case OfColumn(c) =>
        if c.table.Some? { QualifiedAlike(rs, alone, x, y, c); }
        else if alone { UnqualifiedAlike(rs, x, y, c); }
        else { SeesAll(rs, alone, x, y, rd); }
      case OfCode(code) =>
        if code.Unqualified() {
          SeesAll(rs, alone, x, y, rd);
        } else {
          MentionedAlike(rs, alone, x, y, code);
        }
      case OfRelation(t) => FieldsAlike(rs, alone, x, y, t);
      case OfAll => SeesAll(rs, alone, x, y, rd);
      case OfRow => SeesAll(rs, alone, x, y, rd);
    }
  }

  // ----- FROM

  predicate RowsPaired(rs: Reads, alone: bool, xs: seq<Env>, ys: seq<Env>) {
    |xs| == |ys| && forall i :: 0 <= i < |xs| ==> EnvsAlike(rs, alone, xs[i], ys[i])
  }

  /** One relation may stand for the other under the name. */
  predicate StandsIn(rs: Reads, alone: bool, relation: string, a: Relation, b: Relation) {
    a == b || (ReadByName(rs, relation, alone) && Carries(a, b, NamesRead(rs, relation)))
  }

  lemma PairedTail(rs: Reads, alone: bool, xs: seq<Env>, ys: seq<Env>)
    requires RowsPaired(rs, alone, xs, ys) && xs != []
    ensures ys != [] && EnvsAlike(rs, alone, xs[0], ys[0]) && RowsPaired(rs, alone, xs[1..], ys[1..])
  {
    hide EnvsAlike;
  }

  lemma PairedOne(rs: Reads, alone: bool, x: Env, y: Env)
    requires EnvsAlike(rs, alone, x, y)
    ensures RowsPaired(rs, alone, [x], [y]) && RowsPaired(rs, alone, [], [])
  {
    hide EnvsAlike;
  }

  lemma {:induction false} PairedFilter(rs: Reads, alone: bool, f: Env -> bool, xs: seq<Env>, ys: seq<Env>)
    requires RowsPaired(rs, alone, xs, ys) && forall i :: 0 <= i < |xs| ==> f(xs[i]) == f(ys[i])
    ensures RowsPaired(rs, alone, Filter(f, xs), Filter(f, ys))
  {
    hide EnvsAlike;
    if xs != [] {
      PairedTail(rs, alone, xs, ys);
      PairedOne(rs, alone, xs[0], ys[0]);
      hide RowsPaired;
      PairedFilter(rs, alone, f, xs[1..], ys[1..]);
      PairedAppend(rs, alone, if f(xs[0]) then [xs[0]] else [], if f(ys[0]) then [ys[0]] else [],
        Filter(f, xs[1..]), Filter(f, ys[1..]));
    }
  }

  lemma PairedAppend(rs: Reads, alone: bool, a: seq<Env>, b: seq<Env>, c: seq<Env>, d: seq<Env>)
    requires RowsPaired(rs, alone, a, b) && RowsPaired(rs, alone, c, d)
    ensures RowsPaired(rs, alone, a + c, b + d)
  {
    hide EnvsAlike;
  }

  lemma ExtendedAlike(rs: Reads, x: Env, y: Env, relation: string, a: Record, b: Record)
    requires EnvsAlike(rs, false, x, y) && RecordsAlike(rs, false, relation, a, b)
    ensures EnvsAlike(rs, false, Extend(x, relation)(a), Extend(y, relation)(b))
  {
    hide RecordsAlike;
    var u, v := x + [Binding(relation, a)], y + [Binding(relation, b)];
    forall i | 0 <= i < |u| ensures BindingsAlike(rs, false, u[i], v[i]) {
      if i < |x| {
        assert BindingsAlike(rs, false, x[i], y[i]);
      }
    }
  }

  lemma RowStandsIn(rs: Reads, alone: bool, relation: string, a: Relation, b: Relation, i: nat)
    requires StandsIn(rs, alone, relation, a, b) && i < |a.rows|
    ensures |a.rows| == |b.rows| && RecordsAlike(rs, alone, relation, a.rows[i], b.rows[i])
  {
    hide RowCarries;
  }

  lemma {:induction false} NullsCarry(cols: seq<string>, c: string)
    ensures Get(NullRecord(cols), c) == Null
  {
    if cols != [] {
      assert NullRecord(cols)[1..] == NullRecord(cols[1..]);
      NullsCarry(cols[1..], c);
    }
  }

  lemma NullsStandIn(rs: Reads, alone: bool, relation: string, a: Relation, b: Relation)
    requires StandsIn(rs, alone, relation, a, b)
    ensures RecordsAlike(rs, alone, relation, NullRecord(a.cols), NullRecord(b.cols))
  {
    if a != b {
      forall c | c in NamesRead(rs, relation) ensures Get(NullRecord(a.cols), c) == Get(NullRecord(b.cols), c) {
        NullsCarry(a.cols, c);
        NullsCarry(b.cols, c);
      }
    }
  }

  predicate SameJoin(j: Join, k: Join) {
    j.RelationName() == k.RelationName() && j.joinType == k.joinType && j.Conditions() == k.Conditions()
  }

  lemma MatchesPaired(g: Engine, rs: Reads, j: Join, k: Join, a: Relation, b: Relation, x: Env, y: Env)
    requires EnvsAlike(rs, false, x, y) && SameJoin(j, k) && JoinReads(j) <= rs
    requires StandsIn(rs, false, j.RelationName(), a, b)
    ensures RowsPaired(rs, false, Matches(g, j, a, x), Matches(g, k, b, y))
  {
    hide EnvsAlike;
    hide StandsIn;
    hide Alike;
    var us, vs := Map(Extend(x, j.RelationName()), a.rows), Map(Extend(y, k.RelationName()), b.rows);
    var f := OnHolds(g, j.Conditions());
    CountStandsIn(rs, false, j.RelationName(), a, b);
    forall i | 0 <= i < |us| ensures EnvsAlike(rs, false, us[i], vs[i]) && f(us[i]) == f(vs[i]) {
      RowStandsIn(rs, false, j.RelationName(), a, b, i);
      ExtendedAlike(rs, x, y, j.RelationName(), a.rows[i], b.rows[i]);
      EnvsLookAlike(rs, false, us[i], vs[i]);
      OnAlike(g, rs, j.Conditions(), us[i], vs[i]);
    }
    PairedFilter(rs, false, f, us, vs);
  }

  lemma CountStandsIn(rs: Reads, alone: bool, relation: string, a: Relation, b: Relation)
    requires StandsIn(rs, alone, relation, a, b)
    ensures |a.rows| == |b.rows|
  {
  }

  lemma JoinRowPaired(g: Engine, rs: Reads, j: Join, k: Join, a: Relation, b: Relation, x: Env, y: Env)
    requires EnvsAlike(rs, false, x, y) && SameJoin(j, k) && JoinReads(j) <= rs
    requires StandsIn(rs, false, j.RelationName(), a, b)
    ensures RowsPaired(rs, false, JoinRow(g, j, a)(x), JoinRow(g, k, b)(y))
  {
    hide EnvsAlike;
    hide StandsIn;
    hide Matches;
    MatchesPaired(g, rs, j, k, a, b, x, y);
    NullsStandIn(rs, false, j.RelationName(), a, b);
    ExtendedAlike(rs, x, y, j.RelationName(), NullRecord(a.cols), NullRecord(b.cols));
  }

  lemma {:induction false} FlatMapPaired(g: Engine, rs: Reads, j: Join, k: Join, a: Relation, b: Relation, xs: seq<Env>,
    ys: seq<Env>)
    requires RowsPaired(rs, false, xs, ys) && SameJoin(j, k) && JoinReads(j) <= rs
    requires StandsIn(rs, false, j.RelationName(), a, b)
    ensures RowsPaired(rs, false, FlatMap(JoinRow(g, j, a), xs), FlatMap(JoinRow(g, k, b), ys))
  {
    hide EnvsAlike;
    hide StandsIn;
    hide JoinRow;
    if xs != [] {
      assert EnvsAlike(rs, false, xs[0], ys[0]);
      JoinRowPaired(g, rs, j, k, a, b, xs[0], ys[0]);
      FlatMapPaired(g, rs, j, k, a, b, xs[1..], ys[1..]);
      PairedAppend(rs, false, JoinRow(g, j, a)(xs[0]), JoinRow(g, k, b)(ys[0]), FlatMap(JoinRow(g, j, a), xs[1..]),
        FlatMap(JoinRow(g, k, b), ys[1..]));
    }
  }

  predicate JoinStandsIn(rs: Reads, j: Join, k: Join, a: Relation, b: Relation) {
    SameJoin(j, k) && JoinReads(j) <= rs && StandsIn(rs, false, j.RelationName(), a, b)
  }

  predicate JoinsStandIn(rs: Reads, js: seq<Join>, ks: seq<Join>, a: seq<Relation>, b: seq<Relation>) {
    |js| == |ks| == |a| == |b| && forall i :: 0 <= i < |js| ==> JoinStandsIn(rs, js[i], ks[i], a[i], b[i])
  }

  /** Joining relations that stand in for others gives rows that carry what is read. */
  lemma {:induction false} JoinRowsPaired(
    g: Engine, rs: Reads, xs: seq<Env>, ys: seq<Env>, js: seq<Join>, ks: seq<Join>, a: seq<Relation>, b: seq<Relation>)
    requires RowsPaired(rs, false, xs, ys) && JoinsStandIn(rs, js, ks, a, b)
    ensures RowsPaired(rs, false, JoinRows(g, xs, js, a), JoinRows(g, ys, ks, b))
    decreases |js|
  {
    hide RowsPaired;
    hide JoinRow;
    if js != [] {
      assert JoinStandsIn(rs, js[0], ks[0], a[0], b[0]);
      FlatMapPaired(g, rs, js[0], ks[0], a[0], b[0], xs, ys);
      JoinRowsPaired(g, rs, FlatMap(JoinRow(g, js[0], a[0]), xs), FlatMap(JoinRow(g, ks[0], b[0]), ys), js[1..],
        ks[1..], a[1..], b[1..]);
    }
  }

  lemma {:induction false} HeadersPaired(rs: Reads, js: seq<Join>, ks: seq<Join>, a: seq<Relation>, b: seq<Relation>)
    requires JoinsStandIn(rs, js, ks, a, b)
    ensures EnvsAlike(rs, false, JoinHeader(js, a), JoinHeader(ks, b))
  {
    hide StandsIn;
    hide RecordsAlike;
    if js != [] {
      assert JoinStandsIn(rs, js[0], ks[0], a[0], b[0]);
      NullsStandIn(rs, false, js[0].RelationName(), a[0], b[0]);
      HeadersPaired(rs, js[1..], ks[1..], a[1..], b[1..]);
    }
  }

  // ----- the sources that are read

  predicate SourceKept(w: World, rs: Reads, alone: bool, name: string, alias: Option<string>,
    scope: map<string, SelectQuery>) {
    ReadSource(name, alias, scope).Resolved? ==>
      var source := ReadSource(name, alias, scope).value;
      && source.alias.GetOr(source.table) == alias.GetOr(name)
      && StandsIn(rs, alone, alias.GetOr(name), TableRelation(w, name), TableRelation(w, source.table))
  }

  lemma SourceMeans(w: World, rs: Reads, alone: bool, name: string, alias: Option<string>,
    scope: map<string, SelectQuery>)
    requires Consistent(w, scope) && ReadsThrough(name, alias.GetOr(name), rs, alone, scope)
    ensures SourceKept(w, rs, alone, name, alias, scope)
  {
    hide Eval;
    hide Consistent;
    hide Carries;
    if name in scope && PassThrough(name, scope, {}).Resolved? {
      if StarChain(name, scope, {}) {
        StarChainSame(w, name, scope);
      } else {
        ChainCarries(w, name, scope, NamesRead(rs, alias.GetOr(name)));
      }
    }
  }

  predicate JoinKept(w: World, rs: Reads, j: Join, scope: map<string, SelectQuery>) {
    ReadJoin(j, scope).Resolved? ==>
      var k := ReadJoin(j, scope).value;
      SameJoin(j, k) && StandsIn(rs, false, j.RelationName(), JoinRelation(w, j), JoinRelation(w, k))
  }

  lemma JoinMeans(w: World, rs: Reads, j: Join, scope: map<string, SelectQuery>)
    requires j.subquery.None? ==> SourceKept(w, rs, false, j.table, j.alias, scope)
    ensures JoinKept(w, rs, j, scope)
  {
    hide Eval;
    hide ReadByName;
    hide Carries;
  }

  lemma JoinsCons(rs: Reads, j: Join, k: Join, x: Relation, y: Relation, js: seq<Join>, ks: seq<Join>, a: seq<Relation>,
    b: seq<Relation>)
    requires JoinStandsIn(rs, j, k, x, y) && JoinsStandIn(rs, js, ks, a, b)
    ensures JoinsStandIn(rs, [j] + js, [k] + ks, [x] + a, [y] + b)
  {
    hide JoinStandsIn;
  }

  lemma JoinStep(w: World, rs: Reads, j: Join, scope: map<string, SelectQuery>)
    requires JoinKept(w, rs, j, scope) && JoinReads(j) <= rs && ReadJoin(j, scope).Resolved?
    ensures JoinStandsIn(rs, j, ReadJoin(j, scope).value, JoinRelation(w, j), JoinRelation(w, ReadJoin(j, scope).value))
  {
    hide StandsIn;
    hide ReadJoin;
    hide JoinRelation;
  }

  lemma {:induction false} JoinsMean(w: World, rs: Reads, joins: seq<Join>, scope: map<string, SelectQuery>)
    requires ReadJoins(joins, scope).Resolved? && forall j :: j in joins ==>
      JoinKept(w, rs, j, scope) && JoinReads(j) <= rs
    ensures var read := ReadJoins(joins, scope).value;
            JoinsStandIn(rs, joins, read, JoinRelations(w, joins), JoinRelations(w, read))
  {
    hide JoinStandsIn;
    hide JoinRelation;
    hide JoinReads;
    hide JoinKept;
    hide ReadJoin;
    if joins != [] {
      JoinsMean(w, rs, joins[1..], scope);
      assert joins[0] in joins;
      JoinStep(w, rs, joins[0], scope);
      var rest := ReadJoins(joins[1..], scope).value;
      var k := ReadJoin(joins[0], scope).value;
      JoinsCons(rs, joins[0], k, JoinRelation(w, joins[0]), JoinRelation(w, k), joins[1..], rest,
        JoinRelations(w, joins[1..]),
        JoinRelations(w, rest));
      assert joins == [joins[0]] + joins[1..] && ReadJoins(joins, scope).value == [k] + rest;
      assert ([k] + rest)[1..] == rest;
    }
  }

  lemma JoinReadsIn(q: SelectQuery)
    ensures forall j :: j in q.joins ==> JoinReads(j) <= QueryReads(q)
  {
    hide JoinReads;
    forall j | j in q.joins ensures JoinReads(j) <= QueryReads(q) {
      InAllReads(JoinReads, q.joins, j);
    }
  }

  lemma JoinsKept(w: World, q: SelectQuery, scope: map<string, SelectQuery>)
    requires Consistent(w, scope) && SourcesReadable(q, scope) && ReadSources(q, scope).Resolved?
    ensures var r := ReadSources(q, scope).value;
            JoinsStandIn(QueryReads(q), q.joins, r.joins, JoinRelations(w, q.joins), JoinRelations(w, r.joins))
  {
    hide Eval;
    hide Consistent;
    hide SourceKept;
    hide JoinKept;
    hide QueryReads;
    hide JoinReads;
    forall j | j in q.joins ensures JoinKept(w, QueryReads(q), j, scope) {
      if j.subquery.None? {
        SourceMeans(w, QueryReads(q), false, j.table, j.alias, scope);
      }
      JoinMeans(w, QueryReads(q), j, scope);
    }
    JoinReadsIn(q);
    JoinsMean(w, QueryReads(q), q.joins, scope);
  }

  lemma SourceStandsIn(w: World, q: SelectQuery, scope: map<string, SelectQuery>)
    requires Consistent(w, scope) && SourcesReadable(q, scope) && ReadSources(q, scope).Resolved?
    ensures var r := ReadSources(q, scope).value;
            && StandsIn(QueryReads(q), q.joins == [], q.SourceName(), SourceRelation(w, q), SourceRelation(w, r))
            && r.SourceName() == q.SourceName() && r.HasSource() == q.HasSource()
  {
    hide Eval;
    hide Consistent;
    hide ReadJoins;
    hide ReadSource;
    hide QueryReads;
    hide Carries;
    hide ReadByName;
    if q.table.Some? {
      SourceMeans(w, QueryReads(q), q.joins == [], q.table.value, q.tableAlias, scope);
    }
  }

  lemma BoundPaired(rs: Reads, alone: bool, name: string, a: Relation, b: Relation)
    requires StandsIn(rs, alone, name, a, b)
    ensures RowsPaired(rs, alone, Map(Bind(name), a.rows), Map(Bind(name), b.rows))
    ensures EnvsAlike(rs, alone, [Binding(name, NullRecord(a.cols))], [Binding(name, NullRecord(b.cols))])
  {
    hide RecordsAlike;
    CountStandsIn(rs, alone, name, a, b);
    NullsStandIn(rs, alone, name, a, b);
    forall i | 0 <= i < |a.rows| ensures EnvsAlike(rs, alone, Bind(name)(a.rows[i]), Bind(name)(b.rows[i])) {
      RowStandsIn(rs, alone, name, a, b, i);
    }
  }

  lemma EmptyPaired(rs: Reads, alone: bool)
    ensures RowsPaired(rs, alone, [[]], [[]]) && EnvsAlike(rs, alone, [], [])
  {
  }

  lemma PairedSources(w: World, q: SelectQuery, r: SelectQuery, rs: Reads, alone: bool)
    requires StandsIn(rs, alone, q.SourceName(), SourceRelation(w, q), SourceRelation(w, r))
    requires r.SourceName() == q.SourceName() && r.HasSource() == q.HasSource()
    ensures RowsPaired(rs, alone, SourceRows(q, SourceRelation(w, q)), SourceRows(r, SourceRelation(w, r)))
    ensures EnvsAlike(rs, alone, SourceHeader(w, q), SourceHeader(w, r))
  {
    hide RowsPaired;
    hide EnvsAlike;
    hide StandsIn;
    EmptyPaired(rs, alone);
    if q.HasSource() {
      BoundPaired(rs, alone, q.SourceName(), SourceRelation(w, q), SourceRelation(w, r));
    }
  }

  function SourceHeader(w: World, q: SelectQuery): Env {
    if q.HasSource() then [Binding(q.SourceName(), NullRecord(SourceRelation(w, q).cols))] else []
  }

  lemma AppendedAlike(rs: Reads, a: Env, b: Env, c: Env, d: Env)
    requires EnvsAlike(rs, false, a, b) && EnvsAlike(rs, false, c, d)
    ensures EnvsAlike(rs, false, a + c, b + d)
  {
    hide BindingsAlike;
  }

  /** The rows of FROM carry what the query reads. */
  lemma FromPaired(w: World, q: SelectQuery, scope: map<string, SelectQuery>)
    requires Consistent(w, scope) && SourcesReadable(q, scope) && ReadSources(q, scope).Resolved?
    ensures var r := ReadSources(q, scope).value;
            && RowsPaired(QueryReads(q), q.joins == [], FromRows(w, q), FromRows(w, r))
            && EnvsAlike(QueryReads(q), q.joins == [], Header(w, q), Header(w, r))
  {
    hide Eval;
    hide Consistent;
    hide SourcesReadable;
    hide ReadSources;
    hide QueryReads;
    hide StandsIn;
    hide JoinsStandIn;
    hide RowsPaired;
    hide EnvsAlike;
    hide SourceRows;
    hide SourceRelation;
    hide JoinRows;
    hide JoinHeader;
    var r, rs := ReadSources(q, scope).value, QueryReads(q);
    SourceStandsIn(w, q, scope);
    PairedSources(w, q, r, rs, q.joins == []);
    JoinsKept(w, q, scope);
    JoinCount(rs, q.joins, r.joins, JoinRelations(w, q.joins), JoinRelations(w, r.joins));
    if q.joins == [] {
      NoJoins(w, q);
      NoJoins(w, r);
    } else {
      JoinRowsPaired(w.engine, rs, SourceRows(q, SourceRelation(w, q)), SourceRows(r, SourceRelation(w, r)), q.joins,
        r.joins,
        JoinRelations(w, q.joins), JoinRelations(w, r.joins));
      HeadersPaired(rs, q.joins, r.joins, JoinRelations(w, q.joins), JoinRelations(w, r.joins));
      AppendedAlike(rs, SourceHeader(w, q), SourceHeader(w, r), JoinHeader(q.joins, JoinRelations(w, q.joins)),
        JoinHeader(r.joins, JoinRelations(w, r.joins)));
    }
  }

  lemma JoinCount(rs: Reads, js: seq<Join>, ks: seq<Join>, a: seq<Relation>, b: seq<Relation>)
    requires JoinsStandIn(rs, js, ks, a, b)
    ensures |js| == |ks|
  {
  }

  lemma NoJoins(w: World, q: SelectQuery)
    requires q.joins == []
    ensures FromRows(w, q) == SourceRows(q, SourceRelation(w, q)) && Header(w, q) == SourceHeader(w, q)
  {
    assert SourceHeader(w, q) + [] == SourceHeader(w, q);
  }

  lemma PairedLookAlike(rs: Reads, alone: bool, xs: seq<Env>, ys: seq<Env>)
    requires RowsPaired(rs, alone, xs, ys)
    ensures AllAlike(rs, xs, ys)
  {
    hide EnvsAlike;
    hide Alike;
    forall i | 0 <= i < |xs| ensures Alike(rs, xs[i], ys[i]) {
      EnvsLookAlike(rs, alone, xs[i], ys[i]);
    }
  }

  // ----- the marks of EXISTS

  lemma MarkedWhere(w: World, ps: seq<WherePredicate>, scope: map<string, SelectQuery>, env: Env)
    ensures WhereHolds(w, MarkAll(ps, scope))(env) == WhereHolds(w, ps)(env)
  {
    var marked := MarkAll(ps, scope);
    forall i | 0 <= i < |ps| ensures PredicateTruth(w, marked[i], env) == PredicateTruth(w, ps[i], env) {
    }
    Pushdown.WherePairwise(w, marked, ps, env, env);
  }

  lemma MarkedBody(w: World, q: SelectQuery, r: SelectQuery, scope: map<string, SelectQuery>, envs: seq<Env>)
    requires SameRest(q, r, scope)
    ensures Body(w, r, envs) == Body(w, q, envs)
  {
    forall env | env in envs ensures WhereHolds(w, r.predicates)(env) == WhereHolds(w, q.predicates)(env) {
      MarkedWhere(w, q.predicates, scope, env);
    }
    FilterSame(WhereHolds(w, r.predicates), WhereHolds(w, q.predicates), envs);
  }

  /** Reading the sources changes FROM and the marks of EXISTS only. */
  predicate SameRest(q: SelectQuery, r: SelectQuery, scope: map<string, SelectQuery>) {
    && r.predicates == MarkAll(q.predicates, scope) && r.groupBy == q.groupBy && r.having == q.having
    && r.qualify == q.qualify && r.projections == q.projections && r.distinct == q.distinct
    && r.orderBy == q.orderBy && r.limit == q.limit && r.offset == q.offset
  }

  lemma SourcesShape(q: SelectQuery, scope: map<string, SelectQuery>)
    requires ReadSources(q, scope).Resolved?
    ensures SameRest(q, ReadSources(q, scope).value, scope)
  {
    hide ReadSource;
    hide ReadJoins;
  }

  // ----- a parsed fragment means what its text means

  lemma SeenEverything(rs: Reads, xs: seq<Env>, ys: seq<Env>)
    requires AllAlike(rs, xs, ys) && OfRow in rs
    ensures xs == ys
  {
    forall i | 0 <= i < |xs| ensures xs[i] == ys[i] {
      assert Alike(rs, xs[i], ys[i]) && ReadAlike(OfRow, xs[i], ys[i]);
    }
  }

  lemma {:induction false} SameSorts(items: seq<OrderByItem>, a: seq<OutRow>)
    ensures SortAlike(items, a, a)
  {
  }

  /** Rows of FROM that carry what the query reads give rows that ORDER BY cannot tell apart. */
  lemma AlikeBodies(w: World, q: SelectQuery, xs: seq<Env>, ys: seq<Env>)
    requires AllAlike(QueryReads(q), xs, ys)
    ensures SortAlike(OrderItems(q), Body(w, q, xs), Body(w, q, ys))
  {
    hide Body;
    hide AllAlike;
    hide BodyReads;
    if q.having == [] {
      BodyAlike(w, q, QueryReads(q), xs, ys);
      AlikeSorts(QueryReads(q), OrderItems(q), Body(w, q, xs), Body(w, q, ys));
    } else {
      SeenEverything(QueryReads(q), xs, ys);
      SameSorts(OrderItems(q), Body(w, q, xs));
    }
  }

  /** Pointing a query at the tables behind its CTEs keeps its relation. */
  lemma SourcesMean(w: World, q: SelectQuery, scope: map<string, SelectQuery>)
    requires Consistent(w, scope) && SourcesReadable(q, scope) && ReadSources(q, scope).Resolved?
    ensures Eval(w, ReadSources(q, scope).value) == Eval(w, q)
  {
    hide Eval;
    hide FromRows;
    hide Header;
    hide ReadSources;
    hide SourcesReadable;
    hide Consistent;
    hide SameRest;
    hide RowsPaired;
    hide EnvsAlike;
    hide QueryReads;
    hide Alike;
    hide AllAlike;
    var r := ReadSources(q, scope).value;
    FromPaired(w, q, scope);
    SourcesShape(q, scope);
    PairedLookAlike(QueryReads(q), q.joins == [], FromRows(w, q), FromRows(w, r));
    EnvsLookAlike(QueryReads(q), q.joins == [], Header(w, q), Header(w, r));
    SameRelation(w, q, r, scope);
  }

  lemma HeaderNames(w: World, q: SelectQuery, r: SelectQuery)
    requires Alike(QueryReads(q), Header(w, q), Header(w, r))
    ensures Project(w.engine, q.projections, [Header(w, q)]) == Project(w.engine, q.projections, [Header(w, r)])
  {
    hide Header;
    ProjectAlike(w.engine, QueryReads(q), q.projections, [Header(w, q)], [Header(w, r)]);
  }

  lemma SameRelation(w: World, q: SelectQuery, r: SelectQuery, scope: map<string, SelectQuery>)
    requires SameRest(q, r, scope) && AllAlike(QueryReads(q), FromRows(w, q), FromRows(w, r))
    requires Alike(QueryReads(q), Header(w, q), Header(w, r))
    ensures Eval(w, r) == Eval(w, q)
  {
    hide Body;
    hide FromRows;
    hide Header;
    hide QueryReads;
    AlikeBodies(w, q, FromRows(w, q), FromRows(w, r));
    MarkedBody(w, q, r, scope, FromRows(w, r));
    SortAlikeSameRows(w, q, r);
    HeaderNames(w, q, r);
  }

  predicate ParseLimits(body: Statement, scope: map<string, SelectQuery>) {
    && ChainLimits(body.outer, scope, {})
    && (Resolve(body.outer, scope, {}).Resolved? ==> SourcesReadable(Resolve(body.outer, scope, {}).value, scope))
  }

  /** The parsed fragment returns, with the CTEs before it in scope, what its text returns. */
  lemma ParsedMeans(w: World, body: Statement, scope: map<string, SelectQuery>, q: SelectQuery)
    requires Consistent(w, scope) && ParseLimits(body, scope) && ParseFragment(body, scope) == Resolved(q)
    ensures Eval(w, q) == Eval(w, body.outer)
  {
    hide Eval;
    hide SourcesReadable;
    var resolved := Resolve(body.outer, scope, {}).value;
    ResolveSound(w, body.outer, scope, {}, resolved);
    assert SameMeaning(w, resolved, body.outer);
    SourcesMean(w, resolved, scope);
  }
}
