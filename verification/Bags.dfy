/** Queries that cannot see row order: when the tables they read change only in row order, so does the result. */
module Bags {
  import opened Ir
  import opened Lists
  import opened Semantics
  import opened Pipeline
  import opened Statements

  predicate SameBag(a: Relation, b: Relation) {
    a.cols == b.cols && multiset(a.rows) == multiset(b.rows)
  }

  // ----- lists with equal bags

  lemma FilterBag<T(!new)>(f: T -> bool, s: seq<T>, t: seq<T>)
    requires multiset(s) == multiset(t)
    ensures multiset(Filter(f, s)) == multiset(Filter(f, t))
  {
    forall x ensures multiset(Filter(f, s))[x] == multiset(Filter(f, t))[x] {
      FilterCount(f, s, x);
      FilterCount(f, t, x);
    }
  }

  lemma TakeOut<T>(t: seq<T>, i: nat)
    requires i < |t|
    ensures multiset(t) == multiset{t[i]} + multiset(t[..i] + t[i + 1..])
  {
    assert t == t[..i] + [t[i]] + t[i + 1..];
  }

  lemma FlatMapTakeOut<T(!new), U(!new)>(f: T -> seq<U>, t: seq<T>, i: nat)
    requires i < |t|
    ensures multiset(FlatMap(f, t)) == multiset(f(t[i])) + multiset(FlatMap(f, t[..i] + t[i + 1..]))
  {
    assert t == t[..i] + (t[i..]) && t[i..][1..] == t[i + 1..];
    FlatMapAppend(f, t[..i], t[i..]);
    FlatMapAppend(f, t[..i], t[i + 1..]);
  }

  lemma BagCancels<T>(x: T, a: multiset<T>, b: multiset<T>)
    requires multiset{x} + a == multiset{x} + b
    ensures a == b
  {
    assert a == (multiset{x} + a) - multiset{x} && b == (multiset{x} + b) - multiset{x};
  }

  /** Expanding two lists with equal bags, each element to equal bags, gives equal bags. */
  lemma {:induction false} FlatMapBag<T(!new), U(!new)>(f: T -> seq<U>, g: T -> seq<U>, s: seq<T>, t: seq<T>)
    requires multiset(s) == multiset(t) && forall x :: x in s ==> multiset(f(x)) == multiset(g(x))
    ensures multiset(FlatMap(f, s)) == multiset(FlatMap(g, t))
    decreases |s|
  {
    if s == [] {
      assert |multiset(t)| == 0 && t == [];
    } else {
      assert s == [s[0]] + s[1..];
      assert s[0] in multiset(t) && s[0] in t;
      var i :| 0 <= i < |t| && t[i] == s[0];
      TakeOut(t, i);
      FlatMapTakeOut(g, t, i);
      assert multiset(s) == multiset{s[0]} + multiset(s[1..]);
      var a, b := multiset(s[1..]), multiset(t[..i] + t[i + 1..]);
      BagCancels(s[0], a, b);
      FlatMapBag(f, g, s[1..], t[..i] + t[i + 1..]);
    }
  }

  lemma MapBag<T(!new), U(!new)>(h: T -> U, s: seq<T>, t: seq<T>)
    requires multiset(s) == multiset(t)
    ensures multiset(Map(h, s)) == multiset(Map(h, t))
  {
    var f := (x: T) => [h(x)];
    FlatMapSingle(f, h, s);
    FlatMapSingle(f, h, t);
    FlatMapBag(f, f, s, t);
  }

  lemma {:induction false} DedupCount<T(!new)>(s: seq<T>, x: T)
    ensures multiset(Dedup(s))[x] == if x in s then 1 else 0
    decreases |s|
  {
    if s != [] {
      DedupCount(Filter(Differs(s[0]), s[1..]), x);
    }
  }

  lemma DedupBag<T(!new)>(s: seq<T>, t: seq<T>)
    requires forall x :: x in s <==> x in t
    ensures multiset(Dedup(s)) == multiset(Dedup(t))
  {
    forall x ensures multiset(Dedup(s))[x] == multiset(Dedup(t))[x] {
      DedupCount(s, x);
      DedupCount(t, x);
    }
  }

  lemma SameMembers<T>(s: seq<T>, t: seq<T>)
    requires multiset(s) == multiset(t)
    ensures forall x :: x in s <==> x in t
    ensures s == [] <==> t == []
  {
    forall x ensures x in s <==> x in t {
      assert x in s <==> x in multiset(s);
      assert x in t <==> x in multiset(t);
    }
    assert |s| == |multiset(s)| && |t| == |multiset(t)|;
  }

  // ----- queries

  /** Aggregates and HAVING depend on the bag of rows of a group only, and values are totally ordered. */
  ghost predicate BagEngine(g: Engine) {
    && (forall s: string, u: Unit, v: Unit :: multiset(u) == multiset(v) ==> g.aggregate(s, u) == g.aggregate(s, v))
    && (forall s: string, u: Unit, v: Unit :: multiset(u) == multiset(v) ==> g.having(s, u) == g.having(s, v))
    && TotalOrder(g)
  }

  ghost predicate TotalOrder(g: Engine) {
    && (forall a, b :: a == b || g.less(a, b) || g.less(b, a)) && (forall a, b :: g.less(a, b) ==> !g.less(b, a))
    && (forall a, b, c :: g.less(a, b) && g.less(b, c) ==> g.less(a, c))
  }

  /** COUNT and COUNT(DISTINCT) on any engine; MAX, MIN and opaque aggregates on one that is steady. */
  predicate BlindValue(steady: bool, e: Expr) {
    match e
    case Aggregate(fn, _) => fn.Count? || (steady && !fn.AnyValue?)
    case OpaqueAggregate(_) => steady
    case CountDistinct(_) => true
    case _ => false
  }

  /** A grouped column or such an aggregate: the same for any order of the rows of a group. */
  predicate BlindItem(steady: bool, q: SelectQuery, p: Projection) {
    (p.Column? && ColumnKey(p.column) in q.groupBy) || (p.Computed? && BlindValue(steady, p.expr))
  }

  predicate Grouping(steady: bool, q: SelectQuery) {
    && (q.having == [] || steady) && q.qualify == [] && (q.groupBy != [] || q.Aggregates())
    && forall p :: p in q.projections ==> BlindItem(steady, q, p)
  }

  /** No QUALIFY or row window, and groups only where the order of their rows does not show, here and in derived tables;
      ORDER BY alone has no effect on the bag. */
  predicate OrderBlind(steady: bool, q: SelectQuery) {
    && (RowLevel(q) || Grouping(steady, q)) && Unlimited(q)
    && (q.subquery.Some? ==> OrderBlind(steady, q.subquery.value))
    && forall j :: j in q.joins && j.subquery.Some? ==> OrderBlind(steady, j.subquery.value)
  }

  ghost predicate BagsAgree(v: World, w: World, q: SelectQuery) {
    v.engine == w.engine && forall name :: Mentions(q, name) ==> SameBag(TableRelation(v, name), TableRelation(w, name))
  }

  lemma JoinRowBag(g: Engine, j: Join, a: Relation, b: Relation, env: Env)
    requires SameBag(a, b)
    ensures multiset(JoinRow(g, j, a)(env)) == multiset(JoinRow(g, j, b)(env))
  {
    MapBag(Extend(env, j.RelationName()), a.rows, b.rows);
    var x, y := Map(Extend(env, j.RelationName()), a.rows), Map(Extend(env, j.RelationName()), b.rows);
    FilterBag(OnHolds(g, j.Conditions()), x, y);
    SameMembers(Matches(g, j, a, env), Matches(g, j, b, env));
  }

  predicate PairwiseSame(a: seq<Relation>, b: seq<Relation>) {
    |a| == |b| && forall i :: 0 <= i < |a| ==> SameBag(a[i], b[i])
  }

  lemma {:induction false} JoinRowsBag(g: Engine, s: seq<Env>, t: seq<Env>, joins: seq<Join>, a: seq<Relation>,
    b: seq<Relation>)
    requires |joins| == |a| && PairwiseSame(a, b) && multiset(s) == multiset(t)
    ensures multiset(JoinRows(g, s, joins, a)) == multiset(JoinRows(g, t, joins, b))
    decreases |joins|
  {
    if joins != [] {
      forall x | x in s ensures multiset(JoinRow(g, joins[0], a[0])(x)) == multiset(JoinRow(g, joins[0], b[0])(x)) {
        JoinRowBag(g, joins[0], a[0], b[0], x);
      }
      var f, h := JoinRow(g, joins[0], a[0]), JoinRow(g, joins[0], b[0]);
      FlatMapBag(f, h, s, t);
      JoinRowsBag(g, FlatMap(f, s), FlatMap(h, t), joins[1..], a[1..], b[1..]);
    }
  }

  lemma {:induction false} JoinHeaderSame(joins: seq<Join>, a: seq<Relation>, b: seq<Relation>)
    requires |joins| == |a| && PairwiseSame(a, b)
    ensures JoinHeader(joins, a) == JoinHeader(joins, b)
  {
    if joins != [] {
      assert SameBag(a[0], b[0]);
      JoinHeaderSame(joins[1..], a[1..], b[1..]);
    }
  }

  lemma {:induction false} RelationsSame(v: World, w: World, joins: seq<Join>)
    requires forall j :: j in joins ==> SameBag(JoinRelation(v, j), JoinRelation(w, j))
    ensures PairwiseSame(JoinRelations(v, joins), JoinRelations(w, joins))
  {
    if joins != [] {
      RelationsSame(v, w, joins[1..]);
      var a, b := JoinRelations(v, joins), JoinRelations(w, joins);
      var x, y := JoinRelations(v, joins[1..]), JoinRelations(w, joins[1..]);
      assert SameBag(JoinRelation(v, joins[0]), JoinRelation(w, joins[0]));
      assert a == [JoinRelation(v, joins[0])] + x && b == [JoinRelation(w, joins[0])] + y;
      forall i | 0 <= i < |a| ensures SameBag(a[i], b[i]) {
        if i > 0 {
          assert a[i] == x[i - 1] && b[i] == y[i - 1] && SameBag(x[i - 1], y[i - 1]);
        }
      }
    }
  }

  lemma ExistsBag(v: World, w: World, p: WherePredicate, env: Env)
    requires v.engine == w.engine && (p.Exists? ==> SameBag(TableRelation(v, p.table), TableRelation(w, p.table)))
    ensures PredicateTruth(v, p, env) == PredicateTruth(w, p, env)
  {
    if p.Exists? {
      SameMembers(TableRelation(v, p.table).rows, TableRelation(w, p.table).rows);
    }
  }

  lemma WhereBag(v: World, w: World, q: SelectQuery, env: Env)
    requires BagsAgree(v, w, q)
    ensures WhereHolds(v, q.predicates)(env) == WhereHolds(w, q.predicates)(env)
  {
    forall p | p in q.predicates ensures PredicateTruth(v, p, env) == PredicateTruth(w, p, env) {
      if p.Exists? { assert Mentions(q, p.table); }
      ExistsBag(v, w, p, env);
    }
  }

  /** The rows of FROM have the same bag, and the column names are the same. */
  lemma FromBag(v: World, w: World, q: SelectQuery)
    requires v.engine == w.engine && SameBag(SourceRelation(v, q), SourceRelation(w, q))
    requires forall j :: j in q.joins ==> SameBag(JoinRelation(v, j), JoinRelation(w, j))
    ensures multiset(FromRows(v, q)) == multiset(FromRows(w, q)) && Header(v, q) == Header(w, q)
  {
    RelationsSame(v, w, q.joins);
    JoinHeaderSame(q.joins, JoinRelations(v, q.joins), JoinRelations(w, q.joins));
    if q.HasSource() {
      MapBag(Bind(q.SourceName()), SourceRelation(v, q).rows, SourceRelation(w, q).rows);
    }
    JoinRowsBag(v.engine, SourceRows(q, SourceRelation(v, q)), SourceRows(q, SourceRelation(w, q)), q.joins,
      JoinRelations(v, q.joins), JoinRelations(w, q.joins));
  }

  // ----- groups

  function KeyFn(g: Engine, keys: seq<GroupByKey>): Env -> seq<Value> {
    env => KeyOf(g, keys, env)
  }

  function GroupOf(g: Engine, keys: seq<GroupByKey>, xs: seq<Env>): seq<Value> -> Unit {
    key => Filter(HasKey(g, keys, key), xs)
  }

  lemma OtherKeysGroup(g: Engine, keys: seq<GroupByKey>, xs: seq<Env>, key: seq<Value>)
    requires xs != [] && key != KeyOf(g, keys, xs[0])
    ensures GroupOf(g, keys, Filter(LacksKey(g, keys, KeyOf(g, keys, xs[0])), xs[1..]))(key) ==
      GroupOf(g, keys, xs)(key)
  {
    hide KeyOf;
    FilterBoth(HasKey(g, keys, key), LacksKey(g, keys, KeyOf(g, keys, xs[0])), HasKey(g, keys, key), xs[1..]);
  }

  function KeysOf(g: Engine, keys: seq<GroupByKey>, xs: seq<Env>): seq<seq<Value>> {
    Dedup(Map(KeyFn(g, keys), xs))
  }

  /** The rows that are not of the first row's key. */
  function LaterRows(g: Engine, keys: seq<GroupByKey>, xs: seq<Env>): seq<Env>
    requires xs != []
  {
    Filter(LacksKey(g, keys, KeyOf(g, keys, xs[0])), xs[1..])
  }

  lemma KeysStep(g: Engine, keys: seq<GroupByKey>, xs: seq<Env>)
    requires xs != []
    ensures KeysOf(g, keys, xs) == [KeyOf(g, keys, xs[0])] + KeysOf(g, keys, LaterRows(g, keys, xs))
  {
    hide KeyOf;
    var key := KeyOf(g, keys, xs[0]);
    FilterMap(Differs(key), KeyFn(g, keys), LacksKey(g, keys, key), xs[1..]);
    assert Map(KeyFn(g, keys), xs)[1..] == Map(KeyFn(g, keys), xs[1..]);
  }

  lemma LaterGroups(g: Engine, keys: seq<GroupByKey>, xs: seq<Env>)
    requires xs != []
    ensures var rest := LaterRows(g, keys, xs);
            Map(GroupOf(g, keys, rest), KeysOf(g, keys, rest)) == Map(GroupOf(g, keys, xs), KeysOf(g, keys, rest))
  {
    hide KeyOf;
    hide GroupOf;
    var rest := LaterRows(g, keys, xs);
    var later := KeysOf(g, keys, rest);
    forall k | 0 <= k < |later| ensures GroupOf(g, keys, rest)(later[k]) == GroupOf(g, keys, xs)(later[k]) {
      LaterKeyDiffers(g, keys, rest, KeyOf(g, keys, xs[0]), later[k]);
      OtherKeysGroup(g, keys, xs, later[k]);
    }
  }

  /** The groups are, key by key in the order of their first rows, the rows of that key. */
  lemma {:induction false} GroupsByKey(g: Engine, keys: seq<GroupByKey>, xs: seq<Env>)
    ensures Groups(g, keys, xs) == Map(GroupOf(g, keys, xs), KeysOf(g, keys, xs))
    decreases |xs|
  {
    hide KeyOf;
    hide KeysOf;
    if xs == [] {
      assert KeysOf(g, keys, xs) == [] by { NoKeys(g, keys); }
    } else {
      var key, rest := KeyOf(g, keys, xs[0]), LaterRows(g, keys, xs);
      KeysStep(g, keys, xs);
      GroupsByKey(g, keys, rest);
      LaterGroups(g, keys, xs);
      assert GroupOf(g, keys, xs)(key) == [xs[0]] + Filter(HasKey(g, keys, key), xs[1..]);
      assert Groups(g, keys, xs) == [GroupOf(g, keys, xs)(key)] + Groups(g, keys, rest);
      hide GroupOf;
      assert Map(GroupOf(g, keys, xs), [key] + KeysOf(g, keys, rest))
          == [GroupOf(g, keys, xs)(key)] + Map(GroupOf(g, keys, xs), KeysOf(g, keys, rest));
    }
  }

  lemma NoKeys(g: Engine, keys: seq<GroupByKey>)
    ensures KeysOf(g, keys, []) == []
  {
  }

  lemma LaterKeyDiffers(g: Engine, keys: seq<GroupByKey>, rest: seq<Env>, key: seq<Value>, later: seq<Value>)
    requires later in Dedup(Map(KeyFn(g, keys), rest)) && forall x :: x in rest ==> KeyOf(g, keys, x) != key
    ensures later != key
  {
    hide KeyOf;
    DedupMembers(Map(KeyFn(g, keys), rest), later);
    var x := MapSource(KeyFn(g, keys), rest, later);
  }

  predicate OfKey(g: Engine, keys: seq<GroupByKey>, key: seq<Value>, u: Unit) {
    forall env :: env in u ==> KeyOf(g, keys, env) == key
  }

  lemma ValuesBag(c: ColName, u: Unit, v: Unit)
    requires multiset(u) == multiset(v)
    ensures var a, b := Filter(IsVal(), Map(ColumnOf(c), u)), Filter(IsVal(), Map(ColumnOf(c), v));
            |a| == |b| && |Dedup(a)| == |Dedup(b)|
  {
    hide ColumnOf;
    MapBag(ColumnOf(c), u, v);
    FilterBag(IsVal(), Map(ColumnOf(c), u), Map(ColumnOf(c), v));
    var a, b := Filter(IsVal(), Map(ColumnOf(c), u)), Filter(IsVal(), Map(ColumnOf(c), v));
    SameMembers(a, b);
    DedupBag(a, b);
    SameLength(a, b);
    SameLength(Dedup(a), Dedup(b));
  }

  // ----- MAX and MIN under a total order

  predicate Beats(g: Engine, biggest: bool, a: Atom, b: Atom) {
    if biggest then g.less(b, a) else g.less(a, b)
  }

  /** A value of the list that no other one beats. */
  predicate Tops(g: Engine, biggest: bool, m: Value, vs: seq<Value>) {
    m in vs && m.Val? && forall v :: v in vs && v.Val? ==> !Beats(g, biggest, v.atom, m.atom)
  }

  lemma {:induction false} ExtremeTops(g: Engine, biggest: bool, vs: seq<Value>)
    requires TotalOrder(g) && vs != [] && forall v :: v in vs ==> v.Val?
    ensures Tops(g, biggest, Extreme(g, biggest, vs), vs)
  {
    if |vs| > 1 {
      ExtremeTops(g, biggest, vs[1..]);
      var m := Extreme(g, biggest, vs[1..]);
      assert vs == [vs[0]] + vs[1..];
      assert Extreme(g, biggest, vs) == if Beats(g, biggest, vs[0].atom, m.atom) then vs[0] else m;
    }
  }

  lemma TopsUnique(g: Engine, biggest: bool, m: Value, n: Value, vs: seq<Value>, us: seq<Value>)
    requires TotalOrder(g) && Tops(g, biggest, m, vs) && Tops(g, biggest, n, us) && forall v :: v in vs <==> v in us
    ensures m == n
  {
    assert !Beats(g, biggest, m.atom, n.atom) && !Beats(g, biggest, n.atom, m.atom);
  }

  lemma ExtremeBag(g: Engine, biggest: bool, vs: seq<Value>, us: seq<Value>)
    requires TotalOrder(g) && multiset(vs) == multiset(us) && vs != [] && us != []
    requires (forall v :: v in vs ==> v.Val?) && forall v :: v in us ==> v.Val?
    ensures Extreme(g, biggest, vs) == Extreme(g, biggest, us)
  {
    SameMembers(vs, us);
    ExtremeTops(g, biggest, vs);
    ExtremeTops(g, biggest, us);
    TopsUnique(g, biggest, Extreme(g, biggest, vs), Extreme(g, biggest, us), vs, us);
  }

  lemma ExtremesBag(g: Engine, fn: AggregateFn, c: ColName, u: Unit, v: Unit)
    requires TotalOrder(g) && (fn.Max? || fn.Min?) && multiset(u) == multiset(v)
    ensures AggregateValue(g, fn, Map(ColumnOf(c), u)) == AggregateValue(g, fn, Map(ColumnOf(c), v))
  {
    hide ColumnOf;
    hide Extreme;
    hide TotalOrder;
    var a, b := Filter(IsVal(), Map(ColumnOf(c), u)), Filter(IsVal(), Map(ColumnOf(c), v));
    MapBag(ColumnOf(c), u, v);
    FilterBag(IsVal(), Map(ColumnOf(c), u), Map(ColumnOf(c), v));
    SameMembers(a, b);
    if a != [] {
      ExtremeBag(g, fn.Max?, a, b);
    }
  }

  /** Aggregates are the same for any order of the rows. */
  lemma ValueBag(steady: bool, g: Engine, e: Expr, u: Unit, v: Unit)
    requires BlindValue(steady, e) && (steady ==> BagEngine(g)) && multiset(u) == multiset(v)
    ensures ExprValue(g, e, u) == ExprValue(g, e, v)
  {
    hide ColumnOf;
    hide Filter;
    hide Dedup;
    hide IsVal;
    hide TotalOrder;
    match e
    case Aggregate(fn, c) =>
      if fn.Count? {
        ValuesBag(c, u, v);
      } else {
        ExtremesBag(g, fn, c, u, v);
      }
    case OpaqueAggregate(code) => MapBag(Visible(code), u, v);
    case CountDistinct(c) => ValuesBag(c, u, v);
  }

  lemma HavingBag(steady: bool, g: Engine, having: seq<OpaqueSql>, u: Unit, v: Unit)
    requires (having == [] || steady) && (steady ==> BagEngine(g)) && multiset(u) == multiset(v)
    ensures HavingHolds(g, having)(u) == HavingHolds(g, having)(v)
  {
  }

  // ----- result rows of groups

  lemma SameLength<T>(s: seq<T>, t: seq<T>)
    requires multiset(s) == multiset(t)
    ensures |s| == |t|
  {
    assert |s| == |multiset(s)| && |t| == |multiset(t)|;
  }

  lemma KeyColumn(g: Engine, q: SelectQuery, key: seq<Value>, u: Unit, v: Unit, c: ColName)
    requires u != [] && v != [] && OfKey(g, q.groupBy, key, u) && OfKey(g, q.groupBy, key, v)
    requires ColumnKey(c) in q.groupBy
    ensures Lookup(RowOf(u), c) == Lookup(RowOf(v), c)
  {
    var i :| 0 <= i < |q.groupBy| && q.groupBy[i] == ColumnKey(c);
    assert u[0] in u && v[0] in v;
    assert KeyOf(g, q.groupBy, u[0])[i] == KeyOf(g, q.groupBy, v[0])[i];
  }

  /** Two orders of the rows of one group give the same result row. */
  lemma {:induction false} GroupRecord(
    steady: bool, g: Engine, q: SelectQuery, ps: seq<Projection>, key: seq<Value>, u: Unit, v: Unit)
    requires steady ==> BagEngine(g)
    requires multiset(u) == multiset(v) && OfKey(g, q.groupBy, key, u) && OfKey(g, q.groupBy, key, v)
    requires (forall p :: p in ps ==> BlindItem(steady, q, p)) && (q.groupBy != [] ==> u != [] && v != [])
    ensures Project(g, ps, u) == Project(g, ps, v)
  {
    hide OfKey;
    hide ExprValue;
    hide BagEngine;
    if ps != [] {
      assert BlindItem(steady, q, ps[0]);
      if ps[0].Column? {
        KeyColumn(g, q, key, u, v, ps[0].column);
      } else {
        ValueBag(steady, g, ps[0].expr, u, v);
      }
      GroupRecord(steady, g, q, ps[1..], key, u, v);
    }
  }

  function UnitRecord(g: Engine, ps: seq<Projection>): Unit -> Record {
    u => Project(g, ps, u)
  }

  lemma KeyRecords(steady: bool, g: Engine, q: SelectQuery, xs: seq<Env>, ys: seq<Env>, key: seq<Value>)
    requires Grouping(steady, q) && (steady ==> BagEngine(g)) && q.groupBy != []
    requires multiset(xs) == multiset(ys) && key in Map(KeyFn(g, q.groupBy), xs)
    ensures KeyRecord(g, q, xs)(key) == KeyRecord(g, q, ys)(key) && KeyKept(g, q, xs)(key) == KeyKept(g, q, ys)(key)
  {
    hide KeyOf;
    hide BagEngine;
    hide HavingHolds;
    var u, v := GroupOf(g, q.groupBy, xs)(key), GroupOf(g, q.groupBy, ys)(key);
    FilterBag(HasKey(g, q.groupBy, key), xs, ys);
    var x := MapSource(KeyFn(g, q.groupBy), xs, key);
    assert x in u;
    SameMembers(u, v);
    GroupRecord(steady, g, q, q.projections, key, u, v);
    HavingBag(steady, g, q.having, u, v);
  }

  function KeyRecord(g: Engine, q: SelectQuery, xs: seq<Env>): seq<Value> -> Record {
    key => Project(g, q.projections, GroupOf(g, q.groupBy, xs)(key))
  }

  function KeyKept(g: Engine, q: SelectQuery, xs: seq<Env>): seq<Value> -> bool {
    key => HavingHolds(g, q.having)(GroupOf(g, q.groupBy, xs)(key))
  }

  /** The result rows of the groups that pass HAVING. */
  function GroupRecords(g: Engine, q: SelectQuery, groups: seq<Unit>): seq<Record> {
    Map(UnitRecord(g, q.projections), Filter(HavingHolds(g, q.having), groups))
  }

  lemma RecordsByKey(g: Engine, q: SelectQuery, xs: seq<Env>)
    ensures GroupRecords(g, q, Groups(g, q.groupBy, xs)) ==
      Map(KeyRecord(g, q, xs), Filter(KeyKept(g, q, xs), KeysOf(g, q.groupBy, xs)))
  {
    hide Project;
    hide GroupOf;
    hide KeysOf;
    hide HavingHolds;
    GroupsByKey(g, q.groupBy, xs);
    FilterMap(HavingHolds(g, q.having), GroupOf(g, q.groupBy, xs), KeyKept(g, q, xs), KeysOf(g, q.groupBy, xs));
  }

  lemma SameKeys(g: Engine, keys: seq<GroupByKey>, xs: seq<Env>, ys: seq<Env>)
    requires multiset(xs) == multiset(ys)
    ensures multiset(KeysOf(g, keys, xs)) == multiset(KeysOf(g, keys, ys))
    ensures forall key :: key in KeysOf(g, keys, xs) ==> key in Map(KeyFn(g, keys), xs)
  {
    hide KeyOf;
    var kx, ky := Map(KeyFn(g, keys), xs), Map(KeyFn(g, keys), ys);
    MapBag(KeyFn(g, keys), xs, ys);
    SameMembers(kx, ky);
    DedupBag(kx, ky);
    forall key | key in Dedup(kx) ensures key in kx {
      DedupMembers(kx, key);
    }
  }

  /** The groups of a list and of any reordering of it give the same bag of result rows. */
  lemma GroupsBag(steady: bool, g: Engine, q: SelectQuery, xs: seq<Env>, ys: seq<Env>)
    requires Grouping(steady, q) && (steady ==> BagEngine(g)) && q.groupBy != [] && multiset(xs) == multiset(ys)
    ensures multiset(GroupRecords(g, q, Groups(g, q.groupBy, xs))) ==
      multiset(GroupRecords(g, q, Groups(g, q.groupBy, ys)))
  {
    hide KeysOf;
    hide Groups;
    hide GroupRecords;
    hide BagEngine;
    hide KeyRecord;
    hide KeyKept;
    var kx, ky := KeysOf(g, q.groupBy, xs), KeysOf(g, q.groupBy, ys);
    RecordsByKey(g, q, xs);
    RecordsByKey(g, q, ys);
    SameKeys(g, q.groupBy, xs, ys);
    forall key | key in kx
      ensures KeyRecord(g, q, xs)(key) == KeyRecord(g, q, ys)(key) && KeyKept(g, q, xs)(key) == KeyKept(g, q, ys)(key)
    {
      KeyRecords(steady, g, q, xs, ys, key);
    }
    FilterSame(KeyKept(g, q, xs), KeyKept(g, q, ys), kx);
    FilterBag(KeyKept(g, q, ys), kx, ky);
    var px, py := Filter(KeyKept(g, q, ys), kx), Filter(KeyKept(g, q, ys), ky);
    assert forall i :: 0 <= i < |px| ==> px[i] in px;
    assert Map(KeyRecord(g, q, xs), px) == Map(KeyRecord(g, q, ys), px);
    MapBag(KeyRecord(g, q, ys), px, py);
  }

  /** The result rows before DISTINCT. */
  function Shown(w: World, q: SelectQuery): seq<Record> {
    GroupRecords(w.engine, q, Grouped(w.engine, q.groupBy, q.Aggregates(),
      Filter(WhereHolds(w, q.predicates), FromRows(w, q))))
  }

  lemma ShownIsAnswer(w: World, q: SelectQuery)
    requires q.qualify == [] && Unlimited(q)
    ensures Answer(w, q) == multiset(if q.distinct then Dedup(Shown(w, q)) else Shown(w, q))
  {
    hide Grouped;
    hide FromRows;
    hide Project;
    AnswerIsBody(w, q);
    var groups := Grouped(w.engine, q.groupBy, q.Aggregates(), Filter(WhereHolds(w, q.predicates), FromRows(w, q)));
    var kept := Filter(HavingHolds(w.engine, q.having), groups);
    PickAll(kept, QualifyMarks(w.engine, q.qualify, kept));
    var rows := Map(Output(w.engine, q.projections), Selected(w, q, FromRows(w, q)));
    assert Records(rows) == Shown(w, q);
    DistinctRecords(rows);
  }

  /** The one group of an aggregate query without GROUP BY. */
  lemma WholeBag(steady: bool, g: Engine, q: SelectQuery, xs: seq<Env>, ys: seq<Env>)
    requires Grouping(steady, q) && (steady ==> BagEngine(g)) && q.groupBy == [] && multiset(xs) == multiset(ys)
    ensures GroupRecords(g, q, [xs]) == GroupRecords(g, q, [ys])
  {
    hide Project;
    hide BagEngine;
    hide HavingHolds;
    assert OfKey(g, [], [], xs) && OfKey(g, [], [], ys);
    GroupRecord(steady, g, q, q.projections, [], xs, ys);
    HavingBag(steady, g, q.having, xs, ys);
  }

  lemma RowsBag(g: Engine, q: SelectQuery, xs: seq<Env>, ys: seq<Env>)
    requires q.having == [] && multiset(xs) == multiset(ys)
    ensures multiset(GroupRecords(g, q, Map(Alone(), xs))) == multiset(GroupRecords(g, q, Map(Alone(), ys)))
  {
    hide Project;
    var show := (env: Env) => Project(g, q.projections, [env]);
    FilterAll(HavingHolds(g, q.having), Map(Alone(), xs));
    FilterAll(HavingHolds(g, q.having), Map(Alone(), ys));
    assert GroupRecords(g, q, Map(Alone(), xs)) == Map(show, xs);
    assert GroupRecords(g, q, Map(Alone(), ys)) == Map(show, ys);
    MapBag(show, xs, ys);
  }

  lemma GroupedBag(steady: bool, g: Engine, q: SelectQuery, xs: seq<Env>, ys: seq<Env>)
    requires (RowLevel(q) || Grouping(steady, q)) && (steady ==> BagEngine(g)) && multiset(xs) == multiset(ys)
    ensures multiset(GroupRecords(g, q, Grouped(g, q.groupBy, q.Aggregates(), xs)))
         == multiset(GroupRecords(g, q, Grouped(g, q.groupBy, q.Aggregates(), ys)))
  {
    hide GroupRecords;
    hide BagEngine;
    if q.groupBy != [] {
      GroupsBag(steady, g, q, xs, ys);
    } else if q.Aggregates() {
      WholeBag(steady, g, q, xs, ys);
    } else {
      RowsBag(g, q, xs, ys);
    }
  }

  lemma ShownBag(steady: bool, v: World, w: World, q: SelectQuery)
    requires BagsAgree(v, w, q) && multiset(FromRows(v, q)) == multiset(FromRows(w, q))
    requires (RowLevel(q) || Grouping(steady, q)) && (steady ==> BagEngine(w.engine))
    ensures multiset(Shown(v, q)) == multiset(Shown(w, q))
  {
    hide Grouped;
    hide GroupRecords;
    hide FromRows;
    hide BagEngine;
    forall env | env in FromRows(v, q) ensures WhereHolds(v, q.predicates)(env) == WhereHolds(w, q.predicates)(env) {
      WhereBag(v, w, q, env);
    }
    FilterSame(WhereHolds(v, q.predicates), WhereHolds(w, q.predicates), FromRows(v, q));
    FilterBag(WhereHolds(w, q.predicates), FromRows(v, q), FromRows(w, q));
    GroupedBag(steady, w.engine, q, Filter(WhereHolds(v, q.predicates), FromRows(v, q)),
      Filter(WhereHolds(w, q.predicates), FromRows(w, q)));
  }

  lemma SourcesAgree(steady: bool, v: World, w: World, q: SelectQuery)
    requires OrderBlind(steady, q) && BagsAgree(v, w, q)
    ensures q.table.None? && q.subquery.Some? ==>
      OrderBlind(steady, q.subquery.value) && BagsAgree(v, w, q.subquery.value)
    ensures forall j :: j in q.joins && j.subquery.Some? ==>
      OrderBlind(steady, j.subquery.value) && BagsAgree(v, w, j.subquery.value)
    ensures forall j :: j in q.joins && j.subquery.None? ==>
      SameBag(TableRelation(v, j.table), TableRelation(w, j.table))
  {
    forall j | j in q.joins && j.subquery.Some? ensures BagsAgree(v, w, j.subquery.value) {
      forall name | Mentions(j.subquery.value, name) ensures SameBag(TableRelation(v, name), TableRelation(w, name)) {
        assert Mentions(q, name);
      }
    }
    forall j | j in q.joins && j.subquery.None? ensures SameBag(TableRelation(v, j.table), TableRelation(w, j.table)) {
      assert Mentions(q, j.table);
    }
  }

  /** Reordering the rows of the tables reorders the rows of the result. */
  lemma {:induction false} EvalBag(steady: bool, v: World, w: World, q: SelectQuery)
    requires OrderBlind(steady, q) && BagsAgree(v, w, q) && (steady ==> BagEngine(w.engine))
    ensures SameBag(Eval(v, q), Eval(w, q))
    decreases q, 1
  {
    hide Body;
    hide BagEngine;
    SourcesAgree(steady, v, w, q);
    if q.table.None? && q.subquery.Some? {
      EvalBag(steady, v, w, q.subquery.value);
    }
    assert SameBag(SourceRelation(v, q), SourceRelation(w, q));
    forall j | j in q.joins ensures SameBag(JoinRelation(v, j), JoinRelation(w, j)) {
      if j.subquery.Some? {
        EvalBag(steady, v, w, j.subquery.value);
      }
    }
    FromBag(v, w, q);
    ShownBag(steady, v, w, q);
    ShownIsAnswer(v, q);
    ShownIsAnswer(w, q);
    if q.distinct {
      SameMembers(Shown(v, q), Shown(w, q));
      DedupBag(Shown(v, q), Shown(w, q));
    }
  }

  // ----- WITH clauses

  /** Nothing in the body can see row order. */
  predicate OrderBlindBody(steady: bool, b: CteBody) {
    match b
    case Select(s) => OrderBlind(steady, s.outer) && forall c :: c in s.ctes ==> OrderBlindBody(steady, c.body)
    case SetOperation(inner, _, left, right) =>
      OrderBlindBody(steady, left) && OrderBlindBody(steady, right) && forall c :: c in inner ==>
        OrderBlindBody(steady, c.body)
  }

  ghost predicate WorldsAgree(v: World, w: World) {
    v.engine == w.engine && forall name :: SameBag(TableRelation(v, name), TableRelation(w, name))
  }

  lemma CombineBag(op: SetOperator, a: Relation, b: Relation, c: Relation, d: Relation)
    requires SameBag(a, c) && SameBag(b, d)
    ensures SameBag(Combine(op, a, b), Combine(op, c, d))
  {
    SameMembers(a.rows, c.rows);
    SameMembers(b.rows, d.rows);
    match op
    case UnionAll =>
    case Union => DedupBag(a.rows + b.rows, c.rows + d.rows);
    case Intersect =>
      DedupBag(Filter((r: Record) => r in b.rows, a.rows), Filter((r: Record) => r in d.rows, c.rows));
    case Except =>
      DedupBag(Filter((r: Record) => r !in b.rows, a.rows), Filter((r: Record) => r !in d.rows, c.rows));
  }

  lemma DefineBag(v: World, w: World, name: string, a: Relation, b: Relation)
    requires WorldsAgree(v, w) && SameBag(a, b)
    ensures WorldsAgree(Define(v, name, a), Define(w, name, b))
  {
    forall n ensures SameBag(TableRelation(Define(v, name, a), n), TableRelation(Define(w, name, b), n)) {
      assert SameBag(TableRelation(v, n), TableRelation(w, n));
    }
  }

  lemma {:induction false} BodyBag(steady: bool, v: World, w: World, b: CteBody)
    requires OrderBlindBody(steady, b) && WorldsAgree(v, w) && (steady ==> BagEngine(w.engine))
    ensures SameBag(BodyRelation(v, b), BodyRelation(w, b))
    decreases b, 0
  {
    hide BagEngine;
    match b
    case Select(s) =>
      BoundBag(steady, v, w, s.ctes);
      EvalBag(steady, Bound(v, s.ctes), Bound(w, s.ctes), s.outer);
    case SetOperation(inner, op, left, right) =>
      BoundBag(steady, v, w, inner);
      BodyBag(steady, Bound(v, inner), Bound(w, inner), left);
      BodyBag(steady, Bound(v, inner), Bound(w, inner), right);
      CombineBag(op, BodyRelation(Bound(v, inner), left), BodyRelation(Bound(v, inner), right),
        BodyRelation(Bound(w, inner), left), BodyRelation(Bound(w, inner), right));
  }

  lemma {:induction false} BoundBag(steady: bool, v: World, w: World, ctes: seq<Cte>)
    requires WorldsAgree(v, w) && (steady ==> BagEngine(w.engine)) && forall c :: c in ctes ==>
      OrderBlindBody(steady, c.body)
    ensures WorldsAgree(Bound(v, ctes), Bound(w, ctes)) && Bound(w, ctes).engine == w.engine
    decreases ctes, 0
  {
    hide BagEngine;
    if ctes != [] {
      var before, last := ctes[..|ctes| - 1], ctes[|ctes| - 1];
      assert last in ctes;
      BoundBag(steady, v, w, before);
      BodyBag(steady, Bound(v, before), Bound(w, before), last.body);
      DefineBag(Bound(v, before), Bound(w, before), last.name, CteRelation(Bound(v, before), last),
        CteRelation(Bound(w, before), last));
    }
  }

  /** Nothing after one CTE can see row order. */
  predicate BlindAfter(steady: bool, s: Statement, i: nat)
    requires i < |s.ctes|
  {
    OrderBlind(steady, s.outer) && forall c :: c in s.ctes[i + 1..] ==> OrderBlindBody(steady, c.body)
  }

  /** What comes after a relation that changes in row order only changes in row order only. */
  lemma BlindTail(steady: bool, v: World, name: string, a: Relation, b: Relation, after: seq<Cte>, outer: SelectQuery)
    requires SameBag(a, b) && (steady ==> BagEngine(v.engine))
    requires OrderBlind(steady, outer) && forall c :: c in after ==> OrderBlindBody(steady, c.body)
    ensures SameBag(Eval(Bound(Define(v, name, a), after), outer), Eval(Bound(Define(v, name, b), after), outer))
  {
    hide Eval;
    hide BagEngine;
    SameBagItself(v);
    DefineBag(v, v, name, a, b);
    BoundBag(steady, Define(v, name, a), Define(v, name, b), after);
    EvalBag(steady, Bound(Define(v, name, a), after), Bound(Define(v, name, b), after), outer);
  }

  lemma SameBagItself(v: World)
    ensures WorldsAgree(v, v)
  {
  }
}
