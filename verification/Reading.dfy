/** What the text of a query reads of a row, and that its result depends on nothing else. */
module Reading {
  import opened Ir
  import opened Lists
  import opened Semantics
  import opened Pipeline

  /** A column, what opaque SQL can see, all columns of one relation, all columns, or everything about the row. */
  datatype Read = OfColumn(column: ColName) | OfCode(code: OpaqueSql) | OfRelation(relation: string) | OfAll | OfRow

  type Reads = set<Read>

  function AllReads<T>(f: T -> Reads, s: seq<T>): Reads {
    if s == [] then {} else f(s[0]) + AllReads(f, s[1..])
  }

  function OperandReads(o: Operand): Reads {
    match o
    case ColumnOperand(c) => {OfColumn(c)}
    case LiteralOperand(_) => {}
    case OtherOperand(code) => {OfCode(code)}
  }

  function ConditionReads(c: Condition): Reads {
    match c
    case EqCondition(a, b) => OperandReads(a) + OperandReads(b)
    case InCondition(s, items, query) =>
      OperandReads(s) + AllReads(OperandReads, items) + (if query.Some? then {OfCode(query.value)} else {})
    case OtherCondition(code) => {OfCode(code)}
  }

  function ExprReads(e: Expr): Reads
    decreases e, 1
  {
    match e
    case Opaque(code) => {OfCode(code)}
    case OpaqueAggregate(code) => {OfCode(code)}
    case ColumnExpr(c) => {OfColumn(c)}
    case NullExpr => {}
    case Case(branches, default) => BranchesReads(branches) + (if default.Some? then ExprReads(default.value) else {})
    case Aggregate(_, c) => {OfColumn(c)}
    case CountDistinct(c) => {OfColumn(c)}
  }

  function BranchesReads(branches: seq<Branch>): Reads
    decreases branches, 0
  {
    if branches == [] then {} else BranchReads(branches[0]) + BranchesReads(branches[1..])
  }

  function BranchReads(b: Branch): Reads
    decreases b, 0
  {
    ConditionReads(b.condition) + ExprReads(b.result)
  }

  function ItemReads(p: Projection): Reads {
    match p
    case Column(c, _) => {OfColumn(c)}
    case Star(t) => if t.Some? then {OfRelation(t.value)} else {OfAll}
    case Computed(e, _) => ExprReads(e)
  }

  function SideReads(s: JoinSide): Reads {
    match s
    case ColumnSide(c) => {OfColumn(c)}
    case ExpressionSide(code) => {OfCode(code)}
  }

  function EqualityReads(c: JoinCondition): Reads {
    SideReads(c.left) + SideReads(c.right)
  }

  function PredicateReads(p: WherePredicate): Reads {
    match p
    case Compare(c, _, _) => {OfColumn(c)}
    case InList(c, _, _) => {OfColumn(c)}
    case OpaquePredicate(code) => {OfCode(code)}
    case Exists(_, _, _, condition) => EqualityReads(condition)
  }

  function KeyReads(k: GroupByKey): Reads {
    match k
    case ColumnKey(c) => {OfColumn(c)}
    case ExpressionKey(code) => {OfCode(code)}
  }

  function CodeReads(code: OpaqueSql): Reads {
    {OfCode(code)}
  }

  function OrderReads(o: OrderByItem): Reads {
    {OfCode(o.code)}
  }

  /** What the clauses between FROM and ORDER BY read; HAVING is not looked into. */
  function BodyReads(q: SelectQuery): Reads {
    AllReads(ItemReads, q.projections) + AllReads(PredicateReads, q.predicates) + AllReads(KeyReads, q.groupBy)
    + AllReads(CodeReads, q.qualify)
  }

  lemma {:induction false} InAllReads<T>(f: T -> Reads, s: seq<T>, x: T)
    requires x in s
    ensures f(x) <= AllReads(f, s)
  {
    if x != s[0] {
      InAllReads(f, s[1..], x);
    }
  }

  lemma {:induction false} FromAllReads<T>(f: T -> Reads, s: seq<T>, r: Read)
    requires r in AllReads(f, s)
    ensures exists x :: x in s && r in f(x)
  {
    if r in f(s[0]) {
      assert s[0] in s;
    } else {
      FromAllReads(f, s[1..], r);
    }
  }

  // ----- rows that look alike to what reads them

  predicate ReadAlike(r: Read, x: Env, y: Env) {
    match r
    case OfColumn(c) => Lookup(x, c) == Lookup(y, c)
    case OfCode(code) => Visible(code)(x) == Visible(code)(y)
    case OfRelation(t) => RelationFields(x, t) == RelationFields(y, t)
    case OfAll => StarFields(x) == StarFields(y)
    case OfRow => x == y
  }

  predicate Alike(rs: Reads, x: Env, y: Env) {
    forall r :: r in rs ==> ReadAlike(r, x, y)
  }

  /** Row by row. */
  predicate AllAlike(rs: Reads, u: seq<Env>, v: seq<Env>) {
    |u| == |v| && forall i :: 0 <= i < |u| ==> Alike(rs, u[i], v[i])
  }

  lemma RowAlike(rs: Reads, u: Unit, v: Unit)
    requires AllAlike(rs, u, v)
    ensures Alike(rs, RowOf(u), RowOf(v))
  {
  }

  lemma ColumnsAlike(rs: Reads, u: Unit, v: Unit, c: ColName)
    requires AllAlike(rs, u, v) && OfColumn(c) in rs
    ensures Map(ColumnOf(c), u) == Map(ColumnOf(c), v)
  {
    forall i | 0 <= i < |u| ensures Lookup(u[i], c) == Lookup(v[i], c) {
      assert Alike(rs, u[i], v[i]) && ReadAlike(OfColumn(c), u[i], v[i]);
    }
  }

  lemma CodeAlike(rs: Reads, u: Unit, v: Unit, code: OpaqueSql)
    requires AllAlike(rs, u, v) && OfCode(code) in rs
    ensures Map(Visible(code), u) == Map(Visible(code), v) == VisibleUnit(code)(u) == VisibleUnit(code)(v)
  {
    forall i | 0 <= i < |u| ensures Visible(code)(u[i]) == Visible(code)(v[i]) {
      assert Alike(rs, u[i], v[i]) && ReadAlike(OfCode(code), u[i], v[i]);
    }
  }

  lemma OperandAlike(g: Engine, rs: Reads, o: Operand, x: Env, y: Env)
    requires Alike(rs, x, y) && OperandReads(o) <= rs
    ensures OperandValue(g, o, x) == OperandValue(g, o, y)
  {
    match o
    case ColumnOperand(c) => assert ReadAlike(OfColumn(c), x, y);
    case LiteralOperand(_) =>
    case OtherOperand(code) => assert ReadAlike(OfCode(code), x, y);
  }

  lemma ConditionAlike(g: Engine, rs: Reads, c: Condition, x: Env, y: Env)
    requires Alike(rs, x, y) && ConditionReads(c) <= rs
    ensures ConditionTruth(g, c, x) == ConditionTruth(g, c, y)
  {
    match c
    case EqCondition(a, b) => OperandAlike(g, rs, a, x, y); OperandAlike(g, rs, b, x, y);
    case InCondition(s, items, query) =>
      OperandAlike(g, rs, s, x, y);
      forall i | 0 <= i < |items| ensures OperandValue(g, items[i], x) == OperandValue(g, items[i], y) {
        InAllReads(OperandReads, items, items[i]);
        OperandAlike(g, rs, items[i], x, y);
      }
      assert OperandValues(g, items, x) == OperandValues(g, items, y);
      if query.Some? { assert ReadAlike(OfCode(query.value), x, y); }
    case OtherCondition(code) => assert ReadAlike(OfCode(code), x, y);
  }

  lemma {:induction false} ExprAlike(g: Engine, rs: Reads, e: Expr, u: Unit, v: Unit)
    requires AllAlike(rs, u, v) && ExprReads(e) <= rs
    ensures ExprValue(g, e, u) == ExprValue(g, e, v)
    decreases e, 1
  {
    RowAlike(rs, u, v);
    match e
    case Opaque(code) => assert ReadAlike(OfCode(code), RowOf(u), RowOf(v));
    case OpaqueAggregate(code) => CodeAlike(rs, u, v, code);
    case ColumnExpr(c) => assert ReadAlike(OfColumn(c), RowOf(u), RowOf(v));
    case NullExpr =>
    case Case(branches, default) =>
      CaseAlike(g, rs, branches, u, v);
      if default.Some? { ExprAlike(g, rs, default.value, u, v); }
    case Aggregate(_, c) => ColumnsAlike(rs, u, v, c);
    case CountDistinct(c) => ColumnsAlike(rs, u, v, c);
  }

  lemma {:induction false} CaseAlike(g: Engine, rs: Reads, branches: seq<Branch>, u: Unit, v: Unit)
    requires AllAlike(rs, u, v) && BranchesReads(branches) <= rs
    ensures CaseValue(g, branches, u) == CaseValue(g, branches, v)
    decreases branches, 0
  {
    if branches != [] {
      RowAlike(rs, u, v);
      ConditionAlike(g, rs, branches[0].condition, RowOf(u), RowOf(v));
      BranchAlike(g, rs, branches[0], u, v);
      CaseAlike(g, rs, branches[1..], u, v);
    }
  }

  lemma {:induction false} BranchAlike(g: Engine, rs: Reads, b: Branch, u: Unit, v: Unit)
    requires AllAlike(rs, u, v) && BranchReads(b) <= rs
    ensures BranchValue(g, b, u) == BranchValue(g, b, v)
    decreases b, 0
  {
    ExprAlike(g, rs, b.result, u, v);
  }

  lemma ItemAlike(g: Engine, rs: Reads, p: Projection, u: Unit, v: Unit)
    requires AllAlike(rs, u, v) && ItemReads(p) <= rs
    ensures ItemFields(g, p, u) == ItemFields(g, p, v)
  {
    RowAlike(rs, u, v);
    match p
    case Column(c, _) => assert ReadAlike(OfColumn(c), RowOf(u), RowOf(v));
    case Star(t) => assert ReadAlike(if t.Some? then OfRelation(t.value) else OfAll, RowOf(u), RowOf(v));
    case Computed(e, _) => ExprAlike(g, rs, e, u, v);
  }

  lemma {:induction false} ProjectAlike(g: Engine, rs: Reads, ps: seq<Projection>, u: Unit, v: Unit)
    requires AllAlike(rs, u, v) && AllReads(ItemReads, ps) <= rs
    ensures Project(g, ps, u) == Project(g, ps, v)
  {
    hide ItemFields;
    if ps != [] {
      ItemAlike(g, rs, ps[0], u, v);
      ProjectAlike(g, rs, ps[1..], u, v);
    }
  }

  // ----- WHERE and ON

  lemma SideAlike(g: Engine, rs: Reads, s: JoinSide, x: Env, y: Env)
    requires Alike(rs, x, y) && SideReads(s) <= rs
    ensures SideValue(g, s, x) == SideValue(g, s, y)
  {
    match s
    case ColumnSide(c) => assert ReadAlike(OfColumn(c), x, y);
    case ExpressionSide(code) => assert ReadAlike(OfCode(code), x, y);
  }

  lemma EqualityAlike(g: Engine, rs: Reads, c: JoinCondition, x: Env, y: Env)
    requires Alike(rs, x, y) && EqualityReads(c) <= rs
    ensures JoinTruth(g, c, x) == JoinTruth(g, c, y)
  {
    SideAlike(g, rs, c.left, x, y);
    SideAlike(g, rs, c.right, x, y);
  }

  lemma NamesVisible(names: seq<string>, x: Env, y: Env)
    ensures NamesSeen(names, x) == NamesSeen(names, y) <==> forall n :: n in names ==>
      Lookup(x, ColName(None, n)) == Lookup(y, ColName(None, n))
  {
    if names != [] {
      var a, b := Map(FieldSeen(x), names), Map(FieldSeen(y), names);
      if NamesSeen(names, x) == NamesSeen(names, y) {
        assert NamesSeen(names, x)[0].record == a && NamesSeen(names, y)[0].record == b;
        forall n | n in names ensures Lookup(x, ColName(None, n)) == Lookup(y, ColName(None, n)) {
          var i :| 0 <= i < |names| && names[i] == n;
          assert a[i] == b[i];
        }
      }
      if forall n :: n in names ==> Lookup(x, ColName(None, n)) == Lookup(y, ColName(None, n)) {
        assert a == b;
      }
    }
  }

  /** Opaque SQL sees the same in two rows exactly when the relations and the columns that it names are the same. */
  lemma VisibleParts(code: OpaqueSql, x: Env, y: Env)
    ensures Visible(code)(x) == Visible(code)(y) <==>
              && Filter(Mentioned(code.tables), x) == Filter(Mentioned(code.tables), y)
              && forall n :: n in code.names ==> Lookup(x, ColName(None, n)) == Lookup(y, ColName(None, n))
  {
    var a, b := Filter(Mentioned(code.tables), x), Filter(Mentioned(code.tables), y);
    var c, d := NamesSeen(code.names, x), NamesSeen(code.names, y);
    NamesVisible(code.names, x, y);
    assert |c| == |d|;
    if a + c == b + d {
      assert |a| == |b| && (a + c)[..|a|] == a && (b + d)[..|b|] == b && (a + c)[|a|..] == c && (b + d)[|b|..] == d;
    }
  }

  /** A row of an inner scope in front of both. */
  lemma InnerAlike(s: JoinSide, b: Binding, x: Env, y: Env)
    requires Alike(SideReads(s), x, y)
    ensures Alike(SideReads(s), [b] + x, [b] + y)
  {
    match s
    case ColumnSide(c) => assert ReadAlike(OfColumn(c), x, y);
    case ExpressionSide(code) =>
      assert ReadAlike(OfCode(code), x, y);
      VisibleParts(code, x, y);
      FilterAppend(Mentioned(code.tables), [b], x);
      FilterAppend(Mentioned(code.tables), [b], y);
      forall n | n in code.names ensures Lookup([b] + x, ColName(None, n)) == Lookup([b] + y, ColName(None, n)) {
        assert ([b] + x)[1..] == x && ([b] + y)[1..] == y;
      }
      VisibleParts(code, [b] + x, [b] + y);
  }

  lemma PredicateAlike(w: World, rs: Reads, p: WherePredicate, x: Env, y: Env)
    requires Alike(rs, x, y) && PredicateReads(p) <= rs
    ensures PredicateTruth(w, p, x) == PredicateTruth(w, p, y)
  {
    match p
    case Compare(c, _, _) => assert ReadAlike(OfColumn(c), x, y);
    case InList(c, _, _) => assert ReadAlike(OfColumn(c), x, y);
    case OpaquePredicate(code) => assert ReadAlike(OfCode(code), x, y);
    case Exists(table, alias, _, condition) =>
      forall r ensures ExistsMatch(w.engine, alias.GetOr(table), condition, x, r)
                    == ExistsMatch(w.engine, alias.GetOr(table), condition, y, r)
      {
        var b := Binding(alias.GetOr(table), r);
        InnerAlike(condition.left, b, x, y);
        InnerAlike(condition.right, b, x, y);
        SideAlike(w.engine, SideReads(condition.left), condition.left, [b] + x, [b] + y);
        SideAlike(w.engine, SideReads(condition.right), condition.right, [b] + x, [b] + y);
      }
  }

  lemma WhereAlike(w: World, rs: Reads, ps: seq<WherePredicate>, x: Env, y: Env)
    requires Alike(rs, x, y) && AllReads(PredicateReads, ps) <= rs
    ensures WhereHolds(w, ps)(x) == WhereHolds(w, ps)(y)
  {
    forall p | p in ps ensures PredicateTruth(w, p, x) == PredicateTruth(w, p, y) {
      InAllReads(PredicateReads, ps, p);
      PredicateAlike(w, rs, p, x, y);
    }
  }

  lemma OnAlike(g: Engine, rs: Reads, cs: seq<JoinCondition>, x: Env, y: Env)
    requires Alike(rs, x, y) && AllReads(EqualityReads, cs) <= rs
    ensures OnHolds(g, cs)(x) == OnHolds(g, cs)(y)
  {
    forall c | c in cs ensures JoinTruth(g, c, x) == JoinTruth(g, c, y) {
      InAllReads(EqualityReads, cs, c);
      EqualityAlike(g, rs, c, x, y);
    }
  }

  /** A test that cannot tell the rows apart keeps rows that look alike. */
  lemma {:induction false} FilterAlike(rs: Reads, f: Env -> bool, xs: seq<Env>, ys: seq<Env>)
    requires AllAlike(rs, xs, ys) && forall i :: 0 <= i < |xs| ==> f(xs[i]) == f(ys[i])
    ensures AllAlike(rs, Filter(f, xs), Filter(f, ys))
  {
    hide Alike;
    if xs != [] {
      assert Alike(rs, xs[0], ys[0]);
      FilterAlike(rs, f, xs[1..], ys[1..]);
    }
  }

  lemma WhereKeepsAlike(w: World, rs: Reads, ps: seq<WherePredicate>, xs: seq<Env>, ys: seq<Env>)
    requires AllAlike(rs, xs, ys) && AllReads(PredicateReads, ps) <= rs
    ensures AllAlike(rs, Filter(WhereHolds(w, ps), xs), Filter(WhereHolds(w, ps), ys))
  {
    hide WhereHolds;
    hide Alike;
    forall i | 0 <= i < |xs| ensures WhereHolds(w, ps)(xs[i]) == WhereHolds(w, ps)(ys[i]) {
      assert Alike(rs, xs[i], ys[i]);
      WhereAlike(w, rs, ps, xs[i], ys[i]);
    }
    FilterAlike(rs, WhereHolds(w, ps), xs, ys);
  }

  // ----- groups

  predicate UnitsAlike(rs: Reads, us: seq<Unit>, vs: seq<Unit>) {
    |us| == |vs| && forall i :: 0 <= i < |us| ==> AllAlike(rs, us[i], vs[i])
  }

  lemma KeyAlike(g: Engine, rs: Reads, keys: seq<GroupByKey>, x: Env, y: Env)
    requires Alike(rs, x, y) && AllReads(KeyReads, keys) <= rs
    ensures KeyOf(g, keys, x) == KeyOf(g, keys, y)
  {
    forall i | 0 <= i < |keys| ensures KeyValue(g, keys[i], x) == KeyValue(g, keys[i], y) {
      InAllReads(KeyReads, keys, keys[i]);
      match keys[i] {
        case ColumnKey(c) => assert ReadAlike(OfColumn(c), x, y);
        case ExpressionKey(code) => assert ReadAlike(OfCode(code), x, y);
      }
    }
  }

  lemma KeysAlike(g: Engine, rs: Reads, keys: seq<GroupByKey>, xs: seq<Env>, ys: seq<Env>)
    requires AllAlike(rs, xs, ys) && AllReads(KeyReads, keys) <= rs
    ensures forall i :: 0 <= i < |xs| ==> KeyOf(g, keys, xs[i]) == KeyOf(g, keys, ys[i])
  {
    forall i | 0 <= i < |xs| ensures KeyOf(g, keys, xs[i]) == KeyOf(g, keys, ys[i]) {
      assert Alike(rs, xs[i], ys[i]);
      KeyAlike(g, rs, keys, xs[i], ys[i]);
    }
  }

  lemma ConsAlike(rs: Reads, x: Env, y: Env, xs: seq<Env>, ys: seq<Env>)
    requires Alike(rs, x, y) && AllAlike(rs, xs, ys)
    ensures AllAlike(rs, [x] + xs, [y] + ys)
  {
    hide Alike;
  }

  lemma ConsUnits(rs: Reads, u: Unit, v: Unit, us: seq<Unit>, vs: seq<Unit>)
    requires AllAlike(rs, u, v) && UnitsAlike(rs, us, vs)
    ensures UnitsAlike(rs, [u] + us, [v] + vs)
  {
    hide AllAlike;
  }

  lemma TailAlike(rs: Reads, xs: seq<Env>, ys: seq<Env>)
    requires AllAlike(rs, xs, ys) && xs != []
    ensures Alike(rs, xs[0], ys[0]) && AllAlike(rs, xs[1..], ys[1..])
  {
    hide Alike;
  }

  lemma {:induction false} GroupsAlike(g: Engine, rs: Reads, keys: seq<GroupByKey>, xs: seq<Env>, ys: seq<Env>)
    requires AllAlike(rs, xs, ys) && AllReads(KeyReads, keys) <= rs
    ensures UnitsAlike(rs, Groups(g, keys, xs), Groups(g, keys, ys))
    decreases |xs|
  {
    hide Alike;
    hide KeyOf;
    hide UnitsAlike;
    if xs == [] {
      assert UnitsAlike(rs, [], []) by { EmptyAlike(rs); }
    } else {
      var key := KeyOf(g, keys, xs[0]);
      var has, lacks := HasKey(g, keys, key), LacksKey(g, keys, key);
      KeysAlike(g, rs, keys, xs, ys);
      TailAlike(rs, xs, ys);
      FilterAlike(rs, has, xs[1..], ys[1..]);
      FilterAlike(rs, lacks, xs[1..], ys[1..]);
      ConsAlike(rs, xs[0], ys[0], Filter(has, xs[1..]), Filter(has, ys[1..]));
      hide AllAlike;
      GroupsAlike(g, rs, keys, Filter(lacks, xs[1..]), Filter(lacks, ys[1..]));
      ConsUnits(rs, [xs[0]] + Filter(has, xs[1..]), [ys[0]] + Filter(has, ys[1..]),
        Groups(g, keys, Filter(lacks, xs[1..])), Groups(g, keys, Filter(lacks, ys[1..])));
    }
  }

  lemma EmptyAlike(rs: Reads)
    ensures UnitsAlike(rs, [], [])
  {
  }

  lemma GroupedAlike(g: Engine, rs: Reads, keys: seq<GroupByKey>, whole: bool, xs: seq<Env>, ys: seq<Env>)
    requires AllAlike(rs, xs, ys) && AllReads(KeyReads, keys) <= rs
    ensures UnitsAlike(rs, Grouped(g, keys, whole, xs), Grouped(g, keys, whole, ys))
  {
    hide Alike;
    if keys != [] {
      GroupsAlike(g, rs, keys, xs, ys);
    }
  }

  lemma QualifyAlike(g: Engine, rs: Reads, qualify: seq<OpaqueSql>, us: seq<Unit>, vs: seq<Unit>)
    requires UnitsAlike(rs, us, vs) && AllReads(CodeReads, qualify) <= rs
    ensures QualifyMarks(g, qualify, us) == QualifyMarks(g, qualify, vs)
  {
    forall p | p in qualify ensures Map(VisibleUnit(p), us) == Map(VisibleUnit(p), vs) {
      InAllReads(CodeReads, qualify, p);
      forall i | 0 <= i < |us| ensures VisibleUnit(p)(us[i]) == VisibleUnit(p)(vs[i]) {
        assert AllAlike(rs, us[i], vs[i]);
        CodeAlike(rs, us[i], vs[i], p);
      }
    }
  }

  lemma {:induction false} PickAlike(rs: Reads, us: seq<Unit>, vs: seq<Unit>, marks: seq<bool>)
    requires UnitsAlike(rs, us, vs) && |marks| == |us|
    ensures UnitsAlike(rs, PickMarked(us, marks), PickMarked(vs, marks))
  {
    hide AllAlike;
    if us != [] {
      assert AllAlike(rs, us[0], vs[0]);
      PickAlike(rs, us[1..], vs[1..], marks[1..]);
    }
  }

  lemma SameCount(rs: Reads, us: seq<Unit>, vs: seq<Unit>)
    requires UnitsAlike(rs, us, vs)
    ensures |us| == |vs|
  {
  }

  lemma ChosenAlike(g: Engine, rs: Reads, qualify: seq<OpaqueSql>, us: seq<Unit>, vs: seq<Unit>)
    requires UnitsAlike(rs, us, vs) && AllReads(CodeReads, qualify) <= rs
    ensures UnitsAlike(rs, Chosen(g, [], qualify, us), Chosen(g, [], qualify, vs))
  {
    hide UnitsAlike;
    assert |us| == |vs| by { SameCount(rs, us, vs); }
    FilterAll(HavingHolds(g, []), us);
    FilterAll(HavingHolds(g, []), vs);
    QualifyAlike(g, rs, qualify, us, vs);
    PickAlike(rs, us, vs, QualifyMarks(g, qualify, us));
  }

  // ----- result rows

  /** The same result rows, made of rows that look alike. */
  predicate RowsAlike(rs: Reads, a: seq<OutRow>, b: seq<OutRow>) {
    |a| == |b| && forall i :: 0 <= i < |a| ==> a[i].record == b[i].record && AllAlike(rs, a[i].unit, b[i].unit)
  }

  lemma OutputAlike(g: Engine, rs: Reads, ps: seq<Projection>, us: seq<Unit>, vs: seq<Unit>)
    requires UnitsAlike(rs, us, vs) && AllReads(ItemReads, ps) <= rs
    ensures RowsAlike(rs, Map(Output(g, ps), us), Map(Output(g, ps), vs))
  {
    hide AllAlike;
    forall i | 0 <= i < |us| ensures Project(g, ps, us[i]) == Project(g, ps, vs[i]) && AllAlike(rs, us[i], vs[i]) {
      assert AllAlike(rs, us[i], vs[i]);
      ProjectAlike(g, rs, ps, us[i], vs[i]);
    }
  }

  lemma ConsRows(rs: Reads, x: OutRow, y: OutRow, a: seq<OutRow>, b: seq<OutRow>)
    requires x.record == y.record && AllAlike(rs, x.unit, y.unit) && RowsAlike(rs, a, b)
    ensures RowsAlike(rs, [x] + a, [y] + b)
  {
    hide AllAlike;
  }

  lemma TailRows(rs: Reads, a: seq<OutRow>, b: seq<OutRow>)
    requires RowsAlike(rs, a, b) && a != []
    ensures b != [] && a[0].record == b[0].record && AllAlike(rs, a[0].unit, b[0].unit) && RowsAlike(rs, a[1..], b[1..])
  {
    hide AllAlike;
  }

  lemma {:induction false} OthersAlike(rs: Reads, record: Record, a: seq<OutRow>, b: seq<OutRow>)
    requires RowsAlike(rs, a, b)
    ensures RowsAlike(rs, Filter(OtherRecord(record), a), Filter(OtherRecord(record), b))
  {
    hide AllAlike;
    if a != [] {
      TailRows(rs, a, b);
      hide RowsAlike;
      OthersAlike(rs, record, a[1..], b[1..]);
      ConsRows(rs, a[0], b[0], Filter(OtherRecord(record), a[1..]), Filter(OtherRecord(record), b[1..]));
    }
  }

  lemma {:induction false} DistinctAlike(rs: Reads, a: seq<OutRow>, b: seq<OutRow>)
    requires RowsAlike(rs, a, b)
    ensures RowsAlike(rs, DistinctRows(a), DistinctRows(b))
    decreases |a|
  {
    hide AllAlike;
    if a != [] {
      OthersAlike(rs, a[0].record, a[1..], b[1..]);
      DistinctAlike(rs, Filter(OtherRecord(a[0].record), a[1..]), Filter(OtherRecord(b[0].record), b[1..]));
    }
  }

  lemma SelectedAlike(w: World, q: SelectQuery, rs: Reads, xs: seq<Env>, ys: seq<Env>)
    requires AllAlike(rs, xs, ys) && BodyReads(q) <= rs && q.having == []
    ensures UnitsAlike(rs, Selected(w, q, xs), Selected(w, q, ys))
  {
    hide AllAlike;
    hide UnitsAlike;
    hide Grouped;
    hide Chosen;
    WhereKeepsAlike(w, rs, q.predicates, xs, ys);
    var fx, fy := Filter(WhereHolds(w, q.predicates), xs), Filter(WhereHolds(w, q.predicates), ys);
    GroupedAlike(w.engine, rs, q.groupBy, q.Aggregates(), fx, fy);
    ChosenAlike(w.engine, rs, q.qualify, Grouped(w.engine, q.groupBy, q.Aggregates(), fx),
      Grouped(w.engine, q.groupBy, q.Aggregates(), fy));
  }

  /** Rows that look alike to all clauses give the same result rows. */
  lemma BodyAlike(w: World, q: SelectQuery, rs: Reads, xs: seq<Env>, ys: seq<Env>)
    requires AllAlike(rs, xs, ys) && BodyReads(q) <= rs && q.having == []
    ensures RowsAlike(rs, Body(w, q, xs), Body(w, q, ys))
  {
    hide AllAlike;
    hide UnitsAlike;
    hide RowsAlike;
    hide Selected;
    hide DistinctRows;
    SelectedAlike(w, q, rs, xs, ys);
    OutputAlike(w.engine, rs, q.projections, Selected(w, q, xs), Selected(w, q, ys));
    DistinctAlike(rs, Map(Output(w.engine, q.projections), Selected(w, q, xs)),
      Map(Output(w.engine, q.projections), Selected(w, q, ys)));
  }

  lemma AlikeRecords(rs: Reads, a: seq<OutRow>, b: seq<OutRow>)
    requires RowsAlike(rs, a, b)
    ensures Records(a) == Records(b)
  {
  }

  /** And ORDER BY cannot tell them apart if it reads nothing else. */
  lemma AlikeSorts(rs: Reads, items: seq<OrderByItem>, a: seq<OutRow>, b: seq<OutRow>)
    requires RowsAlike(rs, a, b) && AllReads(OrderReads, items) <= rs
    ensures SortAlike(items, a, b)
  {
    hide AllAlike;
    forall i | 0 <= i < |a| ensures SortKeyOf(items, a[i]) == SortKeyOf(items, b[i]) {
      forall k | 0 <= k < |items| ensures Seen(a[i].unit)(items[k]) == Seen(b[i].unit)(items[k]) {
        InAllReads(OrderReads, items, items[k]);
        CodeAlike(rs, a[i].unit, b[i].unit, items[k].code);
      }
      assert Map(Seen(a[i].unit), items) == Map(Seen(b[i].unit), items);
    }
  }
}
