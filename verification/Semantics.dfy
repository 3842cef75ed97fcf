/** What a SELECT query returns on a database: SQL-92 with NULL, three-valued conditions, duplicates and
    row order.

    A relation is a list of rows, a row a list of named values. Parts of SQL that the rules never interpret
    are functions of the `World`; each of them is applied only to the part of a row that the SQL text can
    see, so locality holds by construction. The bag of rows a query returns is the multiset of its list. */
module Semantics {
  import opened Ir
  import opened Lists

  datatype Atom = Number(n: real) | Text(s: string)

  datatype Value = Null | Val(atom: Atom)

  datatype Truth = True3 | False3 | Unknown

  datatype Field = Field(name: string, value: Value)

  type Record = seq<Field>

  datatype Relation = Relation(cols: seq<string>, rows: seq<Record>)

  /** One relation of the FROM clause together with its current row. */
  datatype Binding = Binding(relation: string, record: Record)

  type Env = seq<Binding>

  /** The rows one result row is made of: one row, or a group. */
  type Unit = seq<Env>

  datatype OutRow = OutRow(unit: Unit, record: Record)

  /** What ORDER BY compares: for each item the part of the row that its text can see, and the result row. */
  datatype SortKey = SortKey(seen: seq<Unit>, record: Record)

  /** The part of SQL that does not read tables. */
  datatype Engine = Engine(
    literal: Literal -> Atom,
    less: (Atom, Atom) -> bool,
    scalar: (string, Env) -> Value,
    test: (string, Env) -> Truth,
    aggregate: (string, Unit) -> Value,
    having: (string, Unit) -> Truth,
    keep: (string, seq<Unit>) -> seq<bool>,
    before: (seq<OrderByItem>, SortKey, SortKey) -> bool)

  datatype World = World(tables: map<string, Relation>, engine: Engine)

  // ----- rows and names

  predicate HasField(r: Record, name: string) {
    exists i :: 0 <= i < |r| && r[i].name == name
  }

  /** The first field of that name, NULL when there is none. */
  function Get(r: Record, name: string): Value {
    if r == [] then Null else if r[0].name == name then r[0].value else Get(r[1..], name)
  }

  function Names(r: Record): seq<string> {
    seq(|r|, i requires 0 <= i < |r| => r[i].name)
  }

  function NullRecord(cols: seq<string>): Record {
    seq(|cols|, i requires 0 <= i < |cols| => Field(cols[i], Null))
  }

  /** A qualified name means the first relation so named, an unqualified one the first relation with such a
      column; inner scopes stand first. */
  function Lookup(env: Env, c: ColName): Value {
    if env == [] then Null
    else if IsNamedBy(env[0], c) then Get(env[0].record, c.name)
    else Lookup(env[1..], c)
  }

  predicate IsNamedBy(b: Binding, c: ColName) {
    if c.table.Some? then b.relation == c.table.value else HasField(b.record, c.name)
  }

  /** The part of a row that opaque SQL can depend on. */
  function Visible(code: OpaqueSql): Env -> Env {
    env => Filter(Mentioned(code.tables), env) + NamesSeen(code.names, env)
  }

  /** The values of columns without qualifier. */
  function NamesSeen(names: seq<string>, env: Env): Env {
    if names == [] then [] else [Binding("", Map(FieldSeen(env), names))]
  }

  function FieldSeen(env: Env): string -> Field {
    (n: string) => Field(n, Lookup(env, ColName(None, n)))
  }

  function Mentioned(tables: seq<string>): Binding -> bool {
    (b: Binding) => b.relation in tables
  }

  // ----- three-valued logic

  function Or3(a: Truth, b: Truth): Truth {
    if a.True3? || b.True3? then True3 else if a.False3? && b.False3? then False3 else Unknown
  }

  function Not3(a: Truth): Truth {
    match a case True3 => False3 case False3 => True3 case Unknown => Unknown
  }

  function Eq3(a: Value, b: Value): Truth {
    if a.Null? || b.Null? then Unknown else if a == b then True3 else False3
  }

  function In3(a: Value, items: seq<Value>): Truth {
    if items == [] then False3 else Or3(Eq3(a, items[0]), In3(a, items[1..]))
  }

  function Compare3(g: Engine, a: Value, op: Operator, b: Atom): Truth {
    if op.IsNull? then (if a.Null? then True3 else False3)
    else if op.IsNotNull? then (if a.Null? then False3 else True3)
    else if a.Null? then Unknown
    else if Compared(g, a.atom, op, b) then True3 else False3
  }

  predicate Compared(g: Engine, a: Atom, op: Operator, b: Atom) {
    match op
    case Eq => a == b
    case Gt => g.less(b, a)
    case Ge => !g.less(a, b)
    case Lt => g.less(a, b)
    case Le => !g.less(b, a)
    case _ => false
  }

  // ----- conditions

  function SideValue(g: Engine, s: JoinSide, env: Env): Value {
    match s
    case ColumnSide(c) => Lookup(env, c)
    case ExpressionSide(code) => g.scalar(code.text, Visible(code)(env))
  }

  function JoinTruth(g: Engine, c: JoinCondition, env: Env): Truth {
    Eq3(SideValue(g, c.left, env), SideValue(g, c.right, env))
  }

  function LiteralValues(g: Engine, ls: seq<Literal>): seq<Value> {
    seq(|ls|, i requires 0 <= i < |ls| => Val(g.literal(ls[i])))
  }

  function TableRelation(w: World, name: string): Relation {
    if name in w.tables then w.tables[name] else Relation([], [])
  }

  /** The right-hand literal of an ordering operator; a missing one leaves the comparison unknown. */
  function PredicateTruth(w: World, p: WherePredicate, env: Env): Truth {
    match p
    case Compare(c, op, right) =>
      if right.Some? then Compare3(w.engine, Lookup(env, c), op, w.engine.literal(right.value))
      else if op.IsNull? || op.IsNotNull? then Compare3(w.engine, Lookup(env, c), op, Number(0.0))
      else Unknown
    case InList(c, values, negated) =>
      var t := In3(Lookup(env, c), LiteralValues(w.engine, values));
      if negated then Not3(t) else t
    case OpaquePredicate(code) => w.engine.test(code.text, Visible(code)(env))
    case Exists(table, alias, _, cond) =>
      if exists r :: r in TableRelation(w, table).rows && ExistsMatch(w.engine, alias.GetOr(table), cond, env, r)
      then True3 else False3
  }

  /** One row of the table read by EXISTS meets its condition; the table's names hide those outside. */
  predicate ExistsMatch(g: Engine, relation: string, cond: JoinCondition, env: Env, r: Record) {
    JoinTruth(g, cond, [Binding(relation, r)] + env).True3?
  }

  function WhereHolds(w: World, ps: seq<WherePredicate>): Env -> bool {
    env => forall p :: p in ps ==> PredicateTruth(w, p, env).True3?
  }

  // ----- expressions

  function RowOf(u: Unit): Env {
    if u == [] then [] else u[0]
  }

  function ColumnOf(c: ColName): Env -> Value {
    env => Lookup(env, c)
  }

  function IsVal(): Value -> bool {
    (v: Value) => v.Val?
  }

  function Extreme(g: Engine, biggest: bool, vs: seq<Value>): Value
    requires vs != [] && forall v :: v in vs ==> v.Val?
    ensures Extreme(g, biggest, vs).Val?
  {
    if |vs| == 1 then vs[0]
    else
      var m := Extreme(g, biggest, vs[1..]);
      if (if biggest then g.less(m.atom, vs[0].atom) else g.less(vs[0].atom, m.atom)) then vs[0] else m
  }

  function AggregateValue(g: Engine, fn: AggregateFn, vs: seq<Value>): Value {
    var present := Filter(IsVal(), vs);
    match fn
    case Max => if present == [] then Null else Extreme(g, true, present)
    case Min => if present == [] then Null else Extreme(g, false, present)
    case AnyValue => if present == [] then Null else present[0]
    case Count => Val(Number(|present| as real))
  }

  function OperandValue(g: Engine, o: Operand, env: Env): Value {
    match o
    case ColumnOperand(c) => Lookup(env, c)
    case LiteralOperand(l) => Val(g.literal(l))
    case OtherOperand(code) => g.scalar(code.text, Visible(code)(env))
  }

  function OperandValues(g: Engine, items: seq<Operand>, env: Env): seq<Value> {
    seq(|items|, i requires 0 <= i < |items| => OperandValue(g, items[i], env))
  }

  function ConditionTruth(g: Engine, c: Condition, env: Env): Truth {
    match c
    case EqCondition(l, r) => Eq3(OperandValue(g, l, env), OperandValue(g, r, env))
    case InCondition(s, items, query) =>
      if query.Some? then g.test(query.value.text, Visible(query.value)(env))
      else In3(OperandValue(g, s, env), OperandValues(g, items, env))
    case OtherCondition(code) => g.test(code.text, Visible(code)(env))
  }

  function ExprValue(g: Engine, e: Expr, u: Unit): Value
    decreases e, 1
  {
    match e
    case Opaque(code) => g.scalar(code.text, Visible(code)(RowOf(u)))
    case OpaqueAggregate(code) => g.aggregate(code.text, Map(Visible(code), u))
    case ColumnExpr(c) => Lookup(RowOf(u), c)
    case NullExpr => Null
    case Case(branches, default) =>
      var chosen := CaseValue(g, branches, u);
      if chosen.Some? then chosen.value
      else if default.Some? then ExprValue(g, default.value, u) else Null
    case Aggregate(fn, c) => AggregateValue(g, fn, Map(ColumnOf(c), u))
    case CountDistinct(c) => Val(Number(|Dedup(Filter(IsVal(), Map(ColumnOf(c), u)))| as real))
  }

  /** The value of the first branch whose condition is true. */
  function CaseValue(g: Engine, branches: seq<Branch>, u: Unit): Option<Value>
    decreases branches, 0
  {
    if branches == [] then None
    else if ConditionTruth(g, branches[0].condition, RowOf(u)).True3? then Some(BranchValue(g, branches[0], u))
    else CaseValue(g, branches[1..], u)
  }

  function BranchValue(g: Engine, b: Branch, u: Unit): Value
    decreases b, 0
  {
    ExprValue(g, b.result, u)
  }

  // ----- projection

  function StarFields(env: Env): Record {
    if env == [] then [] else env[0].record + StarFields(env[1..])
  }

  function RelationFields(env: Env, relation: string): Record {
    if env == [] then []
    else if env[0].relation == relation then env[0].record
    else RelationFields(env[1..], relation)
  }

  function ItemFields(g: Engine, p: Projection, u: Unit): Record {
    match p
    case Column(c, _) => [Field(p.OutputName(), Lookup(RowOf(u), c))]
    case Star(t) => if t.Some? then RelationFields(RowOf(u), t.value) else StarFields(RowOf(u))
    case Computed(e, _) => [Field(p.OutputName(), ExprValue(g, e, u))]
  }

  function Project(g: Engine, ps: seq<Projection>, u: Unit): Record {
    if ps == [] then [] else ItemFields(g, ps[0], u) + Project(g, ps[1..], u)
  }

  function Output(g: Engine, ps: seq<Projection>): Unit -> OutRow {
    u => OutRow(u, Project(g, ps, u))
  }

  // ----- FROM

  function Bind(name: string): Record -> Env {
    r => [Binding(name, r)]
  }

  function Extend(env: Env, name: string): Record -> Env {
    r => env + [Binding(name, r)]
  }

  function OnHolds(g: Engine, conditions: seq<JoinCondition>): Env -> bool {
    env => forall c :: c in conditions ==> JoinTruth(g, c, env).True3?
  }

  function Matches(g: Engine, j: Join, rel: Relation, env: Env): seq<Env> {
    Filter(OnHolds(g, j.Conditions()), Map(Extend(env, j.RelationName()), rel.rows))
  }

  function JoinRow(g: Engine, j: Join, rel: Relation): Env -> seq<Env> {
    env =>
      var ms := Matches(g, j, rel, env);
      if j.joinType.Left? && ms == [] then [env + [Binding(j.RelationName(), NullRecord(rel.cols))]] else ms
  }

  function JoinRows(g: Engine, envs: seq<Env>, joins: seq<Join>, rels: seq<Relation>): seq<Env>
    requires |joins| == |rels|
    decreases |joins|
  {
    if joins == [] then envs
    else JoinRows(g, FlatMap(JoinRow(g, joins[0], rels[0]), envs), joins[1..], rels[1..])
  }

  function JoinHeader(joins: seq<Join>, rels: seq<Relation>): Env
    requires |joins| == |rels|
  {
    if joins == [] then []
    else [Binding(joins[0].RelationName(), NullRecord(rels[0].cols))] + JoinHeader(joins[1..], rels[1..])
  }

  // ----- grouping, filtering of groups, order and row window

  function KeyValue(g: Engine, k: GroupByKey, env: Env): Value {
    match k
    case ColumnKey(c) => Lookup(env, c)
    case ExpressionKey(code) => g.scalar(code.text, Visible(code)(env))
  }

  function KeyOf(g: Engine, keys: seq<GroupByKey>, env: Env): seq<Value> {
    seq(|keys|, i requires 0 <= i < |keys| => KeyValue(g, keys[i], env))
  }

  function HasKey(g: Engine, keys: seq<GroupByKey>, key: seq<Value>): Env -> bool {
    env => KeyOf(g, keys, env) == key
  }

  function LacksKey(g: Engine, keys: seq<GroupByKey>, key: seq<Value>): Env -> bool {
    env => KeyOf(g, keys, env) != key
  }

  /** NULL keys group together. */
  function Groups(g: Engine, keys: seq<GroupByKey>, envs: seq<Env>): seq<Unit>
    decreases |envs|
  {
    if envs == [] then []
    else
      var key := KeyOf(g, keys, envs[0]);
      [[envs[0]] + Filter(HasKey(g, keys, key), envs[1..])] + Groups(g, keys, Filter(LacksKey(g, keys, key), envs[1..]))
  }

  function Alone(): Env -> Unit {
    env => [env]
  }

  /** Without GROUP BY an aggregate query has one group, even when it is empty; any other query has one unit for
      each row. */
  function Grouped(g: Engine, keys: seq<GroupByKey>, whole: bool, envs: seq<Env>): seq<Unit> {
    if keys != [] then Groups(g, keys, envs)
    else if whole then [envs]
    else Map(Alone(), envs)
  }

  function HavingHolds(g: Engine, having: seq<OpaqueSql>): Unit -> bool {
    u => forall h :: h in having ==> g.having(h.text, u).True3?
  }

  function VisibleUnit(code: OpaqueSql): Unit -> Unit {
    u => Map(Visible(code), u)
  }

  predicate Marked(marks: seq<bool>, i: nat) {
    i < |marks| && marks[i]
  }

  /** QUALIFY is an uninterpreted choice of rows, made from what its text can see of all of them. */
  function QualifyMarks(g: Engine, qualify: seq<OpaqueSql>, units: seq<Unit>): seq<bool> {
    seq(|units|, i requires 0 <= i < |units| =>
      forall p :: p in qualify ==> Marked(g.keep(p.text, Map(VisibleUnit(p), units)), i))
  }

  function PickMarked<T>(s: seq<T>, marks: seq<bool>): seq<T>
    requires |s| == |marks|
  {
    if s == [] then [] else (if marks[0] then [s[0]] else []) + PickMarked(s[1..], marks[1..])
  }

  function Chosen(g: Engine, having: seq<OpaqueSql>, qualify: seq<OpaqueSql>, groups: seq<Unit>): seq<Unit> {
    var kept := Filter(HavingHolds(g, having), groups);
    PickMarked(kept, QualifyMarks(g, qualify, kept))
  }

  function Selected(w: World, q: SelectQuery, envs: seq<Env>): seq<Unit> {
    Chosen(w.engine, q.having, q.qualify,
      Grouped(w.engine, q.groupBy, q.Aggregates(), Filter(WhereHolds(w, q.predicates), envs)))
  }

  function OtherRecord(r: Record): OutRow -> bool {
    (row: OutRow) => row.record != r
  }

  function DistinctRows(rows: seq<OutRow>): seq<OutRow>
    decreases |rows|
  {
    if rows == [] then [] else [rows[0]] + DistinctRows(Filter(OtherRecord(rows[0].record), rows[1..]))
  }

  function Body(w: World, q: SelectQuery, envs: seq<Env>): seq<OutRow> {
    var rows := Map(Output(w.engine, q.projections), Selected(w, q, envs));
    if q.distinct then DistinctRows(rows) else rows
  }

  function Seen(u: Unit): OrderByItem -> Unit {
    (o: OrderByItem) => VisibleUnit(o.code)(u)
  }

  function SortKeyOf(items: seq<OrderByItem>, row: OutRow): SortKey {
    SortKey(Map(Seen(row.unit), items), row.record)
  }

  function NotIn(outputs: set<string>): string -> bool {
    (n: string) => n !in outputs
  }

  /** A name in ORDER BY means the result column of that name; what is left reads the FROM clause. */
  function FromNames(outputs: set<string>): OrderByItem -> OrderByItem {
    (o: OrderByItem) => o.(code := o.code.(names := Filter(NotIn(outputs), o.code.names)))
  }

  function OrderItems(q: SelectQuery): seq<OrderByItem> {
    Map(FromNames(ItemOutputs(q.projections)), q.orderBy)
  }

  function InsertRow(g: Engine, items: seq<OrderByItem>, r: OutRow, rows: seq<OutRow>): seq<OutRow> {
    if rows == [] || !g.before(items, SortKeyOf(items, rows[0]), SortKeyOf(items, r)) then [r] + rows
    else [rows[0]] + InsertRow(g, items, r, rows[1..])
  }

  function Sorted(g: Engine, items: seq<OrderByItem>, rows: seq<OutRow>): seq<OutRow> {
    if rows == [] then [] else InsertRow(g, items, rows[0], Sorted(g, items, rows[1..]))
  }

  function Ordered(g: Engine, items: seq<OrderByItem>, rows: seq<OutRow>): seq<OutRow> {
    if items == [] then rows else Sorted(g, items, rows)
  }

  function Window<T>(limit: Option<nat>, offset: Option<nat>, rows: seq<T>): seq<T> {
    var skip := if offset.Some? then (if offset.value < |rows| then offset.value else |rows|) else 0;
    var rest := rows[skip..];
    if limit.Some? && limit.value < |rest| then rest[..limit.value] else rest
  }

  function RecordOf(): OutRow -> Record {
    (row: OutRow) => row.record
  }

  function Records(rows: seq<OutRow>): seq<Record> {
    Map(RecordOf(), rows)
  }

  function Finish(g: Engine, q: SelectQuery, rows: seq<OutRow>): seq<Record> {
    Window(q.limit, q.offset, Records(Ordered(g, OrderItems(q), rows)))
  }

  // ----- whole queries

  function SourceRelation(w: World, q: SelectQuery): Relation
    decreases q, 0
  {
    if q.table.Some? then TableRelation(w, q.table.value)
    else if q.subquery.Some? then Eval(w, q.subquery.value)
    else Relation([], [])
  }

  function JoinRelation(w: World, j: Join): Relation
    decreases j, 0
  {
    if j.subquery.Some? then Eval(w, j.subquery.value) else TableRelation(w, j.table)
  }

  function JoinRelations(w: World, joins: seq<Join>): (rels: seq<Relation>)
    ensures |rels| == |joins|
    decreases joins, 0
  {
    if joins == [] then [] else [JoinRelation(w, joins[0])] + JoinRelations(w, joins[1..])
  }

  function SourceRows(q: SelectQuery, rel: Relation): seq<Env> {
    if q.HasSource() then Map(Bind(q.SourceName()), rel.rows) else [[]]
  }

  function FromRows(w: World, q: SelectQuery): seq<Env>
    decreases q, 1
  {
    JoinRows(w.engine, SourceRows(q, SourceRelation(w, q)), q.joins, JoinRelations(w, q.joins))
  }

  function Header(w: World, q: SelectQuery): Env
    decreases q, 1
  {
    (if q.HasSource() then [Binding(q.SourceName(), NullRecord(SourceRelation(w, q).cols))] else [])
    + JoinHeader(q.joins, JoinRelations(w, q.joins))
  }

  function Eval(w: World, q: SelectQuery): Relation
    decreases q, 2
  {
    Relation(Names(Project(w.engine, q.projections, [Header(w, q)])), Finish(w.engine, q, Body(w, q, FromRows(w, q))))
  }

  /** The rows a query returns, as a bag. */
  function Answer(w: World, q: SelectQuery): multiset<Record> {
    multiset(Eval(w, q).rows)
  }

  /** A database of the given tables, with opaque SQL that never selects anything. */
  ghost function PlainWorld(tables: map<string, Relation>): World {
    World(tables, Engine(l => Number(0.0), (a, b) => false, (s, e) => Null, (s, e) => Unknown, (s, u) => Null,
      (s, u) => Unknown, (s, us) => [], (items, a, b) => false))
  }
}
