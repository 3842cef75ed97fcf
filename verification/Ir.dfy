/** The SELECT intermediate representation: the syntax that the rules rewrite.

    A fragment of SQL that the rules never look into is an `OpaqueSql`: its text, the qualifiers of its columns and the
    names of those without. Expressions that a rule does look into (CASE, aggregates, COUNT(DISTINCT)) have their own
    constructors. */
module Ir {

  datatype Option<+T> = None | Some(value: T) {
    function GetOr(default: T): T {
      if Some? then value else default
    }
  }

  datatype ColName = ColName(table: Option<string>, name: string) {
    function Unqualified(): ColName {
      ColName(None, name)
    }
  }

  /** A literal as it is spelled; accepted values of a column have the same shape. */
  datatype Literal = Literal(text: string, isString: bool)

  datatype OpaqueSql = OpaqueSql(text: string, tables: seq<string>, names: seq<string>) {
    predicate Unqualified() {
      names != []
    }

    predicate MayReference(relation: string) {
      Unqualified() || relation in tables
    }
  }

  datatype AggregateFn = Max | Min | AnyValue | Count

  datatype Operand =
    | ColumnOperand(column: ColName)
    | LiteralOperand(literal: Literal)
    | OtherOperand(code: OpaqueSql)

  /** The condition of one CASE branch; `query` is set for IN (SELECT ...), whose item list is empty. */
  datatype Condition =
    | EqCondition(left: Operand, right: Operand)
    | InCondition(subject: Operand, items: seq<Operand>, query: Option<OpaqueSql>)
    | OtherCondition(code: OpaqueSql)

  datatype Branch = Branch(condition: Condition, result: Expr)

  datatype Expr =
    | Opaque(code: OpaqueSql)
    | OpaqueAggregate(code: OpaqueSql)
    | ColumnExpr(column: ColName)
    | NullExpr
    | Case(branches: seq<Branch>, default: Option<Expr>)
    | Aggregate(fn: AggregateFn, column: ColName)
    | CountDistinct(column: ColName)

  /** SQL leaves the column name of an expression without alias to the implementation; here all have the same. */
  const UNNAMED := ""

  /** A SELECT item: a plain column, a star, or anything else. */
  datatype Projection =
    | Column(column: ColName, alias: Option<string>)
    | Star(table: Option<string>)
    | Computed(expr: Expr, alias: Option<string>)
  {
    /** The name the rules know the item by; an expression without alias goes by its text. */
    function Name(): string {
      match this
      case Column(c, _) => c.name
      case Star(_) => "*"
      case Computed(e, a) => a.GetOr(ExprText(e))
    }

    /** The column name the item has in the result. */
    function OutputName(): string {
      match this
      case Column(c, a) => a.GetOr(c.name)
      case Star(_) => "*"
      case Computed(_, a) => a.GetOr(UNNAMED)
    }

    /** The item as it is parsed back from its text. */
    function Reparsed(): Projection {
      if Computed? && expr.ColumnExpr? then Column(expr.column, alias) else this
    }

    function Table(): Option<string> {
      match this
      case Column(c, _) => c.table
      case Star(t) => t
      case Computed(_, _) => None
    }

    predicate IsAggregate() {
      Computed? && ContainsAggregate(expr)
    }

    predicate MayReference(relation: string) {
      Computed? && ExprMayReference(expr, relation)
    }
  }

  datatype Operator = Eq | Gt | Ge | Lt | Le | IsNull | IsNotNull

  datatype JoinSide = ColumnSide(column: ColName) | ExpressionSide(code: OpaqueSql) {
    function Table(): Option<string> {
      if ColumnSide? then column.table else None
    }

    function Name(): string {
      if ColumnSide? then column.name else code.text
    }
  }

  datatype JoinCondition = JoinCondition(left: JoinSide, right: JoinSide)

  datatype WherePredicate =
    | Compare(left: ColName, operator: Operator, right: Option<Literal>)
    | InList(left: ColName, values: seq<Literal>, negated: bool)
    | OpaquePredicate(code: OpaqueSql)
    | Exists(table: string, alias: Option<string>, tableIsCte: bool, condition: JoinCondition)

  datatype GroupByKey = ColumnKey(column: ColName) | ExpressionKey(code: OpaqueSql)

  datatype OrderByItem = OrderByItem(code: OpaqueSql, aggregate: bool, descending: bool)

  datatype JoinType = Inner | Left

  datatype Join = Join(
    joinType: JoinType,
    table: string,
    alias: Option<string>,
    tableIsCte: bool,
    subquery: Option<SelectQuery>,
    condition: JoinCondition,
    extraConditions: seq<JoinCondition>)
  {
    function RelationName(): string {
      alias.GetOr(table)
    }

    function Conditions(): seq<JoinCondition> {
      [condition] + extraConditions
    }
  }

  datatype SelectQuery = SelectQuery(
    table: Option<string>,
    tableAlias: Option<string>,
    tableIsCte: bool,
    subquery: Option<SelectQuery>,
    alias: Option<string>,
    joins: seq<Join>,
    projections: seq<Projection>,
    predicates: seq<WherePredicate>,
    groupBy: seq<GroupByKey>,
    having: seq<OpaqueSql>,
    qualify: seq<OpaqueSql>,
    orderBy: seq<OrderByItem>,
    limit: Option<nat>,
    offset: Option<nat>,
    distinct: bool,
    rawSql: string)
  {
    predicate IsDirectTable() {
      table.Some? && subquery.None?
    }

    function TableName(): Option<string> {
      if tableIsCte then None else if IsDirectTable() then table else None
    }

    /** The name the FROM source has inside the query. */
    function SourceName(): string {
      if table.Some? then tableAlias.GetOr(table.value) else alias.GetOr("")
    }

    predicate HasSource() {
      table.Some? || subquery.Some?
    }

    /** Whether regenerated SQL would mention a CTE that it cannot define. */
    predicate ReferencesCte() {
      || tableIsCte
      || (exists j :: j in joins && j.tableIsCte)
      || (exists p :: p in predicates && p.Exists? && p.tableIsCte)
      || (subquery.Some? && subquery.value.ReferencesCte())
    }

    predicate HasAggregate() {
      AnyAggregate(projections)
    }

    predicate OrdersByAggregate() {
      exists o :: o in orderBy && o.aggregate
    }

    /** An aggregate in SELECT or in ORDER BY makes one group of all rows when there is no GROUP BY. */
    predicate Aggregates() {
      HasAggregate() || OrdersByAggregate()
    }
  }

  // ----- the text of an expression

  function ColumnText(c: ColName): string {
    if c.table.Some? then c.table.value + "." + c.name else c.name
  }

  function OperandText(o: Operand): string {
    match o
    case ColumnOperand(c) => ColumnText(c)
    case LiteralOperand(l) => if l.isString then "'" + l.text + "'" else l.text
    case OtherOperand(code) => code.text
  }

  function OperandsText(os: seq<Operand>): string {
    if os == [] then "" else OperandText(os[0]) + (if |os| == 1 then "" else ", ") + OperandsText(os[1..])
  }

  function ConditionText(c: Condition): string {
    match c
    case EqCondition(l, r) => OperandText(l) + " = " + OperandText(r)
    case InCondition(s, items, query) =>
      OperandText(s) + " IN (" + (if query.Some? then query.value.text else OperandsText(items)) + ")"
    case OtherCondition(code) => code.text
  }

  function AggregateText(fn: AggregateFn): string {
    match fn case Max => "MAX" case Min => "MIN" case AnyValue => "ANY_VALUE" case Count => "COUNT"
  }

  function ExprText(e: Expr): string
    decreases e, 1
  {
    match e
    case Opaque(code) => code.text
    case OpaqueAggregate(code) => code.text
    case ColumnExpr(c) => ColumnText(c)
    case NullExpr => "NULL"
    case Case(branches, default) =>
      "CASE" + BranchesText(branches) + (if default.Some? then " ELSE " + ExprText(default.value) else "") + " END"
    case Aggregate(fn, c) => AggregateText(fn) + "(" + ColumnText(c) + ")"
    case CountDistinct(c) => "COUNT(DISTINCT " + ColumnText(c) + ")"
  }

  function BranchesText(branches: seq<Branch>): string
    decreases branches, 0
  {
    if branches == [] then "" else BranchText(branches[0]) + BranchesText(branches[1..])
  }

  function BranchText(b: Branch): string
    decreases b, 0
  {
    " WHEN " + ConditionText(b.condition) + " THEN " + ExprText(b.result)
  }

  /** Two queries agree on every field except the provenance text. */
  predicate SameNormalized(left: SelectQuery, right: SelectQuery) {
    left.(rawSql := "") == right.(rawSql := "")
  }

  /** The column names that SELECT items give; a star gives those of its relation. */
  function ItemOutputs(ps: seq<Projection>): set<string> {
    set p | p in ps && !p.Star? :: p.OutputName()
  }

  predicate AnyAggregate(ps: seq<Projection>) {
    exists p :: p in ps && p.IsAggregate()
  }

  predicate ContainsAggregate(e: Expr) {
    match e
    case OpaqueAggregate(_) => true
    case Aggregate(_, _) => true
    case CountDistinct(_) => true
    case Case(branches, default) =>
      (exists b :: b in branches && ContainsAggregate(b.result)) ||
      (default.Some? && ContainsAggregate(default.value))
    case _ => false
  }

  predicate ColumnMayReference(c: ColName, relation: string) {
    c.table.None? || c.table.value == relation
  }

  predicate OperandMayReference(o: Operand, relation: string) {
    match o
    case ColumnOperand(c) => ColumnMayReference(c, relation)
    case LiteralOperand(_) => false
    case OtherOperand(code) => code.MayReference(relation)
  }

  predicate ConditionMayReference(c: Condition, relation: string) {
    match c
    case EqCondition(l, r) => OperandMayReference(l, relation) || OperandMayReference(r, relation)
    case InCondition(s, items, query) =>
      || OperandMayReference(s, relation)
      || (exists o :: o in items && OperandMayReference(o, relation))
      || (query.Some? && query.value.MayReference(relation))
    case OtherCondition(code) => code.MayReference(relation)
  }

  /** Unqualified columns count as uses of every relation. */
  predicate ExprMayReference(e: Expr, relation: string) {
    match e
    case Opaque(code) => code.MayReference(relation)
    case OpaqueAggregate(code) => code.MayReference(relation)
    case ColumnExpr(c) => ColumnMayReference(c, relation)
    case NullExpr => false
    case Case(branches, default) =>
      || (exists b :: b in branches &&
            (ConditionMayReference(b.condition, relation) || ExprMayReference(b.result, relation)))
      || (default.Some? && ExprMayReference(default.value, relation))
    case Aggregate(_, c) => ColumnMayReference(c, relation)
    case CountDistinct(c) => ColumnMayReference(c, relation)
  }
}
