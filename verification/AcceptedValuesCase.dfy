/** Simplifying a searched CASE whose conditions test a column with a trusted set of accepted values. */
module AcceptedValuesCase {
  import opened Ir
  import opened Lists
  import opened Semantics
  import opened Pipeline
  import opened Constraints
  import opened Rewrites
  import opened TableRows
  import opened Filters
  import CountDistinctRule

  datatype Verdict = NoVerdict | AlwaysTrue | AlwaysFalse

  function AcceptedDomain(c: ColName, t: TableConstraints, alias: Option<string>, table: string): Option<seq<Literal>> {
    if !PrefixAccepted(c, alias, table) then None
    else if !t.IsNonNull(c.name) || t.columns[c.name].acceptedValues == [] then None
    else Some(t.columns[c.name].acceptedValues)
  }

  /** Compares spellings, not values. */
  function DomainVerdict(domain: seq<Literal>, listed: seq<Literal>): Verdict {
    if Spellings(domain) <= Spellings(listed) then AlwaysTrue
    else if Spellings(domain) !! Spellings(listed) then AlwaysFalse
    else NoVerdict
  }

  function LiteralsOf(items: seq<Operand>): Option<seq<Literal>> {
    if items == [] then Some([])
    else
      var rest := LiteralsOf(items[1..]);
      if items[0].LiteralOperand? && rest.Some? then Some([items[0].literal] + rest.value) else None
  }

  /** A comparison of one column with literals. */
  datatype Test = Test(column: ColName, literals: seq<Literal>)

  /** A branch condition is looked into only when it compares one column with literals; a subquery after IN is
      not seen and leaves an empty literal list. */
  function TestOf(c: Condition): Option<Test> {
    match c
    case EqCondition(ColumnOperand(col), LiteralOperand(l)) => Some(Test(col, [l]))
    case EqCondition(LiteralOperand(l), ColumnOperand(col)) => Some(Test(col, [l]))
    case InCondition(ColumnOperand(col), items, _) =>
      var ls := LiteralsOf(items);
      if ls.None? then None else Some(Test(col, ls.value))
    case _ => None
  }

  function ConditionVerdict(c: Condition, t: TableConstraints, alias: Option<string>, table: string): Verdict {
    var test := TestOf(c);
    if test.None? then NoVerdict else ColumnVerdict(test.value.column, test.value.literals, t, alias, table)
  }

  function ColumnVerdict(c: ColName, ls: seq<Literal>, t: TableConstraints, alias: Option<string>,
    table: string): Verdict {
    var domain := AcceptedDomain(c, t, alias, table);
    if domain.None? then NoVerdict else DomainVerdict(domain.value, ls)
  }

  /** The rest of the loop of the simplification, once `kept` branches are kept. */
  function SimplifyFrom(
    branches: seq<Branch>, kept: seq<Branch>, changed: bool, default: Option<Expr>,
    verdict: Condition -> Verdict): Option<Expr>
  {
    if branches == [] then
      if !changed then None
      else if kept == [] then Some(default.GetOr(NullExpr))
      else Some(Case(kept, default))
    else
      match verdict(branches[0].condition)
      case AlwaysFalse => SimplifyFrom(branches[1..], kept, true, default, verdict)
      case AlwaysTrue =>
        if kept == [] then Some(branches[0].result)
        else SimplifyFrom(branches[1..], kept + [branches[0]], changed, default, verdict)
      case NoVerdict => SimplifyFrom(branches[1..], kept + [branches[0]], changed, default, verdict)
  }

  function VerdictFor(t: TableConstraints, alias: Option<string>, table: string): Condition -> Verdict {
    c => ConditionVerdict(c, t, alias, table)
  }

  function SimplifyCase(e: Expr, verdict: Condition -> Verdict): Option<Expr>
    requires e.Case?
  {
    SimplifyFrom(e.branches, [], false, e.default, verdict)
  }

  /** The loop over the branches, which keeps, drops or selects each one. */
  method SimplifiedCase(e: Expr, t: TableConstraints, alias: Option<string>, table: string) returns (r: Option<Expr>)
    requires e.Case?
    ensures r == SimplifyCase(e, VerdictFor(t, alias, table))
  {
    var kept: seq<Branch> := [];
    var changed := false;
    var i := 0;
    while i < |e.branches|
      invariant 0 <= i <= |e.branches|
      invariant SimplifyCase(e, VerdictFor(t, alias, table)) ==
                SimplifyFrom(e.branches[i..], kept, changed, e.default, VerdictFor(t, alias, table))
    {
      var branch := e.branches[i];
      assert e.branches[i..][1..] == e.branches[i + 1..];
      var verdict := ConditionVerdict(branch.condition, t, alias, table);
      if verdict.AlwaysFalse? {
        changed := true;
      } else if verdict.AlwaysTrue? && kept == [] {
        return Some(branch.result);
      } else {
        kept := kept + [branch];
      }
      i := i + 1;
    }
    if !changed {
      return None;
    }
    if kept == [] {
      return Some(e.default.GetOr(NullExpr));
    }
    return Some(Case(kept, e.default));
  }

  function SuggestCaseAt(q: SelectQuery, catalog: Catalog, i: nat): Suggestion
    requires i < |q.projections|
  {
    var no := s => Suggestion(SimplifyAcceptedValuesCase, s, None);
    var p := q.projections[i];
    if !(p.Computed? && p.expr.Case?) then no(NotApplicable)
    else if q.joins != [] || q.groupBy != [] || q.having != [] || q.qualify != [] then no(NotApplicable)
    else if q.ReferencesCte() then no(Undecided)
    else if q.TableName().None? then no(Unsupported)
    else
      var t := catalog.Table(q.TableName().value);
      if t.None? then no(NotApplicable)
      else
        var e := SimplifyCase(p.expr, VerdictFor(t.value, q.tableAlias, q.TableName().value));
        if e.None? then no(NotApplicable)
        else
          Suggestion(SimplifyAcceptedValuesCase, ProvenEquivalent,
            Some(q.(projections := q.projections[i := p.(expr := e.value).Reparsed()])))
  }

  function CaseAt(q: SelectQuery, catalog: Catalog): nat -> Suggestion {
    (i: nat) => if i < |q.projections| then SuggestCaseAt(q, catalog, i) else NoCase()
  }

  function NoCase(): Suggestion {
    Suggestion(SimplifyAcceptedValuesCase, NotApplicable, None)
  }

  function SuggestCase(q: SelectQuery, catalog: Catalog): Suggestion {
    CountDistinctRule.FirstProven(CaseAt(q, catalog), |q.projections|, 0, None, NoCase())
  }

  // ----- soundness

  /** No listed literal denotes an accepted value unless it is spelled alike. `1` and `1.0` break this. */
  ghost predicate SpelledApart(w: World, domain: seq<Literal>, listed: seq<Literal>) {
    forall a, b :: a in domain && b in listed && a != b ==> w.engine.literal(a) != w.engine.literal(b)
  }

  /** For the column and the literals that the condition compares. */
  ghost predicate WellSpelled(w: World, c: Condition, t: TableConstraints, alias: Option<string>, table: string) {
    TestOf(c).Some? && AcceptedDomain(TestOf(c).value.column, t, alias, table).Some? ==>
      SpelledApart(w, AcceptedDomain(TestOf(c).value.column, t, alias, table).value, TestOf(c).value.literals)
  }

  predicate LiteralList(c: Condition) {
    c.InCondition? ==> c.query.None?
  }

  lemma {:induction false} ItemsAreLiterals(w: World, items: seq<Operand>, env: Env)
    requires LiteralsOf(items).Some?
    ensures OperandValues(w.engine, items, env) == LiteralValues(w.engine, LiteralsOf(items).value)
  {
    if items != [] {
      ItemsAreLiterals(w, items[1..], env);
      var vs, ls := OperandValues(w.engine, items, env), LiteralsOf(items).value;
      assert vs == [vs[0]] + OperandValues(w.engine, items[1..], env);
      assert LiteralValues(w.engine, ls) == [Val(w.engine.literal(ls[0]))] + LiteralValues(w.engine, ls[1..]);
    }
  }

  /** On a value of the domain, membership in the listed literals is as the verdict says. */
  lemma VerdictOnDomain(w: World, domain: seq<Literal>, listed: seq<Literal>, v: Value)
    requires v in LiteralValues(w.engine, domain)
    ensures DomainVerdict(domain, listed).AlwaysTrue? ==> v in LiteralValues(w.engine, listed)
    ensures DomainVerdict(domain, listed).AlwaysFalse? && SpelledApart(w, domain, listed) ==>
      v !in LiteralValues(w.engine, listed)
  {
    if DomainVerdict(domain, listed).AlwaysTrue? {
      forall x | x in domain ensures x in listed {
        assert x in Spellings(domain);
      }
      SameKeysSameValues(w, domain, listed, v);
    }
    if DomainVerdict(domain, listed).AlwaysFalse? && SpelledApart(w, domain, listed) {
      var i :| 0 <= i < |domain| && LiteralValues(w.engine, domain)[i] == v;
      assert domain[i] in domain && domain[i] in Spellings(domain);
      forall j | 0 <= j < |listed| ensures LiteralValues(w.engine, listed)[j] != v {
        assert listed[j] in listed && listed[j] in Spellings(listed);
      }
    }
  }

  /** "Always false" is right for every accepted value exactly when no listed literal denotes an accepted value,
      however it is spelled. */
  lemma AlwaysFalseExact(w: World, domain: seq<Literal>, listed: seq<Literal>)
    requires DomainVerdict(domain, listed).AlwaysFalse?
    ensures (forall v :: v in LiteralValues(w.engine, domain) ==> !In3(v, LiteralValues(w.engine, listed)).True3?)
       <==> SpelledApart(w, domain, listed)
  {
    var ds, ls := LiteralValues(w.engine, domain), LiteralValues(w.engine, listed);
    if SpelledApart(w, domain, listed) {
      forall v | v in ds ensures !In3(v, ls).True3? {
        InListTrue(v, ls);
        var i :| 0 <= i < |domain| && ds[i] == v;
        assert domain[i] in domain;
        forall j | 0 <= j < |ls| ensures ls[j] != v {
          assert listed[j] in listed && listed[j] in Spellings(listed) && domain[i] in Spellings(domain);
        }
      }
    }
    if forall v :: v in ds ==> !In3(v, ls).True3? {
      forall a, b | a in domain && b in listed ensures w.engine.literal(a) != w.engine.literal(b) {
        var i :| 0 <= i < |domain| && domain[i] == a;
        var j :| 0 <= j < |listed| && listed[j] == b;
        assert ds[i] in ds && ls[j] in ls;
        InListTrue(ds[i], ls);
      }
    }
  }

  ghost predicate VerdictRight(w: World, v: Verdict, c: Condition, env: Env) {
    && (v.AlwaysTrue? ==> ConditionTruth(w.engine, c, env).True3?)
    && (v.AlwaysFalse? ==> !ConditionTruth(w.engine, c, env).True3?)
  }

  lemma ColumnVerdictRight(w: World, q: SelectQuery, t: TableConstraints, c: ColName, ls: seq<Literal>, r: Record)
    requires SingleTable(q) && PlainTableName(q) && TableMeets(w, RowsOf(w, q), t) && r in RowsOf(w, q)
    requires var domain := AcceptedDomain(c, t, q.tableAlias, q.table.value);
             domain.Some? ==> SpelledApart(w, domain.value, ls)
    ensures var v, x := ColumnVerdict(c, ls, t, q.tableAlias, q.table.value), Lookup([Binding(q.SourceName(), r)], c);
            && (v.AlwaysTrue? ==> x.Val? && x in LiteralValues(w.engine, ls))
            && (v.AlwaysFalse? ==> x.Val? && x !in LiteralValues(w.engine, ls))
  {
    var domain := AcceptedDomain(c, t, q.tableAlias, q.table.value);
    if domain.Some? {
      ColumnOfRow(q, c, r);
      assert NeverNull(RowsOf(w, q), c.name) && AcceptsOnly(w, RowsOf(w, q), c.name, domain.value);
      VerdictOnDomain(w, domain.value, ls, Get(r, c.name));
    }
  }

  /** A condition that is looked into is true exactly when the column's value is one of the literals. */
  lemma TestMeans(w: World, c: Condition, env: Env)
    requires LiteralList(c) && TestOf(c).Some? && Lookup(env, TestOf(c).value.column).Val?
    ensures ConditionTruth(w.engine, c, env).True3?
       <==> Lookup(env, TestOf(c).value.column) in LiteralValues(w.engine, TestOf(c).value.literals)
  {
    var ls := TestOf(c).value.literals;
    match c
    case EqCondition(_, _) => assert LiteralValues(w.engine, ls) == [Val(w.engine.literal(ls[0]))];
    case InCondition(ColumnOperand(col), items, _) =>
      ItemsAreLiterals(w, items, env);
      InListTrue(Lookup(env, col), OperandValues(w.engine, items, env));
  }

  /** Each verdict is right on every row that meets the constraints. */
  lemma ConditionVerdictRight(w: World, q: SelectQuery, t: TableConstraints, c: Condition, r: Record)
    requires SingleTable(q) && PlainTableName(q) && TableMeets(w, RowsOf(w, q), t) && r in RowsOf(w, q)
    requires LiteralList(c) && WellSpelled(w, c, t, q.tableAlias, q.table.value)
    ensures VerdictRight(w, ConditionVerdict(c, t, q.tableAlias, q.table.value), c, [Binding(q.SourceName(), r)])
  {
    var env := [Binding(q.SourceName(), r)];
    if TestOf(c).Some? {
      ColumnVerdictRight(w, q, t, TestOf(c).value.column, TestOf(c).value.literals, r);
      if Lookup(env, TestOf(c).value.column).Val? {
        TestMeans(w, c, env);
      }
    }
  }

  lemma {:induction false} CaseAppend(w: World, a: seq<Branch>, b: seq<Branch>, u: Unit)
    ensures var first := CaseValue(w.engine, a, u);
            CaseValue(w.engine, a + b, u) == if first.Some? then first else CaseValue(w.engine, b, u)
  {
    if a == [] {
      assert a + b == b;
    } else {
      assert (a + b)[1..] == a[1..] + b;
      CaseAppend(w, a[1..], b, u);
    }
  }

  /** A branch whose condition is not true may go. */
  lemma DropFalse(w: World, kept: seq<Branch>, b: Branch, rest: seq<Branch>, default: Option<Expr>, u: Unit)
    requires !ConditionTruth(w.engine, b.condition, RowOf(u)).True3?
    ensures ExprValue(w.engine, Case(kept + ([b] + rest), default), u) ==
      ExprValue(w.engine, Case(kept + rest, default), u)
  {
    CaseAppend(w, kept, [b] + rest, u);
    CaseAppend(w, kept, rest, u);
    assert ([b] + rest)[1..] == rest;
  }

  lemma KeptOnly(w: World, kept: seq<Branch>, default: Option<Expr>, u: Unit)
    ensures kept == [] ==>
      ExprValue(w.engine, Case(kept, default), u) == ExprValue(w.engine, default.GetOr(NullExpr), u)
  {
  }

  /** A first branch whose condition is true is the value. */
  lemma TakeTrue(w: World, b: Branch, rest: seq<Branch>, default: Option<Expr>, u: Unit)
    requires ConditionTruth(w.engine, b.condition, RowOf(u)).True3?
    ensures ExprValue(w.engine, Case([b] + rest, default), u) == ExprValue(w.engine, b.result, u)
  {
    assert CaseValue(w.engine, [b] + rest, u) == Some(BranchValue(w.engine, b, u));
  }

  ghost predicate AllRight(w: World, verdict: Condition -> Verdict, branches: seq<Branch>, env: Env) {
    forall b :: b in branches ==> VerdictRight(w, verdict(b.condition), b.condition, env)
  }

  lemma AllRightStep(w: World, verdict: Condition -> Verdict, branches: seq<Branch>, env: Env)
    requires branches != [] && AllRight(w, verdict, branches, env)
    ensures VerdictRight(w, verdict(branches[0].condition), branches[0].condition, env)
    ensures AllRight(w, verdict, branches[1..], env)
  {
    hide VerdictRight;
  }

  lemma Regroup(kept: seq<Branch>, branches: seq<Branch>)
    requires branches != []
    ensures kept + branches == (kept + [branches[0]]) + branches[1..]
    ensures kept + branches == kept + ([branches[0]] + branches[1..])
  {
  }

  /** For any number of branches, dropped, kept or short-circuited, the value stays the same. */
  lemma {:induction false} SimplifyKeepsValue(
    w: World, branches: seq<Branch>, kept: seq<Branch>, changed: bool, default: Option<Expr>,
    verdict: Condition -> Verdict, u: Unit)
    requires AllRight(w, verdict, branches, RowOf(u))
    requires SimplifyFrom(branches, kept, changed, default, verdict).Some?
    ensures ExprValue(w.engine, SimplifyFrom(branches, kept, changed, default, verdict).value, u)
         == ExprValue(w.engine, Case(kept + branches, default), u)
  {
    hide ExprValue;
    hide CaseValue;
    hide ConditionTruth;
    hide AllRight;
    if branches == [] {
      assert kept + branches == kept;
      KeptOnly(w, kept, default, u);
    } else {
      var b, rest := branches[0], branches[1..];
      AllRightStep(w, verdict, branches, RowOf(u));
      Regroup(kept, branches);
      if verdict(b.condition).AlwaysFalse? {
        DropFalse(w, kept, b, rest, default, u);
        SimplifyKeepsValue(w, rest, kept, true, default, verdict, u);
      } else if kept == [] && verdict(b.condition).AlwaysTrue? {
        assert [] + ([b] + rest) == [b] + rest;
        TakeTrue(w, b, rest, default, u);
      } else {
        SimplifyKeepsValue(w, rest, kept + [b], changed, default, verdict, u);
      }
    }
  }

  lemma {:induction false} SimplifyRowLevel(
    branches: seq<Branch>, kept: seq<Branch>, changed: bool, default: Option<Expr>, verdict: Condition -> Verdict)
    requires !ContainsAggregate(Case(kept + branches, default))
    requires SimplifyFrom(branches, kept, changed, default, verdict).Some?
    ensures !ContainsAggregate(SimplifyFrom(branches, kept, changed, default, verdict).value)
  {
    if branches == [] {
      assert kept + branches == kept;
    } else {
      assert branches[0] in kept + branches;
      forall b | b in kept + branches[1..] ensures !ContainsAggregate(b.result) {
        assert b in kept + branches;
      }
      assert kept + branches == kept + [branches[0]] + branches[1..];
      if verdict(branches[0].condition).AlwaysFalse? {
        SimplifyRowLevel(branches[1..], kept, true, default, verdict);
      } else if kept != [] || !verdict(branches[0].condition).AlwaysTrue? {
        SimplifyRowLevel(branches[1..], kept + [branches[0]], changed, default, verdict);
      }
    }
  }

  predicate LiteralBranches(e: Expr) {
    e.Case? && forall b :: b in e.branches ==> LiteralList(b.condition)
  }

  ghost predicate BranchesSpelled(w: World, e: Expr, t: TableConstraints, alias: Option<string>, table: string)
    requires e.Case?
  {
    forall b :: b in e.branches ==> WellSpelled(w, b.condition, t, alias, table)
  }

  /** On every row of the table, the simplified expression has the value of the CASE it replaces. */
  lemma SimplifiedOnRow(w: World, q: SelectQuery, t: TableConstraints, e: Expr, r: Record)
    requires SingleTable(q) && PlainTableName(q) && TableMeets(w, RowsOf(w, q), t) && r in RowsOf(w, q)
    requires LiteralBranches(e) && BranchesSpelled(w, e, t, q.tableAlias, q.table.value)
    requires SimplifyCase(e, VerdictFor(t, q.tableAlias, q.table.value)).Some?
    ensures ExprValue(w.engine, SimplifyCase(e, VerdictFor(t, q.tableAlias, q.table.value)).value,
      [[Binding(q.SourceName(), r)]])
         == ExprValue(w.engine, e, [[Binding(q.SourceName(), r)]])
  {
    var verdict, u := VerdictFor(t, q.tableAlias, q.table.value), [[Binding(q.SourceName(), r)]];
    forall b | b in e.branches ensures VerdictRight(w, verdict(b.condition), b.condition, RowOf(u)) {
      ConditionVerdictRight(w, q, t, b.condition, r);
    }
    assert AllRight(w, verdict, e.branches, RowOf(u));
    SimplifyKeepsValue(w, e.branches, [], false, e.default, verdict, u);
    assert [] + e.branches == e.branches;
  }

  lemma {:induction false} ReplacedRowLevel(ps: seq<Projection>, i: nat, p: Projection)
    requires i < |ps| && !AnyAggregate(ps) && !p.IsAggregate()
    ensures !AnyAggregate(ps[i := p])
  {
    forall x | x in ps[i := p] ensures !x.IsAggregate() {
      var k :| 0 <= k < |ps| && ps[i := p][k] == x;
      if k != i { assert ps[k] in ps; }
    }
  }

  lemma RowLevelUnits(w: World, q: SelectQuery, u: Unit)
    requires SingleTable(q) && RowLevel(q) && u in Selected(w, q, FromRows(w, q))
    ensures exists r :: r in RowsOf(w, q) && u == [[Binding(q.SourceName(), r)]]
  {
    hide WhereHolds;
    hide Selected;
    SingleTableRows(w, q);
    SelectedAll(w, q, FromRows(w, q));
    var env := MapSource(Alone(), Filter(WhereHolds(w, q.predicates), FromRows(w, q)), u);
    var rec := MapSource(Bind(q.SourceName()), RowsOf(w, q), env);
    assert rec in RowsOf(w, q) && u == [[Binding(q.SourceName(), rec)]];
  }

  /** What the item becomes. */
  function Simplified(p: Projection, e: Expr): Projection
    requires p.Computed?
  {
    p.(expr := e).Reparsed()
  }

  /** An item without alias that becomes a plain column would take that column's name. */
  predicate NameKept(p: Projection, e: Expr) {
    p.Computed? && (p.alias.Some? || !e.ColumnExpr?)
  }

  lemma SimplifiedItem(g: Engine, p: Projection, e: Expr, u: Unit)
    requires NameKept(p, e)
    ensures !Simplified(p, e).Star? && Simplified(p, e).OutputName() == p.OutputName()
    ensures ExprValue(g, e, u) == ExprValue(g, p.expr, u) ==> ItemFields(g, p, u) == ItemFields(g, Simplified(p, e), u)
  {
  }

  lemma SimplifySound(w: World, q: SelectQuery, t: TableConstraints, i: nat, e: Expr)
    requires SingleTable(q) && RowLevel(q) && PlainTableName(q) && TableMeets(w, RowsOf(w, q), t)
    requires i < |q.projections| && NameKept(q.projections[i], e)
    requires LiteralBranches(q.projections[i].expr)
    requires BranchesSpelled(w, q.projections[i].expr, t, q.tableAlias, q.table.value)
    requires SimplifyCase(q.projections[i].expr, VerdictFor(t, q.tableAlias, q.table.value)) == Some(e)
    ensures Eval(w, q) == Eval(w, q.(projections := q.projections[i := Simplified(q.projections[i], e)]))
  {
    hide Eval;
    hide Selected;
    hide ExprValue;
    hide Simplified;
    hide BranchesSpelled;
    var p := q.projections[i];
    var r := Simplified(p, e);
    SimplifiedNoAggregate(q, t, i, e);
    forall u | u in Selected(w, q, FromRows(w, q)) ensures ItemFields(w.engine, p, u) == ItemFields(w.engine, r, u) {
      RowLevelUnits(w, q, u);
      var rec :| rec in RowsOf(w, q) && u == [[Binding(q.SourceName(), rec)]];
      SimplifiedOnRow(w, q, t, p.expr, rec);
      SimplifiedItem(w.engine, p, e, u);
    }
    SimplifiedItem(w.engine, p, e, [Header(w, q)]);
    CountDistinctRule.ReplaceItem(w, q, i, r);
  }

  lemma SimplifiedNoAggregate(q: SelectQuery, t: TableConstraints, i: nat, e: Expr)
    requires SingleTable(q) && RowLevel(q) && i < |q.projections| && NameKept(q.projections[i], e)
    requires q.projections[i].expr.Case?
    requires SimplifyCase(q.projections[i].expr, VerdictFor(t, q.tableAlias, q.table.value)) == Some(e)
    ensures !AnyAggregate(q.projections[i := Simplified(q.projections[i], e)])
  {
    var p := q.projections[i];
    assert p in q.projections && !ContainsAggregate(p.expr);
    assert [] + p.expr.branches == p.expr.branches;
    SimplifyRowLevel(p.expr.branches, [], false, p.expr.default, VerdictFor(t, q.tableAlias, q.table.value));
    ReplacedRowLevel(q.projections, i, Simplified(p, e));
  }

  /** What the rule does not check: row-level items, literal lists after IN, and literals whose spelling tells them from
      the accepted values. */
  ghost predicate CaseLimits(w: World, q: SelectQuery, catalog: Catalog, i: nat) {
    && PlainTableName(q) && !q.Aggregates() && i < |q.projections|
    && (q.projections[i].Computed? && q.projections[i].expr.Case?
        && q.table.Some? && catalog.Table(q.table.value).Some? ==>
          var p, t := q.projections[i], catalog.Table(q.table.value).value;
          var e := SimplifyCase(p.expr, VerdictFor(t, q.tableAlias, q.table.value));
          && LiteralBranches(p.expr) && BranchesSpelled(w, p.expr, t, q.tableAlias, q.table.value)
          && (e.Some? ==> NameKept(p, e.value)))
  }

  lemma ProvenCase(q: SelectQuery, catalog: Catalog, i: nat)
    requires i < |q.projections| && SuggestCaseAt(q, catalog, i).Proven()
    ensures q.projections[i].Computed? && q.projections[i].expr.Case? && SingleTable(q) && q.TableName().Some?
    ensures q.groupBy == [] && q.having == [] && q.qualify == [] && catalog.Table(q.table.value).Some?
    ensures var p, t := q.projections[i], catalog.Table(q.table.value).value;
            var e := SimplifyCase(p.expr, VerdictFor(t, q.tableAlias, q.table.value));
            e.Some? && SuggestCaseAt(q, catalog, i).rewritten.value
                       == q.(projections := q.projections[i := Simplified(p, e.value)])
  {
  }

  /** CASE simplification leaves the relation as it was. */
  lemma CaseSimplification(w: World, q: SelectQuery, catalog: Catalog, i: nat)
    requires Meets(w, catalog) && CaseLimits(w, q, catalog, i)
    requires SuggestCaseAt(q, catalog, i).Proven()
    ensures Eval(w, q) == Eval(w, SuggestCaseAt(q, catalog, i).rewritten.value)
  {
    hide Eval;
    hide SimplifyCase;
    hide BranchesSpelled;
    ProvenCase(q, catalog, i);
    var t := catalog.Table(q.table.value).value;
    assert TableMeets(w, RowsOf(w, q), t);
    SimplifySound(w, q, t, i,
      SimplifyCase(q.projections[i].expr, VerdictFor(t, q.tableAlias, q.table.value)).value);
  }
}
