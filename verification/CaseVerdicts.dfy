/** When the verdicts on CASE conditions are right: decided over all databases for subqueries after IN, and inputs on
    which a branch that is taken is dropped. */
module CaseVerdicts {
  import opened Ir
  import opened Lists
  import opened Semantics
  import opened Pipeline
  import opened Constraints
  import opened Rewrites
  import opened TableRows
  import opened Distinct
  import opened Filters
  import opened AcceptedValuesCase
  import opened Witnesses
  import opened UnqualifiedColumns
  import opened Counterexamples

  // ----- a condition on a column with accepted values

  /** A condition that the rule judges, as the parser leaves it: IN has a list or a subquery. */
  predicate Judged(q: SelectQuery, c: Condition, t: TableConstraints) {
    && q.table.Some? && TestOf(c).Some? && AcceptedDomain(TestOf(c).value.column, t, q.tableAlias, q.table.value).Some?
    && (c.InCondition? && c.query.Some? ==> c.items == [])
  }

  lemma SubqueryVerdict(q: SelectQuery, c: Condition, t: TableConstraints)
    requires Judged(q, c, t) && !LiteralList(c)
    ensures ConditionVerdict(c, t, q.tableAlias, q.table.value).AlwaysFalse? && TestOf(c).value.literals == []
  {
    var domain := AcceptedDomain(TestOf(c).value.column, t, q.tableAlias, q.table.value).value;
    assert domain[0] in domain && domain[0] in Spellings(domain) && Spellings([]) == {};
  }

  /** An engine whose literals all denote zero and whose opaque conditions are all true. */
  ghost function Agreeing(): Engine {
    PlainWorld(map[]).engine.(test := (s, e) => True3)
  }

  /** One row of zeros. */
  ghost function ZeroWorld(q: SelectQuery, t: TableConstraints): World
    requires q.table.Some?
  {
    World(map[q.table.value := Relation(AllColumns(t, []), [OneRow(AllColumns(t, []))])], Agreeing())
  }

  lemma ZerosMeet(w: World, t: TableConstraints)
    requires w.engine == Agreeing() && t.foreignKeys == []
    ensures TableMeets(w, [OneRow(AllColumns(t, []))], t)
  {
    hide AllColumns;
    var cols := AllColumns(t, []);
    forall c | c in t.columns ensures Get(OneRow(cols), c) == Val(Number(0.0)) {
      OneRowValue(cols, c);
    }
    forall c | c in t.columns && t.columns[c].acceptedValues != []
      ensures AcceptsOnly(w, [OneRow(cols)], c, t.columns[c].acceptedValues)
    {
      var accepted := LiteralValues(w.engine, t.columns[c].acceptedValues);
      assert accepted[0] == Val(Number(0.0)) && accepted[0] in accepted;
    }
  }

  lemma ZeroWorldMeets(q: SelectQuery, catalog: Catalog)
    requires q.table.Some? && ConstraintsOf(q, catalog).foreignKeys == []
    ensures var w := ZeroWorld(q, ConstraintsOf(q, catalog)); WellFormed(w) && Meets(w, catalog)
  {
    hide TableMeets;
    hide AllColumns;
    hide Agreeing;
    hide OneRow;
    var t, w := ConstraintsOf(q, catalog), ZeroWorld(q, ConstraintsOf(q, catalog));
    forall name | name in catalog.tables ensures TableMeets(w, TableRelation(w, name).rows, catalog.tables[name]) {
      if name == q.table.value {
        ZerosMeet(w, t);
      } else {
        NoRowsMeet(w, catalog.tables[name]);
      }
    }
    OneRowNames(AllColumns(t, []));
  }

  /** The verdict is right on every row of every database that meets the constraints and tells spellings apart. */
  ghost predicate AlwaysRight(q: SelectQuery, c: Condition, catalog: Catalog)
    requires q.table.Some?
  {
    forall w: World, r: Record ::
      WellFormed(w) && Meets(w, catalog) && r in RowsOf(w, q)
      && WellSpelled(w, c, ConstraintsOf(q, catalog), q.tableAlias, q.table.value)
      ==> VerdictRight(w, ConditionVerdict(c, ConstraintsOf(q, catalog), q.tableAlias, q.table.value), c,
        [Binding(q.SourceName(), r)])
  }

  lemma SubqueryFound(q: SelectQuery, c: Condition, catalog: Catalog)
    requires q.table.Some? && Judged(q, c, ConstraintsOf(q, catalog)) && !LiteralList(c)
    requires ConstraintsOf(q, catalog).foreignKeys == []
    ensures !AlwaysRight(q, c, catalog)
  {
    hide Meets;
    hide WellFormed;
    hide ConditionVerdict;
    hide AllColumns;
    hide OneRow;
    var t := ConstraintsOf(q, catalog);
    var w, row := ZeroWorld(q, t), OneRow(AllColumns(t, []));
    SubqueryVerdict(q, c, t);
    ZeroWorldMeets(q, catalog);
    assert WellSpelled(w, c, t, q.tableAlias, q.table.value);
    assert row in RowsOf(w, q);
    assert ConditionTruth(w.engine, c, [Binding(q.SourceName(), row)]).True3?;
  }

  /** A verdict on a condition is right on every row of every database that meets the constraints, spellings apart, if
      and only if the condition is no IN with a subquery. */
  lemma SubqueryVerdictExact(q: SelectQuery, c: Condition, catalog: Catalog)
    requires SingleTable(q) && PlainTableName(q) && q.table.value in catalog.tables
    requires Judged(q, c, ConstraintsOf(q, catalog)) && ConstraintsOf(q, catalog).foreignKeys == []
    ensures AlwaysRight(q, c, catalog) <==> LiteralList(c)
  {
    hide ConditionVerdict;
    hide WellSpelled;
    hide VerdictRight;
    var t := ConstraintsOf(q, catalog);
    if LiteralList(c) {
      forall w: World, r: Record |
        WellFormed(w) && Meets(w, catalog) && r in RowsOf(w, q) && WellSpelled(w, c, t, q.tableAlias, q.table.value)
        ensures VerdictRight(w, ConditionVerdict(c, t, q.tableAlias, q.table.value), c, [Binding(q.SourceName(), r)])
      {
        assert TableMeets(w, RowsOf(w, q), t);
        ConditionVerdictRight(w, q, t, c, r);
      }
    } else {
      SubqueryFound(q, c, catalog);
    }
  }

  // ----- a branch that is taken and dropped

  /** SELECT CASE WHEN <condition> THEN c END AS shown FROM t */
  function CaseOf(t: string, c: string, shown: string, condition: Condition): SelectQuery {
    PlainQuery(t, [Computed(Case([Branch(condition, ColumnExpr(ColName(None, c)))], None), Some(shown))])
  }

  function Accepts(t: string, c: string, v: Literal): Catalog {
    Catalog(map[t := TableConstraints(map[c := ColumnConstraint(Some(false), [v])], [], [])])
  }

  ghost function OneValueWorld(g: Engine, t: string, c: string, v: Literal): World {
    World(map[t := Relation([c], [[Field(c, Val(g.literal(v)))]])], g)
  }

  lemma OneValueMeets(g: Engine, t: string, c: string, v: Literal)
    ensures WellFormed(OneValueWorld(g, t, c, v)) && Meets(OneValueWorld(g, t, c, v), Accepts(t, c, v))
  {
    var w, row := OneValueWorld(g, t, c, v), [Field(c, Val(g.literal(v)))];
    assert Names(row) == [c] && Get(row, c) == Val(g.literal(v));
    assert LiteralValues(w.engine, [v])[0] == Val(w.engine.literal(v));
    assert Get(row, c) in LiteralValues(w.engine, [v]);
  }

  /** The condition compares the column with other spellings than the accepted one. */
  predicate SpelledOtherwise(c: string, condition: Condition, v: Literal) {
    TestOf(condition).Some? && TestOf(condition).value.column == ColName(None, c) &&
      v !in TestOf(condition).value.literals
  }

  lemma BranchDropped(t: string, c: string, shown: string, condition: Condition, v: Literal)
    requires SpelledOtherwise(c, condition, v)
    ensures var q, s := CaseOf(t, c, shown, condition),
      SuggestCaseAt(CaseOf(t, c, shown, condition), Accepts(t, c, v), 0);
            s.Proven() && s.rewritten == Some(q.(projections := [Computed(NullExpr, Some(shown))]))
  {
    var q, table := CaseOf(t, c, shown, condition), Accepts(t, c, v).tables[t];
    var e, verdict := q.projections[0].expr, VerdictFor(table, q.tableAlias, t);
    assert v in [v] && v in Spellings([v]);
    assert DomainVerdict([v], TestOf(condition).value.literals).AlwaysFalse?;
    assert verdict(e.branches[0].condition).AlwaysFalse?;
    assert e.branches[1..] == [];
    assert SimplifyFrom(e.branches[1..], [], true, e.default, verdict) == Some(NullExpr);
    assert SimplifyFrom(e.branches, [], false, e.default, verdict) == Some(NullExpr);
    assert q.projections[0 := Computed(NullExpr, Some(shown))] == [Computed(NullExpr, Some(shown))];
  }

  lemma OneItemAnswer(w: World, t: string, p: Projection, row: Record)
    requires TableRelation(w, t).rows == [row] && p.Computed? && !p.IsAggregate()
    ensures Answer(w, PlainQuery(t, [p])) ==
      multiset{[Field(p.OutputName(), ExprValue(w.engine, p.expr, [[Binding(t, row)]]))]}
  {
    hide Eval;
    var q := PlainQuery(t, [p]);
    SingleTableRows(w, q);
    assert FromRows(w, q) == [[Binding(t, row)]];
    OneRowAnswer(w, q, [Binding(t, row)]);
    OneItem(w.engine, p, [Binding(t, row)]);
  }

  lemma BranchTaken(g: Engine, t: string, c: string, shown: string, condition: Condition, row: Record)
    requires |row| == 1 && row[0].name == c && ConditionTruth(g, condition, [Binding(t, row)]).True3?
    ensures ExprValue(g, CaseOf(t, c, shown, condition).projections[0].expr, [[Binding(t, row)]]) == row[0].value
  {
    hide ConditionTruth;
    var e, u := CaseOf(t, c, shown, condition).projections[0].expr, [[Binding(t, row)]];
    assert HasField(row, c) && RowOf(u) == [Binding(t, row)];
    assert CaseValue(g, e.branches, u) == Some(BranchValue(g, e.branches[0], u));
    assert Lookup(RowOf(u), ColName(None, c)) == Get(row, c) == row[0].value;
    assert BranchValue(g, e.branches[0], u) == ExprValue(g, ColumnExpr(ColName(None, c)), u);
  }

  /** The rule drops the branch, which is true of the row. */
  lemma BranchMisjudged(g: Engine, t: string, c: string, shown: string, condition: Condition, v: Literal)
    requires SpelledOtherwise(c, condition, v)
    requires ConditionTruth(g, condition, [Binding(t, [Field(c, Val(g.literal(v)))])]).True3?
    ensures var q, w, catalog := CaseOf(t, c, shown, condition), OneValueWorld(g, t, c, v), Accepts(t, c, v);
            && SuggestCaseAt(q, catalog, 0).Proven() && WellFormed(w) && Meets(w, catalog)
            && Answer(w, q) != Answer(w, SuggestCaseAt(q, catalog, 0).rewritten.value)
  {
    hide Eval;
    hide SuggestCaseAt;
    hide Meets;
    hide ConditionTruth;
    var q, w := CaseOf(t, c, shown, condition), OneValueWorld(g, t, c, v);
    var row, r := [Field(c, Val(g.literal(v)))], Computed(NullExpr, Some(shown));
    OneValueMeets(g, t, c, v);
    BranchDropped(t, c, shown, condition, v);
    var branch := q.projections[0].expr.branches[0];
    assert !ContainsAggregate(branch.result) && TableRelation(w, t).rows == [row];
    assert forall b :: b in q.projections[0].expr.branches ==> b == branch;
    OneItemAnswer(w, t, q.projections[0], row);
    OneItemAnswer(w, t, r, row);
    BranchTaken(g, t, c, shown, condition, row);
    var a, b := [Field(shown, row[0].value)], [Field(shown, Null)];
    assert a[0] != b[0];
    DifferentRows(a, b);
  }

  /** A subquery after IN is taken for an empty list, which no accepted value is in. */
  lemma SubqueryMisjudged(t: string, c: string, shown: string, code: OpaqueSql, v: Literal)
    ensures var condition := InCondition(ColumnOperand(ColName(None, c)), [], Some(code));
            var q, w, catalog := CaseOf(t, c, shown, condition), OneValueWorld(Agreeing(), t, c, v), Accepts(t, c, v);
            && SuggestCaseAt(q, catalog, 0).Proven() && WellFormed(w) && Meets(w, catalog)
            && Answer(w, q) != Answer(w, SuggestCaseAt(q, catalog, 0).rewritten.value)
  {
    hide Eval;
    hide SuggestCaseAt;
    hide Meets;
    BranchMisjudged(Agreeing(), t, c, shown, InCondition(ColumnOperand(ColName(None, c)), [], Some(code)), v);
  }

  /** `1` is accepted and the condition says `c = 1.0`: any two spellings of one value mislead the rule. */
  lemma SpellingMisjudged(g: Engine, t: string, c: string, shown: string, accepted: Literal, listed: Literal)
    requires accepted != listed && g.literal(accepted) == g.literal(listed)
    ensures var condition := EqCondition(ColumnOperand(ColName(None, c)), LiteralOperand(listed));
            var q, w, catalog := CaseOf(t, c, shown, condition), OneValueWorld(g, t, c, accepted),
              Accepts(t, c, accepted);
            && SuggestCaseAt(q, catalog, 0).Proven() && WellFormed(w) && Meets(w, catalog)
            && Answer(w, q) != Answer(w, SuggestCaseAt(q, catalog, 0).rewritten.value)
  {
    hide Eval;
    hide SuggestCaseAt;
    hide Meets;
    var condition := EqCondition(ColumnOperand(ColName(None, c)), LiteralOperand(listed));
    var row := [Field(c, Val(g.literal(accepted)))];
    assert HasField(row, c) && Lookup([Binding(t, row)], ColName(None, c)) == Get(row, c) == row[0].value;
    assert ConditionTruth(g, condition, [Binding(t, row)]).True3?;
    BranchMisjudged(g, t, c, shown, condition, accepted);
  }
}
