/** Which fragments a WITH query has, and when and to what a fragment parses, in terms of the CTEs themselves. */
module FragmentLaws {
  import opened Ir
  import opened Lists
  import opened Statements
  import opened Ctes
  import opened CteSources
  import opened Fragments

  // ----- chains of CTEs

  /** Each name is a CTE that reads the next one, and the last one reads the table. */
  predicate ReadsThrough(ctes: map<string, SelectQuery>, names: seq<string>, table: string)
    decreases |names|
  {
    && names != [] && names[0] in ctes && ctes[names[0]].table.Some? && ctes[names[0]].subquery.None?
    && if |names| == 1 then ctes[names[0]].table.value == table && table !in ctes
       else ctes[names[0]].table.value == names[1] && ReadsThrough(ctes, names[1..], table)
  }

  /** SELECT * or a list of unaliased columns, and no other clause but OFFSET. */
  predicate OnlyPasses(q: SelectQuery) {
    && q.joins == [] && q.predicates == [] && q.groupBy == [] && q.having == [] && q.qualify == [] && q.orderBy == []
    && q.limit.None? && !q.distinct
    && (q.projections == [Star(None)]
        || forall p :: p in q.projections ==> (p.Column? && p.alias.None?) || (p.Star? && p.table.Some?))
  }

  /** No name comes twice, or is one of `seen`. */
  predicate Fresh(names: seq<string>, seen: set<string>) {
    NoDuplicates(names) && forall n :: n in names ==> n !in seen
  }

  /** A chain from the name to the table whose CTEs only pass columns on. */
  ghost predicate PassesTo(name: string, ctes: map<string, SelectQuery>, seen: set<string>, table: string) {
    exists names :: ReadsThrough(ctes, names, table) && names[0] == name && Fresh(names, seen)
                    && forall n :: n in names && n in ctes ==> OnlyPasses(ctes[n])
  }

  /** A chain from the name to some table. */
  ghost predicate EndsSomewhere(name: string, ctes: map<string, SelectQuery>, seen: set<string>) {
    exists names, table :: ReadsThrough(ctes, names, table) && names[0] == name && Fresh(names, seen)
  }

  lemma OnlyPassesExact(q: SelectQuery)
    ensures PassesSource(q) <==> OnlyPasses(q) && q.table.Some? && q.subquery.None?
  {
    if q.projections == [Star(None)] {
      assert Star(None) in q.projections;
    }
  }

  lemma FreshStep(name: string, rest: seq<string>, seen: set<string>)
    ensures Fresh([name] + rest, seen) <==> name !in seen && Fresh(rest, seen + {name})
  {
    var all := [name] + rest;
    assert all[0] == name && all[1..] == rest;
    forall n ensures n in all <==> n == name || n in rest {
      InCons(n, name, rest);
    }
    if NoDuplicates(all) {
      forall i | 0 <= i < |rest| ensures rest[i] != name {
        assert all[i + 1] == rest[i];
      }
      forall i, k | 0 <= i < k < |rest| ensures rest[i] != rest[k] {
        assert all[i + 1] != all[k + 1];
      }
    }
    if NoDuplicates(rest) && name !in rest {
      forall i, k | 0 <= i < k < |all| ensures all[i] != all[k] {
        assert all[k] == rest[k - 1] && (i > 0 ==> all[i] == rest[i - 1]);
      }
    }
  }

  lemma NoneFresh(seen: set<string>)
    ensures Fresh([], seen)
  {
  }

  lemma {:induction false} PassThroughExact(name: string, ctes: map<string, SelectQuery>, seen: set<string>,
    table: string)
    requires name in ctes
    ensures PassThrough(name, ctes, seen) == Resolved(table) <==> PassesTo(name, ctes, seen, table)
    decreases |ctes.Keys - seen|
  {
    hide PassesSource;
    hide OnlyPasses;
    hide Fresh;
    OnlyPassesExact(ctes[name]);
    if PassesTo(name, ctes, seen, table) {
      var names :| ReadsThrough(ctes, names, table) && names[0] == name && Fresh(names, seen)
                   && forall n :: n in names && n in ctes ==> OnlyPasses(ctes[n]);
      var rest := names[1..];
      assert names == [name] + rest && name in names;
      FreshStep(name, rest, seen);
      if rest != [] {
        var next := names[1];
        assert ReadsThrough(ctes, rest, table) && next == rest[0] && forall n :: n in rest ==> n in names;
        assert ctes.Keys - (seen + {name}) == ctes.Keys - seen - {name};
        PassThroughExact(next, ctes, seen + {name}, table);
        assert PassesTo(next, ctes, seen + {name}, table);
      }
    }
    if PassThrough(name, ctes, seen) == Resolved(table) {
      var next := ctes[name].table.value;
      var rest := [];
      NoneFresh(seen + {name});
      if next in ctes {
        assert ctes.Keys - (seen + {name}) == ctes.Keys - seen - {name};
        PassThroughExact(next, ctes, seen + {name}, table);
        rest :| ReadsThrough(ctes, rest, table) && rest[0] == next && Fresh(rest, seen + {name})
                && forall n :: n in rest && n in ctes ==> OnlyPasses(ctes[n]);
      }
      FreshStep(name, rest, seen);
      var names := [name] + rest;
      assert names[0] == name && names[1..] == rest && ReadsThrough(ctes, names, table);
      forall n | n in names && n in ctes ensures OnlyPasses(ctes[n]) {
        InCons(n, name, rest);
      }
    }
  }

  lemma {:induction false} OpaqueExact(name: string, ctes: map<string, SelectQuery>, seen: set<string>)
    requires name in ctes
    ensures OpaqueError(name, ctes, seen).None? <==> EndsSomewhere(name, ctes, seen)
    decreases |ctes.Keys - seen|
  {
    hide Fresh;
    if EndsSomewhere(name, ctes, seen) {
      var names, table :| ReadsThrough(ctes, names, table) && names[0] == name && Fresh(names, seen);
      var rest := names[1..];
      assert names == [name] + rest;
      FreshStep(name, rest, seen);
      if rest != [] {
        assert ReadsThrough(ctes, rest, table) && names[1] == rest[0];
        assert ctes.Keys - (seen + {name}) == ctes.Keys - seen - {name};
        OpaqueExact(names[1], ctes, seen + {name});
        assert EndsSomewhere(names[1], ctes, seen + {name});
      }
    }
    if OpaqueError(name, ctes, seen).None? {
      var next := ctes[name].table.value;
      var rest, table := [], next;
      NoneFresh(seen + {name});
      if next in ctes {
        assert ctes.Keys - (seen + {name}) == ctes.Keys - seen - {name};
        OpaqueExact(next, ctes, seen + {name});
        rest, table :| ReadsThrough(ctes, rest, table) && rest[0] == next && Fresh(rest, seen + {name});
      }
      FreshStep(name, rest, seen);
      var names := [name] + rest;
      assert names[0] == name && names[1..] == rest && ReadsThrough(ctes, names, table);
    }
  }

  /** What a relation in FROM or JOIN becomes. */
  ghost predicate BecomesSource(name: string, alias: Option<string>, ctes: map<string, SelectQuery>, r: Source) {
    if name !in ctes then r == Source(name, alias, false)
    else if exists table :: PassesTo(name, ctes, {}, table) then
      && PassesTo(name, ctes, {}, r.table) && !r.isCte
      && r.alias == Some(if alias.Some? then alias.value else name)
    else r == Source(name, alias, true)
  }

  /** A CTE is read through to its table when the chain only passes columns on, and stays a relation of its own name
      when the chain at least ends at a table; otherwise it is rejected. */
  lemma SourceExact(name: string, alias: Option<string>, ctes: map<string, SelectQuery>)
    ensures var r := ReadSource(name, alias, ctes);
            && (r.Resolved? <==> name !in ctes || EndsSomewhere(name, ctes, {}))
            && (r.Resolved? ==> BecomesSource(name, alias, ctes, r.value))
  {
    if name in ctes {
      OpaqueExact(name, ctes, {});
      forall table ensures PassThrough(name, ctes, {}) == Resolved(table) <==> PassesTo(name, ctes, {}, table) {
        PassThroughExact(name, ctes, {}, table);
      }
      var base := PassThrough(name, ctes, {});
      if base.Resolved? {
        PassesEndSomewhere(name, ctes, base.value);
      }
    }
  }

  lemma PassesEndSomewhere(name: string, ctes: map<string, SelectQuery>, table: string)
    requires PassesTo(name, ctes, {}, table)
    ensures EndsSomewhere(name, ctes, {})
  {
  }

  // ----- parsing a fragment

  ghost predicate JoinBecomes(j: Join, ctes: map<string, SelectQuery>, r: Join) {
    if j.subquery.Some? then r == j
    else
      && r == j.(table := r.table, alias := r.alias, tableIsCte := r.tableIsCte)
      && BecomesSource(j.table, j.alias, ctes, Source(r.table, r.alias, r.tableIsCte))
  }

  ghost predicate Followed(name: string, ctes: map<string, SelectQuery>) {
    name !in ctes || EndsSomewhere(name, ctes, {})
  }

  /** All relations can be followed. */
  ghost predicate AllFollowed(q: SelectQuery, ctes: map<string, SelectQuery>) {
    && (q.table.Some? ==> Followed(q.table.value, ctes))
    && forall j :: j in q.joins && j.subquery.None? ==> Followed(j.table, ctes)
  }

  /** Every source is what the CTEs make of it, an EXISTS is marked when it reads a CTE, and nothing else changes. */
  ghost predicate SourcesBecome(q: SelectQuery, ctes: map<string, SelectQuery>, r: SelectQuery) {
    && r == q.(table := r.table, tableAlias := r.tableAlias, tableIsCte := r.tableIsCte, joins := r.joins,
               predicates := r.predicates)
    && (if q.table.None? then r.table.None? && r.tableAlias == q.tableAlias && r.tableIsCte == q.tableIsCte
        else r.table.Some?
             && BecomesSource(q.table.value, q.tableAlias, ctes, Source(r.table.value, r.tableAlias, r.tableIsCte)))
    && |r.joins| == |q.joins| && (forall i :: 0 <= i < |q.joins| ==> JoinBecomes(q.joins[i], ctes, r.joins[i]))
    && |r.predicates| == |q.predicates|
    && forall i :: 0 <= i < |q.predicates| ==>
         r.predicates[i] == if q.predicates[i].Exists? then
                              q.predicates[i].(tableIsCte := q.predicates[i].table in ctes)
                            else q.predicates[i]
  }

  lemma {:induction false} JoinsExact(joins: seq<Join>, ctes: map<string, SelectQuery>)
    ensures var r := ReadJoins(joins, ctes);
            && (r.Resolved? <==> forall j :: j in joins && j.subquery.None? ==> Followed(j.table, ctes))
            && (r.Resolved? ==>
                  |r.value| == |joins| && forall i :: 0 <= i < |joins| ==> JoinBecomes(joins[i], ctes, r.value[i]))
  {
    hide BecomesSource;
    hide EndsSomewhere;
    hide ReadSource;
    if joins != [] {
      JoinsExact(joins[1..], ctes);
      SourceExact(joins[0].table, joins[0].alias, ctes);
      assert forall j :: j in joins <==> j == joins[0] || j in joins[1..];
    }
  }

  lemma SourcesExact(q: SelectQuery, ctes: map<string, SelectQuery>)
    ensures var r := ReadSources(q, ctes);
            && (r.Resolved? <==> AllFollowed(q, ctes)) && (r.Resolved? ==> SourcesBecome(q, ctes, r.value))
  {
    hide BecomesSource;
    hide EndsSomewhere;
    hide ReadSource;
    hide JoinBecomes;
    if q.table.Some? {
      SourceExact(q.table.value, q.tableAlias, ctes);
    }
    JoinsExact(q.joins, ctes);
  }

  /** A fragment parses exactly when it has no WITH clause of its own, no circular chain, and only relations that can be
      followed; it is then the resolved body with its sources replaced. */
  lemma ParsedExact(body: Statement, ctes: map<string, SelectQuery>)
    ensures var r, resolved := ParseFragment(body, ctes), Resolve(body.outer, ctes, {});
            && (r.Resolved? <==> body.ctes == [] && resolved.Resolved? && AllFollowed(resolved.value, ctes))
            && (r.Resolved? ==> SourcesBecome(resolved.value, ctes, r.value))
            && (body.ctes != [] ==> r == Rejected(NestedWith))
  {
    hide AllFollowed;
    hide SourcesBecome;
    hide ReadSources;
    var resolved := Resolve(body.outer, ctes, {});
    if resolved.Resolved? {
      SourcesExact(resolved.value, ctes);
    }
  }

  // ----- which suggestions count as the same

  /** Two suggestions are the same proof exactly when rule, fragment and rewritten fragment are the same up to the
      provenance texts. */
  lemma KeyExact(x: SubtreeSuggestion, y: SubtreeSuggestion)
    ensures Key(x) == Key(y)
       <==> && x.rule == y.rule && x.original.(rawSql := y.original.rawSql) == y.original
            && x.fragment.(rawSql := y.fragment.rawSql) == y.fragment
  {
    SameText(x.original, y.original);
    SameText(x.fragment, y.fragment);
  }

  lemma SameText(a: SelectQuery, b: SelectQuery)
    ensures a.(rawSql := "") == b.(rawSql := "") <==> a.(rawSql := b.rawSql) == b
  {
    if a.(rawSql := "") == b.(rawSql := "") {
      assert a.(rawSql := "").(rawSql := b.rawSql) == b.(rawSql := "").(rawSql := b.rawSql);
    }
    if a.(rawSql := b.rawSql) == b {
      assert a.(rawSql := b.rawSql).(rawSql := "") == b.(rawSql := "");
    }
  }

  // ----- the list of fragments

  predicate SelectNamed(ctes: seq<Cte>, k: nat, name: string) {
    k < |ctes| && ctes[k].body.Select? && ctes[k].name == name
  }

  /** CTE `i` is the first SELECT of its name. */
  predicate FirstSelect(ctes: seq<Cte>, i: nat) {
    i < |ctes| && ctes[i].body.Select? && forall k :: 0 <= k < i ==> !SelectNamed(ctes, k, ctes[i].name)
  }

  ghost predicate NamesUpTo(ctes: seq<Cte>, n: nat, names: set<string>) {
    forall name :: name in names <==> exists k :: 0 <= k < n && SelectNamed(ctes, k, name)
  }

  /** The scope has the names of the SELECTs among the first `n` CTEs, each with the body of the first of its name. */
  ghost predicate ScopeUpTo(ctes: seq<Cte>, n: nat, scope: map<string, SelectQuery>)
    requires n <= |ctes|
  {
    && NamesUpTo(ctes, n, scope.Keys)
    && forall i :: 0 <= i < n && FirstSelect(ctes, i) ==>
         ctes[i].name in scope && scope[ctes[i].name] == ctes[i].body.statement.outer
  }

  lemma ScopeSame(ctes: seq<Cte>, m: nat, scope: map<string, SelectQuery>)
    requires m < |ctes| && ScopeUpTo(ctes, m, scope) && (!ctes[m].body.Select? || ctes[m].name in scope)
    ensures ScopeUpTo(ctes, m + 1, scope) && !FirstSelect(ctes, m)
  {
    hide FirstSelect;
    hide NamesUpTo;
    NamesSame(ctes, m, scope.Keys);
    NotFirst(ctes, m, scope.Keys);
  }

  lemma NotFirst(ctes: seq<Cte>, m: nat, names: set<string>)
    requires m < |ctes| && NamesUpTo(ctes, m, names) && (!ctes[m].body.Select? || ctes[m].name in names)
    ensures !FirstSelect(ctes, m)
  {
    if ctes[m].name in names {
      var k :| 0 <= k < m && SelectNamed(ctes, k, ctes[m].name);
    }
  }

  lemma NamesSame(ctes: seq<Cte>, m: nat, names: set<string>)
    requires m < |ctes| && NamesUpTo(ctes, m, names) && (!ctes[m].body.Select? || ctes[m].name in names)
    ensures NamesUpTo(ctes, m + 1, names)
  {
    forall name ensures name in names <==> exists k :: 0 <= k < m + 1 && SelectNamed(ctes, k, name) {
      assert SelectNamed(ctes, m, name) ==> name in names;
    }
  }

  lemma NamesGrow(ctes: seq<Cte>, m: nat, names: set<string>)
    requires m < |ctes| && NamesUpTo(ctes, m, names) && ctes[m].body.Select?
    ensures NamesUpTo(ctes, m + 1, names + {ctes[m].name})
  {
    forall name ensures name in names + {ctes[m].name} <==> exists k :: 0 <= k < m + 1 && SelectNamed(ctes, k, name) {
      assert SelectNamed(ctes, m, name) <==> name == ctes[m].name;
      if name in names {
        var k :| 0 <= k < m && SelectNamed(ctes, k, name);
      }
    }
  }

  /** No name of the scope is the name of a SELECT that is not there. */
  lemma FirstIsNew(ctes: seq<Cte>, m: nat, names: set<string>)
    requires m < |ctes| && NamesUpTo(ctes, m, names) && ctes[m].body.Select? && ctes[m].name !in names
    ensures FirstSelect(ctes, m) && forall i :: 0 <= i < m && FirstSelect(ctes, i) ==> ctes[i].name != ctes[m].name
  {
    forall i | 0 <= i < m && FirstSelect(ctes, i) ensures ctes[i].name != ctes[m].name {
      assert SelectNamed(ctes, i, ctes[i].name);
    }
  }

  lemma ScopeGrows(ctes: seq<Cte>, m: nat, scope: map<string, SelectQuery>)
    requires m < |ctes| && ScopeUpTo(ctes, m, scope) && ctes[m].body.Select? && ctes[m].name !in scope
    ensures ScopeUpTo(ctes, m + 1, scope[ctes[m].name := ctes[m].body.statement.outer]) && FirstSelect(ctes, m)
  {
    hide FirstSelect;
    var after := scope[ctes[m].name := ctes[m].body.statement.outer];
    NamesGrow(ctes, m, scope.Keys);
    FirstIsNew(ctes, m, scope.Keys);
    assert after.Keys == scope.Keys + {ctes[m].name};
    hide NamesUpTo;
  }

  lemma {:induction false} ScopeExact(ctes: seq<Cte>, n: nat)
    requires n <= |ctes|
    ensures ScopeUpTo(ctes, n, SelectBodies(ctes[..n]))
    decreases n
  {
    if n == 0 {
      assert ctes[..0] == [];
    } else {
      hide ScopeUpTo;
      hide FirstSelect;
      var m := n - 1;
      assert ctes[..n][..m] == ctes[..m] && ctes[..n][m] == ctes[m];
      ScopeExact(ctes, m);
      if ctes[m].body.Select? && ctes[m].name !in SelectBodies(ctes[..m]) {
        ScopeGrows(ctes, m, SelectBodies(ctes[..m]));
      } else {
        ScopeSame(ctes, m, SelectBodies(ctes[..m]));
      }
    }
  }

  ghost predicate FragmentOf(ctes: seq<Cte>, i: nat, f: QueryFragment) {
    && FirstSelect(ctes, i) && f.location == CteAt(ctes[i].name)
    && exists scope :: ScopeUpTo(ctes, i, scope) && f.query == ParseFragment(ctes[i].body.statement, scope)
  }

  /** The fragments of the first `n` CTEs: one for each first SELECT, in the order of the WITH clause. */
  ghost predicate Listed(ctes: seq<Cte>, n: nat, at: seq<nat>, fs: seq<QueryFragment>) {
    && |at| == |fs| && (forall x :: 0 <= x < |at| ==> at[x] < n && FragmentOf(ctes, at[x], fs[x]))
    && (forall x, y :: 0 <= x < y < |at| ==> at[x] < at[y])
    && forall i :: 0 <= i < n && FirstSelect(ctes, i) ==> i in at
  }

  lemma FragmentsStep(ctes: seq<Cte>, m: nat)
    requires m < |ctes|
    ensures var scope := SelectBodies(ctes[..m]);
            CteFragments(ctes[..m + 1]) ==
              if ctes[m].body.Select? && ctes[m].name !in scope then
                CteFragments(ctes[..m])
                + [QueryFragment(CteAt(ctes[m].name), ParseFragment(ctes[m].body.statement, scope))]
              else CteFragments(ctes[..m])
  {
    hide ParseFragment;
    assert ctes[..m + 1][..m] == ctes[..m] && ctes[..m + 1][m] == ctes[m];
  }

  lemma IsFragmentOf(ctes: seq<Cte>, i: nat, scope: map<string, SelectQuery>, f: QueryFragment)
    requires FirstSelect(ctes, i) && ScopeUpTo(ctes, i, scope)
    requires f == QueryFragment(CteAt(ctes[i].name), ParseFragment(ctes[i].body.statement, scope))
    ensures FragmentOf(ctes, i, f)
  {
    hide ScopeUpTo;
    hide FirstSelect;
    hide ParseFragment;
  }

  lemma {:induction false} CteFragmentsExact(ctes: seq<Cte>, n: nat) returns (at: seq<nat>)
    requires n <= |ctes|
    ensures Listed(ctes, n, at, CteFragments(ctes[..n]))
    decreases n
  {
    if n == 0 {
      at := [];
      assert ctes[..0] == [];
    } else {
      hide ParseFragment;
      hide CteFragments;
      hide SelectBodies;
      hide Listed;
      hide ScopeUpTo;
      hide FirstSelect;
      hide FragmentOf;
      var m := n - 1;
      var earlier := CteFragmentsExact(ctes, m);
      FragmentsStep(ctes, m);
      ScopeExact(ctes, m);
      at := ListedNext(ctes, m, SelectBodies(ctes[..m]), earlier, CteFragments(ctes[..m]), CteFragments(ctes[..n]));
    }
  }

  lemma ListedNext(ctes: seq<Cte>, m: nat, scope: map<string, SelectQuery>, earlier: seq<nat>, fs: seq<QueryFragment>,
    more: seq<QueryFragment>) returns (at: seq<nat>)
    requires m < |ctes| && ScopeUpTo(ctes, m, scope) && Listed(ctes, m, earlier, fs)
    requires more == if ctes[m].body.Select? && ctes[m].name !in scope then
                       fs + [QueryFragment(CteAt(ctes[m].name), ParseFragment(ctes[m].body.statement, scope))]
                     else fs
    ensures Listed(ctes, m + 1, at, more)
  {
    hide ParseFragment;
    hide Listed;
    hide ScopeUpTo;
    hide FirstSelect;
    hide FragmentOf;
    if ctes[m].body.Select? && ctes[m].name !in scope {
      ScopeGrows(ctes, m, scope);
      var f := QueryFragment(CteAt(ctes[m].name), ParseFragment(ctes[m].body.statement, scope));
      IsFragmentOf(ctes, m, scope, f);
      ListedMore(ctes, m, earlier, fs, f);
      at := earlier + [m];
    } else {
      ScopeSame(ctes, m, scope);
      ListedSame(ctes, m, earlier, fs);
      at := earlier;
    }
  }

  lemma ListedSame(ctes: seq<Cte>, m: nat, at: seq<nat>, fs: seq<QueryFragment>)
    requires Listed(ctes, m, at, fs) && !FirstSelect(ctes, m)
    ensures Listed(ctes, m + 1, at, fs)
  {
    hide FragmentOf;
    hide FirstSelect;
  }

  lemma ListedMore(ctes: seq<Cte>, m: nat, at: seq<nat>, fs: seq<QueryFragment>, f: QueryFragment)
    requires Listed(ctes, m, at, fs) && FragmentOf(ctes, m, f)
    ensures Listed(ctes, m + 1, at + [m], fs + [f])
  {
    hide FragmentOf;
    var more := at + [m];
    assert more[|at|] == m;
    forall i | 0 <= i < m + 1 && FirstSelect(ctes, i) ensures i in more {
      assert i == m || i in at;
    }
  }

  /** A WITH query has one fragment for each first SELECT of a name, in order, each parsed with the CTEs before it in
      scope, and at last the outer query with all of them in scope. A recursive WITH clause has none. */
  lemma FragmentsExact(s: Statement) returns (at: seq<nat>)
    ensures s.ctes == [] || s.recursive ==> AllFragments(s) == []
    ensures s.ctes != [] && !s.recursive ==>
              var fs := AllFragments(s);
              && |fs| > 0 && Listed(s.ctes, |s.ctes|, at, fs[..|fs| - 1])
              && fs[|fs| - 1].location == OuterAt
              && exists scope :: ScopeUpTo(s.ctes, |s.ctes|, scope)
                                 && fs[|fs| - 1].query == ParseFragment(Statement(false, [], s.outer), scope)
  {
    hide ParseFragment;
    assert s.ctes[..|s.ctes|] == s.ctes;
    at := CteFragmentsExact(s.ctes, |s.ctes|);
    ScopeExact(s.ctes, |s.ctes|);
    if s.ctes != [] && !s.recursive {
      var fs := AllFragments(s);
      assert fs[..|fs| - 1] == CteFragments(s.ctes);
    }
  }
}
