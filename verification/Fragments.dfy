/** The CTE bodies and the outer SELECT of a WITH query, rewritten one at a time and spliced back. */
module Fragments {
  import opened Ir
  import opened Lists
  import opened Semantics
  import opened Pipeline
  import opened Constraints
  import opened Rewrites
  import opened Registry
  import opened Statements
  import opened Ctes
  import opened CteSources
  import PairReduction
  import Distinct
  import Pushdown
  import JoinToExists

  datatype Location = CteAt(name: string) | OuterAt

  datatype QueryFragment = QueryFragment(location: Location, query: Scoped<SelectQuery>)

  // ----- parsing a fragment

  function ReadSource(name: string, alias: Option<string>, scope: map<string, SelectQuery>): Scoped<Source> {
    if name in scope then CteSource(name, alias, scope) else Resolved(Source(name, alias, false))
  }

  /** A derived table stays as it is. */
  function ReadJoin(j: Join, scope: map<string, SelectQuery>): Scoped<Join> {
    if j.subquery.Some? then Resolved(j)
    else
      var source := ReadSource(j.table, j.alias, scope);
      if source.Rejected? then Rejected(source.error)
      else Resolved(j.(table := source.value.table, alias := source.value.alias, tableIsCte := source.value.isCte))
  }

  function ReadJoins(joins: seq<Join>, scope: map<string, SelectQuery>): Scoped<seq<Join>> {
    if joins == [] then Resolved([])
    else
      var first, rest := ReadJoin(joins[0], scope), ReadJoins(joins[1..], scope);
      if first.Rejected? then Rejected(first.error)
      else if rest.Rejected? then rest
      else Resolved([first.value] + rest.value)
  }

  function MarkExists(p: WherePredicate, scope: map<string, SelectQuery>): WherePredicate {
    if p.Exists? then p.(tableIsCte := p.table in scope) else p
  }

  function MarkAll(ps: seq<WherePredicate>, scope: map<string, SelectQuery>): seq<WherePredicate> {
    seq(|ps|, i requires 0 <= i < |ps| => MarkExists(ps[i], scope))
  }

  function ReadSources(q: SelectQuery, scope: map<string, SelectQuery>): Scoped<SelectQuery> {
    var source := if q.table.Some? then ReadSource(q.table.value, q.tableAlias, scope)
      else Resolved(Source("", None, false));
    var joins := ReadJoins(q.joins, scope);
    if source.Rejected? then Rejected(source.error)
    else if joins.Rejected? then Rejected(joins.error)
    else
      var r := q.(joins := joins.value, predicates := MarkAll(q.predicates, scope));
      Resolved(if q.table.None? then r
               else r.(table := Some(source.value.table), tableAlias := source.value.alias,
                 tableIsCte := source.value.isCte))
  }

  function ParseFragment(body: Statement, scope: map<string, SelectQuery>): Scoped<SelectQuery> {
    if body.ctes != [] then Rejected(NestedWith)
    else
      var resolved := Resolve(body.outer, scope, {});
      if resolved.Rejected? then resolved else ReadSources(resolved.value, scope)
  }

  /** Each SELECT body with the CTEs before it; a set operation or a repeated name is skipped. */
  function CteFragments(ctes: seq<Cte>): seq<QueryFragment> {
    if ctes == [] then []
    else
      var last, before := ctes[|ctes| - 1], ctes[..|ctes| - 1];
      CteFragments(before)
      + if last.body.Select? && last.name !in SelectBodies(before)
        then [QueryFragment(CteAt(last.name), ParseFragment(last.body.statement, SelectBodies(before)))] else []
  }

  function OuterFragment(s: Statement): QueryFragment {
    QueryFragment(OuterAt, ParseFragment(Statement(false, [], s.outer), SelectBodies(s.ctes)))
  }

  function AllFragments(s: Statement): seq<QueryFragment> {
    if s.ctes == [] || s.recursive then [] else CteFragments(s.ctes) + [OuterFragment(s)]
  }

  method ParseSelectFragments(s: Statement) returns (fragments: seq<QueryFragment>)
    ensures fragments == AllFragments(s)
  {
    if s.ctes == [] || s.recursive {
      return [];
    }
    fragments := [];
    var inScope: map<string, SelectQuery> := map[];
    assert s.ctes[..0] == [];
    for i := 0 to |s.ctes|
      invariant fragments == CteFragments(s.ctes[..i]) && inScope == SelectBodies(s.ctes[..i])
    {
      var cte := s.ctes[i];
      assert s.ctes[..i + 1][..i] == s.ctes[..i] && s.ctes[..i + 1][i] == cte;
      if cte.body.Select? && cte.name !in inScope {
        fragments := fragments + [QueryFragment(CteAt(cte.name), ParseFragment(cte.body.statement, inScope))];
        inScope := inScope[cte.name := cte.body.statement.outer];
      }
    }
    assert s.ctes[..|s.ctes|] == s.ctes;
    fragments := fragments + [OuterFragment(s)];
  }

  // ----- splicing

  /** The first CTE of that name. */
  function FirstNamed(ctes: seq<Cte>, name: string): (r: Option<nat>)
    ensures r.Some? ==>
      r.value < |ctes| && ctes[r.value].name == name && forall k :: 0 <= k < r.value ==> ctes[k].name != name
    ensures r.None? ==> forall c :: c in ctes ==> c.name != name
  {
    if ctes == [] then None
    else if ctes[0].name == name then Some(0)
    else
      var later := FirstNamed(ctes[1..], name);
      if later.None? then None else Some(later.value + 1)
  }

  function PlainBody(q: SelectQuery): CteBody {
    Select(Statement(false, [], q))
  }

  /** None is an unknown location. */
  function Replaced(s: Statement, location: Location, q: SelectQuery): Option<Statement> {
    match location
    case OuterAt => Some(s.(outer := q))
    case CteAt(name) =>
      var i := FirstNamed(s.ctes, name);
      if i.None? then None else Some(s.(ctes := s.ctes[i.value := Cte(name, PlainBody(q))]))
  }

  method ReplaceFragment(s: Statement, location: Location, q: SelectQuery) returns (r: Option<Statement>)
    ensures r == Replaced(s, location, q)
  {
    if location.OuterAt? {
      return Some(s.(outer := q));
    }
    for i := 0 to |s.ctes|
      invariant forall k :: 0 <= k < i ==> s.ctes[k].name != location.name
    {
      if s.ctes[i].name == location.name {
        return Some(s.(ctes := s.ctes[i := Cte(location.name, PlainBody(q))]));
      }
    }
    return None;
  }

  datatype SubtreeSuggestion = SubtreeSuggestion(
    rule: RuleName,
    location: Location,
    original: SelectQuery,
    fragment: SelectQuery,
    rewritten: Statement)

  type ProofKey = (RuleName, SelectQuery, SelectQuery)

  /** The texts that a proof is known by. */
  function KeyFor(rule: RuleName, original: SelectQuery, fragment: SelectQuery): ProofKey {
    (rule, original.(rawSql := ""), fragment.(rawSql := ""))
  }

  function Key(x: SubtreeSuggestion): ProofKey {
    KeyFor(x.rule, x.original, x.fragment)
  }

  predicate Proves(f: QueryFragment, rule: RuleName, catalog: Catalog) {
    f.query.Resolved? && Suggest(rule, f.query.value, catalog).Proven()
  }

  function ProofOf(f: QueryFragment, rule: RuleName, catalog: Catalog): ProofKey
    requires Proves(f, rule, catalog)
  {
    KeyFor(rule, f.query.value, Suggest(rule, f.query.value, catalog).rewritten.value)
  }

  /** A proven rewrite of a fragment, put back where the fragment was. */
  predicate Offered(s: Statement, catalog: Catalog, rules: seq<RuleName>, fs: seq<QueryFragment>,
    x: SubtreeSuggestion) {
    && x.rule in rules && Suggest(x.rule, x.original, catalog).Proven()
    && QueryFragment(x.location, Resolved(x.original)) in fs
    && x.fragment == Suggest(x.rule, x.original, catalog).rewritten.value
    && Replaced(s, x.location, x.fragment) == Some(x.rewritten)
  }

  predicate SeenExactly(seen: set<ProofKey>, out: seq<SubtreeSuggestion>) {
    && (forall x :: x in out ==> Key(x) in seen)
    && (forall k :: k in seen ==> exists x :: x in out && Key(x) == k)
    && forall i, j :: 0 <= i < j < |out| ==> Key(out[i]) != Key(out[j])
  }

  predicate AllOffered(s: Statement, catalog: Catalog, rules: seq<RuleName>, out: seq<SubtreeSuggestion>) {
    forall x :: x in out ==> Offered(s, catalog, rules, AllFragments(s), x)
  }

  predicate Covers(seen: set<ProofKey>, f: QueryFragment, rules: seq<RuleName>, catalog: Catalog) {
    forall rule :: rule in rules && Proves(f, rule, catalog) ==> ProofOf(f, rule, catalog) in seen
  }

  lemma {:induction false} FragmentsLocated(ctes: seq<Cte>, f: QueryFragment)
    requires f in CteFragments(ctes)
    ensures f.location.CteAt? && FirstNamed(ctes, f.location.name).Some?
  {
    var last, before := ctes[|ctes| - 1], ctes[..|ctes| - 1];
    if f in CteFragments(before) {
      FragmentsLocated(before, f);
      assert before[FirstNamed(before, f.location.name).value] in ctes;
    } else {
      assert last in ctes && last.name == f.location.name;
    }
  }

  /** One key is added, with its suggestion. */
  lemma SeenGrows(seen: set<ProofKey>, out: seq<SubtreeSuggestion>, x: SubtreeSuggestion)
    requires SeenExactly(seen, out) && Key(x) !in seen
    ensures SeenExactly(seen + {Key(x)}, out + [x])
  {
    hide Key;
    var more := out + [x];
    forall k | k in seen + {Key(x)} ensures exists y :: y in more && Key(y) == k {
      if k in seen {
        var y :| y in out && Key(y) == k;
        assert y in more;
      } else {
        assert x in more;
      }
    }
  }

  lemma OfferedGrows(s: Statement, catalog: Catalog, rules: seq<RuleName>, out: seq<SubtreeSuggestion>,
    x: SubtreeSuggestion)
    requires AllOffered(s, catalog, rules, out) && Offered(s, catalog, rules, AllFragments(s), x)
    ensures AllOffered(s, catalog, rules, out + [x])
  {
    hide Offered;
  }

  /** What is covered stays covered. */
  lemma CoversMore(seen: set<ProofKey>, more: set<ProofKey>, f: QueryFragment, rules: seq<RuleName>, catalog: Catalog)
    requires seen <= more && Covers(seen, f, rules, catalog)
    ensures Covers(more, f, rules, catalog)
  {
    hide Proves;
    hide ProofOf;
  }

  // ----- the order of the suggestions

  /** Where a suggestion comes from: a fragment and a rule. */
  datatype Place = Place(fragment: nat, rule: nat)

  predicate Earlier(a: Place, b: Place) {
    a.fragment < b.fragment || (a.fragment == b.fragment && a.rule < b.rule)
  }

  predicate ComesFrom(fs: seq<QueryFragment>, rules: seq<RuleName>, x: SubtreeSuggestion, at: Place) {
    && at.fragment < |fs| && at.rule < |rules|
    && fs[at.fragment] == QueryFragment(x.location, Resolved(x.original)) && rules[at.rule] == x.rule
  }

  predicate SameProofAt(fs: seq<QueryFragment>, rules: seq<RuleName>, catalog: Catalog, x: SubtreeSuggestion,
    p: Place) {
    && p.fragment < |fs| && p.rule < |rules| && Proves(fs[p.fragment], rules[p.rule], catalog)
    && ProofOf(fs[p.fragment], rules[p.rule], catalog) == Key(x)
  }

  /** No earlier place has the same proof. */
  ghost predicate FirstPlace(fs: seq<QueryFragment>, rules: seq<RuleName>, catalog: Catalog, x: SubtreeSuggestion,
    at: Place) {
    forall p: Place :: Earlier(p, at) ==> !SameProofAt(fs, rules, catalog, x, p)
  }

  /** Suggestions in the order of the fragments and then of the rules, each from the first place of its proof. */
  ghost predicate Placed(fs: seq<QueryFragment>, rules: seq<RuleName>, catalog: Catalog, out: seq<SubtreeSuggestion>,
    at: seq<Place>) {
    && |at| == |out|
    && (forall k :: 0 <= k < |out| ==>
          ComesFrom(fs, rules, out[k], at[k]) && FirstPlace(fs, rules, catalog, out[k], at[k]))
    && forall k, m :: 0 <= k < m < |at| ==> Earlier(at[k], at[m])
  }

  predicate AllEarlier(at: seq<Place>, p: Place) {
    forall k :: 0 <= k < |at| ==> Earlier(at[k], p)
  }

  lemma PlacedMore(fs: seq<QueryFragment>, rules: seq<RuleName>, catalog: Catalog, out: seq<SubtreeSuggestion>,
    at: seq<Place>, x: SubtreeSuggestion, p: Place)
    requires Placed(fs, rules, catalog, out, at) && AllEarlier(at, p)
    requires ComesFrom(fs, rules, x, p) && FirstPlace(fs, rules, catalog, x, p)
    ensures Placed(fs, rules, catalog, out + [x], at + [p])
    ensures AllEarlier(at + [p], p.(rule := p.rule + 1))
  {
    hide ComesFrom;
    hide FirstPlace;
    var more, places := out + [x], at + [p];
    forall k | 0 <= k < |more| ensures ComesFrom(fs, rules, more[k], places[k])
                               ensures FirstPlace(fs, rules, catalog, more[k], places[k]) {
      if k < |out| {
        assert more[k] == out[k] && places[k] == at[k];
      }
    }
  }

  /** A proof that is not seen yet has no earlier place. */
  lemma UnseenIsFirst(fs: seq<QueryFragment>, rules: seq<RuleName>, catalog: Catalog, seen: set<ProofKey>,
    x: SubtreeSuggestion, p: Place)
    requires p.fragment < |fs| && p.rule < |rules| && Key(x) !in seen
    requires forall k :: 0 <= k < p.fragment ==> Covers(seen, fs[k], rules, catalog)
    requires forall k :: 0 <= k < p.rule ==> CoveredBy(seen, fs[p.fragment], rules[k], catalog)
    ensures FirstPlace(fs, rules, catalog, x, p)
  {
    hide Proves;
    hide ProofOf;
    forall e: Place | Earlier(e, p) ensures !SameProofAt(fs, rules, catalog, x, e) {
      if e.fragment < p.fragment {
        assert Covers(seen, fs[e.fragment], rules, catalog);
      } else {
        assert CoveredBy(seen, fs[p.fragment], rules[e.rule], catalog);
      }
    }
  }

  /** Every proven rewrite of every fragment, each proof once, in order. */
  method SuggestSubtree(s: Statement, catalog: Catalog, rules: seq<RuleName>)
    returns (suggestions: seq<SubtreeSuggestion>, ghost seen: set<ProofKey>, ghost at: seq<Place>)
    ensures AllOffered(s, catalog, rules, suggestions)
    ensures SeenExactly(seen, suggestions)
    ensures forall f :: f in AllFragments(s) ==> Covers(seen, f, rules, catalog)
    ensures Placed(AllFragments(s), rules, catalog, suggestions, at)
  {
    hide AllOffered;
    hide SeenExactly;
    hide Covers;
    hide AllFragments;
    hide Placed;
    at := [];
    var fragments := ParseSelectFragments(s);
    suggestions := [];
    var seenPairs: set<ProofKey> := {};
    NothingYet(s, catalog, rules);
    for i := 0 to |fragments|
      invariant AllOffered(s, catalog, rules, suggestions) && SeenExactly(seenPairs, suggestions)
      invariant forall k :: 0 <= k < i ==> Covers(seenPairs, fragments[k], rules, catalog)
      invariant Placed(fragments, rules, catalog, suggestions, at) && AllEarlier(at, Place(i, 0))
    {
      var f := fragments[i];
      if f.query.Resolved? {
        ghost var before := seenPairs;
        suggestions, seenPairs, at := SuggestFragment(s, catalog, rules, f, suggestions, seenPairs, i, at);
        forall k | 0 <= k < i ensures Covers(seenPairs, fragments[k], rules, catalog) {
          CoversMore(before, seenPairs, fragments[k], rules, catalog);
        }
      } else {
        UnparsedCovered(seenPairs, f, rules, catalog);
      }
    }
    seen := seenPairs;
  }

  lemma NothingYet(s: Statement, catalog: Catalog, rules: seq<RuleName>)
    ensures AllOffered(s, catalog, rules, []) && SeenExactly({}, [])
    ensures Placed(AllFragments(s), rules, catalog, [], [])
  {
  }

  lemma UnparsedCovered(seen: set<ProofKey>, f: QueryFragment, rules: seq<RuleName>, catalog: Catalog)
    requires f.query.Rejected?
    ensures Covers(seen, f, rules, catalog)
  {
  }

  lemma SpliceDefined(s: Statement, f: QueryFragment, q: SelectQuery)
    requires f in AllFragments(s)
    ensures Replaced(s, f.location, q).Some?
  {
    if f != OuterFragment(s) {
      FragmentsLocated(s.ctes, f);
    }
  }

  method OfferRule(s: Statement, catalog: Catalog, rules: seq<RuleName>, f: QueryFragment, rule: RuleName)
    returns (x: Option<SubtreeSuggestion>)
    requires f in AllFragments(s) && f.query.Resolved? && rule in rules
    ensures x.Some? <==> Proves(f, rule, catalog)
    ensures x.Some? ==>
              && Offered(s, catalog, rules, AllFragments(s), x.value) && Key(x.value) == ProofOf(f, rule, catalog)
              && f == QueryFragment(x.value.location, Resolved(x.value.original)) && x.value.rule == rule
  {
    var suggestion := Suggest(rule, f.query.value, catalog);
    if !suggestion.Proven() {
      return None;
    }
    var whole := ReplaceFragment(s, f.location, suggestion.rewritten.value);
    SpliceDefined(s, f, suggestion.rewritten.value);
    return Some(SubtreeSuggestion(rule, f.location, f.query.value, suggestion.rewritten.value, whole.value));
  }

  predicate CoveredBy(seen: set<ProofKey>, f: QueryFragment, rule: RuleName, catalog: Catalog) {
    Proves(f, rule, catalog) ==> ProofOf(f, rule, catalog) in seen
  }

  /** The inner loop: all rules on one fragment. */
  method SuggestFragment(s: Statement, catalog: Catalog, rules: seq<RuleName>, f: QueryFragment,
    suggestions: seq<SubtreeSuggestion>, seenPairs: set<ProofKey>, ghost index: nat, ghost at0: seq<Place>)
    returns (out: seq<SubtreeSuggestion>, seen: set<ProofKey>, ghost at: seq<Place>)
    requires f in AllFragments(s) && f.query.Resolved?
    requires AllOffered(s, catalog, rules, suggestions) && SeenExactly(seenPairs, suggestions)
    requires index < |AllFragments(s)| && AllFragments(s)[index] == f
    requires forall k :: 0 <= k < index ==> Covers(seenPairs, AllFragments(s)[k], rules, catalog)
    requires Placed(AllFragments(s), rules, catalog, suggestions, at0) && AllEarlier(at0, Place(index, 0))
    ensures AllOffered(s, catalog, rules, out) && SeenExactly(seen, out) && seenPairs <= seen
    ensures Placed(AllFragments(s), rules, catalog, out, at) && AllEarlier(at, Place(index + 1, 0))
    ensures Covers(seen, f, rules, catalog)
  {
    hide AllOffered;
    hide SeenExactly;
    hide Covers;
    hide CoveredBy;
    hide Offered;
    hide Proves;
    hide AllFragments;
    hide Placed;
    hide ComesFrom;
    hide FirstPlace;
    out, seen, at := suggestions, seenPairs, at0;
    for i := 0 to |rules|
      invariant AllOffered(s, catalog, rules, out) && SeenExactly(seen, out) && seenPairs <= seen
      invariant forall k :: 0 <= k < i ==> CoveredBy(seen, f, rules[k], catalog)
      invariant Placed(AllFragments(s), rules, catalog, out, at) && AllEarlier(at, Place(index, i))
    {
      var x := OfferRule(s, catalog, rules, f, rules[i]);
      ghost var before := seen;
      if x.Some? && Key(x.value) !in seen {
        EarlierCovered(s, catalog, rules, seenPairs, seen, index);
        UnseenIsFirst(AllFragments(s), rules, catalog, seen, x.value, Place(index, i));
        ComesHere(AllFragments(s), rules, x.value, Place(index, i));
        PlacedMore(AllFragments(s), rules, catalog, out, at, x.value, Place(index, i));
        at := at + [Place(index, i)];
        SeenGrows(seen, out, x.value);
        OfferedGrows(s, catalog, rules, out, x.value);
        out, seen := out + [x.value], seen + {Key(x.value)};
      }
      forall k | 0 <= k < i + 1 ensures CoveredBy(seen, f, rules[k], catalog) {
        StillCovered(before, seen, f, rules[k], catalog, k == i, x);
      }
    }
    AllCovered(seen, f, rules, catalog);
  }

  lemma ComesHere(fs: seq<QueryFragment>, rules: seq<RuleName>, x: SubtreeSuggestion, p: Place)
    requires p.fragment < |fs| && p.rule < |rules| && rules[p.rule] == x.rule
    requires fs[p.fragment] == QueryFragment(x.location, Resolved(x.original))
    ensures ComesFrom(fs, rules, x, p)
  {
  }

  lemma EarlierCovered(s: Statement, catalog: Catalog, rules: seq<RuleName>, before: set<ProofKey>, seen: set<ProofKey>,
    index: nat)
    requires before <= seen && index < |AllFragments(s)|
    requires forall k :: 0 <= k < index ==> Covers(before, AllFragments(s)[k], rules, catalog)
    ensures forall k :: 0 <= k < index ==> Covers(seen, AllFragments(s)[k], rules, catalog)
  {
    hide AllFragments;
    hide Covers;
    forall k | 0 <= k < index ensures Covers(seen, AllFragments(s)[k], rules, catalog) {
      CoversMore(before, seen, AllFragments(s)[k], rules, catalog);
    }
  }

  lemma StillCovered(
    before: set<ProofKey>, seen: set<ProofKey>, f: QueryFragment, rule: RuleName, catalog: Catalog, isNew: bool,
    x: Option<SubtreeSuggestion>)
    requires before <= seen && (!isNew ==> CoveredBy(before, f, rule, catalog))
    requires isNew && Proves(f, rule, catalog) ==>
      x.Some? && Key(x.value) == ProofOf(f, rule, catalog) && Key(x.value) in seen
    ensures CoveredBy(seen, f, rule, catalog)
  {
    hide Proves;
    hide ProofOf;
  }

  lemma AllCovered(seen: set<ProofKey>, f: QueryFragment, rules: seq<RuleName>, catalog: Catalog)
    requires forall k :: 0 <= k < |rules| ==> CoveredBy(seen, f, rules[k], catalog)
    ensures Covers(seen, f, rules, catalog)
  {
    hide Proves;
    hide ProofOf;
    forall rule | rule in rules && Proves(f, rule, catalog) ensures ProofOf(f, rule, catalog) in seen {
      var k :| 0 <= k < |rules| && rules[k] == rule;
      assert CoveredBy(seen, f, rules[k], catalog);
    }
  }
}
