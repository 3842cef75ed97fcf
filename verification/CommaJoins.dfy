/** Turning comma joins into INNER JOINs: each column equality of WHERE that connects a listed table to an earlier
    one becomes part of its ON clause. */
module CommaJoins {
  import opened Ir
  import opened Lists
  import opened Semantics
  import opened Rewrites

  /** A conjunct of a condition: an equality of two columns, or anything else. */
  datatype Term = ColumnEquality(left: ColName, right: ColName) | OtherTerm(code: OpaqueSql)

  datatype Cond = Leaf(term: Term) | And(left: Cond, right: Cond)

  /** What a FROM item reads: a table under its alias or name, or a derived table known by its text. */
  datatype FromItem = DirectTable(table: string, alias: Option<string>) | DerivedTable(text: string, name: string) {
    function RelationName(): string {
      if DirectTable? then alias.GetOr(table) else name
    }

    function AliasOrName(): Option<string> {
      if DirectTable? then Some(RelationName()) else None
    }
  }

  datatype JoinKind = CommaOrCross | InnerKind | LeftKind

  datatype FromJoin = FromJoin(kind: JoinKind, item: FromItem, on: Option<Cond>)

  datatype PromotionError = TargetNotDirectTable | CartesianProduct

  function Terms(c: Cond): seq<Term> {
    match c case Leaf(t) => [t] case And(l, r) => Terms(l) + Terms(r)
  }

  function TermsOf(c: Option<Cond>): seq<Term> {
    if c.None? then [] else Terms(c.value)
  }

  /** The conjunction of terms, nested to the left. */
  function AndAll(ts: seq<Term>): (c: Cond)
    requires ts != []
    ensures Terms(c) == ts
  {
    if |ts| == 1 then Leaf(ts[0]) else And(AndAll(ts[..|ts| - 1]), Leaf(ts[|ts| - 1]))
  }

  function AndAllOrNone(ts: seq<Term>): Option<Cond> {
    if ts == [] then None else Some(AndAll(ts))
  }

  /** Both columns carry a qualifier. */
  predicate Connector(t: Term) {
    t.ColumnEquality? && t.left.table.Some? && t.right.table.Some?
  }

  predicate IsComma(j: FromJoin) {
    j.kind.CommaOrCross? && j.on.None?
  }

  predicate Connects(t: Term, target: string, introduced: set<string>) {
    && Connector(t)
    && ((t.left.table.value == target && t.right.table.value in introduced)
        || (t.right.table.value == target && t.left.table.value in introduced))
  }

  function IsConnector(): Term -> bool {
    t => Connector(t)
  }

  function IsOther(): Term -> bool {
    t => !Connector(t)
  }

  /** The positions in `eqs` of the equalities that connect `target`. */
  function MatchedAt(eqs: seq<Term>, target: string, introduced: set<string>): set<nat> {
    set k: nat | k < |eqs| && Connects(eqs[k], target, introduced)
  }

  /** The equalities at the given positions, in order. */
  function SelectFrom(eqs: seq<Term>, at: set<nat>, i: nat): seq<Term>
    decreases |eqs| - i
  {
    if i >= |eqs| then [] else (if i in at then [eqs[i]] else []) + SelectFrom(eqs, at, i + 1)
  }

  function UnusedFrom(eqs: seq<Term>, used: set<nat>, i: nat): seq<Term>
    decreases |eqs| - i
  {
    if i >= |eqs| then [] else (if i in used then [] else [eqs[i]]) + UnusedFrom(eqs, used, i + 1)
  }

  datatype Promotion = Promotion(joins: seq<FromJoin>, used: set<nat>)

  function Introduce(introduced: set<string>, item: FromItem): set<string> {
    if item.AliasOrName().Some? then introduced + {item.AliasOrName().value} else introduced
  }

  /** The joins after promotion, and the equalities that went into their ON clauses. */
  function Promote(joins: seq<FromJoin>, introduced: set<string>, eqs: seq<Term>): Result<Promotion, PromotionError> {
    if joins == [] then Ok(Promotion([], {}))
    else
      var j := joins[0];
      var name := j.item.AliasOrName();
      if IsComma(j) && name.None? then Err(TargetNotDirectTable)
      else
        var matched := if IsComma(j) then MatchedAt(eqs, name.value, introduced) else {};
        if IsComma(j) && SelectFrom(eqs, matched, 0) == [] then Err(CartesianProduct)
        else
          var j' := if IsComma(j) then PromotedJoin(j, SelectFrom(eqs, matched, 0)) else j;
          var rest := Promote(joins[1..], Introduce(introduced, j.item), eqs);
          if rest.Err? then rest
          else Ok(Promotion([j'] + rest.value.joins, matched + rest.value.used))
  }

  function PromotedJoin(j: FromJoin, ts: seq<Term>): FromJoin
    requires ts != []
  {
    FromJoin(InnerKind, j.item, Some(AndAll(ts)))
  }

  function Connectors(where: Option<Cond>): seq<Term> {
    Filter(IsConnector(), TermsOf(where))
  }

  function Leftover(where: Option<Cond>, used: set<nat>): seq<Term> {
    UnusedFrom(Connectors(where), used, 0) + Filter(IsOther(), TermsOf(where))
  }

  predicate HasComma(joins: seq<FromJoin>) {
    exists j :: j in joins && IsComma(j)
  }

  // ----- what FROM and WHERE mean

  function And3(a: Truth, b: Truth): Truth {
    if a.False3? || b.False3? then False3 else if a.True3? && b.True3? then True3 else Unknown
  }

  function TermTruth(w: World, t: Term, env: Env): Truth {
    match t
    case ColumnEquality(l, r) => Eq3(Lookup(env, l), Lookup(env, r))
    case OtherTerm(code) => w.engine.test(code.text, Visible(code)(env))
  }

  function CondTruth(w: World, c: Cond, env: Env): Truth {
    match c
    case Leaf(t) => TermTruth(w, t, env)
    case And(l, r) => And3(CondTruth(w, l, env), CondTruth(w, r, env))
  }

  function Passes(w: World, c: Option<Cond>): Env -> bool {
    env => c.Some? ==> CondTruth(w, c.value, env).True3?
  }

  function ItemRelation(w: World, item: FromItem): Relation {
    if item.DirectTable? then TableRelation(w, item.table) else TableRelation(w, item.text)
  }

  function JoinOne(w: World, j: FromJoin): Env -> seq<Env> {
    env =>
      var rel := ItemRelation(w, j.item);
      var ms := Filter(Passes(w, j.on), Map(Extend(env, j.item.RelationName()), rel.rows));
      if j.kind.LeftKind? && ms == [] then [env + [Binding(j.item.RelationName(), NullRecord(rel.cols))]] else ms
  }

  function JoinAll(w: World, envs: seq<Env>, joins: seq<FromJoin>): seq<Env>
    decreases |joins|
  {
    if joins == [] then envs else JoinAll(w, FlatMap(JoinOne(w, joins[0]), envs), joins[1..])
  }

  /** The rows that FROM and WHERE produce. */
  function FromWhere(w: World, source: FromItem, joins: seq<FromJoin>, where: Option<Cond>): seq<Env> {
    Filter(Passes(w, where), JoinAll(w, Map(Bind(source.RelationName()), ItemRelation(w, source).rows), joins))
  }

  // ----- which comma joins WHERE connects

  /** A direct table goes by its alias, or by its own name when it has none. */
  predicate KnownAs(item: FromItem, name: string) {
    item.DirectTable? && (match item.alias case Some(a) => a == name case None => item.table == name)
  }

  /** The FROM source or one of the joins before position `i` goes by that name. */
  predicate NamedBefore(source: FromItem, joins: seq<FromJoin>, i: nat, name: string) {
    KnownAs(source, name) || exists k :: 0 <= k < i && k < |joins| && KnownAs(joins[k].item, name)
  }

  /** An equality of two qualified columns with one side, either one, in join `i` and the other side before it. */
  predicate LinksTo(source: FromItem, joins: seq<FromJoin>, i: nat, t: Term)
    requires i < |joins|
  {
    && t.ColumnEquality? && t.left.table.Some? && t.right.table.Some?
    && ((KnownAs(joins[i].item, t.left.table.value) && NamedBefore(source, joins, i, t.right.table.value))
        || (KnownAs(joins[i].item, t.right.table.value) && NamedBefore(source, joins, i, t.left.table.value)))
  }

  function Linking(source: FromItem, joins: seq<FromJoin>, i: nat): Term -> bool
    requires i < |joins|
  {
    t => LinksTo(source, joins, i, t)
  }

  /** A join without ON that is no direct table, or that no conjunct links to what comes before it. */
  predicate Blocked(source: FromItem, joins: seq<FromJoin>, terms: seq<Term>, i: nat)
    requires i < |joins|
  {
    && joins[i].kind.CommaOrCross? && joins[i].on.None?
    && (!joins[i].item.DirectTable? || forall t :: t in terms ==> !LinksTo(source, joins, i, t))
  }

  /** The first blocked join says which error is raised. */
  predicate BlockedFirst(source: FromItem, joins: seq<FromJoin>, terms: seq<Term>, i: nat, e: PromotionError)
    requires i < |joins|
  {
    && Blocked(source, joins, terms, i) && (forall k :: 0 <= k < i ==> !Blocked(source, joins, terms, k))
    && (e.TargetNotDirectTable? <==> !joins[i].item.DirectTable?)
  }

  /** What becomes of join `i`. */
  predicate PromotedAs(source: FromItem, joins: seq<FromJoin>, terms: seq<Term>, i: nat, j: FromJoin)
    requires i < |joins|
  {
    if joins[i].kind.CommaOrCross? && joins[i].on.None? then
      j.kind.InnerKind? && j.item == joins[i].item && j.on.Some?
      && Terms(j.on.value) == Filter(Linking(source, joins, i), terms)
    else j == joins[i]
  }

  /** Some comma join takes the conjunct. */
  predicate LinksSome(source: FromItem, joins: seq<FromJoin>, t: Term) {
    exists i :: 0 <= i < |joins| && joins[i].kind.CommaOrCross? && joins[i].on.None? && LinksTo(source, joins, i, t)
  }

  /** An equality of two qualified columns that no comma join takes. */
  function StaysEquality(source: FromItem, joins: seq<FromJoin>): Term -> bool {
    (t: Term) => t.ColumnEquality? && t.left.table.Some? && t.right.table.Some? && !LinksSome(source, joins, t)
  }

  function NoQualifiedEquality(): Term -> bool {
    (t: Term) => t.ColumnEquality? ==> t.left.table.None? || t.right.table.None?
  }

  // ----- the parsed statement, rewritten in place

  class SelectTree {
    var source: FromItem
    var joins: seq<FromJoin>
    var where: Option<Cond>

    constructor (source: FromItem, joins: seq<FromJoin>, where: Option<Cond>)
      ensures this.source == source && this.joins == joins && this.where == where
    {
      this.source, this.joins, this.where := source, joins, where;
    }

    /** Afterwards the statement has the same rows on every database and no comma join; when a listed table has
        nothing to connect it, the statement is left as it was. */
    method PromoteCommaJoins() returns (error: Option<PromotionError>)
      modifies this
      ensures source == old(source)
      ensures error.None? <==>
              forall i :: 0 <= i < |old(joins)| ==> !Blocked(source, old(joins), TermsOf(old(where)), i)
      ensures error.Some? ==>
                exists i :: 0 <= i < |old(joins)|
                            && BlockedFirst(source, old(joins), TermsOf(old(where)), i, error.value)
      ensures error.Some? ==> joins == old(joins) && where == old(where)
      ensures !HasComma(old(joins)) ==> joins == old(joins) && where == old(where)
      ensures error.None? ==>
                && |joins| == |old(joins)|
                && forall i :: 0 <= i < |joins| ==>
                                 PromotedAs(source, old(joins), TermsOf(old(where)), i, joins[i])
      ensures error.None? && HasComma(old(joins)) ==>
                TermsOf(where) == Filter(StaysEquality(source, old(joins)), TermsOf(old(where)))
                                  + Filter(NoQualifiedEquality(), TermsOf(old(where)))
      ensures error.None? ==> !HasComma(joins)
      ensures forall w: World :: FromWhere(w, source, joins, where) == FromWhere(w, source, old(joins), old(where))
      ensures error.None? && DistinctItems(old(joins), Introduce({}, source)) ==>
                ConditionBag(joins, where) == ConditionBag(old(joins), old(where))
    {
      if !HasComma(joins) {
        assert forall i :: 0 <= i < |joins| ==> joins[i] in joins && !IsComma(joins[i]);
        return None;
      }
      PromotionDecided(source, joins, where);
      var r := PromoteJoins(joins, Introduce({}, source), Connectors(where));
      if r.Err? {
        return Some(r.error);
      }
      ghost var oldJoins, oldWhere := joins, where;
      joins, where := r.value.joins, AndAllOrNone(Leftover(where, r.value.used));
      PromotionCorrect(source, oldJoins, oldWhere);
      return None;
    }
  }

  /** The loop over the joins. */
  method PromoteJoins(joins: seq<FromJoin>, first: set<string>, eqs: seq<Term>)
    returns (r: Result<Promotion, PromotionError>)
    ensures r == Promote(joins, first, eqs)
  {
    var introduced := first;
    var newJoins: seq<FromJoin> := [];
    var used: set<nat> := {};
    var i := 0;
    AfterNone(Promote(joins, first, eqs));
    assert joins[0..] == joins;
    while i < |joins|
      invariant 0 <= i <= |joins|
      invariant Promote(joins, first, eqs) == After(newJoins, used, Promote(joins[i..], introduced, eqs))
    {
      var j := joins[i];
      assert joins[i..][1..] == joins[i + 1..] && joins[i..][0] == j;
      var name := j.item.AliasOrName();
      ghost var rest := Promote(joins[i + 1..], Introduce(introduced, j.item), eqs);
      if IsComma(j) {
        if name.None? {
          return Err(TargetNotDirectTable);
        }
        var matched := MatchedAt(eqs, name.value, introduced);
        var on := SelectFrom(eqs, matched, 0);
        if on == [] {
          return Err(CartesianProduct);
        }
        AfterStep(newJoins, used, PromotedJoin(j, on), matched, rest);
        newJoins := newJoins + [PromotedJoin(j, on)];
        used := used + matched;
      } else {
        AfterStep(newJoins, used, j, {}, rest);
        newJoins := newJoins + [j];
        used := used + {};
      }
      introduced := Introduce(introduced, j.item);
      i := i + 1;
    }
    assert newJoins + [] == newJoins && used + {} == used && joins[i..] == [];
    return Ok(Promotion(newJoins, used));
  }

  /** A promotion that starts with what the loop has done so far. */
  function After(joins: seq<FromJoin>, used: set<nat>,
    rest: Result<Promotion, PromotionError>): Result<Promotion, PromotionError> {
    if rest.Err? then rest else Ok(Promotion(joins + rest.value.joins, used + rest.value.used))
  }

  lemma AfterNone(rest: Result<Promotion, PromotionError>)
    ensures After([], {}, rest) == rest
  {
    if rest.Ok? {
      assert [] + rest.value.joins == rest.value.joins && {} + rest.value.used == rest.value.used;
    }
  }

  lemma AfterStep(joins: seq<FromJoin>, used: set<nat>, j: FromJoin, matched: set<nat>,
    rest: Result<Promotion, PromotionError>)
    ensures After(joins, used, After([j], matched, rest)) == After(joins + [j], used + matched, rest)
  {
    if rest.Ok? {
      assert joins + ([j] + rest.value.joins) == joins + [j] + rest.value.joins;
      assert used + (matched + rest.value.used) == used + matched + rest.value.used;
    }
  }

  ghost function ConditionBag(joins: seq<FromJoin>, where: Option<Cond>): multiset<Term> {
    multiset(TermsOf(where)) + multiset(OnTerms(joins))
  }

  lemma PromotionCorrect(source: FromItem, joins: seq<FromJoin>, where: Option<Cond>)
    requires Promote(joins, Introduce({}, source), Connectors(where)).Ok?
    ensures var p := Promote(joins, Introduce({}, source), Connectors(where)).value;
            var where' := AndAllOrNone(Leftover(where, p.used));
            && !HasComma(p.joins)
            && (forall w: World :: FromWhere(w, source, p.joins, where') == FromWhere(w, source, joins, where))
            && (DistinctItems(joins, Introduce({}, source)) ==>
                  ConditionBag(p.joins, where') == ConditionBag(joins, where))
  {
    var p := Promote(joins, Introduce({}, source), Connectors(where)).value;
    var where' := AndAllOrNone(Leftover(where, p.used));
    PromotionLeavesNoComma(joins, Introduce({}, source), Connectors(where));
    forall w: World ensures FromWhere(w, source, p.joins, where') == FromWhere(w, source, joins, where) {
      PromotionKeepsRows(w, source, joins, where);
    }
    if DistinctItems(joins, Introduce({}, source)) {
      PromotionConserves(joins, Introduce({}, source), where);
    }
  }

  // ----- when promotion succeeds, and what goes where

  ghost predicate Introduced(source: FromItem, joins: seq<FromJoin>, i: nat, names: set<string>) {
    forall n :: n in names <==> NamedBefore(source, joins, i, n)
  }

  lemma IntroducedNext(source: FromItem, joins: seq<FromJoin>, i: nat, names: set<string>)
    requires i < |joins| && Introduced(source, joins, i, names)
    ensures Introduced(source, joins, i + 1, Introduce(names, joins[i].item))
  {
    forall n ensures n in Introduce(names, joins[i].item) <==> NamedBefore(source, joins, i + 1, n) {
      assert KnownAs(joins[i].item, n) <==> joins[i].item.AliasOrName() == Some(n);
    }
  }

  lemma ConnectsIsLinks(source: FromItem, joins: seq<FromJoin>, i: nat, names: set<string>, t: Term)
    requires i < |joins| && Introduced(source, joins, i, names) && joins[i].item.AliasOrName().Some?
    ensures Connects(t, joins[i].item.AliasOrName().value, names) <==> LinksTo(source, joins, i, t)
  {
    var target := joins[i].item.AliasOrName().value;
    assert forall n :: KnownAs(joins[i].item, n) <==> n == target;
  }

  lemma {:induction false} SelectIsFilter(eqs: seq<Term>, at: set<nat>, f: Term -> bool, i: nat)
    requires i <= |eqs| && forall k: nat :: k < |eqs| ==> (k in at <==> f(eqs[k]))
    ensures SelectFrom(eqs, at, i) == Filter(f, eqs[i..])
    decreases |eqs| - i
  {
    if i < |eqs| {
      SelectIsFilter(eqs, at, f, i + 1);
      assert eqs[i..][1..] == eqs[i + 1..];
    }
  }

  lemma {:induction false} UnusedIsFilter(eqs: seq<Term>, used: set<nat>, f: Term -> bool, i: nat)
    requires i <= |eqs| && forall k: nat :: k < |eqs| ==> (k in used <==> !f(eqs[k]))
    ensures UnusedFrom(eqs, used, i) == Filter(f, eqs[i..])
    decreases |eqs| - i
  {
    if i < |eqs| {
      UnusedIsFilter(eqs, used, f, i + 1);
      assert eqs[i..][1..] == eqs[i + 1..];
    }
  }

  /** What the promotion of one comma join comes to. */
  lemma MatchedLinks(source: FromItem, joins: seq<FromJoin>, i: nat, names: set<string>, eqs: seq<Term>)
    requires i < |joins| && Introduced(source, joins, i, names) && joins[i].item.AliasOrName().Some?
    ensures var matched := MatchedAt(eqs, joins[i].item.AliasOrName().value, names);
            && (forall k: nat :: k < |eqs| ==> (k in matched <==> LinksTo(source, joins, i, eqs[k])))
            && SelectFrom(eqs, matched, 0) == Filter(Linking(source, joins, i), eqs)
  {
    var matched := MatchedAt(eqs, joins[i].item.AliasOrName().value, names);
    forall k: nat | k < |eqs| ensures k in matched <==> LinksTo(source, joins, i, eqs[k]) {
      ConnectsIsLinks(source, joins, i, names, eqs[k]);
    }
    SelectIsFilter(eqs, matched, Linking(source, joins, i), 0);
    assert eqs[0..] == eqs;
  }

  /** A comma join at or after `i` takes the conjunct. */
  predicate LinksFrom(source: FromItem, joins: seq<FromJoin>, i: nat, t: Term) {
    exists k :: i <= k < |joins| && IsComma(joins[k]) && LinksTo(source, joins, k, t)
  }

  ghost predicate PromotesFrom(source: FromItem, joins: seq<FromJoin>, i: nat, eqs: seq<Term>,
    r: Result<Promotion, PromotionError>)
    requires i <= |joins|
  {
    && (r.Ok? <==> forall k :: i <= k < |joins| ==> !Blocked(source, joins, eqs, k))
    && (r.Err? ==> exists k :: i <= k < |joins| && BlockedFrom(source, joins, eqs, i, k, r.error))
    && (r.Ok? ==>
          && JoinsExact(source, joins, i, eqs, r.value.joins)
          && (forall m: nat :: m < |eqs| ==> (m in r.value.used <==> LinksFrom(source, joins, i, eqs[m]))))
  }

  ghost predicate JoinsExact(source: FromItem, joins: seq<FromJoin>, i: nat, eqs: seq<Term>, out: seq<FromJoin>)
    requires i <= |joins|
  {
    && |out| == |joins| - i
    && forall m :: 0 <= m < |out| ==> PromotedAs(source, joins, eqs, i + m, out[m])
  }

  lemma JoinsStep(source: FromItem, joins: seq<FromJoin>, i: nat, eqs: seq<Term>, j: FromJoin, out: seq<FromJoin>)
    requires i < |joins| && PromotedAs(source, joins, eqs, i, j) && JoinsExact(source, joins, i + 1, eqs, out)
    ensures JoinsExact(source, joins, i, eqs, [j] + out)
  {
    hide PromotedAs;
    var all := [j] + out;
    forall m | 0 <= m < |all| ensures PromotedAs(source, joins, eqs, i + m, all[m]) {
      if m > 0 {
        assert all[m] == out[m - 1] && i + m == i + 1 + (m - 1);
      }
    }
  }

  lemma UsedStep(source: FromItem, joins: seq<FromJoin>, i: nat, t: Term)
    requires i < |joins|
    ensures LinksFrom(source, joins, i, t) <==>
            (IsComma(joins[i]) && LinksTo(source, joins, i, t)) || LinksFrom(source, joins, i + 1, t)
  {
    hide LinksTo;
    if LinksFrom(source, joins, i + 1, t) {
      var k :| i + 1 <= k < |joins| && IsComma(joins[k]) && LinksTo(source, joins, k, t);
    }
  }

  predicate BlockedFrom(source: FromItem, joins: seq<FromJoin>, eqs: seq<Term>, i: nat, k: nat, e: PromotionError)
    requires k < |joins|
  {
    && Blocked(source, joins, eqs, k) && (forall m :: i <= m < k ==> !Blocked(source, joins, eqs, m))
    && (e.TargetNotDirectTable? <==> !joins[k].item.DirectTable?)
  }

  lemma {:induction false} PromoteExact(source: FromItem, joins: seq<FromJoin>, i: nat, names: set<string>,
    eqs: seq<Term>)
    requires i <= |joins| && Introduced(source, joins, i, names)
    ensures PromotesFrom(source, joins, i, eqs, Promote(joins[i..], names, eqs))
    decreases |joins| - i
  {
    if i < |joins| {
      var j := joins[i];
      var rest := Promote(joins[i + 1..], Introduce(names, j.item), eqs);
      assert joins[i..][0] == j && joins[i..][1..] == joins[i + 1..];
      IntroducedNext(source, joins, i, names);
      PromoteExact(source, joins, i + 1, Introduce(names, j.item), eqs);
      if IsComma(j) && j.item.AliasOrName().Some? {
        MatchedLinks(source, joins, i, names, eqs);
        PromoteCommaStep(source, joins, i, names, eqs, rest);
      } else if !IsComma(j) {
        PromoteKeptStep(source, joins, i, names, eqs, rest);
      } else {
        BlockedHere(source, joins, i, eqs, TargetNotDirectTable);
      }
    }
  }

  lemma BlockedHere(source: FromItem, joins: seq<FromJoin>, i: nat, eqs: seq<Term>, e: PromotionError)
    requires i < |joins| && Blocked(source, joins, eqs, i)
    requires e.TargetNotDirectTable? <==> !joins[i].item.DirectTable?
    ensures BlockedFrom(source, joins, eqs, i, i, e)
  {
  }

  lemma BlockedLater(source: FromItem, joins: seq<FromJoin>, i: nat, k: nat, eqs: seq<Term>, e: PromotionError)
    requires i < |joins| && !Blocked(source, joins, eqs, i)
    requires i < k < |joins| && BlockedFrom(source, joins, eqs, i + 1, k, e)
    ensures BlockedFrom(source, joins, eqs, i, k, e)
  {
  }

  lemma PromoteCommaStep(source: FromItem, joins: seq<FromJoin>, i: nat, names: set<string>, eqs: seq<Term>,
    rest: Result<Promotion, PromotionError>)
    requires i < |joins| && IsComma(joins[i]) && joins[i].item.AliasOrName().Some?
    requires rest == Promote(joins[i + 1..], Introduce(names, joins[i].item), eqs)
    requires PromotesFrom(source, joins, i + 1, eqs, rest)
    requires var matched := MatchedAt(eqs, joins[i].item.AliasOrName().value, names);
             && (forall k: nat :: k < |eqs| ==> (k in matched <==> LinksTo(source, joins, i, eqs[k])))
             && SelectFrom(eqs, matched, 0) == Filter(Linking(source, joins, i), eqs)
    ensures PromotesFrom(source, joins, i, eqs, Promote(joins[i..], names, eqs))
  {
    hide LinksTo;
    hide LinksFrom;
    hide BlockedFrom;
    hide MatchedAt;
    hide JoinsExact;
    var j := joins[i];
    assert joins[i..][0] == j && joins[i..][1..] == joins[i + 1..];
    var matched := MatchedAt(eqs, j.item.AliasOrName().value, names);
    var on := Filter(Linking(source, joins, i), eqs);
    assert on == [] <==> Blocked(source, joins, eqs, i) by {
      if on != [] {
        assert on[0] in on;
      }
    }
    var r := Promote(joins[i..], names, eqs);
    if on == [] {
      BlockedHere(source, joins, i, eqs, CartesianProduct);
    } else if rest.Err? {
      var k :| i + 1 <= k < |joins| && BlockedFrom(source, joins, eqs, i + 1, k, rest.error);
      BlockedLater(source, joins, i, k, eqs, rest.error);
    } else {
      JoinsStep(source, joins, i, eqs, PromotedJoin(j, on), rest.value.joins);
      assert r == Ok(Promotion([PromotedJoin(j, on)] + rest.value.joins, matched + rest.value.used));
      forall m: nat | m < |eqs| ensures m in r.value.used <==> LinksFrom(source, joins, i, eqs[m]) {
        UsedStep(source, joins, i, eqs[m]);
      }
    }
  }

  lemma PromoteKeptStep(source: FromItem, joins: seq<FromJoin>, i: nat, names: set<string>, eqs: seq<Term>,
    rest: Result<Promotion, PromotionError>)
    requires i < |joins| && !IsComma(joins[i])
    requires rest == Promote(joins[i + 1..], Introduce(names, joins[i].item), eqs)
    requires PromotesFrom(source, joins, i + 1, eqs, rest)
    ensures PromotesFrom(source, joins, i, eqs, Promote(joins[i..], names, eqs))
  {
    hide LinksTo;
    hide LinksFrom;
    hide BlockedFrom;
    hide JoinsExact;
    assert joins[i..][0] == joins[i] && joins[i..][1..] == joins[i + 1..];
    var r := Promote(joins[i..], names, eqs);
    if rest.Err? {
      var k :| i + 1 <= k < |joins| && BlockedFrom(source, joins, eqs, i + 1, k, rest.error);
      BlockedLater(source, joins, i, k, eqs, rest.error);
    } else {
      JoinsStep(source, joins, i, eqs, joins[i], rest.value.joins);
      assert r == Ok(Promotion([joins[i]] + rest.value.joins, {} + rest.value.used));
      forall m: nat | m < |eqs| ensures m in r.value.used <==> LinksFrom(source, joins, i, eqs[m]) {
        UsedStep(source, joins, i, eqs[m]);
      }
    }
  }

  /** Promotion succeeds exactly when no comma join is blocked; each then takes the conjuncts that link it, in order,
      and WHERE keeps the rest: first the equalities that nothing takes, then everything else. */
  lemma PromotionDecided(source: FromItem, joins: seq<FromJoin>, where: Option<Cond>)
    ensures var r := Promote(joins, Introduce({}, source), Connectors(where));
            var terms := TermsOf(where);
            && (r.Ok? <==> forall i :: 0 <= i < |joins| ==> !Blocked(source, joins, terms, i))
            && (r.Err? ==> exists i :: 0 <= i < |joins| && BlockedFirst(source, joins, terms, i, r.error))
            && (r.Ok? ==>
                  && |r.value.joins| == |joins|
                  && (forall i :: 0 <= i < |joins| ==> PromotedAs(source, joins, terms, i, r.value.joins[i]))
                  && Leftover(where, r.value.used) ==
                     Filter(StaysEquality(source, joins), terms) + Filter(NoQualifiedEquality(), terms))
  {
    var eqs, terms := Connectors(where), TermsOf(where);
    var r := Promote(joins, Introduce({}, source), eqs);
    assert Introduced(source, joins, 0, Introduce({}, source)) by {
      assert forall n :: KnownAs(source, n) <==> source.AliasOrName() == Some(n);
    }
    PromoteExact(source, joins, 0, Introduce({}, source), eqs);
    assert joins[0..] == joins;
    forall i: nat | i < |joins|
      ensures Blocked(source, joins, eqs, i) <==> Blocked(source, joins, terms, i)
      ensures Filter(Linking(source, joins, i), eqs) == Filter(Linking(source, joins, i), terms)
    {
      LinksAmongConnectors(source, joins, i, where);
    }
    if r.Err? {
      var k :| 0 <= k < |joins| && BlockedFrom(source, joins, eqs, 0, k, r.error);
      assert BlockedFirst(source, joins, terms, k, r.error);
    } else {
      forall i | 0 <= i < |joins| ensures PromotedAs(source, joins, terms, i, r.value.joins[i]) {
        assert PromotedAs(source, joins, eqs, 0 + i, r.value.joins[i]);
      }
      LeftoverExact(source, joins, where, r.value.used);
    }
  }

  lemma LinksAmongConnectors(source: FromItem, joins: seq<FromJoin>, i: nat, where: Option<Cond>)
    requires i < |joins|
    ensures Blocked(source, joins, Connectors(where), i) <==> Blocked(source, joins, TermsOf(where), i)
    ensures Filter(Linking(source, joins, i), Connectors(where)) == Filter(Linking(source, joins, i), TermsOf(where))
  {
    assert forall t :: LinksTo(source, joins, i, t) ==> Connector(t);
    FilterBoth(Linking(source, joins, i), IsConnector(), Linking(source, joins, i), TermsOf(where));
  }

  lemma LeftoverExact(source: FromItem, joins: seq<FromJoin>, where: Option<Cond>, used: set<nat>)
    requires forall m: nat :: m < |Connectors(where)| ==>
                                (m in used <==> LinksFrom(source, joins, 0, Connectors(where)[m]))
    ensures Leftover(where, used) == Filter(StaysEquality(source, joins), TermsOf(where))
                                     + Filter(NoQualifiedEquality(), TermsOf(where))
  {
    var eqs, terms, stays := Connectors(where), TermsOf(where), StaysEquality(source, joins);
    forall m: nat | m < |eqs| ensures m in used <==> !stays(eqs[m]) {
      assert eqs[m] in eqs;
      assert LinksFrom(source, joins, 0, eqs[m]) <==> LinksSome(source, joins, eqs[m]);
    }
    UnusedIsFilter(eqs, used, stays, 0);
    assert eqs[0..] == eqs;
    FilterBoth(stays, IsConnector(), stays, terms);
    FilterSame(IsOther(), NoQualifiedEquality(), terms);
  }

  // ----- rows

  function HoldAll(w: World, ts: seq<Term>): Env -> bool {
    env => forall t :: t in ts ==> TermTruth(w, t, env).True3?
  }

  function HoldAt(w: World, eqs: seq<Term>, used: set<nat>): Env -> bool {
    env => forall k :: k in used && k < |eqs| ==> TermTruth(w, eqs[k], env).True3?
  }

  /** A conjunction passes a row exactly when every conjunct is true. */
  lemma {:induction false} CondIsTerms(w: World, c: Cond, env: Env)
    ensures CondTruth(w, c, env).True3? <==> HoldAll(w, Terms(c))(env)
  {
    if c.And? {
      CondIsTerms(w, c.left, env);
      CondIsTerms(w, c.right, env);
    }
  }

  predicate HasRelation(env: Env, name: string) {
    exists b :: b in env && b.relation == name
  }

  ghost predicate HasRelations(env: Env, names: set<string>) {
    forall n :: n in names ==> HasRelation(env, n)
  }

  lemma {:induction false} LookupExtended(env: Env, more: Env, c: ColName)
    requires c.table.Some? && HasRelation(env, c.table.value)
    ensures Lookup(env + more, c) == Lookup(env, c)
  {
    assert (env + more)[0] == env[0];
    if env[0].relation != c.table.value {
      var b :| b in env && b.relation == c.table.value;
      assert b in env[1..];
      assert (env + more)[1..] == env[1..] + more;
      LookupExtended(env[1..], more, c);
    }
  }

  predicate Settled(t: Term, names: set<string>) {
    Connector(t) && t.left.table.value in names && t.right.table.value in names
  }

  ghost predicate SettledAt(eqs: seq<Term>, used: set<nat>, names: set<string>) {
    forall k :: k in used ==> k < |eqs| && Settled(eqs[k], names)
  }

  /** Equalities among relations already introduced do not change when more relations are joined. */
  lemma HoldAtExtended(w: World, eqs: seq<Term>, used: set<nat>, names: set<string>, x: Env, y: Env, name: string)
    requires SettledAt(eqs, used, names) && HasRelations(x, names) && ExtendsBy(x, y, name)
    ensures HoldAt(w, eqs, used)(y) == HoldAt(w, eqs, used)(x)
  {
    assert y == x + [y[|x|]];
    forall k | k in used ensures TermTruth(w, eqs[k], y) == TermTruth(w, eqs[k], x) {
      assert Settled(eqs[k], names);
      LookupExtended(x, [y[|x|]], eqs[k].left);
      LookupExtended(x, [y[|x|]], eqs[k].right);
    }
  }

  /** `y` is `x` followed by one row of the relation `name`. */
  predicate ExtendsBy(x: Env, y: Env, name: string) {
    |y| == |x| + 1 && y[..|x|] == x && y[|x|].relation == name
  }

  /** Every row that a join makes of `env` extends it by the joined relation. */
  lemma JoinOneExtends(w: World, j: FromJoin, env: Env, y: Env)
    requires y in JoinOne(w, j)(env)
    ensures ExtendsBy(env, y, j.item.RelationName())
  {
    var name, rel := j.item.RelationName(), ItemRelation(w, j.item);
    var ys := Map(Extend(env, name), rel.rows);
    if y in ys {
      RowExtends(env, name, rel.rows, y);
    } else {
      assert y !in Filter(Passes(w, j.on), ys);
    }
  }

  lemma RowExtends(env: Env, name: string, rows: seq<Record>, y: Env)
    requires y in Map(Extend(env, name), rows)
    ensures ExtendsBy(env, y, name)
  {
    var k :| 0 <= k < |rows| && Map(Extend(env, name), rows)[k] == y;
  }

  lemma ExtendedHasRelations(x: Env, y: Env, names: set<string>, item: FromItem)
    requires ExtendsBy(x, y, item.RelationName()) && HasRelations(x, names)
    ensures HasRelations(y, Introduce(names, item))
  {
    forall n | n in Introduce(names, item) ensures HasRelation(y, n) {
      if n in names {
        assert HasRelation(x, n);
        var k :| 0 <= k < |x| && x[k].relation == n;
        assert y[k] == y[..|x|][k];
        assert y[k] in y;
      } else {
        assert y[|x|] in y;
      }
    }
  }

  ghost predicate AllHaveRelations(envs: seq<Env>, names: set<string>) {
    forall e :: e in envs ==> HasRelations(e, names)
  }

  lemma JoinedHaveRelations(w: World, j: FromJoin, envs: seq<Env>, names: set<string>)
    requires AllHaveRelations(envs, names)
    ensures AllHaveRelations(FlatMap(JoinOne(w, j), envs), Introduce(names, j.item))
  {
    forall y | y in FlatMap(JoinOne(w, j), envs) ensures HasRelations(y, Introduce(names, j.item)) {
      InFlatMap(JoinOne(w, j), envs, y);
      var e :| e in envs && y in JoinOne(w, j)(e);
      JoinOneExtends(w, j, e, y);
      ExtendedHasRelations(e, y, names, j.item);
    }
  }

  /** A join that keeps its ON clause commutes with the equalities settled before it. */
  lemma KeptJoinStep(w: World, j: FromJoin, envs: seq<Env>, eqs: seq<Term>, used: set<nat>, names: set<string>)
    requires SettledAt(eqs, used, names) && AllHaveRelations(envs, names)
    ensures Filter(HoldAt(w, eqs, used), FlatMap(JoinOne(w, j), envs))
         == FlatMap(JoinOne(w, j), Filter(HoldAt(w, eqs, used), envs))
  {
    var f, keep := JoinOne(w, j), HoldAt(w, eqs, used);
    var g := (x: Env) => Filter(keep, f(x));
    forall x | x in envs ensures g(x) == if keep(x) then f(x) else [] {
      forall y | y in f(x) ensures keep(y) == keep(x) {
        JoinOneExtends(w, j, x, y);
        HoldAtExtended(w, eqs, used, names, x, y, j.item.RelationName());
      }
      if keep(x) { FilterAll(keep, f(x)); } else { FilterNone(keep, f(x)); }
    }
    FilterFlatMap(keep, f, g, envs);
    FlatMapFilter(g, f, keep, envs);
  }

  lemma SelectStep(eqs: seq<Term>, used: set<nat>, i: nat)
    ensures i >= |eqs| ==> SelectFrom(eqs, used, i) == [] == UnusedFrom(eqs, used, i)
    ensures i < |eqs| ==>
              && SelectFrom(eqs, used, i) ==
                (if i in used then [eqs[i]] + SelectFrom(eqs, used, i + 1) else SelectFrom(eqs, used, i + 1))
              && UnusedFrom(eqs, used, i) ==
                (if i in used then UnusedFrom(eqs, used, i + 1) else [eqs[i]] + UnusedFrom(eqs, used, i + 1))
  {
  }

  lemma {:induction false} SelectHas(eqs: seq<Term>, at: set<nat>, i: nat, k: nat)
    requires i <= k < |eqs| && k in at
    ensures eqs[k] in SelectFrom(eqs, at, i)
    decreases k - i
  {
    hide SelectFrom;
    SelectStep(eqs, at, i);
    InCons(eqs[k], eqs[i], SelectFrom(eqs, at, i + 1));
    if i < k {
      SelectHas(eqs, at, i + 1, k);
    }
  }

  lemma {:induction false} SelectSource(eqs: seq<Term>, at: set<nat>, i: nat, t: Term) returns (k: nat)
    requires t in SelectFrom(eqs, at, i)
    ensures i <= k < |eqs| && k in at && eqs[k] == t
    decreases |eqs| - i
  {
    hide SelectFrom;
    SelectStep(eqs, at, i);
    assert i < |eqs|;
    InCons(t, eqs[i], SelectFrom(eqs, at, i + 1));
    if i in at && eqs[i] == t {
      k := i;
    } else {
      k := SelectSource(eqs, at, i + 1, t);
    }
  }

  lemma {:induction false} UnusedHas(eqs: seq<Term>, used: set<nat>, i: nat, k: nat)
    requires i <= k < |eqs| && k !in used
    ensures eqs[k] in UnusedFrom(eqs, used, i)
    decreases k - i
  {
    hide UnusedFrom;
    SelectStep(eqs, used, i);
    InCons(eqs[k], eqs[i], UnusedFrom(eqs, used, i + 1));
    if i < k {
      UnusedHas(eqs, used, i + 1, k);
    }
  }

  lemma {:induction false} UnusedSource(eqs: seq<Term>, used: set<nat>, i: nat, t: Term) returns (k: nat)
    requires t in UnusedFrom(eqs, used, i)
    ensures i <= k < |eqs| && k !in used && eqs[k] == t
    decreases |eqs| - i
  {
    hide UnusedFrom;
    SelectStep(eqs, used, i);
    assert i < |eqs|;
    InCons(t, eqs[i], UnusedFrom(eqs, used, i + 1));
    if i !in used && eqs[i] == t {
      k := i;
    } else {
      k := UnusedSource(eqs, used, i + 1, t);
    }
  }

  lemma OnIsMatched(w: World, eqs: seq<Term>, matched: set<nat>, env: Env)
    requires SelectFrom(eqs, matched, 0) != []
    ensures Passes(w, Some(AndAll(SelectFrom(eqs, matched, 0))))(env) == HoldAt(w, eqs, matched)(env)
  {
    hide SelectFrom;
    hide TermTruth;
    var ts := SelectFrom(eqs, matched, 0);
    CondIsTerms(w, AndAll(ts), env);
    if HoldAll(w, ts)(env) {
      forall k | k in matched && k < |eqs| ensures TermTruth(w, eqs[k], env).True3? {
        SelectHas(eqs, matched, 0, k);
      }
    }
    if HoldAt(w, eqs, matched)(env) {
      forall t | t in ts ensures TermTruth(w, t, env).True3? {
        var k := SelectSource(eqs, matched, 0, t);
      }
    }
  }

  lemma HoldAtBoth(w: World, eqs: seq<Term>, a: set<nat>, b: set<nat>, env: Env)
    ensures HoldAt(w, eqs, a + b)(env) == (HoldAt(w, eqs, a)(env) && HoldAt(w, eqs, b)(env))
  {
  }

  lemma PromotedFilter(w: World, eqs: seq<Term>, used: set<nat>, matched: set<nat>, names: set<string>, x: Env,
    name: string, y: Env)
    requires SelectFrom(eqs, matched, 0) != []
    requires SettledAt(eqs, used, names) && HasRelations(x, names) && ExtendsBy(x, y, name)
    ensures HoldAt(w, eqs, used + matched)(y)
         == (Passes(w, Some(AndAll(SelectFrom(eqs, matched, 0))))(y) && HoldAt(w, eqs, used)(x))
  {
    HoldAtBoth(w, eqs, used, matched, y);
    HoldAtExtended(w, eqs, used, names, x, y, name);
    OnIsMatched(w, eqs, matched, y);
  }

  /** On one row, the promoted join yields what the comma join yields and the new equalities keep. */
  lemma PromotedRow(w: World, j: FromJoin, eqs: seq<Term>, used: set<nat>, matched: set<nat>, names: set<string>,
    x: Env)
    requires IsComma(j) && SelectFrom(eqs, matched, 0) != []
    requires SettledAt(eqs, used, names) && HasRelations(x, names)
    ensures Filter(HoldAt(w, eqs, used + matched), JoinOne(w, j)(x))
         == if HoldAt(w, eqs, used)(x) then JoinOne(w, PromotedJoin(j, SelectFrom(eqs, matched, 0)))(x) else []
  {
    var name, rel := j.item.RelationName(), ItemRelation(w, j.item);
    var ys := Map(Extend(x, name), rel.rows);
    var on, both := Passes(w, Some(AndAll(SelectFrom(eqs, matched, 0)))), HoldAt(w, eqs, used + matched);
    assert JoinOne(w, j)(x) == ys by {
      FilterAll(Passes(w, j.on), ys);
    }
    forall y | y in ys ensures both(y) == (on(y) && HoldAt(w, eqs, used)(x)) {
      PromotedMatch(w, eqs, used, matched, names, x, name, rel.rows, y);
    }
    FilterWhen(on, both, HoldAt(w, eqs, used)(x), ys);
    assert JoinOne(w, PromotedJoin(j, SelectFrom(eqs, matched, 0)))(x) == Filter(on, ys);
  }

  lemma PromotedMatch(w: World, eqs: seq<Term>, used: set<nat>, matched: set<nat>, names: set<string>, x: Env,
    name: string,
      rows: seq<Record>, y: Env)
    requires SelectFrom(eqs, matched, 0) != []
    requires SettledAt(eqs, used, names) && HasRelations(x, names) && y in Map(Extend(x, name), rows)
    ensures HoldAt(w, eqs, used + matched)(y)
         == (Passes(w, Some(AndAll(SelectFrom(eqs, matched, 0))))(y) && HoldAt(w, eqs, used)(x))
  {
    var ys := Map(Extend(x, name), rows);
    var k :| 0 <= k < |ys| && ys[k] == y;
    assert ExtendsBy(x, y, name);
    PromotedFilter(w, eqs, used, matched, names, x, name, y);
  }

  lemma FilterWhen<T(!new)>(on: T -> bool, both: T -> bool, keep: bool, ys: seq<T>)
    requires forall y :: y in ys ==> both(y) == (on(y) && keep)
    ensures Filter(both, ys) == if keep then Filter(on, ys) else []
  {
    if keep {
      FilterSame(both, on, ys);
    } else {
      FilterNone(both, ys);
    }
  }

  lemma PromotedStep(w: World, j: FromJoin, envs: seq<Env>, eqs: seq<Term>, used: set<nat>, matched: set<nat>,
    names: set<string>)
    requires IsComma(j) && SelectFrom(eqs, matched, 0) != []
    requires SettledAt(eqs, used, names) && AllHaveRelations(envs, names)
    ensures Filter(HoldAt(w, eqs, used + matched), FlatMap(JoinOne(w, j), envs))
         == FlatMap(JoinOne(w, PromotedJoin(j, SelectFrom(eqs, matched, 0))), Filter(HoldAt(w, eqs, used), envs))
  {
    var f, h, keep := JoinOne(w, j), JoinOne(w, PromotedJoin(j, SelectFrom(eqs, matched, 0))), HoldAt(w, eqs, used);
    var g := (x: Env) => Filter(HoldAt(w, eqs, used + matched), f(x));
    forall x | x in envs ensures g(x) == if keep(x) then h(x) else [] {
      PromotedRow(w, j, eqs, used, matched, names, x);
    }
    FilterFlatMap(HoldAt(w, eqs, used + matched), f, g, envs);
    FlatMapFilter(g, h, keep, envs);
  }

  /** The promoted joins produce exactly the rows of the old ones that meet the equalities used so far. */
  lemma {:induction false} PromoteRows(
    w: World, joins: seq<FromJoin>, names: set<string>, eqs: seq<Term>, envs: seq<Env>, used: set<nat>)
    requires Promote(joins, names, eqs).Ok? && SettledAt(eqs, used, names) && AllHaveRelations(envs, names)
    ensures var p := Promote(joins, names, eqs).value;
            JoinAll(w, Filter(HoldAt(w, eqs, used), envs), p.joins)
            == Filter(HoldAt(w, eqs, used + p.used), JoinAll(w, envs, joins))
    decreases |joins|
  {
    var p := Promote(joins, names, eqs).value;
    if joins == [] {
      assert used + p.used == used;
    } else {
      var j := joins[0];
      var next, after := FlatMap(JoinOne(w, j), envs), Introduce(names, j.item);
      var rest := Promote(joins[1..], after, eqs).value;
      JoinedHaveRelations(w, j, envs, names);
      if IsComma(j) {
        var matched := MatchedAt(eqs, j.item.AliasOrName().value, names);
        PromotedStep(w, j, envs, eqs, used, matched, names);
        assert SettledAt(eqs, used + matched, after);
        PromoteRows(w, joins[1..], after, eqs, next, used + matched);
        assert used + matched + rest.used == used + p.used;
        assert p.joins[0] == PromotedJoin(j, SelectFrom(eqs, matched, 0)) && p.joins[1..] == rest.joins;
      } else {
        KeptJoinStep(w, j, envs, eqs, used, names);
        assert SettledAt(eqs, used, after);
        PromoteRows(w, joins[1..], after, eqs, next, used);
        assert used + rest.used == used + p.used;
        assert p.joins[0] == j && p.joins[1..] == rest.joins;
      }
    }
  }

  lemma WhereIsTerms(w: World, where: Option<Cond>, env: Env)
    ensures Passes(w, where)(env) <==> HoldAll(w, TermsOf(where))(env)
  {
    if where.Some? {
      CondIsTerms(w, where.value, env);
    }
  }

  /** WHERE holds exactly when the promoted equalities and the leftover do. */
  lemma WhereSplits(w: World, where: Option<Cond>, used: set<nat>, env: Env)
    ensures Passes(w, where)(env)
       <==> Passes(w, AndAllOrNone(Leftover(where, used)))(env) && HoldAt(w, Connectors(where), used)(env)
  {
    hide TermTruth;
    hide UnusedFrom;
    var eqs, all, left := Connectors(where), TermsOf(where), Leftover(where, used);
    WhereIsTerms(w, where, env);
    WhereIsTerms(w, AndAllOrNone(left), env);
    assert TermsOf(AndAllOrNone(left)) == left;
    if HoldAll(w, all)(env) {
      forall t | t in left ensures TermTruth(w, t, env).True3? {
        if t in UnusedFrom(eqs, used, 0) {
          var k := UnusedSource(eqs, used, 0, t);
          assert eqs[k] in eqs;
        }
        assert t in all;
      }
      forall k | k in used && k < |eqs| ensures TermTruth(w, eqs[k], env).True3? {
        assert eqs[k] in eqs && eqs[k] in all;
      }
    }
    if HoldAll(w, left)(env) && HoldAt(w, eqs, used)(env) {
      forall t | t in all ensures TermTruth(w, t, env).True3? {
        if Connector(t) {
          assert t in eqs;
          var k :| 0 <= k < |eqs| && eqs[k] == t;
          if k !in used {
            UnusedHas(eqs, used, 0, k);
            assert t in left;
          }
        } else {
          assert t in Filter(IsOther(), all);
        }
      }
    }
  }

  lemma SourceHasRelation(w: World, source: FromItem)
    ensures AllHaveRelations(Map(Bind(source.RelationName()), ItemRelation(w, source).rows), Introduce({}, source))
  {
    var envs := Map(Bind(source.RelationName()), ItemRelation(w, source).rows);
    forall e, n | e in envs && n in Introduce({}, source) ensures HasRelation(e, n) {
      var k :| 0 <= k < |envs| && envs[k] == e;
      assert e[0] in e;
    }
  }

  /** Promotion keeps the rows of FROM and WHERE, in order, for any mix of comma, INNER and LEFT joins. */
  lemma PromotionKeepsRows(w: World, source: FromItem, joins: seq<FromJoin>, where: Option<Cond>)
    requires Promote(joins, Introduce({}, source), Connectors(where)).Ok?
    ensures var p := Promote(joins, Introduce({}, source), Connectors(where)).value;
            FromWhere(w, source, p.joins, AndAllOrNone(Leftover(where, p.used))) == FromWhere(w, source, joins, where)
  {
    var eqs := Connectors(where);
    var p := Promote(joins, Introduce({}, source), eqs).value;
    var envs := Map(Bind(source.RelationName()), ItemRelation(w, source).rows);
    var left := AndAllOrNone(Leftover(where, p.used));
    SourceHasRelation(w, source);
    FilterAll(HoldAt(w, eqs, {}), envs);
    PromoteRows(w, joins, Introduce({}, source), eqs, envs, {});
    assert {} + p.used == p.used;
    var rows := JoinAll(w, envs, joins);
    forall x | x in rows ensures Passes(w, where)(x) == (Passes(w, left)(x) && HoldAt(w, eqs, p.used)(x)) {
      WhereSplits(w, where, p.used, x);
    }
    FilterBoth(Passes(w, left), HoldAt(w, eqs, p.used), Passes(w, where), rows);
  }

  // ----- every conjunct goes to one place

  function OnTerms(joins: seq<FromJoin>): seq<Term> {
    if joins == [] then [] else TermsOf(joins[0].on) + OnTerms(joins[1..])
  }

  /** Relation names are introduced once. */
  predicate DistinctItems(joins: seq<FromJoin>, introduced: set<string>) {
    joins != [] ==>
      && (joins[0].item.AliasOrName().Some? ==> joins[0].item.AliasOrName().value !in introduced)
      && DistinctItems(joins[1..], Introduce(introduced, joins[0].item))
  }

  lemma {:induction false} PromotionLeavesNoComma(joins: seq<FromJoin>, introduced: set<string>, eqs: seq<Term>)
    requires Promote(joins, introduced, eqs).Ok?
    ensures !HasComma(Promote(joins, introduced, eqs).value.joins)
  {
    if joins != [] {
      PromotionLeavesNoComma(joins[1..], Introduce(introduced, joins[0].item), eqs);
    }
  }

  lemma {:induction false} SelectDisjoint(eqs: seq<Term>, a: set<nat>, b: set<nat>, i: nat)
    requires a !! b
    ensures multiset(SelectFrom(eqs, a + b, i)) == multiset(SelectFrom(eqs, a, i)) + multiset(SelectFrom(eqs, b, i))
    decreases |eqs| - i
  {
    if i < |eqs| {
      SelectDisjoint(eqs, a, b, i + 1);
    }
  }

  lemma SplitStep<T>(x: T, s: seq<T>, u: seq<T>, rest: seq<T>, first: bool)
    requires multiset(s) + multiset(u) == multiset(rest)
    ensures multiset(if first then [x] + s else s) + multiset(if first then u else [x] + u) == multiset([x] + rest)
  {
    BagStep(x, if first then s else u);
    BagStep(x, rest);
  }

  lemma {:induction false} SelectAndUnused(eqs: seq<Term>, used: set<nat>, i: nat)
    requires i <= |eqs|
    ensures multiset(SelectFrom(eqs, used, i)) + multiset(UnusedFrom(eqs, used, i)) == multiset(eqs[i..])
    decreases |eqs| - i
  {
    if i < |eqs| {
      hide SelectFrom;
      hide UnusedFrom;
      SelectAndUnused(eqs, used, i + 1);
      assert eqs[i..] == [eqs[i]] + eqs[i + 1..];
      SelectStep(eqs, used, i);
      SplitStep(eqs[i], SelectFrom(eqs, used, i + 1), UnusedFrom(eqs, used, i + 1), eqs[i + 1..], i in used);
    }
  }

  /** With distinct names an equality is used at the later of its two relations, and nowhere else. */
  lemma {:induction false} UsedLater(joins: seq<FromJoin>, introduced: set<string>, eqs: seq<Term>)
    requires Promote(joins, introduced, eqs).Ok? && DistinctItems(joins, introduced)
    ensures forall k :: k in Promote(joins, introduced, eqs).value.used ==> k < |eqs| && !Settled(eqs[k], introduced)
  {
    if joins != [] {
      UsedLater(joins[1..], Introduce(introduced, joins[0].item), eqs);
    }
  }

  /** The equalities that one promoted join takes. */
  lemma CommaConserved(eqs: seq<Term>, matched: set<nat>, used: set<nat>, j: FromJoin, joins: seq<FromJoin>,
    rest: seq<FromJoin>)
    requires matched !! used && SelectFrom(eqs, matched, 0) != [] && j.on.None?
    requires multiset(OnTerms(rest)) == multiset(OnTerms(joins)) + multiset(SelectFrom(eqs, used, 0))
    ensures multiset(OnTerms([PromotedJoin(j, SelectFrom(eqs, matched, 0))] + rest))
         == multiset(OnTerms([j] + joins)) + multiset(SelectFrom(eqs, matched + used, 0))
  {
    SelectDisjoint(eqs, matched, used, 0);
    OnTermsStep(PromotedJoin(j, SelectFrom(eqs, matched, 0)), rest);
    OnTermsStep(j, joins);
  }

  /** What one step of the promotion adds. */
  lemma PromoteStep(joins: seq<FromJoin>, introduced: set<string>, eqs: seq<Term>) returns (matched: set<nat>,
    rest: Promotion)
    requires joins != [] && Promote(joins, introduced, eqs).Ok?
    ensures Promote(joins[1..], Introduce(introduced, joins[0].item), eqs) == Ok(rest)
    ensures Promote(joins, introduced, eqs).value.used == matched + rest.used
    ensures IsComma(joins[0]) ==>
              && joins[0].item.AliasOrName().Some? && SelectFrom(eqs, matched, 0) != []
              && matched == MatchedAt(eqs, joins[0].item.AliasOrName().value, introduced)
              && Promote(joins, introduced, eqs).value.joins ==
                [PromotedJoin(joins[0], SelectFrom(eqs, matched, 0))] + rest.joins
    ensures !IsComma(joins[0]) ==>
      matched == {} && Promote(joins, introduced, eqs).value.joins == [joins[0]] + rest.joins
  {
    rest := Promote(joins[1..], Introduce(introduced, joins[0].item), eqs).value;
    matched := if IsComma(joins[0]) then MatchedAt(eqs, joins[0].item.AliasOrName().value, introduced) else {};
  }

  lemma LaterApart(joins: seq<FromJoin>, introduced: set<string>, eqs: seq<Term>, matched: set<nat>, rest: Promotion)
    requires joins != [] && DistinctItems(joins, introduced) && joins[0].item.AliasOrName().Some?
    requires Promote(joins[1..], Introduce(introduced, joins[0].item), eqs) == Ok(rest)
    requires matched == MatchedAt(eqs, joins[0].item.AliasOrName().value, introduced)
    ensures matched !! rest.used
  {
    UsedLater(joins[1..], Introduce(introduced, joins[0].item), eqs);
  }

  lemma {:induction false} PromoteConserves(joins: seq<FromJoin>, introduced: set<string>, eqs: seq<Term>)
    requires Promote(joins, introduced, eqs).Ok? && DistinctItems(joins, introduced)
    ensures var p := Promote(joins, introduced, eqs).value;
            multiset(OnTerms(p.joins)) == multiset(OnTerms(joins)) + multiset(SelectFrom(eqs, p.used, 0))
  {
    if joins == [] {
      SelectNone(eqs, 0);
    } else {
      var matched, rest := PromoteStep(joins, introduced, eqs);
      PromoteConserves(joins[1..], Introduce(introduced, joins[0].item), eqs);
      assert joins == [joins[0]] + joins[1..];
      if IsComma(joins[0]) {
        LaterApart(joins, introduced, eqs, matched, rest);
        CommaConserved(eqs, matched, rest.used, joins[0], joins[1..], rest.joins);
      } else {
        PlainConserved(eqs, matched, rest.used, joins[0], joins[1..], rest.joins);
      }
    }
  }

  lemma PlainConserved(eqs: seq<Term>, matched: set<nat>, used: set<nat>, j: FromJoin, joins: seq<FromJoin>,
    rest: seq<FromJoin>)
    requires matched == {}
    requires multiset(OnTerms(rest)) == multiset(OnTerms(joins)) + multiset(SelectFrom(eqs, used, 0))
    ensures multiset(OnTerms([j] + rest)) ==
      multiset(OnTerms([j] + joins)) + multiset(SelectFrom(eqs, matched + used, 0))
  {
    assert matched + used == used;
    OnTermsStep(j, rest);
    OnTermsStep(j, joins);
  }

  lemma OnTermsStep(j: FromJoin, joins: seq<FromJoin>)
    ensures multiset(OnTerms([j] + joins)) == multiset(TermsOf(j.on)) + multiset(OnTerms(joins))
  {
    assert ([j] + joins)[1..] == joins;
  }

  lemma {:induction false} SelectNone(eqs: seq<Term>, i: nat)
    ensures SelectFrom(eqs, {}, i) == []
    decreases |eqs| - i
  {
    if i < |eqs| {
      SelectNone(eqs, i + 1);
    }
  }

  lemma LeftoverBag(where: Option<Cond>, used: set<nat>)
    ensures multiset(Leftover(where, used)) + multiset(SelectFrom(Connectors(where), used, 0)) ==
      multiset(TermsOf(where))
  {
    var eqs := Connectors(where);
    SelectAndUnused(eqs, used, 0);
    assert eqs[0..] == eqs;
    FilterSplits(IsConnector(), IsOther(), TermsOf(where));
  }

  /** Every conjunct of WHERE ends up in exactly one ON clause or in what is left of WHERE. */
  lemma PromotionConserves(joins: seq<FromJoin>, introduced: set<string>, where: Option<Cond>)
    requires Promote(joins, introduced, Connectors(where)).Ok? && DistinctItems(joins, introduced)
    ensures var p := Promote(joins, introduced, Connectors(where)).value;
            ConditionBag(p.joins, AndAllOrNone(Leftover(where, p.used))) == ConditionBag(joins, where)
  {
    hide Promote;
    hide DistinctItems;
    hide Leftover;
    hide OnTerms;
    var p := Promote(joins, introduced, Connectors(where)).value;
    var left := Leftover(where, p.used);
    PromoteConserves(joins, introduced, Connectors(where));
    LeftoverBag(where, p.used);
    assert TermsOf(AndAllOrNone(left)) == left;
    MoveBag(multiset(OnTerms(p.joins)), multiset(OnTerms(joins)), multiset(SelectFrom(Connectors(where), p.used, 0)),
      multiset(left), multiset(TermsOf(where)));
  }

  lemma MoveBag<T>(after: multiset<T>, before: multiset<T>, moved: multiset<T>, left: multiset<T>, all: multiset<T>)
    requires after == before + moved && left + moved == all
    ensures left + after == all + before
  {
  }
}
