/** Queries over one base table: what their rows are, and which rows can be told apart. */
module TableRows {
  import opened Ir
  import opened Lists
  import opened Semantics
  import opened Pipeline
  import opened Constraints

  /** The last dot-separated part of a table name. */
  function LastSegment(s: string): (r: string)
    ensures '.' !in r
    ensures '.' !in s ==> r == s
  {
    if '.' !in s then s else LastSegment(s[1..])
  }

  /** The qualifiers a rule accepts for the columns of an unjoined table. */
  predicate ValidPrefix(prefix: string, alias: Option<string>, table: string) {
    if alias.Some? then prefix == alias.value else prefix == table || prefix == LastSegment(table)
  }

  /** A column reference that the database resolves to the query's only relation. */
  predicate InScope(q: SelectQuery, c: ColName) {
    c.table.None? || c.table.value == q.SourceName()
  }

  predicate SingleTable(q: SelectQuery) {
    q.table.Some? && q.joins == []
  }

  function RowsOf(w: World, q: SelectQuery): seq<Record>
    requires q.table.Some?
  {
    TableRelation(w, q.table.value).rows
  }

  lemma SingleTableRows(w: World, q: SelectQuery)
    requires SingleTable(q)
    ensures FromRows(w, q) == Map(Bind(q.SourceName()), RowsOf(w, q))
  {
  }

  lemma {:induction false} GetMissing(r: Record, name: string)
    requires !HasField(r, name)
    ensures Get(r, name) == Null
  {
    if r != [] {
      assert r[0].name != name;
      forall i | 0 <= i < |r[1..]| ensures r[1..][i].name != name {
        assert r[i + 1].name != name;
      }
      GetMissing(r[1..], name);
    }
  }

  lemma ColumnOfRow(q: SelectQuery, c: ColName, r: Record)
    requires InScope(q, c)
    ensures Lookup([Binding(q.SourceName(), r)], c) == Get(r, c.name)
  {
    if c.table.None? && !HasField(r, c.name) {
      GetMissing(r, c.name);
    }
  }

  // ----- telling rows apart

  /** Elements that pass a filter keep different images when any two passing elements have them. */
  lemma {:induction false} FilterApartIf<T(!new), U(!new)>(f: T -> bool, h: T -> U, s: seq<T>)
    requires forall i, j :: 0 <= i < j < |s| && f(s[i]) && f(s[j]) ==> h(s[i]) != h(s[j])
    ensures NoDuplicates(Map(h, Filter(f, s)))
  {
    if s != [] {
      var t := Filter(f, s[1..]);
      FilterApartIf(f, h, s[1..]);
      if f(s[0]) {
        var all := Map(h, [s[0]] + t);
        forall i, j | 0 <= i < j < |all| ensures all[i] != all[j] {
          if i == 0 {
            assert t[j - 1] in t;
            var k :| 0 <= k < |s[1..]| && s[1..][k] == t[j - 1];
            assert s[k + 1] == t[j - 1];
          } else {
            assert all[i] == Map(h, t)[i - 1] && all[j] == Map(h, t)[j - 1];
          }
        }
      }
    }
  }

  lemma FilterApart<T(!new), U(!new)>(f: T -> bool, h: T -> U, s: seq<T>)
    requires NoDuplicates(Map(h, s))
    ensures NoDuplicates(Map(h, Filter(f, s)))
  {
    forall i, j | 0 <= i < j < |s| ensures h(s[i]) != h(s[j]) {
      assert Map(h, s)[i] != Map(h, s)[j];
    }
    FilterApartIf(f, h, s);
  }

  lemma TailApart<T(!new), U(!new)>(h: T -> U, s: seq<T>)
    requires NoDuplicates(Map(h, s)) && s != []
    ensures NoDuplicates(Map(h, s[1..]))
  {
    var t := Map(h, s[1..]);
    forall i, j | 0 <= i < j < |t| ensures t[i] != t[j] {
      assert t[i] == Map(h, s)[i + 1] && t[j] == Map(h, s)[j + 1];
    }
  }

  lemma HeadApart<T(!new), U(!new)>(h: T -> U, s: seq<T>, t: seq<T>)
    requires NoDuplicates(Map(h, s)) && s != [] && NoDuplicates(Map(h, t))
    requires forall x :: x in t ==> x in s[1..]
    ensures NoDuplicates(Map(h, [s[0]] + t))
  {
    var all := Map(h, [s[0]] + t);
    forall i, j | 0 <= i < j < |all| ensures all[i] != all[j] {
      if i == 0 {
        assert t[j - 1] in s[1..];
        var k :| 0 <= k < |s[1..]| && s[1..][k] == t[j - 1];
        assert Map(h, s)[0] != Map(h, s)[k + 1];
      } else {
        assert all[i] == Map(h, t)[i - 1] && all[j] == Map(h, t)[j - 1];
      }
    }
  }

  lemma {:induction false} PickApart<T(!new), U(!new)>(h: T -> U, s: seq<T>, marks: seq<bool>)
    requires |s| == |marks| && NoDuplicates(Map(h, s))
    ensures NoDuplicates(Map(h, PickMarked(s, marks)))
  {
    if s != [] {
      TailApart(h, s);
      PickApart(h, s[1..], marks[1..]);
      PickedIn(s[1..], marks[1..]);
      HeadApart(h, s, PickMarked(s[1..], marks[1..]));
    }
  }

  /** Any two different rows of a table differ on `columns` when these contain a trusted non-null unique key. */
  lemma KeyTellsRowsApart(w: World, q: SelectQuery, t: TableConstraints, columns: seq<string>, i: int, j: int)
    requires q.table.Some? && TableMeets(w, RowsOf(w, q), t)
    requires t.NonNullUniqueKeyContainedIn(columns).Some?
    requires 0 <= i < j < |RowsOf(w, q)|
    ensures exists c :: c in columns && Get(RowsOf(w, q)[i], c) != Get(RowsOf(w, q)[j], c)
  {
    var key := t.NonNullUniqueKeyContainedIn(columns).value;
    NonNullKeySeparates(w, RowsOf(w, q), t, key, i, j);
  }

  // ----- removing predicates that every row passes

  ghost predicate TrueOnEveryRow(w: World, q: SelectQuery, p: WherePredicate) {
    forall env :: env in FromRows(w, q) ==> PredicateTruth(w, p, env).True3?
  }

  lemma SamePassing(w: World, q: SelectQuery, kept: seq<WherePredicate>)
    requires forall p :: p in kept ==> p in q.predicates
    requires forall p :: p in q.predicates ==> p in kept || TrueOnEveryRow(w, q, p)
    ensures Filter(WhereHolds(w, q.predicates), FromRows(w, q)) == Filter(WhereHolds(w, kept), FromRows(w, q))
  {
    forall env | env in FromRows(w, q) ensures WhereHolds(w, q.predicates)(env) == WhereHolds(w, kept)(env) {
      if WhereHolds(w, kept)(env) {
        forall p | p in q.predicates ensures PredicateTruth(w, p, env).True3? {
        }
      }
    }
    FilterSame(WhereHolds(w, q.predicates), WhereHolds(w, kept), FromRows(w, q));
  }

  lemma SamePassingSameBody(w: World, q: SelectQuery, kept: seq<WherePredicate>, envs: seq<Env>)
    requires Filter(WhereHolds(w, q.predicates), envs) == Filter(WhereHolds(w, kept), envs)
    ensures Body(w, q, envs) == Body(w, q.(predicates := kept), envs)
  {
  }

  /** Dropping only predicates that hold on every row changes nothing: rows, their order, columns. */
  lemma DropTruePredicates(w: World, q: SelectQuery, kept: seq<WherePredicate>)
    requires forall p :: p in kept ==> p in q.predicates
    requires forall p :: p in q.predicates ==> p in kept || TrueOnEveryRow(w, q, p)
    ensures Eval(w, q) == Eval(w, q.(predicates := kept))
  {
    var r := q.(predicates := kept);
    SameFrom(w, q, r);
    SamePassing(w, q, kept);
    SamePassingSameBody(w, q, kept, FromRows(w, q));
    SameEval(w, q, r);
  }
}
