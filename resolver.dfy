/** Name resolution of bcli.py: the SQL `LIKE` lookup, the accent-insensitive
    fallback filter of find_player and the substring search of
    fuzzy_find_player. remove_accents and SQL `LIKE` are parameters: the
    first depends on Unicode decomposition tables, the second is the
    database engine's. */
module Resolver {
  import opened Wrappers
  import opened Seqs
  import opened Text
  import opened Parsing
  import opened Rows

  /** The tables as the queries see them, each already in `ORDER BY year ASC, team` order. */
  datatype Store = Store(pitchers: seq<StatLine>, hitters: seq<StatLine>)

  /** The minimum workload a row needs to be found: 5 innings pitched or 5 at
      bats; a NULL value never qualifies. */
  predicate Qualified(t: PlayerType, row: StatLine)
  {
    var v := Get(row, if t == Pitcher then "ip" else "ab");
    v.Some? && v.value >= 5.0
  }

  function Table(store: Store, t: PlayerType): seq<StatLine>
  {
    if t == Pitcher then store.pitchers else store.hitters
  }

  /** The qualifying rows of one table, in table order. */
  function QualifiedRows(store: Store, t: PlayerType): (r: seq<StatLine>)
    ensures forall x :: x in r <==> x in Table(store, t) && Qualified(t, x)
  {
    Filter(Table(store, t), (x: StatLine) => Qualified(t, x))
  }

  /** The `LIKE` pattern find_player sends for a query: `%last%`, or
      `first%last%` for a dot query, lower-cased. In other words the
      lower-cased query with a trailing wildcard, and either a leading one or
      its first dot turned into one. */
  function LikePattern(query: string): (pattern: string)
    ensures '.' !in query ==> pattern == "%" + Lower(query) + "%"
    ensures '.' in query ==> pattern == Lower(query)[IndexOf(query, '.') := '%'] + "%"
  {
    var q := ParseNameQuery(query);
    match q.first
    case None => "%" + Lower(q.last) + "%"
    case Some(f) =>
      DotPattern(query);
      Lower(f) + "%" + Lower(q.last) + "%"
  }

  lemma DotPattern(query: string)
    requires '.' in query
    ensures var q := ParseNameQuery(query);
            var i := IndexOf(query, '.');
            && q.first.Some?
            && Lower(q.first.value) + "%" + Lower(q.last) == Lower(query)[i := '%']
            && Lower(q.first.value) == Lower(query)[..i]
            && Lower(q.last) == Lower(query)[i + 1..]
  {
    FirstPartEndsAtDot(query);
    var q := ParseNameQuery(query);
    LowerAroundDot(query, q.first.value, q.last, IndexOf(query, '.'));
  }

  lemma LowerAroundDot(query: string, f: string, last: string, i: nat)
    requires i < |query| && f == query[..i] && last == query[i + 1..]
    ensures Lower(f) == Lower(query)[..i] && Lower(last) == Lower(query)[i + 1..]
    ensures Lower(f) + "%" + Lower(last) == Lower(query)[i := '%']
  {
    LowerSlice(query, 0, i);
    LowerSlice(query, i + 1, |query|);
    assert query[0..i] == query[..i];
    assert query[i + 1..|query|] == query[i + 1..];
    WildcardAt(Lower(query), i);
  }

  lemma WildcardAt(l: string, i: nat)
    requires i < |l|
    ensures l[..i] + "%" + l[i + 1..] == l[i := '%']
  {
  }

  /** The accent-folded search terms: the first-name prefix, if any, and the
      last-name substring. */
  datatype Search = Search(first: Option<string>, last: string)

  /** The terms of a query: without a dot the folded query is the substring
      to look for; with one, the folded text before the first dot must start
      the name and the folded text after it must occur in it. */
  function SearchTerms(query: string, ra: string -> string): (s: Search)
    ensures s.first.Some? <==> '.' in query
    ensures '.' !in query ==> s.last == ra(Lower(query))
    ensures '.' in query ==> var i := IndexOf(query, '.');
      s.first.value == ra(Lower(query)[..i]) && s.last == ra(Lower(query)[i + 1..])
  {
    var q := ParseNameQuery(query);
    if q.first.Some? then
      DotPattern(query);
      Search(Some(ra(Lower(q.first.value))), ra(Lower(q.last)))
    else Search(None, ra(Lower(q.last)))
  }

  /** The fallback test on a folded name: it contains the last-name part and,
      for a dot query, starts with the first-name part. */
  predicate NameMatches(normalizedName: string, s: Search)
  {
    && Contains(normalizedName, s.last)
    && (s.first.Some? ==> StartsWith(normalizedName, s.first.value))
  }

  /** The set of rows the fallback keeps, as a predicate on one row. */
  predicate FallbackKeeps(row: StatLine, s: Search, ra: string -> string)
  {
    NameMatches(ra(Lower(row.player)), s)
  }

  function FallbackTest(s: Search, ra: string -> string): StatLine -> bool
  {
    (r: StatLine) => FallbackKeeps(r, s, ra)
  }

  /** The loop of find_player's fallback over one table's qualifying rows. */
  method FallbackFilter(rows: seq<StatLine>, s: Search, ra: string -> string) returns (matches: seq<StatLine>)
    ensures matches == Filter(rows, FallbackTest(s, ra))
  {
    matches := [];
    for i := 0 to |rows|
      invariant matches == Filter(rows[..i], FallbackTest(s, ra))
    {
      var normalizedName := ra(Lower(rows[i].player));
      FilterPrefix(rows, i, FallbackTest(s, ra));
      if NameMatches(normalizedName, s) {
        assert FallbackTest(s, ra)(rows[i]);
        matches := matches + [rows[i]];
      } else {
        assert !FallbackTest(s, ra)(rows[i]);
      }
    }
    assert rows[..|rows|] == rows;
  }

  /** What the fallback returns: exactly the matching rows, in input order. */
  lemma FallbackSpec(rows: seq<StatLine>, s: Search, ra: string -> string)
    ensures var m := Filter(rows, FallbackTest(s, ra));
            && IsSubsequence(m, rows)
            && (forall r :: r in m <==> r in rows && NameMatches(ra(Lower(r.player)), s))
  {
    FilterIsSubsequence(rows, FallbackTest(s, ra));
  }

  /** The result of find_player: pitcher rows and hitter rows. */
  datatype Matches = Matches(pitchers: seq<StatLine>, hitters: seq<StatLine>)

  /** The `LIKE` tier: qualifying rows whose lower-cased name matches the pattern. */
  function LikeRows(store: Store, t: PlayerType, pattern: string, like: (string, string) -> bool): (r: seq<StatLine>)
    ensures forall x :: x in r <==> x in QualifiedRows(store, t) && like(Lower(x.player), pattern)
  {
    Filter(QualifiedRows(store, t), (x: StatLine) => like(Lower(x.player), pattern))
  }

  /** find_player: the `LIKE` results, or, only when both of them are empty,
      the accent-insensitive fallback over both tables. */
  method FindPlayer(store: Store, query: string, ra: string -> string, like: (string, string) -> bool)
    returns (m: Matches)
    ensures var pattern := LikePattern(query);
            var s := SearchTerms(query, ra);
            var p1, h1 := LikeRows(store, Pitcher, pattern, like), LikeRows(store, Hitter, pattern, like);
            if p1 != [] || h1 != [] then m == Matches(p1, h1)
            else m == Matches(Filter(QualifiedRows(store, Pitcher), FallbackTest(s, ra)),
                              Filter(QualifiedRows(store, Hitter), FallbackTest(s, ra)))
    ensures forall r :: r in m.pitchers ==> r in store.pitchers && Qualified(Pitcher, r)
    ensures forall r :: r in m.hitters ==> r in store.hitters && Qualified(Hitter, r)
  {
    var s := SearchTerms(query, ra);
    var pattern := LikePattern(query);
    var pitcherMatches := LikeRows(store, Pitcher, pattern, like);
    var hitterMatches := LikeRows(store, Hitter, pattern, like);
    if pitcherMatches == [] && hitterMatches == [] {
      pitcherMatches := FallbackFilter(QualifiedRows(store, Pitcher), s, ra);
      hitterMatches := FallbackFilter(QualifiedRows(store, Hitter), s, ra);
    }
    m := Matches(pitcherMatches, hitterMatches);
  }

  /** Whether a name's folded form contains the folded query. */
  function FuzzyTest(normalizedQuery: string, ra: string -> string): string -> bool
  {
    (n: string) => Contains(ra(Lower(n)), normalizedQuery)
  }

  /** fuzzy_find_player's loop over the distinct names of one table: the names
      whose folded form contains the folded query. */
  method FuzzyFilter(names: seq<string>, query: string, ra: string -> string) returns (found: seq<string>)
    ensures found == Filter(names, FuzzyTest(ra(Lower(query)), ra))
    ensures IsSubsequence(found, names)
    ensures forall n :: n in found <==> n in names && Contains(ra(Lower(n)), ra(Lower(query)))
    ensures forall n :: n in names && ra(Lower(n)) == ra(Lower(query)) ==> n in found
  {
    var normalizedQuery := ra(Lower(query));
    found := [];
    for i := 0 to |names|
      invariant found == Filter(names[..i], FuzzyTest(normalizedQuery, ra))
    {
      FilterPrefix(names, i, FuzzyTest(normalizedQuery, ra));
      if Contains(ra(Lower(names[i])), normalizedQuery) {
        assert FuzzyTest(normalizedQuery, ra)(names[i]);
        found := found + [names[i]];
      } else {
        assert !FuzzyTest(normalizedQuery, ra)(names[i]);
      }
    }
    assert names[..|names|] == names;
    FilterIsSubsequence(names, FuzzyTest(normalizedQuery, ra));
    forall n | n in names && ra(Lower(n)) == normalizedQuery ensures n in found {
      ContainsSelf(normalizedQuery);
    }
  }

  /** Filtering keeps distinct inputs distinct, so the fuzzy candidate lists
      name each player once. */
  lemma {:induction false} FilterDistinct<T(!new)>(s: seq<T>, p: T -> bool)
    requires Distinct(s)
    ensures Distinct(Filter(s, p))
  {
    if s != [] {
      assert Distinct(s[1..]) by {
        forall i, j | 0 <= i < j < |s[1..]| ensures s[1..][i] != s[1..][j] {
          assert s[1..][i] == s[i + 1] && s[1..][j] == s[j + 1];
        }
      }
      FilterDistinct(s[1..], p);
      var rest := Filter(s[1..], p);
      if p(s[0]) {
        assert s[0] !in s[1..];
        assert s[0] !in rest;
        assert Filter(s, p) == [s[0]] + rest;
      }
    }
  }

  lemma ContainsSelf(s: string)
    ensures Contains(s, s)
  {
    assert s[..|s|] == s;
  }
}
