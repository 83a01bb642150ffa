/** The read side of the service: `findAll`, `findByName` and `getStatus`
    over the rows of the table, in storage order. */
module CountryQueries {
  import opened Wrappers
  import opened HttpErrors
  import opened CountryEntity
  import opened CountryStore

  /** The optional query parameters of `findAll`. */
  datatype Filters = Filters(region: Option<string>, currency: Option<string>, sort: Option<string>)

  const NoFilters: Filters := Filters(None, None, None)

  /** A parameter takes part only when it is truthy: present and non-empty. */
  predicate Given(p: Option<string>) {
    p.Some? && p.value != ""
  }

  /** `country.region = :region AND country.currencyCode = :currency`, each
      conjunct only when its parameter is given; a NULL column equals
      nothing. */
  predicate Matches(c: Country, f: Filters) {
    && (Given(f.region) ==> c.region == f.region)
    && (Given(f.currency) ==> c.currencyCode == f.currency)
  }

  /** The orderings `findAll` knows. */
  datatype SortKey = GdpDesc | GdpAsc | PopulationDesc | PopulationAsc

  /** The `sort` values the switch recognises; any other applies no order. */
  const SortNames: set<string> := {"gdp_desc", "gdp_asc", "population_desc", "population_asc"}

  /** The ordering a `sort` parameter selects, if the switch recognises it. */
  function SortKeyOf(sort: Option<string>): (k: Option<SortKey>)
    ensures k.Some? <==> sort.Some? && sort.value in SortNames
  {
    if !Given(sort) then None
    else if sort.value == "gdp_desc" then Some(GdpDesc)
    else if sort.value == "gdp_asc" then Some(GdpAsc)
    else if sort.value == "population_desc" then Some(PopulationDesc)
    else if sort.value == "population_asc" then Some(PopulationAsc)
    else None
  }

  /** Ascending order on a nullable GDP column as PostgreSQL orders it: NULL
      sorts after every value. */
  function GdpAtMost(x: Option<real>, y: Option<real>): (r: bool)
    ensures y.None? ==> r
    ensures x.None? && y.Some? ==> !r
    ensures x.Some? && y.Some? ==> (r <==> x.value <= y.value)
  {
    y.None? || (x.Some? && x.value <= y.value)
  }

  /** The GDP order is total and transitive, as an `ORDER BY` key must be. */
  lemma GdpOrder(x: Option<real>, y: Option<real>, z: Option<real>)
    ensures GdpAtMost(x, y) || GdpAtMost(y, x)
    ensures GdpAtMost(x, y) && GdpAtMost(y, z) ==> GdpAtMost(x, z)
  {
  }

  /** `a` may come before `b` under the ordering `k`. */
  predicate Precedes(k: SortKey, a: Country, b: Country) {
    match k
    case GdpDesc => GdpAtMost(b.estimatedGdp, a.estimatedGdp)
    case GdpAsc => GdpAtMost(a.estimatedGdp, b.estimatedGdp)
    case PopulationDesc => a.population >= b.population
    case PopulationAsc => a.population <= b.population
  }

  predicate Sorted(k: SortKey, s: seq<Country>) {
    forall i, j :: 0 <= i < j < |s| ==> Precedes(k, s[i], s[j])
  }

  /** The rows that match the filters, in storage order. */
  function Filter(rows: seq<Country>, f: Filters): (r: seq<Country>)
    ensures forall c :: multiset(r)[c] == if Matches(c, f) then multiset(rows)[c] else 0
    ensures forall i :: 0 <= i < |r| ==> Matches(r[i], f)
  {
    if |rows| == 0 then []
    else
      assert rows == [rows[0]] + rows[1..];
      (if Matches(rows[0], f) then [rows[0]] else []) + Filter(rows[1..], f)
  }

  /** Filtering keeps the matching rows in their storage order. */
  lemma {:induction false} FilterKeepsOrder(rows: seq<Country>, f: Filters)
    ensures Subsequence(Filter(rows, f), rows)
    decreases |rows|
  {
    if |rows| > 0 {
      var rest := Filter(rows[1..], f);
      FilterKeepsOrder(rows[1..], f);
      if Matches(rows[0], f) {
        assert Filter(rows, f) == [rows[0]] + rest;
        assert ([rows[0]] + rest)[1..] == rest;
      } else {
        assert Filter(rows, f) == rest;
      }
    }
  }

  /** Inserts `x` into an ordered sequence, keeping it ordered. */
  function Insert(k: SortKey, x: Country, s: seq<Country>): (r: seq<Country>)
    ensures multiset(r) == multiset(s) + multiset{x}
    ensures Sorted(k, s) ==> Sorted(k, r)
  {
    if |s| == 0 then [x]
    else if Precedes(k, x, s[0]) then [x] + s
    else
      var r' := Insert(k, x, s[1..]);
      assert s == [s[0]] + s[1..];
      assert Precedes(k, s[0], x);
      assert Sorted(k, s) ==> Sorted(k, [s[0]] + r') by {
        if Sorted(k, s) {
          InsertBehindHead(k, x, s, r');
        }
      }
      [s[0]] + r'
  }

  /** When `x` does not go before the head of an ordered sequence, the head
      may precede the rest with `x` inserted. */
  lemma InsertBehindHead(k: SortKey, x: Country, s: seq<Country>, r': seq<Country>)
    requires Sorted(k, s) && |s| > 0 && Precedes(k, s[0], x)
    requires multiset(r') == multiset(s[1..]) + multiset{x}
    requires Sorted(k, s[1..]) ==> Sorted(k, r')
    ensures Sorted(k, [s[0]] + r')
  {
    assert Sorted(k, s[1..]) by {
      forall i, j | 0 <= i < j < |s[1..]| ensures Precedes(k, s[1..][i], s[1..][j]) {
        assert s[1..][i] == s[i + 1] && s[1..][j] == s[j + 1];
      }
    }
    forall j | 0 <= j < |r'| ensures Precedes(k, s[0], r'[j]) {
      assert r'[j] in multiset(s[1..]) + multiset{x};
      if r'[j] != x {
        assert r'[j] in s[1..];
      }
    }
    SortedCons(k, s[0], r');
  }

  /** A row that may precede every row of an ordered sequence can head it. */
  lemma SortedCons(k: SortKey, x: Country, s: seq<Country>)
    requires Sorted(k, s)
    requires forall j :: 0 <= j < |s| ==> Precedes(k, x, s[j])
    ensures Sorted(k, [x] + s)
  {
    var r := [x] + s;
    forall i, j | 0 <= i < j < |r| ensures Precedes(k, r[i], r[j]) {
      assert r[j] == s[j - 1];
      if i > 0 { assert r[i] == s[i - 1]; }
    }
  }

  /** `ORDER BY`: the same rows, ordered by `k`. */
  function SortBy(k: SortKey, s: seq<Country>): (r: seq<Country>)
    ensures multiset(r) == multiset(s)
    ensures Sorted(k, r)
  {
    if |s| == 0 then []
    else
      assert s == [s[0]] + s[1..];
      Insert(k, s[0], SortBy(k, s[1..]))
  }

  /** `findAll`: exactly the rows matching every given filter, each as often
      as it is stored; ordered by the recognised sort key, or in storage
      order when the sort key is missing or unrecognised. */
  function FindAll(rows: seq<Country>, f: Filters): (r: seq<Country>)
    ensures forall c :: multiset(r)[c] == if Matches(c, f) then multiset(rows)[c] else 0
    ensures forall i :: 0 <= i < |r| ==> Matches(r[i], f)
    ensures f.sort == Some("population_desc") ==> Sorted(PopulationDesc, r)
    ensures f.sort == Some("population_asc") ==> Sorted(PopulationAsc, r)
    ensures f.sort == Some("gdp_desc") ==> Sorted(GdpDesc, r)
    ensures f.sort == Some("gdp_asc") ==> Sorted(GdpAsc, r)
    ensures f.sort.None? || f.sort.value !in SortNames ==> r == Filter(rows, f)
  {
    var matching := Filter(rows, f);
    match SortKeyOf(f.sort)
    case None => matching
    case Some(k) =>
      var r := SortBy(k, matching);
      assert multiset(r) == multiset(matching);
      assert f.sort == Some("population_desc") ==> k == PopulationDesc;
      assert f.sort == Some("population_asc") ==> k == PopulationAsc;
      assert f.sort == Some("gdp_desc") ==> k == GdpDesc;
      assert f.sort == Some("gdp_asc") ==> k == GdpAsc;
      r
  }

  /** `findByName`: a row whose name matches case-insensitively, or
      NotFound exactly when no row matches. */
  function FindByName(rows: seq<Country>, name: string): (r: Result<Country, HttpError>)
    ensures r.Err? <==> forall i :: 0 <= i < |rows| ==> !SameName(rows[i].name, name)
    ensures r.Err? ==> r.error == CountryNotFound && r.error.status == 404
    ensures r.Ok? ==> r.value in rows && SameName(r.value.name, name)
  {
    match FindIndex(rows, name)
    case None => Err(CountryNotFound)
    case Some(k) => Ok(rows[k])
  }

  /** With unique names the lookup returns the one matching row. */
  lemma FindByNameUnique(rows: seq<Country>, name: string, i: nat)
    requires UniqueNames(rows)
    requires i < |rows| && SameName(rows[i].name, name)
    ensures FindByName(rows, name) == Ok(rows[i])
  {
    forall j | 0 <= j < |rows| && j != i ensures !SameName(rows[j].name, name) {
      assert !SameName(rows[j].name, rows[i].name);
    }
  }

  /** The response of `getStatus`. */
  datatype Status = Status(totalCountries: nat, lastRefreshedAt: Option<Timestamp>)

  /** `MAX(lastRefreshedAt)`: NULL over no rows, otherwise the latest stamp. */
  function MaxRefreshed(rows: seq<Country>): (m: Option<Timestamp>)
    ensures m.None? <==> |rows| == 0
    ensures m.Some? ==> exists i :: 0 <= i < |rows| && rows[i].lastRefreshedAt == m.value
    ensures m.Some? ==> forall i :: 0 <= i < |rows| ==> rows[i].lastRefreshedAt <= m.value
  {
    if |rows| == 0 then None
    else
      match MaxRefreshed(rows[1..])
      case None => Some(rows[0].lastRefreshedAt)
      case Some(later) =>
        assert forall i :: 1 <= i < |rows| ==> rows[i] == rows[1..][i - 1];
        Some(if rows[0].lastRefreshedAt >= later then rows[0].lastRefreshedAt else later)
  }

  /** `getStatus`: the number of rows, and the latest `lastRefreshedAt`
      among them, or none when the table is empty. */
  function GetStatus(rows: seq<Country>): (s: Status)
    ensures s.totalCountries == |rows|
    ensures s.lastRefreshedAt.None? <==> |rows| == 0
    ensures s.lastRefreshedAt.Some? ==>
              (exists i :: 0 <= i < |rows| && rows[i].lastRefreshedAt == s.lastRefreshedAt.value)
              && forall i :: 0 <= i < |rows| ==> rows[i].lastRefreshedAt <= s.lastRefreshedAt.value
  {
    Status(|rows|, MaxRefreshed(rows))
  }
}
