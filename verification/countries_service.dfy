/** The countries service: the refresh that merges the two external datasets
    into the table, and the delete by name. The table is held by the class;
    the read-only queries are the functions of `CountryQueries` applied to
    its rows. */
module Countries {
  import opened Wrappers
  import opened HttpErrors
  import opened CountryEntity
  import opened ExternalApi
  import opened CountryStore
  import opened CountryQueries

  /** The response of a successful refresh. */
  datatype RefreshSummary = RefreshSummary(message: string, count: nat)

  const RefreshedMessage: string := "Countries refreshed successfully"

  /** `exchangeData.rates[currencyCode] || null`: a rate exists only for a
      code that is in the table with a truthy (non-zero) rate. */
  function LookupRate(code: Option<string>, rates: map<string, real>): (rate: Option<real>)
    ensures rate.Some? <==> code.Some? && code.value in rates && rates[code.value] != 0.0
    ensures rate.Some? ==> rate.value == rates[code.value]
  {
    if code.Some? && code.value in rates && rates[code.value] != 0.0 then Some(rates[code.value]) else None
  }

  /** The DTO the refresh builds for one fetched country, `u` being the
      random draw for its GDP estimate. The pass-through fields are copied;
      a rate is present only for a currency code with a truthy rate; a GDP
      estimate only when there is a rate, and a zero estimate (a zero
      population) is stored as absent. */
  function BuildDto(raw: RawCountry, rates: map<string, real>, u: real): (dto: CountryDto)
    requires IsRandomDraw(u)
    ensures dto.name == raw.name && dto.capital == raw.capital && dto.region == Some(raw.region)
    ensures dto.population == raw.population && dto.flagUrl == Some(raw.flag)
    ensures dto.currencyCode == ExtractCurrencyCode(raw.currencies)
    ensures dto.exchangeRate.Some? <==>
              dto.currencyCode.Some? && dto.currencyCode.value in rates && rates[dto.currencyCode.value] != 0.0
    ensures dto.exchangeRate.Some? ==> dto.exchangeRate.value == rates[dto.currencyCode.value]
    ensures dto.estimatedGdp.Some? <==> dto.exchangeRate.Some? && raw.population != 0
    ensures dto.estimatedGdp.Some? && raw.population > 0 && dto.exchangeRate.value > 0.0 ==>
              (raw.population as real) * 1000.0 / dto.exchangeRate.value <= dto.estimatedGdp.value
              < (raw.population as real) * 2000.0 / dto.exchangeRate.value
  {
    var code := ExtractCurrencyCode(if raw.currencies.None? then Some([]) else raw.currencies);
    var rate := LookupRate(code, rates);
    var gdp := if rate.Some? then Some(CalculateEstimatedGdp(raw.population, rate.value, u)) else None;
    CountryDto(
      raw.name, raw.capital, Some(raw.region), raw.population, code, rate,
      if gdp.Some? && gdp.value != 0.0 then gdp else None,
      Some(raw.flag))
  }

  /** Every random draw lies in [0, 1). */
  ghost predicate AllDraws(random: nat -> real) {
    forall i: nat :: IsRandomDraw(random(i))
  }

  /** The DTOs the refresh loop builds, the i-th from the i-th fetched
      country and the draw `random(i)`. */
  function Dtos(countries: seq<RawCountry>, rates: map<string, real>, random: nat -> real): (dtos: seq<CountryDto>)
    requires AllDraws(random)
    ensures |dtos| == |countries|
    ensures forall i :: 0 <= i < |countries| ==> dtos[i] == BuildDto(countries[i], rates, random(i))
  {
    seq(|countries|, i requires 0 <= i < |countries| => BuildDto(countries[i], rates, random(i)))
  }

  /** The table after upserting the DTOs in order, all with one timestamp. */
  function UpsertAll(t: Table, dtos: seq<CountryDto>, stamp: Timestamp): (r: Table)
    ensures |t.rows| <= |r.rows| <= |t.rows| + |dtos|
    ensures r.nextId == t.nextId + (|r.rows| - |t.rows|)
    decreases |dtos|
  {
    if |dtos| == 0 then t
    else Upserted(UpsertAll(t, dtos[..|dtos| - 1], stamp), dtos[|dtos| - 1], stamp)
  }

  /** Extending the batch by its next DTO is one more upsert. */
  lemma UpsertAllSnoc(t: Table, dtos: seq<CountryDto>, i: nat, stamp: Timestamp)
    requires i < |dtos|
    ensures UpsertAll(t, dtos[..i + 1], stamp) == Upserted(UpsertAll(t, dtos[..i], stamp), dtos[i], stamp)
  {
    assert dtos[..i + 1][..i] == dtos[..i];
  }

  /** The table after a successful refresh of `countries` with the rate
      table `rates`, the draws `random` and the batch timestamp `stamp`. */
  function Reconciled(t: Table, countries: seq<RawCountry>, rates: map<string, real>,
                      random: nat -> real, stamp: Timestamp): (r: Table)
    requires AllDraws(random)
    ensures |t.rows| <= |r.rows| <= |t.rows| + |countries|
    ensures r.nextId == t.nextId + (|r.rows| - |t.rows|)
  {
    UpsertAll(t, Dtos(countries, rates, random), stamp)
  }

  /** The outcome `refreshCountries` reports: the fetch error when either
      fetch fails, otherwise the fixed message with the number of fetched
      countries. It depends on nothing else. */
  function RefreshOutcome(countriesResponse: Transport<seq<RawCountry>>,
                          ratesResponse: Transport<ExchangeRates>): (r: Result<RefreshSummary, HttpError>)
    ensures r.Ok? <==> countriesResponse.Received? && ratesResponse.Received?
    ensures r.Ok? ==> r.value.count == |countriesResponse.body| && r.value.message == RefreshedMessage
    ensures r.Err? ==> r.error == SourceUnavailable
  {
    match (Fetch(countriesResponse), Fetch(ratesResponse))
    case (Ok(countries), Ok(_)) => Ok(RefreshSummary(RefreshedMessage, |countries|))
    case (Err(e), _) => Err(e)
    case (_, Err(e)) => Err(e)
  }

  /** A refresh keeps the table invariant. */
  lemma {:induction false} UpsertAllKeepsValid(t: Table, dtos: seq<CountryDto>, stamp: Timestamp)
    requires Valid(t)
    ensures Valid(UpsertAll(t, dtos, stamp))
    decreases |dtos|
  {
    if |dtos| > 0 {
      var n := |dtos| - 1;
      UpsertAllKeepsValid(t, dtos[..n], stamp);
      UpsertKeepsValid(UpsertAll(t, dtos[..n], stamp), dtos[n], stamp);
    }
  }

  /** No DTO has this name, case-insensitively. */
  predicate Untouched(dtos: seq<CountryDto>, name: string) {
    forall i :: 0 <= i < |dtos| ==> !SameName(dtos[i].name, name)
  }

  /** A refresh never removes a row and adds at most one per fetched
      country; rows whose name no fetched country has stay as they were,
      at the same position (stale rows are not purged). */
  lemma {:induction false} UpsertAllKeepsOthers(t: Table, dtos: seq<CountryDto>, stamp: Timestamp)
    ensures |t.rows| <= |UpsertAll(t, dtos, stamp).rows| <= |t.rows| + |dtos|
    ensures forall k :: 0 <= k < |t.rows| && Untouched(dtos, t.rows[k].name)
              ==> UpsertAll(t, dtos, stamp).rows[k] == t.rows[k]
    decreases |dtos|
  {
    if |dtos| > 0 {
      var n := |dtos| - 1;
      var prefix := dtos[..n];
      var before := UpsertAll(t, prefix, stamp);
      var after := Upserted(before, dtos[n], stamp);
      assert UpsertAll(t, dtos, stamp) == after;
      UpsertAllKeepsOthers(t, prefix, stamp);
      forall k | 0 <= k < |t.rows| && Untouched(dtos, t.rows[k].name)
        ensures after.rows[k] == t.rows[k]
      {
        assert Untouched(prefix, t.rows[k].name) by {
          forall i | 0 <= i < n ensures !SameName(prefix[i].name, t.rows[k].name) {
            assert prefix[i] == dtos[i];
          }
        }
        assert before.rows[k] == t.rows[k];
        assert !SameName(dtos[n].name, t.rows[k].name);
      }
    }
  }

  /** Some row matching `name` carries the batch timestamp. */
  predicate Stamped(rows: seq<Country>, name: string, stamp: Timestamp) {
    exists k :: 0 <= k < |rows| && SameName(rows[k].name, name) && rows[k].lastRefreshedAt == stamp
  }

  /** One upsert stamps its own name and keeps every name already stamped
      with the same timestamp stamped. */
  lemma UpsertStamps(t: Table, dto: CountryDto, stamp: Timestamp, name: string)
    ensures Stamped(Upserted(t, dto, stamp).rows, dto.name, stamp)
    ensures Stamped(t.rows, name, stamp) ==> Stamped(Upserted(t, dto, stamp).rows, name, stamp)
  {
    var u := Upserted(t, dto, stamp);
    var m := FindIndex(u.rows, dto.name).value;
    assert SameName(u.rows[m].name, dto.name);
    if Stamped(t.rows, name, stamp) {
      var k :| 0 <= k < |t.rows| && SameName(t.rows[k].name, name) && t.rows[k].lastRefreshedAt == stamp;
      if SameName(t.rows[k].name, dto.name) {
        assert SameName(u.rows[m].name, name);
      } else {
        assert u.rows[k] == t.rows[k];
      }
    }
  }

  /** After a refresh every fetched country has a matching row stamped with
      the batch timestamp: one timestamp serves the whole batch. */
  lemma {:induction false} UpsertAllStamps(t: Table, dtos: seq<CountryDto>, stamp: Timestamp, i: nat)
    requires i < |dtos|
    ensures Stamped(UpsertAll(t, dtos, stamp).rows, dtos[i].name, stamp)
    decreases |dtos|
  {
    var n := |dtos| - 1;
    var prefix := dtos[..n];
    var before := UpsertAll(t, prefix, stamp);
    var after := Upserted(before, dtos[n], stamp);
    assert UpsertAll(t, dtos, stamp) == after;
    var name := dtos[i].name;
    if i == n {
      UpsertStamps(before, dtos[n], stamp, name);
    } else {
      assert prefix[i] == dtos[i];
      UpsertAllStamps(t, prefix, stamp, i);
      UpsertStamps(before, dtos[n], stamp, name);
    }
    assert Stamped(after.rows, name, stamp);
  }

  /** Some row holds exactly this DTO and timestamp. */
  predicate Holds(rows: seq<Country>, dto: CountryDto, stamp: Timestamp) {
    exists k :: 0 <= k < |rows| && Reflects(rows[k], dto, stamp)
  }

  /** An upsert makes its own DTO held, and keeps every held DTO of another
      name held. */
  lemma UpsertHolds(t: Table, dto: CountryDto, stamp: Timestamp, other: CountryDto, otherStamp: Timestamp)
    ensures Holds(Upserted(t, dto, stamp).rows, dto, stamp)
    ensures Holds(t.rows, other, otherStamp) && !SameName(other.name, dto.name) ==>
              Holds(Upserted(t, dto, stamp).rows, other, otherStamp)
  {
    var u := Upserted(t, dto, stamp);
    var m := FindIndex(u.rows, dto.name).value;
    assert Reflects(u.rows[m], dto, stamp);
    if Holds(t.rows, other, otherStamp) && !SameName(other.name, dto.name) {
      var k :| 0 <= k < |t.rows| && Reflects(t.rows[k], other, otherStamp);
      assert u.rows[k] == t.rows[k];
    }
  }

  /** Duplicate names are collapsed with the last one winning: each DTO
      that no later DTO matches by name is held by some row, with the batch
      timestamp. */
  lemma {:induction false} UpsertAllLastWins(t: Table, dtos: seq<CountryDto>, stamp: Timestamp, i: nat)
    requires i < |dtos|
    requires forall j :: i < j < |dtos| ==> !SameName(dtos[j].name, dtos[i].name)
    ensures Holds(UpsertAll(t, dtos, stamp).rows, dtos[i], stamp)
    decreases |dtos|
  {
    var n := |dtos| - 1;
    var prefix := dtos[..n];
    var before := UpsertAll(t, prefix, stamp);
    assert UpsertAll(t, dtos, stamp) == Upserted(before, dtos[n], stamp);
    if i == n {
      UpsertHolds(before, dtos[n], stamp, dtos[n], stamp);
    } else {
      assert prefix[i] == dtos[i];
      forall j | i < j < n ensures !SameName(prefix[j].name, prefix[i].name) {
        assert prefix[j] == dtos[j];
      }
      UpsertAllLastWins(t, prefix, stamp, i);
      UpsertHolds(before, dtos[n], stamp, dtos[i], stamp);
    }
  }

  /** No two DTOs share a name case-insensitively. */
  predicate DistinctNames(dtos: seq<CountryDto>) {
    forall i, j :: 0 <= i < j < |dtos| ==> !SameName(dtos[i].name, dtos[j].name)
  }

  /** Every row carries the batch timestamp. */
  predicate AllStamped(rows: seq<Country>, stamp: Timestamp) {
    forall k :: 0 <= k < |rows| ==> rows[k].lastRefreshedAt == stamp
  }

  /** One upsert of a batch keeps every row stamped with the batch
      timestamp: the upserted row is, and every other row was before. */
  lemma UpsertBatchStep(t: Table, dto: CountryDto, stamp: Timestamp)
    requires AllStamped(t.rows, stamp)
    ensures AllStamped(Upserted(t, dto, stamp).rows, stamp)
  {
    var u := Upserted(t, dto, stamp);
    var m := FindIndex(u.rows, dto.name).value;
    assert u.rows[m].name == dto.name && u.rows[m].lastRefreshedAt == stamp;
    forall k | 0 <= k < |u.rows| && k != m ensures k < |t.rows| && u.rows[k] == t.rows[k] {
      if FindIndex(t.rows, dto.name).None? {
        assert m == |t.rows|;
      }
    }
  }

  /** Refreshing an empty table leaves only rows stamped by this batch, even
      when fetched names repeat. */
  lemma {:induction false} UpsertAllFromEmpty(dtos: seq<CountryDto>, stamp: Timestamp)
    ensures AllStamped(UpsertAll(Empty, dtos, stamp).rows, stamp)
    decreases |dtos|
  {
    if |dtos| > 0 {
      var n := |dtos| - 1;
      var before := UpsertAll(Empty, dtos[..n], stamp);
      assert UpsertAll(Empty, dtos, stamp) == Upserted(before, dtos[n], stamp);
      UpsertAllFromEmpty(dtos[..n], stamp);
      UpsertBatchStep(before, dtos[n], stamp);
    }
  }

  /** The rows hold the DTOs in order, the k-th under id k + 1, all with
      the batch timestamp. */
  predicate InOrder(t: Table, dtos: seq<CountryDto>, stamp: Timestamp) {
    && |t.rows| == |dtos|
    && t.nextId == |dtos| + 1
    && forall k :: 0 <= k < |dtos| ==> Reflects(t.rows[k], dtos[k], stamp) && t.rows[k].id == k + 1
  }

  /** Upserting a name that no stored DTO has extends the stored order by
      that DTO. */
  lemma AppendStep(t: Table, dtos: seq<CountryDto>, dto: CountryDto, stamp: Timestamp)
    requires InOrder(t, dtos, stamp)
    requires Untouched(dtos, dto.name)
    ensures InOrder(Upserted(t, dto, stamp), dtos + [dto], stamp)
  {
    forall k | 0 <= k < |t.rows| ensures !SameName(t.rows[k].name, dto.name) {
      assert !SameName(dtos[k].name, dto.name);
    }
    var after := Upserted(t, dto, stamp);
    var all := dtos + [dto];
    forall k | 0 <= k < |all| ensures Reflects(after.rows[k], all[k], stamp) && after.rows[k].id == k + 1 {
      if k < |dtos| {
        assert after.rows[k] == t.rows[k];
        assert all[k] == dtos[k];
      }
    }
  }

  /** Dropping the last DTO keeps the names distinct, and the last name is
      none of the others. */
  lemma DistinctPrefix(dtos: seq<CountryDto>)
    requires |dtos| > 0 && DistinctNames(dtos)
    ensures DistinctNames(dtos[..|dtos| - 1])
    ensures Untouched(dtos[..|dtos| - 1], dtos[|dtos| - 1].name)
  {
    var prefix := dtos[..|dtos| - 1];
    forall a, b | 0 <= a < b < |prefix| ensures !SameName(prefix[a].name, prefix[b].name) {
      assert prefix[a] == dtos[a] && prefix[b] == dtos[b];
    }
    forall k | 0 <= k < |prefix| ensures !SameName(prefix[k].name, dtos[|dtos| - 1].name) {
      assert prefix[k] == dtos[k];
    }
  }

  /** With distinct names, refreshing an empty table stores the fetched
      countries in fetched order, the k-th holding exactly the k-th DTO and
      the batch timestamp under id k + 1. */
  lemma {:induction false} UpsertAllFromEmptyDistinct(dtos: seq<CountryDto>, stamp: Timestamp)
    requires DistinctNames(dtos)
    ensures InOrder(UpsertAll(Empty, dtos, stamp), dtos, stamp)
    decreases |dtos|
  {
    if |dtos| > 0 {
      var n := |dtos| - 1;
      var prefix := dtos[..n];
      assert dtos == prefix + [dtos[n]];
      var before := UpsertAll(Empty, prefix, stamp);
      var after := Upserted(before, dtos[n], stamp);
      assert UpsertAll(Empty, dtos, stamp) == after;
      DistinctPrefix(dtos);
      UpsertAllFromEmptyDistinct(prefix, stamp);
      AppendStep(before, prefix, dtos[n], stamp);
      assert InOrder(after, dtos, stamp);
    }
  }

  /** Some row matches this name. */
  predicate Covers(rows: seq<Country>, name: string) {
    exists k :: 0 <= k < |rows| && SameName(rows[k].name, name)
  }

  /** Position by position, the rows keep their ids and their names up to
      case. */
  predicate SameSlots(a: seq<Country>, b: seq<Country>) {
    |a| == |b| && forall k :: 0 <= k < |a| ==> a[k].id == b[k].id && SameName(a[k].name, b[k].name)
  }

  /** Upserting a name some row already has overwrites a row in place. */
  lemma CoverStep(t: Table, rows: seq<Country>, dto: CountryDto, stamp: Timestamp)
    requires SameSlots(t.rows, rows) && Covers(rows, dto.name)
    ensures SameSlots(Upserted(t, dto, stamp).rows, rows)
    ensures Upserted(t, dto, stamp).nextId == t.nextId
  {
    var k :| 0 <= k < |rows| && SameName(rows[k].name, dto.name);
    assert SameName(t.rows[k].name, dto.name);
    var u := Upserted(t, dto, stamp);
    var m := FindIndex(t.rows, dto.name).value;
    forall j | 0 <= j < |rows| ensures u.rows[j].id == rows[j].id && SameName(u.rows[j].name, rows[j].name) {
      if j != m {
        assert u.rows[j] == t.rows[j];
      }
    }
  }

  /** Upserting DTOs whose names all have rows already adds no row: every
      row keeps its position, its id and its name up to case. */
  lemma {:induction false} UpsertAllCovered(t: Table, dtos: seq<CountryDto>, stamp: Timestamp)
    requires forall i :: 0 <= i < |dtos| ==> Covers(t.rows, dtos[i].name)
    ensures SameSlots(UpsertAll(t, dtos, stamp).rows, t.rows)
    ensures UpsertAll(t, dtos, stamp).nextId == t.nextId
    decreases |dtos|
  {
    if |dtos| > 0 {
      var n := |dtos| - 1;
      var prefix := dtos[..n];
      forall i | 0 <= i < n ensures Covers(t.rows, prefix[i].name) {
        assert prefix[i] == dtos[i];
      }
      UpsertAllCovered(t, prefix, stamp);
      var before := UpsertAll(t, prefix, stamp);
      assert UpsertAll(t, dtos, stamp) == Upserted(before, dtos[n], stamp);
      CoverStep(before, t.rows, dtos[n], stamp);
    }
  }

  /** The position of the last DTO whose name matches, or -1 when none
      does. */
  function LastMatch(dtos: seq<CountryDto>, name: string): (i: int)
    ensures -1 <= i < |dtos|
    ensures i >= 0 ==> SameName(dtos[i].name, name)
    ensures forall j :: i < j < |dtos| ==> !SameName(dtos[j].name, name)
    decreases |dtos|
  {
    if |dtos| == 0 then -1
    else if SameName(dtos[|dtos| - 1].name, name) then |dtos| - 1
    else
      var i := LastMatch(dtos[..|dtos| - 1], name);
      assert forall j :: i < j < |dtos| - 1 ==> dtos[..|dtos| - 1][j] == dtos[j];
      i
  }

  /** The DTOs of a second refresh from the same fetched data: the same
      DTOs except for the randomised GDP estimate. */
  predicate Rebuilt(d1: seq<CountryDto>, d2: seq<CountryDto>) {
    |d1| == |d2| && forall i :: 0 <= i < |d1| ==> d2[i] == d1[i].(estimatedGdp := d2[i].estimatedGdp)
  }

  /** `second` holds the records of `first`, position by position, with
      the same ids and fields except `lastRefreshedAt` and `estimatedGdp`;
      a record that differs at all carries `stamp`. */
  predicate SameRecords(first: Table, second: Table, stamp: Timestamp) {
    && |second.rows| == |first.rows|
    && second.nextId == first.nextId
    && forall k :: 0 <= k < |first.rows| ==>
         && second.rows[k] == first.rows[k].(lastRefreshedAt := second.rows[k].lastRefreshedAt,
                                              estimatedGdp := second.rows[k].estimatedGdp)
         && (second.rows[k] == first.rows[k] || second.rows[k].lastRefreshedAt == stamp)
  }

  /** A second batch with the names of the first finds a row for each
      name, so it adds none and keeps every row's id and name up to case. */
  lemma SecondBatchCovered(t: Table, d1: seq<CountryDto>, d2: seq<CountryDto>, s1: Timestamp, s2: Timestamp)
    requires Rebuilt(d1, d2)
    ensures SameSlots(UpsertAll(UpsertAll(t, d1, s1), d2, s2).rows, UpsertAll(t, d1, s1).rows)
    ensures UpsertAll(UpsertAll(t, d1, s1), d2, s2).nextId == UpsertAll(t, d1, s1).nextId
  {
    var first := UpsertAll(t, d1, s1);
    forall i | 0 <= i < |d2| ensures Covers(first.rows, d2[i].name) {
      UpsertAllStamps(t, d1, s1, i);
      assert d2[i].name == d1[i].name;
    }
    UpsertAllCovered(first, d2, s2);
  }

  /** Under unique names two positions with the same name are one. */
  lemma OnlyMatch(rows: seq<Country>, a: nat, b: nat)
    requires UniqueNames(rows) && a < |rows| && b < |rows|
    requires SameName(rows[a].name, rows[b].name)
    ensures a == b
  {
  }

  /** One row after two refreshes from the same data: either no DTO touched
      it the second time, or the last DTO of its name wrote it both times. */
  lemma RowAgain(t: Table, d1: seq<CountryDto>, d2: seq<CountryDto>, s1: Timestamp, s2: Timestamp, k: nat)
    requires Valid(t) && Rebuilt(d1, d2)
    requires k < |UpsertAll(t, d1, s1).rows|
    ensures var first := UpsertAll(t, d1, s1).rows[k];
            var second := UpsertAll(UpsertAll(t, d1, s1), d2, s2).rows[k];
            && second == first.(lastRefreshedAt := second.lastRefreshedAt, estimatedGdp := second.estimatedGdp)
            && (second == first || second.lastRefreshedAt == s2)
  {
    var first := UpsertAll(t, d1, s1);
    var second := UpsertAll(first, d2, s2);
    UpsertAllKeepsValid(t, d1, s1);
    UpsertAllKeepsValid(first, d2, s2);
    SecondBatchCovered(t, d1, d2, s1, s2);
    var name := first.rows[k].name;
    var i := LastMatch(d2, name);
    if i < 0 {
      UpsertAllKeepsOthers(first, d2, s2);
      assert Untouched(d2, name);
    } else {
      UpsertAllLastWins(first, d2, s2, i);
      forall j | i < j < |d1| ensures !SameName(d1[j].name, d1[i].name) {
        assert d1[j].name == d2[j].name;
      }
      UpsertAllLastWins(t, d1, s1, i);
      var k1 :| 0 <= k1 < |first.rows| && Reflects(first.rows[k1], d1[i], s1);
      var k2 :| 0 <= k2 < |second.rows| && Reflects(second.rows[k2], d2[i], s2);
      OnlyMatch(first.rows, k1, k);
      assert SameName(second.rows[k].name, name);
      OnlyMatch(second.rows, k2, k);
    }
  }

  /** A second refresh from the same external data, with fresh draws and a
      new timestamp, leaves the same records: no row is added or removed,
      and each keeps its position, id and every field except
      `lastRefreshedAt` and the randomised `estimatedGdp`. */
  lemma RefreshAgain(t: Table, d1: seq<CountryDto>, d2: seq<CountryDto>, s1: Timestamp, s2: Timestamp)
    requires Valid(t) && Rebuilt(d1, d2)
    ensures SameRecords(UpsertAll(t, d1, s1), UpsertAll(UpsertAll(t, d1, s1), d2, s2), s2)
  {
    var first := UpsertAll(t, d1, s1);
    var second := UpsertAll(first, d2, s2);
    SecondBatchCovered(t, d1, d2, s1, s2);
    forall k | 0 <= k < |first.rows|
      ensures && second.rows[k] == first.rows[k].(lastRefreshedAt := second.rows[k].lastRefreshedAt,
                                                  estimatedGdp := second.rows[k].estimatedGdp)
              && (second.rows[k] == first.rows[k] || second.rows[k].lastRefreshedAt == s2)
    {
      RowAgain(t, d1, d2, s1, s2, k);
    }
  }

  /** Refreshing twice from the same fetched countries and rates, with
      different draws and timestamps, leaves the same records apart from
      `lastRefreshedAt` and `estimatedGdp`. */
  lemma RefreshTwice(t: Table, countries: seq<RawCountry>, rates: map<string, real>,
                     random1: nat -> real, random2: nat -> real, s1: Timestamp, s2: Timestamp)
    requires Valid(t) && AllDraws(random1) && AllDraws(random2)
    ensures SameRecords(Reconciled(t, countries, rates, random1, s1),
                        Reconciled(Reconciled(t, countries, rates, random1, s1), countries, rates, random2, s2), s2)
  {
    var d1 := Dtos(countries, rates, random1);
    var d2 := Dtos(countries, rates, random2);
    assert Rebuilt(d1, d2);
    RefreshAgain(t, d1, d2, s1, s2);
  }

  /** No two fetched countries share a name case-insensitively. */
  predicate DistinctFetchedNames(countries: seq<RawCountry>) {
    forall i, j :: 0 <= i < j < |countries| ==> !SameName(countries[i].name, countries[j].name)
  }

  /** After one refresh of N countries with distinct names into an empty
      table, the status reports N countries and the batch timestamp (or no
      timestamp when N is zero). */
  lemma StatusAfterFirstRefresh(countries: seq<RawCountry>, rates: map<string, real>,
                                random: nat -> real, stamp: Timestamp)
    requires AllDraws(random) && DistinctFetchedNames(countries)
    ensures GetStatus(Reconciled(Empty, countries, rates, random, stamp).rows)
            == Status(|countries|, if |countries| == 0 then None else Some(stamp))
  {
    var dtos := Dtos(countries, rates, random);
    assert DistinctNames(dtos) by {
      forall a, b | 0 <= a < b < |dtos| ensures !SameName(dtos[a].name, dtos[b].name) {
        assert dtos[a].name == countries[a].name && dtos[b].name == countries[b].name;
      }
    }
    UpsertAllFromEmpty(dtos, stamp);
    UpsertAllFromEmptyDistinct(dtos, stamp);
  }

  class CountriesService {
    var rows: seq<Country>
    var nextId: nat

    /** The table this service holds. */
    function Snapshot(): Table
      reads this
    {
      Table(rows, nextId)
    }

    ghost predicate Valid()
      reads this
    {
      CountryStore.Valid(Snapshot())
    }

    /** A service over the table the repository already holds. */
    constructor (initial: Table)
      requires CountryStore.Valid(initial)
      ensures Valid() && Snapshot() == initial
    {
      rows := initial.rows;
      nextId := initial.nextId;
    }

    /** `upsertCountry`: overwrite the case-insensitive match in place under
        its id, or append a row with the next id. */
    method Upsert(dto: CountryDto, refreshTimestamp: Timestamp)
      requires Valid()
      modifies this
      ensures Valid()
      ensures Snapshot() == Upserted(old(Snapshot()), dto, refreshTimestamp)
    {
      UpsertKeepsValid(Snapshot(), dto, refreshTimestamp);
      var existing := FindIndex(rows, dto.name);
      match existing {
        case Some(k) =>
          rows := rows[k := FromDto(rows[k].id, dto, refreshTimestamp)];
        case None =>
          rows := rows + [FromDto(nextId, dto, refreshTimestamp)];
          nextId := nextId + 1;
      }
    }

    /** `deleteByName`: remove every case-insensitive match; NotFound
        exactly when no row was removed. */
    method DeleteByName(name: string) returns (r: Outcome<HttpError>)
      requires Valid()
      modifies this
      ensures Valid()
      ensures Snapshot() == Table(RemoveNamed(old(rows), name), old(nextId))
      ensures r.Fail? <==> |rows| == |old(rows)|
      ensures r.Fail? <==> forall i :: 0 <= i < |old(rows)| ==> !SameName(old(rows)[i].name, name)
      ensures r.Fail? ==> r.error == CountryNotFound
      ensures |old(rows)| - |rows| <= 1
    {
      RemoveKeepsValid(Snapshot(), name);
      MatchCountAtMostOne(rows, name);
      var before := |rows|;
      rows := RemoveNamed(rows, name);
      var affected := before - |rows|;
      if affected == 0 {
        r := Fail(CountryNotFound);
      } else {
        r := Pass;
      }
    }

    /** `refreshCountries`. The two transport outcomes stand for the two
        concurrent fetches, `now` for the clock read that stamps the batch,
        `random` for the draws of `Math.random`, and `generateSummaryImage`
        for the image generator, whose outcome is logged and otherwise
        ignored. When a fetch fails nothing is written; otherwise every
        fetched country is upserted in order and the count is the number of
        fetched countries. */
    method RefreshCountries(countriesResponse: Transport<seq<RawCountry>>,
                            ratesResponse: Transport<ExchangeRates>,
                            now: Timestamp,
                            random: nat -> real,
                            generateSummaryImage: (seq<Country>, nat, Timestamp) -> Outcome<string>)
      returns (r: Result<RefreshSummary, HttpError>)
      requires Valid() && AllDraws(random)
      modifies this
      ensures Valid()
      ensures r == RefreshOutcome(countriesResponse, ratesResponse)
      ensures r.Err? ==> Snapshot() == old(Snapshot())
      ensures r.Ok? ==> Snapshot() == Reconciled(old(Snapshot()), countriesResponse.body,
                                                ratesResponse.body.rates, random, now)
    {
      var countriesData := Fetch(countriesResponse);
      var exchangeData := Fetch(ratesResponse);
      if countriesData.Err? {
        return Err(countriesData.error);
      }
      if exchangeData.Err? {
        return Err(exchangeData.error);
      }
      var countries := countriesData.value;
      var rates := exchangeData.value.rates;

      var refreshTimestamp := now;
      var processedCount := 0;
      ghost var start := Snapshot();
      ghost var dtos := Dtos(countries, rates, random);
      for i := 0 to |countries|
        invariant Valid()
        invariant processedCount == i
        invariant Snapshot() == UpsertAll(start, dtos[..i], refreshTimestamp)
      {
        var dto := BuildDto(countries[i], rates, random(i));
        Upsert(dto, refreshTimestamp);
        UpsertAllSnoc(start, dtos, i, refreshTimestamp);
        processedCount := processedCount + 1;
      }
      assert dtos[..|countries|] == dtos;

      // The summary image is best effort: a failure is logged and swallowed.
      var allCountries := FindAll(rows, NoFilters);
      var image := generateSummaryImage(allCountries, processedCount, refreshTimestamp);

      r := Ok(RefreshSummary(RefreshedMessage, processedCount));
    }
  }
}
