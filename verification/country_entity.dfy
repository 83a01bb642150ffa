/** The `countries` table row, the DTO the service builds for an upsert, and
    the case-insensitive identity rule on country names. */
module CountryEntity {
  import opened Wrappers

  /** Milliseconds since the epoch, as a JavaScript `Date` holds them. */
  type Timestamp = int

  /** A stored country. `createdAt` and `updatedAt` are managed by the
      database and are not part of this model. */
  datatype Country = Country(
    id: nat,
    name: string,
    capital: Option<string>,
    region: Option<string>,
    population: int,
    currencyCode: Option<string>,
    exchangeRate: Option<real>,
    estimatedGdp: Option<real>,
    flagUrl: Option<string>,
    lastRefreshedAt: Timestamp)

  /** The fields the refresh derives for one country; `None` is `undefined`. */
  datatype CountryDto = CountryDto(
    name: string,
    capital: Option<string>,
    region: Option<string>,
    population: int,
    currencyCode: Option<string>,
    exchangeRate: Option<real>,
    estimatedGdp: Option<real>,
    flagUrl: Option<string>)

  /** ASCII lower-casing of one character. */
  function LowerChar(c: char): (l: char)
    ensures 'A' <= c <= 'Z' ==> 'a' <= l <= 'z'
    ensures !('A' <= c <= 'Z') ==> l == c
  {
    if 'A' <= c <= 'Z' then (c as int - 'A' as int + 'a' as int) as char else c
  }

  /** ASCII lower-casing of a string, character by character. */
  function Lower(s: string): (l: string)
    ensures |l| == |s|
    ensures forall i :: 0 <= i < |s| ==> l[i] == LowerChar(s[i])
  {
    seq(|s|, i requires 0 <= i < |s| => LowerChar(s[i]))
  }

  /** Case-insensitive name equality: the match `ILike(name)` performs on a
      name without wildcards. */
  function SameName(a: string, b: string): (r: bool)
    ensures a == b ==> r
    ensures r ==> |a| == |b|
  {
    Lower(a) == Lower(b)
  }

  /** Names match exactly when they have the same length and agree
      character by character up to ASCII case. */
  lemma SameNameCharwise(a: string, b: string)
    ensures SameName(a, b) <==>
              |a| == |b| && forall i :: 0 <= i < |a| ==> LowerChar(a[i]) == LowerChar(b[i])
  {
    if |a| == |b| && forall i :: 0 <= i < |a| ==> LowerChar(a[i]) == LowerChar(b[i]) {
      assert forall i :: 0 <= i < |a| ==> Lower(a)[i] == Lower(b)[i];
    }
    if SameName(a, b) {
      assert forall i :: 0 <= i < |a| ==> Lower(a)[i] == Lower(b)[i];
    }
  }

  /** The row a create or an update writes: every DTO field, the given id and
      the batch timestamp. */
  function FromDto(id: nat, dto: CountryDto, stamp: Timestamp): (c: Country)
    ensures Reflects(c, dto, stamp) && c.id == id
  {
    Country(id, dto.name, dto.capital, dto.region, dto.population, dto.currencyCode,
            dto.exchangeRate, dto.estimatedGdp, dto.flagUrl, stamp)
  }

  /** The row carries exactly the DTO's fields and the batch timestamp. */
  predicate Reflects(c: Country, dto: CountryDto, stamp: Timestamp) {
    && c.name == dto.name
    && c.capital == dto.capital
    && c.region == dto.region
    && c.population == dto.population
    && c.currencyCode == dto.currencyCode
    && c.exchangeRate == dto.exchangeRate
    && c.estimatedGdp == dto.estimatedGdp
    && c.flagUrl == dto.flagUrl
    && c.lastRefreshedAt == stamp
  }
}
