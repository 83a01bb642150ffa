/** The external data gateway: the two fetches, reduced to how they translate
    a transport outcome, and the two pure helpers the refresh uses. */
module ExternalApi {
  import opened Wrappers
  import opened HttpErrors

  /** One entry of a country's `currencies` list. A `null` entry and an entry
      without a `code` both read as `None` through `currencies[0]?.code`. */
  datatype CurrencyEntry = CurrencyEntry(code: Option<string>)

  /** A country descriptor as the countries endpoint returns it. */
  datatype RawCountry = RawCountry(
    name: string,
    capital: Option<string>,
    region: string,
    population: int,
    flag: string,
    currencies: Option<seq<CurrencyEntry>>)

  /** The exchange-rate endpoint's body: rates keyed by currency code. */
  datatype ExchangeRates = ExchangeRates(rates: map<string, real>)

  /** Why a request produced no usable body. */
  datatype TransportFailure = NetworkError | Timeout | ErrorStatus(status: int)

  /** What the HTTP client delivers for one request. */
  datatype Transport<+T> = Received(body: T) | Failed(reason: TransportFailure)

  /** `fetchCountriesData` and `fetchExchangeRates` share this shape: the body
      of a successful response is returned unchanged, and every failure of the
      request becomes the same SERVICE_UNAVAILABLE error. */
  function Fetch<T>(response: Transport<T>): (r: Result<T, HttpError>)
    ensures r.Ok? <==> response.Received?
    ensures r.Ok? ==> r.value == response.body
    ensures r.Err? ==> r.error == SourceUnavailable && r.error.status == 503
  {
    match response
    case Received(body) => Ok(body)
    case Failed(_) => Err(SourceUnavailable)
  }

  /** The first currency entry's code, when there is a non-empty list whose
      first entry has a non-empty code; later entries are never looked at. */
  function ExtractCurrencyCode(currencies: Option<seq<CurrencyEntry>>): (code: Option<string>)
    ensures currencies.None? || currencies.value == [] ==> code.None?
    ensures code.Some? <==>
              currencies.Some? && |currencies.value| > 0 &&
              currencies.value[0].code.Some? && currencies.value[0].code.value != ""
    ensures code.Some? ==> code.value == currencies.value[0].code.value && code.value != ""
  {
    if currencies.None? || |currencies.value| == 0 then None
    else match currencies.value[0].code
      case Some(c) => if c != "" then Some(c) else None
      case None => None
  }

  /** `Math.random()` lies in [0, 1). */
  predicate IsRandomDraw(u: real) {
    0.0 <= u < 1.0
  }

  /** The random multiplier `u * 1000 + 1000` drawn for one GDP estimate. */
  function Multiplier(u: real): (m: real)
    requires IsRandomDraw(u)
    ensures 1000.0 <= m < 2000.0
  {
    u * 1000.0 + 1000.0
  }

  /** population * multiplier / exchangeRate, with the multiplier made from
      the draw `u`. For a non-negative population and a positive rate the
      estimate lies between population*1000/rate and population*2000/rate,
      and it is zero exactly when the population is. */
  function CalculateEstimatedGdp(population: int, exchangeRate: real, u: real): (gdp: real)
    requires IsRandomDraw(u)
    requires exchangeRate != 0.0
    ensures population >= 0 && exchangeRate > 0.0 ==>
              (population as real) * 1000.0 / exchangeRate <= gdp <= (population as real) * 2000.0 / exchangeRate
    ensures population > 0 && exchangeRate > 0.0 ==>
              gdp < (population as real) * 2000.0 / exchangeRate
    ensures gdp == 0.0 <==> population == 0
  {
    var m := Multiplier(u);
    var p := population as real;
    var gdp := (p * m) / exchangeRate;
    if p >= 0.0 && exchangeRate > 0.0 then QuotientBetween(p, m, exchangeRate); gdp else gdp
  }

  /** Dividing population * m by a positive rate keeps m's bounds. */
  lemma QuotientBetween(p: real, m: real, rate: real)
    requires 1000.0 <= m < 2000.0
    requires p >= 0.0 && rate > 0.0
    ensures p * 1000.0 / rate <= p * m / rate <= p * 2000.0 / rate
    ensures p > 0.0 ==> p * m / rate < p * 2000.0 / rate
  {
    var q := p / rate;
    assert p * m / rate == q * m;
    assert p * 1000.0 / rate == q * 1000.0;
    assert p * 2000.0 / rate == q * 2000.0;
    assert q * m - q * 1000.0 == q * (m - 1000.0);
    assert q >= 0.0;
    assert q * (m - 1000.0) >= 0.0;
    assert q * 2000.0 - q * m == q * (2000.0 - m);
    assert q * (2000.0 - m) >= 0.0;
    if p > 0.0 {
      assert q > 0.0;
      assert q * (2000.0 - m) > 0.0;
    }
  }
}
