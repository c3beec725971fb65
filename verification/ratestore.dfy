/**
  The rate store: the base currency the loaded table is denominated in, and the table
  itself. `LoadRates` is the script's `loadRates`, with the outcome of the one network
  request it may issue passed in as a value.
 */
module RateStore {
  import opened JsObject
  import opened Currencies

  datatype Store = Store(base: string, rates: Object<real>)

  /** The state before the first load: base US dollar, empty table. */
  const Initial: Store := Store(FallbackBase, [])

  /** The decoded response body, as far as `loadRates` looks at it. */
  datatype Body =
    | WithRates(rates: Object<real>)   // `data.rates` is an object (possibly empty)
    | WithoutRates                     // `data.rates` is missing, null or otherwise falsy
    | Unparsable                       // `res.json()` rejects

  /** What the request for a rate table came back with. */
  datatype FetchOutcome =
    | NetworkError                           // `fetch` rejects (offline, blocked by CORS, ...)
    | Response(status: int, body: Body)

  /** `res.ok` of the Fetch standard: the status is in the range 200-299. */
  predicate StatusOk(status: int) {
    200 <= status <= 299
  }

  /** The table the outcome delivers, or `None` for every way `loadRates` throws. */
  function Delivered(o: FetchOutcome): (r: Option<Object<real>>)
    ensures r.Some? <==> o.Response? && StatusOk(o.status) && o.body.WithRates?
    ensures r.Some? ==> r.value == o.body.rates
  {
    match o
    case NetworkError => None
    case Response(status, body) =>
      if !StatusOk(status) then None
      else match body
        case WithRates(t) => Some(t)
        case WithoutRates => None
        case Unparsable => None
  }

  /** The requested base is already loaded and the table is not empty: no request is made. */
  predicate IsCacheHit(s: Store, base: string) {
    s.base == base && |s.rates| > 0
  }

  /** The store after a failed load: a copy of the fallback table, in US dollars. */
  function FallbackStore(): (s: Store)
    ensures s == Store(FallbackBase, FallbackRates)
  {
    FallbackShape();
    SpreadCopies(FallbackRates);
    Store(FallbackBase, Spread(FallbackRates))
  }

  function LoadRates(s: Store, base: string, o: FetchOutcome): (r: Store)
    // a cache hit leaves the store as it is and does not look at the outcome
    ensures IsCacheHit(s, base) ==> r == s
    // a delivered table replaces the old one wholesale, denominated in the requested base
    ensures !IsCacheHit(s, base) && Delivered(o).Some? ==> r == Store(base, Delivered(o).value)
    // every failure installs exactly the fallback table in US dollars, whatever was asked
    ensures !IsCacheHit(s, base) && Delivered(o).None? ==> r == Store(FallbackBase, FallbackRates)
  {
    if IsCacheHit(s, base) then s
    else match Delivered(o)
      case Some(t) => Store(base, t)
      case None => FallbackStore()
  }

  /** After a load the store is in the requested base, unless it fell back to US dollars; and
      it is in the requested base exactly when the load was a cache hit, delivered a table or
      asked for US dollars in the first place. */
  lemma LoadedBase(s: Store, base: string, o: FetchOutcome)
    ensures LoadRates(s, base, o).base == base || LoadRates(s, base, o) == Store(FallbackBase, FallbackRates)
    ensures LoadRates(s, base, o).base == base <==>
      IsCacheHit(s, base) || Delivered(o).Some? || base == FallbackBase
  {
  }

  /** Loading the same base twice in a row makes at most one request: the second load is a
      cache hit, and changes nothing, unless the first one was answered with an empty table or
      fell back while another base was asked for. */
  lemma SecondLoadIsCacheHit(s: Store, base: string, o1: FetchOutcome, o2: FetchOutcome)
    ensures IsCacheHit(LoadRates(s, base, o1), base) <==>
      || IsCacheHit(s, base)
      || (Delivered(o1).Some? && |Delivered(o1).value| > 0)
      || (Delivered(o1).None? && base == FallbackBase)
    ensures IsCacheHit(LoadRates(s, base, o1), base) ==>
      LoadRates(LoadRates(s, base, o1), base, o2) == LoadRates(s, base, o1)
  {
  }
}
