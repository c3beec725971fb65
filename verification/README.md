# Currency converter: rate store and conversion logic

A Dafny model of the logic inside the browser currency converter `script.js`. The page
keeps one rate store: a base currency and a table of rates against that base. `loadRates`
replaces the store. It either keeps the cached table, installs a table delivered by the rate
service, or installs a hard-coded fallback table in US dollars. `convert` turns the typed
amount into a converted amount and a unit rate. It picks the empty placeholder, the identity
rate, the direct rate or a cross-rate through the base. The swap button and the `from`
selection reload rates only when the store is not already in the new `from` currency.

Modules, one per concept:

- `JsObject` (`jsobject.dfy`): plain JavaScript objects as ordered property lists.
  Covers property read (`o[k]`, `undefined` as `None`), property assignment, and the spread
  copy `{ ...o }`.
- `Currencies` (`currencies.dfy`): the sixteen supported currencies, the fallback table and
  the initial selections.
- `RateStore` (`ratestore.dfy`): the store, the outcome of the rate request as an input
  value, and `LoadRates`.
- `Conversion` (`conversion.dfy`): `parseFloat(...) || 0`, `rates[c] || 1`, `Convert`, and
  the reference definition it is proved against. That definition is the ratio of the two
  currencies' rates in a consistent table, one that values its own base at 1.
- `Page` (`page.dfy`): the event handlers, the refresh guard, and runs of events.

Numbers are Dafny `real`s. The request's outcome, and what `parseFloat` made of the amount
field, are parameters.

Notes on what `script.js` does, which the model follows:

- `convert` never reloads rates itself. Only the start-up call, the `from` handler and the
  swap handler call `loadRates`. Amount and `to` changes re-convert with whatever store is
  loaded, and a store in another base is handled by the cross-rate branch.
- The store is only `(currentBase, rates)`. There is no fallback flag and no last-updated
  field. Both exist only as text written into the page.
- A failed load does not keep the previous table. It always installs the fallback table in
  US dollars.
- A delivered `rates` object is installed as it is, without checking its keys against the
  supported currencies. An empty object counts as a delivered table.
- A negative amount is not rejected. It is converted like any other non-zero number.

## Model

| member | source | states |
|---|---|---|
| JsObject.IndexOf | script.js:112-116 | finds the first property with the given name, or -1 exactly when the object has no such property |
| JsObject.Get | script.js:112-116 | reading a property gives a value exactly when the property exists, and the value read is one listed under that name |
| JsObject.Set | script.js:86 | after assigning a property it reads back the new value and every other property reads as before; a new name is appended at the end |
| JsObject.SpreadIntoAppends | script.js:86 | spreading properties onto a target with no name repeated across both appends them in order |
| JsObject.SpreadCopies | script.js:86 | a spread copy of an object with distinct names equals the original |
| Currencies.SupportedUnique | script.js:10-27 | no currency code is listed twice |
| Currencies.SupportedShape | script.js:10-39 | sixteen currency codes with the US dollar first; the initial selections (USD, RUB) are supported |
| Currencies.FallbackShape | script.js:45-61 | the fallback table has fifteen distinct codes with positive rates and no USD entry |
| Currencies.FallbackCoversSupported | script.js:10-61 | the fallback table lists a rate for a code exactly when it is supported and not USD |
| RateStore.Delivered | script.js:72-76 | a request yields a table exactly when it did not throw, the status is 200-299 and the body has `rates`; every other outcome is a failure |
| RateStore.FallbackStore | script.js:86-87 | the store installed on failure is exactly the fallback table, in USD |
| RateStore.LoadRates | script.js:64-91 | a cache hit (same base, non-empty table) changes nothing; a delivered table replaces the old one wholesale in the requested base; any failure installs exactly the fallback table in USD |
| RateStore.LoadedBase | script.js:64-91 | after a load the store is in the requested base or is the USD fallback, and it is in the requested base exactly when the load was a hit, delivered a table, or asked for USD |
| RateStore.SecondLoadIsCacheHit | script.js:65-68 | loading the same base twice sends a second request only when the first load delivered an empty table or fell back while a base other than USD was asked for: the second load is a hit exactly when the first was a hit, delivered a non-empty table, or fell back while USD was asked for; a hit leaves the store alone |
| Conversion.AmountOf | script.js:95 | the amount is 0 exactly when the field does not parse or parses to 0; otherwise it is the parsed number |
| Conversion.RateOrOne | script.js:112-116 | a listed non-zero rate is used as is; a missing rate and a rate listed as 0 both become 1; the result is never 0 |
| Conversion.UnitRate | script.js:110-117 | the unit rate is 1 when `from == to`, the rate of `to` when the store is in `from`, and otherwise the cross-rate `(1 / rate(from)) * rate(to)` through the store's base |
| Conversion.Convert | script.js:94-123 | placeholder exactly for amount 0; rate exactly 1 and the amount unchanged when `from == to`; the rate of `to` when the store is in `from`; otherwise the cross-rate `(1 / rate(from)) * rate(to)`, which is `1 / rate(from)` when `to` is the unlisted base; the result is always amount times rate |
| Conversion.UnitRateIsRatio | script.js:104-117 | in a consistent store every branch computes the reference ratio `rate(to) / rate(from)` |
| Conversion.ConvertIsRatio | script.js:99-119 | in a consistent store the display is the placeholder for 0 and otherwise amount times the reference ratio |
| Conversion.RatesChain | script.js:104-117 | in a consistent store, converting x to y and then y to z multiplies to the x to z rate |
| Conversion.RoundTrip | script.js:104-119 | in a consistent store, converting a non-zero amount and then converting the result back gives the original amount |
| Conversion.RoundTripNeedsConsistency | script.js:111-116 | a table that lists its own base at 2 breaks the round trip: 1 USD to 0.5 EUR back to 2 USD |
| Conversion.DirectExample | script.js:111-119 | with a USD table listing RUB at 98, 100 USD converts to 9800 RUB at rate 98 |
| Conversion.FallbackExample | script.js:45-61 | on the fallback table, 100 USD converts to 9785.21 RUB at rate 97.8521 |
| Conversion.FallbackIsConsistent | script.js:41-61 | the start-up store (USD, empty table) and the fallback store value USD at 1, because neither lists it |
| Conversion.LoadKeepsConsistent | script.js:64-91 | a load keeps a store consistent whenever a delivered table is consistent in the requested base |
| Conversion.FallbackRateListed | script.js:45-61 | on the fallback table every supported non-USD currency converts at its own positive listed rate, never at the default 1 |
| Page.RefreshIfNeeded | script.js:130-138 | a request is sent exactly when the store's base differs from the selected `from`, and then never hits the cache; otherwise the page is unchanged; the selections and amount are kept |
| Page.Start | script.js:143 | start-up with selections USD to RUB always sends a request, because the table is empty, and leaves the store in USD |
| Page.Swapped | script.js:127-129 | the two selections are exchanged; amount and store are untouched |
| Page.OnSwap | script.js:126-132 | swap exchanges the selections and requests rates exactly when the new `from` differs from the store's base; with a request the store is the load of the new `from`, without one it is unchanged |
| Page.OnFromChange | script.js:136-139 | a new `from` requests rates exactly when it differs from the store's base; with a request the store is the load of the new `from`, without one it is unchanged |
| Page.OnToChange | script.js:140 | a new `to` only re-converts: no request, and only the `to` selection changes |
| Page.OnAmountInput | script.js:135 | typing only re-converts: no request, and only the amount changes |
| Page.SwapTwiceRestoresPair | script.js:126-132 | swapping twice restores both selections and the amount; when the two currencies differ, at least one of the two swaps reloads rates, because the store's base cannot equal both |
| Page.Handle | script.js:134-140 | each event goes to its handler: only a `from` change or a swap can reload, exactly when the currency it asks for is not the store's base, and then the store is that load; otherwise the store is unchanged; the selections and amount change as the event says |
| Page.ReloadedConversion | script.js:76-117 | after a reload that delivered a table the shown rate is the direct rate of `to` in it; after a failed reload the page shows the conversion on the USD fallback store |
| Page.HandleKeepsConsistent | script.js:134-140 | no event handler makes a consistent store inconsistent while the service's tables are consistent |
| Page.RunShowsRatio | script.js:125-140 | after any sequence of events from a consistent page the store stays consistent and the shown rate is the reference ratio of its table |
| Page.StartIsConsistent | script.js:41-43 | the page after start-up is consistent whatever the first load returned, if a delivered table is consistent in USD |

## Left out

- Reading and writing the page: populating the `<select>` lists, the "loading" text, the
  result and rate text, and the "updated" line with its date. The script only displays these.
- Rounding for display (`toLocaleString('ru-RU')` to 2 places, `toFixed(4)`) and IEEE-754
  double arithmetic. The model computes on exact reals.
- The network request and `res.json()` themselves. Their combined outcome is the
  `FetchOutcome` parameter. Only the 200-299 `ok` rule and the `rates` check are modelled.
- Overlapping loads. Loads are asynchronous and not coordinated, so the last one to finish
  wins. The model completes each load before the next event.
- The choice between the CORS and the connectivity wording of the fallback message, and
  the `console.warn` call. Both are display only.
- What `parseFloat` does with text is a parameter: not-a-number or a real. `Infinity` is
  not modelled.
- Rate values are reals, so a `NaN` rate cannot occur in the model. In the script `NaN || 1`
  is also 1.
- A `rates` field holding a truthy non-object value, such as a number or a string, is not
  modelled. The body either has a rate object or has none.
- `Object.keys` lists integer-like names before other names. The model keeps insertion
  order, which matches for currency codes.
