/**
  The script's `convert`: from the amount typed, the two selected currencies and the rate
  store, decide between the empty placeholder, the identity conversion, the direct rate and
  the cross-rate through the store's base. Numbers are reals; rounding for display is not
  modelled.
 */
module Conversion {
  import opened JsObject
  import opened Currencies
  import opened RateStore

  /** What `parseFloat` makes of the amount field. */
  datatype ParsedNumber = NaN | Num(value: real)

  /** `parseFloat(input) || 0`: not-a-number and zero both become 0. */
  function AmountOf(p: ParsedNumber): (a: real)
    ensures a == 0.0 <==> p == NaN || p == Num(0.0)
    ensures a != 0.0 ==> p == Num(a)
  {
    match p
    case NaN => 0.0
    case Num(v) => v
  }

  /** What the result area shows: the placeholder, or a converted amount and unit rate. */
  datatype Display = Empty | Converted(result: real, unitRate: real)

  /** `rates[code] || 1`: the listed rate, or 1 when it is missing (`undefined`) or 0. */
  function RateOrOne(t: Object<real>, code: string): (r: real)
    ensures r != 0.0
    ensures !HasKey(t, code) ==> r == 1.0
    ensures HasKey(t, code) && Get(t, code).value != 0.0 ==> r == Get(t, code).value
    ensures HasKey(t, code) && Get(t, code).value == 0.0 ==> r == 1.0
  {
    match Get(t, code)
    case None => 1.0
    case Some(v) => if v == 0.0 then 1.0 else v
  }

  /** Value of one unit of `from` in `to`, as `convert` computes it. */
  function UnitRate(s: Store, from: string, to: string): (r: real)
    // the identity rate is exactly 1
    ensures from == to ==> r == 1.0
    // when the table is in `from`, the rate is the listed rate of `to` (1 when unusable)
    ensures from != to && s.base == from ==> r == RateOrOne(s.rates, to)
    // otherwise it is the cross-rate through the store's base
    ensures from != to && s.base != from ==> r == CrossRate(s.rates, from, to)
  {
    if from == to then 1.0
    else if s.base == from then RateOrOne(s.rates, to)
    else CrossRate(s.rates, from, to)
  }

  /** The cross-rate through the table's base: first back into the base, then on into `to`. */
  function CrossRate(t: Object<real>, from: string, to: string): real {
    (1.0 / RateOrOne(t, from)) * RateOrOne(t, to)
  }

  function Convert(amount: real, from: string, to: string, s: Store): (d: Display)
    // a zero amount (which includes input that does not parse) shows the placeholder
    ensures d == Empty <==> amount == 0.0
    // the identity conversion shows the amount itself at rate exactly 1
    ensures amount != 0.0 && from == to ==> d == Converted(amount, 1.0)
    // when the table is in `from`, the rate is the listed rate of `to` (1 when unusable)
    ensures amount != 0.0 && from != to && s.base == from ==>
      d.Converted? && d.unitRate == RateOrOne(s.rates, to)
    // otherwise it is the cross-rate through the store's base
    ensures amount != 0.0 && from != to && s.base != from ==>
      d.Converted? && d.unitRate == (1.0 / RateOrOne(s.rates, from)) * RateOrOne(s.rates, to)
    // when `to` is the base and is not listed, the cross-rate is the inverse of `from`'s rate
    ensures amount != 0.0 && from != to && s.base == to && !HasKey(s.rates, to) ==>
      d.Converted? && d.unitRate == 1.0 / RateOrOne(s.rates, from)
    // the rate is never 0, and the result is the amount times the rate
    ensures d.Converted? ==> d.unitRate != 0.0 && d.result == amount * d.unitRate
  {
    if amount == 0.0 then Empty
    else if from == to then Converted(amount, 1.0)
    else
      var rate := UnitRate(s, from, to);
      Converted(amount * rate, rate)
  }

  /** The invariant of a rate table: its base is worth 1 of itself, either because it
      is not listed (the fallback table) or because it is listed at 1. */
  predicate Consistent(s: Store) {
    RateOrOne(s.rates, s.base) == 1.0
  }

  /** Reference definition: the worth of one `from` in `to` is the ratio of the two
      currencies' rates against the common base. */
  function Ratio(t: Object<real>, from: string, to: string): real {
    RateOrOne(t, to) / RateOrOne(t, from)
  }

  /** In a consistent store, every branch `convert` can take computes the reference ratio. */
  lemma UnitRateIsRatio(s: Store, from: string, to: string)
    requires Consistent(s)
    ensures UnitRate(s, from, to) == Ratio(s.rates, from, to)
  {
    if from != to && s.base != from {
      var a, b := RateOrOne(s.rates, from), RateOrOne(s.rates, to);
      assert CrossRate(s.rates, from, to) == (1.0 / a) * b == b / a;
    } else if from == to {
      var a := RateOrOne(s.rates, from);
      assert a / a == 1.0;
    }
  }

  /** The displayed conversion, stated through the reference ratio. */
  lemma ConvertIsRatio(amount: real, from: string, to: string, s: Store)
    requires Consistent(s)
    ensures amount == 0.0 ==> Convert(amount, from, to, s) == Empty
    ensures amount != 0.0 ==>
      Convert(amount, from, to, s) == Converted(amount * Ratio(s.rates, from, to), Ratio(s.rates, from, to))
  {
  }

  /** Chaining two conversions through a third currency gives the direct rate. */
  lemma RatesChain(s: Store, x: string, y: string, z: string)
    requires Consistent(s)
    ensures UnitRate(s, x, y) * UnitRate(s, y, z) == UnitRate(s, x, z)
  {
    UnitRateIsRatio(s, x, y);
    UnitRateIsRatio(s, y, z);
    UnitRateIsRatio(s, x, z);
    RatioChain(s.rates, x, y, z);
  }

  /** Ratios against a common base telescope. */
  lemma RatioChain(t: Object<real>, x: string, y: string, z: string)
    ensures Ratio(t, x, y) * Ratio(t, y, z) == Ratio(t, x, z)
  {
    var a, b, c := RateOrOne(t, x), RateOrOne(t, y), RateOrOne(t, z);
    assert (b / a) * (c / b) == c / a;
  }

  /** Converting the result back with the same store gives the original amount. */
  lemma RoundTrip(amount: real, x: string, y: string, s: Store)
    requires Consistent(s)
    requires amount != 0.0
    ensures Convert(amount, x, y, s).Converted?
    ensures Convert(Convert(amount, x, y, s).result, y, x, s) == Converted(amount, UnitRate(s, y, x))
  {
  }

  /** Without the invariant of a rate table the round trip fails: a table that lists its own base at 2
      converts 1 US dollar to 0.5 euro and that back to 2 US dollars. */
  lemma RoundTripNeedsConsistency()
    ensures var s := Store("USD", [("USD", 2.0), ("EUR", 0.5)]);
      && !Consistent(s)
      && Convert(1.0, "USD", "EUR", s) == Converted(0.5, 0.5)
      && Convert(0.5, "EUR", "USD", s) == Converted(2.0, 4.0)
  {
  }

  /** A live table in US dollars: 100 US dollars at 98 roubles each. */
  lemma DirectExample()
    ensures Convert(100.0, "USD", "RUB", Store("USD", [("EUR", 0.92), ("RUB", 98.0)])) == Converted(9800.0, 98.0)
  {
  }

  /** The fallback table: 100 US dollars at its rouble rate. */
  lemma FallbackExample()
    ensures Convert(100.0, "USD", "RUB", Store(FallbackBase, FallbackRates)) == Converted(9785.21, 97.8521)
  {
  }

  /** The start-up store and the fallback store are consistent. */
  lemma FallbackIsConsistent()
    ensures Consistent(Initial)
    ensures Consistent(Store(FallbackBase, FallbackRates))
  {
    FallbackShape();
  }

  /** A load keeps a consistent store consistent whenever a delivered table is consistent in
      the requested base. */
  lemma LoadKeepsConsistent(s: Store, base: string, o: FetchOutcome)
    requires Consistent(s)
    requires Delivered(o).Some? ==> Consistent(Store(base, Delivered(o).value))
    ensures Consistent(LoadRates(s, base, o))
  {
    FallbackIsConsistent();
  }

  /** In the fallback table every supported currency other than the US dollar has a positive
      listed rate, so the default 1 is never used for it. */
  lemma FallbackRateListed(code: string)
    requires IsSupported(code) && code != FallbackBase
    ensures HasKey(FallbackRates, code)
    ensures Get(FallbackRates, code).value > 0.0
    ensures RateOrOne(FallbackRates, code) == Get(FallbackRates, code).value
  {
    FallbackShape();
    FallbackCoversSupported(code);
  }
}
