/**
  The compiled-in constants of the converter: the supported currencies, in the order the
  selection lists show them, and the fixed fallback rate table, denominated in US dollars,
  that replaces the live table whenever the rate service cannot be used.
 */
module Currencies {
  import opened JsObject

  /** The base currency the fallback table is denominated in, also the start-up base. */
  const FallbackBase: string := "USD"

  /** Currency code to display label, in display order (the `currencies` object's properties;
      that its codes are distinct is `SupportedUnique`). */
  const Supported: seq<(string, string)> := [
    ("USD", "Доллар США 🇺🇸"),
    ("EUR", "Евро 🇪🇺"),
    ("RUB", "Российский рубль 🇷🇺"),
    ("KGS", "Киргизский сом 🇰🇬"),
    ("GBP", "Британский фунт 🇬🇧"),
    ("JPY", "Японская иена 🇯🇵"),
    ("CNY", "Китайский юань 🇨🇳"),
    ("KZT", "Казахстанский тенге 🇰🇿"),
    ("UAH", "Украинская гривна 🇺🇦"),
    ("BYN", "Белорусский рубль 🇧🇾"),
    ("CHF", "Швейцарский франк 🇨🇭"),
    ("CAD", "Канадский доллар 🇨🇦"),
    ("AUD", "Австралийский доллар 🇦🇺"),
    ("PLN", "Польский злотый 🇵🇱"),
    ("TRY", "Турецкая лира 🇹🇷"),
    ("INR", "Индийская рупия 🇮🇳")
  ]

  /** Units of each currency per US dollar, as of 1 December 2025. */
  const FallbackRates: Object<real> := [
    ("EUR", 0.9205),
    ("RUB", 97.8521),
    ("KGS", 89.1234),
    ("GBP", 0.7856),
    ("JPY", 151.2345),
    ("CNY", 7.1234),
    ("KZT", 485.6789),
    ("UAH", 41.5678),
    ("BYN", 3.1890),
    ("CHF", 0.8623),
    ("CAD", 1.3721),
    ("AUD", 1.4987),
    ("PLN", 3.9456),
    ("TRY", 34.5678),
    ("INR", 84.9123)
  ]

  /** The selection lists' initial values. */
  const DefaultFrom: string := "USD"
  const DefaultTo: string := "RUB"

  predicate IsSupported(code: string) {
    exists i :: 0 <= i < |Supported| && Supported[i].0 == code
  }

  /** No currency code is listed twice. */
  lemma SupportedUnique()
    ensures UniqueKeys(Supported)
  {
  }

  /** Sixteen codes, US dollar first; both initial selections are among them. */
  lemma SupportedShape()
    ensures |Supported| == 16
    ensures Supported[0].0 == FallbackBase
    ensures IsSupported(DefaultFrom) && IsSupported(DefaultTo)
  {
    assert Supported[2].0 == DefaultTo;
  }

  /** The fallback table lists fifteen distinct codes with positive rates and never its own
      base, so the base's rate is the implicit 1. */
  lemma FallbackShape()
    ensures |FallbackRates| == 15
    ensures UniqueKeys(FallbackRates)
    ensures !HasKey(FallbackRates, FallbackBase)
    ensures forall i :: 0 <= i < |FallbackRates| ==> FallbackRates[i].1 > 0.0
  {
  }

  /** The fallback table has a rate for exactly the supported currencies other than its
      base. */
  lemma FallbackCoversSupported(code: string)
    ensures HasKey(FallbackRates, code) <==> IsSupported(code) && code != FallbackBase
  {
    if IsSupported(code) && code != FallbackBase {
      var i :| 0 <= i < |Supported| && Supported[i].0 == code;
      assert i > 0;
      assert FallbackRates[i - 1].0 == Supported[i].0;
    }
    if HasKey(FallbackRates, code) {
      var i :| 0 <= i < |FallbackRates| && FallbackRates[i].0 == code;
      assert Supported[i + 1].0 == FallbackRates[i].0;
    }
  }
}
