/**
  The page's event handlers. The page holds what the amount field parses to, the two
  selected currencies and the rate store. Every handler ends by re-running `convert`, so what
  the result area shows after an event is `Shown` of the page after it. A handler that loads
  rates is given the outcome of the request it issues; the load is taken to complete before
  the next event.
 */
module Page {
  import opened JsObject
  import opened Currencies
  import opened RateStore
  import opened Conversion

  datatype Page = Page(amount: ParsedNumber, from: string, to: string, store: Store)

  /** A handler's effect: the page afterwards, and whether it sent a request for rates. */
  datatype Step = Step(page: Page, requested: bool)

  /** What the result area shows for a page. */
  function Shown(p: Page): Display {
    Convert(AmountOf(p.amount), p.from, p.to, p.store)
  }

  /** The guard shared by the swap and `from` handlers: reload only when the store is not in
      the selected `from` currency, otherwise only re-convert. */
  function RefreshIfNeeded(p: Page, o: FetchOutcome): (r: Step)
    ensures r.requested <==> p.store.base != p.from
    ensures r.page.amount == p.amount && r.page.from == p.from && r.page.to == p.to
    ensures !r.requested ==> r.page == p
    ensures r.requested ==> r.page.store == LoadRates(p.store, p.from, o)
    // the guard never reaches the cache-hit branch of the load, so a request really goes out
    ensures r.requested ==> !IsCacheHit(p.store, p.from)
  {
    if p.store.base != p.from then Step(p.(store := LoadRates(p.store, p.from, o)), true)
    else Step(p, false)
  }

  /** The page as the script leaves it once its first load has completed. */
  function Start(amount: ParsedNumber, o: FetchOutcome): (r: Step)
    // the start-up table is empty, so the first load always sends a request
    ensures r.requested
    ensures r.page.from == DefaultFrom && r.page.to == DefaultTo && r.page.amount == amount
    ensures r.page.store == LoadRates(Initial, FallbackBase, o)
    ensures r.page.store.base == FallbackBase
  {
    Step(Page(amount, DefaultFrom, DefaultTo, LoadRates(Initial, FallbackBase, o)),
         !IsCacheHit(Initial, FallbackBase))
  }

  /** Exchanges the two selected currencies. */
  function Swapped(p: Page): (r: Page)
    ensures r.from == p.to && r.to == p.from
    ensures r.amount == p.amount && r.store == p.store
  {
    p.(from := p.to, to := p.from)
  }

  function OnSwap(p: Page, o: FetchOutcome): (r: Step)
    ensures r.page.from == p.to && r.page.to == p.from && r.page.amount == p.amount
    ensures r.requested <==> p.to != p.store.base
    ensures r.requested ==> r.page.store == LoadRates(p.store, p.to, o)
    ensures !r.requested ==> r.page.store == p.store
  {
    RefreshIfNeeded(Swapped(p), o)
  }

  function OnFromChange(p: Page, from: string, o: FetchOutcome): (r: Step)
    ensures r.page.from == from && r.page.to == p.to && r.page.amount == p.amount
    ensures r.requested <==> from != p.store.base
    ensures r.requested ==> r.page.store == LoadRates(p.store, from, o)
    ensures !r.requested ==> r.page.store == p.store
  {
    RefreshIfNeeded(p.(from := from), o)
  }

  function OnToChange(p: Page, to: string): (r: Step)
    ensures !r.requested && r.page == p.(to := to)
  {
    Step(p.(to := to), false)
  }

  function OnAmountInput(p: Page, amount: ParsedNumber): (r: Step)
    ensures !r.requested && r.page == p.(amount := amount)
  {
    Step(p.(amount := amount), false)
  }

  /** Swapping twice restores the pair of currencies and the amount. When the two currencies
      differ, at least one of the two swaps reloads rates: the store's base cannot equal both. */
  lemma SwapTwiceRestoresPair(p: Page, o1: FetchOutcome, o2: FetchOutcome)
    ensures var q := OnSwap(OnSwap(p, o1).page, o2).page;
      q.from == p.from && q.to == p.to && q.amount == p.amount
    ensures p.from != p.to ==>
      OnSwap(p, o1).requested || OnSwap(OnSwap(p, o1).page, o2).requested
  {
  }

  /** A reload that delivered a table shows the direct rate of `to` in it; a failed one shows
      the conversion on the fallback table in US dollars, through `convert`'s cross-rate unless
      the new `from` currency is the US dollar itself. */
  lemma ReloadedConversion(p: Page, o: FetchOutcome)
    requires p.store.base != p.from
    ensures var q := RefreshIfNeeded(p, o).page;
      Delivered(o).Some? && AmountOf(p.amount) != 0.0 && p.from != p.to ==>
        Shown(q).unitRate == RateOrOne(Delivered(o).value, p.to)
    ensures var q := RefreshIfNeeded(p, o).page;
      Delivered(o).None? ==>
        Shown(q) == Convert(AmountOf(p.amount), p.from, p.to, Store(FallbackBase, FallbackRates))
  {
  }

  datatype Event =
    | AmountInput(amount: ParsedNumber)
    | FromChange(from: string, outcome: FetchOutcome)
    | ToChange(to: string)
    | SwapClick(outcome: FetchOutcome)

  /** The page's event wiring: each event goes to its handler. */
  function Handle(p: Page, e: Event): (r: Step)
    // only a `from` change or a swap can reload, and each does so exactly when the currency
    // it asks for is not the store's base
    ensures r.requested <==> (e.FromChange? || e.SwapClick?) && AskedBase(p, e) != p.store.base
    ensures r.requested ==> r.page.store == LoadRates(p.store, AskedBase(p, e), e.outcome)
    ensures !r.requested ==> r.page.store == p.store
    // the selections afterwards
    ensures r.page.from == (if e.FromChange? then e.from else if e.SwapClick? then p.to else p.from)
    ensures r.page.to == (if e.ToChange? then e.to else if e.SwapClick? then p.from else p.to)
    ensures r.page.amount == (if e.AmountInput? then e.amount else p.amount)
  {
    match e
    case AmountInput(a) => OnAmountInput(p, a)
    case FromChange(f, o) => OnFromChange(p, f, o)
    case ToChange(t) => OnToChange(p, t)
    case SwapClick(o) => OnSwap(p, o)
  }

  /** The currency whose rate table an event would ask the service for. */
  function AskedBase(p: Page, e: Event): string {
    match e
    case FromChange(f, _) => f
    case SwapClick(_) => p.to
    case _ => p.from
  }

  /** The event's request, if it delivers a table, delivers one consistent in the asked base. */
  predicate Honest(p: Page, e: Event) {
    match e
    case FromChange(_, o) => Delivered(o).Some? ==> Consistent(Store(AskedBase(p, e), Delivered(o).value))
    case SwapClick(o) => Delivered(o).Some? ==> Consistent(Store(AskedBase(p, e), Delivered(o).value))
    case _ => true
  }

  /** The page after handling the events in order. */
  function Run(p: Page, events: seq<Event>): Page
    decreases |events|
  {
    if |events| == 0 then p else Run(Handle(p, events[0]).page, events[1..])
  }

  /** Every event of the run is honest about the tables it delivers. */
  predicate HonestRun(p: Page, events: seq<Event>)
    decreases |events|
  {
    |events| == 0 || (Honest(p, events[0]) && HonestRun(Handle(p, events[0]).page, events[1..]))
  }

  lemma HandleKeepsConsistent(p: Page, e: Event)
    requires Consistent(p.store)
    requires Honest(p, e)
    ensures Consistent(Handle(p, e).page.store)
  {
    match e
    case FromChange(f, o) =>
      if f != p.store.base {
        LoadKeepsConsistent(p.store, f, o);
      }
    case SwapClick(o) =>
      if p.to != p.store.base {
        LoadKeepsConsistent(p.store, p.to, o);
      }
    case _ =>
  }

  /** As long as the service's tables are consistent, every page reached from a consistent one
      shows the reference ratio of its table, whatever the events. */
  lemma {:induction false} RunShowsRatio(p: Page, events: seq<Event>)
    requires Consistent(p.store)
    requires HonestRun(p, events)
    ensures Consistent(Run(p, events).store)
    ensures var q := Run(p, events);
      Shown(q).Converted? ==> Shown(q).unitRate == Ratio(q.store.rates, q.from, q.to)
    decreases |events|
  {
    if |events| > 0 {
      HandleKeepsConsistent(p, events[0]);
      RunShowsRatio(Handle(p, events[0]).page, events[1..]);
    } else {
      var q := Run(p, events);
      ConvertIsRatio(AmountOf(q.amount), q.from, q.to, q.store);
    }
  }

  /** The page after start-up is consistent whatever the first load returned, provided a
      delivered table is consistent in US dollars. */
  lemma StartIsConsistent(amount: ParsedNumber, o: FetchOutcome)
    requires Delivered(o).Some? ==> Consistent(Store(FallbackBase, Delivered(o).value))
    ensures Consistent(Start(amount, o).page.store)
  {
    FallbackIsConsistent();
    LoadKeepsConsistent(Initial, FallbackBase, o);
  }
}
