/**
 The dollar price of a name in zatoshis: the exchanges' median, the day's
 time-weighted average, and the quote. Prices are exact reals.
 */
module PriceOracles {
  import opened Basics
  import opened NameNotes
  import opened AmountTexts

  // ---------------------------------------------------------------------------
  // One round: the median of the venues
  // ---------------------------------------------------------------------------

  datatype Quote = Quote(trusted: bool, rate: real)

  function Insert(x: real, s: seq<real>): seq<real> {
    if s == [] || x <= s[0] then [x] + s else [s[0]] + Insert(x, s[1..])
  }

  function Sorted(s: seq<real>): (r: seq<real>)
    ensures |r| == |s|
  {
    if s == [] then [] else
      var r := Sorted(s[1..]);
      InsertLength(s[0], r);
      Insert(s[0], r)
  }

  lemma {:induction false} InsertLength(x: real, s: seq<real>)
    ensures |Insert(x, s)| == |s| + 1
  {
    if s != [] && x > s[0] { InsertLength(x, s[1..]); }
  }

  function Rates(quotes: seq<Quote>): (r: seq<real>)
    ensures |r| == |quotes| && forall i | 0 <= i < |r| :: r[i] == quotes[i].rate
  {
    seq(|quotes|, i requires 0 <= i < |quotes| => quotes[i].rate)
  }

  function FirstTrusted(quotes: seq<Quote>): Option<real> {
    if quotes == [] then None
    else if quotes[0].trusted then Some(quotes[0].rate)
    else FirstTrusted(quotes[1..])
  }

  /** Below three venues only the trusted one counts; from three on, the median. */
  function Aggregate(quotes: seq<Quote>): Option<real> {
    if |quotes| <= 2 then FirstTrusted(quotes)
    else
      var s, mid := Sorted(Rates(quotes)), |quotes| / 2;
      Some(if |quotes| % 2 == 1 then s[mid] else (s[mid - 1] + s[mid]) / 2.0)
  }

  function Below(s: seq<real>, m: real): nat {
    if s == [] then 0 else (if s[0] < m then 1 else 0) + Below(s[1..], m)
  }

  function Above(s: seq<real>, m: real): nat {
    if s == [] then 0 else (if s[0] > m then 1 else 0) + Above(s[1..], m)
  }

  function Within(s: seq<real>, lo: real, hi: real): nat {
    if s == [] then 0 else (if lo <= s[0] <= hi then 1 else 0) + Within(s[1..], lo, hi)
  }

  ghost predicate Rising(s: seq<real>) {
    forall i, j | 0 <= i < j < |s| :: s[i] <= s[j]
  }

  lemma {:induction false} InsertRises(x: real, s: seq<real>, lo: real, hi: real)
    requires Rising(s)
    ensures Rising(Insert(x, s)) && forall y :: y in Insert(x, s) <==> y == x || y in s
    ensures Below(Insert(x, s), lo) == Below(s, lo) + if x < lo then 1 else 0
    ensures Above(Insert(x, s), hi) == Above(s, hi) + if x > hi then 1 else 0
  {
    if s == [] || x <= s[0] {
      assert ([x] + s)[1..] == s;
    } else {
      var r := Insert(x, s[1..]);
      InsertRises(x, s[1..], lo, hi);
      assert ([s[0]] + r)[1..] == r;
      assert s == [s[0]] + s[1..];
      forall i | 0 <= i < |r| ensures s[0] <= r[i] {
        assert r[i] in r;
      }
    }
  }

  lemma {:induction false} SortRises(s: seq<real>, lo: real, hi: real)
    ensures Rising(Sorted(s)) && Below(Sorted(s), lo) == Below(s, lo) && Above(Sorted(s), hi) == Above(s, hi)
  {
    if s != [] {
      SortRises(s[1..], lo, hi);
      InsertRises(s[0], Sorted(s[1..]), lo, hi);
    }
  }

  lemma {:induction false} Outside(s: seq<real>, lo: real, hi: real)
    requires lo <= hi
    ensures Below(s, lo) + Within(s, lo, hi) + Above(s, hi) == |s|
  {
    if s != [] { Outside(s[1..], lo, hi); }
  }

  /** With few entries below `lo`, the entry of that rank is not one of them. */
  lemma {:induction false} NotBelow(s: seq<real>, lo: real, k: nat)
    requires Rising(s) && k < |s| && Below(s, lo) <= k
    ensures s[k] >= lo
  {
    if s[0] < lo && k > 0 { NotBelow(s[1..], lo, k - 1); }
  }

  lemma {:induction false} AllAbove(s: seq<real>, hi: real)
    requires forall i | 0 <= i < |s| :: s[i] > hi
    ensures Above(s, hi) == |s|
  {
    if s != [] { AllAbove(s[1..], hi); }
  }

  lemma {:induction false} NotAbove(s: seq<real>, hi: real, k: nat)
    requires Rising(s) && k < |s| && Above(s, hi) < |s| - k
    ensures s[k] <= hi
  {
    if s[0] > hi {
      AllAbove(s, hi);
    } else if k > 0 {
      NotAbove(s[1..], hi, k - 1);
    }
  }

  /**
   No minority moves the price: from three venues on, whenever more than half of
   the quotes lie in a band, so does the published price, whatever the others say.
   */
  lemma MinorityCannotMove(quotes: seq<Quote>, lo: real, hi: real)
    requires |quotes| > 2 && 2 * Within(Rates(quotes), lo, hi) > |quotes|
    ensures Aggregate(quotes).Some? && lo <= Aggregate(quotes).value <= hi
  {
    var rates, mid := Rates(quotes), |quotes| / 2;
    var s := Sorted(rates);
    SomeWithin(rates, lo, hi);
    Outside(rates, lo, hi);
    SortRises(rates, lo, hi);
    NotBelow(s, lo, mid);
    NotAbove(s, hi, mid);
    if |quotes| % 2 == 0 {
      NotBelow(s, lo, mid - 1);
      NotAbove(s, hi, mid - 1);
    }
  }

  lemma {:induction false} SomeWithin(s: seq<real>, lo: real, hi: real)
    requires Within(s, lo, hi) > 0
    ensures lo <= hi
  {
    if lo > s[0] || s[0] > hi { SomeWithin(s[1..], lo, hi); }
  }

  lemma {:induction false} InsertAdds(x: real, s: seq<real>)
    ensures multiset(Insert(x, s)) == multiset(s) + multiset{x}
  {
    if s == [] || x <= s[0] {
      assert multiset([x] + s) == multiset{x} + multiset(s);
    } else {
      InsertAdds(x, s[1..]);
      assert s == [s[0]] + s[1..];
    }
  }

  lemma {:induction false} SortKeeps(s: seq<real>)
    ensures Rising(Sorted(s)) && multiset(Sorted(s)) == multiset(s)
  {
    SortRises(s, 0.0, 0.0);
    if s != [] {
      SortKeeps(s[1..]);
      InsertAdds(s[0], Sorted(s[1..]));
      assert s == [s[0]] + s[1..];
    }
  }

  lemma FirstIsLeast(s: seq<real>, x: real)
    requires s != [] && Rising(s) && x in multiset(s)
    ensures s[0] <= x
  {
    var i :| 0 <= i < |s| && s[i] == x;
  }

  lemma SameFirst(a: seq<real>, b: seq<real>)
    requires a != [] && b != [] && Rising(a) && Rising(b) && multiset(a) == multiset(b)
    ensures a[0] == b[0]
  {
    assert b[0] in multiset(b) && a[0] in multiset(a);
    FirstIsLeast(a, b[0]);
    FirstIsLeast(b, a[0]);
  }

  lemma WithoutFirst(s: seq<real>)
    requires s != [] && Rising(s)
    ensures multiset(s[1..]) == multiset(s) - multiset{s[0]} && Rising(s[1..])
  {
    assert s == [s[0]] + s[1..];
  }

  lemma SameSize(a: seq<real>, b: seq<real>)
    requires multiset(a) == multiset(b)
    ensures |a| == |b|
  {
    assert |multiset(a)| == |a| && |multiset(b)| == |b|;
  }

  lemma {:induction false} OneRisingOrder(a: seq<real>, b: seq<real>)
    requires Rising(a) && Rising(b) && multiset(a) == multiset(b)
    ensures a == b
  {
    SameSize(a, b);
    if a != [] {
      SameFirst(a, b);
      WithoutFirst(a);
      WithoutFirst(b);
      OneRisingOrder(a[1..], b[1..]);
      assert a == [a[0]] + a[1..];
      assert b == [b[0]] + b[1..];
    }
  }

  /** From three venues on: in whatever rising order the quotes are put, the middle one, or the mean of the middle two. */
  lemma MedianOfVenues(quotes: seq<Quote>, s: seq<real>)
    requires |quotes| > 2 && Rising(s) && multiset(s) == multiset(Rates(quotes))
    ensures |s| == |quotes|
    ensures var n := |s|;
      Aggregate(quotes) == Some(if n % 2 == 1 then s[n / 2] else (s[n / 2 - 1] + s[n / 2]) / 2.0)
  {
    SortKeeps(Rates(quotes));
    OneRisingOrder(s, Sorted(Rates(quotes)));
  }

  /** Below three venues the first trusted quote counts, and without one there is no price. */
  lemma FewVenues(quotes: seq<Quote>, i: nat)
    requires |quotes| <= 2 && i < |quotes|
    ensures quotes[i].trusted && (forall j | 0 <= j < i :: !quotes[j].trusted) ==> Aggregate(quotes) == Some(quotes[i].rate)
    ensures (forall j | 0 <= j < |quotes| :: !quotes[j].trusted) ==> Aggregate(quotes) == None
  {
    if forall j | 0 <= j < i :: !quotes[j].trusted { FirstTrustedIs(quotes, i); }
    if forall j | 0 <= j < |quotes| :: !quotes[j].trusted { NoneTrusted(quotes); }
  }

  lemma {:induction false} FirstTrustedIs(quotes: seq<Quote>, i: nat)
    requires i < |quotes| && forall j | 0 <= j < i :: !quotes[j].trusted
    ensures quotes[i].trusted ==> FirstTrusted(quotes) == Some(quotes[i].rate)
  {
    if i > 0 { FirstTrustedIs(quotes[1..], i - 1); }
  }

  lemma {:induction false} NoneTrusted(quotes: seq<Quote>)
    requires forall j | 0 <= j < |quotes| :: !quotes[j].trusted
    ensures FirstTrusted(quotes) == None
  {
    if quotes != [] { NoneTrusted(quotes[1..]); }
  }

  // ---------------------------------------------------------------------------
  // Rates and quotes
  // ---------------------------------------------------------------------------

  function Ceil(x: real): (n: int)
    ensures (n - 1) as real < x <= n as real
  {
    if x.Floor as real == x then x.Floor else x.Floor + 1
  }

  function ZatsPerUsd(usdPerZec: real): Option<Zatoshis> {
    if usdPerZec <= 0.0 then None
    else
      var zats := Ceil(COIN as real / usdPerZec);
      QuotientPositive(COIN as real, usdPerZec);
      if zats <= MAX_MONEY then Some(zats) else None
  }

  lemma QuotientPositive(a: real, b: real)
    requires a > 0.0 && b > 0.0
    ensures a / b > 0.0
  {
    var q := a / b;
    assert q * b == a;
  }

  const ANNUAL_USD: seq<nat> := [10_000, 2_500, 800, 400, 100]
  const MINIMUM_USD: nat := 20
  const FOREVER_MULTIPLE: nat := 3

  function AnnualUsd(length: nat): nat
    requires length > 0
  {
    if length <= |ANNUAL_USD| then ANNUAL_USD[length - 1] else MINIMUM_USD
  }

  function UsdOf(length: nat, term: Term): nat
    requires length > 0
  {
    match term
    case Forever => AnnualUsd(length) * FOREVER_MULTIPLE
    case Years(n) => AnnualUsd(length) * n
  }

  function QuoteAt(rate: Zatoshis, length: nat, term: Term): Option<Zatoshis>
    requires length > 0
  {
    var zats := UsdOf(length, term) * rate;
    if zats <= MAX_MONEY then Some(zats) else None
  }

  /** One dollar's zatoshis at a price are worth the dollar, and one fewer would not exceed it. */
  lemma DollarIsCovered(usdPerZec: real, rate: Zatoshis)
    requires ZatsPerUsd(usdPerZec) == Some(rate)
    ensures rate as real * usdPerZec >= COIN as real >= rate as real * usdPerZec - usdPerZec
  {
    var exact := COIN as real / usdPerZec;
    assert exact * usdPerZec == COIN as real;
    assert rate as real - 1.0 == (rate - 1) as real <= exact <= rate as real;
    Scale(exact, rate as real, usdPerZec);
    Scale(rate as real - 1.0, exact, usdPerZec);
    OneLess(rate as real, usdPerZec);
  }

  lemma OneLess(a: real, k: real)
    ensures (a - 1.0) * k == a * k - k
  {
  }

  /**
   A quote at the rate of a price is worth its dollars at that price, and exceeds
   them by at most one zatoshi a dollar.
   */
  lemma QuoteCoversDollars(usdPerZec: real, rate: Zatoshis, length: nat, term: Term, zats: Zatoshis)
    requires 0 < length && ZatsPerUsd(usdPerZec) == Some(rate) && QuoteAt(rate, length, term) == Some(zats)
    ensures var usd := UsdOf(length, term);
      zats as real * usdPerZec >= usd as real * COIN as real >= (zats - usd) as real * usdPerZec
  {
    DollarIsCovered(usdPerZec, rate);
    RateCovers(rate, usdPerZec, length, term, zats);
  }

  lemma RateCovers(rate: Zatoshis, price: real, length: nat, term: Term, zats: Zatoshis)
    requires 0 < length && QuoteAt(rate, length, term) == Some(zats)
    requires rate as real * price >= COIN as real >= rate as real * price - price
    ensures var usd := UsdOf(length, term);
      zats as real * price >= usd as real * COIN as real >= (zats - usd) as real * price
  {
    var usd := UsdOf(length, term);
    var worth := rate as real * price;
    Spread(worth, COIN as real, usd, rate, price);
    assert zats == usd * rate;
  }

  /** The tariff in dollars a year by length, three years' worth for ever, at the rate and within the money supply. */
  lemma TariffIs(rate: Zatoshis, length: nat, term: Term, zats: Zatoshis)
    requires length > 0
    ensures QuoteAt(rate, length, term) == Some(zats) <==>
      var years := if term.Forever? then 3 else term.n;
      var usd := if length == 1 then 10_000 else if length == 2 then 2_500 else if length == 3 then 800
                 else if length == 4 then 400 else if length == 5 then 100 else 20;
      zats == usd * years * rate && zats <= MAX_MONEY
  {
  }

  /** A longer name never costs more, and can be quoted whenever the shorter one can. */
  lemma LongerCostsNoMore(rate: Zatoshis, length: nat, longer: nat, term: Term)
    requires 0 < length <= longer && QuoteAt(rate, length, term).Some?
    ensures QuoteAt(rate, longer, term).Some? && QuoteAt(rate, longer, term).value <= QuoteAt(rate, length, term).value
  {
    assert AnnualUsd(longer) <= AnnualUsd(length);
    TermScale(AnnualUsd(longer), AnnualUsd(length), term, rate);
  }

  lemma Scale(a: real, b: real, k: real)
    requires a <= b && k > 0.0
    ensures a * k <= b * k
  {
  }

  lemma Spread(worth: real, coin: real, usd: nat, rate: nat, price: real)
    requires worth == rate as real * price && worth >= coin >= worth - price
    ensures (usd * rate) as real * price >= usd as real * coin
    ensures (usd * rate - usd) as real * price <= usd as real * coin
  {
    assert (usd * rate) as real == usd as real * rate as real;
    assert (usd * rate) as real * price == usd as real * worth;
    assert (usd * rate - usd) as real * price == usd as real * (worth - price);
    ScaleBy(coin, worth, usd as real);
    ScaleBy(worth - price, coin, usd as real);
  }

  lemma ScaleBy(a: real, b: real, k: real)
    requires a <= b && k >= 0.0
    ensures k * a <= k * b
  {
  }

  lemma TermScale(less: nat, more: nat, term: Term, rate: nat)
    requires less <= more
    ensures match term
      case Forever => less * FOREVER_MULTIPLE * rate <= more * FOREVER_MULTIPLE * rate
      case Years(n) => less * n * rate <= more * n * rate
  {
    var k := if term.Forever? then FOREVER_MULTIPLE else term.n;
    TimesMore(less, more, k);
    TimesMore(less * k, more * k, rate);
  }

  lemma TimesMore(a: nat, b: nat, k: nat)
    requires a <= b
    ensures a * k <= b * k
  {
  }

  // ---------------------------------------------------------------------------
  // The day's average
  // ---------------------------------------------------------------------------

  const MIN_DAY_SUCCESS_PERCENT: nat := 50

  datatype Day = Day(rate: Zatoshis, day: int, sum: real, seconds: nat, lastPrice: real, lastTime: Timestamp,
                     attempted: nat, seen: nat)

  /** One fetch round at a clock reading; `price` is absent when the round failed. */
  datatype Round = Round(price: Option<real>, today: int, now: Timestamp)

  function Published(d: Day): Zatoshis {
    if d.seconds > 0 && d.seen * 100 >= d.attempted * MIN_DAY_SUCCESS_PERCENT
       && ZatsPerUsd(d.sum / d.seconds as real).Some?
    then ZatsPerUsd(d.sum / d.seconds as real).value
    else d.rate
  }

  function Rolled(d: Day, today: int): Day {
    if today > d.day then Day(Published(d), today, 0.0, 0, d.lastPrice, d.lastTime, 0, 0) else d
  }

  /** Seconds a round adds: none behind the last round, none for a failed or non-positive price. */
  function Billed(d: Day, r: Round): nat {
    if r.now < d.lastTime || r.price.None? || r.price.value <= 0.0 then 0 else r.now - d.lastTime
  }

  /** Counts the round, and bills the last price for the seconds since it. */
  function Tally(e: Day, r: Round): Day
    requires r.now >= e.lastTime
  {
    var f := e.(attempted := e.attempted + 1);
    if r.price.None? || r.price.value <= 0.0 then f
    else
      f.(sum := f.sum + f.lastPrice * (r.now - f.lastTime) as real, seconds := f.seconds + (r.now - f.lastTime),
         lastPrice := r.price.value, lastTime := r.now, seen := f.seen + 1)
  }

  function Accumulate(d: Day, r: Round): Day {
    if r.now < d.lastTime then d else Tally(Rolled(d, r.today), r)
  }

  function Opening(price: real, today: int, now: Timestamp): Day
    requires ZatsPerUsd(price).Some?
  {
    Day(ZatsPerUsd(price).value, today, 0.0, 0, price, now, 0, 0)
  }

  function Run(d: Day, rounds: seq<Round>): Day {
    if rounds == [] then d else Accumulate(Run(d, rounds[..|rounds| - 1]), rounds[|rounds| - 1])
  }

  function BilledOver(d: Day, rounds: seq<Round>): nat {
    if rounds == [] then 0
    else BilledOver(d, rounds[..|rounds| - 1]) + Billed(Run(d, rounds[..|rounds| - 1]), rounds[|rounds| - 1])
  }

  /** Every second is billed once: however the clock is rewound, the seconds billed are the clock's advance. */
  lemma {:induction false} SecondsAreBilledOnce(d: Day, rounds: seq<Round>)
    ensures BilledOver(d, rounds) == Run(d, rounds).lastTime - d.lastTime
    ensures Run(d, rounds).lastTime >= d.lastTime
  {
    if rounds != [] { SecondsAreBilledOnce(d, rounds[..|rounds| - 1]); }
  }

  // ---------------------------------------------------------------------------
  // The average stays inside the observed prices
  // ---------------------------------------------------------------------------

  /** The rate lies between the rates of the two prices. */
  ghost predicate RateWithin(rate: Zatoshis, lo: real, hi: real)
    requires 0.0 < lo <= hi
  {
    Ceil(COIN as real / hi) <= rate <= Ceil(COIN as real / lo)
  }

  /** These seconds could have cost this sum at prices in the band. */
  ghost predicate SumWithin(sum: real, seconds: nat, lo: real, hi: real) {
    lo * seconds as real <= sum <= hi * seconds as real
  }

  ghost predicate DayWithin(d: Day, lo: real, hi: real)
    requires 0.0 < lo <= hi
  {
    && lo <= d.lastPrice <= hi
    && SumWithin(d.sum, d.seconds, lo, hi)
    && RateWithin(d.rate, lo, hi)
  }

  lemma StrictScale(a: real, b: real, k: real)
    requires a < b && k > 0.0
    ensures a * k < b * k
  {
  }

  lemma QuotientFalls(a: real, p: real, q: real)
    requires a > 0.0 && 0.0 < p <= q
    ensures a / q <= a / p
  {
    var x, y := a / q, a / p;
    assert x * q == a && y * p == a;
    QuotientPositive(a, q);
    ScaleBy(p, q, x);
    if x > y { StrictScale(y, x, p); }
  }

  lemma CeilRises(x: real, y: real)
    requires x <= y
    ensures Ceil(x) <= Ceil(y)
  {
  }

  lemma RateOfPrice(price: real, lo: real, hi: real)
    requires 0.0 < lo <= price <= hi && ZatsPerUsd(price).Some?
    ensures RateWithin(ZatsPerUsd(price).value, lo, hi)
  {
    QuotientFalls(COIN as real, lo, price);
    QuotientFalls(COIN as real, price, hi);
    CeilRises(COIN as real / hi, COIN as real / price);
    CeilRises(COIN as real / price, COIN as real / lo);
  }

  lemma AverageWithin(sum: real, seconds: nat, lo: real, hi: real)
    requires seconds > 0 && SumWithin(sum, seconds, lo, hi)
    ensures lo <= sum / seconds as real <= hi
  {
    var n := seconds as real;
    var q := sum / n;
    assert q * n == sum;
    if q < lo { StrictScale(q, lo, n); }
    if q > hi { StrictScale(hi, q, n); }
  }

  lemma RollWithin(d: Day, today: int, lo: real, hi: real)
    requires 0.0 < lo <= hi && DayWithin(d, lo, hi)
    ensures DayWithin(Rolled(d, today), lo, hi)
  {
    if d.seconds > 0 {
      AverageWithin(d.sum, d.seconds, lo, hi);
      if ZatsPerUsd(d.sum / d.seconds as real).Some? { RateOfPrice(d.sum / d.seconds as real, lo, hi); }
    }
  }

  lemma BillWithin(sum: real, seconds: nat, price: real, more: nat, lo: real, hi: real)
    requires SumWithin(sum, seconds, lo, hi) && lo <= price <= hi
    ensures SumWithin(sum + price * more as real, seconds + more, lo, hi)
  {
    var n, k := seconds as real, more as real;
    assert (seconds + more) as real == n + k;
    ScaleBy(lo, price, k);
    ScaleBy(price, hi, k);
    assert lo * (n + k) == lo * n + lo * k && hi * (n + k) == hi * n + hi * k;
  }

  /**
   Through any rounds, failed or not, at any clock readings: while every positive
   price seen lies in a band, so does the price behind every published rate.
   */
  lemma {:induction false} RateStaysInBand(price: real, today: int, now: Timestamp, rounds: seq<Round>, lo: real, hi: real)
    requires 0.0 < lo <= price <= hi && ZatsPerUsd(price).Some?
    requires forall r | r in rounds :: r.price.Some? && r.price.value > 0.0 ==> lo <= r.price.value <= hi
    ensures DayWithin(Run(Opening(price, today, now), rounds), lo, hi)
  {
    var d := Opening(price, today, now);
    if rounds == [] {
      RateOfPrice(price, lo, hi);
    } else {
      var rest, r := rounds[..|rounds| - 1], rounds[|rounds| - 1];
      assert r in rounds;
      RateStaysInBand(price, today, now, rest, lo, hi);
      RoundWithin(Run(d, rest), r, lo, hi);
    }
  }

  lemma RoundWithin(d: Day, r: Round, lo: real, hi: real)
    requires 0.0 < lo <= hi && DayWithin(d, lo, hi)
    requires r.price.Some? && r.price.value > 0.0 ==> lo <= r.price.value <= hi
    ensures DayWithin(Accumulate(d, r), lo, hi)
  {
    if r.now >= d.lastTime {
      RollWithin(d, r.today, lo, hi);
      TallyWithin(Rolled(d, r.today), r, lo, hi);
    }
  }

  lemma TallyWithin(e: Day, r: Round, lo: real, hi: real)
    requires 0.0 < lo <= hi && DayWithin(e, lo, hi) && r.now >= e.lastTime
    requires r.price.Some? && r.price.value > 0.0 ==> lo <= r.price.value <= hi
    ensures DayWithin(Tally(e, r), lo, hi)
  {
    BillWithin(e.sum, e.seconds, e.lastPrice, r.now - e.lastTime, lo, hi);
  }

  // ---------------------------------------------------------------------------
  // The oracle in place
  // ---------------------------------------------------------------------------

  class Oracle {
    var dailyRate: Zatoshis
    var currentDay: int
    var accSum: real
    var accSeconds: nat
    var lastPrice: real
    var lastTime: Timestamp
    var attempted: nat
    var seen: nat

    function View(): Day
      reads this
    {
      Day(dailyRate, currentDay, accSum, accSeconds, lastPrice, lastTime, attempted, seen)
    }

    constructor (price: real, today: int, now: Timestamp)
      requires ZatsPerUsd(price).Some?
      ensures View() == Opening(price, today, now)
    {
      dailyRate, currentDay, accSum, accSeconds := ZatsPerUsd(price).value, today, 0.0, 0;
      lastPrice, lastTime, attempted, seen := price, now, 0, 0;
    }

    method Observe(price: Option<real>, today: int, now: Timestamp)
      modifies this
      ensures View() == Accumulate(old(View()), Round(price, today, now))
    {
      if now < lastTime {
        return;
      }
      if today > currentDay {
        if accSeconds > 0 && seen * 100 >= attempted * MIN_DAY_SUCCESS_PERCENT {
          var rate := ZatsPerUsd(accSum / accSeconds as real);
          if rate.Some? {
            dailyRate := rate.value;
          }
        }
        accSum, accSeconds, attempted, seen := 0.0, 0, 0, 0;
        currentDay := today;
      }
      attempted := attempted + 1;
      if price.None? || price.value <= 0.0 {
        return;
      }
      var elapsed := now - lastTime;
      accSum := accSum + lastPrice * elapsed as real;
      accSeconds := accSeconds + elapsed;
      lastPrice := price.value;
      lastTime := now;
      seen := seen + 1;
    }
  }
}
