/**
 What a day's price is made of: the rounds that landed, as marks on the clock, and
 between two marks the earlier one's price for the seconds up to the later one.
 */
module OracleDays {
  import opened Basics
  import opened NameNotes
  import opened AmountTexts
  import opened PriceOracles

  // ---------------------------------------------------------------------------
  // A day as its marks
  // ---------------------------------------------------------------------------

  /** A price seen at a clock reading. */
  datatype Mark = Mark(price: real, at: Timestamp)

  /** The marks these rounds leave: each round that brought a positive price and was not behind the mark before it. */
  function Marks(first: Mark, rounds: seq<Round>): (marks: seq<Mark>)
    ensures marks != [] && marks[0] == first
  {
    if rounds == [] then [first]
    else
      var before, r := Marks(first, rounds[..|rounds| - 1]), rounds[|rounds| - 1];
      if r.price.Some? && r.price.value > 0.0 && r.now >= before[|before| - 1].at
      then before + [Mark(r.price.value, r.now)] else before
  }

  /** The rounds not behind the last mark of their time: each counts as an attempt. */
  function Attempts(first: Mark, rounds: seq<Round>): nat {
    if rounds == [] then 0
    else
      var before, r := Marks(first, rounds[..|rounds| - 1]), rounds[|rounds| - 1];
      Attempts(first, rounds[..|rounds| - 1]) + if r.now >= before[|before| - 1].at then 1 else 0
  }

  /** Each stretch between two marks costs the earlier price. */
  function Cost(marks: seq<Mark>): real {
    if |marks| <= 1 then 0.0
    else Cost(marks[..|marks| - 1]) + marks[|marks| - 2].price * (marks[|marks| - 1].at - marks[|marks| - 2].at) as real
  }

  ghost predicate Climbing(marks: seq<Mark>) {
    forall i, j | 0 <= i <= j < |marks| :: marks[i].at <= marks[j].at
  }

  lemma {:induction false} MarksClimb(first: Mark, rounds: seq<Round>)
    ensures Climbing(Marks(first, rounds))
  {
    if rounds != [] { MarksClimb(first, rounds[..|rounds| - 1]); }
  }

  function Last(marks: seq<Mark>): Mark
    requires marks != []
  {
    marks[|marks| - 1]
  }

  /** Seconds from the first mark to the last. */
  function Span(marks: seq<Mark>): int
    requires marks != []
  {
    Last(marks).at - marks[0].at
  }

  /** `e` is the day `d` after these marks and attempts. */
  ghost predicate Made(d: Day, e: Day, marks: seq<Mark>, attempts: nat)
    requires marks != []
  {
    && e.rate == d.rate && e.day == d.day
    && e.sum == d.sum + Cost(marks) && e.seconds == d.seconds + Span(marks)
    && e.attempted == d.attempted + attempts && e.seen == d.seen + |marks| - 1
    && e.lastPrice == Last(marks).price && e.lastTime == Last(marks).at
  }

  lemma OneMoreMark(d: Day, e: Day, marks: seq<Mark>, attempts: nat, r: Round)
    requires marks != [] && Made(d, e, marks, attempts) && r.today <= d.day
    requires r.price.Some? && r.price.value > 0.0 && r.now >= Last(marks).at
    ensures Made(d, Accumulate(e, r), marks + [Mark(r.price.value, r.now)], attempts + 1)
  {
    var more := marks + [Mark(r.price.value, r.now)];
    assert more[..|marks|] == marks;
  }

  /**
   Within a day: the rate stands, and the day's sum is what the marks cost, its seconds
   the time they span, its successes the marks after the first.
   */
  lemma {:induction false} WithinADay(d: Day, rounds: seq<Round>)
    requires forall r | r in rounds :: r.today <= d.day
    ensures var first := Mark(d.lastPrice, d.lastTime);
      Made(d, PriceOracles.Run(d, rounds), Marks(first, rounds), Attempts(first, rounds))
  {
    if rounds != [] {
      var n := |rounds| - 1;
      var first, r := Mark(d.lastPrice, d.lastTime), rounds[n];
      assert r in rounds;
      WithinADay(d, rounds[..n]);
      var before := Marks(first, rounds[..n]);
      if r.price.Some? && r.price.value > 0.0 && r.now >= Last(before).at {
        OneMoreMark(d, PriceOracles.Run(d, rounds[..n]), before, Attempts(first, rounds[..n]), r);
      }
    }
  }

  // ---------------------------------------------------------------------------
  // The day change
  // ---------------------------------------------------------------------------

  /** The rate a finished day publishes: the zatoshis of its average price, rounded up. */
  ghost predicate Publishes(sum: real, seconds: int, attempted: nat, seen: nat, rate: Zatoshis) {
    && seconds > 0 && 2 * seen >= attempted
    && sum > 0.0
    && (rate as real - 1.0) * sum < COIN as real * seconds as real <= rate as real * sum
    && rate <= MAX_MONEY
  }

  lemma CeilIsTheOne(x: real, n: int)
    requires (n - 1) as real < x <= n as real
    ensures Ceil(x) == n
  {
  }

  lemma Cancel(a: real, b: real, k: real)
    requires k > 0.0
    ensures a < b <==> a * k < b * k
    ensures a <= b <==> a * k <= b * k
  {
    if a < b { StrictScale(a, b, k); }
    if b < a { StrictScale(b, a, k); }
  }

  lemma AverageOf(sum: real, seconds: nat)
    requires seconds > 0
    ensures (sum / seconds as real) * seconds as real == sum
    ensures sum > 0.0 <==> sum / seconds as real > 0.0
  {
    var n := seconds as real;
    var average := sum / n;
    assert average * n == sum;
    Cancel(0.0, average, n);
  }

  /** A quotient against a whole number, without dividing. */
  lemma QuotientBounds(sum: real, seconds: nat, k: real)
    requires seconds > 0 && sum > 0.0
    ensures var average := sum / seconds as real;
      average > 0.0
      && (k < COIN as real / average <==> k * sum < COIN as real * seconds as real)
      && (COIN as real / average <= k <==> COIN as real * seconds as real <= k * sum)
  {
    AverageOf(sum, seconds);
    var average := sum / seconds as real;
    var q := COIN as real / average;
    assert q * average == COIN as real;
    assert q * sum == COIN as real * seconds as real by {
      assert q * sum == q * (average * seconds as real);
      assert q * (average * seconds as real) == (q * average) * seconds as real;
    }
    Cancel(k, q, sum);
    Cancel(q, k, sum);
  }

  lemma RateOfAverage(sum: real, seconds: nat, rate: Zatoshis)
    requires seconds > 0
    ensures ZatsPerUsd(sum / seconds as real) == Some(rate) <==>
      && sum > 0.0 && rate <= MAX_MONEY
      && (rate as real - 1.0) * sum < COIN as real * seconds as real <= rate as real * sum
  {
    AverageOf(sum, seconds);
    if sum > 0.0 {
      var average := sum / seconds as real;
      QuotientBounds(sum, seconds, rate as real - 1.0);
      QuotientBounds(sum, seconds, rate as real);
      var q := COIN as real / average;
      assert (rate - 1) as real == rate as real - 1.0;
      if (rate - 1) as real < q <= rate as real { CeilIsTheOne(q, rate); }
    }
  }

  lemma PublishedIs(d: Day, rate: Zatoshis)
    requires Publishes(d.sum, d.seconds, d.attempted, d.seen, rate)
    ensures Published(d) == rate
  {
    RateOfAverage(d.sum, d.seconds, rate);
  }

  lemma PublishedOrKept(d: Day)
    ensures Published(d) == d.rate || Publishes(d.sum, d.seconds, d.attempted, d.seen, Published(d))
  {
    if d.seconds > 0 && ZatsPerUsd(d.sum / d.seconds as real).Some? {
      RateOfAverage(d.sum, d.seconds, ZatsPerUsd(d.sum / d.seconds as real).value);
    }
  }

  /** What the marks and attempts of a finished day publish, if anything. */
  ghost predicate DayPublishes(marks: seq<Mark>, attempts: nat, rate: Zatoshis)
    requires marks != []
  {
    Publishes(Cost(marks), Span(marks), attempts, |marks| - 1, rate)
  }

  /**
   On the first round of a later day that is not behind the last mark, the finished day
   publishes: the new rate is the zatoshis a dollar buys at the average the marks make,
   rounded up, iff at least half of its rounds landed, some second was billed and that
   rate is a zatoshi amount; otherwise the old rate stays. The new day starts from
   nothing but the last mark.
   */
  lemma NewDayPublishes(d: Day, rounds: seq<Round>, r: Round)
    requires d.sum == 0.0 && d.seconds == 0 && d.attempted == 0 && d.seen == 0
    requires (forall x | x in rounds :: x.today <= d.day) && r.today > d.day
    ensures var first := Mark(d.lastPrice, d.lastTime);
      var marks, attempts, e := Marks(first, rounds), Attempts(first, rounds), PriceOracles.Run(d, rounds + [r]);
      if r.now < Last(marks).at then e == PriceOracles.Run(d, rounds)
      else
        && (forall rate | DayPublishes(marks, attempts, rate) :: e.rate == rate)
        && (e.rate != d.rate ==> DayPublishes(marks, attempts, e.rate))
        && e == PriceOracles.Run(Day(e.rate, r.today, 0.0, 0, Last(marks).price, Last(marks).at, 0, 0), [r])
  {
    var first, before := Mark(d.lastPrice, d.lastTime), PriceOracles.Run(d, rounds);
    var marks, attempts := Marks(first, rounds), Attempts(first, rounds);
    WithinADay(d, rounds);
    assert (rounds + [r])[..|rounds|] == rounds && [r][..0] == [];
    if r.now >= before.lastTime {
      forall rate | DayPublishes(marks, attempts, rate) ensures Published(before) == rate {
        PublishedIs(before, rate);
      }
      PublishedOrKept(before);
      var blank := Day(Published(before), r.today, 0.0, 0, before.lastPrice, before.lastTime, 0, 0);
      assert Accumulate(before, r) == Accumulate(blank, r);
      assert PriceOracles.Run(blank, [r]) == Accumulate(blank, r);
    }
  }

  /** The oracle starts a day at its opening price. */
  lemma OpeningIsADay(price: real, today: int, now: Timestamp, rate: Zatoshis)
    requires ZatsPerUsd(price).Some?
    ensures var d := Opening(price, today, now);
      && d.sum == 0.0 && d.seconds == 0 && d.attempted == 0 && d.seen == 0
      && d.day == today && d.lastPrice == price && d.lastTime == now
      && (d.rate == rate <==> price > 0.0 && (rate as real - 1.0) * price < COIN as real <= rate as real * price && rate <= MAX_MONEY)
  {
    RateOfAverage(price, 1, rate);
    assert price / 1.0 == price;
    RateOfAverage(price, 1, ZatsPerUsd(price).value);
  }
}
