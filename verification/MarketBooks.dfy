/**
 The market's book (listings, open sales, controller challenges), the events
 that change it, and the replay of an event log.
 */
module MarketBooks {
  import opened Basics
  import opened NameNotes
  import opened Listings

  datatype Phase =
    | Paying(code: OtpCode, payTo: TransparentAddress, price: Zatoshis, expiresAt: Timestamp, relayed: bool)
    | Paid

  /** A buy in progress. `held` is the live note when it opened; a later note ends it. */
  datatype OpenSale = OpenSale(name: Name, bob: UnifiedAddress, alice: UnifiedAddress, held: Commitment,
                               term: Expiry, dutch: bool, until: Timestamp, phase: Phase)

  datatype ChallengeKind = ToList(listing: Listing) | ToDelist(of: Name, owner: UnifiedAddress)

  datatype Verb = ListVerb | AuctionVerb | DelistVerb | UpdateVerb | ReleaseVerb

  /** A list or delist waiting for the controller's code. */
  datatype Challenge = Challenge(kind: ChallengeKind, code: OtpCode, expiresAt: Timestamp,
                                 relayed: bool, attempts: nat)
  {
    function Name(): Basics.Name {
      if kind.ToList? then kind.listing.name else kind.of
    }

    function Ua(): UnifiedAddress {
      if kind.ToList? then kind.listing.ua else kind.owner
    }

    function Act(): Verb {
      if kind.ToDelist? then DelistVerb
      else if kind.listing.ask.Flat? then ListVerb
      else AuctionVerb
    }
  }

  datatype Book = Book(listings: map<Name, Listing>, sales: seq<OpenSale>, challenges: seq<Challenge>)

  const EMPTY_BOOK := Book(map[], [], [])

  datatype Event =
    | Listed(listing: Listing)
    | Delisted(name: Name)
    | Opened(sale: OpenSale)
    | Settled(name: Name, code: OtpCode)
    | Lapsed(name: Name)
    | Closed(name: Name)
    | Challenged(challenge: Challenge)
    | ChallengeClosed(code: OtpCode)

  datatype Stamped = Stamped(height: Height, event: Event)

  // ---------------------------------------------------------------------------
  // The primitive changes
  // ---------------------------------------------------------------------------

  predicate HasSale(sales: seq<OpenSale>, name: Name) {
    exists i | 0 <= i < |sales| :: sales[i].name == name
  }

  predicate HasCode(challenges: seq<Challenge>, code: OtpCode) {
    exists i | 0 <= i < |challenges| :: challenges[i].code == code
  }

  function WithoutNames(sales: seq<OpenSale>, gone: set<Name>): seq<OpenSale> {
    if sales == [] then []
    else
      var rest, last := WithoutNames(sales[..|sales| - 1], gone), sales[|sales| - 1];
      if last.name in gone then rest else rest + [last]
  }

  function WithoutCodes(challenges: seq<Challenge>, gone: set<OtpCode>): seq<Challenge> {
    if challenges == [] then []
    else
      var rest, last := WithoutCodes(challenges[..|challenges| - 1], gone), challenges[|challenges| - 1];
      if last.code in gone then rest else rest + [last]
  }

  function MarkSale(s: OpenSale, paid: set<(Name, OtpCode)>): OpenSale {
    if s.phase.Paying? && (s.name, s.phase.code) in paid then s.(phase := Paid) else s
  }

  function MarkPaid(sales: seq<OpenSale>, paid: set<(Name, OtpCode)>): seq<OpenSale> {
    seq(|sales|, i requires 0 <= i < |sales| => MarkSale(sales[i], paid))
  }

  /** One log entry applied to a book, as the replay does it. */
  function Apply(b: Book, e: Event): Book {
    match e
    case Listed(l) => b.(listings := b.listings[l.name := l])
    case Delisted(n) => b.(listings := b.listings - {n})
    case Opened(s) => if HasSale(b.sales, s.name) then b else b.(sales := b.sales + [s])
    case Settled(n, code) => b.(sales := MarkPaid(b.sales, {(n, code)}))
    case Lapsed(n) => b.(sales := WithoutNames(b.sales, {n}))
    case Closed(n) => b.(sales := WithoutNames(b.sales, {n}))
    case Challenged(c) => if HasCode(b.challenges, c.code) then b else b.(challenges := b.challenges + [c])
    case ChallengeClosed(code) => b.(challenges := WithoutCodes(b.challenges, {code}))
  }

  function ApplyAll(b: Book, es: seq<Event>): Book {
    if es == [] then b else Apply(ApplyAll(b, es[..|es| - 1]), es[|es| - 1])
  }

  function Replay(log: seq<Stamped>): Book {
    if log == [] then EMPTY_BOOK else Apply(Replay(log[..|log| - 1]), log[|log| - 1].event)
  }

  function UpTo(log: seq<Stamped>, height: Height): seq<Stamped> {
    if log == [] then []
    else
      var rest, last := UpTo(log[..|log| - 1], height), log[|log| - 1];
      if last.height <= height then rest + [last] else rest
  }

  function Stamp(height: Height, es: seq<Event>): seq<Stamped> {
    seq(|es|, i requires 0 <= i < |es| => Stamped(height, es[i]))
  }

  // ---------------------------------------------------------------------------
  // Agreement up to relay flags and attempt counters
  // ---------------------------------------------------------------------------

  /** `r` is `l` except for the relay flag; when `strict`, a flag set in `r` is set in `l`. */
  ghost predicate SaleSim(l: OpenSale, r: OpenSale, strict: bool) {
    if l.phase.Paying? && r.phase.Paying? then
      && l == r.(phase := r.phase.(relayed := l.phase.relayed))
      && (strict && r.phase.relayed ==> l.phase.relayed)
    else l == r
  }

  ghost predicate ChallengeSim(l: Challenge, r: Challenge, strict: bool) {
    && l == r.(relayed := l.relayed, attempts := l.attempts)
    && (strict ==> (r.relayed ==> l.relayed) && r.attempts <= l.attempts)
  }

  ghost predicate SalesSim(l: seq<OpenSale>, r: seq<OpenSale>, strict: bool) {
    |l| == |r| && forall i | 0 <= i < |l| :: SaleSim(l[i], r[i], strict)
  }

  ghost predicate ChallengesSim(l: seq<Challenge>, r: seq<Challenge>, strict: bool) {
    |l| == |r| && forall i | 0 <= i < |l| :: ChallengeSim(l[i], r[i], strict)
  }

  /** Same listings, same sales and same challenges, in the same order. */
  ghost predicate Sim(l: Book, r: Book, strict: bool) {
    && l.listings == r.listings
    && SalesSim(l.sales, r.sales, strict)
    && ChallengesSim(l.challenges, r.challenges, strict)
  }

  lemma SimTransitive(a: Book, b: Book, c: Book, strict: bool)
    requires Sim(a, b, strict) && Sim(b, c, strict)
    ensures Sim(a, c, strict)
  {
    forall i | 0 <= i < |a.sales| ensures SaleSim(a.sales[i], c.sales[i], strict) {
      assert SaleSim(a.sales[i], b.sales[i], strict) && SaleSim(b.sales[i], c.sales[i], strict);
    }
    forall i | 0 <= i < |a.challenges| ensures ChallengeSim(a.challenges[i], c.challenges[i], strict) {
      assert ChallengeSim(a.challenges[i], b.challenges[i], strict);
      assert ChallengeSim(b.challenges[i], c.challenges[i], strict);
    }
  }

  lemma SimWeaken(a: Book, b: Book)
    requires Sim(a, b, true)
    ensures Sim(a, b, false) && Sim(b, a, false)
  {
    forall i | 0 <= i < |a.sales| ensures SaleSim(a.sales[i], b.sales[i], false) && SaleSim(b.sales[i], a.sales[i], false) {
      assert SaleSim(a.sales[i], b.sales[i], true);
    }
    forall i | 0 <= i < |a.challenges|
      ensures ChallengeSim(a.challenges[i], b.challenges[i], false) && ChallengeSim(b.challenges[i], a.challenges[i], false)
    {
      assert ChallengeSim(a.challenges[i], b.challenges[i], true);
    }
  }

  lemma {:induction false} WithoutNamesSim(l: seq<OpenSale>, r: seq<OpenSale>, gone: set<Name>, strict: bool)
    requires SalesSim(l, r, strict)
    ensures SalesSim(WithoutNames(l, gone), WithoutNames(r, gone), strict)
  {
    if l != [] {
      var n := |l| - 1;
      assert SaleSim(l[n], r[n], strict);
      WithoutNamesSim(l[..n], r[..n], gone, strict);
    }
  }

  lemma {:induction false} WithoutCodesSim(l: seq<Challenge>, r: seq<Challenge>, gone: set<OtpCode>, strict: bool)
    requires ChallengesSim(l, r, strict)
    ensures ChallengesSim(WithoutCodes(l, gone), WithoutCodes(r, gone), strict)
  {
    if l != [] {
      var n := |l| - 1;
      assert ChallengeSim(l[n], r[n], strict);
      WithoutCodesSim(l[..n], r[..n], gone, strict);
    }
  }

  lemma HasSim(l: Book, r: Book, strict: bool, name: Name, code: OtpCode)
    requires Sim(l, r, strict)
    ensures HasSale(l.sales, name) <==> HasSale(r.sales, name)
    ensures HasCode(l.challenges, code) <==> HasCode(r.challenges, code)
  {
    assert forall i | 0 <= i < |l.sales| :: SaleSim(l.sales[i], r.sales[i], strict) && l.sales[i].name == r.sales[i].name;
    assert forall i | 0 <= i < |l.challenges| ::
        ChallengeSim(l.challenges[i], r.challenges[i], strict) && l.challenges[i].code == r.challenges[i].code;
  }

  /** Agreeing books stay in agreement under the same event. */
  lemma ApplySim(l: Book, r: Book, e: Event, strict: bool)
    requires Sim(l, r, strict)
    ensures Sim(Apply(l, e), Apply(r, e), strict)
  {
    match e
    case Listed(_) =>
    case Delisted(_) =>
    case Opened(s) => HasSim(l, r, strict, s.name, 0);
    case Settled(n, code) =>
      forall i | 0 <= i < |l.sales|
        ensures SaleSim(MarkSale(l.sales[i], {(n, code)}), MarkSale(r.sales[i], {(n, code)}), strict)
      {
        assert SaleSim(l.sales[i], r.sales[i], strict);
      }
    case Lapsed(n) => WithoutNamesSim(l.sales, r.sales, {n}, strict);
    case Closed(n) => WithoutNamesSim(l.sales, r.sales, {n}, strict);
    case Challenged(c) => HasSim(l, r, strict, 0, c.code);
    case ChallengeClosed(code) => WithoutCodesSim(l.challenges, r.challenges, {code}, strict);
  }

  lemma {:induction false} ApplyAllSim(l: Book, r: Book, es: seq<Event>, strict: bool)
    requires Sim(l, r, strict)
    ensures Sim(ApplyAll(l, es), ApplyAll(r, es), strict)
  {
    if es != [] {
      ApplyAllSim(l, r, es[..|es| - 1], strict);
      ApplySim(ApplyAll(l, es[..|es| - 1]), ApplyAll(r, es[..|es| - 1]), es[|es| - 1], strict);
    }
  }

  // ---------------------------------------------------------------------------
  // Algebra of the primitive changes
  // ---------------------------------------------------------------------------

  lemma {:induction false} WithoutNamesUnion(sales: seq<OpenSale>, a: set<Name>, b: set<Name>)
    ensures WithoutNames(WithoutNames(sales, a), b) == WithoutNames(sales, a + b)
  {
    if sales != [] {
      var n := |sales| - 1;
      WithoutNamesUnion(sales[..n], a, b);
      var rest := WithoutNames(sales[..n], a);
      if sales[n].name !in a {
        assert (rest + [sales[n]])[..|rest|] == rest;
      }
    }
  }

  lemma {:induction false} WithoutCodesUnion(challenges: seq<Challenge>, a: set<OtpCode>, b: set<OtpCode>)
    ensures WithoutCodes(WithoutCodes(challenges, a), b) == WithoutCodes(challenges, a + b)
  {
    if challenges != [] {
      var n := |challenges| - 1;
      WithoutCodesUnion(challenges[..n], a, b);
      var rest := WithoutCodes(challenges[..n], a);
      if challenges[n].code !in a {
        assert (rest + [challenges[n]])[..|rest|] == rest;
      }
    }
  }

  lemma {:induction false} WithoutNoNames(sales: seq<OpenSale>)
    ensures WithoutNames(sales, {}) == sales
  {
    if sales != [] { WithoutNoNames(sales[..|sales| - 1]); }
  }

  lemma {:induction false} WithoutNoCodes(challenges: seq<Challenge>)
    ensures WithoutCodes(challenges, {}) == challenges
  {
    if challenges != [] { WithoutNoCodes(challenges[..|challenges| - 1]); }
  }

  function Closings(names: seq<Name>): seq<Event> {
    seq(|names|, i requires 0 <= i < |names| => Closed(names[i]))
  }

  function Lapses(names: seq<Name>): seq<Event> {
    seq(|names|, i requires 0 <= i < |names| => Lapsed(names[i]))
  }

  function Delistings(names: seq<Name>): seq<Event> {
    seq(|names|, i requires 0 <= i < |names| => Delisted(names[i]))
  }

  function ChallengeClosings(codes: seq<OtpCode>): seq<Event> {
    seq(|codes|, i requires 0 <= i < |codes| => ChallengeClosed(codes[i]))
  }

  function Settlements(paid: seq<(Name, OtpCode)>): seq<Event> {
    seq(|paid|, i requires 0 <= i < |paid| => Settled(paid[i].0, paid[i].1))
  }

  lemma ToSetSnoc<T(!new)>(s: seq<T>)
    requires s != []
    ensures ToSet(s) == ToSet(s[..|s| - 1]) + {s[|s| - 1]}
  {
    assert s == s[..|s| - 1] + [s[|s| - 1]];
  }

  /** A batch of closings removes exactly the named sales. */
  lemma {:induction false} ApplyClosings(b: Book, es: seq<Event>, names: seq<Name>)
    requires es == Closings(names) || es == Lapses(names)
    ensures ApplyAll(b, es) == b.(sales := WithoutNames(b.sales, ToSet(names)))
  {
    if names == [] {
      WithoutNoNames(b.sales);
      assert ToSet(names) == {};
    } else {
      var n := |names| - 1;
      assert es == Closings(names) ==> es[..n] == Closings(names[..n]);
      assert es == Lapses(names) ==> es[..n] == Lapses(names[..n]);
      ApplyClosings(b, es[..n], names[..n]);
      WithoutNamesUnion(b.sales, ToSet(names[..n]), {names[n]});
      ToSetSnoc(names);
    }
  }

  lemma {:induction false} ApplyDelistings(b: Book, names: seq<Name>)
    ensures ApplyAll(b, Delistings(names)) == b.(listings := b.listings - ToSet(names))
  {
    if names == [] {
      assert ToSet(names) == {};
      assert b.listings - {} == b.listings;
    } else {
      var n := |names| - 1;
      assert Delistings(names)[..n] == Delistings(names[..n]);
      ApplyDelistings(b, names[..n]);
      ToSetSnoc(names);
      assert b.listings - ToSet(names[..n]) - {names[n]} == b.listings - ToSet(names);
    }
  }

  lemma {:induction false} ApplyChallengeClosings(b: Book, codes: seq<OtpCode>)
    ensures ApplyAll(b, ChallengeClosings(codes)) == b.(challenges := WithoutCodes(b.challenges, ToSet(codes)))
  {
    if codes == [] {
      WithoutNoCodes(b.challenges);
      assert ToSet(codes) == {};
    } else {
      var n := |codes| - 1;
      assert ChallengeClosings(codes)[..n] == ChallengeClosings(codes[..n]);
      ApplyChallengeClosings(b, codes[..n]);
      WithoutCodesUnion(b.challenges, ToSet(codes[..n]), {codes[n]});
      ToSetSnoc(codes);
    }
  }

  lemma {:induction false} ApplySettlements(b: Book, paid: seq<(Name, OtpCode)>)
    ensures ApplyAll(b, Settlements(paid)) == b.(sales := MarkPaid(b.sales, ToSet(paid)))
  {
    if paid == [] {
      assert ToSet(paid) == {};
      assert MarkPaid(b.sales, {}) == b.sales;
    } else {
      var n := |paid| - 1;
      assert Settlements(paid)[..n] == Settlements(paid[..n]);
      ApplySettlements(b, paid[..n]);
      ToSetSnoc(paid);
      assert (paid[n].0, paid[n].1) == paid[n];
      assert MarkPaid(MarkPaid(b.sales, ToSet(paid[..n])), {paid[n]}) == MarkPaid(b.sales, ToSet(paid));
    }
  }

  lemma {:induction false} ApplyAllConcat(b: Book, es: seq<Event>, fs: seq<Event>)
    ensures ApplyAll(b, es + fs) == ApplyAll(ApplyAll(b, es), fs)
  {
    if fs == [] {
      assert es + fs == es;
    } else {
      var n := |fs| - 1;
      assert (es + fs)[..|es| + n] == es + fs[..n];
      ApplyAllConcat(b, es, fs[..n]);
    }
  }

  lemma {:induction false} ReplayStamped(log: seq<Stamped>, height: Height, es: seq<Event>)
    ensures Replay(log + Stamp(height, es)) == ApplyAll(Replay(log), es)
  {
    if es == [] {
      assert log + Stamp(height, es) == log;
    } else {
      var n := |es| - 1;
      assert (log + Stamp(height, es))[..|log| + n] == log + Stamp(height, es[..n]);
      ReplayStamped(log, height, es[..n]);
    }
  }

  // ---------------------------------------------------------------------------
  // Truncating a log
  // ---------------------------------------------------------------------------

  ghost predicate LogOrdered(log: seq<Stamped>) {
    forall i, j | 0 <= i < j < |log| :: log[i].height <= log[j].height
  }

  ghost predicate LogWithin(log: seq<Stamped>, tip: Height) {
    forall i | 0 <= i < |log| :: log[i].height <= tip
  }

  lemma {:induction false} UpToAll(log: seq<Stamped>, tip: Height, height: Height)
    requires LogWithin(log, tip) && tip <= height
    ensures UpTo(log, height) == log
  {
    if log != [] { UpToAll(log[..|log| - 1], tip, height); }
  }

  /** In an ordered log the entries at or below a height are a prefix. */
  lemma {:induction false} UpToIsPrefix(log: seq<Stamped>, height: Height)
    requires LogOrdered(log)
    ensures UpTo(log, height) <= log
    ensures LogOrdered(UpTo(log, height)) && LogWithin(UpTo(log, height), height)
    ensures forall i | |UpTo(log, height)| <= i < |log| :: log[i].height > height
  {
    if log != [] {
      var n := |log| - 1;
      if log[n].height <= height {
        UpToAll(log, height, height);
      } else {
        UpToIsPrefix(log[..n], height);
      }
    }
  }

  lemma {:induction false} UpToTwice(log: seq<Stamped>, high: Height, low: Height)
    requires low <= high
    ensures UpTo(UpTo(log, high), low) == UpTo(log, low)
  {
    if log != [] {
      var n := |log| - 1;
      UpToTwice(log[..n], high, low);
      var rest := UpTo(log[..n], high);
      if log[n].height <= high {
        assert (rest + [log[n]])[..|rest|] == rest;
      }
    }
  }

  lemma {:induction false} UpToStamped(log: seq<Stamped>, at: Height, es: seq<Event>, height: Height)
    requires height < at
    ensures UpTo(log + Stamp(at, es), height) == UpTo(log, height)
  {
    if es == [] {
      assert log + Stamp(at, es) == log;
    } else {
      var n := |es| - 1;
      assert (log + Stamp(at, es))[..|log| + n] == log + Stamp(at, es[..n]);
      UpToStamped(log, at, es[..n], height);
    }
  }
}
