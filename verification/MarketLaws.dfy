/**
 The market operations as what a lister, a buyer or a controller sees: which sales,
 challenges and listings each of them leaves, with every condition written out.
 */
module MarketLaws {
  import opened Basics
  import opened NameNotes
  import opened Listings
  import opened Registries
  import opened MarketBooks
  import opened MarketRules
  import opened MarketInvariants

  // ---------------------------------------------------------------------------
  // What leaves
  // ---------------------------------------------------------------------------

  /** The sales whose name is not in `gone`, in their order, and likewise the challenges by code and the listings by name. */
  ghost predicate Leaves(b: Book, after: Book, listings: set<Name>, sales: set<Name>, codes: set<OtpCode>) {
    && after.listings == (map n | n in b.listings && n !in listings :: b.listings[n])
    && after.sales == WithoutNames(b.sales, sales)
    && after.challenges == WithoutCodes(b.challenges, codes)
  }

  /** What is left keeps its order: the last sale or challenge stays last, or goes by its name or code. */
  lemma RemovalKeepsOrder(sales: seq<OpenSale>, s: OpenSale, names: set<Name>, challenges: seq<Challenge>, c: Challenge, codes: set<OtpCode>)
    ensures WithoutNames([], names) == [] && WithoutCodes([], codes) == []
    ensures WithoutNames(sales + [s], names) == WithoutNames(sales, names) + if s.name in names then [] else [s]
    ensures WithoutCodes(challenges + [c], codes) == WithoutCodes(challenges, codes) + if c.code in codes then [] else [c]
  {
    assert (sales + [s])[..|sales|] == sales && (challenges + [c])[..|challenges|] == challenges;
  }

  lemma {:induction false} SameNamesGone(sales: seq<OpenSale>, a: set<Name>, b: set<Name>)
    requires forall s | s in sales :: s.name in a <==> s.name in b
    ensures WithoutNames(sales, a) == WithoutNames(sales, b)
  {
    if sales != [] {
      var n := |sales| - 1;
      assert sales[n] in sales;
      SameNamesGone(sales[..n], a, b);
    }
  }

  lemma {:induction false} SameCodesGone(challenges: seq<Challenge>, a: set<OtpCode>, b: set<OtpCode>)
    requires forall c | c in challenges :: c.code in a <==> c.code in b
    ensures WithoutCodes(challenges, a) == WithoutCodes(challenges, b)
  {
    if challenges != [] {
      var n := |challenges| - 1;
      assert challenges[n] in challenges;
      SameCodesGone(challenges[..n], a, b);
    }
  }

  /** Unpaid sales and challenges go at their deadline, a clock listing on the block after its end; nothing else goes. */
  lemma ExpireLaw(b: Book, mtp: Timestamp, height: Height)
    ensures Leaves(b, Expire(b, mtp, height).book,
      set n | n in b.listings && b.listings[n].ask.Dutch? && height > b.listings[n].ask.clock.end,
      set s | s in b.sales && s.phase.Paying? && mtp >= s.phase.expiresAt :: s.name,
      set c | c in b.challenges && mtp >= c.expiresAt :: c.code)
  {
    var lapsed := set s | s in b.sales && s.phase.Paying? && mtp >= s.phase.expiresAt :: s.name;
    var codes := set c | c in b.challenges && mtp >= c.expiresAt :: c.code;
    forall s | s in b.sales ensures s.name in ToSet(LapsedNames(b.sales, mtp)) <==> s.name in lapsed {
      if s.name in lapsed {
        var x :| x in b.sales && x.phase.Paying? && mtp >= x.phase.expiresAt && x.name == s.name;
        var i :| 0 <= i < |b.sales| && b.sales[i] == x;
        assert LapsedBy(mtp)(b.sales[i]);
      }
    }
    forall c | c in b.challenges ensures c.code in ToSet(ExpiredCodes(b.challenges, mtp)) <==> c.code in codes {
      if c.code in codes {
        var x :| x in b.challenges && mtp >= x.expiresAt && x.code == c.code;
        var i :| 0 <= i < |b.challenges| && b.challenges[i] == x;
        assert ExpiredBy(mtp)(b.challenges[i]);
      }
    }
    SameNamesGone(b.sales, ToSet(LapsedNames(b.sales, mtp)), lapsed);
    SameCodesGone(b.challenges, ToSet(ExpiredCodes(b.challenges, mtp)), codes);
  }

  /** The live record names this holder. */
  ghost predicate Holds(records: Records, name: Name, ua: UnifiedAddress) {
    name in records && records[name].ua == ua
  }

  /** Sales whose lister or note moved, and challenges and listings whose controller no longer holds the name, go; nothing else does. */
  lemma ReconcileLaw(b: Book, records: Records)
    ensures Leaves(b, Reconcile(b, records).book,
      set n | n in b.listings && !Holds(records, n, b.listings[n].ua),
      set s | s in b.sales && !(Holds(records, s.name, s.alice) && records[s.name].commitment == s.held) :: s.name,
      set c | c in b.challenges && !Holds(records, c.Name(), c.Ua()) :: c.code)
  {
    var moved := set s | s in b.sales && !(Holds(records, s.name, s.alice) && records[s.name].commitment == s.held) :: s.name;
    var stale := set c | c in b.challenges && !Holds(records, c.Name(), c.Ua()) :: c.code;
    forall s | s in b.sales ensures s.name in ToSet(MovedNames(b.sales, records)) <==> s.name in moved {
      if s.name in moved {
        var x :| x in b.sales && !(Holds(records, x.name, x.alice) && records[x.name].commitment == x.held) && x.name == s.name;
        var i :| 0 <= i < |b.sales| && b.sales[i] == x;
        assert MovedFrom(records)(b.sales[i]);
      }
    }
    forall c | c in b.challenges ensures c.code in ToSet(StaleCodes(b.challenges, records)) <==> c.code in stale {
      if c.code in stale {
        var x :| x in b.challenges && !Holds(records, x.Name(), x.Ua()) && x.code == c.code;
        var i :| 0 <= i < |b.challenges| && b.challenges[i] == x;
        assert StaleUnder(records)(b.challenges[i]);
      }
    }
    SameNamesGone(b.sales, ToSet(MovedNames(b.sales, records)), moved);
    SameCodesGone(b.challenges, ToSet(StaleCodes(b.challenges, records)), stale);
  }

  /** A paid sale that no order of its name holds up: its lister still holds the note it captured, and the buyer is someone else. */
  ghost predicate Owing(s: OpenSale, records: Records, pending: set<Name>) {
    && s.phase.Paid? && s.name !in pending
    && Holds(records, s.name, s.alice) && records[s.name].commitment == s.held && records[s.name].ua != s.bob
  }

  lemma PollLeaves(b: Book, records: Records, pending: set<Name>)
    ensures Leaves(b, Poll(b, records, pending).book, {},
      set s | s in b.sales && s.phase.Paid? && s.name !in pending && !Owing(s, records, pending) :: s.name, {})
  {
    var over := set s | s in b.sales && s.phase.Paid? && s.name !in pending && !Owing(s, records, pending) :: s.name;
    forall s | s in b.sales ensures s.name in ToSet(OverNames(b.sales, records, pending)) <==> s.name in over {
      if s.name in over {
        var x :| x in b.sales && x.phase.Paid? && x.name !in pending && !Owing(x, records, pending) && x.name == s.name;
        var i :| 0 <= i < |b.sales| && b.sales[i] == x;
        assert OverUnder(records, pending)(b.sales[i]);
      }
    }
    SameNamesGone(b.sales, ToSet(OverNames(b.sales, records, pending)), over);
    WithoutNoCodes(b.challenges);
  }

  lemma OwedBy(sales: seq<OpenSale>, records: Records, pending: set<Name>, note: NameNote)
    ensures note in OwedNotes(sales, records, pending) <==>
      exists s :: s in sales && Owing(s, records, pending) && note == SaleNote(s.name, s.bob, s.term, s.held)
  {
    if note in OwedNotes(sales, records, pending) {
      var i :| 0 <= i < |sales| && Signable(sales[i], pending) && !SaleOver(sales[i], records) && note == SaleNoteOf(sales[i]);
      assert sales[i] in sales && Owing(sales[i], records, pending);
    }
    if s :| s in sales && Owing(s, records, pending) && note == SaleNote(s.name, s.bob, s.term, s.held) {
      var i :| 0 <= i < |sales| && sales[i] == s;
      assert Signable(sales[i], pending) && !SaleOver(sales[i], records);
    }
  }

  /** A paid sale without an order on its name owes its sale note while its note is there to spend; once it is not, it closes. */
  lemma PollLaw(b: Book, records: Records, pending: set<Name>)
    ensures Leaves(b, Poll(b, records, pending).book, {},
      set s | s in b.sales && s.phase.Paid? && s.name !in pending && !Owing(s, records, pending) :: s.name, {})
    ensures forall note :: note in OwedNotes(b.sales, records, pending) <==>
      exists s :: s in b.sales && Owing(s, records, pending) && note == SaleNote(s.name, s.bob, s.term, s.held)
  {
    PollLeaves(b, records, pending);
    forall note ensures note in OwedNotes(b.sales, records, pending) <==>
      exists s :: s in b.sales && Owing(s, records, pending) && note == SaleNote(s.name, s.bob, s.term, s.held)
    {
      OwedBy(b.sales, records, pending, note);
    }
  }

  // ---------------------------------------------------------------------------
  // Payments
  // ---------------------------------------------------------------------------

  /** Some output of the block pays this unpaid sale, in time, its price plus its code to the zatoshi, while the lister holds the name. */
  ghost predicate PaidBy(s: OpenSale, records: Records, payments: Payments, mtp: Timestamp) {
    && s.phase.Paying? && mtp < s.phase.expiresAt
    && Holds(records, s.name, s.alice)
    && exists p :: p in payments && p.0 == s.phase.payTo && p.1 == s.phase.price + s.phase.code
  }

  lemma PaidIff(s: OpenSale, records: Records, payments: Payments, mtp: Timestamp)
    ensures Matches(s, records, payments, mtp) <==> PaidBy(s, records, payments, mtp)
  {
    if s.phase.Paying? {
      assert (s.phase.payTo, s.phase.price + s.phase.code) in payments <==>
        exists p :: p in payments && p.0 == s.phase.payTo && p.1 == s.phase.price + s.phase.code;
    }
  }

  /** Exactly the sales some output pays become paid; their place, their terms and everything else stand. */
  lemma ObserveLaw(b: Book, records: Records, payments: Payments, mtp: Timestamp)
    requires BookInv(b)
    ensures var after := Observe(b, records, payments, mtp).book;
      && after.listings == b.listings && after.challenges == b.challenges && |after.sales| == |b.sales|
      && forall i | 0 <= i < |b.sales| ::
           after.sales[i] == if PaidBy(b.sales[i], records, payments, mtp) then b.sales[i].(phase := Paid) else b.sales[i]
  {
    forall i | 0 <= i < |b.sales|
      ensures Observe(b, records, payments, mtp).book.sales[i] ==
        if PaidBy(b.sales[i], records, payments, mtp) then b.sales[i].(phase := Paid) else b.sales[i]
    {
      PaymentsMatchExactly(b, records, payments, mtp, i);
      PaidIff(b.sales[i], records, payments, mtp);
    }
  }

  // ---------------------------------------------------------------------------
  // Buys
  // ---------------------------------------------------------------------------

  /** What an ask demands at a height: the flat price, or the clock's, falling evenly from `start` to `end`. */
  ghost predicate Asks(ask: Ask, height: Height, price: Zatoshis, dutch: bool) {
    match ask
    case Flat(p) => price == p && !dutch
    case Dutch(c) =>
      && dutch && c.start < c.end && c.minPrice < c.startPrice && c.start <= height <= c.end
      && price == c.startPrice - (c.startPrice - c.minPrice) * (height - c.start) / (c.end - c.start)
  }

  /** The name's term or its liveness ran out. */
  ghost predicate Due(record: NameRecord, mtp: Timestamp) {
    (record.expiresAt.At? && mtp >= record.expiresAt.time) || mtp >= record.releaseDeadline
  }

  /** Everything a buy at this price asks of the listing, the record and the other sales. */
  ghost predicate MayBuy(b: Book, records: Records, name: Name, feeOk: bool, pending: bool, code: OtpCode,
                         mtp: Timestamp, height: Height, price: Zatoshis, dutch: bool)
  {
    && feeOk && !pending && name in records && !Due(records[name], mtp)
    && (forall s | s in b.sales :: s.name != name)
    && name in b.listings
    && var l := b.listings[name];
    && l.ua == records[name].ua && l.ua.transparent == Some(l.payTo) && Asks(l.ask, height, price, dutch)
    && forall s | s in b.sales && s.phase.Paying? && s.phase.payTo == l.payTo :: s.phase.price + s.phase.code != price + code
  }

  lemma AskedOnce(ask: Ask, height: Height, p: Zatoshis, d: bool, q: Zatoshis, e: bool)
    requires Asks(ask, height, p, d) && Asks(ask, height, q, e)
    ensures p == q && d == e
  {
  }

  lemma QuotedIsAsked(b: Book, name: Name, owner: UnifiedAddress, height: Height, price: Zatoshis, dutch: bool)
    ensures name in b.listings ==>
      var l := b.listings[name];
      ListedQuote(b, name, owner, height) == Quoted(l.payTo, price, dutch) <==>
        l.ua == owner && owner.transparent == Some(l.payTo) && Asks(l.ask, height, price, dutch)
    ensures name !in b.listings ==> ListedQuote(b, name, owner, height).Refused?
  {
  }

  lemma MayBuyIff(b: Book, records: Records, name: Name, feeOk: bool, pending: bool, code: OtpCode,
                  mtp: Timestamp, height: Height, price: Zatoshis, dutch: bool)
    ensures MayBuy(b, records, name, feeOk, pending, code, mtp, height, price, dutch) <==>
      && feeOk && name in records
      && var q := QuoteBuy(b, name, records[name].ua, ReleaseDue(records[name], mtp), pending, code, height);
      q.Quoted? && name in b.listings && q == Quoted(b.listings[name].payTo, price, dutch)
  {
    if name in records {
      QuotedIsAsked(b, name, records[name].ua, height, price, dutch);
      assert HasSale(b.sales, name) <==> exists s :: s in b.sales && s.name == name;
      if name in b.listings {
        var payTo := b.listings[name].payTo;
        assert PaymentOpen(b.sales, payTo, price + code) <==>
          exists s :: s in b.sales && s.phase.Paying? && s.phase.payTo == payTo && s.phase.price + s.phase.code == price + code;
      }
    }
  }

  /**
   A buy opens exactly when it may, at the price the listing asks at this height, to the
   lister's own address; it captures the lister, her note and her term, holds the name
   for ten minutes on a clock and thirty otherwise, and closes the name's challenges.
   Otherwise nothing changes.
   */
  lemma BuyLaw(b: Book, records: Records, name: Name, bob: UnifiedAddress, feeOk: bool, pending: bool, code: OtpCode,
               mtp: Timestamp, height: Height)
    ensures var after := Admit(b, records, BuyRequest(name, bob), feeOk, pending, code, mtp, height).book;
      && (forall price, dutch | MayBuy(b, records, name, feeOk, pending, code, mtp, height, price, dutch) ::
            var record, until := records[name], mtp + if dutch then 600 else 1800;
            && after.sales == b.sales + [OpenSale(name, bob, record.ua, record.commitment, record.expiresAt, dutch, until,
                                                  Paying(code, b.listings[name].payTo, price, until, false))]
            && after.listings == b.listings
            && after.challenges == WithoutCodes(b.challenges, set c | c in b.challenges && c.Name() == name :: c.code))
      && ((forall price, dutch :: !MayBuy(b, records, name, feeOk, pending, code, mtp, height, price, dutch)) ==> after == b)
  {
    var after := Admit(b, records, BuyRequest(name, bob), feeOk, pending, code, mtp, height).book;
    forall price, dutch | MayBuy(b, records, name, feeOk, pending, code, mtp, height, price, dutch)
      ensures var record, until := records[name], mtp + if dutch then 600 else 1800;
        && after.sales == b.sales + [OpenSale(name, bob, record.ua, record.commitment, record.expiresAt, dutch, until,
                                              Paying(code, b.listings[name].payTo, price, until, false))]
        && after.listings == b.listings
        && after.challenges == WithoutCodes(b.challenges, set c | c in b.challenges && c.Name() == name :: c.code)
    {
      MayBuyIff(b, records, name, feeOk, pending, code, mtp, height, price, dutch);
      ChallengesOnName(b.challenges, name);
    }
    if name in records && feeOk {
      var q := QuoteBuy(b, name, records[name].ua, ReleaseDue(records[name], mtp), pending, code, height);
      if q.Quoted? {
        assert name in b.listings && q.payTo == b.listings[name].payTo;
        MayBuyIff(b, records, name, feeOk, pending, code, mtp, height, q.price, q.dutch);
      }
    }
  }

  lemma ChallengesOnName(challenges: seq<Challenge>, name: Name)
    ensures WithoutCodes(challenges, ToSet(CodesFor(challenges, name)))
      == WithoutCodes(challenges, set c | c in challenges && c.Name() == name :: c.code)
  {
    var gone := set c | c in challenges && c.Name() == name :: c.code;
    forall c | c in challenges ensures c.code in ToSet(CodesFor(challenges, name)) <==> c.code in gone {
      if c.code in gone {
        var x :| x in challenges && x.Name() == name && x.code == c.code;
        var i :| 0 <= i < |challenges| && challenges[i] == x;
        assert OnName(name)(challenges[i]);
      }
    }
    SameCodesGone(challenges, ToSet(CodesFor(challenges, name)), gone);
  }

  // ---------------------------------------------------------------------------
  // Proposals
  // ---------------------------------------------------------------------------

  /** The ask can still sell at this height. */
  ghost predicate Sellable(ask: Ask, height: Height) {
    ask.Dutch? ==> ask.clock.start < ask.clock.end && ask.clock.minPrice < ask.clock.startPrice && height <= ask.clock.end
  }

  ghost predicate MayPropose(b: Book, name: Name, kind: ChallengeKind, code: OtpCode) {
    && (forall s | s in b.sales :: s.name != name)
    && (forall c | c in b.challenges :: c.kind != kind && c.code != code)
  }

  lemma ProposeIff(b: Book, name: Name, kind: ChallengeKind, code: OtpCode)
    ensures MayPropose(b, name, kind, code) <==>
      !HasSale(b.sales, name) && !SameKindOpen(b, kind) && !HasCode(b.challenges, code)
  {
    assert HasSale(b.sales, name) <==> exists s :: s in b.sales && s.name == name;
    assert SameKindOpen(b, kind) <==> exists c :: c in b.challenges && c.kind == kind;
    assert HasCode(b.challenges, code) <==> exists c :: c in b.challenges && c.code == code;
  }

  /**
   A list memo opens one thirty-minute challenge, with no attempt counted, exactly when
   the holder of a live name that is not due lists it to her own address on terms that
   can still sell, with no order, sale or equal challenge on it and a code not in use.
   */
  lemma ListLaw(b: Book, records: Records, l: Listing, feeOk: bool, pending: bool, code: OtpCode, mtp: Timestamp, height: Height)
    ensures var after := Admit(b, records, ListRequest(l), feeOk, pending, code, mtp, height).book;
      if feeOk && !pending && Holds(records, l.name, l.ua) && l.ua.transparent == Some(l.payTo) && !Due(records[l.name], mtp)
         && Sellable(l.ask, height) && MayPropose(b, l.name, ToList(l), code)
      then after == b.(challenges := b.challenges + [Challenge(ToList(l), code, mtp + 1800, false, 0)])
      else after == b
  {
    ProposeIff(b, l.name, ToList(l), code);
  }

  /** A delist memo opens one challenge exactly when the holder asks, the name is listed and nothing is in its way. */
  lemma DelistLaw(b: Book, records: Records, name: Name, ua: UnifiedAddress, feeOk: bool, pending: bool, code: OtpCode,
                  mtp: Timestamp, height: Height)
    ensures var after := Admit(b, records, DelistRequest(name, ua), feeOk, pending, code, mtp, height).book;
      if feeOk && !pending && Holds(records, name, ua) && name in b.listings && MayPropose(b, name, ToDelist(name, ua), code)
      then after == b.(challenges := b.challenges + [Challenge(ToDelist(name, ua), code, mtp + 1800, false, 0)])
      else after == b
  {
    ProposeIff(b, name, ToDelist(name, ua), code);
  }

  // ---------------------------------------------------------------------------
  // Answers
  // ---------------------------------------------------------------------------

  /** The reply repeats the challenge's code, name, address and verb. */
  ghost predicate Addresses(r: Response, c: Challenge) {
    match c.kind
    case ToDelist(name, ua) => r.verb == DelistVerb && r.name == name && r.ua == ua
    case ToList(l) => r.verb == (if l.ask.Flat? then ListVerb else AuctionVerb) && r.name == l.name && r.ua == l.ua
  }

  /** And its terms: the flat price or the whole clock, with the address to pay. */
  ghost predicate Repeats(r: Response, c: Challenge) {
    && Addresses(r, c) && r.code == c.code
    && match c.kind
       case ToDelist(_, _) => r.listing == None && r.clock == None
       case ToList(l) =>
         if l.ask.Flat? then r.clock == None && r.listing == Some((l.payTo, l.ask.price))
         else r.clock == Some((l.payTo, l.ask.clock))
  }

  lemma RepeatsIff(r: Response, c: Challenge)
    ensures Addresses(r, c) <==> Named(c, r)
    ensures Repeats(r, c) <==> Named(c, r) && c.code == r.code && SameTerms(c, r)
  {
  }

  /** What is listed once a right answer has come for `c`. */
  ghost predicate Performed(b: Book, records: Records, c: Challenge, height: Height, listings: map<Name, Listing>) {
    match c.kind
    case ToList(l) =>
      if Holds(records, l.name, l.ua) && l.ua.transparent == Some(l.payTo) && Sellable(l.ask, height)
         && forall s | s in b.sales :: s.name != l.name
      then listings == b.listings[l.name := l]
      else listings == b.listings
    case ToDelist(name, ua) =>
      if Holds(records, name, ua) && forall s | s in b.sales :: s.name != name
      then listings == b.listings - {name}
      else listings == b.listings
  }

  /**
   A reply that repeats an open challenge word for word spends that challenge and lists
   or delists the name while its controller still holds it and no buy is open; no sale
   and no other challenge changes.
   */
  lemma RightAnswerLaw(b: Book, records: Records, r: Response, height: Height, c: Challenge)
    requires BookInv(b) && c in b.challenges && Repeats(r, c)
    ensures var (e, ok) := Answer(b, records, r, height);
      && ok && e.book.sales == b.sales
      && (forall d :: d in e.book.challenges <==> d in b.challenges && d != c)
      && Performed(b, records, c, height, e.book.listings)
  {
    forall d | d in b.challenges ensures Repeats(r, d) <==> Named(d, r) && d.code == r.code && SameTerms(d, r) {
      RepeatsIff(r, d);
    }
    var found := Answered(b.challenges, r);
    OneCode(b.challenges, found.value, c);
    RightAnswerSpendsOne(b, records, r, height, c);
    assert HasSale(b.sales, c.Name()) <==> exists s :: s in b.sales && s.name == c.Name();
    if c.kind.ToDelist? && c.kind.of !in b.listings { assert b.listings - {c.kind.of} == b.listings; }
  }

  lemma OneCode(challenges: seq<Challenge>, a: Challenge, b: Challenge)
    requires CodesDistinct(challenges) && a in challenges && b in challenges && a.code == b.code
    ensures a == b
  {
    var i :| 0 <= i < |challenges| && challenges[i] == a;
    var j :| 0 <= j < |challenges| && challenges[j] == b;
    assert i == j;
  }

  /**
   Any other reply counts one attempt against each challenge it addresses, and the sixth
   closes it; listings, sales and the other challenges stand.
   */
  lemma WrongAnswerLaw(b: Book, records: Records, r: Response, height: Height)
    requires BookInv(b) && forall c | c in b.challenges :: !Repeats(r, c)
    ensures var (e, ok) := Answer(b, records, r, height);
      && !ok && e.book.sales == b.sales && e.book.listings == b.listings
      && forall d :: d in e.book.challenges <==>
           exists c :: c in b.challenges &&
             if Addresses(r, c) then c.attempts + 1 < 6 && d == c.(attempts := c.attempts + 1) else d == c
  {
    forall c | c in b.challenges ensures !(Named(c, r) && c.code == r.code && SameTerms(c, r)) && (Addresses(r, c) <==> Named(c, r)) {
      RepeatsIff(r, c);
    }
    var after := Answer(b, records, r, height).0.book.challenges;
    var codes := ExhaustedCodes(b.challenges, r);
    WithoutCodesMembers(BumpAll(b.challenges, r), ToSet(codes));
    forall d ensures d in after <==>
      exists c :: c in b.challenges &&
        if Addresses(r, c) then c.attempts + 1 < 6 && d == c.(attempts := c.attempts + 1) else d == c
    {
      if d in after {
        var i :| 0 <= i < |b.challenges| && BumpAll(b.challenges, r)[i] == d;
        var c := b.challenges[i];
        assert c in b.challenges;
        WrongAnswerClosesExhausted(b, records, r, height, c);
        assert Exhausted(c, r) ==> c.code in codes by { ExhaustedMembers(b.challenges, r); }
      }
      if c :| c in b.challenges && if Addresses(r, c) then c.attempts + 1 < 6 && d == c.(attempts := c.attempts + 1) else d == c {
        WrongAnswerClosesExhausted(b, records, r, height, c);
      }
    }
  }

  // ---------------------------------------------------------------------------
  // Relays
  // ---------------------------------------------------------------------------

  /** A code sent out flags the unpaid sale of the name, or the challenge of the code, and nothing else. */
  lemma RelayLaw(b: Book, name: Name, code: OtpCode)
    ensures var after := RelayBuy(b, name);
      && after.listings == b.listings && after.challenges == b.challenges && |after.sales| == |b.sales|
      && forall i | 0 <= i < |b.sales| ::
           after.sales[i] == if b.sales[i].name == name && b.sales[i].phase.Paying?
                             then b.sales[i].(phase := b.sales[i].phase.(relayed := true)) else b.sales[i]
    ensures var after := RelayChallenge(b, code);
      && after.listings == b.listings && after.sales == b.sales && |after.challenges| == |b.challenges|
      && forall i | 0 <= i < |b.challenges| ::
           after.challenges[i] == if b.challenges[i].code == code then b.challenges[i].(relayed := true) else b.challenges[i]
  {
  }
}
