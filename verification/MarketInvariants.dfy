/**
 What every market operation keeps: the uniqueness invariants of the book, and
 the agreement between the book it leaves and the events it logs.
 */
module MarketInvariants {
  import opened Basics
  import opened NameNotes
  import opened Listings
  import opened Registries
  import opened MarketBooks
  import opened MarketRules

  ghost predicate OneSalePerName(sales: seq<OpenSale>) {
    forall i, j | 0 <= i < j < |sales| :: sales[i].name != sales[j].name
  }

  /** No two unpaid sales ask the same total of the same address. */
  ghost predicate TotalsDistinct(sales: seq<OpenSale>) {
    forall i, j | 0 <= i < j < |sales| ::
      sales[i].phase.Paying? && sales[j].phase.Paying? && sales[i].phase.payTo == sales[j].phase.payTo ==>
        Total(sales[i].phase) != Total(sales[j].phase)
  }

  ghost predicate CodesDistinct(challenges: seq<Challenge>) {
    forall i, j | 0 <= i < j < |challenges| :: challenges[i].code != challenges[j].code
  }

  /** A buy holds its name: no controller challenge is open on it. */
  ghost predicate BuysHold(sales: seq<OpenSale>, challenges: seq<Challenge>) {
    forall i, j | 0 <= i < |sales| && 0 <= j < |challenges| :: sales[i].name != challenges[j].Name()
  }

  ghost predicate BookInv(b: Book) {
    && OneSalePerName(b.sales)
    && TotalsDistinct(b.sales)
    && CodesDistinct(b.challenges)
    && BuysHold(b.sales, b.challenges)
    && forall n | n in b.listings :: b.listings[n].name == n
  }

  /** The new book is what the logged events make of the old one, up to flags and counters. */
  ghost predicate Logged(b: Book, e: Effect) {
    Sim(e.book, ApplyAll(b, e.events), true)
  }

  // ---------------------------------------------------------------------------
  // Removal keeps the invariant
  // ---------------------------------------------------------------------------

  lemma {:induction false} WithoutNamesMembers(sales: seq<OpenSale>, gone: set<Name>)
    ensures forall s :: s in WithoutNames(sales, gone) <==> s in sales && s.name !in gone
  {
    if sales != [] {
      var n := |sales| - 1;
      assert sales == sales[..n] + [sales[n]];
      WithoutNamesMembers(sales[..n], gone);
    }
  }

  lemma {:induction false} WithoutCodesMembers(challenges: seq<Challenge>, gone: set<OtpCode>)
    ensures forall c :: c in WithoutCodes(challenges, gone) <==> c in challenges && c.code !in gone
  {
    if challenges != [] {
      var n := |challenges| - 1;
      assert challenges == challenges[..n] + [challenges[n]];
      WithoutCodesMembers(challenges[..n], gone);
    }
  }

  lemma {:induction false} WithoutNamesKeeps(sales: seq<OpenSale>, gone: set<Name>)
    requires OneSalePerName(sales) && TotalsDistinct(sales)
    ensures OneSalePerName(WithoutNames(sales, gone)) && TotalsDistinct(WithoutNames(sales, gone))
  {
    if sales != [] {
      var n := |sales| - 1;
      WithoutNamesKeeps(sales[..n], gone);
      WithoutNamesMembers(sales[..n], gone);
      var rest := WithoutNames(sales[..n], gone);
      forall s | s in rest ensures Apart(s, sales[n]) {
        var k :| 0 <= k < n && sales[..n][k] == s;
        assert sales[k] == s;
      }
      SnocKeeps(rest, sales[n]);
    }
  }

  predicate Apart(a: OpenSale, b: OpenSale) {
    && a.name != b.name
    && (a.phase.Paying? && b.phase.Paying? && a.phase.payTo == b.phase.payTo ==> Total(a.phase) != Total(b.phase))
  }

  lemma SnocKeeps(sales: seq<OpenSale>, last: OpenSale)
    requires OneSalePerName(sales) && TotalsDistinct(sales) && forall s | s in sales :: Apart(s, last)
    ensures OneSalePerName(sales + [last]) && TotalsDistinct(sales + [last])
  {
    forall i, j | 0 <= i < j < |sales + [last]| ensures Apart((sales + [last])[i], (sales + [last])[j]) {
      assert sales[i] in sales;
    }
  }

  lemma {:induction false} WithoutCodesKeeps(challenges: seq<Challenge>, gone: set<OtpCode>)
    requires CodesDistinct(challenges)
    ensures CodesDistinct(WithoutCodes(challenges, gone))
  {
    if challenges != [] {
      var n := |challenges| - 1;
      WithoutCodesKeeps(challenges[..n], gone);
      WithoutCodesMembers(challenges[..n], gone);
      var rest := WithoutCodes(challenges[..n], gone);
      forall i | 0 <= i < |rest|
        ensures exists k | 0 <= k < n :: rest[i] == challenges[k]
      {
        assert rest[i] in challenges[..n];
      }
    }
  }

  lemma RemovalKeepsInv(b: Book, listings: set<Name>, names: set<Name>, codes: set<OtpCode>)
    requires BookInv(b)
    ensures BookInv(Book(b.listings - listings, WithoutNames(b.sales, names), WithoutCodes(b.challenges, codes)))
  {
    WithoutNamesKeeps(b.sales, names);
    WithoutCodesKeeps(b.challenges, codes);
    WithoutNamesMembers(b.sales, names);
    WithoutCodesMembers(b.challenges, codes);
    var sales, challenges := WithoutNames(b.sales, names), WithoutCodes(b.challenges, codes);
    forall i, j | 0 <= i < |sales| && 0 <= j < |challenges|
      ensures sales[i].name != challenges[j].Name()
    {
      assert sales[i] in b.sales && challenges[j] in b.challenges;
    }
  }

  lemma SimSelf(b: Book)
    ensures Sim(b, b, true)
  {
  }

  /** A batch of removals in any fixed order of kinds. */
  lemma RemovalLogged(b: Book, listed: seq<Name>, names: seq<Name>, codes: seq<OtpCode>, closings: seq<Event>)
    requires closings == Closings(names) || closings == Lapses(names)
    ensures var after := Book(b.listings - ToSet(listed), WithoutNames(b.sales, ToSet(names)),
                              WithoutCodes(b.challenges, ToSet(codes)));
      && ApplyAll(b, Delistings(listed) + closings + ChallengeClosings(codes)) == after
      && ApplyAll(b, Delistings(listed) + ChallengeClosings(codes) + closings) == after
  {
    var b1 := ApplyAll(b, Delistings(listed));
    ApplyDelistings(b, listed);
    ApplyAllConcat(b, Delistings(listed), closings);
    ApplyClosings(b1, closings, names);
    ApplyAllConcat(b, Delistings(listed) + closings, ChallengeClosings(codes));
    ApplyChallengeClosings(ApplyAll(b1, closings), codes);
    ApplyAllConcat(b, Delistings(listed), ChallengeClosings(codes));
    ApplyChallengeClosings(b1, codes);
    ApplyAllConcat(b, Delistings(listed) + ChallengeClosings(codes), closings);
    ApplyClosings(ApplyAll(b1, ChallengeClosings(codes)), closings, names);
  }

  lemma ExpireOk(b: Book, mtp: Timestamp, height: Height)
    requires BookInv(b)
    ensures BookInv(Expire(b, mtp, height).book) && Logged(b, Expire(b, mtp, height))
  {
    var clocks := FinishedClocks(b.listings, height);
    var lapsed := LapsedNames(b.sales, mtp);
    var codes := ExpiredCodes(b.challenges, mtp);
    RemovalLogged(b, clocks, lapsed, codes, Lapses(lapsed));
    RemovalKeepsInv(b, ToSet(clocks), ToSet(lapsed), ToSet(codes));
    SimSelf(Expire(b, mtp, height).book);
  }

  lemma ReconcileOk(b: Book, records: Records)
    requires BookInv(b)
    ensures BookInv(Reconcile(b, records).book) && Logged(b, Reconcile(b, records))
  {
    var lost := LostListings(b.listings, records);
    var stale := StaleCodes(b.challenges, records);
    var moved := MovedNames(b.sales, records);
    RemovalLogged(b, lost, moved, stale, Closings(moved));
    RemovalKeepsInv(b, ToSet(lost), ToSet(moved), ToSet(stale));
    SimSelf(Reconcile(b, records).book);
  }

  lemma PollOk(b: Book, records: Records, pending: set<Name>)
    requires BookInv(b)
    ensures BookInv(Poll(b, records, pending).book) && Logged(b, Poll(b, records, pending))
  {
    var over := OverNames(b.sales, records, pending);
    ApplyClosings(b, Closings(over), over);
    RemovalKeepsInv(b, {}, ToSet(over), {});
    WithoutNoCodes(b.challenges);
    assert b.listings - {} == b.listings;
    SimSelf(Poll(b, records, pending).book);
  }

  lemma ObserveOk(b: Book, records: Records, payments: Payments, mtp: Timestamp)
    requires BookInv(b)
    ensures BookInv(Observe(b, records, payments, mtp).book) && Logged(b, Observe(b, records, payments, mtp))
  {
    ApplySettlements(b, PaidPairs(b.sales, records, payments, mtp));
    SimSelf(Observe(b, records, payments, mtp).book);
  }

  /**
   Payment matching is exact: in a book whose unpaid totals are distinct, a sale
   becomes paid iff some output pays it in time while the lister holds the name,
   nothing else about it changes, and no output settles two sales.
   */
  lemma PaymentsMatchExactly(b: Book, records: Records, payments: Payments, mtp: Timestamp, i: nat)
    requires BookInv(b) && i < |b.sales|
    ensures var after := Observe(b, records, payments, mtp).book.sales;
      && |after| == |b.sales|
      && after[i] == if Matches(b.sales[i], records, payments, mtp) then b.sales[i].(phase := Paid) else b.sales[i]
    ensures forall j | 0 <= j < |b.sales| && j != i && b.sales[i].phase.Paying? && b.sales[j].phase.Paying? ::
      (b.sales[i].phase.payTo, Total(b.sales[i].phase)) != (b.sales[j].phase.payTo, Total(b.sales[j].phase))
  {
    var paid := PaidPairs(b.sales, records, payments, mtp);
    var s := b.sales[i];
    if s.phase.Paying? && (s.name, s.phase.code) in paid {
      var k :| 0 <= k < |b.sales| && Matches(b.sales[k], records, payments, mtp) &&
               (s.name, s.phase.code) == (b.sales[k].name, b.sales[k].phase.code);
      assert k == i;
    }
  }

  // ---------------------------------------------------------------------------
  // Requests
  // ---------------------------------------------------------------------------

  lemma NothingLogged(b: Book)
    ensures Logged(b, Effect(b, []))
  {
    SimSelf(b);
  }

  lemma PushChallengeOk(b: Book, c: Challenge)
    requires BookInv(b) && !HasCode(b.challenges, c.code) && !HasSale(b.sales, c.Name())
    ensures BookInv(PushChallenge(b, c).book) && Logged(b, PushChallenge(b, c))
  {
    var e := PushChallenge(b, c);
    assert e.events[..0] == [];
    assert ApplyAll(b, e.events) == Apply(b, Challenged(c));
    SimSelf(e.book);
  }

  lemma OpenBuyOk(b: Book, s: OpenSale)
    requires BookInv(b) && s.phase.Paying? && !HasSale(b.sales, s.name)
    requires !PaymentOpen(b.sales, s.phase.payTo, Total(s.phase))
    ensures BookInv(OpenBuy(b, s).book) && Logged(b, OpenBuy(b, s))
  {
    var codes := CodesFor(b.challenges, s.name);
    var b1 := b.(sales := b.sales + [s]);
    assert [Opened(s)][..0] == [];
    assert ApplyAll(b, [Opened(s)]) == b1;
    ApplyAllConcat(b, [Opened(s)], ChallengeClosings(codes));
    ApplyChallengeClosings(b1, codes);
    SimSelf(OpenBuy(b, s).book);
    WithoutCodesKeeps(b.challenges, ToSet(codes));
    WithoutCodesMembers(b.challenges, ToSet(codes));
    var left := WithoutCodes(b.challenges, ToSet(codes));
    forall i, j | 0 <= i < |b1.sales| && 0 <= j < |left|
      ensures b1.sales[i].name != left[j].Name()
    {
      assert left[j] in b.challenges && left[j].code !in codes;
    }
  }

  lemma AdmitOk(b: Book, records: Records, request: Request, feeOk: bool, pending: bool,
                code: OtpCode, mtp: Timestamp, height: Height)
    requires BookInv(b)
    ensures var e := Admit(b, records, request, feeOk, pending, code, mtp, height); BookInv(e.book) && Logged(b, e)
  {
    NothingLogged(b);
    match request
    case ListRequest(l) =>
      if !HasCode(b.challenges, code) && !HasSale(b.sales, l.name) {
        PushChallengeOk(b, Challenge(ToList(l), code, mtp + D_OTP, false, 0));
      }
    case DelistRequest(name, ua) =>
      if !HasCode(b.challenges, code) && !HasSale(b.sales, name) {
        PushChallengeOk(b, Challenge(ToDelist(name, ua), code, mtp + D_OTP, false, 0));
      }
    case BuyRequest(name, bob) =>
      if name in records {
        var record := records[name];
        var q := QuoteBuy(b, name, record.ua, ReleaseDue(record, mtp), pending, code, height);
        if q.Quoted? {
          OpenBuyOk(b, NewSale(name, bob, record, q, code, mtp));
        }
      }
  }

  // ---------------------------------------------------------------------------
  // Answers
  // ---------------------------------------------------------------------------

  lemma PerformOk(b: Book, records: Records, kind: ChallengeKind, height: Height)
    requires BookInv(b)
    ensures BookInv(Perform(b, records, kind, height).book)
    ensures Perform(b, records, kind, height).book == ApplyAll(b, Perform(b, records, kind, height).events)
  {
    var e := Perform(b, records, kind, height);
    if e.events != [] {
      assert e.events[..0] == [];
    }
  }

  lemma {:induction false} BumpedSurvivors(challenges: seq<Challenge>, r: Response, gone: set<OtpCode>)
    ensures ChallengesSim(WithoutCodes(BumpAll(challenges, r), gone), WithoutCodes(challenges, gone), true)
  {
    if challenges != [] {
      var n := |challenges| - 1;
      assert BumpAll(challenges, r)[..n] == BumpAll(challenges[..n], r);
      BumpedSurvivors(challenges[..n], r, gone);
    }
  }

  lemma AnswerOk(b: Book, records: Records, r: Response, height: Height)
    requires BookInv(b)
    ensures var e := Answer(b, records, r, height).0; BookInv(e.book) && Logged(b, e)
  {
    match Answered(b.challenges, r)
    case Some(c) =>
      var closed := b.(challenges := WithoutCodes(b.challenges, {c.code}));
      RemovalKeepsInv(b, {}, {}, {c.code});
      WithoutNoNames(b.sales);
      assert b.listings - {} == b.listings;
      PerformOk(closed, records, c.kind, height);
      var done := Perform(closed, records, c.kind, height);
      assert [ChallengeClosed(c.code)][..0] == [];
      assert ApplyAll(b, [ChallengeClosed(c.code)]) == closed;
      ApplyAllConcat(b, [ChallengeClosed(c.code)], done.events);
      SimSelf(done.book);
    case None =>
      var codes := ExhaustedCodes(b.challenges, r);
      ApplyChallengeClosings(b, codes);
      BumpedSurvivors(b.challenges, r, ToSet(codes));
      RemovalKeepsInv(b, {}, {}, ToSet(codes));
      WithoutNoNames(b.sales);
      assert b.listings - {} == b.listings;
      var after := Answer(b, records, r, height).0.book;
      var plain := b.(challenges := WithoutCodes(b.challenges, ToSet(codes)));
      assert Sim(after, plain, true);
      InvOfSim(after, plain, true);
  }

  /** The invariant does not look at flags and counters. */
  lemma InvOfSim(l: Book, r: Book, strict: bool)
    requires Sim(l, r, strict) && BookInv(r)
    ensures BookInv(l)
  {
    assert forall i | 0 <= i < |l.sales| :: SaleSim(l.sales[i], r.sales[i], strict);
    assert forall i | 0 <= i < |l.challenges| :: ChallengeSim(l.challenges[i], r.challenges[i], strict);
    assert forall i | 0 <= i < |l.challenges| :: l.challenges[i].Name() == r.challenges[i].Name();
  }

  lemma {:induction false} ExhaustedMembers(challenges: seq<Challenge>, r: Response)
    ensures forall code :: code in ExhaustedCodes(challenges, r) <==>
      exists i | 0 <= i < |challenges| :: Exhausted(challenges[i], r) && challenges[i].code == code
  {
    if challenges != [] {
      ExhaustedMembers(challenges[..|challenges| - 1], r);
    }
  }

  /** A wrong answer closes exactly the named challenges that ran out of attempts, and leaves the others in order. */
  lemma WrongAnswerClosesExhausted(b: Book, records: Records, r: Response, height: Height, c: Challenge)
    requires BookInv(b) && c in b.challenges && Answered(b.challenges, r).None?
    ensures var after := Answer(b, records, r, height).0.book;
      if Exhausted(c, r) then !HasCode(after.challenges, c.code)
      else Bump(c, r) in after.challenges
  {
    var codes := ExhaustedCodes(b.challenges, r);
    ExhaustedMembers(b.challenges, r);
    WithoutCodesMembers(BumpAll(b.challenges, r), ToSet(codes));
    var i :| 0 <= i < |b.challenges| && b.challenges[i] == c;
    assert BumpAll(b.challenges, r)[i] == Bump(c, r);
    if c.code in codes {
      var k :| 0 <= k < |b.challenges| && Exhausted(b.challenges[k], r) && b.challenges[k].code == c.code;
      assert k == i;
    }
  }

  /** A right answer spends exactly its own challenge. */
  lemma RightAnswerSpendsOne(b: Book, records: Records, r: Response, height: Height, c: Challenge)
    requires BookInv(b) && Answered(b.challenges, r) == Some(c)
    ensures var (e, ok) := Answer(b, records, r, height);
      && ok
      && (forall d :: d in e.book.challenges <==> d in b.challenges && d != c)
      && e.book.sales == b.sales
      && (forall n | n != r.name :: n in e.book.listings <==> n in b.listings)
      && (forall n | n != r.name && n in b.listings :: e.book.listings[n] == b.listings[n])
  {
    WithoutCodesMembers(b.challenges, {c.code});
    forall d | d in b.challenges && d.code == c.code
      ensures d == c
    {
      var i :| 0 <= i < |b.challenges| && b.challenges[i] == d;
      var k :| 0 <= k < |b.challenges| && b.challenges[k] == c;
      assert i == k;
    }
  }
}
