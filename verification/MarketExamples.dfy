/** Runs at which a property fails: a buy opened in three memos, and what later undoes it. */
module MarketExamples {
  import opened Basics
  import opened NameNotes
  import opened Listings
  import opened Registries
  import opened MarketBooks
  import opened MarketRules
  import opened MarketInvariants
  import opened MarketRuns

  // ---------------------------------------------------------------------------
  // A listing, its answer, a buy
  // ---------------------------------------------------------------------------

  /** The live record's owner lists the name at a flat price, to her own transparent receiver. */
  ghost predicate MayShop(records: Records, l: Listing, mtp: Timestamp) {
    && l.name in records && !ReleaseDue(records[l.name], mtp) && l.ask.Flat?
    && IsOwnerListing(records[l.name].ua, l.ua, l.payTo)
  }

  function ListChallenge(l: Listing, code: OtpCode, mtp: Timestamp): Challenge {
    Challenge(ToList(l), code, mtp + D_OTP, false, 0)
  }

  function ListAnswer(l: Listing, code: OtpCode): Response
    requires l.ask.Flat?
  {
    Response(code, l.name, ListVerb, l.ua, Some((l.payTo, l.ask.price)), None)
  }

  function Bought(l: Listing, bob: UnifiedAddress, record: NameRecord, code: OtpCode, mtp: Timestamp): OpenSale
    requires l.ask.Flat?
  {
    NewSale(l.name, bob, record, Quoted(l.payTo, l.ask.price, false), code, mtp)
  }

  function Offered(l: Listing): Book {
    Book(map[l.name := l], [], [])
  }

  lemma ListMemoChallenges(records: Records, l: Listing, code: OtpCode, mtp: Timestamp, height: Height)
    requires MayShop(records, l, mtp)
    ensures Admit(EMPTY_BOOK, records, ListRequest(l), true, false, code, mtp, height)
      == Effect(Book(map[], [], [ListChallenge(l, code, mtp)]), [Challenged(ListChallenge(l, code, mtp))])
  {
    assert !HasSale([], l.name) && !HasCode([], code) && !SameKindOpen(EMPTY_BOOK, ToList(l));
  }

  lemma AnswerLists(records: Records, l: Listing, code: OtpCode, mtp: Timestamp, height: Height)
    requires MayShop(records, l, mtp)
    ensures Answer(Book(map[], [], [ListChallenge(l, code, mtp)]), records, ListAnswer(l, code), height).0
      == Effect(Offered(l), [ChallengeClosed(code), Listed(l)])
  {
    var c := ListChallenge(l, code, mtp);
    assert WithoutCodes([c], {code}) == [] by {
      assert [c][..0] == [];
    }
    assert !HasSale([], l.name);
    assert Answered([c], ListAnswer(l, code)) == Some(c);
    assert map[][l.name := l] == map[l.name := l];
  }

  lemma BuyMemoOpens(records: Records, l: Listing, bob: UnifiedAddress, code: OtpCode, mtp: Timestamp, height: Height)
    requires MayShop(records, l, mtp)
    ensures var sale := Bought(l, bob, records[l.name], code, mtp);
      Admit(Offered(l), records, BuyRequest(l.name, bob), true, false, code, mtp, height)
      == Effect(Offered(l).(sales := [sale]), [Opened(sale)])
  {
    assert !HasSale([], l.name) && !PaymentOpen([], l.payTo, l.ask.price + code);
    assert CodesFor([], l.name) == [] && ChallengeClosings([]) == [];
    assert [] + [Bought(l, bob, records[l.name], code, mtp)] == [Bought(l, bob, records[l.name], code, mtp)];
  }

  // ---------------------------------------------------------------------------
  // A seal after the height ended
  // ---------------------------------------------------------------------------

  /** Lists, answers and buys at height 1; the clock moves to height 2 before the boot seals. */
  function Shop(records: Records, l: Listing, bob: UnifiedAddress): seq<Step>
    requires l.ask.Flat?
  {
    [AdmitStep(records, ListRequest(l), true, false, 11, 0, 1), AnswerStep(records, ListAnswer(l, 11), 1),
     AdmitStep(records, BuyRequest(l.name, bob), true, false, 12, 0, 1)]
  }

  lemma {:induction false} RunStep(steps: seq<Step>, s: Step)
    ensures Run(steps + [s]) == Take(Run(steps), s)
    ensures Legal(steps) && LegalStep(Run(steps), s) ==> Legal(steps + [s])
  {
    assert (steps + [s])[..|steps|] == steps;
  }

  lemma ShopAnswered(records: Records, l: Listing) returns (t: Tracked)
    requires MayShop(records, l, 0)
    ensures var steps := [AdmitStep(records, ListRequest(l), true, false, 11, 0, 1), AnswerStep(records, ListAnswer(l, 11), 1)];
      Legal(steps) && Run(steps) == t && t.height == 1 && t.book == Offered(l) && t.ended.Keys <= {1}
  {
    var ask, reply := AdmitStep(records, ListRequest(l), true, false, 11, 0, 1), AnswerStep(records, ListAnswer(l, 11), 1);
    ListMemoChallenges(records, l, 11, 0, 1);
    AnswerLists(records, l, 11, 0, 1);
    RunStep([], ask);
    RunStep([ask], reply);
    assert [] + [ask] == [ask] && [ask] + [reply] == [ask, reply];
    t := Run([ask, reply]);
  }

  lemma ShopOpens(records: Records, l: Listing, bob: UnifiedAddress)
    requires MayShop(records, l, 0)
    ensures var t, sale := Run(Shop(records, l, bob)), Bought(l, bob, records[l.name], 12, 0);
      && Legal(Shop(records, l, bob)) && t.height == 1 && t.book == Offered(l).(sales := [sale])
      && t.ended == map[1 := PastBook(t.book, false)]
  {
    var steps := Shop(records, l, bob);
    var answered := ShopAnswered(records, l);
    BuyMemoOpens(records, l, bob, 12, 0, 1);
    assert [steps[0], steps[1]] + [steps[2]] == steps;
    RunStep([steps[0], steps[1]], steps[2]);
  }

  /**
   A boot that seals at height 2 loses the flag of a buy opened at height 1: rolled
   back to height 1, the buy reads as relayed, which it was not.
   */
  lemma SealLosesFlags(records: Records, l: Listing, bob: UnifiedAddress) returns (steps: seq<Step>)
    requires MayShop(records, l, 0)
    ensures Legal(steps) && Run(steps).height == 2
    ensures var past, back := LatestAt(Run(steps).ended, 1, UNTOUCHED), Take(Run(steps), RewindStep(1)).book;
      Sim(past.book, back, false) && !Sim(past.book, back, true)
  {
    var shop := Shop(records, l, bob);
    ShopOpens(records, l, bob);
    RunStep(shop, ExpireStep(0, 2));
    var later := shop + [ExpireStep(0, 2)];
    steps := later + [SealStep(2)];
    RunStep(later, SealStep(2));
    var past := PastBook(Run(shop).book, true);
    assert Run(steps).ended[1] == past && IsLatest(Run(steps).ended, 1, 1);
    assert !past.book.sales[0].phase.relayed && past.book.sales[0].phase.Paying?;
    RollbackRestoresHeight(steps, 1);
  }
}
