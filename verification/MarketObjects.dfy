/**
 The market as the mint holds it: sales, challenges and the event log mutated in
 place, and the listings kept by the registry. Each method is proved against its
 rule.
 */
module MarketObjects {
  import opened Basics
  import opened NameNotes
  import opened Listings
  import opened Registries
  import opened MarketBooks
  import opened MarketRules
  import opened MarketInvariants
  import opened RegistryObjects
  import opened MarketRuns

  // ---------------------------------------------------------------------------
  // Retaining
  // ---------------------------------------------------------------------------

  lemma {:induction false} WithoutFresh(sales: seq<OpenSale>, gone: set<Name>, more: set<Name>)
    requires forall s | s in sales :: s.name !in more
    ensures WithoutNames(sales, gone + more) == WithoutNames(sales, gone)
  {
    if sales != [] {
      var n := |sales| - 1;
      assert sales[n] in sales;
      WithoutFresh(sales[..n], gone, more);
    }
  }

  /** Keeps the sales `drop` does not pick, and names the others in order. */
  method RetainSales(sales: seq<OpenSale>, drop: OpenSale -> bool) returns (kept: seq<OpenSale>, dropped: seq<Name>)
    requires OneSalePerName(sales)
    ensures dropped == NamesWhere(sales, drop)
    ensures kept == WithoutNames(sales, ToSet(dropped))
  {
    kept, dropped := [], [];
    for i := 0 to |sales|
      invariant dropped == NamesWhere(sales[..i], drop)
      invariant kept == WithoutNames(sales[..i], ToSet(dropped))
    {
      assert sales[..i + 1][..i] == sales[..i];
      assert forall s | s in sales[..i] :: s.name != sales[i].name;
      if drop(sales[i]) {
        WithoutFresh(sales[..i], ToSet(dropped), {sales[i].name});
        assert ToSet(dropped + [sales[i].name]) == ToSet(dropped) + {sales[i].name};
        dropped := dropped + [sales[i].name];
      } else {
        kept := kept + [sales[i]];
      }
    }
    assert sales[..|sales|] == sales;
  }

  /** The codes of the challenges `pick` picks, in order. */
  method CollectCodes(challenges: seq<Challenge>, pick: Challenge -> bool) returns (codes: seq<OtpCode>)
    ensures codes == CodesWhere(challenges, pick)
  {
    codes := [];
    for i := 0 to |challenges|
      invariant codes == CodesWhere(challenges[..i], pick)
    {
      assert challenges[..i + 1][..i] == challenges[..i];
      if pick(challenges[i]) {
        codes := codes + [challenges[i].code];
      }
    }
    assert challenges[..|challenges|] == challenges;
  }

  lemma StampConcat(height: Height, a: seq<Event>, b: seq<Event>)
    ensures Stamp(height, a + b) == Stamp(height, a) + Stamp(height, b)
  {
  }

  lemma StampThree(log: seq<Stamped>, height: Height, a: seq<Event>, b: seq<Event>, c: seq<Event>)
    ensures log + Stamp(height, a) + Stamp(height, b) + Stamp(height, c) == log + Stamp(height, a + b + c)
  {
    StampConcat(height, a, b);
    StampConcat(height, a + b, c);
  }

  /** Every closed code belongs to a challenge at or after position `i`. */
  ghost predicate ClosedFrom(challenges: seq<Challenge>, i: nat, codes: seq<OtpCode>) {
    forall code | code in codes :: exists k | i <= k < |challenges| :: challenges[k].code == code
  }

  lemma ClosedFromStep(challenges: seq<Challenge>, i: nat, codes: seq<OtpCode>, more: seq<OtpCode>)
    requires i < |challenges| && ClosedFrom(challenges, i + 1, codes)
    requires more == [] || more == [challenges[i].code]
    ensures ClosedFrom(challenges, i, codes + more)
  {
  }

  lemma StampClosings(height: Height, a: seq<OtpCode>, b: seq<OtpCode>)
    ensures Stamp(height, ChallengeClosings(a + b)) == Stamp(height, ChallengeClosings(a)) + Stamp(height, ChallengeClosings(b))
  {
    assert ChallengeClosings(a + b) == ChallengeClosings(a) + ChallengeClosings(b);
    StampConcat(height, ChallengeClosings(a), ChallengeClosings(b));
  }

  /** What is exhausted up to `i`, once the challenge at `i` is counted. */
  lemma ExhaustedStep(before: seq<Challenge>, r: Response, i: nat, done: seq<OtpCode>, closed: seq<OtpCode>)
    requires i < |before| && closed == if Exhausted(before[i], r) then [before[i].code] else []
    ensures done + ExhaustedCodes(before[..i + 1], r) == done + closed + ExhaustedCodes(before[..i], r)
  {
    assert before[..i + 1][..i] == before[..i];
  }

  lemma AllCounted(before: seq<Challenge>, bumped: seq<Challenge>, r: Response, done: seq<OtpCode>)
    requires done + ExhaustedCodes(before[..0], r) == ExhaustedCodes(before, r)
    ensures done == ExhaustedCodes(before, r)
    ensures before[..0] + WithoutCodes(bumped[0..], ToSet(done)) == WithoutCodes(bumped, ToSet(done))
  {
    assert before[..0] == [] && bumped[0..] == bumped;
    assert ExhaustedCodes([], r) == [];
  }

  class Market {
    var sales: seq<OpenSale>
    var challenges: seq<Challenge>
    var events: seq<Stamped>

    ghost function View(registry: Registry): Book
      reads this, registry
    {
      Book(registry.listings, sales, challenges)
    }

    /** The book and the log after an effect at `height`. */
    ghost predicate Did(registry: Registry, e: Effect, before: seq<Stamped>, height: Height)
      reads this, registry
    {
      View(registry) == e.book && events == before + Stamp(height, e.events)
    }

    constructor ()
      ensures sales == [] && challenges == [] && events == []
    {
      sales, challenges, events := [], [], [];
    }

    // -------------------------------------------------------------------------
    // Challenges
    // -------------------------------------------------------------------------

    method DropChallenge(code: OtpCode)
      modifies this`challenges
      ensures challenges == WithoutCodes(old(challenges), {code})
    {
      var kept := [];
      for i := 0 to |challenges|
        invariant kept == WithoutCodes(challenges[..i], {code})
      {
        assert challenges[..i + 1][..i] == challenges[..i];
        if challenges[i].code != code {
          kept := kept + [challenges[i]];
        }
      }
      assert challenges[..|challenges|] == challenges;
      challenges := kept;
    }

    method CloseChallenges(codes: seq<OtpCode>, height: Height)
      modifies this`challenges, this`events
      ensures challenges == WithoutCodes(old(challenges), ToSet(codes))
      ensures events == old(events) + Stamp(height, ChallengeClosings(codes))
    {
      WithoutNoCodes(challenges);
      assert ToSet(codes[..0]) == {} && Stamp(height, ChallengeClosings(codes[..0])) == [];
      for i := 0 to |codes|
        invariant challenges == WithoutCodes(old(challenges), ToSet(codes[..i]))
        invariant events == old(events) + Stamp(height, ChallengeClosings(codes[..i]))
      {
        WithoutCodesUnion(old(challenges), ToSet(codes[..i]), {codes[i]});
        assert codes[..i + 1] == codes[..i] + [codes[i]];
        assert ToSet(codes[..i + 1]) == ToSet(codes[..i]) + {codes[i]};
        DropChallenge(codes[i]);
        events := events + [Stamped(height, ChallengeClosed(codes[i]))];
      }
      assert codes[..|codes|] == codes;
    }

    // -------------------------------------------------------------------------
    // Expiry, reconciliation, polling
    // -------------------------------------------------------------------------

    method DropSales(drop: OpenSale -> bool) returns (names: seq<Name>)
      requires OneSalePerName(sales)
      modifies this`sales
      ensures names == NamesWhere(old(sales), drop)
      ensures sales == WithoutNames(old(sales), ToSet(names))
    {
      var kept, dropped := RetainSales(sales, drop);
      sales := kept;
      names := dropped;
    }

    method DropCodes(pick: Challenge -> bool, height: Height) returns (codes: seq<OtpCode>)
      modifies this`challenges, this`events
      ensures codes == CodesWhere(old(challenges), pick)
      ensures challenges == WithoutCodes(old(challenges), ToSet(codes))
      ensures events == old(events) + Stamp(height, ChallengeClosings(codes))
    {
      codes := CollectCodes(challenges, pick);
      CloseChallenges(codes, height);
    }

    /** Clock listings past their end, unpaid sales and challenges past their time leave, in that order. */
    method ExpireAll(registry: Registry, mtp: Timestamp, height: Height)
      requires OneSalePerName(sales)
      modifies this, registry`listings
      ensures Did(registry, Expire(old(View(registry)), mtp, height), old(events), height)
    {
      var clocks := registry.FinishClocks(height);
      var lapsed := DropSales(LapsedBy(mtp));
      events := events + Stamp(height, Delistings(clocks)) + Stamp(height, Lapses(lapsed));
      var codes := DropCodes(ExpiredBy(mtp), height);
      StampThree(old(events), height, Delistings(clocks), Lapses(lapsed), ChallengeClosings(codes));
    }

    /** What the registry no longer supports leaves: listings, challenges, sales. */
    method ReconcileAll(registry: Registry, height: Height)
      requires OneSalePerName(sales)
      modifies this, registry`listings
      ensures Did(registry, Reconcile(old(View(registry)), registry.records), old(events), height)
    {
      var lost := registry.ReconcileListings();
      events := events + Stamp(height, Delistings(lost));
      var stale := DropCodes(StaleUnder(registry.records), height);
      var moved := DropSales(MovedFrom(registry.records));
      events := events + Stamp(height, Closings(moved));
      StampThree(old(events), height, Delistings(lost), ChallengeClosings(stale), Closings(moved));
    }

    method PollAll(registry: Registry, pending: set<Name>, height: Height) returns (notes: seq<NameNote>)
      requires OneSalePerName(sales)
      modifies this`sales, this`events
      ensures Did(registry, Poll(old(View(registry)), registry.records, pending), old(events), height)
      ensures notes == OwedNotes(old(sales), registry.records, pending)
    {
      notes := [];
      for i := 0 to |sales|
        invariant notes == OwedNotes(sales[..i], registry.records, pending)
      {
        assert sales[..i + 1][..i] == sales[..i];
        if Signable(sales[i], pending) && !SaleOver(sales[i], registry.records) {
          notes := notes + [SaleNote(sales[i].name, sales[i].bob, sales[i].term, registry.records[sales[i].name].commitment)];
        }
      }
      assert sales[..|sales|] == sales;
      var kept, over := RetainSales(sales, OverUnder(registry.records, pending));
      sales := kept;
      events := events + Stamp(height, Closings(over));
    }

    // -------------------------------------------------------------------------
    // Payments: the greedy match
    // -------------------------------------------------------------------------

    /** The first output not used yet that pays `total` to `payTo`, or the number of outputs. */
    static method FindPayment(payments: Payments, used: seq<bool>, payTo: TransparentAddress, total: Zatoshis)
      returns (index: nat)
      requires |used| == |payments|
      ensures index <= |payments|
      ensures index < |payments| ==> !used[index] && payments[index] == (payTo, total)
      ensures index == |payments| ==> forall j | 0 <= j < |payments| && payments[j] == (payTo, total) :: used[j]
    {
      index := 0;
      while index < |payments|
        invariant index <= |payments|
        invariant forall j | 0 <= j < index && payments[j] == (payTo, total) :: used[j]
      {
        if !used[index] && payments[index] == (payTo, total) {
          return;
        }
        index := index + 1;
      }
    }

    /** Each output settles at most one sale; the greedy choice is the exact match because totals are distinct. */
    method ObserveAll(registry: Registry, payments: Payments, mtp: Timestamp, height: Height)
      requires BookInv(View(registry))
      modifies this`sales, this`events
      ensures Did(registry, Observe(old(View(registry)), registry.records, payments, mtp), old(events), height)
    {
      var used := seq(|payments|, _ => false);
      var paid: seq<(Name, OtpCode)> := [];
      ghost var before := sales;
      for i := 0 to |sales|
        invariant |sales| == |before| && |used| == |payments| && events == old(events)
        invariant forall k | i <= k < |sales| :: sales[k] == before[k]
        invariant forall k | 0 <= k < i ::
          sales[k] == (if Matches(before[k], registry.records, payments, mtp) then before[k].(phase := Paid) else before[k])
        invariant paid == PaidPairs(before[..i], registry.records, payments, mtp)
        invariant forall j | 0 <= j < |payments| && used[j] :: exists k | 0 <= k < i ::
          before[k].phase.Paying? && payments[j] == (before[k].phase.payTo, Total(before[k].phase))
      {
        assert before[..i + 1][..i] == before[..i];
        var s := sales[i];
        if s.phase.Paying? && mtp < s.phase.expiresAt && HeldBy(registry.records, s.name, s.alice) {
          var index := FindPayment(payments, used, s.phase.payTo, Total(s.phase));
          if index < |payments| {
            assert payments[index] in payments;
            used := used[index := true];
            sales := sales[i := s.(phase := Paid)];
            paid := paid + [(s.name, s.phase.code)];
          } else {
            NoSharedTotal(before, payments, used, i);
          }
        }
      }
      assert before[..|before|] == before;
      events := events + Stamp(height, Settlements(paid));
      forall k | 0 <= k < |before| ensures sales[k] == MarkPaid(before, ToSet(paid))[k] {
        PaymentsMatchExactly(old(View(registry)), registry.records, payments, mtp, k);
      }
      assert sales == MarkPaid(before, ToSet(paid));
    }

    // -------------------------------------------------------------------------
    // Rollback
    // -------------------------------------------------------------------------

    /** One log entry applied to the live state. */
    method ReplayEvent(registry: Registry, e: Event)
      modifies this`sales, this`challenges, registry`listings
      ensures View(registry) == Apply(old(View(registry)), e)
    {
      match e
      case Listed(l) => registry.PutListing(l);
      case Delisted(n) => var _ := registry.RemoveListing(n);
      case Opened(s) =>
        if !HasSale(sales, s.name) { sales := sales + [s]; }
      case Settled(n, code) =>
        sales := seq(|sales|, i requires 0 <= i < |sales| reads this => MarkSale(sales[i], {(n, code)}));
      case Lapsed(n) => CloseSale(n);
      case Closed(n) => CloseSale(n);
      case Challenged(c) =>
        if !HasCode(challenges, c.code) { challenges := challenges + [c]; }
      case ChallengeClosed(code) => DropChallenge(code);
    }

    method CloseSale(name: Name)
      modifies this`sales
      ensures sales == WithoutNames(old(sales), {name})
    {
      var kept := [];
      for i := 0 to |sales|
        invariant kept == WithoutNames(sales[..i], {name})
      {
        assert sales[..i + 1][..i] == sales[..i];
        if sales[i].name != name {
          kept := kept + [sales[i]];
        }
      }
      assert sales[..|sales|] == sales;
      sales := kept;
    }

    method RetainEvents(height: Height)
      modifies this`events
      ensures events == UpTo(old(events), height)
    {
      var kept := [];
      for i := 0 to |events|
        invariant kept == UpTo(events[..i], height)
      {
        assert events[..i + 1][..i] == events[..i];
        if events[i].height <= height {
          kept := kept + [events[i]];
        }
      }
      assert events[..|events|] == events;
      events := kept;
    }

    /** Throws the live state away and replays the entries at or below `height`. */
    method TruncateTo(registry: Registry, height: Height)
      modifies this, registry`listings
      ensures events == UpTo(old(events), height)
      ensures View(registry) == Replay(events)
    {
      RetainEvents(height);
      sales, challenges := [], [];
      registry.ClearListings();
      for i := 0 to |events|
        invariant events == UpTo(old(events), height)
        invariant View(registry) == Replay(events[..i])
      {
        assert events[..i + 1][..i] == events[..i];
        ReplayEvent(registry, events[i].event);
      }
      assert events[..|events|] == events;
    }

    // -------------------------------------------------------------------------
    // Requests
    // -------------------------------------------------------------------------

    method PushNew(c: Challenge, height: Height)
      modifies this`challenges, this`events
      ensures challenges == old(challenges) + [c]
      ensures events == old(events) + Stamp(height, [Challenged(c)])
    {
      events := events + [Stamped(height, Challenged(c))];
      challenges := challenges + [c];
    }

    method Propose(registry: Registry, l: Listing, owner: UnifiedAddress, code: OtpCode, mtp: Timestamp, height: Height)
      returns (refusal: Option<Refusal>)
      modifies this`challenges, this`events
      ensures Did(registry, ProposeList(old(View(registry)), l, owner, code, mtp, height).0, old(events), height)
      ensures refusal == ProposeList(old(View(registry)), l, owner, code, mtp, height).1
    {
      assert Stamp(height, []) == [];
      refusal := ClockReady(l.ask, height);
      if refusal.Some? { return; }
      if !IsOwnerListing(owner, l.ua, l.payTo) { return Some(NotOwner); }
      if HasSale(sales, l.name) { return Some(BuyOpen); }
      if exists i | 0 <= i < |challenges| :: challenges[i].kind == ToList(l) { return None; }
      if HasCode(challenges, code) { return Some(CodeTaken); }
      PushNew(Challenge(ToList(l), code, mtp + D_OTP, false, 0), height);
      return None;
    }

    method ProposeRemoval(registry: Registry, name: Name, ua: UnifiedAddress, code: OtpCode, mtp: Timestamp, height: Height)
      returns (refusal: Option<Refusal>)
      modifies this`challenges, this`events
      ensures Did(registry, ProposeDelist(old(View(registry)), registry.records, name, ua, code, mtp).0, old(events), height)
      ensures refusal == ProposeDelist(old(View(registry)), registry.records, name, ua, code, mtp).1
    {
      assert Stamp(height, []) == [];
      if !HeldBy(registry.records, name, ua) { return Some(NotOwner); }
      if HasSale(sales, name) { return Some(BuyOpen); }
      if name !in registry.listings { return Some(NotListed); }
      if exists i | 0 <= i < |challenges| :: challenges[i].kind == ToDelist(name, ua) { return None; }
      if HasCode(challenges, code) { return Some(CodeTaken); }
      PushNew(Challenge(ToDelist(name, ua), code, mtp + D_OTP, false, 0), height);
      return None;
    }

    /** Opens a buy at the quote, or says why not. */
    method Buy(registry: Registry, name: Name, bob: UnifiedAddress, record: NameRecord, pending: bool,
               code: OtpCode, mtp: Timestamp, height: Height) returns (quote: Quote)
      modifies this
      ensures quote == QuoteBuy(old(View(registry)), name, record.ua, ReleaseDue(record, mtp), pending, code, height)
      ensures quote.Refused? ==> Did(registry, Effect(old(View(registry)), []), old(events), height)
      ensures quote.Quoted? ==>
        Did(registry, OpenBuy(old(View(registry)), NewSale(name, bob, record, quote, code, mtp)), old(events), height)
    {
      assert Stamp(height, []) == [];
      var current := Book(registry.listings, sales, challenges);
      quote := QuoteBuy(current, name, record.ua, ReleaseDue(record, mtp), pending, code, height);
      if quote.Refused? { return; }
      OpenSaleNow(registry, NewSale(name, bob, record, quote, code, mtp), height);
    }

    method OpenSaleNow(registry: Registry, sale: OpenSale, height: Height)
      modifies this
      ensures Did(registry, OpenBuy(old(View(registry)), sale), old(events), height)
    {
      sales := sales + [sale];
      events := events + [Stamped(height, Opened(sale))];
      var codes := CollectCodes(challenges, OnName(sale.name));
      CloseChallenges(codes, height);
      StampConcat(height, [Opened(sale)], ChallengeClosings(codes));
    }

    /** Rules on one market memo. */
    method AdmitMemo(registry: Registry, request: Request, feeOk: bool, pending: bool, code: OtpCode,
                     mtp: Timestamp, height: Height)
      modifies this
      ensures Did(registry, Admit(old(View(registry)), registry.records, request, feeOk, pending, code, mtp, height),
                  old(events), height)
    {
      assert Stamp(height, []) == [];
      match request
      case ListRequest(l) =>
        if l.name !in registry.records || !feeOk || ReleaseDue(registry.records[l.name], mtp) || pending { return; }
        var _ := Propose(registry, l, registry.records[l.name].ua, code, mtp, height);
      case DelistRequest(name, ua) =>
        if !HeldBy(registry.records, name, ua) || !feeOk || pending { return; }
        var _ := ProposeRemoval(registry, name, ua, code, mtp, height);
      case BuyRequest(name, bob) =>
        if name !in registry.records || !feeOk { return; }
        var _ := Buy(registry, name, bob, registry.records[name], pending, code, mtp, height);
    }

    // -------------------------------------------------------------------------
    // Answers
    // -------------------------------------------------------------------------

    /** Carries out a matched challenge. */
    method Carry(registry: Registry, kind: ChallengeKind, height: Height)
      modifies this`events, registry`listings
      ensures Did(registry, Perform(old(View(registry)), registry.records, kind, height), old(events), height)
    {
      assert Stamp(height, []) == [];
      match kind
      case ToList(l) =>
        if ClockReady(l.ask, height).Some? || HasSale(sales, l.name) { return; }
        if l.name !in registry.records || !IsOwnerListing(registry.records[l.name].ua, l.ua, l.payTo) { return; }
        registry.PutListing(l);
        events := events + [Stamped(height, Listed(l))];
      case ToDelist(name, ua) =>
        if HasSale(sales, name) || !HeldBy(registry.records, name, ua) { return; }
        var removed := registry.RemoveListing(name);
        if removed {
          events := events + [Stamped(height, Delisted(name))];
        } else {
          assert registry.listings == old(registry.listings);
        }
    }

    /** Counts a wrong answer against the challenge at `i`, and closes it when its attempts are spent. */
    method CountAt(r: Response, height: Height, i: nat, ghost before: seq<Challenge>, ghost done: seq<OtpCode>)
      returns (ghost closed: seq<OtpCode>)
      requires CodesDistinct(before) && i < |before|
      requires ClosedFrom(before, i + 1, done)
      requires challenges == before[..i + 1] + WithoutCodes(BumpAll(before, r)[i + 1..], ToSet(done))
      modifies this`challenges, this`events
      ensures closed == if Exhausted(before[i], r) then [before[i].code] else []
      ensures challenges == before[..i] + WithoutCodes(BumpAll(before, r)[i..], ToSet(done + closed))
      ensures events == old(events) + Stamp(height, ChallengeClosings(closed))
    {
      closed := [];
      assert Stamp(height, ChallengeClosings(closed)) == [] && done + closed == done;
      BumpStep(before, r, i, done);
      var c := challenges[i];
      ghost var tail := WithoutCodes(BumpAll(before, r)[i + 1..], ToSet(done));
      assert challenges == before[..i] + [c] + tail;
      if Named(c, r) {
        challenges := challenges[i := c.(attempts := c.attempts + 1)];
        assert challenges == before[..i] + [Bump(c, r)] + tail;
        if challenges[i].attempts >= MAX_ATTEMPTS {
          DropOne(before, r, i, done);
          DropChallenge(c.code);
          events := events + [Stamped(height, ChallengeClosed(c.code))];
          closed := [c.code];
        }
      }
    }

    /** Counts a wrong answer against every challenge it names, from the last index down. */
    method CountAttempts(r: Response, height: Height)
      requires CodesDistinct(challenges)
      modifies this`challenges, this`events
      ensures challenges == WithoutCodes(BumpAll(old(challenges), r), ToSet(ExhaustedCodes(old(challenges), r)))
      ensures events == old(events) + Stamp(height, ChallengeClosings(ExhaustedCodes(old(challenges), r)))
    {
      ghost var before := challenges;
      ghost var bumped := BumpAll(before, r);
      ghost var done: seq<OtpCode> := [];
      var i := |challenges|;
      assert before[..i] == before && bumped[i..] == [];
      while i > 0
        invariant i <= |before|
        invariant done + ExhaustedCodes(before[..i], r) == ExhaustedCodes(before, r)
        invariant ClosedFrom(before, i, done)
        invariant challenges == before[..i] + WithoutCodes(bumped[i..], ToSet(done))
        invariant events == old(events) + Stamp(height, ChallengeClosings(done))
      {
        i := i - 1;
        ghost var closed := CountAt(r, height, i, before, done);
        StampClosings(height, done, closed);
        ClosedFromStep(before, i, done, closed);
        ExhaustedStep(before, r, i, done, closed);
        done := done + closed;
      }
      AllCounted(before, bumped, r, done);
    }

    /** Applies the challenge `r` names, when code and terms match and the named address still controls the name. */
    method AnswerMemo(registry: Registry, r: Response, height: Height) returns (applied: bool)
      requires BookInv(View(registry))
      modifies this, registry`listings
      ensures Did(registry, Answer(old(View(registry)), registry.records, r, height).0, old(events), height)
      ensures applied == Answer(old(View(registry)), registry.records, r, height).1
    {
      var found := Answered(challenges, r);
      if found.Some? {
        var c := found.value;
        DropChallenge(c.code);
        events := events + [Stamped(height, ChallengeClosed(c.code))];
        ghost var closed := View(registry);
        Carry(registry, c.kind, height);
        StampConcat(height, [ChallengeClosed(c.code)], Perform(closed, registry.records, c.kind, height).events);
        return true;
      }
      CountAttempts(r, height);
      return false;
    }

    // -------------------------------------------------------------------------
    // Relay flags
    // -------------------------------------------------------------------------

    /** Startup counts every unpaid buy as sent, in the book and in the log a rollback replays. */
    method SealReplayedBuys(registry: Registry)
      modifies this`sales, this`events
      ensures AllRelayed(sales) && View(registry) == SealBook(old(View(registry)))
      ensures events == SealLog(old(events)) && Replay(events) == SealBook(Replay(old(events)))
      ensures AllRelayed(Replay(events).sales)
    {
      var sealed: seq<OpenSale> := [];
      for i := 0 to |sales|
        invariant sales == old(sales) && events == old(events)
        invariant |sealed| == i && forall k | 0 <= k < i :: sealed[k] == RelaySale(sales[k])
      {
        var sale := sales[i];
        if sale.phase.Paying? {
          sale := sale.(phase := sale.phase.(relayed := true));
        }
        sealed := sealed + [sale];
      }
      sales := sealed;
      var log: seq<Stamped> := [];
      for i := 0 to |events|
        invariant sales == sealed && events == old(events)
        invariant |log| == i && forall k | 0 <= k < i :: log[k] == events[k].(event := SealEvent(events[k].event))
      {
        var entry := events[i];
        if entry.event.Opened? && entry.event.sale.phase.Paying? {
          var sale := entry.event.sale;
          entry := entry.(event := Opened(sale.(phase := sale.phase.(relayed := true))));
        }
        log := log + [entry];
      }
      events := log;
      SealReplay(old(events));
      assert sales == SealBook(old(View(registry))).sales;
    }
  }

  /** With distinct totals, an output already used cannot be the one sale `i` waits for. */
  lemma NoSharedTotal(before: seq<OpenSale>, payments: Payments, used: seq<bool>, i: nat)
    requires TotalsDistinct(before) && i < |before| && |used| == |payments| && before[i].phase.Paying?
    requires forall j | 0 <= j < |payments| && used[j] :: exists k | 0 <= k < i ::
      before[k].phase.Paying? && payments[j] == (before[k].phase.payTo, Total(before[k].phase))
    requires forall j | 0 <= j < |payments| && payments[j] == (before[i].phase.payTo, Total(before[i].phase)) :: used[j]
    ensures (before[i].phase.payTo, Total(before[i].phase)) !in payments
  {
  }

  lemma {:induction false} WithoutCodesConcat(a: seq<Challenge>, b: seq<Challenge>, gone: set<OtpCode>)
    ensures WithoutCodes(a + b, gone) == WithoutCodes(a, gone) + WithoutCodes(b, gone)
  {
    if b == [] {
      assert a + b == a;
    } else {
      var n := |b| - 1;
      assert (a + b)[..|a| + n] == a + b[..n];
      WithoutCodesConcat(a, b[..n], gone);
    }
  }

  lemma {:induction false} WithoutCodesAbsent(a: seq<Challenge>, gone: set<OtpCode>, more: set<OtpCode>)
    requires forall c | c in a :: c.code !in more
    ensures WithoutCodes(a, gone + more) == WithoutCodes(a, gone)
  {
    if a != [] {
      var n := |a| - 1;
      assert a[n] in a;
      WithoutCodesAbsent(a[..n], gone, more);
    }
  }

  /** One more position: the bumped challenge stands in front of the survivors behind it. */
  lemma BumpStep(before: seq<Challenge>, r: Response, i: nat, done: seq<OtpCode>)
    requires CodesDistinct(before) && i < |before|
    requires ClosedFrom(before, i + 1, done)
    ensures var bumped := BumpAll(before, r);
      && WithoutCodes(bumped[i..], ToSet(done)) == [bumped[i]] + WithoutCodes(bumped[i + 1..], ToSet(done))
      && (forall code | code in done :: code != before[i].code)
  {
    var bumped := BumpAll(before, r);
    assert bumped[i..] == [bumped[i]] + bumped[i + 1..];
    WithoutCodesConcat([bumped[i]], bumped[i + 1..], ToSet(done));
    assert [bumped[i]][..0] == [];
    assert bumped[i].code == before[i].code;
  }

  /** Closing the challenge at `i` by its code removes it and nothing else. */
  lemma DropOne(before: seq<Challenge>, r: Response, i: nat, done: seq<OtpCode>)
    requires CodesDistinct(before) && i < |before|
    requires ClosedFrom(before, i + 1, done)
    ensures var bumped, code := BumpAll(before, r), before[i].code;
      var tail := WithoutCodes(bumped[i + 1..], ToSet(done));
      && WithoutCodes(before[..i] + [bumped[i]] + tail, {code}) == before[..i] + tail
      && WithoutCodes(bumped[i..], ToSet(done + [code])) == tail
  {
    var bumped, code := BumpAll(before, r), before[i].code;
    var tail := WithoutCodes(bumped[i + 1..], ToSet(done));
    assert bumped[i].code == code;
    forall c | c in bumped[i + 1..] ensures c.code != code {
      var k :| i + 1 <= k < |bumped| && bumped[k] == c;
      assert bumped[k].code == before[k].code;
    }
    WithoutCodesMembers(bumped[i + 1..], ToSet(done));
    WithoutCodesConcat(before[..i] + [bumped[i]], tail, {code});
    WithoutCodesConcat(before[..i], [bumped[i]], {code});
    WithoutNoCodes(before[..i]);
    WithoutNoCodes(tail);
    WithoutCodesAbsent(before[..i], {}, {code});
    WithoutCodesAbsent(tail, {}, {code});
    assert {} + {code} == {code};
    assert [bumped[i]][..0] == [];
    assert ToSet(done + [code]) == ToSet(done) + {code};
    assert bumped[i..] == [bumped[i]] + bumped[i + 1..];
    WithoutCodesConcat([bumped[i]], bumped[i + 1..], ToSet(done) + {code});
    WithoutCodesAbsent(bumped[i + 1..], ToSet(done), {code});
  }
}
