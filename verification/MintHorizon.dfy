/**
 The expiry horizon over the mint's whole life, restarts included: nothing it signs
 or keeps ever sits more than ninety-nine years ahead of the clock; and, through
 rewinds, exactly when a live name can fall outside.
 */
module MintHorizon {
  import opened Basics
  import opened NameNotes
  import opened Registries
  import opened MarketBooks
  import opened MarketRules
  import opened MarketInvariants
  import opened OrderQueues
  import opened MintLoop
  import opened MintExclusion
  import R = RegistryRuns
  import M = MarketRuns
  import AnchorPools
  import B = BlockPasses
  import opened MedianClocks
  import opened MintConsistency

  ghost predicate RecordsWithin(records: Records, mtp: Timestamp) {
    forall n | n in records :: WithinHorizon(records[n].expiresAt, mtp)
  }

  ghost predicate NotesWithin(notes: set<NameNote>, mtp: Timestamp) {
    forall note | note in notes :: WithinHorizon(note.ExpiryOf(), mtp)
  }

  ghost predicate SalesWithin(sales: seq<OpenSale>, mtp: Timestamp) {
    forall s | s in sales :: WithinHorizon(s.term, mtp)
  }

  ghost predicate AllWithin(m: Mint) {
    && RecordsWithin(m.reg.records, m.mtp)
    && NotesWithin(Unresolved(m.orders), m.mtp)
    && SalesWithin(m.market.book.sales, m.mtp)
  }

  // ---------------------------------------------------------------------------
  // A mint's life
  // ---------------------------------------------------------------------------

  /** A note the mint put on order, and the clock when it did. */
  datatype Signature = Signature(note: NameNote, at: Timestamp)

  /** The running mint, and what it or an earlier process of it ever put on order. */
  datatype Life = Life(mint: Mint, signed: set<Signature>)

  /** A restart forgets everything but the signatures out in the world: boot replays the chain into an empty mint. */
  datatype LifeEvent = Turned(turn: Turn) | Restarted

  function NewlySigned(before: Orders, after: Orders, at: Timestamp): set<Signature> {
    set note | note in Unresolved(after) && note !in Unresolved(before) :: Signature(note, at)
  }

  function Live(net: Network, earlier: set<Signature>, events: seq<LifeEvent>): Life {
    if events == [] then Life(BORN, earlier)
    else
      var l := Live(net, earlier, events[..|events| - 1]);
      match events[|events| - 1]
      case Restarted => Life(BORN, l.signed)
      case Turned(turn) =>
        var after := MintLoop.Take(net, l.mint, turn);
        Life(after, l.signed + NewlySigned(l.mint.orders, after.orders, after.mtp))
  }

  ghost predicate SignedBy(signed: set<Signature>, note: NameNote, mtp: Timestamp) {
    exists s :: s in signed && s.note == note && s.at <= mtp
  }

  /** The step at position `i` of a block puts its note into the registry. */
  ghost predicate AcceptedAt(net: Network, r: Reg, steps: seq<R.Step>, i: nat)
    requires i < |steps|
  {
    (steps[i].ClaimStep? || steps[i].SuccessorStep?) && B.Accepts(net, R.ApplyAll(net, r, steps[..i]), steps[i])
  }

  /**
   The chain's headers pass the time check and the block's clock is theirs; a note the
   registry accepts was signed by the block's clock, whoever wrote the notes it refuses;
   claims ask for at most the longest term.
   */
  ghost predicate Timely(net: Network, times: Height -> nat, l: Life, e: LifeEvent) {
    match e
    case Restarted => true
    case Turned(Extend(block)) =>
      && HeaderTime(WindowAt(times, l.mint.height), times(l.mint.height + 1)) == HeaderOk
      && block.mtp == ClockAt(times, l.mint.height + 1)
      && forall i | 0 <= i < |block.steps| && AcceptedAt(net, l.mint.reg, block.steps, i) ::
           SignedBy(l.signed, block.steps[i].note, block.mtp)
    case Turned(Decide(pass)) => forall c | c in pass.claims && c.term.Years? :: c.term.n <= MAX_TERM_YEARS
    case Turned(Seal) => true
    case Turned(Rewind(_, _)) => false
  }

  ghost predicate TimelyLife(net: Network, times: Height -> nat, earlier: set<Signature>, events: seq<LifeEvent>) {
    events != [] ==>
      && TimelyLife(net, times, earlier, events[..|events| - 1])
      && Timely(net, times, Live(net, earlier, events[..|events| - 1]), events[|events| - 1])
  }

  ghost predicate SignaturesWithin(signed: set<Signature>) {
    forall s | s in signed :: WithinHorizon(s.note.ExpiryOf(), s.at)
  }

  // ---------------------------------------------------------------------------
  // The registry
  // ---------------------------------------------------------------------------

  lemma {:induction false} ReleaseAllShrinks(r: Reg, names: seq<Name>, height: Height)
    ensures forall n | n in ReleaseAll(r, names, height).records ::
      n in r.records && ReleaseAll(r, names, height).records[n] == r.records[n]
  {
    if names != [] { ReleaseAllShrinks(r, names[..|names| - 1], height); }
  }

  /** Only an accepted note brings a new expiry. */
  lemma ApplyWithin(net: Network, r: Reg, s: R.Step, mtp: Timestamp)
    requires RecordsWithin(r.records, mtp)
    requires (s.ClaimStep? || s.SuccessorStep?) && B.Accepts(net, r, s) ==> WithinHorizon(s.note.ExpiryOf(), mtp)
    ensures RecordsWithin(R.Apply(net, r, s).records, mtp)
  {
    match s
    case AdoptStep(_, _) =>
    case ClaimStep(at, _, note, _, successor, nfs, expiry) =>
      var seated := if ClaimAdmitted(net, r, note.name, nfs, expiry) then successor else None;
      var r1 := r.(pool := AnchorPools.RetireSpent(r.pool, nfs, seated, at));
      ReleaseAllShrinks(r1, Ascending(NamesSpentBy(r1, nfs)), at);
    case SuccessorStep(at, _, _, _, nfs) =>
      var r1 := r.(pool := AnchorPools.RetireSpent(r.pool, nfs, None, at));
      ReleaseAllShrinks(r1, Ascending(NamesSpentBy(r1, nfs)), at);
    case FollowStep(at, nfs) =>
      var r1 := r.(pool := AnchorPools.RetireSpent(r.pool, nfs, None, at));
      ReleaseAllShrinks(r1, Ascending(NamesSpentBy(r1, nfs)), at);
  }

  /** Every note the block puts into the registry is within the horizon of the block's clock. */
  ghost predicate AcceptsWithin(net: Network, r: Reg, steps: seq<R.Step>, mtp: Timestamp) {
    forall i | 0 <= i < |steps| && AcceptedAt(net, r, steps, i) :: WithinHorizon(steps[i].note.ExpiryOf(), mtp)
  }

  lemma {:induction false} ApplyAllWithin(net: Network, r: Reg, steps: seq<R.Step>, mtp: Timestamp)
    requires RecordsWithin(r.records, mtp) && AcceptsWithin(net, r, steps, mtp)
    ensures RecordsWithin(R.ApplyAll(net, r, steps).records, mtp)
  {
    if steps != [] {
      var n := |steps| - 1;
      forall i | 0 <= i < n && AcceptedAt(net, r, steps[..n], i) ensures WithinHorizon(steps[..n][i].note.ExpiryOf(), mtp) {
        assert steps[..n][..i] == steps[..i];
        assert AcceptedAt(net, r, steps, i);
      }
      ApplyAllWithin(net, r, steps[..n], mtp);
      assert AcceptedAt(net, r, steps, n) <==>
        (steps[n].ClaimStep? || steps[n].SuccessorStep?) && B.Accepts(net, R.ApplyAll(net, r, steps[..n]), steps[n]);
      ApplyWithin(net, R.ApplyAll(net, r, steps[..n]), steps[n], mtp);
    }
  }

  // ---------------------------------------------------------------------------
  // The market
  // ---------------------------------------------------------------------------

  /** Market steps never invent a term: a sale's term is an old sale's or the live record's. */
  lemma EffectTerms(b: Book, s: M.Step, mtp: Timestamp)
    requires !s.SealStep? && !s.RewindStep?
    requires SalesWithin(b.sales, mtp) && (s.AdmitStep? ==> RecordsWithin(s.records, mtp))
    ensures SalesWithin(M.EffectOf(b, s).book.sales, mtp)
  {
    match s
    case ObserveStep(records, payments, at, _) =>
      var after := Observe(b, records, payments, at).book.sales;
      forall x | x in after ensures WithinHorizon(x.term, mtp) {
        var i :| 0 <= i < |after| && after[i] == x;
        assert b.sales[i] in b.sales;
      }
    case ExpireStep(at, _) => WithoutNamesMembers(b.sales, ToSet(LapsedNames(b.sales, at)));
    case ReconcileStep(records, _) => WithoutNamesMembers(b.sales, ToSet(MovedNames(b.sales, records)));
    case PollStep(records, pending, _) => WithoutNamesMembers(b.sales, ToSet(OverNames(b.sales, records, pending)));
    case AdmitStep(_, _, _, _, _, _, _) =>
    case AnswerStep(_, _, _) =>
    case RelayBuyStep(name, _) =>
      var after := RelayBuy(b, name).sales;
      forall x | x in after ensures WithinHorizon(x.term, mtp) {
        var i :| 0 <= i < |after| && after[i] == x;
        assert b.sales[i] in b.sales;
      }
    case RelayChallengeStep(_, _) =>
  }

  lemma SealTerms(b: Book, mtp: Timestamp)
    requires SalesWithin(b.sales, mtp)
    ensures SalesWithin(SealBook(b).sales, mtp)
  {
    var after := SealBook(b).sales;
    forall x | x in after ensures WithinHorizon(x.term, mtp) {
      var i :| 0 <= i < |after| && after[i] == x;
      assert b.sales[i] in b.sales;
    }
  }

  // ---------------------------------------------------------------------------
  // Blocks
  // ---------------------------------------------------------------------------

  lemma SettleWithin(net: Network, m: Mint, block: Block)
    requires AllWithin(m) && m.mtp <= block.mtp && AcceptsWithin(net, m.reg, block.steps, block.mtp)
    ensures AllWithin(Settle(net, m, block))
  {
    var reg := R.ApplyAll(net, m.reg, block.steps);
    ApplyAllWithin(net, m.reg, block.steps, block.mtp);
    ReconcileUnresolved(net, reg, m.orders);
    EffectTerms(m.market.book, M.ExpireStep(block.mtp, m.height + 1), block.mtp);
    var expired := M.Take(m.market, M.ExpireStep(block.mtp, m.height + 1));
    EffectTerms(expired.book, M.ReconcileStep(reg.records, m.height + 1), block.mtp);
  }

  lemma RouteWithin(m: Mint, a: Arrival)
    requires AllWithin(m)
    ensures AllWithin(Route(m, a))
  {
    match a
    case MarketMemo(request, feeOk, code) =>
      var name := if request.ListRequest? then request.listing.name else request.name;
      EffectTerms(m.market.book,
                  M.AdmitStep(m.reg.records, request, feeOk, NotePending(m.orders, name), code, m.mtp, m.height), m.mtp);
    case MarketReply(response) =>
      EffectTerms(m.market.book, M.AnswerStep(m.reg.records, response, m.height), m.mtp);
    case TransitionReply(name, approved) =>
      if approved.Some? {
        var note := AuthorizeApproved(m.reg.records, name, approved.value, m.mtp);
        if note.Some? {
          AdmitUnresolved(m.orders, m.height, note.value);
        }
      }
    case OtherMemo =>
  }

  lemma {:induction false} RouteAllWithin(m: Mint, arrivals: seq<Arrival>)
    requires AllWithin(m)
    ensures AllWithin(RouteAll(m, arrivals)) && RouteAll(m, arrivals).mtp == m.mtp
  {
    if arrivals != [] {
      RouteAllWithin(m, arrivals[..|arrivals| - 1]);
      RouteWithin(RouteAll(m, arrivals[..|arrivals| - 1]), arrivals[|arrivals| - 1]);
    }
  }

  lemma ExtendWithin(net: Network, m: Mint, block: Block)
    requires AllWithin(m) && m.mtp <= block.mtp && AcceptsWithin(net, m.reg, block.steps, block.mtp)
    ensures AllWithin(ExtendBy(net, m, block))
  {
    SettleWithin(net, m, block);
    RouteAllWithin(Settle(net, m, block), block.arrivals);
    var routed := RouteAll(Settle(net, m, block), block.arrivals);
    EffectTerms(routed.market.book, M.ObserveStep(routed.reg.records, block.payments, routed.mtp, routed.height), routed.mtp);
  }

  // ---------------------------------------------------------------------------
  // Passes
  // ---------------------------------------------------------------------------

  lemma {:induction false} ClaimsWithin(orders: Orders, records: Records, mtp: Timestamp, claims: seq<PaidClaim>)
    requires NotesWithin(Unresolved(orders), mtp)
    requires forall c | c in claims && c.term.Years? :: c.term.n <= MAX_TERM_YEARS
    ensures NotesWithin(Unresolved(AdmitClaims(orders, records, mtp, claims)), mtp)
  {
    if claims != [] {
      var rest, c := claims[..|claims| - 1], claims[|claims| - 1];
      ClaimsWithin(orders, records, mtp, rest);
      var note := AuthorizeClaim(records, c, mtp);
      if note.Some? {
        AdmitUnresolved(AdmitClaims(orders, records, mtp, rest), c.paidAt, note.value);
        assert c in claims;
        assert c.term.Years? ==> c.term.n * LIVENESS_INTERVAL <= MAX_TERM_YEARS * LIVENESS_INTERVAL;
      }
    }
  }

  lemma {:induction false} RelayCodesWithin(t: M.Tracked, codes: seq<OtpCode>, height: Height, mtp: Timestamp)
    requires SalesWithin(t.book.sales, mtp)
    ensures SalesWithin(RelayCodes(t, codes, height).book.sales, mtp)
  {
    if codes != [] { RelayCodesWithin(t, codes[..|codes| - 1], height, mtp); }
  }

  lemma {:induction false} RelayBuysWithin(t: M.Tracked, names: seq<Name>, height: Height, mtp: Timestamp)
    requires SalesWithin(t.book.sales, mtp)
    ensures SalesWithin(RelayBuys(t, names, height).book.sales, mtp)
  {
    if names != [] {
      RelayBuysWithin(t, names[..|names| - 1], height, mtp);
      EffectTerms(RelayBuys(t, names[..|names| - 1], height).book, M.RelayBuyStep(names[|names| - 1], height), mtp);
    }
  }

  lemma PollWithin(m: Mint)
    requires AllWithin(m)
    ensures AllWithin(PollMarket(m))
  {
    var pending := PendingNames(m.orders);
    var owed := OwedNotes(m.market.book.sales, m.reg.records, pending);
    EffectTerms(m.market.book, M.PollStep(m.reg.records, pending, m.height), m.mtp);
    AdmitNotesUnresolved(m.orders, m.height, owed);
    forall note | note in owed ensures WithinHorizon(note.ExpiryOf(), m.mtp) {
      var sales := m.market.book.sales;
      var i :| 0 <= i < |sales| && Signable(sales[i], pending) && note == SaleNoteOf(sales[i]);
      assert sales[i] in sales && SaleNoteOf(sales[i]).ExpiryOf() == sales[i].term;
    }
  }

  lemma {:induction false} ReleasesWithin(orders: Orders, records: Records, sales: seq<OpenSale>, tip: Height,
                                          names: seq<Name>, mtp: Timestamp)
    requires NotesWithin(Unresolved(orders), mtp)
    ensures NotesWithin(Unresolved(AdmitReleases(orders, records, sales, tip, names)), mtp)
  {
    if names != [] {
      var rest, name := names[..|names| - 1], names[|names| - 1];
      ReleasesWithin(orders, records, sales, tip, rest, mtp);
      if name in records {
        AdmitUnresolved(AdmitReleases(orders, records, sales, tip, rest), tip,
                        ReleaseNote(name, records[name].ua, records[name].commitment));
      }
    }
  }

  lemma SettleOrdersWithin(m: Mint, orders: Orders, pass: Pass)
    requires NotesWithin(Unresolved(orders), m.mtp)
    ensures NotesWithin(Unresolved(SettleOrders(m, orders, pass)), m.mtp)
  {
    var expired := ExpireSent(orders, m.height);
    PointwiseUnresolved(orders, 0, m.height);
    DropDueUnresolved(expired, m.reg.records, m.mtp, AuthorizedNotes(expired));
    var kept := DropDueUpdates(expired, m.reg.records, m.mtp, AuthorizedNotes(expired));
    ReleasesWithin(kept, m.reg.records, m.market.book.sales, m.height, NamesDue(m.reg.records, m.mtp), m.mtp);
    var due := AdmitReleases(kept, m.reg.records, m.market.book.sales, m.height, NamesDue(m.reg.records, m.mtp));
    SubmitUnresolved(due, m.reg.records, pass.broadcast, AuthorizedNotes(due));
  }

  lemma DecideWithin(m: Mint, pass: Pass)
    requires AllWithin(m) && forall c | c in pass.claims && c.term.Years? :: c.term.n <= MAX_TERM_YEARS
    ensures AllWithin(DecideWith(m, pass))
  {
    ClaimsWithin(m.orders, m.reg.records, m.mtp, pass.claims);
    RelayCodesWithin(m.market, pass.relayedCodes, m.height, m.mtp);
    var coded := RelayCodes(m.market, pass.relayedCodes, m.height);
    RelayBuysWithin(coded, pass.relayedBuys, m.height, m.mtp);
    var m1 := m.(orders := AdmitClaims(m.orders, m.reg.records, m.mtp, pass.claims),
                 market := RelayBuys(coded, pass.relayedBuys, m.height));
    PollWithin(m1);
    SettleOrdersWithin(PollMarket(m1), PollMarket(m1).orders, pass);
  }

  // ---------------------------------------------------------------------------
  // Every life
  // ---------------------------------------------------------------------------

  ghost predicate LifeWithin(times: Height -> nat, l: Life) {
    AllWithin(l.mint) && SignaturesWithin(l.signed) && l.mint.mtp <= ClockAt(times, l.mint.height)
  }

  lemma AcceptedWereSigned(net: Network, times: Height -> nat, l: Life, block: Block)
    requires SignaturesWithin(l.signed) && Timely(net, times, l, Turned(Extend(block)))
    ensures AcceptsWithin(net, l.mint.reg, block.steps, block.mtp)
  {
  }

  lemma BlockWithin(net: Network, times: Height -> nat, l: Life, block: Block)
    requires LifeWithin(times, l) && Timely(net, times, l, Turned(Extend(block)))
    ensures AllWithin(ExtendBy(net, l.mint, block)) && block.mtp == ClockAt(times, l.mint.height + 1)
  {
    OneBlockNeverLowers(times, l.mint.height, l.mint.height + 1, l.mint.height);
    AcceptedWereSigned(net, times, l, block);
    ExtendWithin(net, l.mint, block);
  }

  lemma TurnWithin(net: Network, times: Height -> nat, l: Life, turn: Turn)
    requires LifeWithin(times, l) && Timely(net, times, l, Turned(turn))
    ensures AllWithin(MintLoop.Take(net, l.mint, turn))
  {
    match turn
    case Extend(block) => BlockWithin(net, times, l, block);
    case Decide(pass) => DecideWithin(l.mint, pass);
    case Seal => SealTerms(l.mint.market.book, l.mint.mtp);
  }

  lemma TurnClock(net: Network, times: Height -> nat, l: Life, turn: Turn)
    requires l.mint.mtp <= ClockAt(times, l.mint.height) && Timely(net, times, l, Turned(turn))
    ensures var after := MintLoop.Take(net, l.mint, turn); after.mtp <= ClockAt(times, after.height)
  {
    TurnFrame(net, l.mint, turn);
  }

  /**
   Through blocks, passes and restarts, on any chain whose headers the time check
   accepts: every live, ordered, sold or signed expiry stays within the longest term of
   the clock, as long as what the registry accepts was signed by the block's clock.
   */
  lemma {:induction false} EverySignedExpiryIsWithin(net: Network, times: Height -> nat, earlier: set<Signature>, events: seq<LifeEvent>)
    requires SignaturesWithin(earlier) && TimelyLife(net, times, earlier, events)
    ensures LifeWithin(times, Live(net, earlier, events))
  {
    if events != [] {
      var rest, last := events[..|events| - 1], events[|events| - 1];
      EverySignedExpiryIsWithin(net, times, earlier, rest);
      if last.Turned? {
        TurnWithin(net, times, Live(net, earlier, rest), last.turn);
        TurnClock(net, times, Live(net, earlier, rest), last.turn);
      }
    }
  }

  /**
   On such a life, an update that only changes the address is never refused by the
   expiry horizon: it carries the live record's expiry unchanged.
   */
  lemma AddressOnlyUpdatePasses(net: Network, times: Height -> nat, earlier: set<Signature>, events: seq<LifeEvent>, name: Name)
    requires SignaturesWithin(earlier) && TimelyLife(net, times, earlier, events)
    requires name in Live(net, earlier, events).mint.reg.records
    ensures var m := Live(net, earlier, events).mint;
      NameNotes.Extend(m.reg.records[name].expiresAt, None, m.mtp) == Some(m.reg.records[name].expiresAt)
  {
    EverySignedExpiryIsWithin(net, times, earlier, events);
  }
}
