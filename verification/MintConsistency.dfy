/**
 The registry and the market agree after every turn of the run loop, at the tip
 and at every height a rewind can reach.
 */
module MintConsistency {
  import opened Basics
  import opened NameNotes
  import opened Listings
  import opened Registries
  import opened MarketBooks
  import opened MarketRules
  import opened MarketInvariants
  import opened OrderQueues
  import opened MintLoop
  import R = RegistryRuns
  import M = MarketRuns
  import T = SaleTraces

  /** Listings and challenges are the current holder's; each sale captured the live record. */
  ghost predicate Joint(records: Records, b: Book) {
    && (forall n | n in b.listings :: HeldBy(records, n, b.listings[n].ua))
    && (forall c | c in b.challenges :: HeldBy(records, c.Name(), c.Ua()))
    && (forall s | s in b.sales :: !SaleMoved(s, records))
  }

  lemma JointOfSim(records: Records, l: Book, r: Book)
    requires Joint(records, l) && Sim(l, r, false)
    ensures Joint(records, r)
  {
    forall s | s in r.sales ensures !SaleMoved(s, records) {
      var i :| 0 <= i < |r.sales| && r.sales[i] == s;
      assert SaleSim(l.sales[i], r.sales[i], false) && l.sales[i] in l.sales;
    }
    forall c | c in r.challenges ensures HeldBy(records, c.Name(), c.Ua()) {
      var i :| 0 <= i < |r.challenges| && r.challenges[i] == c;
      assert ChallengeSim(l.challenges[i], r.challenges[i], false) && l.challenges[i] in l.challenges;
    }
  }

  lemma JointRemoval(records: Records, b: Book, listings: set<Name>, names: set<Name>, codes: set<OtpCode>)
    requires Joint(records, b)
    ensures Joint(records, Book(b.listings - listings, WithoutNames(b.sales, names), WithoutCodes(b.challenges, codes)))
  {
    WithoutNamesMembers(b.sales, names);
    WithoutCodesMembers(b.challenges, codes);
  }

  /** Whatever the book held, reconciling it against the records makes the two agree. */
  lemma ReconcileJoins(records: Records, b: Book)
    ensures Joint(records, Reconcile(b, records).book)
  {
    var moved, stale := MovedNames(b.sales, records), StaleCodes(b.challenges, records);
    WithoutNamesMembers(b.sales, ToSet(moved));
    WithoutCodesMembers(b.challenges, ToSet(stale));
    forall s | s in b.sales && SaleMoved(s, records) ensures s.name in moved {
      var i :| 0 <= i < |b.sales| && b.sales[i] == s;
    }
    forall c | c in b.challenges && !HeldBy(records, c.Name(), c.Ua()) ensures c.code in stale {
      var i :| 0 <= i < |b.challenges| && b.challenges[i] == c;
    }
  }

  lemma AdmitJoint(records: Records, b: Book, request: Request, feeOk: bool, pending: bool, code: OtpCode,
                   mtp: Timestamp, height: Height)
    requires Joint(records, b)
    ensures Joint(records, Admit(b, records, request, feeOk, pending, code, mtp, height).book)
  {
    var after := Admit(b, records, request, feeOk, pending, code, mtp, height).book;
    if request.BuyRequest? && after != b {
      WithoutCodesMembers(b.challenges, ToSet(CodesFor(b.challenges, request.name)));
    }
  }

  lemma AnswerJoint(records: Records, b: Book, r: Response, height: Height)
    requires Joint(records, b)
    ensures Joint(records, Answer(b, records, r, height).0.book)
  {
    match Answered(b.challenges, r)
    case Some(c) =>
      WithoutCodesMembers(b.challenges, {c.code});
    case None =>
      var bumped := BumpAll(b.challenges, r);
      WithoutCodesMembers(bumped, ToSet(ExhaustedCodes(b.challenges, r)));
      forall c | c in bumped ensures HeldBy(records, c.Name(), c.Ua()) {
        var i :| 0 <= i < |bumped| && bumped[i] == c;
        assert b.challenges[i] in b.challenges;
      }
  }

  /** A step that reads these records, if it reads any. */
  predicate Reads(s: M.Step, records: Records) {
    (s.ObserveStep? || s.ReconcileStep? || s.PollStep? || s.AdmitStep? || s.AnswerStep?) ==> s.records == records
  }

  lemma EffectJoint(records: Records, b: Book, s: M.Step)
    requires Joint(records, b) && Reads(s, records) && !s.SealStep? && !s.RewindStep?
    ensures Joint(records, M.EffectOf(b, s).book)
  {
    match s
    case ObserveStep(_, payments, mtp, _) =>
      var after := Observe(b, records, payments, mtp).book;
      forall x | x in after.sales ensures !SaleMoved(x, records) {
        var i :| 0 <= i < |after.sales| && after.sales[i] == x;
        assert b.sales[i] in b.sales;
      }
    case ExpireStep(mtp, height) =>
      JointRemoval(records, b, ToSet(FinishedClocks(b.listings, height)), ToSet(LapsedNames(b.sales, mtp)),
                   ToSet(ExpiredCodes(b.challenges, mtp)));
    case ReconcileStep(_, _) => ReconcileJoins(records, b);
    case PollStep(_, pending, _) => WithoutNamesMembers(b.sales, ToSet(OverNames(b.sales, records, pending)));
    case AdmitStep(_, request, feeOk, busy, code, mtp, height) =>
      AdmitJoint(records, b, request, feeOk, busy, code, mtp, height);
    case AnswerStep(_, response, height) => AnswerJoint(records, b, response, height);
    case RelayBuyStep(name, _) => JointOfSim(records, b, RelayBuy(b, name));
    case RelayChallengeStep(code, _) => JointOfSim(records, b, RelayChallenge(b, code));
  }

  // ---------------------------------------------------------------------------
  // The market inside the mint
  // ---------------------------------------------------------------------------

  ghost predicate MarketOk(t: M.Tracked) {
    M.Agrees(t) && T.TraceOk(t.log, t.why)
  }

  /** Entries below `height` are the same in both logs. */
  ghost predicate SameBelow(a: seq<Stamped>, b: seq<Stamped>, height: Height) {
    forall h: Height | h < height :: UpTo(a, h) == UpTo(b, h)
  }

  /** A market step at the mint's height keeps the market lawful and touches nothing below. */
  lemma StepOk(t: M.Tracked, s: M.Step)
    requires MarketOk(t) && !s.SealStep? && !s.RewindStep? && t.height <= s.height
    ensures MarketOk(M.Take(t, s)) && M.Take(t, s).height == s.height
    ensures SameBelow(M.Take(t, s).log, t.log, s.height)
  {
    M.EffectAgrees(t, s);
    T.TakeKeepsTrace(t, s);
    forall h: Height | h < s.height ensures UpTo(M.Take(t, s).log, h) == UpTo(t.log, h) {
      UpToStamped(t.log, s.height, M.EffectOf(t.book, s).events, h);
    }
  }

  lemma SameBelowTransitive(a: seq<Stamped>, b: seq<Stamped>, c: seq<Stamped>, height: Height)
    requires SameBelow(a, b, height) && SameBelow(b, c, height)
    ensures SameBelow(a, c, height)
  {
  }

  lemma TradeOk(t: M.Tracked, s: M.Step, records: Records)
    requires MarketOk(t) && !s.SealStep? && !s.RewindStep? && t.height <= s.height
    requires s.ReconcileStep? || Joint(records, t.book)
    requires Reads(s, records)
    ensures MarketOk(M.Take(t, s)) && M.Take(t, s).height == s.height
    ensures SameBelow(M.Take(t, s).log, t.log, s.height)
    ensures Joint(records, M.Take(t, s).book)
  {
    StepOk(t, s);
    if s.ReconcileStep? { ReconcileJoins(records, t.book); } else { EffectJoint(records, t.book, s); }
  }

  /** At height `h` the registry's records and the market's replay agree. */
  ghost predicate JointAt(m: Mint, h: Height) {
    Joint(TruncateReg(m.reg, h).records, Replay(UpTo(m.market.log, h)))
  }

  ghost predicate Consistent(m: Mint) {
    && RegInv(m.reg, m.height)
    && MarketOk(m.market) && m.market.height == m.height
    && Joint(m.reg.records, m.market.book)
    && forall h: Height | h <= m.height :: JointAt(m, h)
  }

  /** A turn that leaves everything below `m.height` alone only has to join the tip. */
  lemma JoinedAtTip(m: Mint)
    requires RegInv(m.reg, m.height) && MarketOk(m.market) && m.market.height == m.height
    requires Joint(m.reg.records, m.market.book)
    requires forall h: Height | h < m.height :: JointAt(m, h)
    ensures Consistent(m)
  {
    R.TruncateAtTip(m.reg, m.height, m.height);
    UpToAll(m.market.log, m.height, m.height);
    SimWeaken(m.market.book, Replay(m.market.log));
    JointOfSim(m.reg.records, m.market.book, Replay(m.market.log));
    assert JointAt(m, m.height);
  }

  // ---------------------------------------------------------------------------
  // Blocks
  // ---------------------------------------------------------------------------

  lemma {:induction false} BlockSteps(net: Network, r: Reg, steps: seq<R.Step>, tip: Height)
    requires RegInv(r, tip) && forall s | s in steps :: s.height == tip + 1
    ensures RegInv(R.ApplyAll(net, r, steps), tip + 1)
    ensures forall h: Height | h <= tip :: TruncateReg(R.ApplyAll(net, r, steps), h) == TruncateReg(r, h)
  {
    if steps == [] {
      RegInvRaised(r, tip, tip + 1);
    } else {
      var rest, last := steps[..|steps| - 1], steps[|steps| - 1];
      BlockSteps(net, r, rest, tip);
      R.ApplyKeepsInv(net, R.ApplyAll(net, r, rest), last, tip + 1);
      forall h: Height | h <= tip
        ensures TruncateReg(R.ApplyAll(net, r, steps), h) == TruncateReg(r, h)
      {
        R.ApplyErased(net, R.ApplyAll(net, r, rest), last, h);
      }
    }
  }

  /** Inside a block: joined at the tip and, below, exactly what it was before the block. */
  ghost predicate InBlock(m: Mint, reg: Reg, log: seq<Stamped>) {
    && m.reg == reg
    && MarketOk(m.market) && m.market.height == m.height
    && Joint(m.reg.records, m.market.book)
    && SameBelow(m.market.log, log, m.height)
  }

  lemma TradeOnly(m: Mint, s: M.Step)
    ensures Trade(m, s).market == M.Take(m.market, s)
    ensures Trade(m, s).reg == m.reg && Trade(m, s).height == m.height
  {
  }

  lemma SettleOk(net: Network, m: Mint, block: Block)
    requires MarketOk(m.market) && m.market.height == m.height
    ensures InBlock(Settle(net, m, block), R.ApplyAll(net, m.reg, block.steps), m.market.log)
    ensures Settle(net, m, block).height == m.height + 1
  {
    var m1 := Confirm(net, m, block);
    var expired := M.Take(m.market, M.ExpireStep(m1.mtp, m1.height));
    StepOk(m.market, M.ExpireStep(m1.mtp, m1.height));
    TradeOnly(m1, M.ExpireStep(m1.mtp, m1.height));
    var joined := M.Take(expired, M.ReconcileStep(m1.reg.records, m1.height));
    TradeOk(expired, M.ReconcileStep(m1.reg.records, m1.height), m1.reg.records);
    TradeOnly(Trade(m1, M.ExpireStep(m1.mtp, m1.height)), M.ReconcileStep(m1.reg.records, m1.height));
    SameBelowTransitive(joined.log, expired.log, m.market.log, m1.height);
  }

  lemma RouteOk(m: Mint, a: Arrival, reg: Reg, log: seq<Stamped>)
    requires InBlock(m, reg, log)
    ensures InBlock(Route(m, a), reg, log) && Route(m, a).height == m.height
  {
    match a
    case MarketMemo(request, feeOk, code) =>
      var name := if request.ListRequest? then request.listing.name else request.name;
      TradeOk(m.market, M.AdmitStep(m.reg.records, request, feeOk, NotePending(m.orders, name), code, m.mtp, m.height),
              m.reg.records);
    case MarketReply(response) =>
      TradeOk(m.market, M.AnswerStep(m.reg.records, response, m.height), m.reg.records);
    case _ =>
  }

  lemma {:induction false} RouteAllOk(m: Mint, arrivals: seq<Arrival>, reg: Reg, log: seq<Stamped>)
    requires InBlock(m, reg, log)
    ensures InBlock(RouteAll(m, arrivals), reg, log) && RouteAll(m, arrivals).height == m.height
  {
    if arrivals != [] {
      RouteAllOk(m, arrivals[..|arrivals| - 1], reg, log);
      RouteOk(RouteAll(m, arrivals[..|arrivals| - 1]), arrivals[|arrivals| - 1], reg, log);
    }
  }

  lemma BlockTrades(net: Network, m: Mint, block: Block)
    requires MarketOk(m.market) && m.market.height == m.height
    ensures InBlock(ExtendBy(net, m, block), R.ApplyAll(net, m.reg, block.steps), m.market.log)
    ensures ExtendBy(net, m, block).height == m.height + 1
  {
    var reg := R.ApplyAll(net, m.reg, block.steps);
    SettleOk(net, m, block);
    RouteAllOk(Settle(net, m, block), block.arrivals, reg, m.market.log);
    var routed := RouteAll(Settle(net, m, block), block.arrivals);
    TradeOk(routed.market, M.ObserveStep(reg.records, block.payments, routed.mtp, routed.height), reg.records);
  }

  lemma ExtendOk(net: Network, m: Mint, block: Block)
    requires Consistent(m) && LegalTurn(m, MintLoop.Extend(block))
    ensures Consistent(ExtendBy(net, m, block))
  {
    BlockSteps(net, m.reg, block.steps, m.height);
    BlockTrades(net, m, block);
    NextIsConsistent(m, ExtendBy(net, m, block), R.ApplyAll(net, m.reg, block.steps));
  }

  lemma NextIsConsistent(m: Mint, after: Mint, reg: Reg)
    requires Consistent(m) && after.height == m.height + 1
    requires InBlock(after, reg, m.market.log) && RegInv(reg, m.height + 1)
    requires forall h: Height | h <= m.height :: TruncateReg(reg, h) == TruncateReg(m.reg, h)
    ensures Consistent(after)
  {
    HistoryKept(m, after);
    JoinedAtTip(after);
  }

  /** What differs only above the old tip agrees with itself at every height up to it. */
  lemma HistoryKept(m: Mint, after: Mint)
    requires Consistent(m) && SameBelow(after.market.log, m.market.log, m.height + 1)
    requires forall h: Height | h <= m.height :: TruncateReg(after.reg, h) == TruncateReg(m.reg, h)
    ensures forall h: Height | h <= m.height :: JointAt(after, h)
  {
    forall h: Height | h <= m.height ensures JointAt(after, h) {
      SameHistory(m, after, h);
    }
  }

  lemma SameHistory(m: Mint, after: Mint, h: Height)
    requires Consistent(m) && h <= m.height
    requires TruncateReg(after.reg, h) == TruncateReg(m.reg, h) && UpTo(after.market.log, h) == UpTo(m.market.log, h)
    ensures JointAt(after, h)
  {
    assert JointAt(m, h);
  }

  // ---------------------------------------------------------------------------
  // Decision passes, sealing, rewinds
  // ---------------------------------------------------------------------------

  /** The market part of a pass, and what it leaves alone. */
  ghost predicate Kept(m: Mint, t: M.Tracked) {
    && MarketOk(t) && t.height == m.height
    && Joint(m.reg.records, t.book)
    && SameBelow(t.log, m.market.log, m.height)
  }

  lemma {:induction false} RelayCodesOk(m: Mint, t: M.Tracked, codes: seq<OtpCode>)
    requires Kept(m, t)
    ensures Kept(m, RelayCodes(t, codes, m.height))
  {
    if codes != [] {
      RelayCodesOk(m, t, codes[..|codes| - 1]);
      TradeOk(RelayCodes(t, codes[..|codes| - 1], m.height), M.RelayChallengeStep(codes[|codes| - 1], m.height), m.reg.records);
    }
  }

  lemma {:induction false} RelayBuysOk(m: Mint, t: M.Tracked, names: seq<Name>)
    requires Kept(m, t)
    ensures Kept(m, RelayBuys(t, names, m.height))
  {
    if names != [] {
      RelayBuysOk(m, t, names[..|names| - 1]);
      TradeOk(RelayBuys(t, names[..|names| - 1], m.height), M.RelayBuyStep(names[|names| - 1], m.height), m.reg.records);
    }
  }

  /** A pass touches the market at the tip only, and no other faculty but the orders. */
  lemma DecideKept(m: Mint, pass: Pass)
    requires Consistent(m)
    ensures Kept(m, DecideWith(m, pass).market)
    ensures DecideWith(m, pass).reg == m.reg && DecideWith(m, pass).height == m.height
  {
    var codes := RelayCodes(m.market, pass.relayedCodes, m.height);
    RelayCodesOk(m, m.market, pass.relayedCodes);
    RelayBuysOk(m, codes, pass.relayedBuys);
    var relayed := RelayBuys(codes, pass.relayedBuys, m.height);
    var claimed := AdmitClaims(m.orders, m.reg.records, m.mtp, pass.claims);
    TradeOk(relayed, M.PollStep(m.reg.records, PendingNames(claimed), m.height), m.reg.records);
    SameBelowTransitive(DecideWith(m, pass).market.log, relayed.log, m.market.log, m.height);
  }

  lemma DecideOk(m: Mint, pass: Pass)
    requires Consistent(m)
    ensures Consistent(DecideWith(m, pass))
  {
    DecideKept(m, pass);
    var after := DecideWith(m, pass);
    forall h: Height | h < after.height ensures JointAt(after, h) {
      SameHistory(m, after, h);
    }
    JoinedAtTip(after);
  }

  lemma SealOk(m: Mint)
    requires Consistent(m)
    ensures Consistent(Trade(m, M.SealStep(m.height)))
  {
    var s := M.SealStep(m.height);
    M.SealAgrees(m.market, s);
    T.TakeKeepsTrace(m.market, s);
    SealKeepsJoint(m.reg.records, m.market.book);
    var after := Trade(m, s);
    forall h: Height | h < m.height ensures JointAt(after, h) {
      assert JointAt(m, h);
      M.SealUpTo(m.market.log, h);
      M.SealReplay(UpTo(m.market.log, h));
      SealKeepsJoint(TruncateReg(m.reg, h).records, Replay(UpTo(m.market.log, h)));
    }
    JoinedAtTip(after);
  }

  lemma SealKeepsJoint(records: Records, b: Book)
    requires Joint(records, b)
    ensures Joint(records, SealBook(b))
  {
    SimSelf(b);
    SimWeaken(b, b);
    M.SealSim(b, b);
    JointOfSim(records, b, SealBook(b));
  }

  /** The market part of a rewind: lawful, joined to the rewound records, and below `to` what it was. */
  lemma RewindKept(net: Network, m: Mint, to: Height, mtp: Timestamp)
    requires Consistent(m) && to <= m.height
    ensures var after := RewindMint(net, m, to, mtp);
      && MarketOk(after.market) && after.market.height == to && Joint(after.reg.records, after.market.book)
      && SameBelow(after.market.log, m.market.log, to)
  {
    var back, expire := M.RewindStep(to), M.ExpireStep(mtp, to);
    M.RewindAgrees(m.market, back);
    T.TakeKeepsTrace(m.market, back);
    var t := M.Take(m.market, back);
    assert JointAt(m, to);
    TradeOk(t, expire, TruncateReg(m.reg, to).records);
    var after := RewindMint(net, m, to, mtp);
    forall h: Height | h < to ensures UpTo(after.market.log, h) == UpTo(m.market.log, h) {
      UpToTwice(m.market.log, to, h);
      assert UpTo(after.market.log, h) == UpTo(t.log, h);
    }
  }

  lemma RewindOk(net: Network, m: Mint, to: Height, mtp: Timestamp)
    requires Consistent(m) && to <= m.height
    ensures Consistent(RewindMint(net, m, to, mtp))
  {
    RewindKept(net, m, to, mtp);
    R.TruncateKeepsRegInv(m.reg, m.height, to);
    var after := RewindMint(net, m, to, mtp);
    forall h: Height | h < to ensures JointAt(after, h) {
      R.TruncateTwice(m.reg, to, h);
      SameHistory(m, after, h);
    }
    JoinedAtTip(after);
  }

  /**
   After every turn of every run, reorganisations included, registry and market
   are jointly consistent at the tip and at every height a rewind can return to.
   */
  lemma {:induction false} EveryTurnIsConsistent(net: Network, turns: seq<Turn>)
    requires Legal(net, turns)
    ensures Consistent(Run(net, turns))
  {
    if turns == [] {
      M.StartAgrees();
      assert T.AllTraced([], []);
      JoinedAtTip(BORN);
    } else {
      var rest, last := turns[..|turns| - 1], turns[|turns| - 1];
      EveryTurnIsConsistent(net, rest);
      match last
      case Extend(block) => ExtendOk(net, Run(net, rest), block);
      case Decide(pass) => DecideOk(Run(net, rest), pass);
      case Seal => SealOk(Run(net, rest));
      case Rewind(to, mtp) => RewindOk(net, Run(net, rest), to, mtp);
    }
  }

  /** Every sale note a decision pass may sign was opened and settled as the log shows. */
  lemma SignedSalesAreEarned(net: Network, turns: seq<Turn>, note: NameNote)
    requires Legal(net, turns)
    requires var m := Run(net, turns); note in OwedNotes(m.market.book.sales, m.reg.records, PendingNames(m.orders))
    ensures exists o: nat, p: nat :: T.Earned(Run(net, turns).market.log, Run(net, turns).market.why, note, o, p)
  {
    EveryTurnIsConsistent(net, turns);
    var m := Run(net, turns);
    T.EarnedByTrace(m.market, m.reg.records, PendingNames(m.orders), note);
  }
}
