/** Every sale note on order, whichever pass ordered it and whatever was rewound since, is earned by the log as it stands. */
module MintSales {
  import opened Basics
  import opened NameNotes
  import opened Registries
  import opened MarketBooks
  import opened MarketRules
  import opened OrderQueues
  import opened MintLoop
  import opened MintConsistency
  import opened MintOrders
  import opened MintRewinds
  import opened SaleTraces
  import R = RegistryRuns
  import M = MarketRuns

  /** Entry `i` opened the sale that `note` transfers, entry `p` settled it, and nothing closed it between. */
  ghost predicate SettledSince(log: seq<Stamped>, why: seq<M.Step>, note: NameNote, i: nat, p: nat) {
    && i < p < |log| && |log| == |why|
    && log[i].event.Opened?
    && var sale := log[i].event.sale;
    && note == SaleNoteOf(sale)
    && OpenedBy(Replay(log[..i]), sale, why[i])
    && SettledBy(log, why, sale, p)
    && forall k | i < k < p :: !Closes(log[k].event, sale.name)
  }

  /** The sale was settled no later than the order was placed. */
  ghost predicate EarnedOrder(log: seq<Stamped>, why: seq<M.Step>, o: Order) {
    exists i: nat, p: nat :: SettledSince(log, why, o.note, i, p) && log[p].height <= o.origin
  }

  ghost predicate OrdersEarned(m: Mint) {
    forall o | o in m.orders && o.note.SaleNote? :: EarnedOrder(m.market.log, m.market.why, o)
  }

  // ---------------------------------------------------------------------------
  // What a log keeps
  // ---------------------------------------------------------------------------

  lemma PrefixKeeps(log: seq<Stamped>, why: seq<M.Step>, n: nat, note: NameNote, i: nat, p: nat)
    requires p < n <= |log| == |why|
    ensures SettledSince(log, why, note, i, p) <==> SettledSince(log[..n], why[..n], note, i, p)
  {
    if i < n { assert log[..n][..i] == log[..i]; }
  }

  ghost predicate Grows(t: M.Tracked, u: M.Tracked) {
    t.log <= u.log && t.why <= u.why && |t.log| == |t.why| && |u.log| == |u.why|
  }

  lemma GrownEarned(t: M.Tracked, u: M.Tracked, o: Order)
    requires Grows(t, u) && EarnedOrder(t.log, t.why, o)
    ensures EarnedOrder(u.log, u.why, o)
  {
    var i: nat, p: nat :| SettledSince(t.log, t.why, o.note, i, p) && t.log[p].height <= o.origin;
    assert u.log[..|t.log|] == t.log && u.why[..|t.log|] == t.why;
    PrefixKeeps(u.log, u.why, |t.log|, o.note, i, p);
  }

  lemma TradeGrows(t: M.Tracked, s: M.Step)
    requires !s.SealStep? && !s.RewindStep? && |t.log| == |t.why|
    ensures Grows(t, M.Take(t, s))
  {
  }

  lemma {:induction false} RouteAllGrows(m: Mint, arrivals: seq<Arrival>)
    requires |m.market.log| == |m.market.why|
    ensures Grows(m.market, RouteAll(m, arrivals).market)
  {
    if arrivals != [] {
      var before, a := RouteAll(m, arrivals[..|arrivals| - 1]), arrivals[|arrivals| - 1];
      RouteAllGrows(m, arrivals[..|arrivals| - 1]);
      match a
      case MarketMemo(request, feeOk, code) =>
        var name := if request.ListRequest? then request.listing.name else request.name;
        TradeGrows(before.market, M.AdmitStep(before.reg.records, request, feeOk, NotePending(before.orders, name), code, before.mtp, before.height));
      case MarketReply(response) => TradeGrows(before.market, M.AnswerStep(before.reg.records, response, before.height));
      case _ =>
    }
  }

  lemma {:induction false} RelaysGrow(t: M.Tracked, codes: seq<OtpCode>, names: seq<Name>, height: Height)
    requires |t.log| == |t.why|
    ensures Grows(t, RelayBuys(RelayCodes(t, codes, height), names, height))
  {
    if names != [] {
      RelaysGrow(t, codes, names[..|names| - 1], height);
      TradeGrows(RelayBuys(RelayCodes(t, codes, height), names[..|names| - 1], height), M.RelayBuyStep(names[|names| - 1], height));
    } else if codes != [] {
      RelaysGrow(t, codes[..|codes| - 1], [], height);
      TradeGrows(RelayCodes(t, codes[..|codes| - 1], height), M.RelayChallengeStep(codes[|codes| - 1], height));
    }
  }

  // ---------------------------------------------------------------------------
  // What the queue keeps
  // ---------------------------------------------------------------------------

  /** Each sale order of `b` is a sale order of `a`, in some state. */
  ghost predicate Carries(a: Orders, b: Orders) {
    forall o | o in b && o.note.SaleNote? :: exists q :: q in a && q.note == o.note && q.origin == o.origin
  }

  lemma DescendsCarries(a: Orders, b: Orders)
    requires forall h: Height :: Descends(a, b, h)
    ensures Carries(a, b)
  {
    forall o | o in b && o.note.SaleNote? ensures exists q :: q in a && q.note == o.note && q.origin == o.origin {
      assert Descends(a, b, o.origin);
    }
  }

  lemma CarriesTrans(a: Orders, b: Orders, c: Orders)
    requires Carries(a, b) && Carries(b, c)
    ensures Carries(a, c)
  {
    forall o | o in c && o.note.SaleNote? ensures exists q :: q in a && q.note == o.note && q.origin == o.origin {
      var r :| r in b && r.note == o.note && r.origin == o.origin;
      var q :| q in a && q.note == r.note && q.origin == r.origin;
    }
  }

  lemma CarriedEarned(t: M.Tracked, u: M.Tracked, a: Orders, b: Orders)
    requires Grows(t, u) && Carries(a, b)
    requires forall o | o in a && o.note.SaleNote? :: EarnedOrder(t.log, t.why, o)
    ensures forall o | o in b && o.note.SaleNote? :: EarnedOrder(u.log, u.why, o)
  {
    forall o | o in b && o.note.SaleNote? ensures EarnedOrder(u.log, u.why, o) {
      var q :| q in a && q.note == o.note && q.origin == o.origin;
      GrownEarned(t, u, q);
      var i: nat, p: nat :| SettledSince(u.log, u.why, q.note, i, p) && u.log[p].height <= q.origin;
    }
  }

  lemma {:induction false} RouteAllCarries(m: Mint, arrivals: seq<Arrival>)
    ensures Carries(m.orders, RouteAll(m, arrivals).orders)
  {
    if arrivals != [] { RouteAllCarries(m, arrivals[..|arrivals| - 1]); }
  }

  lemma {:induction false} AdmitClaimsCarries(orders: Orders, records: Records, mtp: Timestamp, claims: seq<PaidClaim>)
    ensures Carries(orders, AdmitClaims(orders, records, mtp, claims))
  {
    if claims != [] { AdmitClaimsCarries(orders, records, mtp, claims[..|claims| - 1]); }
  }

  lemma {:induction false} AdmitReleasesCarries(orders: Orders, records: Records, sales: seq<OpenSale>, tip: Height, names: seq<Name>)
    ensures Carries(orders, AdmitReleases(orders, records, sales, tip, names))
  {
    if names != [] { AdmitReleasesCarries(orders, records, sales, tip, names[..|names| - 1]); }
  }

  lemma SettleOrdersCarries(m: Mint, orders: Orders, pass: Pass)
    ensures Carries(orders, SettleOrders(m, orders, pass))
  {
    var expired := ExpireSent(orders, m.height);
    var notes := AuthorizedNotes(expired);
    var kept := DropDueUpdates(expired, m.reg.records, m.mtp, notes);
    var due := AdmitReleases(kept, m.reg.records, m.market.book.sales, m.height, NamesDue(m.reg.records, m.mtp));
    forall h: Height
      ensures Descends(orders, expired, h) && Descends(expired, kept, h) && Descends(due, SettleOrders(m, orders, pass), h)
    {
      PointwiseDescends(orders, expired, h);
      DropDueDescends(expired, m.reg.records, m.mtp, notes, h);
      SubmitDescends(due, m.reg.records, pass.broadcast, AuthorizedNotes(due), h);
    }
    DescendsCarries(orders, expired);
    DescendsCarries(expired, kept);
    DescendsCarries(due, SettleOrders(m, orders, pass));
    AdmitReleasesCarries(kept, m.reg.records, m.market.book.sales, m.height, NamesDue(m.reg.records, m.mtp));
    CarriesTrans(orders, expired, kept);
    CarriesTrans(orders, kept, due);
    CarriesTrans(orders, due, SettleOrders(m, orders, pass));
  }

  /** Each sale order after the sweep was there before or is one of the notes just owed, ordered at the tip. */
  lemma {:induction false} AdmitNotesCarries(orders: Orders, origin: Height, notes: seq<NameNote>)
    ensures forall o | o in AdmitNotes(orders, origin, notes) ::
      o in orders || (o.note in notes && o.origin == origin)
  {
    if notes != [] { AdmitNotesCarries(orders, origin, notes[..|notes| - 1]); }
  }

  // ---------------------------------------------------------------------------
  // Turn by turn
  // ---------------------------------------------------------------------------

  lemma GrowsTrans(t: M.Tracked, u: M.Tracked, v: M.Tracked)
    requires Grows(t, u) && Grows(u, v)
    ensures Grows(t, v)
  {
  }

  lemma SettleGrows(net: Network, m: Mint, block: Block)
    requires |m.market.log| == |m.market.why|
    ensures Grows(m.market, Settle(net, m, block).market)
  {
    var m1 := Confirm(net, m, block);
    TradeGrows(m.market, M.ExpireStep(m1.mtp, m1.height));
    TradeGrows(M.Take(m.market, M.ExpireStep(m1.mtp, m1.height)), M.ReconcileStep(m1.reg.records, m1.height));
  }

  lemma ExtendEarned(net: Network, m: Mint, block: Block)
    requires OrdersEarned(m) && |m.market.log| == |m.market.why|
    ensures OrdersEarned(ExtendBy(net, m, block))
  {
    var settled := Settle(net, m, block);
    var routed := RouteAll(settled, block.arrivals);
    SettleGrows(net, m, block);
    RouteAllGrows(settled, block.arrivals);
    TradeGrows(routed.market, M.ObserveStep(routed.reg.records, block.payments, routed.mtp, routed.height));
    GrowsTrans(m.market, settled.market, routed.market);
    GrowsTrans(m.market, routed.market, ExtendBy(net, m, block).market);
    SettledFaculties(net, m, block);
    forall h: Height ensures Descends(m.orders, settled.orders, h) {
      ReconcileDescends(net, settled.reg, m.orders, h);
    }
    DescendsCarries(m.orders, settled.orders);
    RouteAllCarries(settled, block.arrivals);
    CarriesTrans(m.orders, settled.orders, routed.orders);
    CarriedEarned(m.market, ExtendBy(net, m, block).market, m.orders, routed.orders);
  }

  /** The sweep's notes are earned by the log it reads. */
  lemma OwedEarned(t: M.Tracked, records: Records, pending: set<Name>, note: NameNote, height: Height)
    requires MarketOk(t) && t.height == height && note in OwedNotes(t.book.sales, records, pending)
    ensures EarnedOrder(t.log, t.why, Order(note, height, Authorized))
  {
    EarnedByTrace(t, records, pending, note);
    var i: nat, p: nat :| Earned(t.log, t.why, note, i, p);
    assert SettledSince(t.log, t.why, note, i, p) && t.log[p].height <= height;
  }

  lemma SweptEarned(t: M.Tracked, orders: Orders, records: Records, pending: set<Name>, height: Height)
    requires MarketOk(t) && t.height == height
    requires forall o | o in orders && o.note.SaleNote? :: EarnedOrder(t.log, t.why, o)
    ensures forall o | o in AdmitNotes(orders, height, OwedNotes(t.book.sales, records, pending)) && o.note.SaleNote? ::
      EarnedOrder(t.log, t.why, o)
  {
    var owed := OwedNotes(t.book.sales, records, pending);
    AdmitNotesCarries(orders, height, owed);
    forall o | o in AdmitNotes(orders, height, owed) && o.note.SaleNote? ensures EarnedOrder(t.log, t.why, o) {
      if o !in orders {
        OwedEarned(t, records, pending, o.note, height);
        var i: nat, p: nat :| SettledSince(t.log, t.why, o.note, i, p) && t.log[p].height <= height;
      }
    }
  }

  lemma DecideEarned(m: Mint, pass: Pass)
    requires OrdersEarned(m) && Consistent(m)
    ensures OrdersEarned(DecideWith(m, pass))
  {
    var claimed := AdmitClaims(m.orders, m.reg.records, m.mtp, pass.claims);
    var codes := RelayCodes(m.market, pass.relayedCodes, m.height);
    var relayed := RelayBuys(codes, pass.relayedBuys, m.height);
    RelayCodesOk(m, m.market, pass.relayedCodes);
    RelayBuysOk(m, codes, pass.relayedBuys);
    RelaysGrow(m.market, pass.relayedCodes, pass.relayedBuys, m.height);
    AdmitClaimsCarries(m.orders, m.reg.records, m.mtp, pass.claims);
    CarriedEarned(m.market, relayed, m.orders, claimed);
    SweptEarned(relayed, claimed, m.reg.records, PendingNames(claimed), m.height);
    PassEarned(m, pass, claimed, relayed);
  }

  lemma PassEarned(m: Mint, pass: Pass, claimed: Orders, relayed: M.Tracked)
    requires claimed == AdmitClaims(m.orders, m.reg.records, m.mtp, pass.claims) && |relayed.log| == |relayed.why|
    requires relayed == RelayBuys(RelayCodes(m.market, pass.relayedCodes, m.height), pass.relayedBuys, m.height)
    requires forall o | o in AdmitNotes(claimed, m.height, OwedNotes(relayed.book.sales, m.reg.records, PendingNames(claimed)))
        && o.note.SaleNote? :: EarnedOrder(relayed.log, relayed.why, o)
    ensures OrdersEarned(DecideWith(m, pass))
  {
    var p := Polled(m, pass);
    TradeGrows(relayed, M.PollStep(m.reg.records, PendingNames(claimed), m.height));
    SettleOrdersCarries(p, p.orders, pass);
    CarriedEarned(relayed, p.market, p.orders, SettleOrders(p, p.orders, pass));
  }

  lemma SealedSettled(log: seq<Stamped>, why: seq<M.Step>, note: NameNote, i: nat, p: nat)
    requires SettledSince(log, why, note, i, p)
    ensures SettledSince(SealLog(log), why, note, i, p)
  {
    var sealed := SealLog(log);
    assert sealed[..i] == SealLog(log[..i]);
    M.SealReplay(log[..i]);
    SealSettled(log, why, log[i].event.sale, p);
    assert forall k | i < k < p :: sealed[k].event == SealEvent(log[k].event);
  }

  lemma SealEarned(m: Mint)
    requires OrdersEarned(m)
    ensures OrdersEarned(Trade(m, M.SealStep(m.height)))
  {
    var after := Trade(m, M.SealStep(m.height));
    forall o | o in after.orders && o.note.SaleNote? ensures EarnedOrder(after.market.log, after.market.why, o) {
      var i: nat, p: nat :| SettledSince(m.market.log, m.market.why, o.note, i, p) && m.market.log[p].height <= o.origin;
      SealedSettled(m.market.log, m.market.why, o.note, i, p);
      assert after.market.log[p].height == m.market.log[p].height;
    }
  }

  lemma PrefixEarned(log: seq<Stamped>, why: seq<M.Step>, n: nat, o: Order)
    requires n <= |log| && EarnedOrder(log, why, o)
    requires forall p | n <= p < |log| :: log[p].height > o.origin
    ensures EarnedOrder(log[..n], why[..n], o)
  {
    var i: nat, p: nat :| SettledSince(log, why, o.note, i, p) && log[p].height <= o.origin;
    PrefixKeeps(log, why, n, o.note, i, p);
  }

  lemma RewoundTrace(t: M.Tracked, to: Height)
    requires LogOrdered(t.log) && |t.why| == |t.log|
    ensures var n := |UpTo(t.log, to)|;
      && n <= |t.log| && M.Take(t, M.RewindStep(to)).log == t.log[..n] && M.Take(t, M.RewindStep(to)).why == t.why[..n]
      && forall p | n <= p < |t.log| :: t.log[p].height > to
  {
    UpToIsPrefix(t.log, to);
  }

  /** A sale order that survives a rewind was settled at or below it. */
  lemma RewoundEarned(t: M.Tracked, to: Height, o: Order)
    requires LogOrdered(t.log) && |t.why| == |t.log| && EarnedOrder(t.log, t.why, o) && o.origin <= to
    ensures EarnedOrder(M.Take(t, M.RewindStep(to)).log, M.Take(t, M.RewindStep(to)).why, o)
  {
    RewoundTrace(t, to);
    PrefixEarned(t.log, t.why, |UpTo(t.log, to)|, o);
  }

  lemma ReopenedEarned(t: M.Tracked, orders: Orders, to: Height)
    requires LogOrdered(t.log) && |t.why| == |t.log|
    requires forall o | o in orders && o.note.SaleNote? :: EarnedOrder(t.log, t.why, o)
    ensures var back := M.Take(t, M.RewindStep(to));
      forall o | o in RewindTo(orders, to) && o.note.SaleNote? :: EarnedOrder(back.log, back.why, o)
  {
    var back := M.Take(t, M.RewindStep(to));
    RewindMembers(orders, to);
    forall o | o in RewindTo(orders, to) && o.note.SaleNote? ensures EarnedOrder(back.log, back.why, o) {
      var k :| 0 <= k < |orders| && orders[k].origin <= to && o == Reopened(orders[k]);
      assert orders[k] in orders;
      RewoundEarned(t, to, orders[k]);
      SameNote(back.log, back.why, orders[k], o);
    }
  }

  lemma SameNote(log: seq<Stamped>, why: seq<M.Step>, a: Order, b: Order)
    requires EarnedOrder(log, why, a) && b.note == a.note && b.origin == a.origin
    ensures EarnedOrder(log, why, b)
  {
    var i: nat, p: nat :| SettledSince(log, why, a.note, i, p) && log[p].height <= a.origin;
  }

  lemma RewindEarned(net: Network, m: Mint, to: Height, mtp: Timestamp)
    requires OrdersEarned(m) && Consistent(m) && to <= m.height
    ensures OrdersEarned(RewindMint(net, m, to, mtp))
  {
    var t := M.Take(m.market, M.RewindStep(to));
    var back := RewindTo(m.orders, to);
    RewoundTrace(m.market, to);
    ReopenedEarned(m.market, m.orders, to);
    TradeGrows(t, M.ExpireStep(mtp, to));
    forall h: Height ensures Descends(back, ReconcileSeen(net, TruncateReg(m.reg, to), back), h) {
      ReconcileDescends(net, TruncateReg(m.reg, to), back, h);
    }
    DescendsCarries(back, ReconcileSeen(net, TruncateReg(m.reg, to), back));
    CarriedEarned(t, RewindMint(net, m, to, mtp).market, back, RewindMint(net, m, to, mtp).orders);
  }

  /**
   In every reachable state, whatever was rewound, every sale note on order was opened
   and then settled by entries of the log as it now stands, the settlement at or below
   the height of the order, with no lapse or close between.
   */
  lemma {:induction false} EverySaleOrderIsEarned(net: Network, turns: seq<Turn>)
    requires Legal(net, turns)
    ensures OrdersEarned(Run(net, turns))
  {
    if turns != [] {
      var rest, last := turns[..|turns| - 1], turns[|turns| - 1];
      EverySaleOrderIsEarned(net, rest);
      EveryTurnIsConsistent(net, rest);
      var m := Run(net, rest);
      match last
      case Extend(block) => ExtendEarned(net, m, block);
      case Decide(pass) => DecideEarned(m, pass);
      case Seal => SealEarned(m);
      case Rewind(to, mtp) => RewindEarned(net, m, to, mtp);
    }
  }
}
