/**
 Who may act on a name: on rewind-free runs an open buy excludes every order but its
 own sale note.
 */
module MintExclusion {
  import opened Basics
  import opened NameNotes
  import opened Registries
  import opened MarketBooks
  import opened MarketRules
  import opened MarketInvariants
  import opened OrderQueues
  import opened MintLoop
  import opened MintConsistency
  import R = RegistryRuns
  import M = MarketRuns

  /** The notes the mint still means to put on chain. */
  function Unresolved(orders: Orders): set<NameNote> {
    set i | 0 <= i < |orders| && !orders[i].state.Seen? :: orders[i].note
  }

  /** Any unresolved order on a name with an open buy is that buy's own sale note, and the buy is paid. */
  ghost predicate Excludes(sales: seq<OpenSale>, notes: set<NameNote>) {
    forall s, note | s in sales && note in notes && note.name == s.name :: s.phase.Paid? && note == SaleNoteOf(s)
  }

  // ---------------------------------------------------------------------------
  // What each queue operation does to the unresolved notes
  // ---------------------------------------------------------------------------

  lemma AdmitUnresolved(orders: Orders, origin: Height, note: NameNote)
    ensures Unresolved(AdmitOrder(orders, origin, note)) <= Unresolved(orders) + {note}
  {
  }

  lemma ReconcileUnresolved(net: Network, r: Reg, orders: Orders)
    ensures Unresolved(ReconcileSeen(net, r, orders)) <= Unresolved(orders)
  {
    ReconcileMembers(net, r, orders);
    var after := ReconcileSeen(net, r, orders);
    forall note | note in Unresolved(after) ensures note in Unresolved(orders) {
      var i :| 0 <= i < |after| && !after[i].state.Seen? && after[i].note == note;
      assert after[i] in after;
      var k :| 0 <= k < |orders| && after[i] == MarkSeen(net, r.history, orders[k]);
    }
  }

  lemma DropUnresolved(orders: Orders, name: Name)
    ensures Unresolved(DropNote(orders, name)) <= Unresolved(orders)
  {
    var k := FirstUnresolved(orders, name, 0);
    var after := DropNote(orders, name);
    if k < |orders| {
      assert forall i | 0 <= i < |after| :: after[i] == if i < k then orders[i] else orders[i + 1];
    }
  }

  lemma PointwiseUnresolved(orders: Orders, name: Name, height: Height)
    ensures Unresolved(ExpireSent(orders, height)) <= Unresolved(orders)
    ensures Unresolved(MarkSent(orders, name, height)) <= Unresolved(orders)
  {
  }

  lemma {:induction false} DropDueUnresolved(orders: Orders, records: Records, mtp: Timestamp, notes: seq<NameNote>)
    ensures Unresolved(DropDueUpdates(orders, records, mtp, notes)) <= Unresolved(orders)
  {
    if notes != [] {
      DropDueUnresolved(orders, records, mtp, notes[..|notes| - 1]);
      DropUnresolved(DropDueUpdates(orders, records, mtp, notes[..|notes| - 1]), notes[|notes| - 1].name);
    }
  }

  lemma {:induction false} SubmitUnresolved(orders: Orders, records: Records, broadcast: map<Name, Height>, notes: seq<NameNote>)
    ensures Unresolved(Submit(orders, records, broadcast, notes)) <= Unresolved(orders)
  {
    if notes != [] {
      var before, note := Submit(orders, records, broadcast, notes[..|notes| - 1]), notes[|notes| - 1];
      SubmitUnresolved(orders, records, broadcast, notes[..|notes| - 1]);
      DropUnresolved(before, note.name);
      if note.name in broadcast {
        PointwiseUnresolved(before, note.name, broadcast[note.name]);
      }
    }
  }

  // ---------------------------------------------------------------------------
  // Exclusion, turn by turn
  // ---------------------------------------------------------------------------

  lemma FewerStillExclude(sales: seq<OpenSale>, fewer: seq<OpenSale>, notes: set<NameNote>, less: set<NameNote>)
    requires Excludes(sales, notes) && less <= notes && forall s | s in fewer :: s in sales
    ensures Excludes(fewer, less)
  {
  }

  lemma SettleExcludes(net: Network, m: Mint, block: Block)
    requires Excludes(m.market.book.sales, Unresolved(m.orders))
    ensures var after := Settle(net, m, block); Excludes(after.market.book.sales, Unresolved(after.orders))
  {
    var reg := R.ApplyAll(net, m.reg, block.steps);
    ReconcileUnresolved(net, reg, m.orders);
    var sales := m.market.book.sales;
    WithoutNamesMembers(sales, ToSet(LapsedNames(sales, block.mtp)));
    var unexpired := Expire(m.market.book, block.mtp, m.height + 1).book.sales;
    WithoutNamesMembers(unexpired, ToSet(MovedNames(unexpired, reg.records)));
    FewerStillExclude(sales, Settle(net, m, block).market.book.sales, Unresolved(m.orders),
                      Unresolved(ReconcileSeen(net, reg, m.orders)));
  }

  lemma NotPendingUnresolved(orders: Orders, name: Name)
    requires !NotePending(orders, name)
    ensures forall note | note in Unresolved(orders) :: note.name != name
  {
  }

  /** A buy opens only on a name with no unresolved order, and an order is admitted only on a name with no buy. */
  lemma RouteExcludes(m: Mint, a: Arrival)
    requires Excludes(m.market.book.sales, Unresolved(m.orders))
    ensures var after := Route(m, a); Excludes(after.market.book.sales, Unresolved(after.orders))
  {
    var sales := m.market.book.sales;
    match a
    case MarketMemo(request, _, _) =>
      if request.BuyRequest? && !NotePending(m.orders, request.name) {
        NotPendingUnresolved(m.orders, request.name);
      }
    case MarketReply(_) =>
    case TransitionReply(name, approved) =>
      if approved.Some? {
        var note := AuthorizeApproved(m.reg.records, name, approved.value, m.mtp);
        if note.Some? { AdmitUnresolved(m.orders, m.height, note.value); }
      }
      if !HasSale(sales, name) {
        forall s | s in sales ensures s.name != name {
          var i :| 0 <= i < |sales| && sales[i] == s;
        }
      }
    case OtherMemo =>
  }

  lemma {:induction false} RouteAllExcludes(m: Mint, arrivals: seq<Arrival>)
    requires Excludes(m.market.book.sales, Unresolved(m.orders))
    ensures var after := RouteAll(m, arrivals); Excludes(after.market.book.sales, Unresolved(after.orders))
  {
    if arrivals != [] {
      RouteAllExcludes(m, arrivals[..|arrivals| - 1]);
      RouteExcludes(RouteAll(m, arrivals[..|arrivals| - 1]), arrivals[|arrivals| - 1]);
    }
  }

  /** A payment only turns an unpaid sale, which no order shares, into a paid one. */
  lemma ObserveExcludes(b: Book, records: Records, payments: Payments, mtp: Timestamp, notes: set<NameNote>)
    requires Excludes(b.sales, notes)
    ensures Excludes(Observe(b, records, payments, mtp).book.sales, notes)
  {
    var after := Observe(b, records, payments, mtp).book.sales;
    forall s, note | s in after && note in notes && note.name == s.name
      ensures s.phase.Paid? && note == SaleNoteOf(s)
    {
      var i :| 0 <= i < |after| && after[i] == s;
      assert b.sales[i] in b.sales;
    }
  }

  lemma ExtendExcludes(net: Network, m: Mint, block: Block)
    requires Excludes(m.market.book.sales, Unresolved(m.orders))
    ensures var after := ExtendBy(net, m, block); Excludes(after.market.book.sales, Unresolved(after.orders))
  {
    SettleExcludes(net, m, block);
    RouteAllExcludes(Settle(net, m, block), block.arrivals);
    var routed := RouteAll(Settle(net, m, block), block.arrivals);
    ObserveExcludes(routed.market.book, routed.reg.records, block.payments, routed.mtp, Unresolved(routed.orders));
  }

  /** A claim needs its name free, and a buy needs its name live. */
  lemma {:induction false} ClaimsExclude(orders: Orders, records: Records, mtp: Timestamp, claims: seq<PaidClaim>, b: Book)
    requires Joint(records, b) && Excludes(b.sales, Unresolved(orders))
    ensures Excludes(b.sales, Unresolved(AdmitClaims(orders, records, mtp, claims)))
  {
    if claims != [] {
      var before, c := AdmitClaims(orders, records, mtp, claims[..|claims| - 1]), claims[|claims| - 1];
      ClaimsExclude(orders, records, mtp, claims[..|claims| - 1], b);
      var note := AuthorizeClaim(records, c, mtp);
      if note.Some? { AdmitUnresolved(before, c.paidAt, note.value); }
    }
  }

  lemma FlagsExclude(l: seq<OpenSale>, r: seq<OpenSale>, notes: set<NameNote>)
    requires SalesSim(l, r, false) && Excludes(l, notes)
    ensures Excludes(r, notes)
  {
    forall s, note | s in r && note in notes && note.name == s.name
      ensures s.phase.Paid? && note == SaleNoteOf(s)
    {
      var i :| 0 <= i < |r| && r[i] == s;
      assert SaleSim(l[i], r[i], false) && l[i] in l;
    }
  }

  lemma {:induction false} RelayCodesSales(t: M.Tracked, codes: seq<OtpCode>, height: Height)
    ensures RelayCodes(t, codes, height).book.sales == t.book.sales
  {
    if codes != [] { RelayCodesSales(t, codes[..|codes| - 1], height); }
  }

  lemma {:induction false} RelayBuysExclude(t: M.Tracked, names: seq<Name>, height: Height, notes: set<NameNote>)
    requires Excludes(t.book.sales, notes)
    ensures Excludes(RelayBuys(t, names, height).book.sales, notes)
  {
    if names != [] {
      var before := RelayBuys(t, names[..|names| - 1], height);
      RelayBuysExclude(t, names[..|names| - 1], height, notes);
      FlagsExclude(before.book.sales, RelayBuy(before.book, names[|names| - 1]).sales, notes);
    }
  }

  lemma {:induction false} AdmitNotesUnresolved(orders: Orders, origin: Height, notes: seq<NameNote>)
    ensures Unresolved(AdmitNotes(orders, origin, notes)) <= Unresolved(orders) + ToSet(notes)
  {
    if notes != [] {
      var n := |notes| - 1;
      AdmitNotesUnresolved(orders, origin, notes[..n]);
      AdmitUnresolved(AdmitNotes(orders, origin, notes[..n]), origin, notes[n]);
      ToSetSnoc(notes);
    }
  }

  /** With one sale per name, a sale note owed on a name is owed by the sale open on it. */
  lemma OwedExcludes(sales: seq<OpenSale>, records: Records, pending: set<Name>)
    requires OneSalePerName(sales)
    ensures Excludes(sales, ToSet(OwedNotes(sales, records, pending)))
  {
    var owed := OwedNotes(sales, records, pending);
    forall s, note | s in sales && note in owed && note.name == s.name
      ensures s.phase.Paid? && note == SaleNoteOf(s)
    {
      var i :| 0 <= i < |sales| && Signable(sales[i], pending) && note == SaleNoteOf(sales[i]);
      var k :| 0 <= k < |sales| && sales[k] == s;
      assert SaleNoteOf(sales[i]).name == sales[i].name;
      assert i == k;
    }
  }

  lemma PollExcludes(m: Mint)
    requires BookInv(m.market.book) && Excludes(m.market.book.sales, Unresolved(m.orders))
    ensures var after := PollMarket(m); Excludes(after.market.book.sales, Unresolved(after.orders))
  {
    var sales, pending := m.market.book.sales, PendingNames(m.orders);
    PollLeaves(m);
    OwedExcludes(sales, m.reg.records, pending);
    SweepExcludes(sales, ToSet(OverNames(sales, m.reg.records, pending)), m.orders, m.height,
                  OwedNotes(sales, m.reg.records, pending));
  }

  lemma SweepExcludes(sales: seq<OpenSale>, over: set<Name>, orders: Orders, height: Height, owed: seq<NameNote>)
    requires Excludes(sales, Unresolved(orders)) && Excludes(sales, ToSet(owed))
    ensures Excludes(WithoutNames(sales, over), Unresolved(AdmitNotes(orders, height, owed)))
  {
    AdmitNotesUnresolved(orders, height, owed);
    WithoutNamesMembers(sales, over);
    FewerStillExclude(sales, WithoutNames(sales, over), Unresolved(orders) + ToSet(owed),
                      Unresolved(AdmitNotes(orders, height, owed)));
  }

  lemma PollLeaves(m: Mint)
    ensures var sales, pending := m.market.book.sales, PendingNames(m.orders);
      && PollMarket(m).market.book.sales == WithoutNames(sales, ToSet(OverNames(sales, m.reg.records, pending)))
      && PollMarket(m).orders == AdmitNotes(m.orders, m.height, OwedNotes(sales, m.reg.records, pending))
  {
  }

  lemma {:induction false} ReleasesExclude(orders: Orders, records: Records, sales: seq<OpenSale>, tip: Height, names: seq<Name>)
    requires Excludes(sales, Unresolved(orders))
    ensures Excludes(sales, Unresolved(AdmitReleases(orders, records, sales, tip, names)))
  {
    if names != [] {
      var before, name := AdmitReleases(orders, records, sales, tip, names[..|names| - 1]), names[|names| - 1];
      ReleasesExclude(orders, records, sales, tip, names[..|names| - 1]);
      if !HasSale(sales, name) && name in records {
        AdmitUnresolved(before, tip, ReleaseNote(name, records[name].ua, records[name].commitment));
        forall s | s in sales ensures s.name != name {
          var i :| 0 <= i < |sales| && sales[i] == s;
        }
      }
    }
  }

  lemma SettleOrdersExclude(m: Mint, orders: Orders, pass: Pass)
    requires Excludes(m.market.book.sales, Unresolved(orders))
    ensures Excludes(m.market.book.sales, Unresolved(SettleOrders(m, orders, pass)))
  {
    var expired := ExpireSent(orders, m.height);
    PointwiseUnresolved(orders, 0, m.height);
    var kept := DropDueUpdates(expired, m.reg.records, m.mtp, AuthorizedNotes(expired));
    DropDueUnresolved(expired, m.reg.records, m.mtp, AuthorizedNotes(expired));
    ReleasesExclude(kept, m.reg.records, m.market.book.sales, m.height, NamesDue(m.reg.records, m.mtp));
    var due := AdmitReleases(kept, m.reg.records, m.market.book.sales, m.height, NamesDue(m.reg.records, m.mtp));
    SubmitUnresolved(due, m.reg.records, pass.broadcast, AuthorizedNotes(due));
  }

  lemma DecideExcludes(m: Mint, pass: Pass)
    requires Consistent(m) && Excludes(m.market.book.sales, Unresolved(m.orders))
    ensures var after := DecideWith(m, pass); Excludes(after.market.book.sales, Unresolved(after.orders))
  {
    var claimed := AdmitClaims(m.orders, m.reg.records, m.mtp, pass.claims);
    ClaimsExclude(m.orders, m.reg.records, m.mtp, pass.claims, m.market.book);
    RelayCodesSales(m.market, pass.relayedCodes, m.height);
    var coded := RelayCodes(m.market, pass.relayedCodes, m.height);
    RelayBuysExclude(coded, pass.relayedBuys, m.height, Unresolved(claimed));
    RelayCodesOk(m, m.market, pass.relayedCodes);
    RelayBuysOk(m, coded, pass.relayedBuys);
    var m1 := m.(orders := claimed, market := RelayBuys(coded, pass.relayedBuys, m.height));
    M.LiveInv(m1.market);
    PollExcludes(m1);
    SettleOrdersExclude(PollMarket(m1), PollMarket(m1).orders, pass);
  }

  lemma SealExcludes(m: Mint)
    requires Excludes(m.market.book.sales, Unresolved(m.orders))
    ensures Excludes(Trade(m, M.SealStep(m.height)).market.book.sales, Unresolved(m.orders))
  {
    SimSelf(m.market.book);
    SimWeaken(m.market.book, m.market.book);
    M.SealSim(m.market.book, m.market.book);
    FlagsExclude(m.market.book.sales, SealBook(m.market.book).sales, Unresolved(m.orders));
  }

  ghost predicate RewindFree(turns: seq<Turn>) {
    forall t | t in turns :: !t.Rewind?
  }

  /**
   On every rewind-free run from boot, an open buy excludes every claim, update
   and release order on its name; the one order that may share the name is the
   paid buy's own sale note.
   */
  lemma {:induction false} BuysExcludeOtherOrders(net: Network, turns: seq<Turn>)
    requires Legal(net, turns) && RewindFree(turns)
    ensures var m := Run(net, turns); Excludes(m.market.book.sales, Unresolved(m.orders))
  {
    if turns != [] {
      var rest, last := turns[..|turns| - 1], turns[|turns| - 1];
      BuysExcludeOtherOrders(net, rest);
      EveryTurnIsConsistent(net, rest);
      assert last in turns;
      match last
      case Extend(block) => ExtendExcludes(net, Run(net, rest), block);
      case Decide(pass) => DecideExcludes(Run(net, rest), pass);
      case Seal => SealExcludes(Run(net, rest));
      case Rewind(_, _) => assert false;
    }
  }
}
