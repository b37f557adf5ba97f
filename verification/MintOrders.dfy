/** The mint's orders over whole runs: never two unresolved orders on one name. */
module MintOrders {
  import opened Basics
  import opened NameNotes
  import opened Registries
  import opened MarketBooks
  import opened MarketRules
  import opened OrderQueues
  import opened MintLoop
  import opened MintConsistency
  import AnchorPools
  import R = RegistryRuns

  // ---------------------------------------------------------------------------
  // One unresolved order per name, without rewinds
  // ---------------------------------------------------------------------------

  lemma {:induction false} RouteAllOne(m: Mint, arrivals: seq<Arrival>)
    requires OneUnresolved(m.orders)
    ensures OneUnresolved(RouteAll(m, arrivals).orders)
  {
    if arrivals != [] {
      RouteAllOne(m, arrivals[..|arrivals| - 1]);
    }
  }

  lemma {:induction false} AdmitClaimsOne(orders: Orders, records: Records, mtp: Timestamp, claims: seq<PaidClaim>)
    requires OneUnresolved(orders)
    ensures OneUnresolved(AdmitClaims(orders, records, mtp, claims))
  {
    if claims != [] { AdmitClaimsOne(orders, records, mtp, claims[..|claims| - 1]); }
  }

  lemma {:induction false} AdmitNotesOne(orders: Orders, origin: Height, notes: seq<NameNote>)
    requires OneUnresolved(orders)
    ensures OneUnresolved(AdmitNotes(orders, origin, notes))
  {
    if notes != [] { AdmitNotesOne(orders, origin, notes[..|notes| - 1]); }
  }

  lemma {:induction false} DropDueOne(orders: Orders, records: Records, mtp: Timestamp, notes: seq<NameNote>)
    requires OneUnresolved(orders)
    ensures OneUnresolved(DropDueUpdates(orders, records, mtp, notes))
  {
    if notes != [] {
      DropDueOne(orders, records, mtp, notes[..|notes| - 1]);
      DropKeepsOne(DropDueUpdates(orders, records, mtp, notes[..|notes| - 1]), notes[|notes| - 1].name);
    }
  }

  lemma {:induction false} AdmitReleasesOne(orders: Orders, records: Records, sales: seq<OpenSale>, tip: Height, names: seq<Name>)
    requires OneUnresolved(orders)
    ensures OneUnresolved(AdmitReleases(orders, records, sales, tip, names))
  {
    if names != [] { AdmitReleasesOne(orders, records, sales, tip, names[..|names| - 1]); }
  }

  lemma {:induction false} SubmitOne(orders: Orders, records: Records, broadcast: map<Name, Height>, notes: seq<NameNote>)
    requires OneUnresolved(orders)
    ensures OneUnresolved(Submit(orders, records, broadcast, notes))
  {
    if notes != [] {
      var before, note := Submit(orders, records, broadcast, notes[..|notes| - 1]), notes[|notes| - 1];
      SubmitOne(orders, records, broadcast, notes[..|notes| - 1]);
      DropKeepsOne(before, note.name);
      if note.name in broadcast { MarkSentKeepsOne(before, note.name, broadcast[note.name]); }
    }
  }

  lemma SettleOrdersOne(m: Mint, orders: Orders, pass: Pass)
    requires OneUnresolved(orders)
    ensures OneUnresolved(SettleOrders(m, orders, pass))
  {
    var expired := ExpireSent(orders, m.height);
    ExpireKeepsOne(orders, m.height);
    DropDueOne(expired, m.reg.records, m.mtp, AuthorizedNotes(expired));
    var kept := DropDueUpdates(expired, m.reg.records, m.mtp, AuthorizedNotes(expired));
    AdmitReleasesOne(kept, m.reg.records, m.market.book.sales, m.height, NamesDue(m.reg.records, m.mtp));
    var due := AdmitReleases(kept, m.reg.records, m.market.book.sales, m.height, NamesDue(m.reg.records, m.mtp));
    SubmitOne(due, m.reg.records, pass.broadcast, AuthorizedNotes(due));
  }

  /** The mint as the poll of a pass leaves it. */
  function Polled(m: Mint, pass: Pass): Mint {
    var m1 := m.(orders := AdmitClaims(m.orders, m.reg.records, m.mtp, pass.claims));
    PollMarket(m1.(market := RelayBuys(RelayCodes(m1.market, pass.relayedCodes, m1.height), pass.relayedBuys, m1.height)))
  }

  lemma ForwardOne(net: Network, m: Mint, turn: Turn)
    requires OneUnresolved(m.orders) && !turn.Rewind?
    ensures OneUnresolved(MintLoop.Take(net, m, turn).orders)
  {
    match turn
    case Extend(block) =>
      ReconcileKeepsOne(net, R.ApplyAll(net, m.reg, block.steps), m.orders);
      RouteAllOne(Settle(net, m, block), block.arrivals);
    case Decide(pass) =>
      AdmitClaimsOne(m.orders, m.reg.records, m.mtp, pass.claims);
      var p := Polled(m, pass);
      AdmitNotesOne(AdmitClaims(m.orders, m.reg.records, m.mtp, pass.claims), m.height,
                    OwedNotes(RelayBuys(RelayCodes(m.market, pass.relayedCodes, m.height), pass.relayedBuys, m.height).book.sales,
                              m.reg.records, PendingNames(AdmitClaims(m.orders, m.reg.records, m.mtp, pass.claims))));
      SettleOrdersOne(p, p.orders, pass);
    case Seal =>
  }

  // ---------------------------------------------------------------------------
  // The trail that makes rewinds safe
  // ---------------------------------------------------------------------------

  ghost predicate SeenConfirmed(net: Network, history: History, orders: Orders) {
    forall o | o in orders && o.state.Seen? :: Confirmed(net, history, o)
  }

  /** Every later order of a name follows the confirmation of the earlier ones, and what is seen was confirmed. */
  ghost predicate Trail(net: Network, history: History, orders: Orders) {
    Chained(net, history, orders) && SeenConfirmed(net, history, orders)
  }

  ghost predicate Grown(a: History, b: History) {
    forall n | n in a :: n in b && a[n] <= b[n]
  }

  lemma FollowsGrown(net: Network, a: History, b: History, x: Order, y: Order)
    requires Grown(a, b)
    ensures Confirmed(net, a, x) ==> Confirmed(net, b, x)
    ensures Follows(net, a, x, y) ==> Follows(net, b, x, y)
  {
    if x.note.name in a {
      assert forall i | 0 <= i < |a[x.note.name]| :: b[x.note.name][i] == a[x.note.name][i];
    }
  }

  lemma TrailGrown(net: Network, a: History, b: History, orders: Orders)
    requires Grown(a, b) && Trail(net, a, orders)
    ensures Trail(net, b, orders)
  {
    forall i, j | 0 <= i < j < |orders| ensures Follows(net, b, orders[i], orders[j]) {
      FollowsGrown(net, a, b, orders[i], orders[j]);
    }
    forall o | o in orders && o.state.Seen? ensures Confirmed(net, b, o) {
      FollowsGrown(net, a, b, o, o);
    }
  }

  lemma {:induction false} ReleaseAllGrows(r: Reg, names: seq<Name>, height: Height)
    ensures Grown(r.history, ReleaseAll(r, names, height).history)
  {
    if names != [] { ReleaseAllGrows(r, names[..|names| - 1], height); }
  }

  lemma ApplyGrows(net: Network, r: Reg, s: R.Step)
    ensures Grown(r.history, R.Apply(net, r, s).history)
  {
    match s
    case AdoptStep(_, _) =>
    case ClaimStep(at, mtp, note, nullifier, successor, nfs, expiry) =>
      var seated := if ClaimAdmitted(net, r, note.name, nfs, expiry) then successor else None;
      var r1 := r.(pool := AnchorPools.RetireSpent(r.pool, nfs, seated, at));
      ReleaseAllGrows(r1, Ascending(NamesSpentBy(r1, nfs)), at);
    case SuccessorStep(at, mtp, note, nullifier, nfs) =>
      var r1 := r.(pool := AnchorPools.RetireSpent(r.pool, nfs, None, at));
      ReleaseAllGrows(r1, Ascending(NamesSpentBy(r1, nfs)), at);
    case FollowStep(at, nfs) =>
      var r1 := r.(pool := AnchorPools.RetireSpent(r.pool, nfs, None, at));
      ReleaseAllGrows(r1, Ascending(NamesSpentBy(r1, nfs)), at);
  }

  lemma {:induction false} ApplyAllGrows(net: Network, r: Reg, steps: seq<R.Step>)
    ensures Grown(r.history, R.ApplyAll(net, r, steps).history)
  {
    if steps != [] {
      ApplyAllGrows(net, r, steps[..|steps| - 1]);
      ApplyGrows(net, R.ApplyAll(net, r, steps[..|steps| - 1]), steps[|steps| - 1]);
    }
  }

  lemma ReconcileTrail(net: Network, r: Reg, orders: Orders)
    requires Trail(net, r.history, orders)
    ensures Trail(net, r.history, ReconcileSeen(net, r, orders))
  {
    ChainedReconcile(net, r, orders);
    ReconcileSeenConfirmed(net, r, orders);
  }

  lemma ReconcileSeenConfirmed(net: Network, r: Reg, orders: Orders)
    requires forall o | o in orders && o.state.Seen? :: Confirmed(net, r.history, o)
    ensures SeenConfirmed(net, r.history, ReconcileSeen(net, r, orders))
  {
    ReconcileMembers(net, r, orders);
    var after := ReconcileSeen(net, r, orders);
    forall o | o in after && o.state.Seen? ensures Confirmed(net, r.history, o) {
      var i :| 0 <= i < |orders| && o == MarkSeen(net, r.history, orders[i]) && Retained(r.records, o);
      assert orders[i] in orders;
      SameConfirmation(net, r.history, orders[i], o);
    }
  }

  lemma SameConfirmation(net: Network, history: History, a: Order, b: Order)
    requires a.note == b.note && a.origin == b.origin
    ensures Confirmed(net, history, a) <==> Confirmed(net, history, b)
    ensures forall limit: Height :: ConfirmedBy(net, history, a, limit) <==> ConfirmedBy(net, history, b, limit)
  {
    assert forall rec :: IsConfirmation(net, rec, a) <==> IsConfirmation(net, rec, b);
  }

  /** An order admitted at `origin` extends the trail when everything seen on its name was confirmed by then. */
  lemma AdmitTrail(net: Network, history: History, orders: Orders, origin: Height, note: NameNote)
    requires Trail(net, history, orders)
    requires forall o | o in orders && o.state.Seen? && o.note.name == note.name :: ConfirmedBy(net, history, o, origin)
    ensures Trail(net, history, AdmitOrder(orders, origin, note))
  {
    if !NotePending(orders, note.name) {
      var after := AdmitOrder(orders, origin, note);
      forall i, j | 0 <= i < j < |after| ensures Follows(net, history, after[i], after[j]) {
        if j < |orders| { assert Follows(net, history, orders[i], orders[j]); } else { assert orders[i] in orders; }
      }
    }
  }

  /** At the tip, everything seen has been confirmed. */
  lemma SeenByTip(net: Network, r: Reg, tip: Height, orders: Orders)
    requires RegInv(r, tip) && SeenConfirmed(net, r.history, orders)
    ensures forall o | o in orders && o.state.Seen? :: ConfirmedBy(net, r.history, o, tip)
  {
    forall o | o in orders && o.state.Seen? ensures ConfirmedBy(net, r.history, o, tip) {
      var chain := r.history[o.note.name];
      assert ChainOk(chain, o.note.name, tip);
      var i :| 0 <= i < |chain| && IsConfirmation(net, chain[i], o);
      assert chain[i].confirmedHeight <= tip;
    }
  }

  lemma AdmitTrailAtTip(net: Network, r: Reg, tip: Height, orders: Orders, note: NameNote)
    requires RegInv(r, tip) && Trail(net, r.history, orders)
    ensures Trail(net, r.history, AdmitOrder(orders, tip, note))
  {
    SeenByTip(net, r, tip, orders);
    AdmitTrail(net, r.history, orders, tip, note);
  }

  lemma DropTrail(net: Network, history: History, orders: Orders, name: Name)
    requires Trail(net, history, orders)
    ensures Trail(net, history, DropNote(orders, name))
  {
    var k := FirstUnresolved(orders, name, 0);
    var after := DropNote(orders, name);
    if k < |orders| {
      assert forall i | 0 <= i < |after| :: after[i] == if i < k then orders[i] else orders[i + 1];
    }
  }

  /** Changing states short of `Seen` leaves the trail. */
  lemma StateTrail(net: Network, history: History, a: Orders, b: Orders)
    requires Trail(net, history, a) && |a| == |b|
    requires forall i | 0 <= i < |a| ::
      a[i].note == b[i].note && a[i].origin == b[i].origin && (b[i].state.Seen? ==> a[i].state.Seen?)
    ensures Trail(net, history, b)
  {
    forall i, j | 0 <= i < j < |b| ensures Follows(net, history, b[i], b[j]) {
      SameConfirmation(net, history, a[i], b[i]);
      assert Follows(net, history, a[i], a[j]);
    }
    forall o | o in b && o.state.Seen? ensures Confirmed(net, history, o) {
      var i :| 0 <= i < |b| && b[i] == o;
      assert a[i] in a;
      SameConfirmation(net, history, a[i], b[i]);
    }
  }

  lemma RouteTrail(net: Network, m: Mint, a: Arrival)
    requires RegInv(m.reg, m.height) && Trail(net, m.reg.history, m.orders)
    ensures Trail(net, m.reg.history, Route(m, a).orders)
  {
    if a.TransitionReply? && a.approved.Some? {
      var note := AuthorizeApproved(m.reg.records, a.name, a.approved.value, m.mtp);
      if note.Some? { AdmitTrailAtTip(net, m.reg, m.height, m.orders, note.value); }
    }
  }

  lemma {:induction false} RouteAllTrail(net: Network, m: Mint, arrivals: seq<Arrival>)
    requires RegInv(m.reg, m.height) && Trail(net, m.reg.history, m.orders)
    ensures Trail(net, m.reg.history, RouteAll(m, arrivals).orders)
    ensures RouteAll(m, arrivals).reg == m.reg && RouteAll(m, arrivals).height == m.height
  {
    if arrivals != [] {
      RouteAllTrail(net, m, arrivals[..|arrivals| - 1]);
      RouteTrail(net, RouteAll(m, arrivals[..|arrivals| - 1]), arrivals[|arrivals| - 1]);
    }
  }

  /** Each admitted claim was paid at or above the confirmation of everything seen on its name. */
  ghost predicate ClaimsFollow(net: Network, m: Mint, claims: seq<PaidClaim>) {
    forall c, o | c in claims && o in m.orders && o.state.Seen? && o.note.name == c.name ::
      ConfirmedBy(net, m.reg.history, o, c.paidAt)
  }

  lemma {:induction false} AdmitClaimsTrail(net: Network, m: Mint, claims: seq<PaidClaim>)
    requires Trail(net, m.reg.history, m.orders) && ClaimsFollow(net, m, claims)
    ensures var after := AdmitClaims(m.orders, m.reg.records, m.mtp, claims);
      Trail(net, m.reg.history, after) && forall o | o in after && o.state.Seen? :: o in m.orders
  {
    if claims != [] {
      var rest, c := claims[..|claims| - 1], claims[|claims| - 1];
      AdmitClaimsTrail(net, m, rest);
      var note := AuthorizeClaim(m.reg.records, c, m.mtp);
      if note.Some? {
        AdmitTrail(net, m.reg.history, AdmitClaims(m.orders, m.reg.records, m.mtp, rest), c.paidAt, note.value);
      }
    }
  }

  lemma {:induction false} AdmitNotesTrail(net: Network, r: Reg, tip: Height, orders: Orders, notes: seq<NameNote>)
    requires RegInv(r, tip) && Trail(net, r.history, orders)
    ensures Trail(net, r.history, AdmitNotes(orders, tip, notes))
  {
    if notes != [] {
      AdmitNotesTrail(net, r, tip, orders, notes[..|notes| - 1]);
      AdmitTrailAtTip(net, r, tip, AdmitNotes(orders, tip, notes[..|notes| - 1]), notes[|notes| - 1]);
    }
  }

  lemma {:induction false} DropDueTrail(net: Network, history: History, orders: Orders, records: Records, mtp: Timestamp, notes: seq<NameNote>)
    requires Trail(net, history, orders)
    ensures Trail(net, history, DropDueUpdates(orders, records, mtp, notes))
  {
    if notes != [] {
      DropDueTrail(net, history, orders, records, mtp, notes[..|notes| - 1]);
      DropTrail(net, history, DropDueUpdates(orders, records, mtp, notes[..|notes| - 1]), notes[|notes| - 1].name);
    }
  }

  lemma {:induction false} AdmitReleasesTrail(net: Network, r: Reg, tip: Height, orders: Orders, sales: seq<OpenSale>, names: seq<Name>)
    requires RegInv(r, tip) && Trail(net, r.history, orders)
    ensures Trail(net, r.history, AdmitReleases(orders, r.records, sales, tip, names))
  {
    if names != [] {
      var rest, name := names[..|names| - 1], names[|names| - 1];
      AdmitReleasesTrail(net, r, tip, orders, sales, rest);
      if name in r.records {
        AdmitTrailAtTip(net, r, tip, AdmitReleases(orders, r.records, sales, tip, rest),
                        ReleaseNote(name, r.records[name].ua, r.records[name].commitment));
      }
    }
  }

  lemma {:induction false} SubmitTrail(net: Network, history: History, orders: Orders, records: Records,
                                       broadcast: map<Name, Height>, notes: seq<NameNote>)
    requires Trail(net, history, orders)
    ensures Trail(net, history, Submit(orders, records, broadcast, notes))
  {
    if notes != [] {
      var before, note := Submit(orders, records, broadcast, notes[..|notes| - 1]), notes[|notes| - 1];
      SubmitTrail(net, history, orders, records, broadcast, notes[..|notes| - 1]);
      DropTrail(net, history, before, note.name);
      if note.name in broadcast {
        StateTrail(net, history, before, MarkSent(before, note.name, broadcast[note.name]));
      }
    }
  }

  lemma SettleOrdersTrail(net: Network, m: Mint, orders: Orders, pass: Pass)
    requires RegInv(m.reg, m.height) && Trail(net, m.reg.history, orders)
    ensures Trail(net, m.reg.history, SettleOrders(m, orders, pass))
  {
    var expired := ExpireSent(orders, m.height);
    StateTrail(net, m.reg.history, orders, expired);
    DropDueTrail(net, m.reg.history, expired, m.reg.records, m.mtp, AuthorizedNotes(expired));
    var kept := DropDueUpdates(expired, m.reg.records, m.mtp, AuthorizedNotes(expired));
    AdmitReleasesTrail(net, m.reg, m.height, kept, m.market.book.sales, NamesDue(m.reg.records, m.mtp));
    var due := AdmitReleases(kept, m.reg.records, m.market.book.sales, m.height, NamesDue(m.reg.records, m.mtp));
    SubmitTrail(net, m.reg.history, due, m.reg.records, pass.broadcast, AuthorizedNotes(due));
  }

  lemma DecideTrail(net: Network, m: Mint, pass: Pass)
    requires RegInv(m.reg, m.height) && Trail(net, m.reg.history, m.orders) && ClaimsFollow(net, m, pass.claims)
    ensures Trail(net, m.reg.history, DecideWith(m, pass).orders)
  {
    AdmitClaimsTrail(net, m, pass.claims);
    var claimed := AdmitClaims(m.orders, m.reg.records, m.mtp, pass.claims);
    var relayed := RelayBuys(RelayCodes(m.market, pass.relayedCodes, m.height), pass.relayedBuys, m.height);
    AdmitNotesTrail(net, m.reg, m.height, claimed, OwedNotes(relayed.book.sales, m.reg.records, PendingNames(claimed)));
    SettleOrdersTrail(net, Polled(m, pass), Polled(m, pass).orders, pass);
  }

  lemma RewindTrail(net: Network, m: Mint, to: Height)
    requires RegInv(m.reg, m.height) && Trail(net, m.reg.history, m.orders)
    ensures var cut := TruncateReg(m.reg, to);
      var after := ReconcileSeen(net, cut, RewindTo(m.orders, to));
      OneUnresolved(after) && Trail(net, cut.history, after)
  {
    RewindKeepsOne(net, m.reg, m.height, m.orders, to);
    RewindMembers(m.orders, to);
    ReconcileSeenConfirmed(net, TruncateReg(m.reg, to), RewindTo(m.orders, to));
  }

  ghost predicate ClaimsFollowRun(net: Network, turns: seq<Turn>) {
    turns != [] ==>
      && ClaimsFollowRun(net, turns[..|turns| - 1])
      && (turns[|turns| - 1].Decide? ==> ClaimsFollow(net, Run(net, turns[..|turns| - 1]), turns[|turns| - 1].pass.claims))
  }

  /** Without rewinds no name ever has two unresolved orders, whatever claims are paid when. */
  lemma {:induction false} OneOrderPerName(net: Network, turns: seq<Turn>)
    requires forall t | t in turns :: !t.Rewind?
    ensures OneUnresolved(Run(net, turns).orders)
  {
    if turns != [] {
      var rest, last := turns[..|turns| - 1], turns[|turns| - 1];
      OneOrderPerName(net, rest);
      assert last in turns;
      ForwardOne(net, Run(net, rest), last);
    }
  }

  /** At most one unresolved order per name after this turn and every turn before it. */
  ghost predicate AlwaysOne(net: Network, turns: seq<Turn>) {
    OneUnresolved(Run(net, turns).orders) && (turns != [] ==> AlwaysOne(net, turns[..|turns| - 1]))
  }

  /** No rewind goes to a height at which two orders of one name are outstanding. */
  ghost predicate NoCollidingRewind(net: Network, turns: seq<Turn>) {
    turns != [] ==>
      var m, last := Run(net, turns[..|turns| - 1]), turns[|turns| - 1];
      && NoCollidingRewind(net, turns[..|turns| - 1])
      && (last.Rewind? ==> NoneCollide(net, TruncateReg(m.reg, last.to), m.orders, last.to))
  }

  /**
   Over every run, a name never has two unresolved orders exactly when no rewind goes
   to a height at which two orders of a name are outstanding.
   */
  lemma {:induction false} OneOrderPerNameIff(net: Network, turns: seq<Turn>)
    ensures AlwaysOne(net, turns) <==> NoCollidingRewind(net, turns)
  {
    if turns != [] {
      var rest, last := turns[..|turns| - 1], turns[|turns| - 1];
      var m := Run(net, rest);
      OneOrderPerNameIff(net, rest);
      if last.Rewind? {
        RewindOneIff(net, TruncateReg(m.reg, last.to), m.orders, last.to);
      } else if AlwaysOne(net, rest) {
        ForwardOne(net, m, last);
      }
    }
  }

  /**
   With any interleaving of rewinds too, as long as each claim's payment is at or
   above the confirmation of what the mint has already seen on its name.
   */
  lemma {:induction false} OneOrderPerNameThroughRewinds(net: Network, turns: seq<Turn>)
    requires Legal(net, turns) && ClaimsFollowRun(net, turns)
    ensures var m := Run(net, turns); OneUnresolved(m.orders) && Trail(net, m.reg.history, m.orders)
  {
    if turns != [] {
      var rest, last := turns[..|turns| - 1], turns[|turns| - 1];
      OneOrderPerNameThroughRewinds(net, rest);
      EveryTurnIsConsistent(net, rest);
      var m := Run(net, rest);
      match last
      case Extend(block) =>
        ForwardOne(net, m, last);
        ExtendTrail(net, m, block);
      case Decide(pass) =>
        ForwardOne(net, m, last);
        DecideTrail(net, m, pass);
      case Seal =>
      case Rewind(to, mtp) => RewindTrail(net, m, to);
    }
  }

  lemma ExtendTrail(net: Network, m: Mint, block: Block)
    requires RegInv(m.reg, m.height) && Trail(net, m.reg.history, m.orders) && LegalTurn(m, MintLoop.Extend(block))
    ensures Trail(net, ExtendBy(net, m, block).reg.history, ExtendBy(net, m, block).orders)
  {
    SettledFaculties(net, m, block);
    SettledTrail(net, m, block.steps, Settle(net, m, block));
    RouteAllTrail(net, Settle(net, m, block), block.arrivals);
  }

  lemma SettledFaculties(net: Network, m: Mint, block: Block)
    ensures var settled := Settle(net, m, block);
      && settled.reg == R.ApplyAll(net, m.reg, block.steps)
      && settled.orders == ReconcileSeen(net, settled.reg, m.orders)
      && settled.height == m.height + 1
  {
  }

  lemma SettledTrail(net: Network, m: Mint, steps: seq<R.Step>, settled: Mint)
    requires RegInv(m.reg, m.height) && Trail(net, m.reg.history, m.orders)
    requires forall s | s in steps :: s.height == m.height + 1
    requires settled.reg == R.ApplyAll(net, m.reg, steps) && settled.height == m.height + 1
    requires settled.orders == ReconcileSeen(net, settled.reg, m.orders)
    ensures RegInv(settled.reg, settled.height) && Trail(net, settled.reg.history, settled.orders)
  {
    BlockRegInv(net, m.reg, steps, m.height);
    BlockTrail(net, m.reg, steps, m.orders);
  }

  lemma BlockRegInv(net: Network, r: Reg, steps: seq<R.Step>, tip: Height)
    requires RegInv(r, tip) && forall s | s in steps :: s.height == tip + 1
    ensures RegInv(R.ApplyAll(net, r, steps), tip + 1)
  {
    BlockSteps(net, r, steps, tip);
  }

  lemma BlockTrail(net: Network, r: Reg, steps: seq<R.Step>, orders: Orders)
    requires Trail(net, r.history, orders)
    ensures var reg := R.ApplyAll(net, r, steps); Trail(net, reg.history, ReconcileSeen(net, reg, orders))
  {
    var reg := R.ApplyAll(net, r, steps);
    ApplyAllGrows(net, r, steps);
    TrailGrown(net, r.history, reg.history, orders);
    ReconcileTrail(net, reg, orders);
  }
}
