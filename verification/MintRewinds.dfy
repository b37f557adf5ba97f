/**
 Exclusion through rewinds: which orders may come back beside a buy that comes back,
 and the hypothesis under which none does but the buy's own sale note.
 */
module MintRewinds {
  import opened Basics
  import opened NameNotes
  import opened Registries
  import opened MarketBooks
  import opened MarketRules
  import opened MarketInvariants
  import opened OrderQueues
  import opened MintLoop
  import opened MintConsistency
  import opened MintExclusion
  import opened MintOrders
  import R = RegistryRuns
  import M = MarketRuns

  /** The sales the log restores at `h`. */
  function SalesAt(m: Mint, h: Height): seq<OpenSale> {
    Replay(UpTo(m.market.log, h)).sales
  }

  /** An order outstanding at `h` beside a sale open there is that paid sale's own note. */
  ghost predicate Peaceful(net: Network, cut: Reg, o: Order, s: OpenSale, h: Height) {
    o.note.name == s.name && Outstanding(net, cut, o, h) ==> s.phase.Paid? && o.note == SaleNoteOf(s)
  }

  ghost predicate ExcludesAt(net: Network, m: Mint, h: Height) {
    forall o, s | o in m.orders && s in SalesAt(m, h) :: Peaceful(net, TruncateReg(m.reg, h), o, s, h)
  }

  // ---------------------------------------------------------------------------
  // A rewind excludes exactly when the restored sales and orders do
  // ---------------------------------------------------------------------------

  /** No order outstanding at `to` meets a sale restored there that is still in time at `mtp`, its own apart. */
  ghost predicate NoIntruder(net: Network, m: Mint, to: Height, mtp: Timestamp) {
    forall o, s | o in m.orders && s in SalesAt(m, to) && !SaleLapsed(s, mtp) :: Peaceful(net, TruncateReg(m.reg, to), o, s, to)
  }

  lemma {:induction false} RestoredSales(net: Network, m: Mint, to: Height, mtp: Timestamp)
    requires M.Agrees(m.market)
    ensures forall s :: s in RewindMint(net, m, to, mtp).market.book.sales <==> s in SalesAt(m, to) && !SaleLapsed(s, mtp)
  {
    var sales := SalesAt(m, to);
    var lapsed := LapsedNames(sales, mtp);
    assert M.AgreesAt(m.market, to);
    WithoutNamesMembers(sales, ToSet(lapsed));
    forall s | s in sales ensures s.name in lapsed <==> SaleLapsed(s, mtp) {
      var k :| 0 <= k < |sales| && sales[k] == s;
      assert LapsedBy(mtp)(sales[k]) == SaleLapsed(s, mtp);
      if s.name in lapsed {
        var i :| 0 <= i < |sales| && LapsedBy(mtp)(sales[i]) && sales[i].name == s.name;
        assert i == k;
      }
    }
  }

  lemma ReopenedNotes(net: Network, cut: Reg, orders: Orders, to: Height)
    ensures forall note :: note in Unresolved(ReconcileSeen(net, cut, RewindTo(orders, to))) <==>
      exists o :: o in orders && o.note == note && Outstanding(net, cut, o, to)
  {
    var after := ReconcileSeen(net, cut, RewindTo(orders, to));
    RewoundState(net, cut, orders, to);
    forall note | note in Unresolved(after) ensures exists o :: o in orders && o.note == note && Outstanding(net, cut, o, to) {
      var k :| 0 <= k < |after| && !after[k].state.Seen? && after[k].note == note;
      assert after[k] in after;
      var i :| 0 <= i < |orders| && after[k] == Reopened(orders[i]) && Outstanding(net, cut, orders[i], to);
      assert orders[i] in orders;
    }
    forall o | o in orders && Outstanding(net, cut, o, to) ensures o.note in Unresolved(after) {
      var i :| 0 <= i < |orders| && orders[i] == o;
      assert Reopened(orders[i]) in after;
      var k :| 0 <= k < |after| && after[k] == Reopened(o);
      assert !after[k].state.Seen? && after[k].note == o.note;
    }
  }

  lemma RestoredOrders(net: Network, m: Mint, to: Height, mtp: Timestamp)
    ensures forall note :: note in Unresolved(RewindMint(net, m, to, mtp).orders) <==>
      exists o :: o in m.orders && o.note == note && Outstanding(net, TruncateReg(m.reg, to), o, to)
  {
    ReopenedNotes(net, TruncateReg(m.reg, to), m.orders, to);
  }

  lemma ExcludesIffPeaceful(net: Network, cut: Reg, orders: Orders, notes: set<NameNote>,
                            past: seq<OpenSale>, back: seq<OpenSale>, to: Height, mtp: Timestamp)
    requires forall s :: s in back <==> s in past && !SaleLapsed(s, mtp)
    requires forall note :: note in notes <==> exists o :: o in orders && o.note == note && Outstanding(net, cut, o, to)
    ensures Excludes(back, notes) <==>
      forall o, s | o in orders && s in past && !SaleLapsed(s, mtp) :: Peaceful(net, cut, o, s, to)
  {
    if Excludes(back, notes) {
      forall o, s | o in orders && s in past && !SaleLapsed(s, mtp) ensures Peaceful(net, cut, o, s, to) {
        if Outstanding(net, cut, o, to) { assert o.note in notes && s in back; }
      }
    }
    if forall o, s | o in orders && s in past && !SaleLapsed(s, mtp) :: Peaceful(net, cut, o, s, to) {
      forall s, note | s in back && note in notes && note.name == s.name ensures s.phase.Paid? && note == SaleNoteOf(s) {
        var o :| o in orders && o.note == note && Outstanding(net, cut, o, to);
        assert Peaceful(net, cut, o, s, to);
      }
    }
  }

  /** A rewind leaves exclusion exactly when no outstanding order intrudes on a restored buy. */
  lemma RewindExcludesIff(net: Network, m: Mint, to: Height, mtp: Timestamp)
    requires M.Agrees(m.market)
    ensures var after := RewindMint(net, m, to, mtp);
      Excludes(after.market.book.sales, Unresolved(after.orders)) <==> NoIntruder(net, m, to, mtp)
  {
    var after := RewindMint(net, m, to, mtp);
    RestoredSales(net, m, to, mtp);
    RestoredOrders(net, m, to, mtp);
    ExcludesIffPeaceful(net, TruncateReg(m.reg, to), m.orders, Unresolved(after.orders),
                        SalesAt(m, to), after.market.book.sales, to, mtp);
  }

  /** Exclusion holds after this turn and after every turn before it. */
  ghost predicate AlwaysExcludes(net: Network, turns: seq<Turn>) {
    && Excludes(Run(net, turns).market.book.sales, Unresolved(Run(net, turns).orders))
    && (turns != [] ==> AlwaysExcludes(net, turns[..|turns| - 1]))
  }

  ghost predicate NoIntrudingRewind(net: Network, turns: seq<Turn>) {
    turns != [] ==>
      var m, last := Run(net, turns[..|turns| - 1]), turns[|turns| - 1];
      NoIntrudingRewind(net, turns[..|turns| - 1]) && (last.Rewind? ==> NoIntruder(net, m, last.to, last.mtp))
  }

  /**
   Over every run, an open buy always excludes other orders exactly when no rewind goes
   to a height at which an outstanding order, the buy's own sale note apart, meets a
   restored buy.
   */
  lemma {:induction false} ExclusionIff(net: Network, turns: seq<Turn>)
    requires Legal(net, turns)
    ensures AlwaysExcludes(net, turns) <==> NoIntrudingRewind(net, turns)
  {
    if turns != [] {
      var rest, last := turns[..|turns| - 1], turns[|turns| - 1];
      ExclusionIff(net, rest);
      EveryTurnIsConsistent(net, rest);
      var m := Run(net, rest);
      if last.Rewind? {
        RewindExcludesIff(net, m, last.to, last.mtp);
      } else if AlwaysExcludes(net, rest) {
        ForwardExcludes(net, m, last);
      }
    }
  }

  lemma ForwardExcludes(net: Network, m: Mint, turn: Turn)
    requires Consistent(m) && Excludes(m.market.book.sales, Unresolved(m.orders)) && !turn.Rewind?
    ensures var after := MintLoop.Take(net, m, turn); Excludes(after.market.book.sales, Unresolved(after.orders))
  {
    match turn
    case Extend(block) => ExtendExcludes(net, m, block);
    case Decide(pass) => DecideExcludes(m, pass);
    case Seal => SealExcludes(m);
  }

  // ---------------------------------------------------------------------------
  // Claims paid at or above the release of their name
  // ---------------------------------------------------------------------------

  /** Each admitted claim was paid at or above the last record of its name. */
  ghost predicate ClaimsFresh(m: Mint, claims: seq<PaidClaim>) {
    forall c | c in claims && c.name in m.reg.history && m.reg.history[c.name] != [] ::
      m.reg.history[c.name][|m.reg.history[c.name]| - 1].confirmedHeight <= c.paidAt
  }

  ghost predicate ClaimsFreshRun(net: Network, turns: seq<Turn>) {
    turns != [] ==>
      && ClaimsFreshRun(net, turns[..|turns| - 1])
      && (turns[|turns| - 1].Decide? ==> ClaimsFresh(Run(net, turns[..|turns| - 1]), turns[|turns| - 1].pass.claims))
  }

  lemma FreshFollows(net: Network, m: Mint, claims: seq<PaidClaim>)
    requires RegInv(m.reg, m.height) && SeenConfirmed(net, m.reg.history, m.orders) && ClaimsFresh(m, claims)
    ensures ClaimsFollow(net, m, claims)
  {
    forall c, o | c in claims && o in m.orders && o.state.Seen? && o.note.name == c.name
      ensures ConfirmedBy(net, m.reg.history, o, c.paidAt)
    {
      var chain := m.reg.history[c.name];
      assert Confirmed(net, m.reg.history, o) && ChainOk(chain, c.name, m.height);
      var i :| 0 <= i < |chain| && IsConfirmation(net, chain[i], o);
      assert chain[i].confirmedHeight <= chain[|chain| - 1].confirmedHeight;
    }
  }

  lemma {:induction false} FreshRunFollows(net: Network, turns: seq<Turn>)
    requires Legal(net, turns) && ClaimsFreshRun(net, turns)
    ensures ClaimsFollowRun(net, turns)
  {
    if turns != [] {
      var rest, last := turns[..|turns| - 1], turns[|turns| - 1];
      FreshRunFollows(net, rest);
      EveryTurnIsConsistent(net, rest);
      OneOrderPerNameThroughRewinds(net, rest);
      if last.Decide? { FreshFollows(net, Run(net, rest), last.pass.claims); }
    }
  }

  /** A dead name whose last record lies at or below `h` is dead at `h`. */
  lemma DeadSince(r: Reg, tip: Height, name: Name, h: Height)
    requires RegInv(r, tip) && name !in r.records
    requires name in r.history && r.history[name] != [] ==> r.history[name][|r.history[name]| - 1].confirmedHeight <= h
    ensures name !in TruncateReg(r, h).records
  {
    if name in r.history {
      assert ChainOk(r.history[name], name, tip);
      assert CutChain(r.history[name], h) == r.history[name];
    }
  }

  // ---------------------------------------------------------------------------
  // Exclusion at every height a rewind can reach
  // ---------------------------------------------------------------------------

  ghost predicate Exclusive(net: Network, m: Mint) {
    && Excludes(m.market.book.sales, Unresolved(m.orders))
    && forall h: Height | h <= m.height :: ExcludesAt(net, m, h)
  }

  /** At `h`, each order of `b` is an order of `a` in some state, or orders a name dead there. */
  ghost predicate Inherits(a: Orders, b: Orders, cut: Reg, h: Height) {
    forall o | o in b && o.origin <= h ::
      (exists p :: p in a && p.note == o.note && p.origin == o.origin) || o.note.name !in cut.records
  }

  lemma SameOutstanding(net: Network, cut: Reg, a: Order, b: Order, h: Height)
    requires a.note == b.note && a.origin == b.origin
    ensures Outstanding(net, cut, a, h) <==> Outstanding(net, cut, b, h)
  {
    assert forall rec :: IsConfirmation(net, rec, a) <==> IsConfirmation(net, rec, b);
  }

  lemma KeepsExclusion(net: Network, m: Mint, after: Mint, h: Height)
    requires ExcludesAt(net, m, h) && JointAt(m, h)
    requires TruncateReg(after.reg, h) == TruncateReg(m.reg, h) && UpTo(after.market.log, h) == UpTo(m.market.log, h)
    requires Inherits(m.orders, after.orders, TruncateReg(m.reg, h), h)
    ensures ExcludesAt(net, after, h)
  {
    var cut := TruncateReg(m.reg, h);
    forall o, s | o in after.orders && s in SalesAt(after, h) ensures Peaceful(net, cut, o, s, h) {
      if o.note.name == s.name && Outstanding(net, cut, o, h) {
        assert !SaleMoved(s, cut.records);
        var p :| p in m.orders && p.note == o.note && p.origin == o.origin;
        SameOutstanding(net, cut, p, o, h);
        assert Peaceful(net, cut, p, s, h);
      }
    }
  }

  /** At the tip, exclusion of the unresolved orders is exclusion of the outstanding ones. */
  lemma TipExcludes(net: Network, m: Mint)
    requires Consistent(m) && SeenConfirmed(net, m.reg.history, m.orders)
    requires Excludes(m.market.book.sales, Unresolved(m.orders))
    ensures ExcludesAt(net, m, m.height)
  {
    R.TruncateAtTip(m.reg, m.height, m.height);
    UpToAll(m.market.log, m.height, m.height);
    forall o, s | o in m.orders && s in SalesAt(m, m.height) ensures Peaceful(net, m.reg, o, s, m.height) {
      TipPeaceful(net, m.reg, m.orders, m.market.book.sales, Replay(m.market.log).sales, o, s, m.height);
    }
  }

  lemma TipPeaceful(net: Network, r: Reg, orders: Orders, live: seq<OpenSale>, replayed: seq<OpenSale>,
                    o: Order, s: OpenSale, h: Height)
    requires Excludes(live, Unresolved(orders)) && SalesSim(live, replayed, true)
    requires o in orders && s in replayed && (o.state.Seen? ==> Confirmed(net, r.history, o))
    ensures Peaceful(net, r, o, s, h)
  {
    if o.note.name == s.name && Outstanding(net, r, o, h) {
      var k :| 0 <= k < |orders| && orders[k] == o;
      assert o.note in Unresolved(orders);
      var i :| 0 <= i < |replayed| && replayed[i] == s;
      assert SaleSim(live[i], replayed[i], true) && live[i] in live;
    }
  }

  /** At `h`, `after` has the registry, the market and no other orders than `m` has. */
  ghost predicate Continues(m: Mint, after: Mint, h: Height) {
    && TruncateReg(after.reg, h) == TruncateReg(m.reg, h) && UpTo(after.market.log, h) == UpTo(m.market.log, h)
    && Inherits(m.orders, after.orders, TruncateReg(m.reg, h), h)
  }

  lemma StillExcludes(net: Network, m: Mint, after: Mint, h: Height)
    requires Exclusive(net, m) && Consistent(m) && h <= m.height && Continues(m, after, h)
    ensures ExcludesAt(net, after, h)
  {
    assert ExcludesAt(net, m, h) && JointAt(m, h);
    KeepsExclusion(net, m, after, h);
  }

  lemma BelowExcludes(net: Network, m: Mint, after: Mint)
    requires Exclusive(net, m) && Consistent(m) && after.height <= m.height + 1
    requires forall h: Height | h < after.height :: Continues(m, after, h)
    ensures ExcludesBelow(net, after)
  {
    forall h: Height | h < after.height ensures ExcludesAt(net, after, h) {
      StillExcludes(net, m, after, h);
    }
  }

  ghost predicate ExcludesBelow(net: Network, m: Mint) {
    forall h: Height | h < m.height :: ExcludesAt(net, m, h)
  }

  lemma TipAndBelow(net: Network, m: Mint)
    requires Excludes(m.market.book.sales, Unresolved(m.orders))
    requires ExcludesAt(net, m, m.height) && ExcludesBelow(net, m)
    ensures Exclusive(net, m)
  {
    forall h: Height | h <= m.height ensures ExcludesAt(net, m, h) {
      if h < m.height { assert ExcludesBelow(net, m); }
    }
  }

  lemma NextExclusive(net: Network, m: Mint, after: Mint)
    requires Exclusive(net, m) && Consistent(m) && Consistent(after) && SeenConfirmed(net, after.reg.history, after.orders)
    requires Excludes(after.market.book.sales, Unresolved(after.orders)) && after.height <= m.height + 1
    requires forall h: Height | h < after.height :: Continues(m, after, h)
    ensures Exclusive(net, after)
  {
    TipExcludes(net, after);
    BelowExcludes(net, m, after);
    TipAndBelow(net, after);
  }

  // ---------------------------------------------------------------------------
  // What each turn inherits
  // ---------------------------------------------------------------------------

  /** Whatever a queue operation does, it keeps notes and origins or admits above `h`. */
  ghost predicate Descends(a: Orders, b: Orders, h: Height) {
    forall o | o in b && o.origin <= h :: exists p :: p in a && p.note == o.note && p.origin == o.origin
  }

  lemma DescendsTrans(a: Orders, b: Orders, c: Orders, h: Height)
    requires Descends(a, b, h) && Descends(b, c, h)
    ensures Descends(a, c, h)
  {
    forall o | o in c && o.origin <= h ensures exists p :: p in a && p.note == o.note && p.origin == o.origin {
      var q :| q in b && q.note == o.note && q.origin == o.origin;
      var p :| p in a && p.note == q.note && p.origin == q.origin;
    }
  }

  lemma ReconcileDescends(net: Network, r: Reg, orders: Orders, h: Height)
    ensures Descends(orders, ReconcileSeen(net, r, orders), h)
  {
    ReconcileMembers(net, r, orders);
    forall o | o in ReconcileSeen(net, r, orders) ensures exists p :: p in orders && p.note == o.note && p.origin == o.origin {
      var i :| 0 <= i < |orders| && o == MarkSeen(net, r.history, orders[i]) && Retained(r.records, o);
      assert orders[i] in orders;
    }
  }

  lemma ComeBackDescends(net: Network, cut: Reg, orders: Orders, to: Height, h: Height)
    ensures Descends(orders, ComeBack(net, cut, orders, to), h)
  {
    RewindMembers(orders, to);
    var back := RewindTo(orders, to);
    ReconcileDescends(net, cut, back, h);
    forall o | o in back ensures exists p :: p in orders && p.note == o.note && p.origin == o.origin {
      var i :| 0 <= i < |orders| && orders[i].origin <= to && o == Reopened(orders[i]);
      assert orders[i] in orders;
    }
    DescendsTrans(orders, back, ComeBack(net, cut, orders, to), h);
  }

  lemma {:induction false} RouteAllDescends(m: Mint, arrivals: seq<Arrival>, h: Height)
    requires h < m.height
    ensures Descends(m.orders, RouteAll(m, arrivals).orders, h) && RouteAll(m, arrivals).height == m.height
  {
    if arrivals != [] {
      var rest := RouteAll(m, arrivals[..|arrivals| - 1]);
      RouteAllDescends(m, arrivals[..|arrivals| - 1], h);
      DescendsTrans(m.orders, rest.orders, RouteAll(m, arrivals).orders, h);
    }
  }

  lemma {:induction false} AdmitNotesDescends(orders: Orders, origin: Height, notes: seq<NameNote>, h: Height)
    requires h < origin
    ensures Descends(orders, AdmitNotes(orders, origin, notes), h)
  {
    if notes != [] {
      AdmitNotesDescends(orders, origin, notes[..|notes| - 1], h);
    }
  }

  lemma DropDescends(orders: Orders, name: Name, h: Height)
    ensures Descends(orders, DropNote(orders, name), h)
  {
    if FirstUnresolved(orders, name, 0) < |orders| { DropPositions(orders, name); }
    forall o | o in DropNote(orders, name) ensures o in orders {
      var i :| 0 <= i < |DropNote(orders, name)| && DropNote(orders, name)[i] == o;
    }
  }

  lemma {:induction false} DropDueDescends(orders: Orders, records: Records, mtp: Timestamp, notes: seq<NameNote>, h: Height)
    ensures Descends(orders, DropDueUpdates(orders, records, mtp, notes), h)
  {
    if notes != [] {
      var before := DropDueUpdates(orders, records, mtp, notes[..|notes| - 1]);
      DropDueDescends(orders, records, mtp, notes[..|notes| - 1], h);
      DropDescends(before, notes[|notes| - 1].name, h);
      DescendsTrans(orders, before, DropNote(before, notes[|notes| - 1].name), h);
    }
  }

  lemma {:induction false} AdmitReleasesDescends(orders: Orders, records: Records, sales: seq<OpenSale>, tip: Height,
                                                 names: seq<Name>, h: Height)
    requires h < tip
    ensures Descends(orders, AdmitReleases(orders, records, sales, tip, names), h)
  {
    if names != [] { AdmitReleasesDescends(orders, records, sales, tip, names[..|names| - 1], h); }
  }

  lemma PointwiseDescends(a: Orders, b: Orders, h: Height)
    requires |a| == |b| && forall i | 0 <= i < |a| :: a[i].note == b[i].note && a[i].origin == b[i].origin
    ensures Descends(a, b, h)
  {
    forall o | o in b ensures exists p :: p in a && p.note == o.note && p.origin == o.origin {
      var i :| 0 <= i < |b| && b[i] == o;
      assert a[i] in a;
    }
  }

  lemma {:induction false} SubmitDescends(orders: Orders, records: Records, broadcast: map<Name, Height>, notes: seq<NameNote>, h: Height)
    ensures Descends(orders, Submit(orders, records, broadcast, notes), h)
  {
    if notes != [] {
      var before, note := Submit(orders, records, broadcast, notes[..|notes| - 1]), notes[|notes| - 1];
      SubmitDescends(orders, records, broadcast, notes[..|notes| - 1], h);
      DropDescends(before, note.name, h);
      if note.name in broadcast { PointwiseDescends(before, MarkSent(before, note.name, broadcast[note.name]), h); }
      DescendsTrans(orders, before, Submit(orders, records, broadcast, notes), h);
    }
  }

  lemma SettleOrdersDescends(m: Mint, orders: Orders, pass: Pass, h: Height)
    requires h < m.height
    ensures Descends(orders, SettleOrders(m, orders, pass), h)
  {
    var expired := ExpireSent(orders, m.height);
    PointwiseDescends(orders, expired, h);
    var kept := DropDueUpdates(expired, m.reg.records, m.mtp, AuthorizedNotes(expired));
    DropDueDescends(expired, m.reg.records, m.mtp, AuthorizedNotes(expired), h);
    var due := AdmitReleases(kept, m.reg.records, m.market.book.sales, m.height, NamesDue(m.reg.records, m.mtp));
    AdmitReleasesDescends(kept, m.reg.records, m.market.book.sales, m.height, NamesDue(m.reg.records, m.mtp), h);
    SubmitDescends(due, m.reg.records, pass.broadcast, AuthorizedNotes(due), h);
    DescendsTrans(orders, expired, kept, h);
    DescendsTrans(orders, kept, due, h);
    DescendsTrans(orders, due, SettleOrders(m, orders, pass), h);
  }

  lemma AdmitInherits(a: Orders, b: Orders, origin: Height, note: NameNote, cut: Reg, h: Height)
    requires Inherits(a, b, cut, h) && (origin <= h ==> note.name !in cut.records)
    ensures Inherits(a, AdmitOrder(b, origin, note), cut, h)
  {
  }

  lemma FreshClaimIsDead(m: Mint, c: PaidClaim, h: Height)
    requires RegInv(m.reg, m.height) && ClaimsFresh(m, [c]) && c.paidAt <= h
    requires AuthorizeClaim(m.reg.records, c, m.mtp).Some?
    ensures AuthorizeClaim(m.reg.records, c, m.mtp).value.name !in TruncateReg(m.reg, h).records
  {
    assert c in [c];
    DeadSince(m.reg, m.height, c.name, h);
  }

  /** A fresh claim orders a name that is dead from its payment on. */
  lemma {:induction false} ClaimsInherit(m: Mint, orders: Orders, claims: seq<PaidClaim>, h: Height)
    requires RegInv(m.reg, m.height) && ClaimsFresh(m, claims)
    ensures Inherits(orders, AdmitClaims(orders, m.reg.records, m.mtp, claims), TruncateReg(m.reg, h), h)
  {
    if claims != [] {
      var rest, c := claims[..|claims| - 1], claims[|claims| - 1];
      ClaimsInherit(m, orders, rest, h);
      assert c in claims && ClaimsFresh(m, [c]);
      var note := AuthorizeClaim(m.reg.records, c, m.mtp);
      if note.Some? {
        if c.paidAt <= h { FreshClaimIsDead(m, c, h); }
        AdmitInherits(orders, AdmitClaims(orders, m.reg.records, m.mtp, rest), c.paidAt, note.value, TruncateReg(m.reg, h), h);
      }
    }
  }

  lemma InheritsDown(a: Orders, b: Orders, c: Orders, cut: Reg, h: Height)
    requires Inherits(a, b, cut, h) && Descends(b, c, h)
    ensures Inherits(a, c, cut, h)
  {
    forall o | o in c && o.origin <= h
      ensures (exists p :: p in a && p.note == o.note && p.origin == o.origin) || o.note.name !in cut.records
    {
      var q :| q in b && q.note == o.note && q.origin == o.origin;
    }
  }

  lemma DecideInherits(m: Mint, pass: Pass, h: Height)
    requires RegInv(m.reg, m.height) && ClaimsFresh(m, pass.claims) && h < m.height
    ensures Inherits(m.orders, DecideWith(m, pass).orders, TruncateReg(m.reg, h), h)
  {
    var claimed := AdmitClaims(m.orders, m.reg.records, m.mtp, pass.claims);
    ClaimsInherit(m, m.orders, pass.claims, h);
    var p := Polled(m, pass);
    var relayed := RelayBuys(RelayCodes(m.market, pass.relayedCodes, m.height), pass.relayedBuys, m.height);
    AdmitNotesDescends(claimed, m.height, OwedNotes(relayed.book.sales, m.reg.records, PendingNames(claimed)), h);
    SettleOrdersDescends(p, p.orders, pass, h);
    InheritsDown(m.orders, claimed, p.orders, TruncateReg(m.reg, h), h);
    InheritsDown(m.orders, p.orders, DecideWith(m, pass).orders, TruncateReg(m.reg, h), h);
  }

  // ---------------------------------------------------------------------------
  // Every run with fresh claims
  // ---------------------------------------------------------------------------

  lemma DescendsInherits(a: Orders, b: Orders, cut: Reg, h: Height)
    requires Descends(a, b, h)
    ensures Inherits(a, b, cut, h)
  {
  }

  lemma ExtendExclusive(net: Network, m: Mint, block: Block)
    requires Exclusive(net, m) && Consistent(m) && LegalTurn(m, MintLoop.Extend(block))
    requires SeenConfirmed(net, ExtendBy(net, m, block).reg.history, ExtendBy(net, m, block).orders)
    ensures Exclusive(net, ExtendBy(net, m, block))
  {
    ExtendOk(net, m, block);
    ExtendExcludes(net, m, block);
    BlockSteps(net, m.reg, block.steps, m.height);
    BlockTrades(net, m, block);
    forall h: Height | h < m.height + 1
      ensures Inherits(m.orders, ExtendBy(net, m, block).orders, TruncateReg(m.reg, h), h)
    {
      BlockInherits(net, m, block, h);
    }
    BlockExclusive(net, m, ExtendBy(net, m, block), R.ApplyAll(net, m.reg, block.steps));
  }

  lemma BlockInherits(net: Network, m: Mint, block: Block, h: Height)
    requires h <= m.height
    ensures Inherits(m.orders, ExtendBy(net, m, block).orders, TruncateReg(m.reg, h), h)
  {
    var settled := Settle(net, m, block);
    SettledFaculties(net, m, block);
    ReconcileDescends(net, settled.reg, m.orders, h);
    RouteAllDescends(settled, block.arrivals, h);
    DescendsTrans(m.orders, settled.orders, RouteAll(settled, block.arrivals).orders, h);
    DescendsInherits(m.orders, RouteAll(settled, block.arrivals).orders, TruncateReg(m.reg, h), h);
  }

  lemma BlockExclusive(net: Network, m: Mint, after: Mint, reg: Reg)
    requires Exclusive(net, m) && Consistent(m) && Consistent(after) && after.height == m.height + 1
    requires InBlock(after, reg, m.market.log) && SeenConfirmed(net, after.reg.history, after.orders)
    requires Excludes(after.market.book.sales, Unresolved(after.orders))
    requires forall h: Height | h <= m.height :: TruncateReg(reg, h) == TruncateReg(m.reg, h)
    requires forall h: Height | h < m.height + 1 :: Inherits(m.orders, after.orders, TruncateReg(m.reg, h), h)
    ensures Exclusive(net, after)
  {
    NextExclusive(net, m, after);
  }

  lemma DecideExclusive(net: Network, m: Mint, pass: Pass)
    requires Exclusive(net, m) && Consistent(m) && ClaimsFresh(m, pass.claims)
    requires SeenConfirmed(net, DecideWith(m, pass).reg.history, DecideWith(m, pass).orders)
    ensures Exclusive(net, DecideWith(m, pass))
  {
    DecideOk(m, pass);
    DecideExcludes(m, pass);
    DecideKept(m, pass);
    forall h: Height | h < m.height ensures Inherits(m.orders, DecideWith(m, pass).orders, TruncateReg(m.reg, h), h) {
      DecideInherits(m, pass, h);
    }
    NextExclusive(net, m, DecideWith(m, pass));
  }

  lemma SealExclusive(net: Network, m: Mint)
    requires Exclusive(net, m)
    ensures Exclusive(net, Trade(m, M.SealStep(m.height)))
  {
    var after := Trade(m, M.SealStep(m.height));
    SealExcludes(m);
    forall h: Height | h <= m.height ensures ExcludesAt(net, after, h) {
      assert ExcludesAt(net, m, h);
      M.SealUpTo(m.market.log, h);
      M.SealReplay(UpTo(m.market.log, h));
      SealedPeace(net, m.orders, SalesAt(m, h), SalesAt(after, h), TruncateReg(m.reg, h), h);
    }
  }

  lemma SealedPeace(net: Network, orders: Orders, sales: seq<OpenSale>, sealed: seq<OpenSale>, cut: Reg, h: Height)
    requires forall o, s | o in orders && s in sales :: Peaceful(net, cut, o, s, h)
    requires |sealed| == |sales| && forall i | 0 <= i < |sales| :: sealed[i] == RelaySale(sales[i])
    ensures forall o, s | o in orders && s in sealed :: Peaceful(net, cut, o, s, h)
  {
    forall o, s | o in orders && s in sealed ensures Peaceful(net, cut, o, s, h) {
      var i :| 0 <= i < |sealed| && sealed[i] == s;
      assert sales[i] in sales;
      assert Peaceful(net, cut, o, sales[i], h);
    }
  }

  lemma RewindExclusive(net: Network, m: Mint, to: Height, mtp: Timestamp)
    requires Exclusive(net, m) && Consistent(m) && to <= m.height
    requires SeenConfirmed(net, RewindMint(net, m, to, mtp).reg.history, RewindMint(net, m, to, mtp).orders)
    ensures Exclusive(net, RewindMint(net, m, to, mtp))
  {
    var after := RewindMint(net, m, to, mtp);
    RewindOk(net, m, to, mtp);
    RewindKept(net, m, to, mtp);
    assert ExcludesAt(net, m, to);
    RewindExcludesIff(net, m, to, mtp);
    forall h: Height | h < to
      ensures TruncateReg(after.reg, h) == TruncateReg(m.reg, h)
      ensures Inherits(m.orders, after.orders, TruncateReg(m.reg, h), h)
    {
      R.TruncateTwice(m.reg, to, h);
      ComeBackDescends(net, TruncateReg(m.reg, to), m.orders, to, h);
      DescendsInherits(m.orders, after.orders, TruncateReg(m.reg, h), h);
    }
    NextExclusive(net, m, after);
  }

  /**
   Through any rewinds: as long as each admitted claim was paid at or above the last
   record of its name, an open buy excludes every claim, update and release order on
   its name, at the tip and at every height a rewind can return to.
   */
  lemma {:induction false} BuysExcludeThroughRewinds(net: Network, turns: seq<Turn>)
    requires Legal(net, turns) && ClaimsFreshRun(net, turns)
    ensures Exclusive(net, Run(net, turns))
  {
    if turns != [] {
      var rest, last := turns[..|turns| - 1], turns[|turns| - 1];
      BuysExcludeThroughRewinds(net, rest);
      EveryTurnIsConsistent(net, rest);
      FreshRunFollows(net, turns);
      OneOrderPerNameThroughRewinds(net, turns);
      match last
      case Extend(block) => ExtendExclusive(net, Run(net, rest), block);
      case Decide(pass) => DecideExclusive(net, Run(net, rest), pass);
      case Seal => SealExclusive(net, Run(net, rest));
      case Rewind(to, mtp) => RewindExclusive(net, Run(net, rest), to, mtp);
    }
  }
}
