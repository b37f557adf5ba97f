/**
 What a block makes of the sales and orders the mint holds, and what the memos it
 carries order: the block's registry and clock against what was captured before.
 */
module MintBlocks {
  import opened Basics
  import opened NameNotes
  import opened Listings
  import opened Registries
  import opened MarketBooks
  import opened MarketRules
  import opened MarketInvariants
  import opened MarketLaws
  import opened OrderQueues
  import opened MintLoop
  import opened MintConsistency
  import R = RegistryRuns
  import M = MarketRuns

  // ---------------------------------------------------------------------------
  // Approved updates and releases
  // ---------------------------------------------------------------------------

  /**
   The expiry an update asks for: unchanged without a term, for ever by an upgrade, later
   by whole Julian years; a name held for ever takes no term, and no fixed expiry may lie
   more than ninety-nine years ahead.
   */
  ghost predicate Extended(e: Expiry, term: Option<Term>, mtp: Timestamp, to: Expiry) {
    && (term.None? ==> to == e)
    && (term.Some? ==> e.At? && to == (if term.value.Forever? then Never else At(e.time + term.value.n * 31_557_600)))
    && (to.At? ==> to.time <= mtp + 99 * 31_557_600)
  }

  /** The note an approved request is granted against the live record. */
  ghost predicate Grants(records: Records, name: Name, approved: Option<Approved>, mtp: Timestamp, note: NameNote) {
    && approved.Some? && name in records
    && match approved.value
       case ApprovedRelease(ua) =>
         records[name].ua == ua && note == ReleaseNote(name, ua, records[name].commitment)
       case ApprovedUpdate(ua, term) =>
         && !Due(records[name], mtp)
         && note.UpdateNote? && note.name == name && note.ua == ua && note.prev == records[name].commitment
         && Extended(records[name].expiresAt, term, mtp, note.expiresAt)
  }

  lemma GrantedIff(records: Records, name: Name, approved: Approved, mtp: Timestamp, note: NameNote)
    ensures Grants(records, name, Some(approved), mtp, note) <==> AuthorizeApproved(records, name, approved, mtp) == Some(note)
  {
  }

  /** No unresolved order and no open buy holds the name. */
  ghost predicate Idle(m: Mint, name: Name) {
    && (forall s | s in m.market.book.sales :: s.name != name)
    && (forall o | o in m.orders && o.note.name == name :: o.state.Seen?)
  }

  lemma IdleIff(m: Mint, name: Name)
    ensures Idle(m, name) <==> !HasSale(m.market.book.sales, name) && !NotePending(m.orders, name)
  {
    assert HasSale(m.market.book.sales, name) <==> exists s :: s in m.market.book.sales && s.name == name;
    assert NotePending(m.orders, name) <==> exists o :: o in m.orders && !o.state.Seen? && o.note.name == name;
  }

  /** A right answer to an update or release orders the granted note at the block's height exactly when the name is idle; nothing else moves. */
  lemma ReplyLaw(m: Mint, name: Name, approved: Option<Approved>)
    ensures var after := Route(m, TransitionReply(name, approved));
      && (forall note | Idle(m, name) && Grants(m.reg.records, name, approved, m.mtp, note) ::
            after == m.(orders := m.orders + [Order(note, m.height, Authorized)]))
      && ((forall note :: !(Idle(m, name) && Grants(m.reg.records, name, approved, m.mtp, note))) ==> after == m)
  {
    IdleIff(m, name);
    if approved.Some? {
      forall note ensures Grants(m.reg.records, name, approved, m.mtp, note)
        <==> AuthorizeApproved(m.reg.records, name, approved.value, m.mtp) == Some(note)
      {
        GrantedIff(m.reg.records, name, approved.value, m.mtp, note);
      }
      var granted := AuthorizeApproved(m.reg.records, name, approved.value, m.mtp);
      if granted.Some? {
        assert Grants(m.reg.records, name, approved, m.mtp, granted.value);
        assert granted.value.name == name;
      }
    }
  }

  /** A buy memo of a block is ruled against the registry, the clock and the orders at that block. */
  lemma BuyMemoLaw(m: Mint, name: Name, bob: UnifiedAddress, feeOk: bool, code: OtpCode, price: Zatoshis, dutch: bool)
    requires MayBuy(m.market.book, m.reg.records, name, feeOk, !forall o | o in m.orders && o.note.name == name :: o.state.Seen?,
                    code, m.mtp, m.height, price, dutch)
    ensures var after := Route(m, MarketMemo(BuyRequest(name, bob), feeOk, code));
      var record, until := m.reg.records[name], m.mtp + if dutch then 600 else 1800;
      after.market.book.sales == m.market.book.sales +
        [OpenSale(name, bob, record.ua, record.commitment, record.expiresAt, dutch, until,
                  Paying(code, m.market.book.listings[name].payTo, price, until, false))]
  {
    IdleIff(m, name);
    BuyLaw(m.market.book, m.reg.records, name, bob, feeOk, NotePending(m.orders, name), code, m.mtp, m.height);
  }

  /** A reply to a market challenge is carried out against the registry at its block. */
  lemma MarketReplyLaw(m: Mint, r: Response, c: Challenge)
    requires BookInv(m.market.book) && c in m.market.book.challenges && MarketLaws.Repeats(r, c)
    ensures var after := Route(m, MarketReply(r)).market.book;
      && Performed(m.market.book, m.reg.records, c, m.height, after.listings)
      && (forall d :: d in after.challenges <==> d in m.market.book.challenges && d != c)
  {
    RightAnswerLaw(m.market.book, m.reg.records, r, m.height, c);
  }

  // ---------------------------------------------------------------------------
  // Orders through a block
  // ---------------------------------------------------------------------------

  /** A record of its name, at or above its origin, is the order's own note. */
  ghost predicate OnChain(net: Network, history: History, o: Order) {
    o.note.name in history &&
    exists rec :: rec in history[o.note.name] && rec.confirmedHeight >= o.origin && rec.commitment == net.commit(o.note)
  }

  /** A seen order stays, a claim waits, and any other needs the record it continues. */
  ghost predicate Stays(records: Records, o: Order) {
    o.state.Seen? || o.note.ClaimNote? || (o.note.name in records && records[o.note.name].commitment == o.note.prev)
  }

  lemma OnChainIff(net: Network, history: History, o: Order)
    ensures OnChain(net, history, o) <==> Confirmed(net, history, o)
  {
    if o.note.name in history {
      var chain := history[o.note.name];
      if OnChain(net, history, o) {
        var rec :| rec in chain && rec.confirmedHeight >= o.origin && rec.commitment == net.commit(o.note);
        var i :| 0 <= i < |chain| && chain[i] == rec;
        assert IsConfirmation(net, chain[i], o);
      }
      if Confirmed(net, history, o) {
        var i :| 0 <= i < |chain| && IsConfirmation(net, chain[i], o);
        assert chain[i] in chain;
      }
    }
  }

  /** Of the orders held before a block, each confirmed one is seen, each other unresolved one stays iff its authority is current. */
  lemma {:induction false} ReconcileOrdersLaw(net: Network, r: Reg, orders: Orders)
    ensures forall o | o in orders ::
      var now := if OnChain(net, r.history, o) then o.(state := Seen) else o;
      Stays(r.records, now) ==> now in ReconcileSeen(net, r, orders)
    ensures forall now | now in ReconcileSeen(net, r, orders) ::
      Stays(r.records, now) && exists o :: o in orders && now == if OnChain(net, r.history, o) then o.(state := Seen) else o
  {
    ReconcileMembers(net, r, orders);
    forall o | o in orders
      ensures var now := if OnChain(net, r.history, o) then o.(state := Seen) else o;
        Stays(r.records, now) ==> now in ReconcileSeen(net, r, orders)
    {
      var i :| 0 <= i < |orders| && orders[i] == o;
      OnChainIff(net, r.history, o);
      var now := if OnChain(net, r.history, o) then o.(state := Seen) else o;
      assert now == MarkSeen(net, r.history, orders[i]);
      assert Stays(r.records, now) ==> Retained(r.records, now);
    }
    forall now | now in ReconcileSeen(net, r, orders)
      ensures Stays(r.records, now) && exists o :: o in orders && now == if OnChain(net, r.history, o) then o.(state := Seen) else o
    {
      var i :| 0 <= i < |orders| && now == MarkSeen(net, r.history, orders[i]) && Retained(r.records, now);
      OnChainIff(net, r.history, orders[i]);
      assert orders[i] in orders;
    }
  }

  /**
   A rewind keeps the orders admitted at or below it, a seen one authorized again; each
   that the cut registry confirms is seen, and each other stays iff its authority is
   current there.
   */
  lemma RewindOrdersLaw(net: Network, m: Mint, to: Height, mtp: Timestamp)
    ensures var after := RewindMint(net, m, to, mtp);
      && (forall o | o in m.orders && o.origin <= to ::
            var back := if o.state.Seen? then o.(state := Authorized) else o;
            var now := if OnChain(net, after.reg.history, back) then back.(state := Seen) else back;
            Stays(after.reg.records, now) ==> now in after.orders)
      && (forall now | now in after.orders ::
            Stays(after.reg.records, now) && exists o :: ComesBackAs(net, after.reg.history, m.orders, to, o, now))
  {
    var cut, kept := TruncateReg(m.reg, to), RewindTo(m.orders, to);
    RewindMembers(m.orders, to);
    ReconcileOrdersLaw(net, cut, kept);
    forall o | o in m.orders && o.origin <= to
      ensures (if o.state.Seen? then o.(state := Authorized) else o) in kept
    {
      var i :| 0 <= i < |m.orders| && m.orders[i] == o;
      assert Reopened(m.orders[i]) == if o.state.Seen? then o.(state := Authorized) else o;
    }
    forall now | now in ReconcileSeen(net, cut, kept) ensures exists o :: ComesBackAs(net, cut.history, m.orders, to, o, now) {
      var back :| back in kept && now == if OnChain(net, cut.history, back) then back.(state := Seen) else back;
      var i :| 0 <= i < |m.orders| && m.orders[i].origin <= to && back == Reopened(m.orders[i]);
      assert m.orders[i] in m.orders && ComesBackAs(net, cut.history, m.orders, to, m.orders[i], now);
    }
  }

  /** `now` is what the rewind makes of order `o`. */
  ghost predicate ComesBackAs(net: Network, history: History, orders: Orders, to: Height, o: Order, now: Order) {
    && o in orders && o.origin <= to
    && var back := if o.state.Seen? then o.(state := Authorized) else o;
       now == if OnChain(net, history, back) then back.(state := Seen) else back
  }

  /** The orders `after` are those `before`, then notes granted at the tip. */
  ghost predicate GrantedAfter(m: Mint, before: Orders, after: Orders) {
    before <= after && forall i | |before| <= i < |after| :: GrantedAt(m, after[i])
  }

  ghost predicate GrantedAt(m: Mint, o: Order) {
    && o.origin == m.height && o.state.Authorized?
    && exists name, approved :: Grants(m.reg.records, name, approved, m.mtp, o.note)
  }

  lemma {:induction false} RoutedOrders(m: Mint, arrivals: seq<Arrival>)
    ensures GrantedAfter(m, m.orders, RouteAll(m, arrivals).orders)
  {
    if arrivals != [] {
      var k := |arrivals| - 1;
      var before := RouteAll(m, arrivals[..k]);
      RoutedOrders(m, arrivals[..k]);
      RouteAllFrame(m, arrivals[..k]);
      if arrivals[k].TransitionReply? { OneGranted(m, before, arrivals[k].name, arrivals[k].approved); }
    }
  }

  lemma OneGranted(m: Mint, before: Mint, name: Name, approved: Option<Approved>)
    requires GrantedAfter(m, m.orders, before.orders)
    requires before.reg == m.reg && before.mtp == m.mtp && before.height == m.height
    ensures GrantedAfter(m, m.orders, Route(before, TransitionReply(name, approved)).orders)
  {
    ReplyLaw(before, name, approved);
    if note :| Idle(before, name) && Grants(before.reg.records, name, approved, before.mtp, note) {
      var o := Order(note, before.height, Authorized);
      assert Route(before, TransitionReply(name, approved)).orders == before.orders + [o];
      assert Grants(m.reg.records, name, approved, m.mtp, o.note) && GrantedAt(m, o);
    }
  }

  /** A block keeps the orders its registry leaves their authority, seen once confirmed, and adds only granted notes at its height. */
  lemma BlockOrdersLaw(net: Network, m: Mint, block: Block)
    ensures var after := ExtendBy(net, m, block);
      var kept := ReconcileSeen(net, after.reg, m.orders);
      GrantedAfter(after, kept, after.orders)
  {
    var settled := Settle(net, m, block);
    RoutedOrders(settled, block.arrivals);
    ExtendFrame(net, m, block);
  }

  // ---------------------------------------------------------------------------
  // Sales through a block
  // ---------------------------------------------------------------------------

  /** The sale is still in time, and its lister still holds the note it captured. */
  ghost predicate Survives(s: OpenSale, records: Records, mtp: Timestamp) {
    && (s.phase.Paying? ==> mtp < s.phase.expiresAt)
    && Holds(records, s.name, s.alice) && records[s.name].commitment == s.held
  }

  lemma TradeBook(m: Mint, s: M.Step)
    requires !s.SealStep? && !s.RewindStep?
    ensures Trade(m, s).market.book == M.EffectOf(m.market.book, s).book && Trade(m, s).reg == m.reg
  {
  }

  lemma SettledBook(net: Network, m: Mint, block: Block)
    ensures var settled := Settle(net, m, block);
      settled.market.book == Reconcile(Expire(m.market.book, block.mtp, m.height + 1).book, settled.reg.records).book
  {
    var m1 := Confirm(net, m, block);
    var expire, reconcile := M.ExpireStep(m1.mtp, m1.height), M.ReconcileStep(m1.reg.records, m1.height);
    var m2 := Trade(m1, expire);
    TradeBook(m1, expire);
    TradeBook(m2, reconcile);
    assert M.EffectOf(m.market.book, expire) == Expire(m.market.book, block.mtp, m.height + 1);
    assert M.EffectOf(m2.market.book, reconcile) == Reconcile(m2.market.book, m1.reg.records);
    assert Settle(net, m, block) == Trade(m2, reconcile);
  }

  lemma SettledSales(net: Network, m: Mint, block: Block)
    requires OneSalePerName(m.market.book.sales)
    ensures var settled := Settle(net, m, block);
      forall s :: s in settled.market.book.sales <==> s in m.market.book.sales && Survives(s, settled.reg.records, block.mtp)
  {
    SettledBook(net, m, block);
    SalesStay(m.market.book, block.mtp, m.height + 1, Settle(net, m, block).reg.records);
  }

  lemma SalesStay(b: Book, mtp: Timestamp, height: Height, records: Records)
    requires OneSalePerName(b.sales)
    ensures forall s :: s in Reconcile(Expire(b, mtp, height).book, records).book.sales <==> s in b.sales && Survives(s, records, mtp)
  {
    var lapsed := set s | s in b.sales && s.phase.Paying? && mtp >= s.phase.expiresAt :: s.name;
    var rest := WithoutNames(b.sales, lapsed);
    var moved := set s | s in rest && !(Holds(records, s.name, s.alice) && records[s.name].commitment == s.held) :: s.name;
    ExpireLaw(b, mtp, height);
    ReconcileLaw(Expire(b, mtp, height).book, records);
    WithoutNamesMembers(b.sales, lapsed);
    WithoutNamesMembers(rest, moved);
    forall s | s in b.sales ensures s.name in lapsed <==> s.phase.Paying? && mtp >= s.phase.expiresAt {
      if s.name in lapsed {
        var x :| x in b.sales && x.phase.Paying? && mtp >= x.phase.expiresAt && x.name == s.name;
        OneOf(b.sales, s, x);
      }
    }
    forall s | s in rest ensures s.name in moved <==> !(Holds(records, s.name, s.alice) && records[s.name].commitment == s.held) {
      if s.name in moved {
        var x :| x in rest && !(Holds(records, x.name, x.alice) && records[x.name].commitment == x.held) && x.name == s.name;
        OneOf(b.sales, s, x);
      }
    }
  }

  /** Before its memos are routed, a block leaves the challenges in time, of those who still hold their names. */
  lemma SettledChallenges(net: Network, m: Mint, block: Block)
    requires CodesDistinct(m.market.book.challenges)
    ensures var settled := Settle(net, m, block);
      forall c :: c in settled.market.book.challenges <==>
        c in m.market.book.challenges && block.mtp < c.expiresAt && Holds(settled.reg.records, c.Name(), c.Ua())
  {
    SettledBook(net, m, block);
    ChallengesStay(m.market.book, block.mtp, m.height + 1, Settle(net, m, block).reg.records);
  }

  lemma ChallengesStay(b: Book, mtp: Timestamp, height: Height, records: Records)
    requires CodesDistinct(b.challenges)
    ensures forall c :: c in Reconcile(Expire(b, mtp, height).book, records).book.challenges <==>
      c in b.challenges && mtp < c.expiresAt && Holds(records, c.Name(), c.Ua())
  {
    var late := set c | c in b.challenges && mtp >= c.expiresAt :: c.code;
    var rest := WithoutCodes(b.challenges, late);
    var stale := set c | c in rest && !Holds(records, c.Name(), c.Ua()) :: c.code;
    ExpireLaw(b, mtp, height);
    ReconcileLaw(Expire(b, mtp, height).book, records);
    WithoutCodesMembers(b.challenges, late);
    WithoutCodesMembers(rest, stale);
    forall c | c in b.challenges ensures c.code in late <==> mtp >= c.expiresAt {
      if c.code in late {
        var x :| x in b.challenges && mtp >= x.expiresAt && x.code == c.code;
        OneCode(b.challenges, c, x);
      }
    }
    forall c | c in rest ensures c.code in stale <==> !Holds(records, c.Name(), c.Ua()) {
      if c.code in stale {
        var x :| x in rest && !Holds(records, x.Name(), x.Ua()) && x.code == c.code;
        OneCode(b.challenges, c, x);
      }
    }
  }

  /** And the listings whose clock is not over, of those who still hold their names. */
  lemma SettledListings(net: Network, m: Mint, block: Block, n: Name)
    ensures var before, settled := m.market.book.listings, Settle(net, m, block);
      && (n in settled.market.book.listings <==>
            n in before && Holds(settled.reg.records, n, before[n].ua)
            && (before[n].ask.Dutch? ==> m.height + 1 <= before[n].ask.clock.end))
      && (n in settled.market.book.listings ==> settled.market.book.listings[n] == before[n])
  {
    SettledBook(net, m, block);
    ListingStays(m.market.book, block.mtp, m.height + 1, Settle(net, m, block).reg.records, n);
  }

  lemma ListingStays(b: Book, mtp: Timestamp, height: Height, records: Records, n: Name)
    ensures var left := Reconcile(Expire(b, mtp, height).book, records).book.listings;
      && (n in left <==>
            n in b.listings && Holds(records, n, b.listings[n].ua)
            && (b.listings[n].ask.Dutch? ==> height <= b.listings[n].ask.clock.end))
      && (n in left ==> left[n] == b.listings[n])
  {
    ExpireLaw(b, mtp, height);
    ReconcileLaw(Expire(b, mtp, height).book, records);
  }

  lemma OneOf(sales: seq<OpenSale>, a: OpenSale, b: OpenSale)
    requires OneSalePerName(sales) && a in sales && b in sales && a.name == b.name
    ensures a == b
  {
    var i :| 0 <= i < |sales| && sales[i] == a;
    var j :| 0 <= j < |sales| && sales[j] == b;
    assert i == j;
  }

  /** A memo opens at most one sale, unpaid and held from the block's clock on, and touches no other. */
  ghost predicate OpenedNow(s: OpenSale, mtp: Timestamp) {
    s.phase.Paying? && s.phase.expiresAt == mtp + (if s.dutch then 600 else 1800) && s.until == s.phase.expiresAt
  }

  lemma RouteSales(m: Mint, a: Arrival)
    ensures var before, after := m.market.book.sales, Route(m, a).market.book.sales;
      after == before || exists s :: OpenedNow(s, m.mtp) && after == before + [s]
  {
    match a
    case MarketMemo(request, feeOk, code) =>
      match request {
        case BuyRequest(name, bob) =>
          var b, pending := m.market.book, NotePending(m.orders, name);
          BuyLaw(b, m.reg.records, name, bob, feeOk, pending, code, m.mtp, m.height);
          if price, dutch :| MayBuy(b, m.reg.records, name, feeOk, pending, code, m.mtp, m.height, price, dutch) {
            var record, until := m.reg.records[name], m.mtp + if dutch then 600 else 1800;
            assert OpenedNow(OpenSale(name, bob, record.ua, record.commitment, record.expiresAt, dutch, until,
                                      Paying(code, b.listings[name].payTo, price, until, false)), m.mtp);
          }
        case _ =>
      }
    case _ =>
  }

  lemma {:induction false} RoutedSales(m: Mint, arrivals: seq<Arrival>)
    ensures var before, after := m.market.book.sales, RouteAll(m, arrivals).market.book.sales;
      before <= after && forall i | |before| <= i < |after| :: OpenedNow(after[i], m.mtp)
  {
    if arrivals != [] {
      var k := |arrivals| - 1;
      RoutedSales(m, arrivals[..k]);
      RouteAllFrame(m, arrivals[..k]);
      RouteSales(RouteAll(m, arrivals[..k]), arrivals[k]);
    }
  }

  /** A sale and the payments of a block: paid, or as it was. */
  function After(s: OpenSale, paid: bool): OpenSale {
    if paid then s.(phase := Paid) else s
  }

  /** `t` is what the block leaves of `s`: a sale of before that survives, or one its memos opened. */
  ghost predicate LeftOf(m: Mint, block: Block, records: Records, s: OpenSale, t: OpenSale) {
    && t == After(s, PaidBy(s, records, block.payments, block.mtp))
    && ((s in m.market.book.sales && Survives(s, records, block.mtp)) || OpenedNow(s, block.mtp))
  }

  lemma LawfulInBlock(net: Network, m: Mint, block: Block)
    requires Consistent(m)
    ensures BookInv(m.market.book) && BookInv(RouteAll(Settle(net, m, block), block.arrivals).market.book)
  {
    var settled := Settle(net, m, block);
    SettleOk(net, m, block);
    RouteAllOk(settled, block.arrivals, R.ApplyAll(net, m.reg, block.steps), m.market.log);
    M.LiveInv(m.market);
    M.LiveInv(RouteAll(settled, block.arrivals).market);
  }

  /**
   In every reachable state, the sales a block leaves are those of before that are in
   time and whose captured note is live under the block's registry, and those its memos
   opened, each paid exactly when an output of the block pays it.
   */
  lemma BlockSalesLaw(net: Network, m: Mint, block: Block)
    requires Consistent(m)
    ensures var after := ExtendBy(net, m, block); var records := after.reg.records;
      && (forall s | s in m.market.book.sales && Survives(s, records, block.mtp) ::
            After(s, PaidBy(s, records, block.payments, block.mtp)) in after.market.book.sales)
      && forall t | t in after.market.book.sales :: exists s :: LeftOf(m, block, records, s, t)
  {
    var settled := Settle(net, m, block);
    LawfulInBlock(net, m, block);
    SettledSales(net, m, block);
    RoutedSales(settled, block.arrivals);
    RouteAllFrame(settled, block.arrivals);
    ObservedSales(m, block, settled.market.book.sales, RouteAll(settled, block.arrivals), ExtendBy(net, m, block));
  }

  lemma ObservedSales(m: Mint, block: Block, settled: seq<OpenSale>, routed: Mint, after: Mint)
    requires after == Trade(routed, M.ObserveStep(routed.reg.records, block.payments, routed.mtp, routed.height))
    requires BookInv(routed.market.book) && routed.mtp == block.mtp
    requires forall s :: s in settled <==> s in m.market.book.sales && Survives(s, routed.reg.records, block.mtp)
    requires var now := routed.market.book.sales;
      settled <= now && forall i | |settled| <= i < |now| :: OpenedNow(now[i], block.mtp)
    ensures forall s | s in m.market.book.sales && Survives(s, routed.reg.records, block.mtp) ::
      After(s, PaidBy(s, routed.reg.records, block.payments, block.mtp)) in after.market.book.sales
    ensures forall t | t in after.market.book.sales :: exists s :: LeftOf(m, block, routed.reg.records, s, t)
  {
    var records, now := routed.reg.records, routed.market.book.sales;
    ObserveLaw(routed.market.book, records, block.payments, block.mtp);
    forall s | s in m.market.book.sales && Survives(s, records, block.mtp)
      ensures After(s, PaidBy(s, records, block.payments, block.mtp)) in after.market.book.sales
    {
      var i :| 0 <= i < |settled| && settled[i] == s;
      assert now[i] == s && after.market.book.sales[i] == After(s, PaidBy(s, records, block.payments, block.mtp));
    }
    forall t | t in after.market.book.sales ensures exists s :: LeftOf(m, block, records, s, t) {
      var i :| 0 <= i < |after.market.book.sales| && after.market.book.sales[i] == t;
      if i < |settled| { assert settled[i] in settled && now[i] == settled[i]; }
      assert LeftOf(m, block, records, now[i], t);
    }
  }

  /** Sealing marks every unpaid sale relayed, in the live book and in every replay of the log. */
  lemma SealLaw(net: Network, m: Mint)
    ensures var after := MintLoop.Take(net, m, Seal);
      && |after.market.book.sales| == |m.market.book.sales|
      && (forall i | 0 <= i < |m.market.book.sales| ::
            after.market.book.sales[i] ==
              if m.market.book.sales[i].phase.Paying?
              then m.market.book.sales[i].(phase := m.market.book.sales[i].phase.(relayed := true))
              else m.market.book.sales[i])
      && |after.market.log| == |m.market.log|
      && (forall k | 0 <= k < |m.market.log| && m.market.log[k].event.Opened? && m.market.log[k].event.sale.phase.Paying? ::
            after.market.log[k].event.Opened? && after.market.log[k].event.sale.phase.Paying? && after.market.log[k].event.sale.phase.relayed)
  {
  }
}
