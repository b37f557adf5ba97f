/**
 What a decision pass orders, name by name: the releases that are due, the sale notes
 that are owed, the claims that were paid, and what becomes of the orders that waited.
 */
module MintPasses {
  import opened Basics
  import opened NameNotes
  import opened Registries
  import opened MarketBooks
  import opened MarketRules
  import opened MarketInvariants
  import opened MarketLaws
  import opened OrderQueues
  import opened OrderStanding
  import opened MintLoop
  import M = MarketRuns

  // ---------------------------------------------------------------------------
  // The orders part of a pass, on one name
  // ---------------------------------------------------------------------------

  /** An update that is not out, or whose transaction the tip can no longer mine. */
  ghost predicate GivesWay(o: Order, tip: Height) {
    o.note.UpdateNote? && (o.state.Authorized? || (o.state.Sent? && o.state.expiry <= tip + 1))
  }

  ghost predicate DueAt(records: Records, n: Name, mtp: Timestamp) {
    n in records && Due(records[n], mtp)
  }

  /** On a due name as many of the first orders go as there are authorized updates. */
  function Left(due: bool, expired: Orders): Orders {
    if due then Dropped(expired, Updates(AuthorizedNotes(expired))) else expired
  }

  /** What waits for submission once the updates of a due name gave way and its release joined. */
  ghost predicate Ready(m: Mint, waiting: Orders, n: Name, ready: Orders) {
    var left := Left(DueAt(m.reg.records, n, m.mtp), ExpireSent(waiting, m.height));
    ready == if DueAt(m.reg.records, n, m.mtp) && left == [] && !HasSale(m.market.book.sales, n)
             then [Order(ReleaseNote(n, m.reg.records[n].ua, m.reg.records[n].commitment), m.height, Authorized)] else left
  }

  /** What submission makes of the orders that were ready on a name. */
  ghost predicate Submitted(records: Records, broadcast: map<Name, Height>, n: Name, ready: Orders, after: Orders) {
    && FromOnly(ready, after)
    && (ready == [] ==> after == [])
    && forall o | ready == [o] ::
         after == if !o.state.Authorized? then [o]
                  else if Stranded(records, o.note) then []
                  else [o.(state := Out(broadcast, n))]
  }

  lemma SettledStanding(m: Mint, orders: Orders, pass: Pass, n: Name) returns (ready: Orders)
    ensures Ready(m, Standing(orders, n), n, ready)
    ensures Submitted(m.reg.records, pass.broadcast, n, ready, Standing(SettleOrders(m, orders, pass), n))
  {
    var records := m.reg.records;
    var expired := ExpireSent(orders, m.height);
    StandingExpire(orders, m.height, n);
    AuthorizedOn(expired, n);
    StandingDropDue(expired, records, m.mtp, AuthorizedNotes(expired), n);
    var kept := DropDueUpdates(expired, records, m.mtp, AuthorizedNotes(expired));
    StandingRelease(kept, records, m.market.book.sales, m.height, NamesDue(records, m.mtp), n);
    var due := AdmitReleases(kept, records, m.market.book.sales, m.height, NamesDue(records, m.mtp));
    ready := Standing(due, n);
    SubmitReady(due, records, pass.broadcast, n);
  }

  lemma OneNote(o: Order)
    ensures AuthorizedNotes([o]) == if o.state.Authorized? then [o.note] else []
  {
    assert [o][..0] == [];
  }

  lemma SubmitReady(due: Orders, records: Records, broadcast: map<Name, Height>, n: Name)
    ensures Submitted(records, broadcast, n, Standing(due, n), Standing(Submit(due, records, broadcast, AuthorizedNotes(due)), n))
  {
    var ready, notes := Standing(due, n), AuthorizedNotes(due);
    AuthorizedOn(due, n);
    StandingSubmit(due, records, broadcast, notes, n);
    if ready == [] { StandingSubmitOthers(due, records, broadcast, notes, n); }
    forall o | ready == [o]
      ensures Standing(Submit(due, records, broadcast, notes), n) ==
        if !o.state.Authorized? then [o] else if Stranded(records, o.note) then [] else [o.(state := Out(broadcast, n))]
    {
      OneNote(o);
      if o.state.Authorized? {
        StandingMembers(due, n);
        assert o in ready;
        StandingSubmitOne(due, records, broadcast, notes, n, o);
      } else {
        StandingSubmitOthers(due, records, broadcast, notes, n);
      }
    }
  }

  // ---------------------------------------------------------------------------
  // The market part of a pass
  // ---------------------------------------------------------------------------

  /** The book with the flags of the codes and buys this pass sent out. */
  function Flagged(b: Book, codes: seq<OtpCode>, buys: seq<Name>): Book {
    Book(b.listings,
         seq(|b.sales|, i requires 0 <= i < |b.sales| =>
           if b.sales[i].name in buys && b.sales[i].phase.Paying? then b.sales[i].(phase := b.sales[i].phase.(relayed := true))
           else b.sales[i]),
         seq(|b.challenges|, i requires 0 <= i < |b.challenges| =>
           if b.challenges[i].code in codes then b.challenges[i].(relayed := true) else b.challenges[i]))
  }

  lemma {:induction false} CodesFlagged(t: M.Tracked, codes: seq<OtpCode>, height: Height)
    ensures RelayCodes(t, codes, height).book == Flagged(t.book, codes, [])
  {
    if codes == [] {
      assert Flagged(t.book, [], []) == t.book;
    } else {
      var k := |codes| - 1;
      CodesFlagged(t, codes[..k], height);
      assert codes == codes[..k] + [codes[k]];
      assert RelayChallenge(Flagged(t.book, codes[..k], []), codes[k]) == Flagged(t.book, codes, []);
    }
  }

  lemma {:induction false} BuysFlagged(t: M.Tracked, names: seq<Name>, height: Height)
    ensures RelayBuys(t, names, height).book == Flagged(t.book, [], names)
  {
    if names == [] {
      assert Flagged(t.book, [], []) == t.book;
    } else {
      var k := |names| - 1;
      BuysFlagged(t, names[..k], height);
      assert names == names[..k] + [names[k]];
      assert RelayBuy(Flagged(t.book, [], names[..k]), names[k]) == Flagged(t.book, [], names);
    }
  }

  lemma PassBook(m: Mint, pass: Pass)
    ensures var relayed := RelayBuys(RelayCodes(m.market, pass.relayedCodes, m.height), pass.relayedBuys, m.height);
      relayed.book == Flagged(m.market.book, pass.relayedCodes, pass.relayedBuys)
  {
    CodesFlagged(m.market, pass.relayedCodes, m.height);
    var coded := RelayCodes(m.market, pass.relayedCodes, m.height);
    BuysFlagged(coded, pass.relayedBuys, m.height);
    assert Flagged(Flagged(m.market.book, pass.relayedCodes, []), [], pass.relayedBuys)
      == Flagged(m.market.book, pass.relayedCodes, pass.relayedBuys);
  }

  /** The names an order holds when the market is polled: those with an order before the pass, and those just claimed. */
  function Held(m: Mint, pass: Pass): set<Name> {
    PendingNames(AdmitClaims(m.orders, m.reg.records, m.mtp, pass.claims))
  }

  /**
   The market after a pass: the codes and buys it sent out are flagged, and the paid
   sales without an order whose note is no longer there to spend are closed.
   */
  lemma PassMarketLaw(m: Mint, pass: Pass)
    ensures var flagged := Flagged(m.market.book, pass.relayedCodes, pass.relayedBuys);
      Leaves(flagged, DecideWith(m, pass).market.book, {},
        set s | s in flagged.sales && s.phase.Paid? && s.name !in Held(m, pass) && !Owing(s, m.reg.records, Held(m, pass)) :: s.name, {})
  {
    PassBook(m, pass);
    PollLaw(Flagged(m.market.book, pass.relayedCodes, pass.relayedBuys), m.reg.records, Held(m, pass));
  }

  /** A claim joins for a free name: the first one this pass brings, when no order was there. */
  ghost predicate FirstClaim(claims: seq<PaidClaim>, n: Name, i: nat) {
    i < |claims| && claims[i].name == n && forall j | 0 <= j < i :: claims[j].name != n
  }

  /** The note a paid claim asks for: its term counted from the clock, in Julian years. */
  function ClaimFor(c: PaidClaim, mtp: Timestamp): NameNote {
    ClaimNote(c.name, c.ua, if c.term.Forever? then Never else At(mtp + c.term.n * 31_557_600))
  }

  lemma {:induction false} NoClaimStands(orders: Orders, records: Records, mtp: Timestamp, claims: seq<PaidClaim>, n: Name)
    requires n in records || Standing(orders, n) != [] || forall c | c in claims :: c.name != n
    ensures Standing(AdmitClaims(orders, records, mtp, claims), n) == Standing(orders, n)
  {
    if claims != [] {
      var k := |claims| - 1;
      var before, c := AdmitClaims(orders, records, mtp, claims[..k]), claims[k];
      NoClaimStands(orders, records, mtp, claims[..k], n);
      assert c in claims;
      if AuthorizeClaim(records, c, mtp).Some? { StandingAdmit(before, c.paidAt, AuthorizeClaim(records, c, mtp).value, n); }
    }
  }

  lemma {:induction false} FirstClaimStands(orders: Orders, records: Records, mtp: Timestamp, claims: seq<PaidClaim>, n: Name, i: nat)
    requires FirstClaim(claims, n, i) && n !in records && Standing(orders, n) == []
    ensures Standing(AdmitClaims(orders, records, mtp, claims), n) == [Order(ClaimFor(claims[i], mtp), claims[i].paidAt, Authorized)]
  {
    var k := |claims| - 1;
    var before, c := AdmitClaims(orders, records, mtp, claims[..k]), claims[k];
    if i < k {
      FirstClaimStands(orders, records, mtp, claims[..k], n, i);
    } else {
      forall d | d in claims[..k] ensures d.name != n {
        var j :| 0 <= j < k && claims[j] == d;
      }
      NoClaimStands(orders, records, mtp, claims[..k], n);
    }
    ClaimJoins(before, records, mtp, c, n);
  }

  lemma ClaimJoins(before: Orders, records: Records, mtp: Timestamp, c: PaidClaim, n: Name)
    requires n !in records
    ensures var note := AuthorizeClaim(records, c, mtp);
      var after := if note.None? then before else AdmitOrder(before, c.paidAt, note.value);
      Standing(after, n) ==
        if c.name == n && Standing(before, n) == [] then [Order(ClaimFor(c, mtp), c.paidAt, Authorized)] else Standing(before, n)
  {
    var note := AuthorizeClaim(records, c, mtp);
    if note.Some? { StandingAdmit(before, c.paidAt, note.value, n); }
  }

  lemma {:induction false} NotedStanding(orders: Orders, origin: Height, notes: seq<NameNote>, n: Name)
    ensures var after := Standing(AdmitNotes(orders, origin, notes), n);
      && (Standing(orders, n) != [] || (forall note | note in notes :: note.name != n) ==> after == Standing(orders, n))
      && (Standing(orders, n) == [] && (exists note :: note in notes && note.name == n) ==>
            |after| == 1 && after[0].note in notes && after[0].note.name == n && after[0] == Order(after[0].note, origin, Authorized))
  {
    if notes != [] {
      var k := |notes| - 1;
      NotedStanding(orders, origin, notes[..k], n);
      assert notes == notes[..k] + [notes[k]];
      StandingAdmit(AdmitNotes(orders, origin, notes[..k]), origin, notes[k], n);
    }
  }

  // ---------------------------------------------------------------------------
  // The orders of one name before they are settled
  // ---------------------------------------------------------------------------

  /** What stands on a name when the market was polled. */
  function Polled(m: Mint, pass: Pass): Mint {
    var m1 := m.(orders := AdmitClaims(m.orders, m.reg.records, m.mtp, pass.claims));
    PollMarket(m1.(market := RelayBuys(RelayCodes(m1.market, pass.relayedCodes, m1.height), pass.relayedBuys, m1.height)))
  }

  lemma PolledIs(m: Mint, pass: Pass)
    ensures var p := Polled(m, pass);
      && DecideWith(m, pass) == p.(orders := SettleOrders(p, p.orders, pass))
      && p.reg == m.reg && p.height == m.height && p.mtp == m.mtp
      && p.orders == AdmitNotes(AdmitClaims(m.orders, m.reg.records, m.mtp, pass.claims), m.height,
                                OwedNotes(Flagged(m.market.book, pass.relayedCodes, pass.relayedBuys).sales, m.reg.records, Held(m, pass)))
  {
    PassBook(m, pass);
  }

  lemma HeldIff(m: Mint, pass: Pass, n: Name)
    ensures n in Held(m, pass) <==> Standing(AdmitClaims(m.orders, m.reg.records, m.mtp, pass.claims), n) != []
  {
    PendingIff(AdmitClaims(m.orders, m.reg.records, m.mtp, pass.claims), n);
  }

  /** A paid sale keeps its place through the flags. */
  lemma PaidThroughFlags(b: Book, codes: seq<OtpCode>, buys: seq<Name>, s: OpenSale)
    requires s.phase.Paid?
    ensures s in Flagged(b, codes, buys).sales <==> s in b.sales
  {
    var after := Flagged(b, codes, buys).sales;
    if s in b.sales {
      var i :| 0 <= i < |b.sales| && b.sales[i] == s;
      assert after[i] == s;
    }
    if s in after {
      var i :| 0 <= i < |after| && after[i] == s;
      assert b.sales[i] == s;
    }
  }

  /** This sale, paid and free of orders, owes the note `note`. */
  ghost predicate Owes(m: Mint, s: OpenSale, note: NameNote) {
    s in m.market.book.sales && Owing(s, m.reg.records, {}) && note == SaleNote(s.name, s.bob, s.term, s.held)
  }

  lemma OwedIff(m: Mint, pass: Pass, note: NameNote)
    requires note.name !in Held(m, pass)
    ensures var flagged := Flagged(m.market.book, pass.relayedCodes, pass.relayedBuys);
      note in OwedNotes(flagged.sales, m.reg.records, Held(m, pass)) <==> exists s :: Owes(m, s, note)
  {
    var records, flagged := m.reg.records, Flagged(m.market.book, pass.relayedCodes, pass.relayedBuys);
    PollLaw(flagged, records, Held(m, pass));
    if note in OwedNotes(flagged.sales, records, Held(m, pass)) {
      var x :| x in flagged.sales && Owing(x, records, Held(m, pass)) && note == SaleNote(x.name, x.bob, x.term, x.held);
      PaidThroughFlags(m.market.book, pass.relayedCodes, pass.relayedBuys, x);
      assert Owes(m, x, note);
    }
    if s :| Owes(m, s, note) {
      PaidThroughFlags(m.market.book, pass.relayedCodes, pass.relayedBuys, s);
      assert s.name == note.name && Owing(s, records, Held(m, pass));
    }
  }

  /** On a live name, what stands is what stood, or the note a paid sale on it owes. */
  lemma PolledLive(m: Mint, pass: Pass, n: Name)
    requires n in m.reg.records
    ensures var after := Standing(Polled(m, pass).orders, n);
      && (Standing(m.orders, n) != [] ==> after == Standing(m.orders, n))
      && (Standing(m.orders, n) == [] && (forall s, note | Owes(m, s, note) :: note.name != n) ==> after == [])
      && (Standing(m.orders, n) == [] && (exists s, note :: Owes(m, s, note) && note.name == n) ==>
            exists s, note :: Owes(m, s, note) && note.name == n && after == [Order(note, m.height, Authorized)])
  {
    var owed := OwedNotes(Flagged(m.market.book, pass.relayedCodes, pass.relayedBuys).sales, m.reg.records, Held(m, pass));
    PolledIs(m, pass);
    NoClaimStands(m.orders, m.reg.records, m.mtp, pass.claims, n);
    HeldIff(m, pass, n);
    NotedStanding(AdmitClaims(m.orders, m.reg.records, m.mtp, pass.claims), m.height, owed, n);
    if Standing(m.orders, n) == [] {
      forall note: NameNote | note.name == n ensures note in owed <==> exists s :: Owes(m, s, note) { OwedIff(m, pass, note); }
      var after := Standing(Polled(m, pass).orders, n);
      if s, note :| Owes(m, s, note) && note.name == n {
        assert note in owed;
        assert after == [Order(after[0].note, m.height, Authorized)];
        var x :| Owes(m, x, after[0].note);
      }
    }
  }

  /** A sale that owes its note stays open through the poll. */
  lemma OwingStaysOpen(m: Mint, pass: Pass, s: OpenSale)
    requires s in m.market.book.sales && Owing(s, m.reg.records, {}) && OneSalePerName(m.market.book.sales)
    ensures HasSale(DecideWith(m, pass).market.book.sales, s.name)
  {
    var flagged := Flagged(m.market.book, pass.relayedCodes, pass.relayedBuys);
    PassMarketLaw(m, pass);
    PaidThroughFlags(m.market.book, pass.relayedCodes, pass.relayedBuys, s);
    var gone := set x | x in flagged.sales && x.phase.Paid? && x.name !in Held(m, pass) && !Owing(x, m.reg.records, Held(m, pass)) :: x.name;
    if s.name in gone {
      var x :| x in flagged.sales && x.phase.Paid? && x.name !in Held(m, pass) && !Owing(x, m.reg.records, Held(m, pass)) && x.name == s.name;
      PaidThroughFlags(m.market.book, pass.relayedCodes, pass.relayedBuys, x);
      SameSale(m.market.book.sales, s, x);
      assert false;
    }
    WithoutNamesMembers(flagged.sales, gone);
    var after := DecideWith(m, pass).market.book.sales;
    assert s in after;
    var i :| 0 <= i < |after| && after[i] == s;
  }

  lemma SameSale(sales: seq<OpenSale>, a: OpenSale, b: OpenSale)
    requires OneSalePerName(sales) && a in sales && b in sales && a.name == b.name
    ensures a == b
  {
    var i :| 0 <= i < |sales| && sales[i] == a;
    var j :| 0 <= j < |sales| && sales[j] == b;
    assert i == j;
  }

  lemma {:induction false} FirstClaimExists(claims: seq<PaidClaim>, n: Name) returns (i: nat)
    requires exists c :: c in claims && c.name == n
    ensures FirstClaim(claims, n, i)
  {
    if claims[0].name == n {
      i := 0;
    } else {
      assert claims == [claims[0]] + claims[1..];
      var k := FirstClaimExists(claims[1..], n);
      i := k + 1;
      assert forall j | 0 < j < i :: claims[j] == claims[1..][j - 1];
    }
  }

  /** On a free name, what stands is what stood, or the first claim. */
  lemma PolledFree(m: Mint, pass: Pass, n: Name)
    requires n !in m.reg.records
    ensures var after := Standing(Polled(m, pass).orders, n);
      && (Standing(m.orders, n) != [] || (forall c | c in pass.claims :: c.name != n) ==> after == Standing(m.orders, n))
      && (forall i: nat | FirstClaim(pass.claims, n, i) && Standing(m.orders, n) == [] ::
            after == [Order(ClaimFor(pass.claims[i], m.mtp), pass.claims[i].paidAt, Authorized)])
  {
    var records, flagged := m.reg.records, Flagged(m.market.book, pass.relayedCodes, pass.relayedBuys);
    PolledIs(m, pass);
    PollLaw(flagged, records, Held(m, pass));
    NotedStanding(AdmitClaims(m.orders, records, m.mtp, pass.claims), m.height, OwedNotes(flagged.sales, records, Held(m, pass)), n);
    if Standing(m.orders, n) != [] || forall c | c in pass.claims :: c.name != n {
      NoClaimStands(m.orders, records, m.mtp, pass.claims, n);
    }
    forall i: nat | FirstClaim(pass.claims, n, i) && Standing(m.orders, n) == []
      ensures Standing(Polled(m, pass).orders, n) == [Order(ClaimFor(pass.claims[i], m.mtp), pass.claims[i].paidAt, Authorized)]
    {
      FirstClaimStands(m.orders, records, m.mtp, pass.claims, n, i);
    }
  }

  // ---------------------------------------------------------------------------
  // Releases
  // ---------------------------------------------------------------------------

  /** No unresolved order of the name but updates that give way. */
  ghost predicate AllGiveWay(orders: Orders, n: Name, tip: Height) {
    forall o | o in orders && !o.state.Seen? && o.note.name == n :: GivesWay(o, tip)
  }

  lemma NoneLeftIff(orders: Orders, n: Name, tip: Height)
    ensures var expired := ExpireSent(Standing(orders, n), tip);
      Dropped(expired, Updates(AuthorizedNotes(expired))) == [] <==> AllGiveWay(orders, n, tip)
  {
    var standing := Standing(orders, n);
    var expired := ExpireSent(standing, tip);
    StandingMembers(orders, n);
    UpdatesOf(expired);
    if forall o | o in expired :: o.state.Authorized? && o.note.UpdateNote? {
      forall o | o in standing ensures GivesWay(o, tip) {
        var i :| 0 <= i < |standing| && standing[i] == o;
        assert expired[i] in expired;
      }
    }
    if AllGiveWay(orders, n, tip) {
      forall o | o in expired ensures o.state.Authorized? && o.note.UpdateNote? {
        var i :| 0 <= i < |expired| && expired[i] == o;
        assert standing[i] in standing;
      }
    }
  }

  /** The release of a live name: its live address and commitment, ordered at the tip. */
  function ReleaseAt(m: Mint, pass: Pass, n: Name): Order
    requires n in m.reg.records
  {
    Order(ReleaseNote(n, m.reg.records[n].ua, m.reg.records[n].commitment), m.height, Out(pass.broadcast, n))
  }

  /** The name's term or liveness ran out, no buy holds it after the poll, and nothing waits on it but updates that give way. */
  ghost predicate Releasable(m: Mint, pass: Pass, n: Name) {
    && DueAt(m.reg.records, n, m.mtp)
    && (forall s | s in DecideWith(m, pass).market.book.sales :: s.name != n)
    && AllGiveWay(m.orders, n, m.height)
  }

  lemma NoSaleIff(sales: seq<OpenSale>, n: Name)
    ensures HasSale(sales, n) <==> !forall s | s in sales :: s.name != n
  {
  }

  /** Every such name ends the pass with its release as its one unresolved order; the updates gave way to it. */
  lemma DueNameIsReleased(m: Mint, pass: Pass, n: Name)
    requires OneSalePerName(m.market.book.sales) && Releasable(m, pass, n)
    ensures Standing(DecideWith(m, pass).orders, n) == [ReleaseAt(m, pass, n)]
  {
    var p := Polled(m, pass);
    PolledIs(m, pass);
    PolledLive(m, pass, n);
    forall s, note | Owes(m, s, note) ensures note.name != n {
      OwingStaysOpen(m, pass, s);
    }
    NoSaleIff(DecideWith(m, pass).market.book.sales, n);
    NoneLeftIff(m.orders, n, m.height);
    var ready := SettledStanding(p, p.orders, pass, n);
    assert ready == [Order(ReleaseNote(n, m.reg.records[n].ua, m.reg.records[n].commitment), m.height, Authorized)];
  }

  // ---------------------------------------------------------------------------
  // Nothing else is ordered
  // ---------------------------------------------------------------------------

  /** Some unresolved order had this note and origin before the pass. */
  ghost predicate Stood(orders: Orders, o: Order) {
    exists p :: p in orders && !p.state.Seen? && p.note == o.note && p.origin == o.origin
  }

  /** Why a pass orders this note: a due release, a paid sale, or the first claim on a free name. */
  ghost predicate Warranted(m: Mint, pass: Pass, o: Order) {
    match o.note
    case ReleaseNote(n, _, _) =>
      Releasable(m, pass, n) && o.note == ReleaseAt(m, pass, n).note && o.origin == m.height
    case SaleNote(n, _, _, _) =>
      o.origin == m.height && (exists s :: Owes(m, s, o.note)) && forall p | p in m.orders && p.note.name == n :: p.state.Seen?
    case ClaimNote(n, _, _) =>
      && n !in m.reg.records && (forall p | p in m.orders && p.note.name == n :: p.state.Seen?)
      && exists i: nat :: FirstClaim(pass.claims, n, i) && o.note == ClaimFor(pass.claims[i], m.mtp) && o.origin == pass.claims[i].paidAt
    case UpdateNote(_, _, _, _) => false
  }

  lemma ExpiredFrom(waiting: Orders, tip: Height)
    ensures FromOnly(waiting, ExpireSent(waiting, tip))
  {
    var expired := ExpireSent(waiting, tip);
    forall o | o in expired ensures exists p :: p in waiting && p.note == o.note && p.origin == o.origin {
      var i :| 0 <= i < |expired| && expired[i] == o;
      assert waiting[i] in waiting;
    }
  }

  /** Before the release step, an order that did not stand is a sale note that is owed or the first claim. */
  lemma PolledNew(m: Mint, pass: Pass, n: Name, o: Order)
    requires o in Standing(Polled(m, pass).orders, n) && !Stood(m.orders, o)
    ensures o.note.name == n && !o.note.ReleaseNote? && !o.note.UpdateNote? && Warranted(m, pass, o)
    ensures Standing(Polled(m, pass).orders, n) == [o] && o.state.Authorized?
  {
    var after := Standing(Polled(m, pass).orders, n);
    StandingMembers(Polled(m, pass).orders, n);
    StandingMembers(m.orders, n);
    assert after != Standing(m.orders, n);
    if n in m.reg.records {
      PolledLive(m, pass, n);
      assert exists s :: Owes(m, s, o.note);
    } else {
      PolledFree(m, pass, n);
      var i := FirstClaimExists(pass.claims, n);
    }
  }

  lemma KeptAsIs(m: Mint, w: Order, n: Name, ready: Orders)
    requires Ready(m, [w], n, ready) && w.state.Authorized? && !w.note.UpdateNote?
    ensures ready == [w]
  {
    assert ExpireSent([w], m.height) == [w];
    LeftAlone(w, DueAt(m.reg.records, n, m.mtp));
  }

  lemma OutOf(records: Records, broadcast: map<Name, Height>, n: Name, w: Order, after: Orders, o: Order)
    requires Submitted(records, broadcast, n, [w], after) && w.state.Authorized? && o in after
    ensures o == w.(state := Out(broadcast, n))
  {
  }

  /** `o` was waiting on its name; when it waited alone, authorized and no update, it is out if the node took it. */
  ghost predicate Waited(p: Mint, pass: Pass, o: Order, w: Order) {
    var waiting := Standing(p.orders, o.note.name);
    && w in waiting && w.note == o.note && w.origin == o.origin
    && (waiting == [w] && w.state.Authorized? && !w.note.UpdateNote? ==> o == w.(state := Out(pass.broadcast, o.note.name)))
  }

  /** `o` is the release that joined. */
  ghost predicate Joined(p: Mint, pass: Pass, o: Order) {
    var n := o.note.name;
    && DueAt(p.reg.records, n, p.mtp) && !HasSale(p.market.book.sales, n) && AllGiveWay(p.orders, n, p.height)
    && o == ReleaseAt(p, pass, n)
  }

  lemma SettledNew(p: Mint, pass: Pass, o: Order)
    requires o in SettleOrders(p, p.orders, pass) && !o.state.Seen?
    ensures Joined(p, pass, o) || exists w :: Waited(p, pass, o, w)
  {
    var n := o.note.name;
    var ready := SettledStanding(p, p.orders, pass, n);
    StandingMembers(SettleOrders(p, p.orders, pass), n);
    var after, waiting := Standing(SettleOrders(p, p.orders, pass), n), Standing(p.orders, n);
    assert o in after;
    if q :| q in ExpireSent(waiting, p.height) && q.note == o.note && q.origin == o.origin {
      SettledWaiting(p, pass, o, ready, after, q);
    } else {
      NoneLeftIff(p.orders, n, p.height);
      SettledJoined(p, pass, o, ready, after);
    }
  }

  lemma SettledWaiting(p: Mint, pass: Pass, o: Order, ready: Orders, after: Orders, q: Order)
    requires Ready(p, Standing(p.orders, o.note.name), o.note.name, ready)
    requires Submitted(p.reg.records, pass.broadcast, o.note.name, ready, after) && o in after
    requires q in ExpireSent(Standing(p.orders, o.note.name), p.height) && q.note == o.note && q.origin == o.origin
    ensures exists w :: Waited(p, pass, o, w)
  {
    var waiting := Standing(p.orders, o.note.name);
    ExpiredFrom(waiting, p.height);
    var w :| w in waiting && w.note == o.note && w.origin == o.origin;
    if waiting == [w] && w.state.Authorized? && !w.note.UpdateNote? {
      KeptAsIs(p, w, o.note.name, ready);
      OutOf(p.reg.records, pass.broadcast, o.note.name, w, after, o);
    }
    assert Waited(p, pass, o, w);
  }

  lemma SettledJoined(p: Mint, pass: Pass, o: Order, ready: Orders, after: Orders)
    requires Ready(p, Standing(p.orders, o.note.name), o.note.name, ready)
    requires Submitted(p.reg.records, pass.broadcast, o.note.name, ready, after) && o in after
    requires !exists q :: q in ExpireSent(Standing(p.orders, o.note.name), p.height) && q.note == o.note && q.origin == o.origin
    requires Dropped(ExpireSent(Standing(p.orders, o.note.name), p.height),
                     Updates(AuthorizedNotes(ExpireSent(Standing(p.orders, o.note.name), p.height)))) == []
      <==> AllGiveWay(p.orders, o.note.name, p.height)
    ensures Joined(p, pass, o)
  {
    var q :| q in ready && q.note == o.note && q.origin == o.origin;
    LeftWithin(DueAt(p.reg.records, o.note.name, p.mtp), ExpireSent(Standing(p.orders, o.note.name), p.height));
    OutOf(p.reg.records, pass.broadcast, o.note.name, ready[0], after, o);
  }

  lemma LeftWithin(due: bool, expired: Orders)
    ensures forall o | o in Left(due, expired) :: o in expired
  {
  }

  /** The release joins only for a due name without a buy, when nothing else was left on it. */
  lemma JoinedIsReleasable(m: Mint, pass: Pass, o: Order)
    requires Joined(Polled(m, pass), pass, o)
    ensures Releasable(m, pass, o.note.name) && o == ReleaseAt(m, pass, o.note.name)
  {
    var n, p := o.note.name, Polled(m, pass);
    PolledIs(m, pass);
    NoSaleIff(p.market.book.sales, n);
    PolledLive(m, pass, n);
    StandingMembers(p.orders, n);
    StandingMembers(m.orders, n);
    forall w | w in m.orders && !w.state.Seen? && w.note.name == n ensures GivesWay(w, m.height) {
      assert w in Standing(m.orders, n);
    }
  }

  lemma WaitedIsWarranted(m: Mint, pass: Pass, o: Order, w: Order)
    requires Waited(Polled(m, pass), pass, o, w) && !Stood(m.orders, o)
    ensures Warranted(m, pass, o) && o.state == Out(pass.broadcast, o.note.name)
  {
    PolledNew(m, pass, o.note.name, w);
  }

  /** Whatever a pass leaves unresolved that did not stand before is warranted, and out if the node took it. */
  lemma OnlyWarrantedOrders(m: Mint, pass: Pass, o: Order)
    requires o in DecideWith(m, pass).orders && !o.state.Seen? && !Stood(m.orders, o)
    ensures Warranted(m, pass, o) && o.state == Out(pass.broadcast, o.note.name)
  {
    PolledIs(m, pass);
    SettledNew(Polled(m, pass), pass, o);
    if w :| Waited(Polled(m, pass), pass, o, w) {
      WaitedIsWarranted(m, pass, o, w);
    } else {
      JoinedIsReleasable(m, pass, o);
    }
  }

  // ---------------------------------------------------------------------------
  // Sales, claims, and the orders that waited
  // ---------------------------------------------------------------------------

  /** An order that waits alone and does not give way is out, back for another try, or dropped once its authority is gone. */
  lemma AloneSettles(p: Mint, pass: Pass, n: Name, o: Order)
    requires Standing(p.orders, n) == [o] && !(DueAt(p.reg.records, n, p.mtp) && GivesWay(o, p.height))
    ensures Standing(SettleOrders(p, p.orders, pass), n) ==
      if o.state.Sent? && o.state.expiry > p.height + 1 then [o]
      else if Stranded(p.reg.records, o.note) then []
      else [o.(state := Out(pass.broadcast, n))]
  {
    StandingMembers(p.orders, n);
    assert o in [o] && o in p.orders;
    var ready := SettledStanding(p, p.orders, pass, n);
    AloneReady(p, n, o, ready);
  }

  lemma AloneReady(p: Mint, n: Name, o: Order, ready: Orders)
    requires Ready(p, [o], n, ready) && !(DueAt(p.reg.records, n, p.mtp) && GivesWay(o, p.height)) && !o.state.Seen?
    ensures ready == [if o.state.Sent? && o.state.expiry <= p.height + 1 then o.(state := Authorized) else o]
  {
    var expired := ExpireOrder(o, p.height);
    assert ExpireSent([o], p.height) == [expired];
    LeftAlone(expired, DueAt(p.reg.records, n, p.mtp));
  }

  lemma LeftAlone(o: Order, due: bool)
    ensures Left(due, [o]) == if due && o.state.Authorized? && o.note.UpdateNote? then [] else [o]
  {
    OneNote(o);
    UpdatesOf([o]);
    assert o in [o];
    assert Dropped([o], 0) == [o];
  }

  /** A paid sale that no order holds up, its note still the lister's live one, gets its sale note ordered at the tip. */
  lemma PaidSaleIsOrdered(m: Mint, pass: Pass, s: OpenSale)
    requires OneSalePerName(m.market.book.sales) && s in m.market.book.sales && Owing(s, m.reg.records, {})
    requires forall p | p in m.orders && p.note.name == s.name :: p.state.Seen?
    ensures Standing(DecideWith(m, pass).orders, s.name) ==
      [Order(SaleNote(s.name, s.bob, s.term, s.held), m.height, Out(pass.broadcast, s.name))]
  {
    var n, p := s.name, Polled(m, pass);
    PolledIs(m, pass);
    StandingNone(m.orders, n);
    PolledLive(m, pass, n);
    assert Owes(m, s, SaleNote(n, s.bob, s.term, s.held));
    var x, note :| Owes(m, x, note) && note.name == n && Standing(p.orders, n) == [Order(note, m.height, Authorized)];
    SameSale(m.market.book.sales, s, x);
    AloneSettles(p, pass, n, Order(note, m.height, Authorized));
  }

  lemma StandingNone(orders: Orders, n: Name)
    requires forall p | p in orders && p.note.name == n :: p.state.Seen?
    ensures Standing(orders, n) == []
  {
    NoneStands(orders, n);
  }

  /** The first paid claim on a free name without an order is ordered at the height of its payment. */
  lemma PaidClaimIsOrdered(m: Mint, pass: Pass, n: Name, i: nat)
    requires n !in m.reg.records && FirstClaim(pass.claims, n, i)
    requires forall p | p in m.orders && p.note.name == n :: p.state.Seen?
    ensures Standing(DecideWith(m, pass).orders, n) ==
      [Order(ClaimFor(pass.claims[i], m.mtp), pass.claims[i].paidAt, Out(pass.broadcast, n))]
  {
    var p := Polled(m, pass);
    PolledIs(m, pass);
    StandingNone(m.orders, n);
    PolledFree(m, pass, n);
    AloneSettles(p, pass, n, Order(ClaimFor(pass.claims[i], m.mtp), pass.claims[i].paidAt, Authorized));
  }

  /** A claim whose name is live, or any other note whose name is not live with the commitment it continues. */
  ghost predicate Adrift(records: Records, note: NameNote) {
    if note.ClaimNote? then note.name in records else !(note.name in records && records[note.name].commitment == note.prev)
  }

  /**
   An order that waits alone on its name: a broadcast still inside its window is left
   alone; an authorized one, or one whose window closed, goes once its authority is
   gone and is otherwise submitted; an update on a due name goes whatever its authority.
   */
  lemma WaitingOrderSettles(m: Mint, pass: Pass, n: Name, o: Order)
    requires OneSalePerName(m.market.book.sales) && Standing(m.orders, n) == [o]
    ensures var after := Standing(DecideWith(m, pass).orders, n);
      if DueAt(m.reg.records, n, m.mtp) && GivesWay(o, m.height) then
        after == if exists s :: s in DecideWith(m, pass).market.book.sales && s.name == n then [] else [ReleaseAt(m, pass, n)]
      else
        after == if o.state.Sent? && o.state.expiry > m.height + 1 then [o]
                 else if Adrift(m.reg.records, o.note) then []
                 else [o.(state := Out(pass.broadcast, n))]
  {
    var p := Polled(m, pass);
    PolledIs(m, pass);
    if n in m.reg.records { PolledLive(m, pass, n); } else { PolledFree(m, pass, n); }
    StandingMembers(m.orders, n);
    assert o in [o] && o in m.orders;
    if DueAt(m.reg.records, n, m.mtp) && GivesWay(o, m.height) {
      forall q | q in m.orders && !q.state.Seen? && q.note.name == n ensures GivesWay(q, m.height) {
        assert q in [o];
      }
      GaveWay(m, pass, n);
    } else {
      AloneSettles(p, pass, n, o);
    }
  }

  lemma GaveWay(m: Mint, pass: Pass, n: Name)
    requires OneSalePerName(m.market.book.sales) && DueAt(m.reg.records, n, m.mtp) && AllGiveWay(m.orders, n, m.height)
    requires Standing(m.orders, n) != []
    ensures Standing(DecideWith(m, pass).orders, n) ==
      if exists s :: s in DecideWith(m, pass).market.book.sales && s.name == n then [] else [ReleaseAt(m, pass, n)]
  {
    var p := Polled(m, pass);
    PolledIs(m, pass);
    PolledLive(m, pass, n);
    NoSaleIff(DecideWith(m, pass).market.book.sales, n);
    if exists s :: s in DecideWith(m, pass).market.book.sales && s.name == n {
      NoneLeftIff(m.orders, n, m.height);
      var ready := SettledStanding(p, p.orders, pass, n);
    } else {
      DueNameIsReleased(m, pass, n);
    }
  }
}
