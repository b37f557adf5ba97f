/**
 Legal runs of the loop at which a property fails once a rewind is involved, each
 from boot and each one turn past the condition under which the property holds.
 */
module MintExamples {
  import opened Basics
  import opened NameNotes
  import opened Listings
  import opened Registries
  import opened MarketBooks
  import opened MarketRules
  import opened OrderQueues
  import opened MintLoop
  import opened MarketInvariants
  import opened MarketExamples
  import opened MintConsistency
  import opened MintExclusion
  import opened MintRewinds
  import R = RegistryRuns
  import M = MarketRuns
  import AnchorPools

  // ---------------------------------------------------------------------------
  // Turns with nothing for the market
  // ---------------------------------------------------------------------------

  lemma QuietBook(b: Book, records: Records, pending: set<Name>, mtp: Timestamp, height: Height)
    requires b == EMPTY_BOOK
    ensures Expire(b, mtp, height).book == EMPTY_BOOK && Reconcile(b, records).book == EMPTY_BOOK
    ensures Observe(b, records, [], mtp).book == EMPTY_BOOK && Poll(b, records, pending).book == EMPTY_BOOK
    ensures OwedNotes(b.sales, records, pending) == []
  {
    assert forall n :: n in FinishedClocks(b.listings, height) ==> n in b.listings;
    assert FinishedClocks(b.listings, height) == [];
    assert MarkPaid([], {}) == [];
  }

  /** A block without memos or payments only moves the registry and reconciles the orders. */
  lemma QuietBlock(net: Network, m: Mint, mtp: Timestamp, steps: seq<R.Step>)
    requires m.market.book == EMPTY_BOOK
    ensures var after, reg := ExtendBy(net, m, Block(mtp, steps, [], [])), R.ApplyAll(net, m.reg, steps);
      && after.reg == reg && after.orders == ReconcileSeen(net, reg, m.orders)
      && after.height == m.height + 1 && after.mtp == mtp && after.market.book == EMPTY_BOOK
  {
    var reg := R.ApplyAll(net, m.reg, steps);
    QuietBook(EMPTY_BOOK, reg.records, {}, mtp, m.height + 1);
    assert RouteAll(Settle(net, m, Block(mtp, steps, [], [])), []) == Settle(net, m, Block(mtp, steps, [], []));
  }

  function QuietPass(claims: seq<PaidClaim>, broadcast: map<Name, Height>): Pass {
    Pass(claims, [], [], broadcast)
  }

  /** A pass over an empty book admits the claims and settles the orders. */
  lemma QuietDecision(m: Mint, claims: seq<PaidClaim>, broadcast: map<Name, Height>)
    requires m.market.book.sales == []
    ensures var after := DecideWith(m, QuietPass(claims, broadcast));
      && after.reg == m.reg && after.height == m.height && after.mtp == m.mtp && after.market.book.sales == []
      && after.orders == SettleOrders(m, AdmitClaims(m.orders, m.reg.records, m.mtp, claims), QuietPass(claims, broadcast))
  {
    var claimed := AdmitClaims(m.orders, m.reg.records, m.mtp, claims);
    assert RelayBuys(RelayCodes(m.market, [], m.height), [], m.height) == m.market;
    assert OwedNotes([], m.reg.records, PendingNames(claimed)) == [];
    var polled := PollMarket(m.(orders := claimed));
    assert polled.market.book.sales == [] && polled.orders == claimed;
    SameSettle(m, polled, claimed, QuietPass(claims, broadcast));
  }

  lemma SameSettle(a: Mint, b: Mint, orders: Orders, pass: Pass)
    requires a.reg == b.reg && a.mtp == b.mtp && a.height == b.height && a.market.book.sales == b.market.book.sales
    ensures SettleOrders(a, orders, pass) == SettleOrders(b, orders, pass)
  {
  }

  lemma {:induction false} NextTurn(net: Network, turns: seq<Turn>, turn: Turn)
    ensures Run(net, turns + [turn]) == Take(net, Run(net, turns), turn)
    ensures Legal(net, turns) && LegalTurn(Run(net, turns), turn) ==> Legal(net, turns + [turn])
  {
    assert (turns + [turn])[..|turns|] == turns;
  }

  /** A legal run in which nothing is rewound. */
  ghost predicate Driven(net: Network, turns: seq<Turn>) {
    Legal(net, turns) && RewindFree(turns)
  }

  lemma {:induction false} Drive(net: Network, turns: seq<Turn>, turn: Turn) returns (after: seq<Turn>)
    requires Driven(net, turns) && LegalTurn(Run(net, turns), turn) && !turn.Rewind?
    ensures Driven(net, after) && Run(net, after) == Take(net, Run(net, turns), turn)
  {
    NextTurn(net, turns, turn);
    after := turns + [turn];
  }

  // ---------------------------------------------------------------------------
  // A name claimed, then gone
  // ---------------------------------------------------------------------------

  lemma {:induction false} OneStep(net: Network, r: Reg, s: R.Step)
    ensures R.ApplyAll(net, r, [s]) == R.Apply(net, r, s)
  {
    assert [s][..0] == [];
  }

  const ANCHOR: Nullifier := 7
  const HELD: Nullifier := 8
  const SEATED: Nullifier := 9

  function Adopting(): R.Step {
    R.AdoptStep(1, ANCHOR)
  }

  function Claiming(note: NameNote, height: Height, mtp: Timestamp): R.Step
    requires note.ClaimNote?
  {
    R.ClaimStep(height, mtp, note, HELD, Some(SEATED), [ANCHOR], 100)
  }

  /** From an adopted anchor, a first claim of a name is accepted. */
  lemma ClaimAccepted(net: Network, note: NameNote, height: Height, mtp: Timestamp)
    requires note.ClaimNote?
    ensures var r := R.Apply(net, EMPTY_REG, Adopting());
      var after, rec := R.Apply(net, r, Claiming(note, height, mtp)), Create(net, note, HELD, height, mtp);
      && r.records == map[] && r.history == map[]
      && after.records == map[note.name := rec] && after.history == map[note.name := [rec]] && after.pool.live == {SEATED}
  {
    var r := R.Apply(net, EMPTY_REG, Adopting());
    assert r.pool.live == {ANCHOR};
    assert [ANCHOR][..0] == [] && CountLive(r.pool, []) == 0;
    assert CountLive(r.pool, [ANCHOR]) == 1;
    assert NamesSpentBy(r, [ANCHOR]) == {};
    var rec := Create(net, note, HELD, height, mtp);
    assert ClaimAdmitted(net, r, note.name, [ANCHOR], 100);
    assert RecordHistory(r, note.name) + [rec] == [rec];
    assert AnchorPools.Retired(r.pool, [ANCHOR]) == {ANCHOR} && {ANCHOR} - {ANCHOR} + {SEATED} == {SEATED};
    assert R.Apply(net, r, Claiming(note, height, mtp)).history == r.history[note.name := [rec]];
    assert R.Apply(net, r, Claiming(note, height, mtp)).records == r.records[note.name := rec];
    assert map[][note.name := rec] == map[note.name := rec];
    assert map[][note.name := [rec]] == map[note.name := [rec]];
  }

  function FirstRecord(net: Network, ua: UnifiedAddress): NameRecord {
    Create(net, ClaimNote(1, ua, Never), HELD, 2, 0)
  }

  /** Name 1 is live since height 2, with an empty market and queue. */
  ghost predicate SettledAt2(net: Network, m: Mint, ua: UnifiedAddress) {
    && m.reg.records == map[1 := FirstRecord(net, ua)] && m.reg.history == map[1 := [FirstRecord(net, ua)]]
    && m.reg.pool.live == {SEATED}
    && m.orders == [] && m.height == 2 && m.mtp == 0 && m.market.book == EMPTY_BOOK
  }

  lemma AdoptBlock(net: Network, mtp: Timestamp)
    ensures var after := ExtendBy(net, BORN, Block(mtp, [Adopting()], [], []));
      && after.reg == R.Apply(net, EMPTY_REG, Adopting()) && after.height == 1 && after.mtp == mtp
      && after.orders == [] && after.market.book == EMPTY_BOOK
  {
    OneStep(net, EMPTY_REG, Adopting());
    QuietBlock(net, BORN, mtp, [Adopting()]);
  }

  lemma AdoptedRun(net: Network, mtp: Timestamp) returns (turns: seq<Turn>)
    ensures Driven(net, turns)
    ensures var m := Run(net, turns);
      && m.reg == R.Apply(net, EMPTY_REG, Adopting()) && m.height == 1 && m.mtp == mtp
      && m.orders == [] && m.market.book == EMPTY_BOOK
  {
    AdoptBlock(net, mtp);
    turns := Drive(net, [], Extend(Block(mtp, [Adopting()], [], [])));
  }

  /** An anchor is adopted and a claim of name 1 confirmed. */
  lemma SettledRun(net: Network, ua: UnifiedAddress) returns (turns: seq<Turn>)
    ensures Driven(net, turns) && SettledAt2(net, Run(net, turns), ua)
  {
    var claim := Claiming(ClaimNote(1, ua, Never), 2, 0);
    var adopted := AdoptedRun(net, 0);
    ClaimAccepted(net, ClaimNote(1, ua, Never), 2, 0);
    OneStep(net, R.Apply(net, EMPTY_REG, Adopting()), claim);
    QuietBlock(net, Run(net, adopted), 0, [claim]);
    turns := Drive(net, adopted, Extend(Block(0, [claim], [], [])));
  }

  // ---------------------------------------------------------------------------
  // A release that comes back beside a claim
  // ---------------------------------------------------------------------------

  function ReleaseOf(net: Network, ua: UnifiedAddress): NameNote {
    ReleaseNote(1, ua, FirstRecord(net, ua).commitment)
  }

  /** The controller's answer is right: the release is ordered at the block that carries it. */
  lemma ReleaseOrdered(net: Network, m: Mint, ua: UnifiedAddress)
    requires m.reg.records == map[1 := FirstRecord(net, ua)] && m.orders == [] && m.market.book == EMPTY_BOOK
    ensures var after := ExtendBy(net, m, Block(0, [], [TransitionReply(1, Some(ApprovedRelease(ua)))], []));
      && after.reg == m.reg && after.orders == [Order(ReleaseOf(net, ua), m.height + 1, Authorized)]
      && after.height == m.height + 1 && after.mtp == 0 && after.market.book == EMPTY_BOOK
  {
    var reply := TransitionReply(1, Some(ApprovedRelease(ua)));
    QuietBook(EMPTY_BOOK, m.reg.records, {}, 0, m.height + 1);
    var settled := Settle(net, m, Block(0, [], [reply], []));
    assert settled.orders == [] && settled.market.book == EMPTY_BOOK && settled.reg == m.reg;
    assert [reply][..0] == [] && RouteAll(settled, [reply]) == Route(settled, reply);
    assert !HasSale([], 1) && !NotePending([], 1);
    assert [] + [Order(ReleaseOf(net, ua), m.height + 1, Authorized)] == [Order(ReleaseOf(net, ua), m.height + 1, Authorized)];
  }

  /** With nothing due, one authorized order is broadcast, or left as it is. */
  lemma OneOrderSettles(m: Mint, before: Orders, o: Order, pass: Pass)
    requires NamesDue(m.reg.records, m.mtp) == [] && o.state.Authorized? && !o.note.UpdateNote?
    requires before == [] || (|before| == 1 && before[0].state.Seen?)
    requires if o.note.ClaimNote? then o.note.name !in m.reg.records
             else o.note.name in m.reg.records && o.note.PrevOf() == Some(m.reg.records[o.note.name].commitment)
    ensures SettleOrders(m, before + [o], pass) ==
      before + [if o.note.name in pass.broadcast then o.(state := Sent(pass.broadcast[o.note.name])) else o]
  {
    var orders := before + [o];
    assert orders[..|orders| - 1] == before && (before != [] ==> before[..|before| - 1] == []);
    assert before != [] ==> AuthorizedNotes(before[..|before| - 1]) == [];
    assert AuthorizedNotes(before) == [];
    assert orders[|orders| - 1] == o && AuthorizedNotes(orders) == [] + [o.note];
    assert [] + [o.note] == [o.note];
    assert ExpireSent(orders, m.height) == orders;
    assert [o.note][..0] == [];
    assert DropDueUpdates(orders, m.reg.records, m.mtp, []) == orders;
    assert DropDueUpdates(orders, m.reg.records, m.mtp, [o.note]) == orders;
    assert AdmitReleases(orders, m.reg.records, m.market.book.sales, m.height, []) == orders;
    OneOrderSubmits(m.reg.records, before, o, pass.broadcast);
  }

  lemma OneOrderSubmits(records: Records, before: Orders, o: Order, broadcast: map<Name, Height>)
    requires o.state.Authorized? && (before == [] || (|before| == 1 && before[0].state.Seen?))
    requires if o.note.ClaimNote? then o.note.name !in records
             else o.note.name in records && o.note.PrevOf() == Some(records[o.note.name].commitment)
    ensures Submit(before + [o], records, broadcast, [o.note]) ==
      before + [if o.note.name in broadcast then o.(state := Sent(broadcast[o.note.name])) else o]
  {
    var orders := before + [o];
    assert [o.note][..0] == [];
    assert Submit(orders, records, broadcast, []) == orders;
    assert orders[|before|] == o;
    assert FirstAuthorized(orders, o.note.name, |before|) == |before|;
    assert FirstAuthorized(orders, o.note.name, 0) == |before|;
  }

  lemma NothingDue(records: Records, mtp: Timestamp)
    requires forall n | n in records :: !ReleaseDue(records[n], mtp)
    ensures NamesDue(records, mtp) == []
  {
    assert (set n | n in records && ReleaseDue(records[n], mtp)) == {};
  }

  function Releasing(net: Network, ua: UnifiedAddress): R.Step {
    R.SuccessorStep(5, 0, ReleaseOf(net, ua), 10, [HELD])
  }

  /** The release, submitted in a pass, waits through a block that does not carry it. */
  lemma BroadcastAndWait(net: Network, m: Mint, ua: UnifiedAddress)
    requires m.reg.records == map[1 := FirstRecord(net, ua)] && m.reg.history == map[1 := [FirstRecord(net, ua)]]
    requires m.orders == [Order(ReleaseOf(net, ua), 3, Authorized)] && m.mtp == 0 && m.market.book == EMPTY_BOOK
    ensures var sent := DecideWith(m, QuietPass([], map[1 := 50]));
      var after := ExtendBy(net, sent, Block(0, [], [], []));
      && sent.height == m.height
      && after.reg == m.reg && after.orders == [Order(ReleaseOf(net, ua), 3, Sent(50))]
      && after.height == m.height + 1 && after.mtp == 0 && after.market.book == EMPTY_BOOK
  {
    var o := Order(ReleaseOf(net, ua), 3, Authorized);
    var pass := QuietPass([], map[1 := 50]);
    QuietDecision(m, [], map[1 := 50]);
    NothingDue(m.reg.records, 0);
    assert [] + [o] == [o] && [] + [o.(state := Sent(50))] == [o.(state := Sent(50))];
    OneOrderSettles(m, [], o, pass);
    var sent := DecideWith(m, pass);
    QuietPassBook(m, pass);
    QuietBlock(net, sent, 0, []);
    StillWaits(net, m.reg, o.(state := Sent(50)), FirstRecord(net, ua));
  }

  lemma QuietPassBook(m: Mint, pass: Pass)
    requires m.market.book == EMPTY_BOOK && pass.relayedCodes == [] && pass.relayedBuys == []
    ensures DecideWith(m, pass).market.book == EMPTY_BOOK
  {
    var claimed := AdmitClaims(m.orders, m.reg.records, m.mtp, pass.claims);
    assert RelayBuys(RelayCodes(m.market, [], m.height), [], m.height) == m.market;
    QuietBook(EMPTY_BOOK, m.reg.records, PendingNames(claimed), 0, 0);
  }

  /** The release, ordered at height 3, is out and unmined. */
  ghost predicate WaitsAt4(net: Network, m: Mint, ua: UnifiedAddress) {
    && m.reg.records == map[1 := FirstRecord(net, ua)] && m.reg.history == map[1 := [FirstRecord(net, ua)]]
    && m.reg.pool.live == {SEATED} && m.market.book == EMPTY_BOOK
    && m.orders == [Order(ReleaseOf(net, ua), 3, Sent(50))] && m.height == 4 && m.mtp == 0
  }

  lemma ReleaseOrderedRun(net: Network, ua: UnifiedAddress) returns (turns: seq<Turn>)
    ensures Driven(net, turns)
    ensures var m := Run(net, turns);
      && m.reg.records == map[1 := FirstRecord(net, ua)] && m.reg.history == map[1 := [FirstRecord(net, ua)]]
      && m.reg.pool.live == {SEATED} && m.market.book == EMPTY_BOOK
      && m.orders == [Order(ReleaseOf(net, ua), 3, Authorized)] && m.height == 3 && m.mtp == 0
  {
    var settled := SettledRun(net, ua);
    ReleaseOrdered(net, Run(net, settled), ua);
    turns := Drive(net, settled, Extend(Block(0, [], [TransitionReply(1, Some(ApprovedRelease(ua)))], [])));
  }

  lemma ReleaseBroadcast(net: Network, ua: UnifiedAddress) returns (turns: seq<Turn>)
    ensures Driven(net, turns) && WaitsAt4(net, Run(net, turns), ua)
  {
    var ordered := ReleaseOrderedRun(net, ua);
    BroadcastAndWait(net, Run(net, ordered), ua);
    var sent := Drive(net, ordered, Decide(QuietPass([], map[1 := 50])));
    turns := Drive(net, sent, Extend(Block(0, [], [], [])));
  }

  /** An order no record at or above its origin confirms, with its authority current, stays as it is. */
  lemma StillWaits(net: Network, r: Reg, o: Order, rec: NameRecord)
    requires r.history == map[o.note.name := [rec]] && rec.confirmedHeight < o.origin && Retained(r.records, o)
    ensures ReconcileSeen(net, r, [o]) == [o]
  {
    assert !Confirmed(net, r.history, o);
    assert [o][..0] == [];
  }

  lemma ReleaseConfirmed(net: Network, r: Reg, ua: UnifiedAddress)
    requires r.records == map[1 := FirstRecord(net, ua)] && r.history == map[1 := [FirstRecord(net, ua)]]
    requires r.pool.live !! {HELD}
    ensures var after, rel := R.Apply(net, r, Releasing(net, ua)), Create(net, ReleaseOf(net, ua), 10, 5, 0);
      after.records == map[] && after.history == map[1 := [FirstRecord(net, ua), rel]]
  {
    var rec, rel := FirstRecord(net, ua), Create(net, ReleaseOf(net, ua), 10, 5, 0);
    assert NamesSpentBy(r, [HELD]) == {1};
    assert AnchorPools.Retired(r.pool, [HELD]) == {};
    assert R.Apply(net, r, Releasing(net, ua)) == SetRecord(r, rel);
    assert RecordHistory(r, 1) + [rel] == [rec, rel];
    assert SetRecord(r, rel).history == r.history[1 := [rec, rel]];
  }

  /** A claim paid for a dead name whose release is seen is ordered at the height of its payment. */
  lemma ClaimOrdered(m: Mint, seen: Order, claim: PaidClaim)
    requires m.reg.records == map[] && m.orders == [seen] && seen.state.Seen? && m.market.book.sales == []
    ensures DecideWith(m, QuietPass([claim], map[])).orders
      == [seen, Order(ClaimNote(claim.name, claim.ua, ClaimExpiry(claim.term, m.mtp)), claim.paidAt, Authorized)]
  {
    var o := Order(ClaimNote(claim.name, claim.ua, ClaimExpiry(claim.term, m.mtp)), claim.paidAt, Authorized);
    QuietDecision(m, [claim], map[]);
    NothingDue(m.reg.records, m.mtp);
    assert [claim][..0] == [] && AdmitClaims([seen], m.reg.records, m.mtp, []) == [seen];
    assert !NotePending([seen], claim.name) && AdmitClaims([seen], m.reg.records, m.mtp, [claim]) == [seen] + [o];
    OneOrderSettles(m, [seen], o, QuietPass([claim], map[]));
    assert [seen] + [o] == [seen, o];
  }

  lemma ReleaseSeen(net: Network, m: Mint, ua: UnifiedAddress)
    requires m.reg.records == map[1 := FirstRecord(net, ua)] && m.reg.history == map[1 := [FirstRecord(net, ua)]]
    requires m.reg.pool.live == {SEATED} && m.orders == [Order(ReleaseOf(net, ua), 3, Sent(50))] && m.market.book == EMPTY_BOOK
    ensures var after := ExtendBy(net, m, Block(0, [Releasing(net, ua)], [], []));
      && after.reg.records == map[] && after.orders == [Order(ReleaseOf(net, ua), 3, Seen)]
      && after.reg.history == map[1 := [FirstRecord(net, ua), Create(net, ReleaseOf(net, ua), 10, 5, 0)]]
      && after.height == m.height + 1 && after.mtp == 0 && after.market.book == EMPTY_BOOK
  {
    QuietBlock(net, m, 0, [Releasing(net, ua)]);
    OneStep(net, m.reg, Releasing(net, ua));
    ReleaseConfirmed(net, m.reg, ua);
    SeenByRelease(net, R.Apply(net, m.reg, Releasing(net, ua)), ua);
  }

  /** The release is confirmed at height 5 and seen. */
  ghost predicate ReleasedAt5(net: Network, m: Mint, ua: UnifiedAddress) {
    && m.reg.records == map[] && m.height == 5 && m.mtp == 0 && m.market.book == EMPTY_BOOK
    && m.reg.history == map[1 := [FirstRecord(net, ua), Create(net, ReleaseOf(net, ua), 10, 5, 0)]]
    && m.orders == [Order(ReleaseOf(net, ua), 3, Seen)]
  }

  lemma ReleaseTurn(net: Network, turns: seq<Turn>, ua: UnifiedAddress) returns (after: seq<Turn>)
    requires Driven(net, turns) && WaitsAt4(net, Run(net, turns), ua)
    ensures Driven(net, after) && ReleasedAt5(net, Run(net, after), ua)
  {
    ReleaseSeen(net, Run(net, turns), ua);
    after := Drive(net, turns, Extend(Block(0, [Releasing(net, ua)], [], [])));
  }

  /** One turn before the rewind: the release is seen and the claim ordered, one of them unresolved. */
  ghost predicate ReleasedAndClaimed(net: Network, m: Mint, ua: UnifiedAddress, other: UnifiedAddress) {
    && m.height == 5
    && m.reg.history == map[1 := [FirstRecord(net, ua), Create(net, ReleaseOf(net, ua), 10, 5, 0)]]
    && m.orders == [Order(ReleaseOf(net, ua), 3, Seen), Order(ClaimNote(1, other, Never), 4, Authorized)]
  }

  lemma LateClaimTurn(net: Network, turns: seq<Turn>, ua: UnifiedAddress, other: UnifiedAddress) returns (after: seq<Turn>)
    requires Driven(net, turns) && ReleasedAt5(net, Run(net, turns), ua)
    ensures Driven(net, after) && ReleasedAndClaimed(net, Run(net, after), ua, other)
  {
    var pass, m := QuietPass([PaidClaim(1, other, Forever, 4)], map[]), Run(net, turns);
    ClaimOrdered(m, Order(ReleaseOf(net, ua), 3, Seen), PaidClaim(1, other, Forever, 4));
    PassFrame(m, pass);
    after := Drive(net, turns, Decide(pass));
  }

  lemma SeenByRelease(net: Network, r: Reg, ua: UnifiedAddress)
    requires r.history == map[1 := [FirstRecord(net, ua), Create(net, ReleaseOf(net, ua), 10, 5, 0)]]
    ensures ReconcileSeen(net, r, [Order(ReleaseOf(net, ua), 3, Sent(50))]) == [Order(ReleaseOf(net, ua), 3, Seen)]
  {
    var o := Order(ReleaseOf(net, ua), 3, Sent(50));
    assert IsConfirmation(net, r.history[1][1], o) && Confirmed(net, r.history, o);
    assert [o][..0] == [];
  }

  /**
   The release is ordered at height 3 and broadcast; height 4 brings a claim's payment
   and height 5 the release, in one catch-up; the next pass orders the claim at the
   height of its payment. A rewind to that height then brings the release back beside
   the claim: two unresolved orders on one name.
   */
  lemma ReleaseComesBack(net: Network, ua: UnifiedAddress, other: UnifiedAddress) returns (turns: seq<Turn>)
    ensures Legal(net, turns + [Rewind(4, 0)]) && RewindFree(turns)
    ensures OneUnresolved(Run(net, turns).orders)
    ensures !OneUnresolved(Run(net, turns + [Rewind(4, 0)]).orders)
  {
    var waiting := ReleaseBroadcast(net, ua);
    var released := ReleaseTurn(net, waiting, ua);
    turns := LateClaimTurn(net, released, ua, other);
    var m := Run(net, turns);
    BothOutstanding(net, m.reg, ua, m.orders[0], m.orders[1]);
    CollidingRewind(net, turns, 4);
  }

  lemma CollidingRewind(net: Network, turns: seq<Turn>, to: Height)
    requires Legal(net, turns) && to <= Run(net, turns).height
    requires var m := Run(net, turns);
      |m.orders| == 2 && m.orders[0].state.Seen? && Collide(net, TruncateReg(m.reg, to), m.orders[0], m.orders[1], to)
    ensures Legal(net, turns + [Rewind(to, 0)])
    ensures OneUnresolved(Run(net, turns).orders) && !OneUnresolved(Run(net, turns + [Rewind(to, 0)]).orders)
  {
    var m := Run(net, turns);
    NextTurn(net, turns, Rewind(to, 0));
    RewindOneIff(net, TruncateReg(m.reg, to), m.orders, to);
  }

  lemma BothOutstanding(net: Network, r: Reg, ua: UnifiedAddress, release: Order, claim: Order)
    requires r.history == map[1 := [FirstRecord(net, ua), Create(net, ReleaseOf(net, ua), 10, 5, 0)]]
    requires release.note == ReleaseOf(net, ua) && release.origin == 3
    requires claim.note.ClaimNote? && claim.note.name == 1 && claim.origin == 4
    ensures Collide(net, TruncateReg(r, 4), release, claim, 4)
  {
    var rec, rel := FirstRecord(net, ua), Create(net, ReleaseOf(net, ua), 10, 5, 0);
    var cut := TruncateReg(r, 4);
    assert [rec, rel][..1] == [rec] && CutChain([rec, rel], 4) == CutChain([rec], 4) == [rec];
    assert cut.history == map[1 := [rec]];
    assert cut.records == map[1 := rec];
  }

  // ---------------------------------------------------------------------------
  // A buy that comes back beside a claim
  // ---------------------------------------------------------------------------

  function ShopMemos(l: Listing, bob: UnifiedAddress): seq<Arrival>
    requires l.ask.Flat?
  {
    [MarketMemo(ListRequest(l), true, 11), MarketReply(ListAnswer(l, 11)), MarketMemo(BuyRequest(l.name, bob), true, 12)]
  }

  lemma {:induction false} RouteNext(m: Mint, arrivals: seq<Arrival>, a: Arrival)
    ensures RouteAll(m, arrivals + [a]) == Route(RouteAll(m, arrivals), a)
  {
    assert (arrivals + [a])[..|arrivals|] == arrivals;
  }

  /** A market memo moves the market alone. */
  ghost predicate Trades(m: Mint, a: Arrival, book: Book) {
    Route(m, a) == m.(market := Route(m, a).market) && Route(m, a).market.book == book
  }

  lemma ListRoutes(m: Mint, l: Listing)
    requires MayShop(m.reg.records, l, 0) && m.orders == [] && m.market.book == EMPTY_BOOK && m.mtp == 0
    ensures Trades(m, MarketMemo(ListRequest(l), true, 11), Book(map[], [], [ListChallenge(l, 11, 0)]))
  {
    ListMemoChallenges(m.reg.records, l, 11, 0, m.height);
    assert !NotePending([], l.name);
  }

  lemma AnswerRoutes(m: Mint, l: Listing)
    requires MayShop(m.reg.records, l, 0) && m.market.book == Book(map[], [], [ListChallenge(l, 11, 0)])
    ensures Trades(m, MarketReply(ListAnswer(l, 11)), Offered(l))
  {
    AnswerLists(m.reg.records, l, 11, 0, m.height);
  }

  lemma BuyRoutes(m: Mint, l: Listing, bob: UnifiedAddress)
    requires MayShop(m.reg.records, l, 0) && m.orders == [] && m.market.book == Offered(l) && m.mtp == 0
    ensures Trades(m, MarketMemo(BuyRequest(l.name, bob), true, 12),
                   Offered(l).(sales := [Bought(l, bob, m.reg.records[l.name], 12, 0)]))
  {
    BuyMemoOpens(m.reg.records, l, bob, 12, 0, m.height);
    assert !NotePending([], l.name);
  }

  lemma {:induction false} RouteThree(m: Mint, a: Arrival, b: Arrival, c: Arrival)
    ensures RouteAll(m, [a, b, c]) == Route(Route(Route(m, a), b), c)
  {
    assert [] + [a] == [a] && [a] + [b] == [a, b] && [a, b] + [c] == [a, b, c];
    RouteNext(m, [], a);
    RouteNext(m, [a], b);
    RouteNext(m, [a, b], c);
  }

  /** The three memos of one block list the name and open a buy on it. */
  lemma ShopRoutes(m: Mint, l: Listing, bob: UnifiedAddress)
    requires MayShop(m.reg.records, l, 0) && m.orders == [] && m.market.book == EMPTY_BOOK && m.mtp == 0
    ensures var after, sale := RouteAll(m, ShopMemos(l, bob)), Bought(l, bob, m.reg.records[l.name], 12, 0);
      && after.reg == m.reg && after.orders == [] && after.height == m.height && after.mtp == 0
      && after.market.book == Offered(l).(sales := [sale])
  {
    var memos := ShopMemos(l, bob);
    var listing := Route(m, memos[0]);
    var listed := Route(listing, memos[1]);
    RouteThree(m, memos[0], memos[1], memos[2]);
    ListRoutes(m, l);
    AnswerRoutes(listing, l);
    BuyRoutes(listed, l, bob);
  }

  lemma QuietSettle(net: Network, m: Mint, block: Block)
    requires m.market.book == EMPTY_BOOK && m.orders == [] && block.steps == []
    ensures var settled := Settle(net, m, block);
      && settled.reg == m.reg && settled.orders == [] && settled.market.book == EMPTY_BOOK
      && settled.height == m.height + 1 && settled.mtp == block.mtp
  {
    QuietBook(EMPTY_BOOK, m.reg.records, {}, block.mtp, m.height + 1);
  }

  lemma ShopBlock(net: Network, m: Mint, l: Listing, bob: UnifiedAddress)
    requires MayShop(m.reg.records, l, 0) && m.orders == [] && m.market.book == EMPTY_BOOK
    ensures var after := ExtendBy(net, m, Block(0, [], ShopMemos(l, bob), []));
      && after.reg == m.reg && after.orders == [] && after.height == m.height + 1 && after.mtp == 0
      && after.market.book == Offered(l).(sales := [Bought(l, bob, m.reg.records[l.name], 12, 0)])
      && m.height + 1 in after.market.ended
      && after.market.ended[m.height + 1] == M.PastBook(after.market.book, false)
  {
    var block := Block(0, [], ShopMemos(l, bob), []);
    QuietSettle(net, m, block);
    var settled := Settle(net, m, block);
    ShopRoutes(settled, l, bob);
    NothingPaid(RouteAll(settled, ShopMemos(l, bob)).market.book, m.reg.records);
  }

  lemma {:induction false} NoPairs(sales: seq<OpenSale>, records: Records)
    ensures PaidPairs(sales, records, [], 0) == []
  {
    if sales != [] { NoPairs(sales[..|sales| - 1], records); }
  }

  lemma NothingPaid(b: Book, records: Records)
    ensures Observe(b, records, [], 0).book == b
  {
    NoPairs(b.sales, records);
    assert MarkPaid(b.sales, {}) == b.sales;
  }

  /** The holder's note is spent outside any Name Note: the name is released and every buy on it closes. */
  lemma ForeignSpend(net: Network, r: Reg, ua: UnifiedAddress)
    requires r.records == map[1 := FirstRecord(net, ua)] && r.history == map[1 := [FirstRecord(net, ua)]]
    ensures var after := R.Apply(net, r, R.FollowStep(4, [HELD]));
      after.records == map[] && after.history == map[1 := [FirstRecord(net, ua), ReleasedCopy(FirstRecord(net, ua), 4)]]
  {
    var rec := FirstRecord(net, ua);
    var r1 := r.(pool := AnchorPools.RetireSpent(r.pool, [HELD], None, 4));
    assert NamesSpentBy(r1, [HELD]) == {1};
    OneName();
    assert [1][..0] == [] && ReleaseAll(r1, [], 4) == r1;
    assert ReleaseAll(r1, [1], 4) == SetRecord(r1, ReleasedCopy(rec, 4));
    assert RecordHistory(r1, 1) + [ReleasedCopy(rec, 4)] == [rec, ReleasedCopy(rec, 4)];
    assert SetRecord(r1, ReleasedCopy(rec, 4)).history == r.history[1 := [rec, ReleasedCopy(rec, 4)]];
  }

  lemma OneName()
    ensures Ascending({1}) == [1]
  {
    var one, none: set<nat> := {1}, {};
    assert Least(one) == 1 && one - {1} == none;
    assert Ascending(none) == [];
  }

  lemma SpendBlock(net: Network, m: Mint, ua: UnifiedAddress)
    requires m.reg.records == map[1 := FirstRecord(net, ua)] && m.reg.history == map[1 := [FirstRecord(net, ua)]]
    requires m.height == 3 && m.orders == []
    ensures var after := ExtendBy(net, m, Block(0, [R.FollowStep(4, [HELD])], [], []));
      && after.reg.records == map[] && after.orders == [] && after.height == 4 && after.mtp == 0
      && after.reg.history == map[1 := [FirstRecord(net, ua), ReleasedCopy(FirstRecord(net, ua), 4)]]
      && after.market.book.sales == []
      && (3 in m.market.ended ==> 3 in after.market.ended && after.market.ended[3] == m.market.ended[3])
  {
    var block := Block(0, [R.FollowStep(4, [HELD])], [], []);
    OneStep(net, m.reg, R.FollowStep(4, [HELD]));
    ForeignSpend(net, m.reg, ua);
    var settled := Settle(net, m, block);
    NobodyHolds(Expire(m.market.book, 0, 4).book, settled.reg.records);
    assert RouteAll(settled, []) == settled;
    assert MarkPaid([], {}) == [];
  }

  lemma NobodyHolds(b: Book, records: Records)
    requires records == map[]
    ensures Reconcile(b, records).book.sales == []
  {
    var moved := MovedNames(b.sales, records);
    forall s | s in b.sales ensures s.name in moved {
      var i :| 0 <= i < |b.sales| && b.sales[i] == s;
      assert MovedFrom(records)(b.sales[i]);
    }
    AllGone(b.sales, ToSet(moved));
  }

  lemma {:induction false} AllGone(sales: seq<OpenSale>, gone: set<Name>)
    requires forall s | s in sales :: s.name in gone
    ensures WithoutNames(sales, gone) == []
  {
    if sales != [] { AllGone(sales[..|sales| - 1], gone); }
  }

  /** With an empty queue and nothing due, a claim for a dead name is ordered at the height of its payment. */
  lemma FirstClaimOrdered(m: Mint, claim: PaidClaim)
    requires m.reg.records == map[] && m.orders == [] && m.market.book.sales == []
    ensures DecideWith(m, QuietPass([claim], map[])).orders
      == [Order(ClaimNote(claim.name, claim.ua, ClaimExpiry(claim.term, m.mtp)), claim.paidAt, Authorized)]
  {
    var o := Order(ClaimNote(claim.name, claim.ua, ClaimExpiry(claim.term, m.mtp)), claim.paidAt, Authorized);
    QuietDecision(m, [claim], map[]);
    NothingDue(m.reg.records, m.mtp);
    assert [claim][..0] == [] && AdmitClaims([], m.reg.records, m.mtp, []) == [];
    assert !NotePending([], claim.name) && AdmitClaims([], m.reg.records, m.mtp, [claim]) == [] + [o] == [o];
    OneOrderSettles(m, [], o, QuietPass([claim], map[]));
  }

  lemma PassKeepsEnded(m: Mint, pass: Pass, h: Height)
    requires h < m.height && h in m.market.ended && pass.relayedCodes == [] && pass.relayedBuys == []
    ensures h in DecideWith(m, pass).market.ended && DecideWith(m, pass).market.ended[h] == m.market.ended[h]
  {
    assert RelayBuys(RelayCodes(m.market, [], m.height), [], m.height) == m.market;
  }

  /** What is left before the rewind: a dead name, a claim on order from height 3, and the buy of height 3 in the past. */
  ghost predicate ClaimOverBuy(net: Network, m: Mint, ua: UnifiedAddress, other: UnifiedAddress, sale: OpenSale) {
    && m.height == 4
    && m.reg.history == map[1 := [FirstRecord(net, ua), ReleasedCopy(FirstRecord(net, ua), 4)]]
    && m.orders == [Order(ClaimNote(1, other, Never), 3, Authorized)]
    && 3 in m.market.ended && m.market.ended[3].book.sales == [sale]
  }

  ghost predicate BuyOpenAt3(net: Network, m: Mint, ua: UnifiedAddress, sale: OpenSale) {
    && m.height == 3 && m.orders == []
    && m.reg.records == map[1 := FirstRecord(net, ua)] && m.reg.history == map[1 := [FirstRecord(net, ua)]]
    && 3 in m.market.ended && m.market.ended[3].book.sales == [sale]
  }

  ghost predicate SpentAt4(net: Network, m: Mint, ua: UnifiedAddress, sale: OpenSale) {
    && m.height == 4 && m.reg.records == map[] && m.orders == [] && m.market.book.sales == []
    && m.reg.history == map[1 := [FirstRecord(net, ua), ReleasedCopy(FirstRecord(net, ua), 4)]]
    && 3 in m.market.ended && m.market.ended[3].book.sales == [sale]
  }

  lemma ShopTurn(net: Network, ua: UnifiedAddress, l: Listing, bob: UnifiedAddress) returns (after: seq<Turn>)
    requires l.name == 1 && l.ask.Flat? && l.ua == ua && ua.transparent == Some(l.payTo)
    ensures Driven(net, after)
    ensures BuyOpenAt3(net, Run(net, after), ua, Bought(l, bob, FirstRecord(net, ua), 12, 0))
  {
    var settled := SettledRun(net, ua);
    ShopBlock(net, Run(net, settled), l, bob);
    after := Drive(net, settled, Extend(Block(0, [], ShopMemos(l, bob), [])));
  }

  lemma SpendTurn(net: Network, turns: seq<Turn>, ua: UnifiedAddress, sale: OpenSale) returns (after: seq<Turn>)
    requires Driven(net, turns) && BuyOpenAt3(net, Run(net, turns), ua, sale)
    ensures Driven(net, after) && SpentAt4(net, Run(net, after), ua, sale)
  {
    SpendBlock(net, Run(net, turns), ua);
    after := Drive(net, turns, Extend(Block(0, [R.FollowStep(4, [HELD])], [], [])));
  }

  lemma ClaimTurn(net: Network, turns: seq<Turn>, ua: UnifiedAddress, other: UnifiedAddress, sale: OpenSale) returns (after: seq<Turn>)
    requires Driven(net, turns) && SpentAt4(net, Run(net, turns), ua, sale)
    ensures Driven(net, after) && ClaimOverBuy(net, Run(net, after), ua, other, sale)
  {
    var pass, m := QuietPass([PaidClaim(1, other, Forever, 3)], map[]), Run(net, turns);
    FirstClaimOrdered(m, PaidClaim(1, other, Forever, 3));
    PassFrame(m, pass);
    PassKeepsEnded(m, pass, 3);
    after := Drive(net, turns, Decide(pass));
  }

  /** The claim is outstanding at height 3, where the buy is open and unpaid. */
  lemma ClaimIntrudes(net: Network, m: Mint, ua: UnifiedAddress, other: UnifiedAddress, sale: OpenSale)
    requires ClaimOverBuy(net, m, ua, other, sale) && M.Agrees(m.market)
    requires sale.name == 1 && sale.phase.Paying? && !SaleLapsed(sale, 0)
    ensures !NoIntruder(net, m, 3, 0)
  {
    var o, cut := m.orders[0], TruncateReg(m.reg, 3);
    assert M.AgreesAt(m.market, 3) && IsLatest(m.market.ended, 3, 3);
    var s := SalesAt(m, 3)[0];
    assert SaleSim(sale, s, false) && s in SalesAt(m, 3) && o in m.orders;
    ClaimOutstanding(net, m.reg, ua, o);
    assert !Peaceful(net, cut, o, s, 3);
  }

  lemma ClaimOutstanding(net: Network, r: Reg, ua: UnifiedAddress, o: Order)
    requires r.history == map[1 := [FirstRecord(net, ua), ReleasedCopy(FirstRecord(net, ua), 4)]]
    requires o.note.ClaimNote? && o.note.name == 1 && o.origin == 3
    ensures Outstanding(net, TruncateReg(r, 3), o, 3)
  {
    var rec, rel := FirstRecord(net, ua), ReleasedCopy(FirstRecord(net, ua), 4);
    assert [rec, rel][..1] == [rec] && CutChain([rec, rel], 3) == CutChain([rec], 3) == [rec];
    assert TruncateReg(r, 3).history == map[1 := [rec]];
  }

  /** A buy opens at height 3, whose block also pays a claim; the name is spent away at height 4; a pass orders the claim. */
  lemma BoughtAndSpent(net: Network, ua: UnifiedAddress, l: Listing, bob: UnifiedAddress, other: UnifiedAddress)
    returns (turns: seq<Turn>)
    requires l.name == 1 && l.ask.Flat? && l.ua == ua && ua.transparent == Some(l.payTo)
    ensures Driven(net, turns)
    ensures ClaimOverBuy(net, Run(net, turns), ua, other, Bought(l, bob, FirstRecord(net, ua), 12, 0))
  {
    var sale := Bought(l, bob, FirstRecord(net, ua), 12, 0);
    var shop := ShopTurn(net, ua, l, bob);
    var spent := SpendTurn(net, shop, ua, sale);
    turns := ClaimTurn(net, spent, ua, other, sale);
  }

  /**
   A rewind to the height of the claim's payment brings the buy back beside the claim,
   after a legal run on which every turn until then excluded them.
   */
  lemma BuyComesBack(net: Network, ua: UnifiedAddress, l: Listing, bob: UnifiedAddress, other: UnifiedAddress)
    returns (turns: seq<Turn>)
    requires l.name == 1 && l.ask.Flat? && l.ua == ua && ua.transparent == Some(l.payTo)
    ensures Legal(net, turns + [Rewind(3, 0)]) && RewindFree(turns)
    ensures Excludes(Run(net, turns).market.book.sales, Unresolved(Run(net, turns).orders))
    ensures var after := Run(net, turns + [Rewind(3, 0)]); !Excludes(after.market.book.sales, Unresolved(after.orders))
  {
    turns := BoughtAndSpent(net, ua, l, bob, other);
    EveryTurnIsConsistent(net, turns);
    ClaimIntrudes(net, Run(net, turns), ua, other, Bought(l, bob, FirstRecord(net, ua), 12, 0));
    IntrudingRewind(net, turns, 3);
  }

  lemma IntrudingRewind(net: Network, turns: seq<Turn>, to: Height)
    requires Legal(net, turns) && RewindFree(turns) && to <= Run(net, turns).height && !NoIntruder(net, Run(net, turns), to, 0)
    ensures Legal(net, turns + [Rewind(to, 0)])
    ensures Excludes(Run(net, turns).market.book.sales, Unresolved(Run(net, turns).orders))
    ensures var after := Run(net, turns + [Rewind(to, 0)]); !Excludes(after.market.book.sales, Unresolved(after.orders))
  {
    EveryTurnIsConsistent(net, turns);
    BuysExcludeOtherOrders(net, turns);
    NextTurn(net, turns, Rewind(to, 0));
    RewindExcludesIff(net, Run(net, turns), to, 0);
  }
}
