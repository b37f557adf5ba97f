/**
 The mint's run loop as transitions: a block applied to every faculty in the
 loop's own order, the decision pass at the tip, and the rewind to a common
 ancestor.
 */
module MintLoop {
  import opened Basics
  import opened NameNotes
  import opened Registries
  import opened MarketBooks
  import opened MarketRules
  import opened OrderQueues
  import R = RegistryRuns
  import M = MarketRuns

  datatype Mint = Mint(reg: Reg, market: M.Tracked, orders: Orders, height: Height, mtp: Timestamp)

  const BORN := Mint(EMPTY_REG, M.START, [], 0, 0)

  /** A request whose one-time code came back right, with its payment ruled sufficient. */
  datatype Approved =
    | ApprovedUpdate(ua: UnifiedAddress, term: Option<Term>)
    | ApprovedRelease(ua: UnifiedAddress)

  /** A Treasury memo, as the block that carries it routes it. */
  datatype Arrival =
    | MarketMemo(request: Request, feeOk: bool, code: OtpCode)
    | MarketReply(response: Response)
    | TransitionReply(name: Name, approved: Option<Approved>)
    | OtherMemo

  datatype Block = Block(mtp: Timestamp, steps: seq<R.Step>, arrivals: seq<Arrival>, payments: Payments)

  /** A paid claim that survived the price and access-code checks. `paidAt` is its payment's height. */
  datatype PaidClaim = PaidClaim(name: Name, ua: UnifiedAddress, term: Term, paidAt: Height)

  /** What the outside world answers during one decision pass. */
  datatype Pass = Pass(claims: seq<PaidClaim>, relayedCodes: seq<OtpCode>, relayedBuys: seq<Name>,
                       broadcast: map<Name, Height>)

  datatype Turn = Extend(block: Block) | Decide(pass: Pass) | Seal | Rewind(to: Height, mtp: Timestamp)

  // ---------------------------------------------------------------------------
  // The laws the loop consults
  // ---------------------------------------------------------------------------

  function AuthorizeClaim(records: Records, c: PaidClaim, mtp: Timestamp): Option<NameNote> {
    if c.name in records then None else Some(ClaimNote(c.name, c.ua, ClaimExpiry(c.term, mtp)))
  }

  function AuthorizeApproved(records: Records, name: Name, a: Approved, mtp: Timestamp): Option<NameNote> {
    if name !in records then None
    else
      var record := records[name];
      match a
      case ApprovedUpdate(ua, term) =>
        if ReleaseDue(record, mtp) then None
        else
          var expiry := NameNotes.Extend(record.expiresAt, term, mtp);
          if expiry.None? then None else Some(UpdateNote(name, ua, expiry.value, record.commitment))
      case ApprovedRelease(ua) =>
        if record.ua != ua then None else Some(ReleaseNote(name, ua, record.commitment))
  }

  // ---------------------------------------------------------------------------
  // One block
  // ---------------------------------------------------------------------------

  function Trade(m: Mint, s: M.Step): Mint {
    m.(market := M.Take(m.market, s))
  }

  /** Routes one memo of the block at the applied height. */
  function Route(m: Mint, a: Arrival): Mint {
    match a
    case MarketMemo(request, feeOk, code) =>
      var name := if request.ListRequest? then request.listing.name else request.name;
      Trade(m, M.AdmitStep(m.reg.records, request, feeOk, NotePending(m.orders, name), code, m.mtp, m.height))
    case MarketReply(response) =>
      Trade(m, M.AnswerStep(m.reg.records, response, m.height))
    case TransitionReply(name, approved) =>
      if HasSale(m.market.book.sales, name) || approved.None? || NotePending(m.orders, name) then m
      else
        var note := AuthorizeApproved(m.reg.records, name, approved.value, m.mtp);
        if note.None? then m else m.(orders := AdmitOrder(m.orders, m.height, note.value))
    case OtherMemo => m
  }

  function RouteAll(m: Mint, arrivals: seq<Arrival>): Mint {
    if arrivals == [] then m else Route(RouteAll(m, arrivals[..|arrivals| - 1]), arrivals[|arrivals| - 1])
  }

  /** The registry follows the block, orders are reconciled, and the market is brought up to the new records. */
  function Settle(net: Network, m: Mint, block: Block): Mint {
    var m1 := Confirm(net, m, block);
    Trade(Trade(m1, M.ExpireStep(m1.mtp, m1.height)), M.ReconcileStep(m1.reg.records, m1.height))
  }

  /** The block's registry steps, and the orders they confirm or strand. */
  function Confirm(net: Network, m: Mint, block: Block): Mint {
    var reg := R.ApplyAll(net, m.reg, block.steps);
    Mint(reg, m.market, ReconcileSeen(net, reg, m.orders), m.height + 1, block.mtp)
  }

  function ExtendBy(net: Network, m: Mint, block: Block): Mint {
    var routed := RouteAll(Settle(net, m, block), block.arrivals);
    Trade(routed, M.ObserveStep(routed.reg.records, block.payments, routed.mtp, routed.height))
  }

  // ---------------------------------------------------------------------------
  // One decision pass
  // ---------------------------------------------------------------------------

  function AdmitClaims(orders: Orders, records: Records, mtp: Timestamp, claims: seq<PaidClaim>): Orders {
    if claims == [] then orders
    else
      var before, c := AdmitClaims(orders, records, mtp, claims[..|claims| - 1]), claims[|claims| - 1];
      var note := AuthorizeClaim(records, c, mtp);
      if note.None? then before else AdmitOrder(before, c.paidAt, note.value)
  }

  function RelayCodes(t: M.Tracked, codes: seq<OtpCode>, height: Height): M.Tracked {
    if codes == [] then t
    else M.Take(RelayCodes(t, codes[..|codes| - 1], height), M.RelayChallengeStep(codes[|codes| - 1], height))
  }

  function RelayBuys(t: M.Tracked, names: seq<Name>, height: Height): M.Tracked {
    if names == [] then t
    else M.Take(RelayBuys(t, names[..|names| - 1], height), M.RelayBuyStep(names[|names| - 1], height))
  }

  function AdmitNotes(orders: Orders, origin: Height, notes: seq<NameNote>): Orders {
    if notes == [] then orders
    else AdmitOrder(AdmitNotes(orders, origin, notes[..|notes| - 1]), origin, notes[|notes| - 1])
  }

  function AuthorizedNotes(orders: Orders): seq<NameNote> {
    if orders == [] then []
    else
      var rest, last := AuthorizedNotes(orders[..|orders| - 1]), orders[|orders| - 1];
      if last.state.Authorized? then rest + [last.note] else rest
  }

  /** An authorized update the tip median would already release gives way. */
  function DropDueUpdates(orders: Orders, records: Records, mtp: Timestamp, notes: seq<NameNote>): Orders {
    if notes == [] then orders
    else
      var before, note := DropDueUpdates(orders, records, mtp, notes[..|notes| - 1]), notes[|notes| - 1];
      if note.UpdateNote? && note.name in records && ReleaseDue(records[note.name], mtp)
      then DropNote(before, note.name) else before
  }

  function NamesDue(records: Records, mtp: Timestamp): seq<Name> {
    Ascending(set n | n in records && ReleaseDue(records[n], mtp))
  }

  /** The lifecycle release of one name; an open buy holds its name past the deadline. */
  function AdmitRelease(orders: Orders, records: Records, sales: seq<OpenSale>, tip: Height, name: Name): Orders {
    if NotePending(orders, name) || HasSale(sales, name) || name !in records then orders
    else AdmitOrder(orders, tip, ReleaseNote(name, records[name].ua, records[name].commitment))
  }

  function AdmitReleases(orders: Orders, records: Records, sales: seq<OpenSale>, tip: Height, names: seq<Name>): Orders {
    if names == [] then orders
    else AdmitRelease(AdmitReleases(orders, records, sales, tip, names[..|names| - 1]), records, sales, tip, names[|names| - 1])
  }

  /** The authority of the note is gone: the claimed name is live, or the note no longer continues the live record. */
  predicate Stranded(records: Records, note: NameNote) {
    if note.ClaimNote? then note.name in records
    else note.name !in records || note.prev != records[note.name].commitment
  }

  /** An order that lost its authority is dropped; any other may have been broadcast. */
  function SubmitNote(orders: Orders, records: Records, broadcast: map<Name, Height>, note: NameNote): Orders {
    if Stranded(records, note) then DropNote(orders, note.name)
    else if note.name in broadcast then MarkSent(orders, note.name, broadcast[note.name])
    else orders
  }

  function Submit(orders: Orders, records: Records, broadcast: map<Name, Height>, notes: seq<NameNote>): Orders {
    if notes == [] then orders
    else SubmitNote(Submit(orders, records, broadcast, notes[..|notes| - 1]), records, broadcast, notes[|notes| - 1])
  }

  /** The orders part of a pass after the market has been polled. */
  function SettleOrders(m: Mint, orders: Orders, pass: Pass): Orders {
    var expired := ExpireSent(orders, m.height);
    var kept := DropDueUpdates(expired, m.reg.records, m.mtp, AuthorizedNotes(expired));
    var due := AdmitReleases(kept, m.reg.records, m.market.book.sales, m.height, NamesDue(m.reg.records, m.mtp));
    Submit(due, m.reg.records, pass.broadcast, AuthorizedNotes(due))
  }

  function PollMarket(m: Mint): Mint {
    var notes := OwedNotes(m.market.book.sales, m.reg.records, PendingNames(m.orders));
    var polled := Trade(m, M.PollStep(m.reg.records, PendingNames(m.orders), m.height));
    polled.(orders := AdmitNotes(m.orders, m.height, notes))
  }

  function DecideWith(m: Mint, pass: Pass): Mint {
    var m1 := m.(orders := AdmitClaims(m.orders, m.reg.records, m.mtp, pass.claims));
    var relayed := RelayBuys(RelayCodes(m1.market, pass.relayedCodes, m1.height), pass.relayedBuys, m1.height);
    var m2 := PollMarket(m1.(market := relayed));
    m2.(orders := SettleOrders(m2, m2.orders, pass))
  }

  // ---------------------------------------------------------------------------
  // Rewinds and runs
  // ---------------------------------------------------------------------------

  function RewindMint(net: Network, m: Mint, to: Height, mtp: Timestamp): Mint {
    var reg := TruncateReg(m.reg, to);
    var market := M.Take(M.Take(m.market, M.RewindStep(to)), M.ExpireStep(mtp, to));
    Mint(reg, market, ReconcileSeen(net, reg, RewindTo(m.orders, to)), to, mtp)
  }

  function Take(net: Network, m: Mint, turn: Turn): Mint {
    match turn
    case Extend(block) => ExtendBy(net, m, block)
    case Decide(pass) => DecideWith(m, pass)
    case Seal => Trade(m, M.SealStep(m.height))
    case Rewind(to, mtp) => RewindMint(net, m, to, mtp)
  }

  function Run(net: Network, turns: seq<Turn>): Mint {
    if turns == [] then BORN else Take(net, Run(net, turns[..|turns| - 1]), turns[|turns| - 1])
  }

  /** A block's steps carry the next height; a rewind stays on the applied chain. */
  ghost predicate LegalTurn(m: Mint, turn: Turn) {
    match turn
    case Extend(block) => forall s | s in block.steps :: s.height == m.height + 1
    case Rewind(to, _) => to <= m.height
    case _ => true
  }

  ghost predicate Legal(net: Network, turns: seq<Turn>) {
    turns != [] ==> Legal(net, turns[..|turns| - 1]) && LegalTurn(Run(net, turns[..|turns| - 1]), turns[|turns| - 1])
  }

  // ---------------------------------------------------------------------------
  // What a turn makes of the registry, the height and the clock
  // ---------------------------------------------------------------------------

  lemma {:induction false} RouteAllFrame(m: Mint, arrivals: seq<Arrival>)
    ensures var after := RouteAll(m, arrivals); after.reg == m.reg && after.height == m.height && after.mtp == m.mtp
  {
    if arrivals != [] { RouteAllFrame(m, arrivals[..|arrivals| - 1]); }
  }

  lemma ExtendFrame(net: Network, m: Mint, block: Block)
    ensures var after := ExtendBy(net, m, block);
      after.reg == R.ApplyAll(net, m.reg, block.steps) && after.height == m.height + 1 && after.mtp == block.mtp
  {
    RouteAllFrame(Settle(net, m, block), block.arrivals);
  }

  lemma PassFrame(m: Mint, pass: Pass)
    ensures DecideWith(m, pass).reg == m.reg && DecideWith(m, pass).height == m.height && DecideWith(m, pass).mtp == m.mtp
  {
  }

  lemma TurnFrame(net: Network, m: Mint, turn: Turn)
    ensures var after := Take(net, m, turn);
      && (turn.Extend? ==>
            && after.reg == R.ApplyAll(net, m.reg, turn.block.steps)
            && after.height == m.height + 1 && after.mtp == turn.block.mtp)
      && (turn.Rewind? ==> after.reg == TruncateReg(m.reg, turn.to) && after.height == turn.to && after.mtp == turn.mtp)
      && (turn.Decide? || turn.Seal? ==> after.reg == m.reg && after.height == m.height && after.mtp == m.mtp)
  {
    match turn
    case Extend(block) => ExtendFrame(net, m, block);
    case Decide(pass) => PassFrame(m, pass);
    case Seal =>
    case Rewind(_, _) =>
  }
}
