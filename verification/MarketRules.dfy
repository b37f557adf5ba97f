/**
 The market's operations, each as its effect: the new book and the events it
 logs. A buy holds its name; a payment of exactly the price plus the code
 settles it.
 */
module MarketRules {
  import opened Basics
  import opened NameNotes
  import opened Listings
  import opened Registries
  import opened MarketBooks

  /** How long a flat quote and a controller code stay good. */
  const D_OTP: int := 1800
  /** How long a clock quote stays payable. */
  const D_DUTCH: int := 600
  const MAX_ATTEMPTS: nat := 6

  type Payments = seq<(TransparentAddress, Zatoshis)>

  datatype Effect = Effect(book: Book, events: seq<Event>)

  datatype Request =
    | ListRequest(listing: Listing)
    | DelistRequest(name: Name, ua: UnifiedAddress)
    | BuyRequest(name: Name, ua: UnifiedAddress)

  datatype Refusal =
    | BuyOpen | NotOwner | NotListed | InFlight | ReleaseIsDue | AlreadyOpen | CodeTaken | PaymentTaken
    | Early(start: Height) | HeldUntil(until: Timestamp) | BadClock | Ended

  // ---------------------------------------------------------------------------
  // Selections, in book order
  // ---------------------------------------------------------------------------

  function NamesWhere(sales: seq<OpenSale>, pick: OpenSale -> bool): (r: seq<Name>)
    ensures forall n :: n in r <==> exists i | 0 <= i < |sales| :: pick(sales[i]) && sales[i].name == n
  {
    if sales == [] then []
    else
      var rest, last := NamesWhere(sales[..|sales| - 1], pick), sales[|sales| - 1];
      if pick(last) then rest + [last.name] else rest
  }

  function CodesWhere(challenges: seq<Challenge>, pick: Challenge -> bool): (r: seq<OtpCode>)
    ensures forall n :: n in r <==> exists i | 0 <= i < |challenges| :: pick(challenges[i]) && challenges[i].code == n
  {
    if challenges == [] then []
    else
      var rest, last := CodesWhere(challenges[..|challenges| - 1], pick), challenges[|challenges| - 1];
      if pick(last) then rest + [last.code] else rest
  }

  // ---------------------------------------------------------------------------
  // Clocks: expiry, reconciliation, polling
  // ---------------------------------------------------------------------------

  predicate ClockOver(l: Listing, height: Height) {
    l.ask.Dutch? && height > l.ask.clock.end
  }

  predicate SaleLapsed(s: OpenSale, mtp: Timestamp) {
    s.phase.Paying? && mtp >= s.phase.expiresAt
  }

  function LapsedBy(mtp: Timestamp): OpenSale -> bool {
    s => SaleLapsed(s, mtp)
  }

  function LapsedNames(sales: seq<OpenSale>, mtp: Timestamp): seq<Name> {
    NamesWhere(sales, LapsedBy(mtp))
  }

  function ExpiredBy(mtp: Timestamp): Challenge -> bool {
    (c: Challenge) => mtp >= c.expiresAt
  }

  function ExpiredCodes(challenges: seq<Challenge>, mtp: Timestamp): seq<OtpCode> {
    CodesWhere(challenges, ExpiredBy(mtp))
  }

  function FinishedClocks(listings: map<Name, Listing>, height: Height): seq<Name> {
    Ascending(set n | n in listings && ClockOver(listings[n], height))
  }

  /** Unpaid sales and challenges whose time has passed leave, and a clock listing on the block after its end. */
  function Expire(b: Book, mtp: Timestamp, height: Height): Effect {
    var clocks := FinishedClocks(b.listings, height);
    var lapsed := LapsedNames(b.sales, mtp);
    var codes := ExpiredCodes(b.challenges, mtp);
    Effect(Book(b.listings - ToSet(clocks), WithoutNames(b.sales, ToSet(lapsed)),
                WithoutCodes(b.challenges, ToSet(codes))),
           Delistings(clocks) + Lapses(lapsed) + ChallengeClosings(codes))
  }

  predicate HeldBy(records: Records, name: Name, ua: UnifiedAddress) {
    name in records && records[name].ua == ua
  }

  predicate SaleMoved(s: OpenSale, records: Records) {
    !HeldBy(records, s.name, s.alice) || records[s.name].commitment != s.held
  }

  function MovedFrom(records: Records): OpenSale -> bool {
    s => SaleMoved(s, records)
  }

  function MovedNames(sales: seq<OpenSale>, records: Records): seq<Name> {
    NamesWhere(sales, MovedFrom(records))
  }

  function StaleUnder(records: Records): Challenge -> bool {
    (c: Challenge) => !HeldBy(records, c.Name(), c.Ua())
  }

  function StaleCodes(challenges: seq<Challenge>, records: Records): seq<OtpCode> {
    CodesWhere(challenges, StaleUnder(records))
  }

  function LostListings(listings: map<Name, Listing>, records: Records): seq<Name> {
    Ascending(set n | n in listings && !HeldBy(records, n, listings[n].ua))
  }

  /** Whatever the registry no longer supports leaves. */
  function Reconcile(b: Book, records: Records): Effect {
    var lost := LostListings(b.listings, records);
    var stale := StaleCodes(b.challenges, records);
    var moved := MovedNames(b.sales, records);
    Effect(Book(b.listings - ToSet(lost), WithoutNames(b.sales, ToSet(moved)),
                WithoutCodes(b.challenges, ToSet(stale))),
           Delistings(lost) + ChallengeClosings(stale) + Closings(moved))
  }

  predicate Signable(s: OpenSale, pending: set<Name>) {
    s.phase.Paid? && s.name !in pending
  }

  predicate SaleOver(s: OpenSale, records: Records) {
    SaleMoved(s, records) || records[s.name].ua == s.bob
  }

  function OverUnder(records: Records, pending: set<Name>): OpenSale -> bool {
    s => Signable(s, pending) && SaleOver(s, records)
  }

  function OverNames(sales: seq<OpenSale>, records: Records, pending: set<Name>): seq<Name> {
    NamesWhere(sales, OverUnder(records, pending))
  }

  function SaleNoteOf(s: OpenSale): NameNote {
    SaleNote(s.name, s.bob, s.term, s.held)
  }

  /** The notes the paid sales owe, in book order. */
  function OwedNotes(sales: seq<OpenSale>, records: Records, pending: set<Name>): (r: seq<NameNote>)
    ensures forall note :: note in r <==> exists i | 0 <= i < |sales| ::
      Signable(sales[i], pending) && !SaleOver(sales[i], records) && note == SaleNoteOf(sales[i])
  {
    if sales == [] then []
    else
      var rest, last := OwedNotes(sales[..|sales| - 1], records, pending), sales[|sales| - 1];
      if Signable(last, pending) && !SaleOver(last, records) then rest + [SaleNoteOf(last)] else rest
  }

  /** A paid sale whose note is gone closes; the others owe their sale note. */
  function Poll(b: Book, records: Records, pending: set<Name>): Effect {
    var over := OverNames(b.sales, records, pending);
    Effect(b.(sales := WithoutNames(b.sales, ToSet(over))), Closings(over))
  }

  // ---------------------------------------------------------------------------
  // Payments
  // ---------------------------------------------------------------------------

  /** What a buyer must pay, to the zatoshi. */
  function Total(p: Phase): Zatoshis
    requires p.Paying?
  {
    p.price + p.code
  }

  /** A sale settles when the lister still holds the name and one output pays its exact total in time. */
  predicate Matches(s: OpenSale, records: Records, payments: Payments, mtp: Timestamp) {
    && s.phase.Paying?
    && mtp < s.phase.expiresAt
    && HeldBy(records, s.name, s.alice)
    && (s.phase.payTo, Total(s.phase)) in payments
  }

  function PaidPairs(sales: seq<OpenSale>, records: Records, payments: Payments, mtp: Timestamp): (r: seq<(Name, OtpCode)>)
    ensures forall p :: p in r <==> exists i | 0 <= i < |sales| ::
      Matches(sales[i], records, payments, mtp) && p == (sales[i].name, sales[i].phase.code)
  {
    if sales == [] then []
    else
      var rest, last := PaidPairs(sales[..|sales| - 1], records, payments, mtp), sales[|sales| - 1];
      if Matches(last, records, payments, mtp) then rest + [(last.name, last.phase.code)] else rest
  }

  function Observe(b: Book, records: Records, payments: Payments, mtp: Timestamp): Effect {
    var paid := PaidPairs(b.sales, records, payments, mtp);
    Effect(b.(sales := MarkPaid(b.sales, ToSet(paid))), Settlements(paid))
  }

  // ---------------------------------------------------------------------------
  // Requests: list, delist, buy
  // ---------------------------------------------------------------------------

  function ClockReady(ask: Ask, height: Height): Option<Refusal> {
    if ask.Flat? then None
    else if !ask.clock.IsValid() then Some(BadClock)
    else if height > ask.clock.end then Some(Ended)
    else None
  }

  function PushChallenge(b: Book, c: Challenge): Effect {
    Effect(b.(challenges := b.challenges + [c]), [Challenged(c)])
  }

  predicate SameKindOpen(b: Book, kind: ChallengeKind) {
    exists i | 0 <= i < |b.challenges| :: b.challenges[i].kind == kind
  }

  /** Records a list challenge; asking again for the same listing changes nothing. */
  function ProposeList(b: Book, l: Listing, owner: UnifiedAddress, code: OtpCode, mtp: Timestamp, height: Height)
    : (Effect, Option<Refusal>)
  {
    if ClockReady(l.ask, height).Some? then (Effect(b, []), ClockReady(l.ask, height))
    else if !IsOwnerListing(owner, l.ua, l.payTo) then (Effect(b, []), Some(NotOwner))
    else if HasSale(b.sales, l.name) then (Effect(b, []), Some(BuyOpen))
    else if SameKindOpen(b, ToList(l)) then (Effect(b, []), None)
    else if HasCode(b.challenges, code) then (Effect(b, []), Some(CodeTaken))
    else (PushChallenge(b, Challenge(ToList(l), code, mtp + D_OTP, false, 0)), None)
  }

  function ProposeDelist(b: Book, records: Records, name: Name, ua: UnifiedAddress, code: OtpCode, mtp: Timestamp)
    : (Effect, Option<Refusal>)
  {
    if !HeldBy(records, name, ua) then (Effect(b, []), Some(NotOwner))
    else if HasSale(b.sales, name) then (Effect(b, []), Some(BuyOpen))
    else if name !in b.listings then (Effect(b, []), Some(NotListed))
    else if SameKindOpen(b, ToDelist(name, ua)) then (Effect(b, []), None)
    else if HasCode(b.challenges, code) then (Effect(b, []), Some(CodeTaken))
    else (PushChallenge(b, Challenge(ToDelist(name, ua), code, mtp + D_OTP, false, 0)), None)
  }

  datatype Quote = Refused(refusal: Refusal) | Quoted(payTo: TransparentAddress, price: Zatoshis, dutch: bool)

  predicate PaymentOpen(sales: seq<OpenSale>, payTo: TransparentAddress, total: Zatoshis) {
    exists i | 0 <= i < |sales| ::
      sales[i].phase.Paying? && sales[i].phase.payTo == payTo && Total(sales[i].phase) == total
  }

  /** The sale of this name, when one is open. */
  function SaleOf(sales: seq<OpenSale>, name: Name): (r: Option<OpenSale>)
    ensures r.Some? <==> HasSale(sales, name)
    ensures r.Some? ==> r.value in sales && r.value.name == name
  {
    if sales == [] then None
    else if sales[0].name == name then Some(sales[0])
    else
      assert HasSale(sales, name) ==> HasSale(sales[1..], name) by {
        if HasSale(sales, name) {
          var i :| 0 <= i < |sales| && sales[i].name == name;
          assert sales[1..][i - 1].name == name;
        }
      }
      SaleOf(sales[1..], name)
  }

  function ListedQuote(b: Book, name: Name, owner: UnifiedAddress, height: Height): Quote {
    if name !in b.listings then Refused(NotListed)
    else
      var l := b.listings[name];
      if !IsOwnerListing(owner, l.ua, l.payTo) then Refused(NotOwner)
      else match l.ask
        case Flat(price) => Quoted(l.payTo, price, false)
        case Dutch(clock) =>
          if height < clock.start then Refused(Early(clock.start))
          else match clock.PriceAt(height)
            case None => Refused(NotListed)
            case Some(price) => Quoted(l.payTo, price, true)
  }

  function QuoteBuy(b: Book, name: Name, owner: UnifiedAddress, releaseDue: bool, pending: bool,
                    code: OtpCode, height: Height): Quote
  {
    match SaleOf(b.sales, name)
    case Some(s) => Refused(if s.dutch then HeldUntil(s.until) else AlreadyOpen)
    case None =>
      var q := ListedQuote(b, name, owner, height);
      if q.Refused? then q
      else if releaseDue then Refused(ReleaseIsDue)
      else if pending then Refused(InFlight)
      else if PaymentOpen(b.sales, q.payTo, q.price + code) then Refused(PaymentTaken)
      else q
  }

  function NewSale(name: Name, bob: UnifiedAddress, record: NameRecord, q: Quote, code: OtpCode, mtp: Timestamp): OpenSale
    requires q.Quoted?
  {
    var until := mtp + if q.dutch then D_DUTCH else D_OTP;
    OpenSale(name, bob, record.ua, record.commitment, record.expiresAt, q.dutch, until,
             Paying(code, q.payTo, q.price, until, false))
  }

  function OnName(name: Name): Challenge -> bool {
    (c: Challenge) => c.Name() == name
  }

  function CodesFor(challenges: seq<Challenge>, name: Name): seq<OtpCode> {
    CodesWhere(challenges, OnName(name))
  }

  /** A buy opens from the current listing and closes every challenge on the name. */
  function OpenBuy(b: Book, s: OpenSale): Effect {
    var codes := CodesFor(b.challenges, s.name);
    Effect(b.(sales := b.sales + [s], challenges := WithoutCodes(b.challenges, ToSet(codes))),
           [Opened(s)] + ChallengeClosings(codes))
  }

  /** One list, delist or buy memo, ruled on against the applied records. */
  function Admit(b: Book, records: Records, request: Request, feeOk: bool, pending: bool,
                 code: OtpCode, mtp: Timestamp, height: Height): Effect
  {
    match request
    case ListRequest(l) =>
      if l.name !in records || !feeOk || ReleaseDue(records[l.name], mtp) || pending then Effect(b, [])
      else ProposeList(b, l, records[l.name].ua, code, mtp, height).0
    case DelistRequest(name, ua) =>
      if !HeldBy(records, name, ua) || !feeOk || pending then Effect(b, [])
      else ProposeDelist(b, records, name, ua, code, mtp).0
    case BuyRequest(name, bob) =>
      if name !in records || !feeOk then Effect(b, [])
      else
        var record := records[name];
        var q := QuoteBuy(b, name, record.ua, ReleaseDue(record, mtp), pending, code, height);
        if q.Refused? then Effect(b, []) else OpenBuy(b, NewSale(name, bob, record, q, code, mtp))
  }

  // ---------------------------------------------------------------------------
  // Controller answers
  // ---------------------------------------------------------------------------

  /** A relay memo returned by a controller. */
  datatype Response = Response(code: OtpCode, name: Name, verb: Verb, ua: UnifiedAddress,
                               listing: Option<(TransparentAddress, Zatoshis)>,
                               clock: Option<(TransparentAddress, Clock)>)

  predicate Named(c: Challenge, r: Response) {
    c.Name() == r.name && c.Ua() == r.ua && c.Act() == r.verb
  }

  predicate SameTerms(c: Challenge, r: Response) {
    match c.kind
    case ToDelist(_, _) => r.listing.None? && r.clock.None?
    case ToList(l) =>
      match l.ask
      case Flat(price) => r.clock.None? && r.listing == Some((l.payTo, price))
      case Dutch(clock) => r.clock == Some((l.payTo, clock))
  }

  /** The first challenge this response names with its code and terms. */
  function Answered(challenges: seq<Challenge>, r: Response): (o: Option<Challenge>)
    ensures o.Some? ==> o.value in challenges && Named(o.value, r) && o.value.code == r.code && SameTerms(o.value, r)
    ensures o.None? ==> forall c | c in challenges :: !(Named(c, r) && c.code == r.code && SameTerms(c, r))
  {
    if challenges == [] then None
    else if Named(challenges[0], r) && challenges[0].code == r.code && SameTerms(challenges[0], r) then Some(challenges[0])
    else
      assert challenges == [challenges[0]] + challenges[1..];
      Answered(challenges[1..], r)
  }

  function Bump(c: Challenge, r: Response): Challenge {
    if Named(c, r) then c.(attempts := c.attempts + 1) else c
  }

  function BumpAll(challenges: seq<Challenge>, r: Response): seq<Challenge> {
    seq(|challenges|, i requires 0 <= i < |challenges| => Bump(challenges[i], r))
  }

  /** The codes of named challenges that have used up their attempts, last first. */
  function ExhaustedCodes(challenges: seq<Challenge>, r: Response): seq<OtpCode> {
    if challenges == [] then []
    else
      var rest, last := ExhaustedCodes(challenges[..|challenges| - 1], r), challenges[|challenges| - 1];
      if Exhausted(last, r) then [last.code] + rest else rest
  }

  predicate Exhausted(c: Challenge, r: Response) {
    Named(c, r) && c.attempts + 1 >= MAX_ATTEMPTS
  }

  predicate MayList(b: Book, records: Records, l: Listing, height: Height) {
    && ClockReady(l.ask, height).None?
    && !HasSale(b.sales, l.name)
    && l.name in records && IsOwnerListing(records[l.name].ua, l.ua, l.payTo)
  }

  predicate MayDelist(b: Book, records: Records, name: Name, ua: UnifiedAddress) {
    !HasSale(b.sales, name) && HeldBy(records, name, ua) && name in b.listings
  }

  /** What a matched challenge does once its code is spent. */
  function Perform(b: Book, records: Records, kind: ChallengeKind, height: Height): Effect {
    match kind
    case ToList(l) =>
      if MayList(b, records, l, height) then Effect(b.(listings := b.listings[l.name := l]), [Listed(l)]) else Effect(b, [])
    case ToDelist(name, ua) =>
      if MayDelist(b, records, name, ua) then Effect(b.(listings := b.listings - {name}), [Delisted(name)]) else Effect(b, [])
  }

  function Answer(b: Book, records: Records, r: Response, height: Height): (Effect, bool) {
    match Answered(b.challenges, r)
    case Some(c) =>
      var closed := b.(challenges := WithoutCodes(b.challenges, {c.code}));
      var done := Perform(closed, records, c.kind, height);
      (Effect(done.book, [ChallengeClosed(c.code)] + done.events), true)
    case None =>
      var codes := ExhaustedCodes(b.challenges, r);
      (Effect(b.(challenges := WithoutCodes(BumpAll(b.challenges, r), ToSet(codes))), ChallengeClosings(codes)), false)
  }

  // ---------------------------------------------------------------------------
  // Relay flags
  // ---------------------------------------------------------------------------

  function RelaySale(s: OpenSale): OpenSale {
    if s.phase.Paying? then s.(phase := s.phase.(relayed := true)) else s
  }

  function RelayBuy(b: Book, name: Name): Book {
    b.(sales := seq(|b.sales|, i requires 0 <= i < |b.sales| =>
      if b.sales[i].name == name then RelaySale(b.sales[i]) else b.sales[i]))
  }

  function RelayChallenge(b: Book, code: OtpCode): Book {
    b.(challenges := seq(|b.challenges|, i requires 0 <= i < |b.challenges| =>
      if b.challenges[i].code == code then b.challenges[i].(relayed := true) else b.challenges[i]))
  }

  function SealBook(b: Book): Book {
    b.(sales := seq(|b.sales|, i requires 0 <= i < |b.sales| => RelaySale(b.sales[i])))
  }

  function SealEvent(e: Event): Event {
    if e.Opened? then Opened(RelaySale(e.sale)) else e
  }

  function SealLog(log: seq<Stamped>): seq<Stamped> {
    seq(|log|, i requires 0 <= i < |log| => log[i].(event := SealEvent(log[i].event)))
  }
}
