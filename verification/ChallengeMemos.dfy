/** Controller challenges as memos: what the mint sends and what comes back. */
module ChallengeMemos {
  import opened Basics
  import opened Listings
  import opened Texts
  import opened AmountTexts
  import opened NoteMemos

  /** Address texts and their parsers; `pay` addresses are the transparent ones a sale may pay to. */
  datatype Addresses = Addresses(
    text: UnifiedAddress -> string,
    parse: string -> Option<UnifiedAddress>,
    payText: TransparentAddress -> string,
    payParse: string -> Option<TransparentAddress>,
    utf8: string -> bool)

  datatype OtpMemo = OtpMemo(
    code: OtpCode,
    name: string,
    action: Verb,
    ua: UnifiedAddress,
    listing: Option<(TransparentAddress, Zatoshis)>,
    clock: Option<(TransparentAddress, Clock)>)

  // ---------------------------------------------------------------------------
  // Writing
  // ---------------------------------------------------------------------------

  function Sentence(a: Addresses, m: OtpMemo): seq<string> {
    ["ZNS", "otp", Fixed(m.code, 6), m.name, VerbText(m.action), a.text(m.ua)]
  }

  function ListingFields(a: Addresses, l: (TransparentAddress, Zatoshis)): seq<string> {
    [a.payText(l.0), EncodeZec(l.1)]
  }

  function ClockFields(a: Addresses, c: (TransparentAddress, Clock)): seq<string> {
    [a.payText(c.0), EncodeZec(c.1.startPrice), EncodeZec(c.1.minPrice), Decimal(c.1.start), Decimal(c.1.end)]
  }

  function Details(a: Addresses, m: OtpMemo): Option<seq<string>> {
    match m.action
    case Claim => None
    case List => if m.listing.Some? then Some(ListingFields(a, m.listing.value)) else None
    case Auction => if m.clock.Some? then Some(ClockFields(a, m.clock.value)) else None
    case _ => Some([])
  }

  function Encode(a: Addresses, m: OtpMemo): Option<string> {
    var details := Details(a, m);
    if details.None? then None
    else
      var text := Join(Sentence(a, m) + details.value, ':');
      if |text| <= MEMO_SIZE then Some(Padded(text)) else None
  }

  // ---------------------------------------------------------------------------
  // Reading
  // ---------------------------------------------------------------------------

  /** A text memo without its padding. */
  function MemoText(a: Addresses, memo: string): Option<string>
    requires |memo| == MEMO_SIZE
  {
    var text := TrimEnd(memo, '\0');
    if memo[0] as int > 0xF4 || !a.utf8(text) then None else Some(text)
  }

  predicate Challengeable(v: Verb) {
    v.Update? || v.Release? || v.List? || v.Delist? || v.Auction?
  }

  function ReadListing(a: Addresses, parts: seq<string>): Option<(TransparentAddress, Zatoshis)> {
    if |parts| != 2 then None
    else
      var pay, price := a.payParse(parts[0]), DecodeZec(parts[1]);
      if pay.Some? && price.Some? then Some((pay.value, price.value)) else None
  }

  function ReadClock(a: Addresses, parts: seq<string>): Option<(TransparentAddress, Clock)> {
    if |parts| != 5 then None
    else
      var pay, first, least := a.payParse(parts[0]), DecodeZec(parts[1]), DecodeZec(parts[2]);
      var start, end := DecodeHeight(parts[3]), DecodeHeight(parts[4]);
      if pay.None? || first.None? || least.None? || start.None? || end.None? then None
      else
        var clock := Clock(first.value, least.value, start.value, end.value);
        if clock.IsValid() then Some((pay.value, clock)) else None
  }

  /** A list carries its address and price, an auction its address and clock; other verbs carry nothing more. */
  function ReadDetails(a: Addresses, code: OtpCode, name: string, action: Verb, ua: UnifiedAddress, rest: seq<string>): Option<OtpMemo> {
    if action.List? then
      var listing := ReadListing(a, rest);
      if listing.Some? then Some(OtpMemo(code, name, action, ua, listing, None)) else None
    else if action.Auction? then
      var clock := ReadClock(a, rest);
      if clock.Some? then Some(OtpMemo(code, name, action, ua, None, clock)) else None
    else if rest == [] then Some(OtpMemo(code, name, action, ua, None, None))
    else None
  }

  function ReadParts(a: Addresses, parts: seq<string>): Option<OtpMemo> {
    if |parts| < 6 || parts[0] != "ZNS" || parts[1] != "otp" then None
    else
      var code, action, ua := DecodeCode(parts[2]), ParseVerb(parts[4]), a.parse(parts[5]);
      if code.None? || !IsName(parts[3]) || action.None? || !Challengeable(action.value) || ua.None? then None
      else ReadDetails(a, code.value, parts[3], action.value, ua.value, parts[6..])
  }

  function Decode(a: Addresses, memo: string): Option<OtpMemo>
    requires |memo| == MEMO_SIZE
  {
    var text := MemoText(a, memo);
    if text.None? then None else ReadParts(a, Split(text.value, ':'))
  }

  // ---------------------------------------------------------------------------
  // Round trip
  // ---------------------------------------------------------------------------

  ghost predicate KnownPay(a: Addresses, pay: TransparentAddress) {
    a.payParse(a.payText(pay)) == Some(pay) && Clean(a.payText(pay)) && a.payText(pay) != []
  }

  ghost predicate InRange(c: Clock) {
    c.startPrice <= MAX_MONEY && c.minPrice <= MAX_MONEY && c.start < 0x1_0000_0000 && c.end < 0x1_0000_0000
  }

  /** Every value is one the mint's types can hold and every address one it writes. */
  ghost predicate Sendable(a: Addresses, m: OtpMemo) {
    && m.code < 1_000_000 && IsName(m.name)
    && a.text(m.ua) != [] && a.parse(a.text(m.ua)) == Some(m.ua) && Clean(a.text(m.ua))
    && (m.listing.Some? ==> KnownPay(a, m.listing.value.0) && m.listing.value.1 <= MAX_MONEY)
    && (m.clock.Some? ==> KnownPay(a, m.clock.value.0) && InRange(m.clock.value.1))
  }

  /** The text is short enough and is text. */
  ghost predicate Fits(a: Addresses, m: OtpMemo) {
    Details(a, m).Some? ==>
      var text := Join(Sentence(a, m) + Details(a, m).value, ':');
      |text| <= MEMO_SIZE && a.utf8(text)
  }

  /** A challenge's verb, with exactly the details that verb carries. */
  predicate Shaped(m: OtpMemo) {
    && Challengeable(m.action)
    && (m.listing.Some? <==> m.action.List?)
    && (m.clock.Some? <==> m.action.Auction?)
    && (m.action.Auction? ==> m.clock.value.1.IsValid())
  }

  ghost predicate AllClean(parts: seq<string>) {
    forall i | 0 <= i < |parts| :: Clean(parts[i])
  }

  lemma CleanConcat(a: seq<string>, b: seq<string>)
    requires AllClean(a) && AllClean(b)
    ensures AllClean(a + b)
  {
  }

  lemma PlainIsClean(s: string)
    requires Plain(s)
    ensures Clean(s)
  {
  }

  lemma DigitsAreClean(s: string)
    requires Digits(s)
    ensures Clean(s)
  {
  }

  lemma SentenceIsClean(a: Addresses, m: OtpMemo)
    requires IsName(m.name) && Clean(a.text(m.ua))
    ensures AllClean(Sentence(a, m))
  {
    DigitsAreClean(Fixed(m.code, 6));
    NameIsClean(m.name);
    VerbRoundTrip(m.action);
    assert Clean("ZNS") && Clean("otp");
    SixAreClean("ZNS", "otp", Fixed(m.code, 6), m.name, VerbText(m.action), a.text(m.ua));
  }

  lemma DetailsAreClean(a: Addresses, m: OtpMemo)
    requires Sendable(a, m) && Details(a, m).Some?
    ensures AllClean(Details(a, m).value)
    ensures forall i | 0 <= i < |Details(a, m).value| :: Details(a, m).value[i] != []
  {
    if m.action.List? {
      ZecIsPlain(m.listing.value.1);
      PlainIsClean(EncodeZec(m.listing.value.1));
    } else if m.action.Auction? {
      var c := m.clock.value.1;
      ZecIsPlain(c.startPrice);
      ZecIsPlain(c.minPrice);
      PlainIsClean(EncodeZec(c.startPrice));
      PlainIsClean(EncodeZec(c.minPrice));
      DecimalReads(c.start);
      DecimalReads(c.end);
      DigitsAreClean(Decimal(c.start));
      DigitsAreClean(Decimal(c.end));
    }
  }

  lemma DetailsRead(a: Addresses, m: OtpMemo)
    requires Sendable(a, m) && Details(a, m).Some?
    ensures ReadDetails(a, m.code, m.name, m.action, m.ua, Details(a, m).value) == Some(m) <==>
      (m.listing.Some? <==> m.action.List?) && (m.clock.Some? <==> m.action.Auction?)
      && (m.action.Auction? ==> m.clock.value.1.IsValid())
  {
    if m.action.List? {
      ZecRoundTrip(m.listing.value.1);
    } else if m.action.Auction? {
      var c := m.clock.value.1;
      ZecRoundTrip(c.startPrice);
      ZecRoundTrip(c.minPrice);
      HeightRoundTrip(c.start);
      HeightRoundTrip(c.end);
    }
  }

  lemma PartsRead(a: Addresses, m: OtpMemo, rest: seq<string>)
    requires m.code < 1_000_000 && IsName(m.name) && a.parse(a.text(m.ua)) == Some(m.ua)
    ensures ReadParts(a, Sentence(a, m) + rest) ==
      if Challengeable(m.action) then ReadDetails(a, m.code, m.name, m.action, m.ua, rest) else None
  {
    CodeRoundTrip(m.code, Fixed(m.code, 6));
    VerbRoundTrip(m.action);
    assert (Sentence(a, m) + rest)[6..] == rest;
  }

  lemma {:induction false} JoinEnds(parts: seq<string>)
    requires |parts| >= 1 && parts[|parts| - 1] != [] && Free(parts[|parts| - 1], '\0')
    ensures var text := Join(parts, ':'); text != [] && text[|text| - 1] != '\0'
  {
    if |parts| > 1 { JoinEnds(parts[1..]); }
  }

  lemma TextReturns(a: Addresses, parts: seq<string>)
    requires |parts| >= 1 && AllClean(parts) && parts[0] == "ZNS" && parts[|parts| - 1] != []
    requires |Join(parts, ':')| <= MEMO_SIZE && a.utf8(Join(parts, ':'))
    ensures MemoText(a, Padded(Join(parts, ':'))) == Some(Join(parts, ':'))
    ensures Split(Join(parts, ':'), ':') == parts
  {
    var text := Join(parts, ':');
    JoinEnds(parts);
    TrimRecovers(text, '\0', MEMO_SIZE - |text|);
    assert Padded(text)[0] == text[0] == 'Z';
    SplitJoin(parts, ':');
  }

  /**
   A challenge memo decodes to the challenge it was made from exactly when its
   verb is one that is challenged and it carries that verb's details and no others.
   */
  lemma ChallengeRoundTrip(a: Addresses, m: OtpMemo)
    requires Sendable(a, m) && Fits(a, m)
    ensures (Encode(a, m).Some? && Decode(a, Encode(a, m).value) == Some(m)) <==> Shaped(m)
  {
    if Details(a, m).Some? {
      var rest := Details(a, m).value;
      var parts := Sentence(a, m) + rest;
      SentenceIsClean(a, m);
      DetailsAreClean(a, m);
      CleanConcat(Sentence(a, m), rest);
      assert parts[|parts| - 1] != [] by {
        assert rest == [] ==> parts[|parts| - 1] == a.text(m.ua);
      }
      TextReturns(a, parts);
      PartsRead(a, m, rest);
      DetailsRead(a, m);
    }
  }

  // ---------------------------------------------------------------------------
  // Memos that read back differently
  // ---------------------------------------------------------------------------

  /** An update challenge that was handed a listing. */
  function UpdateWithListing(ua: UnifiedAddress, pay: TransparentAddress): OtpMemo {
    OtpMemo(123_456, "alice", Update, ua, Some((pay, 1)), None)
  }

  /** It writes and reads without the listing: what comes back is another challenge. */
  lemma UpdateLosesListing(a: Addresses, ua: UnifiedAddress, pay: TransparentAddress)
    requires var m := UpdateWithListing(ua, pay); Sendable(a, m) && Fits(a, m)
    ensures var m := UpdateWithListing(ua, pay);
      && Encode(a, m).Some? && Decode(a, Encode(a, m).value) == Some(m.(listing := None))
      && Decode(a, Encode(a, m).value) != Some(m)
  {
    var m := UpdateWithListing(ua, pay);
    ChallengeRoundTrip(a, m.(listing := None));
  }

  /** A sale is never challenged: its memo is written and reads as nothing. */
  lemma SaleIsNoChallenge(a: Addresses, ua: UnifiedAddress)
    requires var m := OtpMemo(123_456, "alice", Sale, ua, None, None); Sendable(a, m) && Fits(a, m)
    ensures var m := OtpMemo(123_456, "alice", Sale, ua, None, None);
      Encode(a, m).Some? && Decode(a, Encode(a, m).value) == None
  {
    var m := OtpMemo(123_456, "alice", Sale, ua, None, None);
    var parts := Sentence(a, m) + [];
    SentenceIsClean(a, m);
    assert parts == Sentence(a, m) && parts[|parts| - 1] == a.text(ua);
    TextReturns(a, parts);
    PartsRead(a, m, []);
  }
}
