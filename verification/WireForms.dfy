/** The texts and bytes themselves, letter by letter: what a wallet, an indexer or a person reads. */
module WireForms {
  import opened Basics
  import opened NameNotes
  import opened Listings
  import opened Texts
  import opened AmountTexts
  import N = NoteMemos
  import C = ChallengeMemos
  import Q = RequestMemos

  // ---------------------------------------------------------------------------
  // Numbers
  // ---------------------------------------------------------------------------

  /** Decimal digits, the most significant first. */
  lemma DigitForm(s: string, c: char)
    requires Digits(s) && '0' <= c <= '9'
    ensures Number([]) == 0 && Digits(s + [c]) && Number(s + [c]) == 10 * Number(s) + (c as int - '0' as int)
  {
    assert (s + [c])[..|s|] == s;
  }

  /** Two lower-case digits a byte, the high half first. */
  lemma {:induction false} HexForm(bytes: seq<Byte>, i: nat)
    requires i < |bytes|
    ensures Hex(bytes)[2 * i] == "0123456789abcdef"[bytes[i] / 16] && Hex(bytes)[2 * i + 1] == "0123456789abcdef"[bytes[i] % 16]
  {
    if i == 0 {
      DigitOfHex(bytes[0] / 16);
      DigitOfHex(bytes[0] % 16);
    } else {
      HexForm(bytes[1..], i - 1);
    }
  }

  lemma DigitOfHex(d: nat)
    requires d < 16
    ensures HexDigit(d) == "0123456789abcdef"[d]
  {
  }

  /** What a price text means: whole coins, and up to eight decimals of a coin. */
  lemma ZecForm(whole: string, frac: string, zats: Zatoshis)
    requires Canonical(whole) && Digits(frac)
    ensures DecodeZec(whole + (['.'] + frac)) == Some(zats) <==>
      |frac| <= 8 && zats <= 2_100_000_000_000_000 && zats == Number(whole) * 100_000_000 + Number(frac) * Power10(8 - |frac|)
  {
    KeptRoundTrip(whole, frac);
    AmountForm(whole, frac, zats);
  }

  /** Nothing else is a price: whole coins without a leading zero, and digits behind a point if there is one. */
  lemma ZecOnly(text: string)
    requires DecodeZec(text).Some?
    ensures exists whole, frac :: PriceText(text, whole, frac)
  {
    var dot := FirstOf(text, '.');
    var frac := if dot < |text| then text[dot + 1..] else [];
    assert dot < |text| ==> text == text[..dot] + (['.'] + text[dot + 1..]);
    assert PriceText(text, text[..dot], frac);
  }

  ghost predicate PriceText(text: string, whole: string, frac: string) {
    && Canonical(whole) && Digits(frac) && |frac| <= 8
    && (text == whole + (['.'] + frac) || (frac == [] && text == whole))
  }

  /** A whole number of coins needs no point. */
  lemma WholeForm(whole: string, zats: Zatoshis)
    requires Canonical(whole)
    ensures DecodeZec(whole) == Some(zats) <==> zats <= 2_100_000_000_000_000 && zats == Number(whole) * 100_000_000
  {
    PointFound(whole, []);
    assert whole + [] == whole;
    ReadsParts(whole, whole, []);
  }

  /** A height reads from its decimal text and from no other. */
  lemma HeightForm(text: string, h: Height)
    ensures DecodeHeight(text) == Some(h) <==> h < 0x1_0000_0000 && text == Decimal(h)
  {
    HeightRoundTrip(h);
    if Canonical(text) { DecimalWrites(text); }
  }

  lemma AmountForm(whole: string, frac: string, zats: Zatoshis)
    requires Canonical(whole) && Digits(frac)
    ensures AmountOf(whole, frac) == Some(zats) <==>
      |frac| <= 8 && zats <= 2_100_000_000_000_000 && zats == Number(whole) * 100_000_000 + Number(frac) * Power10(8 - |frac|)
  {
    if |frac| <= 8 { FractionForm(frac); }
  }

  lemma FractionForm(frac: string)
    requires |frac| <= 8 && Digits(frac)
    ensures FractionOf(frac) == Number(frac) * Power10(8 - |frac|)
  {
    if frac != [] { ShiftedNumber(frac, 8 - |frac|); }
  }

  lemma Tenfold(a: nat, p: nat)
    ensures a * (10 * p) == 10 * (a * p)
  {
  }

  lemma {:induction false} ShiftedNumber(s: string, k: nat)
    requires Digits(s)
    ensures Number(s + Repeat('0', k)) == Number(s) * Power10(k)
  {
    if k == 0 {
      assert s + Repeat('0', 0) == s;
    } else {
      ShiftedNumber(s, k - 1);
      DigitForm(s + Repeat('0', k - 1), '0');
      assert s + Repeat('0', k) == s + Repeat('0', k - 1) + ['0'];
      Tenfold(Number(s), Power10(k - 1));
    }
  }

  // ---------------------------------------------------------------------------
  // Name Notes
  // ---------------------------------------------------------------------------

  /** `none`, or the instant in seconds. */
  function ExpiryField(e: Expiry): string {
    if e.Never? then "none" else if e.time >= 0 then Decimal(e.time) else "-" + Decimal(-e.time)
  }

  /** Name, address, expiry and predecessor after what the text begins with. */
  function NoteLine(head: string, name: string, address: string, expiry: string, prev: seq<Byte>): string {
    (head + name + ":") + address + (":" + expiry + ":" + Hex(prev))
  }

  lemma SixParts(verb: string, name: string, address: string, expiry: string, prev: seq<Byte>, head: string)
    requires head == "ZNS" + ":" + verb + ":"
    ensures Join(["ZNS", verb, name, address, expiry, Hex(prev)], ':') == NoteLine(head, name, address, expiry, prev)
  {
    N.JoinSix(["ZNS", verb, name, address, expiry, Hex(prev)], ':');
  }

  lemma Heads()
    ensures "ZNS" + ":" + "claim" + ":" == "ZNS:claim:" && "ZNS" + ":" + "update" + ":" == "ZNS:update:"
    ensures "ZNS" + ":" + "release" + ":" == "ZNS:release:" && "ZNS" + ":" + "sale" + ":" == "ZNS:sale:"
  {
  }

  /** A Name Note's text: protocol, verb, name, address, expiry and predecessor, a claim's predecessor being zero. */
  lemma NoteForm(w: N.Wire, n: N.CarriedNote)
    ensures n.Claimed? ==> N.TextOf(w, n) == NoteLine("ZNS:claim:", n.name, w.text(n.ua), ExpiryField(n.expiresAt), N.Copies(0, 32))
    ensures n.Updated? ==> N.TextOf(w, n) == NoteLine("ZNS:update:", n.name, w.text(n.ua), ExpiryField(n.expiresAt), n.prev)
    ensures n.Released? ==> N.TextOf(w, n) == NoteLine("ZNS:release:", n.name, w.text(n.ua), "none", n.prev)
    ensures n.Sold? ==> N.TextOf(w, n) == NoteLine("ZNS:sale:", n.name, w.text(n.ua), ExpiryField(n.expiresAt), n.prev)
  {
    Heads();
    match n
    case Claimed(name, ua, e) => SixParts("claim", name, w.text(ua), ExpiryField(e), N.Copies(0, 32), "ZNS:claim:");
    case Updated(name, ua, e, prev) => SixParts("update", name, w.text(ua), ExpiryField(e), prev, "ZNS:update:");
    case Released(name, ua, prev) => SixParts("release", name, w.text(ua), "none", prev, "ZNS:release:");
    case Sold(name, ua, e, prev) => SixParts("sale", name, w.text(ua), ExpiryField(e), prev, "ZNS:sale:");
  }

  lemma LengthForm(n: nat)
    requires n < 0x1_0000_0000
    ensures N.Length4(n) == [(n % 256) as char, (n / 256 % 256) as char, (n / 65536 % 256) as char, (n / 16777216) as char]
  {
    assert n / 256 / 256 == n / 65536 && n / 256 / 256 / 256 == n / 16777216;
  }

  /** Each hashed field stands behind its length in four little-endian bytes. */
  lemma AbsorbForm(field: string, rest: seq<string>)
    requires |field| < 0x1_0000_0000
    ensures N.Absorb([]) == []
    ensures var n := |field|;
      N.Absorb([field] + rest) ==
        [(n % 256) as char, (n / 256 % 256) as char, (n / 65536 % 256) as char, (n / 16777216) as char] + field + N.Absorb(rest)
  {
    LengthForm(|field|);
    assert ([field] + rest)[1..] == rest;
  }

  /** What is hashed: the domain, the derivation tag, verb, name, address and expiry, then the predecessor's bytes bare. */
  lemma PreimageForm(w: N.Wire, tag: string, n: N.CarriedNote)
    ensures var verb := if n.Claimed? then "claim" else if n.Updated? then "update" else if n.Released? then "release" else "sale";
      N.Preimage(w, tag, n) ==
        N.Absorb(["ZcashName/v1", tag, verb, n.name, w.text(n.ua), ExpiryField(if n.Released? then Never else n.expiresAt)])
        + N.RawBytes(if n.Claimed? then N.Copies(0, 32) else n.prev)
  {
  }

  // ---------------------------------------------------------------------------
  // Challenges and requests
  // ---------------------------------------------------------------------------

  /** The fields with colons between, zero-padded to a memo, when they fit one. */
  function Sent(fields: seq<string>): Option<string>
    requires fields != []
  {
    var text := Join(fields, ':');
    if |text| <= 512 then Some(text + Repeat('\0', 512 - |text|)) else None
  }

  /** A challenge: six digits, name, verb and address, then a list's address and price or an auction's address and clock. */
  lemma ChallengeForm(a: C.Addresses, m: C.OtpMemo)
    ensures var head := ["ZNS", "otp", Fixed(m.code, 6), m.name];
      C.Encode(a, m) ==
        if m.action.Claim? then None
        else if m.action.List? then
          (if m.listing.None? then None
           else Sent(head + ["list", a.text(m.ua), a.payText(m.listing.value.0), EncodeZec(m.listing.value.1)]))
        else if m.action.Auction? then
          (if m.clock.None? then None
           else
             var (pay, c) := m.clock.value;
             Sent(head + ["auction", a.text(m.ua), a.payText(pay), EncodeZec(c.startPrice), EncodeZec(c.minPrice),
                          Decimal(c.start), Decimal(c.end)]))
        else Sent(head + [if m.action.Update? then "update" else if m.action.Release? then "release"
                          else if m.action.Sale? then "sale" else "delist", a.text(m.ua)])
  {
    var details := C.Details(a, m);
    var head := ["ZNS", "otp", Fixed(m.code, 6), m.name];
    if details.Some? {
      var said := C.Sentence(a, m) + details.value;
      if m.action.List? {
        var (pay, price) := m.listing.value;
        assert said == head + ["list", a.text(m.ua), a.payText(pay), EncodeZec(price)];
      } else if m.action.Auction? {
        var (pay, c) := m.clock.value;
        assert said == head + ["auction", a.text(m.ua), a.payText(pay), EncodeZec(c.startPrice), EncodeZec(c.minPrice),
                               Decimal(c.start), Decimal(c.end)];
      } else {
        assert said == head + [N.VerbText(m.action), a.text(m.ua)];
      }
    }
  }

  /** A request: its verb, a claim's access code if any, the term where there is one, name and address. */
  lemma RequestForm(r: Q.Request, address: string)
    ensures r.AskClaim? ==>
      Q.Written(r, address) == ["ZNS", "claim"] + (if r.code.Some? then [Fixed(r.code.value, 6)] else [])
        + [if r.term.Forever? then "forever" else Decimal(r.term.n) + "y", r.name, address]
    ensures r.AskUpdate? ==>
      Q.Written(r, address) ==
        ["ZNS", "update", if r.extension.None? then "none"
                          else if r.extension.value.Forever? then "forever" else Decimal(r.extension.value.n) + "y", r.name, address]
    ensures r.AskRelease? ==> Q.Written(r, address) == ["ZNS", "release", r.name, address]
  {
  }

  const LETTERS: string := "abcdefghijklmnopqrstuvwxyz"
  const DIGITS: string := "0123456789"

  lemma LetterIff(c: char)
    ensures c in LETTERS <==> 'a' <= c <= 'z'
  {
    if 'a' <= c <= 'z' { assert LETTERS[c as int - 'a' as int] == c; }
  }

  lemma DigitIff(c: char)
    ensures c in DIGITS <==> '0' <= c <= '9'
  {
    if '0' <= c <= '9' { assert DIGITS[c as int - '0' as int] == c; }
  }

  /** A name: one to sixty-three lower-case letters and digits. */
  lemma NameForm(s: string)
    ensures N.IsName(s) <==> 1 <= |s| <= 63 && forall i | 0 <= i < |s| :: s[i] in LETTERS || s[i] in DIGITS
  {
    forall i | 0 <= i < |s| ensures s[i] in LETTERS || s[i] in DIGITS <==> 'a' <= s[i] <= 'z' || '0' <= s[i] <= '9' {
      LetterIff(s[i]);
      DigitIff(s[i]);
    }
  }

  /** What an answer says after its code, name, verb and address, which depends on the verb alone. */
  ghost predicate Answers(a: C.Addresses, verb: string, rest: seq<string>, m: C.OtpMemo) {
    if verb == "list" then
      && m.action == N.List && m.clock == None && |rest| == 2 && m.listing.Some?
      && a.payParse(rest[0]) == Some(m.listing.value.0) && DecodeZec(rest[1]) == Some(m.listing.value.1)
    else if verb == "auction" then
      && m.action == N.Auction && m.listing == None && |rest| == 5 && m.clock.Some?
      && var c := m.clock.value.1;
      && a.payParse(rest[0]) == Some(m.clock.value.0) && DecodeZec(rest[1]) == Some(c.startPrice) && DecodeZec(rest[2]) == Some(c.minPrice)
      && DecodeHeight(rest[3]) == Some(c.start) && DecodeHeight(rest[4]) == Some(c.end)
      && c.start < c.end && c.minPrice < c.startPrice
    else
      && rest == [] && m.listing == None && m.clock == None
      && ((verb == "update" && m.action == N.Verb.Update) || (verb == "release" && m.action == N.Verb.Release)
          || (verb == "delist" && m.action == N.Delist))
  }

  lemma VerbsRead(s: string)
    ensures N.ParseVerb(s) == Some(N.List) <==> s == "list"
    ensures N.ParseVerb(s) == Some(N.Auction) <==> s == "auction"
    ensures N.ParseVerb(s) == Some(N.Verb.Update) <==> s == "update"
    ensures N.ParseVerb(s) == Some(N.Verb.Release) <==> s == "release"
    ensures N.ParseVerb(s) == Some(N.Delist) <==> s == "delist"
  {
    assert |"claim"| == 5 && |"update"| == 6 && |"release"| == 7 && |"sale"| == 4 && |"list"| == 4 && |"delist"| == 6 && |"auction"| == 7;
    assert "update"[0] != "delist"[0] && "release"[0] != "auction"[0] && "sale"[0] != "list"[0];
  }

  /** The fields that read as an answer to a challenge are exactly these. */
  lemma AnswerForm(a: C.Addresses, parts: seq<string>, m: C.OtpMemo)
    ensures C.ReadParts(a, parts) == Some(m) <==>
      && |parts| >= 6 && parts[0] == "ZNS" && parts[1] == "otp"
      && DecodeCode(parts[2]) == Some(m.code) && N.IsName(parts[3]) && m.name == parts[3] && a.parse(parts[5]) == Some(m.ua)
      && Answers(a, parts[4], parts[6..], m)
  {
    if |parts| >= 6 { VerbsRead(parts[4]); }
  }
}
