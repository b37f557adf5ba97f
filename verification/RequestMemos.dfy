/** What a user writes to the Treasury: the request grammar, its terms and access codes. */
module RequestMemos {
  import opened Basics
  import opened NameNotes
  import opened Texts
  import opened AmountTexts
  import NoteMemos
  import ChallengeMemos

  datatype Request =
    | AskClaim(name: string, ua: UnifiedAddress, term: Term, code: Option<nat>)
    | AskUpdate(name: string, ua: UnifiedAddress, extension: Option<Term>)
    | AskRelease(name: string, ua: UnifiedAddress)

  function TermText(t: Term): string {
    match t
    case Forever => "forever"
    case Years(n) => Decimal(n) + "y"
  }

  /** `forever`, or 1 to 99 years written without a leading zero. */
  function ParseTerm(field: string): Option<Term> {
    if field == "forever" then Some(Forever)
    else if field == [] || field[|field| - 1] != 'y' then None
    else
      var years := field[..|field| - 1];
      if years == [] || years[0] == '0' || !Digits(years) then None
      else if 1 <= Number(years) <= MAX_TERM_YEARS then Some(Years(Number(years)))
      else None
  }

  predicate Offered(t: Term) {
    t.Years? ==> 1 <= t.n <= MAX_TERM_YEARS
  }

  lemma TermRoundTrip(t: Term)
    ensures ParseTerm(TermText(t)) == Some(t) <==> Offered(t)
  {
    if t.Years? {
      DecimalReads(t.n);
      var field := TermText(t);
      assert field[..|field| - 1] == Decimal(t.n);
      assert field[0] == Decimal(t.n)[0] && field[0] != "forever"[0];
    }
  }

  lemma TermWrites(field: string)
    requires ParseTerm(field).Some?
    ensures TermText(ParseTerm(field).value) == field && Offered(ParseTerm(field).value)
  {
    if field != "forever" {
      var years := field[..|field| - 1];
      DecimalWrites(years);
      assert field == years + "y";
    }
  }

  /** The first field of a claim says which form it has: no access code reads as a term. */
  lemma CodeIsNoTerm(field: string)
    requires DecodeCode(field).Some?
    ensures ParseTerm(field).None?
  {
    assert field[0] != "forever"[0];
  }

  // ---------------------------------------------------------------------------
  // The grammar
  // ---------------------------------------------------------------------------

  function NameAndAddress(a: ChallengeMemos.Addresses, rest: seq<string>): Option<(string, UnifiedAddress)> {
    if |rest| != 2 || !NoteMemos.IsName(rest[0]) || rest[1] == [] || a.parse(rest[1]).None? then None
    else Some((rest[0], a.parse(rest[1]).value))
  }

  function ReadTermed(a: ChallengeMemos.Addresses, code: Option<nat>, term: Option<Term>, rest: seq<string>): Option<Request> {
    var tail := NameAndAddress(a, rest);
    if term.None? || tail.None? then None else Some(AskClaim(tail.value.0, tail.value.1, term.value, code))
  }

  function ReadClaim(a: ChallengeMemos.Addresses, rest: seq<string>): Option<Request> {
    if rest == [] then None
    else if ParseTerm(rest[0]).Some? then ReadTermed(a, None, ParseTerm(rest[0]), rest[1..])
    else if DecodeCode(rest[0]).None? || |rest| < 2 then None
    else ReadTermed(a, DecodeCode(rest[0]), ParseTerm(rest[1]), rest[2..])
  }

  function ReadUpdate(a: ChallengeMemos.Addresses, rest: seq<string>): Option<Request> {
    if rest == [] then None
    else
      var term, tail := ParseTerm(rest[0]), NameAndAddress(a, rest[1..]);
      if (rest[0] != "none" && term.None?) || tail.None? then None
      else Some(AskUpdate(tail.value.0, tail.value.1, if rest[0] == "none" then None else term))
  }

  function ReadRelease(a: ChallengeMemos.Addresses, rest: seq<string>): Option<Request> {
    var tail := NameAndAddress(a, rest);
    if tail.None? then None else Some(AskRelease(tail.value.0, tail.value.1))
  }

  function ReadRequest(a: ChallengeMemos.Addresses, parts: seq<string>): Option<Request> {
    if |parts| < 2 || parts[0] != "ZNS" then None
    else if parts[1] == "claim" then ReadClaim(a, parts[2..])
    else if parts[1] == "update" then ReadUpdate(a, parts[2..])
    else if parts[1] == "release" then ReadRelease(a, parts[2..])
    else None
  }

  /** The one way to write a request, up to the spelling of its address. */
  function Middle(r: Request): seq<string> {
    match r
    case AskClaim(_, _, term, code) => ["claim"] + (if code.Some? then [Fixed(code.value, 6)] else []) + [TermText(term)]
    case AskUpdate(_, _, term) => ["update", if term.None? then "none" else TermText(term.value)]
    case AskRelease(_, _) => ["release"]
  }

  function Written(r: Request, address: string): seq<string> {
    ["ZNS"] + Middle(r) + [r.name, address]
  }

  predicate WellFormed(r: Request) {
    && NoteMemos.IsName(r.name)
    && (r.AskClaim? ==> Offered(r.term) && (r.code.Some? ==> r.code.value < 1_000_000))
    && (r.AskUpdate? && r.extension.Some? ==> Offered(r.extension.value))
  }

  ghost predicate Spells(a: ChallengeMemos.Addresses, r: Request, address: string) {
    address != [] && a.parse(address) == Some(r.ua)
  }

  lemma ClaimReads(a: ChallengeMemos.Addresses, r: Request, address: string)
    requires r.AskClaim? && WellFormed(r) && Spells(a, r, address)
    ensures ReadClaim(a, Middle(r)[1..] + [r.name, address]) == Some(r)
  {
    var tail := [r.name, address];
    var rest := Middle(r)[1..] + tail;
    TermRoundTrip(r.term);
    if r.code.Some? {
      var code := Fixed(r.code.value, 6);
      CodeRoundTrip(r.code.value, code);
      CodeIsNoTerm(code);
      assert rest == [code, TermText(r.term)] + tail && rest[2..] == tail;
    } else {
      assert rest == [TermText(r.term)] + tail && rest[1..] == tail;
    }
  }

  lemma UpdateReads(a: ChallengeMemos.Addresses, r: Request, address: string)
    requires r.AskUpdate? && WellFormed(r) && Spells(a, r, address)
    ensures ReadUpdate(a, Middle(r)[1..] + [r.name, address]) == Some(r)
  {
    assert (Middle(r)[1..] + [r.name, address])[1..] == [r.name, address];
    if r.extension.Some? {
      TermRoundTrip(r.extension.value);
      NoneIsNoTerm();
    }
  }

  lemma ReadsWritten(a: ChallengeMemos.Addresses, r: Request, address: string)
    requires WellFormed(r) && Spells(a, r, address)
    ensures ReadRequest(a, Written(r, address)) == Some(r)
  {
    assert Written(r, address)[2..] == Middle(r)[1..] + [r.name, address];
    match r
    case AskClaim(_, _, _, _) => ClaimReads(a, r, address);
    case AskUpdate(_, _, _) => UpdateReads(a, r, address);
    case AskRelease(_, _) =>
  }

  lemma NoneIsNoTerm()
    ensures ParseTerm("none").None?
  {
    assert "none"[3] == 'e' && "none"[0] != "forever"[0];
  }

  lemma WritesClaim(a: ChallengeMemos.Addresses, parts: seq<string>, r: Request)
    requires |parts| >= 2 && parts[0] == "ZNS" && parts[1] == "claim" && ReadClaim(a, parts[2..]) == Some(r)
    ensures WellFormed(r) && Spells(a, r, parts[|parts| - 1]) && parts == Written(r, parts[|parts| - 1])
  {
    if ParseTerm(parts[2..][0]).Some? { WritesPlainClaim(a, parts, r); } else { WritesCodedClaim(a, parts, r); }
  }

  lemma WritesPlainClaim(a: ChallengeMemos.Addresses, parts: seq<string>, r: Request)
    requires |parts| > 2 && parts[0] == "ZNS" && parts[1] == "claim" && ParseTerm(parts[2]).Some?
    requires ReadTermed(a, None, ParseTerm(parts[2]), parts[3..]) == Some(r)
    ensures WellFormed(r) && Spells(a, r, parts[|parts| - 1]) && parts == Written(r, parts[|parts| - 1])
  {
    TermWrites(parts[2]);
    assert |parts| == 5;
  }

  lemma WritesCodedClaim(a: ChallengeMemos.Addresses, parts: seq<string>, r: Request)
    requires |parts| > 3 && parts[0] == "ZNS" && parts[1] == "claim" && DecodeCode(parts[2]).Some?
    requires ReadTermed(a, DecodeCode(parts[2]), ParseTerm(parts[3]), parts[4..]) == Some(r)
    ensures WellFormed(r) && Spells(a, r, parts[|parts| - 1]) && parts == Written(r, parts[|parts| - 1])
  {
    CodeRoundTrip(0, parts[2]);
    TermWrites(parts[3]);
    assert |parts| == 6;
  }

  lemma WritesOther(a: ChallengeMemos.Addresses, parts: seq<string>, r: Request)
    requires |parts| >= 2 && parts[0] == "ZNS" && parts[1] != "claim" && ReadRequest(a, parts) == Some(r)
    ensures WellFormed(r) && Spells(a, r, parts[|parts| - 1]) && parts == Written(r, parts[|parts| - 1])
  {
    var rest := parts[2..];
    if parts[1] == "update" {
      assert |rest| == 3;
      if rest[0] != "none" { TermWrites(rest[0]); }
    } else {
      assert |rest| == 2;
    }
  }

  /**
   The grammar is exact: a memo reads as a request exactly when the request is one
   that is offered and the memo is its one spelling, address text aside. A memo
   that reads as a request never reads as an answer to a challenge.
   */
  lemma GrammarIsExact(a: ChallengeMemos.Addresses, parts: seq<string>, r: Request)
    requires |parts| >= 1
    ensures ReadRequest(a, parts) == Some(r) <==>
      WellFormed(r) && Spells(a, r, parts[|parts| - 1]) && parts == Written(r, parts[|parts| - 1])
    ensures ReadRequest(a, parts) == Some(r) ==> ChallengeMemos.ReadParts(a, parts).None?
  {
    if ReadRequest(a, parts) == Some(r) {
      if parts[1] == "claim" { WritesClaim(a, parts, r); } else { WritesOther(a, parts, r); }
    } else if WellFormed(r) && Spells(a, r, parts[|parts| - 1]) {
      ReadsWritten(a, r, parts[|parts| - 1]);
    }
    assert |"otp"| == 3 && |"claim"| == 5 && |"update"| == 6 && |"release"| == 7;
  }

  // ---------------------------------------------------------------------------
  // The memo
  // ---------------------------------------------------------------------------

  function Decode(a: ChallengeMemos.Addresses, memo: string): Option<Request>
    requires |memo| == NoteMemos.MEMO_SIZE
  {
    var text := ChallengeMemos.MemoText(a, memo);
    if text.None? then None else ReadRequest(a, Split(text.value, ':'))
  }

  /** The memo is the request written with this spelling of its address, zero-padded. */
  ghost predicate IsMemoOf(a: ChallengeMemos.Addresses, r: Request, address: string, memo: string) {
    && Spells(a, r, address) && Free(address, ':') && address[|address| - 1] != '\0'
    && var text := Join(Written(r, address), ':');
       |text| <= NoteMemos.MEMO_SIZE && a.utf8(text) && memo == NoteMemos.Padded(text)
  }

  lemma TermIsFree(t: Term)
    ensures Free(TermText(t), ':')
  {
    if t.Years? { DecimalReads(t.n); }
  }

  lemma WrittenIsFree(r: Request, address: string)
    requires WellFormed(r) && Free(address, ':')
    ensures forall i | 0 <= i < |Written(r, address)| :: Free(Written(r, address)[i], ':')
  {
    NoteMemos.NameIsClean(r.name);
    match r
    case AskClaim(_, _, term, code) => TermIsFree(term);
    case AskUpdate(_, _, term) => if term.Some? { TermIsFree(term.value); }
    case AskRelease(_, _) =>
  }

  lemma {:induction false} JoinLast(parts: seq<string>, c: char)
    requires |parts| >= 1 && parts[|parts| - 1] != []
    ensures var text, last := Join(parts, c), parts[|parts| - 1];
      text != [] && text[|text| - 1] == last[|last| - 1]
    ensures |parts| > 1 && parts[0] != [] ==> Join(parts, c)[0] == parts[0][0]
  {
    if |parts| > 1 { JoinLast(parts[1..], c); }
  }

  lemma MemoReads(a: ChallengeMemos.Addresses, r: Request, address: string, memo: string)
    requires WellFormed(r) && IsMemoOf(a, r, address, memo)
    ensures |memo| == NoteMemos.MEMO_SIZE && Decode(a, memo) == Some(r)
  {
    var parts := Written(r, address);
    var text := Join(parts, ':');
    JoinLast(parts, ':');
    TrimRecovers(text, '\0', NoteMemos.MEMO_SIZE - |text|);
    assert memo[0] == text[0] == 'Z';
    WrittenIsFree(r, address);
    SplitJoin(parts, ':');
    ReadsWritten(a, r, address);
  }

  lemma ReadMemo(a: ChallengeMemos.Addresses, memo: string, r: Request) returns (address: string)
    requires |memo| == NoteMemos.MEMO_SIZE && Decode(a, memo) == Some(r)
    ensures WellFormed(r) && IsMemoOf(a, r, address, memo)
  {
    var text := TrimEnd(memo, '\0');
    var parts := Split(text, ':');
    JoinSplit(text, ':');
    GrammarIsExact(a, parts, r);
    address := parts[|parts| - 1];
    JoinLast(parts, ':');
    assert text != [] && text[|text| - 1] != '\0';
  }

  /**
   A 512-byte memo decodes to a request exactly when the request is one that is offered
   and the memo is its zero-padded text, whichever text spells its address; and a memo
   that decodes to a request never decodes to an answer, so the order in which the two
   are tried does not matter.
   */
  lemma MemoGrammarIsExact(a: ChallengeMemos.Addresses, memo: string, r: Request)
    requires |memo| == NoteMemos.MEMO_SIZE
    ensures Decode(a, memo) == Some(r) <==> WellFormed(r) && exists address :: IsMemoOf(a, r, address, memo)
    ensures Decode(a, memo) == Some(r) ==> ChallengeMemos.Decode(a, memo).None?
  {
    if Decode(a, memo) == Some(r) {
      var address := ReadMemo(a, memo, r);
      GrammarIsExact(a, Split(TrimEnd(memo, '\0'), ':'), r);
    }
    if WellFormed(r) && exists address :: IsMemoOf(a, r, address, memo) {
      var address :| IsMemoOf(a, r, address, memo);
      MemoReads(a, r, address, memo);
    }
  }
}
