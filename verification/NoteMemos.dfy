/**
 Name Notes on the wire: the 512-byte memo and the commitment preimage. Memo
 bytes are characters; an address, its text and its parser belong to the
 network, as do the predecessor encodings it calls canonical.
 */
module NoteMemos {
  import opened Basics
  import opened NameNotes
  import opened Texts
  import opened AmountTexts

  const MEMO_SIZE: nat := 512
  const MAX_NAME_LEN: nat := 63

  /** `lastSecond` is the last representable instant. */
  datatype Wire = Wire(
    text: UnifiedAddress -> string,
    parse: string -> Option<UnifiedAddress>,
    utf8: string -> bool,
    scalar: seq<Byte> -> bool,
    lastSecond: nat)

  /** A transition as its memo carries it: the name as text, the predecessor as its 32 bytes. */
  datatype CarriedNote =
    | Claimed(name: string, ua: UnifiedAddress, expiresAt: Expiry)
    | Updated(name: string, ua: UnifiedAddress, expiresAt: Expiry, prev: seq<Byte>)
    | Released(name: string, ua: UnifiedAddress, prev: seq<Byte>)
    | Sold(name: string, ua: UnifiedAddress, expiresAt: Expiry, prev: seq<Byte>)

  function Copies(b: Byte, n: nat): (s: seq<Byte>)
    ensures |s| == n && forall i | 0 <= i < n :: s[i] == b
  {
    seq(n, _ => b)
  }

  const NO_PREDECESSOR: seq<Byte> := Copies(0, 32)

  // ---------------------------------------------------------------------------
  // Fields
  // ---------------------------------------------------------------------------

  /** What a field of a memo may hold. */
  predicate Clean(s: string) {
    Free(s, ':') && Free(s, '\0')
  }

  predicate IsName(s: string) {
    0 < |s| <= MAX_NAME_LEN && forall i | 0 <= i < |s| :: 'a' <= s[i] <= 'z' || '0' <= s[i] <= '9'
  }

  /** Every verb a memo may name; the last three are challenges, never Name Notes. */
  datatype Verb = Claim | Update | Release | Sale | List | Delist | Auction

  function VerbText(v: Verb): string {
    match v
    case Claim => "claim"
    case Update => "update"
    case Release => "release"
    case Sale => "sale"
    case List => "list"
    case Delist => "delist"
    case Auction => "auction"
  }

  function ParseVerb(s: string): Option<Verb> {
    if s == "claim" then Some(Verb.Claim)
    else if s == "update" then Some(Verb.Update)
    else if s == "release" then Some(Verb.Release)
    else if s == "sale" then Some(Verb.Sale)
    else if s == "list" then Some(List)
    else if s == "delist" then Some(Delist)
    else if s == "auction" then Some(Auction)
    else None
  }

  lemma VerbRoundTrip(v: Verb)
    ensures ParseVerb(VerbText(v)) == Some(v) && Clean(VerbText(v))
  {
    var s := VerbText(v);
    assert |"claim"| == 5 && |"update"| == 6 && |"release"| == 7 && |"sale"| == 4 && |"list"| == 4 && |"delist"| == 6
      && |"auction"| == 7;
    assert "update"[0] != "delist"[0] && "release"[0] != "auction"[0] && "sale"[0] != "list"[0];
  }

  function VerbOf(n: CarriedNote): Verb {
    match n
    case Claimed(_, _, _) => Verb.Claim
    case Updated(_, _, _, _) => Verb.Update
    case Released(_, _, _) => Verb.Release
    case Sold(_, _, _, _) => Verb.Sale
  }

  function ExpiryOf(n: CarriedNote): Expiry {
    if n.Released? then Never else n.expiresAt
  }

  function PredecessorOf(n: CarriedNote): seq<Byte> {
    if n.Claimed? then NO_PREDECESSOR else n.prev
  }

  /** A signed decimal; only instants from zero on are canonical. */
  function ExpiryText(e: Expiry): string {
    match e
    case Never => "none"
    case At(t) => if t >= 0 then Decimal(t) else "-" + Decimal(-t)
  }

  function ParseExpiry(field: string, lastSecond: nat): Option<Expiry> {
    if field == "none" then Some(Never)
    else if !Canonical(field) || |field| > 20 then None
    else if Number(field) <= lastSecond then Some(At(Number(field)))
    else None
  }

  predicate Representable(e: Expiry, lastSecond: nat) {
    e.At? ==> 0 <= e.time <= lastSecond
  }

  const LAST_I64: nat := 9_223_372_036_854_775_807

  /** An expiry survives its field exactly when its instant is not negative and can be represented. */
  lemma ExpiryRoundTrip(e: Expiry, lastSecond: nat)
    requires lastSecond <= LAST_I64
    ensures ParseExpiry(ExpiryText(e), lastSecond) == Some(e) <==> Representable(e, lastSecond)
  {
    if e.At? && e.time >= 0 {
      DecimalReads(e.time);
      if e.time <= lastSecond { ShortInstant(e.time); }
    }
  }

  lemma ShortInstant(t: nat)
    requires t <= LAST_I64
    ensures |Decimal(t)| <= 20
  {
    assert Power10(5) == 100_000;
    assert Power10(10) == 100_000 * Power10(5);
    assert Power10(15) == 100_000 * Power10(10);
    assert Power10(20) == 100_000 * Power10(15);
    DecimalLength(t, 20);
  }

  lemma ExpiryWrites(field: string, lastSecond: nat)
    requires ParseExpiry(field, lastSecond).Some?
    ensures ExpiryText(ParseExpiry(field, lastSecond).value) == field
    ensures Representable(ParseExpiry(field, lastSecond).value, lastSecond)
  {
    if field != "none" { DecimalWrites(field); }
  }

  // ---------------------------------------------------------------------------
  // The memo
  // ---------------------------------------------------------------------------

  function FieldsOf(w: Wire, n: CarriedNote): seq<string> {
    ["ZNS", VerbText(VerbOf(n)), n.name, w.text(n.ua), ExpiryText(ExpiryOf(n)), Hex(PredecessorOf(n))]
  }

  function TextOf(w: Wire, n: CarriedNote): string {
    Join(FieldsOf(w, n), ':')
  }

  function Padded(text: string): (memo: string)
    requires |text| <= MEMO_SIZE
    ensures |memo| == MEMO_SIZE
  {
    text + Repeat('\0', MEMO_SIZE - |text|)
  }

  function Encode(w: Wire, n: CarriedNote): (memo: string)
    requires |TextOf(w, n)| <= MEMO_SIZE
    ensures |memo| == MEMO_SIZE
  {
    Padded(TextOf(w, n))
  }

  /** The six fields of a zero-padded text, its first field naming the protocol. */
  function Unpack(w: Wire, memo: string): Option<seq<string>> {
    var end := FirstOf(memo, '\0');
    if memo[end..] != Repeat('\0', |memo| - end) || !w.utf8(memo[..end]) then None
    else
      var parts := Split(memo[..end], ':');
      if |parts| != 6 || parts[0] != "ZNS" then None else Some(parts)
  }

  predicate HexField(s: string) {
    |s| == 64 && forall i | 0 <= i < 64 :: IsHex(s[i])
  }

  /** Every action refuses the fields it may not carry. */
  function Typed(w: Wire, verb: Verb, name: string, ua: UnifiedAddress, expiry: Expiry, prev: seq<Byte>): Option<CarriedNote> {
    if verb.Claim? then
      if prev == NO_PREDECESSOR then Some(Claimed(name, ua, expiry)) else None
    else if prev == NO_PREDECESSOR || !w.scalar(prev) then None
    else match verb
      case Update => Some(Updated(name, ua, expiry, prev))
      case Sale => Some(Sold(name, ua, expiry, prev))
      case Release => if expiry == Never then Some(Released(name, ua, prev)) else None
      case _ => None
  }

  /** The typed note of six fields. */
  function Assemble(w: Wire, parts: seq<string>): Option<CarriedNote>
    requires |parts| == 6
  {
    var verb, ua, expiry := ParseVerb(parts[1]), w.parse(parts[3]), ParseExpiry(parts[4], w.lastSecond);
    if !IsName(parts[2]) || ua.None? || expiry.None? || !HexField(parts[5]) || parts[3] == [] || verb.None? then None
    else Typed(w, verb.value, parts[2], ua.value, expiry.value, Unhex(parts[5]))
  }

  /** Accepts a memo only when writing the note again gives the same bytes. */
  function Decode(w: Wire, memo: string): Option<CarriedNote>
    requires |memo| == MEMO_SIZE
  {
    var parts := Unpack(w, memo);
    if parts.None? then None
    else
      var note := Assemble(w, parts.value);
      if note.Some? && |TextOf(w, note.value)| <= MEMO_SIZE && Encode(w, note.value) == memo then note else None
  }

  // ---------------------------------------------------------------------------
  // Notes a memo can carry
  // ---------------------------------------------------------------------------

  ghost predicate KnownAddress(w: Wire, ua: UnifiedAddress) {
    w.text(ua) != [] && w.parse(w.text(ua)) == Some(ua) && Clean(w.text(ua))
  }

  ghost predicate RealPredecessor(w: Wire, prev: seq<Byte>) {
    |prev| == 32 && prev != NO_PREDECESSOR && w.scalar(prev)
  }

  ghost predicate Meaningful(w: Wire, n: CarriedNote) {
    && IsName(n.name) && KnownAddress(w, n.ua) && Representable(ExpiryOf(n), w.lastSecond)
    && (!n.Claimed? ==> RealPredecessor(w, n.prev))
  }

  ghost predicate Carriable(w: Wire, n: CarriedNote) {
    Meaningful(w, n) && |TextOf(w, n)| <= MEMO_SIZE && w.utf8(TextOf(w, n))
  }

  lemma {:induction false} JoinFree(parts: seq<string>, c: char, d: char)
    requires |parts| >= 1 && c != d && forall i | 0 <= i < |parts| :: Free(parts[i], d)
    ensures Free(Join(parts, c), d)
  {
    if |parts| > 1 { JoinFree(parts[1..], c, d); }
  }

  lemma JoinSix(p: seq<string>, c: char)
    requires |p| == 6
    ensures Join(p, c) == (p[0] + [c] + p[1] + [c] + p[2] + [c]) + p[3] + ([c] + p[4] + [c] + p[5])
  {
    assert Join(p[5..], c) == p[5];
    assert p[4..][1..] == p[5..] && Join(p[4..], c) == p[4] + [c] + Join(p[5..], c);
    assert p[3..][1..] == p[4..] && Join(p[3..], c) == p[3] + [c] + Join(p[4..], c);
    assert p[2..][1..] == p[3..] && Join(p[2..], c) == p[2] + [c] + Join(p[3..], c);
    assert p[1..][1..] == p[2..] && Join(p[1..], c) == p[1] + [c] + Join(p[2..], c);
  }

  lemma ExpiryIsClean(e: Expiry)
    ensures Clean(ExpiryText(e))
  {
    if e.At? { DecimalReads(if e.time >= 0 then e.time else -e.time); }
  }

  lemma NameIsClean(name: string)
    requires IsName(name)
    ensures Clean(name)
  {
  }

  lemma HexIsClean(bytes: seq<Byte>)
    ensures Clean(Hex(bytes))
  {
  }

  lemma SixAreClean(a: string, b: string, c: string, d: string, e: string, f: string)
    requires Clean(a) && Clean(b) && Clean(c) && Clean(d) && Clean(e) && Clean(f)
    ensures forall i | 0 <= i < 6 :: Clean([a, b, c, d, e, f][i])
  {
  }

  lemma FieldsAreClean(w: Wire, n: CarriedNote)
    requires Meaningful(w, n)
    ensures forall i | 0 <= i < 6 :: Clean(FieldsOf(w, n)[i])
  {
    VerbRoundTrip(VerbOf(n));
    NameIsClean(n.name);
    ExpiryIsClean(ExpiryOf(n));
    HexIsClean(PredecessorOf(n));
    SixAreClean("ZNS", VerbText(VerbOf(n)), n.name, w.text(n.ua), ExpiryText(ExpiryOf(n)), Hex(PredecessorOf(n)));
  }

  lemma UnpackPadded(w: Wire, parts: seq<string>)
    requires |parts| == 6 && parts[0] == "ZNS" && forall i | 0 <= i < 6 :: Clean(parts[i])
    requires |Join(parts, ':')| <= MEMO_SIZE && w.utf8(Join(parts, ':'))
    ensures Unpack(w, Padded(Join(parts, ':'))) == Some(parts)
  {
    var text := Join(parts, ':');
    var zeros := Repeat('\0', MEMO_SIZE - |text|);
    JoinFree(parts, ':', '\0');
    FirstAfter(text, zeros, '\0');
    assert (text + zeros)[..|text|] == text;
    SplitJoin(parts, ':');
  }

  lemma AssembleParsed(w: Wire, parts: seq<string>, verb: Verb, ua: UnifiedAddress, expiry: Expiry, prev: seq<Byte>)
    requires |parts| == 6 && IsName(parts[2]) && HexField(parts[5]) && parts[3] != []
    requires ParseVerb(parts[1]) == Some(verb) && w.parse(parts[3]) == Some(ua)
    requires ParseExpiry(parts[4], w.lastSecond) == Some(expiry) && Unhex(parts[5]) == prev
    ensures Assemble(w, parts) == Typed(w, verb, parts[2], ua, expiry, prev)
  {
  }

  lemma TypedNote(w: Wire, n: CarriedNote)
    requires !n.Claimed? ==> RealPredecessor(w, n.prev)
    ensures Typed(w, VerbOf(n), n.name, n.ua, ExpiryOf(n), PredecessorOf(n)) == Some(n) && |PredecessorOf(n)| == 32
  {
  }

  lemma AssembleFields(w: Wire, n: CarriedNote)
    requires Meaningful(w, n) && w.lastSecond <= LAST_I64
    ensures Assemble(w, FieldsOf(w, n)) == Some(n)
  {
    ExpiryRoundTrip(ExpiryOf(n), w.lastSecond);
    VerbRoundTrip(VerbOf(n));
    var prev := PredecessorOf(n);
    HexReads(prev);
    TypedNote(w, n);
    AssembleParsed(w, FieldsOf(w, n), VerbOf(n), n.ua, ExpiryOf(n), prev);
  }

  /** Decoding an encoded note returns it. */
  lemma NoteRoundTrip(w: Wire, n: CarriedNote)
    requires Carriable(w, n) && w.lastSecond <= LAST_I64
    ensures Decode(w, Encode(w, n)) == Some(n)
  {
    FieldsAreClean(w, n);
    UnpackPadded(w, FieldsOf(w, n));
    AssembleFields(w, n);
  }

  // ---------------------------------------------------------------------------
  // Only encodings are accepted
  // ---------------------------------------------------------------------------

  lemma TypedFields(w: Wire, verb: Verb, name: string, ua: UnifiedAddress, expiry: Expiry, prev: seq<Byte>, n: CarriedNote)
    requires Typed(w, verb, name, ua, expiry, prev) == Some(n) && |prev| == 32
    ensures VerbOf(n) == verb && n.name == name && n.ua == ua && ExpiryOf(n) == expiry && PredecessorOf(n) == prev
    ensures !n.Claimed? ==> RealPredecessor(w, n.prev)
  {
  }

  lemma AssembledParsed(w: Wire, parts: seq<string>, n: CarriedNote)
    requires |parts| == 6 && Assemble(w, parts) == Some(n)
    ensures ParseVerb(parts[1]).Some? && IsName(parts[2]) && HexField(parts[5]) && parts[3] != []
    ensures w.parse(parts[3]).Some? && ParseExpiry(parts[4], w.lastSecond).Some?
    ensures Typed(w, ParseVerb(parts[1]).value, parts[2], w.parse(parts[3]).value,
                  ParseExpiry(parts[4], w.lastSecond).value, Unhex(parts[5])) == Some(n)
  {
  }

  lemma VerbWrites(s: string)
    requires ParseVerb(s).Some?
    ensures VerbText(ParseVerb(s).value) == s
  {
  }

  lemma FieldTexts(verb: string, expiry: string, hex: string, lastSecond: nat)
    requires ParseVerb(verb).Some? && ParseExpiry(expiry, lastSecond).Some? && HexField(hex)
    ensures VerbText(ParseVerb(verb).value) == verb && Hex(Unhex(hex)) == hex
    ensures ExpiryText(ParseExpiry(expiry, lastSecond).value) == expiry
    ensures Representable(ParseExpiry(expiry, lastSecond).value, lastSecond)
  {
    VerbWrites(verb);
    ExpiryWrites(expiry, lastSecond);
    HexWrites(hex);
  }

  lemma AssembledFields(w: Wire, parts: seq<string>, n: CarriedNote)
    requires |parts| == 6 && parts[0] == "ZNS" && Assemble(w, parts) == Some(n)
    ensures VerbText(VerbOf(n)) == parts[1] && n.name == parts[2] && ExpiryText(ExpiryOf(n)) == parts[4]
    ensures Hex(PredecessorOf(n)) == parts[5] && HexField(parts[5])
    ensures IsName(n.name) && Representable(ExpiryOf(n), w.lastSecond) && (!n.Claimed? ==> RealPredecessor(w, n.prev))
    ensures w.parse(parts[3]) == Some(n.ua) && parts[3] != []
  {
    AssembledParsed(w, parts, n);
    FieldTexts(parts[1], parts[4], parts[5], w.lastSecond);
    TypedFields(w, ParseVerb(parts[1]).value, parts[2], w.parse(parts[3]).value,
                ParseExpiry(parts[4], w.lastSecond).value, Unhex(parts[5]), n);
  }

  /** Around equal fields, equal texts hold equal middles. */
  lemma MiddleCancels(p: seq<string>, q: seq<string>)
    requires |p| == |q| == 6 && Join(p, ':') == Join(q, ':')
    requires p[0] == q[0] && p[1] == q[1] && p[2] == q[2] && p[4] == q[4] && p[5] == q[5]
    ensures p[3] == q[3]
  {
    JoinSix(p, ':');
    JoinSix(q, ':');
    var l, r := p[0] + [':'] + p[1] + [':'] + p[2] + [':'], [':'] + p[4] + [':'] + p[5];
    CancelAround(l, p[3], q[3], r);
  }

  lemma CancelAround(l: string, a: string, b: string, r: string)
    requires l + a + r == l + b + r
    ensures a == b
  {
    assert |l + a + r| == |l + b + r|;
    assert a == (l + a + r)[|l|..|l| + |a|];
    assert b == (l + b + r)[|l|..|l| + |b|];
  }

  /** Two padded texts that end in something other than padding are the same text. */
  lemma PaddingIsUnique(a: string, b: string)
    requires |a| <= MEMO_SIZE && |b| <= MEMO_SIZE && Padded(a) == Padded(b)
    requires a != [] && a[|a| - 1] != '\0' && b != [] && b[|b| - 1] != '\0'
    ensures a == b
  {
    TrimRecovers(a, '\0', MEMO_SIZE - |a|);
    TrimRecovers(b, '\0', MEMO_SIZE - |b|);
  }

  lemma EndsInHex(p: seq<string>)
    requires |p| == 6 && HexField(p[5])
    ensures var text := Join(p, ':'); text != [] && text[|text| - 1] != '\0'
  {
    JoinSix(p, ':');
    var text := Join(p, ':');
    assert text[|text| - 1] == p[5][63];
  }

  lemma UnpackedText(w: Wire, memo: string, parts: seq<string>)
    requires |memo| == MEMO_SIZE && Unpack(w, memo) == Some(parts)
    ensures |parts| == 6 && parts[0] == "ZNS" && |Join(parts, ':')| <= MEMO_SIZE
    ensures Padded(Join(parts, ':')) == memo && w.utf8(Join(parts, ':'))
    ensures forall i | 0 <= i < 6 :: Clean(parts[i])
  {
    var end := FirstOf(memo, '\0');
    var text := memo[..end];
    JoinSplit(text, ':');
    assert memo == text + Repeat('\0', MEMO_SIZE - end);
    forall i | 0 <= i < 6 ensures Clean(parts[i]) {
      PartsFree(text, ':', '\0');
    }
  }

  lemma {:induction false} PartsFree(s: string, c: char, d: char)
    requires Free(s, d)
    ensures forall i | 0 <= i < |Split(s, c)| :: Free(Split(s, c)[i], d)
  {
    if s != [] { PartsFree(s[1..], c, d); }
  }

  lemma AcceptedIsEncoding(w: Wire, memo: string, n: CarriedNote)
    requires |memo| == MEMO_SIZE && Decode(w, memo) == Some(n)
    ensures Carriable(w, n) && Encode(w, n) == memo
  {
    AcceptedParts(w, memo, n, Unpack(w, memo).value);
  }

  lemma AcceptedParts(w: Wire, memo: string, n: CarriedNote, parts: seq<string>)
    requires |memo| == MEMO_SIZE && Unpack(w, memo) == Some(parts) && |parts| == 6 && Assemble(w, parts) == Some(n)
    requires |TextOf(w, n)| <= MEMO_SIZE && Encode(w, n) == memo
    ensures Carriable(w, n)
  {
    UnpackedText(w, memo, parts);
    AssembledFields(w, parts, n);
    SameText(w, n, parts);
    MeaningfulFields(w, parts, n);
  }

  lemma SameText(w: Wire, n: CarriedNote, p: seq<string>)
    requires |p| == 6 && p[0] == "ZNS" && p[1] == VerbText(VerbOf(n)) && p[2] == n.name
    requires p[4] == ExpiryText(ExpiryOf(n)) && p[5] == Hex(PredecessorOf(n)) && HexField(p[5])
    requires |Join(p, ':')| <= MEMO_SIZE && |TextOf(w, n)| <= MEMO_SIZE && Padded(Join(p, ':')) == Padded(TextOf(w, n))
    ensures p[3] == w.text(n.ua) && Join(p, ':') == TextOf(w, n)
  {
    TextsAgree(p, FieldsOf(w, n));
  }

  lemma MeaningfulFields(w: Wire, parts: seq<string>, n: CarriedNote)
    requires |parts| == 6 && w.text(n.ua) == parts[3] && Clean(parts[3]) && parts[3] != [] && w.parse(parts[3]) == Some(n.ua)
    requires IsName(n.name) && Representable(ExpiryOf(n), w.lastSecond) && (!n.Claimed? ==> RealPredecessor(w, n.prev))
    ensures Meaningful(w, n)
  {
  }

  lemma TextsAgree(p: seq<string>, q: seq<string>)
    requires |p| == |q| == 6 && HexField(p[5])
    requires p[0] == q[0] && p[1] == q[1] && p[2] == q[2] && p[4] == q[4] && p[5] == q[5]
    requires |Join(p, ':')| <= MEMO_SIZE && |Join(q, ':')| <= MEMO_SIZE && Padded(Join(p, ':')) == Padded(Join(q, ':'))
    ensures p[3] == q[3] && Join(p, ':') == Join(q, ':')
  {
    EndsInHex(p);
    EndsInHex(q);
    PaddingIsUnique(Join(p, ':'), Join(q, ':'));
    MiddleCancels(p, q);
  }

  /**
   The decoder accepts exactly the encodings of carriable notes: every accepted
   memo is written again byte for byte, and nothing else is accepted.
   */
  lemma DecodesExactlyEncodings(w: Wire, memo: string, n: CarriedNote)
    requires |memo| == MEMO_SIZE && w.lastSecond <= LAST_I64
    ensures Decode(w, memo) == Some(n) <==> Carriable(w, n) && Encode(w, n) == memo
  {
    if Decode(w, memo) == Some(n) {
      AcceptedIsEncoding(w, memo, n);
    } else if Carriable(w, n) {
      NoteRoundTrip(w, n);
    }
  }

  // ---------------------------------------------------------------------------
  // The commitment preimage
  // ---------------------------------------------------------------------------

  const WORD: nat := 0x1_0000_0000

  /** Four little-endian bytes; a longer length would wrap. */
  function Length4(n: nat): (s: string)
    ensures |s| == 4
  {
    var k := n % WORD;
    [(k % 256) as char, (k / 256 % 256) as char, (k / 256 / 256 % 256) as char, (k / 256 / 256 / 256) as char]
  }

  lemma LengthsDiffer(a: nat, b: nat)
    requires a < WORD && b < WORD && Length4(a) == Length4(b)
    ensures a == b
  {
    var p, q := Length4(a), Length4(b);
    assert p[0] == q[0] && p[1] == q[1] && p[2] == q[2] && p[3] == q[3];
    BytesOf(a);
    BytesOf(b);
  }

  lemma BytesOf(a: nat)
    requires a < WORD
    ensures var s := Length4(a);
      a == s[0] as int + 256 * (s[1] as int + 256 * (s[2] as int + 256 * (s[3] as int)))
  {
    var b, c := a / 256, a / 256 / 256;
    assert a == 256 * b + a % 256 && b == 256 * c + b % 256 && c == 256 * (c / 256) + c % 256;
    assert c / 256 < 256;
  }

  function Absorb(fields: seq<string>): string {
    if fields == [] then [] else Length4(|fields[0]|) + fields[0] + Absorb(fields[1..])
  }

  lemma PrefixIsInjective(f: string, g: string, x: string, y: string)
    requires |f| < WORD && |g| < WORD && Length4(|f|) + f + x == Length4(|g|) + g + y
    ensures f == g && x == y
  {
    var s, t := Length4(|f|) + f + x, Length4(|g|) + g + y;
    assert Length4(|f|) == s[..4] && Length4(|g|) == t[..4];
    LengthsDiffer(|f|, |g|);
    assert f == s[4..4 + |f|] && g == t[4..4 + |g|];
    assert x == s[4 + |f|..] && y == t[4 + |g|..];
  }

  /** Length prefixes leave one way to read the fields back, whatever follows them. */
  lemma {:induction false} AbsorbIsInjective(a: seq<string>, b: seq<string>, x: string, y: string)
    requires |a| == |b| && Absorb(a) + x == Absorb(b) + y
    requires forall i | 0 <= i < |a| :: |a[i]| < WORD && |b[i]| < WORD
    ensures a == b && x == y
  {
    if a == [] {
      assert [] + x == x && [] + y == y;
    } else {
      assert Absorb(a) + x == Length4(|a[0]|) + a[0] + (Absorb(a[1..]) + x);
      assert Absorb(b) + y == Length4(|b[0]|) + b[0] + (Absorb(b[1..]) + y);
      PrefixIsInjective(a[0], b[0], Absorb(a[1..]) + x, Absorb(b[1..]) + y);
      AbsorbIsInjective(a[1..], b[1..], x, y);
      assert a == [a[0]] + a[1..] && b == [b[0]] + b[1..];
    }
  }

  function RawBytes(bytes: seq<Byte>): (s: string)
    ensures |s| == |bytes| && forall i | 0 <= i < |s| :: s[i] == bytes[i] as char
  {
    if bytes == [] then [] else [bytes[0] as char] + RawBytes(bytes[1..])
  }

  lemma RawBytesDiffer(a: seq<Byte>, b: seq<Byte>)
    requires RawBytes(a) == RawBytes(b)
    ensures a == b
  {
    assert |a| == |b|;
    forall i | 0 <= i < |a| ensures a[i] == b[i] {
      assert RawBytes(a)[i] == RawBytes(b)[i];
      assert (a[i] as char) as int == (b[i] as char) as int;
    }
  }

  function Hashed(w: Wire, tag: string, n: CarriedNote): seq<string> {
    ["ZcashName/v1", tag, VerbText(VerbOf(n)), n.name, w.text(n.ua), ExpiryText(ExpiryOf(n))]
  }

  function Preimage(w: Wire, tag: string, n: CarriedNote): string {
    Absorb(Hashed(w, tag, n)) + RawBytes(PredecessorOf(n))
  }

  lemma ShortFields(w: Wire, n: CarriedNote)
    requires Carriable(w, n)
    ensures |w.text(n.ua)| <= MEMO_SIZE && |ExpiryText(ExpiryOf(n))| <= MEMO_SIZE
  {
    JoinSix(FieldsOf(w, n), ':');
  }

  /** What is hashed names the note: equal preimages of carriable notes come from the same tag and the same note. */
  lemma PreimageNamesNote(w: Wire, tagA: string, a: CarriedNote, tagB: string, b: CarriedNote)
    requires Carriable(w, a) && Carriable(w, b) && |tagA| < WORD && |tagB| < WORD && w.lastSecond <= LAST_I64
    requires Preimage(w, tagA, a) == Preimage(w, tagB, b)
    ensures tagA == tagB && a == b
  {
    SameHashed(w, tagA, a, tagB, b);
    RawBytesDiffer(PredecessorOf(a), PredecessorOf(b));
    VerbRoundTrip(VerbOf(a));
    VerbRoundTrip(VerbOf(b));
    ExpiryRoundTrip(ExpiryOf(a), w.lastSecond);
    ExpiryRoundTrip(ExpiryOf(b), w.lastSecond);
    SameParts(a, b);
  }

  lemma HashedFit(w: Wire, tag: string, n: CarriedNote)
    requires IsName(n.name) && |tag| < WORD
    requires |w.text(n.ua)| <= MEMO_SIZE && |ExpiryText(ExpiryOf(n))| <= MEMO_SIZE
    ensures forall i | 0 <= i < 6 :: |Hashed(w, tag, n)[i]| < WORD
  {
    VerbIsShort(VerbOf(n));
    var f := Hashed(w, tag, n);
    assert |f[0]| == |"ZcashName/v1"| == 12;
    assert |f[1]| < WORD && |f[2]| < WORD && |f[3]| < WORD && |f[4]| < WORD && |f[5]| < WORD;
  }

  lemma VerbIsShort(v: Verb)
    ensures |VerbText(v)| < 10
  {
  }

  lemma SameHashed(w: Wire, tagA: string, a: CarriedNote, tagB: string, b: CarriedNote)
    requires Carriable(w, a) && Carriable(w, b) && |tagA| < WORD && |tagB| < WORD
    requires Preimage(w, tagA, a) == Preimage(w, tagB, b)
    ensures tagA == tagB && VerbText(VerbOf(a)) == VerbText(VerbOf(b)) && a.name == b.name && w.text(a.ua) == w.text(b.ua)
    ensures ExpiryText(ExpiryOf(a)) == ExpiryText(ExpiryOf(b)) && RawBytes(PredecessorOf(a)) == RawBytes(PredecessorOf(b))
  {
    var f := Hashed(w, tagA, a);
    var g := Hashed(w, tagB, b);
    ShortFields(w, a);
    ShortFields(w, b);
    HashedFit(w, tagA, a);
    HashedFit(w, tagB, b);
    AbsorbIsInjective(f, g, RawBytes(PredecessorOf(a)), RawBytes(PredecessorOf(b)));
    assert f[1] == g[1] && f[2] == g[2] && f[3] == g[3] && f[4] == g[4] && f[5] == g[5];
  }

  lemma SameParts(a: CarriedNote, b: CarriedNote)
    requires VerbOf(a) == VerbOf(b) && a.name == b.name && a.ua == b.ua && ExpiryOf(a) == ExpiryOf(b)
    requires PredecessorOf(a) == PredecessorOf(b)
    ensures a == b
  {
  }
}
