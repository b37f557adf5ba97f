/** ZEC amounts, block heights and one-time codes as memo fields. */
module AmountTexts {
  import opened Basics
  import opened Texts

  const COIN: nat := 100_000_000
  const MAX_MONEY: nat := 21_000_000 * COIN

  /** Index of the first `c`, or the length when there is none. */
  function FirstOf(s: string, c: char): (i: nat)
    ensures i <= |s| && Free(s[..i], c) && (i < |s| ==> s[i] == c)
  {
    if s == [] || s[0] == c then 0 else 1 + FirstOf(s[1..], c)
  }

  lemma {:induction false} FirstAfter(s: string, rest: string, c: char)
    requires Free(s, c) && (rest == [] || rest[0] == c)
    ensures FirstOf(s + rest, c) == |s|
  {
    if s == [] {
      assert s + rest == rest;
    } else {
      assert (s + rest)[1..] == s[1..] + rest;
      FirstAfter(s[1..], rest, c);
    }
  }

  /** The eight-digit fraction, in zatoshis; a missing fraction is zero. */
  function FractionOf(frac: string): nat
    requires |frac| <= 8 && Digits(frac)
  {
    if frac == [] then 0 else Number(frac + Repeat('0', 8 - |frac|))
  }

  /** ZEC with at most eight decimals, as zatoshis. */
  function DecodeZec(text: string): Option<Zatoshis> {
    var dot := FirstOf(text, '.');
    var whole := text[..dot];
    var frac := if dot < |text| then text[dot + 1..] else [];
    AmountOf(whole, frac)
  }

  function AmountOf(whole: string, frac: string): Option<Zatoshis> {
    if !Canonical(whole) || |frac| > 8 || !Digits(frac) then None
    else Held(Number(whole) * COIN + FractionOf(frac))
  }

  /** Amounts above the money supply are not amounts. */
  function Held(zats: nat): Option<Zatoshis> {
    if zats <= MAX_MONEY then Some(zats) else None
  }

  function EncodeZec(price: Zatoshis): string {
    var whole, frac := price / COIN, price % COIN;
    if frac == 0 then Decimal(whole) else Decimal(whole) + (['.'] + TrimEnd(Fixed(frac, 8), '0'))
  }

  lemma {:induction false} EightDigits()
    ensures Power10(8) == COIN
  {
    assert Power10(2) == 100;
    assert Power10(4) == 100 * Power10(2);
    assert Power10(6) == 100 * Power10(4);
  }

  lemma {:induction false} ZerosAreZero(n: nat)
    ensures Number(Repeat('0', n)) == 0
  {
    if n > 0 {
      assert Repeat('0', n)[..n - 1] == Repeat('0', n - 1);
      ZerosAreZero(n - 1);
    }
  }

  lemma {:induction false} DigitsFree(s: string, c: char)
    requires Digits(s) && !IsDigit(c)
    ensures Free(s, c)
  {
  }

  /** The kept digits of a non-zero fraction still say that fraction. */
  lemma {:induction false} FractionReads(frac: nat)
    requires 0 < frac < COIN
    ensures var kept := TrimEnd(Fixed(frac, 8), '0');
      0 < |kept| <= 8 && Digits(kept) && FractionOf(kept) == frac
  {
    EightDigits();
    var full := Fixed(frac, 8);
    var kept := TrimEnd(full, '0');
    FixedReads(frac, 8);
    var zeros := Repeat('0', 8 - |kept|);
    assert full == kept + zeros;
    assert forall i | 0 <= i < |kept| :: kept[i] == full[i];
    ZerosAreZero(8 - |kept|);
    assert kept == [] ==> full == zeros;
  }

  lemma {:induction false} Behind(a: string, c: char, b: string)
    ensures (a + ([c] + b))[|a| + 1..] == b
  {
  }

  lemma {:induction false} PointFound(whole: string, tail: string)
    requires Canonical(whole) && (tail == [] || tail[0] == '.')
    ensures FirstOf(whole + tail, '.') == |whole| && (whole + tail)[..|whole|] == whole
  {
    DigitsFree(whole, '.');
    FirstAfter(whole, tail, '.');
  }

  lemma {:induction false} KeptRoundTrip(whole: string, kept: string)
    requires Canonical(whole)
    ensures DecodeZec(whole + (['.'] + kept)) == AmountOf(whole, kept)
  {
    PointFound(whole, ['.'] + kept);
    Behind(whole, '.', kept);
    ReadsParts(whole + (['.'] + kept), whole, kept);
  }

  lemma {:induction false} WholeRoundTrip(whole: nat, price: nat)
    requires price == whole * COIN
    ensures DecodeZec(Decimal(whole)) == Held(price)
  {
    DecimalReads(whole);
    PointFound(Decimal(whole), []);
    assert Decimal(whole) + [] == Decimal(whole);
    ReadsParts(Decimal(whole), Decimal(whole), []);
  }

  lemma {:induction false} FractionRoundTrip(whole: nat, frac: nat, price: nat)
    requires 0 < frac < COIN && price == whole * COIN + frac
    ensures DecodeZec(Decimal(whole) + (['.'] + TrimEnd(Fixed(frac, 8), '0'))) == Held(price)
  {
    DecimalReads(whole);
    FractionReads(frac);
    var kept := TrimEnd(Fixed(frac, 8), '0');
    KeptRoundTrip(Decimal(whole), kept);
    AmountOfParts(Decimal(whole), kept, whole, frac, price);
  }

  lemma {:induction false} AmountOfParts(text: string, kept: string, whole: nat, frac: nat, price: nat)
    requires Canonical(text) && Number(text) == whole && price == whole * COIN + frac
    requires |kept| <= 8 && Digits(kept) && FractionOf(kept) == frac
    ensures AmountOf(text, kept) == Held(price)
  {
  }

  /** Every amount the ledger can hold survives its text; anything larger is refused. */
  lemma {:induction false} ZecRoundTrip(price: Zatoshis)
    ensures DecodeZec(EncodeZec(price)) == if price <= MAX_MONEY then Some(price) else None
  {
    var whole, frac := price / COIN, price % COIN;
    if frac == 0 { WholeRoundTrip(whole, price); } else { FractionRoundTrip(whole, frac, price); }
  }

  /** A text whose first point is after `whole` reads as `whole` and the digits behind the point. */
  lemma {:induction false} ReadsParts(text: string, whole: string, frac: string)
    requires FirstOf(text, '.') == |whole| <= |text| && text[..|whole|] == whole
    requires frac == if |whole| < |text| then text[|whole| + 1..] else []
    ensures DecodeZec(text) == AmountOf(whole, frac)
  {
  }

  lemma {:induction false} FractionIsShortest(frac: string)
    requires 0 < |frac| <= 8 && Digits(frac)
    ensures FractionOf(frac) < COIN && |TrimEnd(Fixed(FractionOf(frac), 8), '0')| <= |frac|
  {
    EightDigits();
    var full := frac + Repeat('0', 8 - |frac|);
    NumberBelow(full);
    FixedWrites(full);
    TrimIsShortest(frac, '0', 8 - |frac|);
  }

  lemma {:induction false} TextLength(price: Zatoshis, whole: nat, frac: nat)
    requires price / COIN == whole && price % COIN == frac
    ensures |EncodeZec(price)| == |Decimal(whole)| + if frac == 0 then 0 else 1 + |TrimEnd(Fixed(frac, 8), '0')|
  {
  }

  lemma {:induction false} PartsAreShortest(whole: string, frac: string, price: Zatoshis)
    requires Canonical(whole) && |frac| <= 8 && Digits(frac) && price == Number(whole) * COIN + FractionOf(frac)
    ensures |EncodeZec(price)| <= |whole| + if frac == [] then 0 else 1 + |frac|
  {
    var w, f := Number(whole), FractionOf(frac);
    assert |Decimal(w)| == |whole| by { DecimalWrites(whole); }
    if frac != [] { FractionIsShortest(frac); }
    assert price / COIN == w && price % COIN == f by { SplitAtCoin(w, f); }
    TextLength(price, w, f);
  }

  /** Of all the spellings of an amount, the encoder writes a shortest one. */
  lemma {:induction false} ZecIsShortest(text: string)
    requires DecodeZec(text).Some?
    ensures |EncodeZec(DecodeZec(text).value)| <= |text|
  {
    var price := DecodeZec(text).value;
    var dot := FirstOf(text, '.');
    var whole, frac := text[..dot], if dot < |text| then text[dot + 1..] else [];
    assert price == Number(whole) * COIN + FractionOf(frac);
    PartsAreShortest(whole, frac, price);
  }

  lemma {:induction false} SplitAtCoin(whole: nat, frac: nat)
    requires frac < COIN
    ensures (whole * COIN + frac) / COIN == whole && (whole * COIN + frac) % COIN == frac
  {
  }

  /** Digits and points: no separator, no padding, plain ASCII. */
  predicate Plain(s: string) {
    forall i | 0 <= i < |s| :: '\0' < s[i] < 128 as char && s[i] != ':'
  }

  lemma {:induction false} ZecIsPlain(price: Zatoshis)
    ensures Plain(EncodeZec(price)) && EncodeZec(price) != []
  {
    DecimalReads(price / COIN);
    if price % COIN != 0 { FractionReads(price % COIN); }
  }

  // ---------------------------------------------------------------------------
  // Heights and codes
  // ---------------------------------------------------------------------------

  function DecodeHeight(text: string): Option<Height> {
    if Canonical(text) && Number(text) < 0x1_0000_0000 then Some(Number(text)) else None
  }

  lemma {:induction false} HeightRoundTrip(h: Height)
    ensures DecodeHeight(Decimal(h)) == if h < 0x1_0000_0000 then Some(h) else None
  {
    DecimalReads(h);
  }

  function DecodeCode(text: string): Option<OtpCode> {
    if |text| == 6 && Digits(text) then Some(Number(text)) else None
  }

  /** Six digits and the codes below a million correspond one to one. */
  lemma {:induction false} CodeRoundTrip(code: OtpCode, text: string)
    ensures code < 1_000_000 ==> DecodeCode(Fixed(code, 6)) == Some(code)
    ensures DecodeCode(text).Some? ==> DecodeCode(text).value < 1_000_000 && Fixed(DecodeCode(text).value, 6) == text
  {
    assert Power10(2) == 100;
    assert Power10(4) == 100 * Power10(2);
    assert Power10(6) == 100 * Power10(4);
    if code < 1_000_000 { FixedReads(code, 6); }
    if DecodeCode(text).Some? {
      NumberBelow(text);
      FixedWrites(text);
    }
  }
}
