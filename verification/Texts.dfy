/** The text forms the memos are made of: decimals, hexadecimal, colon-separated fields and zero padding. */
module Texts {
  import opened Basics

  // ---------------------------------------------------------------------------
  // Decimals
  // ---------------------------------------------------------------------------

  predicate IsDigit(c: char) {
    '0' <= c <= '9'
  }

  function ValueOf(c: char): nat
    requires IsDigit(c)
  {
    c as int - '0' as int
  }

  function Glyph(d: nat): (c: char)
    requires d < 10
    ensures IsDigit(c) && ValueOf(c) == d
  {
    (d + '0' as int) as char
  }

  predicate Digits(s: string) {
    forall i | 0 <= i < |s| :: IsDigit(s[i])
  }

  function Number(s: string): nat
    requires Digits(s)
  {
    if s == [] then 0 else 10 * Number(s[..|s| - 1]) + ValueOf(s[|s| - 1])
  }

  function Decimal(n: nat): string {
    if n < 10 then [Glyph(n)] else Decimal(n / 10) + [Glyph(n % 10)]
  }

  /** Digits only and no leading zero, except zero itself. */
  predicate Canonical(s: string) {
    s != [] && Digits(s) && (|s| > 1 ==> s[0] != '0')
  }

  lemma {:induction false} DecimalReads(n: nat)
    ensures Canonical(Decimal(n)) && Number(Decimal(n)) == n
    ensures n > 0 ==> Decimal(n)[0] != '0'
  {
    var s := Decimal(n);
    if n >= 10 {
      DecimalReads(n / 10);
      assert s[..|s| - 1] == Decimal(n / 10);
      assert s[0] == Decimal(n / 10)[0];
    } else {
      assert s[..|s| - 1] == [];
      assert Number([]) == 0;
    }
  }

  lemma {:induction false} DecimalWrites(s: string)
    requires Canonical(s)
    ensures Decimal(Number(s)) == s
    ensures s[0] != '0' ==> Number(s) > 0
  {
    var k := |s| - 1;
    if k > 0 {
      DecimalWrites(s[..k]);
      assert Glyph(ValueOf(s[k])) == s[k];
      assert s == s[..k] + [s[k]];
    } else {
      assert s[..k] == [] && Number([]) == 0;
      assert s == [s[0]] && Glyph(ValueOf(s[0])) == s[0];
    }
  }

  function Power10(k: nat): (p: nat)
    ensures p > 0
  {
    if k == 0 then 1 else 10 * Power10(k - 1)
  }

  lemma {:induction false} NumberBelow(s: string)
    requires Digits(s)
    ensures Number(s) < Power10(|s|)
  {
    if s != [] { NumberBelow(s[..|s| - 1]); }
  }

  /** A canonical decimal is no longer than any bound it stays under. */
  lemma {:induction false} DecimalLength(n: nat, k: nat)
    requires n < Power10(k) && k > 0
    ensures |Decimal(n)| <= k
  {
    if n >= 10 {
      assert k > 1 by { assert Power10(1) == 10 * Power10(0); }
      DecimalLength(n / 10, k - 1);
    }
  }

  /** Exactly `width` digits, the high ones zero. */
  function Fixed(n: nat, width: nat): (s: string)
    ensures |s| == width && Digits(s)
  {
    if width == 0 then [] else Fixed(n / 10, width - 1) + [Glyph(n % 10)]
  }

  lemma {:induction false} FixedReads(n: nat, width: nat)
    requires n < Power10(width)
    ensures Number(Fixed(n, width)) == n
  {
    if width > 0 {
      FixedReads(n / 10, width - 1);
      assert Fixed(n, width)[..width - 1] == Fixed(n / 10, width - 1);
    }
  }

  lemma SplitOff(n: nat, d: nat)
    requires d < 10
    ensures (10 * n + d) / 10 == n && (10 * n + d) % 10 == d
  {
  }

  lemma {:induction false} FixedWrites(s: string)
    requires Digits(s)
    ensures Fixed(Number(s), |s|) == s
  {
    if s != [] {
      var k := |s| - 1;
      FixedWrites(s[..k]);
      SplitOff(Number(s[..k]), ValueOf(s[k]));
      assert Fixed(Number(s), k + 1) == Fixed(Number(s[..k]), k) + [Glyph(ValueOf(s[k]))];
      assert Glyph(ValueOf(s[k])) == s[k];
      assert s == s[..k] + [s[k]];
    }
  }

  // ---------------------------------------------------------------------------
  // Runs of one character at the end
  // ---------------------------------------------------------------------------

  function Repeat(c: char, n: nat): (s: string)
    ensures |s| == n && forall i | 0 <= i < n :: s[i] == c
  {
    seq(n, _ => c)
  }

  function TrimEnd(s: string, c: char): (r: string)
    ensures r <= s && (r != [] ==> r[|r| - 1] != c)
    ensures s == r + Repeat(c, |s| - |r|)
  {
    if s == [] || s[|s| - 1] != c then s
    else
      var r := TrimEnd(s[..|s| - 1], c);
      assert s == s[..|s| - 1] + [c];
      r
  }

  /** Whatever ends elsewhere is recovered from under its padding. */
  lemma {:induction false} TrimRecovers(s: string, c: char, n: nat)
    requires s == [] || s[|s| - 1] != c
    ensures TrimEnd(s + Repeat(c, n), c) == s
  {
    if n > 0 {
      var padded := s + Repeat(c, n);
      assert padded[..|padded| - 1] == s + Repeat(c, n - 1);
      TrimRecovers(s, c, n - 1);
    } else {
      assert s + Repeat(c, n) == s;
    }
  }

  /** No shorter text can be padded to the same one. */
  lemma TrimIsShortest(s: string, c: char, n: nat)
    ensures |TrimEnd(s + Repeat(c, n), c)| <= |s|
  {
    var whole := s + Repeat(c, n);
    var r := TrimEnd(whole, c);
    assert forall i | |s| <= i < |whole| :: whole[i] == c;
    assert forall i | 0 <= i < |r| :: r[i] == whole[i];
  }

  // ---------------------------------------------------------------------------
  // Fields
  // ---------------------------------------------------------------------------

  predicate Free(s: string, c: char) {
    forall i | 0 <= i < |s| :: s[i] != c
  }

  function Split(s: string, c: char): (r: seq<string>)
    ensures |r| >= 1
  {
    if s == [] then [[]]
    else
      var rest := Split(s[1..], c);
      if s[0] == c then [[]] + rest else [[s[0]] + rest[0]] + rest[1..]
  }

  function Join(parts: seq<string>, c: char): string
    requires |parts| >= 1
  {
    if |parts| == 1 then parts[0] else parts[0] + [c] + Join(parts[1..], c)
  }

  lemma {:induction false} SplitLast(p: string, c: char)
    requires Free(p, c)
    ensures Split(p, c) == [p]
  {
    if p != [] {
      SplitLast(p[1..], c);
      assert p == [p[0]] + p[1..];
    }
  }

  lemma {:induction false} SplitField(p: string, rest: string, c: char)
    requires Free(p, c)
    ensures Split(p + [c] + rest, c) == [p] + Split(rest, c)
  {
    var s := p + [c] + rest;
    if p == [] {
      assert s[1..] == rest;
    } else {
      assert s[1..] == p[1..] + [c] + rest;
      SplitField(p[1..], rest, c);
      assert p == [p[0]] + p[1..];
    }
  }

  lemma {:induction false} SplitJoin(parts: seq<string>, c: char)
    requires |parts| >= 1 && forall i | 0 <= i < |parts| :: Free(parts[i], c)
    ensures Split(Join(parts, c), c) == parts
  {
    if |parts| == 1 {
      SplitLast(parts[0], c);
      assert parts == [parts[0]];
    } else {
      SplitJoin(parts[1..], c);
      SplitField(parts[0], Join(parts[1..], c), c);
      assert parts == [parts[0]] + parts[1..];
    }
  }

  lemma {:induction false} JoinSplit(s: string, c: char)
    ensures Join(Split(s, c), c) == s
    ensures forall i | 0 <= i < |Split(s, c)| :: Free(Split(s, c)[i], c)
  {
    if s != [] {
      JoinSplit(s[1..], c);
      var rest, parts := Split(s[1..], c), Split(s, c);
      assert s == [s[0]] + s[1..];
      if s[0] == c {
        assert parts[1..] == rest;
      } else {
        assert parts[1..] == rest[1..];
      }
    }
  }

  // ---------------------------------------------------------------------------
  // Hexadecimal
  // ---------------------------------------------------------------------------

  type Byte = x: nat | x < 256

  predicate IsHex(c: char) {
    '0' <= c <= '9' || 'a' <= c <= 'f'
  }

  function Nibble(c: char): (d: nat)
    requires IsHex(c)
    ensures d < 16
  {
    if c <= '9' then c as int - '0' as int else c as int - 'a' as int + 10
  }

  function HexDigit(d: nat): (c: char)
    requires d < 16
    ensures IsHex(c) && Nibble(c) == d
  {
    if d < 10 then (d + '0' as int) as char else (d - 10 + 'a' as int) as char
  }

  function Hex(bytes: seq<Byte>): (s: string)
    ensures |s| == 2 * |bytes| && forall i | 0 <= i < |s| :: IsHex(s[i])
  {
    if bytes == [] then [] else [HexDigit(bytes[0] / 16), HexDigit(bytes[0] % 16)] + Hex(bytes[1..])
  }

  function Unhex(s: string): (bytes: seq<Byte>)
    requires |s| % 2 == 0 && forall i | 0 <= i < |s| :: IsHex(s[i])
    ensures 2 * |bytes| == |s|
  {
    if s == [] then [] else [16 * Nibble(s[0]) + Nibble(s[1])] + Unhex(s[2..])
  }

  lemma {:induction false} HexReads(bytes: seq<Byte>)
    ensures Unhex(Hex(bytes)) == bytes
  {
    if bytes != [] {
      HexReads(bytes[1..]);
      assert Hex(bytes)[2..] == Hex(bytes[1..]);
      assert bytes == [bytes[0]] + bytes[1..];
    }
  }

  lemma {:induction false} HexWrites(s: string)
    requires |s| % 2 == 0 && forall i | 0 <= i < |s| :: IsHex(s[i])
    ensures Hex(Unhex(s)) == s
  {
    if s != [] {
      HexWrites(s[2..]);
      var b := Unhex(s);
      assert b[0] == 16 * Nibble(s[0]) + Nibble(s[1]) && b[1..] == Unhex(s[2..]);
      assert b[0] / 16 == Nibble(s[0]) && b[0] % 16 == Nibble(s[1]);
      assert HexDigit(Nibble(s[0])) == s[0] && HexDigit(Nibble(s[1])) == s[1];
      assert s == [s[0], s[1]] + s[2..];
    }
  }
}
