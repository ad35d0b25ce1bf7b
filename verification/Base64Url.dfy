/**
  base64url as app/lib/crypto-utils.ts does it: `btoa` / `atob` on standard base64 (section 4 of
  RFC 4648), with the alphabet swapped and the padding stripped or restored around them
  (section 5 of RFC 4648, unpadded as in Appendix C of RFC 7515).
 */
module Base64Url {
  import opened Wrappers

  type Sextet = v: int | 0 <= v < 64

  /** The alphabets differ only in the last two digits. */
  function Digit(v: Sextet, d62: char, d63: char): char {
    if v < 26 then 'A' + v as char
    else if v < 52 then 'a' + (v - 26) as char
    else if v < 62 then '0' + (v - 52) as char
    else if v == 62 then d62 else d63
  }

  function StdDigit(v: Sextet): char { Digit(v, '+', '/') }

  function UrlDigit(v: Sextet): char { Digit(v, '-', '_') }

  function StdValue(c: char): Option<Sextet> {
    if 'A' <= c <= 'Z' then Some(c as int - 'A' as int)
    else if 'a' <= c <= 'z' then Some(c as int - 'a' as int + 26)
    else if '0' <= c <= '9' then Some(c as int - '0' as int + 52)
    else if c == '+' then Some(62)
    else if c == '/' then Some(63)
    else None
  }

  /** One group of one to three bytes; a short one is filled with zero bits. */
  function Group(b: seq<Byte>): (s: seq<Sextet>)
    requires 1 <= |b| <= 3
    ensures |s| == |b| + 1
  {
    if |b| == 1 then [b[0] / 4, b[0] % 4 * 16]
    else if |b| == 2 then [b[0] / 4, b[0] % 4 * 16 + b[1] / 16, b[1] % 16 * 4]
    else [b[0] / 4, b[0] % 4 * 16 + b[1] / 16, b[1] % 16 * 4 + b[2] / 64, b[2] % 64]
  }

  function Sextets(bytes: seq<Byte>): seq<Sextet> {
    if |bytes| == 0 then []
    else if |bytes| <= 3 then Group(bytes)
    else Group(bytes[..3]) + Sextets(bytes[3..])
  }

  /** Section 5 of RFC 4648 without padding: what `toBase64Url` is meant to compute. */
  function UrlEncoded(bytes: seq<Byte>): string { Digits(Sextets(bytes), UrlDigit) }

  function Digits(sextets: seq<Sextet>, digit: Sextet -> char): (s: string)
    ensures |s| == |sextets| && forall i | 0 <= i < |s| :: s[i] == digit(sextets[i])
  {
    seq(|sextets|, i requires 0 <= i < |sextets| => digit(sextets[i]))
  }

  /** `btoa`: four digits a group, the last group padded. */
  function Btoa(bytes: seq<Byte>): string {
    if |bytes| == 0 then ""
    else if |bytes| <= 3 then Digits(Group(bytes), StdDigit) + Pads(3 - |bytes|)
    else Digits(Group(bytes[..3]), StdDigit) + Btoa(bytes[3..])
  }

  function Pads(n: nat): (s: string)
    ensures |s| == n && forall i | 0 <= i < n :: s[i] == '='
  {
    seq(n, _ => '=')
  }

  function ReplaceAll(s: string, from: char, to: char): (r: string)
    ensures |r| == |s| && forall i | 0 <= i < |s| :: r[i] == if s[i] == from then to else s[i]
  {
    seq(|s|, i requires 0 <= i < |s| => if s[i] == from then to else s[i])
  }

  function Swapped(c: char): char { if c == '+' then '-' else if c == '/' then '_' else c }

  function SwappedBack(c: char): char { if c == '-' then '+' else if c == '_' then '/' else c }

  /** Strip a trailing run of '='. */
  function StripPadding(s: string): string {
    if s != "" && s[|s| - 1] == '=' then StripPadding(s[..|s| - 1]) else s
  }

  /** The padding formula of `fromBase64Url`. */
  function Repadding(length: nat): nat { (4 - length % 4) % 4 }

  // ---------------------------------------------------------------------------------------------
  // atob.
  // ---------------------------------------------------------------------------------------------

  predicate IsWhitespace(c: char) { c == ' ' || c == '\t' || c == '\n' || c == '\r' || c == '\U{0C}' }

  function RemoveWhitespace(s: string): string {
    if s == "" then ""
    else (if IsWhitespace(s[0]) then "" else [s[0]]) + RemoveWhitespace(s[1..])
  }

  /** A text of whole groups may end in one or two '='. */
  function DropPads(s: string): string {
    if |s| >= 4 && |s| % 4 == 0 && s[|s| - 1] == '=' then
      if s[|s| - 2] == '=' then s[..|s| - 2] else s[..|s| - 1]
    else s
  }

  predicate InAlphabet(s: string) { forall c <- s :: StdValue(c).Some? }

  /** The bytes of one group; the surplus bits of a short one are discarded. */
  function Ungroup(s: seq<Sextet>): (b: seq<Byte>)
    requires 2 <= |s| <= 4
    ensures |b| == |s| - 1
  {
    var first: int, second: int := s[0], s[1];
    if |s| == 2 then [first * 4 + second / 16]
    else
      var third: int := s[2];
      if |s| == 3 then [first * 4 + second / 16, second % 16 * 16 + third / 4]
      else [first * 4 + second / 16, second % 16 * 16 + third / 4, third % 4 * 64 + s[3]]
  }

  function Bytes(s: seq<Sextet>): seq<Byte>
    requires |s| % 4 != 1
  {
    if |s| == 0 then []
    else if |s| <= 4 then Ungroup(s)
    else Ungroup(s[..4]) + Bytes(s[4..])
  }

  function Values(s: string): seq<Sextet>
    requires InAlphabet(s)
  {
    seq(|s|, i requires 0 <= i < |s| => assert s[i] in s; StdValue(s[i]).value)
  }

  /** `atob`, None where it throws. */
  function Atob(s: string): Option<seq<Byte>> {
    var d := DropPads(RemoveWhitespace(s));
    if |d| % 4 == 1 || !InAlphabet(d) then None else Some(Bytes(Values(d)))
  }

  function FromBase64Url(value: string): Option<seq<Byte>> {
    Atob(ReplaceAll(ReplaceAll(value, '-', '+'), '_', '/') + Pads(Repadding(|value|)))
  }

  // ---------------------------------------------------------------------------------------------
  // Encoding.
  // ---------------------------------------------------------------------------------------------

  /** `binary` holds one character a byte; btoa sees the bytes again. */
  method ToBase64Url(bytes: seq<Byte>) returns (encoded: string)
    ensures encoded == UrlEncoded(bytes)
  {
    var binary: string := "";
    for i := 0 to |bytes|
      invariant |binary| == i && forall j | 0 <= j < i :: binary[j] == bytes[j] as char
    {
      binary := binary + [bytes[i] as char];
    }
    var charCodes := seq(|binary|, i requires 0 <= i < |binary| => binary[i] as int as Byte);
    assert charCodes == bytes;
    encoded := StripPadding(ReplaceAll(ReplaceAll(Btoa(charCodes), '+', '-'), '/', '_'));
    BtoaIsPaddedDigits(bytes);
    StrippedIsUrlEncoded(bytes);
  }

  /** The unpadded length of n bytes. */
  function EncodedSize(n: nat): (m: nat)
    ensures m % 4 != 1 && Repadding(m) == (3 - n % 3) % 3
  {
    if n == 0 then 0 else if n < 3 then n + 1 else EncodedSize(n - 3) + 4
  }

  lemma {:induction false} EncodedLength(bytes: seq<Byte>)
    ensures |Sextets(bytes)| == EncodedSize(|bytes|)
  {
    if |bytes| > 3 {
      EncodedLength(bytes[3..]);
      SizeOfThreeMore(|bytes| - 3);
      assert |bytes[3..]| == |bytes| - 3;
    }
  }

  lemma SizeOfThreeMore(n: nat)
    ensures EncodedSize(n + 3) == EncodedSize(n) + 4 && Repadding(EncodedSize(n + 3)) == Repadding(EncodedSize(n))
  {
  }

  lemma DigitsConcat(a: seq<Sextet>, b: seq<Sextet>, digit: Sextet -> char)
    ensures Digits(a + b, digit) == Digits(a, digit) + Digits(b, digit)
  {
  }

  /** The re-padding formula restores exactly what btoa appends. */
  lemma {:induction false} BtoaIsPaddedDigits(bytes: seq<Byte>)
    ensures Btoa(bytes) == Digits(Sextets(bytes), StdDigit) + Pads(Repadding(|Sextets(bytes)|))
  {
    EncodedLength(bytes);
    if |bytes| > 3 {
      var front, back := Group(bytes[..3]), Sextets(bytes[3..]);
      BtoaIsPaddedDigits(bytes[3..]);
      EncodedLength(bytes[3..]);
      SizeOfThreeMore(|bytes[3..]|);
      DigitsConcat(front, back, StdDigit);
      Associative(Digits(front, StdDigit), Digits(back, StdDigit), Pads(Repadding(|back|)));
    }
  }

  lemma Associative(a: string, b: string, c: string)
    ensures a + (b + c) == a + b + c
  {
  }

  lemma DigitFacts(v: Sextet)
    ensures StdValue(StdDigit(v)) == Some(v)
    ensures StdDigit(v) != '=' && UrlDigit(v) != '=' && UrlDigit(v) != '.' && !IsWhitespace(StdDigit(v))
    ensures UrlDigit(v) == Swapped(StdDigit(v)) && StdDigit(v) == SwappedBack(UrlDigit(v))
  {
  }

  lemma {:induction false} StripsExactlyPads(s: string, n: nat)
    requires '=' !in s
    ensures StripPadding(s + Pads(n)) == s
  {
    if n == 0 {
      assert s + Pads(0) == s;
    } else {
      assert (s + Pads(n))[..|s| + n - 1] == s + Pads(n - 1);
      StripsExactlyPads(s, n - 1);
    }
  }

  lemma StrippedIsUrlEncoded(bytes: seq<Byte>)
    ensures StripPadding(ReplaceAll(ReplaceAll(Btoa(bytes), '+', '-'), '/', '_')) == UrlEncoded(bytes)
  {
    var n := Repadding(|UrlEncoded(bytes)|);
    BtoaIsPaddedDigits(bytes);
    forall v: Sextet ensures UrlDigit(v) == Swapped(StdDigit(v)) && UrlDigit(v) != '=' { DigitFacts(v); }
    var swapped := ReplaceAll(ReplaceAll(Btoa(bytes), '+', '-'), '/', '_');
    forall i | 0 <= i < |swapped| ensures swapped[i] == (UrlEncoded(bytes) + Pads(n))[i] {
      assert swapped[i] == Swapped(Btoa(bytes)[i]);
    }
    assert swapped == UrlEncoded(bytes) + Pads(n);
    StripsExactlyPads(UrlEncoded(bytes), n);
  }

  // ---------------------------------------------------------------------------------------------
  // Round trips.
  // ---------------------------------------------------------------------------------------------

  lemma UngroupInvertsGroup(b: seq<Byte>)
    requires 1 <= |b| <= 3
    ensures Ungroup(Group(b)) == b
  {
    assert b[0] / 4 * 4 + b[0] % 4 == b[0];
    if |b| == 2 { assert b[1] / 16 * 16 + b[1] % 16 == b[1]; }
    if |b| == 3 { assert b[2] / 64 * 64 + b[2] % 64 == b[2]; }
  }

  lemma {:induction false} BytesOfSextets(bytes: seq<Byte>)
    ensures |Sextets(bytes)| % 4 != 1 && Bytes(Sextets(bytes)) == bytes
  {
    EncodedLength(bytes);
    if 0 < |bytes| <= 3 {
      UngroupInvertsGroup(bytes);
    } else if |bytes| > 3 {
      BytesOfSextets(bytes[3..]);
      UngroupInvertsGroup(bytes[..3]);
      assert Sextets(bytes)[..4] == Group(bytes[..3]);
      assert Sextets(bytes)[4..] == Sextets(bytes[3..]);
    }
  }

  lemma {:induction false} NoWhitespaceNothingRemoved(s: string)
    requires forall c <- s :: !IsWhitespace(c)
    ensures RemoveWhitespace(s) == s
  {
    if s != "" {
      assert s == [s[0]] + s[1..];
      NoWhitespaceNothingRemoved(s[1..]);
    }
  }

  /** Restoring the padding and letting `atob` drop it again is the identity on text without '='. */
  lemma RepaddedIsDropped(d: string)
    requires |d| % 4 != 1 && '=' !in d
    ensures DropPads(d + Pads(Repadding(|d|))) == d
  {
    var s := d + Pads(Repadding(|d|));
    assert s[..|d|] == d;
    assert |d| > 0 ==> d[|d| - 1] in d;
    if |d| % 4 == 0 {
      assert s == d;
    } else {
      assert |s| % 4 == 0 && |s| >= 4;
      assert s[|s| - 1] == '=';
      assert |d| % 4 == 3 ==> s[|s| - 2] == d[|d| - 1];
    }
  }

  /** `atob` on clean text, re-padded: exactly the texts of a possible length decode. */
  lemma AtobOfRepadded(d: string)
    requires InAlphabet(d)
    ensures Atob(d + Pads(Repadding(|d|))) == if |d| % 4 == 1 then None else Some(Bytes(Values(d)))
  {
    var n := Repadding(|d|);
    var s := d + Pads(n);
    NoWhitespaceNothingRemoved(s);
    if |d| % 4 == 1 {
      assert s[|d|] == '=' && s[|s| - 2] == '=';
      assert DropPads(s)[|d|] == '=';
      assert '=' in DropPads(s);
    } else {
      RepaddedIsDropped(d);
    }
  }

  lemma ValuesOfDigits(sextets: seq<Sextet>)
    ensures InAlphabet(Digits(sextets, StdDigit)) && Values(Digits(sextets, StdDigit)) == sextets
  {
    forall v: Sextet ensures StdValue(StdDigit(v)) == Some(v) { DigitFacts(v); }
  }

  /** Decoding what was encoded gives the bytes back, for every byte sequence. */
  lemma DecodeInvertsEncode(bytes: seq<Byte>)
    ensures FromBase64Url(UrlEncoded(bytes)) == Some(bytes)
  {
    EncodedLength(bytes);
    var v := UrlEncoded(bytes);
    forall x: Sextet ensures StdDigit(x) == SwappedBack(UrlDigit(x)) { DigitFacts(x); }
    var std := ReplaceAll(ReplaceAll(v, '-', '+'), '_', '/');
    forall i | 0 <= i < |std| ensures std[i] == Digits(Sextets(bytes), StdDigit)[i] {
      assert std[i] == SwappedBack(v[i]);
    }
    assert std == Digits(Sextets(bytes), StdDigit);
    ValuesOfDigits(Sextets(bytes));
    AtobOfRepadded(std);
    BytesOfSextets(bytes);
  }

  /** The encoding is URL-safe text: no padding, no '.', and no length of 1 modulo 4. */
  lemma EncodedIsUrlSafe(bytes: seq<Byte>)
    ensures '=' !in UrlEncoded(bytes) && '.' !in UrlEncoded(bytes) && '+' !in UrlEncoded(bytes) && '/' !in UrlEncoded(bytes)
    ensures |UrlEncoded(bytes)| % 4 != 1
  {
    EncodedLength(bytes);
    forall x: Sextet ensures UrlDigit(x) != '=' && UrlDigit(x) != '.' && UrlDigit(x) != '+' && UrlDigit(x) != '/' {
      DigitFacts(x);
    }
  }

  /** Text of either alphabet, without whitespace or padding, decodes exactly when its length is possible. */
  lemma DecodesIff(value: string)
    requires forall c <- value :: StdValue(SwappedBack(c)).Some?
    ensures FromBase64Url(value).Some? <==> |value| % 4 != 1
  {
    var std := ReplaceAll(ReplaceAll(value, '-', '+'), '_', '/');
    forall c <- std ensures StdValue(c).Some? {
      var i :| 0 <= i < |std| && std[i] == c;
      assert value[i] in value && std[i] == SwappedBack(value[i]);
    }
    AtobOfRepadded(std);
  }

  // ---------------------------------------------------------------------------------------------
  // The encoding against section 4 and 5 of RFC 4648.
  // ---------------------------------------------------------------------------------------------

  /** The two alphabets: A to Z, a to z, 0 to 9, in order, and two digits more. */
  lemma AlphabetsAreStandard(v: Sextet)
    ensures StdDigit(0) == 'A' && StdDigit(25) == 'Z' && StdDigit(26) == 'a' && StdDigit(51) == 'z'
    ensures StdDigit(52) == '0' && StdDigit(61) == '9' && StdDigit(62) == '+' && StdDigit(63) == '/'
    ensures UrlDigit(62) == '-' && UrlDigit(63) == '_'
    ensures v < 61 && v != 25 && v != 51 ==> StdDigit(v + 1) as int == StdDigit(v) as int + 1
    ensures v < 62 ==> UrlDigit(v) == StdDigit(v)
  {
  }

  /** The number that digits spell, most significant first. */
  function Spelled(digits: seq<int>, base: int): int {
    if digits == [] then 0 else Spelled(digits[..|digits| - 1], base) * base + digits[|digits| - 1]
  }

  /** A group's sextets spell the same number as its bytes, a short one filled up with zero bits. */
  lemma GroupSpellsBytes(b: seq<Byte>)
    requires 1 <= |b| <= 3
    ensures Spelled(Group(b), 64) == Spelled(b, 256) * (if |b| == 3 then 1 else if |b| == 2 then 4 else 16)
  {
    var x: int := b[0];
    var s := Group(b);
    SpelledOut(s, 64);
    SpelledOut(b, 256);
    assert x == x / 4 * 4 + x % 4;
    if |b| > 1 { var y: int := b[1]; assert y == y / 16 * 16 + y % 16; }
    if |b| > 2 { var z: int := b[2]; assert z == z / 64 * 64 + z % 64; }
  }

  lemma SpelledOut(d: seq<int>, base: int)
    ensures |d| == 1 ==> Spelled(d, base) == d[0]
    ensures |d| == 2 ==> Spelled(d, base) == d[0] * base + d[1]
    ensures |d| == 3 ==> Spelled(d, base) == (d[0] * base + d[1]) * base + d[2]
    ensures |d| == 4 ==> Spelled(d, base) == ((d[0] * base + d[1]) * base + d[2]) * base + d[3]
  {
    if 1 <= |d| <= 4 {
      assert d[..1][..0] == [];
      if |d| > 1 { assert d[..2][..1] == d[..1]; }
      if |d| > 2 { assert d[..3][..2] == d[..2]; }
      if |d| > 3 { assert d[..4][..3] == d[..3]; }
      assert d[..|d|] == d;
    }
  }

  /** A character of neither alphabet, not whitespace and not '=', makes the decoding fail. */
  lemma ForeignCharacterFails(value: string, c: char)
    requires c in value && StdValue(SwappedBack(c)).None? && !IsWhitespace(c) && c != '='
    ensures FromBase64Url(value).None?
  {
    var std := ReplaceAll(ReplaceAll(value, '-', '+'), '_', '/');
    var i :| 0 <= i < |value| && value[i] == c;
    assert std[i] == c;
    var s := std + Pads(Repadding(|value|));
    assert s[i] == c;
    KeepsCharacter(s, c);
    KeptByDropPads(RemoveWhitespace(s), c);
  }

  lemma {:induction false} KeepsCharacter(s: string, c: char)
    requires c in s && !IsWhitespace(c)
    ensures c in RemoveWhitespace(s)
  {
    if s[0] != c { KeepsCharacter(s[1..], c); }
  }

  lemma KeptByDropPads(s: string, c: char)
    requires c in s && c != '='
    ensures c in DropPads(s)
  {
    var i :| 0 <= i < |s| && s[i] == c;
    assert i < |DropPads(s)| ==> DropPads(s)[i] == c;
  }
}
