/**
  Signing and verifying of outbound webhooks, app/services/webhooks/signature.ts. HMAC-SHA256 and
  JavaScript's conversions between numbers and text beyond plain decimals are parameters.
 */
module Signature {
  import opened Wrappers
  import opened Text

  type Digest = d: seq<Byte> | |d| == 32 witness seq(32, _ => 0)

  const MAX_SAFE_INTEGER := 0x1F_FFFF_FFFF_FFFF
  const DEFAULT_MAX_SKEW_SECONDS := 5 * 60

  /**
    `hmac(secret, payload)`; `number` is `Number(text)` where it is a finite integer and `show` the text
    of a number, both used only off the safe non-negative decimals.
   */
  datatype Platform = Platform(
    hmac: (string, string) -> Digest,
    number: string -> Option<int>,
    show: int -> string)

  datatype SignedHeaders = SignedHeaders(timestamp: int, signature: string, headerValue: string)

  datatype Parsed = Parsed(t: Option<int>, v1: Option<string>)

  datatype Reason = MissingHeader | MalformedHeader | TimestampOutOfWindow | SignatureMismatch

  datatype Verdict = Valid | Invalid(reason: Reason)

  // ---------------------------------------------------------------------------------------------
  // Numbers and hexadecimal text.
  // ---------------------------------------------------------------------------------------------

  predicate IsDigit(c: char) { '0' <= c <= '9' }

  predicate IsDecimal(s: string) { s != "" && forall c <- s :: IsDigit(c) }

  function Decimal(n: nat): (s: string)
    ensures IsDecimal(s)
  {
    var last := '0' + (n % 10) as char;
    if n < 10 then [last] else Decimal(n / 10) + [last]
  }

  function DecimalValue(s: string): nat
    requires forall c <- s :: IsDigit(c)
  {
    if s == "" then 0
    else
      assert IsDigit(s[|s| - 1]);
      10 * DecimalValue(s[..|s| - 1]) + (s[|s| - 1] as int - '0' as int)
  }

  predicate IsSafe(n: int) { 0 <= n <= MAX_SAFE_INTEGER }

  /** `Number(v)` where it is a finite integer. */
  function ToNumber(p: Platform, v: string): Option<int> {
    if IsDecimal(v) && IsSafe(DecimalValue(v)) then Some(DecimalValue(v)) else p.number(v)
  }

  /** The text of a number in a template literal. */
  function Shown(p: Platform, n: int): string { if IsSafe(n) then Decimal(n) else p.show(n) }

  function HexDigit(v: int): char
    requires 0 <= v < 16
  {
    if v < 10 then '0' + v as char else 'a' + (v - 10) as char
  }

  /** `b.toString(16)`. */
  function ToBase16(b: Byte): (s: string)
    ensures 1 <= |s| <= 2
  {
    if b < 16 then [HexDigit(b)] else [HexDigit(b / 16), HexDigit(b % 16)]
  }

  function PadStart(s: string, width: nat, c: char): string {
    if |s| >= width then s else seq(width - |s|, _ => c) + s
  }

  function Hex(bytes: seq<Byte>): string {
    if bytes == [] then "" else PadStart(ToBase16(bytes[0]), 2, '0') + Hex(bytes[1..])
  }

  /** The value of a hexadecimal digit of either case. */
  function HexValue(c: char): Option<int> {
    if '0' <= c <= '9' then Some(c as int - '0' as int)
    else if 'a' <= c <= 'f' then Some(c as int - 'a' as int + 10)
    else if 'A' <= c <= 'F' then Some(c as int - 'A' as int + 10)
    else None
  }

  predicate IsHex(s: string) { s != "" && forall c <- s :: HexValue(c).Some? }

  function ToLower(s: string): (r: string)
    ensures |r| == |s|
    ensures forall i | 0 <= i < |s| :: r[i] == if 'A' <= s[i] <= 'Z' then s[i] - 'A' + 'a' else s[i]
  {
    seq(|s|, i requires 0 <= i < |s| => if 'A' <= s[i] <= 'Z' then s[i] - 'A' + 'a' else s[i])
  }

  /** The bytes that a hexadecimal text denotes. */
  function HexBytes(s: string): Option<seq<int>> {
    if s == "" then Some([])
    else if |s| == 1 || HexValue(s[0]).None? || HexValue(s[1]).None? then None
    else
      match HexBytes(s[2..])
      case None => None
      case Some(rest) => Some([16 * HexValue(s[0]).value + HexValue(s[1]).value] + rest)
  }

  /** `a ^ b`, bit by bit. */
  function Xor(a: nat, b: nat): nat {
    if a == 0 && b == 0 then 0 else (if a % 2 == b % 2 then 0 else 1) + 2 * Xor(a / 2, b / 2)
  }

  /** `a | b`, bit by bit. */
  function Or(a: nat, b: nat): nat {
    if a == 0 && b == 0 then 0 else (if a % 2 == 0 && b % 2 == 0 then 0 else 1) + 2 * Or(a / 2, b / 2)
  }

  lemma {:induction false} XorIsZeroIff(a: nat, b: nat)
    ensures Xor(a, b) == 0 <==> a == b
  {
    if a != 0 || b != 0 { XorIsZeroIff(a / 2, b / 2); }
  }

  lemma {:induction false} OrIsZeroIff(a: nat, b: nat)
    ensures Or(a, b) == 0 <==> a == 0 && b == 0
  {
    if a != 0 || b != 0 { OrIsZeroIff(a / 2, b / 2); }
  }

  // ---------------------------------------------------------------------------------------------
  // Reading a header.
  // ---------------------------------------------------------------------------------------------

  /** What one comma-separated part says. */
  datatype Reading = Bad | Time(n: int) | Mac(hex: string) | Other

  function Classified(p: Platform, key: string, value: string): Reading {
    if key == "t" then
      match ToNumber(p, value) case Some(n) => Time(n) case None => Bad
    else if key == "v1" then
      if IsHex(value) then Mac(ToLower(value)) else Bad
    else Other
  }

  /** A part cut at its first '=' into key and value. */
  function Cut(part: string): Option<(string, string)> {
    var text := Trim(part);
    var eq := IndexOf(text, '=');
    if eq == |text| then None else Some((Trim(text[..eq]), Trim(text[eq + 1..])))
  }

  function Read(p: Platform, part: string): Reading {
    match Cut(part)
    case None => Bad
    case Some((key, value)) => Classified(p, key, value)
  }

  function Noted(parsed: Parsed, reading: Reading): Parsed {
    match reading
    case Time(n) => parsed.(t := Some(n))
    case Mac(hex) => parsed.(v1 := Some(hex))
    case _ => parsed
  }

  function ReadAll(p: Platform, parts: seq<string>): Option<Parsed> {
    if parts == [] then Some(Parsed(None, None))
    else
      var last := Read(p, parts[|parts| - 1]);
      match ReadAll(p, parts[..|parts| - 1])
      case None => None
      case Some(parsed) => if last.Bad? then None else Some(Noted(parsed, last))
  }

  function ParsedHeader(p: Platform, value: Option<string>): Option<Parsed> {
    if value.None? || value.value == "" then None else ReadAll(p, Split(value.value, ','))
  }

  function Signed(p: Platform, secret: string, body: string, timestamp: int): SignedHeaders {
    var signature := Hex(p.hmac(secret, Payload(p, timestamp, body)));
    SignedHeaders(timestamp, signature, "t=" + Shown(p, timestamp) + ",v1=" + signature)
  }

  function Payload(p: Platform, timestamp: int, body: string): string { Shown(p, timestamp) + "." + body }

  function Skew(nowMs: int, timestamp: int): nat {
    var d := nowMs / 1000 - timestamp;
    if d < 0 then -d else d
  }

  function Verified(p: Platform, secret: string, body: string, header: Option<string>, nowMs: int, maxSkew: int): Verdict {
    if header.None? || header.value == "" then Invalid(MissingHeader)
    else
      match ParsedHeader(p, header)
      case Some(Parsed(Some(t), Some(v1))) =>
        if Skew(nowMs, t) > maxSkew then Invalid(TimestampOutOfWindow)
        else if Hex(p.hmac(secret, Payload(p, t, body))) != v1 then Invalid(SignatureMismatch)
        else Valid
      case _ => Invalid(MalformedHeader)
  }

  // ---------------------------------------------------------------------------------------------
  // The code's loops.
  // ---------------------------------------------------------------------------------------------

  method ToHex(bytes: seq<Byte>) returns (out: string)
    ensures out == Hex(bytes)
  {
    out := "";
    for i := 0 to |bytes|
      invariant out + Hex(bytes[i..]) == Hex(bytes)
    {
      var digits := PadStart(ToBase16(bytes[i]), 2, '0');
      assert bytes[i..][1..] == bytes[i + 1..];
      assert out + (digits + Hex(bytes[i + 1..])) == out + digits + Hex(bytes[i + 1..]);
      out := out + digits;
    }
  }

  method ParseHeader(p: Platform, value: Option<string>) returns (r: Option<Parsed>)
    ensures r == ParsedHeader(p, value)
  {
    if value.None? || value.value == "" { return None; }
    var parts := Split(value.value, ',');
    var parsed := Parsed(None, None);
    for i := 0 to |parts|
      invariant ReadAll(p, parts[..i]) == Some(parsed)
    {
      ReadNext(p, parts, i, parsed);
      var part := Trim(parts[i]);
      var eq := IndexOf(part, '=');
      if eq == |part| { return None; }
      var k, v := Trim(part[..eq]), Trim(part[eq + 1..]);
      NotedField(p, parsed, k, v);
      if k == "t" {
        var n := ToNumber(p, v);
        if n.None? { return None; }
        parsed := parsed.(t := n);
      } else if k == "v1" {
        if !IsHex(v) { return None; }
        parsed := parsed.(v1 := Some(ToLower(v)));
      }
    }
    assert parts[..|parts|] == parts;
    r := Some(parsed);
  }

  /** Never leaves the loop early on content; the accumulated differences decide equality. */
  method TimingSafeEqualHex(a: string, b: string) returns (equal: bool)
    ensures equal <==> a == b
  {
    if |a| != |b| { return false; }
    var diff: nat := 0;
    for i := 0 to |a|
      invariant diff == 0 <==> a[..i] == b[..i]
    {
      assert a[..i + 1] == a[..i] + [a[i]] && b[..i + 1] == b[..i] + [b[i]];
      XorIsZeroIff(a[i] as nat, b[i] as nat);
      OrIsZeroIff(diff, Xor(a[i] as nat, b[i] as nat));
      diff := Or(diff, Xor(a[i] as nat, b[i] as nat));
    }
    assert a[..|a|] == a && b[..|b|] == b;
    equal := diff == 0;
  }

  method SignWebhook(p: Platform, secret: string, body: string, timestamp: int) returns (r: SignedHeaders)
    ensures r == Signed(p, secret, body, timestamp)
    ensures var shown := if 0 <= timestamp <= 9_007_199_254_740_991 then Decimal(timestamp) else p.show(timestamp);
            && r.timestamp == timestamp && r.headerValue == "t=" + shown + ",v1=" + r.signature
            && HexBytes(r.signature) == Some(p.hmac(secret, shown + "." + body))
  {
    HexReadsBack(p.hmac(secret, Payload(p, timestamp, body)));
    var signature := ToHex(p.hmac(secret, Payload(p, timestamp, body)));
    r := SignedHeaders(timestamp, signature, "t=" + Shown(p, timestamp) + ",v1=" + signature);
  }

  method VerifyWebhookSignature(p: Platform, secret: string, body: string, header: Option<string>, nowMs: int,
                                maxSkewSeconds: Option<int>) returns (r: Verdict)
    ensures r == Verified(p, secret, body, header, nowMs, maxSkewSeconds.GetOr(300))
  {
    var parsed := ParseHeader(p, header);
    if header.None? || header.value == "" { return Invalid(MissingHeader); }
    if parsed.None? || parsed.value.t.None? || parsed.value.v1.None? { return Invalid(MalformedHeader); }
    var t, v1 := parsed.value.t.value, parsed.value.v1.value;
    if Skew(nowMs, t) > maxSkewSeconds.GetOr(DEFAULT_MAX_SKEW_SECONDS) { return Invalid(TimestampOutOfWindow); }
    var expected := ToHex(p.hmac(secret, Payload(p, t, body)));
    var equal := TimingSafeEqualHex(expected, v1);
    r := if equal then Valid else Invalid(SignatureMismatch);
  }

  /** What one field does to the result so far. */
  lemma NotedField(p: Platform, parsed: Parsed, k: string, v: string)
    ensures var reading := Classified(p, k, v);
            && (reading.Bad? <==> (k == "t" && ToNumber(p, v).None?) || (k == "v1" && !IsHex(v)))
            && (!reading.Bad? ==> Noted(parsed, reading) == parsed.(
                  t := if k == "t" then ToNumber(p, v) else parsed.t,
                  v1 := if k == "v1" then Some(ToLower(v)) else parsed.v1))
  {
  }

  lemma ReadNext(p: Platform, parts: seq<string>, i: nat, parsed: Parsed)
    requires i < |parts| && ReadAll(p, parts[..i]) == Some(parsed)
    ensures var reading := Read(p, parts[i]);
            if reading.Bad? then ReadAll(p, parts).None? else ReadAll(p, parts[..i + 1]) == Some(Noted(parsed, reading))
  {
    BadPartSpoils(p, parts, i);
    assert parts[..i + 1][..i] == parts[..i];
  }

  lemma {:induction false} BadPartSpoils(p: Platform, parts: seq<string>, i: nat)
    requires i < |parts|
    ensures Read(p, parts[i]).Bad? ==> ReadAll(p, parts).None?
    decreases |parts|
  {
    var front := parts[..|parts| - 1];
    if i < |front| {
      BadPartSpoils(p, front, i);
      assert front[i] == parts[i];
    }
  }

  // ---------------------------------------------------------------------------------------------
  // Numbers and digests read back.
  // ---------------------------------------------------------------------------------------------

  lemma {:induction false} DecimalReadsBack(n: nat)
    ensures DecimalValue(Decimal(n)) == n
  {
    var s := Decimal(n);
    var last := '0' + (n % 10) as char;
    assert last as int - '0' as int == n % 10;
    if n < 10 {
      assert s[..0] == "";
    } else {
      DecimalReadsBack(n / 10);
      assert s[..|s| - 1] == Decimal(n / 10);
    }
  }

  lemma SafeNumberReadsBack(p: Platform, n: int)
    requires IsSafe(n)
    ensures ToNumber(p, Shown(p, n)) == Some(n)
  {
    DecimalReadsBack(n);
  }

  lemma HexDigitReadsBack(v: int)
    requires 0 <= v < 16
    ensures HexValue(HexDigit(v)) == Some(v) && !('A' <= HexDigit(v) <= 'Z')
  {
  }

  /** `padStart` makes it two digits whatever the byte. */
  lemma TwoDigits(b: Byte)
    ensures PadStart(ToBase16(b), 2, '0') == [HexDigit(b / 16), HexDigit(b % 16)]
  {
  }

  lemma ByteReadsBack(b: Byte)
    ensures var s := PadStart(ToBase16(b), 2, '0');
      |s| == 2 && HexValue(s[0]) == Some(b / 16) && HexValue(s[1]) == Some(b % 16)
      && ToLower(s) == s
  {
    TwoDigits(b);
    HexDigitReadsBack(b / 16);
    HexDigitReadsBack(b % 16);
  }

  lemma BytesOfTwoDigits(front: string, rest: string)
    requires |front| == 2 && HexValue(front[0]).Some? && HexValue(front[1]).Some?
    ensures HexBytes(front + rest).Some? == HexBytes(rest).Some?
    ensures HexBytes(rest).Some? ==>
      HexBytes(front + rest).value == [16 * HexValue(front[0]).value + HexValue(front[1]).value] + HexBytes(rest).value
  {
    assert (front + rest)[2..] == rest;
  }

  /** toHex is read back by any reader of hexadecimal text; it is lower case, two digits a byte. */
  lemma {:induction false} HexReadsBack(bytes: seq<Byte>)
    ensures HexBytes(Hex(bytes)) == Some(bytes)
    ensures |Hex(bytes)| == 2 * |bytes| && ToLower(Hex(bytes)) == Hex(bytes)
    ensures forall c <- Hex(bytes) :: HexValue(c).Some?
  {
    if bytes != [] {
      ByteReadsBack(bytes[0]);
      HexReadsBack(bytes[1..]);
      var front := PadStart(ToBase16(bytes[0]), 2, '0');
      BytesOfTwoDigits(front, Hex(bytes[1..]));
      assert 16 * (bytes[0] / 16) + bytes[0] % 16 == bytes[0];
      assert bytes == [bytes[0]] + bytes[1..];
      LowerConcat(front, Hex(bytes[1..]));
    }
  }

  lemma LowerConcat(a: string, b: string)
    ensures ToLower(a + b) == ToLower(a) + ToLower(b)
  {
  }

  lemma LowerDigit(c: char)
    requires HexValue(c).Some?
    ensures var l := if 'A' <= c <= 'Z' then c - 'A' + 'a' else c;
      HexValue(l) == HexValue(c) && HexDigit(HexValue(c).value) == l
  {
  }

  lemma LowerPair(pair: string, b: Byte)
    requires |pair| == 2 && HexValue(pair[0]).Some? && HexValue(pair[1]).Some?
    requires b == 16 * HexValue(pair[0]).value + HexValue(pair[1]).value
    ensures PadStart(ToBase16(b), 2, '0') == ToLower(pair)
  {
    LowerDigit(pair[0]);
    LowerDigit(pair[1]);
    TwoDigits(b);
    assert b / 16 == HexValue(pair[0]).value && b % 16 == HexValue(pair[1]).value;
  }

  /** Conversely, hexadecimal text of either case lower-cases to toHex of the bytes it denotes. */
  lemma {:induction false} HexOfHexBytes(s: string, bytes: seq<Byte>)
    requires HexBytes(s) == Some(bytes)
    ensures ToLower(s) == Hex(bytes)
  {
    if s != "" {
      HexBytesHead(s);
      assert bytes[1..] == HexBytes(s[2..]).value;
      HexOfHexBytes(s[2..], bytes[1..]);
      LowerPair(s[..2], bytes[0]);
      assert s == s[..2] + s[2..];
      LowerConcat(s[..2], s[2..]);
    }
  }

  lemma HexBytesHead(s: string)
    requires s != "" && HexBytes(s).Some?
    ensures |s| >= 2 && HexValue(s[0]).Some? && HexValue(s[1]).Some? && HexBytes(s[2..]).Some?
    ensures HexBytes(s).value == [16 * HexValue(s[0]).value + HexValue(s[1]).value] + HexBytes(s[2..]).value
  {
  }

  lemma HexIsInjective(a: seq<Byte>, b: seq<Byte>)
    requires Hex(a) == Hex(b)
    ensures a == b
  {
    HexReadsBack(a);
    HexReadsBack(b);
  }

  // ---------------------------------------------------------------------------------------------
  // What a header says, whatever its layout.
  // ---------------------------------------------------------------------------------------------

  /** A header is rejected exactly when a part is bad; otherwise the last time and the last mac stand. */
  lemma {:induction false} LastOneWins(p: Platform, parts: seq<string>)
    ensures ReadAll(p, parts).Some? <==> forall part <- parts :: !Read(p, part).Bad?
    ensures ReadAll(p, parts).Some? ==> IsLastTime(p, parts, ReadAll(p, parts).value.t)
    ensures ReadAll(p, parts).Some? ==> IsLastMac(p, parts, ReadAll(p, parts).value.v1)
  {
    if parts != [] {
      var k := |parts| - 1;
      var front, last := parts[..k], parts[k];
      LastOneWins(p, front);
      assert parts == front + [last];
      if ReadAll(p, parts).Some? {
        LastTimeExtends(p, front, last, ReadAll(p, front).value.t);
        LastMacExtends(p, front, last, ReadAll(p, front).value.v1);
      }
    }
  }

  ghost predicate IsLastTime(p: Platform, parts: seq<string>, t: Option<int>) {
    match t
    case None => forall part <- parts :: !Read(p, part).Time?
    case Some(n) =>
      exists i: nat :: i < |parts| && Read(p, parts[i]) == Time(n)
        && forall j: nat | i < j < |parts| :: !Read(p, parts[j]).Time?
  }

  ghost predicate IsLastMac(p: Platform, parts: seq<string>, v1: Option<string>) {
    match v1
    case None => forall part <- parts :: !Read(p, part).Mac?
    case Some(hex) =>
      exists i: nat :: i < |parts| && Read(p, parts[i]) == Mac(hex)
        && forall j: nat | i < j < |parts| :: !Read(p, parts[j]).Mac?
  }

  lemma LastTimeExtends(p: Platform, front: seq<string>, last: string, t: Option<int>)
    requires IsLastTime(p, front, t)
    ensures IsLastTime(p, front + [last], if Read(p, last).Time? then Some(Read(p, last).n) else t)
  {
    var parts := front + [last];
    assert parts[|front|] == last;
    if !Read(p, last).Time? && t.Some? {
      var i: nat :| i < |front| && Read(p, front[i]) == Time(t.value)
        && forall j: nat | i < j < |front| :: !Read(p, front[j]).Time?;
      assert parts[i] == front[i];
    }
  }

  lemma LastMacExtends(p: Platform, front: seq<string>, last: string, v1: Option<string>)
    requires IsLastMac(p, front, v1)
    ensures IsLastMac(p, front + [last], if Read(p, last).Mac? then Some(Read(p, last).hex) else v1)
  {
    var parts := front + [last];
    assert parts[|front|] == last;
    if !Read(p, last).Mac? && v1.Some? {
      var i: nat :| i < |front| && Read(p, front[i]) == Mac(v1.value)
        && forall j: nat | i < j < |front| :: !Read(p, front[j]).Mac?;
      assert parts[i] == front[i];
    }
  }

  /** A key and a value with whitespace anywhere around them. */
  lemma PaddedPartReads(p: Platform, w0: string, key: string, w1: string, w2: string, value: string, w3: string)
    requires AllWhitespace(w0) && AllWhitespace(w1) && AllWhitespace(w2) && AllWhitespace(w3)
    requires key != "" && value != "" && Trimmed(key) && Trimmed(value) && '=' !in key
    ensures Read(p, w0 + (key + w1 + ['='] + (w2 + value)) + w3) == Classified(p, key, value)
  {
    var left, right := key + w1, w2 + value;
    CoreIsTrimmed(key, w1, w2, value);
    TrimRemovesPadding(w0, left + ['='] + right, w3);
    assert !IsWhitespace('=');
    CutCore(w0 + (left + ['='] + right) + w3, left, right);
    TrimLeft(key, w1);
    TrimRight(w2, value);
  }

  lemma CoreIsTrimmed(key: string, w1: string, w2: string, value: string)
    requires key != "" && value != "" && Trimmed(key) && Trimmed(value)
    ensures Trimmed(key + w1 + ['='] + (w2 + value))
  {
    var core := key + w1 + ['='] + (w2 + value);
    assert core[0] == key[0] && core[|core| - 1] == value[|value| - 1];
  }

  lemma CutCore(part: string, left: string, right: string)
    requires Trim(part) == left + ['='] + right && '=' !in left
    ensures Cut(part) == Some((Trim(left), Trim(right)))
  {
    var core := left + ['='] + right;
    IndexOfJoined(left, '=', right);
    assert core[..|left|] == left && core[|left| + 1..] == right;
  }

  lemma TrimLeft(key: string, w: string)
    requires Trimmed(key) && AllWhitespace(w)
    ensures Trim(key + w) == key
  {
    assert "" + key + w == key + w;
    TrimRemovesPadding("", key, w);
  }

  lemma TrimRight(w: string, value: string)
    requires Trimmed(value) && AllWhitespace(w)
    ensures Trim(w + value) == value
  {
    assert w + value + "" == w + value;
    TrimRemovesPadding(w, value, "");
  }

  predicate PartTells(reading: Reading, t: int, hex: string) {
    match reading
    case Bad => false
    case Time(n) => n == t
    case Mac(h) => h == hex
    case Other => true
  }

  /** Every part is of another scheme, tells this time or tells this mac, and both are told. */
  predicate Tells(p: Platform, parts: seq<string>, t: int, hex: string) {
    && (forall i | 0 <= i < |parts| :: ',' !in parts[i] && PartTells(Read(p, parts[i]), t, hex))
    && (exists i | 0 <= i < |parts| :: Read(p, parts[i]).Time?)
    && (exists i | 0 <= i < |parts| :: Read(p, parts[i]).Mac?)
  }

  lemma TimeTold(p: Platform, parts: seq<string>, t: int, hex: string, found: Option<int>)
    requires Tells(p, parts, t, hex) && IsLastTime(p, parts, found)
    ensures found == Some(t)
  {
  }

  lemma MacTold(p: Platform, parts: seq<string>, t: int, hex: string, found: Option<string>)
    requires Tells(p, parts, t, hex) && IsLastMac(p, parts, found)
    ensures found == Some(hex)
  {
    var i :| 0 <= i < |parts| && Read(p, parts[i]).Mac?;
    assert parts[i] in parts;
  }

  lemma TellsSomething(p: Platform, parts: seq<string>, t: int, hex: string)
    requires Tells(p, parts, t, hex)
    ensures parts != [] && Split(Join(parts, ','), ',') == parts && Join(parts, ',') != ""
  {
    SplitInvertsJoin(parts, ',');
    EmptyIsBad(p);
    assert Split("", ',') == [""];
    assert PartTells(Read(p, parts[0]), t, hex);
  }

  lemma EmptyIsBad(p: Platform)
    ensures Read(p, "").Bad?
  {
  }

  /** Order, repetition and unknown parts do not matter: such parts are read as the pair they tell. */
  lemma LayoutIsIgnored(p: Platform, parts: seq<string>, t: int, hex: string)
    requires Tells(p, parts, t, hex)
    ensures parts != [] && ParsedHeader(p, Some(Join(parts, ','))) == Some(Parsed(Some(t), Some(hex)))
  {
    TellsSomething(p, parts, t, hex);
    LastOneWins(p, parts);
    forall part <- parts ensures !Read(p, part).Bad? {
      var i :| 0 <= i < |parts| && parts[i] == part;
      assert PartTells(Read(p, parts[i]), t, hex);
    }
    var read := ReadAll(p, parts).value;
    TimeTold(p, parts, t, hex, read.t);
    MacTold(p, parts, t, hex, read.v1);
  }

  /** The printed header is such a header. */
  lemma PrintedHeaderTells(p: Platform, secret: string, body: string, timestamp: int)
    requires IsSafe(timestamp)
    ensures var s := Signed(p, secret, body, timestamp);
      Tells(p, ["t=" + Decimal(timestamp), "v1=" + s.signature], timestamp, s.signature)
      && s.headerValue == Join(["t=" + Decimal(timestamp), "v1=" + s.signature], ',')
  {
    var signature := Signed(p, secret, body, timestamp).signature;
    var time, mac := "t=" + Decimal(timestamp), "v1=" + signature;
    HexReadsBack(p.hmac(secret, Payload(p, timestamp, body)));
    PlainPart("t", Decimal(timestamp));
    TimePartReads(p, "", "", "", "", timestamp);
    PlainPart("v1", signature);
    MacPartReads(p, "", "", "", "", signature);
    PrintedParts(Decimal(timestamp), signature);
    BothOrdersTell(p, time, mac, timestamp, signature);
  }

  lemma PlainPart(key: string, value: string)
    ensures "" + (key + "" + ['='] + ("" + value)) + "" == key + "=" + value
  {
  }

  lemma PrintedParts(time: string, mac: string)
    ensures "t" + "=" + time == "t=" + time && "v1" + "=" + mac == "v1=" + mac
    ensures "t=" + time + ",v1=" + mac == Join(["t=" + time, "v1=" + mac], ',')
  {
    JoinTwo("t=" + time, "v1=" + mac);
    var head := "t=" + time;
    assert "," + ("v1=" + mac) == ",v1=" + mac;
    assert head + "," + ("v1=" + mac) == head + ("," + ("v1=" + mac));
    assert head + ",v1=" + mac == head + (",v1=" + mac);
  }

  lemma JoinTwo(a: string, b: string)
    ensures Join([a, b], ',') == a + "," + b
  {
  }

  lemma DigitsAreClean(s: string)
    requires IsDecimal(s)
    ensures Trimmed(s) && ',' !in s && '.' !in s
  {
    assert IsDigit(s[0]) && IsDigit(s[|s| - 1]);
  }

  lemma HexIsClean(s: string)
    requires forall c <- s :: HexValue(c).Some?
    ensures Trimmed(s) && ',' !in s
  {
    if s != "" { assert HexValue(s[0]).Some? && HexValue(s[|s| - 1]).Some?; }
  }

  // ---------------------------------------------------------------------------------------------
  // Signing and verifying.
  // ---------------------------------------------------------------------------------------------

  /** What `signWebhook` printed verifies exactly inside the window. */
  lemma SignedHeaderVerifiesIff(p: Platform, secret: string, body: string, timestamp: int, nowMs: int, maxSkew: int)
    requires IsSafe(timestamp)
    ensures Verified(p, secret, body, Some(Signed(p, secret, body, timestamp).headerValue), nowMs, maxSkew)
         == if Skew(nowMs, timestamp) <= maxSkew then Valid else Invalid(TimestampOutOfWindow)
  {
    PrintedHeaderTells(p, secret, body, timestamp);
    var signature := Signed(p, secret, body, timestamp).signature;
    RewrittenHeaderVerifiesIff(p, secret, body, timestamp, ["t=" + Decimal(timestamp), "v1=" + signature], nowMs, maxSkew);
  }

  /** So does any other layout that tells the same time and the same mac. */
  lemma RewrittenHeaderVerifiesIff(p: Platform, secret: string, body: string, timestamp: int, parts: seq<string>,
                                   nowMs: int, maxSkew: int)
    requires Tells(p, parts, timestamp, Signed(p, secret, body, timestamp).signature)
    ensures parts != [] && Verified(p, secret, body, Some(Join(parts, ',')), nowMs, maxSkew)
         == if Skew(nowMs, timestamp) <= maxSkew then Valid else Invalid(TimestampOutOfWindow)
  {
    LayoutIsIgnored(p, parts, timestamp, Signed(p, secret, body, timestamp).signature);
    VerdictOnPair(p, secret, body, Some(Join(parts, ',')), timestamp, Signed(p, secret, body, timestamp).signature,
                  nowMs, maxSkew);
  }

  /** A time and a mac in any order, with any whitespace and in either hex case, are one such layout. */
  lemma PaddingAndCaseAreIgnored(p: Platform, w: seq<string>, hex: string, secret: string, body: string,
                                 timestamp: int, nowMs: int, maxSkew: int)
    requires |w| == 8 && forall s <- w :: AllWhitespace(s)
    requires IsSafe(timestamp) && HexBytes(hex) == Some(p.hmac(secret, Payload(p, timestamp, body)))
    ensures var time := w[0] + ("t" + w[1] + ['='] + (w[2] + Decimal(timestamp))) + w[3];
      var mac := w[4] + ("v1" + w[5] + ['='] + (w[6] + hex)) + w[7];
      var verdict := if Skew(nowMs, timestamp) <= maxSkew then Valid else Invalid(TimestampOutOfWindow);
      Verified(p, secret, body, Some(Join([time, mac], ',')), nowMs, maxSkew) == verdict
      && Verified(p, secret, body, Some(Join([mac, time], ',')), nowMs, maxSkew) == verdict
  {
    var digest := p.hmac(secret, Payload(p, timestamp, body));
    var signature := Hex(digest);
    HexOfHexBytes(hex, digest);
    HexReadsBack(digest);
    LowerKeepsHex(hex);
    var time := w[0] + ("t" + w[1] + ['='] + (w[2] + Decimal(timestamp))) + w[3];
    var mac := w[4] + ("v1" + w[5] + ['='] + (w[6] + hex)) + w[7];
    TimePartReads(p, w[0], w[1], w[2], w[3], timestamp);
    MacPartReads(p, w[4], w[5], w[6], w[7], hex);
    BothOrdersTell(p, time, mac, timestamp, signature);
    RewrittenHeaderVerifiesIff(p, secret, body, timestamp, [time, mac], nowMs, maxSkew);
    RewrittenHeaderVerifiesIff(p, secret, body, timestamp, [mac, time], nowMs, maxSkew);
  }

  lemma LowerKeepsHex(s: string)
    requires forall c <- ToLower(s) :: HexValue(c).Some?
    ensures forall c <- s :: HexValue(c).Some?
  {
    forall c <- s ensures HexValue(c).Some? {
      var i :| 0 <= i < |s| && s[i] == c;
      assert ToLower(s)[i] in ToLower(s);
    }
  }

  lemma WhitespaceIsClean(w: string)
    requires AllWhitespace(w)
    ensures ',' !in w
  {
  }

  lemma TimePartReads(p: Platform, w0: string, w1: string, w2: string, w3: string, n: int)
    requires AllWhitespace(w0) && AllWhitespace(w1) && AllWhitespace(w2) && AllWhitespace(w3) && IsSafe(n)
    ensures var time := w0 + ("t" + w1 + ['='] + (w2 + Decimal(n))) + w3;
      ',' !in time && Read(p, time) == Time(n)
  {
    DigitsAreClean(Decimal(n));
    SafeNumberReadsBack(p, n);
    PaddedPartReads(p, w0, "t", w1, w2, Decimal(n), w3);
    WhitespaceIsClean(w0); WhitespaceIsClean(w1); WhitespaceIsClean(w2); WhitespaceIsClean(w3);
  }

  lemma MacPartReads(p: Platform, w0: string, w1: string, w2: string, w3: string, hex: string)
    requires AllWhitespace(w0) && AllWhitespace(w1) && AllWhitespace(w2) && AllWhitespace(w3) && IsHex(hex)
    ensures var mac := w0 + ("v1" + w1 + ['='] + (w2 + hex)) + w3;
      ',' !in mac && Read(p, mac) == Mac(ToLower(hex))
  {
    HexIsClean(hex);
    PaddedPartReads(p, w0, "v1", w1, w2, hex, w3);
    WhitespaceIsClean(w0); WhitespaceIsClean(w1); WhitespaceIsClean(w2); WhitespaceIsClean(w3);
  }

  lemma BothOrdersTell(p: Platform, time: string, mac: string, t: int, hex: string)
    requires ',' !in time && ',' !in mac && Read(p, time) == Time(t) && Read(p, mac) == Mac(hex)
    ensures Tells(p, [time, mac], t, hex) && Tells(p, [mac, time], t, hex)
  {
    var one, two := [time, mac], [mac, time];
    assert one[0] == time && one[1] == mac && two[0] == mac && two[1] == time;
  }

  /** Timestamp and body can be read off the signed payload. */
  lemma PayloadIsInjective(p: Platform, t1: int, b1: string, t2: int, b2: string)
    requires IsSafe(t1) && IsSafe(t2) && Payload(p, t1, b1) == Payload(p, t2, b2)
    ensures t1 == t2 && b1 == b2
  {
    var d1, d2 := Decimal(t1), Decimal(t2);
    DigitsAreClean(d1);
    DigitsAreClean(d2);
    assert Payload(p, t1, b1) == d1 + ['.'] + b1 && Payload(p, t2, b2) == d2 + ['.'] + b2;
    IndexOfJoined(d1, '.', b1);
    IndexOfJoined(d2, '.', b2);
    assert d1 == (d1 + ['.'] + b1)[..|d1|] == d2;
    assert b1 == (d1 + ['.'] + b1)[|d1| + 1..] == (d2 + ['.'] + b2)[|d2| + 1..] == b2;
    DecimalReadsBack(t1);
    DecimalReadsBack(t2);
  }

  /** A header verifies exactly when it is fresh and its mac denotes the HMAC of its own time and this body. */
  lemma VerifiesIff(p: Platform, secret: string, body: string, header: Option<string>, nowMs: int, maxSkew: int)
    ensures Verified(p, secret, body, header, nowMs, maxSkew).Valid? <==>
      exists t: int, v1: string ::
        ParsedHeader(p, header) == Some(Parsed(Some(t), Some(v1))) && Skew(nowMs, t) <= maxSkew
        && HexBytes(v1) == Some(p.hmac(secret, Payload(p, t, body)))
  {
    var parsed := ParsedHeader(p, header);
    if parsed.Some? && parsed.value.t.Some? && parsed.value.v1.Some? {
      var t, v1 := parsed.value.t.value, parsed.value.v1.value;
      var digest := p.hmac(secret, Payload(p, t, body));
      HexReadsBack(digest);
      if HexBytes(v1) == Some(digest) {
        HexOfHexBytes(v1, digest);
        MacsAreLowerCase(p, Split(header.value, ','));
      }
      assert parsed == Some(Parsed(Some(t), Some(v1)));
    }
  }

  lemma {:induction false} MacsAreLowerCase(p: Platform, parts: seq<string>)
    requires ReadAll(p, parts).Some? && ReadAll(p, parts).value.v1.Some?
    ensures var v1 := ReadAll(p, parts).value.v1.value; ToLower(v1) == v1
  {
    var last := |parts| - 1;
    if !Read(p, parts[last]).Mac? { MacsAreLowerCase(p, parts[..last]); }
  }

  /**
    A digest captured with one (timestamp, body) and accepted under another timestamp or body is an
    HMAC collision: restamping a captured delivery cannot verify otherwise.
   */
  lemma ReplayNeedsACollision(p: Platform, secret: string, t1: int, b1: string, t2: int, b2: string, parts: seq<string>,
                              nowMs: int, maxSkew: int)
    requires IsSafe(t1) && IsSafe(t2) && (t1 != t2 || b1 != b2)
    requires Tells(p, parts, t2, Signed(p, secret, b1, t1).signature)
    requires parts != [] && Verified(p, secret, b2, Some(Join(parts, ',')), nowMs, maxSkew).Valid?
    ensures Payload(p, t1, b1) != Payload(p, t2, b2)
    ensures p.hmac(secret, Payload(p, t1, b1)) == p.hmac(secret, Payload(p, t2, b2))
  {
    if Payload(p, t1, b1) == Payload(p, t2, b2) { PayloadIsInjective(p, t1, b1, t2, b2); }
    AcceptedMacIsTheHmac(p, secret, b2, parts, t2, Signed(p, secret, b1, t1).signature, nowMs, maxSkew);
    HexIsInjective(p.hmac(secret, Payload(p, t1, b1)), p.hmac(secret, Payload(p, t2, b2)));
  }

  lemma AcceptedMacIsTheHmac(p: Platform, secret: string, body: string, parts: seq<string>, t: int, hex: string,
                             nowMs: int, maxSkew: int)
    requires Tells(p, parts, t, hex)
    requires parts != [] && Verified(p, secret, body, Some(Join(parts, ',')), nowMs, maxSkew).Valid?
    ensures hex == Hex(p.hmac(secret, Payload(p, t, body)))
  {
    LayoutIsIgnored(p, parts, t, hex);
    VerdictOnPair(p, secret, body, Some(Join(parts, ',')), t, hex, nowMs, maxSkew);
  }

  /** The verdict on a header that says a time and a mac. */
  lemma VerdictOnPair(p: Platform, secret: string, body: string, header: Option<string>, t: int, v1: string,
                      nowMs: int, maxSkew: int)
    requires ParsedHeader(p, header) == Some(Parsed(Some(t), Some(v1)))
    ensures Verified(p, secret, body, header, nowMs, maxSkew)
         == if Skew(nowMs, t) > maxSkew then Invalid(TimestampOutOfWindow)
            else if Hex(p.hmac(secret, Payload(p, t, body))) != v1 then Invalid(SignatureMismatch)
            else Valid
  {
  }

  // ---------------------------------------------------------------------------------------------
  // When each answer is given.
  // ---------------------------------------------------------------------------------------------

  /** The window is two-sided, around the clock in whole seconds. */
  lemma WindowIs(nowMs: int, t: int, maxSkew: int)
    ensures Skew(nowMs, t) <= maxSkew <==> t - maxSkew <= nowMs / 1000 <= t + maxSkew
  {
  }

  /** The header says this time and this mac. */
  ghost predicate Says(p: Platform, header: Option<string>, t: int, v1: string) {
    ParsedHeader(p, header) == Some(Parsed(Some(t), Some(v1)))
  }

  /** A time is any text that denotes an integer: a safe decimal by its digits, anything else as the platform reads it. */
  lemma TimeIs(p: Platform, v: string)
    ensures v != "" && (forall c <- v :: '0' <= c <= '9') ==>
              (DecimalValue(v) <= 9_007_199_254_740_991 ==> ToNumber(p, v) == Some(DecimalValue(v)))
              && (DecimalValue(v) > 9_007_199_254_740_991 ==> ToNumber(p, v) == p.number(v))
    ensures v == "" || (exists c <- v :: !('0' <= c <= '9')) ==> ToNumber(p, v) == p.number(v)
  {
  }

  /** All five answers, by what the header says, the clock in whole seconds and the HMAC. */
  lemma AnswersIff(p: Platform, secret: string, body: string, header: Option<string>, nowMs: int, maxSkew: int)
    ensures var r := Verified(p, secret, body, header, nowMs, maxSkew);
            && (r == Invalid(MissingHeader) <==> header.None? || header.value == "")
            && (r == Invalid(MalformedHeader) <==>
                  header.Some? && header.value != "" && forall t, v1 :: !Says(p, header, t, v1))
            && (r == Invalid(TimestampOutOfWindow) <==>
                  exists t, v1 :: Says(p, header, t, v1) && !(t - maxSkew <= nowMs / 1000 <= t + maxSkew))
            && (r == Invalid(SignatureMismatch) <==>
                  exists t, v1 :: Says(p, header, t, v1) && t - maxSkew <= nowMs / 1000 <= t + maxSkew
                    && HexBytes(v1) != Some(p.hmac(secret, Payload(p, t, body))))
            && (r == Valid <==>
                  exists t, v1 :: Says(p, header, t, v1) && t - maxSkew <= nowMs / 1000 <= t + maxSkew
                    && HexBytes(v1) == Some(p.hmac(secret, Payload(p, t, body))))
  {
    if t, v1 :| Says(p, header, t, v1) {
      WindowIs(nowMs, t, maxSkew);
      VerdictOnPair(p, secret, body, header, t, v1, nowMs, maxSkew);
      MacDenotes(p, header, t, v1, p.hmac(secret, Payload(p, t, body)));
    } else {
      SaysNothing(p, header);
    }
  }

  lemma SaysNothing(p: Platform, header: Option<string>)
    requires forall t, v1 :: !Says(p, header, t, v1)
    ensures var parsed := ParsedHeader(p, header); parsed.None? || parsed.value.t.None? || parsed.value.v1.None?
  {
    var parsed := ParsedHeader(p, header);
    if parsed.Some? && parsed.value.t.Some? && parsed.value.v1.Some? {
      assert Says(p, header, parsed.value.t.value, parsed.value.v1.value);
    }
  }

  lemma MacDenotes(p: Platform, header: Option<string>, t: int, v1: string, digest: Digest)
    requires Says(p, header, t, v1)
    ensures Hex(digest) == v1 <==> HexBytes(v1) == Some(digest)
  {
    HexReadsBack(digest);
    if HexBytes(v1) == Some(digest) {
      HexOfHexBytes(v1, digest);
      MacsAreLowerCase(p, Split(header.value, ','));
    }
  }

  predicate Hexadecimal(v: string) {
    v != "" && forall c <- v :: '0' <= c <= '9' || 'a' <= c <= 'f' || 'A' <= c <= 'F'
  }

  /** A part that spoils the header: without '=', a time that is no integer, or a mac that is not hexadecimal. */
  predicate Spoils(p: Platform, part: string) {
    || '=' !in part
    || (Cut(part).Some? && Cut(part).value.0 == "t" && ToNumber(p, Cut(part).value.1).None?)
    || (Cut(part).Some? && Cut(part).value.0 == "v1" && !Hexadecimal(Cut(part).value.1))
  }

  lemma CutsAtEquals(part: string)
    ensures Cut(part).Some? <==> '=' in part
  {
    assert !IsWhitespace('=');
    TrimKeeps(part, '=');
    var text := Trim(part);
    var i := IndexOf(text, '=');
    assert i < |text| ==> text[i] in text;
    assert '=' in text ==> exists j | 0 <= j < |text| :: text[j] == '=';
  }

  lemma BadIffSpoils(p: Platform, part: string)
    ensures Read(p, part).Bad? <==> Spoils(p, part)
    ensures Read(p, part).Time? ==> Cut(part).Some? && Cut(part).value.0 == "t"
    ensures Read(p, part).Mac? ==> Cut(part).Some? && Cut(part).value.0 == "v1"
    ensures !Read(p, part).Bad? && Cut(part).Some? && Cut(part).value.0 == "t" ==> Read(p, part).Time?
    ensures !Read(p, part).Bad? && Cut(part).Some? && Cut(part).value.0 == "v1" ==> Read(p, part).Mac?
  {
    CutsAtEquals(part);
  }

  /** A header says nothing usable exactly when a part spoils it, or no part is keyed t, or none v1. */
  lemma SaysNothingIff(p: Platform, h: string)
    requires h != ""
    ensures (forall t, v1 :: !Says(p, Some(h), t, v1)) <==>
      || (exists part <- Split(h, ',') :: Spoils(p, part))
      || (forall part <- Split(h, ',') :: Cut(part).Some? ==> Cut(part).value.0 != "t")
      || (forall part <- Split(h, ',') :: Cut(part).Some? ==> Cut(part).value.0 != "v1")
  {
    var parts := Split(h, ',');
    LastOneWins(p, parts);
    forall part <- parts ensures Read(p, part).Bad? <==> Spoils(p, part) { BadIffSpoils(p, part); }
    if forall part <- parts :: !Spoils(p, part) {
      var parsed := ReadAll(p, parts).value;
      assert Says(p, Some(h), parsed.t.GetOr(0), parsed.v1.GetOr("")) <==> parsed.t.Some? && parsed.v1.Some?;
      KeyedIff(p, parts, parsed);
      if parsed.t.None? || parsed.v1.None? {
        forall t, v1 ensures !Says(p, Some(h), t, v1) {}
      }
    } else {
      assert ReadAll(p, parts).None?;
      forall t, v1 ensures !Says(p, Some(h), t, v1) {}
    }
  }

  lemma KeyedIff(p: Platform, parts: seq<string>, parsed: Parsed)
    requires forall part <- parts :: !Read(p, part).Bad?
    requires IsLastTime(p, parts, parsed.t) && IsLastMac(p, parts, parsed.v1)
    ensures parsed.t.Some? <==> exists part <- parts :: Cut(part).Some? && Cut(part).value.0 == "t"
    ensures parsed.v1.Some? <==> exists part <- parts :: Cut(part).Some? && Cut(part).value.0 == "v1"
  {
    forall part <- parts
      ensures Read(p, part).Time? <==> Cut(part).Some? && Cut(part).value.0 == "t"
      ensures Read(p, part).Mac? <==> Cut(part).Some? && Cut(part).value.0 == "v1"
    {
      BadIffSpoils(p, part);
    }
    if parsed.t.Some? {
      var i: nat :| i < |parts| && Read(p, parts[i]) == Time(parsed.t.value);
      assert parts[i] in parts;
    }
    if parsed.v1.Some? {
      var i: nat :| i < |parts| && Read(p, parts[i]) == Mac(parsed.v1.value);
      assert parts[i] in parts;
    }
  }
}
