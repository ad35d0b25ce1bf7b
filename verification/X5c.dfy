/**
  The x5c header rewrite of app/services/apple/x5c-normalize.ts. JSON, the text encoder, Node's
  certificate class and its base64 codec are parameters; splitting, base64url, the shape checks and
  the root lookup are the code's own.
 */
module X5c {
  import opened Wrappers
  import opened Text
  import B = Base64Url

  datatype Field = Field(name: string, value: Json)

  /** A JSON value; an object keeps the order of its fields. */
  datatype Json =
    | Null
    | Bool(flag: bool)
    | Num(number: real)
    | Str(text: string)
    | Arr(items: seq<Json>)
    | Obj(fields: seq<Field>)

  datatype Cert = Cert(subject: string, issuer: string)

  datatype Platform = Platform(
    decode: seq<Byte> -> string,
    encode: string -> seq<Byte>,
    parse: string -> Option<Json>,
    stringify: Json -> string,
    certOf: seq<Byte> -> Option<Cert>,
    bufferOf: string -> seq<Byte>,
    base64Of: seq<Byte> -> string)
  {
    /** Printing this value and reading it back is the identity. */
    ghost predicate Survives(value: Json) {
      parse(decode(encode(stringify(value)))) == Some(value)
    }

    /** Node's standard base64 codec inverts itself on these bytes. */
    ghost predicate CodecInverts(der: seq<Byte>) { bufferOf(base64Of(der)) == der }
  }

  datatype Observation = Observation(length: nat, certs: seq<Cert>)

  /** `Threw` is the TypeError of reading `x5c` of a header that decodes to null. */
  datatype Outcome =
    | Threw
    | Returned(jws: string, observation: Observation, modified: bool, rootLookupFailed: bool)

  // ---------------------------------------------------------------------------------------------
  // Reading and writing one property of an object.
  // ---------------------------------------------------------------------------------------------

  function IndexOfName(fields: seq<Field>, name: string): (i: nat)
    ensures i <= |fields| && (i < |fields| ==> fields[i].name == name)
    ensures forall j | 0 <= j < i :: fields[j].name != name
  {
    if fields == [] || fields[0].name == name then 0 else 1 + IndexOfName(fields[1..], name)
  }

  /** `value[name]`, None for undefined. */
  function Get(value: Json, name: string): Option<Json> {
    if !value.Obj? then None
    else
      var i := IndexOfName(value.fields, name);
      if i < |value.fields| then Some(value.fields[i].value) else None
  }

  /** `{ ...header, [name]: v }` where the header has the property. */
  function With(header: Json, name: string, v: Json): Json
    requires Get(header, name).Some?
  {
    var i := IndexOfName(header.fields, name);
    Obj(header.fields[..i] + [Field(name, v)] + header.fields[i + 1..])
  }

  // ---------------------------------------------------------------------------------------------
  // The pieces of normalizeJwsX5c.
  // ---------------------------------------------------------------------------------------------

  /** The header of a segment, None where decoding or parsing throws. */
  function HeaderOf(p: Platform, segment: string): Option<Json> {
    var raw := B.FromBase64Url(segment);
    if raw.None? then None else p.parse(p.decode(raw.value))
  }

  function SegmentOf(p: Platform, header: Json): string { B.UrlEncoded(p.encode(p.stringify(header))) }

  /** The chain: x5c when it is an array of strings, else empty. */
  function ChainOf(header: Json): seq<string> {
    var x5c := Get(header, "x5c");
    if x5c.Some? && x5c.value.Arr? && forall item <- x5c.value.items :: item.Str? then
      seq(|x5c.value.items|, i requires 0 <= i < |x5c.value.items| => assert x5c.value.items[i] in x5c.value.items; x5c.value.items[i].text)
    else []
  }

  function ChainJson(chain: seq<string>): Json {
    Arr(seq(|chain|, i requires 0 <= i < |chain| => Str(chain[i])))
  }

  function OneLine(s: string): string {
    if s == "" then "" else (if s[0] == '\n' then "; " else [s[0]]) + OneLine(s[1..])
  }

  function Observe(p: Platform, entry: string): Cert {
    match p.certOf(p.bufferOf(entry))
    case Some(cert) => Cert(OneLine(cert.subject), OneLine(cert.issuer))
    case None => Cert("(unparseable)", "(unparseable)")
  }

  function Observed(p: Platform, chain: seq<string>): Observation {
    Observation(|chain|, seq(|chain|, i requires 0 <= i < |chain| => Observe(p, chain[i])))
  }

  predicate IssuedBy(p: Platform, root: seq<Byte>, issuer: string) {
    p.certOf(root).Some? && p.certOf(root).value.subject == issuer
  }

  /** `i` is the first trusted root whose subject is `issuer`. */
  predicate IsFirstRoot(p: Platform, roots: seq<seq<Byte>>, issuer: string, i: nat) {
    i < |roots| && IssuedBy(p, roots[i], issuer) && forall j | 0 <= j < i :: !IssuedBy(p, roots[j], issuer)
  }

  function FirstRoot(p: Platform, roots: seq<seq<Byte>>, issuer: string): (i: nat)
    ensures i <= |roots|
    ensures i < |roots| ==> IsFirstRoot(p, roots, issuer, i)
    ensures i == |roots| ==> forall root <- roots :: !IssuedBy(p, root, issuer)
  {
    if roots == [] || IssuedBy(p, roots[0], issuer) then 0 else 1 + FirstRoot(p, roots[1..], issuer)
  }

  function Unchanged(jws: string, observation: Observation): Outcome { Returned(jws, observation, false, false) }

  function Normalized(p: Platform, jws: string, roots: seq<seq<Byte>>): Outcome {
    var segments := Split(jws, '.');
    if |segments| != 3 then Unchanged(jws, Observation(0, []))
    else
      match HeaderOf(p, segments[0])
      case None => Unchanged(jws, Observation(0, []))
      case Some(Null) => Threw
      case Some(header) =>
        var chain := ChainOf(header);
        var observation := Observed(p, chain);
        if |chain| != 2 then Unchanged(jws, observation)
        else
          match p.certOf(p.bufferOf(chain[1]))
          case None => Unchanged(jws, observation)
          case Some(intermediate) =>
            var i := FirstRoot(p, roots, intermediate.issuer);
            if i == |roots| then Returned(jws, observation, false, true)
            else Returned(Rewritten(p, header, roots[i], segments), observation, true, false)
  }

  function Rewritten(p: Platform, header: Json, root: seq<Byte>, segments: seq<string>): string
    requires |segments| == 3 && |ChainOf(header)| == 2
  {
    SegmentOf(p, Padded(p, header, root)) + "." + segments[1] + "." + segments[2]
  }

  function Padded(p: Platform, header: Json, root: seq<Byte>): Json
    requires |ChainOf(header)| == 2
  {
    With(header, "x5c", ChainJson(ChainOf(header) + [p.base64Of(root)]))
  }

  method NormalizeJwsX5c(p: Platform, jws: string, trustedRoots: seq<seq<Byte>>) returns (r: Outcome)
    ensures r == Normalized(p, jws, trustedRoots)
  {
    var segments := Split(jws, '.');
    if |segments| != 3 { return Unchanged(jws, Observation(0, [])); }
    var parsed := HeaderOf(p, segments[0]);
    if parsed.None? { return Unchanged(jws, Observation(0, [])); }
    var header := parsed.value;
    if header.Null? { return Threw; }
    var x5c := ChainOf(header);
    var observation := Observed(p, x5c);
    if |x5c| != 2 { return Unchanged(jws, observation); }
    var intermediate := p.certOf(p.bufferOf(x5c[1]));
    if intermediate.None? { return Unchanged(jws, observation); }
    var issuer := intermediate.value.issuer;

    var matchingRoot: Option<seq<Byte>> := None;
    for k := 0 to |trustedRoots|
      invariant matchingRoot.None? && FirstRoot(p, trustedRoots, issuer) == k + FirstRoot(p, trustedRoots[k..], issuer)
    {
      var root := p.certOf(trustedRoots[k]);
      if root.Some? && root.value.subject == issuer {
        matchingRoot := Some(trustedRoots[k]);
        break;
      }
      assert trustedRoots[k..][1..] == trustedRoots[k + 1..];
    }
    if matchingRoot.None? { return Returned(jws, observation, false, true); }
    r := Returned(Rewritten(p, header, matchingRoot.value, segments), observation, true, false);
  }

  // ---------------------------------------------------------------------------------------------
  // What the rewrite keeps and adds.
  // ---------------------------------------------------------------------------------------------

  /** Writing one property leaves every other property, and the order of all of them, alone. */
  lemma WithKeepsTheRest(header: Json, name: string, v: Json)
    requires Get(header, name).Some?
    ensures Get(With(header, name, v), name) == Some(v)
    ensures forall other: string :: other != name ==> Get(With(header, name, v), other) == Get(header, other)
    ensures var was, now := header.fields, With(header, name, v).fields;
      |now| == |was| && forall k | 0 <= k < |was| :: now[k].name == was[k].name
  {
    var i := IndexOfName(header.fields, name);
    var was, now := header.fields, With(header, name, v).fields;
    assert forall k | 0 <= k < |was| && k != i :: now[k] == was[k];
    IndexIsFirst(now, name, i);
    forall other: string | other != name ensures Get(With(header, name, v), other) == Get(header, other) {
      var j := IndexOfName(was, other);
      forall k | 0 <= k < j ensures now[k].name != other { assert was[k].name != other; }
      IndexIsFirst(now, other, j);
    }
  }

  lemma {:induction false} IndexIsFirst(fields: seq<Field>, name: string, i: nat)
    requires i <= |fields| && (i < |fields| ==> fields[i].name == name)
    requires forall j | 0 <= j < i :: fields[j].name != name
    ensures IndexOfName(fields, name) == i
  {
  }

  lemma ChainOfJson(header: Json, chain: seq<string>)
    requires Get(header, "x5c") == Some(ChainJson(chain))
    ensures ChainOf(header) == chain
  {
  }

  /** A segment read back is the header that was printed. */
  lemma HeaderReadsBack(p: Platform, header: Json)
    requires p.Survives(header)
    ensures HeaderOf(p, SegmentOf(p, header)) == Some(header) && '.' !in SegmentOf(p, header)
  {
    B.DecodeInvertsEncode(p.encode(p.stringify(header)));
    B.EncodedIsUrlSafe(p.encode(p.stringify(header)));
  }

  lemma ThreeSegments(a: string, b: string, c: string)
    requires '.' !in a && '.' !in b && '.' !in c
    ensures Split(a + "." + b + "." + c, '.') == [a, b, c]
  {
    assert a + "." + b + "." + c == a + ['.'] + (b + ['.'] + c);
    SplitOne(a, '.', b + ['.'] + c);
    SplitOne(b, '.', c);
    SplitOne(c, '.', "");
  }

  /** Whether a JWS has a readable, non-null header over a chain of exactly two strings. */
  predicate HasTwoEntryChain(p: Platform, jws: string) {
    var segments := Split(jws, '.');
    |segments| == 3 && HeaderOf(p, segments[0]).Some? && |ChainOf(HeaderOf(p, segments[0]).value)| == 2
  }

  function Header(p: Platform, jws: string): Json
    requires HasTwoEntryChain(p, jws)
  {
    HeaderOf(p, Split(jws, '.')[0]).value
  }

  function Intermediate(p: Platform, jws: string): Option<Cert>
    requires HasTwoEntryChain(p, jws)
  {
    p.certOf(p.bufferOf(ChainOf(Header(p, jws))[1]))
  }

  /** The JWS changes exactly when a two-entry chain's issuer is the subject of some trusted root. */
  lemma ModifiedIff(p: Platform, jws: string, roots: seq<seq<Byte>>)
    ensures var r := Normalized(p, jws, roots);
      r.Returned? && r.modified <==>
      HasTwoEntryChain(p, jws) && Intermediate(p, jws).Some?
      && exists root <- roots :: IssuedBy(p, root, Intermediate(p, jws).value.issuer)
    ensures var r := Normalized(p, jws, roots);
      r.Returned? && r.rootLookupFailed <==>
      HasTwoEntryChain(p, jws) && Intermediate(p, jws).Some?
      && forall root <- roots :: !IssuedBy(p, root, Intermediate(p, jws).value.issuer)
    ensures var r := Normalized(p, jws, roots); r.Returned? && !r.modified ==> r.jws == jws
  {
  }

  /** It throws exactly on a header that decodes to JSON null. */
  lemma ThrowsIffNullHeader(p: Platform, jws: string, roots: seq<seq<Byte>>)
    ensures Normalized(p, jws, roots).Threw? <==>
      |Split(jws, '.')| == 3 && HeaderOf(p, Split(jws, '.')[0]) == Some(Null)
  {
  }

  /**
    The rewritten JWS, read back: the payload and signature segments, every other header field and the
    order of the fields are kept, and the chain gains the first root whose subject is the issuer.
   */
  lemma RewriteAppendsTheFirstRoot(p: Platform, jws: string, roots: seq<seq<Byte>>)
    requires Normalized(p, jws, roots).Returned? && Normalized(p, jws, roots).modified
    requires forall root <- roots :: p.Survives(Padded(p, Header(p, jws), root))
    ensures var segments, out := Split(jws, '.'), Split(Normalized(p, jws, roots).jws, '.');
      |out| == 3 && out[1..] == segments[1..]
    ensures var out := Split(Normalized(p, jws, roots).jws, '.');
      HeaderOf(p, out[0]).Some? && var before, after := Header(p, jws), HeaderOf(p, out[0]).value;
      after.Obj?
      && (forall k | 0 <= k < |before.fields| :: k < |after.fields| && after.fields[k].name == before.fields[k].name)
      && (forall name: string :: name != "x5c" ==> Get(after, name) == Get(before, name))
      && exists i: nat :: IsFirstRoot(p, roots, Intermediate(p, jws).value.issuer, i)
           && ChainOf(after) == ChainOf(before) + [p.base64Of(roots[i])]
  {
    var segments := Split(jws, '.');
    JoinInvertsSplit(jws, '.');
    assert segments[1] in segments && segments[2] in segments;
    var header := Header(p, jws);
    var i := FirstRoot(p, roots, Intermediate(p, jws).value.issuer);
    var padded := Padded(p, header, roots[i]);
    assert roots[i] in roots;
    HeaderReadsBack(p, padded);
    ThreeSegments(SegmentOf(p, padded), segments[1], segments[2]);
    var chain := ChainOf(header) + [p.base64Of(roots[i])];
    WithKeepsTheRest(header, "x5c", ChainJson(chain));
    ChainOfJson(padded, chain);
  }

  /** The appended entry is a certificate whose subject is the issuer of the entry before it. */
  lemma RewriteClosesTheChain(p: Platform, jws: string, roots: seq<seq<Byte>>)
    requires Normalized(p, jws, roots).Returned? && Normalized(p, jws, roots).modified
    requires forall root <- roots :: p.Survives(Padded(p, Header(p, jws), root)) && p.CodecInverts(root)
    ensures var out := Split(Normalized(p, jws, roots).jws, '.');
      HeaderOf(p, out[0]).Some? && var chain := ChainOf(HeaderOf(p, out[0]).value);
      |chain| == 3 && p.certOf(p.bufferOf(chain[1])).Some? && p.certOf(p.bufferOf(chain[2])).Some?
      && p.certOf(p.bufferOf(chain[2])).value.subject == p.certOf(p.bufferOf(chain[1])).value.issuer
  {
    RewriteAppendsTheFirstRoot(p, jws, roots);
    var after := HeaderOf(p, Split(Normalized(p, jws, roots).jws, '.')[0]).value;
    var i: nat :| IsFirstRoot(p, roots, Intermediate(p, jws).value.issuer, i)
      && ChainOf(after) == ChainOf(Header(p, jws)) + [p.base64Of(roots[i])];
    assert roots[i] in roots;
  }

  /** Normalising twice is normalising once. */
  lemma NormalizeIsIdempotent(p: Platform, jws: string, roots: seq<seq<Byte>>)
    requires Normalized(p, jws, roots).Returned?
    requires Normalized(p, jws, roots).modified ==>
      forall root <- roots :: p.Survives(Padded(p, Header(p, jws), root))
    ensures var once := Normalized(p, jws, roots); var twice := Normalized(p, once.jws, roots);
      twice.Returned? && !twice.modified && twice.jws == once.jws
      && (once.modified ==> twice.observation.length == 3)
  {
    if Normalized(p, jws, roots).modified {
      RewriteAppendsTheFirstRoot(p, jws, roots);
    } else {
      ModifiedIff(p, jws, roots);
    }
  }

  /** Such a header is the segment "bnVsbA", on any platform that reads the text "null" as JSON null. */
  lemma NullHeaderThrows(p: Platform, payload: string, signature: string, roots: seq<seq<Byte>>)
    requires '.' !in payload && '.' !in signature
    requires p.parse(p.decode(NULL_BYTES)) == Some(Null)
    ensures Normalized(p, "bnVsbA" + "." + payload + "." + signature, roots).Threw?
  {
    NullSegment();
    B.DecodeInvertsEncode(NULL_BYTES);
    B.EncodedIsUrlSafe(NULL_BYTES);
    ThreeSegments("bnVsbA", payload, signature);
  }

  /** The bytes of the text "null". */
  const NULL_BYTES: seq<Byte> := [110, 117, 108, 108]

  lemma NullSegment()
    ensures B.UrlEncoded(NULL_BYTES) == "bnVsbA"
  {
    assert NULL_BYTES[..3] == [110, 117, 108] && NULL_BYTES[3..] == [108];
    assert B.Group([110, 117, 108]) == [27, 39, 21, 44] && B.Group([108]) == [27, 0];
    assert B.Sextets(NULL_BYTES) == [27, 39, 21, 44, 27, 0];
  }

  // ---------------------------------------------------------------------------------------------
  // What is read and what is observed.
  // ---------------------------------------------------------------------------------------------

  /** A property is the first field of its name; only objects have any. */
  lemma GetIsFirst(value: Json, name: string)
    ensures !value.Obj? ==> Get(value, name).None?
    ensures value.Obj? && (forall f <- value.fields :: f.name != name) ==> Get(value, name).None?
    ensures value.Obj? ==> forall i | 0 <= i < |value.fields| && value.fields[i].name == name
              && (forall j | 0 <= j < i :: value.fields[j].name != name) :: Get(value, name) == Some(value.fields[i].value)
  {
    if value.Obj? {
      var k := IndexOfName(value.fields, name);
      assert k < |value.fields| ==> value.fields[k] in value.fields;
    }
  }

  /** The chain is x5c entry by entry when that is an array of strings, and empty otherwise. */
  lemma ChainIsX5c(header: Json)
    ensures forall texts: seq<string> | Get(header, "x5c").Some? && IsStrings(Get(header, "x5c").value, texts) ::
              ChainOf(header) == texts
    ensures (Get(header, "x5c").Some? ==> forall texts :: !IsStrings(Get(header, "x5c").value, texts)) ==> ChainOf(header) == []
  {
    var x5c := Get(header, "x5c");
    if x5c.Some? && x5c.value.Arr? {
      forall texts | IsStrings(x5c.value, texts) ensures ChainOf(header) == texts {
        assert forall i | 0 <= i < |texts| :: x5c.value.items[i] == Str(texts[i]);
      }
      var items := x5c.value.items;
      if forall item <- items :: item.Str? {
        forall i | 0 <= i < |items| ensures items[i] == Str(ChainOf(header)[i]) { assert items[i] in items; }
        assert IsStrings(x5c.value, ChainOf(header));
      }
    }
  }

  ghost predicate IsStrings(value: Json, texts: seq<string>) {
    value.Arr? && |value.items| == |texts| && forall i | 0 <= i < |texts| :: value.items[i] == Str(texts[i])
  }

  /**
    The observation, entry by entry: subject and issuer of each certificate on one line, a fixed text for
    an entry that is none, and nothing at all for a JWS whose header cannot be read.
   */
  lemma ObservationIs(p: Platform, jws: string, roots: seq<seq<Byte>>)
    requires Normalized(p, jws, roots).Returned?
    ensures var segments, seen := Split(jws, '.'), Normalized(p, jws, roots).observation;
            if |segments| != 3 || HeaderOf(p, segments[0]).None? then seen == Observation(0, [])
            else
              var chain := ChainOf(HeaderOf(p, segments[0]).value);
              && seen.length == |chain| == |seen.certs|
              && forall i | 0 <= i < |chain| ::
                   match p.certOf(p.bufferOf(chain[i]))
                   case Some(cert) =>
                     seen.certs[i].subject == OneLine(cert.subject) && seen.certs[i].issuer == OneLine(cert.issuer)
                   case None =>
                     seen.certs[i].subject == "(unparseable)" && seen.certs[i].issuer == "(unparseable)"
  {
  }

  /** On one line: each newline is replaced, everything else is kept. */
  lemma {:induction false} OneLineReplaces(a: string, b: string)
    requires '\n' !in a
    ensures OneLine(a) == a && OneLine(a + "\n" + b) == a + "; " + OneLine(b)
  {
    if a == "" {
      assert "" + "\n" + b == ['\n'] + b && (['\n'] + b)[1..] == b;
    } else {
      OneLineReplaces(a[1..], b);
      var s := a + "\n" + b;
      assert s[0] == a[0] && s[1..] == a[1..] + "\n" + b;
      assert a == [a[0]] + a[1..];
      assert a + "; " + OneLine(b) == [a[0]] + (a[1..] + "; " + OneLine(b));
    }
  }
}
