/** Percent-encoding (RFC 3986, sections 2.1 and 2.3) and the canonical request that a SigV4 signature covers. */
module SigV4 {
  import opened MachineWords
  import opened Text

  // ---------------------------------------------------------------------------------------------
  // Percent-encoding

  predicate Unreserved(b: byte) {
    'A' as nat <= b <= 'Z' as nat || 'a' as nat <= b <= 'z' as nat || '0' as nat <= b <= '9' as nat
    || b == '-' as nat || b == '_' as nat || b == '.' as nat || b == '~' as nat
  }

  const SLASH: byte := '/' as nat

  function HexDigit(n: nat): char
    requires n < 16
  {
    "0123456789ABCDEF"[n]
  }

  function EncodeByte(b: byte, encodeSlash: bool): string {
    if Unreserved(b) then [b as char]
    else if b == SLASH && !encodeSlash then "/"
    else ['%', HexDigit(b / 16), HexDigit(b % 16)]
  }

  function Encoded(input: seq<byte>, encodeSlash: bool): string {
    if input == [] then "" else EncodeByte(input[0], encodeSlash) + Encoded(input[1..], encodeSlash)
  }

  lemma {:induction false} EncodedConcat(a: seq<byte>, b: seq<byte>, encodeSlash: bool)
    ensures Encoded(a + b, encodeSlash) == Encoded(a, encodeSlash) + Encoded(b, encodeSlash)
  {
    if a == [] {
      assert a + b == b;
    } else {
      assert (a + b)[1..] == a[1..] + b;
      EncodedConcat(a[1..], b, encodeSlash);
    }
  }

  lemma EncodedStep(input: seq<byte>, i: nat, encodeSlash: bool)
    requires i < |input|
    ensures Encoded(input[..i + 1], encodeSlash) == Encoded(input[..i], encodeSlash) + EncodeByte(input[i], encodeSlash)
  {
    assert input[..i + 1] == input[..i] + [input[i]];
    EncodedConcat(input[..i], [input[i]], encodeSlash);
    assert Encoded([input[i]], encodeSlash) == EncodeByte(input[i], encodeSlash) + "";
  }

  /** The encoder's loop over the bytes of its input. */
  method UriEncode(input: seq<byte>, encodeSlash: bool) returns (out: string)
    ensures out == Encoded(input, encodeSlash)
    ensures PercentDecoded(out) == Some(input)
  {
    out := "";
    for i := 0 to |input|
      invariant out == Encoded(input[..i], encodeSlash)
    {
      var b := input[i];
      EncodedStep(input, i, encodeSlash);
      if Unreserved(b) {
        out := out + [b as char];
      } else if b == SLASH && !encodeSlash {
        out := out + ['/'];
      } else {
        out := out + ['%'];
        out := out + [HexDigit(b / 16)];
        out := out + [HexDigit(b % 16)];
      }
    }
    assert input[..|input|] == input;
    DecodeUndoesEncode(input, encodeSlash);
  }

  function HexValue(c: char): Option<nat> {
    if '0' <= c <= '9' then Some(c as nat - '0' as nat)
    else if 'A' <= c <= 'F' then Some(c as nat - 'A' as nat + 10)
    else None
  }

  function PrependByte(b: byte, rest: Option<seq<byte>>): Option<seq<byte>> {
    if rest.None? then None else Some([b] + rest.value)
  }

  /** Section 2.1: a percent sign and two hexadecimal digits stand for one byte; other characters for themselves. */
  function PercentDecoded(s: string): Option<seq<byte>> {
    if s == "" then Some([])
    else if s[0] == '%' then
      if |s| < 3 then None
      else
        match (HexValue(s[1]), HexValue(s[2]))
        case (Some(h), Some(l)) => if h < 16 && l < 16 then PrependByte(16 * h + l, PercentDecoded(s[3..])) else None
        case _ => None
    else if s[0] as nat < 256 then PrependByte(s[0] as nat, PercentDecoded(s[1..]))
    else None
  }

  lemma HexRoundTrip(n: nat)
    requires n < 16
    ensures HexValue(HexDigit(n)) == Some(n)
  {
  }

  lemma DecodeByte(b: byte, more: string, encodeSlash: bool)
    ensures PercentDecoded(EncodeByte(b, encodeSlash) + more) == PrependByte(b, PercentDecoded(more))
  {
    var e := EncodeByte(b, encodeSlash);
    HexRoundTrip(b / 16);
    HexRoundTrip(b % 16);
    assert (e + more)[|e|..] == more;
  }

  /** Decoding undoes encoding, in both slash modes. */
  lemma {:induction false} DecodeUndoesEncode(input: seq<byte>, encodeSlash: bool)
    ensures PercentDecoded(Encoded(input, encodeSlash)) == Some(input)
  {
    hide EncodeByte;
    if input != [] {
      hide PercentDecoded;
      DecodeUndoesEncode(input[1..], encodeSlash);
      DecodeByte(input[0], Encoded(input[1..], encodeSlash), encodeSlash);
      assert [input[0]] + input[1..] == input;
    }
  }

  lemma EncodedInjective(a: seq<byte>, b: seq<byte>, encodeSlash: bool)
    requires Encoded(a, encodeSlash) == Encoded(b, encodeSlash)
    ensures a == b
  {
    DecodeUndoesEncode(a, encodeSlash);
    DecodeUndoesEncode(b, encodeSlash);
  }

  predicate SafeCharacter(c: char) {
    c == '%' || (c as nat < 256 && Unreserved(c as nat))
  }

  /** Exactly the letters, digits, hyphen, period, underscore and tilde of section 2.3 stand for themselves, and a slash
      where slashes pass; every other byte becomes a percent sign and two capital hexadecimal digits. */
  lemma PassedThrough(b: byte, encodeSlash: bool)
    ensures EncodeByte(b, encodeSlash) == [b as char] <==>
            || 65 <= b <= 90 || 97 <= b <= 122 || 48 <= b <= 57 || b == 45 || b == 46 || b == 95 || b == 126
            || (b == 47 && !encodeSlash)
    ensures EncodeByte(b, encodeSlash) != [b as char] ==> |EncodeByte(b, encodeSlash)| == 3 && EncodeByte(b, encodeSlash)[0] == '%'
  {
  }

  lemma EncodedByteCharacters(b: byte, encodeSlash: bool)
    ensures forall c <- EncodeByte(b, encodeSlash) :: SafeCharacter(c) || (c == '/' && !encodeSlash)
  {
  }

  lemma {:induction false} EncodedCharacters(input: seq<byte>, encodeSlash: bool)
    ensures forall c <- Encoded(input, encodeSlash) :: SafeCharacter(c) || (c == '/' && !encodeSlash)
  {
    hide EncodeByte, SafeCharacter;
    if input != [] {
      EncodedByteCharacters(input[0], encodeSlash);
      EncodedCharacters(input[1..], encodeSlash);
    }
  }

  function EncodedSegments(segments: seq<seq<byte>>): (r: seq<string>)
    ensures |r| == |segments|
  {
    if segments == [] then [] else [Encoded(segments[0], true)] + EncodedSegments(segments[1..])
  }

  /** With slashes passed through, the path segments are those of the input, each fully encoded. */
  lemma {:induction false} SlashesKeepSegments(input: seq<byte>)
    ensures Split(Encoded(input, false), '/') == EncodedSegments(Split(input, SLASH))
  {
    if input != [] {
      var b, more := input[0], Encoded(input[1..], false);
      var segments := Split(input[1..], SLASH);
      SlashesKeepSegments(input[1..]);
      if b == SLASH {
        assert EncodeByte(b, false) == "/";
        assert (['/'] + more)[1..] == more;
      } else {
        hide EncodeByte;
        SplitAfterPrefix(EncodeByte(b, false), more, '/');
        FirstSegmentGrows(b, segments);
        assert Split(input, SLASH) == [[b] + segments[0]] + segments[1..];
      }
    }
  }

  lemma FirstSegmentGrows(b: byte, segments: seq<seq<byte>>)
    requires b != SLASH && segments != []
    ensures EncodedSegments([[b] + segments[0]] + segments[1..]) ==
            [EncodeByte(b, false) + EncodedSegments(segments)[0]] + EncodedSegments(segments)[1..]
    ensures '/' !in EncodeByte(b, false)
  {
    assert EncodeByte(b, false) == EncodeByte(b, true) && '/' !in EncodeByte(b, true);
    hide EncodeByte;
    var joined := [[b] + segments[0]] + segments[1..];
    assert joined[1..] == segments[1..];
    assert ([b] + segments[0])[1..] == segments[0];
  }

  // ---------------------------------------------------------------------------------------------
  // Headers: lowercased, trimmed, sorted by name

  datatype Header = Header(name: string, value: string)

  predicate Space(c: char) {
    c == ' ' || '\t' <= c <= '\r'
  }

  function TrimStart(s: string): string {
    if s != "" && Space(s[0]) then TrimStart(s[1..]) else s
  }

  function TrimEnd(s: string): string {
    if s != "" && Space(s[|s| - 1]) then TrimEnd(s[..|s| - 1]) else s
  }

  function Trim(s: string): string {
    TrimEnd(TrimStart(s))
  }

  function Normalized(h: Header): Header {
    Header(Lower(h.name), Trim(h.value))
  }

  function NormalizedAll(hs: seq<Header>): seq<Header> {
    seq(|hs|, i requires 0 <= i < |hs| => Normalized(hs[i]))
  }

  function UnsortedHeaders(host: string, date: string, extras: seq<Header>, token: Option<string>): seq<Header> {
    [Header("host", host), Header("x-amz-date", date)] + NormalizedAll(extras) +
    if token.None? then [] else [Header("x-amz-security-token", token.value)]
  }

  function InsertByName(h: Header, hs: seq<Header>): seq<Header> {
    if hs != [] && LexLess(hs[0].name, h.name) then [hs[0]] + InsertByName(h, hs[1..]) else [h] + hs
  }

  /** The stable sort by name. */
  function SortedByName(hs: seq<Header>): seq<Header> {
    if hs == [] then [] else InsertByName(hs[0], SortedByName(hs[1..]))
  }

  predicate InOrder(hs: seq<Header>) {
    forall i, j :: 0 <= i < j < |hs| ==> !LexLess(hs[j].name, hs[i].name)
  }

  /** The headers of one name, in order of appearance. */
  function Named(hs: seq<Header>, name: string): seq<Header> {
    if hs == [] then [] else (if hs[0].name == name then [hs[0]] else []) + Named(hs[1..], name)
  }

  lemma {:induction false} InsertKeepsAll(h: Header, hs: seq<Header>)
    ensures multiset(InsertByName(h, hs)) == multiset{h} + multiset(hs)
  {
    if hs != [] && LexLess(hs[0].name, h.name) {
      InsertKeepsAll(h, hs[1..]);
      assert hs == [hs[0]] + hs[1..];
    }
  }

  lemma ConsKeepsOrder(h: Header, hs: seq<Header>)
    requires InOrder(hs)
    requires forall x <- hs :: !LexLess(x.name, h.name)
    ensures InOrder([h] + hs)
  {
  }

  lemma {:induction false} InsertKeepsOrder(h: Header, hs: seq<Header>)
    requires InOrder(hs)
    ensures InOrder(InsertByName(h, hs))
  {
    hide LexLess;
    if hs != [] && LexLess(hs[0].name, h.name) {
      var rest := InsertByName(h, hs[1..]);
      InsertKeepsOrder(h, hs[1..]);
      InsertKeepsAll(h, hs[1..]);
      forall x | x in rest ensures !LexLess(x.name, hs[0].name) {
        assert x in multiset{h} + multiset(hs[1..]);
        LexTrichotomy(hs[0].name, h.name);
      }
      ConsKeepsOrder(hs[0], rest);
    } else {
      forall x | x in hs ensures !LexLess(x.name, h.name) {
        if LexLess(x.name, h.name) {
          LexTrichotomy(hs[0].name, x.name);
          if LexLess(hs[0].name, x.name) { LexTransitive(hs[0].name, x.name, h.name); }
        }
      }
      ConsKeepsOrder(h, hs);
    }
  }

  lemma NamedCons(h: Header, hs: seq<Header>, name: string)
    ensures Named([h] + hs, name) == (if h.name == name then [h] else []) + Named(hs, name)
  {
    assert ([h] + hs)[1..] == hs;
  }

  lemma {:induction false} InsertIsStable(h: Header, hs: seq<Header>, name: string)
    ensures Named(InsertByName(h, hs), name) == (if h.name == name then [h] else []) + Named(hs, name)
  {
    hide LexLess, Named;
    if hs != [] && LexLess(hs[0].name, h.name) {
      InsertIsStable(h, hs[1..], name);
      NamedCons(hs[0], InsertByName(h, hs[1..]), name);
      NamedCons(hs[0], hs[1..], name);
      assert hs == [hs[0]] + hs[1..];
      LexTrichotomy(hs[0].name, h.name);
    } else {
      NamedCons(h, hs, name);
    }
  }

  /** The signed headers are a sorted permutation, and headers of equal name keep their order. */
  lemma {:induction false} SortedByNameIsStableSort(hs: seq<Header>)
    ensures InOrder(SortedByName(hs)) && multiset(SortedByName(hs)) == multiset(hs)
    ensures forall name :: Named(SortedByName(hs), name) == Named(hs, name)
  {
    if hs != [] {
      SortedByNameIsStableSort(hs[1..]);
      InsertKeepsOrder(hs[0], SortedByName(hs[1..]));
      InsertKeepsAll(hs[0], SortedByName(hs[1..]));
      assert hs == [hs[0]] + hs[1..];
      forall name ensures Named(SortedByName(hs), name) == Named(hs, name) {
        InsertIsStable(hs[0], SortedByName(hs[1..]), name);
      }
    }
  }

  // ---------------------------------------------------------------------------------------------
  // The canonical request

  function Names(hs: seq<Header>): (r: seq<string>)
    ensures |r| == |hs| && forall i :: 0 <= i < |hs| ==> r[i] == hs[i].name
  {
    seq(|hs|, i requires 0 <= i < |hs| => hs[i].name)
  }

  function HeaderLine(h: Header): string {
    h.name + ":" + h.value
  }

  function CanonicalHeaders(hs: seq<Header>): string {
    if hs == [] then "" else HeaderLine(hs[0]) + "\n" + CanonicalHeaders(hs[1..])
  }

  datatype Request = Request(method_: string, host: string, path: seq<byte>, query: string, body: seq<byte>, extras: seq<Header>)

  /** What the signature covers: the fields of the canonical request before they are laid out as text. */
  datatype Signed = Signed(method_: string, path: seq<byte>, query: string, headers: seq<Header>, digest: string)

  function SignedFields(req: Request, date: string, token: Option<string>, digest: seq<byte> -> string): Signed {
    Signed(req.method_, req.path, req.query, SortedByName(UnsortedHeaders(req.host, date, req.extras, token)), digest(req.body))
  }

  function Layout(s: Signed): string {
    s.method_ + "\n" + Encoded(s.path, false) + "\n" + s.query + "\n" + CanonicalHeaders(s.headers) + "\n" +
    Join(Names(s.headers), ";") + "\n" + s.digest
  }

  lemma {:induction false} CanonicalHeadersConcat(a: seq<Header>, b: seq<Header>)
    ensures CanonicalHeaders(a + b) == CanonicalHeaders(a) + CanonicalHeaders(b)
  {
    if a == [] {
      assert a + b == b;
    } else {
      assert (a + b)[1..] == a[1..] + b;
      CanonicalHeadersConcat(a[1..], b);
    }
  }

  lemma CanonicalHeadersStep(hs: seq<Header>, i: nat)
    requires i < |hs|
    ensures CanonicalHeaders(hs[..i + 1]) == CanonicalHeaders(hs[..i]) + hs[i].name + ":" + hs[i].value + "\n"
  {
    assert hs[..i + 1] == hs[..i] + [hs[i]];
    CanonicalHeadersConcat(hs[..i], [hs[i]]);
    assert CanonicalHeaders([hs[i]]) == HeaderLine(hs[i]) + "\n" + "";
  }

  lemma NormalizedStep(hs: seq<Header>, i: nat)
    requires i < |hs|
    ensures NormalizedAll(hs[..i + 1]) == NormalizedAll(hs[..i]) + [Normalized(hs[i])]
  {
  }

  /** The part of signing that decides what is signed; the hash is a parameter. */
  method CanonicalRequest(req: Request, date: string, token: Option<string>, digest: seq<byte> -> string)
    returns (signedHeaders: string, canonical: string)
    ensures signedHeaders == Join(Names(SignedFields(req, date, token, digest).headers), ";")
    ensures canonical == Layout(SignedFields(req, date, token, digest))
    ensures OneLineEach(SignedFields(req, date, token, digest)) ==>
              var lines := Split(canonical, '\n');
              && |lines| >= 6 && lines[0] == req.method_ && PercentDecoded(lines[1]) == Some(req.path) && lines[2] == req.query
              && lines[|lines| - 2] == signedHeaders && lines[|lines| - 1] == digest(req.body)
  {
    hide SortedByName, Join, Trim, Lower, OneLineEach;
    if OneLineEach(SignedFields(req, date, token, digest)) {
      CanonicalLines(SignedFields(req, date, token, digest));
      DecodeUndoesEncode(req.path, false);
    }
    var headers := [Header("host", req.host), Header("x-amz-date", date)];
    for i := 0 to |req.extras|
      invariant headers == [Header("host", req.host), Header("x-amz-date", date)] + NormalizedAll(req.extras[..i])
    {
      headers := headers + [Header(Lower(req.extras[i].name), Trim(req.extras[i].value))];
      NormalizedStep(req.extras, i);
    }
    assert req.extras[..|req.extras|] == req.extras;
    if token.Some? {
      headers := headers + [Header("x-amz-security-token", token.value)];
    }
    assert headers == UnsortedHeaders(req.host, date, req.extras, token);
    headers := SortedByName(headers);
    signedHeaders := Join(Names(headers), ";");
    var canonicalHeaders := "";
    for i := 0 to |headers|
      invariant canonicalHeaders == CanonicalHeaders(headers[..i])
    {
      canonicalHeaders := canonicalHeaders + headers[i].name;
      canonicalHeaders := canonicalHeaders + ":";
      canonicalHeaders := canonicalHeaders + headers[i].value;
      canonicalHeaders := canonicalHeaders + "\n";
      CanonicalHeadersStep(headers, i);
    }
    assert headers[..|headers|] == headers;
    var payloadHash := digest(req.body);
    var canonicalUri := UriEncode(req.path, false);
    canonical := req.method_ + "\n" + canonicalUri + "\n" + req.query + "\n" + canonicalHeaders + "\n" + signedHeaders + "\n" + payloadHash;
  }

  /** No field runs over its line. */
  predicate OneLineEach(s: Signed) {
    && '\n' !in s.method_ && '\n' !in s.query && '\n' !in s.digest
    && forall h <- s.headers :: '\n' !in h.name && '\n' !in h.value
  }

  function HeaderLines(hs: seq<Header>): (r: seq<string>)
    ensures |r| == |hs| && forall i :: 0 <= i < |hs| ==> r[i] == HeaderLine(hs[i])
  {
    seq(|hs|, i requires 0 <= i < |hs| => HeaderLine(hs[i]))
  }

  function Lines(s: Signed): seq<string> {
    [s.method_, Encoded(s.path, false), s.query] + HeaderLines(s.headers) + ["", Join(Names(s.headers), ";"), s.digest]
  }

  lemma {:induction false} JoinFront(front: seq<string>, rest: seq<string>)
    requires rest != []
    ensures Join(front + rest, "\n") == JoinEach(front) + Join(rest, "\n")
  {
    if front == [] {
      assert front + rest == rest;
    } else {
      assert (front + rest)[1..] == front[1..] + rest;
      JoinFront(front[1..], rest);
    }
  }

  function JoinEach(lines: seq<string>): string {
    if lines == [] then "" else lines[0] + "\n" + JoinEach(lines[1..])
  }

  lemma {:induction false} CanonicalHeadersAreLines(hs: seq<Header>)
    ensures CanonicalHeaders(hs) == JoinEach(HeaderLines(hs))
  {
    if hs != [] {
      assert HeaderLines(hs)[1..] == HeaderLines(hs[1..]);
      CanonicalHeadersAreLines(hs[1..]);
    }
  }

  lemma LayoutIsLines(s: Signed)
    ensures Layout(s) == Join(Lines(s), "\n")
  {
    hide Encoded, Join, HeaderLines, CanonicalHeaders;
    var m, u, q, ch := s.method_, Encoded(s.path, false), s.query, CanonicalHeaders(s.headers);
    var names, d := Join(Names(s.headers), ";"), s.digest;
    var lines := HeaderLines(s.headers);
    JoinFront([m, u, q], lines + ["", names, d]);
    JoinFront(lines, ["", names, d]);
    CanonicalHeadersAreLines(s.headers);
    assert [m, u, q] + lines + ["", names, d] == [m, u, q] + (lines + ["", names, d]);
    JoinThree(m, u, q);
    JoinThree("", names, d);
    Regroup(m + "\n" + u + "\n" + q + "\n", ch, names, d);
  }

  lemma Regroup(top: string, ch: string, names: string, d: string)
    ensures top + ch + "\n" + names + "\n" + d == top + (ch + ("" + "\n" + names + "\n" + d))
  {
    assert "" + "\n" + names + "\n" + d == "\n" + names + "\n" + d;
    assert ch + ("\n" + names + "\n" + d) == ch + "\n" + names + "\n" + d;
  }

  lemma JoinThree(a: string, b: string, c: string)
    ensures JoinEach([a, b, c]) == a + "\n" + b + "\n" + c + "\n"
    ensures Join([a, b, c], "\n") == a + "\n" + b + "\n" + c
  {
    assert [a, b, c][1..] == [b, c] && [b, c][1..] == [c] && [c][1..] == [];
    assert JoinEach([c]) == c + "\n" + "";
    assert JoinEach([b, c]) == b + "\n" + JoinEach([c]);
    assert Join([b, c], "\n") == b + "\n" + c;
  }

  lemma {:induction false} JoinedNamesStayOnLine(names: seq<string>)
    requires forall n <- names :: '\n' !in n
    ensures '\n' !in Join(names, ";")
  {
    if |names| > 1 { JoinedNamesStayOnLine(names[1..]); }
  }

  lemma LinesHaveNoNewline(s: Signed)
    requires OneLineEach(s)
    ensures forall line <- Lines(s) :: '\n' !in line
  {
    EncodedCharacters(s.path, false);
    assert '\n' !in Encoded(s.path, false);
    forall line | line in HeaderLines(s.headers) ensures '\n' !in line {
      var i :| 0 <= i < |s.headers| && line == HeaderLine(s.headers[i]);
      assert s.headers[i] in s.headers;
    }
    forall n | n in Names(s.headers) ensures '\n' !in n {
      var i :| 0 <= i < |s.headers| && n == s.headers[i].name;
      assert s.headers[i] in s.headers;
    }
    JoinedNamesStayOnLine(Names(s.headers));
  }

  /** Everything after the first name: nothing, or a semicolon and the other names. */
  function AfterFirst(names: seq<string>): (r: string)
    requires names != []
    ensures Join(names, ";") == names[0] + r
    ensures r == "" || r[0] == ';'
  {
    if |names| == 1 then "" else ";" + Join(names[1..], ";")
  }

  lemma AfterFirstDecidesRest(a: seq<string>, b: seq<string>)
    requires a != [] && |a| == |b| && AfterFirst(a) == AfterFirst(b)
    ensures Join(a[1..], ";") == Join(b[1..], ";")
  {
    if |a| > 1 {
      assert Join(a[1..], ";") == AfterFirst(a)[1..] && Join(b[1..], ";") == AfterFirst(b)[1..];
    } else {
      assert a[1..] == [] && b[1..] == [];
    }
  }

  /** A name that swallowed a colon would need a colon in the joined names where the other list has a semicolon or its
      end. */
  lemma NoShorterName(a: Header, x: string, b: Header, y: string)
    requires HeaderLine(a) == HeaderLine(b) && a.name + x == b.name + y
    requires x == "" || x[0] == ';'
    ensures |a.name| >= |b.name|
  {
    assert HeaderLine(a) == a.name + (":" + a.value) && HeaderLine(b) == b.name + (":" + b.value);
    if |a.name| < |b.name| {
      Overlap(a.name, ":" + a.value, b.name, ":" + b.value);
      Overlap(a.name, x, b.name, y);
    }
  }

  lemma Overlap(p: string, x: string, q: string, y: string)
    requires p + x == q + y && |p| < |q|
    ensures x != "" && x[0] == q[|p|]
  {
    assert |x| == |q| - |p| + |y|;
    assert (p + x)[|p|] == x[0] && (q + y)[|p|] == q[|p|];
  }

  lemma FirstHeaderSame(a: Header, x: string, b: Header, y: string)
    requires HeaderLine(a) == HeaderLine(b) && a.name + x == b.name + y
    requires (x == "" || x[0] == ';') && (y == "" || y[0] == ';')
    ensures a == b && x == y
  {
    NoShorterName(a, x, b, y);
    NoShorterName(b, y, a, x);
    var n := |a.name|;
    assert (a.name + x)[..n] == a.name && (b.name + y)[..n] == b.name;
    assert (a.name + x)[n..] == x && (b.name + y)[n..] == y;
    assert a.value == HeaderLine(a)[n + 1..] && b.value == HeaderLine(b)[n + 1..];
  }

  /** The header lines and the joined names together determine the headers, whatever characters the names hold. */
  lemma {:induction false} HeadersFromLinesAndNames(a: seq<Header>, b: seq<Header>)
    requires HeaderLines(a) == HeaderLines(b) && Join(Names(a), ";") == Join(Names(b), ";")
    ensures a == b
  {
    hide HeaderLine, Join;
    assert |a| == |HeaderLines(a)| == |b|;
    if a != [] {
      assert HeaderLines(a)[0] == HeaderLine(a[0]) && HeaderLines(b)[0] == HeaderLine(b[0]);
      FirstHeaderSame(a[0], AfterFirst(Names(a)), b[0], AfterFirst(Names(b)));
      AfterFirstDecidesRest(Names(a), Names(b));
      assert Names(a)[1..] == Names(a[1..]) && Names(b)[1..] == Names(b[1..]);
      assert HeaderLines(a)[1..] == HeaderLines(a[1..]) && HeaderLines(b)[1..] == HeaderLines(b[1..]);
      HeadersFromLinesAndNames(a[1..], b[1..]);
      assert a == [a[0]] + a[1..] && b == [b[0]] + b[1..];
    }
  }

  /** Equal canonical requests sign equal fields: nothing can be moved between them. */
  lemma CanonicalRequestInjective(s: Signed, t: Signed)
    requires OneLineEach(s) && OneLineEach(t)
    requires Layout(s) == Layout(t)
    ensures s == t
  {
    hide Layout, Lines, OneLineEach;
    LinesOfLayout(s);
    LinesOfLayout(t);
    SameLinesSameFields(s, t);
    EncodedInjective(s.path, t.path, false);
    HeadersFromLinesAndNames(s.headers, t.headers);
  }

  lemma SameLinesSameFields(s: Signed, t: Signed)
    requires Lines(s) == Lines(t)
    ensures s.method_ == t.method_ && Encoded(s.path, false) == Encoded(t.path, false) && s.query == t.query
    ensures HeaderLines(s.headers) == HeaderLines(t.headers)
    ensures Join(Names(s.headers), ";") == Join(Names(t.headers), ";") && s.digest == t.digest
  {
    hide Encoded, Join, HeaderLine;
    var ls, lt, n := Lines(s), Lines(t), |s.headers|;
    assert |ls| == n + 6 && |lt| == |t.headers| + 6;
    assert ls[0] == s.method_ && ls[1] == Encoded(s.path, false) && ls[2] == s.query;
    assert lt[0] == t.method_ && lt[1] == Encoded(t.path, false) && lt[2] == t.query;
    assert ls[3..n + 3] == HeaderLines(s.headers) && lt[3..n + 3] == HeaderLines(t.headers);
    assert ls[n + 4] == Join(Names(s.headers), ";") && ls[n + 5] == s.digest;
    assert lt[n + 4] == Join(Names(t.headers), ";") && lt[n + 5] == t.digest;
  }

  /** Without the one-line condition it fails: a newline slides from the method into the query. */
  lemma NewlinesBreakInjectivity(headers: seq<Header>, digest: string)
    ensures Layout(Signed("\n", [], "", headers, digest)) == Layout(Signed("", [], "\n", headers, digest))
  {
    assert "\n" + "\n" + "" + "\n" + "" == "" + "\n" + "" + "\n" + "\n";
  }

  lemma LinesOfLayout(s: Signed)
    requires OneLineEach(s)
    ensures Split(Layout(s), '\n') == Lines(s)
  {
    LayoutIsLines(s);
    LinesHaveNoNewline(s);
    SplitUndoesJoin(Lines(s), '\n');
  }

  /** Every signed header is the host, the date, the token or an extra with its name in lower case and its value trimmed;
      and nothing else is signed. */
  lemma SignedHeadersComplete(req: Request, date: string, token: Option<string>, digest: seq<byte> -> string)
    ensures var hs := SignedFields(req, date, token, digest).headers;
            && |hs| == 2 + |req.extras| + (if token.Some? then 1 else 0)
            && Header("host", req.host) in hs && Header("x-amz-date", date) in hs
            && (token.Some? ==> Header("x-amz-security-token", token.value) in hs)
            && forall i :: 0 <= i < |req.extras| ==> Header(Lower(req.extras[i].name), Trim(req.extras[i].value)) in hs
  {
    hide SortedByName, Lower, Trim;
    var unsorted := UnsortedHeaders(req.host, date, req.extras, token);
    SortedByNameIsStableSort(unsorted);
    assert |SortedByName(unsorted)| == |multiset(SortedByName(unsorted))| == |multiset(unsorted)| == |unsorted|;
    var normalized := NormalizedAll(req.extras);
    assert unsorted[0] == Header("host", req.host) && unsorted[1] == Header("x-amz-date", date);
    assert token.Some? ==> unsorted[|unsorted| - 1] == Header("x-amz-security-token", token.value);
    forall i | 0 <= i < |req.extras|
      ensures Header(Lower(req.extras[i].name), Trim(req.extras[i].value)) in unsorted
    {
      assert unsorted[2 + i] == normalized[i] == Header(Lower(req.extras[i].name), Trim(req.extras[i].value));
    }
    forall h | h in unsorted ensures h in SortedByName(unsorted) {
      assert h in multiset(unsorted);
    }
  }

  /** Trimming removes space at the ends and nothing else. */
  lemma TrimExactly(s: string)
    ensures exists front, back :: s == front + Trim(s) + back && (forall c <- front :: Space(c)) && forall c <- back :: Space(c)
    ensures Trim(s) != "" ==> !Space(Trim(s)[0]) && !Space(Trim(s)[|Trim(s)| - 1])
  {
    var front := TrimStartExactly(s);
    var back := TrimEndExactly(TrimStart(s));
    assert s == front + Trim(s) + back;
    if Trim(s) != "" { assert TrimStart(s)[0] == Trim(s)[0]; }
  }

  lemma {:induction false} TrimStartExactly(s: string) returns (front: string)
    ensures s == front + TrimStart(s) && forall c <- front :: Space(c)
    ensures TrimStart(s) != "" ==> !Space(TrimStart(s)[0])
  {
    front := "";
    if s != "" && Space(s[0]) {
      var more := TrimStartExactly(s[1..]);
      front := [s[0]] + more;
      assert s == [s[0]] + s[1..];
    }
  }

  lemma {:induction false} TrimEndExactly(s: string) returns (back: string)
    ensures s == TrimEnd(s) + back && forall c <- back :: Space(c)
    ensures TrimEnd(s) != "" ==> !Space(TrimEnd(s)[|TrimEnd(s)| - 1])
  {
    back := "";
    if s != "" && Space(s[|s| - 1]) {
      var n := |s| - 1;
      var more := TrimEndExactly(s[..n]);
      back := more + [s[n]];
      assert s == s[..n] + [s[n]];
    }
  }

  /** The lines of a canonical request of one-line fields: method, encoded path and query, then one line for each header,
      an empty line, the signed names, and the digest. */
  lemma CanonicalLines(s: Signed)
    requires OneLineEach(s)
    ensures var lines, n := Split(Layout(s), '\n'), |s.headers|;
            && |lines| == n + 6
            && lines[0] == s.method_ && lines[1] == Encoded(s.path, false) && lines[2] == s.query
            && (forall i :: 0 <= i < n ==> lines[3 + i] == s.headers[i].name + ":" + s.headers[i].value)
            && lines[n + 3] == "" && lines[n + 4] == Join(Names(s.headers), ";") && lines[n + 5] == s.digest
  {
    hide Layout, Encoded, Join;
    LinesOfLayout(s);
    var lines, n := Lines(s), |s.headers|;
    assert lines[3..n + 3] == HeaderLines(s.headers);
    forall i | 0 <= i < n ensures lines[3 + i] == s.headers[i].name + ":" + s.headers[i].value {
      assert lines[3 + i] == lines[3..n + 3][i] == HeaderLine(s.headers[i]);
    }
  }

  /** The signed-header list names exactly the header lines, in their order: the sorted request headers. */
  lemma SignedHeadersAlign(req: Request, date: string, token: Option<string>, digest: seq<byte> -> string)
    ensures var hs := SignedFields(req, date, token, digest).headers;
            && InOrder(hs) && multiset(hs) == multiset(UnsortedHeaders(req.host, date, req.extras, token))
            && ((forall h <- hs :: ';' !in h.name) ==> Split(Join(Names(hs), ";"), ';') == Names(hs))
  {
    var unsorted := UnsortedHeaders(req.host, date, req.extras, token);
    var hs := SortedByName(unsorted);
    SortedByNameIsStableSort(unsorted);
    assert |hs| == |multiset(hs)| == |unsorted|;
    if forall h <- hs :: ';' !in h.name {
      forall n | n in Names(hs) ensures ';' !in n {
        var i :| 0 <= i < |hs| && n == hs[i].name;
        assert hs[i] in hs;
      }
      SplitUndoesJoin(Names(hs), ';');
    }
  }
}
