/** Requests and the rules of internal/coreserver/server.go for their lines. */
module HttpRequest {
  import opened Text
  import opened HttpSyntax
  import opened HttpFraming

  datatype Request = Request(
    verb: string, uri: string, path: string, query: string,
    host: string, auth: string, range: string,
    contentLen: int, keepAlive: bool, http11: bool)

  const ZERO: Request := Request("", "", "", "", "", "", "", 0, false, false)

  // ---- request line ----------------------------------------------------------

  predicate ValidMethod(b: string) {
    b != "" && forall i :: 0 <= i < |b| ==> 'A' <= b[i] <= 'Z'
  }

  predicate ValidTarget(b: string) {
    b != "" && b[0] == '/' && forall i :: 0 <= i < |b| ==> '!' <= b[i] <= '~'
  }

  predicate ValidVersion(b: string) {
    b == "HTTP/1.0" || b == "HTTP/1.1"
  }

  /** parseRequestLine on a zero request: up to the first space the method, up to the next one the target. */
  function RequestLine(line: string): Option<Request> {
    var sp1 := IndexByte(line, ' ');
    if sp1 == 0 || sp1 == |line| || !ValidMethod(line[..sp1]) then None
    else AfterMethod(line[..sp1], line[sp1 + 1..])
  }

  function AfterMethod(verb: string, rest: string): Option<Request> {
    var sp2 := IndexByte(rest, ' ');
    if sp2 == 0 || sp2 == |rest| || !ValidTarget(rest[..sp2]) || !ValidVersion(rest[sp2 + 1..]) then None
    else Some(WithTarget(verb, rest[..sp2], rest[sp2 + 1..] == "HTTP/1.1"))
  }

  function WithTarget(verb: string, target: string, http11: bool): Request {
    var q := IndexByte(target, '?');
    ZERO.(verb := verb, uri := target, http11 := http11, keepAlive := http11,
          path := target[..q], query := if q == |target| then "" else target[q + 1..])
  }

  // ---- header lines ----------------------------------------------------------

  predicate IsTchar(c: char) {
    'A' <= c <= 'Z' || 'a' <= c <= 'z' || '0' <= c <= '9' || c in "!#$%&'*+-.^_`|~"
  }

  predicate ValidName(b: string) {
    b != "" && forall i :: 0 <= i < |b| ==> IsTchar(b[i])
  }

  /** Space, tab, visible ASCII, and every octet from 0x80 up. */
  predicate ValueChar(c: char) {
    IsSpace(c) || '!' <= c <= '~' || c >= 128 as char
  }

  predicate ValidValue(b: string) {
    forall i :: 0 <= i < |b| ==> ValueChar(b[i])
  }

  /** The request under construction and the framing headers seen so far. */
  datatype Headers = Headers(req: Request, seenCL: bool, seenTE: bool, seenHost: bool)

  /** One header line, already cut at its CRLF. */
  function HeaderLine(h: Headers, line: string): Step<Headers>
  {
    if line == "" then Fail(BadRequest)
    else if IsSpace(line[0]) then Fail(SmugglingSuspect)
    else
      var colon := IndexByte(line, ':');
      if colon == 0 || colon == |line| || !ValidName(line[..colon]) then Fail(BadRequest)
      else
        var value := Trim(line[colon + 1..]);
        if !ValidValue(value) then Fail(SmugglingSuspect) else Field(h, KindOf(line[..colon]), value)
  }

  datatype Kind = Host | Range | Authorization | ContentLength | TransferEncoding | Connection | Other

  function KindOf(name: string): Kind {
    if EqualFold(name, "host") then Host
    else if EqualFold(name, "range") then Range
    else if EqualFold(name, "authorization") then Authorization
    else if EqualFold(name, "content-length") then ContentLength
    else if EqualFold(name, "transfer-encoding") then TransferEncoding
    else if EqualFold(name, "connection") then Connection
    else Other
  }

  /** What a well-formed field does to the request. */
  function Field(h: Headers, kind: Kind, value: string): Step<Headers> {
    match kind
    case Host => if h.seenHost then Fail(SmugglingSuspect) else Ok(h.(seenHost := true, req := h.req.(host := value)))
    case Range => Ok(h.(req := h.req.(range := value)))
    case Authorization => Ok(h.(req := h.req.(auth := value)))
    case ContentLength =>
      if h.seenCL || Decimal64(value).None? then Fail(SmugglingSuspect)
      else Ok(h.(seenCL := true, req := h.req.(contentLen := Decimal64(value).value)))
    case TransferEncoding => if !EqualFold(value, "identity") then Fail(SmugglingSuspect) else Ok(h.(seenTE := true))
    case Connection =>
      if HasToken(value, "close") then Ok(h.(req := h.req.(keepAlive := false)))
      else if !h.req.http11 then Ok(h.(req := h.req.(keepAlive := true)))
      else Ok(h)
    case Other => Ok(h)
  }

  /** The checks after the last header. */
  function Finish(h: Headers): Step<Headers> {
    if h.seenTE && h.seenCL then Fail(SmugglingSuspect)
    else if !h.seenHost then Fail(BadRequest)
    else Ok(h)
  }


  function FirstLine(line: string): Step<Headers> {
    match RequestLine(line)
    case None => Fail(BadRequest)
    case Some(req) => Ok(Headers(req, false, false, false))
  }

  function HttpRules(): Rules<Headers> {
    Rules(FirstLine, HeaderLine, Finish)
  }
}

/** What the rules amount to, and the theorems about the two request parsers. */
module HttpSafety {
  import opened Text
  import opened HttpSyntax
  import opened HttpFraming
  import opened HttpGrammar
  import opened HttpRequest

  // ---- request line: section 3.1.1 of RFC 7230 -----------------------------------

  lemma {:induction false} CutAt(s: string, c: char)
    requires IndexByte(s, c) < |s|
    ensures s == s[..IndexByte(s, c)] + [c] + s[IndexByte(s, c) + 1..]
  {
  }

  /** An accepted request line is method SP target SP version. */
  lemma {:induction false} RequestLineForm(line: string)
    ensures RequestLine(line).Some? ==> IsRequestLine(line, RequestLine(line).value)
  {
    if RequestLine(line).Some? {
      CutAt(line, ' ');
      CutAt(line[IndexByte(line, ' ') + 1..], ' ');
    }
  }

  predicate IsRequestLine(line: string, r: Request) {
    && ValidMethod(r.verb) && ValidTarget(r.uri) && r == WithTarget(r.verb, r.uri, r.http11)
    && line == r.verb + [' '] + (r.uri + [' '] + (if r.http11 then "HTTP/1.1" else "HTTP/1.0"))
  }

  /** And every line of that form is accepted. */
  lemma {:induction false} RequestLineAccepted(verb: string, uri: string, version: string)
    requires ValidMethod(verb) && ValidTarget(uri) && ValidVersion(version)
    ensures RequestLine(verb + [' '] + (uri + [' '] + version)) == Some(WithTarget(verb, uri, version == "HTTP/1.1"))
  {
    var rest := uri + [' '] + version;
    AfterMethodAccepted(verb, uri, version);
    Cut(verb, ' ', rest);
    assert ' ' !in verb;
  }

  lemma {:induction false} AfterMethodAccepted(verb: string, uri: string, version: string)
    requires ValidTarget(uri) && ValidVersion(version)
    ensures AfterMethod(verb, uri + [' '] + version) == Some(WithTarget(verb, uri, version == "HTTP/1.1"))
  {
    Cut(uri, ' ', version);
    assert ' ' !in uri;
  }

  /** The first c of a + c + b, when a has none, and the two sides of it. */
  lemma {:induction false} Cut(a: string, c: char, b: string)
    ensures c !in a ==> IndexByte(a + [c] + b, c) == |a|
    ensures (a + [c] + b)[..|a|] == a && (a + [c] + b)[|a| + 1..] == b
  {
    if c !in a { IndexByteAppend(a, c, b); }
  }

  /** Path and query are the target cut at its first question mark. */
  lemma {:induction false} TargetForm(verb: string, uri: string, http11: bool)
    ensures var r := WithTarget(verb, uri, http11);
            '?' !in r.path && (if '?' in uri then uri == r.path + ['?'] + r.query else uri == r.path && r.query == "")
  {
    if '?' in uri { CutAt(uri, '?'); }
  }

  // ---- header lines: sections 3.2, 3.3.3 and 5.4 of RFC 7230 ------------------------

  function KindAt(line: string): Kind {
    KindOf(line[..IndexByte(line, ':')])
  }

  function FieldValue(line: string): string {
    var c := IndexByte(line, ':');
    if c == |line| then "" else Trim(line[c + 1..])
  }

  /** A header line that is acceptable by itself. */
  predicate WellFormed(line: string) {
    && line != "" && !IsSpace(line[0])
    && 0 < IndexByte(line, ':') < |line|
    && ValidName(line[..IndexByte(line, ':')]) && ValidValue(FieldValue(line))
    && (KindAt(line) == ContentLength ==> Decimal64(FieldValue(line)).Some?)
    && (KindAt(line) == TransferEncoding ==> EqualFold(FieldValue(line), "identity"))
  }

  lemma {:induction false} LineAccepted(h: Headers, line: string)
    ensures HeaderLine(h, line).Ok? <==>
            && WellFormed(line)
            && !(h.seenHost && KindAt(line) == Host) && !(h.seenCL && KindAt(line) == ContentLength)
    ensures HeaderLine(h, line).Ok? ==> HeaderLine(h, line) == Field(h, KindAt(line), FieldValue(line))
  {
    FieldAccepted(h, KindAt(line), FieldValue(line));
  }

  lemma {:induction false} FieldAccepted(h: Headers, kind: Kind, value: string)
    ensures Field(h, kind, value).Ok? <==>
            && !(h.seenHost && kind == Host) && !(h.seenCL && kind == ContentLength)
            && (kind == ContentLength ==> Decimal64(value).Some?)
            && (kind == TransferEncoding ==> EqualFold(value, "identity"))
  {
  }

  /** How many lines are of the kind. */
  function Count(lines: seq<string>, kind: Kind): nat {
    if lines == [] then 0
    else (if KindAt(lines[0]) == kind then 1 else 0) + Count(lines[1..], kind)
  }

  /** The value of the last line of the kind. */
  function LastValue(lines: seq<string>, kind: Kind, otherwise: string): string {
    if lines == [] then otherwise
    else LastValue(lines[1..], kind, if KindAt(lines[0]) == kind then FieldValue(lines[0]) else otherwise)
  }

  function Flag(b: bool): nat {
    if b then 1 else 0
  }

  predicate AllWellFormed(lines: seq<string>) {
    forall i :: 0 <= i < |lines| ==> WellFormed(lines[i])
  }

  /** The lines are acceptable one by one and together with the framing headers already seen. */
  predicate Framed(h: Headers, lines: seq<string>) {
    && AllWellFormed(lines)
    && Flag(h.seenHost) + Count(lines, Host) <= 1
    && Flag(h.seenCL) + Count(lines, ContentLength) <= 1
  }

  lemma {:induction false} FieldEffect(h: Headers, kind: Kind, value: string)
    requires Field(h, kind, value).Ok?
    ensures var k := Field(h, kind, value).h;
            && k.seenHost == (h.seenHost || kind == Host)
            && k.seenCL == (h.seenCL || kind == ContentLength)
            && k.seenTE == (h.seenTE || kind == TransferEncoding)
            && k.req.host == (if kind == Host then value else h.req.host)
            && k.req.range == (if kind == Range then value else h.req.range)
            && k.req.auth == (if kind == Authorization then value else h.req.auth)
            && k.req.contentLen == (if kind == ContentLength then Decimal64(value).value else h.req.contentLen)
            && k.req.verb == h.req.verb && k.req.uri == h.req.uri && k.req.path == h.req.path
            && k.req.query == h.req.query && k.req.http11 == h.req.http11
  {
  }

  /** The header lines are accepted exactly when they are framed, and then the flags are right. */
  lemma {:induction false} FieldsAccepted(h: Headers, lines: seq<string>)
    ensures Fields(HttpRules(), h, lines).Ok? <==> Framed(h, lines)
    ensures Fields(HttpRules(), h, lines).Ok? ==>
              var k := Fields(HttpRules(), h, lines).h;
              && k.seenHost == (h.seenHost || Count(lines, Host) > 0)
              && k.seenCL == (h.seenCL || Count(lines, ContentLength) > 0)
              && k.seenTE == (h.seenTE || Count(lines, TransferEncoding) > 0)
    decreases |lines|
  {
    if lines != [] {
      var line, rest := lines[0], lines[1..];
      LineAccepted(h, line);
      if HeaderLine(h, line).Ok? {
        FieldEffect(h, KindAt(line), FieldValue(line));
        FieldsAccepted(HeaderLine(h, line).h, rest);
        assert AllWellFormed(lines) <==> AllWellFormed(rest) by { Rest(lines); }
      }
    }
  }

  lemma {:induction false} Rest(lines: seq<string>)
    requires lines != []
    ensures AllWellFormed(lines) <==> WellFormed(lines[0]) && AllWellFormed(lines[1..])
  {
    assert forall i :: 1 <= i < |lines| ==> lines[i] == lines[1..][i - 1];
  }

  /** What the accepted header lines leave in the request: the last value of each header, nothing else touched. */
  lemma {:induction false} FieldsValues(h: Headers, lines: seq<string>)
    requires Fields(HttpRules(), h, lines).Ok?
    ensures var k := Fields(HttpRules(), h, lines).h;
            && k.req.host == LastValue(lines, Host, h.req.host)
            && k.req.range == LastValue(lines, Range, h.req.range)
            && k.req.auth == LastValue(lines, Authorization, h.req.auth)
            && k.req.verb == h.req.verb && k.req.uri == h.req.uri && k.req.path == h.req.path
            && k.req.query == h.req.query && k.req.http11 == h.req.http11
    decreases |lines|
  {
    if lines != [] {
      LineAccepted(h, lines[0]);
      FieldEffect(h, KindAt(lines[0]), FieldValue(lines[0]));
      FieldsValues(HeaderLine(h, lines[0]).h, lines[1..]);
    }
  }

  /** A request is acceptable: its request line is well formed, each header line is, there is exactly one Host, at most
      one Content-Length, and no Content-Length beside a Transfer-Encoding. */
  predicate Acceptable(lines: seq<string>) {
    && lines != [] && RequestLine(lines[0]).Some?
    && AllWellFormed(lines[1..])
    && Count(lines[1..], Host) == 1
    && Count(lines[1..], ContentLength) + Flag(Count(lines[1..], TransferEncoding) > 0) <= 1
  }

  lemma {:induction false} MeaningAccepted(lines: seq<string>)
    requires lines != []
    ensures Meaning(HttpRules(), lines).Ok? <==> Acceptable(lines)
  {
    if RequestLine(lines[0]).Some? {
      FieldsAccepted(Headers(RequestLine(lines[0]).value, false, false, false), lines[1..]);
    }
  }

  // ---- which error a refused request gets ------------------------------------------------

  /** What is wrong with line i of the header, judged by the lines before it: a folded line, a duplicate or unreadable
      framing header and a control byte in a value make the message suspect; a line without a proper name is merely
      bad. */
  function Offence(lines: seq<string>, i: nat): Option<Error>
    requires i < |lines|
  {
    var line, before := lines[i], lines[..i];
    var colon, kind, value := IndexByte(line, ':'), KindAt(line), FieldValue(line);
    if line == "" then Some(BadRequest)
    else if IsSpace(line[0]) then Some(SmugglingSuspect)
    else if colon == 0 || colon == |line| || !ValidName(line[..colon]) then Some(BadRequest)
    else if !ValidValue(value)
         || (kind == Host && Count(before, Host) > 0)
         || (kind == ContentLength && (Count(before, ContentLength) > 0 || Decimal64(value).None?))
         || (kind == TransferEncoding && !EqualFold(value, "identity"))
    then Some(SmugglingSuspect)
    else None
  }

  /** The flags after the first i lines. */
  predicate Flags(h: Headers, lines: seq<string>, i: nat)
    requires i <= |lines|
  {
    h.seenHost == (Count(lines[..i], Host) > 0) && h.seenCL == (Count(lines[..i], ContentLength) > 0)
  }

  lemma {:induction false} CountSnoc(lines: seq<string>, line: string, kind: Kind)
    ensures Count(lines + [line], kind) == Count(lines, kind) + Flag(KindAt(line) == kind)
    decreases |lines|
  {
    if lines == [] {
      assert (lines + [line])[1..] == [];
    } else {
      assert (lines + [line])[0] == lines[0] && (lines + [line])[1..] == lines[1..] + [line];
      CountSnoc(lines[1..], line, kind);
    }
  }

  lemma {:induction false} FlagsNext(h: Headers, lines: seq<string>, i: nat)
    requires i < |lines| && Flags(h, lines, i) && HeaderLine(h, lines[i]).Ok?
    ensures Flags(HeaderLine(h, lines[i]).h, lines, i + 1)
  {
    assert lines[..i + 1] == lines[..i] + [lines[i]];
    CountSnoc(lines[..i], lines[i], Host);
    CountSnoc(lines[..i], lines[i], ContentLength);
    LineAccepted(h, lines[i]);
    FieldEffect(h, KindAt(lines[i]), FieldValue(lines[i]));
  }

  lemma {:induction false} LineOffends(h: Headers, lines: seq<string>, i: nat)
    requires i < |lines| && Flags(h, lines, i)
    ensures HeaderLine(h, lines[i]).Ok? <==> Offence(lines, i) == None
    ensures HeaderLine(h, lines[i]).Fail? ==> Offence(lines, i) == Some(HeaderLine(h, lines[i]).err)
  {
    FieldAccepted(h, KindAt(lines[i]), FieldValue(lines[i]));
    OnlySuspects(h, KindAt(lines[i]), FieldValue(lines[i]));
  }

  lemma {:induction false} OnlySuspects(h: Headers, kind: Kind, value: string)
    ensures Field(h, kind, value).Fail? ==> Field(h, kind, value).err == SmugglingSuspect
  {
  }

  /** Line k is the first one with something wrong. */
  predicate FirstOffence(lines: seq<string>, k: nat, err: Error) {
    k < |lines| && Offence(lines, k) == Some(err) && forall j :: 0 <= j < k ==> Offence(lines, j) == None
  }

  predicate NoOffence(lines: seq<string>) {
    forall j :: 0 <= j < |lines| ==> Offence(lines, j) == None
  }

  /** The header lines are refused for the first offence among them, and for nothing else. */
  lemma {:induction false} FirstOffenceDecides(lines: seq<string>, i: nat, h: Headers)
    requires i <= |lines| && Flags(h, lines, i) && forall j :: 0 <= j < i ==> Offence(lines, j) == None
    ensures Fields(HttpRules(), h, lines[i..]).Ok? <==> NoOffence(lines)
    ensures Fields(HttpRules(), h, lines[i..]).Fail? ==>
              exists k: nat :: FirstOffence(lines, k, Fields(HttpRules(), h, lines[i..]).err)
    decreases |lines| - i
  {
    hide HeaderLine, Offence, Flags;
    if i < |lines| {
      assert lines[i..][0] == lines[i] && lines[i..][1..] == lines[i + 1..];
      LineOffends(h, lines, i);
      if HeaderLine(h, lines[i]).Ok? {
        FlagsNext(h, lines, i);
        FirstOffenceDecides(lines, i + 1, HeaderLine(h, lines[i]).h);
      } else {
        assert FirstOffence(lines, i, HeaderLine(h, lines[i]).err);
      }
    }
  }

  /** Why a request is refused: a bad request line; else the first offending header line; else both framings at once;
      else no Host. */
  ghost predicate RefusedFor(lines: seq<string>, err: Error)
    requires lines != []
  {
    var rest := lines[1..];
    if RequestLine(lines[0]).None? then err == BadRequest
    else if !NoOffence(rest) then exists k: nat :: FirstOffence(rest, k, err)
    else if Count(rest, TransferEncoding) > 0 && Count(rest, ContentLength) > 0 then err == SmugglingSuspect
    else Count(rest, Host) == 0 && err == BadRequest
  }

  lemma {:induction false} OneFirst(lines: seq<string>, k: nat, l: nat, a: Error, b: Error)
    requires FirstOffence(lines, k, a) && FirstOffence(lines, l, b)
    ensures k == l && a == b
  {
  }

  /** A request gets exactly the error it is refused for. */
  lemma {:induction false} RefusalExplained(lines: seq<string>, err: Error)
    requires lines != []
    ensures Meaning(HttpRules(), lines) == Fail(err) <==> RefusedFor(lines, err)
  {
    var rest := lines[1..];
    if RequestLine(lines[0]).Some? {
      var h := Headers(RequestLine(lines[0]).value, false, false, false);
      assert rest[..0] == [] && rest[0..] == rest;
      FirstOffenceDecides(rest, 0, h);
      FieldsAccepted(h, rest);
      if !NoOffence(rest) { SameError(rest, Fields(HttpRules(), h, rest).err, err); }
    }
  }

  lemma {:induction false} SameError(lines: seq<string>, got: Error, err: Error)
    requires exists k: nat :: FirstOffence(lines, k, got)
    ensures got == err <==> exists k: nat :: FirstOffence(lines, k, err)
  {
    var k: nat :| FirstOffence(lines, k, got);
    forall l: nat | FirstOffence(lines, l, err) ensures got == err {
      OneFirst(lines, k, l, got, err);
    }
  }

  /** The length of an accepted request: that of its Content-Length header, read modulo 2^64. */
  predicate HasLength(lines: seq<string>, otherwise: int, len: int) {
    var v := LastValue(lines, ContentLength, "");
    if Count(lines, ContentLength) == 0 then len == otherwise
    else v != "" && AllDigits(v) && len == Value(v) % TWO_64 && (len == Value(v) <==> Value(v) <= MAX_INT64)
  }

  /** The content length is the number in the header exactly when that number fits 64 bits. */
  lemma {:induction false} ContentLengthValue(h: Headers, lines: seq<string>)
    requires Fields(HttpRules(), h, lines).Ok?
    ensures HasLength(lines, h.req.contentLen, Fields(HttpRules(), h, lines).h.req.contentLen)
  {
    LengthParsed(h, lines);
    if Count(lines, ContentLength) > 0 { ParsedLength(LastValue(lines, ContentLength, "")); }
  }

  lemma {:induction false} ParsedLength(v: string)
    requires Decimal64(v).Some?
    ensures v != "" && AllDigits(v) && Decimal64(v).value == Value(v) % TWO_64
    ensures Decimal64(v).value == Value(v) <==> Value(v) <= MAX_INT64
  {
    if AllDigits(v) { AccumulatedExactly(v); } else { NonDigitRefused(v); }
  }

  lemma {:induction false} LengthParsed(h: Headers, lines: seq<string>)
    requires Fields(HttpRules(), h, lines).Ok?
    ensures var len := Fields(HttpRules(), h, lines).h.req.contentLen;
            if Count(lines, ContentLength) == 0 then len == h.req.contentLen
            else Decimal64(LastValue(lines, ContentLength, "")) == Some(len)
    decreases |lines|
  {
    if lines != [] {
      var line, rest := lines[0], lines[1..];
      LineAccepted(h, line);
      FieldEffect(h, KindAt(line), FieldValue(line));
      LengthParsed(HeaderLine(h, line).h, rest);
      FieldsAccepted(h, lines);
      if KindAt(line) == ContentLength { LastOfNone(rest, ContentLength, FieldValue(line)); }
    }
  }

  lemma {:induction false} LastOfNone(lines: seq<string>, kind: Kind, otherwise: string)
    requires Count(lines, kind) == 0
    ensures LastValue(lines, kind, otherwise) == otherwise
    decreases |lines|
  {
    if lines != [] { LastOfNone(lines[1..], kind, otherwise); }
  }

  predicate Closes(line: string) {
    KindAt(line) == Connection && HasToken(FieldValue(line), "close")
  }

  lemma {:induction false} FieldKeepAlive(h: Headers, kind: Kind, value: string)
    requires Field(h, kind, value).Ok?
    ensures var k := Field(h, kind, value).h;
            && k.req.http11 == h.req.http11
            && (k.req.keepAlive <==>
                  if kind == Connection && HasToken(value, "close") then false
                  else h.req.keepAlive || (kind == Connection && !h.req.http11))
  {
  }

  lemma {:induction false} LineKeepAlive(h: Headers, line: string)
    requires HeaderLine(h, line).Ok?
    ensures var k := HeaderLine(h, line).h;
            && k.req.http11 == h.req.http11
            && (k.req.keepAlive <==>
                  if Closes(line) then false else h.req.keepAlive || (KindAt(line) == Connection && !h.req.http11))
  {
    LineAccepted(h, line);
    FieldKeepAlive(h, KindAt(line), FieldValue(line));
  }

  /** HTTP/1.1 keeps the connection unless some Connection header says close. */
  lemma {:induction false} KeepAlive11(h: Headers, lines: seq<string>)
    requires h.req.http11 && Fields(HttpRules(), h, lines).Ok?
    ensures Fields(HttpRules(), h, lines).h.req.keepAlive == (h.req.keepAlive && NoneCloses(lines))
    decreases |lines|
  {
    if lines != [] {
      LineKeepAlive(h, lines[0]);
      KeepAlive11(HeaderLine(h, lines[0]).h, lines[1..]);
      NoneClosesRest(lines);
    }
  }

  predicate NoneCloses(lines: seq<string>) {
    forall i :: 0 <= i < |lines| ==> !Closes(lines[i])
  }

  lemma {:induction false} NoneClosesRest(lines: seq<string>)
    requires lines != []
    ensures NoneCloses(lines) <==> !Closes(lines[0]) && NoneCloses(lines[1..])
  {
    assert forall i :: 1 <= i < |lines| ==> lines[i] == lines[1..][i - 1];
  }

  /** HTTP/1.0 keeps it when there is a Connection header and the last one does not say close. */
  lemma {:induction false} KeepAlive10(h: Headers, lines: seq<string>)
    requires !h.req.http11 && Fields(HttpRules(), h, lines).Ok?
    ensures Fields(HttpRules(), h, lines).h.req.keepAlive ==
            if Count(lines, Connection) == 0 then h.req.keepAlive
            else !HasToken(LastValue(lines, Connection, ""), "close")
    decreases |lines|
  {
    if lines != [] {
      var line, rest := lines[0], lines[1..];
      LineKeepAlive(h, line);
      KeepAlive10(HeaderLine(h, line).h, rest);
      if Count(rest, Connection) == 0 {
        LastOfNone(rest, Connection, FieldValue(line));
      } else {
        LastOfSome(rest, Connection, "", FieldValue(line));
      }
    }
  }

  lemma {:induction false} LastOfSome(lines: seq<string>, kind: Kind, a: string, b: string)
    requires Count(lines, kind) > 0
    ensures LastValue(lines, kind, a) == LastValue(lines, kind, b)
    decreases |lines|
  {
    if KindAt(lines[0]) != kind { LastOfSome(lines[1..], kind, a, b); }
  }

  // ---- no rule accepts a line break inside a line --------------------------------------

  lemma {:induction false} ValidClean(verb: string, uri: string, version: string)
    requires ValidMethod(verb) && ValidTarget(uri) && ValidVersion(version)
    ensures CleanLine(verb + [' '] + (uri + [' '] + version))
  {
    var line := verb + [' '] + (uri + [' '] + version);
    forall i | 0 <= i < |line| ensures line[i] != '\r' && line[i] != '\n' {
      if i > |verb| + 1 + |uri| { assert line[i] == version[i - |verb| - 2 - |uri|]; }
    }
  }

  lemma {:induction false} FirstLineClean(line: string)
    ensures RequestLine(line).Some? ==> CleanLine(line)
  {
    RequestLineForm(line);
    if RequestLine(line).Some? {
      var r := RequestLine(line).value;
      ValidClean(r.verb, r.uri, if r.http11 then "HTTP/1.1" else "HTTP/1.0");
    }
  }

  lemma {:induction false} WellFormedClean(line: string)
    requires WellFormed(line)
    ensures CleanLine(line)
  {
    hide CleanLine, ValidName, ValidValue, Trim;
    var c := IndexByte(line, ':');
    NameVisible(line[..c]);
    TrimHides(line[c + 1..]);
    CleanParts(line[..c], line[c + 1..]);
    assert line == line[..c] + [':'] + line[c + 1..];
  }

  lemma {:induction false} NameVisible(name: string)
    requires ValidName(name)
    ensures forall k :: 0 <= k < |name| ==> name[k] > ' '
  {
    forall k | 0 <= k < |name| ensures name[k] > ' ' {
      assert IsTchar(name[k]);
    }
  }

  lemma {:induction false} CleanParts(name: string, rest: string)
    requires forall k :: 0 <= k < |name| ==> name[k] > ' '
    requires forall k :: 0 <= k < |rest| ==> ValueChar(rest[k])
    ensures CleanLine(name + [':'] + rest)
  {
  }

  /** Trimming takes away only spaces and tabs. */
  lemma {:induction false} TrimHides(s: string)
    requires ValidValue(Trim(s))
    ensures forall k :: 0 <= k < |s| ==> ValueChar(s[k])
  {
    var i := SkipSpaces(s, 0);
    var j := BackSpaces(s, i, |s|);
    forall k | 0 <= k < |s| ensures ValueChar(s[k]) {
      if i <= k < j { assert Trim(s)[k - i] == s[k]; }
    }
  }

  lemma {:induction false} RulesStrict()
    ensures Strict(HttpRules())
  {
    forall line | HttpRules().first(line).Ok? ensures CleanLine(line) {
      FirstLineClean(line);
    }
    forall h, line | HttpRules().field(h, line).Ok? ensures CleanLine(line) {
      LineAccepted(h, line);
      WellFormedClean(line);
    }
  }

  // ---- the theorems -------------------------------------------------------------------

  /** On every byte stream the two parsers accept the same requests after the same number of bytes, as long as the
      header block fits the line reader's buffer; Raw is in both cases the bytes consumed. */
  lemma {:induction false} ParsersAgree(s: string, h: Headers, n: nat)
    ensures ReadStream(HttpRules(), s) == Accept(h, n) <==>
            n <= HEADER_LIMIT && ParseBuffer(HttpRules(), s) == Accept(h, n)
  {
    RulesStrict();
    ReaderAccepts(HttpRules(), s, h, n);
    BufferAccepts(HttpRules(), s, h, n);
  }

  /** They also refuse alike, with the same error, whenever the bytes begin with complete lines and a blank one. */
  lemma {:induction false} ParsersRefuseAlike(s: string, lines: seq<string>)
    requires lines != [] && Clean(lines) && At(s, 0, Render(lines)) && |Render(lines)| <= HEADER_LIMIT
    ensures ReadStream(HttpRules(), s) == ParseBuffer(HttpRules(), s)
    ensures ReadStream(HttpRules(), s).Accept? <==> Acceptable(lines)
    ensures forall err :: ReadStream(HttpRules(), s) == Reject(err) <==> RefusedFor(lines, err)
  {
    ReaderComplete(HttpRules(), s, lines);
    BufferComplete(HttpRules(), s, lines);
    MeaningAccepted(lines);
    forall err ensures Meaning(HttpRules(), lines) == Fail(err) <==> RefusedFor(lines, err) {
      RefusalExplained(lines, err);
    }
  }

  /** The request holds what the lines say: each part of the request line, the last Host, Range and Authorization, the
      length, and whether the connection is kept. */
  predicate Says(lines: seq<string>, r: Request)
    requires lines != []
  {
    var rest := lines[1..];
    && lines[0] == r.verb + [' '] + (r.uri + [' '] + (if r.http11 then "HTTP/1.1" else "HTTP/1.0"))
    && '?' !in r.path
    && (if '?' in r.uri then r.uri == r.path + ['?'] + r.query else r.uri == r.path && r.query == "")
    && r.host == LastValue(rest, Host, "")
    && r.range == LastValue(rest, Range, "")
    && r.auth == LastValue(rest, Authorization, "")
    && HasLength(rest, 0, r.contentLen)
    && (r.keepAlive <==>
          if r.http11 then NoneCloses(rest)
          else Count(rest, Connection) > 0 && !HasToken(LastValue(rest, Connection, ""), "close"))
  }

  lemma {:induction false} MeaningSays(lines: seq<string>)
    requires lines != [] && Meaning(HttpRules(), lines).Ok?
    ensures Says(lines, Meaning(HttpRules(), lines).h.req)
  {
    RequestLineForm(lines[0]);
    var req, rest := RequestLine(lines[0]).value, lines[1..];
    TargetForm(req.verb, req.uri, req.http11);
    var h := Headers(req, false, false, false);
    FieldsValues(h, rest);
    ContentLengthValue(h, rest);
    if req.http11 { KeepAlive11(h, rest); } else { KeepAlive10(h, rest); }
  }

  /** What is accepted is a rendered, acceptable list of lines, and the request holds what the lines say. */
  lemma {:induction false} AcceptedIsFramed(s: string)
    ensures var parsed := ParseBuffer(HttpRules(), s);
            parsed.Accept? ==>
              exists lines :: Clean(lines) && Acceptable(lines) && At(s, 0, Render(lines))
                              && parsed.consumed == |Render(lines)| && Says(lines, parsed.h.req)
  {
    if ParseBuffer(HttpRules(), s).Accept? {
      RulesStrict();
      var lines := BufferSound(HttpRules(), s);
      BufferComplete(HttpRules(), s, lines);
      MeaningAccepted(lines);
      MeaningSays(lines);
    }
  }
}
