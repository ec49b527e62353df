/** How both request parsers of internal/coreserver cut their input into lines: readRequest (a stream, line by line) and
    parseRequestFromBuf (a receive buffer, by the first blank line). What a line means is a parameter here. */
module HttpFraming {

  /** Size of the scratch buffer and of the stream's read buffer. */
  const HEADER_LIMIT: nat := 16384

  datatype Error = BadRequest | SmugglingSuspect | HeaderTooLarge | NeedMoreData | EndOfStream

  datatype Step<H> = Ok(h: H) | Fail(err: Error)

  /** The meaning of the request line, of each header line, and of the end of the header block. */
  datatype Rules<!H> = Rules(first: string -> Step<H>, field: (H, string) -> Step<H>, last: H -> Step<H>)

  datatype Parsed<H> = Accept(h: H, consumed: nat) | Reject(err: Error)

  // ---- the header block --------------------------------------------------------------

  predicate CrlfAt(s: string, i: int) {
    0 <= i && i + 1 < |s| && s[i] == '\r' && s[i + 1] == '\n'
  }

  /** The first CRLF at or after p, or |s|. */
  function IndexCrlf(s: string, p: nat): (i: nat)
    requires p <= |s|
    ensures p <= i <= |s|
    ensures i < |s| ==> CrlfAt(s, i)
    ensures forall k :: p <= k < i ==> !CrlfAt(s, k)
    decreases |s| - p
  {
    if p + 1 >= |s| then |s|
    else if CrlfAt(s, p) then p
    else IndexCrlf(s, p + 1)
  }

  /** The header lines from position p of hdr on. */
  function HeaderLoop<H>(rules: Rules<H>, hdr: string, p: nat, h: H): Step<H>
    requires p <= |hdr|
    decreases |hdr| - p
  {
    if p == |hdr| then Ok(h)
    else
      var e := IndexCrlf(hdr, p);
      if e == |hdr| then Fail(BadRequest)
      else if e == p then Ok(h)
      else
        match rules.field(h, hdr[p..e])
        case Fail(err) => Fail(err)
        case Ok(h') => HeaderLoop(rules, hdr, e + 2, h')
  }

  /** Both parsers from the header block on. */
  function Block<H>(rules: Rules<H>, hdr: string): Step<H> {
    var e := IndexCrlf(hdr, 0);
    if e == |hdr| then Fail(BadRequest)
    else
      match rules.first(hdr[..e])
      case Fail(err) => Fail(err)
      case Ok(h0) =>
        match HeaderLoop(rules, hdr, e + 2, h0)
        case Fail(err) => Fail(err)
        case Ok(h) => rules.last(h)
  }

  // ---- readRequest ---------------------------------------------------------------

  datatype Read = Got(n: nat) | Stopped(err: Error)

  /** Reading lines from position n of the stream until a blank one; the block may not outgrow the scratch buffer. */
  function ReadLines(s: string, n: nat): (r: Read)
    requires n <= |s|
    ensures r.Got? ==> n < r.n <= |s| && r.n <= HEADER_LIMIT
    decreases |s| - n
  {
    var k := IndexByteFrom(s, n, '\n');
    if k == |s| then Stopped(if |s| - n >= HEADER_LIMIT then HeaderTooLarge else EndOfStream)
    else if k + 1 > HEADER_LIMIT then Stopped(HeaderTooLarge)
    else if k == n || (k == n + 1 && s[n] == '\r') then Got(k + 1)
    else ReadLines(s, k + 1)
  }

  /** The first c at or after p, or |s|. */
  function IndexByteFrom(s: string, p: nat, c: char): (i: nat)
    requires p <= |s|
    ensures p <= i <= |s|
    ensures i < |s| ==> s[i] == c
    ensures forall k :: p <= k < i ==> s[k] != c
    decreases |s| - p
  {
    if p == |s| || s[p] == c then p else IndexByteFrom(s, p + 1, c)
  }

  /** readRequest on everything the connection will ever deliver. */
  function ReadStream<H>(rules: Rules<H>, s: string): Parsed<H> {
    match ReadLines(s, 0)
    case Stopped(err) => Reject(err)
    case Got(n) =>
      match Block(rules, s[..n])
      case Fail(err) => Reject(err)
      case Ok(h) => Accept(h, n)
  }

  // ---- parseRequestFromBuf ---------------------------------------------------------

  predicate BlankLineAt(s: string, i: int) {
    0 <= i && i + 4 <= |s| && s[i] == '\r' && s[i + 1] == '\n' && s[i + 2] == '\r' && s[i + 3] == '\n'
  }

  function IndexBlankLine(s: string, p: nat): (i: nat)
    requires p <= |s|
    ensures p <= i <= |s|
    ensures i < |s| ==> BlankLineAt(s, i)
    ensures forall k :: p <= k < i ==> !BlankLineAt(s, k)
    decreases |s| - p
  {
    if p + 4 > |s| then |s|
    else if BlankLineAt(s, p) then p
    else IndexBlankLine(s, p + 1)
  }

  function ParseBuffer<H>(rules: Rules<H>, buf: string): Parsed<H> {
    var end := IndexBlankLine(buf, 0);
    if end == |buf| then Reject(NeedMoreData)
    else
      match Block(rules, buf[..end + 2])
      case Fail(err) => Reject(err)
      case Ok(h) => Accept(h, end + 4)
  }

  // ---- the loops -------------------------------------------------------------------

  /** The header loop of both parsers over hdr: one line at a time. */
  method ParseHeaders<H>(rules: Rules<H>, hdr: string) returns (r: Step<H>)
    ensures r == Block(rules, hdr)
  {
    var end := IndexCrlf(hdr, 0);
    if end == |hdr| { return Fail(BadRequest); }
    var first := rules.first(hdr[..end]);
    if first.Fail? { return first; }
    var h := first.h;
    var at := end + 2;
    while at < |hdr|
      invariant end + 2 <= at <= |hdr|
      invariant HeaderLoop(rules, hdr, at, h) == HeaderLoop(rules, hdr, end + 2, first.h)
    {
      var e := IndexCrlf(hdr, at);
      if e == |hdr| { return Fail(BadRequest); }
      if e == at { break; }
      var step := rules.field(h, hdr[at..e]);
      if step.Fail? { return step; }
      h := step.h;
      at := e + 2;
    }
    r := rules.last(h);
  }

  method CopyInto(scratch: array<char>, n: nat, line: string)
    requires n + |line| <= scratch.Length
    modifies scratch
    ensures scratch[..n + |line|] == old(scratch[..n]) + line
  {
    forall i | 0 <= i < |line| { scratch[n + i] := line[i]; }
    assert scratch[..n] == old(scratch[..n]);
    assert scratch[n..n + |line|] == line;
    assert scratch[..n + |line|] == scratch[..n] + scratch[n..n + |line|];
  }

  lemma {:induction false} PrefixGrows(s: string, n: nat, m: nat)
    requires n <= m <= |s|
    ensures s[..m] == s[..n] + s[n..m]
  {
  }

  /** readRequest: lines are copied into scratch until a blank one, then the block is parsed where it lies. */
  method ReadRequest<H>(rules: Rules<H>, s: string, scratch: array<char>) returns (r: Parsed<H>)
    requires scratch.Length == HEADER_LIMIT
    modifies scratch
    ensures r == ReadStream(rules, s)
    ensures r.Accept? ==> r.consumed <= |s| && r.consumed <= scratch.Length && scratch[..r.consumed] == s[..r.consumed]
  {
    hide Block, IndexByteFrom;
    var n := 0;
    while true
      invariant n <= |s| && n <= scratch.Length
      invariant scratch[..n] == s[..n]
      invariant ReadLines(s, n) == ReadLines(s, 0)
      decreases |s| - n
    {
      var k := IndexByteFrom(s, n, '\n');
      if k == |s| { return Reject(if |s| - n >= HEADER_LIMIT then HeaderTooLarge else EndOfStream); }
      var line := s[n..k + 1];
      if n + |line| > scratch.Length { return Reject(HeaderTooLarge); }
      CopyInto(scratch, n, line);
      PrefixGrows(s, n, k + 1);
      n := n + |line|;
      if |line| == 1 || (|line| == 2 && line[0] == '\r') { break; }
    }
    var block := ParseHeaders(rules, scratch[..n]);
    if block.Fail? { return Reject(block.err); }
    return Accept(block.h, n);
  }

  /** parseRequestFromBuf. */
  method ParseRequestFromBuf<H>(rules: Rules<H>, buf: string) returns (r: Parsed<H>)
    ensures r == ParseBuffer(rules, buf)
  {
    var end := IndexBlankLine(buf, 0);
    if end == |buf| { return Reject(NeedMoreData); }
    var block := ParseHeaders(rules, buf[..end + 2]);
    if block.Fail? { return Reject(block.err); }
    return Accept(block.h, end + 4);
  }
}

/** The grammar both parsers implement: a request is a list of lines, each followed by CRLF, then an empty line
    (section 3 of RFC 7230). */
module HttpGrammar {
  import opened HttpFraming

  /** A line: not empty, no CR, no LF. */
  predicate CleanLine(line: string) {
    line != "" && '\r' !in line && '\n' !in line
  }

  predicate Clean(lines: seq<string>) {
    forall i :: 0 <= i < |lines| ==> CleanLine(lines[i])
  }

  function Body(lines: seq<string>): string {
    if lines == [] then "" else lines[0] + "\r\n" + Body(lines[1..])
  }

  function Render(lines: seq<string>): string {
    Body(lines) + "\r\n"
  }

  /** The header lines, one after the other. */
  function Fields<H>(rules: Rules<H>, h: H, lines: seq<string>): Step<H> {
    if lines == [] then Ok(h)
    else
      match rules.field(h, lines[0])
      case Fail(err) => Fail(err)
      case Ok(h') => Fields(rules, h', lines[1..])
  }

  /** What a list of lines asks for. */
  function Meaning<H>(rules: Rules<H>, lines: seq<string>): Step<H>
    requires lines != []
  {
    match rules.first(lines[0])
    case Fail(err) => Fail(err)
    case Ok(h0) =>
      match Fields(rules, h0, lines[1..])
      case Fail(err) => Fail(err)
      case Ok(h) => rules.last(h)
  }

  predicate At(s: string, p: nat, t: string) {
    p + |t| <= |s| && s[p..p + |t|] == t
  }

  lemma {:induction false} AtHead(s: string, p: nat, lines: seq<string>)
    requires lines != [] && At(s, p, Body(lines))
    ensures var e := p + |lines[0]|;
            && At(s, p, lines[0]) && CrlfAt(s, e)
            && At(s, e + 2, Body(lines[1..])) && e + 2 + |Body(lines[1..])| == p + |Body(lines)|
  {
    var a, b := lines[0], Body(lines[1..]);
    var t := a + "\r\n" + b;
    var e := |a|;
    assert s[p..p + |t|] == t;
    assert s[p..p + e] == t[..e] == a;
    assert s[p + e] == t[e] && s[p + e + 1] == t[e + 1];
    assert s[p + e + 2..p + |t|] == t[e + 2..] == b;
  }

  // ---- completeness: what the parsers do with rendered lines ---------------------------

  /** The line reader passes over complete lines. */
  lemma {:induction false} ReaderSkips(s: string, p: nat, q: nat, lines: seq<string>)
    requires Clean(lines) && At(s, p, Body(lines)) && q == p + |Body(lines)| <= HEADER_LIMIT
    ensures ReadLines(s, p) == ReadLines(s, q)
    decreases |lines|
  {
    if lines != [] {
      AtHead(s, p, lines);
      var next := p + |lines[0]| + 2;
      ReaderSkips(s, next, q, lines[1..]);
      ReaderSkipsLine(s, p, next, lines[0]);
    }
  }

  lemma {:induction false} ReaderSkipsLine(s: string, p: nat, next: nat, line: string)
    requires CleanLine(line) && At(s, p, line) && CrlfAt(s, p + |line|) && next == p + |line| + 2 <= HEADER_LIMIT
    ensures ReadLines(s, p) == ReadLines(s, next)
  {
    NoBreakInside(s, p, line);
    assert IndexByteFrom(s, p, '\n') == p + |line| + 1;
  }

  lemma {:induction false} NoBreakInside(s: string, p: nat, line: string)
    requires At(s, p, line) && CleanLine(line)
    ensures forall k :: p <= k < p + |line| ==> s[k] != '\r' && s[k] != '\n'
  {
    forall k | p <= k < p + |line| ensures s[k] != '\r' && s[k] != '\n' {
      assert s[k] == s[p..p + |line|][k - p] == line[k - p];
    }
  }

  lemma {:induction false} ReaderStops(s: string, lines: seq<string>)
    requires Clean(lines) && At(s, 0, Render(lines)) && |Render(lines)| <= HEADER_LIMIT
    ensures ReadLines(s, 0) == Got(|Render(lines)|)
  {
    var n := |Body(lines)|;
    RenderAt(s, lines);
    ReaderSkips(s, 0, |Body(lines)|, lines);
    assert IndexByteFrom(s, n, '\n') == n + 1;
  }

  lemma {:induction false} RenderAt(s: string, lines: seq<string>)
    requires At(s, 0, Render(lines))
    ensures var n := |Body(lines)|;
            At(s, 0, Body(lines)) && CrlfAt(s, n) && |Render(lines)| == n + 2
  {
    var t := Render(lines);
    assert forall i :: 0 <= i < |t| ==> s[i] == s[0..|t|][i] == t[i];
    assert forall i :: 0 <= i < |Body(lines)| ==> t[i] == Body(lines)[i];
    assert t[|Body(lines)|] == '\r' && t[|Body(lines)| + 1] == '\n';
  }

  /** No blank line begins before the CRLF of the last line. */
  lemma {:induction false} NoBlankInside(s: string, p: nat, lines: seq<string>)
    requires lines != [] && Clean(lines) && At(s, p, Body(lines))
    ensures |Body(lines)| >= 2
    ensures forall k :: p <= k < p + |Body(lines)| - 2 ==> !BlankLineAt(s, k)
    decreases |lines|
  {
    AtHead(s, p, lines);
    NoBreakInside(s, p, lines[0]);
    if |lines| > 1 {
      AtHead(s, p + |lines[0]| + 2, lines[1..]);
      NoBreakInside(s, p + |lines[0]| + 2, lines[1]);
      NoBlankInside(s, p + |lines[0]| + 2, lines[1..]);
    }
  }

  lemma {:induction false} LastBreak(s: string, p: nat, lines: seq<string>)
    requires lines != [] && At(s, p, Body(lines))
    ensures |Body(lines)| >= 2 && CrlfAt(s, p + |Body(lines)| - 2)
    decreases |lines|
  {
    AtHead(s, p, lines);
    if |lines| > 1 { LastBreak(s, p + |lines[0]| + 2, lines[1..]); }
  }

  lemma {:induction false} BlankFound(s: string, lines: seq<string>)
    requires lines != [] && Clean(lines) && At(s, 0, Render(lines))
    ensures |Body(lines)| >= 2 && IndexBlankLine(s, 0) == |Body(lines)| - 2
  {
    RenderAt(s, lines);
    NoBlankInside(s, 0, lines);
    LastBreak(s, 0, lines);
    assert BlankLineAt(s, |Body(lines)| - 2);
  }

  /** The header loop over one line. */
  lemma {:induction false} LoopOne<H>(rules: Rules<H>, hdr: string, p: nat, h: H, line: string)
    requires CleanLine(line) && At(hdr, p, line) && CrlfAt(hdr, p + |line|)
    ensures HeaderLoop(rules, hdr, p, h) ==
            match rules.field(h, line)
            case Fail(err) => Fail(err)
            case Ok(h') => HeaderLoop(rules, hdr, p + |line| + 2, h')
  {
    CutHere(hdr, p, line);
  }

  lemma {:induction false} LoopStops<H>(rules: Rules<H>, hdr: string, p: nat, h: H)
    requires p == |hdr| || CrlfAt(hdr, p)
    ensures HeaderLoop(rules, hdr, p, h) == Ok(h)
  {
  }

  /** The header loop over rendered lines, up to the end of the block or up to a blank line. */
  lemma {:induction false} LoopReads<H>(rules: Rules<H>, hdr: string, p: nat, h: H, lines: seq<string>)
    requires Clean(lines) && At(hdr, p, Body(lines))
    requires var q := p + |Body(lines)|; q == |hdr| || CrlfAt(hdr, q)
    ensures HeaderLoop(rules, hdr, p, h) == Fields(rules, h, lines)
    decreases |lines|
  {
    hide HeaderLoop, CleanLine;
    if lines == [] {
      LoopStops(rules, hdr, p, h);
    } else {
      AtHead(hdr, p, lines);
      LoopOne(rules, hdr, p, h, lines[0]);
      var step := rules.field(h, lines[0]);
      if step.Ok? { LoopReads(rules, hdr, p + |lines[0]| + 2, step.h, lines[1..]); }
    }
  }

  lemma {:induction false} CutHere(s: string, p: nat, line: string)
    requires CleanLine(line) && At(s, p, line) && CrlfAt(s, p + |line|)
    ensures IndexCrlf(s, p) == p + |line|
  {
    NoBreakInside(s, p, line);
  }

  lemma {:induction false} BlockReads<H>(rules: Rules<H>, hdr: string, lines: seq<string>)
    requires lines != [] && Clean(lines) && At(hdr, 0, Body(lines))
    requires var q := |Body(lines)|; q == |hdr| || CrlfAt(hdr, q)
    ensures Block(rules, hdr) == Meaning(rules, lines)
  {
    AtHead(hdr, 0, lines);
    CutHere(hdr, 0, lines[0]);
    var e := |lines[0]|;
    assert hdr[..e] == hdr[0..0 + e];
    var first := rules.first(lines[0]);
    if first.Ok? { LoopReads(rules, hdr, e + 2, first.h, lines[1..]); }
  }

  function Verdict<H>(rules: Rules<H>, lines: seq<string>): Parsed<H>
    requires lines != []
  {
    match Meaning(rules, lines)
    case Fail(err) => Reject(err)
    case Ok(h) => Accept(h, |Render(lines)|)
  }

  /** Whatever follows it, a rendered request is given its meaning by the line reader, errors included. */
  lemma {:induction false} ReaderComplete<H>(rules: Rules<H>, s: string, lines: seq<string>)
    requires lines != [] && Clean(lines) && At(s, 0, Render(lines)) && |Render(lines)| <= HEADER_LIMIT
    ensures ReadStream(rules, s) == Verdict(rules, lines)
  {
    RenderAt(s, lines);
    ReaderStops(s, lines);
    var hdr := s[..|Render(lines)|];
    assert hdr[0..0 + |Body(lines)|] == s[0..0 + |Body(lines)|];
    BlockReads(rules, hdr, lines);
  }

  /** And by the buffer parser. */
  lemma {:induction false} BufferComplete<H>(rules: Rules<H>, s: string, lines: seq<string>)
    requires lines != [] && Clean(lines) && At(s, 0, Render(lines))
    ensures ParseBuffer(rules, s) == Verdict(rules, lines)
  {
    RenderAt(s, lines);
    BlankFound(s, lines);
    var hdr := s[..|Body(lines)|];
    assert hdr[0..0 + |Body(lines)|] == s[0..0 + |Body(lines)|];
    BlockReads(rules, hdr, lines);
  }

  // ---- a bare LF does not end the header block ------------------------------------------

  /** The error of complete lines followed by a bare LF: that of the first bad line, else a bad request. */
  function BareLfError<H>(rules: Rules<H>, lines: seq<string>): Error
    requires lines != []
  {
    match rules.first(lines[0])
    case Fail(err) => err
    case Ok(h0) =>
      match Fields(rules, h0, lines[1..])
      case Fail(err) => err
      case Ok(_) => BadRequest
  }

  lemma {:induction false} LoopEnds<H>(rules: Rules<H>, hdr: string, p: nat, h: H)
    requires p + 1 == |hdr|
    ensures HeaderLoop(rules, hdr, p, h) == Fail(BadRequest)
  {
  }

  lemma {:induction false} LoopAtBareLf<H>(rules: Rules<H>, hdr: string, p: nat, h: H, lines: seq<string>)
    requires Clean(lines) && At(hdr, p, Body(lines)) && p + |Body(lines)| + 1 == |hdr|
    ensures HeaderLoop(rules, hdr, p, h) ==
            match Fields(rules, h, lines) { case Fail(err) => Fail(err) case Ok(_) => Fail(BadRequest) }
    decreases |lines|
  {
    hide HeaderLoop, CleanLine;
    if lines == [] {
      LoopEnds(rules, hdr, p, h);
    } else {
      AtHead(hdr, p, lines);
      LoopOne(rules, hdr, p, h, lines[0]);
      var step := rules.field(h, lines[0]);
      if step.Ok? { LoopAtBareLf(rules, hdr, p + |lines[0]| + 2, step.h, lines[1..]); }
    }
  }

  lemma {:induction false} BlockAtBareLf<H>(rules: Rules<H>, hdr: string, lines: seq<string>)
    requires lines != [] && Clean(lines) && At(hdr, 0, Body(lines)) && |Body(lines)| + 1 == |hdr|
    ensures Block(rules, hdr) == Fail(BareLfError(rules, lines))
  {
    AtHead(hdr, 0, lines);
    CutHere(hdr, 0, lines[0]);
    var e := |lines[0]|;
    assert hdr[..e] == hdr[0..0 + e];
    var first := rules.first(lines[0]);
    if first.Ok? { LoopAtBareLf(rules, hdr, e + 2, first.h, lines[1..]); }
  }

  /** Complete lines and a bare LF: the line reader stops there and refuses, whatever follows; the buffer parser still
      waits for a blank line. */
  lemma {:induction false} BareLfRefused<H>(rules: Rules<H>, s: string, lines: seq<string>)
    requires lines != [] && Clean(lines) && At(s, 0, Body(lines)) && |Body(lines)| < HEADER_LIMIT
    requires |Body(lines)| < |s| && s[|Body(lines)|] == '\n'
    ensures ReadStream(rules, s) == Reject(BareLfError(rules, lines))
    ensures ParseBuffer(rules, s[..|Body(lines)| + 1]) == Reject(NeedMoreData)
  {
    hide Block, BlankLineAt, CleanLine;
    var n := |Body(lines)|;
    var hdr := s[..n + 1];
    assert hdr[0..0 + n] == s[0..0 + n];
    ReaderAtBareLf(s, n, lines);
    BlockAtBareLf(rules, hdr, lines);
    NoBlankYet(hdr, lines);
  }

  lemma {:induction false} ReaderAtBareLf(s: string, n: nat, lines: seq<string>)
    requires Clean(lines) && n == |Body(lines)| && At(s, 0, Body(lines)) && n < HEADER_LIMIT && n < |s| && s[n] == '\n'
    ensures ReadLines(s, 0) == Got(n + 1)
  {
    ReaderSkips(s, 0, n, lines);
  }

  lemma {:induction false} NoBlankYet(hdr: string, lines: seq<string>)
    requires lines != [] && Clean(lines) && At(hdr, 0, Body(lines)) && |hdr| == |Body(lines)| + 1
    ensures IndexBlankLine(hdr, 0) == |hdr|
  {
    NoBlankInside(hdr, 0, lines);
  }

  // ---- soundness: what is accepted is rendered ---------------------------------------

  /** The rules accept no line with a CR or an LF in it, and no empty line. */
  ghost predicate Strict<H(!new)>(rules: Rules<H>) {
    && (forall line :: rules.first(line).Ok? ==> CleanLine(line))
    && (forall h, line :: rules.field(h, line).Ok? ==> CleanLine(line))
  }

  lemma {:induction false} NoLines(s: string, p: nat)
    requires p <= |s|
    ensures Body([]) == "" && At(s, p, Body([]))
  {
  }

  /** The lines the header loop went over, and where it stopped. */
  lemma {:induction false} LoopFinds<H(!new)>(rules: Rules<H>, hdr: string, p: nat, h: H)
    returns (lines: seq<string>)
    requires Strict(rules) && p <= |hdr| && HeaderLoop(rules, hdr, p, h).Ok?
    ensures Clean(lines) && At(hdr, p, Body(lines))
    ensures var q := p + |Body(lines)|; q == |hdr| || CrlfAt(hdr, q)
    decreases |hdr| - p
  {
    hide CleanLine, Body;
    var e := IndexCrlf(hdr, p);
    if p == |hdr| || e == p {
      NoLines(hdr, p);
      lines := [];
    } else {
      var rest := LoopFinds(rules, hdr, e + 2, rules.field(h, hdr[p..e]).h);
      lines := [hdr[p..e]] + rest;
      Prepend(hdr, p, e, rest);
    }
  }

  lemma {:induction false} Prepend(s: string, p: nat, e: nat, rest: seq<string>)
    requires p <= e && CrlfAt(s, e) && At(s, e + 2, Body(rest))
    ensures At(s, p, Body([s[p..e]] + rest))
    ensures p + |Body([s[p..e]] + rest)| == e + 2 + |Body(rest)|
  {
    var lines := [s[p..e]] + rest;
    assert lines[1..] == rest;
    assert s[e..e + 2] == "\r\n";
    assert s[p..e + 2] == s[p..e] + "\r\n";
    assert s[p..e + 2 + |Body(rest)|] == s[p..e + 2] + s[e + 2..e + 2 + |Body(rest)|];
  }

  lemma {:induction false} BlockFinds<H(!new)>(rules: Rules<H>, hdr: string) returns (lines: seq<string>)
    requires Strict(rules) && Block(rules, hdr).Ok?
    ensures lines != [] && Clean(lines) && At(hdr, 0, Body(lines))
    ensures var q := |Body(lines)|; q == |hdr| || CrlfAt(hdr, q)
  {
    var e := IndexCrlf(hdr, 0);
    var first := rules.first(hdr[..e]);
    assert hdr[..e] == hdr[0..e];
    var rest := LoopFinds(rules, hdr, e + 2, first.h);
    lines := [hdr[0..e]] + rest;
    Prepend(hdr, 0, e, rest);
  }

  lemma {:induction false} AtPrefix(s: string, n: nat, t: string)
    requires n <= |s| && At(s[..n], 0, t)
    ensures At(s, 0, t)
  {
    assert s[0..0 + |t|] == s[..n][0..0 + |t|];
  }

  lemma {:induction false} AtRender(s: string, lines: seq<string>)
    requires At(s, 0, Body(lines)) && CrlfAt(s, |Body(lines)|)
    ensures At(s, 0, Render(lines))
  {
    var n := |Body(lines)|;
    assert s[n..n + 2] == "\r\n";
    assert s[0..0 + n + 2] == s[0..0 + n] + s[n..n + 2];
  }

  /** Whatever the line reader accepts is a rendered list of clean lines that fits the buffer. */
  lemma {:induction false} ReaderSound<H(!new)>(rules: Rules<H>, s: string) returns (lines: seq<string>)
    requires Strict(rules) && ReadStream(rules, s).Accept?
    ensures lines != [] && Clean(lines) && At(s, 0, Render(lines)) && |Render(lines)| <= HEADER_LIMIT
  {
    var n := ReadLines(s, 0).n;
    lines := BlockFinds(rules, s[..n]);
    AtPrefix(s, n, Body(lines));
    ReaderSkips(s, 0, |Body(lines)|, lines);
    AtRender(s, lines);
  }

  /** Whatever the buffer parser accepts is one too. */
  lemma {:induction false} BufferSound<H(!new)>(rules: Rules<H>, s: string) returns (lines: seq<string>)
    requires Strict(rules) && ParseBuffer(rules, s).Accept?
    ensures lines != [] && Clean(lines) && At(s, 0, Render(lines))
  {
    var end := IndexBlankLine(s, 0);
    lines := BlockFinds(rules, s[..end + 2]);
    AtPrefix(s, end + 2, Body(lines));
    assert CrlfAt(s, |Body(lines)|);
    AtRender(s, lines);
  }

  // ---- the two parsers agree ------------------------------------------------------------

  /** The line reader accepts after n bytes exactly when those n bytes are a rendered request with that meaning and
      fit the buffer. */
  lemma {:induction false} ReaderAccepts<H(!new)>(rules: Rules<H>, s: string, h: H, n: nat)
    requires Strict(rules)
    ensures ReadStream(rules, s) == Accept(h, n) <==>
            n <= HEADER_LIMIT &&
            exists lines ::
              lines != [] && Clean(lines) && At(s, 0, Render(lines)) && Verdict(rules, lines) == Accept(h, n)
  {
    if ReadStream(rules, s) == Accept(h, n) {
      var lines := ReaderSound(rules, s);
      ReaderComplete(rules, s, lines);
    }
    if n <= HEADER_LIMIT {
      forall lines | lines != [] && Clean(lines) && At(s, 0, Render(lines)) && Verdict(rules, lines) == Accept(h, n)
        ensures ReadStream(rules, s) == Accept(h, n)
      {
        ReaderComplete(rules, s, lines);
      }
    }
  }

  lemma {:induction false} BufferAccepts<H(!new)>(rules: Rules<H>, s: string, h: H, n: nat)
    requires Strict(rules)
    ensures ParseBuffer(rules, s) == Accept(h, n) <==>
            exists lines ::
              lines != [] && Clean(lines) && At(s, 0, Render(lines)) && Verdict(rules, lines) == Accept(h, n)
  {
    if ParseBuffer(rules, s) == Accept(h, n) {
      var lines := BufferSound(rules, s);
      BufferComplete(rules, s, lines);
    }
    forall lines | lines != [] && Clean(lines) && At(s, 0, Render(lines)) && Verdict(rules, lines) == Accept(h, n)
      ensures ParseBuffer(rules, s) == Accept(h, n)
    {
      BufferComplete(rules, s, lines);
    }
  }

  /** Once the buffer parser has decided, more bytes do not change what it decided. */
  lemma {:induction false} BufferStable<H>(rules: Rules<H>, s: string, more: string)
    requires ParseBuffer(rules, s) != Reject(NeedMoreData)
    ensures ParseBuffer(rules, s + more) == ParseBuffer(rules, s)
  {
    var end := IndexBlankLine(s, 0);
    var t := s + more;
    assert BlankLineAt(t, end);
    forall k | 0 <= k < end ensures !BlankLineAt(t, k) {
      assert !BlankLineAt(s, k);
    }
    assert t[..end + 2] == s[..end + 2];
  }
}
