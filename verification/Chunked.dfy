/** The chunked transfer coding of section 4.1 of RFC 7230: as internal/coreserver/bridge.go writes it, as the section
    reads it, and as cmd/bench-ttfb/main.go drains it. */
module Chunked {
  import opened HttpSyntax
  import opened HttpFraming
  import opened HttpGrammar

  // ---- hexadecimal -------------------------------------------------------------------

  function HexChar(d: nat): (c: char)
    requires d < 16
    ensures IsHex(c) && HexDigit(c) == d
  {
    if d < 10 then '0' + d as char else 'a' + (d - 10) as char
  }

  predicate AllHex(s: string) {
    forall i :: 0 <= i < |s| ==> IsHex(s[i])
  }

  /** strconv.FormatInt(n, 16). */
  function PrintHex(n: nat): (s: string)
    ensures s != "" && AllHex(s)
  {
    if n >= 16 then PrintHex(n / 16) + [HexChar(n % 16)] else [HexChar(n)]
  }

  function HexValue(s: string): nat
    requires AllHex(s)
  {
    if s == [] then 0 else 16 * HexValue(s[..|s| - 1]) + HexDigit(s[|s| - 1])
  }

  lemma {:induction false} PrintHexValue(n: nat)
    ensures HexValue(PrintHex(n)) == n
  {
    var s := PrintHex(n);
    if n >= 16 {
      PrintHexValue(n / 16);
      assert s[..|s| - 1] == PrintHex(n / 16);
    } else {
      assert s[..0] == [];
    }
  }

  // ---- what respWriter emits ------------------------------------------------------------

  /** One Write. */
  function Chunk(p: string): string {
    if p == "" then "" else PrintHex(|p|) + "\r\n" + p + "\r\n"
  }

  const LAST_CHUNK: string := "0\r\n\r\n"

  /** The body of a response: the writes and what finalize adds. */
  function Encoded(writes: seq<string>): string {
    if writes == [] then LAST_CHUNK else Chunk(writes[0]) + Encoded(writes[1..])
  }

  function ChunkLength(p: string): nat {
    if p == "" then 0 else |PrintHex(|p|)| + 2 + |p| + 2
  }

  function EncodedLength(writes: seq<string>): nat {
    if writes == [] then 5 else ChunkLength(writes[0]) + EncodedLength(writes[1..])
  }

  lemma {:induction false} Lengths(writes: seq<string>)
    ensures |Encoded(writes)| == EncodedLength(writes)
    ensures writes != [] ==> |Chunk(writes[0])| == ChunkLength(writes[0])
  {
    if writes != [] { Lengths(writes[1..]); }
  }

  function Concat(writes: seq<string>): string {
    if writes == [] then "" else writes[0] + Concat(writes[1..])
  }

  // ---- reading a chunked body --------------------------------------------------------------

  /** A chunk's size line: the size it states and where the data begins. */
  datatype Head = Head(size: int, data: nat)

  /** How a reader takes a size line at a position, and what it skips after the data. */
  datatype Reader = Reader(head: (string, nat) -> Option<Head>, tail: (string, nat) -> Option<nat>)

  datatype Read = Read(data: string, end: nat)

  function Length(h: Head): nat {
    if h.size > 0 then h.size else 0
  }

  /** Chunk by chunk until one of size zero; a reader that does not advance is stuck. */
  function Walk(r: Reader, s: string, p: nat): Option<Read>
    requires p <= |s|
    decreases |s| - p
  {
    match r.head(s, p)
    case None => None
    case Some(h) =>
      if h.data + Length(h) > |s| then None
      else
        match r.tail(s, h.data + Length(h))
        case None => None
        case Some(e) =>
          if h.size == 0 then Some(Read("", e))
          else if e <= p || e > |s| then None
          else Prefixed(s[h.data..h.data + Length(h)], Walk(r, s, e))
  }

  function Prefixed(data: string, rest: Option<Read>): Option<Read> {
    match rest
    case None => None
    case Some(b) => Some(Read(data + b.data, b.end))
  }

  // ---- positions ----------------------------------------------------------------------

  lemma {:induction false} AtConcat(s: string, p: nat, a: string, b: string)
    ensures At(s, p, a + b) <==> At(s, p, a) && At(s, p + |a|, b)
  {
    if p + |a| + |b| <= |s| {
      var x, y := s[p..p + |a|], s[p + |a|..p + |a| + |b|];
      assert s[p..p + |a + b|] == x + y;
      if x + y == a + b {
        assert x == (x + y)[..|a|] && y == (x + y)[|a|..];
        assert a == (a + b)[..|a|] && b == (a + b)[|a|..];
      }
    }
  }

  lemma {:induction false} AtCrlf(s: string, p: nat)
    ensures At(s, p, "\r\n") <==> CrlfAt(s, p)
  {
    if p + 2 <= |s| { assert s[p..p + 2] == [s[p], s[p + 1]]; }
  }

  /** Where the parts of a chunk lie. */
  lemma {:induction false} ChunkAt(s: string, at: nat, p: string)
    requires p != "" && At(s, at, Chunk(p))
    ensures var e := at + |PrintHex(|p|)|;
            && At(s, at, PrintHex(|p|)) && CrlfAt(s, e) && At(s, e + 2, p) && CrlfAt(s, e + 2 + |p|)
            && e + 2 + |p| + 2 == at + |Chunk(p)|
  {
    var size := PrintHex(|p|);
    var e := at + |size|;
    AtConcat(s, at, size + "\r\n" + p, "\r\n");
    AtConcat(s, at, size + "\r\n", p);
    AtConcat(s, at, size, "\r\n");
    AtCrlf(s, e);
    AtCrlf(s, e + 2 + |p|);
  }

  lemma {:induction false} LastAt(s: string, at: nat)
    requires At(s, at, LAST_CHUNK)
    ensures at + 5 <= |s| && s[at] == '0' && CrlfAt(s, at + 1) && CrlfAt(s, at + 3)
  {
    var t := s[at..at + 5];
    assert t == LAST_CHUNK;
    assert s[at] == t[0] && s[at + 1] == t[1] && s[at + 2] == t[2] && s[at + 3] == t[3] && s[at + 4] == t[4];
  }

  // ---- every reader of canonical size lines undoes the writer --------------------------------

  /** A size line as the writer emits it. */
  predicate SizeLine(s: string, p: nat, n: nat) {
    n <= MAX_INT64 && At(s, p, PrintHex(n)) && CrlfAt(s, p + |PrintHex(n)|)
  }

  predicate LineEnd(s: string, p: nat) {
    CrlfAt(s, p)
  }

  /** The reader understands the size lines and line ends the writer emits. */
  ghost predicate Understands(r: Reader) {
    && (forall s, p: nat, n: nat {:trigger SizeLine(s, p, n)} ::
          SizeLine(s, p, n) ==> r.head(s, p) == Some(Head(n, p + |PrintHex(n)| + 2)))
    && (forall s, p: nat {:trigger LineEnd(s, p)} :: LineEnd(s, p) ==> r.tail(s, p) == Some(p + 2))
  }

  /** The reader finds a chunk with this data at this position. */
  predicate Finds(r: Reader, s: string, at: nat, p: string) {
    var d := at + |PrintHex(|p|)| + 2;
    && r.head(s, at) == Some(Head(|p|, d)) && r.tail(s, d + |p|) == Some(d + |p| + 2)
    && d + |p| + 2 <= |s| && s[d..d + |p|] == p
  }

  lemma {:induction false} FindsChunk(r: Reader, s: string, at: nat, p: string)
    requires Understands(r) && p != "" && |p| <= MAX_INT64 && At(s, at, Chunk(p))
    ensures Finds(r, s, at, p)
  {
    ChunkAt(s, at, p);
    assert SizeLine(s, at, |p|);
    assert LineEnd(s, at + |PrintHex(|p|)| + 2 + |p|);
  }

  lemma {:induction false} FindsLast(r: Reader, s: string, at: nat)
    requires Understands(r) && At(s, at, LAST_CHUNK)
    ensures Finds(r, s, at, "") && |PrintHex(0)| == 1
  {
    LastAt(s, at);
    assert PrintHex(0) == "0";
    assert s[at..at + 1] == "0";
    assert SizeLine(s, at, 0);
    assert LineEnd(s, at + 3);
  }

  /** Every write has a length an int64 can hold. */
  predicate Sizable(writes: seq<string>) {
    writes == [] || (|writes[0]| <= MAX_INT64 && Sizable(writes[1..]))
  }

  /** The reader finds the chunks of the writes one behind the other, and then the last one. */
  predicate FindsAll(r: Reader, s: string, at: nat, writes: seq<string>)
    decreases |writes|
  {
    if writes == [] then Finds(r, s, at, "")
    else (writes[0] != "" ==> Finds(r, s, at, writes[0])) && FindsAll(r, s, at + ChunkLength(writes[0]), writes[1..])
  }

  lemma {:induction false} FindsFirst(r: Reader, s: string, at: nat, writes: seq<string>)
    requires Understands(r) && writes != [] && At(s, at, Encoded(writes)) && |writes[0]| <= MAX_INT64
    ensures writes[0] != "" ==> Finds(r, s, at, writes[0])
    ensures At(s, at + ChunkLength(writes[0]), Encoded(writes[1..]))
  {
    hide Finds, Understands, ChunkLength, EncodedLength, Chunk;
    Lengths(writes);
    AtConcat(s, at, Chunk(writes[0]), Encoded(writes[1..]));
    if writes[0] != "" { FindsChunk(r, s, at, writes[0]); }
  }

  lemma {:induction false} FindsEncoded(r: Reader, s: string, at: nat, writes: seq<string>)
    requires Understands(r) && At(s, at, Encoded(writes)) && Sizable(writes)
    ensures FindsAll(r, s, at, writes)
    decreases |writes|
  {
    hide Finds, Understands, ChunkLength;
    if writes == [] {
      FindsLast(r, s, at);
    } else {
      FindsFirst(r, s, at, writes);
      FindsEncoded(r, s, at + ChunkLength(writes[0]), writes[1..]);
    }
  }

  /** What it finds is what it reads. */
  lemma {:induction false} WalkFinds(r: Reader, s: string, at: nat, writes: seq<string>)
    requires at <= |s| && FindsAll(r, s, at, writes)
    ensures Walk(r, s, at) == Some(Read(Concat(writes), at + EncodedLength(writes)))
    decreases |writes|
  {
    hide Walk, Prefixed, Finds;
    if writes == [] {
      WalkLast(r, s, at);
    } else {
      WalkStep(r, s, at, writes);
      WalkFinds(r, s, at + ChunkLength(writes[0]), writes[1..]);
      Appended(writes, at);
    }
  }

  lemma {:induction false} WalkStep(r: Reader, s: string, at: nat, writes: seq<string>)
    requires writes != [] && at <= |s| && FindsAll(r, s, at, writes)
    ensures at + ChunkLength(writes[0]) <= |s|
    ensures Walk(r, s, at) == Prefixed(writes[0], Walk(r, s, at + ChunkLength(writes[0])))
  {
    if writes[0] != "" {
      WalkOne(r, s, at, writes[0]);
    } else {
      var w := Walk(r, s, at);
      if w.Some? { assert "" + w.value.data == w.value.data; }
    }
  }

  lemma {:induction false} Appended(writes: seq<string>, at: nat)
    requires writes != []
    ensures var p, rest := writes[0], writes[1..];
            var body := Some(Read(Concat(rest), at + ChunkLength(p) + EncodedLength(rest)));
            Prefixed(p, body) == Some(Read(Concat(writes), at + EncodedLength(writes)))
  {
  }

  lemma {:induction false} WalkLast(r: Reader, s: string, at: nat)
    requires Finds(r, s, at, "")
    ensures at <= |s| && Walk(r, s, at) == Some(Read("", at + 5))
  {
    assert |PrintHex(0)| == 1;
  }

  lemma {:induction false} WalkOne(r: Reader, s: string, at: nat, p: string)
    requires p != "" && Finds(r, s, at, p)
    ensures at <= |s| && at + ChunkLength(p) <= |s|
    ensures Walk(r, s, at) == Prefixed(p, Walk(r, s, at + ChunkLength(p)))
  {
  }

  /** Whatever was written, and whatever follows on the connection, reading the body gives the concatenation of the
      writes and stops right behind the terminator: no write is mistaken for it, and the next response is left alone. */
  lemma {:induction false} WalkEncoded(r: Reader, s: string, at: nat, writes: seq<string>)
    requires Understands(r) && At(s, at, Encoded(writes))
    requires Sizable(writes)
    ensures Walk(r, s, at) == Some(Read(Concat(writes), at + |Encoded(writes)|))
  {
    hide Walk, FindsAll, Understands, Encoded, EncodedLength, Concat;
    FindsEncoded(r, s, at, writes);
    WalkFinds(r, s, at, writes);
    Lengths(writes);
  }

  // ---- section 4.1 of RFC 7230 -----------------------------------------------------------

  /** The first position from p on that holds no hex digit. */
  function HexEnd(s: string, p: nat): (e: nat)
    requires p <= |s|
    ensures p <= e <= |s|
    ensures forall k :: p <= k < e ==> IsHex(s[k])
    ensures e < |s| ==> !IsHex(s[e])
    decreases |s| - p
  {
    if p < |s| && IsHex(s[p]) then HexEnd(s, p + 1) else p
  }

  /** chunk-size CRLF, without extensions. */
  function StrictHead(s: string, p: nat): Option<Head> {
    if p > |s| then None
    else
      var e := HexEnd(s, p);
      if e == p || !CrlfAt(s, e) then None else Some(Head(HexValue(s[p..e]), e + 2))
  }

  /** CRLF; after the last chunk it is that of an empty trailer. */
  function StrictTail(s: string, p: nat): Option<nat> {
    if CrlfAt(s, p) then Some(p + 2) else None
  }

  function Rfc7230(): Reader {
    Reader(StrictHead, StrictTail)
  }

  lemma {:induction false} HexEndAt(s: string, p: nat, digits: string)
    requires At(s, p, digits) && AllHex(digits)
    requires p + |digits| < |s| ==> !IsHex(s[p + |digits|])
    ensures HexEnd(s, p) == p + |digits|
  {
    forall k | p <= k < p + |digits| ensures IsHex(s[k]) {
      assert s[k] == s[p..p + |digits|][k - p];
    }
  }

  lemma {:induction false} StrictHeadAt(s: string, p: nat, n: nat)
    requires At(s, p, PrintHex(n)) && CrlfAt(s, p + |PrintHex(n)|)
    ensures StrictHead(s, p) == Some(Head(n, p + |PrintHex(n)| + 2))
  {
    HexEndAt(s, p, PrintHex(n));
    PrintHexValue(n);
  }

  lemma {:induction false} RfcUnderstands()
    ensures Understands(Rfc7230())
  {
    forall s, p: nat, n: nat | SizeLine(s, p, n)
      ensures Rfc7230().head(s, p) == Some(Head(n, p + |PrintHex(n)| + 2))
    {
      StrictHeadAt(s, p, n);
    }
  }

  /** Decoding as the RFC says. */
  lemma {:induction false} DecodeEncoded(s: string, at: nat, writes: seq<string>)
    requires At(s, at, Encoded(writes)) && Sizable(writes)
    ensures Walk(Rfc7230(), s, at) == Some(Read(Concat(writes), at + |Encoded(writes)|))
  {
    RfcUnderstands();
    WalkEncoded(Rfc7230(), s, at, writes);
  }

  // ---- drainChunked --------------------------------------------------------------------

  /** The space characters fmt skips before a number, as far as they are ASCII and not a line end. */
  predicate Blank(c: char) {
    c == ' ' || c == '\t' || c == 11 as char || c == 12 as char || c == '\r'
  }

  function SkipBlanks(s: string): string {
    if s != "" && Blank(s[0]) then SkipBlanks(s[1..]) else s
  }

  function TrimEol(s: string): string {
    if s != "" && (s[|s| - 1] == '\r' || s[|s| - 1] == '\n') then TrimEol(s[..|s| - 1]) else s
  }

  function CutExtension(s: string): string {
    s[..IndexByteFrom(s, 0, ';')]
  }

  /** fmt.Sscanf with %x into an int64: blanks, a sign, hex digits; what follows them is not looked at. */
  function ScanHex(line: string): Option<int> {
    var s := SkipBlanks(line);
    if s != "" && s[0] == '-' then Negated(HexPrefix(s[1..]))
    else if s != "" && s[0] == '+' then InRange(HexPrefix(s[1..]))
    else InRange(HexPrefix(s))
  }

  function HexPrefix(s: string): Option<nat> {
    var e := HexEnd(s, 0);
    if e == 0 then None else Some(HexValue(s[..e]))
  }

  function InRange(v: Option<nat>): Option<int> {
    if v.None? || v.value > MAX_INT64 then None else Some(v.value as int)
  }

  function Negated(v: Option<nat>): Option<int> {
    if v.None? || v.value > MAX_INT64 + 1 then None else Some(-(v.value as int))
  }

  /** The size of the buffer the benchmark reads through. */
  const DRAIN_BUFFER: nat := 0x10_0000

  /** bufio's ReadSlice: everything up to the next LF, if that fits the buffer. */
  function DrainTail(s: string, p: nat): (e: Option<nat>)
    ensures e.Some? ==> p < e.value <= |s|
  {
    if p > |s| then None
    else
      var k := IndexByteFrom(s, p, '\n');
      if k == |s| || k + 1 - p > DRAIN_BUFFER then None else Some(k + 1)
  }

  /** A line, its CR and LF and its extension cut off. */
  function DrainHead(s: string, p: nat): Option<Head> {
    match DrainTail(s, p)
    case None => None
    case Some(e) =>
      match ScanHex(CutExtension(TrimEol(s[p..e])))
      case None => None
      case Some(size) => Some(Head(size, e))
  }

  function Drainer(): Reader {
    Reader(DrainHead, DrainTail)
  }

  /** Reading a size line and reading a tail move forward and stay inside the stream. */
  ghost predicate Advances(r: Reader) {
    && (forall s, p: nat :: r.head(s, p).Some? ==> p < r.head(s, p).value.data <= |s|)
    && (forall s, p: nat :: r.tail(s, p).Some? ==> p < r.tail(s, p).value <= |s|)
  }

  function End(b: Option<Read>): Option<nat> {
    if b.None? then None else Some(b.value.end)
  }

  /** The loop of drainChunked: the data is discarded. */
  method Discard(r: Reader, s: string) returns (end: Option<nat>)
    requires Advances(r)
    ensures end == End(Walk(r, s, 0))
  {
    var p := 0;
    while true
      invariant p <= |s| && End(Walk(r, s, p)) == End(Walk(r, s, 0))
      decreases |s| - p
    {
      var line := r.head(s, p);
      if line.None? { return None; }
      var at := line.value.data;
      if line.value.size > 0 {
        if at + line.value.size > |s| { return None; }
        at := at + line.value.size;
      }
      var e := r.tail(s, at);
      if e.None? || line.value.size == 0 { return e; }
      p := e.value;
    }
  }

  lemma {:induction false} DrainerAdvances()
    ensures Advances(Drainer())
  {
  }

  method DrainChunked(s: string) returns (end: Option<nat>)
    ensures end == End(Walk(Drainer(), s, 0))
  {
    DrainerAdvances();
    end := Discard(Drainer(), s);
  }

  lemma {:induction false} TrimLineEnd(digits: string)
    requires digits != "" && AllHex(digits)
    ensures TrimEol(digits + "\r\n") == digits
  {
    var cr := digits + "\r";
    assert (digits + "\r\n")[..|digits| + 1] == cr && cr[..|digits|] == digits;
    assert IsHex(digits[|digits| - 1]);
    assert TrimEol(digits) == digits;
    assert TrimEol(cr) == digits;
  }

  lemma {:induction false} ScanDigits(digits: string)
    requires digits != "" && AllHex(digits) && HexValue(digits) <= MAX_INT64
    ensures ScanHex(CutExtension(digits)) == Some(HexValue(digits))
  {
    assert IsHex(digits[0]);
    assert forall i :: 0 <= i < |digits| ==> IsHex(digits[i]);
    assert IndexByteFrom(digits, 0, ';') == |digits|;
    assert digits[0..|digits|] == digits;
    HexEndAt(digits, 0, digits);
    assert digits[..|digits|] == digits;
  }

  lemma {:induction false} FirstBreak(s: string, at: nat, digits: string)
    requires AllHex(digits) && At(s, at, digits) && CrlfAt(s, at + |digits|)
    ensures IndexByteFrom(s, at, '\n') == at + |digits| + 1
  {
    forall k | at <= k < at + |digits| ensures IsHex(s[k]) {
      assert s[k] == s[at..at + |digits|][k - at];
    }
  }

  /** A size line of the writer is at most 16 digits long. */
  lemma {:induction false} HexLength(n: nat, k: nat)
    requires 1 <= k && n < SixteenTo(k)
    ensures |PrintHex(n)| <= k
    decreases k
  {
    if n >= 16 { HexLength(n / 16, k - 1); }
  }

  function SixteenTo(k: nat): nat {
    if k == 0 then 1 else 16 * SixteenTo(k - 1)
  }

  lemma {:induction false} FourMore(k: nat)
    ensures SixteenTo(k + 4) == 0x1_0000 * SixteenTo(k)
  {
    assert SixteenTo(k + 2) == 16 * SixteenTo(k + 1);
    assert SixteenTo(k + 4) == 16 * SixteenTo(k + 3);
  }

  lemma {:induction false} SizeLineFits(n: nat)
    requires n <= MAX_INT64
    ensures |PrintHex(n)| + 2 <= DRAIN_BUFFER
  {
    var k: nat := 0;
    FourMore(k);
    FourMore(k + 4);
    FourMore(k + 8);
    FourMore(k + 12);
    HexLength(n, k + 16);
  }

  lemma {:induction false} DrainHeadAt(s: string, p: nat, n: nat)
    requires n <= MAX_INT64 && At(s, p, PrintHex(n)) && CrlfAt(s, p + |PrintHex(n)|)
    ensures DrainHead(s, p) == Some(Head(n, p + |PrintHex(n)| + 2))
  {
    hide ScanHex, CutExtension, TrimEol, PrintHex, HexValue;
    var digits := PrintHex(n);
    FirstBreak(s, p, digits);
    SizeLineFits(n);
    WholeLine(s, p, digits);
    PrintHexValue(n);
    ScanLine(digits);
  }

  lemma {:induction false} WholeLine(s: string, p: nat, digits: string)
    requires At(s, p, digits) && CrlfAt(s, p + |digits|)
    ensures s[p..p + |digits| + 2] == digits + "\r\n"
  {
    AtCrlf(s, p + |digits|);
    AtConcat(s, p, digits, "\r\n");
  }

  lemma {:induction false} ScanLine(digits: string)
    requires digits != "" && AllHex(digits) && HexValue(digits) <= MAX_INT64
    ensures ScanHex(CutExtension(TrimEol(digits + "\r\n"))) == Some(HexValue(digits))
  {
    TrimLineEnd(digits);
    ScanDigits(digits);
  }

  lemma {:induction false} DrainerUnderstands()
    ensures Understands(Drainer())
  {
    forall s, p: nat, n: nat | SizeLine(s, p, n)
      ensures Drainer().head(s, p) == Some(Head(n, p + |PrintHex(n)| + 2))
    {
      DrainHeadAt(s, p, n);
    }
  }

  /** drainChunked consumes exactly the body: the next response starts where it stops. */
  lemma {:induction false} DrainEncoded(s: string, at: nat, writes: seq<string>)
    requires At(s, at, Encoded(writes)) && Sizable(writes)
    ensures End(Walk(Drainer(), s, at)) == Some(at + |Encoded(writes)|)
  {
    hide Walk, Drainer, Encoded, Sizable;
    DrainerUnderstands();
    WalkEncoded(Drainer(), s, at, writes);
  }
}

/** respWriter: the response writer of internal/coreserver/bridge.go, over a buffer that never fails. */
module Responses {
  import opened HttpSyntax
  import opened HttpGrammar
  import opened Decimals
  import opened Chunked

  datatype Mode = Unknown | Sized | InChunks

  /** The writes one behind the other, each framed by f. */
  function Framed(f: string -> string, writes: seq<string>): string {
    if writes == [] then "" else Framed(f, writes[..|writes| - 1]) + f(writes[|writes| - 1])
  }

  lemma {:induction false} FramedAppend(f: string -> string, writes: seq<string>, p: string)
    ensures Framed(f, writes + [p]) == Framed(f, writes) + f(p)
  {
    assert (writes + [p])[..|writes|] == writes;
  }

  lemma {:induction false} FramedCons(f: string -> string, writes: seq<string>)
    requires writes != []
    ensures Framed(f, writes) == f(writes[0]) + Framed(f, writes[1..])
    decreases |writes|
  {
    var n := |writes| - 1;
    if n == 0 {
      assert writes[..0] == [] && writes[1..] == [];
    } else {
      FramedCons(f, writes[..n]);
      assert writes[..n][1..] == writes[1..][..n - 1];
      Assoc(f(writes[0]), Framed(f, writes[1..][..n - 1]), f(writes[n]));
    }
  }

  lemma {:induction false} Assoc(a: string, b: string, c: string)
    ensures (a + b) + c == a + (b + c)
  {
  }

  /** What one write becomes. */
  function Framing(mode: Mode): string -> string {
    if mode == InChunks then Chunk else (p: string) => p
  }

  /** Chunk after chunk and the terminator: the encoding of the writes. */
  lemma {:induction false} ChunksEncode(writes: seq<string>)
    ensures Framed(Chunk, writes) + LAST_CHUNK == Encoded(writes)
  {
    if writes != [] {
      FramedCons(Chunk, writes);
      ChunksEncode(writes[1..]);
      Assoc(Chunk(writes[0]), Framed(Chunk, writes[1..]), LAST_CHUNK);
    }
  }

  lemma {:induction false} SizedIsConcat(f: string -> string, writes: seq<string>)
    requires forall p :: f(p) == p
    ensures Framed(f, writes) == Concat(writes)
  {
    if writes != [] {
      FramedCons(f, writes);
      SizedIsConcat(f, writes[1..]);
    }
  }

  /** Four appends make a chunk. */
  lemma {:induction false} FourAppends(b: string, size: string, p: string)
    ensures (((b + size) + "\r\n") + p) + "\r\n" == b + (size + "\r\n" + p + "\r\n")
  {
  }

  /** Header names; those that WriteHeader itself looks at or sets have their own. */
  datatype Name = ContentLength | TransferEncoding | Connection | Other(name: string)

  function NameText(k: Name): string {
    match k
    case ContentLength => "Content-Length"
    case TransferEncoding => "Transfer-Encoding"
    case Connection => "Connection"
    case Other(name) => name
  }

  /** Every name with its values. */
  type Header = map<Name, seq<string>>

  /** http.Header.Get: the first value, or none. */
  function Get(hdr: Header, k: Name): string {
    if k in hdr && hdr[k] != [] then hdr[k][0] else ""
  }

  /** One line for each value. */
  function ValueLines(name: string, values: seq<string>): string {
    if values == [] then ""
    else ValueLines(name, values[..|values| - 1]) + (name + ": " + values[|values| - 1] + "\r\n")
  }

  function Line(hdr: Header, k: Name): string {
    if k in hdr then ValueLines(NameText(k), hdr[k]) else ""
  }

  function LineOf(hdr: Header): Name -> string {
    (k: Name) => Line(hdr, k)
  }

  /** The header lines in some order. */
  function Lines(line: Name -> string, order: seq<Name>): string {
    if order == [] then "" else Lines(line, order[..|order| - 1]) + line(order[|order| - 1])
  }

  /** Every header once. */
  ghost predicate Arrangement(hdr: Header, order: seq<Name>) {
    && (forall k :: k in order <==> k in hdr)
    && (forall i, j :: 0 <= i < j < |order| ==> order[i] != order[j])
  }

  /** The status line, every header in some order, a blank line. */
  ghost predicate IsHead(text: string, status: string, hdr: Header) {
    exists order :: Arrangement(hdr, order) && text == status + Lines(LineOf(hdr), order) + "\r\n"
  }

  lemma {:induction false} ValuesAppend(text: string, name: string, values: seq<string>, i: nat)
    requires i < |values|
    ensures (((text + ValueLines(name, values[..i])) + name + ": ") + values[i]) + "\r\n"
            == text + ValueLines(name, values[..i + 1])
  {
    assert values[..i + 1][..i] == values[..i];
  }

  lemma {:induction false} LinesAppend(line: Name -> string, order: seq<Name>, k: Name)
    ensures Lines(line, order + [k]) == Lines(line, order) + line(k)
  {
    assert (order + [k])[..|order|] == order;
  }

  lemma {:induction false} ZeroParses()
    ensures ParseInt("0") == Some(0)
  {
    assert "0"[..0] == [];
  }

  /** The lines of one name behind the text so far. */
  method NameLines(text: string, name: string, values: seq<string>) returns (r: string)
    ensures r == text + ValueLines(name, values)
  {
    r := text;
    for i := 0 to |values|
      invariant r == text + ValueLines(name, values[..i])
    {
      ValuesAppend(text, name, values, i);
      r := r + name + ": ";
      r := r + values[i];
      r := r + "\r\n";
    }
    assert values[..|values|] == values;
  }

  /** Iterating over the header map. */
  method HeaderLines(hdr: Header) returns (text: string, ghost order: seq<Name>)
    ensures Arrangement(hdr, order) && text == Lines(LineOf(hdr), order)
  {
    text, order := "", [];
    var todo := hdr.Keys;
    while todo != {}
      invariant todo <= hdr.Keys
      invariant forall k :: k in order <==> k in hdr && k !in todo
      invariant forall i, j :: 0 <= i < j < |order| ==> order[i] != order[j]
      invariant text == Lines(LineOf(hdr), order)
      decreases |todo|
    {
      var k :| k in todo;
      LinesAppend(LineOf(hdr), order, k);
      text := NameLines(text, NameText(k), hdr[k]);
      order := order + [k];
      todo := todo - {k};
    }
  }

  /** The first Content-Length value is a number that is not negative. */
  predicate DeclaresLength(hdr: Header) {
    var v := ParseInt(Get(hdr, ContentLength));
    Get(hdr, ContentLength) != "" && v.Some? && v.value >= 0
  }

  class RespWriter {
    var hdr: Header
    var keep: bool
    var wroteHd: bool
    var mode: Mode
    var cl: int
    var bw: string
    /** The header block as written, and the arguments of the writes since. */
    ghost var head: string
    ghost var written: seq<string>

    ghost predicate Valid()
      reads this
    {
      && (wroteHd ==> mode != Unknown && bw == head + Framed(Framing(mode), written))
      && (!wroteHd ==> mode == Unknown && bw == "" && written == [])
    }

    constructor (keep: bool)
      ensures Valid() && !wroteHd && hdr == map[] && written == []
    {
      hdr, this.keep, wroteHd, mode, cl, bw, head, written := map[], keep, false, Unknown, 0, "", "", [];
    }

    /** The framing headers are decided: if the first Content-Length parses and is not negative, all are kept; anything
        else means chunks. */
    method ChooseFraming()
      requires mode == Unknown
      modifies this`hdr, this`mode, this`cl
      ensures mode == Sized <==> DeclaresLength(old(hdr))
      ensures mode == Sized ==> hdr == old(hdr) && ContentLength in hdr && ParseInt(Get(hdr, ContentLength)) == Some(cl)
      ensures mode == Sized ==> cl >= 0
      ensures mode != Sized ==>
                mode == InChunks && hdr == (old(hdr) - {ContentLength})[TransferEncoding := ["chunked"]]
    {
      if Get(hdr, ContentLength) != "" {
        var v := ParseInt(Get(hdr, ContentLength));
        if v.Some? && v.value >= 0 {
          cl := v.value;
          mode := Sized;
        }
      }
      if mode == Unknown {
        mode := InChunks;
        hdr := (hdr - {ContentLength})[TransferEncoding := ["chunked"]];
      }
    }

    /** The status line, the headers in the map's order, a blank line; only the first call counts. */
    method WriteHeader(status: string)
      requires Valid()
      modifies this
      ensures Valid() && wroteHd
      ensures old(wroteHd) ==> bw == old(bw) && written == old(written) && mode == old(mode) && head == old(head)
      ensures !old(wroteHd) ==> written == [] && bw == head && IsHead(head, status, hdr)
      ensures !old(wroteHd) && mode == InChunks ==>
                ContentLength !in hdr && TransferEncoding in hdr && hdr[TransferEncoding] == ["chunked"]
      ensures !old(wroteHd) && mode == Sized ==>
                && ContentLength in hdr && ContentLength in old(hdr) && hdr[ContentLength] == old(hdr)[ContentLength]
                && ParseInt(Get(hdr, ContentLength)) == Some(cl) && cl >= 0
      ensures !old(wroteHd) ==> (mode == Sized <==> DeclaresLength(old(hdr)))
    {
      hide ParseInt, DeclaresLength, Lines, LineOf, Framing;
      if wroteHd { return; }
      wroteHd := true;
      ChooseFraming();
      hdr := hdr[Connection := [if keep then "keep-alive" else "close"]];
      var lines, order := HeaderLines(hdr);
      bw := status;
      bw := bw + lines;
      bw := bw + "\r\n";
      head := bw;
    }

    /** One chunk per non-empty write; without chunks the bytes as they are. */
    method Write(p: string)
      requires Valid()
      modifies this
      ensures Valid() && wroteHd && written == old(written) + [p]
      ensures old(wroteHd) ==> mode == old(mode) && head == old(head)
    {
      if !wroteHd { WriteHeader("HTTP/1.1 200 OK\r\n"); }
      FramedAppend(Framing(mode), written, p);
      Assoc(head, Framed(Framing(mode), written), Framing(mode)(p));
      if mode == Sized {
        bw := bw + p;
      } else {
        WriteChunk(p);
      }
      written := written + [p];
    }

    method WriteChunk(p: string)
      modifies this`bw
      ensures bw == old(bw) + Chunk(p)
    {
      if p == "" { return; }
      FourAppends(bw, PrintHex(|p|), p);
      bw := bw + PrintHex(|p|);
      bw := bw + "\r\n";
      bw := bw + p;
      bw := bw + "\r\n";
    }

    /** Copying a source: one write per block read. */
    method ReadFrom(blocks: seq<string>)
      requires Valid()
      modifies this
      ensures Valid() && wroteHd && written == old(written) + blocks
    {
      if !wroteHd { WriteHeader("HTTP/1.1 200 OK\r\n"); }
      for i := 0 to |blocks|
        invariant Valid() && wroteHd && written == old(written) + blocks[..i]
      {
        Write(blocks[i]);
        assert blocks[..i + 1] == blocks[..i] + [blocks[i]];
      }
      assert blocks[..|blocks|] == blocks;
    }

    /** The end of the response. In chunked mode the buffer then holds the header and the encoding of the writes. */
    method Finalize()
      requires Valid()
      modifies this
      ensures wroteHd && written == old(written)
      ensures old(wroteHd) ==> head == old(head) && mode == old(mode)
      ensures mode == InChunks ==> bw == head + Encoded(written)
      ensures mode == Sized ==> bw == head + Concat(written)
      ensures !old(wroteHd) ==> mode == Sized && cl == 0 && bw == head
    {
      if !wroteHd {
        hdr := hdr[ContentLength := ["0"]];
        ZeroParses();
        WriteHeader("HTTP/1.1 200 OK\r\n");
        return;
      }
      if mode == InChunks {
        ChunksEncode(written);
        Assoc(head, Framed(Chunk, written), LAST_CHUNK);
        bw := bw + LAST_CHUNK;
      } else {
        SizedIsConcat(Framing(mode), written);
      }
    }
  }
}
