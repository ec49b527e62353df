/** Decimal numbers as Go prints and parses them. */
module Decimals {
  import opened HttpSyntax

  function DigitChar(d: nat): (c: char)
    requires d < 10
    ensures IsDigit(c) && Digit(c) == d
  {
    '0' + d as char
  }

  /** writeUint and strconv.FormatInt for numbers that are not negative. */
  function Print(n: nat): (s: string)
    ensures s != "" && AllDigits(s)
  {
    if n >= 10 then Print(n / 10) + [DigitChar(n % 10)] else [DigitChar(n)]
  }

  /** Printing a number and reading it back. */
  lemma {:induction false} PrintValue(n: nat)
    ensures Value(Print(n)) == n
  {
    if n >= 10 {
      PrintValue(n / 10);
      var s := Print(n);
      assert s[..|s| - 1] == Print(n / 10);
    } else {
      assert Value([]) == 0;
      assert Print(n)[..0] == [];
    }
  }

  function PrintInt(n: int): string {
    if n < 0 then ['-'] + Print(-n) else Print(n)
  }

  /** writeUint: the higher digits first, then the last one; bw is the buffer written so far. */
  method WriteUint(bw: string, v: nat) returns (r: string)
    ensures r == bw + Print(v)
    decreases v
  {
    r := bw;
    if v >= 10 { r := WriteUint(r, v / 10); }
    r := r + [DigitChar(v % 10)];
  }

  function Unsigned(s: string): string {
    if s != "" && (s[0] == '+' || s[0] == '-') then s[1..] else s
  }

  /** strconv.ParseInt(s, 10, 64): an optional sign, digits, and a value that fits. */
  function ParseInt(s: string): Option<int> {
    var body := Unsigned(s);
    if body == "" || !AllDigits(body) then None
    else if s[0] == '-' then if Value(body) > MAX_INT64 + 1 then None else Some(-Value(body))
    else if Value(body) > MAX_INT64 then None
    else Some(Value(body))
  }

  lemma {:induction false} ParseDigits(d: string)
    requires d != "" && AllDigits(d)
    ensures ParseInt(d) == if Value(d) > MAX_INT64 then None else Some(Value(d))
    ensures ParseInt(['-'] + d) == if Value(d) > MAX_INT64 + 1 then None else Some(-Value(d))
  {
    assert IsDigit(d[0]);
    assert (['-'] + d)[1..] == d;
  }

  /** ParseInt reads back what FormatInt prints, exactly for the 64-bit integers. */
  lemma {:induction false} ParsePrint(n: int)
    ensures ParseInt(PrintInt(n)) == if -MAX_INT64 - 1 <= n <= MAX_INT64 then Some(n) else None
  {
    var m := if n < 0 then -n else n;
    PrintValue(m);
    ParseDigits(Print(m));
  }

  // ---- strings.TrimSpace, on ASCII -----------------------------------------------------

  predicate WhiteSpace(c: char) {
    c == ' ' || '\t' <= c <= '\r'
  }

  function TrimLeft(s: string): string {
    if s != "" && WhiteSpace(s[0]) then TrimLeft(s[1..]) else s
  }

  function TrimRight(s: string): string {
    if s != "" && WhiteSpace(s[|s| - 1]) then TrimRight(s[..|s| - 1]) else s
  }

  function TrimSpaces(s: string): string {
    TrimRight(TrimLeft(s))
  }

  /** Nothing to trim. */
  predicate Tight(s: string) {
    s != "" ==> !WhiteSpace(s[0]) && !WhiteSpace(s[|s| - 1])
  }

  lemma {:induction false} TightStays(s: string)
    requires Tight(s)
    ensures TrimSpaces(s) == s
  {
  }

  lemma {:induction false} TightConcat(a: string, b: string)
    requires a != "" && b != "" && !WhiteSpace(a[0]) && !WhiteSpace(b[|b| - 1])
    ensures Tight(a + b)
  {
    assert (a + b)[0] == a[0] && (a + b)[|a + b| - 1] == b[|b| - 1];
  }

  lemma {:induction false} DigitsAreTight(n: nat)
    ensures Tight(Print(n)) && !WhiteSpace(Print(n)[0]) && '-' !in Print(n) && '/' !in Print(n)
  {
    var s := Print(n);
    assert IsDigit(s[0]) && IsDigit(s[|s| - 1]);
    assert forall i :: 0 <= i < |s| ==> IsDigit(s[i]);
  }
}

/** Byte ranges as the client prints them and the proxy reads them. */
module Ranges {
  import opened Text
  import opened HttpSyntax
  import opened Decimals
  import opened Spans

  predicate HasPrefixFold(s: string, prefix: string) {
    |s| >= |prefix| && EqualFold(s[..|prefix|], prefix)
  }

  const RANGE_UNIT: string := "bytes="
  const CONTENT_UNIT: string := "bytes "

  /** The unit is found and cut off again. */
  lemma {:induction false} UnitCut(unit: string, body: string)
    requires unit == RANGE_UNIT || unit == CONTENT_UNIT
    requires body != "" && !WhiteSpace(body[|body| - 1])
    ensures TrimSpaces(unit + body) == unit + body
    ensures HasPrefixFold(unit + body, unit) && (unit + body)[|unit|..] == body
  {
    UnitFolds(unit);
    TightConcat(unit, body);
    TightStays(unit + body);
    assert (unit + body)[..|unit|] == unit;
  }

  lemma {:induction false} UnitFolds(unit: string)
    requires unit == RANGE_UNIT || unit == CONTENT_UNIT
    ensures EqualFold(unit, unit) && unit != "" && !WhiteSpace(unit[0])
  {
  }

  /** ParseSingleRange; -1 as the end stands for an unknown total. */
  function ParseSingleRange(header: string, total: int): Option<Span> {
    var v := TrimSpaces(header);
    if !HasPrefixFold(v, RANGE_UNIT) then None else ParseBounds(v[|RANGE_UNIT|..], total)
  }

  function ParseBounds(v: string, total: int): Option<Span> {
    var dash := IndexByte(v, '-');
    if dash == |v| then None else BoundsOf(TrimSpaces(v[..dash]), TrimSpaces(v[dash + 1..]), total)
  }

  function BoundsOf(first: string, last: string, total: int): Option<Span> {
    match ParseInt(first)
    case None => None
    case Some(a) =>
      if last == "" then Some(Span(a, if total <= 0 then -1 else total))
      else
        match ParseInt(last)
        case None => None
        case Some(b) => Some(Span(a, Wrap64(b + 1)))
  }

  /** The header fetchOnce prints. */
  function RangeHeader(start: nat, last: nat): string {
    RANGE_UNIT + (Print(start) + ['-'] + Print(last))
  }

  lemma {:induction false} BoundsCut(a: string, b: string, total: int)
    requires Tight(a) && Tight(b) && '-' !in a
    ensures ParseBounds(a + ['-'] + b, total) == BoundsOf(a, b, total)
  {
    var v := a + ['-'] + b;
    IndexByteAppend(a, '-', b);
    assert v[..|a|] == a && v[|a| + 1..] == b;
    TightStays(a);
    TightStays(b);
  }

  lemma {:induction false} BoundsRead(start: nat, last: nat, total: int)
    requires start <= MAX_INT64 && last < MAX_INT64
    ensures ParseBounds(Print(start) + ['-'] + Print(last), total) == Some(Span(start, last + 1))
  {
    Number(start);
    Number(last);
    BoundsCut(Print(start), Print(last), total);
  }

  /** Printing a range and parsing it gives the half-open range back, whatever total the reader believes in. */
  lemma {:induction false} RangeRoundTrip(start: nat, last: nat, total: int)
    requires start <= MAX_INT64 && last < MAX_INT64
    ensures ParseSingleRange(RangeHeader(start, last), total) == Some(Span(start, last + 1))
  {
    var bounds := Print(start) + ['-'] + Print(last);
    DigitsAreTight(last);
    assert bounds[|bounds| - 1] == Print(last)[|Print(last)| - 1];
    UnitCut(RANGE_UNIT, bounds);
    BoundsRead(start, last, total);
  }

  // ---- Content-Range ------------------------------------------------------------------

  datatype ContentRange = ContentRange(start: int, end: int, total: int)

  function FormatTotal(total: int): string {
    if total >= 0 then Print(total) else "*"
  }

  /** formatContentRange. */
  function FormatContentRange(start: int, end: int, total: int): string {
    CONTENT_UNIT + (PrintInt(start) + ['-'] + PrintInt(end - 1) + ['/'] + FormatTotal(total))
  }

  /** parseContentRangeResponse. */
  function ParseContentRange(header: string): Option<ContentRange> {
    var s := TrimSpaces(header);
    if !HasPrefixFold(s, CONTENT_UNIT) then None else ParseParts(Split(s[|CONTENT_UNIT|..], '/'))
  }

  function ParseParts(parts: seq<string>): Option<ContentRange> {
    if |parts| != 2 then None else ParseCut(TrimSpaces(parts[0]), TrimSpaces(parts[1]))
  }

  function ParseCut(se: string, totalStr: string): Option<ContentRange> {
    var dash := IndexByte(se, '-');
    if dash == |se| then None else Combine(ParseInt(se[..dash]), ParseInt(se[dash + 1..]), totalStr)
  }

  function Combine(a: Option<int>, b: Option<int>, totalStr: string): Option<ContentRange> {
    if a.None? || b.None? || a.value < 0 || b.value < a.value then None
    else if totalStr == "*" then Some(ContentRange(a.value, Wrap64(b.value + 1), -1))
    else
      var t := ParseInt(totalStr);
      if t.None? || t.value < 0 then None else Some(ContentRange(a.value, Wrap64(b.value + 1), t.value))
  }

  lemma {:induction false} DashCut(a: string, b: string)
    requires a != "" && b != "" && Tight(a) && Tight(b) && '-' !in a && '/' !in a && '/' !in b
    ensures TrimSpaces(a + ['-'] + b) == a + ['-'] + b && '/' !in a + ['-'] + b
  {
    TightConcat(a + ['-'], b);
    TightStays(a + ['-'] + b);
  }

  lemma {:induction false} SlashCut(a: string, b: string)
    requires '/' !in a && '/' !in b
    ensures Split(a + ['/'] + b, '/') == [a, b]
  {
    SplitCons(a, '/', b);
    assert Split(b, '/') == [b];
  }

  /** The pieces of a Content-Range. */
  predicate Pieces(a: string, b: string, t: string) {
    && a != "" && b != "" && t != "" && Tight(a) && Tight(b) && Tight(t)
    && '-' !in a && '/' !in a && '/' !in b && '/' !in t
    && ParseInt(a).Some? && ParseInt(b).Some? && 0 <= ParseInt(a).value <= ParseInt(b).value < MAX_INT64
    && (t == "*" || (ParseInt(t).Some? && ParseInt(t).value >= 0))
  }

  function Assembled(a: string, b: string, t: string): ContentRange
    requires Pieces(a, b, t)
  {
    ContentRange(ParseInt(a).value, ParseInt(b).value + 1, if t == "*" then -1 else ParseInt(t).value)
  }

  lemma {:induction false} PartsRead(a: string, b: string, t: string)
    requires Pieces(a, b, t)
    ensures ParseParts([a + ['-'] + b, t]) == Some(Assembled(a, b, t))
  {
    DashCut(a, b);
    TightStays(t);
    PartsCut(a + ['-'] + b, t);
    CutRead(a, b, t);
    Combined(a, b, t);
  }

  lemma {:induction false} PartsCut(se: string, t: string)
    requires TrimSpaces(se) == se && TrimSpaces(t) == t
    ensures ParseParts([se, t]) == ParseCut(se, t)
  {
  }

  lemma {:induction false} Combined(a: string, b: string, t: string)
    requires Pieces(a, b, t)
    ensures Combine(ParseInt(a), ParseInt(b), t) == Some(Assembled(a, b, t))
  {
  }

  lemma {:induction false} CutRead(a: string, b: string, t: string)
    requires '-' !in a
    ensures ParseCut(a + ['-'] + b, t) == Combine(ParseInt(a), ParseInt(b), t)
  {
    IndexByteAppend(a, '-', b);
    assert (a + ['-'] + b)[..|a|] == a && (a + ['-'] + b)[|a| + 1..] == b;
  }

  lemma {:induction false} PiecesRead(a: string, b: string, t: string)
    requires Pieces(a, b, t)
    ensures ParseContentRange(CONTENT_UNIT + (a + ['-'] + b + ['/'] + t)) == Some(Assembled(a, b, t))
  {
    var body := a + ['-'] + b + ['/'] + t;
    assert body[|body| - 1] == t[|t| - 1];
    UnitCut(CONTENT_UNIT, body);
    assert Split(body, '/') == [a + ['-'] + b, t] by {
      DashCut(a, b);
      SlashCut(a + ['-'] + b, t);
    }
    PartsRead(a, b, t);
  }

  lemma {:induction false} TotalRead(total: int)
    requires -1 <= total <= MAX_INT64
    ensures var t := FormatTotal(total);
            && Tight(t) && '/' !in t && t != "" && !WhiteSpace(t[|t| - 1])
            && if total < 0 then t == "*" else t != "*" && ParseInt(t) == Some(total)
  {
    if total >= 0 {
      Number(total);
      assert IsDigit(Print(total)[0]);
    }
  }

  lemma {:induction false} PrintedPieces(start: nat, end: nat, total: int)
    requires start < end <= MAX_INT64 && -1 <= total <= MAX_INT64
    ensures Pieces(Print(start), Print(end - 1), FormatTotal(total))
    ensures Assembled(Print(start), Print(end - 1), FormatTotal(total)) == ContentRange(start, end, total)
  {
    Number(start);
    Number(end - 1);
    TotalRead(total);
    PiecesHold(Print(start), Print(end - 1), FormatTotal(total), start, end, total);
  }

  lemma {:induction false} PiecesHold(a: string, b: string, t: string, start: nat, end: nat, total: int)
    requires a != "" && b != "" && t != "" && Tight(a) && Tight(b) && Tight(t)
    requires '-' !in a && '/' !in a && '/' !in b && '/' !in t
    requires start < end <= MAX_INT64 && ParseInt(a) == Some(start) && ParseInt(b) == Some(end - 1)
    requires total >= -1 && if total < 0 then t == "*" else t != "*" && ParseInt(t) == Some(total)
    ensures Pieces(a, b, t) && Assembled(a, b, t) == ContentRange(start, end, total)
  {
  }

  lemma {:induction false} Number(n: nat)
    requires n <= MAX_INT64
    ensures ParseInt(Print(n)) == Some(n) && Tight(Print(n)) && '-' !in Print(n) && '/' !in Print(n)
  {
    ParsePrint(n);
    DigitsAreTight(n);
  }

  /** parseContentRangeResponse undoes formatContentRange. */
  lemma {:induction false} ContentRangeRoundTrip(start: nat, end: nat, total: int)
    requires start < end <= MAX_INT64 && -1 <= total <= MAX_INT64
    ensures ParseContentRange(FormatContentRange(start, end, total)) == Some(ContentRange(start, end, total))
  {
    PrintedPieces(start, end, total);
    PiecesRead(Print(start), Print(end - 1), FormatTotal(total));
  }
}

/** Download's range planning in internal/hfhub/client.go, and what the proxy makes of the planned ranges. */
module Download {
  import opened HttpSyntax
  import opened Spans
  import opened Ranges
  import Inflight
  import RingIndex

  /** A fetch of bytes start to last, both included. */
  datatype Task = Task(start: int, last: int)

  function TaskSpan(t: Task): Span {
    Span(t.start, t.last + 1)
  }

  function TaskSpans(tasks: seq<Task>): (r: seq<Span>)
    ensures |r| == |tasks|
    ensures forall i :: 0 <= i < |tasks| ==> r[i] == TaskSpan(tasks[i])
  {
    seq(|tasks|, i requires 0 <= i < |tasks| => TaskSpan(tasks[i]))
  }

  function Min(a: int, b: int): int {
    if a < b then a else b
  }

  /** The plan in exact arithmetic: chunk after chunk from off to size. */
  function Tiles(off: nat, size: nat, chunk: nat): seq<Span>
    requires chunk > 0
    decreases size - off
  {
    if off >= size then [] else [Span(off, Min(off + chunk, size))] + Tiles(off + chunk, size, chunk)
  }

  /** The last byte of a fetch that begins at off, as the planning loop computes it in 64 bits. */
  function TaskLast(off: int, size: int, chunk: int): int {
    var end := Wrap64(off + chunk - 1);
    if end >= size then size - 1 else end
  }

  /** The last chunk's nominal end fits a signed 64-bit integer. */
  predicate Fits(size: nat, chunk: nat)
    requires chunk > 0
  {
    LastStart(size, chunk) + chunk - 1 <= MAX_INT64
  }

  function LastStart(size: nat, chunk: nat): int
    requires chunk > 0
  {
    (size - 1) / chunk * chunk
  }

  lemma {:induction false} StartsBelow(k: nat, size: nat, chunk: nat)
    requires chunk > 0 && k * chunk < size
    ensures k * chunk <= LastStart(size, chunk) < size
  {
    var q := (size - 1) / chunk;
    assert q * chunk <= size - 1 < (q + 1) * chunk;
    MulMono(q + 1, k, chunk);
    MulMono(k, q, chunk);
  }

  lemma {:induction false} MulMono(a: int, b: int, c: nat)
    ensures a <= b ==> a * c <= b * c
  {
  }

  // ---- the planning loop in 64 bits ----------------------------------------------------

  /** The k-th fetch of the loop. Once a sum overflows, the offsets go on modulo 2^64. */
  function TaskAt(k: nat, size: int, chunk: nat): Task {
    Task(Wrap64(k * chunk), TaskLast(Wrap64(k * chunk), size, chunk))
  }

  /** The fetches so far, none of which ends the file. */
  predicate Underway(tasks: seq<Task>, size: int, chunk: nat) {
    forall k :: 0 <= k < |tasks| ==> tasks[k] == TaskAt(k, size, chunk) && tasks[k].last + 1 < size
  }

  /** What the loop leaves: its fetches in order, up to the first that ends the file. */
  predicate IsPlan(tasks: seq<Task>, size: int, chunk: nat) {
    && tasks != [] && Underway(tasks[..|tasks| - 1], size, chunk)
    && tasks[|tasks| - 1] == TaskAt(|tasks| - 1, size, chunk) && tasks[|tasks| - 1].last == size - 1
  }

  /** Some number n of steps of c, below 2^e, ends at 2^e modulo 2^(e + 1). */
  lemma {:induction false} Laps(c: nat, e: nat) returns (n: nat, h: nat)
    requires 0 < c < RingIndex.Pow2(e)
    ensures n > 0 && n * c == (2 * h + 1) * RingIndex.Pow2(e)
  {
    if c % 2 == 1 {
      n, h := RingIndex.Pow2(e), c / 2;
    } else {
      n, h := Laps(c / 2, e - 1);
      Twice(n, c / 2, 2 * h + 1, RingIndex.Pow2(e - 1));
    }
  }

  lemma {:induction false} Twice(a: int, b: int, c: int, d: int)
    requires a * b == c * d
    ensures a * (2 * b) == c * (2 * d)
  {
  }

  lemma {:induction false} PowThree(e: nat)
    ensures RingIndex.Pow2(e + 3) == 8 * RingIndex.Pow2(e)
  {
    assert RingIndex.Pow2(e + 1) == 2 * RingIndex.Pow2(e);
    assert RingIndex.Pow2(e + 2) == 2 * RingIndex.Pow2(e + 1);
  }

  lemma {:induction false} PowNine(e: nat)
    ensures RingIndex.Pow2(e + 9) == 512 * RingIndex.Pow2(e)
  {
    PowThree(e);
    PowThree(e + 3);
    PowThree(e + 6);
  }

  lemma {:induction false} ExponentOf() returns (e: nat)
    ensures RingIndex.Pow2(e) == MAX_INT64 + 1
  {
    e := 0;
    PowNine(e);
    PowNine(e + 9);
    PowNine(e + 18);
    PowNine(e + 27);
    PowNine(e + 36);
    PowNine(e + 45);
    PowNine(e + 54);
    e := e + 63;
  }

  /** A number of chunks after which the next fetch starts chunk bytes before 2^63: there the loop ends at the
      latest. */
  lemma {:induction false} LastLap(chunk: nat) returns (n: nat)
    requires 0 < chunk <= MAX_INT64
    ensures n > 0 && Wrap64(n * chunk - chunk) == MAX_INT64 + 1 - chunk
  {
    var e := ExponentOf();
    var h: nat;
    n, h := Laps(chunk, e);
    BackFrom(n * chunk, chunk, h);
  }

  lemma {:induction false} BackFrom(a: int, chunk: nat, h: int)
    requires 0 < chunk <= MAX_INT64 && a == (2 * h + 1) * (MAX_INT64 + 1)
    ensures Wrap64(a - chunk) == MAX_INT64 + 1 - chunk
  {
    RemainderShift(MAX_INT64 + 1 - chunk, h);
  }

  lemma {:induction false} OneLess(n: int, c: int)
    ensures (n - 1) * c == n * c - c
  {
  }

  lemma {:induction false} WrapAdd(a: int, b: int)
    ensures Wrap64(Wrap64(a) + b) == Wrap64(a + b)
  {
    var q := a / TWO_64;
    assert a == a % TWO_64 + TWO_64 * q;
    RemainderShift(a % TWO_64 + b, q);
    RemainderShift(a % TWO_64 + b, -1);
  }

  lemma {:induction false} WrapNext(a: int)
    requires Wrap64(a) < MAX_INT64
    ensures Wrap64(a + 1) == Wrap64(a) + 1
  {
    WrapAdd(a, 1);
  }

  /** Each fetch either ends the file or begins the next one; one that starts chunk bytes before 2^63 ends it. */
  lemma {:induction false} NextTask(a: int, size: nat, chunk: nat)
    requires 0 < chunk < size <= MAX_INT64
    ensures var last := TaskLast(Wrap64(a), size, chunk);
            && -MAX_INT64 - 1 <= last < size && (last + 1 < size ==> last + 1 == Wrap64(a + chunk))
            && (Wrap64(a) == MAX_INT64 + 1 - chunk ==> last + 1 == size)
  {
    var off := Wrap64(a);
    var end := Wrap64(off + chunk - 1);
    if end < size - 1 {
      WrapNext(off + chunk - 1);
      WrapAdd(a, chunk);
    }
  }

  /** The planning loop for a file larger than one chunk: it always ends, and its tasks are the tiles exactly when the
      last chunk's nominal end fits. */
  method Plan(size: nat, chunk: nat) returns (tasks: seq<Task>)
    requires 0 < chunk < size <= MAX_INT64
    ensures IsPlan(tasks, size, chunk)
    ensures TaskSpans(tasks) == Tiles(0, size, chunk) <==> Fits(size, chunk)
  {
    ghost var laps := LastLap(chunk);
    tasks := [];
    var off := 0;
    while off < size
      invariant Looping(tasks, off, laps, size, chunk)
      decreases off < size, laps - |tasks|
    {
      OneRound(tasks, off, laps, size, chunk);
      var end := Wrap64(off + chunk - 1);
      if end >= size { end := size - 1; }
      tasks := tasks + [Task(off, end)];
      off := Wrap64(end + 1);
    }
    PlanExactly(size, chunk, tasks);
  }

  /** The loop's invariant; laps bounds its rounds. */
  ghost predicate Looping(tasks: seq<Task>, off: int, laps: nat, size: nat, chunk: nat) {
    if off >= size then IsPlan(tasks, size, chunk)
    else off == TaskAt(|tasks|, size, chunk).start && |tasks| < laps && Underway(tasks, size, chunk)
  }

  /** One round of the loop. */
  lemma {:induction false} OneRound(tasks: seq<Task>, off: int, laps: nat, size: nat, chunk: nat)
    requires 0 < chunk < size <= MAX_INT64 && off < size
    requires Looping(tasks, off, laps, size, chunk) && Wrap64(laps * chunk - chunk) == MAX_INT64 + 1 - chunk
    ensures var last := TaskLast(off, size, chunk);
            |tasks| < laps && Looping(tasks + [Task(off, last)], Wrap64(last + 1), laps, size, chunk)
  {
    RoundEnds(|tasks|, laps, size, chunk);
    Longer(tasks, TaskAt(|tasks|, size, chunk), size, chunk);
  }

  lemma {:induction false} RoundEnds(k: nat, laps: nat, size: nat, chunk: nat)
    requires 0 < chunk < size <= MAX_INT64
    requires k < laps && Wrap64(laps * chunk - chunk) == MAX_INT64 + 1 - chunk
    ensures var t := TaskAt(k, size, chunk);
            && -MAX_INT64 - 1 <= t.last < size
            && (t.last + 1 < size ==> t.last + 1 == TaskAt(k + 1, size, chunk).start && k + 1 < laps)
  {
    var a := k * chunk;
    assert (k + 1) * chunk == a + chunk by { OneLess(k + 1, chunk); }
    NextTask(a, size, chunk);
    if k + 1 == laps { assert a == laps * chunk - chunk; }
  }

  lemma {:induction false} Longer(tasks: seq<Task>, t: Task, size: nat, chunk: nat)
    requires Underway(tasks, size, chunk) && t == TaskAt(|tasks|, size, chunk)
    ensures t.last + 1 < size ==> Underway(tasks + [t], size, chunk)
    ensures t.last + 1 == size ==> IsPlan(tasks + [t], size, chunk)
  {
    assert (tasks + [t])[..|tasks|] == tasks;
  }

  /** Up to the last chunk the loop's fetches do not end the file; that one does, or its sum overflows. */
  lemma {:induction false} EarlyTasks(k: nat, size: nat, chunk: nat)
    requires 0 < chunk < size <= MAX_INT64
    ensures k < (size - 1) / chunk ==> TaskAt(k, size, chunk) == Task(k * chunk, k * chunk + chunk - 1)
    ensures k < (size - 1) / chunk ==> 0 <= k * chunk && k * chunk + chunk < size
  {
    var q := (size - 1) / chunk;
    assert q * chunk <= size - 1;
    if k < q {
      MulMono(k + 1, q, chunk);
      OneLess(k + 1, chunk);
    }
  }

  lemma {:induction false} LastTask(size: nat, chunk: nat)
    requires 0 < chunk < size <= MAX_INT64
    ensures var q := (size - 1) / chunk;
            && TaskAt(q, size, chunk).start == q * chunk && 0 <= q * chunk < size <= q * chunk + chunk
            && (Fits(size, chunk) ==> TaskAt(q, size, chunk).last == size - 1)
            && (!Fits(size, chunk) ==> TaskAt(q, size, chunk).last < 0)
  {
    StartsBelow(0, size, chunk);
    StepExact(LastStart(size, chunk), size, chunk);
  }

  /** So a plan has exactly one fetch per tile when the sums fit, and otherwise goes below zero at the last tile. */
  lemma {:induction false} PlanLength(size: nat, chunk: nat, tasks: seq<Task>)
    requires 0 < chunk < size <= MAX_INT64 && IsPlan(tasks, size, chunk)
    ensures var q := (size - 1) / chunk;
            q < |tasks| && tasks[q] == TaskAt(q, size, chunk) && (Fits(size, chunk) ==> |tasks| == q + 1)
  {
    var q := (size - 1) / chunk;
    EarlyTasks(|tasks| - 1, size, chunk);
    LastTask(size, chunk);
  }

  lemma {:induction false} TilesAt(off: nat, size: nat, chunk: nat, k: nat)
    requires chunk > 0
    ensures k < |Tiles(off, size, chunk)| <==> off + k * chunk < size
    ensures off + k * chunk < size ==>
              Tiles(off, size, chunk)[k] == Span(off + k * chunk, Min(off + k * chunk + chunk, size))
    decreases k
  {
    MulMono(0, k, chunk);
    if k > 0 && off < size {
      TilesAt(off + chunk, size, chunk, k - 1);
      OneLess(k, chunk);
    }
  }

  lemma {:induction false} PlanRight(size: nat, chunk: nat, tasks: seq<Task>)
    requires 0 < chunk < size <= MAX_INT64 && IsPlan(tasks, size, chunk) && Fits(size, chunk)
    ensures TaskSpans(tasks) == Tiles(0, size, chunk)
  {
    var q, tiles := (size - 1) / chunk, Tiles(0, size, chunk);
    PlanLength(size, chunk, tasks);
    LastTask(size, chunk);
    TilesAt(0, size, chunk, q);
    OneLess(q + 1, chunk);
    TilesAt(0, size, chunk, q + 1);
    forall k | 0 <= k < |tasks|
      ensures TaskSpan(tasks[k]) == tiles[k]
    {
      EarlyTasks(k, size, chunk);
      TilesAt(0, size, chunk, k);
    }
  }

  lemma {:induction false} PlanExactly(size: nat, chunk: nat, tasks: seq<Task>)
    requires 0 < chunk < size <= MAX_INT64 && IsPlan(tasks, size, chunk)
    ensures TaskSpans(tasks) == Tiles(0, size, chunk) <==> Fits(size, chunk)
  {
    if Fits(size, chunk) {
      PlanRight(size, chunk, tasks);
    } else {
      PlanWrong(size, chunk, tasks);
    }
  }

  lemma {:induction false} PlanWrong(size: nat, chunk: nat, tasks: seq<Task>)
    requires 0 < chunk < size <= MAX_INT64 && IsPlan(tasks, size, chunk) && !Fits(size, chunk)
    ensures var q := (size - 1) / chunk; q < |tasks| && tasks[q].start >= 0 && tasks[q].last < 0
    ensures TaskSpans(tasks) != Tiles(0, size, chunk)
  {
    var q := (size - 1) / chunk;
    PlanLength(size, chunk, tasks);
    LastTask(size, chunk);
    if TaskSpans(tasks) == Tiles(0, size, chunk) {
      TilesShape(0, size, chunk, q);
    }
  }

  /** One step of the loop is right exactly when its sum does not overflow; otherwise its fetch ends below zero. */
  lemma {:induction false} StepExact(off: nat, size: nat, chunk: nat)
    requires off < size <= MAX_INT64 && 0 < chunk <= MAX_INT64
    ensures TaskLast(off, size, chunk) == Min(off + chunk, size) - 1 <==> off + chunk - 1 <= MAX_INT64
    ensures off + chunk - 1 > MAX_INT64 ==> TaskLast(off, size, chunk) < 0
  {
  }

  /** So the whole plan is right exactly when the last step is. */
  lemma {:induction false} PlanExact(size: nat, chunk: nat)
    requires 0 < chunk < size <= MAX_INT64
    ensures Fits(size, chunk) <==>
            forall k: nat :: k * chunk < size ==>
              TaskLast(k * chunk, size, chunk) == Min(k * chunk + chunk, size) - 1
  {
    var q := (size - 1) / chunk;
    StartsBelow(0, size, chunk);
    StepExact(q * chunk, size, chunk);
    if Fits(size, chunk) {
      forall k: nat | k * chunk < size
        ensures TaskLast(k * chunk, size, chunk) == Min(k * chunk + chunk, size) - 1
      {
        StartsBelow(k, size, chunk);
        StepExact(k * chunk, size, chunk);
      }
    }
  }

  /** A size and a chunk for which the plan goes wrong. */
  lemma {:induction false} PlanOverflows()
    ensures var size, chunk := MAX_INT64, MAX_INT64 - 1;
            !Fits(size, chunk) && TaskLast(chunk, size, chunk) == -5
  {
    assert (MAX_INT64 - 1) / (MAX_INT64 - 1) == 1;
  }

  // ---- the tiles -----------------------------------------------------------------------

  lemma {:induction false} TilesShape(off: nat, size: nat, chunk: nat, i: nat)
    requires chunk > 0 && i < |Tiles(off, size, chunk)|
    ensures var t := Tiles(off, size, chunk)[i];
            off <= t.start < t.end <= size && t.end - t.start <= chunk
    decreases size - off
  {
    if i > 0 { TilesShape(off + chunk, size, chunk, i - 1); }
  }

  lemma {:induction false} TilesTouch(off: nat, size: nat, chunk: nat, i: nat)
    requires chunk > 0 && i + 1 < |Tiles(off, size, chunk)|
    ensures Tiles(off, size, chunk)[i].end == Tiles(off, size, chunk)[i + 1].start
    decreases size - off
  {
    if i > 0 { TilesTouch(off + chunk, size, chunk, i - 1); }
  }

  /** Every byte of the file lies in a tile, and nothing else does. */
  lemma {:induction false} TilesCover(off: nat, size: nat, chunk: nat, x: int)
    requires chunk > 0
    ensures Covered(Tiles(off, size, chunk), x) <==> off <= x < size
    decreases size - off
  {
    if off < size {
      var tiles, rest := Tiles(off, size, chunk), Tiles(off + chunk, size, chunk);
      assert tiles == [Span(off, Min(off + chunk, size))] + rest;
      TilesCover(off + chunk, size, chunk, x);
      if Covered(rest, x) {
        var i :| 0 <= i < |rest| && InSpan(rest[i], x);
        assert InSpan(tiles[i + 1], x);
      }
      if InSpan(tiles[0], x) {
        assert Covered(tiles, x);
      }
      if Covered(tiles, x) {
        var i :| 0 <= i < |tiles| && InSpan(tiles[i], x);
        if i > 0 { assert InSpan(rest[i - 1], x); }
      }
    }
  }

  lemma {:induction false} TilesDisjoint(off: nat, size: nat, chunk: nat)
    requires chunk > 0
    ensures Inflight.Disjoint(Tiles(off, size, chunk))
    decreases size - off
  {
    if off < size {
      var tiles, rest := Tiles(off, size, chunk), Tiles(off + chunk, size, chunk);
      TilesDisjoint(off + chunk, size, chunk);
      forall j | 0 <= j < |rest| ensures !Inflight.Overlaps(tiles[0], rest[j]) {
        TilesShape(off + chunk, size, chunk, j);
      }
    }
  }

  // ---- what goes over the wire -----------------------------------------------------------

  /** The Range header of a task, or none when it asks for the whole file. */
  function HeaderFor(t: Task, size: int): string {
    if 0 <= t.start <= t.last && t.last + 1 - t.start < size then RangeHeader(t.start, t.last) else ""
  }

  /** The range forward claims in the in-flight set. */
  function InflightRange(header: string): Span {
    match ParseSingleRange(header, -1)
    case Some(s) => if header != "" && s.end > s.start then s else Span(0, MAX_INT64)
    case None => Span(0, MAX_INT64)
  }

  lemma {:induction false} HeaderPrinted(t: Task, size: nat)
    requires 0 <= t.start <= t.last && t.last + 1 - t.start < size
    ensures HeaderFor(t, size) == RangeHeader(t.start, t.last) && HeaderFor(t, size) != ""
  {
  }

  lemma {:induction false} Claimed(header: string, s: Span)
    requires header != "" && ParseSingleRange(header, -1) == Some(s) && s.start < s.end
    ensures InflightRange(header) == s
  {
  }

  /** The header of every planned task parses back to its tile, and that tile is what the proxy claims. */
  lemma {:induction false} TaskOnTheWire(size: nat, chunk: nat, tasks: seq<Task>, i: nat, header: string, total: int)
    requires 0 < chunk < size <= MAX_INT64 && TaskSpans(tasks) == Tiles(0, size, chunk) && i < |tasks|
    requires header == HeaderFor(tasks[i], size)
    ensures ParseSingleRange(header, total) == Some(Tiles(0, size, chunk)[i])
    ensures InflightRange(header) == Tiles(0, size, chunk)[i]
  {
    TilesShape(0, size, chunk, i);
    var t := tasks[i];
    assert TaskSpan(t) == Tiles(0, size, chunk)[i];
    HeaderPrinted(t, size);
    RangeRoundTrip(t.start, t.last, total);
    RangeRoundTrip(t.start, t.last, -1);
    Claimed(header, TaskSpan(t));
  }

  /** Planning one file: a file that fits a chunk is fetched whole, without a Range header; a larger one by the loop. */
  method PlanFile(size: nat, chunk: nat) returns (tasks: seq<Task>)
    requires 0 < chunk && size <= MAX_INT64
    ensures size > 0 ==> (TaskSpans(tasks) == Tiles(0, size, chunk) <==> size <= chunk || Fits(size, chunk))
    ensures size > chunk ==> IsPlan(tasks, size, chunk)
    ensures size <= chunk ==> |tasks| == 1 && TaskSpan(tasks[0]) == Span(0, size) && HeaderFor(tasks[0], size) == ""
  {
    if size <= chunk {
      tasks := [Task(0, size - 1)];
      assert size > 0 ==> Tiles(chunk, size, chunk) == [];
    } else {
      tasks := Plan(size, chunk);
    }
  }

  /** All planned ranges can be in flight at once. */
  lemma {:induction false} AllInFlight(size: nat, chunk: nat) returns (steps: seq<Inflight.Step>)
    requires 0 < chunk
    ensures Inflight.Legal(Inflight.State([], multiset{}), steps)
    ensures Inflight.Run(Inflight.State([], multiset{}), steps).spans == Tiles(0, size, chunk)
  {
    TilesDisjoint(0, size, chunk);
    steps := Inflight.AllHeld(Tiles(0, size, chunk));
  }
}
