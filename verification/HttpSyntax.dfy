/** The byte-level checks of internal/coreserver/server.go: what a request line and a header line may look like.
    Bytes are chars, one per octet. */
module HttpSyntax {
  import opened Text

  datatype Option<T> = None | Some(value: T)

  predicate IsSpace(c: char) {
    c == ' ' || c == '\t'
  }

  // ---- trimSpace -------------------------------------------------------------

  /** The first position from i on that holds neither space nor tab. */
  function SkipSpaces(s: string, i: nat): (r: nat)
    requires i <= |s|
    ensures i <= r <= |s|
    ensures forall k :: i <= k < r ==> IsSpace(s[k])
    ensures r < |s| ==> !IsSpace(s[r])
    decreases |s| - i
  {
    if i < |s| && IsSpace(s[i]) then SkipSpaces(s, i + 1) else i
  }

  /** The end of s[i..j] without its trailing spaces and tabs. */
  function BackSpaces(s: string, i: nat, j: nat): (r: nat)
    requires i <= j <= |s|
    ensures i <= r <= j
    ensures forall k :: r <= k < j ==> IsSpace(s[k])
    ensures i < r ==> !IsSpace(s[r - 1])
    decreases j
  {
    if j > i && IsSpace(s[j - 1]) then BackSpaces(s, i, j - 1) else j
  }

  function Trim(s: string): string {
    var i := SkipSpaces(s, 0);
    s[i..BackSpaces(s, i, |s|)]
  }

  /** trimSpace: the slice between the first and last byte that is neither space nor tab. */
  method TrimSpace(b: string) returns (r: string)
    ensures r == Trim(b)
  {
    var i := 0;
    while i < |b| && IsSpace(b[i])
      invariant 0 <= i <= |b|
      invariant SkipSpaces(b, i) == SkipSpaces(b, 0)
    {
      i := i + 1;
    }
    var j := |b|;
    while j > i && IsSpace(b[j - 1])
      invariant i <= j <= |b|
      invariant BackSpaces(b, i, j) == BackSpaces(b, i, |b|)
    {
      j := j - 1;
    }
    r := b[i..j];
  }

  // ---- case-insensitive comparison ---------------------------------------------

  function Lower(c: char): char {
    if 'A' <= c <= 'Z' then c + 32 as char else c
  }

  /** asciiEqualFold; b is lower case. */
  predicate EqualFold(a: string, b: string) {
    |a| == |b| && forall i :: 0 <= i < |a| ==> Lower(a[i]) == b[i]
  }

  predicate IsSeparator(c: char) {
    c == ',' || IsSpace(c)
  }

  /** s[i..j] is a whole token: non-empty, separator-free, with a separator or an end on each side. */
  predicate IsToken(s: string, i: int, j: int) {
    && 0 <= i < j <= |s|
    && (forall k :: i <= k < j ==> !IsSeparator(s[k]))
    && (i == 0 || IsSeparator(s[i - 1]))
    && (j == |s| || IsSeparator(s[j]))
  }

  predicate HasToken(s: string, token: string) {
    exists i: nat, j: nat :: i < j <= |s| && IsToken(s, i, j) && EqualFold(s[i..j], token)
  }

  /** asciiContainsTokenFold: consumes the haystack from the front, separators then one token at a time. */
  method ContainsTokenFold(haystack: string, token: string) returns (r: bool)
    requires token != ""
    ensures r == HasToken(haystack, token)
  {
    var at := 0;
    while at < |haystack|
      invariant 0 <= at <= |haystack|
      invariant at == 0 || at == |haystack| || IsSeparator(haystack[at])
      invariant forall i: nat, j: nat :: i < at && IsToken(haystack, i, j) ==> !EqualFold(haystack[i..j], token)
      decreases |haystack| - at
    {
      var start := at;
      while start < |haystack| && IsSeparator(haystack[start])
        invariant at <= start <= |haystack|
        invariant forall k :: at <= k < start ==> IsSeparator(haystack[k])
        invariant start == 0 || IsSeparator(haystack[start - 1]) || start == at
      {
        start := start + 1;
      }
      var end := start;
      while end < |haystack| && !IsSeparator(haystack[end])
        invariant start <= end <= |haystack|
        invariant forall k :: start <= k < end ==> !IsSeparator(haystack[k])
      {
        end := end + 1;
      }
      if EqualFold(haystack[start..end], token) {
        assert start < end && IsToken(haystack, start, end);
        return true;
      }
      forall i: nat, j: nat | i < end && IsToken(haystack, i, j)
        ensures !EqualFold(haystack[i..j], token)
      {
        if at <= i { OnlyToken(haystack, start, end, i, j); }
      }
      at := end;
    }
    return false;
  }

  /** Between two token boundaries there is at most the one token. */
  lemma {:induction false} OnlyToken(s: string, start: nat, end: nat, i: nat, j: nat)
    requires start <= end <= |s| && IsToken(s, i, j) && i < end
    requires forall k :: start <= k < end ==> !IsSeparator(s[k])
    requires end == |s| || IsSeparator(s[end])
    requires i < start ==> IsSeparator(s[i])
    ensures i == start && j == end
  {
  }

  // ---- parseDecimalInt64 -------------------------------------------------------

  const MAX_INT64: int := 0x7FFF_FFFF_FFFF_FFFF
  const TWO_64: int := 0x1_0000_0000_0000_0000

  /** Reduction to a signed 64-bit integer. */
  function Wrap64(n: int): (r: int)
    ensures -MAX_INT64 - 1 <= r <= MAX_INT64
    ensures -MAX_INT64 - 1 <= n <= MAX_INT64 ==> r == n
  {
    var m := n % TWO_64;
    if m > MAX_INT64 then m - TWO_64 else m
  }

  predicate IsDigit(c: char) {
    '0' <= c <= '9'
  }

  function Digit(c: char): int {
    c as int - '0' as int
  }

  predicate IsHex(c: char) {
    IsDigit(c) || 'a' <= c <= 'f' || 'A' <= c <= 'F'
  }

  function HexDigit(c: char): (d: nat)
    requires IsHex(c)
    ensures d < 16
  {
    if IsDigit(c) then c as int - '0' as int
    else if 'a' <= c <= 'f' then c as int - 'a' as int + 10
    else c as int - 'A' as int + 10
  }

  predicate AllDigits(b: string) {
    forall i :: 0 <= i < |b| ==> IsDigit(b[i])
  }

  /** The number a digit string denotes. */
  function Value(b: string): (v: int)
    ensures AllDigits(b) ==> v >= 0
  {
    if b == [] then 0 else 10 * Value(b[..|b| - 1]) + Digit(b[|b| - 1])
  }

  /** The accumulator after b, or none once a byte is not a digit or the 64-bit sum has gone negative. */
  function Accumulated(b: string): Option<int> {
    if b == [] then Some(0)
    else
      match Accumulated(b[..|b| - 1])
      case None => None
      case Some(v) =>
        if !IsDigit(b[|b| - 1]) then None
        else
          var next := Wrap64(v * 10 + Digit(b[|b| - 1]));
          if next < 0 then None else Some(next)
  }

  function Decimal64(b: string): Option<int> {
    if b == [] then None else Accumulated(b)
  }

  method ParseDecimalInt64(b: string) returns (r: Option<int>)
    ensures r == Decimal64(b)
  {
    hide Wrap64;
    if |b| == 0 { return None; }
    var v := 0;
    for i := 0 to |b|
      invariant Accumulated(b[..i]) == Some(v)
    {
      assert b[..i + 1][..i] == b[..i];
      if !IsDigit(b[i]) {
        NoneStays(b, i + 1);
        return None;
      }
      v := Wrap64(v * 10 + Digit(b[i]));
      if v < 0 {
        NoneStays(b, i + 1);
        return None;
      }
    }
    assert b[..|b|] == b;
    return Some(v);
  }

  lemma {:induction false} NoneStays(b: string, i: nat)
    requires i <= |b| && Accumulated(b[..i]) == None
    ensures Accumulated(b) == None
    decreases |b| - i
  {
    if i < |b| {
      assert b[..i + 1][..i] == b[..i];
      NoneStays(b, i + 1);
    } else {
      assert b[..i] == b;
    }
  }

  /** The 64-bit accumulator never goes negative: every prefix denotes, modulo 2^64, a non-negative int64. */
  ghost predicate StaysPositive(b: string) {
    forall i {:trigger b[..i]} :: 0 <= i <= |b| ==> Value(b[..i]) % TWO_64 <= MAX_INT64
  }

  lemma {:induction false} StaysPositiveFront(b: string)
    requires b != []
    ensures StaysPositive(b) <==> StaysPositive(b[..|b| - 1]) && Value(b) % TWO_64 <= MAX_INT64
  {
    var front := b[..|b| - 1];
    assert b[..|b|] == b;
    assert forall i {:trigger b[..i]} {:trigger front[..i]} :: 0 <= i < |b| ==> front[..i] == b[..i];
  }

  /** Taking the remainder early or late is the same. */
  lemma {:induction false} RemainderStep(v: int, d: int)
    ensures ((v % TWO_64) * 10 + d) % TWO_64 == (v * 10 + d) % TWO_64
  {
    var q, r := v / TWO_64, v % TWO_64;
    assert v * 10 + d == (r * 10 + d) + TWO_64 * (10 * q);
    RemainderShift(r * 10 + d, 10 * q);
  }

  lemma {:induction false} RemainderShift(x: int, k: int)
    ensures (x + TWO_64 * k) % TWO_64 == x % TWO_64
  {
  }

  /** A digit string is accepted exactly when the accumulator stays positive all along, and then it is read modulo
      2^64. */
  lemma {:induction false} AccumulatedExactly(b: string)
    requires AllDigits(b)
    ensures Accumulated(b).Some? <==> StaysPositive(b)
    ensures Accumulated(b).Some? ==> Accumulated(b).value == Value(b) % TWO_64
  {
    if b == [] {
      assert forall i {:trigger b[..i]} :: 0 <= i <= |b| ==> b[..i] == [];
    } else {
      var front := b[..|b| - 1];
      AccumulatedExactly(front);
      StaysPositiveFront(b);
      RemainderStep(Value(front), Digit(b[|b| - 1]));
    }
  }

  /** The right answer: the number when it fits a signed 64-bit integer, a refusal when it does not. */
  predicate ReadRight(b: string) {
    Decimal64(b) == if b != [] && AllDigits(b) && Value(b) <= MAX_INT64 then Some(Value(b)) else None
  }

  /** parseDecimalInt64 is right exactly when the string is no number at all, or its number fits, or the accumulator
      goes negative somewhere on the way. */
  lemma {:induction false} RightExactly(b: string)
    ensures ReadRight(b) <==> b == [] || !AllDigits(b) || Value(b) <= MAX_INT64 || !StaysPositive(b)
  {
    if b != [] {
      if AllDigits(b) {
        AccumulatedExactly(b);
        if Value(b) <= MAX_INT64 { PrefixesFit(b); }
      } else {
        NonDigitRefused(b);
      }
    }
  }

  lemma {:induction false} PrefixesFit(b: string)
    requires AllDigits(b) && Value(b) <= MAX_INT64
    ensures StaysPositive(b)
  {
    if b == [] {
      assert forall i {:trigger b[..i]} :: 0 <= i <= |b| ==> b[..i] == [];
    } else {
      PrefixesFit(b[..|b| - 1]);
      StaysPositiveFront(b);
    }
  }

  /** When all digits but the last fit, nothing but the last step decides: 2^64 and 2^65 are both read as zero. */
  lemma {:induction false} LastDigitDecides(b: string)
    requires b != [] && AllDigits(b) && Value(b[..|b| - 1]) <= MAX_INT64
    ensures Decimal64(b) == if Value(b) % TWO_64 <= MAX_INT64 then Some(Value(b) % TWO_64) else None
    ensures Value(b) == TWO_64 || Value(b) == 2 * TWO_64 ==> Decimal64(b) == Some(0) && !ReadRight(b)
  {
    PrefixesFit(b[..|b| - 1]);
    StaysPositiveFront(b);
    AccumulatedExactly(b);
    RightExactly(b);
  }

  lemma {:induction false} NonDigitRefused(b: string)
    requires !AllDigits(b)
    ensures Accumulated(b) == None
  {
    var front := b[..|b| - 1];
    if !AllDigits(front) {
      NonDigitRefused(front);
    } else {
      assert !IsDigit(b[|b| - 1]);
    }
  }
}
