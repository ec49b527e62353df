/** The origin marker that internal/rewrite/rewrite.go carries through redirects in the query string. */
module Origin {
  import opened Text
  import opened HttpSyntax

  const MARKER: string := "__pulsys_origin"

  predicate Octets(s: string) {
    forall i :: 0 <= i < |s| ==> s[i] < 256 as char
  }

  // ---- url.QueryEscape and url.QueryUnescape -----------------------------------------

  predicate Unreserved(c: char) {
    'A' <= c <= 'Z' || 'a' <= c <= 'z' || IsDigit(c) || c == '-' || c == '_' || c == '.' || c == '~'
  }

  function UpperHex(d: nat): (c: char)
    requires d < 16
    ensures IsHex(c) && HexDigit(c) == d
    ensures c != '&'
  {
    if d < 10 then '0' + d as char else 'A' + (d - 10) as char
  }

  function EscapeByte(c: char): (s: string)
    requires c < 256 as char
    ensures '&' !in s && s != ""
  {
    if Unreserved(c) then [c]
    else if c == ' ' then ['+']
    else ['%', UpperHex(c as int / 16), UpperHex(c as int % 16)]
  }

  function Escape(s: string): (r: string)
    requires Octets(s)
    ensures '&' !in r
  {
    if s == "" then "" else EscapeByte(s[0]) + Escape(s[1..])
  }

  function Unescape(s: string): Option<string> {
    if s == "" then Some("")
    else if s[0] == '%' then
      if |s| < 3 || !IsHex(s[1]) || !IsHex(s[2]) then None
      else Cons((16 * HexDigit(s[1]) + HexDigit(s[2])) as char, Unescape(s[3..]))
    else Cons(if s[0] == '+' then ' ' else s[0], Unescape(s[1..]))
  }

  function Cons(c: char, rest: Option<string>): Option<string> {
    match rest
    case None => None
    case Some(s) => Some([c] + s)
  }

  lemma {:induction false} UnescapeByte(c: char, rest: string)
    requires c < 256 as char
    ensures Unescape(EscapeByte(c) + rest) == Cons(c, Unescape(rest))
  {
    var e := EscapeByte(c);
    var s := e + rest;
    assert s[|e|..] == rest;
    assert forall i :: 0 <= i < |e| ==> s[i] == e[i];
    if !Unreserved(c) && c != ' ' {
      assert s[0] == '%' && s[1] == UpperHex(c as int / 16) && s[2] == UpperHex(c as int % 16);
      assert 16 * (c as int / 16) + c as int % 16 == c as int;
    } else {
      assert s[0] == e[0];
    }
  }

  lemma {:induction false} UnescapeEscape(s: string)
    requires Octets(s)
    ensures Unescape(Escape(s)) == Some(s)
  {
    if s != "" {
      UnescapeEscape(s[1..]);
      UnescapeByte(s[0], Escape(s[1..]));
      assert [s[0]] + s[1..] == s;
    }
  }

  // ---- adding the marker ------------------------------------------------------------------

  function MarkerEq(): string {
    MARKER + ['=']
  }

  function MarkerSegment(origin: string): string
    requires Octets(origin)
  {
    MarkerEq() + Escape(origin)
  }

  /** The query part of LocationToProxyWithOrigin. */
  function AppendMarker(rawq: string, origin: string): string
    requires Octets(origin)
  {
    if origin == "" then rawq
    else if rawq == "" then MarkerSegment(origin)
    else rawq + ['&'] + MarkerSegment(origin)
  }

  // ---- taking it off ----------------------------------------------------------------------

  predicate HasPrefix(s: string, prefix: string) {
    |prefix| <= |s| && s[..|prefix|] == prefix
  }

  predicate Contains(s: string, t: string) {
    exists i :: 0 <= i <= |s| && HasPrefix(s[i..], t)
  }

  /** A segment that ExtractAndStripOrigin drops. */
  predicate Marked(segment: string) {
    HasPrefix(segment, MarkerEq()) || segment == MARKER
  }

  function Kept(segs: seq<string>): seq<string> {
    if segs == [] then []
    else
      var last := segs[|segs| - 1];
      Kept(segs[..|segs| - 1]) + if Marked(last) then [] else [last]
  }

  function Decoded(segment: string): string {
    if !HasPrefix(segment, MarkerEq()) then ""
    else
      match Unescape(segment[|MarkerEq()|..])
      case None => ""
      case Some(s) => s
  }

  /** The first non-empty origin that decodes. */
  function FirstOrigin(segs: seq<string>): string {
    if segs == [] then ""
    else
      var before := FirstOrigin(segs[..|segs| - 1]);
      if before != "" then before else Decoded(segs[|segs| - 1])
  }

  function Strip(rawq: string): (string, string) {
    if rawq == "" || !Contains(rawq, MARKER) then ("", rawq)
    else (FirstOrigin(Split(rawq, '&')), Join(Kept(Split(rawq, '&')), '&'))
  }

  /** ExtractAndStripOrigin. */
  method ExtractAndStripOrigin(rawq: string) returns (origin: string, cleaned: string)
    ensures (origin, cleaned) == Strip(rawq)
  {
    origin := "";
    if rawq == "" || !Contains(rawq, MARKER) { return "", rawq; }
    var segs := Split(rawq, '&');
    var kept := [];
    for i := 0 to |segs|
      invariant kept == Kept(segs[..i]) && origin == FirstOrigin(segs[..i])
    {
      var s := segs[i];
      assert segs[..i + 1][..i] == segs[..i];
      if HasPrefix(s, MarkerEq()) {
        if origin == "" {
          var dec := Unescape(s[|MarkerEq()|..]);
          if dec.Some? { origin := dec.value; }
        }
      } else if s != MARKER {
        kept := kept + [s];
      }
    }
    assert segs[..|segs|] == segs;
    cleaned := Join(kept, '&');
  }

  // ---- the round trip ----------------------------------------------------------------------

  /** No segment of the query is the marker or begins with marker=. */
  predicate Unmarked(segs: seq<string>) {
    forall i :: 0 <= i < |segs| ==> !Marked(segs[i])
  }

  lemma {:induction false} KeptAll(segs: seq<string>)
    requires Unmarked(segs)
    ensures Kept(segs) == segs && FirstOrigin(segs) == ""
  {
    if segs != [] {
      var front := segs[..|segs| - 1];
      KeptAll(front);
      assert segs == front + [segs[|segs| - 1]];
    }
  }

  lemma {:induction false} KeptUnmarked(segs: seq<string>)
    ensures Unmarked(Kept(segs)) && |Kept(segs)| <= |segs|
    ensures |Kept(segs)| == |segs| <==> Unmarked(segs)
  {
    if segs != [] {
      var front, last := segs[..|segs| - 1], segs[|segs| - 1];
      KeptUnmarked(front);
      assert Unmarked(segs) <==> Unmarked(front) && !Marked(last);
    }
  }

  lemma {:induction false} MarkerDecodes(origin: string)
    requires Octets(origin)
    ensures Marked(MarkerSegment(origin)) && Decoded(MarkerSegment(origin)) == origin && '&' !in MarkerSegment(origin)
  {
    UnescapeEscape(origin);
    var seg := MarkerSegment(origin);
    assert seg[..|MarkerEq()|] == MarkerEq() && seg[|MarkerEq()|..] == Escape(origin);
    MarkerHasNoAmp();
  }

  lemma {:induction false} MarkerHasNoAmp()
    ensures '&' !in MarkerEq()
  {
  }

  lemma {:induction false} ContainsAppended(rawq: string, origin: string)
    requires Octets(origin) && origin != ""
    ensures AppendMarker(rawq, origin) != "" && Contains(AppendMarker(rawq, origin), MARKER)
  {
    var q := AppendMarker(rawq, origin);
    var at := if rawq == "" then 0 else |rawq| + 1;
    assert q[at..] == MarkerSegment(origin);
    assert q[at..][..|MARKER|] == MARKER;
    assert HasPrefix(q[at..], MARKER);
  }

  /** What stripping an appended marker leaves. */
  lemma {:induction false} StripAppended(rawq: string, origin: string)
    requires Octets(origin) && origin != ""
    ensures rawq != "" ==> Strip(AppendMarker(rawq, origin)).1 == Join(Kept(Split(rawq, '&')), '&')
    ensures rawq == "" ==> Strip(AppendMarker(rawq, origin)) == (origin, "")
    ensures rawq != "" ==>
              Strip(AppendMarker(rawq, origin)).0 ==
              if FirstOrigin(Split(rawq, '&')) != "" then FirstOrigin(Split(rawq, '&')) else origin
  {
    var p := MarkerSegment(origin);
    MarkerDecodes(origin);
    ContainsAppended(rawq, origin);
    if rawq == "" {
      assert Split(p, '&') == [p];
      OneMore([], p);
    } else {
      SplitAppend(rawq, '&', p);
      OneMore(Split(rawq, '&'), p);
    }
  }

  lemma {:induction false} OneMore(segs: seq<string>, p: string)
    requires Marked(p)
    ensures Kept(segs + [p]) == Kept(segs)
    ensures FirstOrigin(segs + [p]) == if FirstOrigin(segs) != "" then FirstOrigin(segs) else Decoded(p)
  {
    assert (segs + [p])[..|segs|] == segs;
  }

  /** Appending the marker and stripping it gives back the origin and the query byte for byte, empty segments included,
      exactly when no segment of the query looks like a marker. */
  lemma {:induction false} RoundTrip(rawq: string, origin: string)
    requires Octets(origin) && origin != ""
    ensures Strip(AppendMarker(rawq, origin)) == (origin, rawq) <==> Unmarked(Split(rawq, '&'))
  {
    StripAppended(rawq, origin);
    var segs := Split(rawq, '&');
    if rawq == "" {
      assert segs == [""];
    } else if Unmarked(segs) {
      KeptAll(segs);
      JoinSplit(rawq, '&');
    } else {
      KeptUnmarked(segs);
      CleanedDiffers(rawq);
    }
  }

  /** A query without markers comes back as it is. */
  lemma {:induction false} UnmarkedUntouched(rawq: string)
    requires Unmarked(Split(rawq, '&'))
    ensures Strip(rawq) == ("", rawq)
  {
    KeptAll(Split(rawq, '&'));
    JoinSplit(rawq, '&');
  }

  /** A query that loses a segment changes. */
  lemma {:induction false} CleanedDiffers(rawq: string)
    requires rawq != "" && |Kept(Split(rawq, '&'))| < |Split(rawq, '&')|
    ensures Join(Kept(Split(rawq, '&')), '&') != rawq
  {
    var kept := Kept(Split(rawq, '&'));
    if kept != [] {
      KeptFrom(Split(rawq, '&'));
      SplitJoin(kept, '&');
    }
  }

  lemma {:induction false} KeptFrom(segs: seq<string>)
    ensures forall s :: s in Kept(segs) ==> s in segs
  {
    if segs != [] { KeptFrom(segs[..|segs| - 1]); }
  }

  lemma {:induction false} SplitJoin(parts: seq<string>, sep: char)
    requires parts != [] && forall p :: p in parts ==> sep !in p
    ensures Split(Join(parts, sep), sep) == parts
  {
    if |parts| > 1 {
      SplitJoin(parts[1..], sep);
      SplitCons(parts[0], sep, Join(parts[1..], sep));
      assert parts == [parts[0]] + parts[1..];
    }
  }
}
