/** Octet strings: one char per byte. Splitting, joining, ordering and trimming as Go's strings package does them. */
module Text {

  /** Position of the first c, or |s|. */
  function IndexByte(s: string, c: char): (i: nat)
    ensures i <= |s|
    ensures i < |s| ==> s[i] == c
    ensures c !in s[..i]
    ensures i == |s| <==> c !in s
  {
    if s == [] then 0
    else if s[0] == c then 0
    else
      var i := IndexByte(s[1..], c);
      assert s == [s[0]] + s[1..];
      assert s[..i + 1] == [s[0]] + s[1..][..i];
      i + 1
  }

  /** strings.Split on a one-byte separator. */
  function Split(s: string, sep: char): (r: seq<string>)
    ensures r != []
    ensures forall p :: p in r ==> sep !in p
    decreases |s|
  {
    var i := IndexByte(s, sep);
    if i == |s| then assert s[..i] == s; [s]
    else [s[..i]] + Split(s[i + 1..], sep)
  }

  /** strings.Join with a one-byte separator. */
  function Join(parts: seq<string>, sep: char): string {
    if parts == [] then ""
    else if |parts| == 1 then parts[0]
    else parts[0] + [sep] + Join(parts[1..], sep)
  }

  lemma {:induction false} JoinSplit(s: string, sep: char)
    ensures Join(Split(s, sep), sep) == s
    decreases |s|
  {
    var i := IndexByte(s, sep);
    if i < |s| {
      var a, b := s[..i], s[i + 1..];
      JoinSplit(b, sep);
      SplitAt(s, sep, a, b);
      JoinCons(a, Split(b, sep), sep);
    }
  }

  /** A string with a separator: its first part, and the parts of what follows. */
  lemma {:induction false} SplitAt(s: string, sep: char, a: string, b: string)
    requires IndexByte(s, sep) < |s| && a == s[..IndexByte(s, sep)] && b == s[IndexByte(s, sep) + 1..]
    ensures Split(s, sep) == [a] + Split(b, sep) && a + [sep] + b == s && sep !in a
  {
    Around(s, IndexByte(s, sep));
  }

  lemma {:induction false} Around(s: string, i: nat)
    requires i < |s|
    ensures s[..i] + [s[i]] + s[i + 1..] == s
  {
  }

  lemma {:induction false} JoinCons(a: string, rest: seq<string>, sep: char)
    requires rest != []
    ensures Join([a] + rest, sep) == a + [sep] + Join(rest, sep)
  {
    assert ([a] + rest)[1..] == rest;
  }

  lemma {:induction false} IndexByteAppend(a: string, c: char, b: string)
    requires c !in a
    ensures IndexByte(a + [c] + b, c) == |a|
  {
    var s := a + [c] + b;
    assert s[|a|] == c;
    assert forall j :: 0 <= j < |a| ==> s[j] == a[j];
    assert forall i :: |a| < i <= |s| ==> s[..i][|a|] == c;
  }

  /** A separator-free head is the first part. */
  lemma {:induction false} SplitCons(a: string, sep: char, b: string)
    requires sep !in a
    ensures Split(a + [sep] + b, sep) == [a] + Split(b, sep)
  {
    var s := a + [sep] + b;
    IndexByteAppend(a, sep, b);
    assert s[..|a|] == a && s[|a| + 1..] == b;
  }

  /** Appending one more separator-free piece appends one more part. */
  lemma {:induction false} SplitAppend(s: string, sep: char, p: string)
    requires sep !in p
    ensures Split(s + [sep] + p, sep) == Split(s, sep) + [p]
    decreases |s|
  {
    var i := IndexByte(s, sep);
    if i == |s| {
      SplitOne(s, sep);
      SplitOne(p, sep);
      SplitCons(s, sep, p);
    } else {
      var a, b := s[..i], s[i + 1..];
      SplitAt(s, sep, a, b);
      Regroup(a, sep, b, p);
      SplitCons(a, sep, b + [sep] + p);
      SplitAppend(b, sep, p);
      OneLonger(a, Split(b, sep), p);
    }
  }

  lemma {:induction false} SplitOne(s: string, sep: char)
    requires sep !in s
    ensures Split(s, sep) == [s]
  {
  }

  lemma {:induction false} OneLonger(a: string, rest: seq<string>, p: string)
    ensures [a] + (rest + [p]) == ([a] + rest) + [p]
  {
  }

  lemma {:induction false} Regroup(a: string, sep: char, b: string, p: string)
    ensures (a + [sep] + b) + [sep] + p == a + [sep] + (b + [sep] + p)
  {
  }

  // ---- byte-wise order ------------------------------------------------------

  predicate Less(a: string, b: string) {
    b != [] && (a == [] || a[0] < b[0] || (a[0] == b[0] && Less(a[1..], b[1..])))
  }

  lemma {:induction false} LessTotal(a: string, b: string)
    ensures Less(a, b) || a == b || Less(b, a)
  {
    if a != [] && b != [] && a[0] == b[0] {
      LessTotal(a[1..], b[1..]);
      assert a == [a[0]] + a[1..] && b == [b[0]] + b[1..];
    }
  }

  lemma {:induction false} LessTransitive(a: string, b: string, c: string)
    requires Less(a, b) && Less(b, c)
    ensures Less(a, c)
  {
    if a != [] && a[0] == b[0] == c[0] { LessTransitive(a[1..], b[1..], c[1..]); }
  }
}
