/** Byte-range sets of internal/cache/key.go: the span lists that meta.json publishes. */
module Spans {

  /** A half-open byte interval [start, end). */
  datatype Span = Span(start: int, end: int)

  predicate InSpan(s: Span, x: int) {
    s.start <= x < s.end
  }

  /** Offset x lies in some span of the list. */
  predicate Covered(spans: seq<Span>, x: int) {
    exists i :: 0 <= i < |spans| && InSpan(spans[i], x)
  }

  /** No span is inverted; empty spans are allowed. */
  predicate WellFormed(spans: seq<Span>) {
    forall i :: 0 <= i < |spans| ==> spans[i].start <= spans[i].end
  }

  /** isSortedAndDisjoint: each span starts at or after the end of its predecessor (touching is accepted). */
  predicate Ascending(spans: seq<Span>) {
    forall i :: 1 <= i < |spans| ==> spans[i - 1].end <= spans[i].start
  }

  /** The comparison handed to sort.Slice, as a reflexive order. */
  predicate Before(a: Span, b: Span) {
    a.start < b.start || (a.start == b.start && a.end <= b.end)
  }

  predicate SortedByStart(spans: seq<Span>) {
    forall i, j :: 0 <= i < j < |spans| ==> Before(spans[i], spans[j])
  }

  function InsertSorted(s: Span, spans: seq<Span>): (r: seq<Span>)
    ensures multiset(r) == multiset(spans) + multiset{s}
  {
    if spans == [] then [s]
    else if Before(s, spans[0]) then [s] + spans
    else
      assert spans == [spans[0]] + spans[1..];
      [spans[0]] + InsertSorted(s, spans[1..])
  }

  lemma {:induction false} InsertKeepsSorted(s: Span, spans: seq<Span>)
    requires SortedByStart(spans)
    ensures SortedByStart(InsertSorted(s, spans))
  {
    if spans != [] && !Before(s, spans[0]) {
      var tail := InsertSorted(s, spans[1..]);
      InsertKeepsSorted(s, spans[1..]);
      forall j | 0 <= j < |tail|
        ensures Before(spans[0], tail[j])
      {
        assert tail[j] in multiset(spans[1..]) + multiset{s};
      }
    }
  }

  /** sort.Slice on a copy: the order is total on (start, end), so every sorted permutation is this one. */
  function SortSpans(spans: seq<Span>): (r: seq<Span>)
    ensures SortedByStart(r)
    ensures multiset(r) == multiset(spans)
    ensures |r| == |spans|
  {
    if spans == [] then []
    else
      assert spans == [spans[0]] + spans[1..];
      var r := InsertSorted(spans[0], SortSpans(spans[1..]));
      InsertKeepsSorted(spans[0], SortSpans(spans[1..]));
      assert |multiset(r)| == |multiset(spans)|;
      r
  }

  /** One step of the compaction: extend the last span or start a new one. */
  function Absorb(out: seq<Span>, s: Span): (r: seq<Span>)
    requires out != []
    ensures r != []
  {
    var last := out[|out| - 1];
    if s.start <= last.end then
      if s.end > last.end then out[|out| - 1 := Span(last.start, s.end)] else out
    else
      out + [s]
  }

  function Compact(spans: seq<Span>): (r: seq<Span>)
    requires spans != []
    ensures r != []
  {
    if |spans| == 1 then spans
    else Absorb(Compact(spans[..|spans| - 1]), spans[|spans| - 1])
  }

  /** The value MergeSpans computes. */
  function Merged(spans: seq<Span>): seq<Span> {
    if |spans| <= 1 || Ascending(spans) then spans
    else Compact(SortSpans(spans))
  }

  /** One round of the compaction: the span at r is joined to the one before w or written there. The part of the array
      that is still to be read is not touched, since w never passes r. */
  method AbsorbAt(cp: array<Span>, w: nat, r: nat) returns (w': nat)
    requires 1 <= w <= r < cp.Length
    modifies cp
    ensures w <= w' <= r + 1
    ensures cp[..w'] == Absorb(old(cp[..w]), old(cp[r]))
    ensures forall k :: r < k < cp.Length ==> cp[k] == old(cp[k])
  {
    var s := cp[r];
    w' := w;
    if s.start <= cp[w - 1].end {
      if s.end > cp[w - 1].end {
        cp[w - 1] := Span(cp[w - 1].start, s.end);
      }
    } else {
      cp[w] := s;
      w' := w + 1;
    }
  }

  lemma {:induction false} CompactNext(spans: seq<Span>, r: nat)
    requires 1 <= r < |spans|
    ensures Compact(spans[..r]) != [] && Compact(spans[..r + 1]) == Absorb(Compact(spans[..r]), spans[r])
  {
    assert spans[..r + 1][..r] == spans[..r];
  }

  /** The compaction of a sorted copy into the array it is still reading. */
  method CompactCopy(sorted: seq<Span>) returns (out: seq<Span>)
    requires sorted != []
    ensures out == Compact(sorted)
  {
    var cp := new Span[|sorted|](i requires 0 <= i < |sorted| => sorted[i]);
    var w := 1;
    var r := 1;
    assert cp[..1] == sorted[..1] == Compact(sorted[..1]);
    while r < cp.Length
      invariant 1 <= w <= r <= cp.Length == |sorted|
      invariant forall k :: r <= k < |sorted| ==> cp[k] == sorted[k]
      invariant cp[..w] == Compact(sorted[..r])
    {
      CompactNext(sorted, r);
      w := AbsorbAt(cp, w, r);
      r := r + 1;
    }
    assert sorted[..r] == sorted;
    out := cp[..w];
  }

  /** MergeSpans: what is already sorted and disjoint is returned as it is. */
  method MergeSpans(spans: seq<Span>) returns (out: seq<Span>)
    ensures out == Merged(spans)
  {
    if |spans| <= 1 || Ascending(spans) {
      return spans;
    }
    out := CompactCopy(SortSpans(spans));
  }

  // ---- what merging keeps -------------------------------------------------

  lemma {:induction false} SameElementsSameOffsets(a: seq<Span>, b: seq<Span>, x: int)
    requires multiset(a) == multiset(b)
    requires Covered(a, x)
    ensures Covered(b, x)
  {
    var i :| 0 <= i < |a| && InSpan(a[i], x);
    assert a[i] in multiset(b);
    var j :| 0 <= j < |b| && b[j] == a[i];
  }

  lemma {:induction false} CoveredSnoc(spans: seq<Span>, s: Span, x: int)
    ensures Covered(spans + [s], x) <==> Covered(spans, x) || InSpan(s, x)
  {
    var all := spans + [s];
    if Covered(spans, x) {
      var i :| 0 <= i < |spans| && InSpan(spans[i], x);
      assert InSpan(all[i], x);
    }
    if InSpan(s, x) { assert InSpan(all[|spans|], x); }
    if Covered(all, x) {
      var i :| 0 <= i < |all| && InSpan(all[i], x);
      if i < |spans| { assert InSpan(spans[i], x); }
    }
  }

  /** Absorbing a span that does not start before the last one adds exactly its offsets. */
  lemma {:induction false} AbsorbKeeps(out: seq<Span>, s: Span, x: int)
    requires out != [] && out[|out| - 1].start <= s.start
    ensures Covered(Absorb(out, s), x) <==> Covered(out, x) || InSpan(s, x)
  {
    var front, last := out[..|out| - 1], out[|out| - 1];
    assert out == front + [last];
    CoveredSnoc(front, last, x);
    if s.start > last.end {
      CoveredSnoc(out, s, x);
    } else if s.end > last.end {
      assert Absorb(out, s) == front + [Span(last.start, s.end)];
      CoveredSnoc(front, Span(last.start, s.end), x);
    }
  }

  /** The compacted list stays strictly apart. */
  lemma {:induction false} CompactApart(spans: seq<Span>)
    requires spans != [] && SortedByStart(spans)
    ensures Compact(spans)[|Compact(spans)| - 1].start <= spans[|spans| - 1].start
    ensures forall i :: 1 <= i < |Compact(spans)| ==> Compact(spans)[i - 1].end < Compact(spans)[i].start
  {
    if |spans| > 1 {
      var front, s := spans[..|spans| - 1], spans[|spans| - 1];
      CompactApart(front);
      assert Before(front[|front| - 1], s);
    }
  }

  lemma {:induction false} CompactKeeps(spans: seq<Span>, x: int)
    requires spans != [] && SortedByStart(spans)
    ensures Covered(Compact(spans), x) <==> Covered(spans, x)
  {
    if |spans| > 1 {
      var front, s := spans[..|spans| - 1], spans[|spans| - 1];
      assert Before(front[|front| - 1], s);
      CompactApart(front);
      CompactKeeps(front, x);
      AbsorbKeeps(Compact(front), s, x);
      assert spans == front + [s];
      CoveredSnoc(front, s, x);
    }
  }

  lemma {:induction false} CompactWellFormed(spans: seq<Span>)
    requires spans != [] && SortedByStart(spans) && WellFormed(spans)
    ensures WellFormed(Compact(spans))
  {
    if |spans| > 1 {
      var front, s := spans[..|spans| - 1], spans[|spans| - 1];
      CompactWellFormed(front);
      CompactApart(front);
    }
  }

  lemma {:induction false} MergeKeeps(spans: seq<Span>, x: int)
    ensures Covered(Merged(spans), x) <==> Covered(spans, x)
  {
    if |spans| > 1 && !Ascending(spans) {
      var sorted := SortSpans(spans);
      CompactKeeps(sorted, x);
      if Covered(sorted, x) { SameElementsSameOffsets(sorted, spans, x); }
      if Covered(spans, x) { SameElementsSameOffsets(spans, sorted, x); }
    }
  }

  lemma {:induction false} MergeShape(spans: seq<Span>)
    ensures Ascending(Merged(spans))
    ensures WellFormed(spans) ==> WellFormed(Merged(spans))
  {
    if |spans| > 1 && !Ascending(spans) {
      var sorted := SortSpans(spans);
      CompactApart(sorted);
      if WellFormed(spans) {
        forall i | 0 <= i < |sorted|
          ensures sorted[i].start <= sorted[i].end
        {
          assert sorted[i] in multiset(spans);
        }
        CompactWellFormed(sorted);
      }
    }
  }

  /** Merging keeps exactly the same offsets, yields an ascending list, and is idempotent. */
  lemma {:induction false} MergeKeepsOffsets(spans: seq<Span>)
    ensures forall x :: Covered(Merged(spans), x) <==> Covered(spans, x)
    ensures Ascending(Merged(spans))
    ensures WellFormed(spans) ==> WellFormed(Merged(spans))
    ensures Merged(Merged(spans)) == Merged(spans)
  {
    forall x
      ensures Covered(Merged(spans), x) <==> Covered(spans, x)
    {
      MergeKeeps(spans, x);
    }
    MergeShape(spans);
  }

  /** Publishing one more span adds exactly its offsets; this is what checkpoint and commit rely on. */
  lemma {:induction false} MergeAppended(spans: seq<Span>, s: Span)
    requires WellFormed(spans) && s.start <= s.end
    ensures WellFormed(Merged(spans + [s])) && Ascending(Merged(spans + [s]))
    ensures forall x :: Covered(Merged(spans + [s]), x) <==> Covered(spans, x) || InSpan(s, x)
  {
    var all := spans + [s];
    MergeKeepsOffsets(all);
    forall x
      ensures Covered(all, x) <==> Covered(spans, x) || InSpan(s, x)
    {
      if Covered(spans, x) {
        var i :| 0 <= i < |spans| && InSpan(spans[i], x);
        assert InSpan(all[i], x);
      }
      if InSpan(s, x) { assert InSpan(all[|spans|], x); }
      if Covered(all, x) {
        var i :| 0 <= i < |all| && InSpan(all[i], x);
        if i < |spans| { assert InSpan(spans[i], x); }
      }
    }
  }

  // ---- coverage -----------------------------------------------------------

  ghost predicate CoversRange(spans: seq<Span>, start: int, end: int) {
    forall x :: start <= x < end ==> Covered(spans, x)
  }

  lemma {:induction false} AscendingFrom(spans: seq<Span>, i: nat, j: nat)
    requires WellFormed(spans) && Ascending(spans)
    requires i < j < |spans|
    ensures spans[i].end <= spans[j].start
    decreases j - i
  {
    if i + 1 < j { AscendingFrom(spans, i, j - 1); }
  }

  /** Covers answers true exactly when every offset of [start, end) is in some span. */
  method Covers(spans: seq<Span>, start: int, end: int) returns (r: bool)
    requires WellFormed(spans)
    ensures r <==> CoversRange(spans, start, end)
  {
    if start >= end { return true; }
    if |spans| == 1 {
      r := start >= spans[0].start && end <= spans[0].end;
      if r {
        forall x | start <= x < end ensures Covered(spans, x) { assert InSpan(spans[0], x); }
      } else {
        var y := if start < spans[0].start || start >= spans[0].end then start else spans[0].end;
        assert !Covered(spans, y);
      }
      return;
    }
    var sp := MergeSpans(spans);
    MergeKeepsOffsets(spans);
    var at := start;
    var i := 0;
    while i < |sp|
      invariant 0 <= i <= |sp|
      invariant start <= at < end
      invariant forall x :: start <= x < at ==> Covered(spans, x)
      invariant forall k :: 0 <= k < i ==> sp[k].end <= at
    {
      var s := sp[i];
      if at >= s.end {
        i := i + 1;
        continue;
      }
      if at < s.start {
        Uncovered(sp, i, at);
        assert !Covered(spans, at);
        return false;
      }
      forall x | at <= x < s.end ensures Covered(spans, x) {
        assert InSpan(sp[i], x);
      }
      if end <= s.end { return true; }
      at := s.end;
      if at >= end { return true; }
      i := i + 1;
    }
    assert !Covered(sp, at);
    return false;
  }

  /** Nothing reaches an offset that lies before span i and after every earlier span. */
  lemma {:induction false} Uncovered(sp: seq<Span>, i: nat, x: int)
    requires WellFormed(sp) && Ascending(sp)
    requires i < |sp| && x < sp[i].start
    requires forall k :: 0 <= k < i ==> sp[k].end <= x
    ensures !Covered(sp, x)
  {
    forall k | 0 <= k < |sp|
      ensures !InSpan(sp[k], x)
    {
      if i < k { AscendingFrom(sp, i, k); }
    }
  }
}
