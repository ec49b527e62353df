/** The in-flight range set of internal/cache/inflight.go: fetches of one key may run side by side only on disjoint
    ranges. */
module Inflight {
  import opened Spans

  /** Half-open ranges as spansOverlap compares them. */
  predicate Overlaps(a: Span, b: Span) {
    a.start < b.end && b.start < a.end
  }

  predicate OverlapsAny(spans: seq<Span>, s: Span) {
    exists i :: 0 <= i < |spans| && Overlaps(spans[i], s)
  }

  predicate NonEmpty(s: Span) {
    s.start < s.end
  }

  ghost predicate Share(a: Span, b: Span) {
    exists x :: InSpan(a, x) && InSpan(b, x)
  }

  /** Sharing an offset is overlapping; the other way round it takes two non-empty ranges. */
  lemma {:induction false} OverlapsIsShare(a: Span, b: Span)
    ensures Share(a, b) ==> Overlaps(a, b)
    ensures NonEmpty(a) && NonEmpty(b) ==> (Overlaps(a, b) <==> Share(a, b))
    ensures Overlaps(a, b) && !Share(a, b) ==> !NonEmpty(a) || !NonEmpty(b)
  {
    if NonEmpty(a) && NonEmpty(b) && Overlaps(a, b) {
      var x := if a.start < b.start then b.start else a.start;
      assert InSpan(a, x) && InSpan(b, x);
    }
  }

  predicate Disjoint(spans: seq<Span>) {
    forall i, j :: 0 <= i < j < |spans| ==> !Overlaps(spans[i], spans[j])
  }

  function WithoutFirst(spans: seq<Span>, s: Span): (r: seq<Span>)
    ensures multiset(r) == multiset(spans) - multiset{s}
  {
    if spans == [] then []
    else
      assert spans == [spans[0]] + spans[1..];
      if spans[0] == s then spans[1..] else [spans[0]] + WithoutFirst(spans[1..], s)
  }

  class InflightSet {
    var spans: seq<Span>

    constructor ()
      ensures spans == []
    {
      spans := [];
    }

    method SpansOverlap(start: int, end: int) returns (r: bool)
      ensures r == OverlapsAny(spans, Span(start, end))
    {
      for i := 0 to |spans|
        invariant forall k :: 0 <= k < i ==> !Overlaps(spans[k], Span(start, end))
      {
        if spans[i].start < end && start < spans[i].end { return true; }
      }
      return false;
    }

    /** One pass of acquire's or acquireCtx's loop under the mutex: take the range, or leave the set alone and wait or
        give up. */
    method Acquire(start: int, end: int) returns (granted: bool)
      modifies this
      ensures granted == !OverlapsAny(old(spans), Span(start, end))
      ensures spans == if granted then old(spans) + [Span(start, end)] else old(spans)
    {
      var busy := SpansOverlap(start, end);
      if busy { return false; }
      spans := spans + [Span(start, end)];
      return true;
    }

    /** The first equal span goes. */
    method Release(start: int, end: int)
      modifies this
      ensures spans == WithoutFirst(old(spans), Span(start, end))
    {
      var s := Span(start, end);
      for i := 0 to |spans|
        invariant spans == old(spans)
        invariant s !in spans[..i]
      {
        if spans[i] == s {
          WithoutFirstAt(spans, i);
          spans := spans[..i] + spans[i + 1..];
          return;
        }
      }
      WithoutFirstAbsent(spans, s);
    }
  }

  lemma {:induction false} WithoutFirstAt(spans: seq<Span>, i: nat)
    requires i < |spans| && spans[i] !in spans[..i]
    ensures WithoutFirst(spans, spans[i]) == spans[..i] + spans[i + 1..]
  {
    if i > 0 {
      var head, rest := spans[0], spans[1..];
      assert head in spans[..i];
      assert spans[..i] == [head] + rest[..i - 1];
      WithoutFirstAt(rest, i - 1);
      assert spans[i + 1..] == rest[i..];
    }
  }

  lemma {:induction false} WithoutFirstAbsent(spans: seq<Span>, s: Span)
    requires s !in spans
    ensures WithoutFirst(spans, s) == spans
  {
    if spans != [] { WithoutFirstAbsent(spans[1..], s); }
  }

  // ---- runs ---------------------------------------------------------------------

  /** The set, and the tickets that were handed out and not yet released. A ticket is a closure over its range, so
      tickets on equal ranges cannot be told apart. */
  datatype State = State(spans: seq<Span>, tickets: multiset<Span>)

  /** Waiting is a step that is not taken; a failed acquireCtx is GiveUp. */
  datatype Step = Take(s: Span) | GiveUp(s: Span) | Release(s: Span)

  predicate Enabled(st: State, step: Step) {
    match step
    case Take(s) => !OverlapsAny(st.spans, s)
    case GiveUp(s) => OverlapsAny(st.spans, s)
    case Release(s) => s in st.tickets
  }

  function Next(st: State, step: Step): State {
    match step
    case Take(s) => State(st.spans + [s], st.tickets + multiset{s})
    case GiveUp(s) => st
    case Release(s) => State(WithoutFirst(st.spans, s), st.tickets - multiset{s})
  }

  function Run(st: State, steps: seq<Step>): State
    decreases |steps|
  {
    if steps == [] then st else Next(Run(st, steps[..|steps| - 1]), steps[|steps| - 1])
  }

  predicate Legal(st: State, steps: seq<Step>)
    decreases |steps|
  {
    steps != [] ==>
      var front := steps[..|steps| - 1];
      Legal(st, front) && Enabled(Run(st, front), steps[|steps| - 1])
  }

  ghost predicate Safe(st: State) {
    Disjoint(st.spans) && multiset(st.spans) == st.tickets
  }

  /** Taking out a span leaves the others, in order. */
  lemma {:induction false} WithoutFirstKeeps(spans: seq<Span>, s: Span)
    requires Disjoint(spans)
    ensures Disjoint(WithoutFirst(spans, s))
  {
    if spans != [] {
      var rest := spans[1..];
      assert Disjoint(rest);
      if spans[0] != s {
        WithoutFirstKeeps(rest, s);
        var r := WithoutFirst(rest, s);
        forall j | 0 <= j < |r| ensures !Overlaps(spans[0], r[j]) {
          assert r[j] in multiset(r);
          assert r[j] in rest;
        }
      }
    }
  }

  lemma {:induction false} StepSafe(st: State, step: Step)
    requires Safe(st) && Enabled(st, step)
    ensures Safe(Next(st, step))
  {
    match step
    case Take(s) =>
    case GiveUp(s) =>
    case Release(s) => WithoutFirstKeeps(st.spans, s);
  }

  /** In every run the held ranges are pairwise disjoint and are exactly those of the unreleased tickets. */
  lemma {:induction false} RunSafe(steps: seq<Step>)
    requires Legal(State([], multiset{}), steps)
    ensures Safe(Run(State([], multiset{}), steps))
    decreases |steps|
  {
    if steps != [] {
      var front := steps[..|steps| - 1];
      RunSafe(front);
      StepSafe(Run(State([], multiset{}), front), steps[|steps| - 1]);
    }
  }

  /** So no offset is fetched twice at once, */
  lemma {:induction false} OneFetchPerOffset(st: State, i: nat, j: nat, x: int)
    requires Safe(st) && i < j < |st.spans|
    ensures !(InSpan(st.spans[i], x) && InSpan(st.spans[j], x))
  {
    assert !Overlaps(st.spans[i], st.spans[j]);
  }

  /** a non-empty range is held by at most one ticket, */
  lemma {:induction false} OneTicket(st: State, s: Span)
    requires Safe(st) && NonEmpty(s)
    ensures st.tickets[s] <= 1
  {
    HeldOnce(st.spans, s);
  }

  lemma {:induction false} HeldOnce(spans: seq<Span>, s: Span)
    requires Disjoint(spans) && NonEmpty(s)
    ensures multiset(spans)[s] <= 1
  {
    if spans != [] {
      var rest := spans[1..];
      assert spans == [spans[0]] + rest;
      HeldOnce(rest, s);
      if spans[0] == s {
        forall j | 0 <= j < |rest| ensures rest[j] != s {
          assert !Overlaps(spans[0], spans[j + 1]);
        }
      }
    }
  }

  lemma {:induction false} FreesRange(spans: seq<Span>, s: Span)
    requires Disjoint(spans) && s in spans
    ensures !OverlapsAny(WithoutFirst(spans, s), s)
  {
    var rest := spans[1..];
    if spans[0] != s {
      assert s in rest;
      var k :| 0 <= k < |rest| && rest[k] == s;
      assert !Overlaps(spans[0], spans[k + 1]);
      FreesRange(rest, s);
    }
  }

  /** releasing it frees the range and nothing else, */
  lemma {:induction false} ReleaseIsExact(st: State, s: Span, t: Span)
    requires Safe(st) && s in st.tickets
    ensures Enabled(Next(st, Release(s)), Take(s))
    ensures t != s ==> Next(st, Release(s)).tickets[t] == st.tickets[t]
    ensures Next(Next(st, Release(s)), Take(s)).tickets == st.tickets
  {
    assert s in multiset(st.spans);
    FreesRange(st.spans, s);
  }

  /** and a range that shares no offset with a held one is granted at once, when held ranges are not empty. */
  lemma {:induction false} GrantedAtOnce(st: State, s: Span)
    requires NonEmpty(s) && forall i :: 0 <= i < |st.spans| ==> NonEmpty(st.spans[i])
    ensures Enabled(st, Take(s)) <==> forall i :: 0 <= i < |st.spans| ==> !Share(st.spans[i], s)
  {
    forall i | 0 <= i < |st.spans| ensures Overlaps(st.spans[i], s) <==> Share(st.spans[i], s) {
      OverlapsIsShare(st.spans[i], s);
    }
  }

  lemma {:induction false} FrontAndLast<T>(s: seq<T>)
    requires s != []
    ensures s == s[..|s| - 1] + [s[|s| - 1]]
  {
  }

  /** Ranges that are disjoint from one another can all be held at the same time, whatever the order. */
  lemma {:induction false} AllHeld(spans: seq<Span>) returns (steps: seq<Step>)
    requires Disjoint(spans)
    ensures Legal(State([], multiset{}), steps)
    ensures Run(State([], multiset{}), steps) == State(spans, multiset(spans))
    decreases |spans|
  {
    if spans == [] {
      steps := [];
    } else {
      var front, last := spans[..|spans| - 1], spans[|spans| - 1];
      assert Disjoint(front);
      var before := AllHeld(front);
      steps := before + [Take(last)];
      assert steps[..|steps| - 1] == before;
      FrontAndLast(spans);
    }
  }
}
