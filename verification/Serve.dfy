/** The cache-hit decision of internal/proxy/handler.go, tryServeFromCache. */
module Serving {
  import opened HttpSyntax
  import opened Spans
  import opened CacheMeta
  import opened StoreModel
  import opened Ranges
  import R = Recency

  /** key is the slot the answer came from. A body is sent with its length, end - start, declared beforehand. */
  datatype Reply =
    | Miss
    | Redirected(key: string, status: int, location: string)
    | HeadOnly(key: string, length: Total)
    | Served(key: string, start: int, end: int, total: int, body: seq<Byte>)

  function TotalOf(m: Meta): int {
    if m.total.Known? then m.total.bytes else -1
  }

  /** The wanted range: the Range header's, or the whole object when its total is known. */
  function Wanted(m: Meta, rangeHdr: string): Option<Span> {
    if rangeHdr == "" then
      if TotalOf(m) < 0 then None else Some(Span(0, TotalOf(m)))
    else
      match ParseSingleRange(rangeHdr, TotalOf(m))
      case None => None
      case Some(s) => if s.end < 0 then None else Some(s)
  }

  /** io.Copy from a section of the body file: it ends where the file does. */
  function Section(body: seq<Byte>, start: int, end: int): seq<Byte> {
    if start < 0 || start >= end || start >= |body| then []
    else if end <= |body| then body[start..end] else body[start..]
  }

  ghost function FromMeta(s: Store, key: string, m: Meta, rangeHdr: string, headOnly: bool): Reply {
    if IsRedirectStatus(m.status) && m.location != "" then Redirected(key, m.status, m.location)
    else if headOnly then HeadOnly(key, m.total)
    else if m.spans == [] then Miss
    else
      match Wanted(m, rangeHdr)
      case None => Miss
      case Some(want) =>
        if !CoversRange(m.spans, want.start, want.end) || key !in s.bodies then Miss
        else Served(key, want.start, want.end, TotalOf(m), Section(s.bodies[key], want.start, want.end))
  }

  /** An alias is followed once. */
  ghost function Serve(s: Store, key: string, rangeHdr: string, headOnly: bool): (Store, Reply) {
    var (s1, found) := LoadMeta(s, key);
    match found
    case None => (s1, Miss)
    case Some(m) =>
      if m.aliasOf == "" then (s1, FromMeta(s1, key, m, rangeHdr, headOnly))
      else
        var (s2, canonical) := LoadMeta(s1, m.aliasOf);
        match canonical
        case None => (s2, Miss)
        case Some(c) => (s2, FromMeta(s2, m.aliasOf, c, rangeHdr, headOnly))
  }

  ghost predicate SpansWellFormed(s: Store) {
    && (forall k :: k in s.metas ==> WellFormed(s.metas[k].spans))
    && (forall k :: k in s.metaCache.vals ==> WellFormed(s.metaCache.vals[k].spans))
  }

  method AnswerFrom(s: Store, key: string, m: Meta, rangeHdr: string, headOnly: bool) returns (r: Reply)
    requires WellFormed(m.spans)
    ensures r == FromMeta(s, key, m, rangeHdr, headOnly)
  {
    if IsRedirectStatus(m.status) && m.location != "" { return Redirected(key, m.status, m.location); }
    if headOnly { return HeadOnly(key, m.total); }
    if |m.spans| == 0 { return Miss; }
    var want := Wanted(m, rangeHdr);
    if want.None? { return Miss; }
    var hit := Covers(m.spans, want.value.start, want.value.end);
    if !hit || key !in s.bodies { return Miss; }
    return Served(key, want.value.start, want.value.end, TotalOf(m),
                  Section(s.bodies[key], want.value.start, want.value.end));
  }

  method TryServeFromCache(s: Store, key: string, rangeHdr: string, headOnly: bool) returns (s': Store, r: Reply)
    requires SpansWellFormed(s)
    ensures (s', r) == Serve(s, key, rangeHdr, headOnly)
  {
    var (s1, found) := LoadMeta(s, key);
    if found.None? { return s1, Miss; }
    if found.value.aliasOf == "" {
      r := AnswerFrom(s1, key, found.value, rangeHdr, headOnly);
      return s1, r;
    }
    var (s2, canonical) := LoadMeta(s1, found.value.aliasOf);
    if canonical.None? { return s2, Miss; }
    r := AnswerFrom(s2, found.value.aliasOf, canonical.value, rangeHdr, headOnly);
    return s2, r;
  }
}

/** What a hit delivers. */
module HitSafety {
  import opened HttpSyntax
  import opened Spans
  import opened CacheMeta
  import opened StoreModel
  import opened StoreRuns
  import opened ContentSafety
  import opened MetaCoherence
  import opened Ranges
  import opened Serving
  import R = Recency

  /** The entry that answers: the key's own, or the one its alias names. */
  function Resolved(s: Store, key: string): string {
    if key in s.metas && s.metas[key].aliasOf != "" then s.metas[key].aliasOf else key
  }

  /** With a coherent metadata cache the answer is that of the entry on disk. */
  lemma {:induction false} ServeReadsDisk(s: Store, key: string, rangeHdr: string, headOnly: bool)
    requires Coherent(s)
    ensures var k := Resolved(s, key);
            Serve(s, key, rangeHdr, headOnly).1 ==
            if key in s.metas && k in s.metas then FromMeta(s, k, s.metas[k], rangeHdr, headOnly) else Miss
  {
    var s1 := LoadMeta(s, key).0;
    LoadReadsDisk(s, key);
    LoadCoherent(s, key);
    if key in s.metas && s.metas[key].aliasOf != "" {
      LoadReadsDisk(s1, s.metas[key].aliasOf);
    }
  }

  /** The reply's body is the upstream's bytes of the reply's range. */
  ghost predicate Delivers(r: Reply, up: Upstream) {
    r.Served? && 0 <= r.start && r.end <= |up(r.key)| && r.start < r.end && r.body == up(r.key)[r.start..r.end]
  }

  /** In a safe and coherent state a hit on a non-empty range, taken in one go, delivers exactly the upstream bytes of
      that range. Hits.dfy takes it apart. */
  lemma {:induction false} HitIsUpstream(st: State, up: Upstream, key: string, rangeHdr: string)
    requires Safe(st, up) && Coherent(st.store)
    ensures var r := Serve(st.store, key, rangeHdr, false).1;
            r.Served? && r.start < r.end ==> Delivers(r, up)
  {
    ServeReadsDisk(st.store, key, rangeHdr, false);
    var r := Serve(st.store, key, rangeHdr, false).1;
    if r.Served? && r.start < r.end {
      SectionRight(st.store, up, r.key, st.store.metas[r.key].spans, r.start, r.end);
    }
  }

  lemma {:induction false} SectionRight(s: Store, up: Upstream, key: string, spans: seq<Span>, start: int, end: int)
    requires SpansRight(s, up, key, spans) && CoversRange(spans, start, end) && start < end
    ensures key in s.bodies && 0 <= start && end <= |up(key)|
    ensures Section(s.bodies[key], start, end) == up(key)[start..end]
  {
    forall x | start <= x < end ensures Right(s, up, key, x) {
      assert Covered(spans, x);
    }
    assert Right(s, up, key, start) && Right(s, up, key, end - 1);
    var body := s.bodies[key];
    forall i | 0 <= i < end - start ensures body[start..end][i] == up(key)[start..end][i] {
      assert Right(s, up, key, start + i);
    }
  }

  /** The declared length is the delivered one exactly when the wanted range, known from the meta and the header before
      anything is sent, is not inverted. */
  lemma {:induction false} LengthDeclared(st: State, up: Upstream, key: string, rangeHdr: string)
    requires Safe(st, up) && Coherent(st.store)
    ensures var r, k := Serve(st.store, key, rangeHdr, false).1, Resolved(st.store, key);
            r.Served? ==>
              && k in st.store.metas && Wanted(st.store.metas[k], rangeHdr).Some?
              && var want := Wanted(st.store.metas[k], rangeHdr).value;
                 r.start == want.start && r.end == want.end && (|r.body| == r.end - r.start <==> want.start <= want.end)
  {
    ServeReadsDisk(st.store, key, rangeHdr, false);
    HitIsUpstream(st, up, key, rangeHdr);
  }

  lemma {:induction false} HeaderGiven(start: nat, last: nat)
    ensures RangeHeader(start, last) != ""
  {
  }

  /** And an inverted range is a hit on every entry with a span and a body: Range: bytes=5-2 is answered with length
      -2. */
  lemma {:induction false} InvertedIsHit(s: Store, key: string, start: nat, last: nat)
    requires Coherent(s) && key in s.metas && s.metas[key].aliasOf == "" && key in s.bodies
    requires s.metas[key].spans != [] && !(IsRedirectStatus(s.metas[key].status) && s.metas[key].location != "")
    requires last + 1 < start <= MAX_INT64
    ensures var r := Serve(s, key, RangeHeader(start, last), false).1;
            r == Served(key, start, last + 1, TotalOf(s.metas[key]), []) && r.end - r.start < 0
  {
    hide Serve, Coherent, ParseSingleRange, RangeHeader;
    ServeReadsDisk(s, key, RangeHeader(start, last), false);
    RangeRoundTrip(start, last, TotalOf(s.metas[key]));
    HeaderGiven(start, last);
  }

  /** The Content-Range of a hit says which bytes follow. */
  lemma {:induction false} RangeDescribed(st: State, up: Upstream, key: string, rangeHdr: string)
    requires Safe(st, up) && Coherent(st.store)
    ensures var r := Serve(st.store, key, rangeHdr, false).1;
            r.Served? && r.start < r.end <= MAX_INT64 && -1 <= r.total <= MAX_INT64 ==>
              ParseContentRange(FormatContentRange(r.start, r.end, r.total))
              == Some(ContentRange(r.start, r.end, r.total))
  {
    HitIsUpstream(st, up, key, rangeHdr);
    var r := Serve(st.store, key, rangeHdr, false).1;
    if r.Served? && r.start < r.end <= MAX_INT64 && -1 <= r.total <= MAX_INT64 {
      ContentRangeRoundTrip(r.start, r.end, r.total);
    }
  }

  // ---- requests without a Range ------------------------------------------------------------

  /** A whole-object hit delivers the object exactly when the recorded total is the object's size. */
  lemma {:induction false} WholeHit(st: State, up: Upstream, key: string)
    requires Safe(st, up) && Coherent(st.store)
    ensures var r := Serve(st.store, key, "", false).1;
            r.Served? && r.end > 0 ==>
              && r.key == Resolved(st.store, key) && r.key in st.store.metas
              && var total := TotalOf(st.store.metas[r.key]);
                 && r.start == 0 && r.end == r.total == total
                 && 0 <= total <= |up(r.key)| && r.body == up(r.key)[..total]
                 && (r.body == up(r.key) <==> total == |up(r.key)|)
  {
    ServeReadsDisk(st.store, key, "", false);
    HitIsUpstream(st, up, key, "");
    var r := Serve(st.store, key, "", false).1;
    if r.Served? && r.end > 0 {
      assert up(r.key)[0..r.end] == up(r.key)[..r.end];
      if r.total == |up(r.key)| { assert up(r.key)[..r.total] == up(r.key); }
    }
  }

  /** The recorded total can be smaller: a whole-object response of unknown length that is closed early is published
      with the length it reached, and from then on served as the whole object. */
  lemma {:induction false} EarlyCloseTruncates(st: State, up: Upstream, id: nat)
    requires Safe(st, up) && Coherent(st.store) && id in st.writers && st.writers[id].phase == Closing
    requires var w := st.writers[id]; w.linked && Chunked(w.params) && w.written > 0 && w.key !in st.store.metas
    ensures var w := st.writers[id];
            var r := Serve(Next(st, CommitStep(id, Done)).store, w.key, "", false).1;
            && w.written <= |up(w.key)| && r == Served(w.key, 0, w.written, w.written, up(w.key)[..w.written])
            && (r.body == up(w.key) <==> w.written == |up(w.key)|)
  {
    var w, after := st.writers[id], Next(st, CommitStep(id, Done));
    ContentSafety.StepSafe(st, CommitStep(id, Done), up);
    StepCoherent(st, CommitStep(id, Done));
    var m := CommitMeta(FreshMeta(w.params), w);
    FirstClosed(st, id);
    FirstSegment(w.params, w.written);
    ServeReadsDisk(after.store, w.key, "", false);
    SectionRight(after.store, up, w.key, m.spans, 0, w.written);
    assert up(w.key)[0..w.written] == up(w.key)[..w.written];
    if w.written == |up(w.key)| { assert up(w.key)[..w.written] == up(w.key); }
  }

  lemma {:induction false} FirstClosed(st: State, id: nat)
    requires id in st.writers && st.writers[id].phase == Closing && st.writers[id].key !in st.store.metas
    ensures var w, after := st.writers[id], Next(st, CommitStep(id, Done));
            w.key in after.store.metas && after.store.metas[w.key] == CommitMeta(FreshMeta(w.params), w)
  {
    CommitMetas(st.store, st.writers[id], Done);
  }

  /** What the first close of such a response publishes. */
  lemma {:induction false} FirstSegment(p: Params, written: nat)
    requires Chunked(p) && written > 0
    ensures var m := FinalMeta(FreshMeta(p), p, written);
            && m.total == Known(written) && m.aliasOf == "" && m.location == ""
            && m.spans != [] && CoversRange(m.spans, 0, written)
  {
    var one := [] + [Span(0, written)];
    MergeKeepsOffsets(one);
    forall x | 0 <= x < written ensures Covered(Merged(one), x) {
      assert InSpan(one[0], x);
    }
    assert Covered(Merged(one), 0);
  }
}
