/** The on-disk store of internal/cache/store.go as values: what each atomic piece of an operation does to the
    disk, the counters and the metadata cache. The classes in StoreClasses.dfy run these pieces in the order the
    source does; StoreRuns.dfy interleaves them. */
module StoreModel {
  import opened Spans
  import opened CacheMeta
  import opened Owners
  import opened Sums
  import R = Recency

  type Byte = n: int | 0 <= n < 256

  /** Disk (metas, bodies), metadata LRU, and the three quota counters. maxBytes <= 0 means no quota. */
  datatype Store = Store(
    maxBytes: int,
    metaCap: nat,
    metas: map<string, Meta>,
    bodies: map<string, seq<Byte>>,
    metaCache: R.Contents<Meta>,
    used: int,
    reserved: int,
    count: int)

  datatype Params = Params(
    status: int,
    host: string,
    path: string,
    rawQuery: string,
    etag: string,
    contentType: string,
    start: int,
    length: int,
    total: int,
    extraHeaders: map<string, string>,
    originPath: string)

  /** Where a writer is in Close: still writing, marked closed, or past commit. */
  datatype Phase = Open | Closing | Committed

  /** owed is the argument of Close's deferred release, evaluated when Close starts.
      linked says that the body file the writer holds open is still the one named by the key. */
  datatype Writer = Writer(
    key: string,
    params: Params,
    written: nat,
    lastCheckpoint: nat,
    reserved: int,
    dynamicQuota: bool,
    phase: Phase,
    owed: int,
    linked: bool)

  // ---- quota -----------------------------------------------------------------

  function TotalAt(s: Store, key: string): nat {
    if key in s.metas then Bytes(s.metas[key]) else 0
  }

  /** reserveQuota, as one atomic step. */
  function Reserve(s: Store, n: int): (Store, bool) {
    if s.maxBytes <= 0 || n <= 0 then (s, true)
    else if s.used >= s.maxBytes || s.used + s.reserved + n > s.maxBytes then (s, false)
    else (s.(reserved := s.reserved + n), true)
  }

  function Release(s: Store, n: int): Store {
    if n <= 0 then s else s.(reserved := s.reserved - n)
  }

  /** releaseReserved: a writer never gives back more than it still holds. */
  function ReleaseReserved(s: Store, w: Writer, n: int): (Store, Writer) {
    if n <= 0 || w.reserved <= 0 then (s, w)
    else
      var k := if n > w.reserved then w.reserved else n;
      (Release(s, k), w.(reserved := w.reserved - k))
  }

  function ReservationFor(p: Params): int {
    if p.total > 0 then p.total else if p.length > 0 then p.length else 0
  }

  /** accountMetaTransition: moves the counters and reports the growth. */
  function Account(s: Store, oldTotal: nat, existed: bool, m: Meta): (Store, nat) {
    if s.maxBytes <= 0 then (s, 0)
    else
      (s.(used := s.used + Bytes(m) - oldTotal, count := s.count + if existed then 0 else 1),
       if Bytes(m) > oldTotal then Bytes(m) - oldTotal else 0)
  }

  /** Write meta.json, refresh the metadata cache, move the counters: what every meta rewrite does under the lock. */
  function Publish(s: Store, key: string, m: Meta): (Store, nat) {
    var s1 := s.(metas := s.metas[key := m], metaCache := R.Added(s.metaCache, s.metaCap, key, m));
    Account(s1, TotalAt(s, key), key in s.metas, m)
  }

  /** What an operation under the lock came to: done, failed before the rename, or failed syncing the directory after
      it. */
  datatype Outcome = Done | NotWritten | NotSynced

  /** A meta rewrite with its I/O outcome. */
  function Rewrite(s: Store, key: string, m: Meta, o: Outcome): (Store, nat) {
    match o
    case Done => Publish(s, key, m)
    case NotWritten => (s, 0)
    case NotSynced => (s.(metas := s.metas[key := m]), 0)
  }

  // ---- metadata of one segment -------------------------------------------------

  function FreshMeta(p: Params): Meta {
    Meta(p.host, p.path, p.rawQuery, [], Unknown, p.etag, p.contentType, p.status, "", map[], "", p.originPath, [])
  }

  function Base(s: Store, w: Writer): Meta {
    if w.key in s.metas then s.metas[w.key] else FreshMeta(w.params)
  }

  function MergeHeaders(had: map<string, string>, extra: map<string, string>): map<string, string> {
    had + (map k | k in extra && extra[k] != "" :: extra[k])
  }

  /** The part checkpoint and commit share: owner, span, total, headers. */
  function SegmentMeta(m: Meta, p: Params, written: nat): Meta {
    m.(originPath := if m.originPath == "" then p.originPath else m.originPath,
       originPaths := WithOwner(m.originPaths, p.originPath),
       spans := if written > 0 then Merged(m.spans + [Span(p.start, p.start + written)]) else m.spans,
       total := if p.total > 0 then Known(p.total) else m.total,
       extraHeaders := MergeHeaders(m.extraHeaders, p.extraHeaders))
  }

  function WithSegment(m: Meta, w: Writer): Meta {
    SegmentMeta(m, w.params, w.written)
  }

  /** A whole-object response of unknown length: its total is whatever was written by the time it closes. */
  predicate Chunked(p: Params) {
    p.total <= 0 && p.status == 200 && p.start == 0 && p.length < 0
  }

  function FinalMeta(m: Meta, p: Params, written: nat): Meta {
    var m1 := SegmentMeta(m, p, written);
    m1.(total := if Chunked(p) && written > 0 then Known(written) else m1.total,
        status := if p.status != 0 && (m.status == 0 || (p.status == 200 && m.status == 206))
                  then p.status else m.status,
        etag := if p.etag != "" then p.etag else m.etag,
        contentType := if p.contentType != "" then p.contentType else m.contentType,
        host := if m.host == "" then p.host else m.host,
        path := if m.path == "" then p.path else m.path,
        rawQuery := if m.rawQuery == "" then p.rawQuery else m.rawQuery)
  }

  function CommitMeta(m: Meta, w: Writer): Meta {
    FinalMeta(m, w.params, w.written)
  }

  // ---- body files ------------------------------------------------------------

  function Zeros(n: nat): (z: seq<Byte>)
    ensures |z| == n
  {
    seq(n, _ => 0)
  }

  /** File.Truncate: cut, or extend with zeros. */
  function Truncated(f: seq<Byte>, n: nat): (r: seq<Byte>)
    ensures |r| == n
    ensures forall x :: 0 <= x < n && x < |f| ==> r[x] == f[x]
  {
    if n <= |f| then f[..n] else f + Zeros(n - |f|)
  }

  /** A positioned write; a hole before it reads as zeros. */
  function WroteAt(f: seq<Byte>, off: nat, data: seq<Byte>): (r: seq<Byte>)
    ensures |f| <= |r| && off + |data| <= |r|
    ensures forall x :: 0 <= x < |f| && !(off <= x < off + |data|) ==> r[x] == f[x]
    ensures forall x :: off <= x < off + |data| ==> r[x] == data[x - off]
  {
    var end := off + |data|;
    var padded := if |f| < end then f + Zeros(end - |f|) else f;
    padded[..off] + data + padded[end..]
  }

  function BodyAt(s: Store, key: string): seq<Byte> {
    if key in s.bodies then s.bodies[key] else []
  }

  // ---- the steps of a segment ------------------------------------------------

  predicate ValidParams(key: string, p: Params) {
    key != "" && p.start >= 0 && p.length >= -1 && p.total >= -1 && (p.status == 200 || p.status == 206)
  }

  /** Which filesystem call of BeginSegment fails, if any. */
  datatype Fault = NoFault | MkdirFails | OpenFails | TruncateFails | SeekFails

  datatype Refusal = BadParams | QuotaExceeded | IoError

  datatype Begun = Started(writer: Writer) | Refused(why: Refusal)

  function Begin(s: Store, key: string, p: Params, fault: Fault): (Store, Begun) {
    if !ValidParams(key, p) then (s, Refused(BadParams))
    else
      var need := ReservationFor(p);
      var (s1, ok) := Reserve(s, need);
      if !ok then (s, Refused(QuotaExceeded))
      else if fault.MkdirFails? || fault.OpenFails? then (Release(s1, need), Refused(IoError))
      else
        var created := s1.(bodies := s1.bodies[key := BodyAt(s1, key)]);
        if fault.TruncateFails? && p.total > 0 then (Release(created, need), Refused(IoError))
        else
          var sized := if p.total > 0
                       then created.(bodies := created.bodies[key := Truncated(created.bodies[key], p.total)])
                       else created;
          if fault.SeekFails? then (Release(sized, need), Refused(IoError))
          else
            var dynamic := need == 0 && s.maxBytes > 0 && p.total <= 0 && p.length <= 0;
            (sized, Started(Writer(key, p, 0, 0, need, dynamic, Open, 0, true)))
  }

  /** Write's reservation: only a writer of unknown length takes one here. */
  function TakeQuota(s: Store, w: Writer, n: nat): (Store, Writer, bool) {
    if !w.dynamicQuota then (s, w, true)
    else
      var (s1, ok) := Reserve(s, n);
      (s1, if ok then w.(reserved := w.reserved + n) else w, ok)
  }

  /** The positioned write of the writer's next bytes, if its file is still the store's. */
  function PutBytes(s: Store, w: Writer, data: seq<Byte>): Store {
    var at := w.params.start + w.written;
    if w.linked && data != [] && at >= 0
    then s.(bodies := s.bodies[w.key := WroteAt(BodyAt(s, w.key), at, data)]) else s
  }

  /** The reserve-and-write part of Write; the filesystem took the first n bytes. */
  function WriteBytes(s: Store, w: Writer, data: seq<Byte>, n: nat): (Store, Writer)
    requires n <= |data|
  {
    if data == [] then (s, w)
    else
      var (s1, w1, ok) := TakeQuota(s, w, |data|);
      if !ok then (s, w)
      else
        var s2 := PutBytes(s1, w1, data[..n]);
        var (s3, w3) := ReleaseReserved(s2, w1, if w1.dynamicQuota then |data| - n else 0);
        (s3, w3.(written := w3.written + n))
  }

  /** checkpoint. Its meta is not directory-synced, so it is either published or not written. */
  function Checkpoint(s: Store, w: Writer, wrote: bool): (Store, Writer) {
    if w.written == w.lastCheckpoint || !wrote then (s, w)
    else
      var (s1, grew) := Publish(s, w.key, WithSegment(Base(s, w), w));
      var (s2, w2) := ReleaseReserved(s1, w, grew);
      (s2, w2.(lastCheckpoint := w.written))
  }

  /** Close, before commit: the deferred release takes its argument now. */
  function StartClose(w: Writer): Writer {
    w.(phase := Closing, owed := w.reserved)
  }

  function Commit(s: Store, w: Writer, o: Outcome): (Store, Writer) {
    var (s1, grew) := Rewrite(s, w.key, CommitMeta(Base(s, w), w), o);
    var (s2, w2) := ReleaseReserved(s1, w, grew);
    (s2, w2.(phase := Committed))
  }

  /** Close's deferred release. */
  function FinishClose(s: Store, w: Writer): (Store, Writer) {
    ReleaseReserved(s, w, w.owed)
  }

  /** A whole Write call: the bytes, then a checkpoint once interval bytes have gathered since the last one. */
  function WriteAll(s: Store, w: Writer, data: seq<Byte>, n: nat, interval: int, wrote: bool): (Store, Writer)
    requires n <= |data|
  {
    var (s1, w1) := WriteBytes(s, w, data, n);
    if n == |data| && w1.written == w.written + n && data != []
       && interval > 0 && w1.written - w1.lastCheckpoint >= interval
    then Checkpoint(s1, w1, wrote)
    else (s1, w1)
  }

  /** A whole Close call; a second one does nothing. */
  function CloseAll(s: Store, w: Writer, o: Outcome): (Store, Writer) {
    if w.phase != Open then (s, w)
    else
      var (s1, w1) := Commit(s, StartClose(w), o);
      FinishClose(s1, w1)
  }

  // ---- the other meta rewrites -------------------------------------------------

  predicate IsRedirectStatus(status: int) {
    status == 301 || status == 302 || status == 303 || status == 307 || status == 308
  }

  /** The response a redirect entry is made from. */
  datatype Redirect = Redirect(
    status: int, host: string, path: string, rawQuery: string, location: string,
    contentType: string, etag: string, extraHeaders: map<string, string>)

  function RedirectMeta(s: Store, key: string, r: Redirect): Meta {
    var m := if key in s.metas then s.metas[key]
             else Meta("", "", "", [], Unknown, "", "", 0, "", map[], "", "", []);
    m.(host := r.host, path := r.path, rawQuery := r.rawQuery, status := r.status, location := r.location,
       contentType := if r.contentType != "" then r.contentType else m.contentType,
       etag := if r.etag != "" then r.etag else m.etag,
       extraHeaders := MergeHeaders(m.extraHeaders, r.extraHeaders))
  }

  function StoreRedirect(s: Store, key: string, r: Redirect, o: Outcome): Store {
    if !IsRedirectStatus(r.status) || r.location == "" then s
    else Rewrite(s, key, RedirectMeta(s, key, r), o).0
  }

  function AliasMeta(canonicalKey: string, host: string, path: string, rawQuery: string): Meta {
    Meta(host, path, rawQuery, [], Unknown, "", "", 0, "", map[], canonicalKey, "", [])
  }

  /** StoreAlias: a concrete entry under aliasKey wins; an alias entry is replaced. */
  function StoreAlias(s: Store, aliasKey: string, canonicalKey: string, host: string, path: string, rawQuery: string,
                      o: Outcome): Store {
    if aliasKey == "" || canonicalKey == "" || aliasKey == canonicalKey then s
    else if aliasKey in s.metas && s.metas[aliasKey].aliasOf == "" then s
    else Rewrite(s, aliasKey, AliasMeta(canonicalKey, host, path, rawQuery), o).0
  }

  /** LoadMeta: from the metadata cache, else from disk into the cache. */
  function LoadMeta(s: Store, key: string): (Store, R.Option<Meta>) {
    if key in s.metaCache.vals then
      (s.(metaCache := R.Touched(s.metaCache, key)), R.Some(s.metaCache.vals[key]))
    else if key in s.metas then
      (s.(metaCache := R.Added(s.metaCache, s.metaCap, key, s.metas[key])), R.Some(s.metas[key]))
    else (s, R.None)
  }

  /** What a removed entry reports as freed. */
  function Freed(m: Meta): int {
    if m.total.Known? then m.total.bytes else 0
  }

  function RemoveEntry(s: Store, key: string): Store
    requires key in s.metas
  {
    var freed := Freed(s.metas[key]);
    s.(metas := s.metas - {key},
       bodies := s.bodies - {key},
       metaCache := R.Deleted(s.metaCache, key),
       used := if s.maxBytes > 0 && freed > 0 then s.used - freed else s.used,
       count := if s.maxBytes > 0 then s.count - 1 else s.count)
  }

  function TrimEntry(s: Store, key: string, m: Meta): Store {
    s.(metas := s.metas[key := m], metaCache := R.Added(s.metaCache, s.metaCap, key, m))
  }

  /** PurgeOrTrim on one entry, with the admin handler's decision. */
  function PurgeEntry(s: Store, key: string, org: string, name: string): Store {
    if key !in s.metas then s
    else
      match Decide(s.metas[key], org, name)
      case Keep => s
      case Trim(m) => TrimEntry(s, key, m)
      case Remove => RemoveEntry(s, key)
  }

  /** What PurgeOrTrim reports. */
  datatype PurgeResult = PurgeResult(purged: nat, trimmed: nat, bytesFreed: int)

  /** The walk over the entries on disk, one at a time. */
  function PurgeAll(s: Store, keys: seq<string>, org: string, name: string): Store {
    if keys == [] then s
    else PurgeEntry(PurgeAll(s, keys[..|keys| - 1], org, name), keys[|keys| - 1], org, name)
  }

  /** What the walk reports: entries removed, entries trimmed, and the recorded totals of the removed ones. */
  function Report(s: Store, keys: seq<string>, org: string, name: string): PurgeResult {
    if keys == [] then PurgeResult(0, 0, 0)
    else
      var n := |keys| - 1;
      Tallied(Report(s, keys[..n], org, name), PurgeAll(s, keys[..n], org, name), keys[n], org, name)
  }

  /** The report after one more entry. */
  function Tallied(r: PurgeResult, s: Store, key: string, org: string, name: string): PurgeResult {
    if key !in s.metas then r
    else
      match Decide(s.metas[key], org, name)
      case Keep => r
      case Trim(_) => r.(trimmed := r.trimmed + 1)
      case Remove => r.(purged := r.purged + 1, bytesFreed := r.bytesFreed + Freed(s.metas[key]))
  }

  /** What can go wrong with one entry: its meta cannot be read or parsed, its trimmed meta cannot be written, or its
      directory cannot be removed, although its meta or its body may be gone by then. */
  datatype EntryFault = NoFaultHere | Unreadable | NotTrimmed | NotRemoved(metaGone: bool, bodyGone: bool)

  /** How the walk ended. */
  datatype Stop = RanThrough | AtTrim(key: string) | AtRemove(key: string, freed: int, metaGone: bool)

  datatype Walk = Walk(store: Store, report: PurgeResult, stop: Stop)

  function FaultAt(faults: map<string, EntryFault>, key: string): EntryFault {
    if key in faults then faults[key] else NoFaultHere
  }

  function PartlyRemoved(s: Store, key: string, metaGone: bool, bodyGone: bool): Store {
    s.(metas := if metaGone then s.metas - {key} else s.metas,
       bodies := if bodyGone then s.bodies - {key} else s.bodies)
  }

  /** One entry of the walk: an unreadable one is skipped, a failed action ends it. The freed bytes are reported before
      the directory is removed. */
  function Visited(s: Store, r: PurgeResult, key: string, org: string, name: string, fault: EntryFault): Walk {
    if key !in s.metas || fault.Unreadable? then Walk(s, r, RanThrough)
    else
      match Decide(s.metas[key], org, name)
      case Keep => Walk(s, r, RanThrough)
      case Trim(m) =>
        if fault.NotTrimmed? then Walk(s, r, AtTrim(key))
        else Walk(TrimEntry(s, key, m), r.(trimmed := r.trimmed + 1), RanThrough)
      case Remove =>
        var freed := Freed(s.metas[key]);
        var r1 := r.(bytesFreed := r.bytesFreed + freed);
        if fault.NotRemoved? then
          Walk(PartlyRemoved(s, key, fault.metaGone, fault.bodyGone), r1, AtRemove(key, freed, fault.metaGone))
        else Walk(RemoveEntry(s, key), r1.(purged := r1.purged + 1), RanThrough)
  }

  function PurgeWalk(s: Store, keys: seq<string>, org: string, name: string, faults: map<string, EntryFault>): Walk {
    if keys == [] then Walk(s, PurgeResult(0, 0, 0), RanThrough)
    else
      var n := |keys| - 1;
      var w := PurgeWalk(s, keys[..n], org, name, faults);
      if w.stop != RanThrough then w else Visited(w.store, w.report, keys[n], org, name, FaultAt(faults, keys[n]))
  }

  lemma {:induction false} WalkNext(s: Store, keys: seq<string>, i: nat, org: string, name: string,
                                    faults: map<string, EntryFault>)
    requires i < |keys| && PurgeWalk(s, keys[..i], org, name, faults).stop == RanThrough
    ensures var w := PurgeWalk(s, keys[..i], org, name, faults);
            PurgeWalk(s, keys[..i + 1], org, name, faults)
            == Visited(w.store, w.report, keys[i], org, name, FaultAt(faults, keys[i]))
  {
    assert keys[..i + 1][..i] == keys[..i];
  }

  /** Past a failure nothing happens any more. */
  lemma {:induction false} WalkStops(s: Store, keys: seq<string>, i: nat, org: string, name: string,
                                     faults: map<string, EntryFault>)
    requires i <= |keys| && PurgeWalk(s, keys[..i], org, name, faults).stop != RanThrough
    ensures PurgeWalk(s, keys, org, name, faults) == PurgeWalk(s, keys[..i], org, name, faults)
    decreases |keys|
  {
    if i == |keys| {
      assert keys[..i] == keys;
    } else {
      var n := |keys| - 1;
      assert keys[..n][..i] == keys[..i];
      WalkStops(s, keys[..n], i, org, name, faults);
    }
  }

  /** The bytes all entries on disk count for. */
  ghost function SumBytes(metas: map<string, Meta>): int {
    SumBy(metas, Bytes)
  }

  /** A process restart: the disk stays, everything in memory is rebuilt; counters are warmed only under a quota. */
  ghost function Restart(s: Store): Store {
    s.(metaCache := R.Empty(), reserved := 0,
       used := if s.maxBytes > 0 then SumBytes(s.metas) else 0,
       count := if s.maxBytes > 0 then |s.metas| else 0)
  }
}
