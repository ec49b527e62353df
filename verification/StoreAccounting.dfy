/** The metadata cache never disagrees with the disk. */
module MetaCoherence {
  import opened CacheMeta
  import opened Owners
  import opened StoreModel
  import opened StoreRuns
  import R = Recency

  /** Every cached meta is the one on disk, and the cache is within its bound. */
  ghost predicate Coherent(s: Store) {
    && 1 <= s.metaCap
    && R.Ok(s.metaCache, s.metaCap)
    && forall k :: k in s.metaCache.vals ==> k in s.metas && s.metas[k] == s.metaCache.vals[k]
  }

  /** No operation failed after its rename. */
  predicate Synced(step: Step) {
    (step.CommitStep? || step.RedirectStep? || step.AliasStep?) ==> step.outcome != NotSynced
  }

  predicate SyncedRun(steps: seq<Step>) {
    forall i :: 0 <= i < |steps| ==> Synced(steps[i])
  }

  lemma {:induction false} PublishCoherent(s: Store, key: string, m: Meta)
    requires Coherent(s)
    ensures Coherent(Publish(s, key, m).0)
  {
    R.AddKeeps(s.metaCache, s.metaCap, key, m);
  }

  lemma {:induction false} RemoveCoherent(s: Store, key: string)
    requires Coherent(s) && key in s.metas
    ensures Coherent(RemoveEntry(s, key))
  {
    R.DeleteKeeps(s.metaCache, s.metaCap, key);
  }

  lemma {:induction false} LoadCoherent(s: Store, key: string)
    requires Coherent(s)
    ensures Coherent(LoadMeta(s, key).0)
  {
    R.TouchKeeps(s.metaCache, s.metaCap, key);
    if key in s.metas { R.AddKeeps(s.metaCache, s.metaCap, key, s.metas[key]); }
  }

  /** LoadMeta answers what a plain read of the disk would, whatever has been evicted. */
  lemma {:induction false} LoadReadsDisk(s: Store, key: string)
    requires Coherent(s)
    ensures LoadMeta(s, key).1 == if key in s.metas then R.Some(s.metas[key]) else R.None
    ensures LoadMeta(s, key).0.metas == s.metas
  {
  }

  /** What two states agree on when neither metas nor cache changed. */
  predicate SameMetas(s: Store, t: Store) {
    t.metas == s.metas && t.metaCache == s.metaCache && t.metaCap == s.metaCap
  }

  lemma {:induction false} WriteMetas(s: Store, w: Writer, data: seq<Byte>, n: nat)
    requires n <= |data|
    ensures SameMetas(s, WriteBytes(s, w, data, n).0)
  {
  }

  lemma {:induction false} BeginMetas(s: Store, key: string, p: Params, f: Fault)
    ensures SameMetas(s, Begin(s, key, p, f).0)
  {
  }

  lemma {:induction false} CommitMetas(s: Store, w: Writer, o: Outcome)
    ensures SameMetas(Rewrite(s, w.key, CommitMeta(Base(s, w), w), o).0, Commit(s, w, o).0)
    ensures w.written != w.lastCheckpoint ==>
              SameMetas(Publish(s, w.key, WithSegment(Base(s, w), w)).0, Checkpoint(s, w, true).0)
  {
  }

  /** The steps of a writer. */
  lemma {:induction false} WriterCoherent(st: State, step: Step)
    requires Coherent(st.store) && Synced(step)
    requires step.WriteStep? || step.CheckpointStep? || step.CloseStep? || step.CommitStep? || step.FinishStep?
    ensures Coherent(Next(st, step).store)
  {
    if step.id in st.writers {
      var s, w := st.store, st.writers[step.id];
      match step
      case WriteStep(_, data, n) => if n <= |data| { WriteMetas(s, w, data, n); }
      case CheckpointStep(_, _) =>
        PublishCoherent(s, w.key, WithSegment(Base(s, w), w));
        CommitMetas(s, w, Done);
      case CommitStep(_, o) =>
        PublishCoherent(s, w.key, CommitMeta(Base(s, w), w));
        CommitMetas(s, w, o);
      case _ =>
    }
  }

  lemma {:induction false} TrimCoherent(s: Store, key: string, m: Meta)
    requires Coherent(s)
    ensures Coherent(TrimEntry(s, key, m))
  {
    R.AddKeeps(s.metaCache, s.metaCap, key, m);
  }

  lemma {:induction false} PurgeCoherent(s: Store, key: string, org: string, name: string)
    requires Coherent(s)
    ensures Coherent(PurgeEntry(s, key, org, name))
  {
    hide Coherent, Decide, TrimEntry, RemoveEntry;
    if key in s.metas {
      match Decide(s.metas[key], org, name)
      case Keep =>
      case Trim(m) => TrimCoherent(s, key, m);
      case Remove => RemoveCoherent(s, key);
    }
  }

  lemma {:induction false} StepCoherent(st: State, step: Step)
    requires Coherent(st.store) && Synced(step)
    ensures Coherent(Next(st, step).store)
  {
    hide Begin, LoadMeta, PurgeEntry, Publish, RedirectMeta, AliasMeta;
    var s := st.store;
    match step
    case BeginStep(id, key, p, f) => BeginMetas(s, key, p, f);
    case RedirectStep(key, r, o) => PublishCoherent(s, key, RedirectMeta(s, key, r));
    case AliasStep(key, canonical, host, path, q, o) => PublishCoherent(s, key, AliasMeta(canonical, host, path, q));
    case LoadStep(key) => LoadCoherent(s, key);
    case PurgeStep(key, org, name) => PurgeCoherent(s, key, org, name);
    case CrashStep =>
    case _ => WriterCoherent(st, step);
  }

  /** Whole runs, crashes included: the cache stays coherent with the disk. */
  lemma {:induction false} RunCoherent(st: State, steps: seq<Step>)
    requires Coherent(st.store) && SyncedRun(steps)
    ensures Coherent(Run(st, steps).store)
  {
    if steps != [] {
      var n := |steps| - 1;
      RunCoherent(st, steps[..n]);
      StepCoherent(Run(st, steps[..n]), steps[n]);
    }
  }

  /** A directory-sync failure after the rename keeps the cache coherent exactly when the key was not cached or the
      rewrite changed nothing. */
  lemma {:induction false} UnsyncedRewrite(s: Store, key: string, m: Meta)
    requires Coherent(s)
    ensures Coherent(Rewrite(s, key, m, NotSynced).0) <==> key !in s.metaCache.vals || s.metas[key] == m
  {
    var t := Rewrite(s, key, m, NotSynced).0;
    assert t.metas[key] == m;
  }
}

/** The three counters always say what is on disk and what open writers hold. */
module QuotaCounters {
  import opened CacheMeta
  import opened Owners
  import opened StoreModel
  import opened StoreRuns
  import opened Sums
  import opened MetaCoherence

  function Holds(w: Writer): int {
    w.reserved
  }

  /** usedBytes and entryCount describe the disk; no entry records a total that is not positive. */
  ghost predicate DiskCounted(s: Store) {
    && s.used == SumBytes(s.metas) && s.count == |s.metas|
    && forall k :: k in s.metas && s.metas[k].total.Known? ==> s.metas[k].total.bytes > 0
  }

  /** A writer never owes less than it still holds once it is closing. */
  predicate WriterSound(w: Writer) {
    w.reserved >= 0 && (w.phase != Open ==> w.owed >= w.reserved)
  }

  ghost predicate Counted(st: State) {
    && st.store.maxBytes > 0
    && DiskCounted(st.store)
    && st.store.reserved == SumBy(st.writers, Holds)
    && forall id :: id in st.writers ==> WriterSound(st.writers[id])
  }

  // ---- the disk side -----------------------------------------------------------

  lemma {:induction false} PublishCounted(s: Store, key: string, m: Meta)
    requires s.maxBytes > 0 && DiskCounted(s) && (m.total.Known? ==> m.total.bytes > 0)
    ensures DiskCounted(Publish(s, key, m).0)
    ensures Publish(s, key, m).0.reserved == s.reserved
    ensures Publish(s, key, m).1 == if Bytes(m) > TotalAt(s, key) then Bytes(m) - TotalAt(s, key) else 0
  {
    SumUpdate(s.metas, Bytes, key, m);
    assert s.metas[key := m].Keys == s.metas.Keys + {key};
  }

  lemma {:induction false} TrimCounted(s: Store, key: string, m: Meta)
    requires DiskCounted(s) && key in s.metas && m.total == s.metas[key].total
    ensures DiskCounted(TrimEntry(s, key, m))
  {
    SumUpdate(s.metas, Bytes, key, m);
    assert s.metas[key := m].Keys == s.metas.Keys;
  }

  /** A removed entry leaves the counters by exactly what it reports as freed. */
  lemma {:induction false} RemoveCounted(s: Store, key: string)
    requires s.maxBytes > 0 && DiskCounted(s) && key in s.metas
    ensures DiskCounted(RemoveEntry(s, key))
    ensures s.used - RemoveEntry(s, key).used == Freed(s.metas[key])
  {
    SumWithout(s.metas, Bytes, key);
    assert (s.metas - {key}).Keys == s.metas.Keys - {key};
  }

  // ---- the writer side -----------------------------------------------------------

  /** Releasing moves the same amount out of the store's counter and out of the writer. */
  lemma {:induction false} ReleaseBalanced(s: Store, w: Writer, n: int)
    requires WriterSound(w)
    ensures var (t, v) := ReleaseReserved(s, w, n);
            && s.reserved - t.reserved == w.reserved - v.reserved
            && 0 <= v.reserved <= w.reserved && v == w.(reserved := v.reserved)
            && (v.reserved == if n <= 0 then w.reserved else if n >= w.reserved then 0 else w.reserved - n)
            && t == s.(reserved := t.reserved)
  {
  }

  /** A pair of store and writer before and after: what the writer gained or gave back is what the counter moved by. */
  ghost predicate Balanced(s: Store, w: Writer, t: Store, v: Writer) {
    && t.maxBytes == s.maxBytes && DiskCounted(t) && WriterSound(v)
    && t.reserved - s.reserved == v.reserved - w.reserved
  }

  lemma {:induction false} SameDisk(s: Store, t: Store)
    requires DiskCounted(s) && t.metas == s.metas && t.used == s.used && t.count == s.count
    ensures DiskCounted(t)
  {
  }

  lemma {:induction false} BeginBalanced(s: Store, key: string, p: Params, fault: Fault)
    requires s.maxBytes > 0 && DiskCounted(s)
    ensures var (t, r) := Begin(s, key, p, fault);
            && t.maxBytes == s.maxBytes && DiskCounted(t)
            && (r.Started? ==> WriterSound(r.writer) && t.reserved == s.reserved + r.writer.reserved)
            && (r.Refused? ==> t.reserved == s.reserved)
  {
    hide DiskCounted, Truncated, BodyAt;
    SameDisk(s, Begin(s, key, p, fault).0);
  }

  lemma {:induction false} WriteBalanced(s: Store, w: Writer, data: seq<Byte>, n: nat)
    requires s.maxBytes > 0 && DiskCounted(s) && WriterSound(w) && w.phase == Open && n <= |data|
    ensures Balanced(s, w, WriteBytes(s, w, data, n).0, WriteBytes(s, w, data, n).1)
  {
    hide DiskCounted, WroteAt, BodyAt;
    SameDisk(s, WriteBytes(s, w, data, n).0);
  }

  lemma {:induction false} CheckpointBalanced(s: Store, w: Writer, wrote: bool)
    requires s.maxBytes > 0 && DiskCounted(s) && WriterSound(w) && w.phase == Open
    ensures Balanced(s, w, Checkpoint(s, w, wrote).0, Checkpoint(s, w, wrote).1)
  {
    if w.written != w.lastCheckpoint && wrote {
      var m := WithSegment(Base(s, w), w);
      PublishCounted(s, w.key, m);
      var (s1, grew) := Publish(s, w.key, m);
      ReleaseBalanced(s1, w, grew);
    }
  }

  lemma {:induction false} CommitBalanced(s: Store, w: Writer, o: Outcome)
    requires s.maxBytes > 0 && DiskCounted(s) && WriterSound(w) && w.phase == Closing && o != NotSynced
    ensures Balanced(s, w, Commit(s, w, o).0, Commit(s, w, o).1)
  {
    var m := CommitMeta(Base(s, w), w);
    PublishCounted(s, w.key, m);
    var (s1, grew) := Rewrite(s, w.key, m, o);
    ReleaseBalanced(s1, w, grew);
  }

  /** Close gives back exactly what is still held, although its argument was fixed before commit released part of it. */
  lemma {:induction false} FinishGivesBackAll(s: Store, w: Writer)
    requires WriterSound(w) && w.phase == Committed
    ensures FinishClose(s, w).1.reserved == 0
    ensures FinishClose(s, w).0 == s.(reserved := s.reserved - w.reserved)
  {
    ReleaseBalanced(s, w, w.owed);
  }

  // ---- states --------------------------------------------------------------------

  /** One writer's balanced move keeps the state counted. */
  lemma {:induction false} PairCounted(st: State, id: nat, next: State)
    requires Counted(st) && id in st.writers && id in next.writers
    requires next.writers == st.writers[id := next.writers[id]]
    requires Balanced(st.store, st.writers[id], next.store, next.writers[id])
    ensures Counted(next)
  {
    SumUpdate(st.writers, Holds, id, next.writers[id]);
  }

  lemma {:induction false} WriterCounted(st: State, step: Step)
    requires Counted(st) && Synced(step)
    requires step.WriteStep? || step.CheckpointStep? || step.CloseStep? || step.CommitStep?
    ensures Counted(Next(st, step))
  {
    var s, next := st.store, Next(st, step);
    if step.id in st.writers && next != st {
      var w := st.writers[step.id];
      match step {
        case WriteStep(_, data, n) => WriteBalanced(s, w, data, n);
        case CheckpointStep(_, wrote) => CheckpointBalanced(s, w, wrote);
        case CommitStep(_, o) => CommitBalanced(s, w, o);
        case CloseStep(_) => assert Balanced(s, w, s, StartClose(w));
      }
      PairCounted(st, step.id, next);
    }
  }

  lemma {:induction false} BeginCounted(st: State, step: Step)
    requires Counted(st) && step.BeginStep?
    ensures Counted(Next(st, step))
  {
    if step.id !in st.writers {
      var (t, r) := Begin(st.store, step.key, step.params, step.fault);
      BeginBalanced(st.store, step.key, step.params, step.fault);
      if r.Started? { SumUpdate(st.writers, Holds, step.id, r.writer); }
    }
  }

  lemma {:induction false} FinishCounted(st: State, id: nat)
    requires Counted(st)
    ensures Counted(Next(st, FinishStep(id)))
  {
    if id in st.writers && st.writers[id].phase == Committed {
      FinishGivesBackAll(st.store, st.writers[id]);
      SumWithout(st.writers, Holds, id);
    }
  }

  lemma {:induction false} OrphanedHolds(ws: map<nat, Writer>, key: string)
    ensures SumBy(Orphaned(ws, key), Holds) == SumBy(ws, Holds)
    decreases |ws|
  {
    if ws != map[] {
      var k := Pick(ws);
      OrphanedHolds(ws - {k}, key);
      assert Orphaned(ws, key) - {k} == Orphaned(ws - {k}, key);
      SumWithout(Orphaned(ws, key), Holds, k);
    }
  }

  /** Purging an entry, whatever the decision, keeps the disk counters exact and touches no reservation. */
  lemma {:induction false} PurgeEntryCounted(s: Store, key: string, org: string, name: string)
    requires s.maxBytes > 0 && DiskCounted(s)
    ensures DiskCounted(PurgeEntry(s, key, org, name))
    ensures PurgeEntry(s, key, org, name).reserved == s.reserved && PurgeEntry(s, key, org, name).maxBytes == s.maxBytes
  {
    if key in s.metas {
      match Decide(s.metas[key], org, name)
      case Keep =>
      case Remove => RemoveCounted(s, key);
      case Trim(m) => DecideIsRight(s.metas[key], org, name); TrimCounted(s, key, m);
    }
  }

  lemma {:induction false} PurgeCounted(st: State, key: string, org: string, name: string)
    requires Counted(st)
    ensures Counted(Next(st, PurgeStep(key, org, name)))
  {
    PurgeEntryCounted(st.store, key, org, name);
    OrphanedHolds(st.writers, key);
  }

  /** Steps that rewrite at most one meta and touch neither writers nor reservations. */
  lemma {:induction false} RewriteCounted(st: State, key: string, m: Meta, o: Outcome)
    requires Counted(st) && o != NotSynced && (m.total.Known? ==> m.total.bytes > 0)
    ensures Counted(st.(store := Rewrite(st.store, key, m, o).0))
  {
    PublishCounted(st.store, key, m);
  }

  lemma {:induction false} RedirectCounted(st: State, key: string, r: Redirect, o: Outcome)
    requires Counted(st) && o != NotSynced
    ensures Counted(st.(store := StoreRedirect(st.store, key, r, o)))
  {
    hide Rewrite;
    RewriteCounted(st, key, RedirectMeta(st.store, key, r), o);
  }

  lemma {:induction false} AliasCounted(st: State, key: string, canonical: string, host: string, path: string,
                                        q: string, o: Outcome)
    requires Counted(st) && o != NotSynced
    ensures Counted(st.(store := StoreAlias(st.store, key, canonical, host, path, q, o)))
  {
    hide Rewrite;
    RewriteCounted(st, key, AliasMeta(canonical, host, path, q), o);
  }

  lemma {:induction false} StepCounted(st: State, step: Step)
    requires Counted(st) && Synced(step)
    ensures Counted(Next(st, step))
  {
    hide Begin, WriteBytes, Checkpoint, Commit, FinishClose, PurgeEntry, StoreRedirect, StoreAlias, Orphaned;
    match step
    case BeginStep(_, _, _, _) => BeginCounted(st, step);
    case FinishStep(id) => FinishCounted(st, id);
    case PurgeStep(key, org, name) => PurgeCounted(st, key, org, name);
    case RedirectStep(key, r, o) => RedirectCounted(st, key, r, o);
    case AliasStep(key, canonical, host, path, q, o) => AliasCounted(st, key, canonical, host, path, q, o);
    case LoadStep(_) =>
    case CrashStep =>
    case _ => WriterCounted(st, step);
  }

  /** Whole runs under a quota: the counters are exact in every reachable state, whatever is purged or crashes when. */
  lemma {:induction false} RunCounted(st: State, steps: seq<Step>)
    requires Counted(st) && SyncedRun(steps)
    ensures Counted(Run(st, steps))
  {
    if steps != [] {
      var n := |steps| - 1;
      RunCounted(st, steps[..n]);
      StepCounted(Run(st, steps[..n]), steps[n]);
    }
  }

  /** With the quota off nothing is reserved but writers still release: one segment with a known total, opened and
      closed, drives the reservation counter below zero. It stays exact exactly when there is a quota or nothing to
      hold. */
  lemma {:induction false} NoQuotaNoCount(s: Store, key: string, p: Params)
    requires ValidParams(key, p) && Reserve(s, ReservationFor(p)).1
    ensures var (t, r) := Begin(s, key, p, NoFault);
            && r.Started?
            && (t.reserved - s.reserved == r.writer.reserved <==> s.maxBytes > 0 || ReservationFor(p) == 0)
            && (s.maxBytes <= 0 ==>
                  FinishClose(t, StartClose(r.writer).(phase := Committed)).0.reserved
                  == s.reserved - ReservationFor(p))
  {
  }

  /** A directory-sync failure after the rename keeps the counters exact exactly when it neither added an entry nor
      changed what the entry counts for. */
  lemma {:induction false} UnsyncedCount(s: Store, key: string, m: Meta)
    requires s.maxBytes > 0 && DiskCounted(s) && (m.total.Known? ==> m.total.bytes > 0)
    ensures DiskCounted(Rewrite(s, key, m, NotSynced).0) <==> key in s.metas && Bytes(m) == Bytes(s.metas[key])
  {
    SumUpdate(s.metas, Bytes, key, m);
    UnsyncedSize(s.metas, key, m);
  }

  lemma {:induction false} UnsyncedSize(metas: map<string, Meta>, key: string, m: Meta)
    ensures |metas[key := m]| == |metas| <==> key in metas
  {
    assert metas[key := m].Keys == metas.Keys + {key};
  }
}

/** The quota is hard: what is stored plus what is promised never exceeds it. */
module QuotaSafety {
  import opened CacheMeta
  import opened Owners
  import opened StoreModel
  import opened StoreRuns
  import opened MetaCoherence
  import opened QuotaCounters
  import ContentSafety
  import Sums

  /** Were n the recorded total of its key, the writer could still publish more than n and what it holds. */
  predicate Needs(w: Writer, n: int) {
    w.phase != Committed && w.params.total > n + w.reserved
  }

  /** The key lemma's invariant: a writer that can still raise its key's total holds enough for it. */
  ghost predicate Covers(s: Store, w: Writer) {
    && w.reserved >= 0
    && (w.dynamicQuota <==> w.params.total <= 0 && w.params.length <= 0)
    && !Needs(w, TotalAt(s, w.key))
    && (w.phase != Committed && w.dynamicQuota ==> w.reserved == w.written)
  }

  ghost predicate Within(s: Store) {
    0 < s.maxBytes && s.used + s.reserved <= s.maxBytes
  }

  ghost predicate Bounded(st: State) {
    Within(st.store) && forall id :: id in st.writers ==> Covers(st.store, st.writers[id])
  }

  /** The total a step records for a key, and the writer that records it. */
  datatype Record = NoRecord | Record(key: string, total: nat, own: set<nat>)

  /** The total a segment's metadata states, if it states one. */
  function Stated(w: Writer): nat {
    if w.params.total > 0 then w.params.total else if Chunked(w.params) then w.written else 0
  }

  /** What a step will record, as its arguments and the state before it tell. A remove and an alias record nothing
      left. */
  function Records(st: State, step: Step): Record {
    match step
    case CheckpointStep(id, wrote) =>
      if id in st.writers && st.writers[id].phase == Open && st.writers[id].params.total > 0
         && wrote && st.writers[id].written != st.writers[id].lastCheckpoint
      then Record(st.writers[id].key, st.writers[id].params.total, {id}) else NoRecord
    case CommitStep(id, o) =>
      if id in st.writers && st.writers[id].phase == Closing && o == Done && Stated(st.writers[id]) > 0
      then Record(st.writers[id].key, Stated(st.writers[id]), {id}) else NoRecord
    case PurgeStep(key, _, _) => if Removes(st, step) then Record(key, 0, {}) else NoRecord
    case AliasStep(key, canonical, host, path, q, o) =>
      if StoreAlias(st.store, key, canonical, host, path, q, o) != st.store then Record(key, 0, {}) else NoRecord
    case _ => NoRecord
  }

  /** A total may be lowered only if every other open writer of the key holds what it then needs. Responses may state
      any totals, agree or not, and close early. */
  ghost predicate Regular(st: State, step: Step) {
    && Synced(step)
    && var r := Records(st, step);
       r.Record? && r.total < TotalAt(st.store, r.key) ==>
         forall id :: id in st.writers && id !in r.own && st.writers[id].key == r.key ==>
           !Needs(st.writers[id], r.total)
  }

  ghost predicate RegularRun(st: State, steps: seq<Step>) {
    forall i :: 0 <= i < |steps| ==> Regular(Run(st, steps[..i]), steps[i])
  }

  // ---- growth is paid for ----------------------------------------------------------

  /** Publishing a total the writer has covered moves bytes from reserved to used and never adds any; a lower one gives
      bytes back. */
  lemma {:induction false} PaidFor(s: Store, w: Writer, m: Meta)
    requires s.maxBytes > 0 && w.reserved >= 0
    requires Bytes(m) > TotalAt(s, w.key) ==> w.reserved >= Bytes(m) - TotalAt(s, w.key)
    ensures var (s1, grew) := Publish(s, w.key, m);
            var (t, v) := ReleaseReserved(s1, w, grew);
            && s.used + s.reserved - (t.used + t.reserved)
               == (if Bytes(m) < TotalAt(s, w.key) then TotalAt(s, w.key) - Bytes(m) else 0)
            && t.maxBytes == s.maxBytes && t.metas == s.metas[w.key := m]
            && v.reserved >= 0 && v == w.(reserved := v.reserved) && w.reserved - v.reserved == grew
  {
  }

  /** The total of key is now n, every other total is as it was, and the store is within its quota. */
  ghost predicate Moves(s: Store, t: Store, key: string, n: int) {
    && Within(t) && TotalAt(t, key) == n
    && forall k :: k != key ==> TotalAt(t, k) == TotalAt(s, k)
  }

  /** The segment's total if it states one, else what was recorded. */
  function NewTotal(s: Store, key: string, stated: nat): nat {
    if stated > 0 then stated else TotalAt(s, key)
  }

  lemma {:induction false} CheckpointPaid(s: Store, w: Writer, wrote: bool)
    requires Within(s) && Covers(s, w) && w.phase == Open
    ensures var (t, v) := Checkpoint(s, w, wrote);
            && Moves(s, t, w.key, if wrote && w.written != w.lastCheckpoint
                                  then NewTotal(s, w.key, if w.params.total > 0 then w.params.total else 0)
                                  else TotalAt(s, w.key))
            && Covers(t, v)
  {
    if w.written != w.lastCheckpoint && wrote {
      var m := WithSegment(Base(s, w), w);
      SegmentBytes(s, w);
      PaidFor(s, w, m);
    }
  }

  lemma {:induction false} SegmentBytes(s: Store, w: Writer)
    ensures Bytes(WithSegment(Base(s, w), w)) == NewTotal(s, w.key, if w.params.total > 0 then w.params.total else 0)
    ensures Bytes(CommitMeta(Base(s, w), w)) == NewTotal(s, w.key, Stated(w))
  {
  }

  lemma {:induction false} CommitPaid(s: Store, w: Writer, o: Outcome)
    requires Within(s) && Covers(s, w) && w.phase == Closing && o != NotSynced
    ensures var (t, v) := Commit(s, w, o);
            && Moves(s, t, w.key, if o == Done then NewTotal(s, w.key, Stated(w)) else TotalAt(s, w.key))
            && Covers(t, v)
  {
    if o == Done {
      SegmentBytes(s, w);
      PaidFor(s, w, CommitMeta(Base(s, w), w));
    }
  }

  lemma {:induction false} WritePaid(s: Store, w: Writer, data: seq<Byte>, n: nat)
    requires Within(s) && Covers(s, w) && w.phase == Open && n <= |data|
    ensures var (t, v) := WriteBytes(s, w, data, n); Within(t) && t.metas == s.metas && Covers(t, v)
  {
  }

  lemma {:induction false} BeginPaid(s: Store, key: string, p: Params, fault: Fault)
    requires Within(s)
    ensures var (t, r) := Begin(s, key, p, fault);
            Within(t) && t.metas == s.metas && (r.Started? ==> Covers(t, r.writer))
  {
  }

  lemma {:induction false} ClosePaid(s: Store, w: Writer)
    requires Covers(s, w) && w.phase == Open
    ensures Covers(s, StartClose(w))
  {
  }

  // ---- what the other writers see ----------------------------------------------------------

  /** What a writer claims does not change when its file is orphaned. */
  predicate SameClaim(w: Writer, v: Writer) {
    v == w.(linked := v.linked)
  }

  lemma {:induction false} StaysCovered(s: Store, t: Store, w: Writer, v: Writer)
    requires Covers(s, w) && SameClaim(w, v)
    requires TotalAt(t, w.key) >= TotalAt(s, w.key) || !Needs(w, TotalAt(t, w.key))
    ensures Covers(t, v)
  {
  }

  /** A step that moves one key's total and touches at most its own writers stays bounded if and only if it does not
      lower the total under a writer that then needs more than it holds. */
  lemma {:induction false} MovedExactly(st: State, next: State, key: string, n: nat, own: set<nat>)
    requires Bounded(st) && Moves(st.store, next.store, key, n)
    requires forall id :: id in own && id in next.writers ==> Covers(next.store, next.writers[id])
    requires forall id :: id in next.writers && id !in own ==>
               id in st.writers && SameClaim(st.writers[id], next.writers[id])
    requires forall id :: id in st.writers && id !in own ==> id in next.writers
    ensures Bounded(next) <==>
            (n < TotalAt(st.store, key) ==>
               forall id :: id in st.writers && id !in own && st.writers[id].key == key ==> !Needs(st.writers[id], n))
  {
    hide Moves;
    MovesMeans(st.store, next.store, key, n);
    if n < TotalAt(st.store, key) ==>
         forall id :: id in st.writers && id !in own && st.writers[id].key == key ==> !Needs(st.writers[id], n)
    {
      forall id | id in next.writers ensures Covers(next.store, next.writers[id]) {
        if id !in own { StaysCovered(st.store, next.store, st.writers[id], next.writers[id]); }
      }
    } else {
      var id :| id in st.writers && id !in own && st.writers[id].key == key && Needs(st.writers[id], n);
      assert !Covers(next.store, next.writers[id]);
    }
  }

  lemma {:induction false} MovesMeans(s: Store, t: Store, key: string, n: int)
    requires Moves(s, t, key, n)
    ensures Within(t) && TotalAt(t, key) == n
    ensures forall k :: k != key ==> TotalAt(t, k) == TotalAt(s, k)
  {
  }

  /** A step that changes no total and touches at most its own writers stays bounded. */
  lemma {:induction false} StaysBounded(st: State, next: State, own: set<nat>)
    requires Bounded(st) && Within(next.store) && forall k :: TotalAt(next.store, k) == TotalAt(st.store, k)
    requires forall id :: id in own && id in next.writers ==> Covers(next.store, next.writers[id])
    requires forall id :: id in next.writers && id !in own ==>
               id in st.writers && SameClaim(st.writers[id], next.writers[id])
    ensures Bounded(next)
  {
    forall id | id in next.writers ensures Covers(next.store, next.writers[id]) {
      if id !in own { StaysCovered(st.store, next.store, st.writers[id], next.writers[id]); }
    }
  }

  // ---- the steps -------------------------------------------------------------------------

  lemma {:induction false} CheckpointExact(st: State, id: nat, wrote: bool)
    requires Bounded(st)
    ensures Bounded(Next(st, CheckpointStep(id, wrote))) <==> Regular(st, CheckpointStep(id, wrote))
  {
    hide Checkpoint, Covers, Moves, Within, Bounded;
    if id in st.writers && st.writers[id].phase == Open {
      var s, w := st.store, st.writers[id];
      BoundedMeans(st, id);
      CheckpointPaid(s, w, wrote);
      var (t, v) := Checkpoint(s, w, wrote);
      OwnMoved(st, id, t, v, TotalAt(t, w.key));
    }
  }

  lemma {:induction false} CommitExact(st: State, id: nat, o: Outcome)
    requires Bounded(st) && o != NotSynced
    ensures Bounded(Next(st, CommitStep(id, o))) <==> Regular(st, CommitStep(id, o))
  {
    hide Commit, Covers, Moves, Within, Bounded;
    if id in st.writers && st.writers[id].phase == Closing {
      var s, w := st.store, st.writers[id];
      BoundedMeans(st, id);
      CommitPaid(s, w, o);
      var (t, v) := Commit(s, w, o);
      OwnMoved(st, id, t, v, TotalAt(t, w.key));
    }
  }

  lemma {:induction false} BoundedMeans(st: State, id: nat)
    requires Bounded(st) && id in st.writers
    ensures Within(st.store) && Covers(st.store, st.writers[id])
  {
  }

  /** The step of one writer that leaves its key with total n. */
  lemma {:induction false} OwnMoved(st: State, id: nat, t: Store, v: Writer, n: nat)
    requires Bounded(st) && id in st.writers && Moves(st.store, t, st.writers[id].key, n) && Covers(t, v)
    ensures Bounded(State(t, st.writers[id := v])) <==>
            (n < TotalAt(st.store, st.writers[id].key) ==>
               forall j :: j in st.writers && j !in {id} && st.writers[j].key == st.writers[id].key ==>
                 !Needs(st.writers[j], n))
  {
    hide Covers, Moves, Bounded, Needs;
    MovedExactly(st, State(t, st.writers[id := v]), st.writers[id].key, n, {id});
  }

  lemma {:induction false} WriteBounded(st: State, id: nat, data: seq<Byte>, n: nat)
    requires Bounded(st)
    ensures Bounded(Next(st, WriteStep(id, data, n)))
  {
    hide WriteBytes, Covers, Within;
    if id in st.writers && st.writers[id].phase == Open && n <= |data| {
      WritePaid(st.store, st.writers[id], data, n);
      StaysBounded(st, Next(st, WriteStep(id, data, n)), {id});
    }
  }

  lemma {:induction false} CloseBounded(st: State, id: nat)
    requires Bounded(st)
    ensures Bounded(Next(st, CloseStep(id)))
  {
    hide Covers, Within;
    if id in st.writers && st.writers[id].phase == Open {
      ClosePaid(st.store, st.writers[id]);
      StaysBounded(st, Next(st, CloseStep(id)), {id});
    }
  }

  lemma {:induction false} BeginBounded(st: State, id: nat, key: string, p: Params, fault: Fault)
    requires Bounded(st)
    ensures Bounded(Next(st, BeginStep(id, key, p, fault)))
  {
    hide Begin, Covers, Within;
    if id !in st.writers {
      BeginPaid(st.store, key, p, fault);
      StaysBounded(st, Next(st, BeginStep(id, key, p, fault)), {id});
    }
  }

  lemma {:induction false} FinishBounded(st: State, id: nat)
    requires Bounded(st)
    ensures Bounded(Next(st, FinishStep(id)))
  {
    if id in st.writers && st.writers[id].phase == Committed {
      StaysBounded(st, Next(st, FinishStep(id)), {id});
    }
  }

  lemma {:induction false} RedirectBounded(st: State, key: string, r: Redirect, o: Outcome)
    requires Bounded(st) && o != NotSynced
    ensures Bounded(st.(store := StoreRedirect(st.store, key, r, o)))
  {
    hide Covers;
    StaysBounded(st, st.(store := StoreRedirect(st.store, key, r, o)), {});
  }

  lemma {:induction false} LoadBounded(st: State, key: string)
    requires Bounded(st)
    ensures Bounded(st.(store := LoadMeta(st.store, key).0))
  {
    hide Covers;
    StaysBounded(st, st.(store := LoadMeta(st.store, key).0), {});
  }

  /** An alias entry has no total. */
  lemma {:induction false} AliasMoves(s: Store, key: string, canonical: string, host: string, path: string, q: string,
                                      o: Outcome)
    requires Within(s) && o != NotSynced
    ensures var t := StoreAlias(s, key, canonical, host, path, q, o);
            Within(t) && (t != s ==> Moves(s, t, key, 0))
  {
  }

  lemma {:induction false} AliasExact(st: State, step: Step)
    requires Bounded(st) && step.AliasStep? && step.outcome != NotSynced
    ensures var t := StoreAlias(st.store, step.key, step.canonical, step.host, step.path, step.rawQuery, step.outcome);
            Bounded(State(t, st.writers)) <==> Regular(st, step)
  {
    hide StoreAlias, Moves, Covers, Bounded, Within, Needs;
    var t := StoreAlias(st.store, step.key, step.canonical, step.host, step.path, step.rawQuery, step.outcome);
    BoundedWithin(st);
    AliasMoves(st.store, step.key, step.canonical, step.host, step.path, step.rawQuery, step.outcome);
    if t != st.store { MovedExactly(st, State(t, st.writers), step.key, 0, {}); }
  }

  lemma {:induction false} BoundedWithin(st: State)
    requires Bounded(st)
    ensures Within(st.store)
  {
  }

  lemma {:induction false} RemoveMoves(s: Store, key: string)
    requires Within(s) && key in s.metas
    ensures Moves(s, RemoveEntry(s, key), key, 0)
  {
  }

  lemma {:induction false} OrphansClaim(ws: map<nat, Writer>, key: string)
    ensures Orphaned(ws, key).Keys == ws.Keys
    ensures forall id :: id in ws ==> SameClaim(ws[id], Orphaned(ws, key)[id])
  {
  }

  lemma {:induction false} RemoveExact(st: State, step: Step)
    requires Bounded(st) && Removes(st, step)
    ensures Bounded(Next(st, step)) <==> Regular(st, step)
  {
    hide Moves, Covers, Bounded, Within, Needs, Next, RemoveEntry, Orphaned, Decide;
    BoundedWithin(st);
    ContentSafety.RemoveOrphans(st, step.key, step.org, step.name);
    RemoveMoves(st.store, step.key);
    OrphansClaim(st.writers, step.key);
    MovedExactly(st, Next(st, step), step.key, 0, {});
  }

  lemma {:induction false} TrimBounded(st: State, key: string, org: string, name: string)
    requires Bounded(st) && !(key in st.store.metas && Decide(st.store.metas[key], org, name).Remove?)
    ensures Bounded(State(PurgeEntry(st.store, key, org, name), st.writers))
  {
    hide Covers, RemoveEntry;
    if key in st.store.metas {
      DecideIsRight(st.store.metas[key], org, name);
      StaysBounded(st, State(PurgeEntry(st.store, key, org, name), st.writers), {});
    }
  }

  lemma {:induction false} PurgeExact(st: State, step: Step)
    requires Bounded(st) && step.PurgeStep?
    ensures Bounded(Next(st, step)) <==> Regular(st, step)
  {
    hide Bounded, Next;
    if Removes(st, step) {
      RemoveExact(st, step);
    } else {
      ContentSafety.KeepsOrTrims(st, step.key, step.org, step.name);
      TrimBounded(st, step.key, step.org, step.name);
    }
  }

  /** A restart drops every reservation and recounts what is on disk. */
  lemma {:induction false} CrashBounded(st: State)
    requires Bounded(st) && Counted(st)
    ensures Bounded(Next(st, CrashStep))
  {
    ReservedNonNegative(st);
  }

  lemma {:induction false} ReservedNonNegative(st: State)
    requires Counted(st)
    ensures st.store.reserved >= 0
  {
    Sums.SumNonNegative(st.writers, Holds);
  }

  /** Every step keeps the store within its quota, and every writer covered, if and only if it is regular. */
  lemma {:induction false} StepBounded(st: State, step: Step)
    requires Bounded(st) && Counted(st) && Synced(step)
    ensures Bounded(Next(st, step)) <==> Regular(st, step)
  {
    hide Begin, WriteBytes, Checkpoint, Commit, FinishClose, PurgeEntry, StoreRedirect, StoreAlias, Orphaned;
    hide Bounded, Counted, LoadMeta;
    match step
    case BeginStep(id, key, p, fault) => BeginBounded(st, id, key, p, fault);
    case WriteStep(id, data, n) => WriteBounded(st, id, data, n);
    case CheckpointStep(id, wrote) => CheckpointExact(st, id, wrote);
    case CloseStep(id) => CloseBounded(st, id);
    case CommitStep(id, o) => CommitExact(st, id, o);
    case FinishStep(id) => FinishBounded(st, id);
    case PurgeStep(_, _, _) => PurgeExact(st, step);
    case RedirectStep(key, r, o) => RedirectBounded(st, key, r, o);
    case AliasStep(_, _, _, _, _, _) => AliasExact(st, step);
    case LoadStep(key) => LoadBounded(st, key);
    case CrashStep => CrashBounded(st);
  }

  /** Whole runs, crashes included: used + reserved never exceeds the quota. */
  lemma {:induction false} RunBounded(st: State, steps: seq<Step>)
    requires Bounded(st) && Counted(st) && RegularRun(st, steps)
    ensures Bounded(Run(st, steps)) && Counted(Run(st, steps))
  {
    hide Bounded, Counted, Regular, Next;
    if steps != [] {
      var n := |steps| - 1;
      forall i | 0 <= i < n
        ensures Regular(Run(st, steps[..n][..i]), steps[..n][i])
      {
        assert steps[..n][..i] == steps[..i];
      }
      RunBounded(st, steps[..n]);
      RegularIsSynced(Run(st, steps[..n]), steps[n]);
      StepBounded(Run(st, steps[..n]), steps[n]);
      StepCounted(Run(st, steps[..n]), steps[n]);
    }
  }

  lemma {:induction false} RegularIsSynced(st: State, step: Step)
    requires Regular(st, step)
    ensures Synced(step)
  {
  }

  /** A store just started within its quota, over metadata whose totals are positive as the code writes them, is where
      such runs begin. */
  lemma {:induction false} StartBounded(st: State)
    requires StoreRuns.Started(st) && 0 < st.store.maxBytes && st.store.used <= st.store.maxBytes
    requires forall k :: k in st.store.metas && st.store.metas[k].total.Known? ==> st.store.metas[k].total.bytes > 0
    ensures Bounded(st) && Counted(st)
  {
  }

  // ---- why no total may be lowered under a writer that needs it ------------------------------

  /** Committing a writer that needs more than it holds adds exactly the difference. */
  lemma {:induction false} NeedyCommitAdds(s: Store, w: Writer)
    requires 0 < s.maxBytes && w.reserved >= 0 && Needs(w, TotalAt(s, w.key))
    ensures var t := Commit(s, w, Done).0;
            && t.used + t.reserved == s.used + s.reserved + (w.params.total - TotalAt(s, w.key) - w.reserved)
            && t.maxBytes == s.maxBytes
  {
    SegmentBytes(s, w);
  }

  /** Another fetch takes exactly the room that is left. */
  predicate Fills(s: Store, key: string, p: Params) {
    Begin(s, key, p, NoFault).1.Started? && s.used + s.reserved + ReservationFor(p) == s.maxBytes
  }

  /** The writer starts closing, the other fetch begins, the writer commits. */
  ghost function AfterFetch(st: State, id: nat, id2: nat, key2: string, p2: Params): State {
    Next(Next(Next(st, CloseStep(id)), BeginStep(id2, key2, p2, NoFault)), CommitStep(id, Done))
  }

  predicate Exceeds(st: State) {
    st.store.used + st.store.reserved > st.store.maxBytes
  }

  /** So once a step has left a writer needy, another fetch may take what room there is, and closing the writer then
      exceeds the quota. */
  lemma {:induction false} NeedyOverruns(st: State, id: nat, id2: nat, key2: string, p2: Params)
    requires Within(st.store) && id in st.writers && id2 !in st.writers
    requires var s, w := st.store, st.writers[id];
             && w.reserved >= 0 && Needs(w, TotalAt(s, w.key))
             && Fills(s, key2, p2)
    ensures Exceeds(AfterFetch(st, id, id2, key2, p2))
  {
    hide Begin, Commit;
    var w := st.writers[id];
    var closing := if w.phase == Open then StartClose(w) else w;
    var s1 := Next(st, CloseStep(id));
    assert s1 == State(st.store, st.writers[id := closing]);
    BegunStore(st.store, key2, p2);
    NeedyCommitAdds(Begin(st.store, key2, p2, NoFault).0, closing);
    LastTwo(s1, id, id2, key2, p2);
  }

  lemma {:induction false} BegunStore(s: Store, key: string, p: Params)
    requires s.maxBytes > 0 && Begin(s, key, p, NoFault).1.Started?
    ensures var t := Begin(s, key, p, NoFault).0;
            t.metas == s.metas && t.used == s.used && t.maxBytes == s.maxBytes
            && t.reserved == s.reserved + ReservationFor(p)
  {
  }

  lemma {:induction false} LastTwo(st: State, id: nat, id2: nat, key2: string, p2: Params)
    requires id in st.writers && st.writers[id].phase == Closing && id2 !in st.writers
    requires Begin(st.store, key2, p2, NoFault).1.Started?
    ensures Next(Next(st, BeginStep(id2, key2, p2, NoFault)), CommitStep(id, Done)).store
            == Commit(Begin(st.store, key2, p2, NoFault).0, st.writers[id], Done).0
  {
    hide Begin, Commit;
    var (t, r) := Begin(st.store, key2, p2, NoFault);
    assert Next(st, BeginStep(id2, key2, p2, NoFault)) == State(t, st.writers[id2 := r.writer]);
    ContentSafety.NextCommit(Next(st, BeginStep(id2, key2, p2, NoFault)), id, Done);
  }

  /** Every step that is not regular ends in that: whatever it was, closing the writer it left needy exceeds the
      quota. */
  lemma {:induction false} IrregularOverruns(st: State, step: Step, id: nat, id2: nat, key2: string, p2: Params)
    requires Bounded(st) && Synced(step)
    requires var r := Records(st, step);
             && r.Record? && r.total < TotalAt(st.store, r.key) && id in st.writers && id !in r.own
             && st.writers[id].key == r.key && Needs(st.writers[id], r.total)
    requires id2 !in st.writers
    requires Fills(Next(st, step).store, key2, p2)
    ensures var next := Next(st, step);
            Exceeds(AfterFetch(next, id, id2, key2, p2))
  {
    hide Next, Bounded, Begin, Within;
    RecordedNext(st, step, id);
    NeedyOverruns(Next(st, step), id, id2, key2, p2);
  }

  /** A remove under an open writer is one. */
  lemma {:induction false} RemoveUnderWriterOverruns(
      st: State, id: nat, org: string, name: string, id2: nat, key2: string, p2: Params)
    requires Bounded(st) && id in st.writers && id2 !in st.writers
    requires var w := st.writers[id];
             && Removes(st, PurgeStep(w.key, org, name)) && TotalAt(st.store, w.key) > 0 && Needs(w, 0)
             && var s := Next(st, PurgeStep(w.key, org, name)).store;
                Fills(s, key2, p2)
    ensures var removed := Next(st, PurgeStep(st.writers[id].key, org, name));
            Exceeds(AfterFetch(removed, id, id2, key2, p2))
  {
    hide Next, Bounded, Begin, Needs;
    IrregularOverruns(st, PurgeStep(st.writers[id].key, org, name), id, id2, key2, p2);
  }

  /** So is an alias written over an entry under an open writer. */
  lemma {:induction false} AliasUnderWriterOverruns(
      st: State, id: nat, canonical: string, id2: nat, key2: string, p2: Params)
    requires Bounded(st) && id in st.writers && id2 !in st.writers
    requires var w := st.writers[id];
             && w.key in st.store.metas && st.store.metas[w.key].aliasOf != "" && TotalAt(st.store, w.key) > 0
             && w.key != "" && canonical != "" && canonical != w.key && Needs(w, 0)
             && var s := Next(st, AliasStep(w.key, canonical, "", "", "", Done)).store;
                Fills(s, key2, p2)
    ensures var dropped := Next(st, AliasStep(st.writers[id].key, canonical, "", "", "", Done));
            Exceeds(AfterFetch(dropped, id, id2, key2, p2))
  {
    hide Next, Bounded, Begin, Needs;
    var key := st.writers[id].key;
    assert StoreAlias(st.store, key, canonical, "", "", "", Done).metas[key] != st.store.metas[key];
    IrregularOverruns(st, AliasStep(key, canonical, "", "", "", Done), id, id2, key2, p2);
  }

  /** And a response of unknown length that closes with less than is recorded, while a writer depends on the record. */
  lemma {:induction false} EarlyCloseUnderWriterOverruns(
      st: State, id: nat, early: nat, id2: nat, key2: string, p2: Params)
    requires Bounded(st) && id in st.writers && early in st.writers && early != id && id2 !in st.writers
    requires var w, e := st.writers[id], st.writers[early];
             && e.key == w.key && e.phase == Closing && Chunked(e.params) && 0 < e.written < TotalAt(st.store, e.key)
             && Needs(w, e.written)
             && var s := Next(st, CommitStep(early, Done)).store;
                Fills(s, key2, p2)
    ensures var lowered := Next(st, CommitStep(early, Done));
            Exceeds(AfterFetch(lowered, id, id2, key2, p2))
  {
    hide Next, Bounded, Begin, Needs;
    IrregularOverruns(st, CommitStep(early, Done), id, id2, key2, p2);
  }

  /** What a lowering step leaves to another writer of the key. */
  lemma {:induction false} RecordedNext(st: State, step: Step, id: nat)
    requires Bounded(st) && Synced(step) && Records(st, step).Record?
    requires id in st.writers && id !in Records(st, step).own && st.writers[id].key == Records(st, step).key
    ensures var next, r := Next(st, step), Records(st, step);
            && next.writers.Keys == st.writers.Keys && SameClaim(st.writers[id], next.writers[id])
            && Within(next.store) && TotalAt(next.store, r.key) == r.total && next.writers[id].reserved >= 0
  {
    hide Begin, WriteBytes, Checkpoint, Commit, FinishClose, StoreRedirect, StoreAlias, LoadMeta, Moves;
    match step
    case CheckpointStep(own, wrote) =>
      var w := st.writers[own];
      CheckpointPaid(st.store, w, wrote);
      MovesMeans(st.store, Checkpoint(st.store, w, wrote).0, w.key, w.params.total);
    case CommitStep(own, o) =>
      var w := st.writers[own];
      CommitPaid(st.store, w, o);
      MovesMeans(st.store, Commit(st.store, w, o).0, w.key, Stated(w));
    case PurgeStep(key, org, name) =>
      ContentSafety.RemoveOrphans(st, key, org, name);
      RemoveMoves(st.store, key);
      MovesMeans(st.store, RemoveEntry(st.store, key), key, 0);
    case AliasStep(key, canonical, host, path, q, o) =>
      AliasMoves(st.store, key, canonical, host, path, q, o);
      MovesMeans(st.store, StoreAlias(st.store, key, canonical, host, path, q, o), key, 0);
    case _ =>
  }
}
