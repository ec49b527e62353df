/** LoadMeta and PurgeOrTrim of internal/cache/store.go each read meta.json without the lock and act on it later. The
    rest of the model takes both as one step; here the two halves come apart, with any run in between. */
module Races {
  import opened Spans
  import opened CacheMeta
  import opened Owners
  import opened StoreModel
  import opened StoreRuns
  import opened ContentSafety
  import opened MetaCoherence
  import opened QuotaCounters
  import opened Sums
  import R = Recency

  // ---- LoadMeta ------------------------------------------------------------------------

  /** The second half of LoadMeta: what was read goes into the cache. */
  function Filled(t: Store, key: string, m: Meta): Store {
    t.(metaCache := R.Added(t.metaCache, t.metaCap, key, m))
  }

  /** With nothing in between the halves make LoadMeta. */
  lemma {:induction false} FillIsLoad(s: Store, key: string)
    requires key in s.metas && key !in s.metaCache.vals
    ensures LoadMeta(s, key) == (Filled(s, key, s.metas[key]), R.Some(s.metas[key]))
  {
  }

  /** Filling in a meta keeps the cache coherent exactly when it is still the one on disk; from then on it is the
      answer. */
  lemma {:induction false} FillExact(t: Store, key: string, m: Meta)
    requires Coherent(t)
    ensures Coherent(Filled(t, key, m)) <==> key in t.metas && t.metas[key] == m
    ensures LoadMeta(Filled(t, key, m), key).1 == R.Some(m)
  {
    R.AddKeeps(t.metaCache, t.metaCap, key, m);
    if key in t.metas && t.metas[key] == m {
      assert Coherent(Filled(t, key, m));
    }
  }

  /** So over every run: a LoadMeta that reads at its start and fills at its end leaves the cache coherent exactly when
      the run left that entry as it was. */
  lemma {:induction false} LoadApart(st: State, steps: seq<Step>, key: string)
    requires Coherent(st.store) && SyncedRun(steps) && key in st.store.metas
    ensures var m, t := st.store.metas[key], Run(st, steps).store;
            && (Coherent(Filled(t, key, m)) <==> key in t.metas && t.metas[key] == m)
            && LoadMeta(Filled(t, key, m), key).1 == R.Some(m)
  {
    hide Coherent, Filled, LoadMeta, Next;
    RunCoherent(st, steps);
    FillExact(Run(st, steps).store, key, st.store.metas[key]);
  }

  /** The store after a commit that succeeds. */
  lemma {:induction false} CommitOnly(st: State, id: nat)
    requires id in st.writers && st.writers[id].phase == Closing
    ensures var w, t := st.writers[id], Run(st, [CommitStep(id, Done)]).store;
            && t == Commit(st.store, w, Done).0
            && w.key in t.metas && t.metas[w.key] == CommitMeta(Base(st.store, w), w)
  {
    var steps := [CommitStep(id, Done)];
    assert steps[..0] == [];
    CommitFacts(st.store, st.writers[id], Done);
  }

  /** A commit between the halves is such a run whenever it changes the entry: the cache then answers with the old
      one. */
  lemma {:induction false} CommitBetween(st: State, id: nat)
    requires Coherent(st.store) && id in st.writers && st.writers[id].phase == Closing
    requires var w := st.writers[id];
             w.key in st.store.metas && CommitMeta(Base(st.store, w), w) != st.store.metas[w.key]
    ensures var key, t := st.writers[id].key, Run(st, [CommitStep(id, Done)]).store;
            var late := Filled(t, key, st.store.metas[key]);
            && !Coherent(late) && LoadMeta(late, key).1 == R.Some(st.store.metas[key])
            && key in late.metas && late.metas[key] != st.store.metas[key]
  {
    hide Coherent, LoadMeta, Next, CommitMeta, Commit;
    CommitOnly(st, id);
    LoadApart(st, [CommitStep(id, Done)], st.writers[id].key);
  }

  // ---- a remove during a rewrite ---------------------------------------------------------------

  /** The second half of a meta rewrite: what was made of the meta read earlier is written, cached and accounted against
      it. Rewrites hold the lock in between, but a remove does not take it. */
  function RewrittenAs(t: Store, key: string, had: R.Option<Meta>, m: Meta): Store {
    var t1 := t.(metas := t.metas[key := m], metaCache := R.Added(t.metaCache, t.metaCap, key, m));
    Account(t1, TotalRead(had), had.Some?, m).0
  }

  function TotalRead(had: R.Option<Meta>): nat {
    if had.Some? then Bytes(had.value) else 0
  }

  function MetaAt(s: Store, key: string): R.Option<Meta> {
    if key in s.metas then R.Some(s.metas[key]) else R.None
  }

  /** With nothing in between the halves make the rewrite. */
  lemma {:induction false} RewrittenAsRead(s: Store, key: string, m: Meta)
    ensures RewrittenAs(s, key, MetaAt(s, key), m) == Publish(s, key, m).0
  {
  }

  /** The counters end up off by what the entry changed by since it was read. */
  lemma {:induction false} RewriteDrift(t: Store, key: string, had: R.Option<Meta>, m: Meta)
    requires t.maxBytes > 0 && DiskCounted(t)
    ensures Drifted(RewrittenAs(t, key, had, m), TotalAt(t, key) - TotalRead(had),
                    (if had.Some? then 0 else 1) - (if key in t.metas then 0 else 1))
  {
    SumUpdate(t.metas, Bytes, key, m);
    assert t.metas[key := m].Keys == t.metas.Keys + {key};
  }

  /** Published bytes stay right exactly when the spans written are right in the body as it is now. */
  lemma {:induction false} RewritePublishes(t: Store, up: Upstream, key: string, had: R.Option<Meta>, m: Meta)
    requires Published(t, up)
    ensures Published(RewrittenAs(t, key, had, m), up) <==> SpansRight(t, up, key, m.spans)
  {
    var u := RewrittenAs(t, key, had, m);
    assert u.bodies == t.bodies && u.metas == t.metas[key := m];
    WrittenPublishes(t, u, up, key, m);
  }

  lemma {:induction false} WrittenPublishes(t: Store, u: Store, up: Upstream, key: string, m: Meta)
    requires Published(t, up) && u.bodies == t.bodies && u.metas == t.metas[key := m]
    ensures Published(u, up) <==> SpansRight(t, up, key, m.spans)
  {
    if SpansRight(t, up, key, m.spans) {
      forall k | k in u.metas ensures SpansRight(u, up, k, u.metas[k].spans) {
        if k != key { assert SpansRight(t, up, k, t.metas[k].spans); }
      }
    }
    if Published(u, up) {
      assert key in u.metas && u.metas[key] == m;
      assert SpansRight(u, up, key, u.metas[key].spans);
    }
  }

  /** A remove between StoreRedirect's read and its write: the entry comes back with its spans and without a body, and
      under a quota neither its bytes nor the entry are counted. */
  lemma {:induction false} RemovedUnderRedirect(s: Store, up: Upstream, key: string, r: Redirect, x: int)
    requires Published(s, up) && key in s.metas && Covered(s.metas[key].spans, x)
    ensures var u := RewrittenAs(RemoveEntry(s, key), key, R.Some(s.metas[key]), RedirectMeta(s, key, r));
            && key in u.metas && u.metas[key].spans == s.metas[key].spans && key !in u.bodies && !Published(u, up)
            && (s.maxBytes > 0 && DiskCounted(s) ==> Drifted(u, -(TotalAt(s, key) as int), -1))
  {
    var t, m := RemoveEntry(s, key), RedirectMeta(s, key, r);
    RemovedPublished(s, up, key);
    assert !Right(t, up, key, x) && m.spans == s.metas[key].spans;
    RewritePublishes(t, up, key, R.Some(s.metas[key]), m);
    if s.maxBytes > 0 && DiskCounted(s) {
      RemoveCounted(s, key);
      RewriteDrift(t, key, R.Some(s.metas[key]), m);
    }
  }

  lemma {:induction false} RemovedPublished(s: Store, up: Upstream, key: string)
    requires Published(s, up) && key in s.metas
    ensures Published(RemoveEntry(s, key), up)
  {
    var t := RemoveEntry(s, key);
    forall k | k in t.metas ensures SpansRight(t, up, k, t.metas[k].spans) {
      assert SpansRight(s, up, k, s.metas[k].spans);
    }
  }

  // ---- PurgeOrTrim ------------------------------------------------------------------------

  function RemovedAs(t: Store, key: string, m: Meta): Store {
    t.(metas := t.metas - {key},
       bodies := t.bodies - {key},
       metaCache := R.Deleted(t.metaCache, key),
       used := if t.maxBytes > 0 && Freed(m) > 0 then t.used - Freed(m) else t.used,
       count := if t.maxBytes > 0 then t.count - 1 else t.count)
  }

  /** The second half of a purge: what was decided on the meta read earlier is done to the entry as it is now. */
  function PurgedAs(t: Store, key: string, m: Meta, org: string, name: string): Store {
    match Decide(m, org, name)
    case Keep => t
    case Trim(trimmed) => TrimEntry(t, key, trimmed)
    case Remove => RemovedAs(t, key, m)
  }

  /** With nothing in between the halves make the purge of the entry. */
  lemma {:induction false} PurgedAsRead(s: Store, key: string, org: string, name: string)
    requires key in s.metas
    ensures PurgedAs(s, key, s.metas[key], org, name) == PurgeEntry(s, key, org, name)
  {
  }

  /** How far usedBytes and entryCount are from the disk. */
  ghost predicate Drifted(u: Store, bytes: int, entries: int) {
    u.used - SumBytes(u.metas) == bytes && u.count - |u.metas| == entries
  }

  lemma {:induction false} TrimDrift(t: Store, key: string, m: Meta)
    requires DiskCounted(t)
    ensures Drifted(TrimEntry(t, key, m), TotalAt(t, key) - Bytes(m), if key in t.metas then 0 else -1)
  {
    SumUpdate(t.metas, Bytes, key, m);
    assert t.metas[key := m].Keys == t.metas.Keys + {key};
  }

  lemma {:induction false} RemoveDrift(t: Store, key: string, m: Meta)
    requires t.maxBytes > 0 && DiskCounted(t)
    ensures Drifted(RemovedAs(t, key, m), TotalAt(t, key) - Bytes(m), if key in t.metas then 0 else -1)
  {
    if key in t.metas {
      SumWithout(t.metas, Bytes, key);
      assert (t.metas - {key}).Keys == t.metas.Keys - {key};
    } else {
      assert t.metas - {key} == t.metas;
    }
  }

  /** Whatever is decided, the counters end up off by exactly what the entry changed by since it was read. */
  lemma {:induction false} PurgeDrift(t: Store, key: string, m: Meta, org: string, name: string)
    requires t.maxBytes > 0 && DiskCounted(t) && !Decide(m, org, name).Keep?
    ensures Drifted(PurgedAs(t, key, m, org, name), TotalAt(t, key) - Bytes(m), if key in t.metas then 0 else -1)
  {
    hide Drifted, DiskCounted, TrimEntry, RemovedAs, Decide, Bytes, TotalAt;
    match Decide(m, org, name)
    case Trim(trimmed) =>
      TrimKeepsBytes(m, org, name, trimmed);
      TrimDrift(t, key, trimmed);
    case Remove => RemoveDrift(t, key, m);
  }

  lemma {:induction false} TrimKeepsBytes(m: Meta, org: string, name: string, trimmed: Meta)
    requires Decide(m, org, name) == Trim(trimmed)
    ensures Bytes(trimmed) == Bytes(m)
  {
    DecideIsRight(m, org, name);
  }

  /** Over every run between the halves: the drift is the change of the entry's total, and the entry itself if it is
      gone; there is none exactly when the entry is still there with the total it had. */
  lemma {:induction false} PurgeApart(st: State, steps: seq<Step>, key: string, org: string, name: string)
    requires Counted(st) && SyncedRun(steps) && key in st.store.metas && !Decide(st.store.metas[key], org, name).Keep?
    ensures var m, t := st.store.metas[key], Run(st, steps).store;
            var u := PurgedAs(t, key, m, org, name);
            && Drifted(u, TotalAt(t, key) - Bytes(m), if key in t.metas then 0 else -1)
            && (Drifted(u, 0, 0) <==> key in t.metas && Bytes(t.metas[key]) == Bytes(m))
  {
    hide Next, PurgedAs, Decide, DiskCounted, Bytes, SumBytes;
    RunCounted(st, steps);
    PurgeDrift(Run(st, steps).store, key, st.store.metas[key], org, name);
  }

  /** A commit between the halves that changes the recorded total is such a run: usedBytes stays off by the
      difference. */
  lemma {:induction false} TotalBetween(st: State, id: nat, org: string, name: string)
    requires Counted(st) && id in st.writers && st.writers[id].phase == Closing && st.writers[id].key in st.store.metas
    requires !Decide(st.store.metas[st.writers[id].key], org, name).Keep?
    ensures var w, s := st.writers[id], st.store;
            var t := Run(st, [CommitStep(id, Done)]).store;
            Drifted(PurgedAs(t, w.key, s.metas[w.key], org, name),
                    Bytes(CommitMeta(Base(s, w), w)) - Bytes(s.metas[w.key]), 0)
  {
    hide Next, PurgedAs, CommitMeta, Drifted, Commit, Counted, Decide, Base, Bytes;
    CommitOnly(st, id);
    PurgeApart(st, [CommitStep(id, Done)], st.writers[id].key, org, name);
  }

  /** Trimming writes the spans of the meta read earlier: published bytes stay right exactly when those spans are right
      in the body as it is now. */
  lemma {:induction false} TrimPublishes(t: Store, up: Upstream, key: string, m: Meta, org: string, name: string)
    requires Published(t, up) && Decide(m, org, name).Trim?
    ensures var u := PurgedAs(t, key, m, org, name);
            key in u.metas && u.metas[key].spans == m.spans && (Published(u, up) <==> SpansRight(t, up, key, m.spans))
  {
    DecideIsRight(m, org, name);
    var u := PurgedAs(t, key, m, org, name);
    assert u.metas[key].spans == m.spans && u.bodies == t.bodies;
    WrittenPublishes(t, u, up, key, u.metas[key]);
  }

  /** After a remove between the halves they are not: the trimmed entry comes back, with spans and without a body. */
  lemma {:induction false} RemovedBetween(s: Store, up: Upstream, key: string, org: string, name: string, x: int)
    requires Published(s, up) && key in s.metas && Covered(s.metas[key].spans, x)
    requires Decide(s.metas[key], org, name).Trim?
    ensures var u := PurgedAs(RemoveEntry(s, key), key, s.metas[key], org, name);
            key in u.metas && u.metas[key].spans == s.metas[key].spans && key !in u.bodies && !Published(u, up)
  {
    var t, m := RemoveEntry(s, key), s.metas[key];
    DecideIsRight(m, org, name);
    RemovedPublished(s, up, key);
    assert !Right(t, up, key, x);
    TrimPublishes(t, up, key, m, org, name);
  }
}
