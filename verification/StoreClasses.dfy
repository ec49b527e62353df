/** Store and SegmentWriter of internal/cache/store.go, updating their fields in the order the source does. Each method
    is proved to take the store and the writer through the transitions of StoreModel. */
module StoreClasses {
  import opened CacheMeta
  import opened Owners
  import opened Spans
  import M = StoreModel
  import R = Recency

  /** A body file. Removing its directory does not take it from a writer that has it open. */
  class BodyFile {
    var data: seq<M.Byte>

    constructor ()
      ensures data == []
    {
      data := [];
    }
  }

  class DiskStore {
    const maxBytes: int
    const metaCap: nat
    var metas: map<string, Meta>
    var bodies: map<string, BodyFile>
    var metaCache: R.Contents<Meta>
    var usedBytes: int
    var reservedBytes: int
    var entryCount: int

    /** Different keys have different files. */
    ghost predicate Valid()
      reads this`bodies
    {
      forall j, k :: j in bodies && k in bodies && j != k ==> bodies[j] != bodies[k]
    }

    ghost function Files(): map<string, seq<M.Byte>>
      reads this`bodies, bodies.Values
    {
      map k | k in bodies :: bodies[k].data
    }

    ghost function Value(): M.Store
      reads this, bodies.Values
    {
      M.Store(maxBytes, metaCap, metas, Files(), metaCache, usedBytes, reservedBytes, entryCount)
    }

    constructor (maxBytes: int, metaCap: nat)
      ensures Valid() && this.maxBytes == maxBytes && this.metaCap == metaCap
      ensures Value() == M.Store(maxBytes, metaCap, map[], map[], R.Empty(), 0, 0, 0)
    {
      this.maxBytes, this.metaCap := maxBytes, metaCap;
      metas, bodies, metaCache, usedBytes, reservedBytes, entryCount := map[], map[], R.Empty(), 0, 0, 0;
    }

    method ReserveQuota(n: int) returns (ok: bool)
      modifies this`reservedBytes
      ensures (Value(), ok) == M.Reserve(old(Value()), n)
    {
      if maxBytes <= 0 || n <= 0 {
        return true;
      }
      if usedBytes >= maxBytes || usedBytes + reservedBytes + n > maxBytes {
        return false;
      }
      reservedBytes := reservedBytes + n;
      return true;
    }

    method ReleaseReservation(n: int)
      modifies this`reservedBytes
      ensures Value() == M.Release(old(Value()), n)
    {
      if n <= 0 {
        return;
      }
      reservedBytes := reservedBytes - n;
    }

    /** writeMetaLocked, the cache refresh and accountMetaTransition, with the I/O outcome. */
    method RewriteMeta(key: string, m: Meta, o: M.Outcome) returns (grew: nat)
      modifies this`metas, this`metaCache, this`usedBytes, this`entryCount
      ensures (Value(), grew) == M.Rewrite(old(Value()), key, m, o)
    {
      hide R.Added;
      if o.NotWritten? {
        return 0;
      }
      var existed := key in metas;
      var oldTotal := if existed then Bytes(metas[key]) else 0;
      metas := metas[key := m];
      if o.NotSynced? {
        return 0;
      }
      metaCache := R.Added(metaCache, metaCap, key, m);
      if maxBytes <= 0 {
        return 0;
      }
      var newTotal := Bytes(m);
      if newTotal != oldTotal {
        usedBytes := usedBytes + (newTotal - oldTotal);
      }
      if !existed {
        entryCount := entryCount + 1;
      }
      if newTotal > oldTotal {
        return newTotal - oldTotal;
      }
      return 0;
    }

    /** LoadMeta. fails says that meta.json cannot be read or parsed, for another reason than that it is missing. */
    method LoadMeta(key: string, fails: bool) returns (m: R.Option<Meta>, err: bool)
      modifies this`metaCache
      ensures err <==> fails && key !in old(metaCache).vals
      ensures err ==> Value() == old(Value()) && m == R.None
      ensures !err ==> (Value(), m) == M.LoadMeta(old(Value()), key)
    {
      err := false;
      if key in metaCache.vals {
        m := R.Some(metaCache.vals[key]);
        metaCache := R.Touched(metaCache, key);
        return;
      }
      if fails {
        return R.None, true;
      }
      if key !in metas {
        return R.None, false;
      }
      m := R.Some(metas[key]);
      metaCache := R.Added(metaCache, metaCap, key, metas[key]);
    }

    method StoreAlias(aliasKey: string, canonicalKey: string, host: string, path: string, rawQuery: string,
                      o: M.Outcome)
      modifies this`metas, this`metaCache, this`usedBytes, this`entryCount
      ensures Value() == M.StoreAlias(old(Value()), aliasKey, canonicalKey, host, path, rawQuery, o)
    {
      if aliasKey == "" || canonicalKey == "" || aliasKey == canonicalKey {
        return;
      }
      if aliasKey in metas && metas[aliasKey].aliasOf == "" {
        return;
      }
      var _ := RewriteMeta(aliasKey, M.AliasMeta(canonicalKey, host, path, rawQuery), o);
    }

    method StoreRedirect(key: string, r: M.Redirect, o: M.Outcome)
      modifies this`metas, this`metaCache, this`usedBytes, this`entryCount
      ensures Value() == M.StoreRedirect(old(Value()), key, r, o)
    {
      if !M.IsRedirectStatus(r.status) || r.location == "" {
        return;
      }
      var meta := if key in metas then metas[key] else Meta("", "", "", [], Unknown, "", "", 0, "", map[], "", "", []);
      meta := meta.(host := r.host, path := r.path, rawQuery := r.rawQuery, status := r.status, location := r.location);
      if r.contentType != "" {
        meta := meta.(contentType := r.contentType);
      }
      if r.etag != "" {
        meta := meta.(etag := r.etag);
      }
      meta := meta.(extraHeaders := M.MergeHeaders(meta.extraHeaders, r.extraHeaders));
      assert meta == M.RedirectMeta(Value(), key, r);
      var _ := RewriteMeta(key, meta, o);
    }

    /** PurgeOrTrim over the listed entries with the admin handler's decision. */
    method PurgeOrTrim(keys: seq<string>, org: string, name: string, faults: map<string, M.EntryFault>)
      returns (res: M.PurgeResult, stop: M.Stop)
      requires Valid()
      modifies this`metas, this`bodies, this`metaCache, this`usedBytes, this`entryCount
      ensures Valid() && M.Walk(Value(), res, stop) == M.PurgeWalk(old(Value()), keys, org, name, faults)
    {
      hide M.Visited;
      res, stop := M.PurgeResult(0, 0, 0), M.RanThrough;
      for i := 0 to |keys|
        invariant Valid() && (forall k :: k in bodies ==> k in old(bodies) && bodies[k] == old(bodies)[k])
        invariant M.Walk(Value(), res, stop) == M.PurgeWalk(old(Value()), keys[..i], org, name, faults)
        invariant stop == M.RanThrough
      {
        M.WalkNext(old(Value()), keys, i, org, name, faults);
        res, stop := PurgeOne(keys[i], org, name, res, M.FaultAt(faults, keys[i]));
        if stop != M.RanThrough {
          M.WalkStops(old(Value()), keys, i + 1, org, name, faults);
          return;
        }
      }
      assert keys[..|keys|] == keys;
    }

    /** One entry of the walk. */
    method PurgeOne(key: string, org: string, name: string, res: M.PurgeResult, fault: M.EntryFault)
      returns (r: M.PurgeResult, stop: M.Stop)
      requires Valid()
      modifies this`metas, this`bodies, this`metaCache, this`usedBytes, this`entryCount
      ensures Valid() && (forall k :: k in bodies ==> k in old(bodies) && bodies[k] == old(bodies)[k])
      ensures M.Walk(Value(), r, stop) == M.Visited(old(Value()), res, key, org, name, fault)
    {
      hide Decide, M.RemoveEntry, R.Added;
      r, stop := res, M.RanThrough;
      if key !in metas || fault.Unreadable? {
        return;
      }
      match Decide(metas[key], org, name)
      case Keep =>
      case Trim(m) =>
        if fault.NotTrimmed? {
          return r, M.AtTrim(key);
        }
        metas := metas[key := m];
        metaCache := R.Added(metaCache, metaCap, key, m);
        r := r.(trimmed := r.trimmed + 1);
      case Remove =>
        var freed := 0;
        if metas[key].total.Known? {
          freed := metas[key].total.bytes;
          r := r.(bytesFreed := r.bytesFreed + freed);
        }
        if fault.NotRemoved? {
          RemovePart(key, fault.metaGone, fault.bodyGone);
          return r, M.AtRemove(key, freed, fault.metaGone);
        }
        RemoveEntry(key, freed);
        r := r.(purged := r.purged + 1);
    }

    /** A removal of the directory that failed part way. */
    method RemovePart(key: string, metaGone: bool, bodyGone: bool)
      requires Valid()
      modifies this`metas, this`bodies
      ensures Valid() && (forall k :: k in bodies ==> k in old(bodies) && bodies[k] == old(bodies)[k])
      ensures Value() == M.PartlyRemoved(old(Value()), key, metaGone, bodyGone)
    {
      ghost var files := Files();
      if metaGone {
        metas := metas - {key};
      }
      if bodyGone {
        bodies := bodies - {key};
        assert Files() == files - {key};
      }
    }

    method RemoveEntry(key: string, freed: int)
      requires Valid() && key in metas && freed == M.Freed(metas[key])
      modifies this`metas, this`bodies, this`metaCache, this`usedBytes, this`entryCount
      ensures Valid() && (forall k :: k in bodies ==> k in old(bodies) && bodies[k] == old(bodies)[k])
      ensures Value() == M.RemoveEntry(old(Value()), key)
    {
      ghost var files := Files();
      metas, bodies := metas - {key}, bodies - {key};
      if maxBytes > 0 && freed > 0 {
        usedBytes := usedBytes - freed;
      }
      if maxBytes > 0 {
        entryCount := entryCount - 1;
      }
      metaCache := R.Deleted(metaCache, key);
      assert Files() == files - {key};
    }

    /** BeginSegment. On success w is the new writer, on its own open file. */
    method BeginSegment(key: string, p: M.Params, fault: M.Fault) returns (w: SegmentWriter?, why: M.Refusal)
      requires Valid()
      modifies this`reservedBytes, this`bodies, bodies.Values
      ensures Valid()
      ensures w != null ==> fresh(w) && w.Opened() && w.store == this
      ensures (Value(), if w != null then M.Started(w.Value()) else M.Refused(why))
              == M.Begin(old(Value()), key, p, fault)
    {
      w, why := null, M.BadParams;
      if !M.ValidParams(key, p) {
        return;
      }
      var reserved := M.ReservationFor(p);
      var ok := ReserveQuota(reserved);
      if !ok {
        return null, M.QuotaExceeded;
      }
      if fault.MkdirFails? || fault.OpenFails? {
        ReleaseReservation(reserved);
        return null, M.IoError;
      }
      var f := OpenBody(key);
      if p.total > 0 {
        if fault.TruncateFails? {
          ReleaseReservation(reserved);
          return null, M.IoError;
        }
        SetBody(key, f, M.Truncated(f.data, p.total));
      }
      if fault.SeekFails? {
        ReleaseReservation(reserved);
        return null, M.IoError;
      }
      w := new SegmentWriter(this, key, f, p, reserved,
                             reserved == 0 && maxBytes > 0 && p.total <= 0 && p.length <= 0);
    }

    /** Open the body file for reading and writing, creating it when it is missing. */
    method OpenBody(key: string) returns (f: BodyFile)
      requires Valid()
      modifies this`bodies
      ensures Valid() && key in bodies && bodies[key] == f && (f in old(bodies.Values) || fresh(f))
      ensures Value() == old(Value()).(bodies := old(Value()).bodies[key := M.BodyAt(old(Value()), key)])
    {
      if key in bodies {
        f := bodies[key];
        assert old(Value()).bodies[key := M.BodyAt(old(Value()), key)] == old(Value()).bodies;
        return;
      }
      f := new BodyFile();
      bodies := bodies[key := f];
    }

    /** Change the content of one body file. */
    method SetBody(key: string, f: BodyFile, data: seq<M.Byte>)
      requires Valid() && key in bodies && bodies[key] == f
      modifies f
      ensures Value() == old(Value()).(bodies := old(Value()).bodies[key := data])
    {
      f.data := data;
    }
  }

  class SegmentWriter {
    const store: DiskStore
    const key: string
    const f: BodyFile
    const params: M.Params
    var written: nat
    var lastCheckpoint: nat
    var phase: M.Phase
    var owed: int
    var reserved: int
    const dynamicQuota: bool

    constructor (store: DiskStore, key: string, f: BodyFile, params: M.Params, reserved: int, dynamicQuota: bool)
      ensures this.store == store && this.key == key && this.f == f && this.params == params
      ensures written == 0 && lastCheckpoint == 0 && phase == M.Open && owed == 0
      ensures this.reserved == reserved && this.dynamicQuota == dynamicQuota
    {
      this.store, this.key, this.f, this.params := store, key, f, params;
      written, lastCheckpoint, phase, owed := 0, 0, M.Open, 0;
      this.reserved, this.dynamicQuota := reserved, dynamicQuota;
    }

    /** The file still lives under the key, or it is no file of the store any more. */
    ghost predicate Opened()
      reads this, store
    {
      store.Valid() && params.start >= 0 && (f in store.bodies.Values ==> key in store.bodies && store.bodies[key] == f)
    }

    ghost function Value(): M.Writer
      reads this, store
    {
      M.Writer(key, params, written, lastCheckpoint, reserved, dynamicQuota, phase, owed,
               key in store.bodies && store.bodies[key] == f)
    }

    method ReleaseReserved(n: int)
      modifies this`reserved, store`reservedBytes
      ensures (store.Value(), Value()) == M.ReleaseReserved(old(store.Value()), old(Value()), n)
    {
      if n <= 0 || reserved <= 0 {
        return;
      }
      var k := n;
      if k > reserved {
        k := reserved;
      }
      store.ReleaseReservation(k);
      reserved := reserved - k;
    }

    method TakeQuota(n: nat) returns (ok: bool)
      modifies this`reserved, store`reservedBytes
      ensures (store.Value(), Value(), ok) == M.TakeQuota(old(store.Value()), old(Value()), n)
    {
      if !dynamicQuota {
        return true;
      }
      ok := store.ReserveQuota(n);
      if ok {
        reserved := reserved + n;
      }
    }

    /** The positioned write through the writer's own descriptor. */
    method PutBytes(p: seq<M.Byte>)
      requires Opened()
      modifies f
      ensures Value() == old(Value())
      ensures store.Value() == M.PutBytes(old(store.Value()), Value(), p)
    {
      var data := if p == [] then f.data else M.WroteAt(f.data, params.start + written, p);
      if key in store.bodies && store.bodies[key] == f {
        store.SetBody(key, f, data);
        assert p == [] ==> store.Value().bodies == old(store.Value()).bodies;
      } else {
        f.data := data;
      }
    }

    /** The reserve-and-write part of Write; the filesystem takes the first n bytes. */
    method WriteBytes(p: seq<M.Byte>, n: nat) returns (taken: nat)
      requires Opened() && n <= |p|
      modifies this`written, this`reserved, store`reservedBytes, f
      ensures Opened()
      ensures (store.Value(), Value()) == M.WriteBytes(old(store.Value()), old(Value()), p, n)
      ensures taken == written - old(written)
    {
      hide M.PutBytes;
      if |p| == 0 {
        return 0;
      }
      var ok := TakeQuota(|p|);
      if !ok {
        return 0;
      }
      PutBytes(p[..n]);
      Settle(n, |p| - n);
      return n;
    }

    /** Give back what a short write did not use, and advance. */
    method Settle(n: nat, rest: nat)
      modifies this`written, this`reserved, store`reservedBytes
      ensures var (s, w) := M.ReleaseReserved(old(store.Value()), old(Value()), if dynamicQuota then rest else 0);
              store.Value() == s && Value() == w.(written := w.written + n)
    {
      ReleaseReserved(if dynamicQuota then rest else 0);
      written := written + n;
    }

    method Checkpoint(wrote: bool)
      requires Opened()
      modifies this`lastCheckpoint, this`reserved
      modifies store`metas, store`metaCache, store`usedBytes, store`entryCount, store`reservedBytes
      ensures Opened()
      ensures (store.Value(), Value()) == M.Checkpoint(old(store.Value()), old(Value()), wrote)
    {
      hide M.SegmentMeta, M.Publish, M.ReleaseReserved;
      if written == lastCheckpoint {
        return;
      }
      var base := if key in store.metas then store.metas[key] else M.FreshMeta(params);
      var meta := M.SegmentMeta(base, params, written);
      if !wrote {
        return;
      }
      var accounted := store.RewriteMeta(key, meta, M.Done);
      ReleaseReserved(accounted);
      lastCheckpoint := written;
    }

    method Write(p: seq<M.Byte>, n: nat, interval: int, wrote: bool) returns (taken: nat)
      requires Opened() && n <= |p|
      modifies this`written, this`lastCheckpoint, this`reserved, f
      modifies store`metas, store`metaCache, store`usedBytes, store`entryCount, store`reservedBytes
      ensures Opened()
      ensures (store.Value(), Value()) == M.WriteAll(old(store.Value()), old(Value()), p, n, interval, wrote)
    {
      taken := WriteBytes(p, n);
      if taken == |p| && |p| > 0 && interval > 0 && written - lastCheckpoint >= interval {
        Checkpoint(wrote);
      }
    }

    method Commit(o: M.Outcome)
      requires Opened()
      modifies this`reserved, this`phase
      modifies store`metas, store`metaCache, store`usedBytes, store`entryCount, store`reservedBytes
      ensures Opened()
      ensures (store.Value(), Value()) == M.Commit(old(store.Value()), old(Value()), o)
    {
      hide M.FinalMeta, M.Rewrite, M.ReleaseReserved;
      var base := if key in store.metas then store.metas[key] else M.FreshMeta(params);
      var meta := M.FinalMeta(base, params, written);
      var accounted := store.RewriteMeta(key, meta, o);
      ReleaseReserved(accounted);
      phase := M.Committed;
    }

    method Close(o: M.Outcome)
      requires Opened()
      modifies this`reserved, this`phase, this`owed
      modifies store`metas, store`metaCache, store`usedBytes, store`entryCount, store`reservedBytes
      ensures Opened()
      ensures (store.Value(), Value()) == M.CloseAll(old(store.Value()), old(Value()), o)
    {
      if phase != M.Open {
        return;
      }
      phase, owed := M.Closing, reserved;
      ghost var s1, w1 := store.Value(), Value();
      assert s1 == old(store.Value()) && w1 == M.StartClose(old(Value()));
      Commit(o);
      ghost var s2, w2 := store.Value(), Value();
      assert (s2, w2) == M.Commit(s1, w1, o) && w2.owed == owed;
      ReleaseReserved(owed);
    }
  }
}
