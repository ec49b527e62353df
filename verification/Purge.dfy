/** What a purge of one model does to the whole cache (PurgeOrTrim with the admin handler's decision). */
module PurgeSafety {
  import opened CacheMeta
  import opened Owners
  import opened StoreModel
  import opened ContentSafety
  import opened QuotaCounters
  import opened Spans

  /** The walk of PurgeOrTrim sees every entry once. */
  ghost predicate Lists(s: Store, keys: seq<string>) {
    && (forall k :: k in s.metas <==> k in keys)
    && (forall i, j :: 0 <= i < j < |keys| ==> keys[i] != keys[j])
  }

  ghost predicate NamesOwner(m: Meta, org: string, name: string) {
    Matches(m.originPath, org, name) || exists p :: p in m.originPaths && Matches(p, org, name)
  }

  ghost predicate HasOtherOwner(m: Meta, org: string, name: string) {
    NamesAnother(m.originPath, org, name) || exists p :: p in m.originPaths && NamesAnother(p, org, name)
  }

  /** An entry on disk: its metadata, and its body if it has one. */
  ghost predicate SameEntry(s: Store, t: Store, key: string) {
    && (key in s.metas <==> key in t.metas) && (key in s.metas ==> s.metas[key] == t.metas[key])
    && (key in s.bodies <==> key in t.bodies) && (key in s.bodies ==> s.bodies[key] == t.bodies[key])
  }

  /** An entry is as the purge of (org, name) should leave it. */
  ghost predicate Purged(s: Store, t: Store, key: string, org: string, name: string)
    requires key in s.metas
  {
    var m := s.metas[key];
    match Decide(m, org, name)
    case Keep => SameEntry(s, t, key)
    case Remove => key !in t.metas && key !in t.bodies
    case Trim(m') =>
      key in t.metas && t.metas[key] == m' && (key in s.bodies <==> key in t.bodies)
      && (key in s.bodies ==> s.bodies[key] == t.bodies[key])
  }

  lemma {:induction false} OtherEntriesStay(s: Store, key: string, org: string, name: string, other: string)
    requires other != key
    ensures SameEntry(s, PurgeEntry(s, key, org, name), other)
  {
  }

  lemma {:induction false} EntryPurged(s: Store, key: string, org: string, name: string)
    requires key in s.metas
    ensures Purged(s, PurgeEntry(s, key, org, name), key, org, name)
  {
  }

  /** Part way through the walk: visited entries are purged, the others untouched. */
  lemma {:induction false} WalkPurges(s: Store, keys: seq<string>, org: string, name: string, key: string)
    requires forall i, j :: 0 <= i < j < |keys| ==> keys[i] != keys[j]
    ensures key !in keys || key !in s.metas ==> SameEntry(s, PurgeAll(s, keys, org, name), key)
    ensures key in keys && key in s.metas ==> Purged(s, PurgeAll(s, keys, org, name), key, org, name)
  {
    if keys != [] {
      var n := |keys| - 1;
      var front, last := keys[..n], keys[n];
      assert last !in front;
      assert key in keys <==> key in front || key == last;
      WalkPurges(s, front, org, name, key);
      var t := PurgeAll(s, front, org, name);
      if key == last {
        if key in s.metas { EntryPurged(t, key, org, name); }
      } else {
        OtherEntriesStay(t, last, org, name, key);
      }
    }
  }

  /** After a purge of (org, name): no surviving entry names that owner; an entry with another owner keeps everything
      but its owner fields, and its body; an owned entry without another owner is gone; the rest is untouched. */
  lemma {:induction false} PurgeIsExact(s: Store, keys: seq<string>, org: string, name: string)
    requires Lists(s, keys)
    ensures var t := PurgeAll(s, keys, org, name);
            && (forall k :: k in t.metas ==> k in s.metas && !NamesOwner(t.metas[k], org, name))
            && (forall k :: k in s.metas && HasOtherOwner(s.metas[k], org, name) ==>
                  && k in t.metas
                  && t.metas[k] == s.metas[k].(originPath := t.metas[k].originPath,
                                               originPaths := t.metas[k].originPaths)
                  && (k in s.bodies ==> k in t.bodies && t.bodies[k] == s.bodies[k]))
            && (forall k :: k in s.metas && !HasOtherOwner(s.metas[k], org, name) ==>
                  (k in t.metas <==> !OwnedBy(s.metas[k], org, name)))
            && (forall k :: k in s.metas && !OwnedBy(s.metas[k], org, name) ==> SameEntry(s, t, k))
  {
    var t := PurgeAll(s, keys, org, name);
    forall k
      ensures k in t.metas ==> k in s.metas && !NamesOwner(t.metas[k], org, name)
      ensures k in s.metas ==> Purged(s, t, k, org, name)
    {
      WalkPurges(s, keys, org, name, k);
      if k in s.metas { DecideIsRight(s.metas[k], org, name); }
    }
    forall k | k in s.metas
      ensures HasOtherOwner(s.metas[k], org, name) ==> !Decide(s.metas[k], org, name).Remove?
      ensures !HasOtherOwner(s.metas[k], org, name) ==>
                (Decide(s.metas[k], org, name).Remove? <==> OwnedBy(s.metas[k], org, name))
      ensures Decide(s.metas[k], org, name).Trim? ==>
                var t := Decide(s.metas[k], org, name).meta;
                t == s.metas[k].(originPath := t.originPath, originPaths := t.originPaths)
    {
      DecideIsRight(s.metas[k], org, name);
    }
  }

  /** Under a quota, the bytes a purge reports as freed are exactly what usedBytes drops by. */
  lemma {:induction false} FreedIsTheDrop(s: Store, keys: seq<string>, org: string, name: string)
    requires s.maxBytes > 0 && DiskCounted(s)
    ensures var t := PurgeAll(s, keys, org, name);
            t.maxBytes == s.maxBytes && DiskCounted(t) && Report(s, keys, org, name).bytesFreed == s.used - t.used
  {
    hide Decide, RemoveEntry, DiskCounted;
    if keys != [] {
      var n := |keys| - 1;
      FreedIsTheDrop(s, keys[..n], org, name);
      var t := PurgeAll(s, keys[..n], org, name);
      PurgeEntryCounted(t, keys[n], org, name);
      if keys[n] in t.metas { RemoveCounted(t, keys[n]); }
    }
  }

  // ---- walks with failures -----------------------------------------------------------

  /** The entries whose metadata the walk can read. */
  function Readable(keys: seq<string>, faults: map<string, EntryFault>): seq<string> {
    if keys == [] then []
    else
      var n := |keys| - 1;
      Readable(keys[..n], faults) + if FaultAt(faults, keys[n]).Unreadable? then [] else [keys[n]]
  }

  lemma {:induction false} OneMore(s: Store, keys: seq<string>, key: string, org: string, name: string)
    ensures PurgeAll(s, keys + [key], org, name) == PurgeEntry(PurgeAll(s, keys, org, name), key, org, name)
    ensures Report(s, keys + [key], org, name)
            == Tallied(Report(s, keys, org, name), PurgeAll(s, keys, org, name), key, org, name)
  {
    assert (keys + [key])[..|keys|] == keys;
  }

  /** One visit that goes on is the purge of that entry, or nothing when it cannot be read. */
  lemma {:induction false} VisitGoesOn(s: Store, r: PurgeResult, key: string, org: string, name: string, f: EntryFault)
    requires Visited(s, r, key, org, name, f).stop == RanThrough
    ensures Visited(s, r, key, org, name, f)
            == if f.Unreadable? then Walk(s, r, RanThrough)
               else Walk(PurgeEntry(s, key, org, name), Tallied(r, s, key, org, name), RanThrough)
  {
  }

  /** A walk that meets no failed action purges exactly the entries it can read and skips the others. */
  lemma {:induction false} WalkRanThrough(s: Store, keys: seq<string>, org: string, name: string,
                                          faults: map<string, EntryFault>)
    requires PurgeWalk(s, keys, org, name, faults).stop == RanThrough
    ensures var read := Readable(keys, faults);
            PurgeWalk(s, keys, org, name, faults)
            == Walk(PurgeAll(s, read, org, name), Report(s, read, org, name), RanThrough)
  {
    hide Visited, PurgeEntry, Tallied;
    if keys != [] {
      var n := |keys| - 1;
      var w, read := PurgeWalk(s, keys[..n], org, name, faults), Readable(keys[..n], faults);
      WalkRanThrough(s, keys[..n], org, name, faults);
      VisitGoesOn(w.store, w.report, keys[n], org, name, FaultAt(faults, keys[n]));
      OneMore(s, read, keys[n], org, name);
      assert read + [] == read;
    }
  }

  lemma {:induction false} PartCounted(s: Store, key: string, metaGone: bool, bodyGone: bool)
    requires DiskCounted(s) && key in s.metas
    ensures DiskCounted(PartlyRemoved(s, key, metaGone, bodyGone)) <==> !metaGone
  {
    assert (s.metas - {key}).Keys == s.metas.Keys - {key};
  }

  lemma {:induction false} VisitCounted(s: Store, r: PurgeResult, key: string, org: string, name: string, f: EntryFault)
    requires s.maxBytes > 0 && DiskCounted(s)
    ensures var w := Visited(s, r, key, org, name, f);
            && w.store.maxBytes == s.maxBytes
            && (w.report.bytesFreed - r.bytesFreed) - (s.used - w.store.used)
               == (if w.stop.AtRemove? then w.stop.freed else 0)
            && (DiskCounted(w.store) <==> !(w.stop.AtRemove? && w.stop.metaGone))
  {
    hide DiskCounted, RemoveEntry, TrimEntry;
    if key in s.metas && !f.Unreadable? {
      match Decide(s.metas[key], org, name)
      case Keep =>
      case Trim(m) => TrimmedCounts(s, key, org, name, m);
      case Remove => RemovedCounts(s, key, f);
    }
  }

  lemma {:induction false} TrimmedCounts(s: Store, key: string, org: string, name: string, m: Meta)
    requires s.maxBytes > 0 && DiskCounted(s) && key in s.metas && Decide(s.metas[key], org, name) == Trim(m)
    ensures DiskCounted(TrimEntry(s, key, m)) && TrimEntry(s, key, m).used == s.used
    ensures TrimEntry(s, key, m).maxBytes == s.maxBytes
  {
    DecideIsRight(s.metas[key], org, name);
    TrimCounted(s, key, m);
  }

  lemma {:induction false} RemovedCounts(s: Store, key: string, f: EntryFault)
    requires s.maxBytes > 0 && DiskCounted(s) && key in s.metas
    ensures f.NotRemoved? ==>
              var t := PartlyRemoved(s, key, f.metaGone, f.bodyGone);
              t.used == s.used && t.maxBytes == s.maxBytes && (DiskCounted(t) <==> !f.metaGone)
    ensures var t := RemoveEntry(s, key);
            DiskCounted(t) && s.used - t.used == Freed(s.metas[key]) && t.maxBytes == s.maxBytes
  {
    RemoveCounted(s, key);
    if f.NotRemoved? { PartCounted(s, key, f.metaGone, f.bodyGone); }
  }

  /** What a failed removal leaves published is right exactly when the meta is gone, the body is not, or nothing was
      published. */
  lemma {:induction false} PartPublished(s: Store, up: Upstream, key: string, metaGone: bool, bodyGone: bool)
    requires Published(s, up) && key in s.metas
    ensures Published(PartlyRemoved(s, key, metaGone, bodyGone), up) <==>
            metaGone || !bodyGone || forall x :: !Covered(s.metas[key].spans, x)
  {
    var t := PartlyRemoved(s, key, metaGone, bodyGone);
    forall k | k in t.metas && (k != key || !bodyGone)
      ensures SpansRight(t, up, k, t.metas[k].spans)
    {
      assert SpansRight(s, up, k, s.metas[k].spans);
    }
    if !metaGone && bodyGone {
      assert SpansRight(s, up, key, s.metas[key].spans);
      if x :| Covered(s.metas[key].spans, x) {
        assert !Right(t, up, key, x);
      }
    }
  }

  /** Otherwise the next fetch of the object makes those offsets read as zeros. */
  lemma {:induction false} PartPublishesZeros(s: Store, up: Upstream, key: string, p: Params, x: int)
    requires Published(s, up) && key in s.metas && Covered(s.metas[key].spans, x)
    requires var t := PartlyRemoved(s, key, false, true);
             Begin(t, key, p, NoFault).1.Started? && p.total == |up(key)|
    ensures PublishesZero(Begin(PartlyRemoved(s, key, false, true), key, p, NoFault).0, key, x)
  {
    var t := PartlyRemoved(s, key, false, true);
    assert Right(s, up, key, x);
    assert BodyAt(t, key) == [];
    assert Truncated([], p.total) == Zeros(p.total);
  }

  /** Under a quota, whatever fails: the report exceeds what usedBytes dropped by exactly the total of the entry whose
      removal failed, and the counters still describe the disk unless that entry's metadata is gone. */
  lemma {:induction false} WalkCounted(s: Store, keys: seq<string>, org: string, name: string,
                                       faults: map<string, EntryFault>)
    requires s.maxBytes > 0 && DiskCounted(s)
    ensures var w := PurgeWalk(s, keys, org, name, faults);
            && w.store.maxBytes == s.maxBytes
            && w.report.bytesFreed - (s.used - w.store.used) == (if w.stop.AtRemove? then w.stop.freed else 0)
            && (DiskCounted(w.store) <==> !(w.stop.AtRemove? && w.stop.metaGone))
  {
    hide Visited, DiskCounted;
    if keys != [] {
      var n := |keys| - 1;
      WalkCounted(s, keys[..n], org, name, faults);
      var w := PurgeWalk(s, keys[..n], org, name, faults);
      if w.stop == RanThrough {
        VisitCounted(w.store, w.report, keys[n], org, name, FaultAt(faults, keys[n]));
      }
    }
  }
}

/** Owner lists over whole runs. */
module OwnerSafety {
  import opened CacheMeta
  import opened Owners
  import opened StoreModel
  import opened StoreRuns
  import opened MetaCoherence
  import opened PurgeSafety

  /** Every owner list on disk is sorted, duplicate-free and bounded. */
  ghost predicate OwnersKept(s: Store) {
    forall k :: k in s.metas ==> WellKept(s.metas[k].originPaths)
  }

  lemma {:induction false} RewriteKeepsOwners(s: Store, key: string, m: Meta, o: Outcome)
    requires OwnersKept(s) && WellKept(m.originPaths)
    ensures OwnersKept(Rewrite(s, key, m, o).0)
  {
  }

  lemma {:induction false} SegmentKeepsOwners(s: Store, w: Writer, o: Outcome, wrote: bool)
    requires OwnersKept(s)
    ensures OwnersKept(Commit(s, w, o).0)
    ensures OwnersKept(Checkpoint(s, w, wrote).0)
  {
    WithOwnerKeeps(Base(s, w).originPaths, w.params.originPath);
    RewriteKeepsOwners(s, w.key, CommitMeta(Base(s, w), w), o);
    RewriteKeepsOwners(s, w.key, WithSegment(Base(s, w), w), Done);
  }

  lemma {:induction false} StepKeepsOwners(st: State, step: Step)
    requires OwnersKept(st.store)
    ensures OwnersKept(Next(st, step).store)
  {
    hide Begin, WriteBytes, Checkpoint, Commit, Rewrite, Decide, WellKept;
    var s := st.store;
    match step
    case BeginStep(_, key, p, f) => BeginMetas(s, key, p, f);
    case WriteStep(id, data, n) => if id in st.writers && n <= |data| { WriteMetas(s, st.writers[id], data, n); }
    case CheckpointStep(id, wrote) => if id in st.writers { SegmentKeepsOwners(s, st.writers[id], Done, wrote); }
    case CommitStep(id, o) => if id in st.writers { SegmentKeepsOwners(s, st.writers[id], o, true); }
    case RedirectStep(key, r, o) => RewriteKeepsOwners(s, key, RedirectMeta(s, key, r), o);
    case AliasStep(key, c, h, p, q, o) => RewriteKeepsOwners(s, key, AliasMeta(c, h, p, q), o);
    case PurgeStep(key, org, name) => if key in s.metas { DecideIsRight(s.metas[key], org, name); }
    case _ =>
  }

  /** In every run the owner list of every entry is sorted, duplicate-free and at most 64 long. */
  lemma {:induction false} RunKeepsOwners(st: State, steps: seq<Step>)
    requires OwnersKept(st.store)
    ensures OwnersKept(Run(st, steps).store)
  {
    if steps != [] {
      var n := |steps| - 1;
      RunKeepsOwners(st, steps[..n]);
      StepKeepsOwners(Run(st, steps[..n]), steps[n]);
    }
  }
}
