/** A cache hit takes three moments: the meta is loaded, a handle on the body file is acquired, and the file is read.
    Here the store of StoreRuns and the handle table of BodyHandles run side by side, and anything may happen in
    between. */
module HitRuns {
  import opened Recency
  import opened StoreModel
  import S = StoreRuns
  import H = BodyHandles

  /** The disk, the handle table, the removed body files of each key, oldest first, and for each handle how many files
      of its key had been removed when it was opened. */
  datatype Cache = Cache(disk: S.State, table: H.State, unlinked: map<string, seq<seq<Byte>>>, born: seq<nat>)

  function Removed(c: Cache, key: string): seq<seq<Byte>> {
    if key in c.unlinked then c.unlinked[key] else []
  }

  /** How many files of the key have been removed: the number of the file there now. */
  function Generation(c: Cache, key: string): nat {
    |Removed(c, key)|
  }

  /** The handle is open on the file that is under its key now. */
  predicate Current(c: Cache, id: nat) {
    id < |c.table.handles| && id < |c.born| && c.born[id] == Generation(c, c.table.handles[id].key)
  }

  /** What reading through the handle yields: the file it was opened on, wherever that is now. */
  function Content(c: Cache, id: nat): seq<Byte>
    requires id < |c.table.handles| && id < |c.born|
  {
    var key := c.table.handles[id].key;
    if c.born[id] < Generation(c, key) then Removed(c, key)[c.born[id]] else BodyAt(c.disk.store, key)
  }

  datatype Step = Disk(step: S.Step) | Handle(call: H.Step)

  /** Opening needs the file; the LRU's Delete happens only as part of a remove. */
  predicate Enabled(c: Cache, step: Step) {
    step.Handle? ==>
      && H.Enabled(c.table, step.call) && !step.call.Purge?
      && (step.call.Open? ==> step.call.key in c.disk.store.bodies)
  }

  /** A remove takes the file away from its key and the handle out of the LRU. */
  function RemoveNext(c: Cache, key: string, disk: S.State): Cache {
    c.(disk := disk, table := H.Purged(c.table, key),
       unlinked := c.unlinked[key := Removed(c, key) + [BodyAt(c.disk.store, key)]])
  }

  /** A crash takes every handle. */
  ghost function DiskNext(c: Cache, step: S.Step): Cache {
    if S.Removes(c.disk, step) then RemoveNext(c, step.key, S.Next(c.disk, step))
    else if step.CrashStep? then c.(disk := S.Next(c.disk, step), table := H.Start(), born := [])
    else c.(disk := S.Next(c.disk, step))
  }

  function HandleNext(c: Cache, cap: nat, call: H.Step): Cache
    requires H.Enabled(c.table, call)
  {
    c.(table := H.Next(c.table, cap, call), born := if call.Open? then c.born + [Generation(c, call.key)] else c.born)
  }

  ghost function Next(c: Cache, cap: nat, step: Step): Cache {
    if !Enabled(c, step) then c
    else
      match step
      case Disk(d) => DiskNext(c, d)
      case Handle(h) => HandleNext(c, cap, h)
  }

  ghost function Run(c: Cache, cap: nat, steps: seq<Step>): Cache
    decreases |steps|
  {
    if steps == [] then c else Run(Next(c, cap, steps[0]), cap, steps[1..])
  }

  // ---- handles in the LRU are on the current file -----------------------------------------

  /** The table is safe and the handles in the LRU are open on the current file of their key. */
  ghost predicate Live(c: Cache, cap: nat) {
    && H.Safe(c.table, cap) && |c.born| == |c.table.handles|
    && (forall k :: k in c.table.lru.vals ==> Current(c, c.table.lru.vals[k]))
  }

  /** A handle that leaves the LRU may leave it, and one that is published is on the current file, or loses the race for
      its key. */
  predicate Calm(c: Cache, cap: nat, step: Step) {
    Enabled(c, step) ==>
      match step
      case Disk(d) => S.Removes(c.disk, d) ==> H.Quiet(c.table, cap, H.Purge(d.key))
      case Handle(h) =>
        && H.Quiet(c.table, cap, h)
        && (h.Publish? ==> c.table.handles[h.id].key in c.table.lru.vals || Current(c, h.id))
  }

  /** A handle keeps its key, and stays on its file as long as no file of that key is removed. */
  predicate SameHandles(c: Cache, d: Cache) {
    && |c.table.handles| <= |d.table.handles| && |c.born| <= |d.born| && d.born[..|c.born|] == c.born
    && forall i :: 0 <= i < |c.table.handles| ==> d.table.handles[i].key == c.table.handles[i].key
  }

  lemma {:induction false} CurrentStays(c: Cache, d: Cache, id: nat)
    requires SameHandles(c, d) && Current(c, id)
    requires Generation(d, c.table.handles[id].key) == Generation(c, c.table.handles[id].key)
    ensures Current(d, id)
  {
    assert d.born[id] == d.born[..|c.born|][id];
  }

  lemma {:induction false} KeysStay(st: H.State, cap: nat, call: H.Step, i: nat)
    requires H.Enabled(st, call) && i < |st.handles|
    ensures |H.Next(st, cap, call).handles| == |st.handles| + if call.Open? then 1 else 0
    ensures H.Next(st, cap, call).handles[i].key == st.handles[i].key
  {
    match call
    case Publish(own) => H.PublishOn(st, cap, own, i);
    case Purge(key) => H.PurgeOn(st, key, i);
    case _ =>
  }

  lemma {:induction false} CallKeepsHandles(c: Cache, cap: nat, call: H.Step)
    requires H.Enabled(c.table, call) && |c.born| == |c.table.handles|
    ensures SameHandles(c, HandleNext(c, cap, call))
    ensures |HandleNext(c, cap, call).born| == |HandleNext(c, cap, call).table.handles|
  {
    var d := HandleNext(c, cap, call);
    HandleCount(c.table, cap, call);
    forall i: nat | i < |c.table.handles| ensures d.table.handles[i].key == c.table.handles[i].key {
      KeysStay(c.table, cap, call, i);
    }
  }

  lemma {:induction false} HandleCount(st: H.State, cap: nat, call: H.Step)
    requires H.Enabled(st, call)
    ensures |H.Next(st, cap, call).handles| == |st.handles| + if call.Open? then 1 else 0
  {
    match call
    case Publish(own) => H.PublishOn(st, cap, own, own);
    case Purge(key) =>
      if key in st.lru.vals { H.MarkedKeeps(st.handles, [Item(key, st.lru.vals[key])]); }
    case _ =>
  }

  /** What a call does to the LRU: its handles were there before, or the published one was being opened. */
  lemma {:induction false} LruAfter(st: H.State, cap: nat, call: H.Step, k: string)
    requires H.Safe(st, cap) && 1 <= cap && H.Enabled(st, call) && k in H.Next(st, cap, call).lru.vals
    ensures var id := H.Next(st, cap, call).lru.vals[k];
            (k in st.lru.vals && st.lru.vals[k] == id) || (call == H.Publish(id) && id in st.opening)
  {
    match call
    case Publish(own) =>
      var key := st.handles[own].key;
      if H.Held(st, key).None? { AddKeeps(st.lru, cap, key, own); }
    case _ =>
  }

  lemma {:induction false} LruAfterCall(c: Cache, cap: nat, call: H.Step, k: string)
    requires Live(c, cap) && 1 <= cap && Enabled(c, Handle(call)) && Calm(c, cap, Handle(call))
    requires k in H.Next(c.table, cap, call).lru.vals
    ensures Current(HandleNext(c, cap, call), H.Next(c.table, cap, call).lru.vals[k])
  {
    LruAfter(c.table, cap, call, k);
    CallKeepsHandles(c, cap, call);
    CurrentStays(c, HandleNext(c, cap, call), H.Next(c.table, cap, call).lru.vals[k]);
  }

  lemma {:induction false} CallLive(c: Cache, cap: nat, call: H.Step)
    requires Live(c, cap) && 1 <= cap && Enabled(c, Handle(call)) && Calm(c, cap, Handle(call))
    ensures Live(HandleNext(c, cap, call), cap)
  {
    hide Current, H.Safe, H.Next, SameHandles;
    var d := HandleNext(c, cap, call);
    H.StepSafe(c.table, cap, call);
    CallKeepsHandles(c, cap, call);
    forall k | k in d.table.lru.vals ensures Current(d, d.table.lru.vals[k]) {
      LruAfterCall(c, cap, call, k);
    }
  }

  /** Publishing a handle on a removed file puts it into the LRU. */
  lemma {:induction false} StaleEnters(c: Cache, cap: nat, id: nat)
    requires Live(c, cap) && 1 <= cap && H.Enabled(c.table, H.Publish(id))
    requires c.table.handles[id].key !in c.table.lru.vals && !Current(c, id)
    ensures !Live(HandleNext(c, cap, H.Publish(id)), cap)
  {
    var key, d := c.table.handles[id].key, HandleNext(c, cap, H.Publish(id));
    AddKeeps(c.table.lru, cap, key, id);
    CallKeepsHandles(c, cap, H.Publish(id));
    H.PublishOn(c.table, cap, id, id);
    assert d.table.lru.vals[key] == id && !Current(d, id);
  }

  /** So for calls on the handle table the condition is exact. */
  lemma {:induction false} CallExact(c: Cache, cap: nat, call: H.Step)
    requires Live(c, cap) && 1 <= cap && Enabled(c, Handle(call))
    ensures Live(HandleNext(c, cap, call), cap) <==> Calm(c, cap, Handle(call))
  {
    hide Current, H.Safe, H.Next, H.Quiet;
    H.StepExact(c.table, cap, call);
    if Calm(c, cap, Handle(call)) {
      CallLive(c, cap, call);
    } else if H.Quiet(c.table, cap, call) {
      StaleEnters(c, cap, call.id);
    }
  }

  lemma {:induction false} RemoveKeepsHandles(c: Cache, key: string, disk: S.State)
    ensures SameHandles(c, RemoveNext(c, key, disk))
    ensures |RemoveNext(c, key, disk).table.handles| == |c.table.handles|
  {
    if key in c.table.lru.vals { H.MarkedKeeps(c.table.handles, [Item(key, c.table.lru.vals[key])]); }
  }

  lemma {:induction false} StillInLru(st: H.State, cap: nat, key: string, k: string)
    requires H.Safe(st, cap) && k in H.Purged(st, key).lru.vals
    ensures k != key && k in st.lru.vals && st.lru.vals[k] == H.Purged(st, key).lru.vals[k]
  {
    if key in st.lru.vals { DeleteKeeps(st.lru, cap, key); }
  }

  lemma {:induction false} LruAfterRemove(c: Cache, cap: nat, key: string, disk: S.State, k: string)
    requires Live(c, cap) && k in H.Purged(c.table, key).lru.vals
    ensures Current(RemoveNext(c, key, disk), H.Purged(c.table, key).lru.vals[k])
  {
    StillInLru(c.table, cap, key, k);
    assert H.InLru(c.table, k);
    RemoveKeepsHandles(c, key, disk);
    CurrentStays(c, RemoveNext(c, key, disk), c.table.lru.vals[k]);
  }

  /** A remove keeps the LRU on current files, and the table safe exactly when the handle may leave. */
  lemma {:induction false} RemoveExact(c: Cache, cap: nat, key: string, disk: S.State)
    requires Live(c, cap) && 1 <= cap
    ensures Live(RemoveNext(c, key, disk), cap) <==> H.Quiet(c.table, cap, H.Purge(key))
  {
    hide Current, H.Safe, H.Quiet, H.Purged, SameHandles;
    var d := RemoveNext(c, key, disk);
    H.StepExact(c.table, cap, H.Purge(key));
    RemoveKeepsHandles(c, key, disk);
    forall k | k in d.table.lru.vals ensures Current(d, d.table.lru.vals[k]) {
      LruAfterRemove(c, cap, key, disk, k);
    }
  }

  /** One step of the store or of the handle table: the handles in the LRU stay on the current files, and the table
      safe, if and only if the step is calm. */
  lemma {:induction false} StepLive(c: Cache, cap: nat, step: Step)
    requires Live(c, cap) && 1 <= cap
    ensures Live(Next(c, cap, step), cap) <==> Calm(c, cap, step)
  {
    hide H.Quiet, Live, H.Start;
    if Enabled(c, step) {
      match step
      case Handle(call) => CallExact(c, cap, call);
      case Disk(d) =>
        if S.Removes(c.disk, d) {
          RemoveExact(c, cap, d.key, S.Next(c.disk, d));
        } else if d.CrashStep? {
          FreshTable(c, S.Next(c.disk, d), cap);
        } else {
          SameTable(c, DiskNext(c, d), cap);
        }
    }
  }

  lemma {:induction false} FreshTable(c: Cache, disk: S.State, cap: nat)
    ensures Live(c.(disk := disk, table := H.Start(), born := []), cap)
  {
  }

  lemma {:induction false} SameTable(c: Cache, d: Cache, cap: nat)
    requires Live(c, cap) && d.table == c.table && d.born == c.born && d.unlinked == c.unlinked
    ensures Live(d, cap)
  {
    forall k | k in d.table.lru.vals ensures Current(d, d.table.lru.vals[k]) {
      assert Current(c, c.table.lru.vals[k]);
    }
  }
}

/** What a hit delivers when its three moments lie apart. */
module HitDelivery {
  import opened Spans
  import opened CacheMeta
  import opened StoreModel
  import opened ContentSafety
  import opened MetaCoherence
  import opened Serving
  import opened HitRuns
  import Owners
  import S = StoreRuns
  import H = BodyHandles
  import Recency
  import HitSafety
  import HttpSyntax

  // ---- the body stays right while the key is not removed ----------------------------------------

  /** The step takes the key's file, or every handle, away. */
  predicate Takes(c: Cache, step: Step, key: string) {
    step.Disk? && ((S.Removes(c.disk, step.step) && step.step.key == key) || step.step.CrashStep?)
  }

  /** A writer's steps never spoil a right byte. */
  lemma {:induction false} WriterKeepsRight(st: S.State, step: S.Step, up: Upstream, key: string, x: int)
    requires step.WriteStep? || step.CheckpointStep? || step.CloseStep? || step.CommitStep? || step.FinishStep?
    requires Safe(st, up) && Faithful(st, step, up) && Right(st.store, up, key, x)
    ensures Right(S.Next(st, step).store, up, key, x)
  {
    if step.id in st.writers {
      var w := st.writers[step.id];
      match step
      case WriteStep(id, data, n) =>
        if w.phase == Phase.Open && n <= |data| { WriteKeeps(st.store, w, data, n, up); }
      case CheckpointStep(id, wrote) =>
        if w.written != w.lastCheckpoint { CheckpointFacts(st.store, w); }
      case CommitStep(id, o) => CommitFacts(st.store, w, o);
      case _ =>
    }
  }

  /** A right byte of a key stays right through every step that does not remove the key. */
  lemma {:induction false} RightStays(st: S.State, step: S.Step, up: Upstream, key: string, x: int)
    requires Safe(st, up) && Faithful(st, step, up) && !(S.Removes(st, step) && step.key == key)
    requires Right(st.store, up, key, x)
    ensures Right(S.Next(st, step).store, up, key, x)
  {
    match step
    case BeginStep(id, k, p, fault) => if id !in st.writers { BeginKeeps(st.store, k, p, fault, up); }
    case PurgeStep(k, org, name) => PurgeKeepsBody(st.store, k, org, name, key);
    case RedirectStep(_, _, _) => QuietBodies(st, step);
    case AliasStep(_, _, _, _, _, _) => QuietBodies(st, step);
    case LoadStep(_) => QuietBodies(st, step);
    case CrashStep => QuietBodies(st, step);
    case _ => WriterKeepsRight(st, step, up, key, x);
  }

  lemma {:induction false} QuietBodies(st: S.State, step: S.Step)
    requires step.RedirectStep? || step.AliasStep? || step.LoadStep? || step.CrashStep?
    ensures S.Next(st, step).store.bodies == st.store.bodies
  {
  }

  lemma {:induction false} PurgeKeepsBody(s: Store, k: string, org: string, name: string, key: string)
    requires !(k == key && k in s.metas && Owners.Decide(s.metas[k], org, name).Remove?)
    ensures key in s.bodies ==> key in PurgeEntry(s, k, org, name).bodies
                                && PurgeEntry(s, k, org, name).bodies[key] == s.bodies[key]
  {
  }

  lemma {:induction false} SpansStay(st: S.State, step: S.Step, up: Upstream, key: string, spans: seq<Span>)
    requires Safe(st, up) && Faithful(st, step, up) && !(S.Removes(st, step) && step.key == key)
    requires SpansRight(st.store, up, key, spans)
    ensures SpansRight(S.Next(st, step).store, up, key, spans)
  {
    forall x | Covered(spans, x) ensures Right(S.Next(st, step).store, up, key, x) {
      RightStays(st, step, up, key, x);
    }
  }

  // ---- runs between the moments of a hit ---------------------------------------------------

  ghost predicate Good(c: Cache, cap: nat, up: Upstream) {
    1 <= cap && Safe(c.disk, up) && Live(c, cap)
  }

  /** The world outside is faithful and the handle table calm. */
  ghost predicate Fine(c: Cache, cap: nat, step: Step, up: Upstream) {
    (step.Disk? ==> Faithful(c.disk, step.step, up)) && Calm(c, cap, step)
  }

  /** Steps of that kind, none of which takes the key's file away. */
  ghost predicate Clear(c: Cache, cap: nat, steps: seq<Step>, up: Upstream, key: string)
    decreases |steps|
  {
    steps != [] ==>
      && Fine(c, cap, steps[0], up) && !Takes(c, steps[0], key)
      && Clear(Next(c, cap, steps[0]), cap, steps[1..], up, key)
  }

  lemma {:induction false} DiskAfter(c: Cache, cap: nat, step: Step)
    ensures Next(c, cap, step).disk == if step.Disk? then S.Next(c.disk, step.step) else c.disk
  {
  }

  lemma {:induction false} StepGood(c: Cache, cap: nat, step: Step, up: Upstream)
    requires Good(c, cap, up) && Fine(c, cap, step, up)
    ensures Good(Next(c, cap, step), cap, up)
  {
    DiskAfter(c, cap, step);
    if step.Disk? { ContentSafety.StepSafe(c.disk, step.step, up); }
    StepLive(c, cap, step);
  }

  /** A handle of the key that is on the current file stays so. */
  lemma {:induction false} HandleStays(c: Cache, cap: nat, step: Step, key: string, id: nat)
    requires Live(c, cap) && !Takes(c, step, key) && Current(c, id) && c.table.handles[id].key == key
    ensures Current(Next(c, cap, step), id) && Next(c, cap, step).table.handles[id].key == key
  {
    var d := Next(c, cap, step);
    if Enabled(c, step) {
      match step
      case Handle(call) =>
        CallKeepsHandles(c, cap, call);
        CurrentStays(c, d, id);
      case Disk(move) =>
        if S.Removes(c.disk, move) {
          RemoveKeepsHandles(c, move.key, S.Next(c.disk, move));
          CurrentStays(c, d, id);
        }
    }
  }

  lemma {:induction false} SpansKept(c: Cache, cap: nat, steps: seq<Step>, up: Upstream, key: string, spans: seq<Span>)
    requires Good(c, cap, up) && Clear(c, cap, steps, up, key) && SpansRight(c.disk.store, up, key, spans)
    ensures Good(Run(c, cap, steps), cap, up) && SpansRight(Run(c, cap, steps).disk.store, up, key, spans)
    decreases |steps|
  {
    if steps != [] {
      StepGood(c, cap, steps[0], up);
      DiskAfter(c, cap, steps[0]);
      if steps[0].Disk? { SpansStay(c.disk, steps[0].step, up, key, spans); }
      SpansKept(Next(c, cap, steps[0]), cap, steps[1..], up, key, spans);
    }
  }

  // ---- acquiring the handle ------------------------------------------------------------------

  /** AcquireBody for the key ends: a hit in the LRU, or the publishing of a handle opened before. */
  predicate Acquires(c: Cache, call: H.Step, key: string) {
    && H.Enabled(c.table, call)
    && (call == H.Hit(key) || (call.Publish? && c.table.handles[call.id].key == key))
  }

  /** The handle it returns. */
  function Acquired(c: Cache, call: H.Step, key: string): nat
    requires Acquires(c, call, key)
  {
    if key in c.table.lru.vals then c.table.lru.vals[key] else call.id
  }

  lemma {:induction false} AcquiredIsCurrent(c: Cache, cap: nat, call: H.Step, key: string)
    requires 1 <= cap && Live(c, cap) && Acquires(c, call, key) && Calm(c, cap, Handle(call))
    ensures var d, id := Next(c, cap, Handle(call)), Acquired(c, call, key);
            Current(d, id) && d.table.handles[id].key == key && id in d.table.borrowed
  {
    var id := Acquired(c, call, key);
    if key in c.table.lru.vals { assert H.InLru(c.table, key); }
    CallKeepsHandles(c, cap, call);
    CurrentStays(c, HandleNext(c, cap, call), id);
  }

  // ---- the theorem ---------------------------------------------------------------------------

  /** tryServeFromCache decides on the meta alone that the range want is a hit. */
  ghost predicate Decided(m: Meta, rangeHdr: string, want: Span) {
    && !(IsRedirectStatus(m.status) && m.location != "") && m.spans != []
    && Wanted(m, rangeHdr) == HttpSyntax.Some(want) && CoversRange(m.spans, want.start, want.end)
  }

  /** The meta is loaded in state c and the range decided on it; then, after any steps that do not remove the key, a
      handle is acquired; then, after any further steps, removes of the key among them, the file is read through the
      handle. Unless the process crashes, exactly the upstream bytes of the range are read, and as long as the handle is
      not given back its file is open. */
  lemma {:induction false} HitDelivers(c: Cache, cap: nat, up: Upstream, key: string, m: Meta, rangeHdr: string,
                                       want: Span, before: seq<Step>, call: H.Step, after: seq<Step>)
    requires Good(c, cap, up) && Coherent(c.disk.store) && LoadMeta(c.disk.store, key).1 == Recency.Some(m)
    requires Decided(m, rangeHdr, want) && want.start < want.end
    requires var c0 := Next(c, cap, Disk(S.LoadStep(key)));
             && Clear(c0, cap, before, up, key)
             && var c1 := Run(c0, cap, before);
                && Acquires(c1, call, key) && Calm(c1, cap, Handle(call))
                && FineRun(Next(c1, cap, Handle(call)), cap, after, up) && NoCrash(after)
    ensures var c1 := Run(Next(c, cap, Disk(S.LoadStep(key))), cap, before);
            var id := Acquired(c1, call, key);
            var end := Run(Next(c1, cap, Handle(call)), cap, after);
            && id < |end.table.handles| && id < |end.born|
            && 0 <= want.start && want.end <= |up(key)|
            && Section(Content(end, id), want.start, want.end) == up(key)[want.start..want.end]
            && (id in end.table.borrowed ==> end.table.handles[id].closed == 0)
  {
    hide S.Next, Good, Live, Calm, Content, Decided;
    var c0 := Next(c, cap, Disk(S.LoadStep(key)));
    var c1 := Run(c0, cap, before);
    LoadGood(c, cap, up, key, m);
    SpansKept(c0, cap, before, up, key, m.spans);
    AcquiredIsCurrent(c1, cap, call, key);
    StepGood(c1, cap, Handle(call), up);
    DiskAfter(c1, cap, Handle(call));
    RangeCovered(m, rangeHdr, want);
    var c2, id := Next(c1, cap, Handle(call)), Acquired(c1, call, key);
    ReadThrough(c2, cap, up, key, m.spans, want.start, want.end, id, after);
  }

  lemma {:induction false} RangeCovered(m: Meta, rangeHdr: string, want: Span)
    requires Decided(m, rangeHdr, want)
    ensures CoversRange(m.spans, want.start, want.end)
  {
  }

  /** Loading a meta is a good step, and its spans are right in the body. */
  lemma {:induction false} LoadGood(c: Cache, cap: nat, up: Upstream, key: string, m: Meta)
    requires Good(c, cap, up) && Coherent(c.disk.store) && LoadMeta(c.disk.store, key).1 == Recency.Some(m)
    ensures var c0 := Next(c, cap, Disk(S.LoadStep(key)));
            Good(c0, cap, up) && SpansRight(c0.disk.store, up, key, m.spans)
  {
    LoadReadsDisk(c.disk.store, key);
    StepGood(c, cap, Disk(S.LoadStep(key)), up);
    DiskAfter(c, cap, Disk(S.LoadStep(key)));
    SpansStay(c.disk, S.LoadStep(key), up, key, m.spans);
  }

  /** A remove under a handle on the current file moves that file away whole. */
  lemma {:induction false} RemovedUnder(c: Cache, key: string, disk: S.State, id: nat)
    requires |c.born| == |c.table.handles| && Current(c, id) && c.table.handles[id].key == key
    ensures var d := RemoveNext(c, key, disk);
            |d.born| == |d.table.handles| && Stale(d, id) && Content(d, id) == BodyAt(c.disk.store, key)
  {
    var d := RemoveNext(c, key, disk);
    RemoveKeepsHandles(c, key, disk);
    assert d.born[id] == d.born[..|c.born|][id];
  }

  /** From the acquiring to the reading: the handle is on the current file, or that file has been removed as it was. */
  lemma {:induction false} ReadThrough(c: Cache, cap: nat, up: Upstream, key: string, spans: seq<Span>,
                                       start: int, end: int, id: nat, after: seq<Step>)
    requires Good(c, cap, up) && FineRun(c, cap, after, up) && NoCrash(after)
    requires Current(c, id) && c.table.handles[id].key == key
    requires SpansRight(c.disk.store, up, key, spans) && CoversRange(spans, start, end) && start < end
    ensures var d := Run(c, cap, after);
            && id < |d.table.handles| && id < |d.born|
            && 0 <= start && end <= |up(key)| && Section(Content(d, id), start, end) == up(key)[start..end]
            && (id in d.table.borrowed ==> d.table.handles[id].closed == 0)
    decreases |after|
  {
    HitSafety.SectionRight(c.disk.store, up, key, spans, start, end);
    RunGood(c, cap, after, up);
    H.SafeMeans(Run(c, cap, after).table, cap, id, key);
    if after != [] {
      var step, rest := after[0], after[1..];
      assert !(step.Disk? && step.step.CrashStep?) && NoCrash(rest) by { LaterSteps(after); }
      if Takes(c, step, key) {
        RemovedUnder(c, key, S.Next(c.disk, step.step), id);
        StaleRunKeeps(Next(c, cap, step), cap, rest, id);
      } else {
        StepGood(c, cap, step, up);
        DiskAfter(c, cap, step);
        if step.Disk? { SpansStay(c.disk, step.step, up, key, spans); }
        HandleStays(c, cap, step, key, id);
        ReadThrough(Next(c, cap, step), cap, up, key, spans, start, end, id, rest);
      }
    }
  }

  lemma {:induction false} LaterSteps(steps: seq<Step>)
    requires steps != [] && NoCrash(steps)
    ensures !(steps[0].Disk? && steps[0].step.CrashStep?) && NoCrash(steps[1..])
  {
    assert forall i :: 0 <= i < |steps[1..]| ==> steps[1..][i] == steps[i + 1];
  }

  /** Every state reached by such steps is one from which hits deliver. */
  lemma {:induction false} RunGood(c: Cache, cap: nat, steps: seq<Step>, up: Upstream)
    requires Good(c, cap, up) && FineRun(c, cap, steps, up)
    ensures Good(Run(c, cap, steps), cap, up)
    decreases |steps|
  {
    if steps != [] {
      StepGood(c, cap, steps[0], up);
      RunGood(Next(c, cap, steps[0]), cap, steps[1..], up);
    }
  }

  ghost predicate FineRun(c: Cache, cap: nat, steps: seq<Step>, up: Upstream)
    decreases |steps|
  {
    steps != [] ==> Fine(c, cap, steps[0], up) && FineRun(Next(c, cap, steps[0]), cap, steps[1..], up)
  }

  /** A process that has just come up, over any disk whose published bytes are right. */
  lemma {:induction false} StartGood(disk: S.State, cap: nat, up: Upstream)
    requires 1 <= cap && Safe(disk, up)
    ensures Good(Cache(disk, H.Start(), map[], []), cap, up)
  {
  }

  // ---- why the key must not be removed in between ------------------------------------------------

  lemma {:induction false} FreshBody(s: Store, key: string, p: Params)
    requires Begin(s, key, p, NoFault).1.Started? && p.total > 0 && key !in s.bodies
    ensures var t := Begin(s, key, p, NoFault).0; key in t.bodies && t.bodies[key] == Zeros(p.total)
  {
    assert BodyAt(s, key) == [];
    assert Truncated([], p.total) == Zeros(p.total);
  }

  /** From every safe state: the meta is loaded and its range decided; the key is removed; the
      next fetch of the object opens a new file. Both steps are faithful, and the decision made before now delivers
      zeros. */
  lemma {:induction false} RemovedInBetween(st: S.State, up: Upstream, key: string, rangeHdr: string,
                                            org: string, name: string, id: nat, p: Params)
    requires Safe(st, up) && key in st.store.metas && id !in st.writers
    requires S.Removes(st, S.PurgeStep(key, org, name)) && p.total == |up(key)|
    requires var r := FromMeta(st.store, key, st.store.metas[key], rangeHdr, false); r.Served? && r.start < r.end
    ensures var r := FromMeta(st.store, key, st.store.metas[key], rangeHdr, false);
            var removed := S.Next(st, S.PurgeStep(key, org, name));
            var begun := S.Next(removed, S.BeginStep(id, key, p, NoFault));
            && Faithful(st, S.PurgeStep(key, org, name), up) && Faithful(removed, S.BeginStep(id, key, p, NoFault), up)
            && (Begin(removed.store, key, p, NoFault).1.Started? ==>
                  FromMeta(begun.store, key, st.store.metas[key], rangeHdr, false)
                  == r.(body := Zeros(r.end - r.start)))
  {
    RemoveOrphans(st, key, org, name);
    var removed := S.Next(st, S.PurgeStep(key, org, name));
    assert removed.writers.Keys == st.writers.Keys;
    BeginsWriter(removed, id, key, p);
    ReopenedReadsZeros(st.store, up, key, rangeHdr, p);
  }

  lemma {:induction false} ReopenedReadsZeros(s: Store, up: Upstream, key: string, rangeHdr: string, p: Params)
    requires key in s.metas && SpansRight(s, up, key, s.metas[key].spans) && p.total == |up(key)|
    requires var r := FromMeta(s, key, s.metas[key], rangeHdr, false); r.Served? && r.start < r.end
    ensures var r := FromMeta(s, key, s.metas[key], rangeHdr, false);
            var (t, begun) := Begin(RemoveEntry(s, key), key, p, NoFault);
            begun.Started? ==> FromMeta(t, key, s.metas[key], rangeHdr, false) == r.(body := Zeros(r.end - r.start))
  {
    var r := FromMeta(s, key, s.metas[key], rangeHdr, false);
    HitSafety.SectionRight(s, up, key, s.metas[key].spans, r.start, r.end);
    var (t, begun) := Begin(RemoveEntry(s, key), key, p, NoFault);
    if begun.Started? {
      FreshBody(RemoveEntry(s, key), key, p);
      SameDecision(s, t, key, s.metas[key], rangeHdr);
      ZeroSection(p.total, r.start, r.end);
    }
  }

  /** The decision rests on the meta; only the bytes come from the file. */
  lemma {:induction false} SameDecision(s: Store, t: Store, key: string, m: Meta, rangeHdr: string)
    requires FromMeta(s, key, m, rangeHdr, false).Served? && key in t.bodies
    ensures var r := FromMeta(s, key, m, rangeHdr, false);
            FromMeta(t, key, m, rangeHdr, false) == r.(body := Section(t.bodies[key], r.start, r.end))
  {
  }

  lemma {:induction false} ZeroSection(n: nat, start: int, end: int)
    requires 0 <= start < end <= n
    ensures Section(Zeros(n), start, end) == Zeros(end - start)
  {
  }

  // ---- why it must not be removed between open and publish -----------------------------------------

  /** The three steps: the file is opened, the key is removed, the handle is published. */
  ghost function StaleRun(c: Cache, cap: nat, key: string, org: string, name: string): Cache {
    Run(c, cap, [Handle(H.Open(key)), Disk(S.PurgeStep(key, org, name)), Handle(H.Publish(|c.table.handles|))])
  }

  lemma {:induction false} RunThree(c: Cache, cap: nat, x: Step, y: Step, z: Step)
    ensures Run(c, cap, [x, y, z]) == Next(Next(Next(c, cap, x), cap, y), cap, z)
  {
    assert [x, y, z][1..] == [y, z] && [y, z][1..] == [z] && [z][1..] == [];
    var c3 := Next(Next(Next(c, cap, x), cap, y), cap, z);
    assert Run(c3, cap, []) == c3;
    assert Run(Next(Next(c, cap, x), cap, y), cap, [z]) == c3;
  }

  /** Afterwards the LRU holds a handle on the file that was removed. */
  lemma {:induction false} StalePublished(c: Cache, cap: nat, up: Upstream, key: string, org: string, name: string)
    requires Good(c, cap, up) && key in c.disk.store.bodies && key !in c.table.lru.vals
    requires S.Removes(c.disk, S.PurgeStep(key, org, name))
    ensures var d, id := StaleRun(c, cap, key, org, name), |c.table.handles|;
            && d.disk == S.Next(c.disk, S.PurgeStep(key, org, name))
            && H.Held(d.table, key) == Recency.Some(id) && id < |d.table.handles| && id < |d.born|
            && d.table.handles[id].key == key && d.born[id] < Generation(d, key)
            && Content(d, id) == c.disk.store.bodies[key]
  {
    var id, move := |c.table.handles|, S.PurgeStep(key, org, name);
    RunThree(c, cap, Handle(H.Open(key)), Disk(move), Handle(H.Publish(id)));
    var c2 := OpenedThenRemoved(c, key, S.Next(c.disk, move));
    DiskAfter(Next(c, cap, Handle(H.Open(key))), cap, Disk(move));
    assert Next(Next(c, cap, Handle(H.Open(key))), cap, Disk(move)) == c2;
    PublishedLate(c, cap, key, S.Next(c.disk, move));
  }

  function OpenedThenRemoved(c: Cache, key: string, disk: S.State): Cache {
    RemoveNext(HandleNext(c, 1, H.Open(key)), key, disk)
  }

  lemma {:induction false} PublishedLate(c: Cache, cap: nat, key: string, disk: S.State)
    requires 1 <= cap && Live(c, cap) && key in c.disk.store.bodies && key !in c.table.lru.vals
    ensures var id, d := |c.table.handles|, OpenedThenRemoved(c, key, disk);
            && Enabled(d, Handle(H.Publish(id)))
            && var e := HandleNext(d, cap, H.Publish(id));
               && e.disk == disk && H.Held(e.table, key) == Recency.Some(id) && id < |e.table.handles| && id < |e.born|
               && e.table.handles[id].key == key && e.born[id] < Generation(e, key)
               && Content(e, id) == c.disk.store.bodies[key]
  {
    var id, d := |c.table.handles|, OpenedThenRemoved(c, key, disk);
    assert d.table.lru == c.table.lru && d.table.handles[id].key == key;
    H.PublishOn(d.table, cap, id, id);
    Recency.AddKeeps(c.table.lru, cap, key, id);
  }

  ghost predicate NoCrash(steps: seq<Step>) {
    forall i :: 0 <= i < |steps| ==> !(steps[i].Disk? && steps[i].step.CrashStep?)
  }

  /** The handle's file was removed. */
  predicate Stale(c: Cache, id: nat) {
    id < |c.table.handles| && id < |c.born| && c.born[id] < Generation(c, c.table.handles[id].key)
  }

  /** A removed file is never written again, so its handle reads the same bytes for as long as the process lives. */
  lemma {:induction false} StaleStep(c: Cache, cap: nat, step: Step, id: nat)
    requires |c.born| == |c.table.handles| && Stale(c, id) && !(step.Disk? && step.step.CrashStep?)
    ensures var d := Next(c, cap, step);
            |d.born| == |d.table.handles| && Stale(d, id) && Content(d, id) == Content(c, id)
  {
    if Enabled(c, step) {
      match step
      case Handle(call) =>
        CallKeepsHandles(c, cap, call);
        SameFile(c, HandleNext(c, cap, call), id);
      case Disk(move) =>
        if S.Removes(c.disk, move) {
          RemoveKeepsHandles(c, move.key, S.Next(c.disk, move));
          SameFile(c, RemoveNext(c, move.key, S.Next(c.disk, move)), id);
        } else {
          SameFile(c, c.(disk := S.Next(c.disk, move)), id);
        }
    }
  }

  lemma {:induction false} SameFile(c: Cache, d: Cache, id: nat)
    requires Stale(c, id) && SameHandles(c, d)
    requires forall k :: Removed(c, k) <= Removed(d, k)
    ensures Stale(d, id) && Content(d, id) == Content(c, id)
  {
    assert d.born[id] == d.born[..|c.born|][id];
    assert Removed(c, c.table.handles[id].key) <= Removed(d, c.table.handles[id].key);
  }

  lemma {:induction false} StaleRunKeeps(c: Cache, cap: nat, steps: seq<Step>, id: nat)
    requires |c.born| == |c.table.handles| && Stale(c, id) && NoCrash(steps)
    ensures Stale(Run(c, cap, steps), id) && Content(Run(c, cap, steps), id) == Content(c, id)
    decreases |steps|
  {
    if steps != [] {
      StaleStep(c, cap, steps[0], id);
      assert forall i :: 0 <= i < |steps[1..]| ==> steps[1..][i] == steps[i + 1];
      StaleRunKeeps(Next(c, cap, steps[0]), cap, steps[1..], id);
    }
  }

  /** From every good state: open, remove, publish. Whatever follows, short of a crash, a caller who finds that handle
      reads the removed file; where it never held the upstream byte, the caller gets a wrong one, however right the new
      file is. */
  lemma {:induction false} StaleHandleMisreads(c: Cache, cap: nat, up: Upstream, key: string, org: string, name: string,
                                               stale: Cache, later: seq<Step>, x: int)
    requires Good(c, cap, up) && key in c.disk.store.bodies && key !in c.table.lru.vals
    requires stale == StaleRun(c, cap, key, org, name)
    requires S.Removes(c.disk, S.PurgeStep(key, org, name)) && NoCrash(later)
    requires 0 <= x < |c.disk.store.bodies[key]| && x < |up(key)| && c.disk.store.bodies[key][x] != up(key)[x]
    ensures var end, id := Run(stale, cap, later), |c.table.handles|;
            && id < |end.table.handles| && id < |end.born|
            && x < |Content(end, id)| && Content(end, id)[x] != up(key)[x]
  {
    StalePublished(c, cap, up, key, org, name);
    StaleCounts(c, cap, key, org, name);
    StaleRunKeeps(stale, cap, later, |c.table.handles|);
  }

  lemma {:induction false} StaleCounts(c: Cache, cap: nat, key: string, org: string, name: string)
    requires Live(c, cap) && key in c.disk.store.bodies && key !in c.table.lru.vals
    requires S.Removes(c.disk, S.PurgeStep(key, org, name))
    ensures |StaleRun(c, cap, key, org, name).born| == |StaleRun(c, cap, key, org, name).table.handles|
  {
    var id, move := |c.table.handles|, S.PurgeStep(key, org, name);
    RunThree(c, cap, Handle(H.Open(key)), Disk(move), Handle(H.Publish(id)));
    CountsAgree(c, cap, Handle(H.Open(key)));
    CountsAgree(Next(c, cap, Handle(H.Open(key))), cap, Disk(move));
    CountsAgree(Next(Next(c, cap, Handle(H.Open(key))), cap, Disk(move)), cap, Handle(H.Publish(id)));
  }

  lemma {:induction false} CountsAgree(c: Cache, cap: nat, step: Step)
    requires |c.born| == |c.table.handles|
    ensures |Next(c, cap, step).born| == |Next(c, cap, step).table.handles|
  {
    if Enabled(c, step) {
      match step
      case Handle(call) => CallKeepsHandles(c, cap, call);
      case Disk(move) =>
        if S.Removes(c.disk, move) { RemoveKeepsHandles(c, move.key, S.Next(c.disk, move)); }
    }
  }

  // ---- and such a caller comes --------------------------------------------------------------------

  /** Without a quota a fetch of some bytes, uninterrupted, publishes its first offset. */
  lemma {:induction false} FetchPublishes(s: Store, key: string, p: Params, data: seq<Byte>)
    requires s.maxBytes <= 0 && ValidParams(key, p) && data != []
    requires key in s.metas ==> WellFormed(s.metas[key].spans)
    ensures var (s1, begun) := Begin(s, key, p, NoFault);
            && begun.Started?
            && var (s2, w) := WriteBytes(s1, begun.writer, data, |data|);
               var t := Commit(s2, StartClose(w), Done).0;
               w.phase == Phase.Open && key in t.metas && Covered(t.metas[key].spans, p.start)
  {
    var (s1, begun) := Begin(s, key, p, NoFault);
    var (s2, w) := WriteBytes(s1, begun.writer, data, |data|);
    FetchWrites(s1, begun.writer, data);
    CommitCovers(s2, StartClose(w));
  }

  lemma {:induction false} FetchWrites(s: Store, w: Writer, data: seq<Byte>)
    requires !w.dynamicQuota && data != []
    ensures var (t, v) := WriteBytes(s, w, data, |data|);
            v == w.(written := w.written + |data|) && t.metas == s.metas
  {
  }

  function Fetch(id: nat, key: string, p: Params, data: seq<Byte>): seq<Step> {
    [Disk(S.BeginStep(id, key, p, NoFault)), Disk(S.WriteStep(id, data, |data|)), Disk(S.CloseStep(id)),
     Disk(S.CommitStep(id, Done))]
  }

  lemma {:induction false} WriterStep(c: Cache, cap: nat, step: S.Step)
    requires step.BeginStep? || step.WriteStep? || step.CloseStep? || step.CommitStep?
    ensures Next(c, cap, Disk(step)) == c.(disk := S.Next(c.disk, step))
  {
  }

  lemma {:induction false} FetchRun(c: Cache, cap: nat, id: nat, key: string, p: Params, data: seq<Byte>)
    ensures Run(c, cap, Fetch(id, key, p, data)) ==
            c.(disk := S.Next(S.Next(S.Next(S.Next(c.disk, S.BeginStep(id, key, p, NoFault)),
                                             S.WriteStep(id, data, |data|)), S.CloseStep(id)), S.CommitStep(id, Done)))
  {
    var f := Fetch(id, key, p, data);
    var d1 := S.Next(c.disk, f[0].step);
    var d2 := S.Next(d1, f[1].step);
    var d3 := S.Next(d2, f[2].step);
    WriterStep(c, cap, f[0].step);
    WriterStep(c.(disk := d1), cap, f[1].step);
    WriterStep(c.(disk := d2), cap, f[2].step);
    WriterStep(c.(disk := d3), cap, f[3].step);
    RunFour(c, cap, f[0], f[1], f[2], f[3]);
  }

  lemma {:induction false} RunFour(c: Cache, cap: nat, w: Step, x: Step, y: Step, z: Step)
    ensures Run(c, cap, [w, x, y, z]) == Next(Next(Next(Next(c, cap, w), cap, x), cap, y), cap, z)
  {
    assert [w, x, y, z][1..] == [x, y, z];
    RunThree(Next(c, cap, w), cap, x, y, z);
  }

  lemma {:induction false} FetchSteps(st: S.State, id: nat, key: string, p: Params, data: seq<Byte>)
    requires id !in st.writers && st.store.maxBytes <= 0 && ValidParams(key, p) && data != []
    requires key in st.store.metas ==> WellFormed(st.store.metas[key].spans)
    ensures var end := S.Next(S.Next(S.Next(S.Next(st, S.BeginStep(id, key, p, NoFault)),
                                             S.WriteStep(id, data, |data|)), S.CloseStep(id)), S.CommitStep(id, Done));
            key in end.store.metas && Covered(end.store.metas[key].spans, p.start)
  {
    FetchPublishes(st.store, key, p, data);
    var (s1, begun) := Begin(st.store, key, p, NoFault);
    var (s2, w) := WriteBytes(s1, begun.writer, data, |data|);
    var st1 := S.State(s1, st.writers[id := begun.writer]);
    Begun(st, id, key, p);
    Wrote(st1, id, data);
    ClosesWriter(S.State(s2, st1.writers[id := w]), id);
    Committed(S.State(s2, st1.writers[id := w][id := StartClose(w)]), id);
  }

  lemma {:induction false} Begun(st: S.State, id: nat, key: string, p: Params)
    requires id !in st.writers && Begin(st.store, key, p, NoFault).1.Started?
    ensures var (s1, begun) := Begin(st.store, key, p, NoFault);
            S.Next(st, S.BeginStep(id, key, p, NoFault)) == S.State(s1, st.writers[id := begun.writer])
  {
  }

  lemma {:induction false} Wrote(st: S.State, id: nat, data: seq<Byte>)
    requires id in st.writers && st.writers[id].phase == Phase.Open
    ensures var (t, w) := WriteBytes(st.store, st.writers[id], data, |data|);
            S.Next(st, S.WriteStep(id, data, |data|)) == S.State(t, st.writers[id := w])
  {
  }

  lemma {:induction false} Committed(st: S.State, id: nat)
    requires id in st.writers && st.writers[id].phase == Closing
    ensures S.Next(st, S.CommitStep(id, Done)).store == Commit(st.store, st.writers[id], Done).0
  {
  }

  lemma {:induction false} AfterRemove(st: S.State, key: string, org: string, name: string)
    requires S.Removes(st, S.PurgeStep(key, org, name))
    ensures var removed := S.Next(st, S.PurgeStep(key, org, name));
            && removed.writers.Keys == st.writers.Keys && removed.store.maxBytes == st.store.maxBytes
            && key !in removed.store.metas
  {
    RemoveOrphans(st, key, org, name);
  }

  /** The fetch publishes its first offset and leaves the handle table alone. */
  lemma {:induction false} FetchOn(c: Cache, cap: nat, id: nat, key: string, p: Params, data: seq<Byte>)
    requires id !in c.disk.writers && c.disk.store.maxBytes <= 0 && ValidParams(key, p) && data != []
    requires key !in c.disk.store.metas
    ensures var end := Run(c, cap, Fetch(id, key, p, data));
            && end == c.(disk := end.disk)
            && key in end.disk.store.metas && Covered(end.disk.store.metas[key].spans, p.start)
  {
    FetchRun(c, cap, id, key, p, data);
    FetchSteps(c.disk, id, key, p, data);
  }

  /** The steps on disk of the run below. */
  function StaleSteps(key: string, org: string, name: string, w: nat, p: Params, data: seq<Byte>): seq<S.Step> {
    [S.PurgeStep(key, org, name), S.BeginStep(w, key, p, NoFault), S.WriteStep(w, data, |data|), S.CloseStep(w),
     S.CommitStep(w, Done)]
  }

  lemma {:induction false} RunOn(st: S.State, steps: seq<S.Step>, i: nat)
    requires i < |steps|
    ensures S.Run(st, steps[..0]) == st && S.Run(st, steps[..i + 1]) == S.Next(S.Run(st, steps[..i]), steps[i])
  {
    hide S.Next;
    assert steps[..0] == [] && steps[..i + 1][..i] == steps[..i];
  }

  /** A writer keeps its file through its own writes and its close. */
  lemma {:induction false} StaysLinked(st: S.State, w: nat, step: S.Step)
    requires w in st.writers ==> st.writers[w].linked
    requires step.WriteStep? || step.CloseStep?
    ensures var next := S.Next(st, step); w in next.writers ==> next.writers[w].linked
  {
    hide Begin, Checkpoint, Commit, StoreRedirect, StoreAlias, LoadMeta, PurgeEntry, FinishClose;
  }

  lemma {:induction false} BeginsLinked(st: S.State, w: nat, key: string, p: Params)
    requires w !in st.writers
    ensures var next := S.Next(st, S.BeginStep(w, key, p, NoFault)); w in next.writers ==> next.writers[w].linked
  {
    hide WriteBytes, Checkpoint, Commit, StoreRedirect, StoreAlias, LoadMeta, PurgeEntry, FinishClose;
  }

  /** What the fetch writes after its opening are the object's bytes. */
  lemma {:induction false} FetchFaithful(st: S.State, up: Upstream, key: string, w: nat, p: Params, data: seq<Byte>)
    requires w !in st.writers && p.start >= 0
    requires p.start + |data| <= |up(key)| && data == up(key)[p.start..p.start + |data|]
    ensures Faithful(S.Next(st, S.BeginStep(w, key, p, NoFault)), S.WriteStep(w, data, |data|), up)
  {
  }

  /** All of them are faithful: the fetch brings the object's bytes, and its file is not removed. */
  lemma {:induction false} StaleRunFaithful(st: S.State, up: Upstream, key: string, org: string, name: string,
                                            w: nat, p: Params, data: seq<Byte>)
    requires S.Removes(st, S.PurgeStep(key, org, name)) && w !in st.writers
    requires p.start >= 0 && (p.total > 0 ==> p.total == |up(key)|)
    requires p.start + |data| <= |up(key)| && data == up(key)[p.start..p.start + |data|]
    ensures FaithfulRun(st, StaleSteps(key, org, name, w, p, data), up)
  {
    hide S.Next, S.Run, S.Removes;
    var steps := StaleSteps(key, org, name, w, p, data);
    RunOn(st, steps, 0);
    RunOn(st, steps, 1);
    RunOn(st, steps, 2);
    RunOn(st, steps, 3);
    AfterRemove(st, key, org, name);
    FetchFaithful(S.Next(st, steps[0]), up, key, w, p, data);
    BeginsLinked(S.Run(st, steps[..1]), w, key, p);
    StaysLinked(S.Run(st, steps[..2]), w, steps[2]);
    StaysLinked(S.Run(st, steps[..3]), w, steps[3]);
    forall i | 0 <= i < |steps|
      ensures Faithful(S.Run(st, steps[..i]), steps[i], up)
    {
    }
  }

  /** From every good state of a store without a quota: open, remove, publish, and one fetch of the byte at x. The entry
      now publishes x, the LRU answers the next AcquireBody with the stale handle, and the byte read is not the
      upstream's. */
  lemma {:induction false} StaleHitHappens(c: Cache, cap: nat, up: Upstream, key: string, org: string, name: string,
                                           stale: Cache, w: nat, p: Params, x: nat)
    requires Good(c, cap, up) && key in c.disk.store.bodies && key !in c.table.lru.vals && c.disk.store.maxBytes <= 0
    requires S.Removes(c.disk, S.PurgeStep(key, org, name)) && w !in c.disk.writers
    requires stale == StaleRun(c, cap, key, org, name)
    requires ValidParams(key, p) && p.start == x
    requires p.total > 0 ==> p.total == |up(key)|
    requires x < |c.disk.store.bodies[key]| && x < |up(key)| && c.disk.store.bodies[key][x] != up(key)[x]
    ensures var id := |c.table.handles|;
            var end := Run(stale, cap, Fetch(w, key, p, [up(key)[x]]));
            && key in end.disk.store.metas && Covered(end.disk.store.metas[key].spans, x)
            && H.Held(end.table, key) == Recency.Some(id) && id < |end.table.handles| && id < |end.born|
            && x < |Content(end, id)| && Content(end, id)[x] != up(key)[x]
  {
    hide S.Next, Run, Content, Good, H.Held, StaleRun;
    var data := [up(key)[x]];
    assert stale.disk == S.Next(c.disk, S.PurgeStep(key, org, name))
           && H.Held(stale.table, key) == Recency.Some(|c.table.handles|) by {
      StalePublished(c, cap, up, key, org, name);
    }
    AfterRemove(c.disk, key, org, name);
    FetchOn(stale, cap, w, key, p, data);
    StaleHandleMisreads(c, cap, up, key, org, name, stale, Fetch(w, key, p, data), x);
  }
}
