/** Every interleaving of writers, readers, purges and process crashes over one store. */
module StoreRuns {
  import opened Spans
  import opened CacheMeta
  import opened Owners
  import opened StoreModel
  import R = Recency

  datatype State = State(store: Store, writers: map<nat, Writer>)

  /** One atomic step of some thread, or the process dying and coming back. */
  datatype Step =
    | BeginStep(id: nat, key: string, params: Params, fault: Fault)
    | WriteStep(id: nat, data: seq<Byte>, taken: nat)
    | CheckpointStep(id: nat, wrote: bool)
    | CloseStep(id: nat)
    | CommitStep(id: nat, outcome: Outcome)
    | FinishStep(id: nat)
    | RedirectStep(key: string, redirect: Redirect, outcome: Outcome)
    | AliasStep(key: string, canonical: string, host: string, path: string, rawQuery: string, outcome: Outcome)
    | LoadStep(key: string)
    | PurgeStep(key: string, org: string, name: string)
    | CrashStep

  predicate Removes(st: State, step: Step) {
    step.PurgeStep? && step.key in st.store.metas && Decide(st.store.metas[step.key], step.org, step.name).Remove?
  }

  /** A purge that removes the directory orphans the file every writer of the key holds. */
  function Orphaned(writers: map<nat, Writer>, key: string): (r: map<nat, Writer>)
    ensures r.Keys == writers.Keys
    ensures forall id :: id in r ==>
              r[id] == if writers[id].key == key then writers[id].(linked := false) else writers[id]
  {
    map id | id in writers :: if writers[id].key == key then writers[id].(linked := false) else writers[id]
  }

  /** One step; a step its thread could not take leaves the state alone. */
  ghost function Next(st: State, step: Step): State {
    var s, ws := st.store, st.writers;
    match step
    case BeginStep(id, key, p, fault) =>
      if id in ws then st
      else
        var (s1, r) := Begin(s, key, p, fault);
        State(s1, if r.Started? then ws[id := r.writer] else ws)
    case WriteStep(id, data, n) =>
      if id !in ws || ws[id].phase != Open || n > |data| then st
      else var (s1, w) := WriteBytes(s, ws[id], data, n); State(s1, ws[id := w])
    case CheckpointStep(id, wrote) =>
      if id !in ws || ws[id].phase != Open then st
      else var (s1, w) := Checkpoint(s, ws[id], wrote); State(s1, ws[id := w])
    case CloseStep(id) =>
      if id !in ws || ws[id].phase != Open then st
      else State(s, ws[id := StartClose(ws[id])])
    case CommitStep(id, o) =>
      if id !in ws || ws[id].phase != Closing then st
      else var (s1, w) := Commit(s, ws[id], o); State(s1, ws[id := w])
    case FinishStep(id) =>
      if id !in ws || ws[id].phase != Committed then st
      else State(FinishClose(s, ws[id]).0, ws - {id})
    case RedirectStep(key, r, o) => State(StoreRedirect(s, key, r, o), ws)
    case AliasStep(key, canonical, host, path, q, o) => State(StoreAlias(s, key, canonical, host, path, q, o), ws)
    case LoadStep(key) => State(LoadMeta(s, key).0, ws)
    case PurgeStep(key, org, name) =>
      State(PurgeEntry(s, key, org, name), if Removes(st, step) then Orphaned(ws, key) else ws)
    case CrashStep => State(Restart(s), map[])
  }

  ghost function Run(st: State, steps: seq<Step>): State {
    if steps == [] then st else Next(Run(st, steps[..|steps| - 1]), steps[|steps| - 1])
  }

  ghost predicate Started(st: State) {
    st.writers == map[] && st.store == Restart(st.store)
  }
}

/** Published spans always hold the upstream bytes. */
module ContentSafety {
  import opened Spans
  import opened CacheMeta
  import opened Owners
  import opened StoreModel
  import opened StoreRuns
  import R = Recency

  /** What each key's object is, fixed for the run. */
  type Upstream = string -> seq<Byte>

  /** The body file of key holds the upstream byte at offset x. */
  ghost predicate Right(s: Store, up: Upstream, key: string, x: int) {
    key in s.bodies && 0 <= x < |s.bodies[key]| && x < |up(key)| && s.bodies[key][x] == up(key)[x]
  }

  ghost predicate SpansRight(s: Store, up: Upstream, key: string, spans: seq<Span>) {
    WellFormed(spans) && forall x :: Covered(spans, x) ==> Right(s, up, key, x)
  }

  /** Every offset inside a published span holds the upstream byte. */
  ghost predicate Published(s: Store, up: Upstream) {
    forall key :: key in s.metas ==> SpansRight(s, up, key, s.metas[key].spans)
  }

  /** What a writer has written so far are the object's bytes, and as long as its file is the key's they are in it. */
  ghost predicate WriterRight(s: Store, up: Upstream, w: Writer) {
    && w.params.start >= 0 && (w.params.total > 0 ==> w.params.total == |up(w.key)|)
    && (w.written > 0 ==> w.params.start + w.written <= |up(w.key)|)
    && (w.linked ==> w.key in s.bodies && SegmentIn(s, up, w))
  }

  /** The writer's segment is right in the key's file. */
  ghost predicate SegmentIn(s: Store, up: Upstream, w: Writer) {
    forall x :: w.params.start <= x < w.params.start + w.written ==> Right(s, up, w.key, x)
  }

  ghost predicate Safe(st: State, up: Upstream) {
    && Published(st.store, up)
    && forall id :: id in st.writers ==> WriterRight(st.store, up, st.writers[id])
  }

  /** The step publishes what was written to a file that has been removed since. */
  predicate OrphanPublishes(st: State, step: Step) {
    && (step.CheckpointStep? || step.CommitStep?) && step.id in st.writers
    && var w := st.writers[step.id];
       && !w.linked && w.written > 0
       && if step.CheckpointStep? then w.phase == Open && step.wrote && w.written != w.lastCheckpoint
          else w.phase == Closing && step.outcome != NotWritten
  }

  /** The world outside: a response's total is the object's, its bytes are the object's, and a writer whose file has
      been removed publishes nothing any more. */
  ghost predicate Faithful(st: State, step: Step, up: Upstream) {
    match step
    case BeginStep(id, key, p, _) => p.total > 0 ==> p.total == |up(key)|
    case WriteStep(id, data, n) =>
      id in st.writers ==>
        var w := st.writers[id];
        var at := w.params.start + w.written;
        0 <= at && at + |data| <= |up(w.key)| && data == up(w.key)[at..at + |data|]
    case _ => !OrphanPublishes(st, step)
  }

  ghost predicate FaithfulRun(st: State, steps: seq<Step>, up: Upstream) {
    forall i :: 0 <= i < |steps| ==> Faithful(Run(st, steps[..i]), steps[i], up)
  }

  // ---- what a step does to right bytes -----------------------------------------

  /** Every body file and every right byte in it stays. */
  ghost predicate Keeps(s: Store, t: Store, up: Upstream) {
    && (forall key :: key in s.bodies ==> key in t.bodies)
    && (forall key, x :: Right(s, up, key, x) ==> Right(t, up, key, x))
  }

  lemma {:induction false} KeepsSpans(s: Store, t: Store, up: Upstream, key: string, spans: seq<Span>)
    requires Keeps(s, t, up) && SpansRight(s, up, key, spans)
    ensures SpansRight(t, up, key, spans)
  {
  }

  lemma {:induction false} SameBodies(s: Store, t: Store, up: Upstream)
    requires s.bodies == t.bodies
    ensures Keeps(s, t, up)
  {
  }

  lemma {:induction false} SegmentRight(s: Store, w: Writer, m: Meta, up: Upstream)
    requires w.params.start >= 0 && SegmentIn(s, up, w) && SpansRight(s, up, w.key, m.spans)
    ensures SpansRight(s, up, w.key, WithSegment(m, w).spans)
  {
    hide WithOwner, MergeHeaders, Merged;
    if w.written > 0 {
      var sp := Span(w.params.start, w.params.start + w.written);
      MergeAppended(m.spans, sp);
      forall x | Covered(Merged(m.spans + [sp]), x)
        ensures Right(s, up, w.key, x)
      {
        assert Covered(m.spans, x) || InSpan(sp, x);
      }
    }
  }

  lemma {:induction false} BaseRight(s: Store, w: Writer, up: Upstream)
    requires Published(s, up)
    ensures SpansRight(s, up, w.key, Base(s, w).spans)
  {
  }

  /** Opening a segment touches no body but its own, which it keeps up to the stated total. */
  lemma {:induction false} BegunBodies(s: Store, key: string, p: Params, fault: Fault)
    ensures var (t, r) := Begin(s, key, p, fault);
            && t.metas == s.metas
            && (forall k :: k in s.bodies ==> k in t.bodies && (k != key ==> t.bodies[k] == s.bodies[k]))
            && (key in s.bodies ==>
                  forall x :: 0 <= x < |s.bodies[key]| && (p.total > 0 ==> x < p.total) ==>
                    x < |t.bodies[key]| && t.bodies[key][x] == s.bodies[key][x])
            && (r.Started? ==> key in t.bodies && r.writer.key == key && r.writer.params == p && r.writer.written == 0
                               && p.start >= 0)
  {
  }

  lemma {:induction false} BeginKeeps(s: Store, key: string, p: Params, fault: Fault, up: Upstream)
    requires p.total > 0 ==> p.total == |up(key)|
    ensures Keeps(s, Begin(s, key, p, fault).0, up)
    ensures Begin(s, key, p, fault).0.metas == s.metas
    ensures Begin(s, key, p, fault).1.Started? ==>
              WriterRight(Begin(s, key, p, fault).0, up, Begin(s, key, p, fault).1.writer)
  {
    BegunBodies(s, key, p, fault);
  }

  /** Writing upstream bytes at their own offset makes them right and unmakes nothing. */
  lemma {:induction false} WroteRight(f: seq<Byte>, u: seq<Byte>, at: nat, data: seq<Byte>)
    requires at + |data| <= |u| && data == u[at..at + |data|]
    ensures var r := WroteAt(f, at, data);
            forall x :: 0 <= x < |u| && ((x < |f| && f[x] == u[x]) || at <= x < at + |data|) ==> x < |r| && r[x] == u[x]
  {
  }

  /** The two ways Write can go: refused by the quota, or n bytes into the file. */
  lemma {:induction false} WriteCases(s: Store, w: Writer, data: seq<Byte>, n: nat)
    requires n <= |data| && w.params.start >= 0 && (w.linked ==> w.key in s.bodies)
    ensures var (t, v) := WriteBytes(s, w, data, n);
            var at := w.params.start + w.written;
            && t.metas == s.metas && v == w.(reserved := v.reserved, written := v.written)
            && (v.written == w.written || v.written == w.written + n)
            && (if v.written == w.written || !w.linked then t.bodies == s.bodies
                else t.bodies == s.bodies[w.key := WroteAt(s.bodies[w.key], at, data[..n])])
  {
    assert WroteAt(BodyAt(s, w.key), 0, []) == BodyAt(s, w.key);
  }

  lemma {:induction false} WriteKeeps(s: Store, w: Writer, data: seq<Byte>, n: nat, up: Upstream)
    requires n <= |data| && WriterRight(s, up, w)
    requires var at := w.params.start + w.written;
             at + |data| <= |up(w.key)| && data == up(w.key)[at..at + |data|]
    ensures Keeps(s, WriteBytes(s, w, data, n).0, up)
    ensures WriteBytes(s, w, data, n).0.metas == s.metas
    ensures WriterRight(WriteBytes(s, w, data, n).0, up, WriteBytes(s, w, data, n).1)
  {
    var at := w.params.start + w.written;
    assert data[..n] == up(w.key)[at..at + n];
    WriteCases(s, w, data, n);
    if w.linked { WroteRight(s.bodies[w.key], up(w.key), at, data[..n]); }
  }

  /** A step that keeps right bytes is safe when each meta and writer it changes is right. */
  lemma {:induction false} Carried(st: State, next: State, up: Upstream)
    requires Safe(st, up) && Keeps(st.store, next.store, up)
    requires forall key :: key in next.store.metas ==>
               (key in st.store.metas && st.store.metas[key].spans == next.store.metas[key].spans)
               || SpansRight(next.store, up, key, next.store.metas[key].spans)
    requires forall id :: id in next.writers ==>
               (id in st.writers && SameExtent(st.writers[id], next.writers[id]))
               || WriterRight(next.store, up, next.writers[id])
    ensures Safe(next, up)
  {
    forall key | key in next.store.metas
      ensures SpansRight(next.store, up, key, next.store.metas[key].spans)
    {
      if key in st.store.metas && st.store.metas[key].spans == next.store.metas[key].spans {
        KeepsSpans(st.store, next.store, up, key, next.store.metas[key].spans);
      }
    }
    forall id | id in next.writers
      ensures WriterRight(next.store, up, next.writers[id])
    {
      if id in st.writers && SameExtent(st.writers[id], next.writers[id]) {
        assert WriterRight(st.store, up, st.writers[id]);
      }
    }
  }

  predicate SameExtent(v: Writer, w: Writer) {
    w == v.(reserved := w.reserved, lastCheckpoint := w.lastCheckpoint, phase := w.phase, owed := w.owed)
  }

  lemma {:induction false} BeginSafe(st: State, id: nat, key: string, p: Params, fault: Fault, up: Upstream)
    requires Safe(st, up) && (p.total > 0 ==> p.total == |up(key)|)
    ensures Safe(Next(st, BeginStep(id, key, p, fault)), up)
  {
    if id !in st.writers {
      BeginKeeps(st.store, key, p, fault, up);
      Carried(st, Next(st, BeginStep(id, key, p, fault)), up);
    }
  }

  lemma {:induction false} WriteSafe(st: State, id: nat, data: seq<Byte>, n: nat, up: Upstream)
    requires Safe(st, up) && Faithful(st, WriteStep(id, data, n), up)
    ensures Safe(Next(st, WriteStep(id, data, n)), up)
  {
    if id in st.writers && st.writers[id].phase == Open && n <= |data| {
      WriteKeeps(st.store, st.writers[id], data, n, up);
      Carried(st, Next(st, WriteStep(id, data, n)), up);
    }
  }

  /** Checkpoint and commit: publish the writer's own segment. */
  lemma {:induction false} PublishSafe(st: State, id: nat, m: Meta, o: Outcome, next: State, up: Upstream)
    requires Safe(st, up) && id in st.writers && SegmentIn(st.store, up, st.writers[id])
    requires var w := st.writers[id];
             && m.spans == WithSegment(Base(st.store, w), w).spans
             && next.store.metas == Rewrite(st.store, w.key, m, o).0.metas
             && next.store.bodies == st.store.bodies
    requires next.writers.Keys == st.writers.Keys
    requires forall i :: i in st.writers ==> SameExtent(st.writers[i], next.writers[i])
    ensures Safe(next, up)
  {
    var w := st.writers[id];
    BaseRight(st.store, w, up);
    SegmentRight(st.store, w, Base(st.store, w), up);
    SameBodies(st.store, next.store, up);
    KeepsSpans(st.store, next.store, up, w.key, m.spans);
    Carried(st, next, up);
  }

  /** Redirect and alias entries publish no span their key did not already have. */
  lemma {:induction false} EntrySafe(st: State, key: string, m: Meta, o: Outcome, next: State, up: Upstream)
    requires Safe(st, up)
    requires m.spans == [] || (key in st.store.metas && m.spans == st.store.metas[key].spans)
    requires next == st.(store := Rewrite(st.store, key, m, o).0)
    ensures Safe(next, up)
  {
    SameBodies(st.store, next.store, up);
    assert SpansRight(next.store, up, key, []);
    Carried(st, next, up);
  }

  /** Removing a key leaves every other key as it was, and its own writers without their file. */
  lemma {:induction false} RemoveSafe(st: State, key: string, next: State, up: Upstream)
    requires Safe(st, up) && key in st.store.metas
    requires next.store == RemoveEntry(st.store, key)
    requires next.writers == Orphaned(st.writers, key)
    ensures Safe(next, up)
  {
    var s, t := st.store, next.store;
    assert forall k, x :: k != key && Right(s, up, k, x) ==> Right(t, up, k, x);
    forall k | k in t.metas
      ensures SpansRight(t, up, k, t.metas[k].spans)
    {
      assert SpansRight(s, up, k, s.metas[k].spans);
    }
    forall id | id in next.writers
      ensures WriterRight(t, up, next.writers[id])
    {
      assert WriterRight(s, up, st.writers[id]);
    }
  }

  lemma {:induction false} KeepsOrTrims(st: State, key: string, org: string, name: string)
    requires !Removes(st, PurgeStep(key, org, name))
    ensures Next(st, PurgeStep(key, org, name)) == st.(store := PurgeEntry(st.store, key, org, name))
  {
    hide Begin, WriteBytes, Checkpoint, Commit, FinishClose, StoreRedirect, StoreAlias, LoadMeta, PurgeEntry, Orphaned;
  }

  lemma {:induction false} TrimSafe(st: State, key: string, org: string, name: string, up: Upstream)
    requires Safe(st, up) && !(key in st.store.metas && Decide(st.store.metas[key], org, name).Remove?)
    ensures Safe(st.(store := PurgeEntry(st.store, key, org, name)), up)
  {
    var next := st.(store := PurgeEntry(st.store, key, org, name));
    if key in st.store.metas {
      DecideIsRight(st.store.metas[key], org, name);
      SameBodies(st.store, next.store, up);
      Carried(st, next, up);
    }
  }

  lemma {:induction false} PurgeSafe(st: State, key: string, org: string, name: string, up: Upstream)
    requires Safe(st, up)
    ensures Safe(Next(st, PurgeStep(key, org, name)), up)
  {
    hide Next, Safe, PurgeEntry, RemoveEntry, Orphaned, Decide;
    if Removes(st, PurgeStep(key, org, name)) {
      RemoveOrphans(st, key, org, name);
      RemoveSafe(st, key, Next(st, PurgeStep(key, org, name)), up);
    } else {
      KeepsOrTrims(st, key, org, name);
      TrimSafe(st, key, org, name, up);
    }
  }

  /** What commit and checkpoint change besides the counters: one meta, and nothing about the writer's bytes. */
  lemma {:induction false} CommitFacts(s: Store, w: Writer, o: Outcome)
    ensures var (t, v) := Commit(s, w, o);
            && t.metas == Rewrite(s, w.key, CommitMeta(Base(s, w), w), o).0.metas
            && t.bodies == s.bodies && t.maxBytes == s.maxBytes && SameExtent(w, v)
  {
  }

  lemma {:induction false} CheckpointFacts(s: Store, w: Writer)
    requires w.written != w.lastCheckpoint
    ensures var (t, v) := Checkpoint(s, w, true);
            && t.metas == Rewrite(s, w.key, WithSegment(Base(s, w), w), Done).0.metas
            && t.bodies == s.bodies && SameExtent(w, v)
  {
  }

  lemma {:induction false} WriterIsRight(st: State, id: nat, up: Upstream)
    requires Safe(st, up) && id in st.writers
    ensures WriterRight(st.store, up, st.writers[id])
    ensures st.writers[id].linked || st.writers[id].written == 0 ==> SegmentIn(st.store, up, st.writers[id])
  {
  }

  lemma {:induction false} CheckpointSafe(st: State, id: nat, wrote: bool, up: Upstream)
    requires Safe(st, up) && !OrphanPublishes(st, CheckpointStep(id, wrote))
    ensures Safe(Next(st, CheckpointStep(id, wrote)), up)
  {
    var next := Next(st, CheckpointStep(id, wrote));
    if id in st.writers && st.writers[id].phase == Open {
      var w := st.writers[id];
      if wrote && w.written != w.lastCheckpoint {
        CheckpointFacts(st.store, w);
        WriterIsRight(st, id, up);
        PublishSafe(st, id, WithSegment(Base(st.store, w), w), Done, next, up);
      } else {
        assert next.writers == st.writers;
      }
    }
  }

  lemma {:induction false} NextCommit(st: State, id: nat, o: Outcome)
    ensures Next(st, CommitStep(id, o)) ==
            if id !in st.writers || st.writers[id].phase != Closing then st
            else var (s1, w) := Commit(st.store, st.writers[id], o); State(s1, st.writers[id := w])
  {
    hide Commit;
  }

  /** A commit whose metadata could not be written changes the counters only. */
  lemma {:induction false} NotWrittenFacts(s: Store, w: Writer)
    ensures Commit(s, w, NotWritten).0.metas == s.metas
  {
  }

  lemma {:induction false} CommitSafe(st: State, id: nat, o: Outcome, up: Upstream)
    requires Safe(st, up) && !OrphanPublishes(st, CommitStep(id, o))
    ensures Safe(Next(st, CommitStep(id, o)), up)
  {
    hide Commit, SegmentMeta, Rewrite, Safe, Next;
    NextCommit(st, id, o);
    if id in st.writers && st.writers[id].phase == Closing {
      var w := st.writers[id];
      CommitFacts(st.store, w, o);
      if o == NotWritten {
        NotWrittenFacts(st.store, w);
        SameBodies(st.store, Next(st, CommitStep(id, o)).store, up);
        Carried(st, Next(st, CommitStep(id, o)), up);
        return;
      }
      WriterIsRight(st, id, up);
      PublishSafe(st, id, CommitMeta(Base(st.store, w), w), o, Next(st, CommitStep(id, o)), up);
    }
  }

  lemma {:induction false} RedirectSafe(st: State, key: string, r: Redirect, o: Outcome, up: Upstream)
    requires Safe(st, up)
    ensures Safe(Next(st, RedirectStep(key, r, o)), up)
  {
    if IsRedirectStatus(r.status) && r.location != "" {
      EntrySafe(st, key, RedirectMeta(st.store, key, r), o, Next(st, RedirectStep(key, r, o)), up);
    }
  }

  lemma {:induction false} AliasSafe(st: State, step: Step, up: Upstream)
    requires Safe(st, up) && step.AliasStep?
    ensures Safe(Next(st, step), up)
  {
    var next := Next(st, step);
    if next != st {
      EntrySafe(st, step.key, AliasMeta(step.canonical, step.host, step.path, step.rawQuery), step.outcome, next, up);
    }
  }

  /** Closing, loading, crashing: neither bodies nor published spans change. */
  lemma {:induction false} QuietFacts(st: State, step: Step)
    requires step.CloseStep? || step.FinishStep? || step.LoadStep? || step.CrashStep?
    ensures var next := Next(st, step);
            && next.store.bodies == st.store.bodies && next.store.metas == st.store.metas
            && forall id :: id in next.writers ==> id in st.writers && SameExtent(st.writers[id], next.writers[id])
  {
    hide Begin, WriteBytes, Checkpoint, Commit, StoreRedirect, StoreAlias, PurgeEntry, Orphaned;
  }

  lemma {:induction false} QuietSafe(st: State, step: Step, up: Upstream)
    requires Safe(st, up)
    requires step.CloseStep? || step.FinishStep? || step.LoadStep? || step.CrashStep?
    ensures Safe(Next(st, step), up)
  {
    hide Next, Safe;
    var next := Next(st, step);
    QuietFacts(st, step);
    SameBodies(st.store, next.store, up);
    Carried(st, next, up);
  }

  /** Every step of every faithful environment keeps the state safe. */
  lemma {:induction false} StepSafe(st: State, step: Step, up: Upstream)
    requires Safe(st, up) && Faithful(st, step, up)
    ensures Safe(Next(st, step), up)
  {
    match step
    case BeginStep(id, key, p, fault) => BeginSafe(st, id, key, p, fault, up);
    case WriteStep(id, data, n) => WriteSafe(st, id, data, n, up);
    case CheckpointStep(id, wrote) => CheckpointSafe(st, id, wrote, up);
    case CommitStep(id, o) => CommitSafe(st, id, o, up);
    case RedirectStep(key, r, o) => RedirectSafe(st, key, r, o, up);
    case AliasStep(_, _, _, _, _, _) => AliasSafe(st, step, up);
    case PurgeStep(key, org, name) => PurgeSafe(st, key, org, name, up);
    case _ => QuietSafe(st, step, up);
  }

  /** Whole runs: from a safe start, with a faithful environment, every reachable state is safe, crashes included. */
  lemma {:induction false} RunSafe(st: State, steps: seq<Step>, up: Upstream)
    requires Safe(st, up) && FaithfulRun(st, steps, up)
    ensures Safe(Run(st, steps), up)
  {
    if steps != [] {
      var n := |steps| - 1;
      forall i | 0 <= i < n
        ensures Faithful(Run(st, steps[..n][..i]), steps[..n][i], up)
      {
        assert steps[..n][..i] == steps[..i];
      }
      RunSafe(st, steps[..n], up);
      assert Faithful(Run(st, steps[..n]), steps[n], up);
      StepSafe(Run(st, steps[..n]), steps[n], up);
    }
  }

  // ---- why an orphaned writer must not publish --------------------------------------

  lemma {:induction false} SegmentCovers(m: Meta, p: Params, written: nat, x: int)
    requires WellFormed(m.spans) && written > 0 && p.start <= x < p.start + written
    ensures Covered(SegmentMeta(m, p, written).spans, x) && Covered(FinalMeta(m, p, written).spans, x)
  {
    MergeAppended(m.spans, Span(p.start, p.start + written));
    assert InSpan(Span(p.start, p.start + written), x);
  }

  /** The condition is exact: what such a step publishes is right if and only if somebody else has brought those very
      bytes into the key's new file. */
  lemma {:induction false} OrphanExact(st: State, step: Step, up: Upstream)
    requires Safe(st, up) && OrphanPublishes(st, step)
    ensures Safe(Next(st, step), up) <==> SegmentIn(st.store, up, st.writers[step.id])
  {
    hide Commit, Checkpoint, SegmentMeta, Rewrite, Safe, Next, SegmentIn;
    var id, next := step.id, Next(st, step);
    var w := st.writers[id];
    OrphanRewrites(st, step, up);
    if SegmentIn(st.store, up, w) {
      var o := if step.CheckpointStep? then Done else step.outcome;
      PublishSafe(st, id, next.store.metas[w.key], o, next, up);
    } else {
      var x := Missing(st.store, up, w);
      assert !Safe(next, up) by { NotPublished(next, up, w.key, x); }
    }
  }

  lemma {:induction false} Missing(s: Store, up: Upstream, w: Writer) returns (x: int)
    requires !SegmentIn(s, up, w)
    ensures w.params.start <= x < w.params.start + w.written && !Right(s, up, w.key, x)
  {
    x :| w.params.start <= x < w.params.start + w.written && !Right(s, up, w.key, x);
  }

  lemma {:induction false} NotPublished(st: State, up: Upstream, key: string, x: int)
    requires key in st.store.metas && Covered(st.store.metas[key].spans, x) && !Right(st.store, up, key, x)
    ensures !Safe(st, up)
  {
    assert !SpansRight(st.store, up, key, st.store.metas[key].spans);
  }

  lemma {:induction false} SegmentListed(st: State, id: nat, up: Upstream)
    requires Safe(st, up) && id in st.writers && st.writers[id].written > 0
    ensures var w := st.writers[id];
            forall x :: w.params.start <= x < w.params.start + w.written ==>
              Covered(WithSegment(Base(st.store, w), w).spans, x)
  {
    hide SegmentMeta;
    var w := st.writers[id];
    BaseRight(st.store, w, up);
    forall x | w.params.start <= x < w.params.start + w.written
      ensures Covered(WithSegment(Base(st.store, w), w).spans, x)
    {
      SegmentCovers(Base(st.store, w), w.params, w.written, x);
    }
  }

  lemma {:induction false} NextCheckpoint(st: State, id: nat)
    requires id in st.writers && st.writers[id].phase == Open
    ensures var (s1, w) := Checkpoint(st.store, st.writers[id], true);
            Next(st, CheckpointStep(id, true)) == State(s1, st.writers[id := w])
  {
    hide Checkpoint;
  }

  /** What such a step writes. */
  lemma {:induction false} OrphanRewrites(st: State, step: Step, up: Upstream)
    requires Safe(st, up) && OrphanPublishes(st, step)
    ensures var w, next := st.writers[step.id], Next(st, step);
            var o := if step.CheckpointStep? then Done else step.outcome;
            && next.store.bodies == st.store.bodies && w.key in next.store.metas
            && next.store.metas == Rewrite(st.store, w.key, next.store.metas[w.key], o).0.metas
            && next.store.metas[w.key].spans == WithSegment(Base(st.store, w), w).spans
            && next.writers.Keys == st.writers.Keys
            && (forall i :: i in st.writers ==> SameExtent(st.writers[i], next.writers[i]))
            && forall x :: w.params.start <= x < w.params.start + w.written ==>
                 Covered(next.store.metas[w.key].spans, x)
  {
    hide Next, Checkpoint, Commit, SegmentMeta, Safe;
    var w := st.writers[step.id];
    SegmentListed(st, step.id, up);
    if step.CheckpointStep? {
      NextCheckpoint(st, step.id);
      CheckpointFacts(st.store, w);
    } else {
      NextCommit(st, step.id, step.outcome);
      CommitFacts(st.store, w, step.outcome);
    }
  }

  lemma {:induction false} CommitCovers(s: Store, w: Writer)
    requires w.written > 0 && WellFormed(Base(s, w).spans)
    ensures var t := Commit(s, w, Done).0;
            w.key in t.metas && Covered(t.metas[w.key].spans, w.params.start) && t.bodies == s.bodies
  {
    CommitFacts(s, w, Done);
    FinalCovers(Base(s, w), w.params, w.written);
  }

  lemma {:induction false} FinalCovers(m: Meta, p: Params, written: nat)
    requires written > 0 && WellFormed(m.spans)
    ensures Covered(FinalMeta(m, p, written).spans, p.start)
  {
    MergeAppended(m.spans, Span(p.start, p.start + written));
    assert InSpan(Span(p.start, p.start + written), p.start);
  }

  lemma {:induction false} OrphanCloses(st: State, id: nat, org: string, name: string)
    requires id in st.writers && st.writers[id].phase == Open
    requires Removes(st, PurgeStep(st.writers[id].key, org, name))
    ensures var w := st.writers[id];
            var end := Next(Next(st, PurgeStep(w.key, org, name)), CloseStep(id));
            && end.store == RemoveEntry(st.store, w.key)
            && end.writers.Keys == st.writers.Keys && end.writers[id] == StartClose(w.(linked := false))
  {
    RemoveOrphans(st, st.writers[id].key, org, name);
    ClosesWriter(Next(st, PurgeStep(st.writers[id].key, org, name)), id);
  }

  lemma {:induction false} RemoveOrphans(st: State, key: string, org: string, name: string)
    requires Removes(st, PurgeStep(key, org, name))
    ensures Next(st, PurgeStep(key, org, name)) == State(RemoveEntry(st.store, key), Orphaned(st.writers, key))
  {
    hide Begin, WriteBytes, Checkpoint, Commit, FinishClose, StoreRedirect, StoreAlias, LoadMeta, PurgeEntry;
    hide RemoveEntry, Orphaned, Decide;
    RemoveDecided(st.store, key, org, name);
    assert Next(st, PurgeStep(key, org, name)) ==
           State(PurgeEntry(st.store, key, org, name), Orphaned(st.writers, key));
  }

  lemma {:induction false} RemoveDecided(s: Store, key: string, org: string, name: string)
    requires key in s.metas && Decide(s.metas[key], org, name).Remove?
    ensures PurgeEntry(s, key, org, name) == RemoveEntry(s, key)
  {
  }

  lemma {:induction false} ClosesWriter(st: State, id: nat)
    requires id in st.writers && st.writers[id].phase == Open
    ensures Next(st, CloseStep(id)) == State(st.store, st.writers[id := StartClose(st.writers[id])])
  {
  }

  /** A removed key whose orphaned writer then commits: the meta is back, without a body file. */
  lemma {:induction false} OrphanCommits(st: State, id: nat)
    requires id in st.writers && st.writers[id].phase == Closing && st.writers[id].written > 0
    requires st.writers[id].key !in st.store.metas && st.writers[id].key !in st.store.bodies
    ensures var w := st.writers[id];
            var end := Next(st, CommitStep(id, Done));
            && end.store.maxBytes == st.store.maxBytes
            && w.key in end.store.metas && Covered(end.store.metas[w.key].spans, w.params.start)
            && w.key !in end.store.bodies && end.writers.Keys == st.writers.Keys
  {
    var w := st.writers[id];
    CommitCovers(st.store, w);
    CommitFacts(st.store, w, Done);
  }

  lemma {:induction false} FreshBodyIsZero(s: Store, key: string, p: Params, x: nat)
    requires Begin(s, key, p, NoFault).1.Started? && x < p.total && key !in s.bodies
    ensures var t := Begin(s, key, p, NoFault).0;
            t.metas == s.metas && key in t.bodies && |t.bodies[key]| == p.total && t.bodies[key][x] == 0
  {
    assert BodyAt(s, key) == [];
    assert Truncated([], p.total) == Zeros(p.total);
  }

  /** The entry publishes offset x, and the file holds a zero byte there. */
  predicate PublishesZero(s: Store, key: string, x: int) {
    && key in s.metas && Covered(s.metas[key].spans, x)
    && key in s.bodies && 0 <= x < |s.bodies[key]| && s.bodies[key][x] == 0
  }

  /** From every safe state, with or without a quota: remove a key under an open writer that has written something, let
      it close, and let the next fetch of the object be admitted; the span the writer published then covers zero
      bytes. */
  lemma {:induction false} OrphanPublishesZeros(st: State, id: nat, org: string, name: string, id2: nat, p2: Params,
                                                up: Upstream)
    requires Safe(st, up) && id in st.writers && st.writers[id].phase == Open && id2 !in st.writers
    requires var w := st.writers[id];
             w.written > 0 && p2.total == |up(w.key)| && Removes(st, PurgeStep(w.key, org, name))
    ensures var w := st.writers[id];
            var closed := Next(Next(Next(st, PurgeStep(w.key, org, name)), CloseStep(id)), CommitStep(id, Done));
            Begin(closed.store, w.key, p2, NoFault).1.Started? ==>
              PublishesZero(Next(closed, BeginStep(id2, w.key, p2, NoFault)).store, w.key, w.params.start)
  {
    var w := st.writers[id];
    var key := w.key;
    assert WriterRight(st.store, up, w);
    OrphanCloses(st, id, org, name);
    var st2 := Next(Next(st, PurgeStep(key, org, name)), CloseStep(id));
    OrphanCommits(st2, id);
    var st3 := Next(st2, CommitStep(id, Done));
    if Begin(st3.store, key, p2, NoFault).1.Started? {
      FreshBodyIsZero(st3.store, key, p2, w.params.start);
      BeginsWriter(st3, id2, key, p2);
    }
  }

  lemma {:induction false} BeginsWriter(st: State, id: nat, key: string, p: Params)
    requires id !in st.writers
    ensures Next(st, BeginStep(id, key, p, NoFault)).store == Begin(st.store, key, p, NoFault).0
  {
  }
}
