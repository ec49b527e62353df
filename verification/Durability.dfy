/** What was published stays published: readers never lose an offset to later writes, redirects, trims or crashes. */
module Durability {
  import opened Spans
  import opened CacheMeta
  import opened Owners
  import opened StoreModel
  import opened StoreRuns
  import opened ContentSafety
  import MetaCoherence

  predicate Has(s: Store, key: string, x: int) {
    key in s.metas && Covered(s.metas[key].spans, x)
  }

  /** The two ways an entry loses its spans: it is removed, or it is an alias that is written anew. */
  predicate Drops(st: State, step: Step, key: string) {
    || (Removes(st, step) && step.key == key)
    || (step.AliasStep? && step.key == key && key in st.store.metas && st.store.metas[key].aliasOf != "")
  }

  /** Publishing a segment keeps the offsets that were there. */
  lemma {:induction false} SegmentKeeps(m: Meta, p: Params, written: nat, x: int)
    requires WellFormed(m.spans) && Covered(m.spans, x)
    ensures Covered(SegmentMeta(m, p, written).spans, x)
    ensures Covered(FinalMeta(m, p, written).spans, x)
  {
    MergeAppended(m.spans, Span(p.start, p.start + written));
  }

  /** Writing an entry keeps the offsets its new metadata keeps, and touches no other entry. */
  lemma {:induction false} RewriteKeeps(s: Store, k: string, m: Meta, o: Outcome, key: string, x: int)
    requires Has(s, key, x) && (k == key ==> Covered(m.spans, x))
    ensures Has(Rewrite(s, k, m, o).0, key, x)
  {
  }

  lemma {:induction false} CheckpointKeeps(s: Store, w: Writer, key: string, x: int)
    requires Has(s, key, x) && WellFormed(s.metas[key].spans) && w.written != w.lastCheckpoint
    ensures Has(Checkpoint(s, w, true).0, key, x)
  {
    var m := WithSegment(Base(s, w), w);
    assert w.key == key ==> Covered(m.spans, x) by {
      if w.key == key { SegmentKeeps(s.metas[key], w.params, w.written, x); }
    }
    RewriteKeeps(s, w.key, m, Done, key, x);
    CheckpointFacts(s, w);
  }

  lemma {:induction false} CommitKeeps(s: Store, w: Writer, o: Outcome, key: string, x: int)
    requires Has(s, key, x) && WellFormed(s.metas[key].spans)
    ensures Has(Commit(s, w, o).0, key, x)
  {
    var m := CommitMeta(Base(s, w), w);
    assert w.key == key ==> Covered(m.spans, x) by {
      if w.key == key { SegmentKeeps(s.metas[key], w.params, w.written, x); }
    }
    RewriteKeeps(s, w.key, m, o, key, x);
    CommitFacts(s, w, o);
  }

  lemma {:induction false} WriterKeeps(st: State, step: Step, key: string, x: int)
    requires step.WriteStep? || step.CheckpointStep? || step.CloseStep? || step.CommitStep? || step.FinishStep?
    requires Has(st.store, key, x) && WellFormed(st.store.metas[key].spans)
    ensures Has(Next(st, step).store, key, x)
  {
    if step.id in st.writers {
      var s, w := st.store, st.writers[step.id];
      match step
      case WriteStep(_, data, n) => if n <= |data| { MetaCoherence.WriteMetas(s, w, data, n); }
      case CheckpointStep(_, wrote) => if wrote && w.written != w.lastCheckpoint { CheckpointKeeps(s, w, key, x); }
      case CommitStep(_, o) => CommitKeeps(s, w, o, key, x);
      case _ =>
    }
  }

  lemma {:induction false} PurgeKeeps(s: Store, k: string, org: string, name: string, key: string, x: int)
    requires Has(s, key, x)
    requires !(k == key && Decide(s.metas[key], org, name).Remove?)
    ensures Has(PurgeEntry(s, k, org, name), key, x)
  {
    if k in s.metas { DecideIsRight(s.metas[k], org, name); }
  }

  lemma {:induction false} StepKeeps(st: State, step: Step, key: string, x: int)
    requires Has(st.store, key, x) && WellFormed(st.store.metas[key].spans) && !Drops(st, step, key)
    ensures Has(Next(st, step).store, key, x)
  {
    match step
    case BeginStep(_, k, p, fault) => MetaCoherence.BeginMetas(st.store, k, p, fault);
    case PurgeStep(k, org, name) => PurgeKeeps(st.store, k, org, name, key, x);
    case RedirectStep(_, _, _) =>
    case AliasStep(_, _, _, _, _, _) =>
    case LoadStep(_) =>
    case CrashStep =>
    case _ => WriterKeeps(st, step, key, x);
  }

  ghost predicate NothingDropped(st: State, steps: seq<Step>, key: string) {
    forall i :: 0 <= i < |steps| ==> !Drops(Run(st, steps[..i]), steps[i], key)
  }

  /** Over every run in which the entry is neither removed nor replaced, an offset published at the start is still
      published at the end and still holds the upstream byte. */
  lemma {:induction false} RunKeepsPublished(st: State, steps: seq<Step>, up: Upstream, key: string, x: int)
    requires Safe(st, up) && Has(st.store, key, x)
    requires FaithfulRun(st, steps, up) && NothingDropped(st, steps, key)
    ensures Has(Run(st, steps).store, key, x) && Right(Run(st, steps).store, up, key, x)
    decreases |steps|
  {
    RunSafe(st, steps, up);
    if steps != [] {
      var n := |steps| - 1;
      FrontOf(st, steps, up, key);
      RunKeepsPublished(st, steps[..n], up, key, x);
      RunSafe(st, steps[..n], up);
      StepKeeps(Run(st, steps[..n]), steps[n], key, x);
    }
  }

  lemma {:induction false} FrontOf(st: State, steps: seq<Step>, up: Upstream, key: string)
    requires steps != [] && FaithfulRun(st, steps, up) && NothingDropped(st, steps, key)
    ensures FaithfulRun(st, steps[..|steps| - 1], up) && NothingDropped(st, steps[..|steps| - 1], key)
  {
    var n := |steps| - 1;
    forall i | 0 <= i < n
      ensures Faithful(Run(st, steps[..n][..i]), steps[..n][i], up)
      ensures !Drops(Run(st, steps[..n][..i]), steps[..n][i], key)
    {
      assert steps[..n][..i] == steps[..i];
    }
  }
}
