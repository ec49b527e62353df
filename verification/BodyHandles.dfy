/** The shared body files of internal/cache/bodyhandle.go: an LRU of reference-counted handles whose files are closed by
    the last borrower once the LRU has let go of them. */
module BodyHandles {
  import opened Recency

  /** A handle; closed counts the calls of Close on its file. */
  datatype Handle = Handle(key: string, refs: int, evicted: bool, closed: nat)

  /** Handles are named by their index in order of opening. opening holds those opened and not yet published, borrowed
      one entry per closer handed out, closing those whose closer has brought refs to zero and not yet read the evicted
      flag. */
  datatype State = State(handles: seq<Handle>, lru: Contents<nat>, borrowed: multiset<nat>,
                         opening: set<nat>, closing: multiset<nat>)

  datatype Step =
    | Hit(key: string)      // AcquireBody finds a handle that is not evicted
    | Open(key: string)     // AcquireBody opens the file
    | Publish(id: nat)      // GetOrAdd: install the handle, or discard it and borrow the published one
    | Release(id: nat)      // Close: the decrement
    | Settle(id: nat)       // Close: the test of the evicted flag
    | Purge(key: string)    // the LRU's Delete with its hook

  function Start(): State {
    State([], Empty(), multiset{}, {}, multiset{})
  }

  function Held(st: State, key: string): Option<nat> {
    Peek(st.lru, key)
  }

  predicate Enabled(st: State, step: Step) {
    match step
    case Hit(key) =>
      Held(st, key).Some? && Held(st, key).value < |st.handles| && !st.handles[Held(st, key).value].evicted
    case Open(key) => true
    case Publish(id) => id in st.opening && id < |st.handles|
    case Release(id) => id in st.borrowed && id < |st.handles|
    case Settle(id) => id in st.closing && id < |st.handles|
    case Purge(key) => true
  }

  /** evictBodyHandle on what left the LRU. */
  function Marked(handles: seq<Handle>, gone: seq<Item<nat>>): seq<Handle>
    decreases |gone|
  {
    if gone == [] then handles
    else if gone[0].val < |handles| then
      Marked(handles[gone[0].val := handles[gone[0].val].(evicted := true)], gone[1..])
    else Marked(handles, gone[1..])
  }

  function Borrow(st: State, id: nat): State
    requires id < |st.handles|
  {
    st.(handles := st.handles[id := st.handles[id].(refs := st.handles[id].refs + 1)],
        borrowed := st.borrowed + multiset{id})
  }

  /** GetOrAdd and what follows it. A published handle that is already evicted sends AcquireBody round again. */
  function Published(st: State, cap: nat, id: nat): State
    requires id < |st.handles|
  {
    var key := st.handles[id].key;
    var now := st.(opening := st.opening - {id});
    match Held(st, key)
    case Some(other) =>
      var done := now.(handles := st.handles[id := st.handles[id].(closed := st.handles[id].closed + 1)],
                       lru := Touched(st.lru, key));
      if other >= |st.handles| || st.handles[other].evicted then done else Borrow(done, other)
    case None =>
      now.(lru := Added(st.lru, cap, key, id),
           handles := Marked(st.handles, AddEvicts(st.lru, cap, key, id)),
           borrowed := st.borrowed + multiset{id})
  }

  function Released(st: State, id: nat): State
    requires id < |st.handles|
  {
    var h := st.handles[id];
    st.(handles := st.handles[id := h.(refs := h.refs - 1)],
        borrowed := st.borrowed - multiset{id},
        closing := if h.refs - 1 == 0 then st.closing + multiset{id} else st.closing)
  }

  function Settled(st: State, id: nat): State
    requires id < |st.handles|
  {
    var h := st.handles[id];
    st.(handles := if h.evicted then st.handles[id := h.(closed := h.closed + 1)] else st.handles,
        closing := st.closing - multiset{id})
  }

  function Purged(st: State, key: string): State {
    match Held(st, key)
    case None => st
    case Some(id) => st.(lru := Deleted(st.lru, key), handles := Marked(st.handles, [Item(key, id)]))
  }

  function Next(st: State, cap: nat, step: Step): State
    requires Enabled(st, step)
  {
    match step
    case Hit(key) => Borrow(st.(lru := Touched(st.lru, key)), Held(st, key).value)
    case Open(key) => st.(handles := st.handles + [Handle(key, 1, false, 0)], opening := st.opening + {|st.handles|})
    case Publish(id) => Published(st, cap, id)
    case Release(id) => Released(st, id)
    case Settle(id) => Settled(st, id)
    case Purge(key) => Purged(st, key)
  }

  // ---- what every run keeps ---------------------------------------------------------

  /** The handle that leaves the LRU in this step: the one purged, or the one a new handle pushes out. */
  function Leaves(st: State, cap: nat, step: Step): Option<nat> {
    match step
    case Purge(key) => Held(st, key)
    case Publish(id) =>
      if id >= |st.handles| || Held(st, st.handles[id].key).Some? then None
      else
        var gone := AddEvicts(st.lru, cap, st.handles[id].key, id);
        if gone == [] then None else Some(gone[0].val)
    case _ => None
  }

  /** A handle may leave the LRU unless a Close of it is half done; then only if that is the one Close and nobody holds
      the handle any more. */
  predicate MayLeave(st: State, id: nat) {
    id in st.closing ==> id < |st.handles| && st.handles[id].refs == 0 && st.closing[id] == 1
  }

  predicate Quiet(st: State, cap: nat, step: Step) {
    Leaves(st, cap, step).Some? ==> MayLeave(st, Leaves(st, cap, step).value)
  }

  /** Published handles: in the LRU they are live; refs counts the borrowers; the file is closed at most once, and then
      nobody holds it or is about to close it. */
  predicate HandleSafe(st: State, id: nat)
    requires id < |st.handles|
  {
    var h := st.handles[id];
    && h.closed <= 1
    && (id in st.opening ==> h.refs == 1 && !h.evicted && h.closed == 0 && id !in st.borrowed && id !in st.closing)
    && (id !in st.opening && h.closed == 0 ==> h.refs == st.borrowed[id])
    && (h.closed == 1 ==> id !in st.borrowed && id !in st.closing)
    && (h.evicted ==> MayLeave(st, id))
  }

  predicate InLru(st: State, key: string)
    requires key in st.lru.vals
  {
    var id := st.lru.vals[key];
    && id < |st.handles| && id !in st.opening
    && st.handles[id].key == key && !st.handles[id].evicted && st.handles[id].closed == 0
  }

  ghost predicate Safe(st: State, cap: nat) {
    && Ok(st.lru, cap)
    && (forall id :: 0 <= id < |st.handles| ==> HandleSafe(st, id))
    && (forall key :: key in st.lru.vals ==> InLru(st, key))
    && (forall id :: id in st.borrowed || id in st.opening || id in st.closing ==> id < |st.handles|)
  }

  lemma {:induction false} HitSafe(st: State, cap: nat, key: string)
    requires Safe(st, cap) && Enabled(st, Hit(key))
    ensures Safe(Next(st, cap, Hit(key)), cap)
  {
    TouchKeeps(st.lru, cap, key);
    assert InLru(st, key);
    var touched := st.(lru := Touched(st.lru, key));
    assert Safe(touched, cap) by {
      forall i | 0 <= i < |touched.handles| ensures HandleSafe(touched, i) {
        assert HandleSafe(st, i);
      }
      forall k | k in touched.lru.vals ensures InLru(touched, k) {
        assert InLru(st, k);
      }
    }
    BorrowSafe(touched, cap, Held(st, key).value);
  }

  /** Borrowing a published handle that is still in the LRU, half-done Closes or not. */
  lemma {:induction false} BorrowSafe(st: State, cap: nat, id: nat)
    requires Safe(st, cap) && id < |st.handles|
    requires id !in st.opening && !st.handles[id].evicted && st.handles[id].closed == 0
    ensures Safe(Borrow(st, id), cap)
  {
    var after := Borrow(st, id);
    forall i | 0 <= i < |after.handles| ensures HandleSafe(after, i) {
      assert HandleSafe(st, i);
    }
    forall key | key in after.lru.vals ensures InLru(after, key) {
      assert InLru(st, key);
    }
  }

  lemma {:induction false} OpenSafe(st: State, cap: nat, key: string)
    requires Safe(st, cap)
    ensures Safe(Next(st, cap, Open(key)), cap)
  {
    var after := Next(st, cap, Open(key));
    forall i | 0 <= i < |after.handles| ensures HandleSafe(after, i) {
      if i < |st.handles| { assert HandleSafe(st, i); }
    }
    forall k | k in after.lru.vals ensures InLru(after, k) {
      assert InLru(st, k);
    }
  }

  lemma {:induction false} ReleaseSafe(st: State, cap: nat, id: nat)
    requires Safe(st, cap) && Enabled(st, Release(id))
    ensures Safe(Next(st, cap, Release(id)), cap)
  {
    var after := Next(st, cap, Release(id));
    forall i | 0 <= i < |after.handles| ensures HandleSafe(after, i) {
      assert HandleSafe(st, i) && HandleSafe(st, id);
    }
    forall k | k in after.lru.vals ensures InLru(after, k) {
      assert InLru(st, k);
    }
  }

  lemma {:induction false} SettleSafe(st: State, cap: nat, id: nat)
    requires Safe(st, cap) && Enabled(st, Settle(id))
    ensures Safe(Next(st, cap, Settle(id)), cap)
  {
    var after := Next(st, cap, Settle(id));
    forall i | 0 <= i < |after.handles| ensures HandleSafe(after, i) {
      assert HandleSafe(st, i) && HandleSafe(st, id);
    }
    forall k | k in after.lru.vals ensures InLru(after, k) {
      assert InLru(st, k);
    }
  }

  /** What leaving the LRU does to one handle. */
  function Evict(st: State, id: nat): State
    requires id < |st.handles|
  {
    st.(handles := st.handles[id := st.handles[id].(evicted := true)])
  }

  /** Marking a handle whose key is no longer in the LRU. */
  lemma {:induction false} EvictSafe(st: State, lru: Contents<nat>, cap: nat, id: nat)
    requires Safe(st, cap) && id < |st.handles| && id !in st.opening && MayLeave(st, id)
    requires Ok(lru, cap) && st.handles[id].key !in lru.vals
    requires forall k :: k in lru.vals ==> k in st.lru.vals && lru.vals[k] == st.lru.vals[k]
    ensures Safe(Evict(st, id).(lru := lru), cap)
  {
    var after := Evict(st, id).(lru := lru);
    forall i | 0 <= i < |after.handles| ensures HandleSafe(after, i) {
      assert HandleSafe(st, i);
    }
    forall k | k in after.lru.vals ensures InLru(after, k) {
      assert InLru(st, k);
    }
  }

  lemma {:induction false} PurgeSafe(st: State, cap: nat, key: string)
    requires Safe(st, cap) && Quiet(st, cap, Purge(key))
    ensures Safe(Next(st, cap, Purge(key)), cap)
  {
    if key in st.lru.vals {
      var id := st.lru.vals[key];
      DeleteKeeps(st.lru, cap, key);
      assert InLru(st, key);
      assert Marked(st.handles, [Item(key, id)]) == Evict(st, id).handles;
      EvictSafe(st, Deleted(st.lru, key), cap, id);
    }
  }

  /** Losing the publish race: the private file is closed and the published handle is borrowed. */
  lemma {:induction false} LostSafe(st: State, cap: nat, id: nat)
    requires Safe(st, cap) && Enabled(st, Publish(id)) && Held(st, st.handles[id].key).Some?
    ensures Safe(Next(st, cap, Publish(id)), cap)
    ensures !st.handles[Held(st, st.handles[id].key).value].evicted
  {
    var key := st.handles[id].key;
    var other := Held(st, key).value;
    TouchKeeps(st.lru, cap, key);
    assert InLru(st, key);
    var done := st.(opening := st.opening - {id}, lru := Touched(st.lru, key),
                    handles := st.handles[id := st.handles[id].(closed := st.handles[id].closed + 1)]);
    DiscardSafe(st, done, cap, id);
    BorrowSafe(done, cap, other);
  }

  /** The loser closes its own file, which nobody else has seen. */
  lemma {:induction false} DiscardSafe(st: State, done: State, cap: nat, id: nat)
    requires Safe(st, cap) && id in st.opening && id < |st.handles|
    requires done == st.(opening := st.opening - {id}, lru := done.lru,
                         handles := st.handles[id := st.handles[id].(closed := st.handles[id].closed + 1)])
    requires Ok(done.lru, cap) && done.lru.vals == st.lru.vals
    ensures Safe(done, cap)
  {
    forall i | 0 <= i < |done.handles| ensures HandleSafe(done, i) {
      assert HandleSafe(st, i);
    }
    forall k | k in done.lru.vals ensures InLru(done, k) {
      assert InLru(st, k);
    }
  }

  /** Winning it: the handle goes into the LRU, whose last handle may go out. */
  lemma {:induction false} WonSafe(st: State, cap: nat, id: nat)
    requires Safe(st, cap) && Enabled(st, Publish(id)) && Held(st, st.handles[id].key).None? && 1 <= cap
    requires Quiet(st, cap, Publish(id))
    ensures Safe(Next(st, cap, Publish(id)), cap)
  {
    var key := st.handles[id].key;
    var lru := Added(st.lru, cap, key, id);
    AddKeeps(st.lru, cap, key, id);
    var now := st.(opening := st.opening - {id}, borrowed := st.borrowed + multiset{id});
    if |st.lru.keys| < cap {
      AddFits(st.lru, cap, key, id);
      Installed(st, now, cap, lru, id);
    } else {
      AddPushesOut(st.lru, cap, key, id);
      var last := st.lru.keys[cap - 1];
      var out := st.lru.vals[last];
      assert InLru(st, last);
      var evicted := Evict(st, out).(lru := Deleted(st.lru, last));
      DeleteKeeps(st.lru, cap, last);
      EvictSafe(st, Deleted(st.lru, last), cap, out);
      MarkOne(st.handles, last, out);
      Installed(evicted, evicted.(opening := now.opening, borrowed := now.borrowed), cap, lru, id);
    }
  }

  lemma {:induction false} MarkOne(handles: seq<Handle>, key: string, id: nat)
    requires id < |handles|
    ensures Marked(handles, [Item(key, id)]) == handles[id := handles[id].(evicted := true)]
  {
    assert [Item(key, id)][1..] == [];
  }

  lemma {:induction false} Installed(st: State, now: State, cap: nat, lru: Contents<nat>, id: nat)
    requires Safe(st, cap) && id in st.opening && id < |st.handles| && Ok(lru, cap)
    requires now == st.(opening := st.opening - {id}, borrowed := st.borrowed + multiset{id})
    requires forall k :: k in lru.vals ==> if k == st.handles[id].key then lru.vals[k] == id
                                           else k in st.lru.vals && lru.vals[k] == st.lru.vals[k]
    ensures Safe(now.(lru := lru), cap)
  {
    var after := now.(lru := lru);
    forall i | 0 <= i < |after.handles| ensures HandleSafe(after, i) {
      assert HandleSafe(st, i);
    }
    forall k | k in after.lru.vals ensures InLru(after, k) {
      assert HandleSafe(st, id);
      if k != st.handles[id].key { assert InLru(st, k); }
    }
  }

  lemma {:induction false} StepSafe(st: State, cap: nat, step: Step)
    requires Safe(st, cap) && 1 <= cap && Enabled(st, step) && Quiet(st, cap, step)
    ensures Safe(Next(st, cap, step), cap)
  {
    match step
    case Hit(key) => HitSafe(st, cap, key);
    case Open(key) => OpenSafe(st, cap, key);
    case Publish(id) =>
      if Held(st, st.handles[id].key).Some? { LostSafe(st, cap, id); } else { WonSafe(st, cap, id); }
    case Release(id) => ReleaseSafe(st, cap, id);
    case Settle(id) => SettleSafe(st, cap, id);
    case Purge(key) => PurgeSafe(st, cap, key);
  }

  /** What happens to a handle that leaves. */
  lemma {:induction false} LeftLru(st: State, cap: nat, step: Step)
    requires Safe(st, cap) && 1 <= cap && Enabled(st, step) && Leaves(st, cap, step).Some?
    ensures var id, after := Leaves(st, cap, step).value, Next(st, cap, step);
            && id < |st.handles| && id !in st.opening && st.handles[id].closed == 0 && |after.handles| == |st.handles|
            && after.handles[id] == st.handles[id].(evicted := true)
            && after.closing == st.closing && after.borrowed[id] == st.borrowed[id]
  {
    match step
    case Purge(key) =>
      assert InLru(st, key);
      MarkOne(st.handles, key, st.lru.vals[key]);
    case Publish(own) =>
      var key := st.handles[own].key;
      if |st.lru.keys| < cap {
        AddFits(st.lru, cap, key, own);
      } else {
        AddPushesOut(st.lru, cap, key, own);
        var last := st.lru.keys[cap - 1];
        assert InLru(st, last);
        MarkOne(st.handles, last, st.lru.vals[last]);
      }
    case _ =>
  }

  /** The condition is exact: a step keeps the table safe if and only if the handle that leaves may leave. */
  lemma {:induction false} StepExact(st: State, cap: nat, step: Step)
    requires Safe(st, cap) && 1 <= cap && Enabled(st, step)
    ensures Safe(Next(st, cap, step), cap) <==> Quiet(st, cap, step)
  {
    if Quiet(st, cap, step) {
      StepSafe(st, cap, step);
    } else {
      LeftLru(st, cap, step);
      assert !HandleSafe(Next(st, cap, step), Leaves(st, cap, step).value);
    }
  }

  /** When it may not, the half-done Closes go on to close the file under a borrower, or to close it twice. */
  lemma {:induction false} UnquietCloses(st: State, cap: nat, step: Step)
    requires Safe(st, cap) && 1 <= cap && Enabled(st, step) && !Quiet(st, cap, step)
    ensures var id, s1 := Leaves(st, cap, step).value, Next(st, cap, step);
            && Enabled(s1, Settle(id))
            && var s2 := Next(s1, cap, Settle(id));
               || (id in s2.borrowed && s2.handles[id].closed == 1)
               || (Enabled(s2, Settle(id)) && Next(s2, cap, Settle(id)).handles[id].closed == 2)
  {
    var id := Leaves(st, cap, step).value;
    LeftLru(st, cap, step);
    assert HandleSafe(st, id);
  }

  // ---- runs -------------------------------------------------------------------------

  function Run(st: State, cap: nat, steps: seq<Step>): State
    requires Legal(st, cap, steps)
    decreases |steps|, 1
  {
    if steps == [] then st
    else Next(Run(st, cap, steps[..|steps| - 1]), cap, steps[|steps| - 1])
  }

  predicate Legal(st: State, cap: nat, steps: seq<Step>)
    decreases |steps|, 0
  {
    steps != [] ==>
      var front := steps[..|steps| - 1];
      Legal(st, cap, front) && Enabled(Run(st, cap, front), steps[|steps| - 1])
  }

  /** Every handle that leaves the LRU in the run may leave it. */
  predicate QuietRun(st: State, cap: nat, steps: seq<Step>)
    requires Legal(st, cap, steps)
    decreases |steps|
  {
    steps != [] ==>
      var front := steps[..|steps| - 1];
      QuietRun(st, cap, front) && Quiet(Run(st, cap, front), cap, steps[|steps| - 1])
  }

  lemma {:induction false} RunSafe(cap: nat, steps: seq<Step>)
    requires 1 <= cap && Legal(Start(), cap, steps) && QuietRun(Start(), cap, steps)
    ensures Safe(Run(Start(), cap, steps), cap)
    decreases |steps|
  {
    if steps != [] {
      var front := steps[..|steps| - 1];
      RunSafe(cap, front);
      StepSafe(Run(Start(), cap, front), cap, steps[|steps| - 1]);
    }
  }

  /** Safe at every point of the run. */
  ghost predicate SafeRun(st: State, cap: nat, steps: seq<Step>)
    requires Legal(st, cap, steps)
    decreases |steps|
  {
    Safe(Run(st, cap, steps), cap) && (steps != [] ==> SafeRun(st, cap, steps[..|steps| - 1]))
  }

  /** Over every run: the table is safe all along if and only if every handle that leaves the LRU may leave it. */
  lemma {:induction false} RunExact(cap: nat, steps: seq<Step>)
    requires 1 <= cap && Legal(Start(), cap, steps)
    ensures SafeRun(Start(), cap, steps) <==> QuietRun(Start(), cap, steps)
    decreases |steps|
  {
    hide Safe, Quiet, Next;
    if steps == [] {
      RunSafe(cap, steps);
    } else {
      var front := steps[..|steps| - 1];
      RunExact(cap, front);
      if SafeRun(Start(), cap, front) { StepExact(Run(Start(), cap, front), cap, steps[|steps| - 1]); }
    }
  }

  /** What a safe state means to callers: a borrowed file is open, no file was closed twice, and AcquireBody never finds
      an evicted handle in the LRU, so it never has to go round again. */
  lemma {:induction false} SafeMeans(st: State, cap: nat, id: nat, key: string)
    requires Safe(st, cap)
    ensures id in st.borrowed ==> id < |st.handles| && st.handles[id].closed == 0
    ensures id < |st.handles| ==> st.handles[id].closed <= 1
    ensures Held(st, key).Some? ==> Enabled(st, Hit(key))
  {
    if id in st.borrowed || id < |st.handles| { assert HandleSafe(st, id); }
    if key in st.lru.vals { assert InLru(st, key); }
  }

  function Closes(st: State, id: nat): nat {
    if id < |st.handles| then st.handles[id].closed else 0
  }

  /** A step closes a file only as the last borrower of an evicted handle, or a private file that lost the race. */
  lemma {:induction false} ClosedOnlyWhenIdle(st: State, cap: nat, step: Step, id: nat)
    requires Safe(st, cap) && 1 <= cap && Enabled(st, step) && id < |st.handles|
    requires Closes(Next(st, cap, step), id) != Closes(st, id)
    ensures id !in st.borrowed && st.handles[id].closed == 0
    ensures (step == Settle(id) && st.handles[id].evicted) || (step == Publish(id) && id in st.opening)
  {
    assert HandleSafe(st, id);
    match step
    case Publish(own) => PublishOn(st, cap, own, id);
    case Purge(key) => PurgeOn(st, key, id);
    case _ =>
  }

  /** What publishing does to one handle: its own file may be closed, the published handle borrowed, another evicted. */
  lemma {:induction false} PublishOn(st: State, cap: nat, own: nat, id: nat)
    requires own < |st.handles| && id < |st.handles|
    ensures var after := Published(st, cap, own);
            && |after.handles| == |st.handles| && after.handles[id].key == st.handles[id].key
            && (id != own ==> after.handles[id].closed == st.handles[id].closed)
            && (st.handles[id].evicted ==> after.handles[id].evicted)
            && after.closing == st.closing && after.opening == st.opening - {own}
            && (after.borrowed[id] != st.borrowed[id] ==>
                  id == own || (Held(st, st.handles[own].key) == Some(id) && !st.handles[id].evicted))
            && (after.handles[own].closed != st.handles[own].closed ==> Held(st, st.handles[own].key).Some?)
  {
    var key := st.handles[own].key;
    if Held(st, key).None? { MarkedKeeps(st.handles, AddEvicts(st.lru, cap, key, own)); }
  }

  lemma {:induction false} PurgeOn(st: State, key: string, id: nat)
    requires id < |st.handles|
    ensures var after := Purged(st, key);
            && |after.handles| == |st.handles|
            && after.handles[id].key == st.handles[id].key && after.handles[id].closed == st.handles[id].closed
            && (st.handles[id].evicted ==> after.handles[id].evicted)
            && after.closing == st.closing && after.opening == st.opening && after.borrowed == st.borrowed
  {
    if key in st.lru.vals { MarkedKeeps(st.handles, [Item(key, st.lru.vals[key])]); }
  }

  lemma {:induction false} MarkedKeeps(handles: seq<Handle>, gone: seq<Item<nat>>)
    ensures |Marked(handles, gone)| == |handles|
    ensures forall i :: 0 <= i < |handles| ==>
              Marked(handles, gone)[i].closed == handles[i].closed && Marked(handles, gone)[i].refs == handles[i].refs
              && Marked(handles, gone)[i].key == handles[i].key
              && (handles[i].evicted ==> Marked(handles, gone)[i].evicted)
    decreases |gone|
  {
    if gone != [] {
      var id := gone[0].val;
      if id < |handles| {
        MarkedKeeps(handles[id := handles[id].(evicted := true)], gone[1..]);
      } else {
        MarkedKeeps(handles, gone[1..]);
      }
    }
  }

  lemma {:induction false} OneStepMore(st: State, cap: nat, steps: seq<Step>, step: Step)
    requires Legal(st, cap, steps) && Enabled(Run(st, cap, steps), step)
    ensures Legal(st, cap, steps + [step]) && Run(st, cap, steps + [step]) == Next(Run(st, cap, steps), cap, step)
  {
    assert (steps + [step])[..|steps|] == steps;
  }

  /** Why a condition is needed: between the decrement that reaches zero and the test of the flag another caller can
      borrow the handle and the LRU can let go of it; the test then closes the file under the borrower. */
  lemma {:induction false} RaceClosesBorrowed(st: State, cap: nat, key: string)
    requires Safe(st, cap) && key in st.lru.vals && st.lru.vals[key] in st.closing
    ensures var id := st.lru.vals[key];
            var steps := [Hit(key), Purge(key), Settle(id)];
            && Legal(st, cap, steps)
            && id in Run(st, cap, steps).borrowed && id < |Run(st, cap, steps).handles|
            && Run(st, cap, steps).handles[id].closed == 1
  {
    var id := st.lru.vals[key];
    assert InLru(st, key);
    var s1 := Next(st, cap, Hit(key));
    MarkOne(s1.handles, key, id);
    OneStepMore(st, cap, [], Hit(key));
    OneStepMore(st, cap, [Hit(key)], Purge(key));
    OneStepMore(st, cap, [Hit(key), Purge(key)], Settle(id));
    assert [] + [Hit(key)] == [Hit(key)] && [Hit(key)] + [Purge(key)] == [Hit(key), Purge(key)];
    assert [Hit(key), Purge(key)] + [Settle(id)] == [Hit(key), Purge(key), Settle(id)];
  }

  /** A handle that was idle when the LRU let go of it: evicted, not borrowed, its file still open. */
  predicate Leaked(st: State, id: nat) {
    && id < |st.handles| && st.handles[id].evicted && st.handles[id].closed == 0
    && id !in st.borrowed && id !in st.closing && id !in st.opening
  }

  /** No later step ever closes it. */
  lemma {:induction false} LeakedStays(st: State, cap: nat, step: Step, id: nat)
    requires Safe(st, cap) && 1 <= cap && Enabled(st, step) && Leaked(st, id)
    ensures Leaked(Next(st, cap, step), id)
  {
    match step
    case Hit(key) => assert InLru(st, key);
    case Publish(own) => PublishOn(st, cap, own, id);
    case Purge(key) => PurgeOn(st, key, id);
    case _ =>
  }

  /** And purging a key whose handle nobody holds produces one. */
  lemma {:induction false} IdlePurgeLeaks(st: State, cap: nat, key: string)
    requires Safe(st, cap) && key in st.lru.vals
    requires st.lru.vals[key] !in st.borrowed && st.lru.vals[key] !in st.closing
    ensures Leaked(Next(st, cap, Purge(key)), st.lru.vals[key])
  {
    assert InLru(st, key);
    assert Marked(st.handles, [Item(key, st.lru.vals[key])])
        == st.handles[st.lru.vals[key] := st.handles[st.lru.vals[key]].(evicted := true)];
  }
}

/** The handle table as AcquireBody, Close and the purge change it when they do not interleave. The LRU appears by its
    contents; Lru.Cache is proved to move through exactly these. */
module BodyTable {
  import opened Recency
  import opened BodyHandles

  predicate InRange(handles: seq<Handle>, lru: Contents<nat>) {
    forall key :: key in lru.vals ==> lru.vals[key] < |handles| && !handles[lru.vals[key]].evicted
  }

  /** AcquireBody from beginning to end. */
  function Acquired(st: State, cap: nat, key: string, present: bool): State
    requires InRange(st.handles, st.lru)
  {
    var id := |st.handles|;
    if key in st.lru.vals then Borrow(st.(lru := Touched(st.lru, key)), st.lru.vals[key])
    else if present then
      st.(handles := Marked(st.handles + [Handle(key, 1, false, 0)], AddEvicts(st.lru, cap, key, id)),
          lru := Added(st.lru, cap, key, id), borrowed := st.borrowed + multiset{id})
    else st
  }

  /** It is the protocol's own steps: a hit, or an open followed by a publish. */
  lemma {:induction false} AcquiredIsSteps(st: State, cap: nat, key: string, present: bool)
    requires Safe(st, cap)
    ensures InRange(st.handles, st.lru)
    ensures var id := |st.handles|;
            match Held(st, key)
            case Some(_) => Enabled(st, Hit(key)) && Acquired(st, cap, key, present) == Next(st, cap, Hit(key))
            case None =>
              if present then
                && Enabled(Next(st, cap, Open(key)), Publish(id))
                && Acquired(st, cap, key, present) == Next(Next(st, cap, Open(key)), cap, Publish(id))
              else Acquired(st, cap, key, present) == st
  {
    forall k | k in st.lru.vals ensures st.lru.vals[k] < |st.handles| && !st.handles[st.lru.vals[k]].evicted {
      assert InLru(st, k);
    }
    var id := |st.handles|;
    assert id !in st.opening;
    assert st.opening + {id} - {id} == st.opening;
  }

  /** evictBodyHandle on everything the LRU reported. */
  method MarkEvicted(handles: seq<Handle>, gone: seq<Item<nat>>) returns (r: seq<Handle>)
    ensures r == Marked(handles, gone)
  {
    r := handles;
    for i := 0 to |gone|
      invariant Marked(r, gone[i..]) == Marked(handles, gone)
    {
      assert gone[i..][1..] == gone[i + 1..];
      var id := gone[i].val;
      if id < |r| { r := r[id := r[id].(evicted := true)]; }
    }
  }

  class Table {
    const cap: nat
    var handles: seq<Handle>
    var lru: Contents<nat>
    /** Handles whose closers are still out. */
    ghost var borrowed: multiset<nat>

    ghost function Value(): State
      reads this
    {
      State(handles, lru, borrowed, {}, multiset{})
    }

    constructor (capacity: int)
      ensures Value() == Start() && cap == if capacity < 1 then 1 else capacity
    {
      cap := if capacity < 1 then 1 else capacity;
      handles, lru, borrowed := [], Empty(), multiset{};
    }

    /** AcquireBody: borrow the cached handle, or open the file and publish it. */
    method AcquireBody(key: string, present: bool) returns (r: Option<nat>)
      requires InRange(handles, lru)
      modifies this
      ensures Value() == Acquired(old(Value()), cap, key, present)
      ensures r == if key in old(lru).vals then Some(old(lru).vals[key])
                   else if present then Some(|old(handles)|) else None
    {
      if key in lru.vals {
        var id := lru.vals[key];
        lru := Touched(lru, key);
        handles := handles[id := handles[id].(refs := handles[id].refs + 1)];
        borrowed := borrowed + multiset{id};
        return Some(id);
      }
      if !present { return None; }
      var id := |handles|;
      var gone := AddEvicts(lru, cap, key, id);
      lru := Added(lru, cap, key, id);
      handles := MarkEvicted(handles + [Handle(key, 1, false, 0)], gone);
      borrowed := borrowed + multiset{id};
      return Some(id);
    }

    /** Close by a borrower: the decrement and the test, with nothing in between. */
    method Close(id: nat)
      requires id in borrowed && id < |handles|
      modifies this
      ensures var was := old(Value());
              && Enabled(was, Release(id))
              && Value() == if was.handles[id].refs == 1 then Settled(Released(was, id), id) else Released(was, id)
    {
      handles := handles[id := handles[id].(refs := handles[id].refs - 1)];
      borrowed := borrowed - multiset{id};
      if handles[id].refs == 0 && handles[id].evicted {
        handles := handles[id := handles[id].(closed := handles[id].closed + 1)];
      }
      assert multiset{} + multiset{id} - multiset{id} == multiset{};
    }

    /** bodyHandles.Delete with its hook. */
    method Delete(key: string)
      modifies this
      ensures Value() == Next(old(Value()), cap, Purge(key))
    {
      if key in lru.vals {
        var gone := [Item(key, lru.vals[key])];
        lru := Deleted(lru, key);
        handles := MarkEvicted(handles, gone);
      }
    }
  }
}
