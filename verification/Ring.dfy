/** Index arithmetic of the io_uring rings in internal/coreserver/iouring_ring_linux.go: head and tail are 32-bit
    counters that wrap, a slot is a counter masked with size - 1. */
module RingIndex {

  const TWO_32: int := 0x1_0000_0000

  function Add32(a: int, b: int): int {
    (a + b) % TWO_32
  }

  function Sub32(a: int, b: int): int {
    (a - b) % TWO_32
  }

  function Pow2(k: nat): (r: nat)
    ensures r >= 1
  {
    if k == 0 then 1 else 2 * Pow2(k - 1)
  }

  /** Bitwise and. */
  function And(x: nat, y: nat): nat {
    if x == 0 || y == 0 then 0
    else (if x % 2 == 1 && y % 2 == 1 then 1 else 0) + 2 * And(x / 2, y / 2)
  }

  lemma {:induction false} AndZero(x: nat)
    ensures And(x, 0) == 0 == x % 1
  {
  }

  lemma {:induction false} AndMask(x: nat, k: nat)
    ensures And(x, Pow2(k) - 1) == x % Pow2(k)
  {
    hide And;
    if k == 0 {
      AndZero(x);
    } else {
      AndMask(x / 2, k - 1);
      Doubled(x, Pow2(k - 1));
    }
  }

  lemma {:induction false} Doubled(x: nat, n: nat)
    requires n >= 1 && And(x / 2, n - 1) == (x / 2) % n
    ensures And(x, 2 * n - 1) == x % (2 * n)
  {
    AndOdd(x, n);
    HalfMod(x, n);
  }

  lemma {:induction false} AndOdd(x: nat, n: nat)
    requires n >= 1
    ensures And(x, 2 * n - 1) == x % 2 + 2 * And(x / 2, n - 1)
  {
    assert (2 * n - 1) / 2 == n - 1 && (2 * n - 1) % 2 == 1;
  }

  lemma {:induction false} HalfMod(x: nat, n: nat)
    requires n >= 1
    ensures x % (2 * n) == x % 2 + 2 * ((x / 2) % n)
  {
    var q, r := (x / 2) / n, (x / 2) % n;
    assert x == (2 * n) * q + (x % 2 + 2 * r) by {
      assert x / 2 == n * q + r;
      assert x == 2 * (x / 2) + x % 2;
    }
    ModUnique(x, 2 * n, q, x % 2 + 2 * r);
  }

  lemma {:induction false} ModUnique(x: int, n: int, q: int, r: int)
    requires n > 0 && x == n * q + r && 0 <= r < n
    ensures x % n == r && x / n == q
  {
    var d := x / n - q;
    assert x == n * (x / n) + x % n;
    assert n * d == r - x % n;
    Multiple(n, d);
  }

  lemma {:induction false} Multiple(n: int, d: int)
    requires n > 0
    ensures d >= 1 ==> n * d >= n
    ensures d <= -1 ==> n * d <= -n
  {
  }

  ghost predicate IsPow2(n: nat) {
    exists k: nat :: n == Pow2(k)
  }

  /** newIoUringRing's test: entries & (entries - 1) is zero exactly for the powers of two. */
  lemma {:induction false} PowerTest(n: nat)
    requires n > 0
    ensures And(n, n - 1) == 0 <==> IsPow2(n)
  {
    if n == 1 {
      assert n == Pow2(0);
    } else {
      PowerTestHalf(n);
      PowerTest(n / 2);
      if IsPow2(n / 2) && n % 2 == 0 {
        var k: nat :| n / 2 == Pow2(k);
        assert n == Pow2(k + 1);
      }
      if IsPow2(n) {
        var k: nat :| n == Pow2(k);
        assert n / 2 == Pow2(k - 1) && n % 2 == 0;
      }
    }
  }

  lemma {:induction false} PowerTestHalf(n: nat)
    requires n > 1
    ensures And(n, n - 1) == 0 <==> n % 2 == 0 && And(n / 2, n / 2 - 1) == 0
  {
    if n % 2 == 0 {
      assert (n - 1) / 2 == n / 2 - 1 && (n - 1) % 2 == 1;
    } else {
      assert (n - 1) / 2 == n / 2 && (n - 1) % 2 == 0;
      AndSelf(n / 2);
    }
  }

  lemma {:induction false} AndSelf(n: nat)
    ensures And(n, n) == n
  {
    if n > 0 { AndSelf(n / 2); }
  }

  // ---- slots -----------------------------------------------------------------------

  lemma {:induction false} ModAdd(x: int, n: int, k: int)
    requires n > 0
    ensures (x + n * k) % n == x % n
  {
    assert x + n * k == n * (x / n + k) + x % n;
    ModUnique(x + n * k, n, x / n + k, x % n);
  }

  lemma {:induction false} PowDivides(k: nat, m: nat)
    requires k <= m
    ensures Pow2(m) == Pow2(k) * Pow2(m - k)
    decreases m
  {
    if k < m { PowDivides(k, m - 1); }
  }

  lemma {:induction false} TwoTo32()
    ensures Pow2(32) == TWO_32
  {
    assert Pow2(8) == 256;
    PowDivides(8, 16);
    PowDivides(16, 32);
  }

  /** A ring of size 2^k is indexed by the counter modulo its size, wrapped or not. */
  lemma {:induction false} SlotIsMod(c: nat, k: nat)
    requires k <= 32
    ensures And(c % TWO_32, Pow2(k) - 1) == c % Pow2(k)
  {
    AndMask(c % TWO_32, k);
    TwoTo32();
    PowDivides(k, 32);
    ModOfMod(c, Pow2(k), Pow2(32 - k));
  }

  lemma {:induction false} ModOfMod(c: nat, n: nat, m: nat)
    requires n > 0 && m > 0 && n * m > 0
    ensures (c % (n * m)) % n == c % n
  {
    var q, r := c / (n * m), c % (n * m);
    assert c == (n * m) * q + r;
    assert (n * m) * q == n * (m * q);
    ModAdd(r, n, m * q);
  }

  /** Counters less than a ring apart have different slots. */
  lemma {:induction false} SlotsDiffer(a: nat, b: nat, n: nat)
    requires n > 0 && a < b < a + n
    ensures a % n != b % n
  {
    var d := b / n - a / n;
    assert a == n * (a / n) + a % n && b == n * (b / n) + b % n;
    assert b - a == n * d + (b % n - a % n);
    Multiple(n, d);
  }

  /** Entry number i of the log, for i from `from` on, is in the slot of counter base + i. */
  ghost predicate Waiting<T(!new)>(slots: seq<T>, base: nat, log: seq<T>, from: nat) {
    |slots| > 0 &&
    forall i {:trigger log[i]} :: from <= i < |log| ==> slots[(base + i) % |slots|] == log[i]
  }

  lemma {:induction false} WriteAhead<T(!new)>(slots: seq<T>, base: nat, log: seq<T>, from: nat, x: T)
    requires Waiting(slots, base, log, from) && from <= |log| < from + |slots|
    ensures Waiting(slots[(base + |log|) % |slots| := x], base, log, from)
  {
    var n, at := |slots|, (base + |log|) % |slots|;
    forall i {:trigger log[i]} | from <= i < |log| ensures slots[at := x][(base + i) % n] == log[i] {
      SlotsDiffer(base + i, base + |log|, n);
    }
  }

  lemma {:induction false} AppendAhead<T(!new)>(slots: seq<T>, base: nat, log: seq<T>, from: nat, x: T)
    requires Waiting(slots, base, log, from) && from <= |log| < from + |slots|
    ensures Waiting(slots[(base + |log|) % |slots| := x], base, log + [x], from)
  {
    WriteAhead(slots, base, log, from, x);
  }

  lemma {:induction false} SizeBound(k: nat)
    requires k <= 31
    ensures 2 * Pow2(k) <= TWO_32
  {
    TwoTo32();
    PowDivides(k + 1, 32);
    assert Pow2(k + 1) * Pow2(31 - k) >= Pow2(k + 1);
  }

  lemma {:induction false} Difference(t: nat, h: nat)
    requires h <= t < h + TWO_32
    ensures Sub32(t % TWO_32, h % TWO_32) == t - h
  {
  }

  lemma {:induction false} SmallDifference(a: nat, b: nat)
    requires b <= a < TWO_32
    ensures Sub32(a, b) == a - b
  {
  }

  /** The entry due next is in its slot, and the later ones stay in theirs. */
  lemma {:induction false} WaitingNext<T(!new)>(slots: seq<T>, base: nat, log: seq<T>, from: nat)
    requires Waiting(slots, base, log, from) && from < |log|
    ensures slots[(base + from) % |slots|] == log[from] && Waiting(slots, base, log, from + 1)
  {
  }

  lemma {:induction false} WaitingLater<T(!new)>(slots: seq<T>, base: nat, log: seq<T>, from: nat, to: nat)
    requires Waiting(slots, base, log, from) && from <= to
    ensures Waiting(slots, base, log, to)
  {
  }

  lemma {:induction false} PrefixNext<T>(a: seq<T>, b: seq<T>)
    requires a <= b && |a| < |b|
    ensures a + [b[|a|]] <= b
  {
  }

  /** The slot of the next entry, and what writing it there leaves. */
  lemma {:induction false} PostAt<T(!new)>(slots: seq<T>, base: nat, log: seq<T>, from: nat, x: T, k: nat)
    requires k <= 31 && |slots| == Pow2(k)
    requires Waiting(slots, base, log, from) && from <= |log| < from + |slots|
    ensures var slot := And((base + |log|) % TWO_32, Pow2(k) - 1);
            slot < |slots| && Waiting(slots[slot := x], base, log + [x], from)
  {
    SlotIsMod(base + |log|, k);
    AppendAhead(slots, base, log, from, x);
  }

  lemma {:induction false} Bump(c: nat)
    ensures Add32(c % TWO_32, 1) == (c + 1) % TWO_32
  {
  }
}

/** The submission ring: userspace prepares a slot and commits it, the kernel consumes from the other end. */
module SubmissionRing {
  import opened RingIndex

  /** The shared counters and slots, and what went in and out so far. */
  datatype State<T> = State(k: nat, slots: seq<T>, head: nat, tail: nat, submitted: seq<T>, consumed: seq<T>)

  function Size<T>(st: State<T>): nat {
    Pow2(st.k)
  }

  /** sqSpace. */
  function Space<T>(st: State<T>): int {
    Sub32(Size(st), Sub32(st.tail, st.head))
  }

  /** sqPending. */
  function Pending<T>(st: State<T>): int {
    Sub32(st.tail, st.head)
  }

  function SlotOf<T>(st: State<T>, c: nat): nat {
    And(c, Size(st) - 1)
  }

  datatype Step<T> =
    | Prep(x: T)   // prepSqe and the setters that fill the slot
    | Commit       // sqCommit, right after a prep that succeeded
    | Consume      // the kernel takes the entry at head

  predicate Enabled<T>(st: State<T>, step: Step<T>) {
    && SlotOf(st, st.tail) < |st.slots| && SlotOf(st, st.head) < |st.slots|
    && match step
       case Prep(x) => Space(st) >= 1
       case Commit => Space(st) >= 1
       case Consume => Pending(st) >= 1
  }

  function Next<T>(st: State<T>, step: Step<T>): State<T>
    requires Enabled(st, step)
  {
    match step
    case Prep(x) => st.(slots := st.slots[SlotOf(st, st.tail) := x])
    case Commit => st.(tail := Add32(st.tail, 1), submitted := st.submitted + [st.slots[SlotOf(st, st.tail)]])
    case Consume => st.(head := Add32(st.head, 1), consumed := st.consumed + [st.slots[SlotOf(st, st.head)]])
  }

  /** The refinement relation to a bounded FIFO. base is where the counters started; the entries between the two logs'
      lengths are pending, each still in its slot. */
  ghost predicate Fifo<T(!new)>(st: State<T>, base: nat) {
    && st.k <= 31 && |st.slots| == Size(st)
    && st.head == (base + |st.consumed|) % TWO_32
    && st.tail == (base + |st.submitted|) % TWO_32
    && st.consumed <= st.submitted
    && |st.submitted| - |st.consumed| <= Size(st)
    && Waiting(st.slots, base, st.submitted, |st.consumed|)
  }

  /** The two counter differences mean what they say, across any wrap. */
  lemma {:induction false} Counts<T(!new)>(st: State<T>, base: nat)
    requires Fifo(st, base)
    ensures Pending(st) == |st.submitted| - |st.consumed|
    ensures Space(st) == Size(st) - (|st.submitted| - |st.consumed|)
    ensures SlotOf(st, st.tail) == (base + |st.submitted|) % Size(st)
    ensures SlotOf(st, st.head) == (base + |st.consumed|) % Size(st)
  {
    SizeBound(st.k);
    Difference(base + |st.submitted|, base + |st.consumed|);
    SmallDifference(Size(st), |st.submitted| - |st.consumed|);
    SlotIsMod(base + |st.submitted|, st.k);
    SlotIsMod(base + |st.consumed|, st.k);
  }

  lemma {:induction false} PrepKeeps<T(!new)>(st: State<T>, base: nat, x: T)
    requires Fifo(st, base) && Enabled(st, Prep(x))
    ensures Fifo(Next(st, Prep(x)), base)
  {
    Counts(st, base);
    WriteAhead(st.slots, base, st.submitted, |st.consumed|, x);
  }

  lemma {:induction false} CommitKeeps<T(!new)>(st: State<T>, base: nat)
    requires Fifo(st, base) && Enabled(st, Commit)
    ensures Fifo(Next(st, Commit), base)
  {
    Counts(st, base);
    Bump(base + |st.submitted|);
  }

  lemma {:induction false} ConsumeKeeps<T(!new)>(st: State<T>, base: nat)
    requires Fifo(st, base) && Enabled(st, Consume)
    ensures Fifo(Next(st, Consume), base)
  {
    Counts(st, base);
    Bump(base + |st.consumed|);
    WaitingNext(st.slots, base, st.submitted, |st.consumed|);
    PrefixNext(st.consumed, st.submitted);
  }

  function Run<T>(st: State<T>, steps: seq<Step<T>>): State<T>
    requires Legal(st, steps)
    decreases |steps|, 1
  {
    if steps == [] then st else Next(Run(st, steps[..|steps| - 1]), steps[|steps| - 1])
  }

  predicate Legal<T>(st: State<T>, steps: seq<Step<T>>)
    decreases |steps|, 0
  {
    steps != [] ==>
      var front := steps[..|steps| - 1];
      Legal(st, front) && Enabled(Run(st, front), steps[|steps| - 1])
  }

  /** Over every run of prepares, commits and kernel reads, from any counter value: the kernel reads the committed
      entries, each once, in order, and at most Size of them are outstanding. */
  lemma {:induction false} RunIsFifo<T(!new)>(st: State<T>, base: nat, steps: seq<Step<T>>)
    requires Fifo(st, base) && Legal(st, steps)
    ensures Fifo(Run(st, steps), base)
    ensures Run(st, steps).consumed <= Run(st, steps).submitted
    ensures 0 <= Pending(Run(st, steps)) <= Size(st)
    ensures Space(Run(st, steps)) + Pending(Run(st, steps)) == Size(st)
    decreases |steps|
  {
    if steps != [] {
      var front, last := steps[..|steps| - 1], steps[|steps| - 1];
      RunIsFifo(st, base, front);
      match last
      case Prep(x) => PrepKeeps(Run(st, front), base, x);
      case Commit => CommitKeeps(Run(st, front), base);
      case Consume => ConsumeKeeps(Run(st, front), base);
    }
    Counts(Run(st, steps), base);
    RunKeepsSize(st, steps);
  }

  lemma {:induction false} RunKeepsSize<T(!new)>(st: State<T>, steps: seq<Step<T>>)
    requires Legal(st, steps)
    ensures Run(st, steps).k == st.k
    decreases |steps|
  {
    if steps != [] { RunKeepsSize(st, steps[..|steps| - 1]); }
  }

  /** A slot is filled and waiting for its commit. */
  predicate Staged<T(==)>(st: State<T>, x: T) {
    Space(st) >= 1 && SlotOf(st, st.tail) < |st.slots| && st.slots[SlotOf(st, st.tail)] == x
  }

  /** What prep put in the slot is what commit submits, though the kernel may read other entries in between. */
  lemma {:induction false} StagedIsCommitted<T(!new)>(st: State<T>, base: nat, x: T, step: Step<T>)
    requires Fifo(st, base) && Enabled(st, step)
    ensures step == Prep(x) ==> Staged(Next(st, step), x)
    ensures step == Consume && Staged(st, x) ==> Staged(Next(st, step), x)
    ensures step == Commit && Staged(st, x) ==> Next(st, step).submitted == st.submitted + [x]
  {
    Counts(st, base);
    if step == Consume {
      ConsumeKeeps(st, base);
      Counts(Next(st, step), base);
    }
  }

  /** The ring in memory. */
  class Ring<T> {
    const k: nat
    const slots: array<T>
    var head: nat
    var tail: nat
    ghost var submitted: seq<T>
    ghost var consumed: seq<T>

    ghost function Value(): State<T>
      reads this, slots
    {
      State(k, slots[..], head, tail, submitted, consumed)
    }

    constructor (k: nat, slots: array<T>)
      requires k <= 31 && slots.Length == Pow2(k)
      ensures this.slots == slots && this.k == k && head == tail == 0 && submitted == consumed == []
    {
      this.k, this.slots, head, tail, submitted, consumed := k, slots, 0, 0, [], [];
    }

    function SqSpace(): int
      reads this
    {
      Sub32(Pow2(k), Sub32(tail, head))
    }

    /** A full ring refuses; otherwise the slot at tail is overwritten and nothing else. */
    method PrepSqe(x: T) returns (ok: bool)
      requires slots.Length == Pow2(k)
      modifies slots
      ensures ok == (Space(old(Value())) >= 1)
      ensures ok ==> Enabled(old(Value()), Prep(x)) && Value() == Next(old(Value()), Prep(x))
      ensures !ok ==> Value() == old(Value())
    {
      if SqSpace() < 1 { return false; }
      AndMask(tail, k);
      AndMask(head, k);
      slots[And(tail, Pow2(k) - 1)] := x;
      return true;
    }

    method SqCommit()
      requires slots.Length == Pow2(k) && SqSpace() >= 1
      modifies this`tail, this`submitted
      ensures Enabled(old(Value()), Commit) && Value() == Next(old(Value()), Commit)
    {
      AndMask(tail, k);
      AndMask(head, k);
      submitted := submitted + [slots[And(tail, Pow2(k) - 1)]];
      tail := Add32(tail, 1);
    }
  }
}

/** The completion ring: the kernel posts, drainCQ delivers. */
module CompletionRing {
  import opened RingIndex

  /** Two counters less than 2^32 apart are equal exactly when nothing lies between them. */
  lemma {:induction false} CountersDiffer(base: nat, a: nat, b: nat)
    requires a <= b < a + TWO_32
    ensures (base + a) % TWO_32 == (base + b) % TWO_32 <==> a == b
  {
  }

  class Queue<T(!new)> {
    const k: nat
    const cqes: array<T>
    var head: nat
    var tail: nat
    /** What the kernel posted, what the callback was given, and how much of that the stored head tells the kernel. */
    ghost var posted: seq<T>
    ghost var delivered: seq<T>
    ghost var acked: nat
    /** Where the counters started. */
    ghost const base: nat

    ghost predicate Valid()
      reads this, cqes
    {
      && k <= 31 && cqes.Length == Pow2(k)
      && head == (base + acked) % TWO_32
      && tail == (base + |posted|) % TWO_32
      && acked <= |delivered| && delivered <= posted
      && |posted| - acked <= Pow2(k)
      && Waiting(cqes[..], base, posted, acked)
    }

    constructor (k: nat, cqes: array<T>, start: nat)
      requires k <= 31 && cqes.Length == Pow2(k) && start < TWO_32
      ensures Valid() && this.cqes == cqes && this.k == k && posted == delivered == [] && acked == 0
    {
      this.k, this.cqes, base, posted, delivered, acked := k, cqes, start, [], [], 0;
      head, tail := start, start;
    }

    method Put(at: nat, x: T)
      requires at < cqes.Length
      modifies cqes
      ensures cqes[..] == old(cqes[..])[at := x]
    {
      cqes[at] := x;
    }

    /** The kernel posts one completion, or drops it when the ring is full as far as the stored head tells. */
    method KernelPost(x: T)
      requires Valid()
      modifies this`tail, this`posted, cqes
      ensures Valid()
      ensures posted == if |old(posted)| - acked < Pow2(k) then old(posted) + [x] else old(posted)
    {
      hide Waiting, And, Add32, Sub32, Pow2;
      assert Sub32(tail, head) == |posted| - acked by {
        SizeBound(k);
        Difference(base + |posted|, base + acked);
      }
      if Sub32(tail, head) < Pow2(k) {
        var slot := And(tail, Pow2(k) - 1);
        PostAt(cqes[..], base, posted, acked, x, k);
        assert Add32(tail, 1) == (base + |posted| + 1) % TWO_32 by { Bump(base + |posted|); }
        Put(slot, x);
        posted := posted + [x];
        tail := Add32(tail, 1);
      }
    }

    /** A batch of any length, empty ones included, as far as it fits. */
    method KernelPosts(batch: seq<T>)
      requires Valid()
      modifies this`tail, this`posted, cqes
      ensures Valid() && old(posted) <= posted
      ensures batch == [] ==> posted == old(posted)
    {
      for i := 0 to |batch|
        invariant Valid() && old(posted) <= posted
        invariant i == 0 ==> posted == old(posted)
      {
        KernelPost(batch[i]);
      }
    }

    /** The kernel's turn: whatever it has decided to post at this point; once its list is used up it stays silent. */
    method KernelTurn(kernel: seq<seq<T>>) returns (rest: seq<seq<T>>)
      requires Valid()
      modifies this`tail, this`posted, cqes
      ensures Valid() && old(posted) <= posted
      ensures kernel == [] ==> rest == [] && posted == old(posted)
      ensures kernel != [] ==> rest == kernel[1..]
    {
      rest := kernel;
      if kernel != [] {
        KernelPosts(kernel[0]);
        rest := kernel[1..];
      }
    }

    /** The completion at counter h, the next to be delivered. */
    method Load(h: nat) returns (cqe: T)
      requires Valid() && |delivered| < |posted| && h == (base + |delivered|) % TWO_32
      ensures cqe == posted[|delivered|]
    {
      SlotIsMod(base + |delivered|, k);
      assert posted[|delivered|] == cqes[..][(base + |delivered|) % Pow2(k)];
      cqe := cqes[And(h, Pow2(k) - 1)];
    }

    /** One callback, before which the kernel has its turn. */
    method DeliverOne(h: nat, kernel: seq<seq<T>>) returns (h': nat, rest: seq<seq<T>>)
      requires Valid() && |delivered| < |posted| && h == (base + |delivered|) % TWO_32
      modifies this`tail, this`posted, this`delivered, cqes
      ensures Valid() && old(posted) <= posted
      ensures delivered == old(delivered) + [old(posted)[|old(delivered)|]] && h' == (base + |delivered|) % TWO_32
      ensures |rest| <= |kernel| && (|rest| == |kernel| ==> posted == old(posted))
    {
      ghost var next := posted[|delivered|];
      rest := KernelTurn(kernel);
      assert posted[|delivered|] == next;
      var cqe := Load(h);
      h' := Add32(h, 1);
      assert h' == (base + |delivered| + 1) % TWO_32 by { Bump(base + |delivered|); }
      delivered := delivered + [cqe];
    }

    /** The inner loop: everything up to the tail that was read is delivered, then head is stored. The kernel may post
        any batch before every callback. */
    method DeliverReady(kernel: seq<seq<T>>) returns (n: nat, rest: seq<seq<T>>)
      requires Valid() && acked == |delivered|
      modifies this, cqes
      ensures Valid() && acked == |delivered|
      ensures delivered == old(posted) && old(posted) <= posted
      ensures n == |delivered| - |old(delivered)|
      ensures |rest| <= |kernel| && (|rest| == |kernel| ==> posted == old(posted))
    {
      hide Waiting;
      SizeBound(k);
      var h, t := head, tail;
      ghost var seen := posted;
      n, rest := 0, kernel;
      while h != t
        invariant Valid() && acked == old(acked)
        invariant seen <= posted && delivered <= seen && |seen| - acked <= Pow2(k)
        invariant h == (base + |delivered|) % TWO_32 && t == (base + |seen|) % TWO_32
        invariant n == |delivered| - |old(delivered)|
        invariant |rest| <= |kernel| && (|rest| == |kernel| ==> posted == seen)
        decreases |seen| - |delivered|
      {
        CountersDiffer(base, |delivered|, |seen|);
        h, rest := DeliverOne(h, rest);
        n := n + 1;
      }
      CountersDiffer(base, |delivered|, |seen|);
      assert delivered == seen;
      WaitingLater(cqes[..], base, posted, acked, |delivered|);
      head := h;
      acked := |delivered|;
    }

    /** drainCQ: again and again until head meets tail. kernel says what is posted before each read of the tail and
        before each callback. */
    method DrainCQ(kernel: seq<seq<T>>) returns (n: nat)
      requires Valid() && acked == |delivered|
      modifies this, cqes
      ensures Valid() && acked == |delivered|
      ensures delivered == posted && old(posted) <= posted
      ensures n == |delivered| - |old(delivered)|
    {
      n := 0;
      var rest := kernel;
      while true
        invariant Valid() && acked == |delivered|
        invariant old(posted) <= posted && n == |delivered| - |old(delivered)|
        decreases |rest|, |posted| - |delivered|
      {
        rest := KernelTurn(rest);
        SizeBound(k);
        CountersDiffer(base, |delivered|, |posted|);
        if head == tail { return; }
        var more;
        more, rest := DeliverReady(rest);
        n := n + more;
      }
    }
  }
}
