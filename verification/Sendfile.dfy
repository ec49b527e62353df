/** The resumable send loops of internal/coreserver: sendfile_darwin.go sends header and body with one call per round,
    sendfile_unix.go sends the body alone in bounded batches. The kernel is free to ship less than it was asked to and
    to fail in between; a round after EAGAIN is a new call on the same state. */
module Sendfile {

  datatype Errno = Success | Again | Interrupted | Failed(code: int)

  /** What the kernel would ship if nothing else limited it, and the error it reports. */
  datatype Reply = Reply(count: nat, errno: Errno)

  /** How a call ends: still going, waiting for the socket, or over, perhaps with an error. */
  datatype Signal = Going | Rearm | Over(errno: Errno)

  function Min(a: nat, b: nat): nat {
    if a < b then a else b
  }

  /** The bytes of the file from off on, at most n, as far as the file reaches. */
  function Window<T>(file: seq<T>, off: nat, n: nat): (r: seq<T>)
    ensures |r| <= n
    ensures off + n <= |file| ==> |r| == n
  {
    file[Min(off, |file|)..Min(off + n, |file|)]
  }

  lemma {:induction false} WindowTail<T>(file: seq<T>, off: nat, n: nat, done: nat)
    requires done <= n
    ensures done <= |Window(file, off, n)| ==> Window(file, off, n)[done..] == Window(file, off + done, n - done)
    ensures |Window(file, off, n)| < n && done >= |Window(file, off, n)| ==> Window(file, off + done, n - done) == []
  {
  }

  lemma {:induction false} WindowPrefix<T>(file: seq<T>, off: nat, a: nat, b: nat, k: nat)
    requires a <= b && k <= |Window(file, off, a)|
    ensures k <= |Window(file, off, b)| && Window(file, off, a)[..k] == Window(file, off, b)[..k]
  {
    var from := Min(off, |file|);
    assert Window(file, off, a)[..k] == file[from..from + k];
    assert Window(file, off, b)[..k] == file[from..from + k];
  }

  // ---- header and body in one call ------------------------------------------------------

  /** The constant part of sfHdtrState. */
  datatype Job<T> = Job(header: seq<T>, file: seq<T>, off: nat, n: nat)

  function Payload<T>(job: Job<T>): seq<T> {
    job.header + Window(job.file, job.off, job.n)
  }

  /** The counters, and everything the socket has received. */
  datatype Progress<T> = Progress(headerSent: nat, bodySent: nat, socket: seq<T>)

  /** What one sendfile call may ship: the rest of the header, then the rest of the body. */
  function Offered<T>(job: Job<T>, p: Progress<T>): seq<T> {
    job.header[Min(p.headerSent, |job.header|)..] +
    Window(job.file, job.off + p.bodySent, if p.bodySent <= job.n then job.n - p.bodySent else 0)
  }

  /** One round: the call, and the update of the two counters from the total shipped. */
  function Round<T>(job: Job<T>, p: Progress<T>, reply: Reply): Progress<T> {
    var total := Min(reply.count, |Offered(job, p)|);
    var headerRemaining := |job.header| - p.headerSent;
    var socket := p.socket + Offered(job, p)[..total];
    if total == 0 then p.(socket := socket)
    else if total >= headerRemaining then Progress(|job.header|, p.bodySent + (total - headerRemaining), socket)
    else Progress(p.headerSent + total, p.bodySent, socket)
  }

  function SignalOf<T>(job: Job<T>, p: Progress<T>, reply: Reply): Signal {
    match reply.errno
    case Success => if Min(reply.count, |Offered(job, p)|) == 0 then Over(Success) else Going
    case Again => Rearm
    case Interrupted => Going
    case Failed(_) => Over(reply.errno)
  }

  predicate Complete<T>(job: Job<T>, p: Progress<T>) {
    p.bodySent >= job.n && p.headerSent >= |job.header|
  }

  /** One invocation of the callback against the kernel's replies. */
  function Call<T>(job: Job<T>, p: Progress<T>, replies: seq<Reply>): (Progress<T>, Signal)
    decreases |replies|
  {
    if Complete(job, p) then (p, Over(Success))
    else if replies == [] then (p, Going)
    else
      var signal := SignalOf(job, p, replies[0]);
      var next := Round(job, p, replies[0]);
      if signal == Going then Call(job, next, replies[1..]) else (next, signal)
  }

  /** Invocation after invocation. */
  function Calls<T>(job: Job<T>, p: Progress<T>, calls: seq<seq<Reply>>): Progress<T>
    decreases |calls|
  {
    if calls == [] then p else Calls(job, Call(job, p, calls[0]).0, calls[1..])
  }

  class FusedSend<T> {
    const job: Job<T>
    var headerSent: nat
    var bodySent: nat
    ghost var socket: seq<T>

    constructor (job: Job<T>)
      ensures this.job == job && headerSent == 0 && bodySent == 0 && socket == []
    {
      this.job, headerSent, bodySent, socket := job, 0, 0, [];
    }

    /** One sendfile call: the kernel ships a prefix of what is offered and says how much. */
    method Kernel(wish: nat) returns (shipped: nat)
      modifies this`socket
      ensures var offered := Offered(job, Progress(headerSent, bodySent, old(socket)));
              shipped == Min(wish, |offered|) && socket == old(socket) + offered[..shipped]
    {
      var offered := Offered(job, Progress(headerSent, bodySent, []));
      shipped := Min(wish, |offered|);
      socket := socket + offered[..shipped];
    }

    /** sfHdtrState.write. */
    method Write(replies: seq<Reply>) returns (signal: Signal)
      requires headerSent <= |job.header| && bodySent <= job.n
      modifies this
      ensures (Progress(headerSent, bodySent, socket), signal) ==
              Call(job, old(Progress(headerSent, bodySent, socket)), replies)
    {
      ghost var start := Progress(headerSent, bodySent, socket);
      var i := 0;
      while bodySent < job.n || headerSent < |job.header|
        invariant i <= |replies|
        invariant Call(job, start, replies) == Call(job, Progress(headerSent, bodySent, socket), replies[i..])
        invariant headerSent <= |job.header|
        decreases |replies| - i
      {
        if i == |replies| { return Going; }
        ghost var p := Progress(headerSent, bodySent, socket);
        assert replies[i..][1..] == replies[i + 1..];
        var headerRemaining := |job.header| - headerSent;
        var totalShipped := Kernel(replies[i].count);
        if totalShipped > 0 {
          if totalShipped >= headerRemaining {
            headerSent := |job.header|;
            bodySent := bodySent + (totalShipped - headerRemaining);
          } else {
            headerSent := headerSent + totalShipped;
          }
        }
        assert Progress(headerSent, bodySent, socket) == Round(job, p, replies[i]);
        var errno := replies[i].errno;
        i := i + 1;
        match errno
        case Success =>
          if totalShipped == 0 { return Over(Success); }
        case Again => return Rearm;
        case Interrupted =>
        case Failed(_) => return Over(errno);
      }
      return Over(Success);
    }
  }

  /** The counters say how much of header ++ body is on the wire, and the header goes first. */
  predicate Sent<T(==)>(job: Job<T>, p: Progress<T>) {
    && p.headerSent <= |job.header| && p.bodySent <= |Window(job.file, job.off, job.n)|
    && (p.headerSent < |job.header| ==> p.bodySent == 0)
    && p.socket == Payload(job)[..p.headerSent + p.bodySent]
  }

  lemma {:induction false} OfferedIsRest<T>(job: Job<T>, p: Progress<T>)
    requires Sent(job, p)
    ensures Offered(job, p) == Payload(job)[p.headerSent + p.bodySent..]
  {
    hide Window;
    var body := Window(job.file, job.off, job.n);
    if p.headerSent < |job.header| {
      TailOfFirst(job.header, body, p.headerSent);
    } else {
      WindowTail(job.file, job.off, job.n, p.bodySent);
      TailOfSecond(job.header, body, p.bodySent);
    }
  }

  lemma {:induction false} TailOfFirst<T>(a: seq<T>, b: seq<T>, i: nat)
    requires i <= |a|
    ensures (a + b)[i..] == a[i..] + b
  {
  }

  lemma {:induction false} TailOfSecond<T>(a: seq<T>, b: seq<T>, i: nat)
    requires i <= |b|
    ensures (a + b)[|a| + i..] == b[i..]
  {
  }

  lemma {:induction false} RoundSent<T>(job: Job<T>, p: Progress<T>, reply: Reply)
    requires Sent(job, p)
    ensures Sent(job, Round(job, p, reply))
    ensures p.socket <= Round(job, p, reply).socket
  {
    OfferedIsRest(job, p);
    var at := p.headerSent + p.bodySent;
    var total := Min(reply.count, |Offered(job, p)|);
    assert Payload(job)[..at] + Payload(job)[at..][..total] == Payload(job)[..at + total];
  }

  lemma {:induction false} CallSent<T>(job: Job<T>, p: Progress<T>, replies: seq<Reply>)
    requires Sent(job, p)
    ensures Sent(job, Call(job, p, replies).0)
    decreases |replies|
  {
    if !Complete(job, p) && replies != [] {
      RoundSent(job, p, replies[0]);
      CallSent(job, Round(job, p, replies[0]), replies[1..]);
    }
  }

  /** Whatever the kernel does over any number of calls, the socket holds a prefix of header ++ file[off..off + n]; it
      holds all of it exactly when both counters are complete and the file reaches that far. */
  lemma {:induction false} SendsPrefix<T>(job: Job<T>, calls: seq<seq<Reply>>)
    ensures var p := Calls(job, Progress(0, 0, []), calls);
            && p.socket <= Payload(job)
            && |p.socket| == p.headerSent + p.bodySent
            && (Complete(job, p) <==> p.socket == Payload(job) && |Window(job.file, job.off, job.n)| == job.n)
  {
    CallsSent(job, Progress(0, 0, []), calls);
  }

  lemma {:induction false} CallsSent<T>(job: Job<T>, p: Progress<T>, calls: seq<seq<Reply>>)
    requires Sent(job, p)
    ensures Sent(job, Calls(job, p, calls))
    decreases |calls|
  {
    if calls != [] {
      CallSent(job, p, calls[0]);
      CallsSent(job, Call(job, p, calls[0]).0, calls[1..]);
    }
  }

  /** A kernel that always ships something gets there within as many calls as there are bytes. */
  lemma {:induction false} Finishes<T>(job: Job<T>, p: Progress<T>, replies: seq<Reply>)
    requires Sent(job, p) && job.off + job.n <= |job.file|
    requires forall i :: 0 <= i < |replies| ==> replies[i].count >= 1 && replies[i].errno == Success
    requires |replies| >= |Payload(job)| - |p.socket|
    ensures Call(job, p, replies).0.socket == Payload(job) && Call(job, p, replies).1 == Over(Success)
    decreases |replies|
  {
    if !Complete(job, p) {
      OfferedIsRest(job, p);
      RoundSent(job, p, replies[0]);
      Finishes(job, Round(job, p, replies[0]), replies[1..]);
    }
  }

  // ---- the body alone ---------------------------------------------------------------

  const MID_CHUNK: nat := 0x100_0000          // 16 MiB
  const ELEPHANT_CHUNK: nat := 0x200_0000     // 32 MiB, and the size above which it is used
  const SINGLE_SHOT: nat := 0x40_0000         // 4 MiB

  /** maxSendfileSlice: a batch is never empty and never more than what remains; small bodies go in one. */
  function MaxSlice(total: nat, remaining: nat): (batch: nat)
    ensures 1 <= remaining <= total ==> 1 <= batch <= remaining
    ensures 1 <= remaining <= total <= SINGLE_SHOT ==> batch == remaining
    ensures total > SINGLE_SHOT ==> batch <= ELEPHANT_CHUNK
    ensures SINGLE_SHOT < total <= ELEPHANT_CHUNK ==> batch <= MID_CHUNK
  {
    var max := if total <= SINGLE_SHOT then total else if total > ELEPHANT_CHUNK then ELEPHANT_CHUNK else MID_CHUNK;
    if remaining < max then remaining else max
  }

  /** What one call may ship of the body. */
  function Batch<T>(job: Job<T>, transferred: nat): (r: seq<T>)
    requires transferred < job.n
  {
    Window(job.file, job.off + transferred, MaxSlice(job.n, job.n - transferred))
  }

  function BodyCall<T>(job: Job<T>, transferred: nat, socket: seq<T>, replies: seq<Reply>): (nat, seq<T>, Signal)
    decreases |replies|
  {
    if transferred >= job.n then (transferred, socket, Over(Success))
    else if replies == [] then (transferred, socket, Going)
    else
      var wrote := Min(replies[0].count, |Batch(job, transferred)|);
      var t, s := transferred + wrote, socket + Batch(job, transferred)[..wrote];
      match replies[0].errno
      case Success => if wrote == 0 then (t, s, Over(Success)) else BodyCall(job, t, s, replies[1..])
      case Again => (t, s, Rearm)
      case Interrupted => BodyCall(job, t, s, replies[1..])
      case Failed(_) => (t, s, Over(replies[0].errno))
  }

  function BodyCalls<T>(job: Job<T>, transferred: nat, socket: seq<T>, calls: seq<seq<Reply>>): (nat, seq<T>)
    decreases |calls|
  {
    if calls == [] then (transferred, socket)
    else
      var r := BodyCall(job, transferred, socket, calls[0]);
      BodyCalls(job, r.0, r.1, calls[1..])
  }

  class BodySend<T> {
    const job: Job<T>
    var transferred: nat
    ghost var socket: seq<T>

    constructor (job: Job<T>)
      ensures this.job == job && transferred == 0 && socket == []
    {
      this.job, transferred, socket := job, 0, [];
    }

    method Kernel(wish: nat) returns (wrote: nat)
      requires transferred < job.n
      modifies this`socket
      ensures wrote == Min(wish, |Batch(job, transferred)|)
      ensures socket == old(socket) + Batch(job, transferred)[..wrote]
    {
      wrote := Min(wish, |Batch(job, transferred)|);
      socket := socket + Batch(job, transferred)[..wrote];
    }

    /** sfState.write. */
    method Write(replies: seq<Reply>) returns (signal: Signal)
      modifies this
      ensures (transferred, socket, signal) == BodyCall(job, old(transferred), old(socket), replies)
    {
      var i := 0;
      while transferred < job.n
        invariant i <= |replies|
        invariant BodyCall(job, old(transferred), old(socket), replies)
               == BodyCall(job, transferred, socket, replies[i..])
        decreases |replies| - i
      {
        if i == |replies| { return Going; }
        assert replies[i..][1..] == replies[i + 1..];
        var wrote := Kernel(replies[i].count);
        transferred := transferred + wrote;
        var errno := replies[i].errno;
        i := i + 1;
        match errno
        case Success =>
          if wrote == 0 { return Over(Success); }
        case Again => return Rearm;
        case Interrupted =>
        case Failed(_) => return Over(errno);
      }
      return Over(Success);
    }
  }

  predicate BodySent<T(==)>(job: Job<T>, transferred: nat, socket: seq<T>) {
    transferred <= |Window(job.file, job.off, job.n)| && socket == Window(job.file, job.off, job.n)[..transferred]
  }

  lemma {:induction false} BatchIsNext<T>(job: Job<T>, transferred: nat, socket: seq<T>, wrote: nat)
    requires BodySent(job, transferred, socket) && transferred < job.n && wrote <= |Batch(job, transferred)|
    ensures BodySent(job, transferred + wrote, socket + Batch(job, transferred)[..wrote])
  {
    var all := Window(job.file, job.off, job.n);
    WindowTail(job.file, job.off, job.n, transferred);
    WindowPrefix(job.file, job.off + transferred, MaxSlice(job.n, job.n - transferred), job.n - transferred, wrote);
    assert all[..transferred] + all[transferred..][..wrote] == all[..transferred + wrote];
  }

  lemma {:induction false} BodyCallSent<T>(job: Job<T>, transferred: nat, socket: seq<T>, replies: seq<Reply>)
    requires BodySent(job, transferred, socket)
    ensures var r := BodyCall(job, transferred, socket, replies); BodySent(job, r.0, r.1)
    decreases |replies|
  {
    if transferred < job.n && replies != [] {
      var batch := Batch(job, transferred);
      var wrote := Min(replies[0].count, |batch|);
      BatchIsNext(job, transferred, socket, wrote);
      BodyCallSent(job, transferred + wrote, socket + batch[..wrote], replies[1..]);
    }
  }

  /** The body-only loop sends a prefix of file[off..off + n], and all of it exactly when its counter says so. */
  lemma {:induction false} BodySendsPrefix<T>(job: Job<T>, calls: seq<seq<Reply>>)
    ensures var r := BodyCalls(job, 0, [], calls);
            && r.1 <= Window(job.file, job.off, job.n) && |r.1| == r.0
            && (r.0 == job.n <==> r.1 == Window(job.file, job.off, job.n) && |r.1| == job.n)
  {
    BodyCallsSent(job, 0, [], calls);
  }

  lemma {:induction false} BodyCallsSent<T>(job: Job<T>, transferred: nat, socket: seq<T>, calls: seq<seq<Reply>>)
    requires BodySent(job, transferred, socket)
    ensures var r := BodyCalls(job, transferred, socket, calls); BodySent(job, r.0, r.1)
    decreases |calls|
  {
    if calls != [] {
      BodyCallSent(job, transferred, socket, calls[0]);
      var r := BodyCall(job, transferred, socket, calls[0]);
      BodyCallsSent(job, r.0, r.1, calls[1..]);
    }
  }
}
