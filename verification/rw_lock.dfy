/** `AsyncReaderWriterLock` as a state machine. Every public operation runs
    its state change inside one monitor, so each is one atomic transition
    here; the blocking and the asynchronous forms of an acquisition make
    the same transition and differ only in how the caller waits.

    Besides the source's own fields (`status`, the writer queue, the count
    of waiting readers) the state records who holds the lock and the order
    in which writers asked for and received it, so that mutual exclusion
    and FIFO fairness can be stated. */
module ReaderWriterLock {
  import opened Tiles

  /** Identity of a writer that asked for the lock. */
  type Waiter = nat

  datatype LockState = LockState(
    status: int,                     // -1: a writer holds it; 0: free; n > 0: n readers hold it
    waitingWriters: seq<Waiter>,     // FIFO queue, front at index 0
    readersWaiting: nat,             // readers parked on the shared reader task
    readersHolding: nat,             // readers currently inside the lock
    writersHolding: multiset<Waiter>,// the writers currently inside the lock
    requested: seq<Waiter>,          // every writer request, in arrival order
    granted: seq<Waiter>)            // every writer grant, in grant order

  /** A new, free lock. */
  const Initial: LockState := LockState(0, [], 0, 0, multiset{}, [], [])

  /** The handle returned by an acquisition. `toRelease == false` is the
      default struct, whose lock reference is null. */
  datatype Releaser = Releaser(toRelease: bool, writer: bool)

  const DefaultReleaser: Releaser := Releaser(false, false)

  /** The outcome of an acquisition: the new state and, when granted at
      once, the handle; `None` means the caller now waits. */
  datatype Acquire = Acquire(state: LockState, releaser: Option<Releaser>)

  /** The consistency the transitions preserve. */
  ghost predicate Inv(s: LockState) {
    && s.status >= -1
    && |s.writersHolding| <= 1
    && (s.status == -1 <==> |s.writersHolding| == 1)
    && (s.status >= 0 ==> s.readersHolding == s.status)
    && (s.status == -1 ==> s.readersHolding == 0)
    && (s.readersWaiting > 0 ==> s.status == -1 || |s.waitingWriters| > 0)
    && (s.status == 0 ==> |s.waitingWriters| == 0)
    && s.requested == s.granted + s.waitingWriters
  }

  /** At most one writer, and never a writer together with readers. */
  ghost predicate MutualExclusion(s: LockState) {
    && |s.writersHolding| <= 1
    && (|s.writersHolding| > 0 ==> s.readersHolding == 0)
  }

  /** `ReaderLock` / `ReaderLockAsync`. */
  function ReaderLock(s: LockState): (r: Acquire)
    ensures r.releaser.Some? <==> s.status >= 0 && |s.waitingWriters| == 0
    ensures r.releaser.Some? ==>
      r.state == s.(status := s.status + 1, readersHolding := s.readersHolding + 1)
      && r.releaser.value == Releaser(true, false)
    ensures r.releaser.None? ==>
      r.state == s.(readersWaiting := s.readersWaiting + 1)
  {
    if s.status >= 0 && |s.waitingWriters| == 0 then
      Acquire(s.(status := s.status + 1, readersHolding := s.readersHolding + 1), Some(Releaser(true, false)))
    else
      Acquire(s.(readersWaiting := s.readersWaiting + 1), None)
  }

  /** `WriterLock` / `WriterLockAsync` for writer `w`. */
  function WriterLock(s: LockState, w: Waiter): (r: Acquire)
    ensures r.releaser.Some? <==> s.status == 0
    ensures r.releaser.Some? ==>
      r.state.status == -1 && r.state.writersHolding == s.writersHolding + multiset{w}
      && r.state.readersHolding == s.readersHolding
      && r.releaser.value == Releaser(true, true)
    ensures r.releaser.None? ==>
      r.state == s.(waitingWriters := s.waitingWriters + [w], requested := s.requested + [w])
    ensures r.state.requested == s.requested + [w]
  {
    if s.status == 0 then
      Acquire(s.(status := -1, writersHolding := s.writersHolding + multiset{w},
                 requested := s.requested + [w], granted := s.granted + [w]), Some(Releaser(true, true)))
    else
      Acquire(s.(waitingWriters := s.waitingWriters + [w], requested := s.requested + [w]), None)
  }

  /** Dequeues the front writer and lets it in; the status is left to the
      caller. */
  function WakeFrontWriter(s: LockState): (r: LockState)
    requires |s.waitingWriters| > 0
    ensures r.writersHolding == s.writersHolding + multiset{s.waitingWriters[0]}
    ensures r.waitingWriters == s.waitingWriters[1..]
    ensures r.granted == s.granted + [s.waitingWriters[0]]
    ensures r.status == s.status && r.readersHolding == s.readersHolding
    ensures r.readersWaiting == s.readersWaiting && r.requested == s.requested
  {
    var w := s.waitingWriters[0];
    s.(waitingWriters := s.waitingWriters[1..], writersHolding := s.writersHolding + multiset{w},
       granted := s.granted + [w])
  }

  /** `ReaderRelease`: one reader leaves; the last reader out hands the
      lock to the front writer if one is queued, setting the status to -1. */
  function ReaderRelease(s: LockState): (r: LockState)
    ensures s.status - 1 == 0 && |s.waitingWriters| > 0 ==>
      r.status == -1 && r.writersHolding == s.writersHolding + multiset{s.waitingWriters[0]}
      && r.waitingWriters == s.waitingWriters[1..]
    ensures !(s.status - 1 == 0 && |s.waitingWriters| > 0) ==>
      r.status == s.status - 1 && r.waitingWriters == s.waitingWriters
      && r.writersHolding == s.writersHolding
    ensures r.readersHolding == if s.readersHolding > 0 then s.readersHolding - 1 else 0
    ensures r.readersWaiting == s.readersWaiting
  {
    var s1 := s.(status := s.status - 1,
                 readersHolding := if s.readersHolding > 0 then s.readersHolding - 1 else 0);
    if s1.status == 0 && |s1.waitingWriters| > 0 then WakeFrontWriter(s1.(status := -1)) else s1
  }

  /** `WriterRelease`, issued by writer `w` (the source's releaser does not
      know which writer it belongs to; the model names it to track who is
      inside): the next queued writer if any, with the status left as it
      was; otherwise every waiting reader at once; otherwise the lock
      becomes free. */
  function WriterRelease(s: LockState, w: Waiter): (r: LockState)
    ensures |s.waitingWriters| > 0 ==>
      r.status == s.status
      && r.writersHolding == s.writersHolding - multiset{w} + multiset{s.waitingWriters[0]}
      && r.waitingWriters == s.waitingWriters[1..] && r.readersWaiting == s.readersWaiting
      && r.readersHolding == s.readersHolding
    ensures |s.waitingWriters| == 0 && s.readersWaiting > 0 ==>
      r.status == s.readersWaiting && r.readersWaiting == 0
      && r.writersHolding == s.writersHolding - multiset{w}
      && r.readersHolding == s.readersHolding + s.readersWaiting
    ensures |s.waitingWriters| == 0 && s.readersWaiting == 0 ==>
      r.status == 0 && r.writersHolding == s.writersHolding - multiset{w}
  {
    var s1 := s.(writersHolding := s.writersHolding - multiset{w});
    if |s1.waitingWriters| > 0 then WakeFrontWriter(s1)
    else if s1.readersWaiting > 0 then
      s1.(status := s1.readersWaiting, readersHolding := s1.readersHolding + s1.readersWaiting,
          readersWaiting := 0)
    else s1.(status := 0)
  }

  /** `Releaser.Dispose`, called by client `w` (used only when the handle
      is a writer's). */
  function Dispose(s: LockState, h: Releaser, w: Waiter): (r: LockState)
    ensures !h.toRelease ==> r == s
    ensures h.toRelease && h.writer ==> r == WriterRelease(s, w)
    ensures h.toRelease && !h.writer ==> r == ReaderRelease(s)
  {
    if !h.toRelease then s
    else if h.writer then WriterRelease(s, w)
    else ReaderRelease(s)
  }

  // ---- invariants ----

  lemma InitialInv()
    ensures Inv(Initial)
  {
  }

  /** The invariant implies mutual exclusion. */
  lemma InvMutualExclusion(s: LockState)
    requires Inv(s)
    ensures MutualExclusion(s)
    ensures s.status == -1 <==> |s.writersHolding| > 0 && s.readersHolding == 0
  {
  }

  lemma ReaderLockInv(s: LockState)
    requires Inv(s)
    ensures Inv(ReaderLock(s).state)
  {
  }

  lemma WriterLockInv(s: LockState, w: Waiter)
    requires Inv(s)
    ensures Inv(WriterLock(s, w).state)
  {
  }

  /** A reader that holds the lock may release it. */
  lemma ReaderReleaseInv(s: LockState)
    requires Inv(s) && s.readersHolding > 0
    ensures Inv(ReaderRelease(s))
  {
  }

  /** The writer that holds the lock may release it. */
  lemma WriterReleaseInv(s: LockState, w: Waiter)
    requires Inv(s) && w in s.writersHolding
    ensures Inv(WriterRelease(s, w))
    ensures |s.waitingWriters| > 0 ==> WriterRelease(s, w).writersHolding == multiset{s.waitingWriters[0]}
    ensures |s.waitingWriters| == 0 ==> WriterRelease(s, w).writersHolding == multiset{}
  {
  }

  // ---- fairness ----

  /** Writer preference: while a writer is queued, a newly arriving reader
      waits even if readers hold the lock. */
  lemma QueuedWriterBlocksNewReaders(s: LockState)
    requires |s.waitingWriters| > 0
    ensures ReaderLock(s).releaser.None?
    ensures ReaderLock(s).state.status == s.status
  {
  }

  /** Reader batching: a writer's release with no writer queued admits all
      waiting readers together. */
  lemma WriterReleaseWakesReaderBatch(s: LockState, w: Waiter)
    requires Inv(s) && w in s.writersHolding
    requires |s.waitingWriters| == 0 && s.readersWaiting > 0
    ensures WriterRelease(s, w).readersHolding == s.readersWaiting
    ensures WriterRelease(s, w).status == s.readersWaiting
    ensures WriterRelease(s, w).readersWaiting == 0
  {
  }

  /** Writers are served in arrival order: the grants so far are a prefix of
      the requests, and no transition rewrites either log. */
  lemma WritersFifo(s: LockState, w: Waiter)
    requires Inv(s)
    ensures s.granted <= s.requested
    ensures ReaderLock(s).state.granted == s.granted
    ensures s.granted <= WriterLock(s, w).state.granted
    ensures s.granted <= ReaderRelease(s).granted
    ensures s.granted <= WriterRelease(s, w).granted
    ensures s.requested <= WriterLock(s, w).state.requested
  {
  }

  /** Releasing through the default handle changes nothing; a real handle
      releases on every call, so a second Dispose releases again. */
  lemma DefaultReleaserIsNoOp(s: LockState, w: Waiter)
    ensures Dispose(s, DefaultReleaser, w) == s
    ensures Dispose(s, Releaser(true, false), w).status == ReaderRelease(s).status
  {
  }

  /** A releaser is a plain value, so disposing the same one twice releases
      twice: with two readers in and no writer queued, one reader's double
      Dispose frees the lock while the other reader is still inside. */
  lemma DoubleDisposeReleasesTwice(s: LockState, w: Waiter)
    requires Inv(s) && s.status == 2 && |s.waitingWriters| == 0
    ensures var h := Releaser(true, false);
      Dispose(Dispose(s, h, w), h, w).status == 0 && Dispose(Dispose(s, h, w), h, w).writersHolding == multiset{}
  {
  }

  /** The writer's handle disposed twice: the second Dispose dequeues the
      next writer as well, so two writers are inside the lock at once. */
  lemma DoubleWriterDisposeAdmitsTwoWriters(s: LockState, a: Waiter)
    requires Inv(s) && s.writersHolding == multiset{a} && |s.waitingWriters| >= 2
    requires a !in s.waitingWriters
    ensures var h := Releaser(true, true);
      var r := Dispose(Dispose(s, h, a), h, a);
      && r.writersHolding == multiset{s.waitingWriters[0], s.waitingWriters[1]}
      && r.status == -1
      && !MutualExclusion(r)
  {
  }

  /** A writer's handle disposed again after the lock passed to readers:
      the front queued writer is let in beside them, the status still
      counts the readers, and once they leave the lock reads as free while
      that writer is still inside, so a new reader is admitted. */
  lemma StaleWriterReleaseJoinsReaders(s: LockState, w: Waiter)
    requires Inv(s) && s.status == 2 && |s.waitingWriters| == 1
    ensures var r1 := WriterRelease(s, w);
      && r1.status == 2 && r1.readersHolding == 2
      && s.waitingWriters[0] in r1.writersHolding
      && !MutualExclusion(r1)
    ensures var r3 := ReaderRelease(ReaderRelease(WriterRelease(s, w)));
      && r3.status == 0
      && s.waitingWriters[0] in r3.writersHolding
      && ReaderLock(r3).releaser.Some?
  {
  }

  // ---- whole runs ----

  /** One monitor-guarded step taken by some client. */
  datatype LockOp = AcquireRead | AcquireWrite(w: Waiter) | ReleaseRead | ReleaseWrite(w: Waiter)

  /** A release is only issued by a client that holds the lock that way. */
  ghost predicate Enabled(s: LockState, op: LockOp) {
    match op
    case ReleaseRead => s.readersHolding > 0
    case ReleaseWrite(w) => w in s.writersHolding
    case _ => true
  }

  function Step(s: LockState, op: LockOp): LockState {
    match op
    case AcquireRead => ReaderLock(s).state
    case AcquireWrite(w) => WriterLock(s, w).state
    case ReleaseRead => ReaderRelease(s)
    case ReleaseWrite(w) => WriterRelease(s, w)
  }

  function Run(s: LockState, ops: seq<LockOp>): LockState
    decreases |ops|
  {
    if |ops| == 0 then s else Run(Step(s, ops[0]), ops[1..])
  }

  ghost predicate ValidRun(s: LockState, ops: seq<LockOp>)
    decreases |ops|
  {
    |ops| == 0 || (Enabled(s, ops[0]) && ValidRun(Step(s, ops[0]), ops[1..]))
  }

  /** One enabled step keeps the invariant and only extends the logs. */
  lemma StepPreservesInv(s: LockState, op: LockOp)
    requires Inv(s) && Enabled(s, op)
    ensures Inv(Step(s, op))
    ensures s.granted <= Step(s, op).granted && s.requested <= Step(s, op).requested
  {
    match op {
      case AcquireRead => ReaderLockInv(s);
      case AcquireWrite(w) => WriterLockInv(s, w);
      case ReleaseRead => ReaderReleaseInv(s);
      case ReleaseWrite(w) => WriterReleaseInv(s, w);
    }
    WritersFifo(s, if op.AcquireWrite? || op.ReleaseWrite? then op.w else 0);
  }

  /** Any run of properly paired operations keeps the invariant (so mutual
      exclusion) and only extends the request and grant logs, so writers
      are granted the lock in the order they asked for it. */
  lemma {:induction false} RunPreservesInv(s: LockState, ops: seq<LockOp>)
    requires Inv(s) && ValidRun(s, ops)
    ensures Inv(Run(s, ops))
    ensures MutualExclusion(Run(s, ops))
    ensures s.granted <= Run(s, ops).granted
    ensures s.requested <= Run(s, ops).requested
    ensures Run(s, ops).granted <= Run(s, ops).requested
    decreases |ops|
  {
    if |ops| > 0 {
      StepPreservesInv(s, ops[0]);
      RunPreservesInv(Step(s, ops[0]), ops[1..]);
    } else {
      InvMutualExclusion(s);
    }
  }

  /** From a fresh lock, the i-th writer granted is the i-th that asked. */
  lemma WritersGrantedInArrivalOrder(ops: seq<LockOp>, i: nat)
    requires ValidRun(Initial, ops)
    requires i < |Run(Initial, ops).granted|
    ensures i < |Run(Initial, ops).requested|
    ensures Run(Initial, ops).granted[i] == Run(Initial, ops).requested[i]
  {
    RunPreservesInv(Initial, ops);
  }
}
