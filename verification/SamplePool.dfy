/** The sample allocator as a state machine: one step for each critical section, and one for each
    thing a thread does outside them. */
module SamplePool {

  /** free is the free list, first the head; outstanding are the samples handed out. waiters counts
      the threads between SetWaiting and the end of their wait, timeouts the calls that gave up
      because they were told not to wait. owed counts the calls of Release that a critical section
      has decided on and that are still to come. */
  datatype Pool<T(==)> = Pool(
    free: seq<T>,
    outstanding: set<T>,
    total: nat,
    committed: bool,
    decommitting: bool,
    waiting: nat,
    semaphore: nat,
    waiters: nat,
    timeouts: nat,
    selfRefs: int,
    owed: nat)

  /** What Alloc did: nothing to do, a new set of samples, or a failure that has left some. */
  datatype Allocation<T> = Kept | Built(samples: seq<T>) | Failed | FailedWith(samples: seq<T>)

  datatype Act<T(==)> =
    | Get(nowait: bool)
    | Wake
    | Put(sample: T)
    | Commit(allocation: Allocation<T>)
    | Decommit
    | PayRelease

  predicate NoDuplicates<T(==)>(s: seq<T>) {
    forall i, j :: 0 <= i < j < |s| ==> s[i] != s[j]
  }

  /** A thread wakes only on the semaphore; a sample comes back only if it is out; and memory is
      built anew only by the Commit that calls Alloc. */
  predicate Enabled<T(==)>(p: Pool<T>, a: Act<T>) {
    match a
    case Get(_) => true
    case Wake => p.waiters > 0 && p.semaphore > 0
    case Put(b) => b in p.outstanding
    case Commit(Built(s)) => NoDuplicates(s)
    case Commit(FailedWith(s)) => NoDuplicates(s)
    case Commit(_) => true
    case Decommit => true
    case PayRelease => p.owed > 0
  }

  function Notified<T(==)>(p: Pool<T>): Pool<T> {
    if p.waiting != 0 then p.(semaphore := p.semaphore + p.waiting, waiting := 0) else p
  }

  function AfterGet<T(==)>(p: Pool<T>, nowait: bool): Pool<T> {
    if !p.committed then p
    else if p.free != [] then p.(free := p.free[1..], outstanding := p.outstanding + {p.free[0]})
    else if nowait then p.(waiting := p.waiting + 1, timeouts := p.timeouts + 1)
    else p.(waiting := p.waiting + 1, waiters := p.waiters + 1)
  }

  function AfterPut<T(==)>(p: Pool<T>, b: T): Pool<T> {
    var q := Notified(p.(free := [b] + p.free, outstanding := p.outstanding - {b}));
    if q.decommitting && |q.free| == q.total then q.(decommitting := false, owed := q.owed + 1) else q
  }

  function AfterCommit<T(==)>(p: Pool<T>, a: Allocation<T>): Pool<T> {
    if p.committed then p
    else if p.decommitting then p.(committed := true, decommitting := false)
    else
      match a
      case Kept => p.(committed := true, selfRefs := p.selfRefs + 1)
      case Built(s) => p.(committed := true, selfRefs := p.selfRefs + 1, free := s, total := |s|)
      case Failed => p
      case FailedWith(s) => p.(free := s, total := |s|)
  }

  function AfterDecommit<T(==)>(p: Pool<T>): Pool<T> {
    if !p.committed && !p.decommitting then p
    else if |p.free| < p.total then Notified(p.(committed := false, decommitting := true))
    else Notified(p.(committed := false, decommitting := false, owed := p.owed + 1))
  }

  function After<T(==)>(p: Pool<T>, a: Act<T>): Pool<T>
    requires Enabled(p, a)
  {
    match a
    case Get(nowait) => AfterGet(p, nowait)
    case Wake => p.(waiters := p.waiters - 1, semaphore := p.semaphore - 1)
    case Put(b) => AfterPut(p, b)
    case Commit(allocation) => AfterCommit(p, allocation)
    case Decommit => AfterDecommit(p)
    case PayRelease => p.(owed := p.owed - 1, selfRefs := p.selfRefs - 1)
  }

  predicate Initial<T(==)>(p: Pool<T>) {
    p == Pool([], {}, 0, false, false, 0, 0, 0, 0, 0, 0)
  }

  predicate Legal<T(==)>(p: Pool<T>, acts: seq<Act<T>>)
    decreases acts
  {
    acts != [] ==> Enabled(p, acts[0]) && Legal(After(p, acts[0]), acts[1..])
  }

  function Run<T(==)>(p: Pool<T>, acts: seq<Act<T>>): Pool<T>
    requires Legal(p, acts)
    decreases acts
  {
    if acts == [] then p else Run(After(p, acts[0]), acts[1..])
  }

  // ----- What every step keeps -----

  /** Each sample is in exactly one place. */
  ghost predicate OnePlace<T>(p: Pool<T>) {
    && NoDuplicates(p.free)
    && (forall i :: 0 <= i < |p.free| ==> p.free[i] !in p.outstanding)
    && |p.free| + |p.outstanding| == p.total
  }

  /** A decommit in progress has samples to wait for; an idle decommitted pool has all of them. */
  ghost predicate Phase<T>(p: Pool<T>) {
    && (p.decommitting ==> !p.committed && p.outstanding != {})
    && (!p.committed && !p.decommitting ==> p.outstanding == {})
  }

  /** The lazy signalling: nobody is recorded as waiting when there is nothing to wait for, and
      every recorded or signalled wake-up belongs to a thread that waits or one that gave up. */
  ghost predicate Signalling<T>(p: Pool<T>) {
    && (p.free != [] || !p.committed ==> p.waiting == 0)
    && p.waiting + p.semaphore == p.waiters + p.timeouts
  }

  /** The allocator holds one reference to itself while committed or decommitting, besides those
      whose release is still owed. */
  ghost predicate References<T>(p: Pool<T>) {
    p.selfRefs == (if p.committed || p.decommitting then 1 else 0) + p.owed
  }

  ghost predicate Sound<T>(p: Pool<T>) {
    OnePlace(p) && Phase(p) && Signalling(p) && References(p)
  }

  lemma GetKeeps<T>(p: Pool<T>, nowait: bool)
    requires Sound(p)
    ensures Sound(AfterGet(p, nowait))
  {
    if p.committed && p.free != [] {
      var b := p.free[0];
      assert b !in p.outstanding;
      assert |p.outstanding + {b}| == |p.outstanding| + 1;
    }
  }

  lemma PutKeeps<T>(p: Pool<T>, b: T)
    requires Sound(p) && b in p.outstanding
    ensures Sound(AfterPut(p, b))
  {
    assert |p.outstanding - {b}| == |p.outstanding| - 1;
    var q := AfterPut(p, b);
    assert q.free == [b] + p.free;
    if |q.free| == q.total {
      assert |q.outstanding| == 0;
    }
  }

  lemma CommitKeeps<T>(p: Pool<T>, a: Allocation<T>)
    requires Sound(p) && Enabled(p, Act.Commit(a))
    ensures Sound(AfterCommit(p, a))
  {
  }

  lemma StepKeeps<T>(p: Pool<T>, a: Act<T>)
    requires Sound(p) && Enabled(p, a)
    ensures Sound(After(p, a))
  {
    match a
    case Get(nowait) => GetKeeps(p, nowait);
    case Put(b) => PutKeeps(p, b);
    case Decommit =>
      if |p.free| == p.total {
        assert p.outstanding == {};
      }
    case _ =>
  }

  lemma {:induction false} RunKeeps<T>(p: Pool<T>, acts: seq<Act<T>>)
    requires Sound(p) && Legal(p, acts)
    ensures Sound(Run(p, acts))
    decreases acts
  {
    if acts != [] {
      StepKeeps(p, acts[0]);
      RunKeeps(After(p, acts[0]), acts[1..]);
    }
  }

  lemma Reachable<T>(p: Pool<T>, acts: seq<Act<T>>)
    requires Initial(p) && Legal(p, acts)
    ensures var q := Run(p, acts); OnePlace(q) && Phase(q) && Signalling(q) && References(q)
  {
    RunKeeps(p, acts);
  }

  // ----- What follows -----

  /** No waiter is stranded: when there is a free sample, or the pool is not committed, the
      semaphore has a count for every thread that waits. */
  lemma NoWaiterStranded<T>(p: Pool<T>, acts: seq<Act<T>>)
    requires Initial(p) && Legal(p, acts)
    ensures var q := Run(p, acts);
      q.free != [] || !q.committed ==> q.semaphore == q.waiters + q.timeouts
  {
    Reachable(p, acts);
  }

  /** How many calls of a run gave up. */
  function GivenUp<T(==)>(p: Pool<T>, acts: seq<Act<T>>): nat
    requires Legal(p, acts)
    decreases acts
  {
    if acts == [] then 0
    else
      (if acts[0] == Get(true) && p.committed && p.free == [] then 1 else 0)
      + GivenUp(After(p, acts[0]), acts[1..])
  }

  lemma {:induction false} TimeoutsCount<T>(p: Pool<T>, acts: seq<Act<T>>)
    requires Legal(p, acts)
    ensures Run(p, acts).timeouts == p.timeouts + GivenUp(p, acts)
    decreases acts
  {
    if acts != [] {
      TimeoutsCount(After(p, acts[0]), acts[1..]);
    }
  }

  /** The source states that recorded waiters and semaphore count add up to the waiting threads.
      That holds exactly as long as no call has given up on its wait. */
  lemma StatedCountIff<T>(p: Pool<T>, acts: seq<Act<T>>)
    requires Initial(p) && Legal(p, acts)
    ensures var q := Run(p, acts);
      && q.waiting + q.semaphore == q.waiters + GivenUp(p, acts)
      && (q.waiting + q.semaphore == q.waiters <==> GivenUp(p, acts) == 0)
  {
    Reachable(p, acts);
    TimeoutsCount(p, acts);
  }

  /** A commit during a pending decommit cancels it: the samples that are out stay out, and the
      reference taken by the first commit is the only one. */
  lemma CommitCancelsDecommit<T>(p: Pool<T>, acts: seq<Act<T>>, a: Allocation<T>)
    requires Initial(p) && Legal(p, acts)
    requires var q := Run(p, acts); q.committed && q.outstanding != {}
    ensures var q := Run(p, acts);
      && AfterDecommit(q).decommitting
      && var r := AfterCommit(AfterDecommit(q), a);
        && r == Notified(q) && r.selfRefs == 1 + r.owed
  {
    Reachable(p, acts);
    var q := Run(p, acts);
    assert |q.outstanding| > 0;
  }

  /** How many calls of a run had to wait, less those whose wait has ended. */
  function StillWaiting<T(==)>(p: Pool<T>, acts: seq<Act<T>>): int
    requires Legal(p, acts)
    decreases acts
  {
    if acts == [] then 0
    else
      (if acts[0] == Get(false) && p.committed && p.free == [] then 1 else if acts[0] == Wake then -1 else 0)
      + StillWaiting(After(p, acts[0]), acts[1..])
  }

  lemma {:induction false} WaitersCount<T>(p: Pool<T>, acts: seq<Act<T>>)
    requires Legal(p, acts)
    ensures Run(p, acts).waiters == p.waiters + StillWaiting(p, acts)
    decreases acts
  {
    if acts != [] {
      WaitersCount(After(p, acts[0]), acts[1..]);
    }
  }

  /** So many threads wait as there are calls that found no sample and have not gone on: each is owed
      a wake-up, and has it as soon as a sample is free or the pool is decommitted. */
  lemma EveryWaiterCounts<T>(p: Pool<T>, acts: seq<Act<T>>)
    requires Initial(p) && Legal(p, acts)
    ensures var q := Run(p, acts);
      && q.waiting + q.semaphore == StillWaiting(p, acts) + GivenUp(p, acts)
      && (q.free != [] || !q.committed ==> q.semaphore == StillWaiting(p, acts) + GivenUp(p, acts))
  {
    Reachable(p, acts);
    TimeoutsCount(p, acts);
    WaitersCount(p, acts);
  }
}
