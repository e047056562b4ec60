/**
 The job scheduler as a transition system. Every step is one stretch of event-loop code between
 two suspension points: adding a job, one round of the scheduling loop, the start of a job's
 task, the end of its body, the clean-up that releases its lock, and an abort request.

 Job and lock objects live in two growing sequences and are referred to by their position, so a
 lock that was dropped from the table of named locks and created again is a different object
 with the same name.
 */
module Jobs {
  import opened Sequences
  import opened Wrappers

  datatype State = WAITING | RUNNING | SUCCESS | FAILED | ABORTED

  // Where a job is in its life; `state` below is what the program itself records.
  datatype Phase = Refused | Queued | Dispatched | Running | Closing | Finished

  datatype Job = Job(lock: Option<nat>, id: Option<nat>, transient: bool, aborted: bool, state: State, phase: Phase)

  datatype Lock = Lock(name: string, jobs: set<nat>, locked: bool)

  datatype Outcome = Returned | Raised | Cancelled

  datatype Sys = Sys(
    jobs: seq<Job>, locks: seq<Lock>,              // every object created so far
    jobLocks: map<string, nat>, queue: seq<nat>, event: bool,
    maxlen: nat, count: nat, history: seq<nat>)    // the bounded history, oldest first

  datatype Event =
    | Add(name: Option<string>, lockQueueSize: Option<nat>, transient: bool)
    | Next
    | Start(job: nat)
    | End(job: nat, outcome: Outcome)
    | Finish(job: nat)
    | Abort(job: nat)

  predicate Terminal(st: State) {
    st == SUCCESS || st == FAILED || st == ABORTED
  }

  predicate Live(j: Job) {
    j.phase == Queued || j.phase == Dispatched || j.phase == Running
  }

  // Taken from the queue and not yet done with its lock.
  predicate Active(j: Job) {
    j.phase == Dispatched || j.phase == Running || j.phase == Closing
  }

  predicate Engaged(j: Job) {
    j.phase == Queued || Active(j)
  }

  // Every reference denotes an object.
  predicate Refs(s: Sys) {
    && (forall n :: n in s.jobLocks ==> s.jobLocks[n] < |s.locks|)
    && (forall r :: 0 <= r < |s.jobs| && s.jobs[r].lock.Some? ==> s.jobs[r].lock.value < |s.locks|)
    && (forall i :: 0 <= i < |s.queue| ==> s.queue[i] < |s.jobs|)
    && (forall i :: 0 <= i < |s.history| ==> s.history[i] < |s.jobs|)
  }

  predicate Registered(s: Sys, l: nat) {
    l < |s.locks| && s.locks[l].name in s.jobLocks && s.jobLocks[s.locks[l].name] == l
  }

  function LockName(s: Sys, r: nat): Option<string>
    requires Refs(s) && r < |s.jobs|
  {
    if s.jobs[r].lock.None? then None else Some(s.locks[s.jobs[r].lock.value].name)
  }

  // The two jobs ask for the lock of the same name.
  predicate SameName(s: Sys, q: nat, r: nat)
    requires Refs(s) && q < |s.jobs| && r < |s.jobs|
  {
    LockName(s, q).Some? && LockName(s, q) == LockName(s, r)
  }

  predicate Runnable(s: Sys, r: nat)
    requires Refs(s) && r < |s.jobs|
  {
    s.jobs[r].lock.None? || !s.locks[s.jobs[r].lock.value].locked
  }

  // --- Steps -----------------------------------------------------------------------------------

  // A new job object attached to the lock of its name, which is created when there is none.
  function HandleLock(s: Sys, name: Option<string>, transient: bool): Sys
    requires Refs(s)
  {
    var r := |s.jobs|;
    if name.None? then
      s.(jobs := s.jobs + [Job(None, None, transient, false, WAITING, Refused)])
    else
      var n := name.value;
      var locks := if n in s.jobLocks then s.locks else s.locks + [Lock(n, {}, false)];
      var l := if n in s.jobLocks then s.jobLocks[n] else |s.locks|;
      s.(jobs := s.jobs + [Job(Some(l), None, transient, false, WAITING, Refused)],
         locks := locks[l := locks[l].(jobs := locks[l].jobs + {r})],
         jobLocks := s.jobLocks[n := l])
  }

  // The queued jobs that hold on to the same lock object (or, likewise, to none).
  function SameLock(jobs: seq<Job>, queue: seq<nat>, lock: Option<nat>): seq<nat>
    requires forall i :: 0 <= i < |queue| ==> queue[i] < |jobs|
  {
    if queue == [] then []
    else
      var init, last := queue[..|queue| - 1], queue[|queue| - 1];
      SameLock(jobs, init, lock) + (if jobs[last].lock == lock then [last] else [])
  }

  // The last of them is the one queued last.
  lemma {:induction false} LastQueued(jobs: seq<Job>, queue: seq<nat>, lock: Option<nat>, q: nat)
    requires Sorted(queue) && (forall i :: 0 <= i < |queue| ==> queue[i] < |jobs|) && q in queue && jobs[q].lock == lock
    ensures var same := SameLock(jobs, queue, lock); same != [] && q <= same[|same| - 1]
  {
    var n := |queue| - 1;
    assert queue == queue[..n] + [queue[n]];
    if jobs[queue[n]].lock == lock {
      var i :| 0 <= i < |queue| && queue[i] == q;
    } else {
      LastQueued(jobs, queue[..n], lock, q);
    }
  }

  lemma {:induction false} AllUpToLast(jobs: seq<Job>, queue: seq<nat>, r: nat)
    requires Sorted(queue) && (forall i :: 0 <= i < |queue| ==> queue[i] < |jobs|) && r < |jobs|
    requires var same := SameLock(jobs, queue, jobs[r].lock); same != [] && same[|same| - 1] == r
    ensures forall q :: q in queue && q < |jobs| && jobs[q].lock == jobs[r].lock ==> q <= r
  {
    forall q | q in queue && q < |jobs| && jobs[q].lock == jobs[r].lock ensures q <= r {
      LastQueued(jobs, queue, jobs[r].lock, q);
    }
  }

  // Position of the first stored job in a terminal state.
  function FirstTerminal(jobs: seq<Job>, history: seq<nat>, i: nat): (k: nat)
    requires i <= |history| && forall j :: 0 <= j < |history| ==> history[j] < |jobs|
    ensures i <= k <= |history|
    ensures forall j :: i <= j < k ==> !Terminal(jobs[history[j]].state)
    ensures k < |history| ==> Terminal(jobs[history[k]].state)
    decreases |history| - i
  {
    if i == |history| || Terminal(jobs[history[i]].state) then i else FirstTerminal(jobs, history, i + 1)
  }

  function Evicted(s: Sys): seq<nat>
    requires Refs(s)
  {
    if |s.history| > s.maxlen then Without(s.history, FirstTerminal(s.jobs, s.history, 0)) else s.history
  }

  predicate Refuses(s: Sys, lock: Option<nat>, lockQueueSize: Option<nat>)
    requires Refs(s)
  {
    lockQueueSize.Some? && |SameLock(s.jobs, s.queue, lock)| >= lockQueueSize.value
  }

  // Store, queue and announce the job created last.
  function Enqueue(s: Sys): Sys
    requires Refs(s) && |s.jobs| > 0
  {
    var r := |s.jobs| - 1;
    s.(jobs := s.jobs[r := s.jobs[r].(id := Some(s.count + 1), phase := Queued)],
       count := s.count + 1, history := Evicted(s) + [r], queue := s.queue + [r], event := true)
  }

  function AddStep(s: Sys, name: Option<string>, lockQueueSize: Option<nat>, transient: bool): Sys
    requires Refs(s)
  {
    var t := HandleLock(s, name, transient);
    if Refuses(t, t.jobs[|s.jobs|].lock, lockQueueSize) then t else Enqueue(t)
  }

  function FirstRunnable(s: Sys, i: nat): (k: nat)
    requires Refs(s) && i <= |s.queue|
    ensures i <= k <= |s.queue|
    ensures forall j :: i <= j < k ==> !Runnable(s, s.queue[j])
    ensures k < |s.queue| ==> Runnable(s, s.queue[k])
    decreases |s.queue| - i
  {
    if i == |s.queue| || Runnable(s, s.queue[i]) then i else FirstRunnable(s, i + 1)
  }

  function NextStep(s: Sys): Sys
    requires Refs(s)
  {
    var k := FirstRunnable(s, 0);
    if k == |s.queue| then s.(event := false)
    else
      var r := s.queue[k];
      s.(queue := Without(s.queue, k), event := s.event && |s.queue| != 1,
         jobs := s.jobs[r := s.jobs[r].(phase := Dispatched)],
         locks := if s.jobs[r].lock.None? then s.locks
                  else var l := s.jobs[r].lock.value; s.locks[l := s.locks[l].(locked := true)])
  }

  function StartStep(s: Sys, r: nat): Sys
    requires r < |s.jobs|
  {
    s.(jobs := s.jobs[r := if s.jobs[r].aborted then s.jobs[r].(state := ABORTED, phase := Closing)
                           else s.jobs[r].(state := RUNNING, phase := Running)])
  }

  function Final(o: Outcome): State {
    match o case Returned => SUCCESS case Raised => FAILED case Cancelled => ABORTED
  }

  function EndStep(s: Sys, r: nat, o: Outcome): Sys
    requires r < |s.jobs|
  {
    s.(jobs := s.jobs[r := s.jobs[r].(state := Final(o), phase := Closing)])
  }

  function ReleaseLock(s: Sys, r: nat): Sys
    requires Refs(s) && r < |s.jobs|
  {
    if s.jobs[r].lock.None? then s
    else
      var l := s.jobs[r].lock.value;
      var lock := s.locks[l].(jobs := s.locks[l].jobs - {r}, locked := false);
      s.(locks := s.locks[l := lock],
         jobLocks := if lock.jobs == {} then s.jobLocks - {lock.name} else s.jobLocks,
         event := true)
  }

  function FinishStep(s: Sys, r: nat): Sys
    requires Refs(s) && r < |s.jobs|
  {
    var t := ReleaseLock(s, r);
    t.(jobs := t.jobs[r := t.jobs[r].(phase := Finished)],
       history := if t.jobs[r].transient then Without(t.history, IndexOf(t.history, r)) else t.history)
  }

  function AbortStep(s: Sys, r: nat): Sys
    requires r < |s.jobs|
  {
    if Terminal(s.jobs[r].state) then s else s.(jobs := s.jobs[r := s.jobs[r].(aborted := true)])
  }

  predicate Enabled(s: Sys, e: Event) {
    match e
    case Add(_, _, _) => true
    case Next => s.event
    case Start(r) => r < |s.jobs| && s.jobs[r].phase == Dispatched
    case End(r, _) => r < |s.jobs| && s.jobs[r].phase == Running
    case Finish(r) => r < |s.jobs| && s.jobs[r].phase == Closing
    case Abort(r) => r < |s.jobs| && r in s.history
  }

  function Step(s: Sys, e: Event): Sys
    requires Refs(s) && Enabled(s, e)
  {
    match e
    case Add(name, size, transient) => AddStep(s, name, size, transient)
    case Next => NextStep(s)
    case Start(r) => StartStep(s, r)
    case End(r, o) => EndStep(s, r, o)
    case Finish(r) => FinishStep(s, r)
    case Abort(r) => AbortStep(s, r)
  }

  // --- Invariant ---------------------------------------------------------------------------------

  ghost predicate Sorted(xs: seq<nat>) {
    forall i, j :: 0 <= i < j < |xs| ==> xs[i] < xs[j]
  }

  // The queue holds exactly the queued jobs, in the order of their creation.
  ghost predicate QueueInv(s: Sys) {
    && Sorted(s.queue)
    && (forall i :: 0 <= i < |s.queue| ==> s.queue[i] < |s.jobs| && s.jobs[s.queue[i]].phase == Queued)
    && (forall r :: 0 <= r < |s.jobs| && s.jobs[r].phase == Queued ==> r in s.queue)
  }

  // Job `r` may be listed by lock `l`.
  ghost predicate MayList(s: Sys, l: nat, r: nat) {
    && Registered(s, l)
    && r < |s.jobs| && s.jobs[r].lock == Some(l) && (Engaged(s.jobs[r]) || s.jobs[r].phase == Refused)
  }

  /* Named locks: a lock lists its queued and active jobs, and those that were turned away, which stay
     on it for good; a lock that lists a job is the registered one. */
  ghost predicate LockInv(s: Sys)
    requires Refs(s)
  {
    && (forall n :: n in s.jobLocks ==> s.locks[s.jobLocks[n]].name == n && s.locks[s.jobLocks[n]].jobs != {})
    && (forall r :: 0 <= r < |s.jobs| && s.jobs[r].lock.Some? && s.jobs[r].phase != Finished ==>
          r in s.locks[s.jobs[r].lock.value].jobs)
    && (forall l: nat, r: nat {:trigger r in s.locks[l].jobs} ::
          l < |s.locks| && r in s.locks[l].jobs ==> MayList(s, l, r))
  }

  ghost predicate Holds(s: Sys, l: nat, r: nat) {
    r < |s.jobs| && Active(s.jobs[r]) && s.jobs[r].lock == Some(l)
  }

  // A lock is held exactly while an active job owns it, and by one job only.
  ghost predicate HolderInv(s: Sys)
    requires Refs(s)
  {
    && (forall l: nat, r: nat {:trigger Holds(s, l, r)} :: Holds(s, l, r) ==> s.locks[l].locked)
    && (forall l: nat, q: nat, r: nat {:trigger Holds(s, l, q), Holds(s, l, r)} ::
          Holds(s, l, q) && Holds(s, l, r) ==> q == r)
    && (forall l: nat {:trigger s.locks[l]} :: l < |s.locks| && s.locks[l].locked ==> exists r: nat :: Holds(s, l, r))
  }

  // The event may be clear only when no queued job can run.
  ghost predicate WakeInv(s: Sys)
    requires Refs(s)
  {
    !s.event ==> forall r :: r in s.queue ==> !Runnable(s, r)
  }

  // Among jobs with the same lock name, a queued one has no later one ahead of it.
  ghost predicate FifoInv(s: Sys)
    requires Refs(s)
  {
    forall q, r :: 0 <= q < r < |s.jobs| && s.jobs[q].phase == Queued && SameName(s, q, r) ==>
      s.jobs[r].phase == Queued || s.jobs[r].phase == Refused
  }

  // What the program records agrees with the phase.
  ghost predicate Consistent(j: Job) {
    match j.phase
    case Refused => j.state == WAITING && j.id.None?
    case Queued => j.state == WAITING && j.id.Some?
    case Dispatched => j.state == WAITING && j.id.Some?
    case Running => j.state == RUNNING && j.id.Some?
    case _ => Terminal(j.state) && j.id.Some?
  }

  // Identifiers grow with creation.
  ghost predicate IdInv(s: Sys) {
    && (forall r :: 0 <= r < |s.jobs| ==> Consistent(s.jobs[r]))
    && (forall r :: 0 <= r < |s.jobs| && s.jobs[r].id.Some? ==> 1 <= s.jobs[r].id.value <= s.count)
    && (forall q, r :: 0 <= q < r < |s.jobs| && s.jobs[q].id.Some? && s.jobs[r].id.Some? ==>
          s.jobs[q].id.value < s.jobs[r].id.value)
  }

  // The history is in creation order and keeps every live job.
  ghost predicate HistoryInv(s: Sys) {
    && Sorted(s.history)
    && (forall r :: r in s.history ==> r < |s.jobs| && s.jobs[r].id.Some?)
    && (forall r :: 0 <= r < |s.jobs| && Live(s.jobs[r]) ==> r in s.history)
  }

  ghost predicate Inv(s: Sys) {
    && Refs(s) && QueueInv(s) && LockInv(s) && HolderInv(s) && WakeInv(s) && FifoInv(s)
    && IdInv(s) && HistoryInv(s)
  }

  function Init(maxlen: nat): Sys {
    Sys([], [], map[], [], false, maxlen, 0, [])
  }

  lemma {:induction false} InitInv(maxlen: nat)
    ensures Inv(Init(maxlen))
  {
  }

  // --- Preservation --------------------------------------------------------------------------------

  lemma {:induction false} WithoutSorted(xs: seq<nat>, k: nat)
    requires Sorted(xs)
    ensures Sorted(Without(xs, k))
  {
    if k < |xs| {
      var ys := Without(xs, k);
      assert forall i :: 0 <= i < |ys| ==> ys[i] == if i < k then xs[i] else xs[i + 1];
    }
  }

  lemma {:induction false} WithoutMembers(xs: seq<nat>, k: nat)
    requires Sorted(xs)
    ensures forall x :: x in Without(xs, k) ==> x in xs
    ensures forall x :: x in xs && (k < |xs| ==> x != xs[k]) ==> x in Without(xs, k)
    ensures k < |xs| ==> xs[k] !in Without(xs, k)
  {
    if k < |xs| {
      assert xs == xs[..k] + [xs[k]] + xs[k + 1..];
    }
  }

  lemma {:induction false} SortedSnoc(xs: seq<nat>, x: nat)
    requires Sorted(xs) && forall y :: y in xs ==> y < x
    ensures Sorted(xs + [x])
    ensures forall y :: y in xs + [x] <==> y in xs || y == x
  {
    assert forall i :: 0 <= i < |xs| ==> xs[i] in xs;
  }

  lemma {:induction false} HandleLockRefs(s: Sys, name: Option<string>, transient: bool)
    requires Refs(s)
    ensures Refs(HandleLock(s, name, transient))
  {
  }

  // A refused job only joins the list of its lock.
  lemma {:induction false} HandleLockLocks(s: Sys, name: Option<string>, transient: bool)
    requires Refs(s) && LockInv(s)
    ensures Refs(HandleLock(s, name, transient)) && LockInv(HandleLock(s, name, transient))
  {
    var t := HandleLock(s, name, transient);
    HandleLockRefs(s, name, transient);
    if name.None? {
      NoLock(s, t);
    } else {
      NewOnLock(s, t, name.value, t.jobs[|s.jobs|].lock.value);
    }
  }

  lemma {:induction false} NoLock(s: Sys, t: Sys)
    requires Refs(s) && Refs(t) && LockInv(s) && t.locks == s.locks && t.jobLocks == s.jobLocks
    requires |t.jobs| == |s.jobs| + 1 && t.jobs[..|s.jobs|] == s.jobs && t.jobs[|s.jobs|].lock.None?
    ensures LockInv(t)
  {
    forall r | 0 <= r < |s.jobs| ensures t.jobs[r] == s.jobs[r] {
      assert t.jobs[..|s.jobs|][r] == s.jobs[r];
    }
    forall l: nat, r: nat | l < |t.locks| && r in t.locks[l].jobs ensures MayList(t, l, r) {
      assert MayList(s, l, r);
    }
  }

  // A refused job joins the list of lock `l`, which is the one registered under `n` or a new one.
  lemma {:induction false} NewOnLock(s: Sys, t: Sys, n: string, l: nat)
    requires Refs(s) && Refs(t) && LockInv(s)
    requires |t.jobs| == |s.jobs| + 1 && t.jobs[..|s.jobs|] == s.jobs && t.jobs[|s.jobs|].lock == Some(l)
    requires t.jobs[|s.jobs|].phase == Refused
    requires if n in s.jobLocks then l == s.jobLocks[n] && |t.locks| == |s.locks|
             else l == |s.locks| && |t.locks| == |s.locks| + 1
    requires t.locks[l] ==
             if l < |s.locks| then s.locks[l].(jobs := s.locks[l].jobs + {|s.jobs|}) else Lock(n, {|s.jobs|}, false)
    requires (forall k :: 0 <= k < |s.locks| && k != l ==> t.locks[k] == s.locks[k]) && t.jobLocks == s.jobLocks[n := l]
    ensures LockInv(t)
  {
    forall r | 0 <= r < |s.jobs| ensures t.jobs[r] == s.jobs[r] {
      assert t.jobs[..|s.jobs|][r] == s.jobs[r];
    }
    forall k: nat, r: nat | k < |t.locks| && r in t.locks[k].jobs ensures MayList(t, k, r) {
      if r != |s.jobs| {
        assert r in s.locks[k].jobs;
        assert MayList(s, k, r);
      }
    }
  }

  lemma {:induction false} HandleLockHolders(s: Sys, name: Option<string>, transient: bool)
    requires Refs(s) && HolderInv(s) && LockInv(s)
    ensures Refs(HandleLock(s, name, transient)) && HolderInv(HandleLock(s, name, transient))
  {
    var t := HandleLock(s, name, transient);
    assert forall l: nat, r: nat :: Holds(t, l, r) <==> Holds(s, l, r);
    forall l: nat | l < |t.locks| && t.locks[l].locked ensures exists r: nat :: Holds(t, l, r) {
      assert s.locks[l].locked;
      var r: nat :| Holds(s, l, r);
      assert Holds(t, l, r);
    }
  }

  // Jobs keep their locks and locks keep their names.
  ghost predicate SameNames(s: Sys, t: Sys) {
    && |s.jobs| <= |t.jobs| && |s.locks| <= |t.locks|
    && (forall r :: 0 <= r < |s.jobs| ==> t.jobs[r].lock == s.jobs[r].lock)
    && (forall l :: 0 <= l < |s.locks| ==> t.locks[l].name == s.locks[l].name)
  }

  lemma {:induction false} NamesFrame(s: Sys, t: Sys)
    requires Refs(s) && Refs(t) && SameNames(s, t)
    ensures forall q, r :: 0 <= q < |s.jobs| && 0 <= r < |s.jobs| ==> SameName(t, q, r) == SameName(s, q, r)
  {
  }

  lemma {:induction false} HandleLockFrame(s: Sys, name: Option<string>, transient: bool)
    requires Refs(s)
    ensures var t := HandleLock(s, name, transient);
            && SameNames(s, t) && |t.jobs| == |s.jobs| + 1 && t.queue == s.queue && t.event == s.event
            && (forall r :: 0 <= r < |s.jobs| ==> t.jobs[r] == s.jobs[r]) && t.jobs[|s.jobs|].phase == Refused
            && (forall l :: 0 <= l < |s.locks| ==> t.locks[l].locked == s.locks[l].locked)
            && var l := t.jobs[|s.jobs|].lock;
               l.Some? ==> l.value < |t.locks| && |s.jobs| in t.locks[l.value].jobs
  {
  }

  lemma {:induction false} HandleLockQueue(s: Sys, name: Option<string>, transient: bool)
    requires Refs(s) && QueueInv(s) && Refs(HandleLock(s, name, transient))
    ensures QueueInv(HandleLock(s, name, transient))
  {
    HandleLockFrame(s, name, transient);
  }

  lemma {:induction false} HandleLockWake(s: Sys, name: Option<string>, transient: bool)
    requires Refs(s) && WakeInv(s) && FifoInv(s) && Refs(HandleLock(s, name, transient))
    ensures var t := HandleLock(s, name, transient); WakeInv(t) && FifoInv(t)
  {
    HandleLockFrame(s, name, transient);
    var t := HandleLock(s, name, transient);
    NamesFrame(s, t);
    forall r | r in t.queue && !t.event ensures !Runnable(t, r) {
      assert !Runnable(s, r);
    }
  }

  lemma {:induction false} HandleLockHistory(s: Sys, name: Option<string>, transient: bool)
    requires Refs(s) && IdInv(s) && HistoryInv(s)
    ensures var t := HandleLock(s, name, transient); IdInv(t) && HistoryInv(t)
  {
  }

  // The refused job `r` becomes a queued one; locks stay.
  ghost predicate Queues(s: Sys, t: Sys, r: nat) {
    && r == |s.jobs| - 1 && s.jobs[r].phase == Refused && t.locks == s.locks && t.jobLocks == s.jobLocks
    && |t.jobs| == |s.jobs| && t.jobs[r].phase == Queued && t.jobs[r].lock == s.jobs[r].lock
    && (forall q :: 0 <= q < r ==> t.jobs[q] == s.jobs[q])
    && t.queue == s.queue + [r] && t.event
    && t.count == s.count + 1 && t.jobs[r] == s.jobs[r].(id := Some(t.count), phase := Queued)
  }

  lemma {:induction false} EnqueueQueues(s: Sys)
    requires Refs(s) && |s.jobs| > 0 && s.jobs[|s.jobs| - 1].phase == Refused
    ensures Queues(s, Enqueue(s), |s.jobs| - 1)
  {
  }

  lemma {:induction false} EnqueueLocks(s: Sys, t: Sys, r: nat)
    requires Refs(s) && Refs(t) && LockInv(s) && Queues(s, t, r)
    requires s.jobs[r].lock.Some? ==> r in s.locks[s.jobs[r].lock.value].jobs
    ensures LockInv(t)
  {
    forall l: nat, q: nat | l < |t.locks| && q in t.locks[l].jobs ensures MayList(t, l, q) {
      assert MayList(s, l, q);
    }
  }

  lemma {:induction false} EnqueueHolders(s: Sys, t: Sys, r: nat)
    requires Refs(s) && Refs(t) && HolderInv(s) && Queues(s, t, r)
    ensures HolderInv(t)
  {
    forall l: nat, q: nat ensures Holds(t, l, q) <==> Holds(s, l, q) {
    }
    forall l: nat | l < |t.locks| && t.locks[l].locked ensures exists q: nat :: Holds(t, l, q) {
      var q: nat :| Holds(s, l, q);
      assert Holds(t, l, q);
    }
  }

  lemma {:induction false} EnqueueQueue(s: Sys, t: Sys, r: nat)
    requires QueueInv(s) && Queues(s, t, r)
    ensures QueueInv(t)
  {
    forall q | q in s.queue ensures q < r {
      var i :| 0 <= i < |s.queue| && s.queue[i] == q;
    }
    SortedSnoc(s.queue, r);
  }

  lemma {:induction false} EnqueueFifo(s: Sys, t: Sys, r: nat)
    requires Refs(s) && Refs(t) && FifoInv(s) && Queues(s, t, r)
    ensures FifoInv(t)
  {
    NamesFrame(s, t);
  }

  lemma {:induction false} EvictedHistory(s: Sys)
    requires Refs(s) && IdInv(s) && HistoryInv(s)
    ensures Sorted(Evicted(s))
    ensures forall q :: q in Evicted(s) ==> q in s.history
    ensures forall q :: 0 <= q < |s.jobs| && Live(s.jobs[q]) ==> q in Evicted(s)
  {
    var k := FirstTerminal(s.jobs, s.history, 0);
    WithoutSorted(s.history, k);
    WithoutMembers(s.history, k);
    forall q | 0 <= q < |s.jobs| && Live(s.jobs[q]) ensures q in Evicted(s) {
      assert q in s.history && Consistent(s.jobs[q]);
    }
  }

  lemma {:induction false} EnqueueHistory(s: Sys)
    requires Refs(s) && IdInv(s) && HistoryInv(s)
    requires |s.jobs| > 0 && s.jobs[|s.jobs| - 1].phase == Refused
    ensures HistoryInv(Enqueue(s))
  {
    EvictedHistory(s);
    StoreHistory(s, Evicted(s), Enqueue(s), |s.jobs| - 1);
  }

  lemma {:induction false} StoreHistory(s: Sys, kept: seq<nat>, t: Sys, r: nat)
    requires IdInv(s) && HistoryInv(s) && r == |s.jobs| - 1 && s.jobs[r].phase == Refused
    requires Sorted(kept) && (forall q :: q in kept ==> q in s.history)
    requires (forall q :: 0 <= q < |s.jobs| && Live(s.jobs[q]) ==> q in kept)
    requires t.history == kept + [r] && |t.jobs| == |s.jobs| && t.jobs[r].id.Some?
    requires forall q :: 0 <= q < r ==> t.jobs[q] == s.jobs[q]
    ensures HistoryInv(t)
  {
    assert Consistent(s.jobs[r]);
    forall q | q in kept ensures q < r && t.jobs[q].id.Some? {
      assert q in s.history;
    }
    SortedSnoc(kept, r);
  }

  lemma {:induction false} EnqueueRefs(s: Sys, t: Sys, r: nat)
    requires Refs(s) && Queues(s, t, r) && HistoryInv(t)
    ensures Refs(t)
  {
    forall i | 0 <= i < |t.history| ensures t.history[i] < |t.jobs| {
      assert t.history[i] in t.history;
    }
    forall q | 0 <= q < |t.jobs| && t.jobs[q].lock.Some? ensures t.jobs[q].lock.value < |t.locks| {
      assert t.jobs[q].lock == s.jobs[q].lock;
    }
  }

  lemma {:induction false} EnqueueIds(s: Sys, t: Sys, r: nat)
    requires IdInv(s) && Queues(s, t, r)
    ensures IdInv(t)
  {
    assert Consistent(s.jobs[r]);
  }

  lemma {:induction false} EnqueueInv(s: Sys)
    requires Inv(s) && |s.jobs| > 0 && s.jobs[|s.jobs| - 1].phase == Refused
    requires s.jobs[|s.jobs| - 1].lock.Some? ==> |s.jobs| - 1 in s.locks[s.jobs[|s.jobs| - 1].lock.value].jobs
    ensures Inv(Enqueue(s))
  {
    EnqueueQueues(s);
    EnqueueHistory(s);
    QueuesInv(s, Enqueue(s), |s.jobs| - 1);
  }

  lemma {:induction false} QueuesInv(s: Sys, t: Sys, r: nat)
    requires Inv(s) && Queues(s, t, r) && HistoryInv(t)
    requires s.jobs[r].lock.Some? ==> r in s.locks[s.jobs[r].lock.value].jobs
    ensures Inv(t)
  {
    EnqueueRefs(s, t, r);
    EnqueueIds(s, t, r);
    EnqueueQueue(s, t, r);
    EnqueueFifo(s, t, r);
    EnqueueLocks(s, t, r);
    EnqueueHolders(s, t, r);
  }

  lemma {:induction false} HandleLockInv(s: Sys, name: Option<string>, transient: bool)
    requires Inv(s)
    ensures Inv(HandleLock(s, name, transient))
  {
    HandleLockLocks(s, name, transient);
    HandleLockHolders(s, name, transient);
    HandleLockQueue(s, name, transient);
    HandleLockWake(s, name, transient);
    HandleLockHistory(s, name, transient);
  }

  lemma {:induction false} AddInv(s: Sys, name: Option<string>, size: Option<nat>, transient: bool)
    requires Inv(s)
    ensures Inv(AddStep(s, name, size, transient))
  {
    HandleLockInv(s, name, transient);
    HandleLockFrame(s, name, transient);
    var t := HandleLock(s, name, transient);
    if !Refuses(t, t.jobs[|s.jobs|].lock, size) {
      EnqueueInv(t);
    }
  }

  // Two jobs of one lock name that are queued or active share the lock object.
  lemma {:induction false} SameNameSameLock(s: Sys, q: nat, r: nat)
    requires Refs(s) && LockInv(s) && q < |s.jobs| && r < |s.jobs| && Engaged(s.jobs[q]) && Engaged(s.jobs[r])
    requires SameName(s, q, r)
    ensures s.jobs[q].lock == s.jobs[r].lock
  {
    assert MayList(s, s.jobs[q].lock.value, q) && MayList(s, s.jobs[r].lock.value, r);
  }

  // The queued job `r` is dispatched and takes its lock.
  ghost predicate Dispatches(s: Sys, t: Sys, r: nat) {
    && r < |s.jobs| == |t.jobs| && s.jobs[r].phase == Queued && t.jobs == s.jobs[r := s.jobs[r].(phase := Dispatched)]
    && t.jobLocks == s.jobLocks && |t.locks| == |s.locks|
    && forall l :: 0 <= l < |s.locks| ==>
         t.locks[l] == if s.jobs[r].lock == Some(l) then s.locks[l].(locked := true) else s.locks[l]
  }

  lemma {:induction false} NextDispatches(s: Sys, k: nat)
    requires Refs(s) && QueueInv(s) && k == FirstRunnable(s, 0) && k < |s.queue|
    ensures Dispatches(s, NextStep(s), s.queue[k])
  {
  }

  lemma {:induction false} NextRefs(s: Sys, k: nat)
    requires Refs(s) && Sorted(s.queue) && k == FirstRunnable(s, 0) && k < |s.queue|
    ensures Refs(NextStep(s))
  {
    WithoutMembers(s.queue, k);
  }

  lemma {:induction false} NextLocks(s: Sys, t: Sys, r: nat)
    requires Refs(s) && Refs(t) && LockInv(s) && Dispatches(s, t, r)
    ensures LockInv(t)
  {
    forall l: nat, q: nat | l < |t.locks| && q in t.locks[l].jobs ensures MayList(t, l, q) {
      assert q in s.locks[l].jobs;
      assert MayList(s, l, q);
    }
  }

  lemma {:induction false} NextHolders(s: Sys, t: Sys, r: nat)
    requires Refs(s) && Refs(t) && HolderInv(s) && Dispatches(s, t, r) && Runnable(s, r)
    ensures HolderInv(t)
  {
    forall l: nat, q: nat ensures Holds(t, l, q) <==> Holds(s, l, q) || (q == r && s.jobs[r].lock == Some(l)) {
    }
    forall l: nat | l < |t.locks| && t.locks[l].locked ensures exists q: nat :: Holds(t, l, q) {
      if s.jobs[r].lock == Some(l) {
        assert Holds(t, l, r);
      } else {
        assert s.locks[l].locked;
        var q: nat :| Holds(s, l, q);
        assert Holds(t, l, q);
      }
    }
  }

  lemma {:induction false} NextQueue(s: Sys, k: nat)
    requires Refs(s) && QueueInv(s) && s.event && k == FirstRunnable(s, 0) && k < |s.queue| && Refs(NextStep(s))
    ensures QueueInv(NextStep(s)) && WakeInv(NextStep(s))
  {
    WithoutSorted(s.queue, k);
    WithoutMembers(s.queue, k);
  }

  lemma {:induction false} NextHistory(s: Sys, k: nat)
    requires Refs(s) && QueueInv(s) && IdInv(s) && HistoryInv(s) && k == FirstRunnable(s, 0) && k < |s.queue|
    ensures IdInv(NextStep(s)) && HistoryInv(NextStep(s))
  {
  }

  // No queued job of the same name stands before the one that is dispatched.
  lemma {:induction false} NextIsFirst(s: Sys, k: nat, q: nat)
    requires Refs(s) && QueueInv(s) && LockInv(s) && k == FirstRunnable(s, 0) && k < |s.queue|
    requires q < s.queue[k] && s.jobs[q].phase == Queued
    ensures !SameName(s, q, s.queue[k])
  {
    var i :| 0 <= i < |s.queue| && s.queue[i] == q;
    assert i < k;
    assert !Runnable(s, q);
    if SameName(s, q, s.queue[k]) {
      SameNameSameLock(s, q, s.queue[k]);
    }
  }

  lemma {:induction false} FifoFrame(s: Sys, t: Sys, r: nat)
    requires Refs(s) && FifoInv(s) && Refs(t) && r < |s.jobs| == |t.jobs| && t.jobs[r].phase == Dispatched
    requires forall p :: 0 <= p < |s.jobs| && p != r ==> t.jobs[p] == s.jobs[p]
    requires forall q, p :: 0 <= q < |s.jobs| && 0 <= p < |s.jobs| ==> SameName(t, q, p) == SameName(s, q, p)
    requires forall q :: 0 <= q < r && s.jobs[q].phase == Queued ==> !SameName(s, q, r)
    ensures FifoInv(t)
  {
  }

  lemma {:induction false} NextFrame(s: Sys, k: nat)
    requires Refs(s) && k == FirstRunnable(s, 0) && k < |s.queue| && Refs(NextStep(s))
    ensures var t, r := NextStep(s), s.queue[k];
            && r < |s.jobs| == |t.jobs| && t.jobs[r].phase == Dispatched
            && (forall p :: 0 <= p < |s.jobs| && p != r ==> t.jobs[p] == s.jobs[p])
            && (forall q, p :: 0 <= q < |s.jobs| && 0 <= p < |s.jobs| ==> SameName(t, q, p) == SameName(s, q, p))
  {
    var t := NextStep(s);
    assert forall q :: 0 <= q < |s.jobs| ==> LockName(t, q) == LockName(s, q);
  }

  lemma {:induction false} NextFifo(s: Sys, k: nat)
    requires Refs(s) && QueueInv(s) && LockInv(s) && FifoInv(s)
    requires k == FirstRunnable(s, 0) && k < |s.queue| && Refs(NextStep(s))
    ensures FifoInv(NextStep(s))
  {
    var r := s.queue[k];
    assert forall q :: 0 <= q < r && s.jobs[q].phase == Queued ==> !SameName(s, q, r) by {
      forall q | 0 <= q < r && s.jobs[q].phase == Queued ensures !SameName(s, q, r) {
        NextIsFirst(s, k, q);
      }
    }
    NextFrame(s, k);
    FifoFrame(s, NextStep(s), r);
  }

  lemma {:induction false} NextIdle(s: Sys)
    requires Refs(s) && FirstRunnable(s, 0) == |s.queue|
    ensures WakeInv(NextStep(s))
  {
    forall r | r in s.queue ensures !Runnable(s, r) {
      var i :| 0 <= i < |s.queue| && s.queue[i] == r;
    }
  }

  // Clearing the event touches nothing else.
  lemma {:induction false} EventInv(s: Sys, t: Sys)
    requires Refs(s) && LockInv(s) && HolderInv(s) && t == s.(event := false)
    ensures Refs(t) && LockInv(t) && HolderInv(t)
  {
    forall l: nat, r: nat | l < |t.locks| && r in t.locks[l].jobs ensures MayList(t, l, r) {
      assert MayList(s, l, r);
    }
    assert forall l: nat, r: nat :: Holds(t, l, r) <==> Holds(s, l, r);
  }

  lemma {:induction false} NextInv(s: Sys)
    requires Inv(s) && s.event
    ensures Inv(NextStep(s))
  {
    var k := FirstRunnable(s, 0);
    if k == |s.queue| {
      var t := NextStep(s);
      NextIdle(s);
      EventInv(s, t);
      assert FifoInv(t) by {
        assert forall q, r :: 0 <= q < |s.jobs| && 0 <= r < |s.jobs| ==> SameName(t, q, r) == SameName(s, q, r);
      }
    } else {
      NextRefs(s, k);
      NextDispatches(s, k);
      NextLocks(s, NextStep(s), s.queue[k]);
      NextHolders(s, NextStep(s), s.queue[k]);
      NextQueue(s, k);
      NextHistory(s, k);
      NextFifo(s, k);
    }
  }

  // What may change in a job that keeps its place and its lock.
  ghost predicate Advances(j: Job, j': Job) {
    && j'.lock == j.lock && j'.id == j.id && j'.transient == j.transient
    && (|| (j'.phase == j.phase && j'.state == j.state)
        || (j.phase == Dispatched && j'.phase == Running && j'.state == RUNNING)
        || (Active(j) && j'.phase == Closing && Terminal(j'.state)))
  }

  lemma {:induction false} AdvanceLocks(s: Sys, r: nat, j: Job)
    requires Refs(s) && LockInv(s) && HolderInv(s) && WakeInv(s) && r < |s.jobs| && Advances(s.jobs[r], j)
    ensures var t := s.(jobs := s.jobs[r := j]); Refs(t) && LockInv(t) && HolderInv(t) && WakeInv(t)
  {
    var t := s.(jobs := s.jobs[r := j]);
    forall l: nat, q: nat | l < |t.locks| && q in t.locks[l].jobs ensures MayList(t, l, q) {
      assert MayList(s, l, q);
    }
    assert forall l: nat, q: nat :: Holds(t, l, q) <==> Holds(s, l, q);
    forall q | q in t.queue && !t.event ensures !Runnable(t, q) {
      assert !Runnable(s, q);
    }
  }

  lemma {:induction false} AdvanceQueue(s: Sys, r: nat, j: Job)
    requires Refs(s) && QueueInv(s) && FifoInv(s) && r < |s.jobs| && Advances(s.jobs[r], j)
    ensures var t := s.(jobs := s.jobs[r := j]); Refs(t) && QueueInv(t) && FifoInv(t)
  {
    var t := s.(jobs := s.jobs[r := j]);
    assert forall q, r :: 0 <= q < |s.jobs| && 0 <= r < |s.jobs| ==> SameName(t, q, r) == SameName(s, q, r);
  }

  lemma {:induction false} AdvanceHistory(s: Sys, r: nat, j: Job)
    requires IdInv(s) && HistoryInv(s) && r < |s.jobs| && Advances(s.jobs[r], j)
    ensures var t := s.(jobs := s.jobs[r := j]); IdInv(t) && HistoryInv(t)
  {
  }

  lemma {:induction false} AdvanceInv(s: Sys, r: nat, j: Job)
    requires Inv(s) && r < |s.jobs| && Advances(s.jobs[r], j)
    ensures Inv(s.(jobs := s.jobs[r := j]))
  {
    AdvanceLocks(s, r, j);
    AdvanceQueue(s, r, j);
    AdvanceHistory(s, r, j);
  }

  lemma {:induction false} FinishRefs(s: Sys, r: nat)
    requires Refs(s) && HistoryInv(s) && r < |s.jobs|
    ensures Refs(FinishStep(s, r)) && Sorted(FinishStep(s, r).history)
    ensures forall q :: q in FinishStep(s, r).history ==> q in s.history
    ensures forall q :: q in s.history && q != r ==> q in FinishStep(s, r).history
  {
    var t := FinishStep(s, r);
    WithoutSorted(s.history, IndexOf(s.history, r));
    WithoutMembers(s.history, IndexOf(s.history, r));
    forall i | 0 <= i < |t.history| ensures t.history[i] < |t.jobs| {
      assert t.history[i] in t.history;
    }
    assert |t.locks| == |s.locks| && |t.jobs| == |s.jobs| && t.queue == s.queue;
    forall q | 0 <= q < |t.jobs| ensures t.jobs[q].lock == s.jobs[q].lock {
    }
  }

  lemma {:induction false} FinishLocks(s: Sys, r: nat)
    requires Refs(s) && LockInv(s) && r < |s.jobs| && s.jobs[r].phase == Closing && Refs(FinishStep(s, r))
    ensures LockInv(FinishStep(s, r))
  {
    var t := FinishStep(s, r);
    if s.jobs[r].lock.Some? {
      assert MayList(s, s.jobs[r].lock.value, r);
    }
    forall l: nat, q: nat | l < |t.locks| && q in t.locks[l].jobs ensures MayList(t, l, q) {
      assert q in s.locks[l].jobs;
      assert MayList(s, l, q);
      assert q != r;
    }
    forall n | n in t.jobLocks ensures t.locks[t.jobLocks[n]].name == n && t.locks[t.jobLocks[n]].jobs != {} {
      assert n in s.jobLocks;
    }
  }

  lemma {:induction false} FinishHolders(s: Sys, r: nat)
    requires Refs(s) && HolderInv(s) && r < |s.jobs| && s.jobs[r].phase == Closing && Refs(FinishStep(s, r))
    ensures HolderInv(FinishStep(s, r))
  {
    var t := FinishStep(s, r);
    assert forall l: nat, q: nat :: Holds(t, l, q) <==> Holds(s, l, q) && q != r;
    if s.jobs[r].lock.Some? {
      assert Holds(s, s.jobs[r].lock.value, r);
    }
    forall l: nat | l < |t.locks| && t.locks[l].locked ensures exists q: nat :: Holds(t, l, q) {
      assert s.locks[l].locked;
      var q: nat :| Holds(s, l, q);
      assert Holds(t, l, q);
    }
  }

  lemma {:induction false} FinishQueue(s: Sys, r: nat)
    requires Refs(s) && QueueInv(s) && WakeInv(s)
    requires r < |s.jobs| && s.jobs[r].phase == Closing && Refs(FinishStep(s, r))
    ensures var t := FinishStep(s, r); QueueInv(t) && WakeInv(t)
  {
    var t := FinishStep(s, r);
    forall q | q in t.queue && !t.event ensures !Runnable(t, q) {
      assert !Runnable(s, q);
    }
  }

  lemma {:induction false} FinishFifo(s: Sys, r: nat)
    requires Refs(s) && FifoInv(s) && r < |s.jobs| && s.jobs[r].phase == Closing && Refs(FinishStep(s, r))
    ensures FifoInv(FinishStep(s, r))
  {
    var t := FinishStep(s, r);
    assert forall q, r :: 0 <= q < |s.jobs| && 0 <= r < |s.jobs| ==> SameName(t, q, r) == SameName(s, q, r);
  }

  lemma {:induction false} FinishIds(s: Sys, r: nat)
    requires Refs(s) && IdInv(s) && r < |s.jobs| && s.jobs[r].phase == Closing
    ensures IdInv(FinishStep(s, r))
  {
    assert Consistent(s.jobs[r]);
  }

  lemma {:induction false} FinishHistory(s: Sys, r: nat)
    requires Refs(s) && HistoryInv(s) && r < |s.jobs| && s.jobs[r].phase == Closing
    ensures HistoryInv(FinishStep(s, r))
  {
    FinishRefs(s, r);
  }

  /** Every step of the scheduler keeps the invariant. */
  lemma {:induction false} StepInv(s: Sys, e: Event)
    requires Inv(s) && Enabled(s, e)
    ensures Inv(Step(s, e))
  {
    match e
    case Add(name, size, transient) => AddInv(s, name, size, transient);
    case Next => NextInv(s);
    case Start(r) => AdvanceInv(s, r, StartStep(s, r).jobs[r]);
    case End(r, o) => AdvanceInv(s, r, EndStep(s, r, o).jobs[r]);
    case Finish(r) =>
      FinishRefs(s, r);
      FinishQueue(s, r);
      FinishFifo(s, r);
      FinishIds(s, r);
      FinishHistory(s, r);
      FinishLocks(s, r);
      FinishHolders(s, r);
    case Abort(r) =>
      if !Terminal(s.jobs[r].state) {
        AdvanceInv(s, r, s.jobs[r].(aborted := true));
      }
  }
}
