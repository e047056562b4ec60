/**
 What holds over whole runs of the scheduler: at most one running job per lock name, first-in
 first-out order per lock, the life cycle of a job, the size of the history, and that no wake-up
 is lost, so a queue that receives no more jobs is always drained.
 */
module JobRuns {
  import opened Wrappers
  import opened Jobs

  ghost predicate IsRun(trace: seq<Sys>, es: seq<Event>) {
    && |trace| == |es| + 1
    && forall i {:trigger es[i]} :: 0 <= i < |es| ==>
         Refs(trace[i]) && Enabled(trace[i], es[i]) && trace[i + 1] == Step(trace[i], es[i])
  }

  lemma {:induction false} RunInv(trace: seq<Sys>, es: seq<Event>, i: nat)
    requires IsRun(trace, es) && Inv(trace[0]) && i < |trace|
    ensures Inv(trace[i])
  {
    if i > 0 {
      RunInv(trace, es, i - 1);
      StepInv(trace[i - 1], es[i - 1]);
    }
  }

  // --- Safety of every reachable state ------------------------------------------------------------

  /** At most one dispatched, unfinished job exists per lock name, whatever became of the lock
      objects that carried the name before; and its lock is the registered one. */
  lemma {:induction false} MutualExclusion(maxlen: nat, trace: seq<Sys>, es: seq<Event>, i: nat, q: nat, r: nat)
    requires IsRun(trace, es) && trace[0] == Init(maxlen) && i < |trace|
    requires Refs(trace[i]) && q < |trace[i].jobs| && r < |trace[i].jobs|
    requires Active(trace[i].jobs[q]) && Active(trace[i].jobs[r]) && SameName(trace[i], q, r)
    ensures q == r && Registered(trace[i], trace[i].jobs[r].lock.value)
  {
    InitInv(maxlen);
    RunInv(trace, es, i);
    SameNameSameLock(trace[i], q, r);
    var l := trace[i].jobs[r].lock.value;
    assert Holds(trace[i], l, q) && Holds(trace[i], l, r);
    assert MayList(trace[i], l, r);
  }

  /** The lock of a queued job is the registered one for its name. */
  lemma {:induction false} QueuedLockRegistered(maxlen: nat, trace: seq<Sys>, es: seq<Event>, i: nat, r: nat)
    requires IsRun(trace, es) && trace[0] == Init(maxlen) && i < |trace|
    requires r < |trace[i].jobs| && r in trace[i].queue && trace[i].jobs[r].lock.Some?
    ensures Registered(trace[i], trace[i].jobs[r].lock.value)
  {
    InitInv(maxlen);
    RunInv(trace, es, i);
    assert MayList(trace[i], trace[i].jobs[r].lock.value, r);
  }

  /** When nothing is queued or active, a name is still registered exactly if some job of that name was
      ever turned away by `lock_queue_size`. */
  lemma {:induction false} IdleLocks(maxlen: nat, trace: seq<Sys>, es: seq<Event>, i: nat, n: string)
    requires IsRun(trace, es) && trace[0] == Init(maxlen) && i < |trace| && Refs(trace[i])
    requires forall r :: 0 <= r < |trace[i].jobs| ==> !Engaged(trace[i].jobs[r])
    ensures n in trace[i].jobLocks <==>
            exists r :: && 0 <= r < |trace[i].jobs|
                        && trace[i].jobs[r].phase == Refused && LockName(trace[i], r) == Some(n)
  {
    InitInv(maxlen);
    RunInv(trace, es, i);
    IdleState(trace[i], n);
  }

  lemma {:induction false} IdleState(s: Sys, n: string)
    requires Refs(s) && LockInv(s) && forall r :: 0 <= r < |s.jobs| ==> !Engaged(s.jobs[r])
    ensures n in s.jobLocks <==>
          exists r :: 0 <= r < |s.jobs| && s.jobs[r].phase == Refused && LockName(s, r) == Some(n)
  {
    if n in s.jobLocks {
      var l := s.jobLocks[n];
      var r :| r in s.locks[l].jobs;
      assert MayList(s, l, r);
      assert LockName(s, r) == Some(n);
    }
    if r :| 0 <= r < |s.jobs| && s.jobs[r].phase == Refused && LockName(s, r) == Some(n) {
      assert r in s.locks[s.jobs[r].lock.value].jobs;
      assert MayList(s, s.jobs[r].lock.value, r);
    }
  }

  // --- A name that stays registered -----------------------------------------------------------------------

  function First(st: State, phase: Phase): Job {
    Job(Some(0), Some(1), false, false, st, phase)
  }

  const TURNED_AWAY := Job(Some(0), None, false, false, WAITING, Refused)

  // One lock, and one stored job.
  function OneLock(maxlen: nat, n: string, jobs: seq<Job>, listed: set<nat>, locked: bool, queue: seq<nat>,
                   event: bool): Sys {
    Sys(jobs, [Lock(n, listed, locked)], map[n := 0], queue, event, maxlen, 1, [0])
  }

  ghost predicate RunsTo(s: Sys, t: Sys) {
    exists trace, es :: IsRun(trace, es) && trace[0] == s && trace[|es|] == t
  }

  lemma {:induction false} RunStarts(s: Sys)
    ensures RunsTo(s, s)
  {
    assert IsRun([s], []) && [s][0] == s;
  }

  lemma {:induction false} RunGoesOn(s: Sys, t: Sys, e: Event, u: Sys)
    requires RunsTo(s, t) && Refs(t) && Enabled(t, e) && Step(t, e) == u
    ensures RunsTo(s, u)
  {
    var trace, es :| IsRun(trace, es) && trace[0] == s && trace[|es|] == t;
    var trace', es' := trace + [u], es + [e];
    forall i | 0 <= i < |es'|
      ensures Refs(trace'[i]) && Enabled(trace'[i], es'[i]) && trace'[i + 1] == Step(trace'[i], es'[i])
    {
      if i < |es| {
        assert trace'[i] == trace[i] && es'[i] == es[i] && trace'[i + 1] == trace[i + 1];
      }
    }
    assert IsRun(trace', es') && trace'[0] == s && trace'[|es'|] == u;
  }

  lemma {:induction false} FirstIsQueued(maxlen: nat, n: string)
    ensures RunsTo(Init(maxlen), OneLock(maxlen, n, [First(WAITING, Queued)], {0}, false, [0], true))
  {
    var s := HandleLock(Init(maxlen), Some(n), false);
    assert {} + {0} == {0};
    assert s.jobs == [Job(Some(0), None, false, false, WAITING, Refused)] && s.locks == [Lock(n, {0}, false)];
    assert SameLock(s.jobs, [], Some(0)) == [];
    var t := Enqueue(s);
    assert t.jobs == [First(WAITING, Queued)] && t.history == [0] && t.queue == [0];
    RunStarts(Init(maxlen));
    RunGoesOn(Init(maxlen), Init(maxlen), Add(Some(n), Some(1), false), t);
  }

  lemma {:induction false} SecondIsRefused(maxlen: nat, n: string)
    ensures RunsTo(Init(maxlen), OneLock(maxlen, n, [First(WAITING, Queued), TURNED_AWAY], {0, 1}, false, [0], true))
  {
    var s := OneLock(maxlen, n, [First(WAITING, Queued)], {0}, false, [0], true);
    var t := HandleLock(s, Some(n), false);
    assert {0} + {1} == {0, 1};
    assert t.jobs == [First(WAITING, Queued), TURNED_AWAY] && t.locks == [Lock(n, {0, 1}, false)];
    assert [0][..0] == [] && SameLock(t.jobs, [], Some(0)) == [];
    assert SameLock(t.jobs, [0], Some(0)) == [] + [0];
    FirstIsQueued(maxlen, n);
    RunGoesOn(Init(maxlen), s, Add(Some(n), Some(1), false), t);
  }

  lemma {:induction false} FirstIsTaken(maxlen: nat, n: string)
    ensures RunsTo(Init(maxlen), OneLock(maxlen, n, [First(WAITING, Dispatched), TURNED_AWAY], {0, 1}, true, [], false))
  {
    var s := OneLock(maxlen, n, [First(WAITING, Queued), TURNED_AWAY], {0, 1}, false, [0], true);
    assert Runnable(s, 0) && FirstRunnable(s, 0) == 0;
    var t := NextStep(s);
    assert t.jobs == [First(WAITING, Dispatched), TURNED_AWAY] && t.locks == [Lock(n, {0, 1}, true)] && t.queue == [];
    SecondIsRefused(maxlen, n);
    RunGoesOn(Init(maxlen), s, Next, t);
  }

  lemma {:induction false} FirstStarts(maxlen: nat, n: string)
    ensures RunsTo(Init(maxlen), OneLock(maxlen, n, [First(RUNNING, Running), TURNED_AWAY], {0, 1}, true, [], false))
  {
    var s := OneLock(maxlen, n, [First(WAITING, Dispatched), TURNED_AWAY], {0, 1}, true, [], false);
    var t := StartStep(s, 0);
    assert t.jobs == [First(RUNNING, Running), TURNED_AWAY];
    FirstIsTaken(maxlen, n);
    RunGoesOn(Init(maxlen), s, Start(0), t);
  }

  lemma {:induction false} FirstEnds(maxlen: nat, n: string)
    ensures RunsTo(Init(maxlen), OneLock(maxlen, n, [First(SUCCESS, Closing), TURNED_AWAY], {0, 1}, true, [], false))
  {
    var s := OneLock(maxlen, n, [First(RUNNING, Running), TURNED_AWAY], {0, 1}, true, [], false);
    var t := EndStep(s, 0, Returned);
    assert t.jobs == [First(SUCCESS, Closing), TURNED_AWAY];
    FirstStarts(maxlen, n);
    RunGoesOn(Init(maxlen), s, End(0, Returned), t);
  }

  lemma {:induction false} FirstIsDone(maxlen: nat, n: string)
    ensures RunsTo(Init(maxlen), OneLock(maxlen, n, [First(SUCCESS, Finished), TURNED_AWAY], {1}, false, [], true))
  {
    var s := OneLock(maxlen, n, [First(SUCCESS, Closing), TURNED_AWAY], {0, 1}, true, [], false);
    assert {0, 1} - {0} == {1};
    var t := FinishStep(s, 0);
    assert t.locks == [Lock(n, {1}, false)] && t.jobLocks == map[n := 0];
    assert t.jobs == [First(SUCCESS, Finished), TURNED_AWAY];
    FirstEnds(maxlen, n);
    RunGoesOn(Init(maxlen), s, Finish(0), t);
  }

  /** A run can end idle with a name still registered: the second of two jobs is turned away, and the
      first one runs. */
  lemma {:induction false} NameStays(maxlen: nat, n: string) returns (t: Sys)
    ensures RunsTo(Init(maxlen), t)
    ensures n in t.jobLocks && t.queue == [] && forall r :: 0 <= r < |t.jobs| ==> !Engaged(t.jobs[r])
  {
    FirstIsDone(maxlen, n);
    t := OneLock(maxlen, n, [First(SUCCESS, Finished), TURNED_AWAY], {1}, false, [], true);
  }

  // --- Evolution along a run -------------------------------------------------------------------------

  function Rank(p: Phase): nat {
    match p
    case Refused => 0 case Queued => 1 case Dispatched => 2 case Running => 3 case Closing => 4 case Finished => 5
  }

  // What a job may become in a later state.
  ghost predicate Later(j: Job, j': Job) {
    && j'.lock == j.lock && j'.id == j.id
    && Rank(j.phase) <= Rank(j'.phase) && (j.phase == Refused ==> j'.phase == Refused)
    && (Terminal(j.state) ==> j'.state == j.state)
  }

  ghost predicate Evolves(s: Sys, t: Sys) {
    && |s.jobs| <= |t.jobs| && |s.locks| <= |t.locks| && s.count <= t.count && s.maxlen == t.maxlen
    && (forall r :: 0 <= r < |s.jobs| ==> Later(s.jobs[r], t.jobs[r]))
    && (forall l :: 0 <= l < |s.locks| ==> t.locks[l].name == s.locks[l].name)
  }

  // Adding a job leaves the others alone, and locks stay as they are, held or free.
  lemma {:induction false} AddFrame(s: Sys, name: Option<string>, size: Option<nat>, transient: bool)
    requires Refs(s)
    ensures var t := AddStep(s, name, size, transient);
            && |t.jobs| == |s.jobs| + 1 && (forall r :: 0 <= r < |s.jobs| ==> t.jobs[r] == s.jobs[r])
            && t.jobs[|s.jobs|].state == WAITING && |s.locks| <= |t.locks| && s.count <= t.count && s.maxlen == t.maxlen
            && (forall l :: 0 <= l < |s.locks| ==>
                  t.locks[l].name == s.locks[l].name && t.locks[l].locked == s.locks[l].locked)
  {
    HandleLockFrame(s, name, transient);
    var t := HandleLock(s, name, transient);
    assert t.jobs[|s.jobs|].state == WAITING;
    assert forall r :: 0 <= r < |s.jobs| ==> Enqueue(t).jobs[r] == t.jobs[r];
  }

  lemma {:induction false} AddEvolves(s: Sys, name: Option<string>, size: Option<nat>, transient: bool)
    requires Refs(s)
    ensures Evolves(s, AddStep(s, name, size, transient))
  {
    AddFrame(s, name, size, transient);
  }

  lemma {:induction false} StepEvolves(s: Sys, e: Event)
    requires Refs(s) && QueueInv(s) && IdInv(s) && Enabled(s, e)
    ensures Evolves(s, Step(s, e))
  {
    if e.Add? {
      AddEvolves(s, e.name, e.lockQueueSize, e.transient);
    } else {
      OtherEvolves(s, e);
    }
  }

  lemma {:induction false} OtherEvolves(s: Sys, e: Event)
    requires Refs(s) && QueueInv(s) && IdInv(s) && Enabled(s, e) && !e.Add?
    ensures Evolves(s, Step(s, e))
  {
    match e
    case Next => NextEvolves(s);
    case Start(r) => OneEvolves(s, StartStep(s, r), r);
    case End(r, o) => OneEvolves(s, EndStep(s, r, o), r);
    case Finish(r) => FinishEvolves(s, r);
    case Abort(r) => OneEvolves(s, AbortStep(s, r), r);
  }

  lemma {:induction false} FinishEvolves(s: Sys, r: nat)
    requires Refs(s) && IdInv(s) && r < |s.jobs| && s.jobs[r].phase == Closing
    ensures Evolves(s, FinishStep(s, r))
  {
    OneEvolves(s, FinishStep(s, r), r);
  }

  // Only job `r` changed, and locks kept their names.
  lemma {:induction false} OneEvolves(s: Sys, t: Sys, r: nat)
    requires r < |s.jobs| == |t.jobs| && t.jobs == s.jobs[r := t.jobs[r]] && Later(s.jobs[r], t.jobs[r])
    requires |t.locks| == |s.locks| && forall l :: 0 <= l < |s.locks| ==> t.locks[l].name == s.locks[l].name
    requires t.count == s.count && t.maxlen == s.maxlen
    ensures Evolves(s, t)
  {
  }

  lemma {:induction false} NextEvolves(s: Sys)
    requires Refs(s) && QueueInv(s)
    ensures Evolves(s, NextStep(s))
  {
    var k := FirstRunnable(s, 0);
    if k < |s.queue| {
      OneEvolves(s, NextStep(s), s.queue[k]);
    }
  }

  lemma {:induction false} RunStepEvolves(trace: seq<Sys>, es: seq<Event>, k: nat)
    requires IsRun(trace, es) && Inv(trace[0]) && k < |es|
    ensures Evolves(trace[k], trace[k + 1])
  {
    RunInv(trace, es, k);
    StepEvolves(trace[k], es[k]);
  }

  lemma {:induction false} RunEvolves(trace: seq<Sys>, es: seq<Event>, i: nat, j: nat)
    requires IsRun(trace, es) && Inv(trace[0]) && i <= j < |trace|
    ensures Evolves(trace[i], trace[j])
    decreases j - i
  {
    if i == j {
      EvolvesNot(trace[i]);
    } else {
      RunEvolves(trace, es, i, j - 1);
      RunStepEvolves(trace, es, j - 1);
      EvolvesOn(trace[i], trace[j - 1], trace[j]);
    }
  }

  lemma {:induction false} EvolvesNot(s: Sys)
    ensures Evolves(s, s)
  {
  }

  lemma {:induction false} EvolvesOn(s: Sys, t: Sys, u: Sys)
    requires Evolves(s, t) && Evolves(t, u)
    ensures Evolves(s, u)
  {
    forall r | 0 <= r < |s.jobs| ensures Later(s.jobs[r], u.jobs[r]) {
      assert Later(s.jobs[r], t.jobs[r]) && Later(t.jobs[r], u.jobs[r]);
    }
  }

  // --- First in, first out ------------------------------------------------------------------------------

  ghost predicate DispatchedAt(trace: seq<Sys>, i: nat, r: nat) {
    && i + 1 < |trace| && r < |trace[i].jobs| && r < |trace[i + 1].jobs|
    && trace[i].jobs[r].phase == Queued && trace[i + 1].jobs[r].phase == Dispatched
  }

  /** Jobs of one lock name are dispatched in the order in which they were queued. */
  lemma {:induction false} DispatchOrder(trace: seq<Sys>, es: seq<Event>, i: nat, j: nat, r: nat, q: nat)
    requires IsRun(trace, es) && Inv(trace[0]) && i < j
    requires DispatchedAt(trace, i, r) && DispatchedAt(trace, j, q)
    requires Refs(trace[j]) && r < |trace[j].jobs| && SameName(trace[j], q, r)
    ensures r < q
  {
    RunInv(trace, es, j);
    DispatchedBefore(trace, es, i, j, r);
    QueuedAhead(trace[j], q, r);
  }

  lemma {:induction false} DispatchedBefore(trace: seq<Sys>, es: seq<Event>, i: nat, j: nat, r: nat)
    requires IsRun(trace, es) && Inv(trace[0]) && i < j < |trace| && DispatchedAt(trace, i, r)
    ensures r < |trace[j].jobs| && Rank(trace[j].jobs[r].phase) >= 2
  {
    RunEvolves(trace, es, i + 1, j);
    assert Later(trace[i + 1].jobs[r], trace[j].jobs[r]);
  }

  // A queued job stands behind those of its lock name that were dispatched.
  lemma {:induction false} QueuedAhead(s: Sys, q: nat, r: nat)
    requires Refs(s) && FifoInv(s) && q < |s.jobs| && r < |s.jobs| && SameName(s, q, r)
    requires s.jobs[q].phase == Queued && Rank(s.jobs[r].phase) >= 2
    ensures r < q
  {
    assert SameName(s, r, q);
  }

  /** A queued job is overtaken by a later one only while its own lock is held. */
  lemma {:induction false} Overtaking(trace: seq<Sys>, es: seq<Event>, i: nat, r: nat, q: nat)
    requires IsRun(trace, es) && Inv(trace[0]) && DispatchedAt(trace, i, r)
    requires q < r && q in trace[i].queue && Refs(trace[i])
    ensures q < |trace[i].jobs| && !Runnable(trace[i], q)
    ensures exists h :: && 0 <= h < |trace[i].jobs|
                        && Active(trace[i].jobs[h]) && trace[i].jobs[h].lock == trace[i].jobs[q].lock
  {
    RunInv(trace, es, i);
    assert trace[i + 1] == Step(trace[i], es[i]);
    DispatchIsNext(trace[i], es[i], r);
    AheadIsHeld(trace[i], q);
  }

  // A job ahead of the one to run next waits for a lock that is held.
  lemma {:induction false} AheadIsHeld(s: Sys, q: nat)
    requires Refs(s) && QueueInv(s) && HolderInv(s) && q in s.queue
    requires FirstRunnable(s, 0) < |s.queue| && q < s.queue[FirstRunnable(s, 0)]
    ensures q < |s.jobs| && !Runnable(s, q)
    ensures exists h :: 0 <= h < |s.jobs| && Active(s.jobs[h]) && s.jobs[h].lock == s.jobs[q].lock
  {
    var m :| 0 <= m < |s.queue| && s.queue[m] == q;
    assert m < FirstRunnable(s, 0);
    assert !Runnable(s, s.queue[m]);
    var h: nat :| Holds(s, s.jobs[q].lock.value, h);
  }

  lemma {:induction false} DispatchIsNext(s: Sys, e: Event, r: nat)
    requires Inv(s) && Enabled(s, e) && r < |s.jobs| && s.jobs[r].phase == Queued
    requires Step(s, e).jobs[r].phase == Dispatched
    ensures e == Next && FirstRunnable(s, 0) < |s.queue| && s.queue[FirstRunnable(s, 0)] == r
  {
    if e.Add? {
      AddFrame(s, e.name, e.lockQueueSize, e.transient);
    }
  }

  // --- Life cycle ------------------------------------------------------------------------------------------

  // The recorded states one step apart.
  predicate Succession(a: State, b: State) {
    || a == b
    || (a == WAITING && (b == RUNNING || b == ABORTED))
    || (a == RUNNING && Terminal(b))
  }

  lemma {:induction false} StepSuccession(s: Sys, e: Event, r: nat)
    requires Inv(s) && Enabled(s, e) && r < |s.jobs|
    ensures r < |Step(s, e).jobs| && Succession(s.jobs[r].state, Step(s, e).jobs[r].state)
  {
    assert Consistent(s.jobs[r]);
    if e.Add? {
      AddFrame(s, e.name, e.lockQueueSize, e.transient);
    }
  }

  // A job object begins its life waiting.
  lemma {:induction false} BornWaiting(s: Sys, e: Event, r: nat)
    requires Refs(s) && Enabled(s, e) && |s.jobs| <= r < |Step(s, e).jobs|
    ensures Step(s, e).jobs[r].state == WAITING
  {
    if e.Add? {
      AddFrame(s, e.name, e.lockQueueSize, e.transient);
    }
  }

  /** A job that succeeded or failed was running before; a terminal state is final. */
  lemma {:induction false} LifeCycle(maxlen: nat, trace: seq<Sys>, es: seq<Event>, j: nat, r: nat)
    requires IsRun(trace, es) && trace[0] == Init(maxlen) && j < |trace| && r < |trace[j].jobs|
    ensures trace[j].jobs[r].state == SUCCESS || trace[j].jobs[r].state == FAILED ==>
              exists i :: 0 <= i < j && r < |trace[i].jobs| && trace[i].jobs[r].state == RUNNING
    ensures Terminal(trace[j].jobs[r].state) ==>
              forall k :: j <= k < |trace| ==> r < |trace[k].jobs| && trace[k].jobs[r].state == trace[j].jobs[r].state
    decreases j
  {
    InitInv(maxlen);
    if j > 0 {
      RunInv(trace, es, j - 1);
      if r < |trace[j - 1].jobs| {
        LifeCycle(maxlen, trace, es, j - 1, r);
        StepSuccession(trace[j - 1], es[j - 1], r);
      } else {
        BornWaiting(trace[j - 1], es[j - 1], r);
      }
    }
    forall k | j <= k < |trace|
      ensures r < |trace[k].jobs|
      ensures (Terminal(trace[j].jobs[r].state) ==> trace[k].jobs[r].state == trace[j].jobs[r].state)
    {
      RunEvolves(trace, es, j, k);
      assert Later(trace[j].jobs[r], trace[k].jobs[r]);
    }
  }

  /** A lock is let go only by the clean-up of the job that holds it. */
  lemma {:induction false} ReleasedByHolder(s: Sys, e: Event, l: nat)
    requires Inv(s) && Enabled(s, e) && l < |s.locks| && s.locks[l].locked
    requires l < |Step(s, e).locks| && !Step(s, e).locks[l].locked
    ensures e.Finish? && Holds(s, l, e.job)
  {
    match e
    case Add(name, size, transient) => AddFrame(s, name, size, transient);
    case Next => NextKeepsLocked(s, l);
    case Finish(r) => assert s.jobs[r].lock == Some(l);
    case _ =>
  }

  lemma {:induction false} NextKeepsLocked(s: Sys, l: nat)
    requires Refs(s) && l < |s.locks| && s.locks[l].locked
    ensures l < |NextStep(s).locks| && NextStep(s).locks[l].locked
  {
  }

  /** The clean-up of a job runs at most once in a run, and from then on, in particular when its
      waiters are woken, the job is neither listed by its lock nor its holder. */
  lemma {:induction false} ReleasedOnce(trace: seq<Sys>, es: seq<Event>, i: nat, j: nat, r: nat)
    requires IsRun(trace, es) && Inv(trace[0]) && i < |es| && es[i] == Finish(r) && i < j < |trace|
    ensures j < |es| ==> es[j] != Finish(r)
    ensures r < |trace[j].jobs| && trace[j].jobs[r].phase == Finished
    ensures forall l: nat :: l < |trace[j].locks| ==> r !in trace[j].locks[l].jobs && !Holds(trace[j], l, r)
  {
    FinishedStays(trace, es, i, j, r);
    RunInv(trace, es, j);
    FinishedIsFree(trace[j], r);
  }

  lemma {:induction false} FinishedStays(trace: seq<Sys>, es: seq<Event>, i: nat, j: nat, r: nat)
    requires IsRun(trace, es) && Inv(trace[0]) && i < |es| && es[i] == Finish(r) && i < j < |trace|
    ensures r < |trace[j].jobs| && trace[j].jobs[r].phase == Finished
  {
    RunEvolves(trace, es, i + 1, j);
    assert trace[i + 1] == Step(trace[i], es[i]) == FinishStep(trace[i], r);
    assert Later(trace[i + 1].jobs[r], trace[j].jobs[r]);
  }

  lemma {:induction false} FinishedIsFree(s: Sys, r: nat)
    requires Refs(s) && LockInv(s) && r < |s.jobs| && s.jobs[r].phase == Finished
    ensures forall l: nat :: l < |s.locks| ==> r !in s.locks[l].jobs && !Holds(s, l, r)
  {
    forall l: nat | l < |s.locks| ensures r !in s.locks[l].jobs {
      assert r in s.locks[l].jobs ==> MayList(s, l, r);
    }
  }

  // --- Sums over the jobs ------------------------------------------------------------------------------------

  function Sum(jobs: seq<Job>, w: Job -> nat): nat {
    if jobs == [] then 0 else Sum(jobs[..|jobs| - 1], w) + w(jobs[|jobs| - 1])
  }

  lemma {:induction false} SumUpdate(jobs: seq<Job>, r: nat, j: Job, w: Job -> nat)
    requires r < |jobs|
    ensures Sum(jobs[r := j], w) + w(jobs[r]) == Sum(jobs, w) + w(j)
  {
    var init := jobs[..|jobs| - 1];
    if r == |jobs| - 1 {
      assert jobs[r := j][..|jobs| - 1] == init;
    } else {
      SumUpdate(init, r, j, w);
      assert jobs[r := j][..|jobs| - 1] == init[r := j];
    }
  }

  lemma {:induction false} CountBound(jobs: seq<Job>, w: Job -> nat, xs: seq<nat>)
    requires Sorted(xs) && forall i :: 0 <= i < |xs| ==> xs[i] < |jobs| && w(jobs[xs[i]]) >= 1
    ensures |xs| <= Sum(jobs, w)
    decreases |jobs|
  {
    if xs != [] {
      assert xs[0] < |jobs|;
      var init, n := jobs[..|jobs| - 1], |jobs| - 1;
      if xs[|xs| - 1] == n {
        CountBound(init, w, xs[..|xs| - 1]);
      } else {
        CountBound(init, w, xs);
      }
    }
  }

  // --- No lost wake-up, and draining ------------------------------------------------------------------------

  function OneIfActive(j: Job): nat {
    if Active(j) then 1 else 0
  }

  function StepsLeft(j: Job): nat {
    match j.phase case Dispatched => 3 case Running => 2 case Closing => 1 case _ => 0
  }

  // Dispatches and finishes still to come.
  function Moves(s: Sys): nat {
    2 * |s.queue| + Sum(s.jobs, OneIfActive)
  }

  // All steps still to come, counting the rounds that find nothing to run.
  function Work(s: Sys): nat {
    2 * (4 * |s.queue| + Sum(s.jobs, StepsLeft)) + (if s.event then 1 else 0)
  }

  predicate IsMove(s: Sys, e: Event)
    requires Refs(s)
  {
    e.Finish? || (e.Next? && FirstRunnable(s, 0) < |s.queue|)
  }

  // Every step but an add changes at most one job.
  ghost function Touched(s: Sys, e: Event): nat
    requires Refs(s) && Enabled(s, e) && !e.Add? && (e.Next? ==> FirstRunnable(s, 0) < |s.queue|)
  {
    if e.Next? then s.queue[FirstRunnable(s, 0)] else e.job
  }

  lemma {:induction false} StepSum(s: Sys, e: Event, w: Job -> nat)
    requires Refs(s) && Enabled(s, e) && !e.Add?
    ensures e.Next? && FirstRunnable(s, 0) == |s.queue| ==> Step(s, e).jobs == s.jobs
    ensures !(e.Next? && FirstRunnable(s, 0) == |s.queue|) ==>
              var r := Touched(s, e);
              && r < |s.jobs| == |Step(s, e).jobs|
              && Sum(Step(s, e).jobs, w) + w(s.jobs[r]) == Sum(s.jobs, w) + w(Step(s, e).jobs[r])
  {
    if !(e.Next? && FirstRunnable(s, 0) == |s.queue|) {
      var r := Touched(s, e);
      assert Step(s, e).jobs == s.jobs[r := Step(s, e).jobs[r]];
      SumUpdate(s.jobs, r, Step(s, e).jobs[r], w);
    }
  }

  lemma {:induction false} StepMoves(s: Sys, e: Event)
    requires Refs(s) && QueueInv(s) && Enabled(s, e) && !e.Add?
    ensures Moves(Step(s, e)) == Moves(s) - (if IsMove(s, e) then 1 else 0)
  {
    StepSum(s, e, OneIfActive);
  }

  lemma {:induction false} StepWork(s: Sys, e: Event)
    requires Refs(s) && QueueInv(s) && Enabled(s, e) && !e.Add?
    ensures Work(Step(s, e)) <= Work(s)
    ensures !e.Abort? ==> Work(Step(s, e)) < Work(s)
  {
    if e.Next? {
      NextWork(s);
    } else {
      StepSum(s, e, StepsLeft);
    }
  }

  lemma {:induction false} NextWork(s: Sys)
    requires Refs(s) && QueueInv(s) && s.event
    ensures Work(NextStep(s)) < Work(s)
  {
    StepSum(s, Next, StepsLeft);
  }

  /** Whenever the scheduler is parked on a clear event, no queued job could run. */
  lemma {:induction false} NoLostWakeUp(maxlen: nat, trace: seq<Sys>, es: seq<Event>, i: nat, r: nat)
    requires IsRun(trace, es) && trace[0] == Init(maxlen) && i < |trace| && !trace[i].event
    requires r in trace[i].queue && Refs(trace[i])
    ensures r < |trace[i].jobs| && !Runnable(trace[i], r)
  {
    InitInv(maxlen);
    RunInv(trace, es, i);
  }

  // Some step of the scheduler or of a job other than an abort can be taken.
  ghost predicate CanStep(s: Sys) {
    exists e: Event :: !e.Add? && !e.Abort? && Enabled(s, e)
  }

  /** The scheduler never gets stuck with jobs in the queue. */
  lemma {:induction false} NeverStuck(s: Sys)
    requires Inv(s) && (s.queue != [] || exists r :: 0 <= r < |s.jobs| && Active(s.jobs[r]))
    ensures CanStep(s)
  {
    if s.event {
      assert Enabled(s, Next);
    } else {
      if s.queue != [] {
        ParkedIsHeld(s);
      }
      var r: nat :| r < |s.jobs| && Active(s.jobs[r]);
      ActiveSteps(s, r);
    }
  }

  lemma {:induction false} ParkedIsHeld(s: Sys)
    requires Refs(s) && WakeInv(s) && HolderInv(s) && !s.event && s.queue != []
    ensures exists r :: 0 <= r < |s.jobs| && Active(s.jobs[r])
  {
    assert s.queue[0] in s.queue;
    var l := s.jobs[s.queue[0]].lock.value;
    assert s.locks[l].locked;
    var h: nat :| Holds(s, l, h);
  }

  lemma {:induction false} ActiveSteps(s: Sys, r: nat)
    requires r < |s.jobs| && Active(s.jobs[r])
    ensures CanStep(s)
  {
    assert Enabled(s, Start(r)) || Enabled(s, End(r, Returned)) || Enabled(s, Finish(r));
  }

  ghost function CountMoves(trace: seq<Sys>, es: seq<Event>, i: nat): nat
    requires IsRun(trace, es) && i <= |es|
  {
    if i == 0 then 0 else CountMoves(trace, es, i - 1) + (if IsMove(trace[i - 1], es[i - 1]) then 1 else 0)
  }

  // Abort requests do not count.
  function Effort(e: Event): nat {
    if e.Abort? then 0 else 1
  }

  ghost function CountSteps(es: seq<Event>, i: nat): nat
    requires i <= |es|
  {
    if i == 0 then 0 else CountSteps(es, i - 1) + Effort(es[i - 1])
  }

  /** Without further adds, `2 * |queue| + |active|` dispatches and finishes empty the queue, no run
      has more of them, and no run can go on for ever. */
  lemma {:induction false} Drains(trace: seq<Sys>, es: seq<Event>, i: nat)
    requires IsRun(trace, es) && Inv(trace[0]) && i <= |es| && forall k :: 0 <= k < |es| ==> !es[k].Add?
    ensures CountMoves(trace, es, i) + Moves(trace[i]) == Moves(trace[0])
    ensures CountSteps(es, i) + Work(trace[i]) <= Work(trace[0])
    ensures CountMoves(trace, es, i) == Moves(trace[0]) ==> trace[i].queue == []
  {
    forall k | 0 <= k < |es|
      ensures Moves(trace[k + 1]) + (if IsMove(trace[k], es[k]) then 1 else 0) == Moves(trace[k])
      ensures Work(trace[k + 1]) + Effort(es[k]) <= Work(trace[k])
    {
      DrainStep(trace, es, k);
    }
    DrainMoves(trace, es, i);
    DrainWork(trace, es, i);
  }

  lemma {:induction false} DrainMoves(trace: seq<Sys>, es: seq<Event>, i: nat)
    requires IsRun(trace, es) && i <= |es|
    requires forall k {:trigger es[k]} :: 0 <= k < |es| ==>
               Moves(trace[k + 1]) + (if IsMove(trace[k], es[k]) then 1 else 0) == Moves(trace[k])
    ensures CountMoves(trace, es, i) + Moves(trace[i]) == Moves(trace[0])
  {
    if i > 0 {
      DrainMoves(trace, es, i - 1);
    }
  }

  lemma {:induction false} DrainWork(trace: seq<Sys>, es: seq<Event>, i: nat)
    requires |trace| == |es| + 1 && i <= |es|
    requires forall k {:trigger es[k]} :: 0 <= k < |es| ==> Work(trace[k + 1]) + Effort(es[k]) <= Work(trace[k])
    ensures CountSteps(es, i) + Work(trace[i]) <= Work(trace[0])
  {
    if i > 0 {
      DrainWork(trace, es, i - 1);
    }
  }

  lemma {:induction false} DrainStep(trace: seq<Sys>, es: seq<Event>, i: nat)
    requires IsRun(trace, es) && Inv(trace[0]) && i < |es| && !es[i].Add?
    ensures Moves(trace[i + 1]) + (if IsMove(trace[i], es[i]) then 1 else 0) == Moves(trace[i])
    ensures Work(trace[i + 1]) + Effort(es[i]) <= Work(trace[i])
  {
    RunInv(trace, es, i);
    StepMoves(trace[i], es[i]);
    StepWork(trace[i], es[i]);
  }

  // --- Every job is released --------------------------------------------------------------------------------

  // Somewhere on the way from unfinished to finished lies the clean-up.
  lemma {:induction false} FinishedBySomeStep(trace: seq<Sys>, es: seq<Event>, j: nat, r: nat) returns (k: nat)
    requires IsRun(trace, es) && Inv(trace[0]) && j < |trace| && r < |trace[0].jobs| && r < |trace[j].jobs|
    requires trace[0].jobs[r].phase != Finished && trace[j].jobs[r].phase == Finished
    ensures k < j && es[k] == Finish(r)
    decreases j
  {
    RunEvolves(trace, es, 0, j - 1);
    if trace[j - 1].jobs[r].phase == Finished {
      k := FinishedBySomeStep(trace, es, j - 1, r);
    } else {
      FinishedNow(trace, es, j - 1, r);
      k := j - 1;
    }
  }

  lemma {:induction false} FinishedNow(trace: seq<Sys>, es: seq<Event>, i: nat, r: nat)
    requires IsRun(trace, es) && Inv(trace[0]) && i < |es| && r < |trace[i].jobs| && r < |trace[i + 1].jobs|
    requires trace[i].jobs[r].phase != Finished && trace[i + 1].jobs[r].phase == Finished
    ensures es[i] == Finish(r)
  {
    RunInv(trace, es, i);
    assert trace[i + 1] == Step(trace[i], es[i]);
    OnlyFinishFinishes(trace[i], es[i], r);
  }

  lemma {:induction false} OnlyFinishFinishes(s: Sys, e: Event, r: nat)
    requires Refs(s) && QueueInv(s) && Enabled(s, e) && r < |s.jobs| && r < |Step(s, e).jobs|
    requires s.jobs[r].phase != Finished && Step(s, e).jobs[r].phase == Finished
    ensures e == Finish(r)
  {
    match e
    case Add(name, size, transient) => AddFrame(s, name, size, transient);
    case _ =>
  }

  /** In a run that only an add or an abort could continue, every job that was queued or active at its
      beginning is cleaned up exactly once. */
  lemma {:induction false} ReleasedExactlyOnce(trace: seq<Sys>, es: seq<Event>, r: nat)
    requires IsRun(trace, es) && Inv(trace[0]) && !CanStep(trace[|es|])
    requires r < |trace[0].jobs| && Engaged(trace[0].jobs[r])
    ensures exists k :: 0 <= k < |es| && es[k] == Finish(r) && forall j :: 0 <= j < |es| && j != k ==>
          es[j] != Finish(r)
  {
    var last := trace[|es|];
    RunInv(trace, es, |es|);
    RunEvolves(trace, es, 0, |es|);
    assert Later(trace[0].jobs[r], last.jobs[r]);
    if last.jobs[r].phase != Finished {
      EngagedSteps(last, r);
    }
    var k := FinishedBySomeStep(trace, es, |es|, r);
    forall j | 0 <= j < |es| && j != k ensures es[j] != Finish(r) {
      if es[j] == Finish(r) {
        ReleasedOnce(trace, es, if j < k then j else k, if j < k then k else j, r);
      }
    }
  }

  lemma {:induction false} EngagedSteps(s: Sys, r: nat)
    requires Inv(s) && r < |s.jobs| && Engaged(s.jobs[r])
    ensures CanStep(s)
  {
    NeverStuck(s);
  }

  // --- The bounded history ---------------------------------------------------------------------------------

  function OneIfLive(j: Job): nat {
    if Live(j) then 1 else 0
  }

  // The largest number of live jobs seen up to state `i`.
  ghost function PeakLive(trace: seq<Sys>, i: nat): nat
    requires i < |trace|
  {
    var now := Sum(trace[i].jobs, OneIfLive);
    if i == 0 then now else if now > PeakLive(trace, i - 1) then now else PeakLive(trace, i - 1)
  }

  lemma {:induction false} AddHistory(s: Sys)
    requires Refs(s) && IdInv(s) && HistoryInv(s) && |s.jobs| > 0 && s.jobs[|s.jobs| - 1].phase == Refused
    ensures |Enqueue(s).history| <= |s.history| || |Enqueue(s).history| <= s.maxlen + 1 ||
            |Enqueue(s).history| <= Sum(Enqueue(s).jobs, OneIfLive)
  {
    if |s.history| > s.maxlen && FirstTerminal(s.jobs, s.history, 0) == |s.history| {
      FullHistory(s);
    } else {
      EvictedShorter(s);
    }
  }

  lemma {:induction false} EvictedShorter(s: Sys)
    requires Refs(s) && (|s.history| <= s.maxlen || FirstTerminal(s.jobs, s.history, 0) < |s.history|)
    ensures |Evicted(s)| < |s.history| || |Evicted(s)| <= s.maxlen
  {
  }

  lemma {:induction false} FullHistory(s: Sys)
    requires Refs(s) && IdInv(s) && HistoryInv(s) && |s.jobs| > 0 && s.jobs[|s.jobs| - 1].phase == Refused
    requires |s.history| > s.maxlen && FirstTerminal(s.jobs, s.history, 0) == |s.history|
    ensures |Enqueue(s).history| <= Sum(Enqueue(s).jobs, OneIfLive)
  {
    EnqueueHistory(s);
    AllLive(s, Enqueue(s));
  }

  // Where nothing can be evicted, everything stored is live.
  lemma {:induction false} AllLive(s: Sys, t: Sys)
    requires IdInv(s) && HistoryInv(s) && HistoryInv(t) && |s.jobs| > 0 && s.jobs[|s.jobs| - 1].phase == Refused
    requires forall i :: 0 <= i < |s.history| ==> s.history[i] < |s.jobs| && !Terminal(s.jobs[s.history[i]].state)
    requires t.history == s.history + [|s.jobs| - 1] && |t.jobs| == |s.jobs| && t.jobs[|s.jobs| - 1].phase == Queued
    requires forall q :: 0 <= q < |s.jobs| - 1 ==> t.jobs[q] == s.jobs[q]
    ensures |t.history| <= Sum(t.jobs, OneIfLive)
  {
    forall i | 0 <= i < |t.history| ensures t.history[i] < |t.jobs| && OneIfLive(t.jobs[t.history[i]]) >= 1 {
      if i < |s.history| {
        assert s.history[i] in s.history;
        assert Consistent(s.jobs[s.history[i]]);
        assert s.history[i] != |s.jobs| - 1;
      }
    }
    CountBound(t.jobs, OneIfLive, t.history);
  }

  lemma {:induction false} StepHistory(s: Sys, e: Event)
    requires Inv(s) && Enabled(s, e)
    ensures |Step(s, e).history| <= |s.history| || |Step(s, e).history| <= s.maxlen + 1 ||
            |Step(s, e).history| <= Sum(Step(s, e).jobs, OneIfLive)
  {
    if e.Add? {
      AddedHistory(s, e.name, e.lockQueueSize, e.transient);
    } else {
      OtherHistory(s, e);
    }
  }

  lemma {:induction false} AddedHistory(s: Sys, name: Option<string>, size: Option<nat>, transient: bool)
    requires Inv(s)
    ensures var t := AddStep(s, name, size, transient);
            |t.history| <= |s.history| || |t.history| <= s.maxlen + 1 || |t.history| <= Sum(t.jobs, OneIfLive)
  {
    var t := HandleLock(s, name, transient);
    HandleLockInv(s, name, transient);
    assert t.history == s.history && t.maxlen == s.maxlen;
    AddHistory(t);
  }

  lemma {:induction false} OtherHistory(s: Sys, e: Event)
    requires Refs(s) && Enabled(s, e) && !e.Add?
    ensures |Step(s, e).history| <= |s.history|
  {
  }

  /** The history exceeds `maxlen + 1` jobs only as far as that many were live at once, and a live
      job is always in it. */
  lemma {:induction false} HistoryBound(maxlen: nat, trace: seq<Sys>, es: seq<Event>, i: nat)
    requires IsRun(trace, es) && trace[0] == Init(maxlen) && i < |trace|
    ensures |trace[i].history| <= maxlen + 1 || |trace[i].history| <= PeakLive(trace, i)
    ensures forall r :: 0 <= r < |trace[i].jobs| && Live(trace[i].jobs[r]) ==> r in trace[i].history
    ensures trace[i].maxlen == maxlen
  {
    InitInv(maxlen);
    HistorySize(trace, es, i);
    RunInv(trace, es, i);
    LiveStored(trace[i]);
  }

  lemma {:induction false} LiveStored(s: Sys)
    requires Inv(s)
    ensures forall r :: 0 <= r < |s.jobs| && Live(s.jobs[r]) ==> r in s.history
  {
  }

  lemma {:induction false} HistorySize(trace: seq<Sys>, es: seq<Event>, i: nat)
    requires IsRun(trace, es) && Inv(trace[0]) && trace[0].history == [] && i < |trace|
    ensures |trace[i].history| <= trace[0].maxlen + 1 || |trace[i].history| <= PeakLive(trace, i)
    ensures trace[i].maxlen == trace[0].maxlen
  {
    if i > 0 {
      HistorySize(trace, es, i - 1);
      HistoryGrows(trace, es, i - 1);
    }
  }

  lemma {:induction false} HistoryGrows(trace: seq<Sys>, es: seq<Event>, i: nat)
    requires IsRun(trace, es) && Inv(trace[0]) && i < |es|
    ensures var s, t := trace[i], trace[i + 1];
            && t.maxlen == s.maxlen
            && (|t.history| <= |s.history| || |t.history| <= s.maxlen + 1 || |t.history| <= Sum(t.jobs, OneIfLive))
  {
    RunInv(trace, es, i);
    StepHistory(trace[i], es[i]);
    StepEvolves(trace[i], es[i]);
  }

  /** Identifiers strictly increase in the order in which jobs were accepted, across the run. */
  lemma {:induction false} IdsIncrease(maxlen: nat, trace: seq<Sys>, es: seq<Event>, i: nat, j: nat, q: nat, r: nat)
    requires IsRun(trace, es) && trace[0] == Init(maxlen) && i <= j < |trace|
    requires q < |trace[i].jobs| <= r < |trace[j].jobs| && trace[i].jobs[q].id.Some? && trace[j].jobs[r].id.Some?
    ensures trace[i].jobs[q].id.value < trace[j].jobs[r].id.value
  {
    InitInv(maxlen);
    RunInv(trace, es, j);
    RunEvolves(trace, es, i, j);
    assert Later(trace[i].jobs[q], trace[j].jobs[q]);
  }
}
