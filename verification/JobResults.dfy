/**
 What becomes of a job, told from the events of the run alone: which state it is recorded in, whether
 it is turned away, which identifier it is given, and when it leaves the history.
 */
module JobResults {
  import opened JobRuns
  import opened Jobs
  import opened Sequences
  import opened Wrappers

  // --- The recorded state ------------------------------------------------------------------------------

  // The event is among the first `i`.
  ghost predicate Occurs(es: seq<Event>, i: nat, e: Event)
    requires i <= |es|
  {
    exists k :: 0 <= k < i && es[k] == e
  }

  // The job was to be aborted by the time it was started.
  ghost predicate StartsAborted(es: seq<Event>, i: nat, r: nat)
    requires i <= |es|
  {
    exists k :: 0 <= k < i && es[k] == Start(r) && Occurs(es, k, Abort(r))
  }

  ghost predicate Explained(j: Job, es: seq<Event>, i: nat, r: nat)
    requires i <= |es|
  {
    && (j.state == SUCCESS <==> Occurs(es, i, End(r, Returned)))
    && (j.state == FAILED <==> Occurs(es, i, End(r, Raised)))
    && (j.state == ABORTED <==> Occurs(es, i, End(r, Cancelled)) || StartsAborted(es, i, r))
    && (j.state == WAITING <==> !Occurs(es, i, Start(r)))
    && (j.state == WAITING ==> (j.aborted <==> Occurs(es, i, Abort(r))))
  }

  lemma {:induction false} OccursNext(es: seq<Event>, i: nat, e: Event)
    requires i < |es|
    ensures Occurs(es, i + 1, e) <==> Occurs(es, i, e) || es[i] == e
  {
    if k :| 0 <= k < i && es[k] == e {
      assert k < i + 1;
    }
  }

  lemma {:induction false} StartsAbortedNext(es: seq<Event>, i: nat, r: nat)
    requires i < |es|
    ensures StartsAborted(es, i + 1, r) <==> StartsAborted(es, i, r) || (es[i] == Start(r) && Occurs(es, i, Abort(r)))
  {
    if k :| 0 <= k < i && es[k] == Start(r) && Occurs(es, k, Abort(r)) {
      assert k < i + 1;
    }
  }

  predicate Concerns(e: Event, r: nat) {
    match e case Add(_, _, _) => false case Next => false case Start(q) => q == r case End(q, _) => q == r
    case Finish(q) => q == r case Abort(q) => q == r
  }

  // One step, seen from one job.
  lemma {:induction false} JobStep(s: Sys, e: Event, r: nat)
    requires Refs(s) && IdInv(s) && Enabled(s, e) && r < |s.jobs|
    ensures var j, t := s.jobs[r], Step(s, e);
            && r < |t.jobs|
            && (e == Start(r) ==> j.state == WAITING && t.jobs[r].state == if j.aborted then ABORTED else RUNNING)
            && (e.End? && e.job == r ==> j.state == RUNNING && t.jobs[r].state == match e.outcome
                                                                 case Returned => SUCCESS
                                                                 case Raised => FAILED
                                                                 case Cancelled => ABORTED)
            && (e == Abort(r) ==> t.jobs[r].state == j.state && (j.state == WAITING ==> t.jobs[r].aborted))
            && ((!e.Start? && !e.End?) || !Concerns(e, r) ==> t.jobs[r].state == j.state)
            && (e != Abort(r) ==> t.jobs[r].aborted == j.aborted)
  {
    assert Consistent(s.jobs[r]);
    if e.Add? {
      AddFrame(s, e.name, e.lockQueueSize, e.transient);
    }
  }

  lemma {:induction false} ExplainedNext(s: Sys, es: seq<Event>, i: nat, r: nat)
    requires i < |es| && Refs(s) && IdInv(s) && Enabled(s, es[i]) && r < |s.jobs| && Explained(s.jobs[r], es, i, r)
    ensures r < |Step(s, es[i]).jobs| && Explained(Step(s, es[i]).jobs[r], es, i + 1, r)
  {
    JobStep(s, es[i], r);
    OccursNext(es, i, End(r, Returned));
    OccursNext(es, i, End(r, Raised));
    OccursNext(es, i, End(r, Cancelled));
    OccursNext(es, i, Start(r));
    OccursNext(es, i, Abort(r));
    StartsAbortedNext(es, i, r);
  }

  // No event concerns a job that is still to come.
  lemma {:induction false} NotBefore(trace: seq<Sys>, es: seq<Event>, i: nat, r: nat)
    requires IsRun(trace, es) && Inv(trace[0]) && i <= |es| && |trace[i].jobs| <= r
    ensures forall k :: 0 <= k < i ==> !Concerns(es[k], r)
  {
    forall k | 0 <= k < i ensures !Concerns(es[k], r) {
      RunEvolves(trace, es, k, i);
      assert Enabled(trace[k], es[k]);
    }
  }

  lemma {:induction false} Unconcerned(j: Job, es: seq<Event>, i: nat, r: nat)
    requires i <= |es| && (forall k :: 0 <= k < i ==> !Concerns(es[k], r)) && j.state == WAITING && !j.aborted
    ensures Explained(j, es, i, r)
  {
  }

  lemma {:induction false} BornFresh(s: Sys, e: Event, r: nat)
    requires Refs(s) && Enabled(s, e) && |s.jobs| <= r < |Step(s, e).jobs|
    ensures e.Add? && !Step(s, e).jobs[r].aborted && Step(s, e).jobs[r].state == WAITING
  {
    if e.Add? {
      AddedFresh(s, e.name, e.lockQueueSize, e.transient);
    }
  }

  lemma {:induction false} NewExplained(trace: seq<Sys>, es: seq<Event>, i: nat, r: nat)
    requires IsRun(trace, es) && Inv(trace[0]) && i < |es| && |trace[i].jobs| <= r < |trace[i + 1].jobs|
    ensures Explained(trace[i + 1].jobs[r], es, i + 1, r)
  {
    NotBefore(trace, es, i, r);
    assert trace[i + 1] == Step(trace[i], es[i]);
    BornFresh(trace[i], es[i], r);
    Unconcerned(trace[i + 1].jobs[r], es, i + 1, r);
  }

  lemma {:induction false} StillExplained(trace: seq<Sys>, es: seq<Event>, i: nat, r: nat)
    requires IsRun(trace, es) && Inv(trace[0]) && i < |es| && r < |trace[i].jobs|
    requires Explained(trace[i].jobs[r], es, i, r)
    ensures r < |trace[i + 1].jobs| && Explained(trace[i + 1].jobs[r], es, i + 1, r)
  {
    RunInv(trace, es, i);
    assert trace[i + 1] == Step(trace[i], es[i]);
    ExplainedNext(trace[i], es, i, r);
  }

  lemma {:induction false} ExplainedFrom(trace: seq<Sys>, es: seq<Event>, i: nat, r: nat)
    requires IsRun(trace, es) && Inv(trace[0]) && trace[0].jobs == [] && i <= |es| && r < |trace[i].jobs|
    ensures Explained(trace[i].jobs[r], es, i, r)
    decreases i
  {
    if i > 0 {
      if r < |trace[i - 1].jobs| {
        ExplainedFrom(trace, es, i - 1, r);
        StillExplained(trace, es, i - 1, r);
      } else {
        NewExplained(trace, es, i - 1, r);
      }
    }
  }

  /** In every run a job succeeded exactly if its body returned, failed exactly if its body raised, and
      was aborted exactly if its body was cancelled or it was to be aborted before it was started. */
  lemma {:induction false} StateExplained(maxlen: nat, trace: seq<Sys>, es: seq<Event>, i: nat, r: nat)
    requires IsRun(trace, es) && trace[0] == Init(maxlen) && i <= |es| && r < |trace[i].jobs|
    ensures var st := trace[i].jobs[r].state;
            && (st == SUCCESS <==> Occurs(es, i, End(r, Returned)))
            && (st == FAILED <==> Occurs(es, i, End(r, Raised)))
            && (st == ABORTED <==> Occurs(es, i, End(r, Cancelled)) || StartsAborted(es, i, r))
            && (st == WAITING <==> !Occurs(es, i, Start(r)))
  {
    InitInv(maxlen);
    ExplainedFrom(trace, es, i, r);
  }

  // --- A new job -----------------------------------------------------------------------------------------

  lemma {:induction false} AddedFresh(s: Sys, name: Option<string>, size: Option<nat>, transient: bool)
    requires Refs(s)
    ensures var t := AddStep(s, name, size, transient);
            && |t.jobs| == |s.jobs| + 1
            && var j := t.jobs[|s.jobs|]; j.transient == transient && !j.aborted && j.state == WAITING
  {
  }

  // How many jobs wait for the lock of that name; without a name, how many wait without a lock.
  ghost function Waiting(s: Sys, name: Option<string>): nat
    requires Refs(s)
  {
    |set q | q in s.queue && q < |s.jobs| && LockName(s, q) == name|
  }

  // The queued jobs that were attached to the lock.
  ghost function Attached(jobs: seq<Job>, queue: seq<nat>, lock: Option<nat>): set<nat> {
    set q | q in queue && q < |jobs| && jobs[q].lock == lock
  }

  lemma {:induction false} AttachedLast(jobs: seq<Job>, queue: seq<nat>, lock: Option<nat>)
    requires queue != [] && queue[|queue| - 1] < |jobs|
    ensures var init, last := queue[..|queue| - 1], queue[|queue| - 1];
            Attached(jobs, queue, lock) == Attached(jobs, init, lock) + (if jobs[last].lock == lock then {last} else {})
  {
    assert queue == queue[..|queue| - 1] + [queue[|queue| - 1]];
  }

  lemma {:induction false} SameLockCount(jobs: seq<Job>, queue: seq<nat>, lock: Option<nat>)
    requires Sorted(queue) && forall i :: 0 <= i < |queue| ==> queue[i] < |jobs|
    ensures |SameLock(jobs, queue, lock)| == |Attached(jobs, queue, lock)|
    decreases |queue|
  {
    if queue == [] {
      assert Attached(jobs, queue, lock) == {};
    } else {
      var init, last := queue[..|queue| - 1], queue[|queue| - 1];
      AttachedLast(jobs, queue, lock);
      SameLockCount(jobs, init, lock);
      assert last !in init;
    }
  }

  // The lock that a job of that name is attached to is the lock of the queued jobs of that name.
  lemma {:induction false} AttachedLock(s: Sys, name: Option<string>, transient: bool, q: nat)
    requires Refs(s) && QueueInv(s) && LockInv(s) && q in s.queue && q < |s.jobs|
    ensures var t := HandleLock(s, name, transient);
            t.jobs[q].lock == t.jobs[|s.jobs|].lock <==> LockName(s, q) == name
  {
    if s.jobs[q].lock.Some? {
      var l := s.jobs[q].lock.value;
      assert q in s.locks[l].jobs;
      assert MayList(s, l, q);
    }
  }

  lemma {:induction false} WaitingIsAttached(s: Sys, t: Sys, name: Option<string>, lock: Option<nat>)
    requires Refs(s) && t.queue == s.queue && |s.jobs| <= |t.jobs|
    requires forall q :: q in s.queue && q < |s.jobs| ==> (t.jobs[q].lock == lock <==> LockName(s, q) == name)
    ensures |Attached(t.jobs, t.queue, lock)| == Waiting(s, name)
  {
    assert Attached(t.jobs, t.queue, lock) == set q | q in s.queue && q < |s.jobs| && LockName(s, q) == name;
  }

  lemma {:induction false} LockIsFull(s: Sys, name: Option<string>, transient: bool)
    requires Refs(s) && QueueInv(s) && LockInv(s)
    ensures var t := HandleLock(s, name, transient);
            Refs(t) && |SameLock(t.jobs, t.queue, t.jobs[|s.jobs|].lock)| == Waiting(s, name)
  {
    var t := HandleLock(s, name, transient);
    HandleLockRefs(s, name, transient);
    SameLockCount(t.jobs, t.queue, t.jobs[|s.jobs|].lock);
    forall q | q in s.queue && q < |s.jobs|
      ensures t.jobs[q].lock == t.jobs[|s.jobs|].lock <==> LockName(s, q) == name
    {
      AttachedLock(s, name, transient, q);
    }
    WaitingIsAttached(s, t, name, t.jobs[|s.jobs|].lock);
  }

  /** A job is turned away exactly if as many jobs as it allows wait for the same lock already; else it is
      queued. */
  lemma {:induction false} RefusedExactly(s: Sys, name: Option<string>, size: Option<nat>, transient: bool)
    requires Refs(s) && QueueInv(s) && LockInv(s)
    ensures AddStep(s, name, size, transient).jobs[|s.jobs|].phase ==
            if size.Some? && Waiting(s, name) >= size.value then Refused else Queued
  {
    LockIsFull(s, name, transient);
  }

  // The name that was asked for is the name of the lock.
  lemma {:induction false} AddedName(s: Sys, name: Option<string>, size: Option<nat>, transient: bool)
    requires Inv(s)
    ensures var t := AddStep(s, name, size, transient); Refs(t) && LockName(t, |s.jobs|) == name
  {
    AddInv(s, name, size, transient);
  }

  // --- Identifiers -----------------------------------------------------------------------------------------

  function OneIfNumbered(j: Job): nat {
    if j.id.Some? then 1 else 0
  }

  // The accepted jobs are numbered one by one, in the order in which they came.
  ghost predicate Numbered(s: Sys) {
    && s.count == Sum(s.jobs, OneIfNumbered)
    && forall r :: 0 <= r < |s.jobs| && s.jobs[r].id.Some? ==> s.jobs[r].id.value == Sum(s.jobs[..r + 1], OneIfNumbered)
  }

  lemma {:induction false} SumSame(jobs: seq<Job>, jobs': seq<Job>, w: Job -> nat)
    requires |jobs| == |jobs'| && forall r :: 0 <= r < |jobs| ==> w(jobs'[r]) == w(jobs[r])
    ensures Sum(jobs', w) == Sum(jobs, w)
  {
    if jobs != [] {
      SumSame(jobs[..|jobs| - 1], jobs'[..|jobs| - 1], w);
    }
  }

  lemma {:induction false} NumberedSame(s: Sys, t: Sys)
    requires Numbered(s) && t.count == s.count && |t.jobs| == |s.jobs|
    requires forall r :: 0 <= r < |s.jobs| ==> t.jobs[r].id == s.jobs[r].id
    ensures Numbered(t)
  {
    SumSame(s.jobs, t.jobs, OneIfNumbered);
    forall r | 0 <= r < |t.jobs| && t.jobs[r].id.Some?
      ensures t.jobs[r].id.value == Sum(t.jobs[..r + 1], OneIfNumbered)
    {
      SumSame(s.jobs[..r + 1], t.jobs[..r + 1], OneIfNumbered);
    }
  }

  lemma {:induction false} NumberedMore(s: Sys, t: Sys)
    requires Numbered(s) && |t.jobs| == |s.jobs| + 1 && t.jobs[..|s.jobs|] == s.jobs
    requires var id := t.jobs[|s.jobs|].id;
             (t.count == s.count && id.None?) || (t.count == s.count + 1 && id == Some(t.count))
    ensures Numbered(t)
  {
    forall r | 0 <= r < |t.jobs| && t.jobs[r].id.Some?
      ensures t.jobs[r].id.value == Sum(t.jobs[..r + 1], OneIfNumbered)
    {
      if r < |s.jobs| {
        assert t.jobs[..r + 1] == s.jobs[..r + 1] && t.jobs[r] == s.jobs[r];
      } else {
        assert t.jobs[..r + 1] == t.jobs;
      }
    }
  }

  lemma {:induction false} AddNumbered(s: Sys, name: Option<string>, size: Option<nat>, transient: bool)
    requires Refs(s) && Numbered(s)
    ensures Numbered(AddStep(s, name, size, transient))
  {
    AddedNumber(s, name, size, transient);
    NumberedMore(s, AddStep(s, name, size, transient));
  }

  lemma {:induction false} AddedNumber(s: Sys, name: Option<string>, size: Option<nat>, transient: bool)
    requires Refs(s)
    ensures var t := AddStep(s, name, size, transient);
            && |t.jobs| == |s.jobs| + 1 && t.jobs[..|s.jobs|] == s.jobs
            && var id := t.jobs[|s.jobs|].id;
               (t.count == s.count && id.None?) || (t.count == s.count + 1 && id == Some(t.count))
  {
    var h := HandleLock(s, name, transient);
    NewestOnly(s, name, transient);
    assert h.count == s.count && h.jobs[|s.jobs|].id.None?;
    assert h.jobs[..|s.jobs|] == s.jobs && Enqueue(h).jobs[..|s.jobs|] == s.jobs;
  }

  lemma {:induction false} OtherNumbered(s: Sys, e: Event)
    requires Refs(s) && QueueInv(s) && IdInv(s) && Enabled(s, e) && !e.Add? && Numbered(s)
    ensures Numbered(Step(s, e))
  {
    var t := Step(s, e);
    StepEvolves(s, e);
    forall r | 0 <= r < |s.jobs| ensures t.jobs[r].id == s.jobs[r].id {
      assert Later(s.jobs[r], t.jobs[r]);
    }
    assert t.count == s.count && |t.jobs| == |s.jobs|;
    NumberedSame(s, t);
  }

  /** In every run the accepted jobs bear the numbers 1, 2, 3 and so on, and the others none. */
  lemma {:induction false} IdsConsecutive(maxlen: nat, trace: seq<Sys>, es: seq<Event>, i: nat)
    requires IsRun(trace, es) && trace[0] == Init(maxlen) && i < |trace|
    ensures Numbered(trace[i])
  {
    InitInv(maxlen);
    if i > 0 {
      IdsConsecutive(maxlen, trace, es, i - 1);
      RunInv(trace, es, i - 1);
      NumberedStep(trace, es, i - 1);
    }
  }

  lemma {:induction false} NumberedStep(trace: seq<Sys>, es: seq<Event>, i: nat)
    requires IsRun(trace, es) && i < |es| && Numbered(trace[i]) && QueueInv(trace[i]) && IdInv(trace[i])
    ensures Numbered(trace[i + 1])
  {
    var s, e := trace[i], es[i];
    assert trace[i + 1] == Step(s, e);
    if e.Add? {
      AddNumbered(s, e.name, e.lockQueueSize, e.transient);
    } else {
      OtherNumbered(s, e);
    }
  }

  // --- Leaving the history -----------------------------------------------------------------------------------

  // The oldest stored job that has ended.
  predicate OldestEnded(s: Sys, q: nat) {
    && q in s.history && q < |s.jobs| && Terminal(s.jobs[q].state)
    && forall p :: p in s.history && p < q ==> p < |s.jobs| && !Terminal(s.jobs[p].state)
  }

  lemma {:induction false} EvictedOne(s: Sys, q: nat)
    requires Refs(s) && HistoryInv(s) && q in s.history
    ensures q !in Evicted(s) <==> |s.history| > s.maxlen && OldestEnded(s, q)
  {
    var k := FirstTerminal(s.jobs, s.history, 0);
    WithoutMembers(s.history, k);
    var i :| 0 <= i < |s.history| && s.history[i] == q;
    if OldestEnded(s, q) {
      assert forall j :: 0 <= j < i ==> s.history[j] in s.history && s.history[j] < q;
      assert k == i;
    }
  }

  /** A stored job leaves the history exactly if it is transient and is cleaned up, or if a job is stored
      while there are more than `maxlen` and it is the oldest one that has ended. */
  lemma {:induction false} LeavesExactly(s: Sys, e: Event, q: nat)
    requires Inv(s) && Enabled(s, e) && q in s.history
    ensures q !in Step(s, e).history <==>
            || (e == Finish(q) && s.jobs[q].transient)
            || (&& e.Add? && Step(s, e).jobs[|s.jobs|].phase == Queued
                && |s.history| > s.maxlen && OldestEnded(s, q))
  {
    if e.Add? {
      AddLeaves(s, e.name, e.lockQueueSize, e.transient, q);
    } else {
      OtherLeaves(s, e, q);
    }
  }

  lemma {:induction false} AddLeaves(s: Sys, name: Option<string>, size: Option<nat>, transient: bool, q: nat)
    requires Refs(s) && HistoryInv(s) && IdInv(s) && q in s.history
    ensures var t := AddStep(s, name, size, transient);
            && |t.jobs| == |s.jobs| + 1
            && (q !in t.history <==> t.jobs[|s.jobs|].phase == Queued && |s.history| > s.maxlen && OldestEnded(s, q))
  {
    var h := HandleLock(s, name, transient);
    HandleLockRefs(s, name, transient);
    HandleLockHistory(s, name, transient);
    NewestOnly(s, name, transient);
    NewestLeaves(s, h, AddStep(s, name, size, transient), q);
  }

  lemma {:induction false} NewestOnly(s: Sys, name: Option<string>, transient: bool)
    requires Refs(s)
    ensures var h := HandleLock(s, name, transient);
            && h.history == s.history && h.maxlen == s.maxlen && |h.jobs| == |s.jobs| + 1
            && h.jobs[|s.jobs|].phase == Refused && forall p :: 0 <= p < |s.jobs| ==> h.jobs[p] == s.jobs[p]
  {
  }

  lemma {:induction false} NewestLeaves(s: Sys, h: Sys, t: Sys, q: nat)
    requires HistoryInv(s) && q in s.history && Refs(h) && HistoryInv(h) && IdInv(h)
    requires h.history == s.history && h.maxlen == s.maxlen && |h.jobs| == |s.jobs| + 1
    requires h.jobs[|s.jobs|].phase == Refused && forall p :: 0 <= p < |s.jobs| ==> h.jobs[p] == s.jobs[p]
    requires t == h || t == Enqueue(h)
    ensures |t.jobs| == |s.jobs| + 1
    ensures q !in t.history <==> t.jobs[|s.jobs|].phase == Queued && |s.history| > s.maxlen && OldestEnded(s, q)
  {
    EndedSame(s, h, q);
    EnqueueLeaves(h, q);
  }

  lemma {:induction false} EndedSame(s: Sys, t: Sys, q: nat)
    requires HistoryInv(s) && t.history == s.history && |s.jobs| <= |t.jobs|
    requires forall p :: 0 <= p < |s.jobs| ==> t.jobs[p] == s.jobs[p]
    ensures OldestEnded(t, q) <==> OldestEnded(s, q)
  {
  }

  lemma {:induction false} EnqueueLeaves(s: Sys, q: nat)
    requires Refs(s) && HistoryInv(s) && IdInv(s) && q in s.history
    requires |s.jobs| > 0 && s.jobs[|s.jobs| - 1].phase == Refused
    ensures q !in Enqueue(s).history <==> |s.history| > s.maxlen && OldestEnded(s, q)
  {
    EvictedOne(s, q);
    assert Consistent(s.jobs[|s.jobs| - 1]);
  }

  lemma {:induction false} OtherLeaves(s: Sys, e: Event, q: nat)
    requires Refs(s) && HistoryInv(s) && Enabled(s, e) && !e.Add? && q in s.history
    ensures q !in Step(s, e).history <==> e == Finish(q) && s.jobs[q].transient
  {
    if e.Finish? {
      FinishLeaves(s, e.job, q);
    }
  }

  lemma {:induction false} FinishLeaves(s: Sys, r: nat, q: nat)
    requires Refs(s) && HistoryInv(s) && r < |s.jobs| && q in s.history
    ensures q !in FinishStep(s, r).history <==> r == q && s.jobs[q].transient
  {
    WithoutMembers(s.history, IndexOf(s.history, r));
  }

  // --- Abort requests, and the event -----------------------------------------------------------------------------

  /** A request to abort a job that has ended changes nothing; else it marks the job and changes nothing more. */
  lemma {:induction false} AbortExactly(s: Sys, r: nat)
    requires Refs(s) && Enabled(s, Abort(r))
    ensures var t, st := Step(s, Abort(r)), s.jobs[r].state;
            && (st == SUCCESS || st == FAILED || st == ABORTED ==> t == s)
            && (st == WAITING || st == RUNNING ==>
                  && t == s.(jobs := t.jobs) && |t.jobs| == |s.jobs| && t.jobs[r] == s.jobs[r].(aborted := true)
                  && forall q :: 0 <= q < |s.jobs| && q != r ==> t.jobs[q] == s.jobs[q])
  {
  }

  /** After a round the scheduler goes on exactly if it took a job and the queue is not empty yet. */
  lemma {:induction false} NextGoesOn(s: Sys)
    requires Refs(s) && s.event
    ensures NextStep(s).event <==> |NextStep(s).queue| < |s.queue| && NextStep(s).queue != []
  {
  }
}
