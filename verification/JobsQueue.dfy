/**
 The scheduler objects as the program updates them in place, each method proved to be the
 corresponding step of the transition system and to keep its invariant.
 */
module JobsQueues {
  import opened Jobs
  import opened Sequences
  import opened Wrappers

  class JobsQueue {
    var jobs: seq<Job>
    var locks: seq<Lock>
    var jobLocks: map<string, nat>
    var queue: seq<nat>
    var queueEvent: bool
    var count: nat
    var history: seq<nat>
    const maxlen: nat

    ghost function View(): Sys
      reads this
    {
      Sys(jobs, locks, jobLocks, queue, queueEvent, maxlen, count, history)
    }

    constructor (maxlen: nat := 1000)
      ensures View() == Init(maxlen) && Inv(View())
    {
      this.maxlen := maxlen;
      jobs, locks, jobLocks, queue, queueEvent, count, history := [], [], map[], [], false, 0, [];
    }

    // Attach a new job to the lock of its name.
    method AttachLock(name: Option<string>, transient: bool) returns (job: nat)
      requires Refs(View())
      modifies this
      ensures View() == HandleLock(old(View()), name, transient) && job == old(|jobs|)
    {
      job := |jobs|;
      if name.None? {
        jobs := jobs + [Job(None, None, transient, false, WAITING, Refused)];
        return;
      }
      var lock := 0;
      if name.value in jobLocks {
        lock := jobLocks[name.value];
      } else {
        lock := |locks|;
        locks := locks + [Lock(name.value, {}, false)];
      }
      jobLocks := jobLocks[name.value := lock];
      locks := locks[lock := locks[lock].(jobs := locks[lock].jobs + {job})];
      jobs := jobs + [Job(Some(lock), None, transient, false, WAITING, Refused)];
    }

    // The history assigns an identifier and makes room by dropping its oldest ended job.
    method Store(job: nat)
      requires Refs(View()) && job == |jobs| - 1
      modifies this`jobs, this`count, this`history
      ensures count == old(count) + 1 && history == Evicted(old(View())) + [job]
      ensures jobs == old(jobs)[job := old(jobs)[job].(id := Some(count), phase := Queued)]
    {
      count := count + 1;
      if |history| > maxlen {
        for i := 0 to |history|
          invariant FirstTerminal(jobs, history, 0) == FirstTerminal(jobs, history, i)
          invariant history == old(history) && jobs == old(jobs)
        {
          if Terminal(jobs[history[i]].state) {
            history := history[..i] + history[i + 1..];
            break;
          }
        }
        assert history == Evicted(old(View()));
      }
      jobs := jobs[job := jobs[job].(id := Some(count), phase := Queued)];
      history := history + [job];
    }

    // The queued jobs whose lock is the given object.
    method QueuedWith(lock: Option<nat>) returns (queuedJobs: seq<nat>)
      requires Refs(View())
      ensures queuedJobs == SameLock(jobs, queue, lock)
      ensures forall k :: 0 <= k < |queuedJobs| ==>
                queuedJobs[k] in queue && queuedJobs[k] < |jobs| && jobs[queuedJobs[k]].lock == lock
    {
      queuedJobs := [];
      for i := 0 to |queue|
        invariant queuedJobs == SameLock(jobs, queue[..i], lock)
        invariant forall k :: 0 <= k < |queuedJobs| ==>
                    queuedJobs[k] in queue && queuedJobs[k] < |jobs| && jobs[queuedJobs[k]].lock == lock
      {
        assert queue[..i + 1][..i] == queue[..i];
        if jobs[queue[i]].lock == lock {
          queuedJobs := queuedJobs + [queue[i]];
        }
      }
      assert queue[..|queue|] == queue;
    }

    // Store and queue a job that was just attached to its lock, and wake the scheduler.
    method Accept(job: nat)
      requires Refs(View()) && job == |jobs| - 1
      modifies this
      ensures View() == Enqueue(old(View()))
    {
      Store(job);
      queue := queue + [job];
      queueEvent := true;
    }

    // Whether that many jobs wait for the lock already, and the last of them.
    method QueueIsFull(lock: Option<nat>, size: nat) returns (full: bool, last: Option<nat>)
      requires Refs(View()) && Sorted(queue)
      ensures full <==> |SameLock(jobs, queue, lock)| >= size
      ensures last.Some? ==> IsLastQueued(last.value, lock)
      ensures last.None? ==> SameLock(jobs, queue, lock) == []
    {
      var queuedJobs := QueuedWith(lock);
      full := |queuedJobs| >= size;
      if queuedJobs == [] {
        last := None;
      } else {
        last := Some(queuedJobs[|queuedJobs| - 1]);
        AllUpToLast(jobs, queue, last.value);
      }
    }

    // The job waits for the lock, and no job that was added later does.
    ghost predicate IsLastQueued(job: nat, lock: Option<nat>)
      reads this
    {
      && job in queue && job < |jobs| && jobs[job].lock == lock
      && forall q :: q in queue && q < |jobs| && jobs[q].lock == lock ==> q <= job
    }

    // Decide on a job that was just attached to its lock.
    method Admit(job: nat, lockQueueSize: Option<nat>) returns (r: Option<nat>)
      requires Refs(View()) && Sorted(queue) && job == |jobs| - 1 && jobs[job].phase == Refused
      modifies this
      ensures var s := old(View());
              View() == if Refuses(s, s.jobs[job].lock, lockQueueSize) then s else Enqueue(s)
      ensures |jobs| == job + 1
      ensures jobs[job].phase == Queued ==> r == Some(job)
      ensures jobs[job].phase == Refused && r.Some? ==> IsLastQueued(r.value, jobs[job].lock)
      ensures r.None? ==> lockQueueSize == Some(0)
    {
      if lockQueueSize.Some? {
        var full;
        full, r := QueueIsFull(jobs[job].lock, lockQueueSize.value);
        if full {
          return;
        }
      }
      Accept(job);
      r := Some(job);
    }

    /** Add a job, or hand back the last queued job of its lock when `lock_queue_size` of them wait
        already; `None` stands for the index error of a limit of zero. */
    method AddJob(name: Option<string>, lockQueueSize: Option<nat>, transient: bool) returns (r: Option<nat>)
      requires Inv(View())
      modifies this
      ensures View() == AddStep(old(View()), name, lockQueueSize, transient) && Inv(View())
      ensures |jobs| == old(|jobs|) + 1
      ensures jobs[old(|jobs|)].phase == Queued ==> r == Some(old(|jobs|))
      ensures jobs[old(|jobs|)].phase == Refused && r.Some? ==> IsLastQueued(r.value, jobs[old(|jobs|)].lock)
      ensures r.None? ==> lockQueueSize == Some(0)
    {
      AddInv(View(), name, lockQueueSize, transient);
      HandleLockRefs(View(), name, transient);
      var job := AttachLock(name, transient);
      r := Admit(job, lockQueueSize);
    }

    // Position of the first queued job without a lock or with a free one.
    method Scan() returns (at: nat)
      requires Refs(View())
      ensures at == FirstRunnable(View(), 0)
    {
      at := |queue|;
      for i := 0 to |queue|
        invariant at == |queue| && FirstRunnable(View(), 0) == FirstRunnable(View(), i)
      {
        var job := queue[i];
        if jobs[job].lock.None? || !locks[jobs[job].lock.value].locked {
          at := i;
          break;
        }
      }
    }

    /** One round of the scheduling loop: the job to run, or nothing and a cleared event. */
    method NextRound() returns (found: Option<nat>)
      requires Inv(View()) && queueEvent
      modifies this
      ensures View() == NextStep(old(View())) && Inv(View())
      ensures found.None? ==> !queueEvent && queue == old(queue)
      ensures found.Some? ==> found.value in old(queue) && found.value !in queue && found.value < |jobs| &&
                              jobs[found.value].phase == Dispatched
    {
      NextInv(View());
      found := None;
      var at := Scan();
      if at < |queue| {
        WithoutMembers(queue, at);
        found := Some(queue[at]);
        Take(at);
      } else {
        queueEvent := false;
      }
    }

    // The job leaves the queue and takes its lock.
    method Take(at: nat)
      requires Refs(View()) && at == FirstRunnable(View(), 0) && at < |queue|
      modifies this
      ensures View() == NextStep(old(View()))
    {
      var job := queue[at];
      if jobs[job].lock.Some? {
        // the lock is free, so taking it does not suspend the scheduler
        var l := jobs[job].lock.value;
        locks := locks[l := locks[l].(locked := true)];
      }
      jobs := jobs[job := jobs[job].(phase := Dispatched)];
      queue := queue[..at] + queue[at + 1..];
      if |queue| == 0 {
        queueEvent := false;
      }
    }

    // What the assertions of `set_state` demand of its callers.
    static predicate MaySet(current: State, state: State) {
      && (current == WAITING ==> state != WAITING && state != SUCCESS)
      && (current == RUNNING ==> state != WAITING && state != RUNNING)
      && !Terminal(current)
    }

    method SetState(job: nat, state: State)
      requires job < |jobs| && MaySet(jobs[job].state, state)
      modifies this`jobs
      ensures jobs == old(jobs)[job := old(jobs)[job].(state := state)]
    {
      jobs := jobs[job := jobs[job].(state := state)];
    }

    /** The task of a dispatched job begins. */
    method StartJob(job: nat)
      requires Inv(View()) && Enabled(View(), Start(job))
      modifies this
      ensures View() == StartStep(old(View()), job) && Inv(View())
    {
      StepInv(View(), Start(job));
      assert Consistent(jobs[job]);
      if jobs[job].aborted {
        SetState(job, ABORTED);
        jobs := jobs[job := jobs[job].(phase := Closing)];
      } else {
        SetState(job, RUNNING);
        jobs := jobs[job := jobs[job].(phase := Running)];
      }
    }

    /** The body of a running job returns, raises or is cancelled. */
    method EndJob(job: nat, outcome: Outcome)
      requires Inv(View()) && Enabled(View(), End(job, outcome))
      modifies this
      ensures View() == EndStep(old(View()), job, outcome) && Inv(View())
    {
      StepInv(View(), End(job, outcome));
      assert Consistent(jobs[job]);
      match outcome {
        case Returned => SetState(job, SUCCESS);
        case Raised => SetState(job, FAILED);
        case Cancelled => SetState(job, ABORTED);
      }
      jobs := jobs[job := jobs[job].(phase := Closing)];
    }

    // Releasing a free lock, or dropping an unregistered name, would be an error; neither happens.
    method Release(job: nat)
      requires Inv(View()) && job < |jobs| && jobs[job].phase == Closing
      modifies this`locks, this`jobLocks, this`queueEvent
      ensures View() == ReleaseLock(old(View()), job)
    {
      if jobs[job].lock.None? {
        return;
      }
      var l := jobs[job].lock.value;
      assert locks[l].locked by {
        assert Holds(View(), l, job);
      }
      assert Registered(View(), l) by {
        assert MayList(View(), l, job);
      }
      locks := locks[l := locks[l].(jobs := locks[l].jobs - {job}, locked := false)];
      if |locks[l].jobs| == 0 {
        jobLocks := jobLocks - {locks[l].name};
      }
      queueEvent := true;
    }

    /** The clean-up of a job that has ended: release, wake the waiters, drop it if transient. */
    method CleanUp(job: nat)
      requires Inv(View()) && Enabled(View(), Finish(job))
      modifies this
      ensures View() == FinishStep(old(View()), job) && Inv(View())
    {
      StepInv(View(), Finish(job));
      Release(job);
      Conclude(job);
    }

    method Conclude(job: nat)
      requires job < |jobs|
      modifies this`jobs, this`history
      ensures jobs == old(jobs)[job := old(jobs)[job].(phase := Finished)]
      ensures history == if jobs[job].transient then Without(old(history), IndexOf(old(history), job)) else old(history)
    {
      jobs := jobs[job := jobs[job].(phase := Finished)];
      if jobs[job].transient {
        var k := IndexOf(history, job);
        if k < |history| {
          history := history[..k] + history[k + 1..];
        }
      }
    }

    /** An abort request: ignored for an ended job, and otherwise only noted. */
    method AbortJob(job: nat)
      requires Inv(View()) && Enabled(View(), Abort(job))
      modifies this
      ensures View() == AbortStep(old(View()), job) && Inv(View())
    {
      StepInv(View(), Abort(job));
      if Terminal(jobs[job].state) {
        return;
      }
      jobs := jobs[job := jobs[job].(aborted := true)];
    }
  }
}
