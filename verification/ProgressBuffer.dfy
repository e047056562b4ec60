/**
 The buffer that thins out progress updates of a job. Times are those of a monotonic clock; the
 object records, for specification only, what it forwarded and what it was last given.
 */
module ProgressBuffers {
  import opened Wrappers

  // An update handed on to the job, and whether a flush forced it.
  datatype Forwarded = Forwarded(at: real, body: string, flushed: bool)

  class JobProgressBuffer {
    const interval: real
    var lastUpdateAt: real
    var pendingUpdateBody: Option<string>
    var pendingUpdate: Option<real>          // when the timer is due

    ghost var clock: real
    ghost var forwarded: seq<Forwarded>
    ghost var newest: Option<string>         // the last update received, until cancelled

    ghost predicate Valid()
      reads this
    {
      && (pendingUpdate.Some? <==> pendingUpdateBody.Some?)
      && 0.0 <= lastUpdateAt <= clock
      && (forwarded != [] ==> lastUpdateAt == forwarded[|forwarded| - 1].at)
      // the timer is never due earlier than one interval after the last forwarded update
      && (pendingUpdate.Some? ==> pendingUpdate.value >= lastUpdateAt + interval)
      && Spaced()
      && Current()
    }

    // Two updates in a row are an interval apart, unless a flush asked for the second one.
    ghost predicate Spaced()
      reads this
    {
      forall i :: 0 <= i < |forwarded| - 1 ==>
        forwarded[i + 1].flushed || forwarded[i + 1].at >= forwarded[i].at + interval
    }

    // The newest update is the pending one or the last one forwarded.
    ghost predicate Current()
      reads this
    {
      && (pendingUpdate.Some? ==> newest == pendingUpdateBody)
      && (newest.Some? && pendingUpdate.None? ==> forwarded != [] && forwarded[|forwarded| - 1].body == newest.value)
    }

    constructor (interval: real)
      ensures Valid() && this.interval == interval && forwarded == [] && newest == None && clock == 0.0
    {
      this.interval := interval;
      lastUpdateAt, pendingUpdateBody, pendingUpdate := 0.0, None, None;
      clock, forwarded, newest := 0.0, [], None;
    }

    /** A new update: forwarded at once when the last one is an interval old, and kept otherwise. */
    method SetProgress(t: real, body: string)
      requires Valid() && t >= clock
      modifies this
      ensures Valid() && clock == t && newest == Some(body)
      ensures t - old(lastUpdateAt) >= interval ==>
            forwarded == old(forwarded) + [Forwarded(t, body, false)] && pendingUpdate.None?
      ensures t - old(lastUpdateAt) < interval ==>
                && forwarded == old(forwarded) && pendingUpdateBody == Some(body)
                && pendingUpdate == if old(pendingUpdate).Some? then old(pendingUpdate) else Some(t + interval)
    {
      clock := t;
      newest := Some(body);
      if t - lastUpdateAt >= interval {
        if pendingUpdate.Some? {
          pendingUpdateBody, pendingUpdate := None, None;
        }
        lastUpdateAt := t;
        forwarded := forwarded + [Forwarded(t, body, false)];
      } else {
        pendingUpdateBody := Some(body);
        if pendingUpdate.None? {
          pendingUpdate := Some(t + interval);
        }
      }
    }

    /** Drop the pending update, if any. */
    method Cancel()
      requires Valid()
      modifies this`pendingUpdateBody, this`pendingUpdate, this`newest
      ensures Valid() && pendingUpdate.None? && forwarded == old(forwarded)
    {
      if pendingUpdate.Some? {
        pendingUpdateBody, pendingUpdate := None, None;
        newest := None;
      }
    }

    method DoPendingUpdate(t: real, ghost flushed: bool)
      requires Valid() && t >= clock && pendingUpdate.Some? && (flushed || t >= pendingUpdate.value)
      modifies this
      ensures Valid() && clock == t && newest == old(newest) && pendingUpdate.None?
      ensures forwarded == old(forwarded) + [Forwarded(t, old(pendingUpdateBody).value, flushed)]
    {
      clock := t;
      lastUpdateAt := t;
      forwarded := forwarded + [Forwarded(t, pendingUpdateBody.value, flushed)];
      pendingUpdateBody, pendingUpdate := None, None;
    }

    /** The timer of the pending update fires, no earlier than it is due. */
    method TimerFires(t: real)
      requires Valid() && t >= clock && pendingUpdate.Some? && t >= pendingUpdate.value
      modifies this
      ensures Valid() && forwarded == old(forwarded) + [Forwarded(t, old(pendingUpdateBody).value, false)]
      ensures newest == old(newest) && pendingUpdate.None?
    {
      DoPendingUpdate(t, false);
    }

    /** After a flush the newest update that was not cancelled has been delivered. */
    method Flush(t: real)
      requires Valid() && t >= clock
      modifies this
      ensures Valid() && pendingUpdate.None? && newest == old(newest)
      ensures newest.Some? ==> forwarded != [] && forwarded[|forwarded| - 1].body == newest.value
      ensures old(pendingUpdate).None? ==> forwarded == old(forwarded)
    {
      clock := t;
      if pendingUpdate.Some? {
        DoPendingUpdate(t, true);
      }
    }
  }
}
