/** The probe agent's fields and methods, each method one stretch between two awaits, proved against the step functions. */
module ProbeAgent {
  import opened Text
  import opened ProbeSlots
  import Outbox = ProbeOutbox

  class ProbeAgent {
    const concurrency: nat
    var running: nat
    var slotWaiters: seq<Run>
    var outbox: seq<Outbox.Pending>
    var flushTimer: Outbox.Timer
    var flushing: Option<nat>
    /** The `flushBatches` calls suspended at an await, by number. */
    var posts: map<nat, Outbox.Post>
    var nextId: nat

    ghost var arrived: seq<Run>
    ghost var granted: seq<Run>
    ghost var released: seq<Run>
    ghost var enqueued: seq<Outbox.Pending>
    ghost var acked: seq<Outbox.Pending>
    ghost var dropped: seq<Outbox.Pending>

    ghost function Pool(): Slots
      reads this
    {
      Slots(concurrency, running, slotWaiters, arrived, granted, released)
    }

    ghost function Queue(): Outbox.Box
      reads this
    {
      Outbox.Box(outbox, flushTimer, flushing, posts, nextId, enqueued, acked, dropped)
    }

    constructor (concurrency: nat)
      ensures Pool() == Initial(concurrency) && Queue() == Outbox.EMPTY
    {
      this.concurrency := concurrency;
      running, slotWaiters := 0, [];
      outbox, flushTimer, flushing, posts, nextId := [], Outbox.Unset, None, map[], 0;
      arrived, granted, released := [], [], [];
      enqueued, acked, dropped := [], [], [];
    }

    /** Take a free slot, or join the waiters. */
    method AcquireSlot(run: Run) returns (holds: bool)
      requires run !in arrived
      modifies `running, `slotWaiters, `arrived, `granted
      ensures Pool() == Acquire(old(Pool()), run)
      ensures holds <==> old(running) < concurrency
    {
      arrived := arrived + [run];
      if running < concurrency {
        running := running + 1;
        granted := granted + [run];
        return true;
      }
      slotWaiters := slotWaiters + [run];
      return false;
    }

    /** Pass the slot straight to the first waiter, or free it. */
    method ReleaseSlot(ghost run: Run) returns (next: Option<Run>)
      requires slotWaiters == [] ==> running > 0
      modifies `running, `slotWaiters, `granted, `released
      ensures Pool() == Release(old(Pool()), run)
      ensures next == if old(slotWaiters) == [] then None else Some(old(slotWaiters)[0])
    {
      released := released + [run];
      if slotWaiters == [] {
        running := running - 1;
        return None;
      }
      next := Some(slotWaiters[0]);
      granted := granted + [slotWaiters[0]];
      slotWaiters := slotWaiters[1..];
    }

    method ScheduleFlush(timer: Outbox.Timer)
      modifies `flushTimer
      ensures flushTimer == timer
    {
      flushTimer := timer;
    }

    method Enqueue(pending: Outbox.Pending)
      modifies `outbox, `flushTimer, `enqueued
      ensures Queue() == Outbox.Enqueue(old(Queue()), pending)
    {
      outbox := outbox + [pending];
      enqueued := enqueued + [pending];
      if |outbox| >= Outbox.MAX_RESULTS {
        ScheduleFlush(Outbox.Immediate);
      } else if flushTimer.Unset? {
        ScheduleFlush(Outbox.Delayed);
      }
    }

    /** The end of `execute`: a check that answered queues its result, one that threw does not, and either releases its slot once. */
    method FinishCheck(ghost run: Run, result: Option<Outbox.Pending>) returns (next: Option<Run>)
      requires IsSafe(Pool()) && CanStep(Pool(), End(run))
      modifies this
      ensures Pool() == Next(old(Pool()), End(run)) && IsSafe(Pool()) && !Holds(Pool(), run)
      ensures Queue() == if result.Some? then Outbox.Enqueue(old(Queue()), result.value) else old(Queue())
      ensures next.Some? ==> Holds(Pool(), next.value)
    {
      HoldersAreCounted(Pool());
      StepIsSafe(Pool(), End(run));
      ghost var before := Pool();
      if result.Some? {
        Enqueue(result.value);
      }
      next := ReleaseSlot(run);
      if next.Some? {
        assert before.arrived[|before.granted|] == next.value;
        assert forall k :: 0 <= k < |before.released| ==> before.released[k] != next.value by {
          forall k | 0 <= k < |before.released| ensures before.released[k] != next.value {
            assert before.released[k] in before.granted;
            var i :| 0 <= i < |before.granted| && before.granted[i] == before.released[k];
            assert before.arrived[i] == before.granted[i];
          }
        }
        assert next.value != run by {
          var i :| 0 <= i < |before.granted| && before.granted[i] == run;
          assert before.arrived[i] == run;
        }
      }
    }

    /** `flushBatches` up to its first post. */
    method StartBatches(now: int)
      modifies `outbox, `flushing, `posts, `nextId, `dropped
      ensures Queue() == Outbox.StartBatches(old(Queue()), now)
    {
      var live := Outbox.Live(outbox, now);
      dropped := dropped + Outbox.Expired(outbox, now);
      outbox := live;
      posts := posts[nextId := Outbox.Post(Outbox.FirstBatch(live), 0)];
      flushing := Some(nextId);
      nextId := nextId + 1;
    }

    /** `flush` up to its first await. */
    method Flush(now: int)
      requires flushing.Some? ==> flushing.value in posts
      modifies `outbox, `flushing, `posts, `nextId, `dropped
      ensures Queue() == Outbox.Flush(old(Queue()), now)
    {
      if flushing.Some? {
        var post := posts[flushing.value];
        posts := posts[flushing.value := post.(waiting := post.waiting + 1)];
      } else {
        StartBatches(now);
      }
    }

    /** The timer callback, and the flush of `drain`: the timer is cleared, then the outbox flushed. */
    method ClearTimerAndFlush(now: int)
      requires flushing.Some? ==> flushing.value in posts
      modifies `flushTimer, `outbox, `flushing, `posts, `nextId, `dropped
      ensures Outbox.CanStep(old(Queue()), Outbox.Drain(now)) && Queue() == Outbox.Next(old(Queue()), Outbox.Drain(now))
    {
      flushTimer := Outbox.Unset;
      Flush(now);
    }

    /** A report was answered: cut the batch off, and post the next one or return. */
    method ReportAnswered(id: nat)
      requires id in posts
      modifies `outbox, `posts, `acked
      ensures Queue() == Outbox.Answered(old(Queue()), id)
    {
      var batch := posts[id].batch;
      acked := acked + batch;
      outbox := Outbox.Drop(outbox, |batch|);
      posts := posts[id := posts[id].(batch := Outbox.FirstBatch(outbox))];
    }

    /** A report failed: keep the results for a retry. */
    method ReportFailed(id: nat)
      requires id in posts
      modifies `flushTimer, `posts
      ensures Queue() == Outbox.PostFailed(old(Queue()), id)
    {
      if flushTimer.Unset? {
        ScheduleFlush(Outbox.Retry);
      }
      posts := posts[id := posts[id].(batch := [])];
    }

    /** A call's promise settles: its own flush ends, then each flush that waited on it starts one. */
    method Settled(id: nat, now: int)
      requires id in posts
      modifies `outbox, `flushing, `posts, `nextId, `dropped
      ensures Queue() == Outbox.Settle(old(Queue()), id, now)
    {
      var waiting := posts[id].waiting;
      posts := posts - {id};
      flushing := None;
      ghost var cleared := Queue();
      for resumed := 0 to waiting
        invariant Outbox.StartMany(cleared, waiting, now) == Outbox.StartMany(Queue(), waiting - resumed, now)
        invariant flushTimer == old(flushTimer) && enqueued == old(enqueued) && acked == old(acked)
      {
        StartBatches(now);
      }
    }
  }
}
