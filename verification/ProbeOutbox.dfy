/**
 The probe agent's outbox: results queued while batches are posted. Each step is one stretch of the agent between
 two awaits; a state keeps, next to the agent's fields, what was queued, acknowledged and dropped.
 */
module ProbeOutbox {
  import opened Text
  import opened Lists

  const MAX_RESULTS := 200

  /** A queued result, by its lease. */
  datatype Pending = Pending(lease: nat, expiresAt: int)

  datatype Timer = Unset | Immediate | Delayed | Retry

  /** One `flushBatches` call: the batch it is posting ([] once it has returned), and how many flushes wait on its promise. */
  datatype Post = Post(batch: seq<Pending>, waiting: nat)

  datatype Box = Box(
    outbox: seq<Pending>,
    timer: Timer,
    flushing: Option<nat>,   // the call whose promise `flushing` holds
    posts: map<nat, Post>,   // calls not yet settled
    nextId: nat,
    enqueued: seq<Pending>,
    acked: seq<Pending>,
    dropped: seq<Pending>)

  const EMPTY := Box([], Unset, None, map[], 0, [], [], [])

  // ----- The steps -----

  function Enqueue(b: Box, pending: Pending): Box {
    b.(outbox := b.outbox + [pending],
       enqueued := b.enqueued + [pending],
       timer := if |b.outbox| + 1 >= MAX_RESULTS then Immediate else if b.timer.Unset? then Delayed else b.timer)
  }

  function Live(outbox: seq<Pending>, now: int): seq<Pending> {
    if outbox == [] then [] else (if outbox[0].expiresAt > now then [outbox[0]] else []) + Live(outbox[1..], now)
  }

  function Expired(outbox: seq<Pending>, now: int): seq<Pending> {
    if outbox == [] then [] else (if outbox[0].expiresAt > now then [] else [outbox[0]]) + Expired(outbox[1..], now)
  }

  function FirstBatch(outbox: seq<Pending>): seq<Pending> {
    if |outbox| <= MAX_RESULTS then outbox else outbox[..MAX_RESULTS]
  }

  /** `outbox.slice(count)` */
  function Drop(outbox: seq<Pending>, count: nat): seq<Pending> {
    if count <= |outbox| then outbox[count..] else []
  }

  /** A flush that starts its own `flushBatches`: drop what has expired, and post the first batch. */
  function StartBatches(b: Box, now: int): Box {
    var live := Live(b.outbox, now);
    b.(outbox := live,
       dropped := b.dropped + Expired(b.outbox, now),
       posts := b.posts[b.nextId := Post(FirstBatch(live), 0)],
       flushing := Some(b.nextId),
       nextId := b.nextId + 1)
  }

  /** `flush()` up to its first await: wait on the call in progress, or start one. */
  function Flush(b: Box, now: int): Box
    requires b.flushing.Some? ==> b.flushing.value in b.posts
  {
    if b.flushing.Some? then
      var id := b.flushing.value;
      b.(posts := b.posts[id := b.posts[id].(waiting := b.posts[id].waiting + 1)])
    else StartBatches(b, now)
  }

  /** A batch was taken: cut it off the outbox, and post the next one or return. */
  function Answered(b: Box, id: nat): Box
    requires id in b.posts
  {
    var rest := Drop(b.outbox, |b.posts[id].batch|);
    b.(outbox := rest,
       acked := b.acked + b.posts[id].batch,
       posts := b.posts[id := b.posts[id].(batch := FirstBatch(rest))])
  }

  /** A post failed: keep the outbox, make sure a retry is due, and return. */
  function PostFailed(b: Box, id: nat): Box
    requires id in b.posts
  {
    b.(timer := if b.timer.Unset? then Retry else b.timer,
       posts := b.posts[id := b.posts[id].(batch := [])])
  }

  function StartMany(b: Box, count: nat, now: int): Box
    decreases count
  {
    if count == 0 then b else StartMany(StartBatches(b, now), count - 1, now)
  }

  /** A call's promise settles: its flush clears `flushing`, then every flush that waited on it starts a call of its own. */
  function Settle(b: Box, id: nat, now: int): Box
    requires id in b.posts
  {
    StartMany(b.(posts := b.posts - {id}, flushing := None), b.posts[id].waiting, now)
  }

  datatype Step =
    | Queue(pending: Pending)
    | Fire(now: int)            // the flush timer
    | Answer(id: nat)
    | Fail(id: nat)
    | Finish(id: nat, now: int)
    | Drain(now: int)           // shutdown: cancel the timer and flush once more

  predicate CanStep(b: Box, step: Step) {
    match step
    case Queue(_) => true
    case Fire(_) => !b.timer.Unset? && (b.flushing.Some? ==> b.flushing.value in b.posts)
    case Answer(id) => id in b.posts && b.posts[id].batch != []
    case Fail(id) => id in b.posts && b.posts[id].batch != []
    case Finish(id, _) => id in b.posts && b.posts[id].batch == []
    case Drain(_) => b.flushing.Some? ==> b.flushing.value in b.posts
  }

  function Next(b: Box, step: Step): Box
    requires CanStep(b, step)
  {
    match step
    case Queue(pending) => Enqueue(b, pending)
    case Fire(now) => Flush(b.(timer := Unset), now)
    case Answer(id) => Answered(b, id)
    case Fail(id) => PostFailed(b, id)
    case Finish(id, now) => Settle(b, id, now)
    case Drain(now) => Flush(b.(timer := Unset), now)
  }

  /** A flush never finds another flush already waiting. */
  predicate FindsNoWaiter(b: Box) {
    b.flushing.Some? && b.flushing.value in b.posts ==> b.posts[b.flushing.value].waiting == 0
  }

  predicate CanTake(b: Box, steps: seq<Step>)
    decreases |steps|
  {
    steps == [] || (CanStep(b, steps[0]) && CanTake(Next(b, steps[0]), steps[1..]))
  }

  function After(b: Box, steps: seq<Step>): Box
    requires CanTake(b, steps)
    decreases |steps|
  {
    if steps == [] then b else After(Next(b, steps[0]), steps[1..])
  }

  /** A run in which no flush ever finds another one waiting. */
  predicate IsGuarded(b: Box, steps: seq<Step>)
    requires CanTake(b, steps)
    decreases |steps|
  {
    steps == [] ||
    ((steps[0].Fire? || steps[0].Drain? ==> FindsNoWaiter(b)) && IsGuarded(Next(b, steps[0]), steps[1..]))
  }

  // ----- Conservation -----

  /** `a` is `b` with some elements left out. */
  predicate IsSubsequence(a: seq<Pending>, b: seq<Pending>) {
    if a == [] then true
    else if b == [] then false
    else if a[0] == b[0] then IsSubsequence(a[1..], b[1..])
    else IsSubsequence(a, b[1..])
  }

  /** Acknowledged, dropped and waiting results are the queued ones, each once; the first and the last kept their order. */
  predicate IsConserved(b: Box) {
    && multiset(b.acked) + multiset(b.dropped) + multiset(b.outbox) == multiset(b.enqueued)
    && IsSubsequence(b.acked + b.outbox, b.enqueued)
  }

  /** At most one call is posting, its batch is the head of the outbox, and at most one flush waits on it. */
  predicate HasOneFlush(b: Box) {
    match b.flushing
    case None => b.posts == map[]
    case Some(id) =>
      && b.posts.Keys == {id} && id < b.nextId
      && b.posts[id].waiting <= 1 && b.posts[id].batch <= b.outbox
  }

  lemma {:induction false} TailIsSubsequence(a: seq<Pending>, b: seq<Pending>)
    requires a != [] && IsSubsequence(a, b)
    ensures IsSubsequence(a[1..], b)
  {
    if b != [] {
      if a[0] != b[0] {
        TailIsSubsequence(a, b[1..]);
      }
      if a[1..] != [] {
        if a[0] == b[0] {
          if a[1] == b[0] {
            TailIsSubsequence(a[1..], b[1..]);
          }
        } else if a[1] == b[0] {
          TailIsSubsequence(a[1..], b[1..]);
        }
      }
    }
  }

  lemma {:induction false} SubsequenceTransitive(a: seq<Pending>, b: seq<Pending>, c: seq<Pending>)
    requires IsSubsequence(a, b) && IsSubsequence(b, c)
    ensures IsSubsequence(a, c)
    decreases |c|
  {
    if a != [] && b != [] {
      if b[0] == c[0] {
        if a[0] == b[0] {
          SubsequenceTransitive(a[1..], b[1..], c[1..]);
        } else {
          SubsequenceTransitive(a, b[1..], c[1..]);
        }
      } else {
        SubsequenceTransitive(a, b, c[1..]);
        if a[0] == c[0] {
          TailIsSubsequence(a, c[1..]);
        }
      }
    }
  }

  lemma {:induction false} SubsequenceAppend(a: seq<Pending>, b: seq<Pending>, p: Pending)
    requires IsSubsequence(a, b)
    ensures IsSubsequence(a + [p], b + [p])
    decreases |b|
  {
    if b == [] {
      assert a + [p] == [p] == b + [p];
    } else {
      assert (b + [p])[1..] == b[1..] + [p];
      if a == [] {
        SubsequenceAppend(a, b[1..], p);
      } else if a[0] == b[0] {
        assert (a + [p])[1..] == a[1..] + [p];
        SubsequenceAppend(a[1..], b[1..], p);
      } else {
        SubsequenceAppend(a, b[1..], p);
      }
    }
  }

  lemma {:induction false} SubsequenceConcat(head: seq<Pending>, a: seq<Pending>, b: seq<Pending>)
    requires IsSubsequence(a, b)
    ensures IsSubsequence(head + a, head + b)
  {
    if head == [] {
      assert head + a == a && head + b == b;
    } else {
      assert (head + a)[1..] == head[1..] + a && (head + b)[1..] == head[1..] + b;
      SubsequenceConcat(head[1..], a, b);
    }
  }

  lemma {:induction false} LiveInOrder(outbox: seq<Pending>, now: int)
    ensures IsSubsequence(Live(outbox, now), outbox)
  {
    if outbox != [] {
      LiveInOrder(outbox[1..], now);
      LiveTailSkips(outbox, now);
    }
  }

  /** Live results are those whose lease has time left, expired ones the others. */
  lemma {:induction false} LiveHasTimeLeft(outbox: seq<Pending>, now: int)
    ensures forall p :: p in Live(outbox, now) <==> p in outbox && now < p.expiresAt
    ensures forall p :: p in Expired(outbox, now) <==> p in outbox && p.expiresAt <= now
  {
    if outbox != [] {
      LiveHasTimeLeft(outbox[1..], now);
      assert forall p :: p in outbox <==> p == outbox[0] || p in outbox[1..];
    }
  }

  /** Every result is live or expired. */
  lemma {:induction false} LiveAndExpired(outbox: seq<Pending>, now: int)
    ensures multiset(Live(outbox, now)) + multiset(Expired(outbox, now)) == multiset(outbox)
  {
    if outbox != [] {
      var first, rest := [outbox[0]], outbox[1..];
      LiveAndExpired(rest, now);
      assert outbox == first + rest;
      var live, expired := multiset(Live(rest, now)), multiset(Expired(rest, now));
      if outbox[0].expiresAt > now {
        assert multiset(Live(outbox, now)) == multiset(first) + live && Expired(outbox, now) == [] + Expired(rest, now);
      } else {
        assert Live(outbox, now) == [] + Live(rest, now) && multiset(Expired(outbox, now)) == multiset(first) + expired;
      }
    }
  }

  lemma {:induction false} LiveTailSkips(outbox: seq<Pending>, now: int)
    requires outbox != [] && IsSubsequence(Live(outbox[1..], now), outbox[1..])
    ensures IsSubsequence(Live(outbox, now), outbox)
  {
    var live := Live(outbox[1..], now);
    if outbox[0].expiresAt > now {
      assert ([outbox[0]] + live)[1..] == live;
    } else {
      assert Live(outbox, now) == live;
      if live != [] && live[0] == outbox[0] {
        TailIsSubsequence(live, outbox[1..]);
      }
    }
  }

  lemma {:induction false} QueueConserves(b: Box, pending: Pending)
    requires HasOneFlush(b) && IsConserved(b)
    ensures HasOneFlush(Enqueue(b, pending)) && IsConserved(Enqueue(b, pending))
  {
    SubsequenceAppend(b.acked + b.outbox, b.enqueued, pending);
    assert b.acked + (b.outbox + [pending]) == b.acked + b.outbox + [pending];
  }

  lemma {:induction false} StartConserves(b: Box, now: int)
    requires IsConserved(b)
    ensures IsConserved(StartBatches(b, now))
  {
    LiveInOrder(b.outbox, now);
    LiveAndExpired(b.outbox, now);
    SubsequenceConcat(b.acked, Live(b.outbox, now), b.outbox);
    SubsequenceTransitive(b.acked + Live(b.outbox, now), b.acked + b.outbox, b.enqueued);
  }

  lemma {:induction false} AnsweredConserves(b: Box, id: nat)
    requires IsConserved(b) && id in b.posts && b.posts[id].batch <= b.outbox
    ensures IsConserved(Answered(b, id))
  {
    var batch := b.posts[id].batch;
    assert b.outbox == batch + b.outbox[|batch|..];
    assert b.acked + b.outbox == b.acked + batch + b.outbox[|batch|..];
  }

  lemma {:induction false} FlushConserves(b: Box, now: int)
    requires HasOneFlush(b) && IsConserved(b) && FindsNoWaiter(b)
    ensures var flushed := Flush(b.(timer := Unset), now); HasOneFlush(flushed) && IsConserved(flushed)
  {
    hide IsSubsequence;
    if b.flushing.None? {
      StartConserves(b.(timer := Unset), now);
      StartHasOneFlush(b.(timer := Unset), now);
    }
  }

  lemma {:induction false} PostConserves(b: Box, id: nat)
    requires HasOneFlush(b) && IsConserved(b) && id in b.posts
    ensures HasOneFlush(Answered(b, id)) && IsConserved(Answered(b, id))
    ensures HasOneFlush(PostFailed(b, id)) && IsConserved(PostFailed(b, id))
  {
    hide IsSubsequence;
    AnsweredConserves(b, id);
  }

  lemma {:induction false} SettleConserves(b: Box, id: nat, now: int)
    requires HasOneFlush(b) && IsConserved(b) && id in b.posts
    ensures HasOneFlush(Settle(b, id, now)) && IsConserved(Settle(b, id, now))
  {
    var settled := b.(posts := b.posts - {id}, flushing := None);
    assert settled.posts == map[];
    StartConserves(settled, now);
    StartHasOneFlush(settled, now);
    hide IsConserved, StartBatches;
    if b.posts[id].waiting == 1 {
      assert StartMany(settled, 1, now) == StartMany(StartBatches(settled, now), 0, now);
    }
  }

  lemma {:induction false} StartHasOneFlush(b: Box, now: int)
    requires b.posts == map[]
    ensures HasOneFlush(StartBatches(b, now))
  {
  }

  /** Guarded steps keep the flush unique and every result accounted for. */
  lemma {:induction false} GuardedStepConserves(b: Box, step: Step)
    requires HasOneFlush(b) && IsConserved(b) && CanStep(b, step)
    requires step.Fire? || step.Drain? ==> FindsNoWaiter(b)
    ensures HasOneFlush(Next(b, step)) && IsConserved(Next(b, step))
  {
    hide IsConserved, HasOneFlush, FindsNoWaiter, Enqueue, Flush, Answered, PostFailed, Settle;
    match step
    case Queue(pending) =>
      QueueConserves(b, pending);
    case Fire(now) =>
      FlushConserves(b, now);
    case Drain(now) =>
      FlushConserves(b, now);
    case Answer(id) =>
      PostConserves(b, id);
    case Fail(id) =>
      PostConserves(b, id);
    case Finish(id, now) =>
      SettleConserves(b, id, now);
  }

  /** Any interleaving of queuing, posting and flushing in which no flush finds another one waiting loses no result, repeats none, and keeps their order. */
  lemma {:induction false} GuardedRunsConserve(b: Box, steps: seq<Step>)
    requires HasOneFlush(b) && IsConserved(b) && CanTake(b, steps) && IsGuarded(b, steps)
    ensures HasOneFlush(After(b, steps)) && IsConserved(After(b, steps))
    decreases |steps|
  {
    if steps != [] {
      GuardedStepConserves(b, steps[0]);
      GuardedRunsConserve(Next(b, steps[0]), steps[1..]);
    }
  }

  // ----- Every result is attended to -----

  predicate IsBusy(post: Post) {
    post.batch != [] || post.waiting > 0
  }

  /** A non-empty outbox has a timer pending, a call posting, or a flush waiting. */
  predicate IsAttended(b: Box) {
    && (forall id :: id in b.posts ==> id < b.nextId)
    && (b.outbox != [] && b.timer.Unset? ==> exists id :: id in b.posts && IsBusy(b.posts[id]))
  }

  lemma {:induction false} StartAttends(b: Box, now: int)
    requires forall id :: id in b.posts ==> id < b.nextId
    ensures IsAttended(StartBatches(b, now))
  {
    var started := StartBatches(b, now);
    if started.outbox != [] {
      assert IsBusy(started.posts[b.nextId]);
    }
  }

  lemma {:induction false} StartManyAttends(b: Box, count: nat, now: int)
    requires forall id :: id in b.posts ==> id < b.nextId
    requires count == 0 ==> IsAttended(b)
    ensures IsAttended(StartMany(b, count, now))
    decreases count
  {
    if count > 0 {
      StartAttends(b, now);
      StartManyAttends(StartBatches(b, now), count - 1, now);
    }
  }

  lemma {:induction false} FlushAttends(b: Box, now: int)
    requires forall id :: id in b.posts ==> id < b.nextId
    requires b.flushing.Some? ==> b.flushing.value in b.posts
    ensures IsAttended(Flush(b, now))
  {
    if b.flushing.None? {
      StartAttends(b, now);
    } else {
      assert IsBusy(Flush(b, now).posts[b.flushing.value]);
    }
  }

  lemma {:induction false} StepAttends(b: Box, step: Step)
    requires IsAttended(b) && CanStep(b, step)
    ensures IsAttended(Next(b, step))
  {
    match step
    case Queue(_) =>
    case Fire(now) =>
      FlushAttends(b.(timer := Unset), now);
    case Drain(now) =>
      FlushAttends(b.(timer := Unset), now);
    case Answer(id) =>
      var next := Answered(b, id);
      if next.outbox != [] {
        assert IsBusy(next.posts[id]);
      }
    case Fail(_) =>
    case Finish(id, now) =>
      var settled := b.(posts := b.posts - {id}, flushing := None);
      if b.posts[id].waiting == 0 && b.outbox != [] && b.timer.Unset? {
        var busy :| busy in b.posts && IsBusy(b.posts[busy]);
        assert busy != id && busy in settled.posts && IsBusy(settled.posts[busy]);
      }
      StartManyAttends(settled, b.posts[id].waiting, now);
  }

  /** In every run, guarded or not, a non-empty outbox has a timer pending, a call posting, or a flush waiting. */
  lemma {:induction false} RunsAttend(b: Box, steps: seq<Step>)
    requires IsAttended(b) && CanTake(b, steps)
    ensures IsAttended(After(b, steps))
    decreases |steps|
  {
    if steps != [] {
      StepAttends(b, steps[0]);
      RunsAttend(Next(b, steps[0]), steps[1..]);
    }
  }

  /** From an empty agent: guarded runs conserve every result, and every run attends to what is queued. */
  lemma {:induction false} OutboxIsReliable(steps: seq<Step>)
    requires CanTake(EMPTY, steps)
    ensures IsGuarded(EMPTY, steps) ==> HasOneFlush(After(EMPTY, steps)) && IsConserved(After(EMPTY, steps))
    ensures IsAttended(After(EMPTY, steps))
  {
    if IsGuarded(EMPTY, steps) {
      GuardedRunsConserve(EMPTY, steps);
    }
    RunsAttend(EMPTY, steps);
  }

  /** The promise in `flushing` is that of a call still under way. */
  predicate IsLinked(b: Box) {
    b.flushing.Some? ==> b.flushing.value in b.posts
  }

  lemma {:induction false} StartManyLinked(b: Box, count: nat, now: int)
    requires IsLinked(b)
    ensures IsLinked(StartMany(b, count, now))
    decreases count
  {
    if count > 0 {
      StartManyLinked(StartBatches(b, now), count - 1, now);
    }
  }

  lemma {:induction false} StepStaysLinked(b: Box, step: Step)
    requires IsLinked(b) && CanStep(b, step)
    ensures IsLinked(Next(b, step))
  {
    match step
    case Finish(id, now) => StartManyLinked(b.(posts := b.posts - {id}, flushing := None), b.posts[id].waiting, now);
    case _ =>
  }

  /** In every run, guarded or not, a pending timer can fire and a shutdown can flush: no run is cut short. */
  lemma {:induction false} FlushesAreNeverStuck(b: Box, steps: seq<Step>, now: int)
    requires IsLinked(b) && CanTake(b, steps)
    ensures IsLinked(After(b, steps))
    ensures CanStep(After(b, steps), Fire(now)) <==> !After(b, steps).timer.Unset?
    ensures CanStep(After(b, steps), Drain(now))
    decreases |steps|
  {
    hide Next;
    if steps != [] {
      StepStaysLinked(b, steps[0]);
      FlushesAreNeverStuck(Next(b, steps[0]), steps[1..], now);
    }
  }

  lemma {:induction false} TakeFirst(b: Box, step: Step, rest: seq<Step>)
    requires CanStep(b, step) && CanTake(Next(b, step), rest)
    ensures CanTake(b, [step] + rest) && After(b, [step] + rest) == After(Next(b, step), rest)
  {
    assert ([step] + rest)[1..] == rest;
  }

  /** No post is larger than the server takes. */
  ghost predicate AreBounded(b: Box) {
    forall id :: id in b.posts ==> |b.posts[id].batch| <= 200
  }

  lemma {:induction false} StartManyBounded(b: Box, count: nat, now: int)
    requires AreBounded(b)
    ensures AreBounded(StartMany(b, count, now))
    decreases count
  {
    if count > 0 {
      StartManyBounded(StartBatches(b, now), count - 1, now);
    }
  }

  /** In every run each post has at most 200 results. */
  lemma {:induction false} PostsAreBounded(b: Box, steps: seq<Step>)
    requires AreBounded(b) && CanTake(b, steps)
    ensures AreBounded(After(b, steps))
    decreases |steps|
  {
    if steps != [] {
      if steps[0].Finish? {
        StartManyBounded(b.(posts := b.posts - {steps[0].id}, flushing := None), b.posts[steps[0].id].waiting, steps[0].now);
      }
      PostsAreBounded(Next(b, steps[0]), steps[1..]);
    }
  }

  /** The first post of a flush holds as much as the server takes of what is live, oldest first. */
  lemma {:induction false} PostsAreFull(b: Box, now: int)
    ensures var started := StartBatches(b, now); var batch := started.posts[b.nextId].batch;
            batch <= started.outbox && (|batch| == 200 || batch == started.outbox)
  {
  }

  /** Queuing makes a flush due, at once when 200 results are waiting; what is due already is not put off. A failed post makes a retry due unless a flush is. */
  lemma {:induction false} FlushesAreDue(b: Box, pending: Pending, id: nat)
    ensures var queued := Enqueue(b, pending);
            && (|queued.outbox| >= 200 ==> queued.timer == Immediate)
            && (|queued.outbox| < 200 ==> queued.timer == if b.timer == Unset then Delayed else b.timer)
    ensures id in b.posts ==> PostFailed(b, id).timer == if b.timer == Unset then Retry else b.timer
  {
  }

  /** A failed post gives up the call it belongs to, with everything still queued: all the call can do now is return. */
  lemma {:induction false} FailureEndsTheCall(b: Box, id: nat, now: int)
    requires CanStep(b, Fail(id))
    ensures var failed := Next(b, Fail(id));
            && (failed.outbox, failed.acked, failed.dropped) == (b.outbox, b.acked, b.dropped)
            && CanStep(failed, Finish(id, now)) && !CanStep(failed, Answer(id)) && !CanStep(failed, Fail(id))
            && failed.posts[id].waiting == b.posts[id].waiting
            && forall other :: other != id && other in b.posts ==> other in failed.posts && failed.posts[other] == b.posts[other]
  {
  }

  /** A timer stays pending until it fires or the agent shuts down, and is gone then unless something made it due again. */
  lemma {:induction false} TimersStayPending(b: Box, step: Step)
    requires CanStep(b, step)
    ensures !step.Fire? && !step.Drain? && !b.timer.Unset? ==> !Next(b, step).timer.Unset?
    ensures step.Fire? || step.Drain? ==> Next(b, step).timer.Unset?
  {
    if step.Finish? {
      StartManyKeepsTimer(b.(posts := b.posts - {step.id}, flushing := None), b.posts[step.id].waiting, step.now);
    }
  }

  lemma {:induction false} StartManyKeepsTimer(b: Box, count: nat, now: int)
    ensures StartMany(b, count, now).timer == b.timer
    decreases count
  {
    if count > 0 {
      StartManyKeepsTimer(StartBatches(b, now), count - 1, now);
    }
  }

  lemma {:induction false} OneAnswer(b: Box, id: nat)
    requires id in b.posts && b.posts == map[id := b.posts[id]] && b.posts[id].batch != [] && b.posts[id].batch <= b.outbox
    ensures var rest, batch := Answered(b, id), b.posts[id].batch;
            && b.outbox == batch + rest.outbox && rest.acked + rest.outbox == b.acked + b.outbox
            && rest.posts == map[id := Post(FirstBatch(rest.outbox), b.posts[id].waiting)]
            && (rest.enqueued, rest.dropped, rest.flushing) == (b.enqueued, b.dropped, b.flushing)
  {
  }

  /** A flush whose posts are all answered, with nothing queued meanwhile, acknowledges the whole outbox in order and returns. */
  lemma {:induction false} AnswersEmptyTheOutbox(b: Box, id: nat) returns (steps: seq<Step>)
    requires HasOneFlush(b) && b.flushing == Some(id) && (b.posts[id].batch == [] ==> b.outbox == [])
    ensures forall k :: 0 <= k < |steps| ==> steps[k] == Answer(id)
    ensures CanTake(b, steps)
    ensures var end := After(b, steps);
            end.outbox == [] && end.acked == b.acked + b.outbox && id in end.posts && end.posts[id].batch == []
    decreases |b.outbox|
  {
    if b.posts[id].batch == [] {
      assert b.acked + [] == b.acked;
      return [];
    }
    OneAnswer(b, id);
    var rest := Next(b, Answer(id));
    hide Answered;
    var more := AnswersEmptyTheOutbox(rest, id);
    TakeFirst(b, Answer(id), more);
    steps := [Answer(id)] + more;
  }
}
