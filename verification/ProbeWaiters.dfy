/**
 What several flushes that wait on one call do when it returns: exactly when they break the outbox's conservation,
 and runs the event loop can produce in which they do.
 */
module ProbeWaiters {
  import opened Text
  import opened Lists
  import opened ProbeOutbox

  /** The clock once the step is taken. */
  function Since(step: Step, since: int): int {
    if step.Fire? || step.Finish? || step.Drain? then step.now else since
  }

  /**
   A run the event loop can produce: the clock never runs back, and no timer fires between a call's return
   and the end of its flush, which follow each other without a turn of the loop between them.
   */
  predicate IsTimely(b: Box, steps: seq<Step>, since: int)
    requires CanTake(b, steps)
    decreases |steps|
  {
    steps == [] ||
    (&& since <= Since(steps[0], since)
     && (steps[0].Fire? ==> forall id :: id in b.posts ==> b.posts[id].batch != [])
     && IsTimely(Next(b, steps[0]), steps[1..], Since(steps[0], since)))
  }

  lemma {:induction false} TimelyFirst(b: Box, step: Step, rest: seq<Step>, since: int)
    requires CanStep(b, step) && CanTake(Next(b, step), rest)
    requires since <= Since(step, since) && (step.Fire? ==> forall id :: id in b.posts ==> b.posts[id].batch != [])
    requires IsTimely(Next(b, step), rest, Since(step, since))
    ensures CanTake(b, [step] + rest) && After(b, [step] + rest) == After(Next(b, step), rest)
    ensures IsTimely(b, [step] + rest, since)
  {
    TakeFirst(b, step, rest);
    assert ([step] + rest)[1..] == rest;
  }

  lemma {:induction false} LiveStaysLive(outbox: seq<Pending>, now: int)
    ensures Live(Live(outbox, now), now) == Live(outbox, now) && Expired(Live(outbox, now), now) == []
  {
    if outbox != [] {
      var rest := Live(outbox[1..], now);
      LiveStaysLive(outbox[1..], now);
      if outbox[0].expiresAt > now {
        assert ([outbox[0]] + rest)[1..] == rest;
      } else {
        assert [] + rest == rest;
      }
    }
  }

  lemma {:induction false} LiveHolds(outbox: seq<Pending>, p: Pending, now: int)
    requires p in outbox && p.expiresAt > now
    ensures Live(outbox, now) != []
  {
    if outbox[0] != p {
      LiveHolds(outbox[1..], p, now);
    }
  }

  /** A call that `count` flushes wait on has returned. */
  predicate HasWaiters(b: Box, id: nat, count: nat) {
    b.posts == map[id := Post([], count)] && id < b.nextId
  }

  /** `count` calls, numbered from `first` on, that all post the same batch. */
  function SamePosts(first: nat, count: nat, batch: seq<Pending>): map<nat, Post> {
    map id: nat | IsFrom(first, id) && id < first + count :: Post(batch, 0)
  }

  predicate IsFrom(first: nat, id: nat) {
    first <= id
  }

  lemma {:induction false} FirstOfSamePosts(posts: map<nat, Post>, first: nat, count: nat, batch: seq<Pending>)
    requires 0 < count
    ensures posts[first := Post(batch, 0)] + SamePosts(first + 1, count - 1, batch) == posts + SamePosts(first, count, batch)
  {
  }

  lemma {:induction false} NoPosts(posts: map<nat, Post>, first: nat, batch: seq<Pending>)
    ensures SamePosts(first, 0, batch) == map[] && posts + SamePosts(first, 0, batch) == posts
  {
  }

  lemma {:induction false} SamePostsJoin(first: nat, count: nat, batch: seq<Pending>)
    requires 0 < count
    ensures SamePosts(first, 1, batch) + SamePosts(first + 1, count - 1, batch) == SamePosts(first, count, batch)
  {
  }

  lemma {:induction false} StartManyPost(b: Box, count: nat, now: int)
    requires Live(b.outbox, now) == b.outbox && Expired(b.outbox, now) == []
    ensures StartMany(b, count, now) ==
            b.(posts := b.posts + SamePosts(b.nextId, count, FirstBatch(b.outbox)),
               flushing := if count == 0 then b.flushing else Some(b.nextId + count - 1),
               nextId := b.nextId + count)
    decreases count
  {
    hide Live, Expired, SamePosts;
    var batch := FirstBatch(b.outbox);
    if count == 0 {
      NoPosts(b.posts, b.nextId, batch);
    } else {
      var started := StartBatches(b, now);
      assert b.dropped + [] == b.dropped;
      assert started == b.(posts := b.posts[b.nextId := Post(batch, 0)], flushing := Some(b.nextId), nextId := b.nextId + 1);
      StartManyPost(started, count - 1, now);
      FirstOfSamePosts(b.posts, b.nextId, count, batch);
    }
  }

  /** The agent once the first of the waiting flushes has started its call. */
  function FirstStarted(b: Box, now: int): Box {
    var live := Live(b.outbox, now);
    b.(outbox := live, dropped := b.dropped + Expired(b.outbox, now),
       posts := SamePosts(b.nextId, 1, FirstBatch(live)), flushing := Some(b.nextId), nextId := b.nextId + 1)
  }

  lemma {:induction false} FirstStarts(b: Box, id: nat, count: nat, now: int)
    requires HasWaiters(b, id, count) && 0 < count
    ensures Settle(b, id, now) == StartMany(FirstStarted(b, now), count - 1, now)
  {
    hide Live, Expired;
    var settled := b.(posts := b.posts - {id}, flushing := None);
    assert settled.posts == map[];
    assert StartBatches(settled, now).posts == FirstStarted(b, now).posts;
  }

  /** The call in progress returns at any time, and all the flushes that waited on it post the same batch: the first of what is still live. */
  lemma {:induction false} WaitersPostTheSame(b: Box, id: nat, count: nat, now: int)
    requires HasWaiters(b, id, count) && 0 < count
    ensures var live := Live(b.outbox, now);
            Settle(b, id, now) == b.(
              outbox := live, dropped := b.dropped + Expired(b.outbox, now),
              posts := SamePosts(b.nextId, count, FirstBatch(live)),
              flushing := Some(b.nextId + count - 1), nextId := b.nextId + count)
  {
    FirstStarts(b, id, count, now);
    LiveStaysLive(b.outbox, now);
    hide Live, Expired, FirstBatch, SamePosts, StartMany, Settle, HasWaiters;
    var batch := FirstBatch(Live(b.outbox, now));
    StartManyPost(FirstStarted(b, now), count - 1, now);
    SamePostsJoin(b.nextId, count, batch);
  }

  lemma {:induction false} TwoPost(b: Box, id: nat, count: nat, now: int)
    requires HasWaiters(b, id, count) && 2 <= count
    ensures CanStep(b, Finish(id, now))
    ensures var resumed, batch := Next(b, Finish(id, now)), FirstBatch(Live(b.outbox, now));
            && b.nextId in resumed.posts && b.nextId + 1 in resumed.posts
            && (forall k :: k in resumed.posts ==> resumed.posts[k].batch == batch)
            && (resumed.outbox, resumed.enqueued, resumed.acked) == (Live(b.outbox, now), b.enqueued, b.acked)
            && resumed.dropped == b.dropped + Expired(b.outbox, now)
  {
    WaitersPostTheSame(b, id, count, now);
    hide Live, Expired, Settle;
    assert IsFrom(b.nextId, b.nextId) && IsFrom(b.nextId, b.nextId + 1);
  }

  /** When two or more flushes waited, something queued is still live at the return, and two posts are answered: a result is acknowledged twice. */
  lemma {:induction false} WaitersRepeat(b: Box, id: nat, count: nat, now: int)
    requires HasWaiters(b, id, count) && 2 <= count && IsDistinct(b.enqueued)
    requires Live(b.outbox, now) != []
    ensures var steps := [Finish(id, now), Answer(b.nextId), Answer(b.nextId + 1)];
            CanTake(b, steps) && IsTimely(b, steps, now) && !IsConserved(After(b, steps))
  {
    TwoPost(b, id, count, now);
    hide IsConserved, Live, Expired, Settle, HasWaiters;
    var first, second := b.nextId, b.nextId + 1;
    var s0, s1, s2 := Finish(id, now), Answer(first), Answer(second);
    var b1 := Next(b, s0);
    var b2 := Next(b1, s1);
    var b3 := Next(b2, s2);
    TimelyFirst(b2, s2, [], now);
    TimelyFirst(b1, s1, [s2], now);
    TimelyFirst(b, s0, [s1, s2], now);
    assert [s2] + [] == [s2] && [s1] + [s2] == [s1, s2] && [s0] + [s1, s2] == [s0, s1, s2];
    RepeatIsNotConserved(b3, b.acked, FirstBatch(Live(b.outbox, now)));
  }

  lemma {:induction false} RepeatIsNotConserved(b: Box, before: seq<Pending>, batch: seq<Pending>)
    requires IsDistinct(b.enqueued) && b.acked == before + batch + batch && batch != []
    ensures !IsConserved(b)
  {
    hide IsDistinct, IsSubsequence;
    DistinctCounts(b.enqueued);
    assert batch[0] in multiset(batch);
    assert multiset(b.acked)[batch[0]] >= 2;
    assert multiset(b.enqueued)[batch[0]] <= 1;
  }

  lemma {:induction false} ConservedIsAboutResults(b: Box, c: Box)
    requires IsConserved(b) && (b.outbox, b.enqueued, b.acked, b.dropped) == (c.outbox, c.enqueued, c.acked, c.dropped)
    ensures IsConserved(c)
  {
  }

  lemma {:induction false} StartManyConserve(b: Box, count: nat, now: int)
    requires IsConserved(b)
    ensures IsConserved(StartMany(b, count, now))
    decreases count
  {
    hide IsConserved, StartBatches;
    if count > 0 {
      StartConserves(b, now);
      StartManyConserve(StartBatches(b, now), count - 1, now);
    }
  }

  lemma {:induction false} ResumptionConserves(b: Box, id: nat, now: int)
    requires id in b.posts && IsConserved(b)
    ensures IsConserved(Settle(b, id, now))
  {
    var settled := b.(posts := b.posts - {id}, flushing := None);
    ConservedIsAboutResults(b, settled);
    hide IsConserved, StartMany;
    StartManyConserve(settled, b.posts[id].waiting, now);
  }

  /** The steps can be taken, and end with an empty outbox, no flush, and every result conserved. */
  ghost predicate EndsIdle(b: Box, steps: seq<Step>) {
    CanTake(b, steps) &&
    var end := After(b, steps);
    end.outbox == [] && end.posts == map[] && end.flushing == None && IsConserved(end)
  }

  lemma {:induction false} EndsIdleFirst(b: Box, step: Step, rest: seq<Step>)
    requires CanStep(b, step) && EndsIdle(Next(b, step), rest)
    ensures EndsIdle(b, [step] + rest)
  {
    TakeFirst(b, step, rest);
  }

  /** The flushes of the calls from `first` on end, one at each of the times. */
  function Endings(first: nat, times: seq<int>): seq<Step>
    decreases |times|
  {
    if times == [] then [] else [Finish(first, times[0])] + Endings(first + 1, times[1..])
  }

  /** Calls numbered from `first` on have returned with nothing queued, and nothing waits on them. */
  ghost predicate HaveReturned(b: Box, first: nat, count: nat) {
    && b.outbox == [] && b.posts == SamePosts(first, count, []) && IsConserved(b)
    && (count == 0 ==> b.flushing == None)
  }

  lemma {:induction false} OneEnds(b: Box, first: nat, count: nat, now: int)
    requires HaveReturned(b, first, count) && 0 < count
    ensures CanStep(b, Finish(first, now)) && HaveReturned(Next(b, Finish(first, now)), first + 1, count - 1)
  {
    hide IsConserved;
    var ended := Next(b, Finish(first, now));
    assert ended == b.(posts := b.posts - {first}, flushing := None);
    assert ended.posts == SamePosts(first + 1, count - 1, []);
    ConservedIsAboutResults(b, ended);
  }

  lemma {:induction false} AllEnd(b: Box, first: nat, times: seq<int>)
    requires HaveReturned(b, first, |times|)
    ensures EndsIdle(b, Endings(first, times))
    decreases |times|
  {
    hide IsConserved, Next, CanStep;
    if times == [] {
      assert SamePosts(first, 0, []) == map[];
    } else {
      hide EndsIdle, HaveReturned;
      OneEnds(b, first, |times|, times[0]);
      AllEnd(Next(b, Finish(first, times[0])), first + 1, times[1..]);
      EndsIdleFirst(b, Finish(first, times[0]), Endings(first + 1, times[1..]));
    }
  }

  lemma {:induction false} NothingLiveNothingPosts(b: Box, id: nat, count: nat, now: int)
    requires HasWaiters(b, id, count) && 0 < count && IsConserved(b)
    requires Live(b.outbox, now) == []
    ensures CanStep(b, Finish(id, now)) && HaveReturned(Next(b, Finish(id, now)), b.nextId, count)
  {
    hide IsConserved, Live, Expired;
    WaitersPostTheSame(b, id, count, now);
    ResumptionConserves(b, id, now);
  }

  /** When nothing queued is live at the return, the waiters do no harm: their calls return at once, and whenever their flushes end the agent is left with every result conserved and no flush at all. */
  lemma {:induction false} NothingLiveIsHarmless(b: Box, id: nat, now: int, times: seq<int>)
    requires HasWaiters(b, id, |times|) && times != [] && IsConserved(b)
    requires Live(b.outbox, now) == []
    ensures EndsIdle(b, [Finish(id, now)] + Endings(b.nextId, times))
  {
    hide *;
    NothingLiveNothingPosts(b, id, |times|, now);
    AllEnd(Next(b, Finish(id, now)), b.nextId, times);
    EndsIdleFirst(b, Finish(id, now), Endings(b.nextId, times));
  }

  /** `steps` is a return of the call followed by answers to what the waiting flushes post. */
  ghost predicate IsReturnThenAnswers(steps: seq<Step>, id: nat, now: int) {
    steps != [] && steps[0] == Finish(id, now) && AreAnswers(steps[1..])
  }

  ghost predicate AreAnswers(steps: seq<Step>) {
    forall k :: 0 <= k < |steps| ==> steps[k].Answer?
  }

  lemma {:induction false} NothingToAnswer(b: Box, steps: seq<Step>)
    requires (forall id :: id in b.posts ==> b.posts[id].batch == []) && CanTake(b, steps) && AreAnswers(steps)
    ensures steps == []
  {
  }

  lemma {:induction false} AnswersAreGuarded(b: Box, steps: seq<Step>)
    requires CanTake(b, steps) && AreAnswers(steps)
    ensures IsGuarded(b, steps)
    decreases |steps|
  {
    hide Next;
    if steps != [] {
      AnswersAreGuarded(Next(b, steps[0]), steps[1..]);
    }
  }

  lemma {:induction false} OneWaiterTakesOver(b: Box, id: nat, now: int)
    requires HasWaiters(b, id, 1) && IsConserved(b)
    ensures HasOneFlush(Settle(b, id, now))
  {
    WaitersPostTheSame(b, id, 1, now);
    hide IsConserved, Live, Expired, Settle;
    var batch := FirstBatch(Live(b.outbox, now));
    assert SamePosts(b.nextId, 1, batch) == map[b.nextId := Post(batch, 0)];
  }

  lemma {:induction false} ExpiredPostsNothing(b: Box, id: nat, count: nat, now: int)
    requires HasWaiters(b, id, count) && (count > 0 ==> Live(b.outbox, now) == [])
    ensures forall k :: k in Settle(b, id, now).posts ==> Settle(b, id, now).posts[k].batch == []
  {
    if count > 0 {
      WaitersPostTheSame(b, id, count, now);
    }
  }

  lemma {:induction false} FewOrExpiredConserve(b: Box, id: nat, count: nat, now: int, steps: seq<Step>)
    requires HasWaiters(b, id, count) && IsConserved(b) && (count < 2 || Live(b.outbox, now) == [])
    requires IsReturnThenAnswers(steps, id, now) && CanTake(b, steps)
    ensures IsConserved(After(b, steps))
  {
    hide IsConserved, Live, Settle;
    var resumed, answers := Settle(b, id, now), steps[1..];
    ResumptionConserves(b, id, now);
    hide HasWaiters, AreAnswers;
    if count == 1 {
      OneWaiterTakesOver(b, id, now);
      AnswersAreGuarded(resumed, answers);
      GuardedRunsConserve(resumed, answers);
    } else {
      ExpiredPostsNothing(b, id, count, now);
      NothingToAnswer(resumed, answers);
    }
  }

  /** However many flushes wait, they break conservation exactly when they are two or more and something queued is still live as they resume. */
  lemma {:induction false} WaitersBreakIff(b: Box, id: nat, count: nat, now: int)
    requires HasWaiters(b, id, count) && IsConserved(b) && IsDistinct(b.enqueued)
    ensures (exists steps: seq<Step> :: IsReturnThenAnswers(steps, id, now) && CanTake(b, steps) && !IsConserved(After(b, steps)))
       <==> 2 <= count && Live(b.outbox, now) != []
  {
    hide IsConserved, Live, CanTake, After, HasWaiters, IsDistinct;
    if 2 <= count && Live(b.outbox, now) != [] {
      WaitersRepeat(b, id, count, now);
      var answers := [Answer(b.nextId), Answer(b.nextId + 1)];
      var steps := [Finish(id, now), Answer(b.nextId), Answer(b.nextId + 1)];
      assert steps[1..] == answers;
      assert IsReturnThenAnswers(steps, id, now);
    } else {
      forall steps: seq<Step> | IsReturnThenAnswers(steps, id, now) && CanTake(b, steps) ensures IsConserved(After(b, steps)) {
        FewOrExpiredConserve(b, id, count, now, steps);
      }
    }
  }

  /**
   When two posts are answered and the first call's next post fails, the second batch is gone: neither
   acknowledged, nor dropped as expired, nor queued, nor being posted.
   */
  lemma {:induction false} WaitersLose(b: Box, id: nat, count: nat, now: int)
    requires HasWaiters(b, id, count) && 2 <= count
    requires MAX_RESULTS < |Live(b.outbox, now)|
    ensures var steps := [Finish(id, now), Answer(b.nextId), Answer(b.nextId + 1), Fail(b.nextId)];
            && CanTake(b, steps) && IsTimely(b, steps, now)
            && var lost, live := After(b, steps), Live(b.outbox, now);
               && lost.enqueued == b.enqueued && lost.dropped == b.dropped + Expired(b.outbox, now)
               && lost.acked == b.acked + live[..MAX_RESULTS] + live[..MAX_RESULTS]
               && lost.outbox == Drop(live, 2 * MAX_RESULTS)
               && forall k :: k in lost.posts ==> lost.posts[k].batch in [[], live[..MAX_RESULTS], FirstBatch(lost.outbox)]
  {
    TwoPost(b, id, count, now);
    hide Live, Expired, Settle, HasWaiters;
    var live, s0 := Live(b.outbox, now), Finish(id, now);
    var s1, s2, s3 := Answer(b.nextId), Answer(b.nextId + 1), Fail(b.nextId);
    var resumed := Next(b, s0);
    SecondBatchIsLost(resumed, b.nextId, b.nextId + 1, now);
    hide Next, Drop, FirstBatch, CanTake, After, IsTimely;
    TimelyFirst(b, s0, [s1, s2, s3], now);
    assert [s0] + [s1, s2, s3] == [s0, s1, s2, s3];
  }

  lemma {:induction false} SecondBatchIsLost(b: Box, first: nat, second: nat, now: int)
    requires first in b.posts && second in b.posts && first != second && MAX_RESULTS < |b.outbox|
    requires forall k :: k in b.posts ==> b.posts[k].batch == FirstBatch(b.outbox)
    ensures var steps := [Answer(first), Answer(second), Fail(first)];
            && CanTake(b, steps) && IsTimely(b, steps, now)
            && var lost := After(b, steps);
               && (lost.enqueued, lost.dropped) == (b.enqueued, b.dropped)
               && lost.acked == b.acked + b.outbox[..MAX_RESULTS] + b.outbox[..MAX_RESULTS]
               && lost.outbox == Drop(b.outbox, 2 * MAX_RESULTS)
               && forall k :: k in lost.posts ==> lost.posts[k].batch in [[], b.outbox[..MAX_RESULTS], FirstBatch(lost.outbox)]
  {
    var s1, s2, s3 := Answer(first), Answer(second), Fail(first);
    var b1 := Next(b, s1);
    assert b1.outbox == b.outbox[MAX_RESULTS..];
    var b2 := Next(b1, s2);
    assert b2.outbox == Drop(b.outbox, 2 * MAX_RESULTS);
    var b3 := Next(b2, s3);
    assert forall k :: k in b3.posts ==>
      b3.posts[k].batch == (if k == first then [] else if k == second then FirstBatch(b3.outbox) else b.outbox[..MAX_RESULTS]);
    TimelyFirst(b2, s3, [], now);
    TimelyFirst(b1, s2, [s3], now);
    TimelyFirst(b, s1, [s2, s3], now);
    assert [s3] + [] == [s3] && [s2] + [s3] == [s2, s3] && [s1] + [s2, s3] == [s1, s2, s3];
  }

  /**
   Wherever a flush waits on a call that still posts, one more flush can, while something queued is live, be
   followed by a failed post after which a result is acknowledged twice; the clock never runs back.
   */
  lemma {:induction false} UnguardedFlushCanBreak(b: Box, pending: Pending, now: int) returns (steps: seq<Step>)
    requires HasOneFlush(b) && !FindsNoWaiter(b) && b.posts[b.flushing.value].batch != []
    requires IsDistinct(b.enqueued + [pending]) && now < pending.expiresAt
    ensures |steps| >= 2 && steps[..2] == [Queue(pending), Fire(now)]
    ensures CanTake(b, steps) && IsTimely(b, steps, now) && !IsConserved(After(b, steps))
  {
    hide IsConserved, Live, Expired, IsDistinct;
    var id := b.flushing.value;
    var queued := Enqueue(b, pending);
    var waiting := Next(queued, Fire(now));
    var failed := Next(waiting, Fail(id));
    assert failed.posts == map[id := Post([], 2)];
    assert failed.outbox == b.outbox + [pending] && pending in failed.outbox;
    LiveHolds(failed.outbox, pending, now);
    WaitersRepeat(failed, id, 2, now);
    var tail := [Finish(id, now), Answer(failed.nextId), Answer(failed.nextId + 1)];
    TimelyFirst(waiting, Fail(id), tail, now);
    TimelyFirst(queued, Fire(now), [Fail(id)] + tail, now);
    TimelyFirst(b, Queue(pending), [Fire(now)] + ([Fail(id)] + tail), now);
    steps := [Queue(pending)] + ([Fire(now)] + ([Fail(id)] + tail));
  }

  /** From an empty agent, at any time and for any three results that are live then: a run the event loop can produce that acknowledges one of them twice. */
  lemma {:induction false} AnAgentCanRepeat(p: Pending, q: Pending, r: Pending, now: int) returns (steps: seq<Step>)
    requires IsDistinct([p, q, r]) && now < p.expiresAt && now < r.expiresAt
    ensures CanTake(EMPTY, steps) && IsTimely(EMPTY, steps, now) && !IsConserved(After(EMPTY, steps))
  {
    hide IsConserved;
    var b1 := Next(EMPTY, Queue(p));
    var b2 := Next(b1, Fire(now));
    var b3 := Next(b2, Queue(q));
    var b4 := Next(b3, Fire(now));
    SecondFlushWaits(p, q, now);
    assert [p, q] + [r] == [p, q, r];
    hide IsDistinct, Next, HasOneFlush;
    var tail := UnguardedFlushCanBreak(b4, r, now);
    TimelyFirst(b3, Fire(now), tail, now);
    TimelyFirst(b2, Queue(q), [Fire(now)] + tail, now);
    TimelyFirst(b1, Fire(now), [Queue(q)] + ([Fire(now)] + tail), now);
    TimelyFirst(EMPTY, Queue(p), [Fire(now)] + ([Queue(q)] + ([Fire(now)] + tail)), now);
    steps := [Queue(p)] + ([Fire(now)] + ([Queue(q)] + ([Fire(now)] + tail)));
  }

  /** Two results and two flushes: the first flush posts, the second waits. */
  lemma {:induction false} SecondFlushWaits(p: Pending, q: Pending, now: int)
    requires now < p.expiresAt
    ensures var b1 := Next(EMPTY, Queue(p));
            && CanStep(b1, Fire(now)) && b1.posts == map[]
            && var b2 := Next(b1, Fire(now));
               var b3 := Next(b2, Queue(q));
               && CanStep(b3, Fire(now)) && b3.posts == map[0 := Post([p], 0)]
               && var b4 := Next(b3, Fire(now));
                  && HasOneFlush(b4) && b4.enqueued == [p, q] && b4.flushing == Some(0) && b4.posts == map[0 := Post([p], 1)]
  {
    var b1 := Next(EMPTY, Queue(p));
    assert b1.outbox == [p] && [p][1..] == [];
    assert Live([p], now) == [p] && Expired([p], now) == [];
    var b2 := Next(b1, Fire(now));
    assert b2.posts == map[0 := Post([p], 0)] && b2.outbox == [p];
    var b3 := Next(b2, Queue(q));
    assert b3.outbox == [p, q] && b3.enqueued == [p, q];
  }
}
