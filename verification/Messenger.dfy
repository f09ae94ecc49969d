/** The messenger client's cache: merging thread deliveries by sequence number, and the unread count. */
module Messenger {
  import opened Text

  datatype Message = Message(seqNo: nat, body: string)

  // ----- Merging -----

  predicate HasSeq(messages: seq<Message>, seqNo: nat) {
    exists k :: 0 <= k < |messages| && messages[k].seqNo == seqNo
  }

  function Unseen(existing: seq<Message>, messages: seq<Message>): seq<Message> {
    if messages == [] then []
    else (if HasSeq(existing, messages[0].seqNo) then [] else [messages[0]]) + Unseen(existing, messages[1..])
  }

  function Insert(m: Message, sorted: seq<Message>): seq<Message> {
    if sorted == [] || m.seqNo <= sorted[0].seqNo then [m] + sorted else [sorted[0]] + Insert(m, sorted[1..])
  }

  /** The stable sort by sequence number. */
  function SortBySeq(messages: seq<Message>): seq<Message> {
    if messages == [] then [] else Insert(messages[0], SortBySeq(messages[1..]))
  }

  function Merge(existing: seq<Message>, messages: seq<Message>): seq<Message> {
    SortBySeq(existing + Unseen(existing, messages))
  }

  ghost predicate IsSorted(messages: seq<Message>) {
    forall i, j :: 0 <= i < j < |messages| ==> messages[i].seqNo <= messages[j].seqNo
  }

  ghost predicate IsStrict(messages: seq<Message>) {
    forall i, j :: 0 <= i < j < |messages| ==> messages[i].seqNo < messages[j].seqNo
  }

  ghost predicate HasDistinctSeqs(messages: seq<Message>) {
    forall i, j :: 0 <= i < j < |messages| ==> messages[i].seqNo != messages[j].seqNo
  }

  /** The messages with one sequence number, in order. */
  function WithSeq(messages: seq<Message>, seqNo: nat): seq<Message> {
    if messages == [] then [] else (if messages[0].seqNo == seqNo then [messages[0]] else []) + WithSeq(messages[1..], seqNo)
  }

  lemma {:induction false} InsertSorts(m: Message, sorted: seq<Message>)
    requires IsSorted(sorted)
    ensures IsSorted(Insert(m, sorted))
    ensures forall x :: x in Insert(m, sorted) <==> x == m || x in sorted
  {
    if sorted != [] && m.seqNo > sorted[0].seqNo {
      InsertSorts(m, sorted[1..]);
      var rest := Insert(m, sorted[1..]);
      assert forall x :: x in sorted <==> x == sorted[0] || x in sorted[1..];
      forall k | 0 <= k < |rest| ensures sorted[0].seqNo <= rest[k].seqNo {
        assert rest[k] in rest;
      }
    }
  }

  lemma {:induction false} InsertIsStable(m: Message, sorted: seq<Message>, seqNo: nat)
    ensures WithSeq(Insert(m, sorted), seqNo) == WithSeq([m], seqNo) + WithSeq(sorted, seqNo)
  {
    if sorted != [] && m.seqNo > sorted[0].seqNo {
      var rest := sorted[1..];
      InsertIsStable(m, rest, seqNo);
      assert ([sorted[0]] + Insert(m, rest))[1..] == Insert(m, rest);
    } else {
      assert ([m] + sorted)[1..] == sorted;
    }
  }

  lemma {:induction false} SortSorts(messages: seq<Message>)
    ensures IsSorted(SortBySeq(messages))
    ensures forall x :: x in SortBySeq(messages) <==> x in messages
  {
    if messages != [] {
      SortSorts(messages[1..]);
      InsertSorts(messages[0], SortBySeq(messages[1..]));
      assert forall x :: x in messages <==> x == messages[0] || x in messages[1..];
    }
  }

  /** The sort orders by sequence number and keeps the messages of each number, in their order. */
  lemma {:induction false} SortIsStableSort(messages: seq<Message>, seqNo: nat)
    ensures IsSorted(SortBySeq(messages))
    ensures WithSeq(SortBySeq(messages), seqNo) == WithSeq(messages, seqNo)
  {
    SortSorts(messages);
    hide IsSorted;
    if messages != [] {
      SortIsStableSort(messages[1..], seqNo);
      InsertIsStable(messages[0], SortBySeq(messages[1..]), seqNo);
    }
  }

  lemma {:induction false} WithSeqHolds(messages: seq<Message>, seqNo: nat)
    ensures WithSeq(messages, seqNo) != [] <==> HasSeq(messages, seqNo)
  {
    if messages != [] {
      WithSeqHolds(messages[1..], seqNo);
      if messages[0].seqNo != seqNo && HasSeq(messages, seqNo) {
        var k :| 0 <= k < |messages| && messages[k].seqNo == seqNo;
        assert messages[1..][k - 1].seqNo == seqNo;
      }
    }
  }

  lemma {:induction false} DistinctFromHead(messages: seq<Message>)
    requires messages != []
    ensures HasDistinctSeqs(messages) <==> HasDistinctSeqs(messages[1..]) && !HasSeq(messages[1..], messages[0].seqNo)
  {
    var rest := messages[1..];
    assert forall k :: 0 <= k < |rest| ==> rest[k] == messages[k + 1];
    assert forall k :: 0 < k < |messages| ==> messages[k] == rest[k - 1];
  }

  ghost predicate HasAtMostOneEach(messages: seq<Message>) {
    forall q: nat :: |WithSeq(messages, q)| <= 1
  }

  lemma {:induction false} DistinctMeansAtMostOne(messages: seq<Message>)
    ensures HasDistinctSeqs(messages) <==> HasAtMostOneEach(messages)
  {
    if messages != [] {
      var head, rest := messages[0].seqNo, messages[1..];
      DistinctMeansAtMostOne(rest);
      DistinctFromHead(messages);
      WithSeqHolds(rest, head);
      if HasAtMostOneEach(messages) {
        assert |WithSeq(messages, head)| == 1 + |WithSeq(rest, head)|;
        forall q: nat ensures |WithSeq(rest, q)| <= 1 {
          assert |WithSeq(messages, q)| <= 1;
        }
      }
      if HasAtMostOneEach(rest) && !HasSeq(rest, head) {
        forall q: nat ensures |WithSeq(messages, q)| <= 1 {
          assert |WithSeq(rest, q)| <= 1;
        }
      }
    }
  }

  lemma {:induction false} SortIsStrictIff(messages: seq<Message>)
    ensures IsStrict(SortBySeq(messages)) <==> HasDistinctSeqs(messages)
  {
    var sorted := SortBySeq(messages);
    SortSorts(messages);
    DistinctMeansAtMostOne(messages);
    DistinctMeansAtMostOne(sorted);
    assert HasAtMostOneEach(sorted) <==> HasAtMostOneEach(messages) by {
      forall q: nat ensures WithSeq(sorted, q) == WithSeq(messages, q) {
        SortIsStableSort(messages, q);
      }
    }
    SortedIsStrictIff(sorted);
  }

  lemma {:induction false} SortedIsStrictIff(sorted: seq<Message>)
    requires IsSorted(sorted)
    ensures IsStrict(sorted) <==> HasDistinctSeqs(sorted)
  {
  }

  lemma {:induction false} UnseenIsFilter(existing: seq<Message>, messages: seq<Message>)
    ensures forall x :: x in Unseen(existing, messages) <==> x in messages && !HasSeq(existing, x.seqNo)
    ensures HasDistinctSeqs(messages) ==> HasDistinctSeqs(Unseen(existing, messages))
  {
    if messages != [] {
      UnseenIsFilter(existing, messages[1..]);
      var rest := Unseen(existing, messages[1..]);
      assert forall x :: x in messages <==> x == messages[0] || x in messages[1..];
      if HasDistinctSeqs(messages) {
        forall k | 0 <= k < |rest| ensures rest[k].seqNo != messages[0].seqNo {
          assert rest[k] in messages[1..];
          var i :| 0 <= i < |messages[1..]| && messages[1..][i] == rest[k];
          assert messages[i + 1] == rest[k];
        }
      }
    }
  }

  /** A merge keeps what is there, adds each delivered message whose number is new, and adds nothing else, all in order. */
  lemma {:induction false} MergeAddsTheUnseen(existing: seq<Message>, messages: seq<Message>)
    ensures IsSorted(Merge(existing, messages))
    ensures forall x :: x in Merge(existing, messages) <==> x in existing || (x in messages && !HasSeq(existing, x.seqNo))
  {
    SortSorts(existing + Unseen(existing, messages));
    UnseenIsFilter(existing, messages);
  }

  /** A thread stays strictly increasing exactly when no two new messages of the batch share a number. */
  lemma {:induction false} MergeIsStrictIff(existing: seq<Message>, messages: seq<Message>)
    requires IsStrict(existing)
    ensures IsStrict(Merge(existing, messages)) <==> HasDistinctSeqs(Unseen(existing, messages))
    ensures HasDistinctSeqs(messages) ==> IsStrict(Merge(existing, messages))
  {
    var unseen := Unseen(existing, messages);
    var all := existing + unseen;
    UnseenIsFilter(existing, messages);
    SortIsStrictIff(all);
    if HasDistinctSeqs(unseen) {
      forall i, j | 0 <= i < j < |all| ensures all[i].seqNo != all[j].seqNo {
        if i < |existing| && j >= |existing| {
          assert all[j] in unseen;
        }
      }
    }
    if HasDistinctSeqs(all) {
      forall i, j | 0 <= i < j < |unseen| ensures unseen[i].seqNo != unseen[j].seqNo {
        assert all[|existing| + i] == unseen[i] && all[|existing| + j] == unseen[j];
      }
    }
  }

  // ----- Deliveries in any order -----

  /** The thread after each batch in turn. */
  function MergeAll(existing: seq<Message>, batches: seq<seq<Message>>): seq<Message>
    decreases |batches|
  {
    if batches == [] then existing else MergeAll(Merge(existing, batches[0]), batches[1..])
  }

  ghost predicate IsDelivered(existing: seq<Message>, batches: seq<seq<Message>>, m: Message) {
    m in existing || exists k :: 0 <= k < |batches| && m in batches[k]
  }

  /** One message per number, among everything held and delivered, and distinct numbers in each batch. */
  ghost predicate IsOneConversation(existing: seq<Message>, batches: seq<seq<Message>>) {
    && IsStrict(existing)
    && (forall k :: 0 <= k < |batches| ==> HasDistinctSeqs(batches[k]))
    && forall m, n :: IsDelivered(existing, batches, m) && IsDelivered(existing, batches, n) && m.seqNo == n.seqNo ==> m == n
  }

  lemma {:induction false} MergeOneBatch(existing: seq<Message>, batches: seq<seq<Message>>)
    requires IsOneConversation(existing, batches) && batches != []
    ensures forall m :: m in Merge(existing, batches[0]) <==> m in existing || m in batches[0]
    ensures forall m :: IsDelivered(Merge(existing, batches[0]), batches[1..], m) <==> IsDelivered(existing, batches, m)
    ensures IsOneConversation(Merge(existing, batches[0]), batches[1..])
  {
    var batch, merged, rest := batches[0], Merge(existing, batches[0]), batches[1..];
    MergeAddsTheUnseen(existing, batch);
    MergeIsStrictIff(existing, batch);
    forall m ensures m in merged <==> m in existing || m in batch {
      if m in batch && HasSeq(existing, m.seqNo) {
        var k :| 0 <= k < |existing| && existing[k].seqNo == m.seqNo;
        assert IsDelivered(existing, batches, existing[k]) && IsDelivered(existing, batches, m);
      }
    }
    forall m ensures IsDelivered(merged, rest, m) <==> IsDelivered(existing, batches, m) {
      if IsDelivered(existing, batches, m) && m !in existing {
        var k :| 0 <= k < |batches| && m in batches[k];
        if k > 0 {
          assert m in rest[k - 1];
        }
      }
      if IsDelivered(merged, rest, m) && m !in merged {
        var k :| 0 <= k < |rest| && m in rest[k];
        assert m in batches[k + 1];
      }
    }
  }

  /** Whatever the deliveries, the thread is the strictly increasing list of everything held and delivered. */
  lemma {:induction false} DeliveriesJoin(existing: seq<Message>, batches: seq<seq<Message>>)
    requires IsOneConversation(existing, batches)
    ensures IsStrict(MergeAll(existing, batches))
    ensures forall m :: m in MergeAll(existing, batches) <==> IsDelivered(existing, batches, m)
    decreases |batches|
  {
    if batches != [] {
      MergeOneBatch(existing, batches);
      DeliveriesJoin(Merge(existing, batches[0]), batches[1..]);
    }
  }

  lemma {:induction false} TailHolds(a: seq<Message>)
    requires IsStrict(a) && a != []
    ensures IsStrict(a[1..])
    ensures forall m :: m in a[1..] <==> m in a && m.seqNo > a[0].seqNo
    ensures forall m :: m in a ==> m.seqNo >= a[0].seqNo
  {
    var rest := a[1..];
    assert a == [a[0]] + rest;
    forall m | m in rest ensures m.seqNo > a[0].seqNo {
      var k :| 0 <= k < |rest| && rest[k] == m;
      assert a[k + 1] == m;
    }
  }

  lemma {:induction false} StrictIsUnique(a: seq<Message>, b: seq<Message>)
    requires IsStrict(a) && IsStrict(b)
    requires forall m :: m in a <==> m in b
    ensures a == b
  {
    assert a != [] ==> a[0] in a;
    assert b != [] ==> b[0] in b;
    if a != [] {
      TailHolds(a);
      TailHolds(b);
      hide IsStrict;
      assert a[0].seqNo == b[0].seqNo;
      StrictIsUnique(a[1..], b[1..]);
      assert a == [a[0]] + a[1..] && b == [b[0]] + b[1..];
      assert a[0] in b && a[0] !in b[1..];
    }
  }

  /** Reordering, repeating, splitting or joining deliveries makes no difference. */
  lemma {:induction false} DeliveryOrderDoesNotMatter(existing: seq<Message>, first: seq<seq<Message>>, second: seq<seq<Message>>)
    requires IsOneConversation(existing, first) && IsOneConversation(existing, second)
    requires forall m :: IsDelivered(existing, first, m) <==> IsDelivered(existing, second, m)
    ensures MergeAll(existing, first) == MergeAll(existing, second)
  {
    DeliveriesJoin(existing, first);
    DeliveriesJoin(existing, second);
    StrictIsUnique(MergeAll(existing, first), MergeAll(existing, second));
  }

  // ----- The log a thread follows -----

  function LastSeq(messages: seq<Message>): nat {
    if messages == [] then 0 else messages[|messages| - 1].seqNo
  }

  /** The server's answer to `afterSeq`, before its page limit. */
  function Newer(log: seq<Message>, afterSeq: nat): seq<Message> {
    if log == [] then [] else (if log[0].seqNo > afterSeq then [log[0]] else []) + Newer(log[1..], afterSeq)
  }

  ghost predicate IsLog(log: seq<Message>) {
    IsStrict(log) && forall k :: 0 <= k < |log| ==> log[k].seqNo > 0
  }

  function CountUpTo(log: seq<Message>, seqNo: nat): (n: nat)
    ensures n <= |log|
  {
    if log == [] || log[0].seqNo > seqNo then 0 else 1 + CountUpTo(log[1..], seqNo)
  }

  lemma {:induction false} CountUpToCuts(log: seq<Message>, seqNo: nat)
    requires IsStrict(log)
    ensures forall k :: 0 <= k < |log| ==> (k < CountUpTo(log, seqNo) <==> log[k].seqNo <= seqNo)
  {
    if log != [] && log[0].seqNo <= seqNo {
      CountUpToCuts(log[1..], seqNo);
      forall k | 0 <= k < |log| ensures k < CountUpTo(log, seqNo) <==> log[k].seqNo <= seqNo {
        if k > 0 {
          assert log[k] == log[1..][k - 1];
        }
      }
    }
  }

  lemma {:induction false} NewerIsSuffix(log: seq<Message>, afterSeq: nat)
    requires IsStrict(log)
    ensures Newer(log, afterSeq) == log[CountUpTo(log, afterSeq)..]
  {
    if log != [] {
      NewerIsSuffix(log[1..], afterSeq);
      if log[0].seqNo > afterSeq && |log| > 1 {
        assert log[1].seqNo > afterSeq;
        assert CountUpTo(log[1..], afterSeq) == 0;
      }
    }
  }

  lemma {:induction false} MergeSectionHolds(log: seq<Message>, k: nat, i: nat, j: nat)
    requires IsStrict(log) && k <= |log| && i <= j <= |log|
    ensures IsStrict(Merge(log[..k], log[i..j]))
    ensures forall m :: m in Merge(log[..k], log[i..j]) <==> m in log[..k] || m in log[i..j]
  {
    MergeAddsTheUnseen(log[..k], log[i..j]);
    MergeIsStrictIff(log[..k], log[i..j]);
    SectionIsUnseen(log, k, i, j);
  }

  lemma {:induction false} SectionsJoin(log: seq<Message>, k: nat, i: nat, j: nat, m: Message)
    requires k <= |log| && i <= j <= |log| && i <= k
    ensures m in log[..k] || m in log[i..j] <==> m in log[..if j <= k then k else j]
  {
    var joined := log[..if j <= k then k else j];
    if m in joined {
      var n :| 0 <= n < |joined| && joined[n] == m;
      if n < k { assert log[..k][n] == m; } else { assert log[i..j][n - i] == m; }
    }
    if m in log[..k] {
      var n :| 0 <= n < k && log[..k][n] == m;
      assert joined[n] == m;
    }
    if m in log[i..j] {
      var n :| 0 <= n < j - i && log[i..j][n] == m;
      assert joined[i + n] == m;
    }
  }

  /** Merging a section of the log into a prefix of it gives a prefix exactly when nothing lies between them, or the section is empty. */
  lemma {:induction false} MergeSection(log: seq<Message>, k: nat, i: nat, j: nat)
    requires IsStrict(log) && k <= |log| && i <= j <= |log|
    ensures Merge(log[..k], log[i..j]) <= log <==> i <= k || i == j
    ensures i <= k ==> Merge(log[..k], log[i..j]) == log[..if j <= k then k else j]
    ensures i == j ==> Merge(log[..k], log[i..j]) == log[..k]
  {
    hide Merge;
    MergeSectionHolds(log, k, i, j);
    var merged := Merge(log[..k], log[i..j]);
    if i <= k {
      forall m ensures m in merged <==> m in log[..if j <= k then k else j] {
        SectionsJoin(log, k, i, j, m);
      }
      StrictIsUnique(merged, log[..if j <= k then k else j]);
    } else if i == j {
      StrictIsUnique(merged, log[..k]);
    } else {
      GapIsNoPrefix(log, k, i, j, merged);
    }
  }

  lemma {:induction false} GapIsNoPrefix(log: seq<Message>, k: nat, i: nat, j: nat, merged: seq<Message>)
    requires IsStrict(log) && k < i < j <= |log|
    requires forall m :: m in merged <==> m in log[..k] || m in log[i..j]
    ensures !(merged <= log)
  {
    assert log[i..j][0] == log[i];
    assert log[i] in merged;
    var n :| 0 <= n < |merged| && merged[n] == log[i];
    assert log[k] !in merged;
    assert k < |merged| ==> merged[k] in merged;
  }

  lemma {:induction false} SectionIsUnseen(log: seq<Message>, k: nat, i: nat, j: nat)
    requires IsStrict(log) && k <= |log| && i <= j <= |log|
    ensures forall m :: m in log[i..j] && HasSeq(log[..k], m.seqNo) ==> m in log[..k]
  {
    forall m | m in log[i..j] && HasSeq(log[..k], m.seqNo) ensures m in log[..k] {
      var a :| 0 <= a < |log[i..j]| && log[i..j][a] == m;
      var b :| 0 <= b < |log[..k]| && log[..k][b].seqNo == m.seqNo;
      assert log[i + a] == m && log[b].seqNo == m.seqNo;
      assert i + a == b;
    }
  }

  // ----- One conversation between client and server -----

  /** A load asked for, a load answered, or a message the server has taken and answered. */
  datatype Flight = Asked(afterSeq: nat) | Loaded(afterSeq: nat, batch: seq<Message>) | Sent(message: Message)

  datatype World = World(log: seq<Message>, thread: Option<seq<Message>>, flights: map<nat, Flight>, nextId: nat)

  datatype Step =
    | Append(message: Message)   // somebody else writes
    | Write(message: Message)    // the client's message reaches the server
    | Request
    | Answer(id: nat, count: nat)
    | Finish(id: nat)
    | Lose(id: nat)
    | Reset

  function Thread(w: World): seq<Message> {
    if w.thread.Some? then w.thread.value else []
  }

  predicate CanStep(w: World, step: Step) {
    match step
    case Append(m) => m.seqNo > LastSeq(w.log)
    case Write(m) => m.seqNo > LastSeq(w.log)
    case Answer(id, count) => id in w.flights && w.flights[id].Asked? && count <= |Newer(w.log, w.flights[id].afterSeq)|
    case Finish(id) => id in w.flights && !w.flights[id].Asked?
    case Lose(id) => id in w.flights
    case _ => true
  }

  function Finished(w: World, id: nat): World
    requires id in w.flights && !w.flights[id].Asked?
  {
    match w.flights[id]
    case Loaded(_, batch) => w.(thread := Some(Merge(Thread(w), batch)), flights := w.flights - {id})
    case Sent(m) =>
      if w.thread.None? then w.(flights := w.flights[id := Asked(LastSeq(Thread(w)))])
      else w.(thread := Some(Merge(Thread(w), [m])), flights := w.flights - {id})
  }

  function Next(w: World, step: Step): World
    requires CanStep(w, step)
  {
    match step
    case Append(m) => w.(log := w.log + [m])
    case Write(m) => w.(log := w.log + [m], flights := w.flights[w.nextId := Sent(m)], nextId := w.nextId + 1)
    case Request => w.(flights := w.flights[w.nextId := Asked(LastSeq(Thread(w)))], nextId := w.nextId + 1)
    case Answer(id, count) =>
      var afterSeq := w.flights[id].afterSeq;
      w.(flights := w.flights[id := Loaded(afterSeq, Newer(w.log, afterSeq)[..count])])
    case Finish(id) => Finished(w, id)
    case Lose(id) => w.(flights := w.flights - {id})
    case Reset => w.(thread := None)
  }

  ghost predicate IsKnown(log: seq<Message>, seqNo: nat) {
    seqNo == 0 || HasSeq(log, seqNo)
  }

  ghost predicate IsFlightOf(log: seq<Message>, flight: Flight) {
    match flight
    case Asked(afterSeq) => IsKnown(log, afterSeq)
    case Loaded(afterSeq, batch) => IsKnown(log, afterSeq) && batch <= Newer(log, afterSeq)
    case Sent(m) => m in log
  }

  /** The thread is a prefix of the server's log: nothing is missing before its last message. */
  ghost predicate IsWhole(w: World) {
    && IsLog(w.log)
    && (forall id :: id in w.flights ==> IsFlightOf(w.log, w.flights[id]))
    && Thread(w) <= w.log
  }

  /** What to check before a finished request is merged: no message lies between what is loaded and what arrived. */
  ghost predicate Fits(w: World, flight: Flight) {
    match flight
    case Asked(_) => true
    case Loaded(afterSeq, batch) => batch == [] || afterSeq <= LastSeq(Thread(w))
    case Sent(m) => w.thread.Some? ==> forall k :: 0 <= k < |w.log| && w.log[k].seqNo < m.seqNo ==> w.log[k].seqNo <= LastSeq(Thread(w))
  }

  lemma {:induction false} PositionOfKnown(log: seq<Message>, k: nat, afterSeq: nat)
    requires IsLog(log) && k <= |log| && IsKnown(log, afterSeq)
    ensures CountUpTo(log, afterSeq) <= k <==> afterSeq <= LastSeq(log[..k])
  {
    CountUpToCuts(log, afterSeq);
    assert log != [] ==> log[0].seqNo > 0;
    if afterSeq > 0 {
      var n :| 0 <= n < |log| && log[n].seqNo == afterSeq;
      assert n < CountUpTo(log, afterSeq);
      assert n + 1 < |log| ==> log[n].seqNo < log[n + 1].seqNo;
      assert CountUpTo(log, afterSeq) == n + 1;
    }
  }

  lemma {:induction false} MergeLoaded(log: seq<Message>, k: nat, afterSeq: nat, batch: seq<Message>)
    requires IsLog(log) && k <= |log| && IsKnown(log, afterSeq) && batch <= Newer(log, afterSeq)
    ensures Merge(log[..k], batch) <= log <==> batch == [] || afterSeq <= LastSeq(log[..k])
    ensures CountUpTo(log, afterSeq) + |batch| <= |log|
    ensures afterSeq <= LastSeq(log[..k]) ==>
              var end := CountUpTo(log, afterSeq) + |batch|;
              Merge(log[..k], batch) == log[..if end <= k then k else end]
    ensures Merge(log[..k], batch) <= log ==> log[..k] <= Merge(log[..k], batch)
  {
    NewerIsSuffix(log, afterSeq);
    PositionOfKnown(log, k, afterSeq);
    var i := CountUpTo(log, afterSeq);
    assert batch == log[i..i + |batch|];
    MergeSection(log, k, i, i + |batch|);
  }

  lemma {:induction false} MergeSent(log: seq<Message>, k: nat, m: Message)
    requires IsLog(log) && k <= |log| && m in log
    ensures Merge(log[..k], [m]) <= log <==> forall n :: 0 <= n < |log| && log[n].seqNo < m.seqNo ==> log[n].seqNo <= LastSeq(log[..k])
    ensures Merge(log[..k], [m]) <= log ==> log[..k] <= Merge(log[..k], [m])
  {
    var i :| 0 <= i < |log| && log[i] == m;
    assert [m] == log[i..i + 1];
    MergeSection(log, k, i, i + 1);
    if i > k {
      assert log[k].seqNo < m.seqNo;
      assert k > 0 ==> log[k].seqNo > log[k - 1].seqNo;
    } else {
      forall n | 0 <= n < |log| && log[n].seqNo < m.seqNo ensures log[n].seqNo <= LastSeq(log[..k]) {
        assert n < i;
        assert log[..k][|log[..k]| - 1] == log[k - 1];
      }
    }
  }

  lemma {:induction false} FlightOutlivesAppend(log: seq<Message>, m: Message, flight: Flight)
    requires IsFlightOf(log, flight)
    ensures IsFlightOf(log + [m], flight)
  {
    if !flight.Sent? {
      if HasSeq(log, flight.afterSeq) {
        var k :| 0 <= k < |log| && log[k].seqNo == flight.afterSeq;
        assert (log + [m])[k].seqNo == flight.afterSeq;
      }
      NewerOfAppended(log, m, flight.afterSeq);
    }
  }

  lemma {:induction false} NewerOfAppended(log: seq<Message>, m: Message, afterSeq: nat)
    ensures Newer(log + [m], afterSeq) == Newer(log, afterSeq) + if m.seqNo > afterSeq then [m] else []
  {
    if log == [] {
      assert [] + [m] == [m];
    } else {
      NewerOfAppended(log[1..], m, afterSeq);
      assert (log + [m])[1..] == log[1..] + [m];
    }
  }

  lemma {:induction false} AppendStaysWhole(w: World, m: Message)
    requires IsWhole(w) && m.seqNo > LastSeq(w.log)
    ensures IsWhole(w.(log := w.log + [m]))
  {
    forall id | id in w.flights ensures IsFlightOf(w.log + [m], w.flights[id]) {
      FlightOutlivesAppend(w.log, m, w.flights[id]);
    }
  }

  lemma {:induction false} LastIsKnown(log: seq<Message>, thread: seq<Message>)
    requires thread <= log
    ensures IsKnown(log, LastSeq(thread))
  {
    if thread != [] {
      assert log[|thread| - 1].seqNo == LastSeq(thread);
    }
  }

  /** Finishing a request leaves the thread whole exactly when what arrived fits. */
  lemma {:induction false} FinishStaysWholeIff(w: World, id: nat)
    requires IsWhole(w) && CanStep(w, Finish(id))
    ensures IsWhole(Finished(w, id)) <==> Fits(w, w.flights[id])
    ensures Fits(w, w.flights[id]) ==> Thread(w) <= Thread(Finished(w, id))
  {
    var k := |Thread(w)|;
    var flight, w' := w.flights[id], Finished(w, id);
    assert Thread(w) == w.log[..k];
    assert IsFlightOf(w.log, flight);
    LastIsKnown(w.log, Thread(w));
    assert IsWhole(w') <==> Thread(w') <= w.log by {
      hide Merge, Newer;
    }
    match flight
    case Loaded(afterSeq, batch) => MergeLoaded(w.log, k, afterSeq, batch);
    case Sent(m) => MergeSent(w.log, k, m);
  }

  lemma {:induction false} StepStaysWhole(w: World, step: Step)
    requires IsWhole(w) && CanStep(w, step)
    requires step.Finish? ==> Fits(w, w.flights[step.id])
    ensures IsWhole(Next(w, step))
  {
    match step
    case Append(m) => AppendStaysWhole(w, m);
    case Write(m) =>
      AppendStaysWhole(w, m);
      assert m == (w.log + [m])[|w.log|];
    case Request => LastIsKnown(w.log, Thread(w));
    case Finish(id) => FinishStaysWholeIff(w, id);
    case _ =>
  }

  // ----- Runs -----

  /** A step a careful client takes: what its sends bring fits, and it signs out only while no load waits to continue a thread. */
  ghost predicate IsCareful(w: World, step: Step)
    requires CanStep(w, step)
  {
    match step
    case Finish(id) => w.flights[id].Sent? ==> Fits(w, w.flights[id])
    case Reset => forall id :: id in w.flights && !w.flights[id].Sent? ==> w.flights[id].afterSeq == 0
    case _ => true
  }

  ghost predicate CanTake(w: World, steps: seq<Step>)
    decreases |steps|
  {
    steps == [] || (CanStep(w, steps[0]) && CanTake(Next(w, steps[0]), steps[1..]))
  }

  ghost function After(w: World, steps: seq<Step>): World
    requires CanTake(w, steps)
    decreases |steps|
  {
    if steps == [] then w else After(Next(w, steps[0]), steps[1..])
  }

  lemma {:induction false} TakeFirst(w: World, step: Step, rest: seq<Step>)
    requires CanStep(w, step) && CanTake(Next(w, step), rest)
    ensures CanTake(w, [step] + rest)
    ensures After(w, [step] + rest) == After(Next(w, step), rest)
  {
    assert ([step] + rest)[1..] == rest;
  }

  ghost predicate AreCareful(w: World, steps: seq<Step>)
    requires CanTake(w, steps)
    decreases |steps|
  {
    steps == [] || (IsCareful(w, steps[0]) && AreCareful(Next(w, steps[0]), steps[1..]))
  }

  /** No load under way asked for messages past the end of the thread. */
  ghost predicate IsCurrent(w: World) {
    forall id :: id in w.flights && !w.flights[id].Sent? ==> w.flights[id].afterSeq <= LastSeq(Thread(w))
  }

  lemma {:induction false} LastOfPrefix(log: seq<Message>, shorter: seq<Message>, longer: seq<Message>)
    requires IsStrict(log) && shorter <= log && longer <= log && |shorter| <= |longer|
    ensures LastSeq(shorter) <= LastSeq(longer)
  {
    if shorter != [] {
      assert LastSeq(shorter) == log[|shorter| - 1].seqNo && LastSeq(longer) == log[|longer| - 1].seqNo;
    }
  }

  /** A load or a send asks past the last message loaded; a message sent on a thread not loaded has the whole thread loaded. */
  lemma {:induction false} RequestsAskPastTheEnd(w: World, id: nat)
    ensures Next(w, Request).flights[w.nextId] == Asked(LastSeq(Thread(w)))
    ensures id in w.flights && w.flights[id].Sent? && w.thread.None? ==>
              var sent := Next(w, Finish(id)); sent.thread.None? && id in sent.flights && sent.flights[id] == Asked(0)
    ensures id in w.flights && w.flights[id].Sent? && w.thread.Some? && !HasSeq(w.thread.value, w.flights[id].message.seqNo) ==>
              var sent := Next(w, Finish(id)); id !in sent.flights && sent.thread.Some? && w.flights[id].message in sent.thread.value
  {
    if id in w.flights && w.flights[id].Sent? && w.thread.Some? {
      MergeAddsTheUnseen(w.thread.value, [w.flights[id].message]);
      hide Merge;
    }
  }

  /** A merge never moves the end of a whole thread back. */
  lemma {:induction false} FinishKeepsTheEnd(w: World, id: nat)
    requires IsWhole(w) && CanStep(w, Finish(id)) && Fits(w, w.flights[id])
    ensures LastSeq(Thread(w)) <= LastSeq(Thread(Finished(w, id)))
  {
    FinishStaysWholeIff(w, id);
    LastOfPrefix(w.log, Thread(w), Thread(Finished(w, id)));
  }

  lemma {:induction false} CarefulStep(w: World, step: Step)
    requires IsWhole(w) && IsCurrent(w) && CanStep(w, step) && IsCareful(w, step)
    ensures IsWhole(Next(w, step)) && IsCurrent(Next(w, step))
  {
    StepStaysWhole(w, step);
    hide Merge, Newer, IsWhole, Fits;
    if step.Finish? {
      FinishKeepsTheEnd(w, step.id);
    }
  }

  /** Over every careful run, whatever the server appends and however requests overlap, the thread is gap-free. */
  lemma {:induction false} CarefulRunsStayWhole(w: World, steps: seq<Step>)
    requires IsWhole(w) && IsCurrent(w) && CanTake(w, steps) && AreCareful(w, steps)
    ensures IsWhole(After(w, steps)) && IsCurrent(After(w, steps))
    decreases |steps|
  {
    if steps != [] {
      CarefulStep(w, steps[0]);
      CarefulRunsStayWhole(Next(w, steps[0]), steps[1..]);
    }
  }

  /** A load that fits brings the thread at least up to the end of its answer. */
  lemma {:induction false} LoadCatchesUp(w: World, id: nat)
    requires IsWhole(w) && IsCurrent(w) && id in w.flights && w.flights[id].Loaded?
    ensures var end := CountUpTo(w.log, w.flights[id].afterSeq) + |w.flights[id].batch|;
            end <= |w.log| && w.log[..end] <= Thread(Finished(w, id)) <= w.log
  {
    MergeLoaded(w.log, |Thread(w)|, w.flights[id].afterSeq, w.flights[id].batch);
    assert Thread(w) == w.log[..|Thread(w)|];
  }

  // ----- When care is not taken -----

  /** A message older than the thread's last one is not in it, and no request under way can bring it. */
  ghost predicate IsMissed(w: World, m: Message) {
    && IsLog(w.log) && m in w.log
    && m !in Thread(w) && m.seqNo < LastSeq(Thread(w))
    && IsSorted(Thread(w))
    && (forall id :: id in w.flights ==> !CanBring(w.flights[id], m))
  }

  ghost predicate CanBring(flight: Flight, m: Message) {
    match flight
    case Asked(afterSeq) => afterSeq < m.seqNo
    case Loaded(_, batch) => m in batch
    case Sent(message) => message == m
  }

  lemma {:induction false} NewerIsNewer(log: seq<Message>, afterSeq: nat)
    ensures forall m :: m in Newer(log, afterSeq) ==> m.seqNo > afterSeq
  {
    if log != [] {
      NewerIsNewer(log[1..], afterSeq);
    }
  }

  lemma {:induction false} MissedByMerge(thread: seq<Message>, batch: seq<Message>, m: Message)
    requires IsSorted(thread) && m !in thread && m !in batch && m.seqNo < LastSeq(thread)
    ensures var merged := Merge(thread, batch); IsSorted(merged) && m !in merged && m.seqNo < LastSeq(merged)
  {
    MergeAddsTheUnseen(thread, batch);
    var merged := Merge(thread, batch);
    assert thread[|thread| - 1] in merged;
  }

  lemma {:induction false} MissedStays(w: World, step: Step, m: Message)
    requires IsMissed(w, m) && CanStep(w, step) && !step.Reset?
    ensures IsMissed(Next(w, step), m)
  {
    var i :| 0 <= i < |w.log| && w.log[i] == m;
    assert m.seqNo <= LastSeq(w.log);
    match step
    case Answer(id, count) =>
      assert !CanBring(w.flights[id], m);
      NewerIsNewer(w.log, w.flights[id].afterSeq);
    case Finish(id) =>
      assert !CanBring(w.flights[id], m);
      MissedByMerge(Thread(w), if w.flights[id].Loaded? then w.flights[id].batch else [w.flights[id].message], m);
    case _ =>
  }

  /** A gap is never filled while the user stays signed in: later loads ask only past the thread's end. */
  lemma {:induction false} GapsPersist(w: World, steps: seq<Step>, m: Message)
    requires IsMissed(w, m) && CanTake(w, steps)
    requires forall k :: 0 <= k < |steps| ==> !steps[k].Reset?
    ensures m in After(w, steps).log && m !in Thread(After(w, steps))
    decreases |steps|
  {
    if steps != [] {
      MissedStays(w, steps[0], m);
      GapsPersist(Next(w, steps[0]), steps[1..], m);
    }
  }

  lemma {:induction false} SentPastReply(w: World, reply: Message, own: Message)
    requires IsWhole(w) && |w.log| > 2 && w.log == w.log[..|w.log| - 2] + [reply, own]
    requires w.thread == Some(w.log[..|w.log| - 2])
    ensures var merged := Merge(Thread(w), [own]);
            reply !in merged && reply.seqNo < LastSeq(merged) && IsSorted(merged)
  {
    var merged, n := Merge(Thread(w), [own]), |w.log| - 2;
    MergeAddsTheUnseen(Thread(w), [own]);
    assert w.log[n] == reply && w.log[n + 1] == own;
    assert !HasSeq(Thread(w), own.seqNo);
    assert own in [own];
    assert own in merged;
    assert reply !in Thread(w);
  }

  /** A loaded thread, a reply, then a message of one's own: the reply is skipped, and stays so. */
  lemma {:induction false} SendSkipsReply(w: World, reply: Message, own: Message)
    requires IsWhole(w) && w.thread == Some(w.log) && w.log != [] && w.flights == map[]
    requires LastSeq(w.log) < reply.seqNo < own.seqNo
    ensures var steps := [Append(reply), Write(own), Finish(w.nextId)];
            CanTake(w, steps) && IsMissed(After(w, steps), reply)
  {
    hide Merge;
    var w1 := Next(w, Append(reply));
    assert LastSeq(w1.log) == reply.seqNo;
    var w2 := Next(w1, Write(own));
    var w3 := Next(w2, Finish(w.nextId));
    assert CanTake(w3, []) && After(w3, []) == w3;
    TakeFirst(w2, Finish(w.nextId), []);
    TakeFirst(w1, Write(own), [Finish(w.nextId)]);
    TakeFirst(w, Append(reply), [Write(own), Finish(w.nextId)]);
    assert IsMissed(w3, reply) by {
      hide CanTake, After;
      StepStaysWhole(w, Append(reply));
      StepStaysWhole(w1, Write(own));
      assert w2.log[..|w2.log| - 2] == w.log;
      assert w3.log == w2.log && w2.log[|w.log|] == reply;
      SentPastReply(w2, reply, own);
    }
  }

  /** Signing out while a load continues a thread: its answer starts the new thread in the middle. */
  lemma {:induction false} ResetStartsMidThread(w: World, id: nat)
    requires IsWhole(w) && id in w.flights && w.flights[id].Loaded? && w.flights[id].batch != [] && w.flights[id].afterSeq > 0
    ensures CanTake(w, [Reset, Finish(id)]) && !IsWhole(After(w, [Reset, Finish(id)]))
  {
    var w1 := Next(w, Reset);
    var w2 := Next(w1, Finish(id));
    assert CanTake(w2, []) && After(w2, []) == w2;
    TakeFirst(w1, Finish(id), []);
    TakeFirst(w, Reset, [Finish(id)]);
    hide CanTake, After;
    StepStaysWhole(w, Reset);
    FinishStaysWholeIff(w1, id);
  }

  // ----- The client -----

  datatype Conversation = Conversation(id: string, preview: string, hasUnread: bool)
  datatype Status = Idle | Loading | Ready | SignedOut | Error

  /** A call's end: nobody is signed in, it failed, or it was answered. */
  datatype Reply<T> = NoSession | Failed | Answered(value: T)

  function CountUnread(conversations: seq<Conversation>): nat {
    if conversations == [] then 0 else (if conversations[0].hasUnread then 1 else 0) + CountUnread(conversations[1..])
  }

  /** `conversations.map(…)` of `markRead`. */
  function Marked(conversations: seq<Conversation>, id: string): seq<Conversation> {
    if conversations == [] then []
    else [if conversations[0].id == id then conversations[0].(hasUnread := false) else conversations[0]] + Marked(conversations[1..], id)
  }

  /** `conversations.filter(…).length` of `markRead`. */
  function CountUnreadElsewhere(conversations: seq<Conversation>, id: string): nat {
    if conversations == [] then 0
    else (if conversations[0].hasUnread && conversations[0].id != id then 1 else 0) + CountUnreadElsewhere(conversations[1..], id)
  }

  /** Marking leaves every conversation as it is, but that the marked one has nothing unread. */
  lemma {:induction false} MarkedAt(conversations: seq<Conversation>, id: string)
    ensures |Marked(conversations, id)| == |conversations|
    ensures forall k :: 0 <= k < |conversations| ==>
      Marked(conversations, id)[k] == if conversations[k].id == id then conversations[k].(hasUnread := false) else conversations[k]
  {
    if conversations != [] {
      MarkedAt(conversations[1..], id);
    }
  }

  /** The positions, from `first` on, of conversations with something unread. */
  ghost function UnreadPositions(conversations: seq<Conversation>, first: nat): set<nat> {
    set k | first <= k < |conversations| && conversations[k].hasUnread
  }

  /** The count is the number of conversations with something unread. */
  lemma {:induction false} CountsUnread(conversations: seq<Conversation>, first: nat)
    requires first <= |conversations|
    ensures CountUnread(conversations[first..]) == |UnreadPositions(conversations, first)|
    decreases |conversations| - first
  {
    if first < |conversations| {
      CountsUnread(conversations, first + 1);
      var rest := UnreadPositions(conversations, first + 1);
      assert conversations[first..][1..] == conversations[first + 1..];
      assert UnreadPositions(conversations, first) == rest + if conversations[first].hasUnread then {first} else {};
    } else {
      assert UnreadPositions(conversations, first) == {};
    }
  }

  lemma {:induction false} MarkedIsCounted(conversations: seq<Conversation>, id: string)
    ensures CountUnread(Marked(conversations, id)) == CountUnreadElsewhere(conversations, id)
  {
    if conversations != [] {
      MarkedIsCounted(conversations[1..], id);
    }
  }

  class MessengerClient {
    var status: Status
    var conversations: seq<Conversation>
    var unreadCount: nat
    var threads: map<string, seq<Message>>

    ghost predicate Valid()
      reads this
    {
      unreadCount == CountUnread(conversations)
    }

    ghost function ThreadOf(id: string): Option<seq<Message>>
      reads this
    {
      if id in threads then Some(threads[id]) else None
    }

    constructor ()
      ensures Valid() && status == Idle && conversations == [] && threads == map[]
    {
      status, conversations, unreadCount, threads := Idle, [], 0, map[];
    }

    /** `refresh` up to its call. */
    method BeginRefresh()
      requires Valid()
      modifies `status
      ensures Valid() && status == if old(status) == Idle then Loading else old(status)
    {
      if status == Idle {
        status := Loading;
      }
    }

    /** `refresh` from its answer on: without a session nothing changes, and a failure keeps what was loaded. */
    method FinishRefresh(reply: Reply<seq<Conversation>>)
      requires Valid()
      modifies `status, `conversations, `unreadCount
      ensures Valid()
      ensures conversations == if reply.Answered? then reply.value else old(conversations)
      ensures status == if reply.NoSession? then old(status) else if reply.Failed? then Error else Ready
    {
      match reply
      case NoSession =>
      case Failed => status := Error;
      case Answered(answer) => status, conversations, unreadCount := Ready, answer, CountUnread(answer);
    }

    /** The `afterSeq` a load asks with. */
    method BeginLoad(id: string) returns (flight: Flight)
      ensures flight == Asked(LastSeq(if ThreadOf(id).Some? then ThreadOf(id).value else []))
    {
      var thread := if id in threads then threads[id] else [];
      return Asked(if |thread| > 0 then thread[|thread| - 1].seqNo else 0);
    }

    method MergeThread(id: string, messages: seq<Message>) returns (merged: seq<Message>)
      requires Valid()
      modifies `threads
      ensures Valid() && merged == Merge(if old(ThreadOf(id)).Some? then old(ThreadOf(id)).value else [], messages)
      ensures threads == old(threads)[id := merged]
    {
      var existing := if id in threads then threads[id] else [];
      merged := SortBySeq(existing + Unseen(existing, messages));
      threads := threads[id := merged];
    }

    /** A request's end, in the thread it was for: the step of one conversation, leaving every other thread alone. */
    method FinishRequest(id: string, ghost w: World, ghost number: nat, flight: Flight) returns (again: Option<Flight>)
      requires Valid() && !flight.Asked?
      requires w.thread == ThreadOf(id) && number in w.flights && w.flights[number] == flight
      modifies `threads
      ensures Valid() && ThreadOf(id) == Finished(w, number).thread
      ensures threads - {id} == old(threads) - {id}
      ensures again.Some? <==> number in Finished(w, number).flights
      ensures again.Some? ==> again.value == Finished(w, number).flights[number] == Asked(0)
    {
      again := None;
      match flight
      case Loaded(_, batch) =>
        var _ := MergeThread(id, batch);
      case Sent(m) =>
        if id in threads {
          var _ := MergeThread(id, [m]);
        } else {
          var load := BeginLoad(id);
          again := Some(load);
        }
    }

    /** `markRead` up to its call: the number read up to, or None when the thread is not loaded or empty. */
    method BeginMarkRead(id: string) returns (upTo: Option<nat>)
      ensures upTo.Some? <==> ThreadOf(id).Some? && ThreadOf(id).value != []
      ensures upTo.Some? ==> upTo.value == LastSeq(ThreadOf(id).value)
    {
      if id in threads && |threads[id]| > 0 {
        return Some(threads[id][|threads[id]| - 1].seqNo);
      }
      return None;
    }

    /** `markRead` after its call. */
    method FinishMarkRead(id: string)
      requires Valid()
      modifies `conversations, `unreadCount
      ensures Valid() && conversations == Marked(old(conversations), id)
    {
      MarkedIsCounted(conversations, id);
      conversations, unreadCount := Marked(conversations, id), CountUnreadElsewhere(conversations, id);
    }

    /** Signing out, switching accounts or erasing one's data: back to the initial state. */
    method Reset(status: Status)
      requires Valid()
      modifies this
      ensures Valid() && this.status == status && conversations == [] && threads == map[]
    {
      this.status, conversations, unreadCount, threads := status, [], 0, map[];
    }
  }
}
