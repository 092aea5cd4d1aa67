/**
 The bounded retry queue in front of a receipt sink (provenex/export/streaming.py): nothing is
 lost, reordered or sent twice except by a drop from a full queue, and every drop is announced.
 */
module RetryQueue {
  import opened Basics

  /** What can be observed of a sink, in order: receipts that leave it, and the three warnings it gives:
      that the queue is full, that a receipt could not be sent and was queued, and that the sink was
      closed with receipts pending. The last two carry the number pending. */
  datatype Event<T> =
    | Delivered(receipt: T)
    | Dropped(receipt: T)
    | FullWarned
    | FailedWarned(pending: nat)
    | ClosedWarned(pending: nat)

  datatype Log<T> = Empty | Then(before: Log<T>, event: Event<T>)

  /** The sink's state. A bound of None is an unbounded deque; `calls` counts the publishes tried on
      the downstream sink, and `log` is what has been observed so far. */
  datatype Sink<T> = Sink(maxlen: Option<nat>, queue: seq<T>, warnedFull: bool, closed: bool, calls: nat, log: Log<T>)

  /** Whether the k-th publish on the downstream sink succeeds; one that raises delivers nothing. */
  type Schedule = nat -> bool

  datatype Op<T> = Publish(receipt: T) | LatePublish(receipt: T) | Close

  predicate Full(maxlen: Option<nat>, pending: nat) {
    maxlen.Some? && pending >= maxlen.value
  }

  // ---------------------------------------------------------------- the steps

  /** `_enqueue`: one warning on the way into the full state, then append, dropping the oldest. */
  function Enqueued<T>(s: Sink<T>, x: T): Sink<T> {
    var w := if !s.warnedFull && Full(s.maxlen, |s.queue|)
             then s.(warnedFull := true, log := Then(s.log, FullWarned)) else s;
    var all := s.queue + [x];
    if Full(s.maxlen, |s.queue|)
    then w.(queue := all[1..], log := Then(w.log, Dropped(all[0])))
    else w.(queue := all)
  }

  /** `maxlen or 1` */
  function Floor(maxlen: Option<nat>): nat {
    if maxlen.Some? && maxlen.value > 0 then maxlen.value else 1
  }

  /** The head of the queue was delivered; `publish` then re-arms the warning, `close` does not. */
  function PopHead<T>(s: Sink<T>, rearm: bool): Sink<T>
    requires s.queue != []
  {
    var rest := s.queue[1..];
    s.(queue := rest,
       calls := s.calls + 1,
       log := Then(s.log, Delivered(s.queue[0])),
       warnedFull := s.warnedFull && !(rearm && |rest| < Floor(s.maxlen)))
  }

  /** Sends pending receipts in order until the queue is empty or a call fails. */
  function Drain<T>(s: Sink<T>, up: Schedule, rearm: bool): Sink<T>
    decreases |s.queue|
  {
    if s.queue == [] then s
    else if up(s.calls) then Drain(PopHead(s, rearm), up, rearm)
    else s.(calls := s.calls + 1)
  }

  function Note<T>(s: Sink<T>, e: Event<T>): Sink<T> {
    s.(log := Then(s.log, e))
  }

  /** The receipt's own call failed: it is queued, and a warning says so. */
  function Failed<T>(s: Sink<T>, x: T): Sink<T> {
    var e := Enqueued(s.(calls := s.calls + 1), x);
    Note(e, FailedWarned(|e.queue|))
  }

  /** The locked part of `publish`. */
  function Send<T>(s: Sink<T>, up: Schedule, x: T): Sink<T> {
    var d := Drain(s, up, true);
    if d.queue != [] then Enqueued(d, x)
    else if up(d.calls) then d.(calls := d.calls + 1, log := Then(d.log, Delivered(x)))
    else Failed(d, x)
  }

  /** `close`: a last drain, and a warning when something is left. */
  function Closed<T>(s: Sink<T>, up: Schedule): Sink<T> {
    var d := Drain(s.(closed := true), up, false);
    if d.queue == [] then d else Note(d, ClosedWarned(|d.queue|))
  }

  /** One call. A late publish looked at the closed flag before a concurrent `close` set it, and
      takes the lock after. */
  function Step<T>(s: Sink<T>, up: Schedule, op: Op<T>): Sink<T> {
    match op
    case Publish(x) => if s.closed then s else Send(s, up, x)
    case LatePublish(x) => Send(s, up, x)
    case Close => Closed(s, up)
  }

  function Run<T>(s: Sink<T>, up: Schedule, ops: seq<Op<T>>): Sink<T> {
    if ops == [] then s else Step(Run(s, up, ops[..|ops| - 1]), up, ops[|ops| - 1])
  }

  function New<T>(maxlen: Option<nat>): Sink<T> {
    Sink(maxlen, [], false, false, 0, Empty)
  }

  /** The receipts of the publishes that did not raise, in the order in which they took the lock. */
  ghost function Accepted<T>(ops: seq<Op<T>>): seq<T> {
    if ops == [] then []
    else
      var before := ops[..|ops| - 1];
      Accepted(before) + Arrival(Close in before, ops[|ops| - 1])
  }

  function Arrival<T>(closed: bool, op: Op<T>): seq<T> {
    match op
    case Publish(x) => if closed then [] else [x]
    case LatePublish(x) => [x]
    case Close => []
  }

  // ---------------------------------------------------------------- what the log says

  function Deliveries<T>(log: Log<T>): seq<T> {
    match log
    case Empty => []
    case Then(before, Delivered(x)) => Deliveries(before) + [x]
    case Then(before, _) => Deliveries(before)
  }

  function Drops<T>(log: Log<T>): seq<T> {
    match log
    case Empty => []
    case Then(before, Dropped(x)) => Drops(before) + [x]
    case Then(before, _) => Drops(before)
  }

  /** A full-queue warning has been given since the last delivery. */
  predicate Warning<T>(log: Log<T>) {
    match log
    case Empty => false
    case Then(_, Delivered(_)) => false
    case Then(_, FullWarned) => true
    case Then(before, _) => Warning(before)
  }

  /** Every drop was announced by a full-queue warning since the last delivery, and by one only. */
  predicate EdgeTriggered<T>(log: Log<T>) {
    match log
    case Empty => true
    case Then(before, Dropped(_)) => EdgeTriggered(before) && Warning(before)
    case Then(before, FullWarned) => EdgeTriggered(before) && !Warning(before)
    case Then(before, _) => EdgeTriggered(before)
  }

  // ---------------------------------------------------------------- subsequences

  /** `kept` picks the elements of `a` out of `b`, left to right and each at most once. */
  ghost predicate Picks<T>(kept: seq<nat>, a: seq<T>, b: seq<T>) {
    && |kept| == |a|
    && (forall i :: 0 <= i < |a| ==> kept[i] < |b| && b[kept[i]] == a[i])
    && (forall i, j :: 0 <= i < j < |a| ==> kept[i] < kept[j])
  }

  ghost predicate Subsequence<T>(a: seq<T>, b: seq<T>) {
    exists kept: seq<nat> :: Picks(kept, a, b)
  }

  lemma SubsequenceAppend<T>(a: seq<T>, b: seq<T>, x: T)
    requires Subsequence(a, b)
    ensures Subsequence(a + [x], b + [x])
  {
    var kept: seq<nat> :| Picks(kept, a, b);
    assert Picks(kept + [|b|], a + [x], b + [x]);
  }

  lemma SubsequenceDrop<T>(a: seq<T>, x: T, c: seq<T>, b: seq<T>)
    requires Subsequence(a + [x] + c, b)
    ensures Subsequence(a + c, b)
  {
    var kept: seq<nat> :| Picks(kept, a + [x] + c, b);
    var fewer := kept[..|a|] + kept[|a| + 1..];
    assert forall i :: 0 <= i < |a + c| ==>
      fewer[i] == kept[if i < |a| then i else i + 1] && (a + c)[i] == (a + [x] + c)[if i < |a| then i else i + 1];
    assert Picks(fewer, a + c, b);
  }

  /** The i-th pick is at least i, and at most i when nothing is left out. */
  lemma {:induction false} PickAtLeast<T>(kept: seq<nat>, a: seq<T>, b: seq<T>, i: nat)
    requires Picks(kept, a, b) && i < |a|
    ensures i <= kept[i]
  {
    if i == 0 {
    } else {
      PickAtLeast(kept, a, b, i - 1);
      assert kept[i - 1] < kept[i];
    }
  }

  lemma {:induction false} PickAtMost<T>(kept: seq<nat>, a: seq<T>, b: seq<T>, i: nat)
    requires Picks(kept, a, b) && i < |a| == |b|
    ensures kept[i] <= i
    decreases |a| - i
  {
    if i + 1 < |a| {
      PickAtMost(kept, a, b, i + 1);
      assert kept[i] < kept[i + 1];
    }
  }

  lemma FullSubsequence<T>(a: seq<T>, b: seq<T>)
    requires Subsequence(a, b) && |a| == |b|
    ensures a == b
  {
    var kept: seq<nat> :| Picks(kept, a, b);
    forall i | 0 <= i < |a|
      ensures a[i] == b[i]
    {
      PickAtLeast(kept, a, b, i);
      PickAtMost(kept, a, b, i);
    }
  }

  /** A subsequence of receipts published once each holds each once. */
  lemma NoDuplicates<T>(a: seq<T>, b: seq<T>)
    requires Subsequence(a, b)
    requires forall i, j :: 0 <= i < j < |b| ==> b[i] != b[j]
    ensures forall i, j :: 0 <= i < j < |a| ==> a[i] != a[j]
  {
    var kept: seq<nat> :| Picks(kept, a, b);
  }

  // ---------------------------------------------------------------- conservation

  /** Every published receipt is sent, pending or dropped, exactly once; what was sent or is pending
      is in the order of publication, and so is what was dropped or is pending. */
  ghost predicate Shared<T>(sent: seq<T>, pending: seq<T>, dropped: seq<T>, published: seq<T>) {
    && Subsequence(sent + pending, published)
    && Subsequence(dropped + pending, published)
    && multiset(published) == multiset(sent) + multiset(pending) + multiset(dropped)
  }

  ghost predicate Conserved<T>(s: Sink<T>, published: seq<T>) {
    && Shared(Deliveries(s.log), s.queue, Drops(s.log), published)
    && (s.maxlen.Some? ==> |s.queue| <= s.maxlen.value)
  }

  /** The oldest pending receipt is sent. */
  lemma HeadLeaves<T>(sent: seq<T>, x: T, rest: seq<T>, dropped: seq<T>, published: seq<T>)
    requires Shared(sent, [x] + rest, dropped, published)
    ensures Shared(sent + [x], rest, dropped, published)
  {
    assert sent + ([x] + rest) == sent + [x] + rest;
    assert dropped + ([x] + rest) == dropped + [x] + rest;
    SubsequenceDrop(dropped, x, rest, published);
  }

  lemma SharedSwap<T>(sent: seq<T>, pending: seq<T>, dropped: seq<T>, published: seq<T>)
    requires Shared(sent, pending, dropped, published)
    ensures Shared(dropped, pending, sent, published)
  {
  }

  lemma TailArrives<T>(sent: seq<T>, pending: seq<T>, dropped: seq<T>, published: seq<T>, x: T)
    requires Shared(sent, pending, dropped, published)
    ensures Shared(sent, pending + [x], dropped, published + [x])
  {
    SubsequenceAppend(sent + pending, published, x);
    SubsequenceAppend(dropped + pending, published, x);
    assert sent + pending + [x] == sent + (pending + [x]);
    assert dropped + pending + [x] == dropped + (pending + [x]);
  }

  lemma PopConserves<T>(s: Sink<T>, rearm: bool, published: seq<T>)
    requires Conserved(s, published) && s.queue != []
    ensures Conserved(PopHead(s, rearm), published)
  {
    var x, rest := s.queue[0], s.queue[1..];
    assert s.queue == [x] + rest;
    HeadLeaves(Deliveries(s.log), x, rest, Drops(s.log), published);
  }

  lemma {:induction false} DrainConserves<T>(s: Sink<T>, up: Schedule, rearm: bool, published: seq<T>)
    requires Conserved(s, published)
    ensures Conserved(Drain(s, up, rearm), published)
    decreases |s.queue|
  {
    if s.queue == [] || !up(s.calls) {
    } else {
      PopConserves(s, rearm, published);
      DrainConserves(PopHead(s, rearm), up, rearm, published);
    }
  }

  /** What enqueueing adds to the log. */
  lemma EnqueueLog<T>(s: Sink<T>, x: T)
    ensures var t := Enqueued(s, x);
            && Deliveries(t.log) == Deliveries(s.log)
            && Drops(t.log) == Drops(s.log) + (if Full(s.maxlen, |s.queue|) then [(s.queue + [x])[0]] else [])
  {
  }

  lemma EnqueueConserves<T>(s: Sink<T>, x: T, published: seq<T>)
    requires Conserved(s, published)
    ensures Conserved(Enqueued(s, x), published + [x])
  {
    var sent, dropped, all := Deliveries(s.log), Drops(s.log), s.queue + [x];
    EnqueueLog(s, x);
    TailArrives(sent, s.queue, dropped, published, x);
    if Full(s.maxlen, |s.queue|) {
      var oldest, rest := all[0], all[1..];
      assert all == [oldest] + rest;
      SharedSwap(sent, [oldest] + rest, dropped, published + [x]);
      HeadLeaves(dropped, oldest, rest, sent, published + [x]);
      SharedSwap(dropped + [oldest], rest, sent, published + [x]);
    }
  }

  lemma DirectConserves<T>(s: Sink<T>, x: T, published: seq<T>)
    requires Conserved(s, published) && s.queue == []
    ensures Conserved(s.(calls := s.calls + 1, log := Then(s.log, Delivered(x))), published + [x])
  {
    var sent, dropped := Deliveries(s.log), Drops(s.log);
    TailArrives(sent, [], dropped, published, x);
    assert [] + [x] == [x] + [];
    HeadLeaves(sent, x, [], dropped, published + [x]);
  }

  /** The last two warnings change nothing that is counted. */
  lemma NoteConserves<T>(s: Sink<T>, e: Event<T>, published: seq<T>)
    requires Conserved(s, published) && (e.FailedWarned? || e.ClosedWarned?)
    ensures Conserved(Note(s, e), published)
  {
  }

  lemma FailedConserves<T>(s: Sink<T>, x: T, published: seq<T>)
    requires Conserved(s, published)
    ensures Conserved(Failed(s, x), published + [x])
  {
    var e := Enqueued(s.(calls := s.calls + 1), x);
    EnqueueConserves(s.(calls := s.calls + 1), x, published);
    NoteConserves(e, FailedWarned(|e.queue|), published + [x]);
  }

  lemma ClosedConserves<T>(s: Sink<T>, up: Schedule, published: seq<T>)
    requires Conserved(s, published)
    ensures Conserved(Closed(s, up), published)
  {
    var d := Drain(s.(closed := true), up, false);
    DrainConserves(s.(closed := true), up, false, published);
    NoteConserves(d, ClosedWarned(|d.queue|), published);
  }

  lemma SendConserves<T>(s: Sink<T>, up: Schedule, x: T, published: seq<T>)
    requires Conserved(s, published)
    ensures Conserved(Send(s, up, x), published + [x])
  {
    var d := Drain(s, up, true);
    DrainConserves(s, up, true, published);
    if d.queue != [] {
      EnqueueConserves(d, x, published);
    } else if up(d.calls) {
      DirectConserves(d, x, published);
    } else {
      FailedConserves(d, x, published);
    }
  }

  lemma {:induction false} DrainFrame<T>(s: Sink<T>, up: Schedule, rearm: bool)
    ensures var d := Drain(s, up, rearm); d.maxlen == s.maxlen && d.closed == s.closed
    decreases |s.queue|
  {
    if s.queue == [] || !up(s.calls) {
    } else {
      DrainFrame(PopHead(s, rearm), up, rearm);
    }
  }

  lemma StepFrame<T>(s: Sink<T>, up: Schedule, op: Op<T>)
    ensures var t := Step(s, up, op); t.maxlen == s.maxlen && t.closed == (s.closed || op.Close?)
  {
    DrainFrame(s, up, true);
    DrainFrame(s.(closed := true), up, false);
  }

  lemma {:induction false} ClosedBy<T>(maxlen: Option<nat>, up: Schedule, ops: seq<Op<T>>)
    ensures var s := Run(New(maxlen), up, ops);
            s.maxlen == maxlen && (s.closed <==> Close in ops)
  {
    if ops == [] {
    } else {
      var before, op := ops[..|ops| - 1], ops[|ops| - 1];
      ClosedBy(maxlen, up, before);
      StepFrame(Run(New(maxlen), up, before), up, op);
      assert ops == before + [op];
    }
  }

  lemma StepConserves<T>(s: Sink<T>, up: Schedule, op: Op<T>, published: seq<T>)
    requires Conserved(s, published)
    ensures Conserved(Step(s, up, op), published + Arrival(s.closed, op))
  {
    match op
    case Publish(x) =>
      SendConserves(s, up, x, published);
      assert published + [] == published;
    case LatePublish(x) => SendConserves(s, up, x, published);
    case Close =>
      ClosedConserves(s, up, published);
      assert published + [] == published;
  }

  /** Nothing is lost, duplicated or reordered, over every run and every failure schedule. */
  lemma {:induction false} RunConserves<T>(maxlen: Option<nat>, up: Schedule, ops: seq<Op<T>>)
    ensures Conserved(Run(New(maxlen), up, ops), Accepted(ops))
  {
    if ops == [] {
      var s := New<T>(maxlen);
      assert Picks([], Deliveries(s.log) + s.queue, []) && Picks([], Drops(s.log) + s.queue, []);
    } else {
      var before := ops[..|ops| - 1];
      RunConserves(maxlen, up, before);
      ClosedBy(maxlen, up, before);
      StepConserves(Run(New(maxlen), up, before), up, ops[|ops| - 1], Accepted(before));
    }
  }

  /** Nothing has been dropped exactly while deliveries and queue together are what was published. */
  lemma NoOverflowLosesNothing<T>(maxlen: Option<nat>, up: Schedule, ops: seq<Op<T>>)
    ensures var s := Run(New(maxlen), up, ops);
            Drops(s.log) == [] <==> (Deliveries(s.log) + s.queue == Accepted(ops))
  {
    RunConserves(maxlen, up, ops);
    var s, published := Run(New(maxlen), up, ops), Accepted(ops);
    var kept := Deliveries(s.log) + s.queue;
    assert |published| == |multiset(published)| && |kept| == |Deliveries(s.log)| + |s.queue|;
    assert |published| == |kept| + |Drops(s.log)|;
    if Drops(s.log) == [] {
      FullSubsequence(kept, published);
      assert kept == published;
    } else {
      assert |kept| < |published|;
    }
  }

  // ---------------------------------------------------------------- when receipts are dropped

  lemma {:induction false} DrainDropsNothing<T>(s: Sink<T>, up: Schedule, rearm: bool)
    ensures var d := Drain(s, up, rearm);
            && Drops(d.log) == Drops(s.log)
            && |d.queue| <= |s.queue|
            && (s.queue != [] && up(s.calls) ==> |d.queue| < |s.queue|)
            && (s.queue == [] || !up(s.calls) ==> d.queue == s.queue)
    decreases |s.queue|
  {
    if s.queue == [] || !up(s.calls) {
    } else {
      DrainDropsNothing(PopHead(s, rearm), up, rearm);
    }
  }

  /** A publish loses a receipt exactly when the queue is full and its first call downstream fails:
      the oldest one, or the new one where nothing may be kept. */
  lemma DropsExactlyWhen<T>(s: Sink<T>, up: Schedule, x: T)
    requires s.maxlen.Some? ==> |s.queue| <= s.maxlen.value
    ensures Drops(Send(s, up, x).log) == Drops(s.log) +
              (if Full(s.maxlen, |s.queue|) && !up(s.calls) then [(s.queue + [x])[0]] else [])
  {
    var d := Drain(s, up, true);
    DrainDropsNothing(s, up, true);
    DrainFrame(s, up, true);
    EnqueueLog(d, x);
    EnqueueLog(d.(calls := d.calls + 1), x);
  }

  /** The next `n` calls downstream succeed. */
  ghost predicate Healthy(up: Schedule, from: nat, n: nat) {
    forall k :: from <= k < from + n ==> up(k)
  }

  lemma PopDelivers<T>(s: Sink<T>, rearm: bool)
    requires s.queue != []
    ensures var t := PopHead(s, rearm);
            && Deliveries(t.log) + t.queue == Deliveries(s.log) + s.queue
            && |t.queue| == |s.queue| - 1 && t.calls == s.calls + 1
  {
    assert s.queue == [s.queue[0]] + s.queue[1..];
  }

  lemma {:induction false} HealthyDrain<T>(s: Sink<T>, up: Schedule, rearm: bool)
    requires Healthy(up, s.calls, |s.queue|)
    ensures var d := Drain(s, up, rearm);
            && d.queue == [] && d.calls == s.calls + |s.queue|
            && Deliveries(d.log) == Deliveries(s.log) + s.queue
    decreases |s.queue|
  {
    if s.queue == [] {
    } else {
      PopDelivers(s, rearm);
      HealthyDrain(PopHead(s, rearm), up, rearm);
    }
  }

  /** Once the downstream sink is back, one publish sends everything pending and then its own. */
  lemma RecoversInOnePublish<T>(s: Sink<T>, up: Schedule, x: T)
    requires Healthy(up, s.calls, |s.queue| + 1)
    ensures var d := Send(s, up, x);
            && d.queue == []
            && Deliveries(d.log) == Deliveries(s.log) + s.queue + [x]
            && Drops(d.log) == Drops(s.log)
  {
    assert Healthy(up, s.calls, |s.queue|);
    HealthyDrain(s, up, true);
    DrainDropsNothing(s, up, true);
  }

  // ---------------------------------------------------------------- the warning

  /** Before it is closed: every drop and warning so far was edge-triggered, the flag says that a
      warning has been given since the last delivery, and it is set only on a full queue. */
  ghost predicate Armed<T>(s: Sink<T>) {
    && EdgeTriggered(s.log)
    && (s.warnedFull <==> Warning(s.log))
    && (s.warnedFull ==> Full(s.maxlen, |s.queue|))
    && (s.maxlen.Some? ==> 1 <= s.maxlen.value && |s.queue| <= s.maxlen.value)
  }

  lemma PopArmed<T>(s: Sink<T>)
    requires Armed(s) && s.queue != []
    ensures Armed(PopHead(s, true))
  {
  }

  lemma {:induction false} DrainArmed<T>(s: Sink<T>, up: Schedule)
    requires Armed(s)
    ensures Armed(Drain(s, up, true))
    decreases |s.queue|
  {
    if s.queue == [] || !up(s.calls) {
    } else {
      PopArmed(s);
      DrainArmed(PopHead(s, true), up);
    }
  }

  lemma EnqueueArmed<T>(s: Sink<T>, x: T)
    requires Armed(s)
    ensures Armed(Enqueued(s, x))
  {
  }

  lemma SendArmed<T>(s: Sink<T>, up: Schedule, x: T)
    requires Armed(s)
    ensures Armed(Send(s, up, x))
  {
    var d := Drain(s, up, true);
    DrainArmed(s, up);
    if d.queue != [] {
      EnqueueArmed(d, x);
    } else if !up(d.calls) {
      EnqueueArmed(d.(calls := d.calls + 1), x);
      NoteArmed(Enqueued(d.(calls := d.calls + 1), x), FailedWarned(|Failed(d, x).queue|));
    }
  }

  lemma NoteArmed<T>(s: Sink<T>, e: Event<T>)
    requires Armed(s) && (e.FailedWarned? || e.ClosedWarned?)
    ensures Armed(Note(s, e))
  {
  }

  lemma {:induction false} DrainEdge<T>(s: Sink<T>, up: Schedule, rearm: bool)
    requires EdgeTriggered(s.log)
    ensures EdgeTriggered(Drain(s, up, rearm).log)
    decreases |s.queue|
  {
    if s.queue == [] || !up(s.calls) {
    } else {
      DrainEdge(PopHead(s, rearm), up, rearm);
    }
  }

  /** No publish that overtook a close took the lock after it. */
  ghost predicate NoneLate<T>(ops: seq<Op<T>>) {
    ops != [] ==> NoneLate(ops[..|ops| - 1]) && (ops[|ops| - 1].LatePublish? ==> Close !in ops[..|ops| - 1])
  }

  /** What a run keeps: the announcements, and until it is closed the flag. */
  ghost predicate Announcing<T>(s: Sink<T>) {
    EdgeTriggered(s.log) && (!s.closed ==> Armed(s))
  }

  lemma StepAnnounces<T>(s: Sink<T>, up: Schedule, op: Op<T>)
    requires Announcing(s) && (op.LatePublish? ==> !s.closed)
    ensures Announcing(Step(s, up, op))
  {
    StepFrame(s, up, op);
    if op.Close? {
      DrainEdge(s.(closed := true), up, false);
    } else if !s.closed {
      SendArmed(s, up, op.receipt);
    }
  }

  /** Over whole runs, closing included: every drop has been announced since the last delivery,
      once. */
  lemma {:induction false} RunEdgeTriggered<T>(maxlen: Option<nat>, up: Schedule, ops: seq<Op<T>>)
    requires maxlen != Some(0) && NoneLate(ops)
    ensures Announcing(Run(New(maxlen), up, ops))
    ensures Close !in ops ==> Armed(Run(New(maxlen), up, ops))
    decreases |ops|
  {
    ClosedBy(maxlen, up, ops);
    if ops == [] {
    } else {
      var before := ops[..|ops| - 1];
      RunEdgeTriggered(maxlen, up, before);
      ClosedBy(maxlen, up, before);
      StepAnnounces(Run(New(maxlen), up, before), up, ops[|ops| - 1]);
    }
  }

  lemma UnboundedSend<T>(s: Sink<T>, up: Schedule, x: T)
    requires s.maxlen == None && EdgeTriggered(s.log)
    ensures EdgeTriggered(Send(s, up, x).log)
  {
    DrainEdge(s, up, true);
    DrainFrame(s, up, true);
  }

  /** An unbounded queue is never full: nothing is dropped and no full-queue warning given. */
  lemma {:induction false} UnboundedEdgeTriggered<T>(up: Schedule, ops: seq<Op<T>>)
    ensures EdgeTriggered(Run(New<T>(None), up, ops).log)
  {
    if ops == [] {
    } else {
      var before, op := ops[..|ops| - 1], ops[|ops| - 1];
      var s := Run(New(None), up, before);
      UnboundedEdgeTriggered(up, before);
      ClosedBy(None, up, before);
      if op.Close? {
        DrainEdge(s.(closed := true), up, false);
      } else {
        UnboundedSend(s, up, op.receipt);
      }
    }
  }

  /** Whatever fails downstream and whichever calls are made, late ones aside, every drop is announced. */
  ghost predicate AnnouncesInTime<T(!new)>(maxlen: Option<nat>) {
    forall up: Schedule, ops: seq<Op<T>> :: NoneLate(ops) ==> EdgeTriggered(Run(New(maxlen), up, ops).log)
  }

  /** The same, late publishes included. */
  ghost predicate AlwaysAnnounces<T(!new)>(maxlen: Option<nat>) {
    forall up: Schedule, ops: seq<Op<T>> :: EdgeTriggered(Run(New(maxlen), up, ops).log)
  }

  /** The flag is never set on a queue that is not full. */
  ghost predicate FlagMeansFull<T(!new)>(maxlen: Option<nat>) {
    forall up: Schedule, ops: seq<Op<T>> :: FlagIsFull(Run(New(maxlen), up, ops))
  }

  predicate FlagIsFull<T>(s: Sink<T>) {
    s.warnedFull ==> Full(s.maxlen, |s.queue|)
  }

  /** Only one call downstream succeeds. */
  function OnlyCall(n: nat): Schedule {
    (k: nat) => k == n
  }

  /** A queue that holds nothing never re-arms its warning. */
  lemma SecondOutageUnannounced<T>(x: T)
    ensures !EdgeTriggered(Run(New(Some(0)), OnlyCall(1), [Publish(x), Publish(x), Publish(x)]).log)
    ensures NoneLate([Publish(x), Publish(x), Publish(x)])
  {
    var up: Schedule := OnlyCall(1);
    var one := Step(New(Some(0)), up, Publish(x));
    var two := Step(one, up, Publish(x));
    RunOf3(New(Some(0)), up, Publish(x), Publish(x), Publish(x));
    assert two.log == Then(Then(Then(Then(Empty, FullWarned), Dropped(x)), FailedWarned(0)), Delivered(x));
    assert NoneLate([Publish(x)]) && NoneLate([Publish(x), Publish(x)]);
  }

  /** During an outage a publish makes one call, and only the queue and the flag change. */
  lemma FailingSend<T>(s: Sink<T>, up: Schedule, x: T)
    requires !up(s.calls)
    ensures var t := Send(s, up, x);
            && t.maxlen == s.maxlen && t.closed == s.closed && t.calls == s.calls + 1
            && t.queue == (if Full(s.maxlen, |s.queue|) then (s.queue + [x])[1..] else s.queue + [x])
            && t.warnedFull == (s.warnedFull || Full(s.maxlen, |s.queue|))
  {
  }

  function Outage<T>(x: T, j: nat): seq<Op<T>> {
    if j == 0 then [] else Outage(x, j - 1) + [Publish(x)]
  }

  /** An outage that fills a queue of n and overflows it by one. */
  lemma {:induction false} FillUp<T>(n: nat, up: Schedule, x: T, j: nat)
    requires j <= n + 1 && forall k :: 0 <= k <= n ==> !up(k)
    ensures var s := Run(New(Some(n)), up, Outage(x, j));
            && s.maxlen == Some(n) && !s.closed && s.calls == j
            && |s.queue| == (if j <= n then j else n) && (s.warnedFull <==> j == n + 1)
  {
    if j == 0 {
    } else {
      FillUp(n, up, x, j - 1);
      var s := Run(New(Some(n)), up, Outage(x, j - 1));
      assert Outage(x, j)[..|Outage(x, j)| - 1] == Outage(x, j - 1);
      FailingSend(s, up, x);
    }
  }

  /** A close that sends one receipt of a full queue and then fails: the flag stays set. */
  lemma ClosedWithFlagSet<T>(n: nat, up: Schedule, x: T)
    requires n >= 1 && up == OnlyCall(n + 1)
    ensures var s := Run(New(Some(n)), up, Outage(x, n + 1) + [Close]);
            && s.maxlen == Some(n) && s.closed && s.warnedFull
            && |s.queue| == n - 1 && s.calls > n + 1 && !Warning(s.log)
  {
    FillUp(n, up, x, n + 1);
    RunExtend(New(Some(n)), up, Outage(x, n + 1), Close);
    CloseSendsOne(Run(New(Some(n)), up, Outage(x, n + 1)), up);
  }

  lemma CloseSendsOne<T>(s: Sink<T>, up: Schedule)
    requires s.queue != [] && s.warnedFull && up == OnlyCall(s.calls)
    ensures var t := Closed(s, up);
            && t.maxlen == s.maxlen && t.closed && t.warnedFull && |t.queue| == |s.queue| - 1 && t.calls > s.calls
            && !Warning(t.log)
  {
    var closing := s.(closed := true);
    var rest := PopHead(closing, false);
    assert Drain(closing, up, false) == Drain(rest, up, false);
    assert Drain(rest, up, false) == if rest.queue == [] then rest else rest.(calls := rest.calls + 1);
  }

  /** Two publishes that come late then overflow the queue again, unannounced. */
  lemma LatePublishUnannounced<T>(n: nat, up: Schedule, x: T)
    requires n >= 1 && up == OnlyCall(n + 1)
    ensures !EdgeTriggered(Run(New(Some(n)), up, Outage(x, n + 1) + [Close] + [LatePublish(x)] + [LatePublish(x)]).log)
  {
    var closed := Run(New(Some(n)), up, Outage(x, n + 1) + [Close]);
    ClosedWithFlagSet(n, up, x);
    var late := Step(closed, up, LatePublish(x));
    RunExtend(New(Some(n)), up, Outage(x, n + 1) + [Close], LatePublish(x));
    RunExtend(New(Some(n)), up, Outage(x, n + 1) + [Close] + [LatePublish(x)], LatePublish(x));
    QuietFill(closed, up, x);
    QuietDrop(late, up, x);
  }

  /** With the flag set and room for one, a failing publish leaves a full queue and no full-queue warning. */
  lemma QuietFill<T>(s: Sink<T>, up: Schedule, x: T)
    requires s.maxlen.Some? && |s.queue| + 1 == s.maxlen.value && s.warnedFull && !up(s.calls) && !Warning(s.log)
    ensures var t := Send(s, up, x);
            && t.maxlen == s.maxlen && |t.queue| == s.maxlen.value && t.warnedFull && t.calls == s.calls + 1
            && !Warning(t.log)
  {
    FailingSend(s, up, x);
  }

  lemma QuietDrop<T>(s: Sink<T>, up: Schedule, x: T)
    requires s.maxlen.Some? && 1 <= |s.queue| == s.maxlen.value && s.warnedFull && !up(s.calls) && !Warning(s.log)
    ensures !EdgeTriggered(Send(s, up, x).log)
  {
    assert Send(s, up, x) == Enqueued(s.(calls := s.calls + 1), x);
  }

  lemma RunExtend<T>(s: Sink<T>, up: Schedule, ops: seq<Op<T>>, op: Op<T>)
    ensures Run(s, up, ops + [op]) == Step(Run(s, up, ops), up, op)
  {
    assert (ops + [op])[..|ops|] == ops;
  }

  /** Unless publishes come late, every drop is announced exactly if the queue may hold something. */
  lemma AnnouncesInTimeIff<T(!new)>(maxlen: Option<nat>, x: T)
    ensures AnnouncesInTime<T>(maxlen) <==> maxlen != Some(0)
  {
    if maxlen == Some(0) {
      SecondOutageUnannounced(x);
      assert NoneLate([Publish(x), Publish(x), Publish(x)]);
    } else {
      forall up: Schedule, ops: seq<Op<T>> | NoneLate(ops) ensures EdgeTriggered(Run(New(maxlen), up, ops).log) {
        RunEdgeTriggered(maxlen, up, ops);
      }
    }
  }

  /** With late publishes every drop is announced exactly if there can be none. */
  lemma AlwaysAnnouncesIff<T(!new)>(maxlen: Option<nat>, x: T)
    ensures AlwaysAnnounces<T>(maxlen) <==> maxlen == None
  {
    if maxlen == None {
      forall up: Schedule, ops: seq<Op<T>> ensures EdgeTriggered(Run(New(maxlen), up, ops).log) {
        UnboundedEdgeTriggered(up, ops);
      }
    } else if maxlen == Some(0) {
      SecondOutageUnannounced(x);
    } else {
      LatePublishUnannounced(maxlen.value, OnlyCall(maxlen.value + 1), x);
    }
  }

  /** The flag means a full queue in every run exactly if the queue is unbounded, when it is never set,
      or holds nothing, when it is always full; before a close it does for every bound. */
  lemma FlagMeansFullIff<T(!new)>(maxlen: Option<nat>, x: T)
    ensures FlagMeansFull<T>(maxlen) <==> maxlen == None || maxlen == Some(0)
  {
    if maxlen == None || maxlen == Some(0) {
      forall up: Schedule, ops: seq<Op<T>> ensures FlagIsFull(Run(New(maxlen), up, ops)) {
        FlagTrivial(maxlen, up, ops);
      }
    } else {
      var n := maxlen.value;
      var up: Schedule := OnlyCall(n + 1);
      ClosedWithFlagSet(n, up, x);
      assert !FlagIsFull(Run(New(maxlen), up, Outage(x, n + 1) + [Close]));
    }
  }

  lemma {:induction false} DrainFlag<T>(s: Sink<T>, up: Schedule, rearm: bool)
    ensures Drain(s, up, rearm).warnedFull ==> s.warnedFull
    decreases |s.queue|
  {
    if s.queue == [] || !up(s.calls) {
    } else {
      DrainFlag(PopHead(s, rearm), up, rearm);
    }
  }

  lemma {:induction false} FlagTrivial<T>(maxlen: Option<nat>, up: Schedule, ops: seq<Op<T>>)
    requires maxlen == None || maxlen == Some(0)
    ensures FlagIsFull(Run(New(maxlen), up, ops))
    ensures maxlen == None ==> !Run(New(maxlen), up, ops).warnedFull
  {
    ClosedBy(maxlen, up, ops);
    if ops == [] {
    } else {
      var before := ops[..|ops| - 1];
      var s := Run(New(maxlen), up, before);
      FlagTrivial(maxlen, up, before);
      ClosedBy(maxlen, up, before);
      DrainFlag(s, up, true);
      DrainFrame(s, up, true);
      DrainFlag(s.(closed := true), up, false);
    }
  }

  predicate EndsInDrop<T>(log: Log<T>) {
    log.Then? && log.event.Dropped?
  }

  /** Every drop is followed at once by the warning of the publish that caused it. */
  predicate DropsReported<T>(log: Log<T>) {
    log.Then? ==> DropsReported(log.before) && (EndsInDrop(log.before) ==> log.event.FailedWarned?)
  }

  /** With a queue that holds nothing each lost receipt is its own publish's, which says so. */
  lemma {:induction false} EmptyQueueReports<T>(up: Schedule, ops: seq<Op<T>>)
    ensures var s := Run(New<T>(Some(0)), up, ops);
            DropsReported(s.log) && !EndsInDrop(s.log) && s.queue == [] && s.maxlen == Some(0)
  {
    if ops == [] {
    } else {
      EmptyQueueReports(up, ops[..|ops| - 1]);
    }
  }

  lemma {:induction false} RunOf3<T>(s: Sink<T>, up: Schedule, a: Op<T>, b: Op<T>, c: Op<T>)
    ensures Run(s, up, [a, b, c]) == Step(Step(Step(s, up, a), up, b), up, c)
  {
    assert [a, b, c][..2] == [a, b] && [a, b][..1] == [a] && [a][..0] == [];
    assert Run(s, up, []) == s;
    assert Run(s, up, [a]) == Step(s, up, a);
  }

  // ---------------------------------------------------------------- the sink object

  /** The wrapped sink, failing by a schedule. */
  class Downstream<T> {
    const up: Schedule
    var calls: nat
    var received: seq<T>

    constructor (up: Schedule)
      ensures this.up == up && calls == 0 && received == []
    {
      this.up := up;
      calls := 0;
      received := [];
    }

    method Publish(receipt: T) returns (ok: bool)
      modifies this
      ensures ok == up(old(calls)) && calls == old(calls) + 1
      ensures received == if ok then old(received) + [receipt] else old(received)
    {
      ok := up(calls);
      calls := calls + 1;
      if ok {
        received := received + [receipt];
      }
    }
  }

  class RetryQueueSink<T> {
    const maxlen: Option<nat>
    const downstream: Downstream<T>
    var queue: seq<T>
    var warnedFull: bool
    var closed: bool
    ghost var log: Log<T>

    /** What the wrapped sink has received is what the log says was delivered. */
    ghost predicate Valid()
      reads this, downstream
    {
      downstream.received == Deliveries(log)
    }

    ghost function State(): Sink<T>
      reads this, downstream
    {
      Sink(maxlen, queue, warnedFull, closed, downstream.calls, log)
    }

    constructor (downstream: Downstream<T>, maxlen: Option<nat>)
      requires downstream.calls == 0 && downstream.received == []
      ensures Valid() && this.downstream == downstream && State() == New(maxlen)
    {
      this.maxlen := maxlen;
      this.downstream := downstream;
      queue := [];
      warnedFull := false;
      closed := false;
      log := Empty;
    }

    method Enqueue(receipt: T)
      requires Valid()
      modifies this
      ensures Valid() && State() == Enqueued(old(State()), receipt)
    {
      var full := Full(maxlen, |queue|);
      var all := queue + [receipt];
      if !warnedFull && full {
        log := Then(log, FullWarned);
        warnedFull := true;
      }
      if full {
        queue := all[1..];
        log := Then(log, Dropped(all[0]));
      } else {
        queue := all;
      }
    }

    /** One turn of a drain loop: the head stays pending when its call fails. */
    method SendHead(rearm: bool) returns (ok: bool)
      requires Valid() && queue != []
      modifies this, downstream
      ensures Valid() && ok == downstream.up(old(downstream.calls))
      ensures State() == if ok then PopHead(old(State()), rearm) else old(State()).(calls := old(downstream.calls) + 1)
    {
      var head := queue[0];
      ok := downstream.Publish(head);
      if ok {
        log := Then(log, Delivered(head));
        queue := queue[1..];
        if rearm && warnedFull && |queue| < Floor(maxlen) {
          warnedFull := false;
        }
      }
    }

    /** A closed sink raises and changes nothing. */
    method Publish(receipt: T) returns (ok: bool)
      requires Valid()
      modifies this, downstream
      ensures Valid() && ok == !old(closed)
      ensures State() == Step(old(State()), downstream.up, Op.Publish(receipt))
    {
      if closed {
        return false;
      }
      PublishLocked(receipt);
      ok := true;
    }

    method PublishLocked(receipt: T)
      requires Valid()
      modifies this, downstream
      ensures Valid() && State() == Send(old(State()), downstream.up, receipt)
    {
      while queue != []
        invariant Valid()
        invariant Drain(State(), downstream.up, true) == Drain(old(State()), downstream.up, true)
        decreases |queue|
      {
        var ok := SendHead(true);
        if !ok {
          Enqueue(receipt);
          return;
        }
      }
      SendOwn(receipt);
    }

    /** The receipt's own call, once nothing is pending. */
    method SendOwn(receipt: T)
      requires Valid()
      modifies this, downstream
      ensures Valid()
      ensures State() == if downstream.up(old(downstream.calls))
                         then Note(old(State()).(calls := old(downstream.calls) + 1), Delivered(receipt))
                         else Failed(old(State()), receipt)
    {
      var ok := downstream.Publish(receipt);
      if ok {
        log := Then(log, Delivered(receipt));
      } else {
        Enqueue(receipt);
        var pending := PendingCount();
        log := Then(log, FailedWarned(pending));
      }
    }

    /** The number of receipts waiting, which the warnings report. */
    method PendingCount() returns (n: nat)
      ensures n == |queue|
    {
      n := |queue|;
    }

    method Close()
      requires Valid()
      modifies this, downstream
      ensures Valid() && State() == Step(old(State()), downstream.up, Op.Close)
    {
      closed := true;
      while queue != []
        invariant Valid()
        invariant Drain(State(), downstream.up, false) == Drain(old(State()).(closed := true), downstream.up, false)
        decreases |queue|
      {
        var ok := SendHead(false);
        if !ok {
          break;
        }
      }
      var pending := PendingCount();
      if pending > 0 {
        log := Then(log, ClosedWarned(pending));
      }
    }
  }
}
