/**
 What one call on the retry queue does, event by event (provenex/export/streaming.py), in terms of how
 many of the pending receipts the downstream sink takes before its first failure.
 */
module RetryLaws {
  import opened Basics
  import opened RetryQueue

  /** The log with further events. */
  ghost function Append<T>(log: Log<T>, events: seq<Event<T>>): Log<T> {
    if events == [] then log else Then(Append(log, events[..|events| - 1]), events[|events| - 1])
  }

  lemma {:induction false} AppendTwice<T>(log: Log<T>, one: seq<Event<T>>, two: seq<Event<T>>)
    ensures Append(Append(log, one), two) == Append(log, one + two)
    decreases |two|
  {
    if two == [] {
      assert one + two == one;
    } else {
      AppendTwice(log, one, two[..|two| - 1]);
      assert (one + two)[..|one + two| - 1] == one + two[..|two| - 1];
    }
  }

  lemma AppendOne<T>(log: Log<T>, e: Event<T>)
    ensures Append(log, [e]) == Then(log, e)
  {
    assert [e][..0] == [];
  }

  function Sent<T>(receipts: seq<T>): (events: seq<Event<T>>)
    ensures |events| == |receipts|
  {
    seq(|receipts|, i requires 0 <= i < |receipts| => Delivered(receipts[i]))
  }

  /** Exactly the first n of the pending receipts can be sent now. */
  ghost predicate Takes<T>(s: Sink<T>, up: Schedule, n: nat) {
    && n <= |s.queue|
    && (forall k :: s.calls <= k < s.calls + n ==> up(k))
    && (n < |s.queue| ==> !up(s.calls + n))
  }

  lemma {:induction false} TakesSome<T>(s: Sink<T>, up: Schedule, from: nat) returns (n: nat)
    requires from <= |s.queue| && forall k :: s.calls <= k < s.calls + from ==> up(k)
    ensures Takes(s, up, n)
    decreases |s.queue| - from
  {
    if from == |s.queue| || !up(s.calls + from) {
      n := from;
    } else {
      n := TakesSome(s, up, from + 1);
    }
  }


  /** One delivery more at the front. */
  lemma SentMore<T>(log: Log<T>, queue: seq<T>, n: nat)
    requires 1 <= n <= |queue|
    ensures Append(Then(log, Delivered(queue[0])), Sent(queue[1..][..n - 1])) == Append(log, Sent(queue[..n]))
  {
    AppendOne(log, Delivered(queue[0]));
    AppendTwice(log, [Delivered(queue[0])], Sent(queue[1..][..n - 1]));
    assert [Delivered(queue[0])] + Sent(queue[1..][..n - 1]) == Sent(queue[..n]);
  }

  /** A drain sends those receipts, in order, and stops at the first failure; one that re-arms clears the
      flag with the first receipt it sends. */
  lemma {:induction false} DrainSends<T>(s: Sink<T>, up: Schedule, rearm: bool, n: nat)
    requires Takes(s, up, n)
    ensures var d := Drain(s, up, rearm);
            && d.queue == s.queue[n..]
            && d.log == Append(s.log, Sent(s.queue[..n]))
            && d.calls == s.calls + n + (if n < |s.queue| then 1 else 0)
            && d.maxlen == s.maxlen && d.closed == s.closed
            && (d.warnedFull ==> s.warnedFull)
            && (n == 0 || !rearm ==> d.warnedFull == s.warnedFull)
            && (rearm && n > 0 && s.maxlen.Some? && |s.queue| <= s.maxlen.value ==> !d.warnedFull)
    decreases n
  {
    if n == 0 {
      assert Sent(s.queue[..0]) == [];
    } else {
      var next := PopHead(s, rearm);
      assert up(s.calls);
      DrainSends(next, up, rearm, n - 1);
      assert next.queue[n - 1..] == s.queue[n..];
      SentMore(s.log, s.queue, n);
    }
  }

  /** `close` sends what the downstream sink takes, keeps the rest and warns about it, and says nothing
      else; the flag stays as it was. */
  lemma CloseSends<T>(s: Sink<T>, up: Schedule, n: nat)
    requires Takes(s, up, n)
    ensures var t := Step(s, up, Close);
            && t.closed && t.queue == s.queue[n..] && t.warnedFull == s.warnedFull
            && t.log == Append(s.log, Sent(s.queue[..n]) +
                 (if n < |s.queue| then [ClosedWarned(|s.queue| - n)] else []))
            && Deliveries(t.log) == Deliveries(s.log) + s.queue[..n]
  {
    var closing := s.(closed := true);
    var warning: seq<Event<T>> := if n < |s.queue| then [ClosedWarned(|s.queue| - n)] else [];
    DrainSends(closing, up, false, n);
    SentDelivers(s.log, s.queue[..n]);
    if n < |s.queue| {
      AppendOne(Append(s.log, Sent(s.queue[..n])), ClosedWarned(|s.queue| - n));
      AppendTwice(s.log, Sent(s.queue[..n]), warning);
    } else {
      assert Sent(s.queue[..n]) + [] == Sent(s.queue[..n]);
    }
  }

  lemma {:induction false} SentDelivers<T>(log: Log<T>, receipts: seq<T>)
    ensures Deliveries(Append(log, Sent(receipts))) == Deliveries(log) + receipts
    decreases |receipts|
  {
    if receipts == [] {
    } else {
      var before := receipts[..|receipts| - 1];
      SentDelivers(log, before);
      assert Sent(receipts)[..|receipts| - 1] == Sent(before);
      assert receipts == before + [receipts[|receipts| - 1]];
    }
  }

  /** A close with a healthy downstream sink leaves nothing behind and gives no warning. */
  lemma HealthyClose<T>(s: Sink<T>, up: Schedule)
    requires Healthy(up, s.calls, |s.queue|)
    ensures var t := Step(s, up, Close);
            && t.queue == [] && t.log == Append(s.log, Sent(s.queue))
            && Deliveries(t.log) == Deliveries(s.log) + s.queue
  {
    CloseSends(s, up, |s.queue|);
    assert s.queue[..|s.queue|] == s.queue && Sent(s.queue) + [] == Sent(s.queue);
  }

  /** A publish on a closed sink changes nothing. */
  lemma ClosedPublishes<T>(s: Sink<T>, up: Schedule, x: T)
    requires s.closed
    ensures Step(s, up, Publish(x)) == s
  {
  }

  lemma {:induction false} DrainIgnoresClosed<T>(s: Sink<T>, up: Schedule, rearm: bool, closed: bool)
    ensures Drain(s.(closed := closed), up, rearm) == Drain(s, up, rearm).(closed := closed)
    decreases |s.queue|
  {
    if s.queue == [] || !up(s.calls) {
    } else {
      assert PopHead(s.(closed := closed), rearm) == PopHead(s, rearm).(closed := closed);
      DrainIgnoresClosed(PopHead(s, rearm), up, rearm, closed);
    }
  }

  /** A late publish does what a publish does, whether the sink is closed or not. */
  lemma LatePublishes<T>(s: Sink<T>, up: Schedule, x: T)
    ensures Step(s, up, LatePublish(x)) == Step(s.(closed := false), up, Publish(x)).(closed := s.closed)
  {
    DrainIgnoresClosed(s, up, true, false);
    DrainFrame(s, up, true);
  }

  /** What a drop says: the full-queue warning first, unless it has been given. */
  ghost function Overflow<T>(warned: bool, oldest: T): seq<Event<T>> {
    (if warned then [] else [FullWarned]) + [Dropped(oldest)]
  }

  /** A publish during an outage, with receipts pending: those the downstream sink takes are sent, the new
      one is queued last, and the oldest is dropped when none was sent and the queue is full. */
  lemma PublishWhilePending<T>(s: Sink<T>, up: Schedule, x: T, n: nat)
    requires !s.closed && Takes(s, up, n) && n < |s.queue| && (s.maxlen.Some? ==> |s.queue| <= s.maxlen.value)
    ensures var t := Step(s, up, Publish(x));
            var overflows := n == 0 && s.maxlen == Some(|s.queue|);
            && t.calls == s.calls + n + 1 && !t.closed
            && (s.maxlen.Some? ==> t.warnedFull == (overflows || (n == 0 && s.warnedFull)))
            && t.queue == (if overflows then s.queue[1..] + [x] else s.queue[n..] + [x])
            && t.log == Append(s.log, Sent(s.queue[..n]) +
                 (if overflows then Overflow(s.warnedFull, s.queue[0]) else []))
  {
    DrainSends(s, up, true, n);
    var overflows := n == 0 && s.maxlen == Some(|s.queue|);
    if overflows {
      assert s.queue[0..] == s.queue && Sent(s.queue[..0]) == [];
      OverflowLog(s.log, s.warnedFull, s.queue[0]);
      assert [] + Overflow(s.warnedFull, s.queue[0]) == Overflow(s.warnedFull, s.queue[0]);
    } else {
      assert Sent(s.queue[..n]) + [] == Sent(s.queue[..n]);
    }
  }

  lemma OverflowLog<T>(log: Log<T>, warned: bool, oldest: T)
    ensures Append(log, Overflow(warned, oldest)) ==
              Then(if warned then log else Then(log, FullWarned), Dropped(oldest))
  {
    AppendOne(log, FullWarned);
    assert [FullWarned, Dropped(oldest)][..1] == [FullWarned];
    assert Overflow(warned, oldest) == if warned then [Dropped(oldest)] else [FullWarned, Dropped(oldest)];
    AppendOne(log, Dropped(oldest));
  }

  /** A publish that finds or makes the queue empty tries its own receipt: it is sent, or else queued, or
      dropped where nothing may be kept, and a warning says so. */
  lemma PublishAlone<T>(s: Sink<T>, up: Schedule, x: T)
    requires !s.closed && Healthy(up, s.calls, |s.queue|) && (s.maxlen.Some? ==> |s.queue| <= s.maxlen.value)
    ensures var t, ok := Step(s, up, Publish(x)), up(s.calls + |s.queue|);
            && t.calls == s.calls + |s.queue| + 1 && !t.closed
            && (s.maxlen.Some? ==>
                  t.warnedFull == ((!ok && s.maxlen == Some(0)) || (s.queue == [] && s.warnedFull)))
            && t.queue == (if ok || s.maxlen == Some(0) then [] else [x])
            && t.log == Append(s.log, Sent(s.queue) +
                 (if ok then [Delivered(x)]
                  else if s.maxlen == Some(0) then Overflow(s.warnedFull, x) + [FailedWarned(0)]
                  else [FailedWarned(1)]))
  {
    DrainSends(s, up, true, |s.queue|);
    assert s.queue[..|s.queue|] == s.queue;
    var d := Drain(s, up, true);
    if up(s.calls + |s.queue|) {
      AppendOne(d.log, Delivered(x));
      AppendTwice(s.log, Sent(s.queue), [Delivered(x)]);
    } else if s.maxlen == Some(0) {
      OverflowLog(s.log, s.warnedFull, x);
      AppendOne(Append(s.log, Overflow(s.warnedFull, x)), FailedWarned(0));
      AppendTwice(s.log, Overflow(s.warnedFull, x), [FailedWarned(0)]);
      assert Sent(s.queue) == [];
      assert [] + (Overflow(s.warnedFull, x) + [FailedWarned(0)]) == Overflow(s.warnedFull, x) + [FailedWarned(0)];
    } else {
      AppendOne(d.log, FailedWarned(1));
      AppendTwice(s.log, Sent(s.queue), [FailedWarned(1)]);
    }
  }
}
