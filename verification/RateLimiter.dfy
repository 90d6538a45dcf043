/** app/core/rate_limit.py: a sliding-window limiter over a deque of accepted times. The deque is a
    compressed form of the full history of acceptances; the class is proved to decide exactly as
    that history does, and the properties are proved of the history. */
module RateLimiter {
  import opened Wrappers

  /** `IndexError` is what reading the head of the empty deque raises (line 38), status 429 with a
      Retry-After header otherwise (section 4 of RFC 6585, section 10.2.3 of RFC 9110). */
  datatype Outcome = Accepted | RateLimited(retryAfter: int) | IndexError

  // ---- Deciding from the full history ------------------------------------------------------

  /** How many of `times` lie in the interval (after, upTo]. */
  function Count(times: seq<real>, after: real, upTo: real): nat {
    if times == [] then 0
    else Count(times[..|times| - 1], after, upTo) + (if after < times[|times| - 1] <= upTo then 1 else 0)
  }

  /** The first of `times` that is later than `after`. */
  function FirstAfter(times: seq<real>, after: real): Option<real> {
    if times == [] then None
    else if times[0] > after then Some(times[0])
    else FirstAfter(times[1..], after)
  }

  /** `math.ceil`. */
  function Ceil(x: real): (c: int)
    ensures (c - 1) as real < x <= c as real
  {
    -((-x).Floor)
  }

  function Decide(history: seq<real>, limit: int, window: real, now: real): Outcome {
    if Count(history, now - window, now) < limit then Accepted
    else match FirstAfter(history, now - window)
      case None => IndexError
      case Some(oldest) =>
        var wait := Ceil(window - (now - oldest));
        RateLimited(if wait > 1 then wait else 1)
  }

  /** The acceptances after a sequence of calls. */
  function Run(calls: seq<real>, limit: int, window: real): seq<real> {
    if calls == [] then []
    else
      var now, before := calls[|calls| - 1], Run(calls[..|calls| - 1], limit, window);
      if Decide(before, limit, window, now).Accepted? then before + [now] else before
  }

  lemma RunSnoc(calls: seq<real>, limit: int, window: real, now: real)
    ensures Run(calls + [now], limit, window)
         == if Decide(Run(calls, limit, window), limit, window, now).Accepted? then Run(calls, limit, window) + [now]
            else Run(calls, limit, window)
  {
    hide Decide;
    assert (calls + [now])[..|calls|] == calls;
  }

  ghost predicate Ascending(times: seq<real>) {
    forall i, j :: 0 <= i < j < |times| ==> times[i] <= times[j]
  }

  ghost predicate NoneLater(times: seq<real>, now: real) {
    forall i :: 0 <= i < |times| ==> times[i] <= now
  }

  // ---- Counting ----------------------------------------------------------------------------

  lemma {:induction false} CountMonotone(times: seq<real>, after: real, upTo: real, after': real, upTo': real)
    requires after' <= after && upTo <= upTo'
    ensures Count(times, after, upTo) <= Count(times, after', upTo')
  {
    if times != [] {
      CountMonotone(times[..|times| - 1], after, upTo, after', upTo');
    }
  }

  /** An upper end at or after the last time does not matter. */
  lemma {:induction false} CountOpenEnded(times: seq<real>, after: real, upTo: real, upTo': real)
    requires NoneLater(times, upTo) && NoneLater(times, upTo')
    ensures Count(times, after, upTo) == Count(times, after, upTo')
  {
    if times != [] {
      CountOpenEnded(times[..|times| - 1], after, upTo, upTo');
    }
  }

  lemma {:induction false} CountSplit(times: seq<real>, k: nat, after: real, upTo: real)
    requires k <= |times|
    ensures Count(times, after, upTo) == Count(times[..k], after, upTo) + Count(times[k..], after, upTo)
    decreases |times|
  {
    if k == |times| {
      assert times[..k] == times;
    } else {
      var n := |times| - 1;
      CountSplit(times[..n], k, after, upTo);
      assert times[..n][..k] == times[..k] && times[..n][k..] == times[k..][..n - k];
    }
  }

  lemma {:induction false} CountNone(times: seq<real>, after: real, upTo: real)
    requires forall i :: 0 <= i < |times| ==> times[i] <= after || times[i] > upTo
    ensures Count(times, after, upTo) == 0
  {
    if times != [] {
      CountNone(times[..|times| - 1], after, upTo);
    }
  }

  lemma {:induction false} CountAll(times: seq<real>, after: real, upTo: real)
    requires forall i :: 0 <= i < |times| ==> after < times[i] <= upTo
    ensures Count(times, after, upTo) == |times|
  {
    if times != [] {
      CountAll(times[..|times| - 1], after, upTo);
    }
  }

  /** Where the times later than `after` begin. */
  lemma {:induction false} FirstAfterAt(times: seq<real>, after: real) returns (k: nat)
    requires Ascending(times)
    ensures k <= |times|
    ensures forall i :: 0 <= i < k ==> times[i] <= after
    ensures forall i :: k <= i < |times| ==> times[i] > after
    ensures FirstAfter(times, after) == if k < |times| then Some(times[k]) else None
  {
    if times == [] || times[0] > after {
      k := 0;
    } else {
      var j := FirstAfterAt(times[1..], after);
      k := j + 1;
      assert forall i :: 1 <= i < |times| ==> times[i] == times[1..][i - 1];
    }
  }

  // ---- Runs --------------------------------------------------------------------------------

  lemma {:induction false} RunIsAscending(calls: seq<real>, limit: int, window: real)
    requires Ascending(calls)
    ensures Ascending(Run(calls, limit, window))
    ensures calls != [] ==> NoneLater(Run(calls, limit, window), calls[|calls| - 1])
    ensures calls == [] ==> Run(calls, limit, window) == []
  {
    hide Decide;
    if calls != [] {
      var before := calls[..|calls| - 1];
      RunIsAscending(before, limit, window);
      assert before != [] ==> before[|before| - 1] <= calls[|calls| - 1];
    }
  }

  /** Safety over whole runs: under a clock that does not go back, every interval (a, a + window]
      holds at most `limit` acceptances. */
  lemma {:induction false} WindowSafety(calls: seq<real>, limit: int, window: real, a: real)
    requires Ascending(calls)
    ensures Count(Run(calls, limit, window), a, a + window) <= if limit > 0 then limit else 0
  {
    if calls != [] {
      var now, init := calls[|calls| - 1], calls[..|calls| - 1];
      var before := Run(init, limit, window);
      WindowSafety(init, limit, window, a);
      RunIsAscending(init, limit, window);
      assert NoneLater(before, now) by {
        if init != [] { assert init[|init| - 1] <= now; }
      }
      if Decide(before, limit, window, now).Accepted? {
        assert (before + [now])[..|before|] == before;
        if a < now <= a + window {
          CountOpenEnded(before, a, now, now);
          UpperEnd(before, a, a + window, now);
          CountMonotone(before, a, now, now - window, now);
        }
      }
    }
  }

  lemma UpperEnd(times: seq<real>, after: real, upTo: real, now: real)
    requires NoneLater(times, now) && now <= upTo
    ensures Count(times, after, upTo) == Count(times, after, now)
  {
    CountOpenEnded(times, after, upTo, now);
  }

  /** When the first `dropped` times have left the window and the next has not, the window holds the
      others, and its oldest is the next. */
  lemma WindowCount(history: seq<real>, dropped: nat, cutoff: real, now: real)
    requires Ascending(history) && NoneLater(history, now) && dropped <= |history|
    requires forall i :: 0 <= i < dropped ==> history[i] <= cutoff
    requires dropped < |history| ==> history[dropped] > cutoff
    ensures Count(history, cutoff, now) == |history| - dropped
    ensures FirstAfter(history, cutoff) == if dropped < |history| then Some(history[dropped]) else None
  {
    var k := FirstAfterAt(history, cutoff);
    CountSplit(history, k, cutoff, now);
    CountNone(history[..k], cutoff, now);
    CountAll(history[k..], cutoff, now);
  }

  lemma RunNoneLater(calls: seq<real>, limit: int, window: real, now: real)
    requires Ascending(calls) && (calls != [] ==> calls[|calls| - 1] <= now)
    ensures Ascending(Run(calls, limit, window)) && NoneLater(Run(calls, limit, window), now)
  {
    hide Run;
    RunIsAscending(calls, limit, window);
  }

  lemma WindowIsFull(calls: seq<real>, limit: int, window: real, now: real)
    requires Ascending(calls)
    ensures Count(Run(calls, limit, window), now - window, now) <= if limit > 0 then limit else 0
  {
    hide Run, Count, Ascending;
    WindowSafety(calls, limit, window, now - window);
    assert now - window + window == now;
  }

  /** A call is accepted exactly when fewer than `limit` acceptances of the whole run so far lie in
      (now - window, now]. It is refused only when that window holds exactly `limit`, never more, and
      nothing but a limit below one can make the limiter fail. */
  lemma DecisionOfRun(calls: seq<real>, limit: int, window: real, now: real)
    requires Ascending(calls) && (calls != [] ==> calls[|calls| - 1] <= now)
    ensures var history := Run(calls, limit, window);
            && (Decide(history, limit, window, now).Accepted? <==> Count(history, now - window, now) < limit)
            && (Decide(history, limit, window, now).RateLimited? <==> limit >= 1 && Count(history, now - window, now) == limit)
            && (Decide(history, limit, window, now).IndexError? <==> limit <= 0)
  {
    var history := Run(calls, limit, window);
    RunNoneLater(calls, limit, window, now);
    hide *;
    WindowIsFull(calls, limit, window, now);
    EmptyWindow(history, now - window, now);
    DecideCases(history, limit, window, now);
  }

  lemma EmptyWindow(history: seq<real>, cutoff: real, now: real)
    requires Ascending(history) && NoneLater(history, now)
    ensures FirstAfter(history, cutoff).None? <==> Count(history, cutoff, now) == 0
  {
    var k := FirstAfterAt(history, cutoff);
    hide Count, FirstAfter, Ascending, NoneLater;
    WindowCount(history, k, cutoff, now);
  }

  lemma DecideCases(history: seq<real>, limit: int, window: real, now: real)
    ensures var outcome, n := Decide(history, limit, window, now), Count(history, now - window, now);
            && (outcome.Accepted? <==> n < limit)
            && (outcome.IndexError? <==> n >= limit && FirstAfter(history, now - window).None?)
  {
    hide Count, FirstAfter, Ceil;
  }

  /** Retry-After is exact: a caller refused at `now` and told `r` waits between one second and the
      window rounded up; if nobody else is accepted meanwhile, a call at `now + r` or later is
      accepted, and every call up to `now + r - 1` is still refused. */
  lemma RetryAfterExact(calls: seq<real>, limit: int, window: real, now: real, t: real)
    requires Ascending(calls) && (calls != [] ==> calls[|calls| - 1] <= now)
    requires Decide(Run(calls, limit, window), limit, window, now).RateLimited?
    requires now <= t
    ensures var history := Run(calls, limit, window);
            var r := Decide(history, limit, window, now).retryAfter;
            && 1 <= r <= Ceil(window)
            && (now + r as real <= t ==> Decide(history, limit, window, t).Accepted?)
            && (t <= now + (r - 1) as real ==> Decide(history, limit, window, t).RateLimited?)
  {
    hide *;
    var history := Run(calls, limit, window);
    RunNoneLater(calls, limit, window, now);
    RunNoneLater(calls, limit, window, t);
    DecisionOfRun(calls, limit, window, now);
    DecisionOfRun(calls, limit, window, t);
    WindowIsFull(calls, limit, window, now);
    var k := OldestInWindow(history, limit, window, now);
    var r := Decide(history, limit, window, now).retryAfter;
    WaitExact(window, now, history[k], t);
    CountOpenEnded(history, t - window, t, now);
    if now + r as real <= t {
      OneFewer(history, k, now - window, t - window, now);
    }
    if t <= now + (r - 1) as real {
      CountFrom(history, k, now - window, t - window, now);
    }
  }

  /** Rounding up the remaining wait: at the end of it `oldest` has left the window, a second
      earlier it has not. */
  lemma WaitExact(window: real, now: real, oldest: real, t: real)
    ensures var wait := Ceil(window - (now - oldest));
            && (now + wait as real <= t ==> oldest <= t - window)
            && (t <= now + (wait - 1) as real ==> t - window < oldest)
  {
  }

  /** The acceptance that a refusal is measured from. */
  lemma OldestInWindow(history: seq<real>, limit: int, window: real, now: real) returns (k: nat)
    requires Ascending(history) && NoneLater(history, now)
    requires Decide(history, limit, window, now).RateLimited?
    ensures k < |history| && now - window < history[k] <= now
    ensures forall i :: 0 <= i < k ==> history[i] <= now - window
    ensures limit <= Count(history, now - window, now)
    ensures Decide(history, limit, window, now).retryAfter == Ceil(window - (now - history[k]))
    ensures 1 <= Decide(history, limit, window, now).retryAfter <= Ceil(window)
  {
    k := FirstAfterAt(history, now - window);
    hide Count, FirstAfter, Ascending;
    assert k < |history| && history[k] <= now;
  }

  /** Moving the lower end past time number `k` loses at least that one. */
  lemma OneFewer(times: seq<real>, k: nat, after: real, after': real, upTo: real)
    requires k < |times| && after < times[k] <= after' && times[k] <= upTo
    ensures Count(times, after', upTo) < Count(times, after, upTo)
  {
    CountSplit(times, k, after, upTo);
    CountSplit(times, k, after', upTo);
    CountMonotone(times[..k], after', upTo, after, upTo);
    var rest := times[k..];
    CountSplit(rest, 1, after, upTo);
    CountSplit(rest, 1, after', upTo);
    assert rest[..1] == [times[k]];
    assert Count([times[k]], after, upTo) == 1 && Count([times[k]], after', upTo) == 0 by {
      assert [times[k]][..0] == [];
    }
    CountMonotone(rest[1..], after', upTo, after, upTo);
  }

  /** While the lower end stays below time number `k`, the first in the window, none is lost. */
  lemma CountFrom(times: seq<real>, k: nat, after: real, after': real, upTo: real)
    requires Ascending(times) && NoneLater(times, upTo) && k < |times| && after' < times[k]
    requires forall i :: 0 <= i < k ==> times[i] <= after
    ensures Count(times, after', upTo) >= Count(times, after, upTo)
  {
    hide Count;
    CountSplit(times, k, after, upTo);
    CountSplit(times, k, after', upTo);
    CountNone(times[..k], after, upTo);
    var rest := times[k..];
    assert forall i :: 0 <= i < |rest| ==> after' < rest[i] <= upTo by {
      assert forall i :: 0 <= i < |rest| ==> rest[i] == times[k + i] && times[k] <= times[k + i];
    }
    CountAll(rest, after', upTo);
    CountAtMost(rest, after, upTo);
  }

  lemma {:induction false} CountAtMost(times: seq<real>, after: real, upTo: real)
    ensures Count(times, after, upTo) <= |times|
  {
    if times != [] {
      CountAtMost(times[..|times| - 1], after, upTo);
    }
  }

  // ---- The same by positions in the history ------------------------------------------------

  /** A call is accepted exactly if there is a limit of one at least and the acceptance `limit` places back
      does not exist or lies a whole window in the past. Otherwise, under such a limit, the wait told
      is the least whole number of seconds, one at least, after which it does. */
  lemma DecisionByPosition(calls: seq<real>, limit: int, window: real, now: real)
    requires Ascending(calls) && (calls != [] ==> calls[|calls| - 1] <= now)
    ensures var history := Run(calls, limit, window);
            && (Decide(history, limit, window, now).Accepted? <==>
                  limit >= 1 && (|history| < limit || history[|history| - limit] + window <= now))
            && (limit >= 1 && !Decide(history, limit, window, now).Accepted? ==>
                  var decision := Decide(history, limit, window, now);
                  && decision.RateLimited? && decision.retryAfter >= 1
                  && history[|history| - limit] + window <= now + decision.retryAfter as real
                  && (decision.retryAfter > 1 ==> history[|history| - limit] + window > now + (decision.retryAfter - 1) as real))
  {
    hide Run, Count, FirstAfter, Ascending, NoneLater;
    var history := Run(calls, limit, window);
    RunNoneLater(calls, limit, window, now);
    DecisionOfRun(calls, limit, window, now);
    var k := FirstAfterAt(history, now - window);
    WindowCount(history, k, now - window, now);
  }

  /** Any `limit + 1` acceptances in a row span a whole window at least. */
  lemma {:induction false} SpanSafety(calls: seq<real>, limit: int, window: real, i: nat)
    requires Ascending(calls) && limit >= 1 && i + limit < |Run(calls, limit, window)|
    ensures Run(calls, limit, window)[i] + window <= Run(calls, limit, window)[i + limit]
  {
    hide Decide;
    if calls != [] {
      var now, init := calls[|calls| - 1], calls[..|calls| - 1];
      DecisionByPosition(init, limit, window, now);
      if i + limit < |Run(init, limit, window)| {
        SpanSafety(init, limit, window, i);
      }
    }
  }

  // ---- The class ---------------------------------------------------------------------------

  class SlidingWindowRateLimiter {
    const limit: int
    const windowSeconds: real
    var timestamps: seq<real>
    ghost var calls: seq<real>

    /** The acceptances of all calls so far. */
    ghost function History(): seq<real>
      reads this
    {
      Run(calls, limit, windowSeconds)
    }

    ghost predicate Valid()
      reads this
    {
      Consistent(timestamps, calls, limit, windowSeconds)
    }

    constructor (limit: int, windowSeconds: real := 60.0)
      ensures Valid() && calls == [] && this.limit == limit && this.windowSeconds == windowSeconds
    {
      this.limit := limit;
      this.windowSeconds := windowSeconds;
      timestamps := [];
      calls := [];
    }

    /** `consume`, at time `now` of a clock that does not go back. */
    method Consume(now: real) returns (outcome: Outcome)
      requires Valid()
      requires calls != [] ==> calls[|calls| - 1] <= now
      modifies this
      ensures Valid() && calls == old(calls) + [now]
      ensures outcome == Decide(old(History()), limit, windowSeconds, now)
      ensures outcome.Accepted? <==> Count(old(History()), now - windowSeconds, now) < limit
      ensures History() == if outcome.Accepted? then old(History()) + [now] else old(History())
    {
      hide Consistent, Run, Count, Decide, FirstAfter, NoneLater, Holds, Ascending, Ceil;
      ghost var history := History();
      var cutoff := now - windowSeconds;
      BeforeCall(timestamps, calls, limit, windowSeconds, now);
      while |timestamps| > 0 && timestamps[0] <= cutoff
        invariant calls == old(calls) && Holds(timestamps, history, cutoff)
        invariant |timestamps| <= if limit > 0 then limit else 0
        decreases |timestamps|
      {
        PopLeft(timestamps, history, cutoff);
        timestamps := timestamps[1..];
      }
      HoldsWindow(timestamps, history, limit, windowSeconds, now);
      RunSnoc(calls, limit, windowSeconds, now);
      if |timestamps| < limit {
        AppendRight(timestamps, history, cutoff, now);
        timestamps := timestamps + [now];
        AfterCall(timestamps, calls, limit, windowSeconds, now);
        calls := calls + [now];
        return Accepted;
      }
      AfterCall(timestamps, calls, limit, windowSeconds, now);
      calls := calls + [now];
      if timestamps == [] {
        return IndexError;
      }
      var oldest := timestamps[0];
      var wait := Ceil(windowSeconds - (now - oldest));
      var retryAfter := if wait > 1 then wait else 1;
      return RateLimited(retryAfter);
    }
  }

  // ---- The deque ---------------------------------------------------------------------------

  /** `deque` is the end of `history`, and what comes before it is not later than `after`. */
  ghost predicate Holds(deque: seq<real>, history: seq<real>, after: real) {
    var dropped := |history| - |deque|;
    && 0 <= dropped && deque == history[dropped..]
    && forall i :: 0 <= i < dropped ==> history[i] <= after
  }

  /** The deque holds what the last call left of the history in its window, and never more than
      `limit` times. */
  ghost predicate Consistent(deque: seq<real>, calls: seq<real>, limit: int, window: real) {
    && Ascending(calls)
    && (if calls == [] then deque == [] else Holds(deque, Run(calls, limit, window), calls[|calls| - 1] - window))
    && |deque| <= if limit > 0 then limit else 0
  }

  lemma BeforeCall(deque: seq<real>, calls: seq<real>, limit: int, window: real, now: real)
    requires Consistent(deque, calls, limit, window) && (calls != [] ==> calls[|calls| - 1] <= now)
    ensures var history := Run(calls, limit, window);
            && Holds(deque, history, now - window) && Ascending(history) && NoneLater(history, now)
            && |deque| <= if limit > 0 then limit else 0
    ensures Ascending(calls + [now])
  {
    RunNoneLater(calls, limit, window, now);
    hide Run;
    if calls == [] {
      RunIsAscending(calls, limit, window);
      HoldsAll([], now - window);
    } else {
      HoldsLater(deque, Run(calls, limit, window), calls[|calls| - 1] - window, now - window);
    }
  }

  lemma AfterCall(deque: seq<real>, calls: seq<real>, limit: int, window: real, now: real)
    requires Ascending(calls + [now]) && Holds(deque, Run(calls + [now], limit, window), now - window)
    requires |deque| <= if limit > 0 then limit else 0
    ensures Consistent(deque, calls + [now], limit, window)
  {
    hide Run, Ascending, Holds;
  }

  lemma HoldsAll(history: seq<real>, after: real)
    ensures Holds(history, history, after)
  {
  }

  lemma HoldsLater(deque: seq<real>, history: seq<real>, after: real, after': real)
    requires Holds(deque, history, after) && after <= after'
    ensures Holds(deque, history, after')
  {
  }

  lemma PopLeft(deque: seq<real>, history: seq<real>, after: real)
    requires Holds(deque, history, after) && deque != [] && deque[0] <= after
    ensures Holds(deque[1..], history, after)
  {
    var dropped := |history| - |deque|;
    assert history[dropped] == deque[0];
    assert forall i :: 0 <= i < dropped + 1 ==> history[i] <= after;
  }

  lemma AppendRight(deque: seq<real>, history: seq<real>, after: real, now: real)
    requires Holds(deque, history, after)
    ensures Holds(deque + [now], history + [now], after)
  {
    var dropped := |history| - |deque|;
    assert (history + [now])[dropped..] == history[dropped..] + [now];
  }

  /** After pruning, the deque is the window, so it decides as the whole history does. */
  lemma HoldsWindow(deque: seq<real>, history: seq<real>, limit: int, window: real, now: real)
    requires Ascending(history) && NoneLater(history, now) && Holds(deque, history, now - window)
    requires deque != [] ==> deque[0] > now - window
    ensures Count(history, now - window, now) == |deque|
    ensures Decide(history, limit, window, now)
         == if |deque| < limit then Accepted
            else if deque == [] then IndexError
            else var wait := Ceil(window - (now - deque[0])); RateLimited(if wait > 1 then wait else 1)
  {
    hide Count, FirstAfter, Ascending, NoneLater, Ceil;
    WindowCount(history, |history| - |deque|, now - window, now);
  }
}
