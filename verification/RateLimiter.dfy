/** The message-rate window of `src/session.rs` over whole runs of calls. */
module RateLimiter {
  import opened Bytes
  import opened Session

  /** What the limiter remembers, with the calls of the window counted without a bound. */
  datatype Window = Window(start: nat, calls: nat)

  function Called(w: Window, now: nat): Window {
    if Since(now, w.start) >= SECOND then Window(now, 1) else Window(w.start, w.calls + 1)
  }

  function CalledAll(w: Window, times: seq<nat>): Window {
    if times == [] then w else Called(CalledAll(w, times[..|times| - 1]), times[|times| - 1])
  }

  function RateCalls(times: seq<nat>): seq<Call> {
    if times == [] then [] else RateCalls(times[..|times| - 1]) + [CheckRate(times[|times| - 1])]
  }

  predicate Agree(s: State, w: Window) { s.windowStart == w.start && s.windowCount == Wrap32(w.calls) }

  lemma AgreeStep(s: State, w: Window, now: nat)
    requires Agree(s, w)
    ensures Agree(RateChecked(s, now), Called(w, now))
  {
    assert Wrap32(Wrap32(w.calls) + 1) == Wrap32(w.calls + 1);
  }

  /** The decision on a window's `k`-th call. */
  predicate Allowed(max: u32, k: nat) { Wrap32(k) <= max }

  // ----- within one window -----

  /** How many of a window's first `n` calls are allowed. */
  function AllowedOf(max: u32, n: nat): (r: nat)
    ensures r <= n
  {
    if n == 0 then 0 else AllowedOf(max, n - 1) + if Allowed(max, n) then 1 else 0
  }

  lemma {:induction false} AllowedBelowWrap(max: u32, n: nat)
    requires n < TWO_32
    ensures AllowedOf(max, n) == if n <= max then n else max
  {
    if n > 0 {
      AllowedBelowWrap(max, n - 1);
    }
  }

  lemma {:induction false} AllowedGrows(max: u32, m: nat, n: nat)
    requires m <= n
    ensures AllowedOf(max, m) <= AllowedOf(max, n)
  {
    if m < n {
      AllowedGrows(max, m, n - 1);
    }
  }

  lemma AtTheWrap(max: u32)
    ensures AllowedOf(max, TWO_32) == max + 1
  {
    AllowedBelowWrap(max, TWO_32 - 1);
    assert Allowed(max, TWO_32);
  }

  /** A window of `n` calls stays within the limit exactly when the 32-bit counter cannot run over:
      the call that makes it wrap to zero is allowed again. */
  lemma WindowBound(max: u32, n: nat)
    ensures AllowedOf(max, n) <= max <==> n < TWO_32
  {
    if n < TWO_32 {
      AllowedBelowWrap(max, n);
    } else {
      AtTheWrap(max);
      AllowedGrows(max, TWO_32, n);
    }
  }

  // ----- across windows -----

  predicate Ordered(start: nat, times: seq<nat>) {
    && (forall k :: 0 <= k < |times| ==> start <= times[k])
    && (forall j, k :: 0 <= j < k < |times| ==> times[j] <= times[k])
  }

  /** No window of the run gets more than `m` calls. */
  predicate Within(w: Window, times: seq<nat>, m: nat) {
    times == [] || (Within(w, times[..|times| - 1], m) && CalledAll(w, times).calls <= m)
  }

  /** The allowed calls of a run made in the second that starts at `a`. */
  function AllowedIn(max: u32, w: Window, times: seq<nat>, a: nat): nat {
    if times == [] then 0
    else
      var n := |times| - 1;
      AllowedIn(max, w, times[..n], a)
      + if a <= times[n] < a + SECOND && Allowed(max, CalledAll(w, times).calls) then 1 else 0
  }

  function Min(a: nat, b: nat): nat { if a <= b then a else b }

  function LastTime(w: Window, times: seq<nat>): nat { if times == [] then w.start else times[|times| - 1] }

  /** What the second can have seen so far: nothing before it begins, the share of a window that was
      open already, or that of two. */
  predicate Share(max: u32, w: Window, last: nat, a: nat, count: nat) {
    && w.start <= last
    && (last < a ==> count == 0)
    && (w.start < a ==> count <= Min(w.calls, max))
    && (a <= w.start < a + SECOND ==> count <= max + Min(w.calls, max))
    && count <= 2 * max
  }

  lemma ShareStep(max: u32, w: Window, last: nat, a: nat, count: nat, now: nat)
    requires Share(max, w, last, a, count) && last <= now && Called(w, now).calls < TWO_32
    ensures Share(max, Called(w, now), now, a,
                  count + if a <= now < a + SECOND && Allowed(max, Called(w, now).calls) then 1 else 0)
  {
  }

  lemma {:induction false} ShareHolds(max: u32, w: Window, times: seq<nat>, a: nat)
    requires w.calls == 0 && Ordered(w.start, times) && Within(w, times, TWO_32 - 1)
    ensures Share(max, CalledAll(w, times), LastTime(w, times), a, AllowedIn(max, w, times, a))
  {
    if times != [] {
      var n: nat := |times| - 1;
      ShareHolds(max, w, times[..n], a);
      ShareStep(max, CalledAll(w, times[..n]), LastTime(w, times[..n]), a, AllowedIn(max, w, times[..n], a), times[n]);
    }
  }

  lemma {:induction false} WithinMore(w: Window, times: seq<nat>, m: nat, k: nat)
    requires Within(w, times, m) && m <= k
    ensures Within(w, times, k)
  {
    if times != [] {
      WithinMore(w, times[..|times| - 1], m, k);
    }
  }

  /** In every run with a clock that does not run back and fewer than 2^32 calls a window, no half-open second
      contains more than twice the configured rate of allowed calls. */
  lemma RateBound(max: u32, created: nat, times: seq<nat>, a: nat)
    requires Ordered(created, times) && Within(Window(created, 0), times, TWO_32 - 1)
    ensures AllowedIn(max, Window(created, 0), times, a) <= 2 * max
  {
    ShareHolds(max, Window(created, 0), times, a);
  }

  // ----- the bound is reached -----

  function Repeat(t: nat, n: nat): seq<nat> { if n == 0 then [] else Repeat(t, n - 1) + [t] }

  lemma RunLast(max: u32, w: Window, times: seq<nat>, t: nat, a: nat)
    ensures CalledAll(w, times + [t]) == Called(CalledAll(w, times), t)
    ensures AllowedIn(max, w, times + [t], a)
         == AllowedIn(max, w, times, a)
            + if a <= t < a + SECOND && Allowed(max, Called(CalledAll(w, times), t).calls) then 1 else 0
  {
    assert (times + [t])[..|times|] == times;
  }

  /** No call at `t` has its window open yet. */
  predicate Unused(was: Window, t: nat) { was.start <= t && (was.calls == 0 || t >= was.start + SECOND) }

  /** The window after `n` calls at `t`. */
  predicate Burst(was: Window, w: Window, t: nat, n: nat) {
    if n == 0 then w == was else w == Window(if t < was.start + SECOND then was.start else t, n)
  }

  lemma BurstStep(was: Window, w: Window, t: nat, n: nat)
    requires Unused(was, t) && Burst(was, w, t, n)
    ensures Burst(was, Called(w, t), t, n + 1) && Called(w, t).calls == n + 1
  {
  }

  lemma BurstLast(max: u32, w: Window, run: seq<nat>, was: Window, t: nat, n: nat, a: nat, m: nat)
    requires a <= t < a + SECOND && Unused(was, t) && Burst(was, CalledAll(w, run), t, n) && Within(w, run, m) && n < m
    ensures AllowedIn(max, w, run + [t], a) == AllowedIn(max, w, run, a) + if Allowed(max, n + 1) then 1 else 0
    ensures Burst(was, CalledAll(w, run + [t]), t, n + 1) && Within(w, run + [t], m)
  {
    RunLast(max, w, run, t, a);
    BurstStep(was, CalledAll(w, run), t, n);
    assert (run + [t])[..|run|] == run;
  }

  /** Of `n` calls at one moment inside an unused window as many are allowed as of a window's first `n`. */
  lemma {:induction false} BurstAllowed(max: u32, w: Window, pre: seq<nat>, t: nat, n: nat, a: nat, m: nat)
    requires a <= t < a + SECOND && Unused(CalledAll(w, pre), t) && Within(w, pre, m) && n <= m
    ensures AllowedIn(max, w, pre + Repeat(t, n), a) == AllowedIn(max, w, pre, a) + AllowedOf(max, n)
    ensures Burst(CalledAll(w, pre), CalledAll(w, pre + Repeat(t, n)), t, n) && Within(w, pre + Repeat(t, n), m)
  {
    if n == 0 {
      assert pre + Repeat(t, 0) == pre;
    } else {
      BurstAllowed(max, w, pre, t, n - 1, a, m);
      var run := pre + Repeat(t, n - 1);
      assert pre + Repeat(t, n) == run + [t];
      BurstLast(max, w, run, CalledAll(w, pre), t, n - 1, a, m);
    }
  }

  /** A burst of `n` calls at the end of one window and one at the start of the next. */
  function TwoBursts(n: nat): seq<nat> { Repeat(SECOND - 1, n) + Repeat(SECOND, n) }

  lemma BurstsAllowed(max: u32, n: nat)
    ensures AllowedIn(max, Window(0, 0), TwoBursts(n), SECOND - 1) == 2 * AllowedOf(max, n)
    ensures Within(Window(0, 0), TwoBursts(n), n)
  {
    var w, first := Window(0, 0), Repeat(SECOND - 1, n);
    BurstAllowed(max, w, [], SECOND - 1, n, SECOND - 1, n);
    assert [] + first == first;
    BurstAllowed(max, w, first, SECOND, n, SECOND - 1, n);
  }

  lemma {:induction false} RepeatedTimes(t: nat, n: nat)
    ensures |Repeat(t, n)| == n && forall k :: 0 <= k < n ==> Repeat(t, n)[k] == t
  {
    if n > 0 {
      RepeatedTimes(t, n - 1);
    }
  }

  lemma BurstsOrdered(n: nat)
    ensures Ordered(0, TwoBursts(n))
  {
    RepeatedTimes(SECOND - 1, n);
    RepeatedTimes(SECOND, n);
  }

  /** Twice the rate is reached. */
  lemma RateBoundReached(max: u32)
    ensures AllowedIn(max, Window(0, 0), TwoBursts(max), SECOND - 1) == 2 * max
  {
    BurstsAllowed(max, max);
    AllowedBelowWrap(max, max);
  }

  // ----- over runs of session calls -----

  /** The clock readings of a run's rate checks. */
  function RateTimes(calls: seq<Call>): seq<nat> {
    if calls == [] then []
    else
      var call := calls[|calls| - 1];
      RateTimes(calls[..|calls| - 1]) + if call.CheckRate? then [call.now] else []
  }

  /** Whether the last of these calls is a rate check that was allowed. */
  predicate LastAllowed(c: Config, s: State, calls: seq<Call>) {
    calls != [] && calls[|calls| - 1].CheckRate? && AfterAll(c, s, calls).windowCount <= c.maxMsgRate
  }

  /** The rate checks a run made in the second from `a` on and was allowed. */
  function AllowedCalls(c: Config, s: State, calls: seq<Call>, a: nat): nat {
    if calls == [] then 0
    else
      AllowedCalls(c, s, calls[..|calls| - 1], a)
      + if LastAllowed(c, s, calls) && a <= calls[|calls| - 1].now < a + SECOND then 1 else 0
  }

  lemma OtherCall(c: Config, s: State, w: Window, call: Call)
    requires Agree(s, w) && !call.CheckRate?
    ensures Agree(After(c, s, call), w)
  {
  }

  lemma TimesLast(calls: seq<Call>, n: nat)
    requires |calls| == n + 1
    ensures RateTimes(calls) == RateTimes(calls[..n]) + if calls[n].CheckRate? then [calls[n].now] else []
  {
  }

  lemma CallAgrees(c: Config, s: State, w: Window, call: Call)
    requires Agree(s, w)
    ensures Agree(After(c, s, call), if call.CheckRate? then Called(w, call.now) else w)
  {
    if call.CheckRate? {
      AgreeStep(s, w, call.now);
    } else {
      OtherCall(c, s, w, call);
    }
  }

  lemma TimesAfter(w: Window, times: seq<nat>, call: Call)
    ensures CalledAll(w, times + if call.CheckRate? then [call.now] else [])
         == if call.CheckRate? then Called(CalledAll(w, times), call.now) else CalledAll(w, times)
  {
    if call.CheckRate? {
      RunLast(0, w, times, call.now, 0);
    } else {
      assert times + [] == times;
    }
  }

  /** In any run of session calls the 32-bit counter is the number of rate checks in the window modulo 2^32. */
  lemma {:induction false} CounterWraps(c: Config, s: State, w: Window, calls: seq<Call>)
    requires Agree(s, w)
    ensures Agree(AfterAll(c, s, calls), CalledAll(w, RateTimes(calls)))
  {
    if calls != [] {
      var n: nat := |calls| - 1;
      CounterWraps(c, s, w, calls[..n]);
      TimesLast(calls, n);
      TimesAfter(w, RateTimes(calls[..n]), calls[n]);
      CallAgrees(c, AfterAll(c, s, calls[..n]), CalledAll(w, RateTimes(calls[..n])), calls[n]);
    }
  }

  lemma DecisionLast(c: Config, s: State, w: Window, calls: seq<Call>, times: seq<nat>, now: nat, a: nat)
    requires calls != [] && calls[|calls| - 1] == CheckRate(now)
    requires Agree(AfterAll(c, s, calls), CalledAll(w, times + [now]))
    requires AllowedCalls(c, s, calls[..|calls| - 1], a) == AllowedIn(c.maxMsgRate, w, times, a)
    ensures AllowedCalls(c, s, calls, a) == AllowedIn(c.maxMsgRate, w, times + [now], a)
  {
    RunLast(c.maxMsgRate, w, times, now, a);
  }

  /** So the session allows what the unbounded window, read modulo 2^32, allows. */
  lemma {:induction false} DecisionsAgree(c: Config, s: State, w: Window, calls: seq<Call>, a: nat)
    requires Agree(s, w)
    ensures AllowedCalls(c, s, calls, a) == AllowedIn(c.maxMsgRate, w, RateTimes(calls), a)
  {
    if calls != [] {
      var n: nat := |calls| - 1;
      DecisionsAgree(c, s, w, calls[..n], a);
      TimesLast(calls, n);
      if calls[n].CheckRate? {
        CounterWraps(c, s, w, calls);
        DecisionLast(c, s, w, calls, RateTimes(calls[..n]), calls[n].now, a);
      } else {
        assert RateTimes(calls[..n]) + [] == RateTimes(calls[..n]);
      }
    }
  }

  /** A new session's runs with a clock that does not run back and at most `m` rate checks a window keep every
      second within twice the rate. */
  ghost predicate Bounded(c: Config, m: nat) {
    forall created: nat, calls: seq<Call>, a: nat {:trigger AllowedCalls(c, Created(created), calls, a)} ::
      Ordered(created, RateTimes(calls)) && Within(Window(created, 0), RateTimes(calls), m)
      ==> AllowedCalls(c, Created(created), calls, a) <= 2 * c.maxMsgRate
  }

  lemma {:induction false} RateCallsTimes(times: seq<nat>)
    ensures RateTimes(RateCalls(times)) == times
  {
    if times != [] {
      var n: nat := |times| - 1;
      RateCallsTimes(times[..n]);
      var calls := RateCalls(times[..n]);
      assert (calls + [CheckRate(times[n])])[..|calls|] == calls;
    }
  }

  lemma BoundedBelowWrap(c: Config, m: nat)
    requires m < TWO_32
    ensures Bounded(c, m)
  {
    forall created: nat, calls: seq<Call>, a: nat
      | Ordered(created, RateTimes(calls)) && Within(Window(created, 0), RateTimes(calls), m)
      ensures AllowedCalls(c, Created(created), calls, a) <= 2 * c.maxMsgRate
    {
      DecisionsAgree(c, Created(created), Window(created, 0), calls, a);
      WithinMore(Window(created, 0), RateTimes(calls), m, TWO_32 - 1);
      RateBound(c.maxMsgRate, created, RateTimes(calls), a);
    }
  }

  /** Two bursts of 2^32 calls: in each window the call that wraps the counter is allowed on top. */
  lemma WrapBreaksBound(c: Config, m: nat)
    requires m >= TWO_32
    ensures !Bounded(c, m)
  {
    var n: nat := TWO_32;
    var times := TwoBursts(n);
    var calls := RateCalls(times);
    BurstsAllowed(c.maxMsgRate, n);
    AtTheWrap(c.maxMsgRate);
    BurstsOrdered(n);
    WithinMore(Window(0, 0), times, n, m);
    RateCallsTimes(times);
    DecisionsAgree(c, Created(0), Window(0, 0), calls, SECOND - 1);
    assert AllowedCalls(c, Created(0), calls, SECOND - 1) == 2 * (c.maxMsgRate + 1);
  }

  /** The bound of twice the rate in any second holds for all runs with at most `m` rate checks a window if and
      only if `m` is below 2^32. */
  lemma BoundedExactly(c: Config, m: nat)
    ensures Bounded(c, m) <==> m < TWO_32
  {
    if m < TWO_32 {
      BoundedBelowWrap(c, m);
    } else {
      WrapBreaksBound(c, m);
    }
  }
}
