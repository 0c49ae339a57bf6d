/** The dead-peer timer of `src/session.rs`. */
module HeartbeatTimer {
  import opened Session

  // ----- no disconnect without a probe -----

  /** The call that sends the probe: a check that finds the peer silent and no probe outstanding. */
  predicate Probes(c: Config, s: State, call: Call) {
    call.CheckHeartbeat? && !s.probePending && After(c, s, call).probePending
  }

  predicate Clears(call: Call) { call.MessageReceived? || call.Logon? || call.DisconnectedCall? }

  predicate ProbedAt(c: Config, s: State, calls: seq<Call>, k: nat) {
    k < |calls| && Probes(c, AfterAll(c, s, calls[..k]), calls[k])
    && forall j :: k < j < |calls| ==> !Clears(calls[j])
  }

  lemma ProbeFound(c: Config, s: State, calls: seq<Call>, k: nat, call: Call)
    requires ProbedAt(c, s, calls, k) && !Clears(call)
    ensures ProbedAt(c, s, calls + [call], k)
  {
    assert (calls + [call])[..k] == calls[..k];
  }

  /** In every run of session calls, an outstanding probe was sent by some check, and nothing has been
      received since. */
  lemma {:induction false} PendingWasProbed(c: Config, s: State, calls: seq<Call>) returns (k: nat)
    requires !s.probePending && AfterAll(c, s, calls).probePending
    ensures ProbedAt(c, s, calls, k)
  {
    var n: nat := |calls| - 1;
    var before, call := calls[..n], calls[n];
    assert calls == before + [call];
    if AfterAll(c, s, before).probePending {
      k := PendingWasProbed(c, s, before);
      ProbeFound(c, s, before, k, call);
    } else {
      k := n;
    }
  }

  /** A check that gives the peer up follows a probe with nothing received in between, and comes no
      earlier than the interval and five seconds after the last receipt. */
  lemma DisconnectIsJustified(c: Config, created: nat, calls: seq<Call>, now: nat) returns (k: nat)
    requires HeartbeatAction(c, AfterAll(c, Created(created), calls), now) == Disconnect
    ensures ProbedAt(c, Created(created), calls, k)
    ensures now >= AfterAll(c, Created(created), calls).lastReceived + Timeout(c)
  {
    k := PendingWasProbed(c, Created(created), calls);
  }

  // ----- an engine that is checked is not silent itself -----

  /** Right after a check of an Active session less than the interval has passed since it last sent; and where it had
      passed, the check says Send. */
  lemma CheckedIsHeard(c: Config, s: State, now: nat)
    requires s.state == Active && now >= s.lastSent
    ensures var after := After(c, s, CheckHeartbeat(now));
      now - after.lastSent < c.heartbeatInterval || now == after.lastSent
    ensures now - s.lastSent >= c.heartbeatInterval ==> HeartbeatAction(c, s, now) == Send
  {
  }

  // ----- a silent peer is given up in time -----

  /** What happens to a session that hears nothing: timer checks and its own sending. */
  predicate Silent(call: Call) { call.CheckHeartbeat? || call.MessageSent? }

  /** Time of the last check in a silent run, or of `start` when it has none. */
  function LastCheck(calls: seq<Call>, start: nat): nat {
    if calls == [] then start
    else
      var call := calls[|calls| - 1];
      if call.CheckHeartbeat? then call.now else LastCheck(calls[..|calls| - 1], start)
  }

  /** The clock never runs back from `start`, and each check comes at most `d` after the one before. */
  predicate Paced(calls: seq<Call>, start: nat, d: nat) {
    forall k {:trigger calls[k]} :: 0 <= k < |calls| ==>
      && Silent(calls[k])
      && LastCheck(calls[..k], start) <= calls[k].now
      && (calls[k].CheckHeartbeat? ==> calls[k].now <= LastCheck(calls[..k], start) + d)
  }

  /** No check of the run gave the peer up. */
  predicate Patient(c: Config, s: State, calls: seq<Call>) {
    forall k :: 0 <= k < |calls| && calls[k].CheckHeartbeat? ==>
      HeartbeatAction(c, AfterAll(c, s, calls[..k]), calls[k].now) != Disconnect
  }

  /** How long past the timeout the checks can go on: two periods, or three when a heartbeat can come due
      between the probe and the check that would have given up. */
  function Slack(c: Config, d: nat): nat { if 2 * d < c.heartbeatInterval then 2 * d else 3 * d }

  /** How far the timer can be. Before the timeout no probe is out; the first check past it leaves a probe or
      a fresh heartbeat behind, the second a probe and a heartbeat at
      most `d` old, and a third, where heartbeats are that frequent, a probe and a fresh heartbeat. */
  predicate Stage(c: Config, s: State, r: nat, d: nat, last: nat) {
    && s.state == Active && s.lastReceived == r && r <= last
    && (|| (last < r + Timeout(c) && !s.probePending)
        || (r + Timeout(c) <= last < r + Timeout(c) + d && (s.probePending || s.lastSent >= last))
        || (r + Timeout(c) <= last < r + Timeout(c) + 2 * d && s.probePending && s.lastSent + d >= last)
        || (r + Timeout(c) <= last < r + Timeout(c) + 3 * d && s.probePending && s.lastSent >= last
            && c.heartbeatInterval <= 2 * d))
  }

  lemma StageCheck(c: Config, s: State, r: nat, d: nat, last: nat, now: nat)
    requires d < c.heartbeatInterval && Stage(c, s, r, d, last) && last <= now <= last + d
    requires HeartbeatAction(c, s, now) != Disconnect
    ensures Stage(c, HeartbeatChecked(c, s, now), r, d, now)
  {
  }

  lemma StageSent(c: Config, s: State, r: nat, d: nat, last: nat, now: nat)
    requires Stage(c, s, r, d, last) && last <= now
    ensures Stage(c, s.(lastSent := now), r, d, last)
  {
  }

  lemma PacedPrefix(calls: seq<Call>, start: nat, d: nat, n: nat)
    requires Paced(calls, start, d) && n <= |calls|
    ensures Paced(calls[..n], start, d)
  {
    forall k | 0 <= k < n ensures calls[..n][..k] == calls[..k] && calls[..n][k] == calls[k] {
    }
  }

  lemma PatientPrefix(c: Config, s: State, calls: seq<Call>, n: nat)
    requires Patient(c, s, calls) && n <= |calls|
    ensures Patient(c, s, calls[..n])
  {
    forall k | 0 <= k < n ensures calls[..n][..k] == calls[..k] && calls[..n][k] == calls[k] {
    }
  }

  lemma {:induction false} StageHolds(c: Config, s: State, calls: seq<Call>, d: nat)
    requires s.state == Active && !s.probePending
    requires d < c.heartbeatInterval && Paced(calls, s.lastReceived, d) && Patient(c, s, calls)
    ensures Stage(c, AfterAll(c, s, calls), s.lastReceived, d, LastCheck(calls, s.lastReceived))
  {
    if calls != [] {
      var n: nat := |calls| - 1;
      PacedPrefix(calls, s.lastReceived, d, n);
      PatientPrefix(c, s, calls, n);
      StageHolds(c, s, calls[..n], d);
      var before, last := AfterAll(c, s, calls[..n]), LastCheck(calls[..n], s.lastReceived);
      if calls[n].CheckHeartbeat? {
        StageCheck(c, before, s.lastReceived, d, last, calls[n].now);
      } else {
        StageSent(c, before, s.lastReceived, d, last, calls[n].now);
      }
    }
  }

  /** With checks at most `d` apart, every silent run whose checks reach `bound` after the last receipt has
      given the peer up. */
  ghost predicate GivenUpBy(c: Config, d: nat, bound: nat) {
    forall s: State, calls: seq<Call> {:trigger Patient(c, s, calls)} ::
      s.state == Active && !s.probePending && Paced(calls, s.lastReceived, d)
      && LastCheck(calls, s.lastReceived) >= s.lastReceived + bound
      ==> !Patient(c, s, calls)
  }

  lemma SilenceIsNoticed(c: Config, d: nat)
    requires d < c.heartbeatInterval
    ensures GivenUpBy(c, d, Timeout(c) + Slack(c, d))
  {
    forall s: State, calls: seq<Call> | s.state == Active && !s.probePending && Paced(calls, s.lastReceived, d)
        && LastCheck(calls, s.lastReceived) >= s.lastReceived + Timeout(c) + Slack(c, d) && Patient(c, s, calls)
      ensures false
    {
      StageHolds(c, s, calls, d);
    }
  }

  // ----- checks an interval apart or more never get past the heartbeat -----

  /** `n` checks, `d` apart. */
  function Metronome(d: nat, n: nat): seq<Call> {
    if n == 0 then [] else Metronome(d, n - 1) + [CheckHeartbeat(n * d)]
  }

  /** A session at time zero that has sent and received just now. */
  const LISTENING: State := Created(0).(state := Active)

  lemma PacedMore(calls: seq<Call>, start: nat, d: nat, now: nat)
    requires Paced(calls, start, d) && LastCheck(calls, start) <= now <= LastCheck(calls, start) + d
    ensures Paced(calls + [CheckHeartbeat(now)], start, d)
    ensures LastCheck(calls + [CheckHeartbeat(now)], start) == now
  {
    var all := calls + [CheckHeartbeat(now)];
    forall k | 0 <= k < |all| ensures all[..k] == (if k < |calls| then calls[..k] else calls) {
    }
    assert all[..|calls|] == calls;
  }

  lemma PatientMore(c: Config, s: State, calls: seq<Call>, now: nat)
    requires Patient(c, s, calls) && HeartbeatAction(c, AfterAll(c, s, calls), now) == Send
    ensures Patient(c, s, calls + [CheckHeartbeat(now)])
    ensures AfterAll(c, s, calls + [CheckHeartbeat(now)]) == HeartbeatChecked(c, AfterAll(c, s, calls), now)
  {
    var all := calls + [CheckHeartbeat(now)];
    assert all[..|calls|] == calls;
    forall k | 0 <= k < |all| ensures all[..k] == (if k < |calls| then calls[..k] else calls) {
    }
  }

  lemma Tock(d: nat, n: nat)
    requires n > 0
    ensures n * d == (n - 1) * d + d
  {
  }

  /** Each of them finds the last heartbeat an interval old and sends the next one. */
  lemma {:induction false} MetronomePatient(c: Config, d: nat, n: nat)
    requires d >= c.heartbeatInterval
    ensures Paced(Metronome(d, n), 0, d) && LastCheck(Metronome(d, n), 0) == n * d
    ensures Patient(c, LISTENING, Metronome(d, n))
    ensures AfterAll(c, LISTENING, Metronome(d, n)) == LISTENING.(lastSent := n * d)
  {
    if n > 0 {
      MetronomePatient(c, d, n - 1);
      Tock(d, n);
      PacedMore(Metronome(d, n - 1), 0, d, n * d);
      PatientMore(c, LISTENING, Metronome(d, n - 1), n * d);
    }
  }

  lemma NeverGivenUp(c: Config, d: nat, bound: nat)
    requires d > 0 && d >= c.heartbeatInterval
    ensures !GivenUpBy(c, d, bound)
  {
    MetronomePatient(c, d, bound);
    Beyond(bound, d);
    assert Patient(c, LISTENING, Metronome(d, bound));
  }

  lemma Beyond(n: nat, d: nat)
    requires d > 0
    ensures n * d >= n
  {
  }

  /** Checks that all fall on the last receipt's own moment never reach a positive bound. */
  lemma {:induction false} NoTimePasses(calls: seq<Call>, start: nat)
    requires Paced(calls, start, 0)
    ensures LastCheck(calls, start) == start
  {
    if calls != [] {
      var n: nat := |calls| - 1;
      PacedPrefix(calls, start, 0, n);
      NoTimePasses(calls[..n], start);
    }
  }

  /** A silent peer is always given up, within the timeout and the slack, if and only if checks come
      less than a heartbeat interval apart (or no time passes between them at all); otherwise no bound holds. */
  lemma GivenUpExactly(c: Config, d: nat)
    ensures (exists bound :: GivenUpBy(c, d, bound)) <==> d == 0 || d < c.heartbeatInterval
    ensures GivenUpBy(c, d, Timeout(c) + Slack(c, d)) <==> d == 0 || d < c.heartbeatInterval
  {
    if d < c.heartbeatInterval {
      SilenceIsNoticed(c, d);
    } else if d == 0 {
      forall s: State, calls: seq<Call> | Paced(calls, s.lastReceived, d)
        ensures LastCheck(calls, s.lastReceived) < s.lastReceived + Timeout(c)
      {
        NoTimePasses(calls, s.lastReceived);
      }
      assert GivenUpBy(c, d, Timeout(c) + Slack(c, d));
    } else {
      forall bound ensures !GivenUpBy(c, d, bound) {
        NeverGivenUp(c, d, bound);
      }
    }
  }

  /** The first check that gives the peer up comes no earlier than the interval and five seconds, and before
      that plus three check periods, or four when two of them reach the interval. */
  lemma FirstDisconnectInTime(c: Config, s: State, calls: seq<Call>, d: nat, now: nat)
    requires s.state == Active && !s.probePending && d < c.heartbeatInterval
    requires Paced(calls + [CheckHeartbeat(now)], s.lastReceived, d) && Patient(c, s, calls)
    requires HeartbeatAction(c, AfterAll(c, s, calls), now) == Disconnect
    ensures s.lastReceived + Timeout(c) <= now < s.lastReceived + Timeout(c) + Slack(c, d) + d
  {
    var all, n := calls + [CheckHeartbeat(now)], |calls|;
    assert all[..n] == calls && all[n] == CheckHeartbeat(now);
    PacedPrefix(all, s.lastReceived, d, n);
    StageHolds(c, s, calls, d);
  }
}
