/** What whole runs of session calls do to a session of `src/session.rs`: its counters count, Resending
    always goes back to a gap, and attempts to reconnect stay within their limit. */
module SessionRuns {
  import opened Bytes
  import opened Session

  // ----- the counters -----

  /** Neither the start of a day nor a filled gap sets a counter by hand. */
  predicate Undisturbed(calls: seq<Call>) {
    forall call :: call in calls ==> !call.ResetSequences? && !call.GapFilled?
  }

  /** How many outbound numbers a run handed out. */
  function HandedOut(calls: seq<Call>): nat {
    if calls == [] then 0
    else HandedOut(calls[..|calls| - 1]) + if calls[|calls| - 1].NextOutbound? then 1 else 0
  }

  /** How many inbound numbers a run found to be the expected one. */
  function Accepted(c: Config, s: State, calls: seq<Call>): nat {
    if calls == [] then 0
    else
      var before, call := AfterAll(c, s, calls[..|calls| - 1]), calls[|calls| - 1];
      Accepted(c, s, calls[..|calls| - 1]) + if call.Inbound? && call.seqNum == before.inbound then 1 else 0
  }

  /** A 64-bit counter that has stepped `n` times from `x`, and perhaps once more. */
  lemma Stepped(x: int, n: nat, more: bool, was: u64, now: u64)
    requires was == Wrap64(x + n) && now == if more then Wrap64(was + 1) else was
    ensures now == Wrap64(x + (n + if more then 1 else 0))
  {
  }

  lemma CountedCall(c: Config, s: State, call: Call)
    requires !call.ResetSequences? && !call.GapFilled?
    ensures After(c, s, call).outbound == if call.NextOutbound? then Wrap64(s.outbound + 1) else s.outbound
    ensures After(c, s, call).inbound
         == if call.Inbound? && call.seqNum == s.inbound then Wrap64(s.inbound + 1) else s.inbound
  {
  }

  lemma UndisturbedPrefix(calls: seq<Call>, n: nat)
    requires Undisturbed(calls) && n <= |calls|
    ensures Undisturbed(calls[..n])
  {
    forall call | call in calls[..n] ensures call in calls {
    }
  }

  /** In every undisturbed run the outbound counter has moved once for each number handed out, modulo 2^64,
      whatever else happened in between. */
  lemma {:induction false} OutboundCounts(c: Config, s: State, calls: seq<Call>)
    requires Undisturbed(calls)
    ensures AfterAll(c, s, calls).outbound == Wrap64(s.outbound + HandedOut(calls))
  {
    if calls != [] {
      var n: nat := |calls| - 1;
      var before, call := AfterAll(c, s, calls[..n]), calls[n];
      assert call in calls;
      UndisturbedPrefix(calls, n);
      OutboundCounts(c, s, calls[..n]);
      CountedCall(c, before, call);
      Stepped(s.outbound, HandedOut(calls[..n]), call.NextOutbound?, before.outbound, After(c, before, call).outbound);
    }
  }

  lemma CountedInbound(c: Config, s: State, before: State, call: Call, n: nat)
    requires !call.ResetSequences? && !call.GapFilled? && before.inbound == Wrap64(s.inbound + n)
    ensures After(c, before, call).inbound
         == Wrap64(s.inbound + (n + if call.Inbound? && call.seqNum == before.inbound then 1 else 0))
  {
    CountedCall(c, before, call);
    Stepped(s.inbound, n, call.Inbound? && call.seqNum == before.inbound,
            before.inbound, After(c, before, call).inbound);
  }

  /** And the inbound counter once for each expected number heard. */
  lemma {:induction false} InboundCounts(c: Config, s: State, calls: seq<Call>)
    requires Undisturbed(calls)
    ensures AfterAll(c, s, calls).inbound == Wrap64(s.inbound + Accepted(c, s, calls))
  {
    if calls != [] {
      var n: nat := |calls| - 1;
      var before, call := AfterAll(c, s, calls[..n]), calls[n];
      UndisturbedPrefix(calls, n);
      InboundCounts(c, s, calls[..n]);
      assert call in calls;
      CountedInbound(c, s, before, call, Accepted(c, s, calls[..n]));
    }
  }

  // ----- Resending -----

  /** The calls that put a session into another state. */
  predicate SetsState(call: Call) {
    call.Logon? || call.GapFilled? || call.LogoutSentCall? || call.DisconnectedCall? || call.ReconnectAttempt?
  }

  /** The `k`-th call heard a number beyond the expected one, and nothing has set the state since. */
  predicate GapAt(c: Config, s: State, calls: seq<Call>, k: nat) {
    k < |calls| && calls[k].Inbound? && calls[k].seqNum > AfterAll(c, s, calls[..k]).inbound
    && forall j :: k < j < |calls| ==> !SetsState(calls[j])
  }

  lemma GapStays(c: Config, s: State, calls: seq<Call>, k: nat, call: Call)
    requires GapAt(c, s, calls, k) && !SetsState(call)
    ensures GapAt(c, s, calls + [call], k)
  {
    assert (calls + [call])[..k] == calls[..k];
  }

  lemma LeavesResending(c: Config, s: State, call: Call)
    ensures After(c, s, call).state == Resending
       <==> (call.Inbound? && call.seqNum > s.inbound) || (s.state == Resending && !SetsState(call))
  {
  }

  lemma {:induction false} ResendingHasGap(c: Config, s: State, calls: seq<Call>) returns (k: nat)
    requires s.state != Resending && AfterAll(c, s, calls).state == Resending
    ensures GapAt(c, s, calls, k)
  {
    var n: nat := |calls| - 1;
    var before, call := calls[..n], calls[n];
    assert calls == before + [call];
    LeavesResending(c, AfterAll(c, s, before), call);
    if call.Inbound? && call.seqNum > AfterAll(c, s, before).inbound {
      k := n;
    } else {
      k := ResendingHasGap(c, s, before);
      GapStays(c, s, before, k, call);
    }
  }

  lemma {:induction false} GapMeansResending(c: Config, s: State, calls: seq<Call>, k: nat)
    requires GapAt(c, s, calls, k)
    ensures AfterAll(c, s, calls).state == Resending
  {
    var n: nat := |calls| - 1;
    LeavesResending(c, AfterAll(c, s, calls[..n]), calls[n]);
    if k < n {
      assert calls[..n][..k] == calls[..k];
      GapMeansResending(c, s, calls[..n], k);
    }
  }

  /** After any run a session is in Resending if and only if it heard a number beyond the expected one, in
      whatever state it was, and no call has set its state since. */
  lemma ResendingExactly(c: Config, s: State, calls: seq<Call>)
    requires s.state != Resending
    ensures AfterAll(c, s, calls).state == Resending <==> exists k :: GapAt(c, s, calls, k)
  {
    if AfterAll(c, s, calls).state == Resending {
      var k := ResendingHasGap(c, s, calls);
    }
    forall k | GapAt(c, s, calls, k) ensures AfterAll(c, s, calls).state == Resending {
      GapMeansResending(c, s, calls, k);
    }
  }

  // ----- counters set by hand -----

  /** A gap is healed by naming the number that came: the session is Active, and that number is the next accepted. */
  lemma GapHealed(c: Config, s: State, number: u64, heard: nat, now: nat)
    requires number > s.inbound
    ensures var gap := After(c, s, Inbound(number, heard)); var healed := After(c, gap, GapFilled(number));
      && gap.state == Resending && gap.inbound == s.inbound
      && healed.state == Active && After(c, healed, Inbound(number, now)).inbound == Wrap64(number + 1)
      && After(c, healed, Inbound(number, now)).state == Active
  {
  }

  /** A run that starts a day counts from 1, whatever came before. */
  lemma DayCounts(c: Config, s: State, calls: seq<Call>)
    requires Undisturbed(calls)
    ensures var day := After(c, s, ResetSequences); var end := AfterAll(c, day, calls);
      end.outbound == Wrap64(1 + HandedOut(calls)) && end.inbound == Wrap64(1 + Accepted(c, day, calls))
  {
    OutboundCounts(c, After(c, s, ResetSequences), calls);
    InboundCounts(c, After(c, s, ResetSequences), calls);
  }

  // ----- reconnecting -----

  /** Every attempt to reconnect is made when `should_reconnect` says so. */
  predicate Asked(c: Config, s: State, calls: seq<Call>) {
    forall k :: 0 <= k < |calls| && calls[k].ReconnectAttempt? ==> MayReconnect(c, AfterAll(c, s, calls[..k]))
  }

  /** How many attempts a run has made since it was last connected. */
  function Attempts(c: Config, s: State, calls: seq<Call>): nat {
    if calls == [] then 0
    else
      var before, call := AfterAll(c, s, calls[..|calls| - 1]), calls[|calls| - 1];
      var n := Attempts(c, s, calls[..|calls| - 1]);
      if call.ReconnectAttempt? then n + 1
      else if call.Connected? && before.state in {Disconnected, Connecting} then 0
      else n
  }

  /** A new session never makes more than `bound` attempts in a row. */
  ghost predicate AttemptsWithin(c: Config, bound: nat) {
    forall now, calls :: Asked(c, Created(now), calls) ==> Attempts(c, Created(now), calls) <= bound
  }

  lemma AskedPrefix(c: Config, s: State, calls: seq<Call>, n: nat)
    requires n <= |calls| && Asked(c, s, calls)
    ensures Asked(c, s, calls[..n])
  {
    forall k | 0 <= k < n && calls[..n][k].ReconnectAttempt? ensures MayReconnect(c, AfterAll(c, s, calls[..n][..k])) {
      assert calls[..n][..k] == calls[..k] && calls[..n][k] == calls[k];
    }
  }

  lemma AttemptsStep(c: Config, s: State, call: Call, n: nat, more: nat)
    requires s.reconnectAttempts == Wrap32(n)
    requires more == if call.ReconnectAttempt? then n + 1
                     else if call.Connected? && s.state in {Disconnected, Connecting} then 0 else n
    ensures After(c, s, call).reconnectAttempts == Wrap32(more)
  {
  }

  lemma {:induction false} AttemptsCounted(c: Config, now: nat, calls: seq<Call>)
    ensures AfterAll(c, Created(now), calls).reconnectAttempts == Wrap32(Attempts(c, Created(now), calls))
  {
    if calls != [] {
      var n: nat := |calls| - 1;
      AttemptsCounted(c, now, calls[..n]);
      AttemptsStep(c, AfterAll(c, Created(now), calls[..n]), calls[n], Attempts(c, Created(now), calls[..n]),
                   Attempts(c, Created(now), calls));
    }
  }

  lemma {:induction false} AttemptsStop(c: Config, now: nat, calls: seq<Call>)
    requires Asked(c, Created(now), calls) && (c.role == Initiator ==> c.maxReconnectAttempts > 0)
    ensures Attempts(c, Created(now), calls) <= if c.role == Initiator then c.maxReconnectAttempts else 0
  {
    if calls != [] {
      var n: nat := |calls| - 1;
      AskedPrefix(c, Created(now), calls, n);
      AttemptsStop(c, now, calls[..n]);
      AttemptsCounted(c, now, calls[..n]);
      assert calls[n].ReconnectAttempt? ==> MayReconnect(c, AfterAll(c, Created(now), calls[..n]));
    }
  }

  /** `n` attempts that all fail. */
  function Retries(n: nat): seq<Call> {
    if n == 0 then [] else Retries(n - 1) + [ReconnectAttempt] + [DisconnectedCall]
  }

  lemma OneMore(c: Config, s: State, calls: seq<Call>, call: Call)
    ensures AfterAll(c, s, calls + [call]) == After(c, AfterAll(c, s, calls), call)
    ensures Attempts(c, s, calls + [call])
         == if call.ReconnectAttempt? then Attempts(c, s, calls) + 1
            else if call.Connected? && AfterAll(c, s, calls).state in {Disconnected, Connecting} then 0
            else Attempts(c, s, calls)
  {
    assert (calls + [call])[..|calls|] == calls;
  }

  lemma AskedMore(c: Config, s: State, calls: seq<Call>, call: Call)
    requires Asked(c, s, calls) && (call.ReconnectAttempt? ==> MayReconnect(c, AfterAll(c, s, calls)))
    ensures Asked(c, s, calls + [call])
  {
    var more := calls + [call];
    forall k | 0 <= k < |more| && more[k].ReconnectAttempt? ensures MayReconnect(c, AfterAll(c, s, more[..k])) {
      assert k < |calls| ==> more[..k] == calls[..k] && more[k] == calls[k];
      assert more[..|calls|] == calls;
    }
  }

  lemma OneRetry(c: Config, s: State, calls: seq<Call>)
    requires Asked(c, s, calls) && MayReconnect(c, AfterAll(c, s, calls))
    ensures var more := calls + [ReconnectAttempt] + [DisconnectedCall];
      Asked(c, s, more) && Attempts(c, s, more) == Attempts(c, s, calls) + 1
      && AfterAll(c, s, more).state == Disconnected
  {
    OneMore(c, s, calls, ReconnectAttempt);
    AskedMore(c, s, calls, ReconnectAttempt);
    OneMore(c, s, calls + [ReconnectAttempt], DisconnectedCall);
    AskedMore(c, s, calls + [ReconnectAttempt], DisconnectedCall);
  }

  lemma MayRetry(c: Config, s: State, n: nat)
    requires c.role == Initiator && s.state == Disconnected && s.reconnectAttempts == Wrap32(n)
    requires c.maxReconnectAttempts == 0 || n < c.maxReconnectAttempts
    ensures MayReconnect(c, s)
  {
  }

  lemma {:induction false} RetriesAsked(c: Config, now: nat, n: nat)
    requires c.role == Initiator && (c.maxReconnectAttempts == 0 || n <= c.maxReconnectAttempts)
    ensures Asked(c, Created(now), Retries(n)) && Attempts(c, Created(now), Retries(n)) == n
    ensures AfterAll(c, Created(now), Retries(n)).state == Disconnected
  {
    if n > 0 {
      RetriesAsked(c, now, n - 1);
      AttemptsCounted(c, now, Retries(n - 1));
      MayRetry(c, AfterAll(c, Created(now), Retries(n - 1)), n - 1);
      OneRetry(c, Created(now), Retries(n - 1));
    }
  }

  /** Over all runs that ask first, at most `bound` attempts are ever made in a row if and only if the session is an
      acceptor, or has a limit within the bound. */
  lemma AttemptsBoundedExactly(c: Config, bound: nat)
    ensures AttemptsWithin(c, bound) <==> c.role == Acceptor || 0 < c.maxReconnectAttempts <= bound
  {
    if c.role == Acceptor || 0 < c.maxReconnectAttempts <= bound {
      forall now, calls | Asked(c, Created(now), calls) ensures Attempts(c, Created(now), calls) <= bound {
        AttemptsStop(c, now, calls);
      }
    } else {
      RetriesAsked(c, 0, bound + 1);
    }
  }
}
