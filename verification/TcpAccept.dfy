/** The TCP accept path of `src/engine.rs`: the peer's first Logon is read elsewhere, `handle_inbound_logon` answers
    it, and the receive loop takes over. The Logon is never counted, so the loop goes on expecting number 1. */
module TcpAccept {
  import opened Bytes
  import opened EngineMessages
  import opened EngineProtocol
  import opened Parser
  import S = Session

  /** One step of the engine: its own, bytes a stream's `recv` returned in any pieces, or the error of a lost
      connection. */
  datatype Event = Acts(move: Move) | Heard(bytes: seq<byte>) | Lost

  function StepBy(e: Engine, event: Event): Option<Engine> {
    match event
    case Acts(move) =>
      var o := Local(e, move);
      if o.None? then None else Some(Recorded(e, o.value))
    case Heard(bytes) => if e.pc == Recv && |bytes| <= FRAME_LIMIT then Some(Fed(e, bytes)) else None
    case Lost =>
      if e.pc == Recv then Some(Call(e, S.DisconnectedCall).(shouldStop := true, pc := Stopped)) else None
  }

  /** The engine after a run; None when some step was not enabled. */
  function Driven(e: Engine, events: seq<Event>): Option<Engine> {
    if events == [] then Some(e)
    else
      var before := Driven(e, events[..|events| - 1]);
      if before.None? then None else StepBy(before.value, events[|events| - 1])
  }

  /** The message the next dispatch processes: one is buffered whole, and it parses. */
  function Parsed(e: Engine): Option<seq<byte>> {
    var b := Boundary(e.recvBuf);
    if b.None? || ReadHeader(e.recvBuf[..b.value]).None? then None else Some(e.recvBuf[..b.value])
  }

  /** The message a step processes. */
  function HeardBy(e: Engine, event: Event): Option<seq<byte>> {
    if event.Acts? && event.move.Dispatch? then Parsed(e) else None
  }

  function NumberOf(m: seq<byte>): Option<u64> {
    var h := ReadHeader(m);
    if h.None? then None else h.value.seqNum
  }

  /** The gap `validate_inbound_seq` reports when `expected` is next and `number` comes. */
  function Gap(expected: u64, number: Option<u64>): seq<(u64, u64)> {
    if number.Some? && number.value > expected then [(expected, number.value)] else []
  }

  /** The gap a step reports. */
  function Report(e: Engine, event: Event): seq<(u64, u64)> {
    var m := HeardBy(e, event);
    if m.Some? then Gap(e.session.inbound, NumberOf(m.value)) else []
  }

  /** The gaps reported in a run, in order. */
  function Reports(e: Engine, events: seq<Event>): seq<(u64, u64)> {
    if events == [] then []
    else
      var before := Driven(e, events[..|events| - 1]);
      Reports(e, events[..|events| - 1]) + if before.Some? then Report(before.value, events[|events| - 1]) else []
  }

  /** One gap for each message numbered beyond 1, from 1 up to its number. */
  function GapsFromOne(ms: seq<seq<byte>>): seq<(u64, u64)> {
    if ms == [] then [] else GapsFromOne(ms[..|ms| - 1]) + Gap(1, NumberOf(ms[|ms| - 1]))
  }

  predicate NoneIsFirst(ms: seq<seq<byte>>) { forall k :: 0 <= k < |ms| ==> NumberOf(ms[k]) != Some(1) }

  /** What a peer that counts sends behind its Logon. */
  predicate AllBeyond(ms: seq<seq<byte>>) {
    forall k :: 0 <= k < |ms| ==> NumberOf(ms[k]).Some? && NumberOf(ms[k]).value > 1
  }

  /** A new engine that has answered its peer's Logon. */
  function Answered(config: S.Config, id: Identity, now: nat, clock: Clock): Engine {
    var e := NewEngine(config, id, false, now);
    Recorded(e, LogonAnswered(e, clock))
  }

  /** Still expecting the number of the Logon that was read elsewhere. */
  predicate Stuck(e: Engine) { e.session.inbound == 1 && e.pc != Start }

  lemma AnsweredIs(config: S.Config, id: Identity, now: nat, clock: Clock)
    ensures var e := Answered(config, id, now, clock);
      Stuck(e) && e.session.state == S.Active && e.processed == []
  {
  }

  /** It has said one message, its Logon with number 1, and counted it as sent. */
  lemma AnswersLogon(config: S.Config, id: Identity, now: nat, clock: Clock)
    requires Usable(id)
    ensures var e := Answered(config, id, now, clock);
      && |e.sent| == 1 && ReadHeader(e.sent[0]) == Some(Header(Some(LOGON), Some(1)))
      && e.session.outbound == 2 && e.session.lastSent == clock.sent && e.session.lastReceived == clock.received
  {
    var e := NewEngine(config, id, false, now);
    AnswerIs(e, clock, LogonAnswered(e, clock));
    SessionMessageRead(id, LogonKind, 1, clock.wall);
    assert [] + Payloads(id, LogonAnswered(e, clock)) == Payloads(id, LogonAnswered(e, clock));
  }

  lemma AnswerIs(e: Engine, clock: Clock, o: Outcome)
    requires o == LogonAnswered(e, clock) && e.session.state == S.Disconnected
    ensures o.out == Some(Own(LogonKind, e.session.outbound, clock.wall)) && o.engine.id == e.id
    ensures o.engine.session.outbound == Wrap64(e.session.outbound + 1)
    ensures o.engine.session.lastSent == clock.sent && o.engine.session.lastReceived == clock.received
  {
  }

  // ----- one step -----

  lemma HandleHears(e: Engine, m: seq<byte>, msgType: seq<byte>, clock: Clock, appFails: bool)
    requires e.pc == Process
    ensures var o := Handle(e, m, msgType, clock, appFails);
      o.engine.session.inbound == e.session.inbound && o.engine.processed == e.processed && o.engine.pc != Start
  {
    HandleDoes(e, m, msgType, clock, appFails);
  }

  /** Noting a message counts it if it has the expected number, and enters Resending if it is beyond. */
  predicate NotedAs(e: Engine, m: seq<byte>, number: Option<u64>, n: Engine) {
    && n.processed == e.processed + [m] && n.pc == e.pc
    && n.session.inbound == (if number == Some(e.session.inbound) then Wrap64(e.session.inbound + 1)
                             else e.session.inbound)
    && (Gap(e.session.inbound, number) != [] ==> n.session.state == S.Resending)
  }

  lemma NotedHears(e: Engine, cut: Engine, m: seq<byte>, number: Option<u64>, clock: Clock)
    requires cut == e.(recvBuf := cut.recvBuf)
    ensures NotedAs(e, m, number, Noted(cut, m, number, clock))
  {
  }

  /** What a step does to the inbound counter and to the messages processed, when it processes `m` or none. */
  predicate Hearing(e: Engine, m: Option<seq<byte>>, after: Engine) {
    && e.pc != Start && after.pc != Start
    && after.processed == e.processed + (if m.Some? then [m.value] else [])
    && after.session.inbound == (if m.Some? && NumberOf(m.value) == Some(e.session.inbound)
                                 then Wrap64(e.session.inbound + 1) else e.session.inbound)
  }

  /** A dispatch that has cut off and parsed `m`: note it and act on its type. */
  lemma DispatchedAs(e: Engine, m: seq<byte>, clock: Clock, appFails: bool)
    returns (n: Engine, msgType: Option<seq<byte>>)
    requires e.pc == Process && Parsed(e) == Some(m)
    ensures NotedAs(e, m, NumberOf(m), n)
    ensures Dispatched(e, clock, appFails)
         == if msgType.None? then Outcome(n, None) else Handle(n, m, msgType.value, clock, appFails)
  {
    var cut := e.(recvBuf := e.recvBuf[Boundary(e.recvBuf).value..]);
    n, msgType := Noted(cut, m, NumberOf(m), clock), ReadHeader(m).value.msgType;
    NotedHears(e, cut, m, NumberOf(m), clock);
  }

  lemma NotParsed(e: Engine, clock: Clock, appFails: bool)
    requires e.pc == Process && Parsed(e) == None
    ensures var o := Dispatched(e, clock, appFails);
      o.engine.session == e.session && o.engine.processed == e.processed && o.engine.pc in {Process, Settle}
  {
  }

  lemma DispatchHears(e: Engine, clock: Clock, appFails: bool)
    requires e.pc == Process
    ensures Hearing(e, Parsed(e), Dispatched(e, clock, appFails).engine)
  {
    if Parsed(e).Some? {
      var n, msgType := DispatchedAs(e, Parsed(e).value, clock, appFails);
      if msgType.Some? {
        HandleHears(n, Parsed(e).value, msgType.value, clock, appFails);
      }
    } else {
      NotParsed(e, clock, appFails);
    }
  }

  lemma LocalHears(e: Engine, move: Move, o: Outcome)
    requires e.pc != Start && Local(e, move) == Some(o)
    ensures Hearing(e, HeardBy(e, Acts(move)), o.engine)
  {
    match move
    case Dispatch(clock, appFails) => DispatchHears(e, clock, appFails);
    case Tick(now, clock) => TickedQuiet(e, now, clock);
    case Finish(clock) => SettledQuiet(e, clock);
    case _ => LocalQuiet(e, move);
  }

  lemma StepHears(e: Engine, event: Event, after: Engine)
    requires e.pc != Start && StepBy(e, event) == Some(after)
    ensures Hearing(e, HeardBy(e, event), after)
  {
    if event.Acts? {
      LocalHears(e, event.move, Local(e, event.move).value);
    }
  }

  // ----- whole runs -----

  lemma NoneIsFirstPrefix(ms: seq<seq<byte>>, more: seq<seq<byte>>)
    requires ms <= more && NoneIsFirst(more)
    ensures NoneIsFirst(ms)
  {
  }

  lemma GapsMore(e: Engine, event: Event, after: Engine, m: Option<seq<byte>>)
    requires Stuck(e) && m == HeardBy(e, event) && Hearing(e, m, after) && NoneIsFirst(after.processed)
    ensures Stuck(after) && GapsFromOne(after.processed) == GapsFromOne(e.processed) + Report(e, event)
  {
    if m.Some? {
      var ms := after.processed;
      assert ms[|ms| - 1] == m.value && ms[..|ms| - 1] == e.processed;
    } else {
      assert after.processed == e.processed;
    }
  }

  lemma {:induction false} StuckRun(e: Engine, events: seq<Event>)
    requires Stuck(e) && e.processed == [] && Driven(e, events).Some?
    requires NoneIsFirst(Driven(e, events).value.processed)
    ensures var now := Driven(e, events).value; Stuck(now) && Reports(e, events) == GapsFromOne(now.processed)
  {
    if events != [] {
      var n: nat := |events| - 1;
      var before, now := Driven(e, events[..n]).value, Driven(e, events).value;
      NotStarting(e, events[..n]);
      StepHears(before, events[n], now);
      NoneIsFirstPrefix(before.processed, now.processed);
      StuckRun(e, events[..n]);
      GapsMore(before, events[n], now, HeardBy(before, events[n]));
    }
  }

  lemma {:induction false} NotStarting(e: Engine, events: seq<Event>)
    requires e.pc != Start && Driven(e, events).Some?
    ensures Driven(e, events).value.pc != Start
  {
    if events != [] {
      var n: nat := |events| - 1;
      NotStarting(e, events[..n]);
      StepHears(Driven(e, events[..n]).value, events[n], Driven(e, events).value);
    }
  }

  /** The inbound counter stands at 1 all through the run. */
  predicate StuckThroughout(e: Engine, events: seq<Event>) {
    forall k :: 0 <= k <= |events| && Driven(e, events[..k]).Some? ==>
      Driven(e, events[..k]).value.session.inbound == 1
  }

  lemma StuckPrefix(e: Engine, events: seq<Event>, n: nat)
    requires n <= |events| && StuckThroughout(e, events)
    ensures StuckThroughout(e, events[..n])
  {
    forall k | 0 <= k <= n ensures events[..n][..k] == events[..k] {
    }
  }

  lemma StuckHearsNoFirst(e: Engine, m: Option<seq<byte>>, after: Engine)
    requires e.session.inbound == after.session.inbound == 1 && Hearing(e, m, after) && NoneIsFirst(e.processed)
    ensures NoneIsFirst(after.processed)
  {
  }

  lemma {:induction false} NoFirstIn(e: Engine, events: seq<Event>)
    requires Stuck(e) && e.processed == [] && Driven(e, events).Some? && StuckThroughout(e, events)
    ensures NoneIsFirst(Driven(e, events).value.processed)
  {
    if events != [] {
      var n: nat := |events| - 1;
      var before, now := Driven(e, events[..n]).value, Driven(e, events).value;
      assert events[..n + 1] == events;
      StuckPrefix(e, events, n);
      NoFirstIn(e, events[..n]);
      NotStarting(e, events[..n]);
      StepHears(before, events[n], now);
      StuckHearsNoFirst(before, HeardBy(before, events[n]), now);
    }
  }

  lemma {:induction false} ProcessedGrows(e: Engine, events: seq<Event>, k: nat)
    requires e.pc != Start && Driven(e, events).Some? && k <= |events|
    ensures Driven(e, events[..k]).Some? && Driven(e, events[..k]).value.processed <= Driven(e, events).value.processed
  {
    if k == |events| {
      assert events[..k] == events;
    } else {
      var n: nat := |events| - 1;
      assert events[..n][..k] == events[..k];
      ProcessedGrows(e, events[..n], k);
      NotStarting(e, events[..n]);
      StepHears(Driven(e, events[..n]).value, events[n], Driven(e, events).value);
    }
  }

  lemma StuckExactly(e: Engine, events: seq<Event>)
    requires Stuck(e) && e.processed == [] && Driven(e, events).Some?
    ensures StuckThroughout(e, events) <==> NoneIsFirst(Driven(e, events).value.processed)
  {
    if StuckThroughout(e, events) {
      NoFirstIn(e, events);
    } else if NoneIsFirst(Driven(e, events).value.processed) {
      forall k | 0 <= k <= |events| && Driven(e, events[..k]).Some?
        ensures Driven(e, events[..k]).value.session.inbound == 1
      {
        ProcessedGrows(e, events, k);
        NoneIsFirstPrefix(Driven(e, events[..k]).value.processed, Driven(e, events).value.processed);
        StuckRun(e, events[..k]);
      }
    }
  }

  /** On the TCP path an acceptor that has answered its peer's Logon still expects number 1. Over any run, however
      its stream comes in, its inbound counter never moves if and only if the Logon's number never comes again; and
      then the loop reports one gap for each message it processes with a number beyond 1. */
  lemma TcpLogonLeavesGap(config: S.Config, id: Identity, now: nat, clock: Clock, events: seq<Event>)
    requires Driven(Answered(config, id, now, clock), events).Some?
    ensures var e := Answered(config, id, now, clock); var end := Driven(e, events).value;
      && (StuckThroughout(e, events) <==> NoneIsFirst(end.processed))
      && (NoneIsFirst(end.processed) ==> Reports(e, events) == GapsFromOne(end.processed))
  {
    AnsweredIs(config, id, now, clock);
    StuckExactly(Answered(config, id, now, clock), events);
    if NoneIsFirst(Driven(Answered(config, id, now, clock), events).value.processed) {
      StuckRun(Answered(config, id, now, clock), events);
    }
  }

  // ----- a peer that counts -----

  lemma {:induction false} EveryOneAGap(ms: seq<seq<byte>>)
    requires AllBeyond(ms)
    ensures NoneIsFirst(ms) && |GapsFromOne(ms)| == |ms|
  {
    if ms != [] {
      EveryOneAGap(ms[..|ms| - 1]);
    }
  }

  lemma HandleLeavesOff(e: Engine, m: seq<byte>, msgType: seq<byte>, clock: Clock, appFails: bool)
    requires e.session.state == S.Resending
    ensures Handle(e, m, msgType, clock, appFails).engine.session.state in {S.Resending, S.Disconnected}
  {
  }

  lemma DispatchTurnsOff(e: Engine, m: seq<byte>, clock: Clock, appFails: bool)
    requires e.pc == Process && Parsed(e) == Some(m) && Gap(e.session.inbound, NumberOf(m)) != []
    ensures Dispatched(e, clock, appFails).engine.session.state in {S.Resending, S.Disconnected}
  {
    var n, msgType := DispatchedAs(e, m, clock, appFails);
    if msgType.Some? {
      HandleLeavesOff(n, m, msgType.value, clock, appFails);
    }
  }

  /** No step but a dispatch makes a session Active. */
  lemma LocalStaysOff(e: Engine, move: Move, o: Outcome)
    requires !move.Dispatch? && e.session.state != S.Active && Local(e, move) == Some(o)
    ensures o.engine.session.state != S.Active
  {
  }

  /** An engine that has processed anything is not Active: its heartbeat timer is off. */
  predicate TimerOff(e: Engine) { e.processed != [] ==> e.session.state != S.Active }

  lemma DispatchOff(e: Engine, m: Option<seq<byte>>, clock: Clock, appFails: bool, o: Outcome)
    requires Stuck(e) && e.pc == Process && TimerOff(e) && m == Parsed(e) && o == Dispatched(e, clock, appFails)
    requires Hearing(e, m, o.engine) && AllBeyond(o.engine.processed)
    ensures TimerOff(o.engine)
  {
    if m.Some? {
      var ms := o.engine.processed;
      assert ms[|ms| - 1] == m.value;
      DispatchTurnsOff(e, m.value, clock, appFails);
    } else {
      NotParsed(e, clock, appFails);
    }
  }

  lemma LocalOff(e: Engine, move: Move, o: Outcome)
    requires Stuck(e) && TimerOff(e) && Local(e, move) == Some(o) && Hearing(e, HeardBy(e, Acts(move)), o.engine)
    requires AllBeyond(o.engine.processed)
    ensures TimerOff(o.engine)
  {
    if move.Dispatch? {
      DispatchOff(e, Parsed(e), move.clock, move.appFails, o);
    } else {
      assert o.engine.processed == e.processed;
      if e.processed != [] {
        LocalStaysOff(e, move, o);
      }
    }
  }

  lemma StepOff(e: Engine, event: Event, after: Engine)
    requires Stuck(e) && TimerOff(e) && StepBy(e, event) == Some(after) && AllBeyond(after.processed)
    ensures TimerOff(after)
  {
    if event.Acts? {
      var o := Local(e, event.move).value;
      LocalHears(e, event.move, o);
      LocalOff(e, event.move, o);
    }
  }

  lemma BeyondPrefix(ms: seq<seq<byte>>, more: seq<seq<byte>>)
    requires ms <= more && AllBeyond(more)
    ensures AllBeyond(ms)
  {
  }

  lemma {:induction false} OffRun(e: Engine, events: seq<Event>)
    requires Stuck(e) && e.processed == [] && Driven(e, events).Some? && AllBeyond(Driven(e, events).value.processed)
    ensures Stuck(Driven(e, events).value) && TimerOff(Driven(e, events).value)
  {
    EveryOneAGap(Driven(e, events).value.processed);
    StuckRun(e, events);
    if events != [] {
      var n: nat := |events| - 1;
      var before, now := Driven(e, events[..n]).value, Driven(e, events).value;
      NotStarting(e, events[..n]);
      StepHears(before, events[n], now);
      BeyondPrefix(before.processed, now.processed);
      OffRun(e, events[..n]);
      StepOff(before, events[n], now);
    }
  }

  /** A peer that goes on counting from its Logon: every message processed is reported as a gap, however it is
      acted on, and from the first on the session is never Active again, so that no check of its heartbeat timer
      sends, probes or gives the peer up. */
  lemma CountingPeerIsAGap(config: S.Config, id: Identity, now: nat, clock: Clock, events: seq<Event>)
    requires Driven(Answered(config, id, now, clock), events).Some?
    requires AllBeyond(Driven(Answered(config, id, now, clock), events).value.processed)
    ensures var e := Answered(config, id, now, clock); var end := Driven(e, events).value;
      && end.session.inbound == 1
      && |Reports(e, events)| == |end.processed|
      && (end.processed != [] ==> forall t :: S.HeartbeatAction(end.config, end.session, t) == S.NoAction)
  {
    var e := Answered(config, id, now, clock);
    AnsweredIs(config, id, now, clock);
    EveryOneAGap(Driven(e, events).value.processed);
    StuckRun(e, events);
    OffRun(e, events);
  }

  lemma DrivenOne(e: Engine, events: seq<Event>, event: Event)
    requires Driven(e, events).Some?
    ensures Driven(e, events + [event]) == StepBy(Driven(e, events).value, event)
  {
    assert (events + [event])[..|events|] == events;
  }

  lemma AnsweredWaits(config: S.Config, id: Identity, now: nat, clock: Clock)
    ensures var e := Answered(config, id, now, clock);
      !e.shouldStop && !e.session.probePending && e.pc == Top && e.recvBuf == [] && e.processed == []
  {
  }

  lemma TicksOn(e: Engine, t: nat, clock: Clock, after: Option<Engine>)
    requires !e.shouldStop && !e.session.probePending && e.pc == Top && after == StepBy(e, Acts(Tick(t, clock)))
    ensures after.Some? && after.value.pc == Recv && after.value.recvBuf == e.recvBuf
      && after.value.processed == e.processed
  {
    TickedQuiet(e, t, clock);
  }

  lemma FedWhole(e: Engine, m: seq<byte>, n: u64, after: Option<Engine>)
    requires e.pc == Recv && e.recvBuf == [] && WellFormed(m, n) && after == StepBy(e, Heard(m))
    ensures after == Some(e.(recvBuf := m, pc := Process)) && Parsed(after.value) == Some(m)
  {
    assert m[..|m|] == m && [] + m == m;
  }

  lemma HearsWhole(e: Engine, m: seq<byte>, n: u64, clock: Clock, fed: Option<Engine>, after: Option<Engine>)
    requires e.pc == Recv && e.recvBuf == [] && e.processed == [] && WellFormed(m, n) && fed == StepBy(e, Heard(m))
    requires fed.Some? ==> after == StepBy(fed.value, Acts(Dispatch(clock, false)))
    ensures fed.Some? && after.Some? && after.value.processed == [m]
  {
    FedWhole(e, m, n, fed);
    DispatchHears(fed.value, clock, false);
  }

  lemma OneGap(m: seq<byte>, n: u64)
    requires NumberOf(m) == Some(n) && n > 1
    ensures NoneIsFirst([m]) && GapsFromOne([m]) == [(1, n)]
  {
    assert [m][..0] == [];
  }

  lemma ThreeSteps(e: Engine, a: Event, b: Event, c: Event, one: Engine, two: Engine, three: Engine)
    requires StepBy(e, a) == Some(one) && StepBy(one, b) == Some(two) && StepBy(two, c) == Some(three)
    ensures Driven(e, [a, b, c]) == Some(three)
  {
    DrivenOne(e, [], a);
    DrivenOne(e, [] + [a], b);
    DrivenOne(e, [] + [a] + [b], c);
    assert [] + [a] + [b] + [c] == [a, b, c];
  }

  /** And there is such a message: the first one that comes in whole. */
  lemma FirstMessageIsAGap(config: S.Config, id: Identity, now: nat, clock: Clock, t: nat, m: seq<byte>, n: u64)
    returns (events: seq<Event>)
    requires WellFormed(m, n) && n > 1
    ensures var e := Answered(config, id, now, clock);
      Driven(e, events).Some? && Driven(e, events).value.processed == [m] && Reports(e, events) == [(1, n)]
  {
    var e, tick, hear, dispatch := Answered(config, id, now, clock), Acts(Tick(t, clock)), Heard(m),
      Acts(Dispatch(clock, false));
    AnsweredWaits(config, id, now, clock);
    TicksOn(e, t, clock, StepBy(e, tick));
    var ticked := StepBy(e, tick).value;
    FedWhole(ticked, m, n, StepBy(ticked, hear));
    var fed := StepBy(ticked, hear).value;
    HearsWhole(ticked, m, n, clock, Some(fed), StepBy(fed, dispatch));
    events := [tick, hear, dispatch];
    ThreeSteps(e, tick, hear, dispatch, ticked, fed, StepBy(fed, dispatch).value);
    AnsweredIs(config, id, now, clock);
    OneGap(m, n);
    StuckRun(e, events);
  }
}
