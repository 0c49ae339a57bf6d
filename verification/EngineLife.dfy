/** What an engine of `src/engine.rs` becomes and what it says, over whole runs of two engines. */
module EngineLife {
  import opened AeronTransport
  import opened Bytes
  import opened EngineHandshake
  import opened EngineMessages
  import opened EngineProtocol
  import opened Parser
  import A = ParserAccepts
  import Checksum
  import S = Session

  // ----- what a step says -----

  /** The type a receiver reads in a message. */
  function TypeOf(m: seq<byte>): Option<seq<byte>> {
    var h := ReadHeader(m);
    if h.None? then None else h.value.msgType
  }

  /** How many messages of a type there are. */
  function Count(ms: seq<seq<byte>>, t: seq<byte>): nat {
    if ms == [] then 0 else Count(ms[..|ms| - 1], t) + if TypeOf(ms[|ms| - 1]) == Some(t) then 1 else 0
  }

  lemma CountMore(ms: seq<seq<byte>>, m: seq<byte>, t: seq<byte>)
    ensures Count(ms + [m], t) == Count(ms, t) + if TypeOf(m) == Some(t) then 1 else 0
  {
    assert (ms + [m])[..|ms|] == ms;
  }

  /** Whether a step puts a message of this kind, built by the engine itself, on the bus. */
  function Says(o: Outcome, kind: Kind): nat {
    if o.out.Some? && o.out.value.Own? && o.out.value.kind == kind then 1 else 0
  }

  lemma OwnType(id: Identity, o: Outcome)
    requires Usable(id) && o.out.Some? && o.out.value.Own?
    ensures |Payloads(id, o)| == 1 && TypeOf(Payloads(id, o)[0]) == Some(TypeBytes(o.out.value.kind))
  {
    SessionMessageRead(id, o.out.value.kind, o.out.value.seqNum, o.out.value.wall);
  }

  /** What an engine builds itself counts under its own type and no other. */
  lemma SaysCounts(e: Engine, o: Outcome, kind: Kind)
    requires Usable(e.id) && OwnOnly(o)
    ensures Count(Recorded(e, o).sent, TypeBytes(kind)) == Count(e.sent, TypeBytes(kind)) + Says(o, kind)
  {
    if o.out.Some? {
      OwnType(e.id, o);
      CountMore(e.sent, Payloads(e.id, o)[0], TypeBytes(kind));
      assert Payloads(e.id, o) == [Payloads(e.id, o)[0]];
    } else {
      assert e.sent + [] == e.sent;
    }
  }

  // ----- one engine -----

  /** Before it has heard anything an engine stands where its start left it, and goes on listening. */
  predicate Expecting(launched: bool, e: Engine, logons: int, logouts: int, asked: int) {
    && e.processed == [] && logouts == 0 && asked == 0 && !e.shouldStop
    && e.pc in {Start, Top, Recv, Process} && (e.pc == Process ==> e.recvBuf != []) && (e.pc == Start ==> launched)
    && if launched && e.pc != Start then
         logons == 1 && e.session.state == if e.config.role == S.Initiator then S.LogonSent else S.Connecting
       else logons == 0 && e.session.state == S.Disconnected
  }

  /** Not launched, and with the initiator's role: it ignores its peer's Logon and leaves. */
  predicate Ignoring(launched: bool, e: Engine, logons: int, logouts: int, asked: int) {
    && !launched && e.config.role == S.Initiator && e.processed != [] && logons == 0 && logouts == 0 && asked == 0
    && e.session.state == S.Disconnected && Leaving(e)
  }

  /** Between the application's wish to end and the end of the message loop. */
  predicate Ending(e: Engine) { e.recvBuf == [] && e.pc in {App, Process, Settle, AppError} }

  /** An engine that has heard its peer: Active; or asked to end by its application; or at its end, with its one
      Logout said. */
  predicate Talking(launched: bool, e: Engine, logons: int, logouts: int, asked: int) {
    && (launched || e.config.role == S.Acceptor) && e.processed != [] && e.pc != Start
    && logons == (if launched then 1 else 0) + (if e.config.role == S.Acceptor then 1 else 0)
    && (|| (e.session.state == S.Active && logouts == 0 && asked == 0)
        || (e.session.state == S.LogoutSent && logouts == 0 && asked > 0 && Ending(e))
        || (e.session.state == S.Disconnected && logouts == 1 && Leaving(e)
            && (asked > 0 || Count(e.processed, LOGOUT) > 0)))
  }

  predicate Life(launched: bool, e: Engine, logons: int, logouts: int, asked: int) {
    || Expecting(launched, e, logons, logouts, asked) || Ignoring(launched, e, logons, logouts, asked)
    || Talking(launched, e, logons, logouts, asked)
  }

  predicate Lives(launched: bool, o: Outcome, logons: int, logouts: int, asked: int) {
    Life(launched, o.engine, logons + Says(o, LogonKind), logouts + Says(o, LogoutKind), asked)
  }

  lemma LaunchLives(launched: bool, e: Engine, clock: Clock, logons: int, logouts: int, asked: int)
    requires Life(launched, e, logons, logouts, asked) && e.pc == Start
    ensures Lives(launched, Launched(e, clock), logons, logouts, asked)
  {
  }

  lemma TickLives(launched: bool, e: Engine, now: nat, clock: Clock, logons: int, logouts: int, asked: int)
    requires Life(launched, e, logons, logouts, asked) && e.pc == Top
    ensures Lives(launched, Ticked(e, now, clock), logons, logouts, asked)
  {
  }

  lemma FinishLives(launched: bool, e: Engine, clock: Clock, logons: int, logouts: int, asked: int)
    requires Life(launched, e, logons, logouts, asked) && e.pc == Settle
    ensures Lives(launched, Settled(e, clock), logons, logouts, asked)
  {
  }

  /** The application asks the engine to stop. */
  function Asks(move: Move): nat { if move.AppStop? then 1 else 0 }

  /** The application's moves. */
  lemma AppLives(launched: bool, e: Engine, move: Move, o: Outcome, logons: int, logouts: int, asked: int)
    requires Life(launched, e, logons, logouts, asked) && e.pc == App && Local(e, move) == Some(o) && Placed(e)
    ensures Lives(launched, o, logons, logouts, asked + Asks(move))
  {
  }

  /** The first message heard, a Logon. */
  lemma FirstHandled(launched: bool, e: Engine, n: Engine, m: seq<byte>, clock: Clock, appFails: bool,
                     logons: int, logouts: int, asked: int)
    requires Expecting(launched, e, logons, logouts, asked) && e.pc == Process && n.processed != []
    requires n == e.(session := n.session, recvBuf := [], processed := n.processed)
    requires n.session.state == e.session.state
    ensures Lives(launched, Handle(n, m, LOGON, clock, appFails), logons, logouts, asked)
  {
  }

  /** A message heard later: only an Active session finds one. */
  lemma LaterHandled(launched: bool, e: Engine, n: Engine, m: seq<byte>, msgType: seq<byte>, clock: Clock,
                     appFails: bool, logons: int, logouts: int, asked: int)
    requires Talking(launched, e, logons, logouts, asked) && e.session.state == S.Active && e.pc == Process
    requires n == e.(session := n.session, recvBuf := [], processed := n.processed) && n.processed != []
    requires n.session.state == e.session.state && (msgType == LOGOUT ==> Count(n.processed, LOGOUT) > 0)
    ensures Lives(launched, Handle(n, m, msgType, clock, appFails), logons, logouts, asked)
  {
  }

  lemma NothingLives(launched: bool, e: Engine, o: Outcome, logons: int, logouts: int, asked: int)
    requires Life(launched, e, logons, logouts, asked) && e.pc == Process && e.recvBuf == []
    requires o == Outcome(e.(pc := Settle), None)
    ensures Lives(launched, o, logons, logouts, asked)
  {
  }

  lemma HandledLives(launched: bool, e: Engine, n: Engine, m: seq<byte>, msgType: seq<byte>, clock: Clock,
                     appFails: bool, logons: int, logouts: int, asked: int)
    requires Life(launched, e, logons, logouts, asked) && e.pc == Process && e.recvBuf != []
    requires n == e.(session := n.session, recvBuf := [], processed := n.processed) && n.processed != []
    requires n.session.state == e.session.state && (msgType == LOGOUT ==> Count(n.processed, LOGOUT) > 0)
    requires e.processed == [] ==> msgType == LOGON
    ensures Lives(launched, Handle(n, m, msgType, clock, appFails), logons, logouts, asked)
  {
    if e.processed == [] {
      FirstHandled(launched, e, n, m, clock, appFails, logons, logouts, asked);
    } else {
      LaterHandled(launched, e, n, m, msgType, clock, appFails, logons, logouts, asked);
    }
  }

  lemma FrameLives(launched: bool, e: Engine, clock: Clock, appFails: bool, logons: int, logouts: int, asked: int)
    requires Life(launched, e, logons, logouts, asked) && e.pc == Process && e.recvBuf != []
    requires WellFormed(e.recvBuf, e.session.inbound) && (e.processed == [] ==> IsLogon(e.recvBuf))
    ensures Lives(launched, Dispatched(e, clock, appFails), logons, logouts, asked)
  {
    CutFrame(e, clock, appFails);
    AcceptedCounts(e, clock);
    CountMore(e.processed, e.recvBuf, LOGOUT);
    HandledLives(launched, e, Accepted(e, clock), e.recvBuf, TypeOf(e.recvBuf).value, clock, appFails,
                 logons, logouts, asked);
  }

  lemma DispatchLives(launched: bool, e: Engine, clock: Clock, appFails: bool, logons: int, logouts: int, asked: int)
    requires Life(launched, e, logons, logouts, asked) && e.pc == Process && Expected(e)
    requires e.processed == [] && e.recvBuf != [] ==> IsLogon(e.recvBuf)
    ensures Lives(launched, Dispatched(e, clock, appFails), logons, logouts, asked)
  {
    if e.recvBuf == [] {
      NothingBuffered(e, clock, appFails);
      NothingLives(launched, e, Dispatched(e, clock, appFails), logons, logouts, asked);
    } else {
      FrameLives(launched, e, clock, appFails, logons, logouts, asked);
    }
  }

  lemma LocalLives(launched: bool, e: Engine, move: Move, o: Outcome, logons: int, logouts: int, asked: int)
    requires Life(launched, e, logons, logouts, asked) && Local(e, move) == Some(o) && Expected(e) && Placed(e)
    requires e.processed == [] && e.recvBuf != [] ==> IsLogon(e.recvBuf)
    ensures Lives(launched, o, logons, logouts, asked + Asks(move))
  {
    match move
    case Launch(clock) => LaunchLives(launched, e, clock, logons, logouts, asked);
    case Tick(now, clock) => TickLives(launched, e, now, clock, logons, logouts, asked);
    case Dispatch(clock, appFails) => DispatchLives(launched, e, clock, appFails, logons, logouts, asked);
    case Finish(clock) => FinishLives(launched, e, clock, logons, logouts, asked);
    case _ => AppLives(launched, e, move, o, logons, logouts, asked);
  }

  lemma ReceivedLives(launched: bool, w: World, i: nat, logons: int, logouts: int, asked: int)
    requires i < |w.engines| && w.engines[i].pc == Recv && Life(launched, w.engines[i], logons, logouts, asked)
    requires Received(w, i).engines[i].pc != Oversize
    ensures Life(launched, Received(w, i).engines[i], logons, logouts, asked)
  {
  }

  // ----- answers -----

  /** The heartbeat timer asks for a message. */
  predicate Beats(e: Engine, move: Move) {
    move.Tick? && !e.shouldStop && S.HeartbeatAction(e.config, e.session, move.now) == S.Send
  }

  lemma HandledBeats(n: Engine, m: seq<byte>, msgType: seq<byte>, clock: Clock, appFails: bool)
    ensures Says(Handle(n, m, msgType, clock, appFails), HeartbeatKind) == if msgType == TEST_REQUEST then 1 else 0
    ensures Handle(n, m, msgType, clock, appFails).engine.processed == n.processed
  {
  }

  /** A Heartbeat goes out for a TestRequest processed and for a timer that asks, and for nothing else. */
  lemma DispatchBeats(e: Engine, clock: Clock, appFails: bool)
    requires Expected(e)
    ensures var o := Dispatched(e, clock, appFails);
      Count(o.engine.processed, TEST_REQUEST) == Count(e.processed, TEST_REQUEST) + Says(o, HeartbeatKind)
  {
    if e.recvBuf == [] {
      NothingBuffered(e, clock, appFails);
    } else {
      CutFrame(e, clock, appFails);
      AcceptedCounts(e, clock);
      HandledBeats(Accepted(e, clock), e.recvBuf, TypeOf(e.recvBuf).value, clock, appFails);
      CountMore(e.processed, e.recvBuf, TEST_REQUEST);
    }
  }

  lemma QuietBeats(e: Engine, move: Move, o: Outcome)
    requires Local(e, move) == Some(o) && !move.Dispatch?
    ensures o.engine.processed == e.processed && Says(o, HeartbeatKind) == if Beats(e, move) then 1 else 0
  {
  }

  lemma LocalBeats(e: Engine, move: Move, o: Outcome)
    requires Local(e, move) == Some(o) && Expected(e)
    ensures Count(o.engine.processed, TEST_REQUEST) + (if Beats(e, move) then 1 else 0)
         == Count(e.processed, TEST_REQUEST) + Says(o, HeartbeatKind)
  {
    if move.Dispatch? {
      DispatchBeats(e, move.clock, move.appFails);
    } else {
      QuietBeats(e, move, o);
    }
  }

  /** A Logout heard has been answered, unless the application failed; and the answer was the last word. */
  predicate Parted(e: Engine, logouts: int) {
    && (Count(e.processed, LOGOUT) > 0 ==> logouts == 1 || e.pc == AppError)
    && (logouts == 1 ==> e.sent != [] && TypeOf(e.sent[|e.sent| - 1]) == Some(LOGOUT))
  }

  /** After its Logout an engine says nothing more. */
  lemma NoMoreSaid(launched: bool, e: Engine, move: Move, o: Outcome, logons: int, asked: int)
    requires Life(launched, e, logons, 1, asked) && Local(e, move) == Some(o)
    ensures o.out.None? && o.engine.processed == e.processed && e.pc != AppError && o.engine.pc != AppError
  {
    if move.Dispatch? {
      NothingBuffered(e, move.clock, move.appFails);
    }
  }

  lemma HandledParts(n: Engine, m: seq<byte>, msgType: seq<byte>, clock: Clock, appFails: bool)
    requires msgType == LOGOUT && n.session.state == S.Active
    ensures var o := Handle(n, m, msgType, clock, appFails); Says(o, LogoutKind) == 1 || o.engine.pc == AppError
  {
  }

  lemma LogoutHeard(launched: bool, e: Engine, clock: Clock, appFails: bool, logons: int, asked: int)
    requires Life(launched, e, logons, 0, asked) && e.pc == Process && Expected(e) && Count(e.processed, LOGOUT) == 0
    requires e.processed == [] && e.recvBuf != [] ==> IsLogon(e.recvBuf)
    ensures var o := Dispatched(e, clock, appFails);
      Count(o.engine.processed, LOGOUT) > 0 ==> Says(o, LogoutKind) == 1 || o.engine.pc == AppError
  {
    if e.recvBuf == [] {
      NothingBuffered(e, clock, appFails);
    } else {
      CutFrame(e, clock, appFails);
      AcceptedCounts(e, clock);
      CountMore(e.processed, e.recvBuf, LOGOUT);
      HandledBeats(Accepted(e, clock), e.recvBuf, TypeOf(e.recvBuf).value, clock, appFails);
      if TypeOf(e.recvBuf) == Some(LOGOUT) {
        HandledParts(Accepted(e, clock), e.recvBuf, LOGOUT, clock, appFails);
      }
    }
  }

  lemma LogoutsBounded(launched: bool, e: Engine, logons: int, logouts: int, asked: int)
    requires Life(launched, e, logons, logouts, asked)
    ensures logouts == 0 || logouts == 1
  {
  }

  lemma PartsAfter(e: Engine, o: Outcome)
    requires Parted(e, 1) && o.out.None? && o.engine.processed == e.processed
    ensures Parted(Recorded(e, o), 1)
  {
    assert e.sent + [] == e.sent;
  }

  lemma PartsNow(e: Engine, o: Outcome)
    requires Usable(e.id) && Says(o, LogoutKind) == 1
    ensures Parted(Recorded(e, o), 1)
  {
    OwnType(e.id, o);
    assert Recorded(e, o).sent[|e.sent|] == Payloads(e.id, o)[0];
  }

  lemma NotYetParted(launched: bool, e: Engine, move: Move, o: Outcome, logons: int, asked: int)
    requires Life(launched, e, logons, 0, asked) && Local(e, move) == Some(o) && Parted(e, 0) && Expected(e)
    requires Says(o, LogoutKind) == 0 && (e.processed == [] && e.recvBuf != [] ==> IsLogon(e.recvBuf))
    ensures Parted(Recorded(e, o), 0)
  {
    if move.Dispatch? {
      LogoutHeard(launched, e, move.clock, move.appFails, logons, asked);
    } else {
      QuietBeats(e, move, o);
    }
  }

  lemma LocalParts(launched: bool, e: Engine, move: Move, o: Outcome, logons: int, logouts: int, asked: int)
    requires Life(launched, e, logons, logouts, asked) && Local(e, move) == Some(o) && Parted(e, logouts) && Expected(e)
    requires Usable(e.id) && o.engine.sent == e.sent && (e.processed == [] && e.recvBuf != [] ==> IsLogon(e.recvBuf))
    ensures Parted(Recorded(e, o), logouts + Says(o, LogoutKind))
  {
    LogoutsBounded(launched, e, logons, logouts, asked);
    if logouts == 1 {
      NoMoreSaid(launched, e, move, o, logons, asked);
      PartsAfter(e, o);
    } else if Says(o, LogoutKind) == 1 {
      PartsNow(e, o);
    } else {
      NotYetParted(launched, e, move, o, logons, asked);
    }
  }

  // ----- whole runs -----

  /** How many Logons, Heartbeats and Logouts an engine has built itself and put on the bus, by the types read in
      them; how often its timer has asked for a message, and its application for the end; and how many messages its
      application has handed over. */
  datatype Words = Words(logons: int, heartbeats: int, logouts: int, beaten: int, asked: int, handed: int)

  function Plus(a: Words, b: Words): Words {
    Words(a.logons + b.logons, a.heartbeats + b.heartbeats, a.logouts + b.logouts, a.beaten + b.beaten,
          a.asked + b.asked, a.handed + b.handed)
  }

  /** What one step of an engine adds; what its application sends is counted apart, whatever its type. */
  function Gained(e: Engine, after: Engine, move: Move): Words {
    if move.AppSend? then Words(0, 0, 0, 0, 0, 1)
    else
      Words(Count(after.sent, LOGON) - Count(e.sent, LOGON), Count(after.sent, HEARTBEAT) - Count(e.sent, HEARTBEAT),
            Count(after.sent, LOGOUT) - Count(e.sent, LOGOUT), if Beats(e, move) then 1 else 0,
            Asks(move), 0)
  }

  /** The words of engine `i` over a run. */
  function Said(w: World, run: seq<Step>, i: nat): Words
    requires i < |w.engines|
  {
    if run == [] then Words(0, 0, 0, 0, 0, 0)
    else
      var n: nat := |run| - 1;
      var before, after := Exec(w, run[..n]), Exec(w, run);
      if after.None? || before.None? || run[n].who != i then Said(w, run[..n], i)
      else Plus(Said(w, run[..n], i), Gained(before.value.engines[i], after.value.engines[i], run[n].move))
  }

  /** What an engine is, and what it has said. */
  predicate Stands(launched: bool, e: Engine, words: Words) {
    && Life(launched, e, words.logons, words.logouts, words.asked) && Parted(e, words.logouts)
    && words.heartbeats == Count(e.processed, TEST_REQUEST) + words.beaten
    && |e.sent| == words.logons + words.heartbeats + words.logouts + words.handed
  }

  /** A local step's own words, read off the step. */
  function Spoken(e: Engine, move: Move, o: Outcome): Words {
    Words(Says(o, LogonKind), Says(o, HeartbeatKind), Says(o, LogoutKind), if Beats(e, move) then 1 else 0,
          Asks(move), if move.AppSend? then 1 else 0)
  }

  lemma AppSaysNothing(e: Engine, move: Move, o: Outcome)
    requires Local(e, move) == Some(o) && move.AppSend?
    ensures Spoken(e, move, o) == Words(0, 0, 0, 0, 0, 1)
  {
  }

  lemma OwnUnlessApps(e: Engine, move: Move, o: Outcome)
    requires Local(e, move) == Some(o) && !move.AppSend?
    ensures OwnOnly(o)
  {
    RawIsApps(e, move, o);
  }

  lemma SpokenGained(e: Engine, move: Move, o: Outcome)
    requires Usable(e.id) && Local(e, move) == Some(o)
    ensures Gained(e, Recorded(e, o), move) == Spoken(e, move, o)
  {
    if move.AppSend? {
      AppSaysNothing(e, move, o);
    } else {
      OwnUnlessApps(e, move, o);
      SaysCounts(e, o, LogonKind);
      SaysCounts(e, o, HeartbeatKind);
      SaysCounts(e, o, LogoutKind);
    }
  }

  lemma LifeRecorded(launched: bool, e: Engine, o: Outcome, logons: int, logouts: int, asked: int)
    requires Lives(launched, o, logons, logouts, asked)
    ensures Life(launched, Recorded(e, o), logons + Says(o, LogonKind), logouts + Says(o, LogoutKind), asked)
  {
  }

  lemma SentLength(e: Engine, move: Move, o: Outcome, words: Words)
    requires Local(e, move) == Some(o) && words == Spoken(e, move, o)
    ensures |Recorded(e, o).sent| == |e.sent| + words.logons + words.heartbeats + words.logouts + words.handed
  {
    if !move.AppSend? {
      OwnUnlessApps(e, move, o);
    }
  }

  lemma StandsOn(launched: bool, e: Engine, after: Engine, words: Words, more: Words)
    requires Stands(launched, e, words)
    requires Life(launched, after, words.logons + more.logons, words.logouts + more.logouts, words.asked + more.asked)
    requires Parted(after, words.logouts + more.logouts)
    requires |after.sent| == |e.sent| + more.logons + more.heartbeats + more.logouts + more.handed
    requires Count(after.processed, TEST_REQUEST) + more.beaten == Count(e.processed, TEST_REQUEST) + more.heartbeats
    ensures Stands(launched, after, Plus(words, more))
  {
  }

  lemma LifeGoesOn(launched: bool, e: Engine, move: Move, o: Outcome, words: Words, more: Words)
    requires Life(launched, e, words.logons, words.logouts, words.asked) && more == Spoken(e, move, o)
    requires Local(e, move) == Some(o) && Expected(e) && Placed(e)
    requires e.processed == [] && e.recvBuf != [] ==> IsLogon(e.recvBuf)
    ensures Life(launched, Recorded(e, o), words.logons + more.logons, words.logouts + more.logouts,
                 words.asked + more.asked)
  {
    LocalLives(launched, e, move, o, words.logons, words.logouts, words.asked);
    LifeRecorded(launched, e, o, words.logons, words.logouts, words.asked + Asks(move));
  }

  lemma CountsGoOn(e: Engine, move: Move, o: Outcome, more: Words)
    requires Local(e, move) == Some(o) && Expected(e) && more == Spoken(e, move, o)
    ensures var after := Recorded(e, o);
      && |after.sent| == |e.sent| + more.logons + more.heartbeats + more.logouts + more.handed
      && Count(after.processed, TEST_REQUEST) + more.beaten == Count(e.processed, TEST_REQUEST) + more.heartbeats
  {
    SentLength(e, move, o, more);
    LocalBeats(e, move, o);
  }

  lemma LocalStands(launched: bool, e: Engine, move: Move, o: Outcome, words: Words, more: Words)
    requires Stands(launched, e, words) && EngineOk(e) && Expected(e) && more == Spoken(e, move, o)
    requires Local(e, move) == Some(o) && o.engine.sent == e.sent
    requires e.processed == [] && e.recvBuf != [] ==> IsLogon(e.recvBuf)
    ensures Stands(launched, Recorded(e, o), Plus(words, more))
  {
    LifeGoesOn(launched, e, move, o, words, more);
    CountsGoOn(e, move, o, more);
    LocalParts(launched, e, move, o, words.logons, words.logouts, words.asked);
    StandsOn(launched, e, Recorded(e, o), words, more);
  }

  lemma ReceivedStands(launched: bool, e: Engine, after: Engine, words: Words)
    requires e.pc == Recv && Stands(launched, e, words) && after.pc != Oversize
    requires after == e.(pc := Top) || exists m :: after == Fed(e, m)
    ensures Stands(launched, after, Plus(words, Gained(e, after, Receive)))
  {
  }

  lemma SideStands(launched: bool, e: Engine, p: Engine, flying: seq<seq<byte>>, move: Move, o: Outcome, words: Words)
    requires Side(e, p, flying) && Greets(p) && Allowed(e, move) && Local(e, move) == Some(o)
    requires Stands(launched, e, words)
    ensures Stands(launched, Recorded(e, o), Plus(words, Gained(e, Recorded(e, o), move)))
    ensures o.engine.sent == e.sent && |Payloads(e.id, o)| <= 1
  {
    BufferExpected(p, e, flying);
    if e.processed == [] && e.recvBuf != [] {
      HeardFirst(p, e, flying);
    }
    LocalSentSame(e, move, o);
    LocalStands(launched, e, move, o, words, Spoken(e, move, o));
    SpokenGained(e, move, o);
  }

  lemma PostedIs(w: World, i: nat, o: Outcome, ms: seq<seq<byte>>)
    requires i < |w.engines| && |ms| <= 1 && ms == Payloads(w.engines[i].id, o) && o.engine.sent == w.engines[i].sent
    ensures Posted(w, i, o.engine, ms).engines[i] == Recorded(w.engines[i], o)
  {
  }

  lemma LocalStepStands(launched: bool, w: World, i: nat, move: Move, o: Outcome, after: World, words: Words)
    requires GreetInv(w) && i < 2 && StepOf(w, i, move) == Some(after) && move != Receive
    requires Local(w.engines[i], move) == Some(o) && Stands(launched, w.engines[i], words)
    ensures Stands(launched, after.engines[i], Plus(words, Gained(w.engines[i], after.engines[i], move)))
  {
    SideOf(w, i);
    BothGreet(w, i);
    SideStands(launched, w.engines[i], w.engines[1 - i], InFlight(w.bus, 1 - i), move, o, words);
    PostedIs(w, i, o, Payloads(w.engines[i].id, o));
  }

  lemma ReceivedIs(w: World, i: nat)
    requires i < |w.engines| && w.engines[i].pc == Recv
    ensures var e, after := w.engines[i], Received(w, i).engines[i];
      after == e.(pc := Top) || exists m :: after == Fed(e, m)
  {
  }

  lemma StepStands(launched: bool, w: World, i: nat, move: Move, after: World, words: Words)
    requires GreetInv(w) && i < 2 && StepOf(w, i, move) == Some(after) && Stands(launched, w.engines[i], words)
    ensures Stands(launched, after.engines[i], Plus(words, Gained(w.engines[i], after.engines[i], move)))
  {
    if move == Receive {
      StepInv(w, i, move);
      InOrder(after, i);
      ReceivedIs(w, i);
      ReceivedStands(launched, w.engines[i], after.engines[i], words);
    } else {
      LocalStepStands(launched, w, i, move, Local(w.engines[i], move).value, after, words);
    }
  }

  lemma InitialStands(w: World, i: nat)
    requires Initial(w) && i < 2
    ensures Stands(w.engines[i].pc == Start, w.engines[i], Words(0, 0, 0, 0, 0, 0))
  {
    assert w.engines[i] in w.engines;
  }

  lemma NextStands(launched: bool, w: World, step: Step, after: World, i: nat, words: Words)
    requires GreetInv(w) && i < 2 && step.who < 2 && StepOf(w, step.who, step.move) == Some(after)
    requires Stands(launched, w.engines[i], words)
    ensures Stands(launched, after.engines[i],
                   if step.who != i then words else Plus(words, Gained(w.engines[i], after.engines[i], step.move)))
  {
    if step.who == i {
      StepStands(launched, w, i, step.move, after, words);
    } else {
      OthersUntouched(w, step.who, step.move);
    }
  }

  lemma SaidNext(w: World, run: seq<Step>, i: nat, before: World, after: World, step: Step)
    requires |w.engines| == 2 && i < 2 && run != [] && step == run[|run| - 1]
    requires Exec(w, run[..|run| - 1]) == Some(before) && Exec(w, run) == Some(after)
    ensures |before.engines| == |after.engines| == 2 && step.who < 2
    ensures StepOf(before, step.who, step.move) == Some(after)
    ensures Said(w, run, i)
         == if step.who != i then Said(w, run[..|run| - 1], i)
            else Plus(Said(w, run[..|run| - 1], i), Gained(before.engines[i], after.engines[i], step.move))
  {
  }

  /** Over every run of two new engines, what an engine has become is told by how it was started, by whether it has
      heard its peer, and by what it has said. */
  lemma {:induction false} LifeStands(w: World, run: seq<Step>, i: nat)
    requires Initial(w) && Exec(w, run).Some? && i < 2
    ensures Stands(w.engines[i].pc == Start, Exec(w, run).value.engines[i], Said(w, run, i))
  {
    if run == [] {
      InitialStands(w, i);
    } else {
      var n: nat := |run| - 1;
      var before, after := Exec(w, run[..n]).value, Exec(w, run).value;
      LifeStands(w, run[..n], i);
      RunGreets(w, run[..n]);
      SaidNext(w, run, i, before, after, run[n]);
      NextStands(w.engines[i].pc == Start, before, run[n], after, i, Said(w, run[..n], i));
    }
  }

  // ----- what it means -----

  /** An engine that was launched, or has the acceptor's role, takes part. */
  predicate TakesPart(w: World, i: nat)
    requires i < |w.engines|
  {
    w.engines[i].pc == Start || w.engines[i].config.role == S.Acceptor
  }

  /** In every interleaving an engine that takes part and has heard its peer is Active until its application asks for
      the end or a Logout is heard; asked, it says its one Logout when it has nothing left to read, and then, and only
      then, is Disconnected. */
  lemma HeardIsActive(w: World, run: seq<Step>, i: nat)
    requires Initial(w) && Exec(w, run).Some? && i < 2 && TakesPart(w, i)
    requires Exec(w, run).value.engines[i].processed != []
    ensures var e, said := Exec(w, run).value.engines[i], Said(w, run, i);
      && e.session.state in {S.Active, S.LogoutSent, S.Disconnected}
      && (e.session.state == S.Active <==> said.asked == 0 && said.logouts == 0)
      && (e.session.state == S.LogoutSent ==> said.asked > 0 && Ending(e))
      && (e.session.state == S.Disconnected <==> said.logouts == 1)
      && (said.logouts == 1 ==> said.asked > 0 || Count(e.processed, LOGOUT) > 0)
  {
    LifeStands(w, run, i);
    ConfigKept(w, run, i);
  }

  lemma {:induction false} ConfigKept(w: World, run: seq<Step>, i: nat)
    requires Exec(w, run).Some? && i < |w.engines|
    ensures Exec(w, run).value.engines[i].config == w.engines[i].config
  {
    if run != [] {
      var n: nat := |run| - 1;
      var before := Exec(w, run[..n]).value;
      ConfigKept(w, run[..n], i);
      StepConfig(before, run[n].who, run[n].move, i);
    }
  }

  lemma HandledConfig(e: Engine, m: seq<byte>, msgType: seq<byte>, clock: Clock, appFails: bool)
    ensures Handle(e, m, msgType, clock, appFails).engine.config == e.config
  {
  }

  lemma DispatchedConfig(e: Engine, clock: Clock, appFails: bool)
    ensures Dispatched(e, clock, appFails).engine.config == e.config
  {
    var b := Boundary(e.recvBuf);
    if b.Some? {
      var m := e.recvBuf[..b.value];
      var h := ReadHeader(m);
      if h.Some? && h.value.msgType.Some? {
        var noted := Noted(e.(recvBuf := e.recvBuf[b.value..]), m, h.value.seqNum, clock);
        HandledConfig(noted, m, h.value.msgType.value, clock, appFails);
      }
    }
  }

  lemma LocalConfig(e: Engine, move: Move, o: Outcome)
    requires Local(e, move) == Some(o)
    ensures o.engine.config == e.config
  {
    match move
    case Dispatch(clock, appFails) => DispatchedConfig(e, clock, appFails);
    case _ =>
  }

  lemma StepConfig(w: World, who: nat, move: Move, i: nat)
    requires who < |w.engines| && i < |w.engines| && StepOf(w, who, move).Some?
    ensures StepOf(w, who, move).value.engines[i].config == w.engines[i].config
  {
    if move != Receive {
      LocalConfig(w.engines[who], move, Local(w.engines[who], move).value);
    }
  }

  /** Until it has heard its peer, an engine that was launched has said its Logon and waits for the answer, and one
      that was not has said nothing. */
  lemma UnheardWaits(w: World, run: seq<Step>, i: nat)
    requires Initial(w) && Exec(w, run).Some? && i < 2 && Exec(w, run).value.engines[i].processed == []
    ensures var e, said := Exec(w, run).value.engines[i], Said(w, run, i);
      if w.engines[i].pc == Start && e.pc != Start then
        said.logons == 1 && e.session.state == if e.config.role == S.Initiator then S.LogonSent else S.Connecting
      else said.logons == 0 && e.session.state == S.Disconnected
  {
    LifeStands(w, run, i);
  }

  /** Logons: one for the launch, and one for the peer's Logon heard in the acceptor's role. */
  lemma LogonsSaid(w: World, run: seq<Step>, i: nat)
    requires Initial(w) && Exec(w, run).Some? && i < 2
    ensures var e := Exec(w, run).value.engines[i];
      Said(w, run, i).logons
      == (if w.engines[i].pc == Start && e.pc != Start then 1 else 0)
       + (if e.processed != [] && e.config.role == S.Acceptor then 1 else 0)
  {
    LifeStands(w, run, i);
  }

  /** Heartbeats: one for each TestRequest processed, and one each time the timer asks. */
  lemma HeartbeatsSaid(w: World, run: seq<Step>, i: nat)
    requires Initial(w) && Exec(w, run).Some? && i < 2
    ensures Said(w, run, i).heartbeats
         == Count(Exec(w, run).value.engines[i].processed, TEST_REQUEST) + Said(w, run, i).beaten
  {
    LifeStands(w, run, i);
  }

  /** Logouts: at most one, the engine's last word; and a Logout heard has been answered, unless the application
      failed. */
  lemma LogoutSaid(w: World, run: seq<Step>, i: nat)
    requires Initial(w) && Exec(w, run).Some? && i < 2
    ensures var e, said := Exec(w, run).value.engines[i], Said(w, run, i);
      && 0 <= said.logouts <= 1
      && (said.logouts == 1 ==> e.sent != [] && TypeOf(e.sent[|e.sent| - 1]) == Some(LOGOUT))
      && (Count(e.processed, LOGOUT) > 0 ==> said.logouts == 1 || e.pc == AppError)
  {
    LifeStands(w, run, i);
    LogoutsBounded(w.engines[i].pc == Start, Exec(w, run).value.engines[i], Said(w, run, i).logons,
                   Said(w, run, i).logouts, Said(w, run, i).asked);
  }

  /** Nothing else is ever sent. */
  lemma AllSaid(w: World, run: seq<Step>, i: nat)
    requires Initial(w) && Exec(w, run).Some? && i < 2
    ensures var said := Said(w, run, i);
      |Exec(w, run).value.engines[i].sent| == said.logons + said.heartbeats + said.logouts + said.handed
  {
    LifeStands(w, run, i);
  }

  // ----- single steps -----

  /** What an application hands over is put on the bus as it is, behind everything else. */
  lemma HandedOverAsIs(w: World, i: nat, payload: seq<byte>, now: nat)
    requires i < |w.engines| && StepOf(w, i, AppSend(payload, now)).Some?
    ensures var after := StepOf(w, i, AppSend(payload, now)).value;
      after.bus == w.bus + [Frame(i, payload)] && after.engines[i].sent == w.engines[i].sent + [payload]
  {
  }

  /** A tick stops the engine if and only if it was asked to stop or its peer is given up. */
  lemma TickStops(e: Engine, now: nat, clock: Clock)
    ensures Ticked(e, now, clock).engine.pc == Stopped
       <==> e.shouldStop || S.HeartbeatAction(e.config, e.session, now) == S.Disconnect
  {
  }

  /** The clock reading a step sends at. */
  function SentAt(move: Move): nat {
    match move
    case AppSend(_, now) => now
    case Launch(clock) => clock.sent
    case Tick(_, clock) => clock.sent
    case Dispatch(clock, _) => clock.sent
    case Finish(clock) => clock.sent
    case _ => 0
  }

  /** Whatever is sent ahead of the end restarts the timer for sending, and whatever is processed the one for
      receiving. */
  lemma TimersRestart(e: Engine, move: Move, o: Outcome)
    requires Local(e, move) == Some(o) && Expected(e)
    ensures o.out.Some? && !move.Finish? ==> o.engine.session.lastSent == SentAt(move)
    ensures o.engine.processed != e.processed ==>
      move.Dispatch? && o.engine.session.lastReceived == move.clock.received && !o.engine.session.probePending
  {
    if move.Dispatch? {
      DispatchTimers(e, move.clock, move.appFails);
    } else {
      QuietTimers(e, move, o);
    }
  }

  lemma QuietTimers(e: Engine, move: Move, o: Outcome)
    requires Local(e, move) == Some(o) && !move.Dispatch?
    ensures o.engine.processed == e.processed
    ensures o.out.Some? && !move.Finish? ==> o.engine.session.lastSent == SentAt(move)
  {
  }

  lemma DispatchTimers(e: Engine, clock: Clock, appFails: bool)
    requires Expected(e)
    ensures var o := Dispatched(e, clock, appFails);
      && (o.out.Some? ==> o.engine.session.lastSent == clock.sent)
      && (o.engine.processed != e.processed ==>
            o.engine.session.lastReceived == clock.received && !o.engine.session.probePending)
  {
    if e.recvBuf == [] {
      NothingBuffered(e, clock, appFails);
    } else {
      CutFrame(e, clock, appFails);
      HandledTimers(e, Accepted(e, clock), e.recvBuf, TypeOf(e.recvBuf).value, clock, appFails);
    }
  }

  lemma HandledTimers(e: Engine, n: Engine, m: seq<byte>, msgType: seq<byte>, clock: Clock, appFails: bool)
    requires n == Accepted(e, clock)
    ensures var o := Handle(n, m, msgType, clock, appFails);
      && (o.out.Some? ==> o.engine.session.lastSent == clock.sent)
      && o.engine.session.lastReceived == clock.received && !o.engine.session.probePending
  {
  }

  /** Bytes that end like a message and do not parse are cut off and forgotten; the loop goes on. */
  lemma MalformedIsSkipped(e: Engine, clock: Clock, appFails: bool)
    requires e.pc == Process && Boundary(e.recvBuf).Some? && ReadHeader(e.recvBuf[..Boundary(e.recvBuf).value]).None?
    ensures Dispatched(e, clock, appFails) == Outcome(e.(recvBuf := e.recvBuf[Boundary(e.recvBuf).value..]), None)
  {
  }

  /** Whatever an engine makes sense of has passed the checksum, as far as it was read, and states its own length where
      it has a trailer. */
  lemma HeardIsSound(m: seq<byte>)
    requires ReadHeader(m).Some?
    ensures exists k :: 0 <= k <= |m| && Checksum.Valid(m[..k])
    ensures exists fs :: A.IsMessage(m, fs) && A.LengthHolds(fs) && A.ChecksumHolds(fs)
  {
    A.AcceptedIsValid(DEFAULT, m);
    A.AcceptsExactly(DEFAULT, m);
    var fs :| A.IsMessage(m, fs) && A.Sound(DEFAULT, fs);
    assert A.LengthHolds(fs) && A.ChecksumHolds(fs);
  }

  /** An application that fails on a Logout ends the engine without an answer; no other message asks it. */
  lemma FailingApplication(e: Engine, clock: Clock, appFails: bool)
    requires e.pc == Process && Expected(e)
    ensures var o := Dispatched(e, clock, appFails);
      o.engine.pc == AppError <==> e.recvBuf != [] && TypeOf(e.recvBuf) == Some(LOGOUT) && appFails
    ensures Dispatched(e, clock, appFails).engine.pc == AppError ==> Dispatched(e, clock, appFails).out.None?
  {
    if e.recvBuf == [] {
      NothingBuffered(e, clock, appFails);
    } else {
      CutFrame(e, clock, appFails);
      HandledFails(Accepted(e, clock), e.recvBuf, TypeOf(e.recvBuf).value, clock, appFails);
      AcceptedCounts(e, clock);
    }
  }

  lemma HandledFails(n: Engine, m: seq<byte>, msgType: seq<byte>, clock: Clock, appFails: bool)
    requires n.pc == Process
    ensures var o := Handle(n, m, msgType, clock, appFails);
      (o.engine.pc == AppError <==> msgType == LOGOUT && appFails) && (o.engine.pc == AppError ==> o.out.None?)
  {
  }
}
