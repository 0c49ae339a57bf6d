/** Two engines of `src/engine.rs` over one `AeronBus` of `src/transport_aeron.rs`.

    Every locked bus operation and every dispatched message is one step of one engine, and the two
    engines' steps interleave freely. Clock readings are step parameters with no order assumed. */
module EngineProtocol {
  import opened AeronTransport
  import opened Bytes
  import opened Framing
  import opened Parser
  import opened EngineMessages
  import S = Session

  /** Where an engine stands: before `run_initiator`, at the top of `run_loop`, before `recv`, in the
      message loop, inside an application callback, behind the message loop; stopped, ended by an
      application error, or ended by a frame too long for the receive buffer. */
  datatype Pc = Start | Top | Recv | Process | App | Settle | Stopped | AppError | Oversize

  /** `sent`, `processed` and `delivered` are histories: every message put on the bus, every message the
      receive loop has parsed, and those it handed to `on_message`. */
  datatype Engine = Engine(
    config: S.Config, id: Identity, pc: Pc, session: S.State, recvBuf: seq<byte>, shouldStop: bool,
    sent: seq<seq<byte>>, processed: seq<seq<byte>>, delivered: seq<seq<byte>>)

  /** The clock readings of one step: receipt, sending, and the wall clock of a message built. */
  datatype Clock = Clock(received: nat, sent: nat, wall: u64)

  datatype Move =
    | Launch(clock: Clock)
    | Tick(now: nat, clock: Clock)
    | Receive
    | Dispatch(clock: Clock, appFails: bool)
    | AppSend(payload: seq<byte>, now: nat)
    | AppStop
    | AppReturn
    | AppFail
    | Finish(clock: Clock)

  /** The bus and its two engines. */
  datatype World = World(bus: seq<Frame>, engines: seq<Engine>)

  /** A message an engine built itself, or one its application handed over. */
  datatype Parcel = Own(kind: Kind, seqNum: u64, wall: u64) | Raw(seqNum: u64, payload: seq<byte>)

  /** What a step leaves: the engine, and the message it puts on the bus. */
  datatype Outcome = Outcome(engine: Engine, out: Option<Parcel>)

  function Call(e: Engine, call: S.Call): Engine { e.(session := S.After(e.config, e.session, call)) }

  function OwnMessage(e: Engine, kind: Kind, clock: Clock): Parcel { Own(kind, e.session.outbound, clock.wall) }

  /** `send_logon` and `send_heartbeat`. */
  function SendOwn(e: Engine, kind: Kind, clock: Clock): Outcome {
    Outcome(Call(Call(e, S.NextOutbound), S.MessageSent(clock.sent)), Some(OwnMessage(e, kind, clock)))
  }

  /** `send_logout`. */
  function SendLogout(e: Engine, clock: Clock): Outcome {
    Outcome(Call(Call(Call(e, S.NextOutbound), S.LogoutSentCall), S.MessageSent(clock.sent)),
            Some(OwnMessage(e, LogoutKind, clock)))
  }

  /** `send_raw`. */
  function SendRaw(e: Engine, payload: seq<byte>, now: nat): Outcome {
    Outcome(Call(Call(e, S.MessageSent(now)), S.NextOutbound), Some(Raw(e.session.outbound, payload)))
  }

  function Launched(e: Engine, clock: Clock): Outcome {
    SendOwn(Call(e, S.Connected(clock.received, clock.sent)).(pc := Top), LogonKind, clock)
  }

  /** `handle_inbound_logon`: the peer's Logon was read elsewhere and is answered ahead of the loop. */
  function LogonAnswered(e: Engine, clock: Clock): Outcome {
    SendOwn(Call(Call(e, S.Connected(clock.received, clock.sent)), S.Logon(clock.received)), LogonKind, clock)
  }

  /** The top of the loop: the stop flag, then the heartbeat timer. */
  function Ticked(e: Engine, now: nat, clock: Clock): Outcome {
    if e.shouldStop then Outcome(e.(pc := Stopped), None)
    else
      var action := S.HeartbeatAction(e.config, e.session, now);
      var checked := Call(e, S.CheckHeartbeat(now));
      match action
      case Send =>
        if checked.session.state == S.Active then SendOwn(checked.(pc := Recv), HeartbeatKind, clock)
        else Outcome(checked.(pc := Recv), None)
      case Disconnect => Outcome(checked.(shouldStop := true, pc := Stopped), None)
      case NoAction => Outcome(checked.(pc := Recv), None)
  }

  /** A parsed message is recorded and its number checked; the loop ignores the check's result. */
  function Noted(e: Engine, m: seq<byte>, seqNum: Option<u64>, clock: Clock): Engine {
    var n := Call(e, S.MessageReceived(clock.received)).(processed := e.processed + [m]);
    if seqNum.Some? then Call(n, S.Inbound(seqNum.value, clock.received)) else n
  }

  const LOGON: seq<byte> := [0x41]
  const HEARTBEAT: seq<byte> := [0x30]
  const TEST_REQUEST: seq<byte> := [0x31]
  const LOGOUT: seq<byte> := [0x35]

  function HandleLogon(e: Engine, clock: Clock): Outcome {
    if e.config.role == S.Acceptor && (e.session.state == S.Disconnected || e.session.state == S.Connecting) then
      var c := if e.session.state == S.Disconnected then Call(e, S.Connected(clock.received, clock.sent)) else e;
      SendOwn(Call(c, S.Logon(clock.received)).(pc := App), LogonKind, clock)
    else if e.session.state == S.LogonSent then Outcome(Call(e, S.Logon(clock.received)).(pc := App), None)
    else Outcome(e, None)
  }

  /** `on_logout` of the application may fail; otherwise the Logout is answered unless one was sent. */
  function HandleLogout(e: Engine, clock: Clock, appFails: bool): Outcome {
    if appFails then Outcome(e.(pc := AppError), None)
    else
      var answered := if e.session.state != S.LogoutSent then SendLogout(e, clock) else Outcome(e, None);
      Outcome(Call(answered.engine, S.DisconnectedCall).(shouldStop := true), answered.out)
  }

  function Handle(e: Engine, m: seq<byte>, msgType: seq<byte>, clock: Clock, appFails: bool): Outcome {
    if msgType == LOGON then HandleLogon(e, clock)
    else if msgType == HEARTBEAT then Outcome(e, None)
    else if msgType == TEST_REQUEST then SendOwn(e, HeartbeatKind, clock)
    else if msgType == LOGOUT then HandleLogout(e, clock, appFails)
    else Outcome(e.(pc := App, delivered := e.delivered + [m]), None)
  }

  /** One turn of the message loop: cut a frame off, parse it, note it, act on its type. */
  function Dispatched(e: Engine, clock: Clock, appFails: bool): Outcome {
    var b := Boundary(e.recvBuf);
    if b.None? then Outcome(e.(pc := Settle), None)
    else
      var m := e.recvBuf[..b.value];
      var cut := e.(recvBuf := e.recvBuf[b.value..]);
      var h := ReadHeader(m);
      if h.None? then Outcome(cut, None)
      else
        var noted := Noted(cut, m, h.value.seqNum, clock);
        if h.value.msgType.None? then Outcome(noted, None)
        else Handle(noted, m, h.value.msgType.value, clock, appFails)
  }

  /** Behind the message loop: a closed session stops the engine, one the application asked to end sends
      its Logout first. */
  function Settled(e: Engine, clock: Clock): Outcome {
    if e.session.state == S.Disconnected then Outcome(e.(shouldStop := true, pc := Top), None)
    else if e.session.state == S.LogoutSent then
      Outcome(Call(Call(e, S.NextOutbound), S.DisconnectedCall).(shouldStop := true, pc := Top),
              Some(OwnMessage(e, LogoutKind, clock)))
    else Outcome(e.(pc := Top), None)
  }

  /** An application sends only well-formed messages stamped with `next_seq_num`. */
  predicate Allowed(e: Engine, move: Move) { move.AppSend? ==> WellFormed(move.payload, e.session.outbound) }

  /** Every step of an engine but the receive. */
  function Local(e: Engine, move: Move): Option<Outcome> {
    match move
    case Launch(clock) => if e.pc == Start then Some(Launched(e, clock)) else None
    case Tick(now, clock) => if e.pc == Top then Some(Ticked(e, now, clock)) else None
    case Receive => None
    case Dispatch(clock, appFails) => if e.pc == Process then Some(Dispatched(e, clock, appFails)) else None
    case AppSend(payload, now) => if e.pc == App then Some(SendRaw(e, payload, now)) else None
    case AppStop => if e.pc == App then Some(Outcome(Call(e, S.LogoutSentCall), None)) else None
    case AppReturn => if e.pc == App then Some(Outcome(e.(pc := Process), None)) else None
    case AppFail => if e.pc == App then Some(Outcome(e.(pc := AppError), None)) else None
    case Finish(clock) => if e.pc == Settle then Some(Settled(e, clock)) else None
  }

  /** An engine handed a frame, which has left the queue before its length is looked at; an empty one counts
      as nothing received. */
  function Fed(e: Engine, m: seq<byte>): Engine {
    if |m| > FRAME_LIMIT then e.(pc := Oversize)
    else if m == [] then e.(pc := Top)
    else e.(recvBuf := e.recvBuf + m, pc := Process)
  }

  function HandedOver(w: World, i: nat, m: seq<byte>, rest: seq<Frame>): World
    requires i < |w.engines|
  {
    World(rest, w.engines[i := Fed(w.engines[i], m)])
  }

  /** `recv`: the first foreign frame, if there is one. */
  function Received(w: World, i: nat): World
    requires i < |w.engines|
  {
    var k := FirstForeign(w.bus, i);
    if k == |w.bus| then w.(engines := w.engines[i := w.engines[i].(pc := Top)])
    else HandedOver(w, i, w.bus[k].payload, w.bus[..k] + w.bus[k + 1..])
  }

  /** The bytes of what a step sends. */
  function Payloads(id: Identity, o: Outcome): seq<seq<byte>> {
    match o.out
    case None => []
    case Some(Own(kind, seqNum, wall)) => [SessionMessage(id, kind, seqNum, wall)]
    case Some(Raw(_, payload)) => [payload]
  }

  /** Engine `i` becomes `e` and puts `ms`, at most one message, on the bus. */
  function Posted(w: World, i: nat, e: Engine, ms: seq<seq<byte>>): World
    requires i < |w.engines| && |ms| <= 1
  {
    World(w.bus + if ms == [] then [] else [Frame(i, ms[0])], w.engines[i := e.(sent := e.sent + ms)])
  }

  function StepOf(w: World, i: nat, move: Move): (r: Option<World>)
    requires i < |w.engines|
    ensures r.Some? ==> |r.value.engines| == |w.engines|
  {
    if move == Receive then if w.engines[i].pc == Recv then Some(Received(w, i)) else None
    else if !Allowed(w.engines[i], move) then None
    else
      var o := Local(w.engines[i], move);
      if o.None? then None
      else Some(Posted(w, i, o.value.engine, Payloads(w.engines[i].id, o.value)))
  }

  datatype Step = Step(who: nat, move: Move)

  /** The state after a run; None when some step was not enabled. */
  function Exec(w: World, run: seq<Step>): (r: Option<World>)
    ensures r.Some? ==> |r.value.engines| == |w.engines|
  {
    if run == [] then Some(w)
    else
      var last := run[|run| - 1];
      var before := Exec(w, run[..|run| - 1]);
      if before.None? || last.who >= |w.engines| then None else StepOf(before.value, last.who, last.move)
  }

  /** A new engine about to call `run_initiator` or `run_acceptor`. */
  function NewEngine(config: S.Config, id: Identity, initiates: bool, now: nat): Engine {
    Engine(config, id, if initiates then Start else Top, S.Created(now), [], false, [], [], [])
  }

  /** Two new engines on an empty bus. */
  predicate Initial(w: World) {
    && w.bus == [] && |w.engines| == 2
    && forall e :: e in w.engines ==>
         Usable(e.id) && (e.pc == Start || e.pc == Top)
         && e == NewEngine(e.config, e.id, e.pc == Start, e.session.lastSent)
  }

  // ----- the invariant -----

  /** Messages `on_message` is called for. */
  predicate ForApp(m: seq<byte>) {
    var h := ReadHeader(m);
    h.Some? && h.value.msgType.Some? && h.value.msgType.value !in [LOGON, HEARTBEAT, TEST_REQUEST, LOGOUT]
  }

  function AppMessages(ms: seq<seq<byte>>): seq<seq<byte>> {
    if ms == [] then []
    else
      var m := ms[|ms| - 1];
      AppMessages(ms[..|ms| - 1]) + if ForApp(m) then [m] else []
  }

  /** The `k`-th message ever sent carries number `k + 1`, modulo the width of the counter. */
  predicate Numbered(sent: seq<seq<byte>>) {
    forall k :: 0 <= k < |sent| ==> WellFormed(sent[k], Wrap64(k + 1))
  }

  /** The outbound counter counts what was sent. */
  predicate OutboundOk(e: Engine) {
    Usable(e.id) && e.session.outbound == Wrap64(|e.sent| + 1) && Numbered(e.sent)
  }

  /** The inbound counter counts what was processed, and no gap was ever seen. */
  predicate InboundOk(e: Engine) {
    && e.session.inbound == Wrap64(|e.processed| + 1) && e.session.state != S.Resending
    && e.delivered == AppMessages(e.processed)
  }

  /** Only the message loop finds anything buffered, and no frame was ever refused. */
  predicate Placed(e: Engine) { e.pc != Oversize && (e.pc != Process ==> e.recvBuf == []) }

  predicate EngineOk(e: Engine) { OutboundOk(e) && InboundOk(e) && Placed(e) }

  /** Frames put on the bus by `i`, oldest first. */
  function InFlight(bus: seq<Frame>, i: nat): seq<seq<byte>> {
    if bus == [] then []
    else InFlight(bus[..|bus| - 1], i) + if bus[|bus| - 1].sender == i then [bus[|bus| - 1].payload] else []
  }

  /** The frame received and not yet processed. */
  function Pending(e: Engine): seq<seq<byte>> { if e.recvBuf == [] then [] else [e.recvBuf] }

  /** Everything `e` sent was processed by `p`, lies in its buffer, or is on the bus, in this order. */
  predicate Linked(e: Engine, p: Engine, bus: seq<Frame>, i: nat) {
    e.sent == p.processed + Pending(p) + InFlight(bus, i)
  }

  predicate TwoSenders(bus: seq<Frame>) { forall f :: f in bus ==> f.sender == 0 || f.sender == 1 }

  /** Engine `i` is in order, and so is the way from it to its peer. */
  predicate SideOk(w: World, i: nat)
    requires |w.engines| == 2 && i < 2
  {
    EngineOk(w.engines[i]) && Linked(w.engines[i], w.engines[1 - i], w.bus, i)
  }

  predicate Inv(w: World) { |w.engines| == 2 && TwoSenders(w.bus) && SideOk(w, 0) && SideOk(w, 1) }

  // ----- sending -----

  /** At most one message goes out; it carries the next outbound number, and only then the counter
      moves. */
  predicate Sends(e: Engine, o: Outcome) {
    && o.engine.id == e.id && o.engine.sent == e.sent
    && (if o.out.None? then o.engine.session.outbound == e.session.outbound
        else o.out.value.seqNum == e.session.outbound && o.engine.session.outbound == Wrap64(e.session.outbound + 1))
  }

  /** The receiving side is left alone. */
  predicate Hears(e: Engine, o: Outcome) {
    && o.engine.session.inbound == e.session.inbound
    && (e.session.state != S.Resending ==> o.engine.session.state != S.Resending)
    && o.engine.processed == e.processed && o.engine.recvBuf == e.recvBuf
  }

  predicate Quiet(e: Engine, o: Outcome) { Sends(e, o) && Hears(e, o) && o.engine.delivered == e.delivered }

  lemma TickedQuiet(e: Engine, now: nat, clock: Clock)
    ensures Quiet(e, Ticked(e, now, clock)) && Ticked(e, now, clock).engine.pc in {Recv, Stopped}
  {
  }

  lemma LaunchedQuiet(e: Engine, clock: Clock)
    ensures Quiet(e, Launched(e, clock)) && Launched(e, clock).engine.pc == Top
  {
  }

  lemma SettledQuiet(e: Engine, clock: Clock)
    ensures Quiet(e, Settled(e, clock)) && Settled(e, clock).engine.pc == Top
  {
  }

  /** Outside the message loop an engine at most sends. */
  lemma LocalQuiet(e: Engine, move: Move)
    requires !move.Dispatch? && Local(e, move).Some?
    ensures var o := Local(e, move).value;
      Quiet(e, o) && o.engine.pc != Oversize && (o.engine.pc == Process ==> e.pc == App) && e.pc != Process
  {
    match move
    case Launch(clock) => LaunchedQuiet(e, clock);
    case Tick(now, clock) => TickedQuiet(e, now, clock);
    case Finish(clock) => SettledQuiet(e, clock);
    case _ =>
  }

  // ----- the message loop -----

  /** The engine with its buffered frame cut off and the frame's number, the expected one, accepted. */
  function Accepted(e: Engine, clock: Clock): Engine {
    Noted(e.(recvBuf := []), e.recvBuf, Some(e.session.inbound), clock)
  }

  lemma AcceptedCounts(e: Engine, clock: Clock)
    ensures var n := Accepted(e, clock);
      && n.session.inbound == Wrap64(e.session.inbound + 1) && n.session.outbound == e.session.outbound
      && n.session.state == e.session.state
      && n == e.(session := n.session, recvBuf := [], processed := e.processed + [e.recvBuf])
  {
  }

  /** What acting on a message leaves: at most one message sent, and the message delivered exactly if it
      is for the application. */
  predicate Handled(e: Engine, m: seq<byte>, forApp: bool, o: Outcome) {
    && Sends(e, o) && Hears(e, o) && o.engine.pc in {Process, App, AppError}
    && o.engine.delivered == e.delivered + if forApp then [m] else []
  }

  lemma HandleLogonDoes(e: Engine, m: seq<byte>, clock: Clock)
    requires e.pc == Process
    ensures Handled(e, m, false, HandleLogon(e, clock))
  {
  }

  lemma HandleLogoutDoes(e: Engine, m: seq<byte>, clock: Clock, appFails: bool)
    requires e.pc == Process
    ensures Handled(e, m, false, HandleLogout(e, clock, appFails))
  {
  }

  lemma HandleDoes(e: Engine, m: seq<byte>, msgType: seq<byte>, clock: Clock, appFails: bool)
    requires e.pc == Process
    ensures Handled(e, m, msgType !in [LOGON, HEARTBEAT, TEST_REQUEST, LOGOUT], Handle(e, m, msgType, clock, appFails))
  {
    if msgType == LOGON {
      HandleLogonDoes(e, m, clock);
    } else if msgType == LOGOUT {
      HandleLogoutDoes(e, m, clock, appFails);
    }
  }

  predicate OwnOnly(o: Outcome) { o.out.Some? ==> o.out.value.Own? }

  lemma DispatchedOwn(e: Engine, clock: Clock, appFails: bool)
    ensures OwnOnly(Dispatched(e, clock, appFails))
  {
  }

  /** Only an application's own message goes out as it is. */
  lemma RawIsApps(e: Engine, move: Move, o: Outcome)
    requires Local(e, move) == Some(o)
    ensures OwnOnly(o) || (move.AppSend? && o == SendRaw(e, move.payload, move.now))
  {
    match move
    case Dispatch(clock, appFails) => DispatchedOwn(e, clock, appFails);
    case _ =>
  }

  /** Whatever goes out is well formed and carries the number it was given. */
  lemma OutReads(e: Engine, move: Move, o: Outcome)
    requires Usable(e.id) && Allowed(e, move) && Local(e, move) == Some(o) && Sends(e, o) && o.out.Some?
    ensures |Payloads(e.id, o)| == 1 && WellFormed(Payloads(e.id, o)[0], e.session.outbound)
  {
    match o.out.value
    case Own(kind, seqNum, wall) => SessionMessageRead(e.id, kind, seqNum, wall);
    case Raw(_, _) => RawIsApps(e, move, o);
  }

  lemma NumberedLast(sent: seq<seq<byte>>, m: seq<byte>)
    requires Numbered(sent) && WellFormed(m, Wrap64(|sent| + 1))
    ensures Numbered(sent + [m])
  {
    var all := sent + [m];
    forall k | 0 <= k < |all| ensures WellFormed(all[k], Wrap64(k + 1)) {
      if k < |sent| {
        assert all[k] == sent[k];
      }
    }
  }

  lemma NextNumber(n: nat)
    ensures Wrap64(Wrap64(n + 1) + 1) == Wrap64(n + 1 + 1)
  {
  }

  /** The engine after a step, with what it sent on record. */
  function Recorded(e: Engine, o: Outcome): Engine { o.engine.(sent := e.sent + Payloads(e.id, o)) }

  lemma OutboundKeeps(e: Engine, o: Outcome, ms: seq<seq<byte>>)
    requires OutboundOk(e) && Sends(e, o) && |ms| == (if o.out.Some? then 1 else 0)
    requires ms != [] ==> Numbered(e.sent + ms)
    ensures OutboundOk(o.engine.(sent := e.sent + ms))
  {
    if ms == [] {
      assert e.sent + ms == e.sent;
    } else {
      NextNumber(|e.sent|);
    }
  }

  lemma SentNumbered(e: Engine, ms: seq<seq<byte>>)
    requires OutboundOk(e) && |ms| == 1 && WellFormed(ms[0], e.session.outbound)
    ensures Numbered(e.sent + ms)
  {
    assert ms == [ms[0]];
    NumberedLast(e.sent, ms[0]);
  }

  /** Nothing is buffered, or exactly the frame the session expects next. */
  predicate Expected(e: Engine) { e.recvBuf == [] || WellFormed(e.recvBuf, e.session.inbound) }

  lemma AppMessagesLast(ms: seq<seq<byte>>, m: seq<byte>)
    ensures AppMessages(ms + [m]) == AppMessages(ms) + if ForApp(m) then [m] else []
  {
    assert (ms + [m])[..|ms|] == ms;
  }

  /** A whole frame is cut off, leaving nothing, and is acted on as its header says. */
  lemma CutFrame(e: Engine, clock: Clock, appFails: bool)
    requires WellFormed(e.recvBuf, e.session.inbound)
    ensures Dispatched(e, clock, appFails)
      == Handle(Accepted(e, clock), e.recvBuf, ReadHeader(e.recvBuf).value.msgType.value, clock, appFails)
  {
    var m := e.recvBuf;
    assert m[..|m|] == m && m[|m|..] == [];
  }

  lemma FrameHandled(e: Engine, clock: Clock, appFails: bool)
    requires e.pc == Process && WellFormed(e.recvBuf, e.session.inbound)
    ensures Handled(Accepted(e, clock), e.recvBuf, ForApp(e.recvBuf), Dispatched(e, clock, appFails))
  {
    CutFrame(e, clock, appFails);
    HandleDoes(Accepted(e, clock), e.recvBuf, ReadHeader(e.recvBuf).value.msgType.value, clock, appFails);
  }

  /** One dispatched frame moves from the buffer to the processed messages. */
  predicate Moved(e: Engine, o: Outcome) {
    && Sends(e, o) && InboundOk(o.engine) && Placed(o.engine) && o.engine.recvBuf == []
    && o.engine.processed == e.processed + [e.recvBuf]
  }

  lemma HandledMoves(e: Engine, n: Engine, forApp: bool, o: Outcome)
    requires InboundOk(e) && Handled(n, e.recvBuf, forApp, o)
    requires AppMessages(e.processed + [e.recvBuf]) == AppMessages(e.processed) + if forApp then [e.recvBuf] else []
    requires n == e.(session := n.session, recvBuf := [], processed := e.processed + [e.recvBuf])
    requires n.session.inbound == Wrap64(e.session.inbound + 1) && n.session.outbound == e.session.outbound
    requires n.session.state == e.session.state
    ensures Moved(e, o)
  {
    NextNumber(|e.processed|);
  }

  lemma FrameMoves(e: Engine, clock: Clock, appFails: bool)
    requires InboundOk(e) && e.pc == Process && WellFormed(e.recvBuf, e.session.inbound)
    ensures Moved(e, Dispatched(e, clock, appFails))
  {
    FrameHandled(e, clock, appFails);
    AcceptedCounts(e, clock);
    AppMessagesLast(e.processed, e.recvBuf);
    HandledMoves(e, Accepted(e, clock), ForApp(e.recvBuf), Dispatched(e, clock, appFails));
  }

  /** No frame is buffered: the loop is left. */
  lemma NothingBuffered(e: Engine, clock: Clock, appFails: bool)
    requires e.recvBuf == []
    ensures Dispatched(e, clock, appFails) == Outcome(e.(pc := Settle), None)
  {
  }

  /** What a step leaves of the engine, its sending aside. */
  predicate Steps(e: Engine, o: Outcome) {
    && Sends(e, o) && InboundOk(o.engine) && Placed(o.engine)
    && o.engine.processed + Pending(o.engine) == e.processed + Pending(e)
  }

  lemma DispatchSteps(e: Engine, clock: Clock, appFails: bool)
    requires InboundOk(e) && e.pc == Process && Expected(e)
    ensures Steps(e, Dispatched(e, clock, appFails))
  {
    if e.recvBuf == [] {
      NothingBuffered(e, clock, appFails);
    } else {
      FrameMoves(e, clock, appFails);
    }
  }

  lemma QuietSteps(e: Engine, o: Outcome)
    requires InboundOk(e) && Placed(e) && Quiet(e, o)
    requires o.engine.pc != Oversize && (o.engine.pc == Process ==> e.pc == App) && e.pc != Process
    ensures Steps(e, o)
  {
  }

  lemma LocalSteps(e: Engine, move: Move, o: Outcome)
    requires InboundOk(e) && Placed(e) && Expected(e) && Local(e, move) == Some(o)
    ensures Steps(e, o)
  {
    if move.Dispatch? {
      DispatchSteps(e, move.clock, move.appFails);
    } else {
      LocalQuiet(e, move);
      QuietSteps(e, o);
    }
  }

  /** Every local step keeps the engine's books, and what it has received stays received. */
  lemma LocalKeeps(e: Engine, move: Move, o: Outcome)
    requires EngineOk(e) && Expected(e) && Allowed(e, move) && Local(e, move) == Some(o)
    ensures EngineOk(Recorded(e, o)) && |Payloads(e.id, o)| <= 1
    ensures o.engine.processed + Pending(o.engine) == e.processed + Pending(e) && o.engine.sent == e.sent
  {
    LocalSteps(e, move, o);
    if o.out.Some? {
      OutReads(e, move, o);
      SentNumbered(e, Payloads(e.id, o));
    }
    OutboundKeeps(e, o, Payloads(e.id, o));
  }

  // ----- the bus -----

  lemma {:induction false} InFlightConcat(a: seq<Frame>, b: seq<Frame>, i: nat)
    ensures InFlight(a + b, i) == InFlight(a, i) + InFlight(b, i)
  {
    if b == [] {
      assert a + b == a;
    } else {
      var n: nat := |b| - 1;
      InFlightConcat(a, b[..n], i);
      assert (a + b)[..|a + b| - 1] == a + b[..n];
    }
  }

  lemma InFlightOne(f: Frame, i: nat)
    ensures InFlight([f], i) == if f.sender == i then [f.payload] else []
  {
    assert [f][..0] == [];
  }

  lemma {:induction false} NoneInFlight(bus: seq<Frame>, i: nat)
    requires forall k :: 0 <= k < |bus| ==> bus[k].sender != i
    ensures InFlight(bus, i) == []
  {
    if bus != [] {
      NoneInFlight(bus[..|bus| - 1], i);
    }
  }

  lemma TakeOldestFrom(head: seq<Frame>, f: Frame, tail: seq<Frame>, i: nat)
    ensures InFlight(head + ([f] + tail), i)
         == InFlight(head, i) + ((if f.sender == i then [f.payload] else []) + InFlight(tail, i))
    ensures InFlight(head + tail, i) == InFlight(head, i) + InFlight(tail, i)
  {
    InFlightConcat(head, [f] + tail, i);
    InFlightConcat([f], tail, i);
    InFlightConcat(head, tail, i);
    InFlightOne(f, i);
  }

  /** Receiving takes the peer's oldest frame and leaves the engine's own frames alone. */
  lemma TakeOldest(bus: seq<Frame>, i: nat, peer: nat)
    requires i != peer && forall f :: f in bus ==> f.sender == i || f.sender == peer
    ensures var k := FirstForeign(bus, i);
      if k == |bus| then InFlight(bus, peer) == []
      else
        var rest := bus[..k] + bus[k + 1..];
        bus[k].sender == peer && InFlight(bus, peer) == [bus[k].payload] + InFlight(rest, peer)
        && InFlight(rest, i) == InFlight(bus, i)
  {
    var k := FirstForeign(bus, i);
    NoneInFlight(bus[..k], peer);
    if k == |bus| {
      assert bus[..k] == bus;
    } else {
      assert bus[k] in bus;
      Removed(bus, bus[..k], bus[k], bus[k + 1..], i, peer);
    }
  }

  lemma Removed(bus: seq<Frame>, head: seq<Frame>, f: Frame, tail: seq<Frame>, i: nat, peer: nat)
    requires bus == head + ([f] + tail) && f.sender == peer && i != peer && InFlight(head, peer) == []
    ensures InFlight(bus, peer) == [f.payload] + InFlight(head + tail, peer)
    ensures InFlight(head + tail, i) == InFlight(bus, i)
  {
    TakeOldestFrom(head, f, tail, peer);
    TakeOldestFrom(head, f, tail, i);
  }

  // ----- every step keeps the invariant -----

  /** The oldest message under way to an engine is the one its session expects. */
  lemma NextExpected(p: Engine, e: Engine, next: seq<byte>, rest: seq<seq<byte>>)
    requires OutboundOk(p) && InboundOk(e) && p.sent == e.processed + ([next] + rest)
    ensures WellFormed(next, e.session.inbound)
  {
    NumberAt(p.sent, |e.processed|, next, e.session.inbound);
  }

  lemma NumberAt(sent: seq<seq<byte>>, k: nat, m: seq<byte>, number: u64)
    requires Numbered(sent) && k < |sent| && sent[k] == m && number == Wrap64(k + 1)
    ensures WellFormed(m, number)
  {
  }

  lemma BufferExpected(p: Engine, e: Engine, flying: seq<seq<byte>>)
    requires OutboundOk(p) && InboundOk(e) && p.sent == e.processed + Pending(e) + flying
    ensures Expected(e)
  {
    if e.recvBuf != [] {
      Shifted(e.processed, [e.recvBuf], flying);
      NextExpected(p, e, e.recvBuf, flying);
    }
  }

  lemma Shifted<T>(a: seq<T>, b: seq<T>, c: seq<T>)
    ensures a + b + c == a + (b + c)
  {
  }

  lemma PostedBus(bus: seq<Frame>, i: nat, ms: seq<seq<byte>>, j: nat)
    requires |ms| <= 1
    ensures InFlight(bus + if ms == [] then [] else [Frame(i, ms[0])], j)
         == InFlight(bus, j) + if i == j then ms else []
  {
    if ms == [] {
      assert bus + [] == bus;
    } else {
      InFlightConcat(bus, [Frame(i, ms[0])], j);
      InFlightOne(Frame(i, ms[0]), j);
    }
  }

  /** The way out of an engine that sends, and the way into it, stay whole. */
  lemma LinksKept(e: Engine, after: Engine, p: Engine, bus: seq<Frame>, i: nat, ms: seq<seq<byte>>)
    requires |ms| <= 1 && i < 2 && Linked(e, p, bus, i) && Linked(p, e, bus, 1 - i)
    requires after.sent == e.sent + ms && after.processed + Pending(after) == e.processed + Pending(e)
    ensures var later := bus + if ms == [] then [] else [Frame(i, ms[0])];
      Linked(after, p, later, i) && Linked(p, after, later, 1 - i)
  {
    PostedBus(bus, i, ms, i);
    PostedBus(bus, i, ms, 1 - i);
    Shifted(p.processed + Pending(p), InFlight(bus, i), ms);
  }

  /** The invariant of a world with one engine replaced. */
  lemma Replaced(w: World, i: nat, after: Engine, bus: seq<Frame>)
    requires Inv(w) && i < 2 && TwoSenders(bus) && EngineOk(after)
    requires Linked(after, w.engines[1 - i], bus, i) && Linked(w.engines[1 - i], after, bus, 1 - i)
    ensures Inv(World(bus, w.engines[i := after]))
  {
  }

  /** `e`, with `ms` sent on top of what `was` had sent, is in order and has received as much. */
  predicate Continues(was: Engine, e: Engine, ms: seq<seq<byte>>) {
    && |ms| <= 1 && e.sent == was.sent && EngineOk(e.(sent := was.sent + ms))
    && e.processed + Pending(e) == was.processed + Pending(was)
  }

  lemma PostedInv(w: World, i: nat, e: Engine, ms: seq<seq<byte>>)
    requires Inv(w) && i < 2 && Continues(w.engines[i], e, ms)
    ensures Inv(Posted(w, i, e, ms))
  {
    PostedLinks(w.engines[i], e, w.engines[1 - i], w.bus, i, ms);
    Replaced(w, i, e.(sent := w.engines[i].sent + ms), w.bus + if ms == [] then [] else [Frame(i, ms[0])]);
  }

  lemma PostedLinks(was: Engine, e: Engine, p: Engine, bus: seq<Frame>, i: nat, ms: seq<seq<byte>>)
    requires |ms| <= 1 && i < 2 && Linked(was, p, bus, i) && Linked(p, was, bus, 1 - i)
    requires e.processed + Pending(e) == was.processed + Pending(was)
    ensures var after := e.(sent := was.sent + ms); var later := bus + if ms == [] then [] else [Frame(i, ms[0])];
      Linked(after, p, later, i) && Linked(p, after, later, 1 - i)
  {
    LinksKept(was, e.(sent := was.sent + ms), p, bus, i, ms);
  }

  /** The invariant as engine `i` sees it. */
  predicate Side(e: Engine, p: Engine, flying: seq<seq<byte>>) {
    EngineOk(e) && OutboundOk(p) && p.sent == e.processed + Pending(e) + flying
  }

  lemma SideOf(w: World, i: nat)
    requires Inv(w) && i < 2
    ensures Side(w.engines[i], w.engines[1 - i], InFlight(w.bus, 1 - i))
  {
    SideAt(w.engines[i], w.engines[1 - i], w.bus, 1 - i);
  }

  lemma SideAt(e: Engine, p: Engine, bus: seq<Frame>, j: nat)
    requires EngineOk(e) && EngineOk(p) && Linked(p, e, bus, j)
    ensures Side(e, p, InFlight(bus, j))
  {
  }

  lemma SideKeeps(e: Engine, p: Engine, flying: seq<seq<byte>>, move: Move, o: Outcome)
    requires Side(e, p, flying) && Allowed(e, move) && Local(e, move) == Some(o)
    ensures Continues(e, o.engine, Payloads(e.id, o))
  {
    BufferExpected(p, e, flying);
    LocalKeeps(e, move, o);
  }

  lemma LocalStepInv(w: World, i: nat, move: Move, o: Outcome)
    requires Inv(w) && i < 2 && Allowed(w.engines[i], move) && Local(w.engines[i], move) == Some(o)
    ensures |Payloads(w.engines[i].id, o)| <= 1 && Inv(Posted(w, i, o.engine, Payloads(w.engines[i].id, o)))
  {
    SideOf(w, i);
    SideKeeps(w.engines[i], w.engines[1 - i], InFlight(w.bus, 1 - i), move, o);
    PostedInv(w, i, o.engine, Payloads(w.engines[i].id, o));
  }

  /** A frame put into an empty buffer: nothing is lost between the bus and the buffer. */
  lemma ReceivedLinks(p: Engine, e: Engine, m: seq<byte>, bus: seq<Frame>, rest: seq<Frame>, j: nat)
    requires e.recvBuf == [] && m != [] && Linked(p, e, bus, j) && InFlight(bus, j) == [m] + InFlight(rest, j)
    ensures Linked(p, e.(recvBuf := e.recvBuf + m, pc := Process), rest, j)
  {
    assert e.recvBuf + m == m;
    Shifted(e.processed, [m], InFlight(rest, j));
    assert e.processed + Pending(e) == e.processed;
  }

  /** A frame on its way fits and is not empty. */
  lemma FrameFits(p: Engine, e: Engine, m: seq<byte>, bus: seq<Frame>, rest: seq<seq<byte>>, j: nat)
    requires OutboundOk(p) && InboundOk(e) && e.recvBuf == [] && Linked(p, e, bus, j) && InFlight(bus, j) == [m] + rest
    ensures 0 < |m| <= FRAME_LIMIT
  {
    assert e.processed + Pending(e) == e.processed;
    NextExpected(p, e, m, rest);
    Conserved(m);
  }

  lemma ReceivedOk(e: Engine, p: Engine, m: seq<byte>, bus: seq<Frame>, rest: seq<Frame>, i: nat)
    requires EngineOk(e) && OutboundOk(p) && e.pc == Recv && i < 2
    requires Linked(e, p, bus, i) && Linked(p, e, bus, 1 - i)
    requires InFlight(bus, 1 - i) == [m] + InFlight(rest, 1 - i) && InFlight(rest, i) == InFlight(bus, i)
    ensures 0 < |m| <= FRAME_LIMIT
    ensures var after := e.(recvBuf := e.recvBuf + m, pc := Process);
      EngineOk(after) && Linked(after, p, rest, i) && Linked(p, after, rest, 1 - i)
  {
    FrameFits(p, e, m, bus, InFlight(rest, 1 - i), 1 - i);
    ReceivedLinks(p, e, m, bus, rest, 1 - i);
    BufferedOk(e, m);
  }

  lemma ReceiveSome(w: World, i: nat, m: seq<byte>, rest: seq<Frame>)
    requires Inv(w) && i < 2 && w.engines[i].pc == Recv && TwoSenders(rest)
    requires InFlight(w.bus, 1 - i) == [m] + InFlight(rest, 1 - i) && InFlight(rest, i) == InFlight(w.bus, i)
    ensures Inv(HandedOver(w, i, m, rest))
  {
    var e := w.engines[i];
    ReceivedOk(e, w.engines[1 - i], m, w.bus, rest, i);
    Replaced(w, i, e.(recvBuf := e.recvBuf + m, pc := Process), rest);
  }

  lemma BufferedOk(e: Engine, m: seq<byte>)
    requires EngineOk(e)
    ensures EngineOk(e.(recvBuf := e.recvBuf + m, pc := Process))
  {
  }

  lemma BusSenders(bus: seq<Frame>, i: nat)
    requires TwoSenders(bus) && i < 2
    ensures forall f :: f in bus ==> f.sender == i || f.sender == 1 - i
    ensures var k := FirstForeign(bus, i); k < |bus| ==> TwoSenders(bus[..k] + bus[k + 1..])
  {
  }

  lemma ReceiveNone(w: World, i: nat)
    requires Inv(w) && i < 2 && w.engines[i].pc == Recv
    ensures Inv(w.(engines := w.engines[i := w.engines[i].(pc := Top)]))
  {
    Replaced(w, i, w.engines[i].(pc := Top), w.bus);
  }

  lemma OldestTaken(bus: seq<Frame>, i: nat, k: nat, m: seq<byte>, rest: seq<Frame>)
    requires TwoSenders(bus) && i < 2 && k == FirstForeign(bus, i) && k < |bus|
    requires m == bus[k].payload && rest == bus[..k] + bus[k + 1..]
    ensures TwoSenders(rest)
    ensures InFlight(bus, 1 - i) == [m] + InFlight(rest, 1 - i) && InFlight(rest, i) == InFlight(bus, i)
  {
    BusSenders(bus, i);
    TakeOldest(bus, i, 1 - i);
  }

  lemma ReceivedInv(w: World, i: nat)
    requires Inv(w) && i < 2 && w.engines[i].pc == Recv
    ensures Inv(Received(w, i))
  {
    var k := FirstForeign(w.bus, i);
    if k == |w.bus| {
      ReceiveNone(w, i);
    } else {
      var m, rest := w.bus[k].payload, w.bus[..k] + w.bus[k + 1..];
      OldestTaken(w.bus, i, k, m, rest);
      ReceiveSome(w, i, m, rest);
    }
  }

  lemma StepInv(w: World, i: nat, move: Move)
    requires Inv(w) && i < 2 && StepOf(w, i, move).Some?
    ensures Inv(StepOf(w, i, move).value)
  {
    if move == Receive {
      ReceivedInv(w, i);
    } else {
      LocalStepInv(w, i, move, Local(w.engines[i], move).value);
    }
  }

  lemma InitialInv(w: World)
    requires Initial(w)
    ensures Inv(w)
  {
    assert w.engines[0] in w.engines && w.engines[1] in w.engines;
  }

  lemma {:induction false} RunInv(w: World, run: seq<Step>)
    requires Initial(w) && Exec(w, run).Some?
    ensures Inv(Exec(w, run).value)
  {
    if run == [] {
      InitialInv(w);
    } else {
      var n: nat := |run| - 1;
      RunInv(w, run[..n]);
      StepInv(Exec(w, run[..n]).value, run[n].who, run[n].move);
    }
  }

  // ----- what it means -----

  /** What `i` has sent and its peer has not processed yet, oldest first. */
  function Undelivered(w: World, i: nat): seq<seq<byte>>
    requires |w.engines| == 2 && i < 2
  {
    Pending(w.engines[1 - i]) + InFlight(w.bus, i)
  }

  /** In every interleaving no session ever enters Resending, and no frame is ever refused. */
  lemma {:induction false} NoGapEver(w: World, run: seq<Step>, i: nat)
    requires Initial(w) && Exec(w, run).Some? && i < 2
    ensures var e := Exec(w, run).value.engines[i]; e.session.state != S.Resending && e.pc != Oversize
  {
    RunInv(w, run);
    InOrder(Exec(w, run).value, i);
  }

  lemma InOrder(w: World, i: nat)
    requires Inv(w) && i < 2
    ensures w.engines[i].session.state != S.Resending && w.engines[i].pc != Oversize
  {
  }

  /** The messages carry `first`, `first + 1` and so on. */
  predicate Consecutive(ms: seq<seq<byte>>, first: u64) {
    forall k :: 0 <= k < |ms| ==> WellFormed(ms[k], Wrap64(first + k))
  }

  lemma FlightNumber(sent: seq<seq<byte>>, processed: seq<seq<byte>>, flight: seq<seq<byte>>,
                     k: nat, m: seq<byte>, number: u64)
    requires Numbered(sent) && sent == processed + flight && k < |flight| && m == flight[k]
    requires number == Wrap64(|processed| + k + 1)
    ensures WellFormed(m, number)
  {
    assert sent[|processed| + k] == m;
    NumberAt(sent, |processed| + k, m, number);
  }

  lemma FlightNumbers(sent: seq<seq<byte>>, processed: seq<seq<byte>>, flight: seq<seq<byte>>, first: u64)
    requires Numbered(sent) && sent == processed + flight && first == Wrap64(|processed| + 1)
    ensures Consecutive(flight, first)
  {
    forall k | 0 <= k < |flight| ensures WellFormed(flight[k], Wrap64(first + k)) {
      WrapSum(|processed|, k);
      FlightNumber(sent, processed, flight, k, flight[k], Wrap64(first + k));
    }
  }

  lemma FlightOf(e: Engine, p: Engine, bus: seq<Frame>, i: nat)
    requires EngineOk(e) && EngineOk(p) && Linked(e, p, bus, i)
    ensures var flight := Pending(p) + InFlight(bus, i);
      Consecutive(flight, p.session.inbound) && e.session.outbound == Wrap64(p.session.inbound + |flight|)
  {
    Shifted(p.processed, Pending(p), InFlight(bus, i));
    FlightNumbers(e.sent, p.processed, Pending(p) + InFlight(bus, i), p.session.inbound);
    WrapSum(|p.processed|, |Pending(p) + InFlight(bus, i)|);
  }

  /** What is under way from `i` to its peer carries exactly the numbers from the one the peer expects up
      to the sender's next, without gaps, repeats or reordering. */
  predicate Gapless(w: World, i: nat)
    requires |w.engines| == 2 && i < 2
  {
    var first, flight := w.engines[1 - i].session.inbound, Undelivered(w, i);
    Consecutive(flight, first) && w.engines[i].session.outbound == Wrap64(first + |flight|)
  }

  lemma FlightIn(w: World, i: nat)
    requires Inv(w) && i < 2
    ensures Gapless(w, i)
  {
    FlightOf(w.engines[i], w.engines[1 - i], w.bus, i);
  }

  /** In every interleaving the numbers under way in either direction close the distance between the two
      sessions' counters. */
  lemma {:induction false} FlightIsConsecutive(w: World, run: seq<Step>, i: nat)
    requires Initial(w) && Exec(w, run).Some? && i < 2
    ensures Gapless(Exec(w, run).value, i)
  {
    RunInv(w, run);
    FlightIn(Exec(w, run).value, i);
  }

  lemma WrapSum(n: nat, k: nat)
    ensures Wrap64(Wrap64(n + 1) + k) == Wrap64(n + k + 1)
  {
  }

  lemma {:induction false} AppMessagesPrefix(a: seq<seq<byte>>, b: seq<seq<byte>>)
    ensures AppMessages(a) <= AppMessages(a + b)
  {
    if b == [] {
      assert a + b == a;
    } else {
      var n: nat := |b| - 1;
      AppMessagesPrefix(a, b[..n]);
      assert a + b == (a + b[..n]) + [b[n]];
      AppMessagesLast(a + b[..n], b[n]);
    }
  }

  lemma AppOf(e: Engine, p: Engine, bus: seq<Frame>, i: nat)
    requires InboundOk(p) && Linked(e, p, bus, i)
    ensures p.delivered <= AppMessages(e.sent)
    ensures Pending(p) + InFlight(bus, i) == [] ==> p.delivered == AppMessages(e.sent)
  {
    var flight := Pending(p) + InFlight(bus, i);
    Shifted(p.processed, Pending(p), InFlight(bus, i));
    AppMessagesPrefix(p.processed, flight);
    if flight == [] {
      assert p.processed + flight == p.processed;
    }
  }

  lemma AppIn(w: World, i: nat)
    requires Inv(w) && i < 2
    ensures w.engines[1 - i].delivered <= AppMessages(w.engines[i].sent)
    ensures Undelivered(w, i) == [] ==> w.engines[1 - i].delivered == AppMessages(w.engines[i].sent)
  {
    AppOf(w.engines[i], w.engines[1 - i], w.bus, i);
  }

  /** In every interleaving each application has been given a prefix of the application messages its peer
      sent, in order and once each: all of them when nothing is under way. */
  lemma {:induction false} AppSeesPrefix(w: World, run: seq<Step>, i: nat)
    requires Initial(w) && Exec(w, run).Some? && i < 2
    ensures var now := Exec(w, run).value; var all := AppMessages(now.engines[i].sent);
      now.engines[1 - i].delivered <= all && (Undelivered(now, i) == [] ==> now.engines[1 - i].delivered == all)
  {
    RunInv(w, run);
    AppIn(Exec(w, run).value, i);
  }
}
