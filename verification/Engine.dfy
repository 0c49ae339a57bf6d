/** `FixEngine` of `src/engine.rs`: the fields and methods whose steps `EngineProtocol` interleaves. */
module Engine {
  import opened Bytes
  import opened Framing
  import opened Parser
  import opened EngineMessages
  import opened EngineProtocol
  import opened AeronTransport
  import S = Session
  import Timestamp

  /** What a step that sends at most one message does to the engine and to the bus. */
  ghost predicate Did(was: EngineProtocol.Engine, o: Outcome, now: EngineProtocol.Engine,
                      endpoint: nat, before: seq<Frame>, after: seq<Frame>)
  {
    var ms := Payloads(was.id, o);
    now == Recorded(was, o) && |ms| <= 1 && after == before + if ms == [] then [] else [Frame(endpoint, ms[0])]
  }

  /** What the engine makes of a message: MsgType and MsgSeqNum when it parses. */
  method ReadMessage(msg: seq<byte>) returns (h: Option<Header>)
    ensures h == ReadHeader(msg)
  {
    var parsed := ParseMessage(DEFAULT, msg);
    if parsed.Err? {
      return None;
    }
    var (view, consumed) := parsed.value;
    var seqNum := view.MsgSeqNum();
    var msgType := view.MsgType();
    return Some(Header(msgType, seqNum));
  }

  class FixEngine {
    const transport: AeronTransport
    const session: S.Session
    const received: ReceiveBuffer
    const sendBuf: array<byte>
    const id: Identity
    var shouldStop: bool
    // Every message sent, parsed and handed to the application, for specifications.
    ghost var sent: seq<seq<byte>>
    ghost var processed: seq<seq<byte>>
    ghost var delivered: seq<seq<byte>>

    ghost predicate Valid()
      reads this, transport, received
    {
      transport.bus != null && received.Valid() && received.recvBuf != sendBuf
      && sendBuf.Length == SEND_BUFFER && Usable(id)
    }

    ghost function View(pc: Pc): EngineProtocol.Engine
      reads this, session, received, received.recvBuf
      requires received.Valid()
    {
      Engine(session.config, id, pc, session.View(), received.Buffered(), shouldStop, sent, processed, delivered)
    }

    constructor (transport: AeronTransport, session: S.Session, id: Identity)
      requires transport.bus != null && Usable(id)
      ensures Valid() && this.transport == transport && this.session == session && this.id == id
      ensures fresh(sendBuf) && fresh(received) && fresh(received.recvBuf)
      ensures !shouldStop && received.Buffered() == [] && sent == processed == delivered == []
    {
      this.transport, this.session, this.id := transport, session, id;
      received := new ReceiveBuffer();
      sendBuf := new byte[SEND_BUFFER](_ => 0);
      shouldStop := false;
      sent, processed, delivered := [], [], [];
    }

    /** What every send starts with: the time, the configured texts and the builder, into the send buffer. */
    method BuildOwn(kind: Kind, seqNum: u64, wall: u64) returns (len: nat)
      requires Valid()
      modifies sendBuf
      ensures len <= sendBuf.Length && sendBuf[..len] == SessionMessage(id, kind, seqNum, wall)
    {
      var ts := Timestamp.ToFixTimestamp(wall);
      OwnFits(id, kind, seqNum, wall);
      match kind {
        case LogonKind => len := BuildLogon(sendBuf, id, seqNum, ts[..]);
        case HeartbeatKind => len := BuildHeartbeat(sendBuf, id, seqNum, ts[..]);
        case LogoutKind => len := BuildLogout(sendBuf, id, seqNum, ts[..]);
      }
    }

    method SendLogon(ghost pc: Pc, clock: Clock)
      requires Valid()
      modifies this`sent, session, sendBuf, transport.bus
      ensures Valid()
      ensures var was := old(View(pc));
        Did(was, SendOwn(was, LogonKind, clock), View(pc),
            transport.endpointId, old(transport.bus.frames), transport.bus.frames)
    {
      var seqNum := session.NextOutboundSeqNum();
      var len := BuildOwn(LogonKind, seqNum, clock.wall);
      var _ := transport.Send(sendBuf[..len]);
      sent := sent + [sendBuf[..len]];
      session.OnMessageSent(clock.sent);
    }

    method SendHeartbeat(ghost pc: Pc, clock: Clock)
      requires Valid()
      modifies this`sent, session, sendBuf, transport.bus
      ensures Valid()
      ensures var was := old(View(pc));
        Did(was, SendOwn(was, HeartbeatKind, clock), View(pc),
            transport.endpointId, old(transport.bus.frames), transport.bus.frames)
    {
      var seqNum := session.NextOutboundSeqNum();
      var len := BuildOwn(HeartbeatKind, seqNum, clock.wall);
      var _ := transport.Send(sendBuf[..len]);
      sent := sent + [sendBuf[..len]];
      session.OnMessageSent(clock.sent);
    }

    method SendLogout(ghost pc: Pc, clock: Clock)
      requires Valid()
      modifies this`sent, session, sendBuf, transport.bus
      ensures Valid()
      ensures var was := old(View(pc));
        Did(was, EngineProtocol.SendLogout(was, clock), View(pc),
            transport.endpointId, old(transport.bus.frames), transport.bus.frames)
    {
      var seqNum := session.NextOutboundSeqNum();
      var len := BuildOwn(LogoutKind, seqNum, clock.wall);
      var _ := transport.Send(sendBuf[..len]);
      sent := sent + [sendBuf[..len]];
      session.OnLogoutSent();
      session.OnMessageSent(clock.sent);
    }

    /** `EngineContext::send_raw`. */
    method SendRaw(data: seq<byte>, now: nat)
      requires Valid()
      modifies this`sent, session, transport.bus
      ensures Valid()
      ensures var was := old(View(App));
        Did(was, EngineProtocol.SendRaw(was, data, now), View(App),
            transport.endpointId, old(transport.bus.frames), transport.bus.frames)
    {
      var _ := transport.Send(data);
      sent := sent + [data];
      session.OnMessageSent(now);
      var _ := session.NextOutboundSeqNum();
    }

    /** `EngineContext::request_stop`. */
    method RequestStop()
      requires Valid()
      modifies session
      ensures Valid() && View(App) == Call(old(View(App)), S.LogoutSentCall)
    {
      session.OnLogoutSent();
    }

    /** The prologue of `run_initiator`. */
    method Launch(clock: Clock)
      requires Valid()
      modifies this`sent, session, sendBuf, transport.bus
      ensures Valid()
      ensures var was := old(View(Start));
        Did(was, Launched(was, clock), View(Top),
            transport.endpointId, old(transport.bus.frames), transport.bus.frames)
    {
      session.OnConnected(clock.received, clock.sent);
      SendLogon(Top, clock);
    }

    /** `handle_inbound_logon`, ahead of `run_acceptor`. */
    method HandleInboundLogon(clock: Clock)
      requires Valid()
      modifies this`sent, session, sendBuf, transport.bus
      ensures Valid()
      ensures var was := old(View(Top));
        Did(was, LogonAnswered(was, clock), View(Top),
            transport.endpointId, old(transport.bus.frames), transport.bus.frames)
    {
      session.OnConnected(clock.received, clock.sent);
      session.OnLogon(clock.received);
      SendLogon(Top, clock);
    }

    /** The top of `run_loop`: the stop flag and the heartbeat timer. `next` is where control goes. */
    method Tick(now: nat, clock: Clock) returns (next: Pc)
      requires Valid()
      modifies this`sent, this`shouldStop, session, sendBuf, transport.bus
      ensures Valid()
      ensures var was := old(View(Top)); var o := Ticked(was, now, clock);
        next == o.engine.pc
        && Did(was, o, View(next), transport.endpointId, old(transport.bus.frames), transport.bus.frames)
    {
      if shouldStop {
        return Stopped;
      }
      var action := session.CheckHeartbeatTimer(now);
      match action {
        case Send =>
          if session.state == S.Active {
            SendHeartbeat(Recv, clock);
          }
          return Recv;
        case Disconnect =>
          shouldStop := true;
          return Stopped;
        case NoAction =>
          return Recv;
      }
    }

    /** The receive of `run_loop`: one frame into the scratch buffer and from there behind what is already
        buffered. */
    method ReceiveData() returns (next: Pc)
      requires Valid()
      modifies received, received.recvBuf, transport.bus
      ensures Valid() && (received.recvBuf == old(received.recvBuf) || fresh(received.recvBuf))
      ensures var was, before := old(View(Recv)), old(transport.bus.frames);
        var k := FirstForeign(before, transport.endpointId);
        if k == |before| then next == Top && View(next) == was.(pc := Top) && transport.bus.frames == before
        else
          && transport.bus.frames == before[..k] + before[k + 1..]
          && next == Fed(was, before[k].payload).pc && View(next) == Fed(was, before[k].payload)
    {
      var scratch := new byte[FRAME_LIMIT](_ => 0);
      var n := transport.Recv(scratch);
      if n.Err? {
        return Oversize;
      }
      if n.value == 0 {
        return Top;
      }
      received.Append(scratch[..n.value]);
      return Process;
    }

    /** The acceptor's answer to a Logon, or the initiator's session becoming active; both lead into the
        application's callback. */
    method OnLogonMessage(clock: Clock) returns (next: Pc)
      requires Valid()
      modifies this`sent, session, sendBuf, transport.bus
      ensures Valid()
      ensures var was := old(View(Process)); var o := HandleLogon(was, clock);
        next == o.engine.pc
        && Did(was, o, View(next), transport.endpointId, old(transport.bus.frames), transport.bus.frames)
    {
      if session.config.role == S.Acceptor && (session.state == S.Disconnected || session.state == S.Connecting) {
        if session.state == S.Disconnected {
          session.OnConnected(clock.received, clock.sent);
        }
        session.OnLogon(clock.received);
        SendLogon(App, clock);
        return App;
      } else if session.state == S.LogonSent {
        session.OnLogon(clock.received);
        return App;
      }
      return Process;
    }

    /** `appFails` is what the application's `on_logout` answered. */
    method OnLogoutMessage(clock: Clock, appFails: bool) returns (next: Pc)
      requires Valid()
      modifies this`sent, this`shouldStop, session, sendBuf, transport.bus
      ensures Valid()
      ensures var was := old(View(Process)); var o := HandleLogout(was, clock, appFails);
        next == o.engine.pc
        && Did(was, o, View(next), transport.endpointId, old(transport.bus.frames), transport.bus.frames)
    {
      if appFails {
        return AppError;
      }
      if session.state != S.LogoutSent {
        SendLogout(Process, clock);
      }
      session.OnDisconnected();
      shouldStop := true;
      return Process;
    }

    /** A parsed message restarts the receive timer and has its number checked; a gap it reports is dropped. */
    method NoteMessage(msg: seq<byte>, seqNum: Option<u64>, clock: Clock)
      requires Valid()
      modifies this`processed, session
      ensures Valid() && View(Process) == Noted(old(View(Process)), msg, seqNum, clock)
    {
      session.OnMessageReceived(clock.received);
      processed := processed + [msg];
      if seqNum.Some? {
        var _ := session.ValidateInboundSeq(seqNum.value, clock.received);
      }
    }

    method HandleMessage(msg: seq<byte>, msgType: seq<byte>, clock: Clock, appFails: bool) returns (next: Pc)
      requires Valid()
      modifies this`sent, this`delivered, this`shouldStop, session, sendBuf, transport.bus
      ensures Valid()
      ensures var was := old(View(Process)); var o := Handle(was, msg, msgType, clock, appFails);
        next == o.engine.pc
        && Did(was, o, View(next), transport.endpointId, old(transport.bus.frames), transport.bus.frames)
    {
      if msgType == LOGON {
        next := OnLogonMessage(clock);
      } else if msgType == HEARTBEAT {
        next := Process;
      } else if msgType == TEST_REQUEST {
        SendHeartbeat(Process, clock);
        next := Process;
      } else if msgType == LOGOUT {
        next := OnLogoutMessage(clock, appFails);
      } else {
        delivered := delivered + [msg];
        next := App;
      }
    }

    /** One turn of the message loop: cut a frame off the front of the buffer, parse it, note it and act on
        its type. `App` means that the application's callback comes next. */
    method Dispatch(clock: Clock, appFails: bool) returns (next: Pc)
      requires Valid()
      modifies this, session, received`recvPos, received.recvBuf, sendBuf, transport.bus
      ensures Valid()
      ensures var was := old(View(Process)); var o := Dispatched(was, clock, appFails);
        next == o.engine.pc
        && Did(was, o, View(next), transport.endpointId, old(transport.bus.frames), transport.bus.frames)
    {
      var frame := received.TakeFrame();
      if frame.None? {
        return Settle;
      }
      var header := ReadMessage(frame.value);
      if header.None? {
        return Process;
      }
      NoteMessage(frame.value, header.value.seqNum, clock);
      if header.value.msgType.None? {
        return Process;
      }
      next := HandleMessage(frame.value, header.value.msgType.value, clock, appFails);
    }

    /** Behind the message loop. */
    method Finish(clock: Clock)
      requires Valid()
      modifies this`sent, this`shouldStop, session, sendBuf, transport.bus
      ensures Valid()
      ensures var was := old(View(Settle));
        Did(was, Settled(was, clock), View(Top),
            transport.endpointId, old(transport.bus.frames), transport.bus.frames)
    {
      match session.state {
        case Disconnected =>
          shouldStop := true;
        case LogoutSent =>
          var seqNum := session.NextOutboundSeqNum();
          var len := BuildOwn(LogoutKind, seqNum, clock.wall);
          var _ := transport.Send(sendBuf[..len]);
          sent := sent + [sendBuf[..len]];
          session.OnDisconnected();
          shouldStop := true;
        case _ =>
      }
    }
  }
}
