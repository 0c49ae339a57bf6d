/** `src/session.rs`: one session's state, sequence counters and timers.

    A clock reading is a natural number of nanoseconds and is passed in where the source reads the
    clock. */
module Session {
  import opened Bytes

  const SECOND: nat := 1_000_000_000

  datatype SessionState = Disconnected | Connecting | LogonSent | Active | Resending | LogoutSent
  datatype SessionRole = Initiator | Acceptor
  datatype Config = Config(role: SessionRole, heartbeatInterval: nat, maxReconnectAttempts: u32, maxMsgRate: u32)
  datatype SessionAction = Send | Disconnect | NoAction

  /** Everything a session remembers. */
  datatype State = State(
    state: SessionState, outbound: u64, inbound: u64,
    lastSent: nat, lastReceived: nat, probePending: bool, probeSent: Option<nat>,
    reconnectAttempts: u32, windowCount: u32, windowStart: nat)

  /** Only a disconnected initiator with attempts left reconnects; zero means no limit. */
  predicate MayReconnect(c: Config, s: State) {
    && s.state == Disconnected && c.role == Initiator
    && (c.maxReconnectAttempts == 0 || s.reconnectAttempts < c.maxReconnectAttempts)
  }

  /** One call, with the clock readings it makes. */
  datatype Call =
    | NextOutbound
    | Connected(received: nat, sent: nat)
    | Logon(now: nat)
    | Inbound(seqNum: u64, now: nat)
    | GapFilled(seqNum: u64)
    | LogoutSentCall
    | DisconnectedCall
    | CheckHeartbeat(now: nat)
    | MessageSent(now: nat)
    | MessageReceived(now: nat)
    | ReconnectAttempt
    | ResetSequences
    | CheckRate(now: nat)

  function Created(now: nat): State { State(Disconnected, 1, 1, now, now, false, None, 0, 0, now) }

  /** `Instant::duration_since`, which never goes below zero. */
  function Since(now: nat, earlier: nat): nat { if now >= earlier then now - earlier else 0 }

  function Timeout(c: Config): nat { c.heartbeatInterval + 5 * SECOND }

  /** What a heartbeat check answers. */
  function HeartbeatAction(c: Config, s: State, now: nat): SessionAction {
    if s.state != Active then NoAction
    else if Since(now, s.lastSent) >= c.heartbeatInterval then Send
    else if Since(now, s.lastReceived) >= Timeout(c) then if s.probePending then Disconnect else Send
    else NoAction
  }

  function HeartbeatChecked(c: Config, s: State, now: nat): State {
    if HeartbeatAction(c, s, now) != Send then s
    else if Since(now, s.lastSent) >= c.heartbeatInterval then s.(lastSent := now)
    else s.(probePending := true, probeSent := Some(now))
  }

  /** The window restarts a second after it started; the counter wraps at 2^32. */
  function RateChecked(s: State, now: nat): State {
    if Since(now, s.windowStart) >= SECOND then s.(windowStart := now, windowCount := 1)
    else s.(windowCount := Wrap32(s.windowCount + 1))
  }

  function InboundChecked(s: State, seqNum: u64, now: nat): State {
    if seqNum == s.inbound then s.(inbound := Wrap64(s.inbound + 1), lastReceived := now)
    else if seqNum > s.inbound then s.(state := Resending)
    else s
  }

  function After(c: Config, s: State, call: Call): State {
    match call
    case NextOutbound => s.(outbound := Wrap64(s.outbound + 1))
    case Connected(received, sent) =>
      if s.state == Disconnected || s.state == Connecting then
        s.(state := if c.role == Initiator then LogonSent else Connecting,
           lastReceived := received, lastSent := sent, reconnectAttempts := 0)
      else s
    case Logon(now) => s.(state := Active, lastReceived := now, probePending := false)
    case Inbound(seqNum, now) => InboundChecked(s, seqNum, now)
    case GapFilled(seqNum) => s.(inbound := seqNum, state := Active)
    case LogoutSentCall => s.(state := LogoutSent)
    case DisconnectedCall => s.(state := Disconnected, probePending := false)
    case CheckHeartbeat(now) => HeartbeatChecked(c, s, now)
    case MessageSent(now) => s.(lastSent := now)
    case MessageReceived(now) => s.(lastReceived := now, probePending := false)
    case ReconnectAttempt => s.(reconnectAttempts := Wrap32(s.reconnectAttempts + 1), state := Connecting)
    case ResetSequences => s.(outbound := 1, inbound := 1)
    case CheckRate(now) => RateChecked(s, now)
  }

  /** The state after a run of calls. */
  function AfterAll(c: Config, s: State, calls: seq<Call>): State {
    if calls == [] then s else After(c, AfterAll(c, s, calls[..|calls| - 1]), calls[|calls| - 1])
  }

  class Session {
    const config: Config
    var state: SessionState
    var outbound: u64
    var inbound: u64
    var lastSent: nat
    var lastReceived: nat
    var probePending: bool
    var probeSent: Option<nat>
    var reconnectAttempts: u32
    var windowCount: u32
    var windowStart: nat

    ghost function View(): State
      reads this
    {
      State(state, outbound, inbound, lastSent, lastReceived, probePending, probeSent,
            reconnectAttempts, windowCount, windowStart)
    }

    constructor (config: Config, now: nat)
      ensures this.config == config && View() == Created(now)
    {
      this.config := config;
      state, outbound, inbound := Disconnected, 1, 1;
      lastSent, lastReceived, probePending, probeSent := now, now, false, None;
      reconnectAttempts, windowCount, windowStart := 0, 0, now;
    }

    method NextOutboundSeqNum() returns (seqNum: u64)
      modifies this`outbound
      ensures seqNum == old(outbound) && View() == After(config, old(View()), NextOutbound)
    {
      seqNum := outbound;
      outbound := Wrap64(outbound + 1);
    }

    method OnConnected(received: nat, sent: nat)
      modifies this
      ensures View() == After(config, old(View()), Connected(received, sent))
    {
      if state == Disconnected || state == Connecting {
        if config.role == Initiator {
          state := LogonSent;
        } else {
          state := Connecting;
        }
        lastReceived := received;
        lastSent := sent;
        reconnectAttempts := 0;
      }
    }

    method OnLogon(now: nat)
      modifies this
      ensures View() == After(config, old(View()), Logon(now))
    {
      state := Active;
      lastReceived := now;
      probePending := false;
    }

    /** The expected number is accepted, a later one reports the gap, an earlier one is ignored. */
    method ValidateInboundSeq(received: u64, now: nat) returns (r: Result<bool, (u64, u64)>)
      modifies this
      ensures View() == After(config, old(View()), Inbound(received, now))
      ensures r == if received > old(inbound) then Err((old(inbound), received)) else Ok(true)
    {
      if received == inbound {
        inbound := Wrap64(inbound + 1);
        lastReceived := now;
        return Ok(true);
      } else if received > inbound {
        var gapStart := inbound;
        state := Resending;
        return Err((gapStart, received));
      } else {
        return Ok(true);
      }
    }

    method OnGapFilled(newSeq: u64)
      modifies this
      ensures View() == After(config, old(View()), GapFilled(newSeq))
    {
      inbound := newSeq;
      state := Active;
    }

    method OnLogoutSent()
      modifies this
      ensures View() == After(config, old(View()), LogoutSentCall)
    {
      state := LogoutSent;
    }

    method OnDisconnected()
      modifies this
      ensures View() == After(config, old(View()), DisconnectedCall)
    {
      state := Disconnected;
      probePending := false;
    }

    method CheckHeartbeatTimer(now: nat) returns (action: SessionAction)
      modifies this
      ensures action == HeartbeatAction(config, old(View()), now)
      ensures View() == After(config, old(View()), CheckHeartbeat(now))
    {
      if state != Active {
        return NoAction;
      }
      var sinceSent := Since(now, lastSent);
      var sinceReceived := Since(now, lastReceived);
      if sinceSent >= config.heartbeatInterval {
        lastSent := now;
        return Send;
      }
      var timeout := config.heartbeatInterval + 5 * SECOND;
      if sinceReceived >= timeout {
        if probePending {
          return Disconnect;
        }
        probePending := true;
        probeSent := Some(now);
        return Send;
      }
      return NoAction;
    }

    method OnMessageSent(now: nat)
      modifies this
      ensures View() == After(config, old(View()), MessageSent(now))
    {
      lastSent := now;
    }

    method OnMessageReceived(now: nat)
      modifies this
      ensures View() == After(config, old(View()), MessageReceived(now))
    {
      lastReceived := now;
      probePending := false;
    }

    method ShouldReconnect() returns (r: bool)
      ensures r <==> MayReconnect(config, View())
    {
      if state != Disconnected {
        return false;
      }
      if config.role != Initiator {
        return false;
      }
      if config.maxReconnectAttempts > 0 && reconnectAttempts >= config.maxReconnectAttempts {
        return false;
      }
      return true;
    }

    method OnReconnectAttempt()
      modifies this
      ensures View() == After(config, old(View()), Call.ReconnectAttempt)
    {
      reconnectAttempts := Wrap32(reconnectAttempts + 1);
      state := Connecting;
    }

    method ResetSequenceNumbers()
      modifies this
      ensures View() == After(config, old(View()), ResetSequences)
    {
      outbound := 1;
      inbound := 1;
    }

    method CheckRateLimit(now: nat) returns (allowed: bool)
      modifies this
      ensures View() == After(config, old(View()), CheckRate(now))
      ensures allowed <==> windowCount <= config.maxMsgRate
    {
      var elapsed := Since(now, windowStart);
      if elapsed >= SECOND {
        windowCount := 0;
        windowStart := now;
      }
      windowCount := Wrap32(windowCount + 1);
      allowed := windowCount <= config.maxMsgRate;
    }
  }
}
