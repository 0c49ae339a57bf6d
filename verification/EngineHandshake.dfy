/** Who speaks first between two engines of `src/engine.rs`: nothing goes out ahead of a Logon. */
module EngineHandshake {
  import opened AeronTransport
  import opened Bytes
  import opened EngineMessages
  import opened EngineProtocol
  import S = Session

  predicate IsLogon(m: seq<byte>) {
    var h := ReadHeader(m);
    h.Some? && h.value.msgType == Some(LOGON)
  }

  /** On its way out of the loop without reading on. */
  predicate Leaving(e: Engine) {
    (e.pc == Process && e.recvBuf == []) || e.pc == Settle || (e.pc == Top && e.shouldStop) || e.pc == Stopped
  }

  /** An engine that has not heard anything yet; or one whose session has the initiator's role and was never
      launched: it ignores its peer's Logon and leaves. */
  predicate Waiting(e: Engine) {
    && e.session.state == S.Disconnected && e.pc !in {Start, App}
    && (e.processed == [] || (e.config.role == S.Initiator && Leaving(e)))
  }

  /** An engine that has sent anything sent a Logon first; one that has not is about to launch, or waits. */
  predicate Greets(e: Engine) {
    && (e.sent != [] ==> IsLogon(e.sent[0]))
    && (e.sent == [] ==> e.pc == Start || Waiting(e))
  }

  predicate Opens(e: Engine, o: Outcome) {
    && o.engine.config == e.config
    && (o.out.Some? ==> o.out.value.Own? && o.out.value.kind == LogonKind)
    && (o.out.None? ==> Waiting(o.engine))
  }

  lemma WaitingHandles(e: Engine, m: seq<byte>, clock: Clock, appFails: bool)
    requires e.session.state == S.Disconnected && e.pc == Process && e.recvBuf == []
    ensures Opens(e, Handle(e, m, LOGON, clock, appFails))
  {
  }

  lemma WaitingDispatches(e: Engine, clock: Clock, appFails: bool)
    requires Waiting(e) && e.pc == Process && e.recvBuf != []
    requires WellFormed(e.recvBuf, e.session.inbound) && IsLogon(e.recvBuf)
    ensures Opens(e, Dispatched(e, clock, appFails))
  {
    CutFrame(e, clock, appFails);
    AcceptedCounts(e, clock);
    WaitingHandles(Accepted(e, clock), e.recvBuf, clock, appFails);
  }

  lemma WaitingTicks(e: Engine, now: nat, clock: Clock)
    requires Waiting(e) && e.pc == Top
    ensures Opens(e, Ticked(e, now, clock))
  {
  }

  /** The first message an engine sends is its Logon. */
  lemma FirstIsLogon(e: Engine, move: Move, o: Outcome)
    requires Greets(e) && e.sent == [] && Local(e, move) == Some(o)
    requires e.recvBuf == [] || (WellFormed(e.recvBuf, e.session.inbound) && IsLogon(e.recvBuf))
    ensures Opens(e, o)
  {
    if move.Dispatch? {
      if e.recvBuf == [] {
        NothingBuffered(e, move.clock, move.appFails);
      } else {
        WaitingDispatches(e, move.clock, move.appFails);
      }
    } else if move.Tick? {
      WaitingTicks(e, move.now, move.clock);
    }
  }

  lemma LogonReads(e: Engine, o: Outcome)
    requires Usable(e.id) && o.out.Some? && o.out.value.Own? && o.out.value.kind == LogonKind
    ensures |Payloads(e.id, o)| == 1 && IsLogon(Payloads(e.id, o)[0])
  {
    SessionMessageRead(e.id, LogonKind, o.out.value.seqNum, o.out.value.wall);
  }

  lemma GreetsStays(e: Engine, ms: seq<seq<byte>>, after: Engine)
    requires Greets(e) && e.sent != [] && after.sent == e.sent + ms
    ensures Greets(after)
  {
    assert after.sent[0] == e.sent[0];
  }

  lemma GreetsStarts(e: Engine, o: Outcome)
    requires Usable(e.id) && e.sent == [] && Opens(e, o)
    ensures Greets(Recorded(e, o))
  {
    if o.out.Some? {
      LogonReads(e, o);
      assert Recorded(e, o).sent[0] == Payloads(e.id, o)[0];
    } else {
      assert Recorded(e, o).sent == [];
    }
  }

  /** The first message an engine hears is its peer's first. */
  lemma HeardFirst(p: Engine, e: Engine, flying: seq<seq<byte>>)
    requires Greets(p) && p.sent == e.processed + Pending(e) + flying && e.processed == [] && e.recvBuf != []
    ensures IsLogon(e.recvBuf)
  {
    assert p.sent[0] == e.recvBuf;
  }

  lemma LocalGreets(e: Engine, p: Engine, flying: seq<seq<byte>>, move: Move, o: Outcome)
    requires Greets(e) && Greets(p) && Usable(e.id) && Placed(e) && Expected(e)
    requires p.sent == e.processed + Pending(e) + flying && Local(e, move) == Some(o)
    ensures Greets(Recorded(e, o))
  {
    if e.sent == [] {
      if e.recvBuf != [] {
        HeardFirst(p, e, flying);
      }
      FirstIsLogon(e, move, o);
      GreetsStarts(e, o);
    } else {
      GreetsStays(e, Payloads(e.id, o), Recorded(e, o));
    }
  }

  predicate AllGreet(w: World) { forall j :: 0 <= j < |w.engines| ==> Greets(w.engines[j]) }

  predicate GreetInv(w: World) { Inv(w) && AllGreet(w) }

  lemma BothGreet(w: World, i: nat)
    requires GreetInv(w) && i < 2
    ensures Greets(w.engines[i]) && Greets(w.engines[1 - i])
  {
  }

  lemma GreetAgain(w: World, i: nat)
    requires |w.engines| == 2 && i < 2 && Greets(w.engines[i]) && Greets(w.engines[1 - i])
    ensures AllGreet(w)
  {
    forall j | 0 <= j < 2 ensures Greets(w.engines[j]) {
      assert j == i || j == 1 - i;
    }
  }

  /** Receiving never makes an engine speak, and one that waits goes on waiting. */
  lemma ReceivedGreets(w: World, i: nat)
    requires i < |w.engines| && w.engines[i].pc == Recv && Greets(w.engines[i])
    ensures Greets(Received(w, i).engines[i])
  {
  }

  lemma SideGreets(e: Engine, p: Engine, flying: seq<seq<byte>>, move: Move, o: Outcome)
    requires Side(e, p, flying) && Greets(e) && Greets(p) && Allowed(e, move) && Local(e, move) == Some(o)
    ensures Greets(Recorded(e, o)) && o.engine.sent == e.sent && |Payloads(e.id, o)| <= 1
  {
    BufferExpected(p, e, flying);
    LocalGreets(e, p, flying, move, o);
    LocalSentSame(e, move, o);
  }

  lemma LocalSentSame(e: Engine, move: Move, o: Outcome)
    requires EngineOk(e) && Expected(e) && Allowed(e, move) && Local(e, move) == Some(o)
    ensures o.engine.sent == e.sent && |Payloads(e.id, o)| <= 1
  {
    LocalKeeps(e, move, o);
  }

  lemma PostedGreets(w: World, i: nat, o: Outcome, ms: seq<seq<byte>>)
    requires i < |w.engines| && |ms| <= 1 && ms == Payloads(w.engines[i].id, o) && o.engine.sent == w.engines[i].sent
    requires Greets(Recorded(w.engines[i], o))
    ensures Greets(Posted(w, i, o.engine, ms).engines[i])
  {
  }

  lemma LocalStepGreets(w: World, i: nat, move: Move, o: Outcome)
    requires GreetInv(w) && i < 2 && Allowed(w.engines[i], move) && Local(w.engines[i], move) == Some(o)
    ensures |Payloads(w.engines[i].id, o)| <= 1
    ensures Greets(Posted(w, i, o.engine, Payloads(w.engines[i].id, o)).engines[i])
  {
    SideOf(w, i);
    BothGreet(w, i);
    SideGreets(w.engines[i], w.engines[1 - i], InFlight(w.bus, 1 - i), move, o);
    PostedGreets(w, i, o, Payloads(w.engines[i].id, o));
  }

  lemma StepGreets(w: World, i: nat, move: Move)
    requires GreetInv(w) && i < 2 && StepOf(w, i, move).Some?
    ensures Greets(StepOf(w, i, move).value.engines[i])
  {
    if move == Receive {
      ReceivedGreets(w, i);
    } else {
      LocalStepGreets(w, i, move, Local(w.engines[i], move).value);
    }
  }

  lemma StepKeepsGreeting(w: World, i: nat, move: Move)
    requires GreetInv(w) && i < 2 && StepOf(w, i, move).Some?
    ensures GreetInv(StepOf(w, i, move).value)
  {
    StepInv(w, i, move);
    StepGreets(w, i, move);
    OthersUntouched(w, i, move);
    BothGreet(w, i);
    GreetAgain(StepOf(w, i, move).value, i);
  }

  lemma OthersUntouched(w: World, i: nat, move: Move)
    requires |w.engines| == 2 && i < 2 && StepOf(w, i, move).Some?
    ensures StepOf(w, i, move).value.engines[1 - i] == w.engines[1 - i]
  {
  }

  lemma InitialGreets(w: World)
    requires Initial(w)
    ensures GreetInv(w)
  {
    InitialInv(w);
    assert w.engines[0] in w.engines && w.engines[1] in w.engines;
  }

  lemma {:induction false} RunGreets(w: World, run: seq<Step>)
    requires Initial(w) && Exec(w, run).Some?
    ensures GreetInv(Exec(w, run).value)
  {
    if run == [] {
      InitialGreets(w);
    } else {
      var n: nat := |run| - 1;
      RunGreets(w, run[..n]);
      StepKeepsGreeting(Exec(w, run[..n]).value, run[n].who, run[n].move);
    }
  }

  lemma ProcessedFirst(e: Engine, p: Engine, flying: seq<seq<byte>>)
    requires Side(e, p, flying) && Greets(p) && e.processed != []
    ensures IsLogon(e.processed[0])
  {
    assert p.sent[0] == e.processed[0];
  }

  predicate LogonsFirst(e: Engine) {
    (e.sent != [] ==> IsLogon(e.sent[0])) && (e.processed != [] ==> IsLogon(e.processed[0]))
  }

  lemma SideLogons(e: Engine, p: Engine, flying: seq<seq<byte>>)
    requires Side(e, p, flying) && Greets(e) && Greets(p)
    ensures LogonsFirst(e)
  {
    if e.processed != [] {
      ProcessedFirst(e, p, flying);
    }
  }

  /** In every interleaving the first message either side sends is a Logon, and so is the first message
      either side processes: nothing reaches an application ahead of its peer's Logon. */
  lemma {:induction false} LogonComesFirst(w: World, run: seq<Step>, i: nat)
    requires Initial(w) && Exec(w, run).Some? && i < 2
    ensures LogonsFirst(Exec(w, run).value.engines[i])
  {
    RunGreets(w, run);
    var now := Exec(w, run).value;
    SideOf(now, i);
    BothGreet(now, i);
    SideLogons(now.engines[i], now.engines[1 - i], InFlight(now.bus, 1 - i));
  }
}
