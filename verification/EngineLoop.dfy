/** `run_loop` of `src/engine.rs` on a `FixEngine`, driven by a script of what its surroundings answer. Whatever
    the script, its steps are a run of `EngineProtocol`. */
module EngineLoop {
  import opened AeronTransport
  import opened Bytes
  import opened Engine
  import opened EngineMessages
  import opened EngineProtocol
  import opened Parser

  /** What an application does in a callback: it sends the message it builds for the number it is offered, or asks
      the engine to stop. */
  datatype Act = SendBuilt(build: u64 -> seq<byte>, now: nat) | AskStop

  /** Clock readings for one turn of a loop, and the application's part in it. */
  datatype Turn = Turn(now: nat, clock: Clock, acts: seq<Act>, fails: bool)

  ghost predicate Builds(build: u64 -> seq<byte>) { forall n :: WellFormed(build(n), n) }

  ghost predicate Proper(script: seq<Turn>) {
    forall k, j :: 0 <= k < |script| && 0 <= j < |script[k].acts| && script[k].acts[j].SendBuilt? ==>
      Builds(script[k].acts[j].build)
  }

  /** The run so far leads from `w` to the world in which engine `i` is `e` and the bus holds `frames`. */
  predicate Tracks(w: World, run: seq<Step>, i: nat, e: EngineProtocol.Engine, frames: seq<Frame>) {
    i < |w.engines| && Exec(w, run) == Some(World(frames, w.engines[i := e]))
  }

  lemma HandledSent(e: EngineProtocol.Engine, m: seq<byte>, msgType: seq<byte>, clock: Clock, appFails: bool)
    ensures Handle(e, m, msgType, clock, appFails).engine.sent == e.sent
  {
  }

  lemma DispatchedSent(e: EngineProtocol.Engine, clock: Clock, appFails: bool)
    ensures Dispatched(e, clock, appFails).engine.sent == e.sent
  {
    var b := Boundary(e.recvBuf);
    if b.Some? {
      var m := e.recvBuf[..b.value];
      var h := ReadHeader(m);
      if h.Some? && h.value.msgType.Some? {
        var noted := Noted(e.(recvBuf := e.recvBuf[b.value..]), m, h.value.seqNum, clock);
        HandledSent(noted, m, h.value.msgType.value, clock, appFails);
      }
    }
  }

  /** The history of what was sent is kept by the step relation alone. */
  lemma LocalSent(e: EngineProtocol.Engine, move: Move, o: Outcome)
    requires Local(e, move) == Some(o)
    ensures o.engine.sent == e.sent
  {
    match move
    case Dispatch(clock, appFails) => DispatchedSent(e, clock, appFails);
    case _ =>
  }

  lemma StepIs(w: World, i: nat, move: Move, o: Outcome, after: EngineProtocol.Engine, later: seq<Frame>)
    requires i < |w.engines| && move != Receive && Allowed(w.engines[i], move) && Local(w.engines[i], move) == Some(o)
    requires Did(w.engines[i], o, after, i, w.bus, later)
    ensures StepOf(w, i, move) == Some(World(later, w.engines[i := after]))
  {
    LocalSent(w.engines[i], move, o);
  }

  lemma ExecMore(w: World, run: seq<Step>, i: nat, move: Move, mid: World, end: World)
    requires i < |w.engines| && Exec(w, run) == Some(mid) && StepOf(mid, i, move) == Some(end)
    ensures Exec(w, run + [Step(i, move)]) == Some(end)
  {
    assert (run + [Step(i, move)])[..|run|] == run;
  }

  lemma Tracked(w: World, run: seq<Step>, i: nat, e: EngineProtocol.Engine, frames: seq<Frame>, move: Move, o: Outcome,
                after: EngineProtocol.Engine, later: seq<Frame>)
    requires Tracks(w, run, i, e, frames) && move != Receive && Allowed(e, move) && Local(e, move) == Some(o)
    requires Did(e, o, after, i, frames, later)
    ensures Tracks(w, run + [Step(i, move)], i, after, later)
  {
    var mid := World(frames, w.engines[i := e]);
    StepIs(mid, i, move, o, after, later);
    assert mid.engines[i := after] == w.engines[i := after];
    ExecMore(w, run, i, move, mid, World(later, w.engines[i := after]));
  }

  lemma TrackedReceive(w: World, run: seq<Step>, i: nat, e: EngineProtocol.Engine, frames: seq<Frame>,
                       after: EngineProtocol.Engine, later: seq<Frame>)
    requires Tracks(w, run, i, e, frames) && e.pc == Recv
    requires var k := FirstForeign(frames, i);
      if k == |frames| then after == e.(pc := Top) && later == frames
      else after == Fed(e, frames[k].payload) && later == frames[..k] + frames[k + 1..]
    ensures Tracks(w, run + [Step(i, Receive)], i, after, later)
  {
    var mid := World(frames, w.engines[i := e]);
    assert mid.engines[i := after] == w.engines[i := after];
    ExecMore(w, run, i, Receive, mid, World(later, w.engines[i := after]));
  }

  // ----- what a script is used for -----

  /** A step that carries out an act. Where a run takes it, `Allowed` makes the number the session's next. */
  ghost predicate Does(move: Move, act: Act) {
    match act
    case SendBuilt(build, now) => move.AppSend? && move.now == now && exists n :: move.payload == build(n)
    case AskStop => move == AppStop
  }

  ghost predicate Acted(i: nat, steps: seq<Step>, acts: seq<Act>) {
    |steps| == |acts| && forall j :: 0 <= j < |acts| ==> steps[j].who == i && Does(steps[j].move, acts[j])
  }

  /** The steps of one callback: the turn's acts in order, and then the return or the error. */
  ghost predicate Answers(i: nat, steps: seq<Step>, turn: Turn) {
    && steps != [] && Acted(i, steps[..|steps| - 1], turn.acts)
    && steps[|steps| - 1] == Step(i, if turn.fails then AppFail else AppReturn)
  }

  lemma ActedMore(i: nat, run: seq<Step>, soFar: seq<Step>, longer: seq<Step>, acts: seq<Act>, j: nat)
    requires run <= soFar <= longer && |longer| == |soFar| + 1 && j < |acts|
    requires Acted(i, soFar[|run|..], acts[..j]) && longer[|soFar|].who == i && Does(longer[|soFar|].move, acts[j])
    ensures Acted(i, longer[|run|..], acts[..j + 1])
  {
    forall k | 0 <= k < j ensures longer[|run|..][k] == soFar[|run|..][k] && acts[..j + 1][k] == acts[..j][k] {
    }
  }

  lemma ActedAll(i: nat, run: seq<Step>, soFar: seq<Step>, longer: seq<Step>, turn: Turn, move: Move)
    requires run <= soFar && longer == soFar + [Step(i, move)] && move == if turn.fails then AppFail else AppReturn
    requires Acted(i, soFar[|run|..], turn.acts[..|turn.acts|])
    ensures run <= longer && Answers(i, longer[|run|..], turn)
  {
    var steps := longer[|run|..];
    assert steps[..|steps| - 1] == soFar[|run|..] && turn.acts[..|turn.acts|] == turn.acts;
  }

  function TickOf(i: nat, turn: Turn): Step { Step(i, Tick(turn.now, turn.clock)) }

  function DispatchOf(i: nat, turn: Turn): Step { Step(i, Dispatch(turn.clock, turn.fails)) }

  /** What one turn is used for: a tick and perhaps a receive, or a dispatch and perhaps a callback. Behind it the
      message loop may end. */
  ghost predicate Played(i: nat, steps: seq<Step>, turn: Turn) {
    || steps == [TickOf(i, turn)]
    || steps == [TickOf(i, turn), Step(i, Receive)]
    || steps == [DispatchOf(i, turn)]
    || (steps != [] && steps[0] == DispatchOf(i, turn) && Answers(i, steps[1..], turn))
    || (steps != [] && steps[|steps| - 1] == Step(i, Finish(turn.clock)) && Played(i, steps[..|steps| - 1], turn))
  }

  /** The steps are those of the turns, each used once and in order. */
  ghost predicate Follows(i: nat, steps: seq<Step>, turns: seq<Turn>)
    decreases |turns|
  {
    if turns == [] then steps == []
    else
      var n: nat := |turns| - 1;
      exists cut :: 0 <= cut <= |steps| && Follows(i, steps[..cut], turns[..n]) && Played(i, steps[cut..], turns[n])
  }

  /** What `run` adds to `before` follows the turns `from` to `to` of the script. */
  ghost predicate Told(i: nat, before: seq<Step>, run: seq<Step>, script: seq<Turn>, from: nat, to: nat) {
    before <= run && from <= to <= |script| && Follows(i, run[|before|..], script[from..to])
  }

  lemma Joined<T>(a: seq<T>, b: seq<T>, c: seq<T>)
    ensures a + b + c == a + (b + c)
  {
  }

  lemma Middles<T>(s: seq<T>, from: nat, mid: nat, to: nat)
    requires from <= mid <= to <= |s|
    ensures s[from..mid] + s[mid..to] == s[from..to]
  {
  }

  lemma Tails<T>(a: seq<T>, b: seq<T>, c: seq<T>)
    requires a <= b <= c
    ensures a <= c && b[|a|..] + c[|b|..] == c[|a|..]
  {
  }

  lemma Unsnoc<T>(s: seq<T>)
    requires s != []
    ensures s[..|s| - 1] + [s[|s| - 1]] == s
  {
  }

  lemma FollowsTurn(i: nat, steps: seq<Step>, turns: seq<Turn>, part: seq<Step>, turn: Turn)
    requires Follows(i, steps, turns) && Played(i, part, turn)
    ensures Follows(i, steps + part, turns + [turn])
  {
    assert (steps + part)[..|steps|] == steps && (steps + part)[|steps|..] == part;
    assert (turns + [turn])[..|turns|] == turns;
  }

  lemma LastTurn(i: nat, steps: seq<Step>, turns: seq<Turn>) returns (done: seq<Step>, part: seq<Step>)
    requires turns != [] && Follows(i, steps, turns)
    ensures steps == done + part && Follows(i, done, turns[..|turns| - 1]) && Played(i, part, turns[|turns| - 1])
  {
    var n: nat := |turns| - 1;
    var cut :| 0 <= cut <= |steps| && Follows(i, steps[..cut], turns[..n]) && Played(i, steps[cut..], turns[n]);
    done, part := steps[..cut], steps[cut..];
  }

  lemma {:induction false} FollowsMore(i: nat, a: seq<Step>, x: seq<Turn>, b: seq<Step>, y: seq<Turn>)
    requires Follows(i, a, x) && Follows(i, b, y)
    ensures Follows(i, a + b, x + y)
    decreases |y|
  {
    if y == [] {
      assert a + b == a && x + y == x;
    } else {
      var done, part := LastTurn(i, b, y);
      var earlier, last := y[..|y| - 1], y[|y| - 1];
      FollowsMore(i, a, x, done, earlier);
      FollowsTurn(i, a + done, x + earlier, part, last);
      Unsnoc(y);
      Joined(a, done, part);
      Joined(x, earlier, [last]);
    }
  }

  lemma PlayedEnd(i: nat, part: seq<Step>, turn: Turn, end: seq<Step>)
    requires Played(i, part, turn) && end == [Step(i, Finish(turn.clock))]
    ensures Played(i, part + end, turn)
  {
    assert (part + end)[..|part|] == part;
  }

  lemma FollowsEnd(i: nat, steps: seq<Step>, turns: seq<Turn>, end: seq<Step>)
    requires turns != [] && Follows(i, steps, turns) && end == [Step(i, Finish(turns[|turns| - 1].clock))]
    ensures Follows(i, steps + end, turns)
  {
    var done, part := LastTurn(i, steps, turns);
    PlayedEnd(i, part, turns[|turns| - 1], end);
    FollowsTurn(i, done, turns[..|turns| - 1], part + end, turns[|turns| - 1]);
    Joined(done, part, end);
    Unsnoc(turns);
  }

  lemma ToldNothing(i: nat, run: seq<Step>, script: seq<Turn>, from: nat)
    requires from <= |script|
    ensures Told(i, run, run, script, from, from)
  {
  }

  lemma ToldMore(i: nat, before: seq<Step>, run: seq<Step>, longer: seq<Step>, script: seq<Turn>,
                 from: nat, mid: nat, to: nat)
    requires Told(i, before, run, script, from, mid) && Told(i, run, longer, script, mid, to)
    ensures Told(i, before, longer, script, from, to)
  {
    FollowsMore(i, run[|before|..], script[from..mid], longer[|run|..], script[mid..to]);
    Middles(script, from, mid, to);
    Tails(before, run, longer);
  }

  lemma ToldTurn(i: nat, run: seq<Step>, part: seq<Step>, longer: seq<Step>, script: seq<Turn>, k: nat)
    requires k < |script| && longer == run + part && Played(i, part, script[k])
    ensures Told(i, run, longer, script, k, k + 1)
  {
    assert longer[|run|..] == [] + part && script[k..k + 1] == [] + [script[k]];
    FollowsTurn(i, [], [], part, script[k]);
  }

  lemma PlayedCallback(i: nat, run: seq<Step>, mid: seq<Step>, longer: seq<Step>, turn: Turn)
    returns (part: seq<Step>)
    requires mid == run + [DispatchOf(i, turn)] && mid <= longer && Answers(i, longer[|mid|..], turn)
    ensures longer == run + part && Played(i, part, turn)
  {
    part := longer[|run|..];
    assert part[1..] == longer[|mid|..];
  }

  lemma ToldEnd(i: nat, before: seq<Step>, run: seq<Step>, longer: seq<Step>, script: seq<Turn>, from: nat, to: nat)
    requires Told(i, before, run, script, from, to) && from < to
    requires longer == run + [Step(i, Finish(script[to - 1].clock))]
    ensures Told(i, before, longer, script, from, to)
  {
    FollowsEnd(i, run[|before|..], script[from..to], [Step(i, Finish(script[to - 1].clock))]);
    assert longer[|before|..] == run[|before|..] + [Step(i, Finish(script[to - 1].clock))];
  }

  /** What the loop's methods rely on. */
  ghost predicate Running(engine: FixEngine, i: nat)
    reads engine, engine.transport, engine.received
  {
    engine.Valid() && engine.transport.endpointId == i
  }

  ghost predicate InRun(w: World, run: seq<Step>, engine: FixEngine, i: nat, pc: Pc)
    reads engine, engine.transport, engine.transport.bus, engine.received, engine.received.recvBuf, engine.session
  {
    Running(engine, i) && Tracks(w, run, i, engine.View(pc), engine.transport.bus.frames)
  }

  method TickStep(engine: FixEngine, i: nat, turn: Turn, ghost w: World, ghost run: seq<Step>)
    returns (next: Pc, ghost longer: seq<Step>)
    requires InRun(w, run, engine, i, Top)
    modifies engine, engine.session, engine.sendBuf, engine.transport.bus
    ensures InRun(w, longer, engine, i, next) && next in {Recv, Stopped}
    ensures longer == run + [TickOf(i, turn)]
  {
    ghost var e, frames := engine.View(Top), engine.transport.bus.frames;
    next := engine.Tick(turn.now, turn.clock);
    ghost var move := Move.Tick(turn.now, turn.clock);
    Tracked(w, run, i, e, frames, move, Ticked(e, turn.now, turn.clock),
            engine.View(next), engine.transport.bus.frames);
    longer := run + [Step(i, move)];
  }

  method ReceiveStep(engine: FixEngine, i: nat, ghost w: World, ghost run: seq<Step>)
    returns (next: Pc, ghost longer: seq<Step>)
    requires InRun(w, run, engine, i, Recv)
    modifies engine.received, engine.received.recvBuf, engine.transport.bus
    ensures InRun(w, longer, engine, i, next) && next in {Top, Process, Oversize}
    ensures longer == run + [Step(i, Receive)]
    ensures engine.received.recvBuf == old(engine.received.recvBuf) || fresh(engine.received.recvBuf)
  {
    ghost var e, frames := engine.View(Recv), engine.transport.bus.frames;
    next := engine.ReceiveData();
    TrackedReceive(w, run, i, e, frames, engine.View(next), engine.transport.bus.frames);
    longer := run + [Step(i, Receive)];
  }

  lemma HandledPc(e: EngineProtocol.Engine, m: seq<byte>, msgType: seq<byte>, clock: Clock, appFails: bool)
    requires e.pc == Process
    ensures Handle(e, m, msgType, clock, appFails).engine.pc in {Process, App, AppError}
  {
    HandleDoes(e, m, msgType, clock, appFails);
  }

  /** A dispatch leads on in the loop, out of it, or into the application. */
  lemma DispatchedPc(e: EngineProtocol.Engine, clock: Clock, appFails: bool)
    requires e.pc == Process
    ensures Dispatched(e, clock, appFails).engine.pc in {Process, App, AppError, Settle}
  {
    var b := Boundary(e.recvBuf);
    if b.Some? {
      var m := e.recvBuf[..b.value];
      var h := ReadHeader(m);
      if h.Some? && h.value.msgType.Some? {
        var noted := Noted(e.(recvBuf := e.recvBuf[b.value..]), m, h.value.seqNum, clock);
        HandledPc(noted, m, h.value.msgType.value, clock, appFails);
      }
    }
  }

  method DispatchStep(engine: FixEngine, i: nat, turn: Turn, ghost w: World, ghost run: seq<Step>)
    returns (next: Pc, ghost longer: seq<Step>)
    requires InRun(w, run, engine, i, Process)
    modifies engine, engine.session, engine.received`recvPos, engine.received.recvBuf,
      engine.sendBuf, engine.transport.bus
    ensures InRun(w, longer, engine, i, next) && next in {Process, App, AppError, Settle}
    ensures longer == run + [DispatchOf(i, turn)]
  {
    ghost var e, frames := engine.View(Process), engine.transport.bus.frames;
    DispatchedPc(e, turn.clock, turn.fails);
    next := engine.Dispatch(turn.clock, turn.fails);
    ghost var move := Move.Dispatch(turn.clock, turn.fails);
    Tracked(w, run, i, e, frames, move, Dispatched(e, turn.clock, turn.fails),
            engine.View(next), engine.transport.bus.frames);
    longer := run + [Step(i, move)];
  }

  method FinishStep(engine: FixEngine, i: nat, turn: Turn, ghost w: World, ghost run: seq<Step>)
    returns (ghost longer: seq<Step>)
    requires InRun(w, run, engine, i, Settle)
    modifies engine, engine.session, engine.sendBuf, engine.transport.bus
    ensures InRun(w, longer, engine, i, Top)
    ensures longer == run + [Step(i, Finish(turn.clock))]
  {
    ghost var e, frames := engine.View(Settle), engine.transport.bus.frames;
    engine.Finish(turn.clock);
    Tracked(w, run, i, e, frames, Move.Finish(turn.clock), Settled(e, turn.clock),
            engine.View(Top), engine.transport.bus.frames);
    longer := run + [Step(i, Move.Finish(turn.clock))];
  }

  // ----- the application's callback -----

  lemma Unsent(e: EngineProtocol.Engine, after: EngineProtocol.Engine, i: nat, frames: seq<Frame>)
    requires after.sent == e.sent
    ensures Did(e, Outcome(after, None), after, i, frames, frames)
  {
    assert e.sent + [] == e.sent && frames + [] == frames;
  }

  method ActStep(engine: FixEngine, i: nat, act: Act, ghost w: World, ghost run: seq<Step>)
    returns (ghost longer: seq<Step>)
    requires InRun(w, run, engine, i, App) && (act.SendBuilt? ==> Builds(act.build))
    modifies engine`sent, engine.session, engine.transport.bus
    ensures InRun(w, longer, engine, i, App)
    ensures |longer| == |run| + 1 && run <= longer && longer[|run|].who == i && Does(longer[|run|].move, act)
  {
    ghost var e, frames := engine.View(App), engine.transport.bus.frames;
    match act {
      case SendBuilt(build, now) =>
        var payload := build(engine.session.outbound);
        engine.SendRaw(payload, now);
        ghost var move := AppSend(payload, now);
        Tracked(w, run, i, e, frames, move, SendRaw(e, payload, now), engine.View(App), engine.transport.bus.frames);
        longer := run + [Step(i, move)];
      case AskStop =>
        engine.RequestStop();
        Unsent(e, engine.View(App), i, frames);
        Tracked(w, run, i, e, frames, AppStop, Outcome(engine.View(App), None), engine.View(App), frames);
        longer := run + [Step(i, AppStop)];
    }
  }

  method ReturnStep(engine: FixEngine, i: nat, turn: Turn, ghost w: World, ghost run: seq<Step>)
    returns (next: Pc, ghost longer: seq<Step>)
    requires InRun(w, run, engine, i, App)
    ensures InRun(w, longer, engine, i, next) && next == if turn.fails then AppError else Process
    ensures longer == run + [Step(i, if turn.fails then AppFail else AppReturn)]
  {
    next := if turn.fails then AppError else Process;
    ghost var move := if turn.fails then AppFail else AppReturn;
    ghost var e, frames := engine.View(App), engine.transport.bus.frames;
    Unsent(e, engine.View(next), i, frames);
    Tracked(w, run, i, e, frames, move, Outcome(engine.View(next), None), engine.View(next), frames);
    longer := run + [Step(i, move)];
  }

  /** The callback's acts in order, and then its return or its error. */
  method Callback(engine: FixEngine, i: nat, turn: Turn, ghost w: World, ghost run: seq<Step>)
    returns (next: Pc, ghost longer: seq<Step>)
    requires InRun(w, run, engine, i, App)
    requires forall j :: 0 <= j < |turn.acts| && turn.acts[j].SendBuilt? ==> Builds(turn.acts[j].build)
    modifies engine`sent, engine.session, engine.transport.bus
    ensures InRun(w, longer, engine, i, next) && next == if turn.fails then AppError else Process
    ensures run <= longer && Answers(i, longer[|run|..], turn)
  {
    longer := run;
    for j := 0 to |turn.acts|
      invariant InRun(w, longer, engine, i, App)
      invariant run <= longer && Acted(i, longer[|run|..], turn.acts[..j])
    {
      ghost var soFar := longer;
      longer := ActStep(engine, i, turn.acts[j], w, longer);
      ActedMore(i, run, soFar, longer, turn.acts, j);
    }
    ghost var acted := longer;
    next, longer := ReturnStep(engine, i, turn, w, longer);
    ActedAll(i, run, acted, longer, turn, if turn.fails then AppFail else AppReturn);
  }

  // ----- the loops -----

  /** One turn of the message loop: a dispatch, and the application's callback if it leads there. */
  method OneMessage(engine: FixEngine, i: nat, script: seq<Turn>, k: nat, ghost w: World, ghost run: seq<Step>)
    returns (next: Pc, ghost longer: seq<Step>)
    requires InRun(w, run, engine, i, Process) && k < |script| && Proper(script)
    modifies engine, engine.session, engine.received`recvPos, engine.received.recvBuf,
      engine.sendBuf, engine.transport.bus
    ensures InRun(w, longer, engine, i, next) && next in {Process, Settle, AppError}
    ensures Told(i, run, longer, script, k, k + 1)
  {
    next, longer := DispatchStep(engine, i, script[k], w, run);
    ghost var part := [DispatchOf(i, script[k])];
    if next == App {
      ghost var mid := longer;
      next, longer := Callback(engine, i, script[k], w, longer);
      part := PlayedCallback(i, run, mid, longer, script[k]);
    }
    ToldTurn(i, run, part, longer, script, k);
  }

  /** The inner loop of `run_loop`: messages are dispatched, a turn of the script each, until none is left, an
      application fails or the script ends. */
  method MessageLoop(engine: FixEngine, i: nat, script: seq<Turn>, from: nat, ghost w: World, ghost run: seq<Step>)
    returns (next: Pc, k: nat, ghost longer: seq<Step>)
    requires InRun(w, run, engine, i, Process) && from <= |script| && Proper(script)
    modifies engine, engine.session, engine.received`recvPos, engine.received.recvBuf,
      engine.sendBuf, engine.transport.bus
    ensures InRun(w, longer, engine, i, next) && from <= k <= |script|
    ensures next == Settle || next == AppError || (next == Process && k == |script|)
    ensures Told(i, run, longer, script, from, k) && (next == Settle ==> from < k)
  {
    next, k, longer := Process, from, run;
    ToldNothing(i, run, script, from);
    while k < |script| && next == Process
      invariant from <= k <= |script| && InRun(w, longer, engine, i, next)
      invariant next in {Process, Settle, AppError} && (next == Settle ==> from < k)
      invariant Told(i, run, longer, script, from, k)
      decreases |script| - k
    {
      ghost var soFar := longer;
      next, longer := OneMessage(engine, i, script, k, w, longer);
      ToldMore(i, run, soFar, longer, script, from, k, k + 1);
      k := k + 1;
    }
  }

  /** The outer loop ahead of the message loop: the timer, and a receive unless it stopped the engine. */
  method TurnHead(engine: FixEngine, i: nat, script: seq<Turn>, k: nat, ghost w: World, ghost run: seq<Step>)
    returns (next: Pc, ghost longer: seq<Step>)
    requires InRun(w, run, engine, i, Top) && k < |script|
    modifies engine, engine.session, engine.received, engine.received.recvBuf, engine.sendBuf, engine.transport.bus
    ensures InRun(w, longer, engine, i, next) && next in {Top, Stopped, Oversize, Process}
    ensures Told(i, run, longer, script, k, k + 1)
    ensures engine.received.recvBuf == old(engine.received.recvBuf) || fresh(engine.received.recvBuf)
  {
    next, longer := TickStep(engine, i, script[k], w, run);
    ghost var part := [TickOf(i, script[k])];
    if next == Recv {
      next, longer := ReceiveStep(engine, i, w, longer);
      part := part + [Step(i, Receive)];
    }
    ToldTurn(i, run, part, longer, script, k);
  }

  /** Messages, and what follows them. */
  method TurnTail(engine: FixEngine, i: nat, script: seq<Turn>, from: nat, ghost w: World, ghost run: seq<Step>)
    returns (next: Pc, k: nat, ghost longer: seq<Step>)
    requires InRun(w, run, engine, i, Process) && from <= |script| && Proper(script)
    modifies engine, engine.session, engine.received`recvPos, engine.received.recvBuf,
      engine.sendBuf, engine.transport.bus
    ensures InRun(w, longer, engine, i, next) && from <= k <= |script|
    ensures next in {Top, AppError} || (next == Process && k == |script|)
    ensures Told(i, run, longer, script, from, k)
  {
    next, k, longer := MessageLoop(engine, i, script, from, w, run);
    if next == Settle {
      ghost var soFar := longer;
      longer := FinishStep(engine, i, script[k - 1], w, longer);
      ToldEnd(i, run, soFar, longer, script, from, k);
      next := Top;
    }
  }

  /** One turn of the outer loop: the timer, a receive, the messages it completed, and what follows them. */
  method OneTurn(engine: FixEngine, i: nat, script: seq<Turn>, from: nat, ghost w: World, ghost run: seq<Step>)
    returns (next: Pc, k: nat, ghost longer: seq<Step>)
    requires InRun(w, run, engine, i, Top) && from < |script| && Proper(script)
    modifies engine, engine.session, engine.received, engine.received.recvBuf, engine.sendBuf, engine.transport.bus
    ensures InRun(w, longer, engine, i, next) && from < k <= |script|
    ensures next in {Top, Stopped, Oversize, AppError} || (next == Process && k == |script|)
    ensures Told(i, run, longer, script, from, k)
    ensures engine.received.recvBuf == old(engine.received.recvBuf) || fresh(engine.received.recvBuf)
  {
    k := from + 1;
    next, longer := TurnHead(engine, i, script, from, w, run);
    if next == Process {
      ghost var soFar := longer;
      next, k, longer := TurnTail(engine, i, script, k, w, longer);
      ToldMore(i, run, soFar, longer, script, from, from + 1, k);
    }
  }

  /** An engine that stopped closes its endpoint. */
  method Leave(engine: FixEngine, i: nat, end: Pc, ghost w: World, ghost run: seq<Step>)
    requires InRun(w, run, engine, i, end)
    modifies engine.transport`connected
    ensures InRun(w, run, engine, i, end)
    ensures engine.transport.connected == (old(engine.transport.connected) && end != Stopped)
  {
    if end == Stopped {
      engine.transport.Close();
    }
  }

  /** `run_loop`, until it stops, fails, or the script ends: what it did continues a run of the protocol's steps
      from `w`, so everything proved of those runs holds of it, and it used the turns of the script one by one. Only
      an engine that stopped closes its endpoint. */
  method RunLoop(engine: FixEngine, i: nat, script: seq<Turn>, ghost w: World, ghost before: seq<Step>)
    returns (end: Pc, used: nat, ghost run: seq<Step>)
    requires InRun(w, before, engine, i, Top) && Proper(script)
    modifies engine, engine.session, engine.received, engine.received.recvBuf, engine.sendBuf, engine.transport.bus,
      engine.transport`connected
    ensures InRun(w, run, engine, i, end) && used <= |script|
    ensures engine.transport.connected == (old(engine.transport.connected) && end != Stopped)
    ensures end in {Stopped, Oversize, AppError} || (end in {Top, Process} && used == |script|)
    ensures Told(i, before, run, script, 0, used)
  {
    end, used, run := Top, 0, before;
    ToldNothing(i, before, script, 0);
    while used < |script| && end == Top
      invariant used <= |script| && InRun(w, run, engine, i, end)
      invariant end in {Top, Stopped, Oversize, AppError} || (end == Process && used == |script|)
      invariant Told(i, before, run, script, 0, used)
      invariant engine.received.recvBuf == old(engine.received.recvBuf) || fresh(engine.received.recvBuf)
      invariant engine.transport.connected == old(engine.transport.connected)
      decreases |script| - used
    {
      ghost var soFar, from := run, used;
      end, used, run := OneTurn(engine, i, script, used, w, run);
      ToldMore(i, before, soFar, run, script, 0, from, used);
    }
    Leave(engine, i, end, w, run);
  }

  /** `run_initiator`: the Logon first, then the loop. */
  method RunInitiator(engine: FixEngine, i: nat, clock: Clock, script: seq<Turn>, ghost w: World)
    returns (end: Pc, used: nat, ghost run: seq<Step>)
    requires InRun(w, [], engine, i, Start) && Proper(script)
    modifies engine, engine.session, engine.received, engine.received.recvBuf, engine.sendBuf, engine.transport.bus,
      engine.transport`connected
    ensures InRun(w, run, engine, i, end) && used <= |script|
    ensures engine.transport.connected == (old(engine.transport.connected) && end != Stopped)
    ensures end in {Stopped, Oversize, AppError} || (end in {Top, Process} && used == |script|)
    ensures Told(i, [Step(i, Launch(clock))], run, script, 0, used)
  {
    ghost var e, frames := engine.View(Start), engine.transport.bus.frames;
    engine.Launch(clock);
    Tracked(w, [], i, e, frames, Move.Launch(clock), Launched(e, clock), engine.View(Top), engine.transport.bus.frames);
    ghost var first := [] + [Step(i, Move.Launch(clock))];
    end, used, run := RunLoop(engine, i, script, w, first);
  }
}
