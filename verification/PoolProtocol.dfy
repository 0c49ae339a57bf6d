/** `src/pool.rs` under concurrency: every atomic load, store and compare-exchange of `allocate`
    and `deallocate` is one step, under sequential consistency. */
module PoolProtocol {
  import opened Bytes

  const END_OF_LIST: nat := 0xFFFF_FFFF

  /** Where a thread stands inside `allocate` or `deallocate`. */
  datatype Thread =
    | Idle
    | AllocStart
    | AllocHead(head: nat)
    | AllocNext(head: nat, next: nat)
    | FreeStart(handle: nat)
    | FreeHead(handle: nat, head: nat)
    | FreeStored(handle: nat, head: nat)

  /** `held` are the handles that have been handed out and not yet passed to `deallocate`. */
  datatype Pool = Pool(freeHead: nat, freeList: seq<nat>, threads: seq<Thread>, held: set<nat>)

  datatype Action = CallAllocate | CallDeallocate(handle: nat) | Atomic | SpuriousFailure

  function Init(capacity: nat, threads: nat): Pool {
    Pool(0, seq(capacity, i => if i + 1 < capacity then i + 1 else END_OF_LIST), seq(threads, _ => Idle), {})
  }

  function Put(s: Pool, t: nat, th: Thread): Pool
    requires t < |s.threads|
  {
    s.(threads := s.threads[t := th])
  }

  /** The next atomic operation of thread `t`. A weak compare-exchange fails when the head has
      moved, and may also fail for no reason. */
  function StepOf(s: Pool, t: nat, a: Action): Option<Pool>
    requires t < |s.threads|
  {
    var th := s.threads[t];
    match a
    case CallAllocate => if th.Idle? then Some(Put(s, t, AllocStart)) else None
    case CallDeallocate(h) =>
      if th.Idle? && h in s.held then Some(Put(s, t, FreeStart(h)).(held := s.held - {h})) else None
    case SpuriousFailure =>
      if th.AllocNext? then Some(Put(s, t, AllocStart))
      else if th.FreeStored? then Some(Put(s, t, FreeStart(th.handle)))
      else None
    case Atomic =>
      match th
      case Idle => None
      case AllocStart => Some(Put(s, t, if s.freeHead == END_OF_LIST then Idle else AllocHead(s.freeHead)))
      case AllocHead(h) => if h < |s.freeList| then Some(Put(s, t, AllocNext(h, s.freeList[h]))) else None
      case AllocNext(h, n) =>
        if s.freeHead == h then Some(Put(s, t, Idle).(freeHead := n, held := s.held + {h}))
        else Some(Put(s, t, AllocStart))
      case FreeStart(h) => Some(Put(s, t, FreeHead(h, s.freeHead)))
      case FreeHead(h, head) =>
        if h < |s.freeList| then Some(Put(s, t, FreeStored(h, head)).(freeList := s.freeList[h := head])) else None
      case FreeStored(h, head) =>
        if s.freeHead == head then Some(Put(s, t, Idle).(freeHead := h))
        else Some(Put(s, t, FreeStart(h)))
  }

  datatype Event = Event(thread: nat, action: Action)

  /** The state after a run; None when some step was not enabled. */
  function Exec(s: Pool, run: seq<Event>): Option<Pool> {
    if run == [] then Some(s)
    else
      var last := run[|run| - 1];
      var before := Exec(s, run[..|run| - 1]);
      if before.None? || last.thread >= |before.value.threads| then None
      else StepOf(before.value, last.thread, last.action)
  }

  predicate Allocating(th: Thread) { th.AllocStart? || th.AllocHead? || th.AllocNext? }

  /** At most one thread is inside `allocate`. */
  predicate OneAllocator(s: Pool) {
    forall t, u :: 0 <= t < u < |s.threads| && Allocating(s.threads[t]) ==> !Allocating(s.threads[u])
  }

  /** ... in every state of the run. */
  predicate OneAllocatorThroughout(s: Pool, run: seq<Event>) {
    forall k :: 0 <= k <= |run| && Exec(s, run[..k]).Some? ==> OneAllocator(Exec(s, run[..k]).value)
  }

  /** The handle a thread is in the middle of returning. */
  function Returning(th: Thread): Option<nat> {
    if th.FreeStart? || th.FreeHead? || th.FreeStored? then Some(th.handle) else None
  }

  /** The slot at position `i` of a chain, END_OF_LIST past its end. */
  function Link(stack: seq<nat>, i: nat): nat { if i < |stack| then stack[i] else END_OF_LIST }

  /** `stack` is the free chain: it starts at the head, follows the links, ends at END_OF_LIST and
      never comes back to a slot. */
  predicate Chain(s: Pool, stack: seq<nat>) {
    && s.freeHead == Link(stack, 0)
    && (forall i :: 0 <= i < |stack| ==> stack[i] < |s.freeList|)
    && (forall i :: 0 <= i < |stack| ==>
          s.freeList[stack[i]] == Link(stack, i + 1))
    && (forall i, j :: 0 <= i < j < |stack| ==> stack[i] != stack[j])
  }

  /** Free, held and being-returned slots do not overlap. */
  predicate Apart(s: Pool, stack: seq<nat>) {
    && (forall i :: 0 <= i < |stack| ==> stack[i] !in s.held)
    && (forall t :: 0 <= t < |s.threads| && Returning(s.threads[t]).Some? ==>
          Returning(s.threads[t]).value !in s.held && Returning(s.threads[t]).value !in stack)
    && (forall t, u :: 0 <= t < u < |s.threads| && Returning(s.threads[t]).Some? ==>
          Returning(s.threads[t]) != Returning(s.threads[u]))
  }

  predicate SlotReturning(s: Pool, x: nat) {
    exists t :: 0 <= t < |s.threads| && Returning(s.threads[t]) == Some(x)
  }

  /** Every slot is free, held or being returned, and only slots are. */
  predicate Covered(s: Pool, stack: seq<nat>) {
    && (forall x: nat :: x < |s.freeList| ==> x in stack || x in s.held || SlotReturning(s, x))
    && (forall x :: x in s.held ==> x < |s.freeList|)
    && (forall t :: 0 <= t < |s.threads| && Returning(s.threads[t]).Some? ==>
          Returning(s.threads[t]).value < |s.freeList|)
  }

  /** What a thread has read is still true while it matters. */
  predicate Fresh(s: Pool, stack: seq<nat>, th: Thread) {
    match th
    case AllocHead(h) => h in stack
    case AllocNext(h, n) => h in stack && h < |s.freeList| && s.freeList[h] == n
    case FreeStored(h, head) => h < |s.freeList| && s.freeList[h] == head
    case _ => true
  }

  predicate Inv(s: Pool, stack: seq<nat>) {
    && |s.freeList| <= END_OF_LIST
    && Chain(s, stack) && Apart(s, stack) && Covered(s, stack)
    && forall t :: 0 <= t < |s.threads| ==> Fresh(s, stack, s.threads[t])
  }

  lemma InitInv(capacity: nat, threads: nat)
    requires 0 < capacity <= END_OF_LIST
    ensures Inv(Init(capacity, threads), seq(capacity, i => i))
  {
    var s, stack := Init(capacity, threads), seq(capacity, i => i);
    forall x: nat | x < |s.freeList| ensures x in stack {
      assert stack[x] == x;
    }
  }

  /** A thread moves on without touching shared state. */
  lemma LocalStep(s: Pool, stack: seq<nat>, t: nat, th: Thread)
    requires Inv(s, stack) && t < |s.threads|
    requires Returning(th) == Returning(s.threads[t]) && Fresh(s, stack, th)
    ensures Inv(Put(s, t, th), stack)
  {
    var s' := Put(s, t, th);
    forall u | 0 <= u < |s'.threads| ensures Returning(s'.threads[u]) == Returning(s.threads[u]) {}
    forall x: nat | SlotReturning(s, x) ensures SlotReturning(s', x) {
      var u :| 0 <= u < |s.threads| && Returning(s.threads[u]) == Some(x);
      assert Returning(s'.threads[u]) == Some(x);
    }
  }

  lemma DeallocateCalled(s: Pool, stack: seq<nat>, t: nat, h: nat)
    requires Inv(s, stack) && t < |s.threads| && s.threads[t].Idle? && h in s.held
    ensures Inv(Put(s, t, FreeStart(h)).(held := s.held - {h}), stack)
  {
    var s' := Put(s, t, FreeStart(h)).(held := s.held - {h});
    assert Returning(s'.threads[t]) == Some(h);
    forall u | 0 <= u < |s'.threads| && u != t ensures s'.threads[u] == s.threads[u] {}
    forall x: nat | SlotReturning(s, x) ensures SlotReturning(s', x) {
      var u :| 0 <= u < |s.threads| && Returning(s.threads[u]) == Some(x);
      assert Returning(s'.threads[u]) == Some(x);
    }
    assert SlotReturning(s', h);
  }

  /** The successful compare-exchange of `allocate` pops the chain. */
  lemma Popped(s: Pool, stack: seq<nat>, t: nat)
    requires Inv(s, stack) && OneAllocator(s)
    requires t < |s.threads| && s.threads[t].AllocNext? && s.freeHead == s.threads[t].head
    ensures stack != [] && stack[0] == s.freeHead
    ensures Inv(Put(s, t, Idle).(freeHead := s.threads[t].next, held := s.held + {s.freeHead}), stack[1..])
  {
    var h := s.freeHead;
    assert Fresh(s, stack, s.threads[t]);
    assert h in stack && h < |s.freeList|;
    var s' := Put(s, t, Idle).(freeHead := s.threads[t].next, held := s.held + {h});
    var rest := stack[1..];
    forall i | 0 <= i < |rest| ensures rest[i] == stack[i + 1] && rest[i] != h {}
    PoppedChain(s, stack, t);
    PoppedPartition(s, stack, t);
    forall u | 0 <= u < |s'.threads| ensures Fresh(s', rest, s'.threads[u]) {
      if u != t {
        assert Fresh(s, stack, s.threads[u]);
        assert Allocating(s.threads[t]);
        assert !Allocating(s.threads[u]);
      }
    }
  }

  lemma PoppedChain(s: Pool, stack: seq<nat>, t: nat)
    requires Chain(s, stack) && stack != []
    requires t < |s.threads| && s.threads[t].AllocNext? && s.freeHead == s.threads[t].head
    requires Fresh(s, stack, s.threads[t])
    ensures Chain(Put(s, t, Idle).(freeHead := s.threads[t].next, held := s.held + {s.freeHead}), stack[1..])
  {
    var rest := stack[1..];
    assert s.freeList[stack[0]] == s.threads[t].next;
    forall i | 0 <= i < |rest| ensures rest[i] == stack[i + 1] && s.freeList[rest[i]] == Link(rest, i + 1) {
      var j := i + 1;
      assert s.freeList[stack[j]] == Link(stack, j + 1) == Link(rest, i + 1);
    }
  }

  lemma PoppedPartition(s: Pool, stack: seq<nat>, t: nat)
    requires Chain(s, stack) && Apart(s, stack) && Covered(s, stack) && stack != []
    requires t < |s.threads| && s.threads[t].AllocNext? && s.freeHead == s.threads[t].head
    ensures var s' := Put(s, t, Idle).(freeHead := s.threads[t].next, held := s.held + {s.freeHead});
      Apart(s', stack[1..]) && Covered(s', stack[1..])
  {
    var s' := Put(s, t, Idle).(freeHead := s.threads[t].next, held := s.held + {s.freeHead});
    forall u | 0 <= u < |s'.threads| ensures Returning(s'.threads[u]) == Returning(s.threads[u]) {}
    forall x: nat | SlotReturning(s, x) ensures SlotReturning(s', x) {
      var u :| 0 <= u < |s.threads| && Returning(s.threads[u]) == Some(x);
      assert Returning(s'.threads[u]) == Some(x);
    }
    forall x: nat | x in stack ensures x in stack[1..] || x == s.freeHead {
      var i :| 0 <= i < |stack| && stack[i] == x;
      assert i > 0 ==> stack[1..][i - 1] == x;
    }
    forall x | x in stack[1..] ensures x in stack && x != s.freeHead {
      var i :| 0 <= i < |stack[1..]| && stack[1..][i] == x;
      assert stack[i + 1] == x;
    }
  }

  /** The relaxed store of `deallocate` writes a link nobody else looks at. */
  lemma LinkStored(s: Pool, stack: seq<nat>, t: nat)
    requires Inv(s, stack) && t < |s.threads| && s.threads[t].FreeHead?
    ensures var h := s.threads[t].handle;
      h < |s.freeList|
      && Inv(Put(s, t, FreeStored(h, s.threads[t].head)).(freeList := s.freeList[h := s.threads[t].head]), stack)
  {
    var h, head := s.threads[t].handle, s.threads[t].head;
    assert Returning(s.threads[t]) == Some(h);
    var s' := Put(s, t, FreeStored(h, head)).(freeList := s.freeList[h := head]);
    forall u | 0 <= u < |s'.threads| ensures Returning(s'.threads[u]) == Returning(s.threads[u]) {}
    forall x: nat | SlotReturning(s, x) ensures SlotReturning(s', x) {
      var u :| 0 <= u < |s.threads| && Returning(s.threads[u]) == Some(x);
      assert Returning(s'.threads[u]) == Some(x);
    }
    forall i | 0 <= i < |stack| ensures stack[i] != h {
      assert stack[i] in stack;
    }
    forall u | 0 <= u < |s'.threads| ensures Fresh(s', stack, s'.threads[u]) {
      assert Fresh(s, stack, s.threads[u]);
      assert u != t ==> Returning(s.threads[u]) != Some(h);
    }
  }

  lemma LinkShift(stack: seq<nat>, h: nat, more: seq<nat>, i: nat)
    requires more == [h] + stack
    ensures Link(more, i + 1) == Link(stack, i)
  {
  }

  lemma PushedChain(s: Pool, stack: seq<nat>, h: nat)
    requires Chain(s, stack) && h < |s.freeList| && s.freeList[h] == s.freeHead && h !in stack
    ensures Chain(s.(freeHead := h), [h] + stack)
  {
    var more := [h] + stack;
    forall i | 0 < i < |more| ensures more[i] == stack[i - 1] && s.freeList[more[i]] == Link(more, i + 1) {
      var j := i - 1;
      LinkShift(stack, h, more, j + 1);
      assert s.freeList[stack[j]] == Link(stack, j + 1);
    }
    forall i | 0 <= i < |stack| ensures stack[i] != h {
      assert stack[i] in stack;
    }
  }

  /** The successful compare-exchange of `deallocate` pushes the handle. */
  lemma Pushed(s: Pool, stack: seq<nat>, t: nat)
    requires Inv(s, stack) && t < |s.threads| && s.threads[t].FreeStored? && s.freeHead == s.threads[t].head
    ensures Inv(Put(s, t, Idle).(freeHead := s.threads[t].handle), [s.threads[t].handle] + stack)
  {
    var h := s.threads[t].handle;
    assert Fresh(s, stack, s.threads[t]);
    assert Returning(s.threads[t]) == Some(h);
    PushedChain(s, stack, h);
    var s' := Put(s, t, Idle).(freeHead := h);
    var more := [h] + stack;
    forall x ensures x in more <==> x == h || x in stack {}
    forall x: nat | SlotReturning(s, x) && x != h ensures SlotReturning(s', x) {
      var u :| 0 <= u < |s.threads| && Returning(s.threads[u]) == Some(x);
      assert Returning(s'.threads[u]) == Some(x);
    }
    forall u | 0 <= u < |s'.threads| && u != t
      ensures s'.threads[u] == s.threads[u] && Returning(s'.threads[u]) != Some(h)
    {
    }
    forall u | 0 <= u < |s'.threads| ensures Fresh(s', more, s'.threads[u]) {
      assert u != t ==> Fresh(s, stack, s.threads[u]);
    }
  }

  /** One step keeps the invariant, as long as no second thread is allocating. */
  lemma StepInv(s: Pool, stack: seq<nat>, t: nat, a: Action) returns (stack': seq<nat>)
    requires Inv(s, stack) && OneAllocator(s) && t < |s.threads| && StepOf(s, t, a).Some?
    ensures Inv(StepOf(s, t, a).value, stack')
  {
    var th := s.threads[t];
    stack' := stack;
    match a
    case CallAllocate => LocalStep(s, stack, t, AllocStart);
    case CallDeallocate(h) => DeallocateCalled(s, stack, t, h);
    case SpuriousFailure =>
      LocalStep(s, stack, t, if th.AllocNext? then AllocStart else FreeStart(th.handle));
    case Atomic =>
      match th
      case AllocStart =>
        assert stack != [] ==> stack[0] in stack;
        LocalStep(s, stack, t, if s.freeHead == END_OF_LIST then Idle else AllocHead(s.freeHead));
      case AllocHead(h) =>
        assert Fresh(s, stack, th);
        LocalStep(s, stack, t, AllocNext(h, s.freeList[h]));
      case AllocNext(h, n) =>
        if s.freeHead == h {
          Popped(s, stack, t);
          stack' := stack[1..];
        } else {
          LocalStep(s, stack, t, AllocStart);
        }
      case FreeStart(h) => LocalStep(s, stack, t, FreeHead(h, s.freeHead));
      case FreeHead(h, head) => LinkStored(s, stack, t);
      case FreeStored(h, head) =>
        if s.freeHead == head {
          Pushed(s, stack, t);
          stack' := [h] + stack;
        } else {
          LocalStep(s, stack, t, FreeStart(h));
        }
  }

  /** Every interleaving of any number of threads in which allocations do not overlap each other:
      the free chain is acyclic and every slot is in exactly one of free, held and being returned. */
  lemma {:induction false} RunSafe(capacity: nat, threads: nat, run: seq<Event>) returns (stack: seq<nat>)
    requires 0 < capacity <= END_OF_LIST
    requires Exec(Init(capacity, threads), run).Some?
    requires OneAllocatorThroughout(Init(capacity, threads), run)
    ensures Inv(Exec(Init(capacity, threads), run).value, stack)
    decreases |run|
  {
    var init := Init(capacity, threads);
    if run == [] {
      InitInv(capacity, threads);
      stack := seq(capacity, i => i);
    } else {
      var n := |run| - 1;
      PrefixOneAllocator(init, run);
      var before := RunSafe(capacity, threads, run[..n]);
      assert OneAllocator(Exec(init, run[..n]).value);
      stack := StepInv(Exec(init, run[..n]).value, before, run[n].thread, run[n].action);
    }
  }

  lemma PrefixOneAllocator(s: Pool, run: seq<Event>)
    requires run != [] && OneAllocatorThroughout(s, run)
    ensures OneAllocatorThroughout(s, run[..|run| - 1])
  {
    var shorter := run[..|run| - 1];
    forall k | 0 <= k <= |shorter| && Exec(s, shorter[..k]).Some? ensures OneAllocator(Exec(s, shorter[..k]).value) {
      assert shorter[..k] == run[..k];
    }
  }

  /** No slot is handed out twice, none is lost: the slot a successful `allocate` returns was
      neither held nor being returned; when `allocate` gives up, every slot is one or the other;
      and no run reads a link outside the list. */
  lemma AllocationSound(capacity: nat, threads: nat, run: seq<Event>, t: nat)
    requires 0 < capacity <= END_OF_LIST
    requires Exec(Init(capacity, threads), run).Some?
    requires OneAllocatorThroughout(Init(capacity, threads), run)
    ensures var s := Exec(Init(capacity, threads), run).value;
      t < |s.threads| ==>
        var th := s.threads[t];
        && (th.AllocNext? && s.freeHead == th.head ==>
              th.head < capacity && th.head !in s.held && !SlotReturning(s, th.head))
        && (th.AllocStart? && s.freeHead == END_OF_LIST ==>
              forall x: nat :: x < capacity ==> x in s.held || SlotReturning(s, x))
        && (!th.Idle? ==> StepOf(s, t, Atomic).Some?)
  {
    var stack := RunSafe(capacity, threads, run);
    SizesKept(Init(capacity, threads), run);
    var s := Exec(Init(capacity, threads), run).value;
    if t < |s.threads| {
      assert Fresh(s, stack, s.threads[t]);
      assert stack != [] ==> stack[0] in stack;
    }
  }

  lemma {:induction false} SizesKept(s: Pool, run: seq<Event>)
    requires Exec(s, run).Some?
    ensures |Exec(s, run).value.freeList| == |s.freeList| && |Exec(s, run).value.threads| == |s.threads|
    decreases |run|
  {
    if run != [] {
      SizesKept(s, run[..|run| - 1]);
    }
  }

  lemma ExecOne(s: Pool, run: seq<Event>, e: Event)
    requires Exec(s, run).Some? && e.thread < |Exec(s, run).value.threads|
    ensures Exec(s, run + [e]) == StepOf(Exec(s, run).value, e.thread, e.action)
  {
    assert (run + [e])[..|run|] == run;
  }

  function CallThrough(t: nat, call: Action): seq<Event> {
    [Event(t, call), Event(t, Atomic), Event(t, Atomic), Event(t, Atomic)]
  }

  lemma Fourfold(run: seq<Event>, a: Event, b: Event)
    ensures run + [a, b, b, b] == run + [a] + [b] + [b] + [b]
  {
  }

  lemma ExecFour(s: Pool, run: seq<Event>, t: nat, call: Action, s1: Pool, s2: Pool, s3: Pool)
    requires Exec(s, run).Some? && t < |Exec(s, run).value.threads|
    requires StepOf(Exec(s, run).value, t, call) == Some(s1) && t < |s1.threads|
    requires StepOf(s1, t, Atomic) == Some(s2) && t < |s2.threads|
    requires StepOf(s2, t, Atomic) == Some(s3) && t < |s3.threads|
    ensures Exec(s, run + CallThrough(t, call)) == StepOf(s3, t, Atomic)
  {
    var e := Event(t, Atomic);
    var r1 := run + [Event(t, call)];
    ExecOne(s, run, Event(t, call));
    ExecOne(s, r1, e);
    ExecOne(s, r1 + [e], e);
    ExecOne(s, r1 + [e] + [e], e);
    Fourfold(run, Event(t, call), e);
  }

  /** One uncontended `allocate` by an idle thread pops the chain. */
  lemma AllocateAlone(s: Pool, run: seq<Event>, t: nat)
    requires Exec(s, run).Some?
    requires var now := Exec(s, run).value;
      t < |now.threads| && now.threads[t].Idle? && now.freeHead < |now.freeList| && now.freeHead != END_OF_LIST
    ensures var now := Exec(s, run).value;
      Exec(s, run + CallThrough(t, CallAllocate))
      == Some(now.(freeHead := now.freeList[now.freeHead], held := now.held + {now.freeHead}))
  {
    var now := Exec(s, run).value;
    var h := now.freeHead;
    var ts := now.threads;
    assert ts[t := AllocStart][t := AllocHead(h)] == ts[t := AllocHead(h)];
    assert ts[t := AllocHead(h)][t := AllocNext(h, now.freeList[h])] == ts[t := AllocNext(h, now.freeList[h])];
    assert ts[t := AllocNext(h, now.freeList[h])][t := Idle] == ts;
    ExecFour(s, run, t, CallAllocate, Put(now, t, AllocStart), Put(now, t, AllocHead(h)),
             Put(now, t, AllocNext(h, now.freeList[h])));
  }

  /** One uncontended `deallocate` by an idle thread pushes the handle. */
  lemma DeallocateAlone(s: Pool, run: seq<Event>, t: nat, h: nat)
    requires Exec(s, run).Some?
    requires var now := Exec(s, run).value;
      t < |now.threads| && now.threads[t].Idle? && h in now.held && h < |now.freeList|
    ensures var now := Exec(s, run).value;
      Exec(s, run + CallThrough(t, CallDeallocate(h)))
      == Some(now.(freeHead := h, freeList := now.freeList[h := now.freeHead], held := now.held - {h}))
  {
    var now := Exec(s, run).value;
    var head := now.freeHead;
    var ts := now.threads;
    var out := now.(held := now.held - {h});
    assert ts[t := FreeStart(h)][t := FreeHead(h, head)] == ts[t := FreeHead(h, head)];
    assert ts[t := FreeHead(h, head)][t := FreeStored(h, head)] == ts[t := FreeStored(h, head)];
    assert ts[t := FreeStored(h, head)][t := Idle] == ts;
    ExecFour(s, run, t, CallDeallocate(h), Put(out, t, FreeStart(h)), Put(out, t, FreeHead(h, head)),
             Put(out, t, FreeStored(h, head)).(freeList := now.freeList[h := head]));
  }
}
