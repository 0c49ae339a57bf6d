/** Where the unguarded pool of `src/pool.rs` hands out a slot that is still held: exactly when it has two
    slots and two threads or more. `free_head` carries no version, so a head that goes away and comes back
    lets a stale link in. And where it indexes outside its list: exactly when it has no slot. */
module PoolLimits {
  import opened Bytes
  import opened PoolProtocol

  /** Thread `t` is about to be handed a slot that is held. */
  predicate HandsOutHeld(s: Pool, t: nat) {
    t < |s.threads| && s.threads[t].AllocNext? && s.freeHead == s.threads[t].head && s.freeHead in s.held
  }

  /** No run, however its calls overlap, hands out a slot that is held. */
  ghost predicate NeverShared(capacity: nat, threads: nat) {
    forall run, t ::
      Exec(Init(capacity, threads), run).Some? ==> !HandsOutHeld(Exec(Init(capacity, threads), run).value, t)
  }

  // ----- one thread -----

  lemma OneThreadAlternates(capacity: nat, threads: nat, run: seq<Event>)
    requires threads <= 1
    ensures OneAllocatorThroughout(Init(capacity, threads), run)
  {
    forall k | 0 <= k <= |run| && Exec(Init(capacity, threads), run[..k]).Some?
      ensures OneAllocator(Exec(Init(capacity, threads), run[..k]).value)
    {
      SizesKept(Init(capacity, threads), run[..k]);
    }
  }

  // ----- one slot -----

  /** Where a thread of a one-slot pool can stand: it has seen slot 0 and no link behind it. */
  predicate AtSlot(th: Thread) {
    match th
    case Idle => true
    case AllocStart => true
    case AllocHead(h) => h == 0
    case AllocNext(h, n) => h == 0 && n == END_OF_LIST
    case FreeStart(h) => h == 0
    case FreeHead(h, head) => h == 0 && head == END_OF_LIST
    case FreeStored(h, head) => h == 0 && head == END_OF_LIST
  }

  /** The slot is free, held, or being returned by one thread. */
  predicate OneSlot(s: Pool) {
    && s.freeList == [END_OF_LIST] && (s.freeHead == 0 || s.freeHead == END_OF_LIST) && s.held <= {0}
    && (forall t :: 0 <= t < |s.threads| ==> AtSlot(s.threads[t]))
    && (0 in s.held ==> s.freeHead == END_OF_LIST)
    && (forall t :: 0 <= t < |s.threads| && Returning(s.threads[t]).Some? ==> s.freeHead == END_OF_LIST && s.held == {})
    && (forall t, u :: 0 <= t < u < |s.threads| && Returning(s.threads[t]).Some? ==> Returning(s.threads[u]).None?)
  }

  lemma OneSlotStep(s: Pool, t: nat, a: Action)
    requires OneSlot(s) && t < |s.threads| && StepOf(s, t, a).Some?
    ensures OneSlot(StepOf(s, t, a).value)
  {
    assert AtSlot(s.threads[t]);
  }

  lemma {:induction false} OneSlotRun(threads: nat, run: seq<Event>)
    requires Exec(Init(1, threads), run).Some?
    ensures OneSlot(Exec(Init(1, threads), run).value)
  {
    if run != [] {
      var n: nat := |run| - 1;
      OneSlotRun(threads, run[..n]);
      OneSlotStep(Exec(Init(1, threads), run[..n]).value, run[n].thread, run[n].action);
    }
  }

  // ----- two slots and two threads -----

  /** Thread 0 has read slot 0 and its link when thread 1 takes both slots and gives slot 0 back. */
  lemma StaleLink(capacity: nat, threads: nat) returns (run: seq<Event>)
    requires 2 <= capacity <= END_OF_LIST && threads >= 2
    ensures Exec(Init(capacity, threads), run).Some?
    ensures var s := Exec(Init(capacity, threads), run).value;
      && |s.threads| == threads && |s.freeList| == capacity && s.threads[0] == AllocNext(0, 1) && s.threads[1] == Idle
      && s.freeHead == 0 && s.held == {1}
  {
    var init := Init(capacity, threads);
    var e := Event(0, Atomic);
    ExecOne(init, [], Event(0, CallAllocate));
    run := [] + [Event(0, CallAllocate)];
    ExecOne(init, run, e);
    run := run + [e];
    ExecOne(init, run, e);
    run := run + [e];
    AllocateAlone(init, run, 1);
    run := run + CallThrough(1, CallAllocate);
    AllocateAlone(init, run, 1);
    run := run + CallThrough(1, CallAllocate);
    DeallocateAlone(init, run, 1, 0);
    run := run + CallThrough(1, CallDeallocate(0));
  }

  /** Thread 0's exchange goes through with the stale link, and slot 1 is on offer while it is held. */
  lemma SharedSlot(capacity: nat, threads: nat) returns (run: seq<Event>)
    requires 2 <= capacity <= END_OF_LIST && threads >= 2
    ensures Exec(Init(capacity, threads), run).Some? && HandsOutHeld(Exec(Init(capacity, threads), run).value, 1)
  {
    var init := Init(capacity, threads);
    run := StaleLink(capacity, threads);
    ExecOne(init, run, Event(0, Atomic));
    run := run + [Event(0, Atomic)];
    ExecOne(init, run, Event(1, CallAllocate));
    run := run + [Event(1, CallAllocate)];
    ExecOne(init, run, Event(1, Atomic));
    run := run + [Event(1, Atomic)];
    ExecOne(init, run, Event(1, Atomic));
    run := run + [Event(1, Atomic)];
  }

  /** Whatever its calls do, a pool never hands out a slot that is held if and only if it has one slot or
      at most one thread. */
  lemma NeverSharedExactly(capacity: nat, threads: nat)
    requires 0 < capacity <= END_OF_LIST
    ensures NeverShared(capacity, threads) <==> capacity == 1 || threads <= 1
  {
    if capacity == 1 || threads <= 1 {
      forall run, t | Exec(Init(capacity, threads), run).Some?
        ensures !HandsOutHeld(Exec(Init(capacity, threads), run).value, t)
      {
        if capacity == 1 {
          OneSlotRun(threads, run);
        } else {
          OneThreadAlternates(capacity, threads, run);
          AllocationSound(capacity, threads, run, t);
        }
      }
    } else {
      var run := SharedSlot(capacity, threads);
      assert HandsOutHeld(Exec(Init(capacity, threads), run).value, 1);
    }
  }

  // ----- the ends of the list -----

  /** Thread `t` is inside a call whose next operation indexes outside the list, where the source panics. */
  predicate IndexesOutside(s: Pool, t: nat) {
    t < |s.threads| && !s.threads[t].Idle? && StepOf(s, t, Atomic).None?
  }

  /** No run, however its calls overlap, indexes outside the list. */
  ghost predicate NeverOutside(capacity: nat, threads: nat) {
    forall run, t ::
      Exec(Init(capacity, threads), run).Some? ==> !IndexesOutside(Exec(Init(capacity, threads), run).value, t)
  }

  predicate SlotOrEnd(n: nat, x: nat) { x < n || x == END_OF_LIST }

  /** What a thread has read or was given are slots of a list of length `n`, or its end. */
  predicate ReadsInside(n: nat, th: Thread) {
    match th
    case Idle => true
    case AllocStart => true
    case AllocHead(h) => h < n
    case AllocNext(h, next) => h < n && SlotOrEnd(n, next)
    case FreeStart(h) => h < n
    case FreeHead(h, head) => h < n && SlotOrEnd(n, head)
    case FreeStored(h, head) => h < n && SlotOrEnd(n, head)
  }

  predicate Inside(s: Pool) {
    && SlotOrEnd(|s.freeList|, s.freeHead)
    && (forall x :: 0 <= x < |s.freeList| ==> SlotOrEnd(|s.freeList|, s.freeList[x]))
    && (forall h :: h in s.held ==> h < |s.freeList|)
    && (forall t :: 0 <= t < |s.threads| ==> ReadsInside(|s.freeList|, s.threads[t]))
  }

  /** Stale or not, every link is a slot or the end. */
  lemma InsideStep(s: Pool, t: nat, a: Action)
    requires Inside(s) && t < |s.threads| && StepOf(s, t, a).Some?
    ensures Inside(StepOf(s, t, a).value)
  {
    assert ReadsInside(|s.freeList|, s.threads[t]);
  }

  lemma {:induction false} InsideRun(capacity: nat, threads: nat, run: seq<Event>)
    requires capacity > 0 && Exec(Init(capacity, threads), run).Some?
    ensures Inside(Exec(Init(capacity, threads), run).value)
  {
    if run != [] {
      var n: nat := |run| - 1;
      InsideRun(capacity, threads, run[..n]);
      InsideStep(Exec(Init(capacity, threads), run[..n]).value, run[n].thread, run[n].action);
    }
  }

  lemma InsideIndexes(s: Pool, t: nat)
    requires Inside(s)
    ensures !IndexesOutside(s, t)
  {
    assert t < |s.threads| ==> ReadsInside(|s.freeList|, s.threads[t]);
  }

  /** A pool without slots starts with a head that is no slot: the first `allocate` reads a link outside the
      list, where the source panics. */
  lemma EmptyPoolPanics(threads: nat)
    requires threads > 0
    ensures var run := [Event(0, CallAllocate), Event(0, Atomic)];
      Exec(Init(0, threads), run).Some? && IndexesOutside(Exec(Init(0, threads), run).value, 0)
  {
    var init, a, b := Init(0, threads), Event(0, CallAllocate), Event(0, Atomic);
    ExecOne(init, [], a);
    ExecOne(init, [] + [a], b);
    assert [] + [a] + [b] == [a, b];
  }

  /** Whatever its calls do, a pool never indexes outside its list if and only if it has a slot, or nobody to
      call it. */
  lemma NeverOutsideExactly(capacity: nat, threads: nat)
    requires capacity <= END_OF_LIST
    ensures NeverOutside(capacity, threads) <==> capacity > 0 || threads == 0
  {
    if capacity == 0 && threads > 0 {
      EmptyPoolPanics(threads);
      var run := [Event(0, CallAllocate), Event(0, Atomic)];
      assert IndexesOutside(Exec(Init(0, threads), run).value, 0);
    } else {
      forall run, t | Exec(Init(capacity, threads), run).Some?
        ensures !IndexesOutside(Exec(Init(capacity, threads), run).value, t)
      {
        if capacity > 0 {
          InsideRun(capacity, threads, run);
          InsideIndexes(Exec(Init(capacity, threads), run).value, t);
        } else {
          SizesKept(Init(capacity, threads), run);
        }
      }
    }
  }
}
