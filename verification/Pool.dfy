/** `src/pool.rs` run by one thread: the indexed free list is a LIFO stack of slots over one
    contiguous allocation. */
module Pool {
  import opened Bytes
  import Protocol = PoolProtocol

  const END_OF_LIST: nat := Protocol.END_OF_LIST

  lemma SlotInside(h: nat, slotSize: nat, capacity: nat)
    requires h < capacity
    ensures h * slotSize + slotSize <= slotSize * capacity
  {
    assert slotSize * capacity == h * slotSize + slotSize * (capacity - h);
    assert slotSize * (capacity - h) == slotSize + slotSize * (capacity - h - 1);
  }

  /** Distinct slots never share a byte. */
  lemma SlotsDisjoint(h: nat, g: nat, slotSize: nat)
    requires h < g
    ensures h * slotSize + slotSize <= g * slotSize
  {
    assert g * slotSize == h * slotSize + slotSize * (g - h);
    assert slotSize * (g - h) == slotSize + slotSize * (g - h - 1);
  }

  class BufferPool {
    const storage: array<byte>
    const slotSize: nat
    const capacity: nat
    const freeList: array<nat>
    var freeHead: nat
    // The free slots, next to be handed out first.
    ghost var free: seq<nat>

    ghost predicate Valid()
      reads this, freeList
    {
      && freeList.Length == capacity && storage.Length == slotSize * capacity && capacity <= END_OF_LIST
      && Protocol.Chain(Protocol.Pool(freeHead, freeList[..], [], {}), free)
    }

    /** A pool without slots is constructed too, but its head is no slot: it is not usable, and `allocate` on it
        would read a link outside the list. */
    constructor (slotSize: nat, capacity: nat)
      requires capacity <= END_OF_LIST
      ensures fresh(freeList) && fresh(storage) && this.slotSize == slotSize && this.capacity == capacity
      ensures freeHead == 0 && freeList.Length == capacity && free == seq(capacity, i => i)
      ensures Valid() <==> capacity > 0
    {
      this.slotSize := slotSize;
      this.capacity := capacity;
      storage := new byte[slotSize * capacity](_ => 0);
      freeList := new nat[capacity](i => if i + 1 < capacity then i + 1 else END_OF_LIST);
      freeHead := 0;
      free := seq(capacity, i => i);
      new;
      if capacity > 0 {
        Protocol.InitInv(capacity, 0);
        assert freeList[..] == Protocol.Init(capacity, 0).freeList;
      }
    }

    /** `spurious` counts the failures of the weak compare-exchange before it goes through. */
    method Allocate(spurious: nat) returns (r: Option<nat>)
      requires Valid()
      modifies this`freeHead, this`free
      ensures Valid()
      ensures old(free) == [] ==> r == None && free == []
      ensures old(free) != [] ==> r == Some(old(free)[0]) && free == old(free)[1..]
    {
      var failures := spurious;
      while true
        invariant Valid() && free == old(free)
        decreases failures
      {
        var head := freeHead;
        if head == END_OF_LIST {
          return None;
        }
        var next := freeList[head];
        if failures > 0 {
          failures := failures - 1;
          continue;
        }
        PopChain(freeHead, freeList[..], free);
        freeHead := next;
        free := free[1..];
        return Some(head);
      }
    }

    /** The handle comes back on top. */
    method Deallocate(handle: nat, spurious: nat)
      requires Valid() && handle < capacity && handle !in free
      modifies this`freeHead, this`free, freeList
      ensures Valid() && free == [handle] + old(free)
    {
      var failures := spurious;
      while true
        invariant Valid() && free == old(free)
        decreases failures
      {
        var head := freeHead;
        ghost var links := freeList[..];
        freeList[handle] := head;
        RelinkChain(head, links, free, handle);
        assert freeList[..] == links[handle := head];
        if failures > 0 {
          failures := failures - 1;
          continue;
        }
        Protocol.PushedChain(Protocol.Pool(freeHead, freeList[..], [], {}), free, handle);
        freeHead := handle;
        free := [handle] + free;
        return;
      }
    }

    method Get(handle: nat) returns (bytes: seq<byte>)
      requires Valid() && handle < capacity
      ensures bytes == Slot(storage[..], slotSize, handle)
    {
      SlotInside(handle, slotSize, capacity);
      var offset := handle * slotSize;
      bytes := storage[offset..offset + slotSize];
    }

    /** A write through the slice `get_mut` returns. */
    method WriteThrough(handle: nat, i: nat, b: byte)
      requires Valid() && handle < capacity && i < slotSize
      modifies storage
      ensures Valid()
      ensures forall g: nat {:trigger Slot(storage[..], slotSize, g)} :: g < capacity ==>
        Slot(storage[..], slotSize, g)
        == var was := Slot(old(storage[..]), slotSize, g); if g == handle && i < |was| then was[i := b] else was
    {
      SlotInside(handle, slotSize, capacity);
      ghost var was := storage[..];
      storage[handle * slotSize + i] := b;
      assert storage[..] == was[handle * slotSize + i := b];
      forall g: nat | g < capacity {
        SlotWritten(was, slotSize, capacity, handle, g, i, b);
      }
    }
  }

  /** The bytes of one slot. */
  function Slot(storage: seq<byte>, slotSize: nat, h: nat): seq<byte> {
    var offset := h * slotSize;
    if offset + slotSize <= |storage| then storage[offset..offset + slotSize] else []
  }

  /** One slot changes, no other does. */
  lemma SlotWritten(storage: seq<byte>, slotSize: nat, capacity: nat, h: nat, g: nat, i: nat, b: byte)
    requires |storage| == slotSize * capacity && h < capacity && g < capacity && i < slotSize
    ensures h * slotSize + i < |storage|
    ensures var was := Slot(storage, slotSize, g);
      Slot(storage[h * slotSize + i := b], slotSize, g) == if g == h && i < |was| then was[i := b] else was
  {
    SlotInside(h, slotSize, capacity);
    SlotInside(g, slotSize, capacity);
    if g < h {
      SlotsDisjoint(g, h, slotSize);
    } else if h < g {
      SlotsDisjoint(h, g, slotSize);
    }
  }

  lemma PopChain(head: nat, links: seq<nat>, stack: seq<nat>)
    requires Protocol.Chain(Protocol.Pool(head, links, [], {}), stack) && head != END_OF_LIST
    ensures stack != [] && head == stack[0] && head < |links|
    ensures Protocol.Chain(Protocol.Pool(links[head], links, [], {}), stack[1..])
  {
    var rest := stack[1..];
    forall i | 0 <= i < |rest| ensures rest[i] == stack[i + 1] && links[rest[i]] == Protocol.Link(rest, i + 1) {
      var j := i + 1;
      assert links[stack[j]] == Protocol.Link(stack, j + 1) == Protocol.Link(rest, i + 1);
    }
  }

  /** Rewriting the link of a slot outside the chain leaves the chain alone. */
  lemma RelinkChain(head: nat, links: seq<nat>, stack: seq<nat>, h: nat)
    requires Protocol.Chain(Protocol.Pool(head, links, [], {}), stack) && h < |links| && h !in stack
    ensures Protocol.Chain(Protocol.Pool(head, links[h := head], [], {}), stack)
  {
    forall i | 0 <= i < |stack| ensures stack[i] != h {
      assert stack[i] in stack;
    }
  }
}
