/** `src/transport_aeron.rs`: one shared frame queue, and the endpoints that send to and receive from it.
    Each operation holds the queue's lock throughout. */
module AeronTransport {
  import opened Bytes

  datatype Frame = Frame(sender: nat, payload: seq<byte>)
  datatype IoError = NotConnected | FrameTooLarge

  /** `position(|frame| frame.sender_id != self.endpoint_id)`; the queue's length when there is none. */
  function FirstForeign(bus: seq<Frame>, i: nat): (k: nat)
    ensures k <= |bus|
    ensures k < |bus| ==> bus[k].sender != i
    ensures forall j :: 0 <= j < k ==> bus[j].sender == i
  {
    if bus == [] then 0
    else if bus[0].sender != i then 0
    else
      var k := FirstForeign(bus[1..], i);
      assert forall j :: 1 <= j < k + 1 ==> bus[j] == bus[1..][j - 1];
      k + 1
  }

  class AeronBus {
    var frames: seq<Frame>

    constructor ()
      ensures frames == []
    {
      frames := [];
    }
  }

  class AeronTransport {
    const endpointId: nat
    var connected: bool
    var bus: AeronBus?

    constructor (endpointId: nat)
      ensures this.endpointId == endpointId && bus == null && !connected
    {
      this.endpointId := endpointId;
      connected, bus := false, null;
    }

    /** `connect` and `bind`: the queue registered for the channel. */
    method Open(shared: AeronBus)
      modifies this
      ensures bus == shared && connected
    {
      bus := shared;
      connected := true;
    }

    method Send(data: seq<byte>) returns (r: Result<nat, IoError>)
      modifies bus
      ensures bus == null ==> r == Err(NotConnected)
      ensures bus != null ==> r == Ok(|data|) && bus.frames == old(bus.frames) + [Frame(endpointId, data)]
    {
      if bus == null {
        return Err(NotConnected);
      }
      bus.frames := bus.frames + [Frame(endpointId, data)];
      return Ok(|data|);
    }

    /** `position(|frame| frame.sender_id != self.endpoint_id)`. */
    method FindForeign(frames: seq<Frame>) returns (k: nat)
      ensures k == FirstForeign(frames, endpointId)
    {
      k := 0;
      while k < |frames| && frames[k].sender == endpointId
        invariant k <= FirstForeign(frames, endpointId)
      {
        k := k + 1;
      }
    }

    /** The oldest frame of another endpoint leaves the queue, and is lost when the buffer is too small. */
    method Recv(buffer: array<byte>) returns (r: Result<nat, IoError>)
      modifies bus, buffer
      ensures bus == null ==> r == Err(NotConnected) && buffer[..] == old(buffer[..])
      ensures bus != null ==>
        var was := old(bus.frames); var k := FirstForeign(was, endpointId);
        if k == |was| then r == Ok(0) && bus.frames == was && buffer[..] == old(buffer[..])
        else
          && bus.frames == was[..k] + was[k + 1..]
          && (if |was[k].payload| > buffer.Length then r == Err(FrameTooLarge) && buffer[..] == old(buffer[..])
              else r == Ok(|was[k].payload|)
                   && buffer[..] == was[k].payload + old(buffer[|was[k].payload|..]))
    {
      if bus == null {
        return Err(NotConnected);
      }
      var index := FindForeign(bus.frames);
      if index == |bus.frames| {
        return Ok(0);
      }
      var payload := bus.frames[index].payload;
      bus.frames := bus.frames[..index] + bus.frames[index + 1..];
      if |payload| > buffer.Length {
        return Err(FrameTooLarge);
      }
      CopyInto(buffer, 0, payload);
      return Ok(|payload|);
    }

    /** The queue stays registered: a closed endpoint can still be reached. */
    method Close()
      modifies this`connected
      ensures !connected
    {
      connected := false;
    }
  }
}
