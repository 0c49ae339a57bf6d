/** The reassembly loop of `src/engine.rs`: bytes received in arbitrary pieces, frames cut out of
    the front of one buffer that is compacted in place. */
module Framing {
  import opened Bytes
  import opened Message
  import opened WireFormat
  import opened Parser
  import opened CodecRoundTrip

  /** Frames taken off the front of a stream, and what is left. */
  datatype Split = Split(frames: seq<seq<byte>>, rest: seq<byte>)

  function Extract(s: seq<byte>): Split
    decreases |s|
  {
    var b := Boundary(s);
    if b.None? then Split([], s)
    else
      var tail := Extract(s[b.value..]);
      Split([s[..b.value]] + tail.frames, tail.rest)
  }

  function Flatten(chunks: seq<seq<byte>>): seq<byte> {
    if chunks == [] then [] else chunks[0] + Flatten(chunks[1..])
  }

  /** What the engine does over a run of receives, starting with `rest` in its buffer. */
  function FeedAll(rest: seq<byte>, chunks: seq<seq<byte>>): Split
    decreases |chunks|
  {
    if chunks == [] then Split([], rest)
    else
      var now := Extract(rest + chunks[0]);
      var later := FeedAll(now.rest, chunks[1..]);
      Split(now.frames + later.frames, later.rest)
  }

  /** Nothing is lost and nothing invented. */
  lemma {:induction false} Conserved(s: seq<byte>)
    ensures Flatten(Extract(s).frames) + Extract(s).rest == s
    ensures Boundary(Extract(s).rest).None?
    decreases |s|
  {
    var b := Boundary(s);
    if b.Some? {
      var tail := Extract(s[b.value..]);
      Conserved(s[b.value..]);
      FlattenCons(s[..b.value], tail.frames);
      Reassemble(s, b.value, Flatten(tail.frames), tail.rest);
    }
  }

  lemma Reassemble(s: seq<byte>, b: nat, mid: seq<byte>, rest: seq<byte>)
    requires b <= |s| && mid + rest == s[b..]
    ensures (s[..b] + mid) + rest == s
  {
    assert (s[..b] + mid) + rest == s[..b] + (mid + rest);
  }

  lemma FlattenCons(head: seq<byte>, chunks: seq<seq<byte>>)
    ensures Flatten([head] + chunks) == head + Flatten(chunks)
  {
    assert ([head] + chunks)[1..] == chunks;
  }

  /** More bytes never move a boundary already in the buffer. */
  lemma BoundaryStable(s: seq<byte>, t: seq<byte>)
    requires Boundary(s).Some?
    ensures Boundary(s + t) == Boundary(s)
  {
    var b := Boundary(s).value;
    assert forall k :: 0 <= k < |s| ==> (s + t)[k] == s[k];
    assert BoundaryAt(s + t, b - 8);
    forall k: nat | k < b - 8 ensures !BoundaryAt(s + t, k) {
      assert !BoundaryAt(s, k);
    }
  }

  /** Cutting frames early or late makes no difference. */
  lemma {:induction false} ExtractAppend(s: seq<byte>, t: seq<byte>)
    ensures var first := Extract(s); var second := Extract(first.rest + t);
      Extract(s + t) == Split(first.frames + second.frames, second.rest)
    decreases |s|
  {
    var b := Boundary(s);
    if b.None? {
      assert [] + Extract(s + t).frames == Extract(s + t).frames;
    } else {
      BoundaryStable(s, t);
      assert (s + t)[..b.value] == s[..b.value];
      assert (s + t)[b.value..] == s[b.value..] + t;
      ExtractAppend(s[b.value..], t);
      var tail := Extract(s[b.value..]);
      var second := Extract(tail.rest + t);
      assert [s[..b.value]] + (tail.frames + second.frames) == ([s[..b.value]] + tail.frames) + second.frames;
    }
  }

  /** However a stream is cut into receives, the frames and the leftover depend on its bytes alone. */
  lemma {:induction false} ChunkingIrrelevant(rest: seq<byte>, chunks: seq<seq<byte>>)
    requires Boundary(rest).None?
    ensures FeedAll(rest, chunks) == Extract(rest + Flatten(chunks))
    decreases |chunks|
  {
    if chunks == [] {
      assert rest + Flatten(chunks) == rest;
    } else {
      var now := Extract(rest + chunks[0]);
      Conserved(rest + chunks[0]);
      ChunkingIrrelevant(now.rest, chunks[1..]);
      ExtractAppend(rest + chunks[0], Flatten(chunks[1..]));
      assert rest + Flatten(chunks) == (rest + chunks[0]) + Flatten(chunks[1..]);
    }
  }

  /** A byte string that is one frame and no more. */
  predicate IsFrame(m: seq<byte>) { Boundary(m) == Some(|m|) }

  lemma {:induction false} FramesRecovered(msgs: seq<seq<byte>>)
    requires forall m :: m in msgs ==> IsFrame(m)
    ensures Extract(Flatten(msgs)) == Split(msgs, [])
  {
    if msgs != [] {
      var m, s := msgs[0], Flatten(msgs);
      assert m in msgs;
      BoundaryStable(m, Flatten(msgs[1..]));
      assert s[..|m|] == m && s[|m|..] == Flatten(msgs[1..]);
      FramesRecovered(msgs[1..]);
      assert msgs == [m] + msgs[1..];
    }
  }

  lemma EncodedIsFrame(bs: seq<byte>, mt: seq<byte>, fs: seq<Field>)
    requires SohFree(bs) && SohFree(mt) && Clean(fs)
    ensures IsFrame(Encode(bs, mt, fs))
  {
    EncodedBoundary(bs, mt, fs, []);
    assert Encode(bs, mt, fs) + [] == Encode(bs, mt, fs);
  }

  /** What one message was built from. */
  datatype Draft = Draft(beginString: seq<byte>, msgType: seq<byte>, fields: seq<Field>)

  predicate GoodDraft(d: Draft) { SohFree(d.beginString) && SohFree(d.msgType) && Clean(d.fields) }

  function EncodeAll(ds: seq<Draft>): seq<seq<byte>> {
    if ds == [] then [] else [Encode(ds[0].beginString, ds[0].msgType, ds[0].fields)] + EncodeAll(ds[1..])
  }

  lemma {:induction false} AllFrames(ds: seq<Draft>)
    requires forall d :: d in ds ==> GoodDraft(d)
    ensures forall m :: m in EncodeAll(ds) ==> IsFrame(m)
  {
    if ds != [] {
      assert ds[0] in ds;
      EncodedIsFrame(ds[0].beginString, ds[0].msgType, ds[0].fields);
      AllFrames(ds[1..]);
    }
  }

  /** A stream of serialized messages, received in any pieces, comes out as exactly those messages
      with nothing left in the buffer. */
  lemma {:induction false} MessagesRecovered(ds: seq<Draft>, chunks: seq<seq<byte>>)
    requires forall d :: d in ds ==> GoodDraft(d)
    requires Flatten(chunks) == Flatten(EncodeAll(ds))
    ensures FeedAll([], chunks) == Split(EncodeAll(ds), [])
  {
    AllFrames(ds);
    FramesRecovered(EncodeAll(ds));
    ChunkingIrrelevant([], chunks);
    assert [] + Flatten(chunks) == Flatten(chunks);
  }

  /** What was taken and what the buffer still holds make up `all`. */
  predicate Remains(all: Split, frames: seq<seq<byte>>, buffered: seq<byte>) {
    var tail := Extract(buffered);
    all == Split(frames + tail.frames, tail.rest)
  }

  lemma NothingTaken(stream: seq<byte>)
    ensures Remains(Extract(stream), [], stream)
  {
    assert [] + Extract(stream).frames == Extract(stream).frames;
  }

  lemma FrameTaken(all: Split, frames: seq<seq<byte>>, before: seq<byte>, b: nat)
    requires Remains(all, frames, before) && Boundary(before) == Some(b)
    ensures Remains(all, frames + [before[..b]], before[b..])
  {
    var tail := Extract(before[b..]);
    assert frames + ([before[..b]] + tail.frames) == frames + [before[..b]] + tail.frames;
  }

  lemma AllTaken(all: Split, frames: seq<seq<byte>>, buffered: seq<byte>)
    requires Remains(all, frames, buffered) && Boundary(buffered).None?
    ensures all == Split(frames, buffered)
  {
    assert frames + [] == frames;
  }

  /** The receive side of `FixEngine`. */
  class ReceiveBuffer {
    var recvBuf: array<byte>
    var recvPos: nat

    ghost predicate Valid()
      reads this
    {
      recvPos <= recvBuf.Length
    }

    ghost function Buffered(): seq<byte>
      reads this, recvBuf
      requires Valid()
    {
      recvBuf[..recvPos]
    }

    constructor ()
      ensures Valid() && fresh(recvBuf) && Buffered() == []
    {
      recvBuf := new byte[65536](_ => 0);
      recvPos := 0;
    }

    /** Appends what was received, growing the buffer to twice the need when it is full. */
    method Append(data: seq<byte>)
      requires Valid()
      modifies this, recvBuf
      ensures Valid() && (recvBuf == old(recvBuf) || fresh(recvBuf))
      ensures Buffered() == old(Buffered()) + data
    {
      var end := recvPos + |data|;
      if end > recvBuf.Length {
        var grown := new byte[end * 2](_ => 0);
        CopyInto(grown, 0, recvBuf[..]);
        assert grown[..recvPos] == Buffered();
        recvBuf := grown;
      }
      CopyInto(recvBuf, recvPos, data);
      recvPos := end;
    }

    /** Copies the first frame out, if there is one, and moves the rest to the front. */
    method TakeFrame() returns (frame: Option<seq<byte>>)
      requires Valid()
      modifies this`recvPos, recvBuf
      ensures Valid()
      ensures var b := Boundary(old(Buffered()));
        if b.None? then frame == None && Buffered() == old(Buffered())
        else frame == Some(old(Buffered())[..b.value]) && Buffered() == old(Buffered())[b.value..]
    {
      var boundary := FindMessageBoundary(recvBuf[..recvPos]);
      if boundary.None? {
        return None;
      }
      var b := boundary.value;
      assert recvBuf[..recvPos][..b] == recvBuf[..b];
      frame := Some(recvBuf[..b]);
      CopyInto(recvBuf, 0, recvBuf[b..recvPos]);
      recvPos := recvPos - b;
    }

    /** One receive of `run_loop`: append, then take frames until no boundary is left. */
    method Receive(data: seq<byte>) returns (frames: seq<seq<byte>>)
      requires Valid()
      modifies this, recvBuf
      ensures Valid() && (recvBuf == old(recvBuf) || fresh(recvBuf))
      ensures Extract(old(Buffered()) + data) == Split(frames, Buffered())
    {
      Append(data);
      ghost var all := Extract(Buffered());
      NothingTaken(Buffered());
      frames := [];
      while true
        invariant Valid() && (recvBuf == old(recvBuf) || fresh(recvBuf)) && Remains(all, frames, Buffered())
        decreases recvPos
      {
        ghost var before := Buffered();
        var frame := TakeFrame();
        if frame.None? {
          AllTaken(all, frames, before);
          return;
        }
        FrameTaken(all, frames, before, Boundary(before).value);
        frames := frames + [frame.value];
      }
    }
  }
}
