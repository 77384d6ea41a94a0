/** Message queue sockets as FIFO queues of frames. */
module Zmq {
  import opened Text

  /** One part of a multipart message; `more` announces another part. */
  datatype Frame = Frame(data: string, more: bool)

  /** `receive`: the next nonempty frame and what follows it. */
  function Receive(fs: seq<Frame>): (r: Option<(Frame, seq<Frame>)>)
    ensures r.Some? ==> |r.value.1| < |fs|
  {
    if fs == [] then None else if fs[0].data != [] then Some((fs[0], fs[1..])) else Receive(fs[1..])
  }

  /** Any number of empty frames before a nonempty one are skipped, and nothing else is. */
  lemma {:induction false} ReceiveSkipsEmpty(empties: seq<Frame>, f: Frame, rest: seq<Frame>)
    requires f.data != [] && forall i :: 0 <= i < |empties| ==> empties[i].data == []
    ensures Receive(empties + [f] + rest) == Some((f, rest))
  {
    var fs := empties + [f] + rest;
    if empties == [] {
      assert fs[1..] == rest;
    } else {
      assert fs[1..] == empties[1..] + [f] + rest;
      ReceiveSkipsEmpty(empties[1..], f, rest);
    }
  }

  /** What follows the current message, whose next frame is still to be read. */
  function Drain(fs: seq<Frame>): (r: Option<seq<Frame>>)
    ensures r.Some? ==> |r.value| < |fs|
    decreases |fs|
  {
    match Receive(fs)
    case None => None
    case Some((f, rest)) => if f.more then Drain(rest) else Some(rest)
  }

  class Channel {
    var frames: seq<Frame>

    constructor ()
      ensures frames == []
    {
      frames := [];
    }

    method Send(data: string, more: bool)
      modifies this
      ensures frames == old(frames) + [Frame(data, more)]
    {
      frames := frames + [Frame(data, more)];
    }

    /** Skips empty frames; would block, so it may be called only when something is there. */
    method ReceiveFrame() returns (f: Frame)
      requires Receive(frames).Some?
      modifies this
      ensures Receive(old(frames)) == Some((f, frames))
    {
      while frames[0].data == []
        invariant frames != [] && Receive(frames) == Receive(old(frames)) && Receive(frames).Some?
        decreases |frames|
      {
        frames := frames[1..];
      }
      f := frames[0];
      frames := frames[1..];
    }

    /** Reads the rest of a message of which `more` says whether anything is left. */
    method DrainMessage(more: bool)
      requires more ==> Drain(frames).Some?
      modifies this
      ensures if more then Drain(old(frames)) == Some(frames) else frames == old(frames)
    {
      var left := more;
      while left
        invariant if left then more && Drain(frames) == Drain(old(frames)) && Drain(frames).Some?
                  else if more then Drain(old(frames)) == Some(frames) else frames == old(frames)
        decreases |frames|, left
      {
        var f := ReceiveFrame();
        left := f.more;
      }
    }
  }
}
