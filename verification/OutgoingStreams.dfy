/**
 The streams opened by this side. A method is what happens under one hold of the mutex;
 OpenStreamSync waits by returning Wait, and continues with one of the Resume methods.
 */
module OutgoingStreams {
  import opened Common
  import opened OutgoingModel

  class OutgoingStreams {
    var streams: set<int>
    var openQueue: seq<int>
    var nextStream: int
    var maxStream: int
    var blockedSent: bool
    var closeErr: bool
    var controlFrames: seq<int>
    var tickets: int
    var tokens: set<int>
    var closedChans: set<int>
    ghost var h: History

    ghost function St(): State
      reads this
    {
      State(streams, openQueue, nextStream, maxStream, blockedSent, closeErr, controlFrames, tickets, tokens,
            closedChans, h)
    }

    ghost predicate Valid()
      reads this
    {
      Inv(St())
    }

    constructor (isBidi: bool, isServer: bool)
      ensures Valid() && St() == Init((if isBidi then 0 else 2) + if isServer then 1 else 0)
    {
      var first := if isBidi && isServer then 1 else if isBidi then 0 else if isServer then 3 else 2;
      streams, openQueue, nextStream, maxStream, blockedSent, closeErr := {}, [], first, InvalidStream, false, false;
      controlFrames, tickets, tokens, closedChans := [], 0, {}, {};
      h := History(first, map[], [], {}, {}, [], []);
      new;
      InitInv(first);
    }

    /** openStream */
    method OpenNow() returns (id: int)
      modifies this`streams, this`nextStream, this`h
      ensures St() == OutgoingModel.OpenNow(old(St())) && id == old(nextStream)
    {
      id := nextStream;
      h := h.(openings := h.openings + [Opening(nextStream, maxStream)]);
      streams := streams + {nextStream};
      nextStream := nextStream + 4;
    }

    /** maybeSendBlockedFrame */
    method MaybeSendBlockedFrame()
      modifies this`blockedSent, this`controlFrames, this`h
      ensures St() == SendBlocked(old(St())) && blockedSent
    {
      if blockedSent {
        return;
      }
      var streamLimit := 0;
      if maxStream != InvalidStream {
        streamLimit := maxStream / 4 + 1;
      }
      controlFrames := controlFrames + [streamLimit];
      h := h.(blockedAt := h.blockedAt + [maxStream]);
      blockedSent := true;
    }

    /** maybeUnblockOpenSync */
    method MaybeUnblockOpenSync()
      modifies this`tokens
      ensures St() == Unblock(old(St()))
    {
      if |openQueue| == 0 {
        return;
      }
      if nextStream > maxStream {
        return;
      }
      tokens := tokens + {openQueue[0]};
    }

    method OpenStream() returns (r: Result)
      requires Valid()
      modifies this
      ensures Valid() && Outcome(St(), r) == OutgoingModel.OpenStream(old(St()))
      ensures r == Opened(old(nextStream)) <==> !old(closeErr) && old(openQueue) == [] && old(nextStream <= maxStream)
      ensures r == Closed <==> old(closeErr)
      ensures r in {Closed, LimitReached, Opened(old(nextStream))}
    {
      hide Inv, OutgoingModel.OpenNow, SendBlocked;
      OpenStreamInv(St());
      if closeErr {
        return Closed;
      }
      if |openQueue| > 0 || nextStream > maxStream {
        MaybeSendBlockedFrame();
        return LimitReached;
      }
      var id := OpenNow();
      return Opened(id);
    }

    /** OpenStreamSync, up to the point where it returns or waits */
    method OpenStreamSync(done: bool) returns (r: Result)
      requires Valid()
      modifies this
      ensures Valid() && Outcome(St(), r) == OutgoingModel.OpenStreamSync(old(St()), done)
      ensures r == Closed <==> old(closeErr)
      ensures r == ContextDone <==> !old(closeErr) && done
      ensures r == Opened(old(nextStream)) <==>
              !old(closeErr) && !done && old(openQueue) == [] && old(nextStream <= maxStream)
      ensures r in {Closed, ContextDone, Opened(old(nextStream)), Wait(old(tickets))}
    {
      hide Inv, OutgoingModel.OpenNow, SendBlocked, Enqueue;
      OpenStreamSyncInv(St(), done);
      if closeErr {
        return Closed;
      }
      if done {
        return ContextDone;
      }
      if |openQueue| == 0 && nextStream <= maxStream {
        var id := OpenNow();
        return Opened(id);
      }
      var waitChan := MakeChannel();
      MaybeSendBlockedFrame();
      return Wait(waitChan);
    }

    /** A new channel, at the end of the queue */
    method MakeChannel() returns (waitChan: int)
      modifies this`tickets, this`openQueue, this`h
      ensures St() == Enqueue(old(St())) && waitChan == old(tickets)
    {
      waitChan := tickets;
      tickets, openQueue := tickets + 1, openQueue + [waitChan];
      h := h.(phase := h.phase[waitChan := Waiting]);
    }

    /** The select statement receives from the channel. */
    method Receive(w: int)
      requires Valid() && CanReceive(St(), w)
      modifies this`tokens, this`h
      ensures Valid() && St() == OutgoingModel.Receive(old(St()), w)
      ensures tokens == old(tokens) - {w} && h.phase == old(h.phase)[w := Woken]
    {
      hide Inv;
      ReceiveInv(St(), w);
      tokens := tokens - {w};
      h := h.(phase := h.phase[w := Woken]);
    }

    /** The select statement notices that the context is done. */
    ghost method NoticeDone(w: int)
      requires Valid() && w in h.phase && h.phase[w] == Waiting
      modifies this`h
      ensures Valid() && St() == OutgoingModel.NoticeDone(old(St()), w)
    {
      hide Inv;
      NoticeDoneInv(St(), w);
      h := h.(phase := h.phase[w := Done]);
    }

    /** OpenStreamSync continues after it received from its channel. It does not wait again. */
    method ResumeWoken(w: int) returns (r: Result)
      requires Valid() && w in h.phase && h.phase[w] == Woken
      modifies this
      ensures Valid() && Outcome(St(), r) == OutgoingModel.ResumeWoken(old(St()), w)
      ensures r == if old(closeErr) then Closed else Opened(old(nextStream))
    {
      ResumeWokenInv(St(), w);
      if !closeErr {
        WokenCanOpen(St(), w);
      }
      if closeErr {
        h := h.(phase := h.phase - {w});
        return Closed;
      }
      assert nextStream <= maxStream;
      var id := OpenNow();
      openQueue := openQueue[1..];
      h := h.(served := h.served + [w], phase := h.phase - {w});
      MaybeUnblockOpenSync();
      return Opened(id);
    }

    /** OpenStreamSync continues after it noticed that its context is done. */
    method ResumeDone(w: int)
      requires Valid() && w in h.phase && h.phase[w] == Done
      modifies this
      ensures Valid() && St() == OutgoingModel.ResumeDone(old(St()), w)
    {
      hide Inv, Unblock, Remove;
      ResumeDoneInv(St(), w);
      h := h.(gone := h.gone + (if w in openQueue then {w} else {}), phase := h.phase - {w});
      openQueue := Remove(openQueue, w);
      MaybeUnblockOpenSync();
    }

    method SetMaxStream(id: int)
      requires Valid()
      modifies this
      ensures Valid() && St() == OutgoingModel.SetMaxStream(old(St()), id)
      ensures maxStream == Max(old(maxStream), id)
      ensures streams == old(streams) && nextStream == old(nextStream) && openQueue == old(openQueue)
    {
      hide Inv, Unblock, SendBlocked;
      SetMaxStreamInv(St(), id);
      if id <= maxStream {
        return;
      }
      maxStream := id;
      blockedSent := false;
      if maxStream < nextStream - 4 + 4 * |openQueue| {
        MaybeSendBlockedFrame();
      }
      MaybeUnblockOpenSync();
    }

    method CloseWithError()
      requires Valid()
      modifies this
      ensures Valid() && St() == OutgoingModel.CloseWithError(old(St())) && closeErr && openQueue == []
    {
      hide Inv;
      CloseInv(St());
      closeErr := true;
      h := h.(failed := h.failed + Elements(openQueue));
      closedChans := CloseAll(openQueue, closedChans);
      openQueue := [];
    }

    static method CloseAll(queue: seq<int>, chans: set<int>) returns (r: set<int>)
      ensures r == chans + Elements(queue)
    {
      r := chans;
      for i := 0 to |queue|
        invariant r == chans + Elements(queue[..i])
      {
        r := r + {queue[i]};
        assert queue[..i + 1] == queue[..i] + [queue[i]];
      }
      assert queue[..|queue|] == queue;
    }

    /**
     GetStream: None if the peer refers to a stream that was not opened; otherwise, whether the stream
     still exists.
     */
    method GetStream(id: int) returns (r: Option<bool>)
      requires Valid()
      ensures r.None? <==> id >= nextStream
      ensures r == Some(true) <==> id in streams
      ensures r == Some(true) ==> exists k :: 0 <= k < |h.openings| && h.openings[k].id == id
    {
      if id >= nextStream {
        return None;
      }
      r := Some(id in streams);
      if id in streams {
        OpenedBefore(St(), id);
      }
    }

    method DeleteStream(id: int) returns (ok: bool)
      requires Valid()
      modifies this`streams
      ensures Valid() && ok == (id in old(streams)) && St() == OutgoingModel.DeleteStream(old(St()), id)
    {
      hide Inv;
      DeleteInv(St(), id);
      if id !in streams {
        return false;
      }
      streams := streams - {id};
      return true;
    }
  }
}
