/**
 The streams opened by the peer. A method is what happens under one hold of the mutex. AcceptStream
 is split where it releases the mutex; which calls of it are running is history.
 */
module IncomingStreams {
  import opened Common
  import opened IncomingModel

  /** A stream that exists, one that is closed already, a new one, or one beyond the limit. */
  datatype GetResult = Existing | Gone | New | LimitError | Panicked

  class IncomingStreams {
    var streams: map<int, bool>
    var nextStreamToAccept: int
    var nextStreamToOpen: int
    var maxStream: int
    const maxNumStreams: int
    var controlFrames: seq<int>
    var closeErr: bool
    var token: bool
    ghost var h: History

    ghost function St(): State
      reads this
    {
      State(streams, nextStreamToAccept, nextStreamToOpen, maxStream, maxNumStreams, controlFrames, closeErr, token, h)
    }

    ghost predicate Valid()
      reads this
    {
      Inv(St())
    }

    constructor (isBidi: bool, isServer: bool, maxStreams: int)
      requires 0 <= maxStreams <= MaxStreamCount
      ensures Valid() && St() == Init((if isBidi then 0 else 2) + if isServer then 0 else 1, maxStreams)
    {
      var first := if isBidi && isServer then 0 else if isBidi then 1 else if isServer then 2 else 3;
      streams, nextStreamToAccept, nextStreamToOpen, maxNumStreams := map[], first, first, maxStreams;
      maxStream := if maxStreams == 0 then -1 else first + 4 * (maxStreams - 1);
      controlFrames, closeErr, token, h := [], false, false, History(first, map[], true, [], {});
      new;
      InitInv(first, maxStreams);
    }

    /** AcceptStream drains the channel. */
    method BeginAccept(ghost a: int)
      requires Valid() && a !in h.acceptors
      modifies this`token, this`h
      ensures Valid() && St() == Start(old(St()), a)
    {
      hide Inv;
      StartInv(St(), a);
      token := false;
      h := h.(acceptors := h.acceptors[a := Starting], solo := h.solo && h.acceptors == map[]);
    }

    /** The select statement in AcceptStream receives from the channel. */
    method ReceiveToken(ghost a: int)
      requires Valid() && a in h.acceptors && h.acceptors[a] == Waiting && (token || closeErr)
      modifies this`token, this`h
      ensures Valid() && St() == Receive(old(St()), a)
    {
      hide Inv;
      ReceiveInv(St(), a);
      token := false;
      h := h.(acceptors := h.acceptors[a := Woken]);
    }

    /** AcceptStream, while it holds the mutex. A stream that was completed before it is accepted is deleted now. */
    method TryAccept(ghost a: int) returns (r: AcceptResult)
      requires Valid() && a in h.acceptors && h.acceptors[a] != Waiting
      modifies this
      ensures Valid() && Attempt(St(), r) == Try(old(St()), a)
      ensures r == Closed <==> old(closeErr)
      ensures r.Accepted? <==> !old(closeErr) && old(nextStreamToAccept in streams)
      ensures r.Accepted? ==> r.id == old(nextStreamToAccept) && nextStreamToAccept == r.id + 4
    {
      hide Inv, RemoveNow;
      ghost var st := St();
      TryInv(st, a);
      if closeErr {
        h := h.(acceptors := h.acceptors - {a});
        return Closed;
      }
      var id := nextStreamToAccept;
      if id !in streams {
        h := h.(acceptors := h.acceptors[a := Waiting]);
        return Wait;
      }
      TakeNext(a);
      if streams[id] {
        Remove(id);
      }
      return Accepted(id);
    }

    method TakeNext(ghost a: int)
      modifies this`nextStreamToAccept, this`h
      ensures St() == Take(IncomingModel.Return(old(St()), a))
    {
      h := h.(accepted := h.accepted + [nextStreamToAccept], acceptors := h.acceptors - {a});
      nextStreamToAccept := nextStreamToAccept + 4;
    }

    /** The end of deleteStream */
    method Remove(id: int)
      modifies this`streams, this`maxStream, this`controlFrames, this`h
      ensures St() == RemoveNow(old(St()), id) && streams == old(streams) - {id}
    {
      hide StreamNum;
      streams := streams - {id};
      h := h.(gone := h.gone + {id});
      if maxNumStreams > |streams| {
        var max := nextStreamToOpen + 4 * (maxNumStreams - |streams| - 1);
        if max <= MaxStreamID {
          Announce(max);
        }
      }
    }

    /** Queues a MAX_STREAMS frame. */
    method Announce(max: int)
      modifies this`maxStream, this`controlFrames
      ensures St() == old(St()).(max := max, frames := old(controlFrames) + [StreamNum(max)])
    {
      maxStream := max;
      controlFrames := controlFrames + [StreamNum(max)];
    }

    method DeleteStream(id: int) returns (r: DeleteResult)
      requires Valid()
      modifies this
      ensures Valid() && Deletion(St(), r) == Delete(old(St()), id) && maxStream >= old(maxStream)
      ensures r == Unknown <==> id !in old(streams)
      ensures r == Twice <==> id in old(streams) && id >= nextStreamToAccept && old(streams)[id]
      ensures r == Deleted ==>
              streams == if id < nextStreamToAccept then old(streams) - {id} else old(streams)[id := true]
      ensures nextStreamToAccept == old(nextStreamToAccept) && nextStreamToOpen == old(nextStreamToOpen)
    {
      hide Inv, RemoveNow;
      DeleteInv(St(), id);
      if id !in streams {
        return Unknown;
      }
      if id >= nextStreamToAccept {
        if streams[id] {
          return Twice;
        }
        streams := streams[id := true];
        return Deleted;
      }
      Remove(id);
      return Deleted;
    }

    /**
     GetOrOpenStream: a frame for stream id opens all streams of this kind up to id. To open one after
     CloseWithError is a send on a closed channel, which panics.
     */
    method GetOrOpenStream(id: int) returns (r: GetResult)
      requires Valid() && IsId(h.first, id)
      modifies this`streams, this`nextStreamToOpen, this`token
      ensures r == LimitError <==> id > maxStream
      ensures r in {New, Panicked} <==> old(nextStreamToOpen) <= id <= maxStream
      ensures r == Panicked <==> closeErr && old(nextStreamToOpen) <= id <= maxStream
      ensures r == Existing <==>
              id <= maxStream && id < old(nextStreamToOpen) && id in old(streams) && !old(streams)[id]
      ensures r != Panicked ==> Valid() && St() == if r == New then OpenTo(old(St()), id) else old(St())
      ensures r == New ==> nextStreamToOpen == id + 4 && Opened(old(St()), id, St())
      ensures r == Panicked ==> St() == old(St()).(streams := old(streams)[old(nextStreamToOpen) := false])
    {
      ghost var st := St();
      if id > maxStream {
        return LimitError;
      }
      if id < nextStreamToOpen {
        return if id in streams && !streams[id] then Existing else Gone;
      }
      if closeErr {
        streams := streams[nextStreamToOpen := false];
        return Panicked;
      }
      OpenToInv(st, id);
      OpenUpTo(id);
      return New;
    }

    /** The loop in GetOrOpenStream */
    method OpenUpTo(id: int)
      requires nextStreamToOpen <= id && OpenTo(St(), id).toOpen == id + 4
      modifies this`streams, this`nextStreamToOpen, this`token
      ensures St() == OpenTo(old(St()), id)
    {
      var newNum := nextStreamToOpen;
      while newNum <= id
        invariant nextStreamToOpen == old(nextStreamToOpen)
        invariant OpenTo(St().(toOpen := newNum), id) == OpenTo(old(St()), id)
        decreases id - newNum
      {
        OpenToStep(St().(toOpen := newNum), id);
        streams := streams[newNum := false];
        token := true;
        newNum := newNum + 4;
      }
      nextStreamToOpen := id + 4;
    }

    /** Closing twice closes the channel twice, which panics. */
    method CloseWithError() returns (panicked: bool)
      requires Valid()
      modifies this`closeErr
      ensures panicked <==> old(closeErr)
      ensures Valid() && St() == IncomingModel.CloseWithError(old(St())) && closeErr
    {
      CloseInv(St());
      hide Inv;
      panicked := closeErr;
      closeErr := true;
    }
  }
}
