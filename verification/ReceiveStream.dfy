/**
 The receiving half of a stream. A method is what happens under one hold of the mutex: Read and Peek
 block by returning Blocked, and continue when they are called again after being woken up. The
 deadline is a parameter. Of the flow controller, the check of the final size is part of the model;
 whether it finds its window exceeded is a parameter.
 */
module ReceiveStream {
  import opened Common
  import opened SorterModel
  import opened FrameSorter

  datatype Error = NoError | EOF | Cancelled | Shutdown | DeadlineExceeded

  datatype ReadResult = Blocked | Returned(n: int, err: Error)

  datatype HandleResult = Handled | FinalSizeError | FlowControlError | SorterFailed(r: PushResult)

  /** What is left of the current frame. */
  ghost function Rest(frame: Option<seq<byte>>, pos: int): seq<byte> {
    if frame.Some? && 0 <= pos <= |frame.value| then frame.value[pos..] else []
  }

  /** What the sorter delivered is what Read has returned, and the rest of the current frame. */
  ghost predicate Reading(delivered: seq<byte>, consumed: seq<byte>, frame: Option<seq<byte>>, pos: int) {
    && (frame.Some? ==> 0 <= pos <= |frame.value|)
    && delivered == consumed + Rest(frame, pos)
  }

  /** The callback of the current frame is the only one that was handed out and not called. */
  ghost predicate Releasing(handed: multiset<Callback>, called: multiset<Callback>, frame: Option<seq<byte>>,
                            last: bool, done: Option<Callback>) {
    && handed == called + CbBag(if last && frame.None? then None else done)
    && (frame.None? && !last ==> done == None)
  }

  /** Nothing was received beyond the highest offset, which is the final offset once that is known. */
  ghost predicate FinalOk(received: iset<int>, highest: int, final: int, finalKnown: bool, last: bool, sorterPos: int) {
    && 0 <= highest < MaxByteCount
    && (forall p :: p in received ==> p < highest)
    && (final != MaxByteCount ==> finalKnown && final == highest)
    && (last ==> final != MaxByteCount && sorterPos == final)
  }

  lemma NextReading(delivered: seq<byte>, consumed: seq<byte>, frame: Option<seq<byte>>, pos: int,
                    next: Option<seq<byte>>, delivered': seq<byte>)
    requires Reading(delivered, consumed, frame, pos) && Rest(frame, pos) == []
    requires delivered' == if next.Some? then delivered + next.value else delivered
    ensures Reading(delivered', consumed, next, 0) && delivered == consumed
  {
  }

  lemma NextReleasing(handed: multiset<Callback>, called: multiset<Callback>, frame: Option<seq<byte>>, last: bool,
                      done: Option<Callback>, frame': Option<seq<byte>>, last': bool, done': Option<Callback>)
    requires Releasing(handed, called, frame, last, done) && !(last && frame.None?) && (frame'.None? ==> done'.None?)
    ensures Releasing(handed + CbBag(done'), called + CbBag(done), frame', last', done')
  {
  }

  /** The sorter has delivered nothing beyond the final offset, and has reached it if the last frame was popped. */
  lemma NextFinal(sorter: FrameSorter, highest: int, final: int, finalKnown: bool, last: bool, pos: int, last': bool)
    requires sorter.Valid() && FinalOk(sorter.received, highest, final, finalKnown, last, pos)
    requires last' ==> sorter.readPos >= final
    ensures FinalOk(sorter.received, highest, final, finalKnown, last', sorter.readPos)
  {
    sorter.DeliveredReceived(highest);
  }

  /** Pop, as far as it matters here. */
  method PopNext(sorter: FrameSorter, finalOffset: int)
    returns (next: Option<seq<byte>>, done: Option<Callback>, atEnd: bool)
    requires sorter.Valid()
    modifies sorter
    ensures sorter.Valid() && sorter.received == old(sorter.received)
    ensures next.None? <==> |old(sorter.delivered)| !in sorter.received
    ensures next.None? ==> done.None?
    ensures next.Some? ==> next.value != []
    ensures sorter.delivered == if next.Some? then old(sorter.delivered) + next.value else old(sorter.delivered)
    ensures sorter.handed == old(sorter.handed) + CbBag(done)
    ensures atEnd <==> sorter.readPos >= finalOffset
    ensures forall stream :: old(sorter.ConsistentWith(stream)) ==> sorter.ConsistentWith(stream)
  {
    var offset;
    offset, next, done := sorter.Pop();
    atEnd := offset + (if next.Some? then |next.value| else 0) >= finalOffset;
  }

  lemma CopyReading(delivered: seq<byte>, consumed: seq<byte>, frame: Option<seq<byte>>, pos: int, m: int)
    requires Reading(delivered, consumed, frame, pos) && 0 <= m <= |Rest(frame, pos)|
    ensures Reading(delivered, consumed + Rest(frame, pos)[..m], frame, pos + m)
    ensures Rest(frame, pos + m) == Rest(frame, pos)[m..]
  {
    var rest := Rest(frame, pos);
    assert rest == rest[..m] + rest[m..];
    assert consumed + rest == (consumed + rest[..m]) + rest[m..];
  }

  /** Data beyond the final size, a different final size, or one below what was received already. */
  predicate FinalSizeBroken(finalKnown: bool, highest: int, offset: int, final: bool) {
    (finalKnown && offset > highest) || (final && (if finalKnown then offset != highest else offset < highest))
  }

  /** Beyond what the windows allow. */
  predicate WindowExceeded(finalKnown: bool, highest: int, offset: int, final: bool, allowed: bool) {
    !FinalSizeBroken(finalKnown, highest, offset, final) && offset > highest && !allowed
  }

  /** A stream is reset at a final offset, and what is delivered reliably ends there at the latest. */
  ghost predicate ReliableOk(reliable: int, final: int, cancelled: bool) {
    0 <= reliable <= final && (final == MaxByteCount ==> reliable == 0 && !cancelled)
  }

  /** A call of Read: what was returned before, where it started, and whether the stream was cancelled then. */
  datatype ReadStart = ReadStart(before: seq<byte>, from: int, cancelled: bool)

  /**
   What a step of Read does after `at` bytes: it fails with the error, or copies from the next frame if
   there is one, and ends the stream or waits if there is none.
   */
  ghost predicate StepFate(r: Option<ReadResult>, at: int, m: int, failure: Option<Error>, some: bool, last: bool) {
    if failure.Some? then r == Some(Returned(at, failure.value)) && m == 0
    else if some then m > 0 && (r.None? || r == Some(Returned(at + m, EOF)))
    else m == 0 && r == Some(if last then Returned(at, EOF) else Blocked)
  }

  /** Whether the last frame was popped matters only if there is no frame and no error. */
  lemma SameFate(r: Option<ReadResult>, at: int, m: int, failure: Option<Error>, some: bool, last: bool, last': bool)
    requires StepFate(r, at, m, failure, some, last) && (failure.None? && !some ==> last == last')
    ensures StepFate(r, at, m, failure, some, last')
  {
  }

  lemma Joined(before: seq<byte>, a: seq<byte>, b: seq<byte>, all: seq<byte>)
    requires all == a + b
    ensures (before + a) + b == before + all
  {
  }

  class ReceiveStream {
    const frameQueue: FrameSorter
    var finalOffset: int
    var currentFrame: Option<seq<byte>>
    var currentFrameDone: Option<Callback>
    var readPosInFrame: int
    var currentFrameIsLast: bool
    var cancelledRemotely: bool
    var cancelledLocally: bool
    var closeForShutdownErr: bool
    var readPos: int
    var reliableSize: int
    // the flow controller
    var highestReceived: int
    var receivedFinalOffset: bool
    /** The callbacks of frames that were read completely. */
    var called: multiset<Callback>
    /** All bytes returned by Read. */
    ghost var consumed: seq<byte>

    ghost predicate Valid()
      reads this, frameQueue
    {
      && frameQueue.Valid()
      && |consumed| == readPos
      && Reading(frameQueue.delivered, consumed, currentFrame, readPosInFrame)
      && Releasing(frameQueue.handed, called, currentFrame, currentFrameIsLast, currentFrameDone)
      && FinalOk(frameQueue.received, highestReceived, finalOffset, receivedFinalOffset, currentFrameIsLast,
                 frameQueue.readPos)
      && ReliableOk(reliableSize, finalOffset, cancelledRemotely)
    }

    constructor ()
      ensures Valid() && fresh(frameQueue) && consumed == [] && frameQueue.received == iset{}
              && finalOffset == MaxByteCount
      ensures highestReceived == 0 && !receivedFinalOffset && !cancelledLocally && !cancelledRemotely
              && !closeForShutdownErr
      ensures forall stream :: frameQueue.ConsistentWith(stream)
    {
      frameQueue := new FrameSorter();
      finalOffset, currentFrame, currentFrameDone, readPosInFrame, currentFrameIsLast := MaxByteCount, None, None, 0,
        false;
      cancelledRemotely, cancelledLocally, closeForShutdownErr, readPos, reliableSize := false, false, false, 0, 0;
      highestReceived, receivedFinalOffset, called, consumed := 0, false, multiset{}, [];
      new;
      assert frameQueue.handed == multiset{};
    }

    /** isRemoteCancellationEffective */
    predicate RemoteCancellation()
      reads this
    {
      cancelledRemotely && readPos >= reliableSize
    }

    /** Releases the current frame and replaces it. */
    method SetFrame(next: Option<seq<byte>>, done: Option<Callback>, last: bool)
      modifies this`currentFrame, this`currentFrameDone, this`readPosInFrame, this`currentFrameIsLast, this`called
      ensures currentFrame == next && currentFrameDone == done && currentFrameIsLast == last && readPosInFrame == 0
      ensures called == old(called) + CbBag(old(currentFrameDone))
    {
      called := called + CbBag(currentFrameDone);
      currentFrame, currentFrameDone, currentFrameIsLast, readPosInFrame := next, done, last, 0;
    }

    /** dequeueNextFrame, after the current frame was read completely */
    method Dequeue()
      requires Valid() && Rest(currentFrame, readPosInFrame) == [] && !(currentFrameIsLast && currentFrame.None?)
      modifies this`currentFrame, this`currentFrameDone, this`readPosInFrame, this`currentFrameIsLast, this`called,
               frameQueue
      ensures Valid() && frameQueue.received == old(frameQueue.received)
      ensures currentFrame.None? <==> readPos !in frameQueue.received
      ensures readPosInFrame == 0 && (if currentFrame.Some? then currentFrame.value != [] else currentFrameDone == None)
      ensures currentFrameIsLast <==> frameQueue.readPos >= finalOffset && !cancelledRemotely
      ensures forall stream :: old(frameQueue.ConsistentWith(stream)) ==> frameQueue.ConsistentWith(stream)
    {
      hide StateOk, Missing, Conserved, Agrees, Prefix, Reading, Releasing, FinalOk, Rest, CbBag;
      var next, done, atEnd := PopNext(frameQueue, finalOffset);
      var last := atEnd && !cancelledRemotely;
      NextFinal(frameQueue, highestReceived, finalOffset, receivedFinalOffset, currentFrameIsLast,
                old(frameQueue.readPos), last);
      NextReading(old(frameQueue.delivered), consumed, currentFrame, readPosInFrame, next, frameQueue.delivered);
      NextReleasing(old(frameQueue.handed), called, currentFrame, currentFrameIsLast, currentFrameDone, next, last,
                    done);
      SetFrame(next, done, last);
    }

    /** m bytes of the current frame are read. */
    method Advance(m: int)
      requires Valid() && 0 <= m <= |Rest(currentFrame, readPosInFrame)|
      modifies this`readPosInFrame, this`readPos, this`consumed
      ensures Valid()
      ensures var rest := old(Rest(currentFrame, readPosInFrame));
              consumed == old(consumed) + rest[..m] && Rest(currentFrame, readPosInFrame) == rest[m..]
    {
      hide StateOk, Missing, Conserved, Reading, Releasing, FinalOk, Rest;
      CopyReading(frameQueue.delivered, consumed, currentFrame, readPosInFrame, m);
      consumed := consumed + Rest(currentFrame, readPosInFrame)[..m];
      readPosInFrame, readPos := readPosInFrame + m, readPos + m;
    }

    /** Copies what fits of the current frame to p[at..]. */
    method CopyOut(p: array<byte>, at: int) returns (m: int)
      requires Valid() && 0 <= at <= p.Length
      modifies p, this`readPosInFrame, this`readPos, this`consumed
      ensures Valid()
      ensures var rest := old(Rest(currentFrame, readPosInFrame));
              && m == Min(p.Length - at, |rest|) && p[at..at + m] == rest[..m]
              && consumed == old(consumed) + rest[..m] && Rest(currentFrame, readPosInFrame) == rest[m..]
      ensures p[..at] == old(p[..at])
    {
      hide StateOk, Missing, Conserved, Reading, Releasing, FinalOk, Rest;
      m := 0;
      if currentFrame.Some? {
        PosOk(frameQueue.delivered, consumed, currentFrame, readPosInFrame,
              Min(p.Length - at, |Rest(currentFrame, readPosInFrame)|));
        m := Copy(p, at, currentFrame.value, readPosInFrame);
      } else {
        NoRest(readPosInFrame);
      }
      Advance(m);
    }

    /** The current frame was read completely. */
    predicate Exhausted()
      reads this
    {
      currentFrame.None? || readPosInFrame >= |currentFrame.value|
    }

    /** The last frame was read completely: releases it. */
    method EndLast()
      requires Valid() && currentFrameIsLast && Exhausted() && (currentFrame.None? ==> currentFrameDone == None)
      modifies this`currentFrame, this`called
      ensures Valid() && currentFrame.None? && readPos == finalOffset && finalOffset != MaxByteCount
    {
      hide StateOk, Missing, Conserved, Reading, Releasing;
      EndFrame(frameQueue.delivered, consumed, frameQueue.handed, called, currentFrame, readPosInFrame,
               currentFrameDone);
      hide FinalOk;
      currentFrame := None;
      called := called + CbBag(currentFrameDone);
    }

    /** The error that ends Read while it waits or copies, in the order of the checks. */
    function Failure(cancelled: bool, expired: bool): Option<Error>
      reads this
    {
      if closeForShutdownErr then Some(Shutdown)
      else if cancelled then Some(Cancelled)
      else if expired then Some(DeadlineExceeded)
      else None
    }

    /** A step of readImpl: copies from one frame, or returns. */
    method ReadStep(p: array<byte>, at: int, expired: bool) returns (r: Option<ReadResult>, m: int)
      requires Valid() && 0 <= at < p.Length && (at > 0 ==> currentFrame.Some?)
      requires currentFrame.None? ==> currentFrameDone == None && readPos !in frameQueue.received
      requires currentFrame.Some? ==> !Exhausted()
      requires !currentFrameIsLast && currentFrame.None? ==> frameQueue.readPos < finalOffset || cancelledRemotely
      modifies p, this`readPosInFrame, this`readPos, this`consumed, this`currentFrame, this`called
      ensures Valid() && 0 <= m <= p.Length - at
      ensures consumed == old(consumed) + p[at..at + m] && p[..at] == old(p[..at])
      ensures r.None? ==> m > 0 && currentFrame.Some? && (at + m < p.Length ==> Exhausted())
      ensures r == Some(Blocked) ==> currentFrame.None? && !currentFrameIsLast
      ensures r == Some(Blocked) ==>
              at == m == 0 && readPos !in frameQueue.received && readPos < finalOffset
      ensures r.Some? && r.value.Returned? ==> r.value.n == at + m && r.value.err != NoError
      ensures r == Some(Returned(at + m, EOF)) ==> readPos == finalOffset && finalOffset != MaxByteCount
      ensures r == Some(Returned(at + m, Cancelled)) ==> cancelledLocally || RemoteCancellation()
      ensures r == Some(Returned(at + m, Shutdown)) ==> closeForShutdownErr
      ensures r == Some(Returned(at + m, DeadlineExceeded)) ==> expired
      ensures StepFate(r, at, m, old(Failure(cancelledLocally || RemoteCancellation(), expired)),
                       old(currentFrame.Some?), old(currentFrameIsLast))
    {
      hide StateOk, Missing, Conserved, Reading, Releasing, FinalOk, Rest;
      ghost var nothing := p[at..at + 0];
      assert nothing == [] && consumed == consumed + [];
      ExhaustedRest(frameQueue.delivered, consumed, currentFrame, readPosInFrame);
      if closeForShutdownErr {
        return Some(Returned(at, Shutdown)), 0;
      }
      if cancelledLocally || RemoteCancellation() {
        return Some(Returned(at, Cancelled)), 0;
      }
      if expired {
        return Some(Returned(at, DeadlineExceeded)), 0;
      }
      if currentFrame.None? && !currentFrameIsLast {
        return Some(Blocked), 0;
      }
      m := CopyOut(p, at);
      ExhaustedRest(frameQueue.delivered, consumed, currentFrame, readPosInFrame);
      if Exhausted() && currentFrameIsLast {
        EndLast();
        return Some(Returned(at + m, EOF)), m;
      }
      return None, m;
    }

    /** After dequeueNextFrame, there is a frame exactly if the next byte was received. */
    lemma NextFrame()
      requires Valid() && if currentFrame.Some? then !Exhausted() else readPos !in frameQueue.received
      requires !currentFrameIsLast && currentFrame.None? ==> frameQueue.readPos < finalOffset || cancelledRemotely
      ensures currentFrame.Some? <==> readPos in frameQueue.received
      ensures currentFrame.None? && !(cancelledLocally || RemoteCancellation()) ==>
              (currentFrameIsLast <==> readPos >= finalOffset)
    {
      ReadBelow(frameQueue.delivered, consumed, currentFrame, readPosInFrame);
      ExhaustedRest(frameQueue.delivered, consumed, currentFrame, readPosInFrame);
      BelowFinal(highestReceived, finalOffset, receivedFinalOffset, currentFrameIsLast, frameQueue);
      hide StateOk, Missing, Conserved, Releasing;
      if currentFrame.Some? {
        assert |consumed| < |frameQueue.delivered|;
        frameQueue.ReceivedBelow(readPos);
      }
    }

    /** Gets the next frame, if the current one was read completely. */
    method Ready(dequeued: bool)
      requires Valid() && if dequeued then JustDequeued() else !(currentFrameIsLast && currentFrame.None?)
      modifies this`currentFrame, this`currentFrameDone, this`readPosInFrame, this`currentFrameIsLast, this`called,
               frameQueue
      ensures Valid() && JustDequeued() && frameQueue.received == old(frameQueue.received)
      ensures currentFrame.Some? <==> readPos in frameQueue.received
      ensures currentFrame.None? && !(cancelledLocally || RemoteCancellation()) ==>
              (currentFrameIsLast <==> readPos >= finalOffset)
      ensures forall stream :: old(frameQueue.ConsistentWith(stream)) ==> frameQueue.ConsistentWith(stream)
    {
      hide StateOk, Missing, Conserved, Agrees, Prefix, Reading, Releasing, FinalOk, Rest;
      if !dequeued && Exhausted() {
        ExhaustedRest(frameQueue.delivered, consumed, currentFrame, readPosInFrame);
        Dequeue();
      }
      NextFrame();
    }

    /** One round of the loop of readImpl. */
    method ReadRound(p: array<byte>, at: int, expired: bool, dequeued: bool) returns (r: Option<ReadResult>, m: int)
      requires Valid() && 0 <= at < p.Length && (at > 0 ==> Exhausted() && !dequeued)
      requires if dequeued then JustDequeued() else !(currentFrameIsLast && currentFrame.None?)
      modifies p, this`readPosInFrame, this`readPos, this`consumed, this`currentFrame, this`called,
               this`currentFrameDone, this`currentFrameIsLast, frameQueue
      ensures Valid() && frameQueue.received == old(frameQueue.received) && 0 <= m <= p.Length - at
      ensures consumed == old(consumed) + p[at..at + m] && p[..at] == old(p[..at])
      ensures r.None? ==> m > 0 && currentFrame.Some? && (at + m < p.Length ==> Exhausted())
      ensures r == Some(Blocked) ==> currentFrame.None? && !currentFrameIsLast
      ensures r == Some(Blocked) ==>
              at == m == 0 && readPos !in frameQueue.received && readPos < finalOffset
      ensures r.Some? && r.value.Returned? ==> r.value.n == at + m
      ensures r.Some? && r.value.Returned? && r.value.err == NoError ==> at > 0 && readPos !in frameQueue.received
      ensures r == Some(Returned(at + m, EOF)) ==> readPos == finalOffset && finalOffset != MaxByteCount
      ensures r == Some(Returned(at + m, Cancelled)) ==> cancelledLocally || RemoteCancellation()
      ensures r == Some(Returned(at + m, Shutdown)) ==> closeForShutdownErr
      ensures r == Some(Returned(at + m, DeadlineExceeded)) ==> expired
      ensures at == 0 ==>
              StepFate(r, 0, m, old(Failure(cancelledLocally || RemoteCancellation(), expired)),
                       old(readPos) in frameQueue.received, old(readPos) >= finalOffset)
      ensures forall stream :: old(frameQueue.ConsistentWith(stream)) ==> frameQueue.ConsistentWith(stream)
    {
      hide StateOk, Missing, Conserved, Agrees, Prefix, Reading, Releasing, FinalOk, Rest, StepFate;
      Ready(dequeued);
      if currentFrame.None? && at > 0 {
        assert p[at..at + 0] == [];
        return Some(Returned(at, if closeForShutdownErr then Shutdown else NoError)), 0;
      }
      ghost var failure := Failure(cancelledLocally || RemoteCancellation(), expired);
      ghost var some, last, end := currentFrame.Some?, currentFrameIsLast, readPos >= finalOffset;
      r, m := ReadStep(p, at, expired);
      SameFate(r, at, m, failure, some, last, end);
    }

    /** Where a Read started, and what was returned before it. */
    ghost predicate Started(start: ReadStart, p: array<byte>, at: int, expired: bool)
      requires 0 <= at <= p.Length
      reads this, frameQueue, p
    {
      && consumed == start.before + p[..at]
      && (at == 0 ==> readPos == start.from && start.cancelled == (cancelledLocally || RemoteCancellation()))
      && (at > 0 ==> start.from in frameQueue.received && Failure(start.cancelled, expired) == None)
    }

    /** One round of the loop of readImpl, seen from the start of Read. */
    method ReadOn(p: array<byte>, at: int, expired: bool, dequeued: bool, ghost start: ReadStart)
      returns (r: Option<ReadResult>, m: int)
      requires Valid() && 0 <= at < p.Length && (at > 0 ==> Exhausted() && !dequeued)
      requires if dequeued then JustDequeued() else !(currentFrameIsLast && currentFrame.None?)
      requires Started(start, p, at, expired)
      modifies p, this`readPosInFrame, this`readPos, this`consumed, this`currentFrame, this`called,
               this`currentFrameDone, this`currentFrameIsLast, frameQueue
      ensures Valid() && frameQueue.received == old(frameQueue.received) && 0 <= m <= p.Length - at
      ensures r.None? ==> m > 0 && currentFrame.Some? && (at + m < p.Length ==> Exhausted())
      ensures r.None? ==> Started(start, p, at + m, expired)
      ensures r.Some? ==>
              && ReadOk(r.value, p, start.before, expired)
              && ReadFate(r.value, p.Length, start.from, start.cancelled, expired)
      ensures r == Some(Blocked) ==> currentFrame.None? && !currentFrameIsLast
      ensures forall stream :: old(frameQueue.ConsistentWith(stream)) ==> frameQueue.ConsistentWith(stream)
    {
      hide StateOk, Missing, Conserved, Agrees, Prefix, Reading, Releasing, FinalOk, Rest, JustDequeued, Exhausted,
           ReliableOk;
      ghost var read := p[..at];
      r, m := ReadRound(p, at, expired, dequeued);
      Joined(start.before, read, p[at..at + m], p[..at + m]);
    }

    /** The loop of readImpl. If it was woken up, the next frame was dequeued already. */
    method ReadLoop(p: array<byte>, expired: bool, woken: bool) returns (r: ReadResult)
      requires Valid() && (woken || !(currentFrameIsLast && currentFrame.None?))
      requires woken ==> p.Length > 0 && JustDequeued()
      modifies p, this`readPosInFrame, this`readPos, this`consumed, this`currentFrame, this`called,
               this`currentFrameDone, this`currentFrameIsLast, frameQueue
      ensures Valid() && frameQueue.received == old(frameQueue.received)
      ensures ReadOk(r, p, old(consumed), expired)
      ensures if p.Length == 0 then r == Returned(0, if old(RemoteCancellation()) then Cancelled else NoError)
              else ReadFate(r, p.Length, old(readPos), old(cancelledLocally || RemoteCancellation()), expired)
      ensures r == Blocked ==> currentFrame.None? && !currentFrameIsLast && p.Length > 0
      ensures forall stream :: old(frameQueue.ConsistentWith(stream)) ==> frameQueue.ConsistentWith(stream)
    {
      hide StateOk, Missing, Conserved, Agrees, Prefix, Reading, Releasing, FinalOk, Rest, ReadOk, ReadFate, Started;
      var bytesRead, dequeued := 0, woken;
      ghost var start := ReadStart(consumed, readPos, cancelledLocally || RemoteCancellation());
      StartedHere(p, expired);
      while bytesRead < p.Length
        invariant 0 <= bytesRead <= p.Length && Valid() && Started(start, p, bytesRead, expired)
        invariant frameQueue.received == old(frameQueue.received)
        invariant if dequeued then bytesRead == 0 && JustDequeued() else !(currentFrameIsLast && currentFrame.None?)
        invariant 0 < bytesRead < p.Length ==> Exhausted()
        invariant forall stream :: old(frameQueue.ConsistentWith(stream)) ==> frameQueue.ConsistentWith(stream)
      {
        var step, m := ReadOn(p, bytesRead, expired, dequeued, start);
        dequeued := false;
        if step.Some? {
          return step.value;
        }
        bytesRead := bytesRead + m;
      }
      ReadAll(start, p, expired);
      return Returned(bytesRead, if RemoteCancellation() then Cancelled else NoError);
    }

    lemma StartedHere(p: array<byte>, expired: bool)
      ensures Started(ReadStart(consumed, readPos, cancelledLocally || RemoteCancellation()), p, 0, expired)
    {
      assert p[..0] == [];
    }

    /** All bytes asked for were read. */
    lemma ReadAll(start: ReadStart, p: array<byte>, expired: bool)
      requires Started(start, p, p.Length, expired)
      ensures var r := Returned(p.Length, if RemoteCancellation() then Cancelled else NoError);
              && ReadOk(r, p, start.before, expired)
              && (p.Length > 0 ==> ReadFate(r, p.Length, start.from, start.cancelled, expired))
      ensures p.Length == 0 ==> readPos == start.from && start.cancelled == (cancelledLocally || RemoteCancellation())
    {
    }

    /**
     What Read does when there is something to read, and which error it returns if there is not, in the
     order of the checks. It started at `from`, where the stream was cancelled already or not.
     */
    ghost predicate ReadFate(r: ReadResult, len: int, from: int, cancelled: bool, expired: bool)
      reads this, frameQueue
    {
      var failure := Failure(cancelled, expired);
      if failure.Some? then r == Returned(0, failure.value)
      else if from in frameQueue.received then
        && r.Returned? && 0 < r.n && r.err in {NoError, EOF, Cancelled}
        && (r.err == NoError ==> (r.n == len && !RemoteCancellation()) || readPos !in frameQueue.received)
      else r == if from < finalOffset then Blocked else Returned(0, EOF)
    }

    /** The state right after dequeueNextFrame. */
    ghost predicate JustDequeued()
      reads this, frameQueue
    {
      && (if currentFrame.Some? then !Exhausted() else currentFrameDone == None && readPos !in frameQueue.received)
      && (!currentFrameIsLast && currentFrame.None? ==> frameQueue.readPos < finalOffset || cancelledRemotely)
    }

    /**
     What Read promises: the bytes it returns continue those returned before. It blocks only if the
     next byte was not received, and returns fewer bytes than asked for without an error only then.
     It returns EOF only at the final offset.
     */
    ghost predicate ReadOk(r: ReadResult, p: array<byte>, before: seq<byte>, expired: bool)
      reads this, frameQueue, p
    {
      match r
      case Blocked =>
        && consumed == before && readPos !in frameQueue.received && readPos < finalOffset
      case Returned(n, err) =>
        && 0 <= n <= p.Length && consumed == before + p[..n]
        && (err == EOF ==> finalOffset != MaxByteCount && readPos == finalOffset)
        && (err == NoError ==> (n > 0 || p.Length == 0) && (n < p.Length ==> readPos !in frameQueue.received))
        && (err == Cancelled ==> cancelledLocally || RemoteCancellation())
        && (err == Shutdown ==> closeForShutdownErr)
        && (err == DeadlineExceeded ==> expired)
    }

    /** Read, up to the point where it returns or waits */
    method Read(p: array<byte>, expired: bool) returns (r: ReadResult)
      requires Valid()
      modifies p, this`readPosInFrame, this`readPos, this`consumed, this`currentFrame, this`called,
               this`currentFrameDone, this`currentFrameIsLast, frameQueue
      ensures Valid() && frameQueue.received == old(frameQueue.received)
      ensures ReadOk(r, p, old(consumed), expired)
      ensures if old(currentFrameIsLast && currentFrame.None?) then r == Returned(0, EOF)
              else if old(cancelledLocally || RemoteCancellation()) then r == Returned(0, Cancelled)
              else if closeForShutdownErr then r == Returned(0, Shutdown)
              else if p.Length == 0 then r == Returned(0, NoError)
              else ReadFate(r, p.Length, old(readPos), false, expired)
      ensures r == Blocked ==> p.Length > 0 && Exhausted() && !(currentFrameIsLast && currentFrame.None?)
      ensures forall stream :: old(frameQueue.ConsistentWith(stream)) ==> frameQueue.ConsistentWith(stream)
    {
      hide StateOk, Missing, Conserved, Agrees, Prefix, Reading, Releasing, Rest;
      assert p[..0] == [];
      if currentFrameIsLast && currentFrame.None? {
        NoneDelivered(frameQueue.delivered, consumed, readPosInFrame);
        return Returned(0, EOF);
      }
      hide FinalOk;
      if cancelledLocally || RemoteCancellation() {
        return Returned(0, Cancelled);
      }
      if closeForShutdownErr {
        return Returned(0, Shutdown);
      }
      r := ReadLoop(p, expired, false);
    }

    /** Read continues after it was woken up. */
    method ResumeRead(p: array<byte>, expired: bool) returns (r: ReadResult)
      requires Valid() && p.Length > 0 && Exhausted() && !(currentFrameIsLast && currentFrame.None?)
      modifies p, this`readPosInFrame, this`readPos, this`consumed, this`currentFrame, this`called,
               this`currentFrameDone, this`currentFrameIsLast, frameQueue
      ensures Valid() && frameQueue.received == old(frameQueue.received)
      ensures ReadOk(r, p, old(consumed), expired)
      ensures ReadFate(r, p.Length, old(readPos), old(cancelledLocally || RemoteCancellation()), expired)
      ensures r == Blocked ==> Exhausted() && !(currentFrameIsLast && currentFrame.None?)
      ensures forall stream :: old(frameQueue.ConsistentWith(stream)) ==> frameQueue.ConsistentWith(stream)
    {
      hide StateOk, Missing, Conserved, Agrees, Prefix, Reading, Releasing, Rest, FinalOk;
      ExhaustedRest(frameQueue.delivered, consumed, currentFrame, readPosInFrame);
      Dequeue();
      r := ReadLoop(p, expired, true);
    }

    /** streamFlowController.UpdateHighestReceived; `allowed` says that the flow control windows are not exceeded */
    method UpdateHighestReceived(offset: int, final: bool, allowed: bool) returns (r: HandleResult)
      requires 0 <= highestReceived && (allowed ==> offset < MaxByteCount)
      modifies this`highestReceived, this`receivedFinalOffset
      ensures r == FinalSizeError <==> FinalSizeBroken(old(receivedFinalOffset), old(highestReceived), offset, final)
      ensures r in {Handled, FinalSizeError, FlowControlError}
      ensures r == FlowControlError <==>
              WindowExceeded(old(receivedFinalOffset), old(highestReceived), offset, final, allowed)
      ensures r == Handled ==>
              highestReceived == Max(old(highestReceived), offset)
                && receivedFinalOffset == (old(receivedFinalOffset) || final)
      ensures r == Handled ==> highestReceived == old(highestReceived) || highestReceived < MaxByteCount
    {
      if receivedFinalOffset {
        if final && offset != highestReceived {
          return FinalSizeError;
        }
        if offset > highestReceived {
          return FinalSizeError;
        }
      }
      if final {
        receivedFinalOffset := true;
      }
      if offset == highestReceived {
        return Handled;
      }
      if offset < highestReceived {
        return if final then FinalSizeError else Handled;
      }
      highestReceived := offset;
      if !allowed {
        return FlowControlError;
      }
      return Handled;
    }

    /** handleStreamFrameImpl. After an error, the connection is closed. */
    method HandleStreamFrame(data: seq<byte>, offset: int, fin: bool, done: Option<Callback>, allowed: bool)
      returns (r: HandleResult)
      requires Valid() && offset >= 0 && (allowed ==> offset + |data| < MaxByteCount)
      modifies this`highestReceived, this`receivedFinalOffset, this`finalOffset, frameQueue
      ensures r == FinalSizeError <==>
              FinalSizeBroken(old(receivedFinalOffset), old(highestReceived), offset + |data|, fin)
      ensures r == FlowControlError <==>
              WindowExceeded(old(receivedFinalOffset), old(highestReceived), offset + |data|, fin, allowed)
      ensures r.SorterFailed? ==> r.r == TooManyGaps
      ensures r.SorterFailed? <==>
              && r != FinalSizeError && r != FlowControlError
              && !cancelledLocally && OverLimit(old(frameQueue.received), offset, |data|)
      ensures r == Handled ==> Valid()
      ensures r == Handled ==>
              highestReceived == Max(old(highestReceived), offset + |data|)
                && receivedFinalOffset == (old(receivedFinalOffset) || fin)
      ensures r == Handled ==> finalOffset == if fin then offset + |data| else old(finalOffset)
      ensures r == Handled && old(finalOffset) != MaxByteCount ==>
              finalOffset == old(finalOffset) && offset + |data| <= finalOffset
      ensures r == Handled ==>
              frameQueue.received ==
              old(frameQueue.received) + if cancelledLocally then iset{} else Range(offset, offset + |data|)
      ensures r == Handled ==>
              forall stream :: old(frameQueue.ConsistentWith(stream)) && SliceOf(data, offset, stream) ==>
                frameQueue.ConsistentWith(stream)
    {
      hide StateOk, Conserved, Prefix, Reading, Releasing, Missing, OverLimit;
      var maxOffset := offset + |data|;
      r := UpdateHighestReceived(maxOffset, fin, allowed);
      if r != Handled {
        return;
      }
      if fin {
        finalOffset := maxOffset;
      }
      if cancelledLocally {
        return;
      }
      ghost var queue := frameQueue.queue;
      var pushed := frameQueue.Push(data, offset, done);
      if pushed != Accepted {
        return SorterFailed(pushed);
      }
      forall stream: int -> byte | old(frameQueue.ConsistentWith(stream)) && SliceOf(data, offset, stream)
        ensures frameQueue.ConsistentWith(stream)
      {
        ProvenanceAgrees(queue, frameQueue.queue, data, offset, stream);
      }
    }

    /** Only frames cut from `bytes` were received, and the stream was neither cancelled nor shut down. */
    ghost predicate Receives(bytes: seq<byte>)
      reads this, frameQueue
    {
      && Valid() && frameQueue.ConsistentWith(StreamOf(bytes))
      && highestReceived <= |bytes| && (receivedFinalOffset ==> highestReceived == |bytes|)
      && !cancelledLocally && !cancelledRemotely && !closeForShutdownErr
    }

    /** A frame cut from `bytes` arrives. Only the limit on the number of gaps can stop it. */
    method Arrive(data: seq<byte>, offset: int, fin: bool, ghost bytes: seq<byte>) returns (ok: bool)
      requires Receives(bytes) && 0 <= offset && offset + |data| <= |bytes| < MaxByteCount
               && (fin ==> offset + |data| == |bytes|)
      requires SliceOf(data, offset, StreamOf(bytes))
      modifies this`highestReceived, this`receivedFinalOffset, this`finalOffset, frameQueue
      ensures ok <==> !OverLimit(old(frameQueue.received), offset, |data|)
      ensures ok ==> Receives(bytes) && frameQueue.received == old(frameQueue.received) + Range(offset, offset + |data|)
      ensures ok ==> finalOffset == if fin then |bytes| else old(finalOffset)
    {
      hide OverLimit, StateOk, Missing, Conserved, Agrees, Prefix, Reading, Releasing, FinalOk, SliceOf;
      var h := HandleStreamFrame(data, offset, fin, None, true);
      assert h == Handled || h == SorterFailed(TooManyGaps);
      ok := h == Handled;
    }

    /** handleResetStreamFrameImpl */
    method HandleResetStreamFrame(finalSize: int, reliable: int, allowed: bool) returns (r: HandleResult)
      requires Valid() && 0 <= reliable <= finalSize && (allowed ==> finalSize < MaxByteCount)
      modifies this`highestReceived, this`receivedFinalOffset, this`finalOffset, this`reliableSize,
               this`cancelledRemotely
      ensures r in {Handled, FinalSizeError, FlowControlError}
      ensures r == FinalSizeError <==>
              && !closeForShutdownErr
              && FinalSizeBroken(old(receivedFinalOffset), old(highestReceived), finalSize, true)
      ensures r == FlowControlError <==>
              && !closeForShutdownErr
              && WindowExceeded(old(receivedFinalOffset), old(highestReceived), finalSize, true, allowed)
      ensures r == Handled ==> Valid()
      ensures r == Handled && !closeForShutdownErr ==>
              && finalOffset == highestReceived == finalSize && receivedFinalOffset
              && cancelledRemotely == (old(cancelledRemotely) || !cancelledLocally)
              && reliableSize == if old(reliableSize) == 0 && !old(cancelledRemotely) then reliable
                                 else Min(reliable, old(reliableSize))
      ensures r == Handled && old(finalOffset) != MaxByteCount && !closeForShutdownErr ==>
              finalOffset == old(finalOffset)
      ensures closeForShutdownErr ==>
              && finalOffset == old(finalOffset) && highestReceived == old(highestReceived)
              && receivedFinalOffset == old(receivedFinalOffset)
              && reliableSize == old(reliableSize) && cancelledRemotely == old(cancelledRemotely)
    {
      hide StateOk, Missing, Conserved, Reading, Releasing;
      if closeForShutdownErr {
        return Handled;
      }
      r := UpdateHighestReceived(finalSize, true, allowed);
      if r != Handled {
        return;
      }
      finalOffset := finalSize;
      if (!cancelledRemotely && reliableSize == 0) || reliable < reliableSize {
        reliableSize := reliable;
      }
      if cancelledRemotely || cancelledLocally {
        return;
      }
      cancelledRemotely := true;
    }

    /** cancelReadImpl, as far as it changes what Read returns */
    method CancelRead()
      requires Valid()
      modifies this`cancelledLocally
      ensures Valid() && (cancelledLocally <==> old(cancelledLocally) || !closeForShutdownErr)
    {
      hide StateOk, Missing, Conserved, Reading, Releasing, FinalOk;
      if !cancelledLocally && !closeForShutdownErr {
        cancelledLocally := true;
      }
    }

    method CloseForShutdown()
      requires Valid()
      modifies this`closeForShutdownErr
      ensures Valid() && closeForShutdownErr
    {
      hide StateOk, Missing, Conserved, Reading, Releasing, FinalOk;
      closeForShutdownErr := true;
    }

    /** What Read has returned is the beginning of the stream from which all frames were cut. */
    lemma ReadsArePrefix(stream: int -> byte)
      requires Valid() && frameQueue.ConsistentWith(stream)
      ensures consumed == Prefix(stream, readPos)
      ensures SliceOf(Rest(currentFrame, readPosInFrame), readPos, stream)
    {
      hide StateOk, Missing, Conserved, Agrees, Releasing, FinalOk;
      var d := frameQueue.delivered;
      assert forall i :: 0 <= i < |d| ==> d[i] == stream(i);
      assert forall i :: 0 <= i < |consumed| ==> consumed[i] == d[i];
      var rest := Rest(currentFrame, readPosInFrame);
      assert forall i :: 0 <= i < |rest| ==> rest[i] == d[readPos + i];
    }

    /**
     What Peek promises: the bytes are those that Read will return. It returns all of them, or those
     up to the end of the stream, or of the part of a reset stream that is delivered reliably.
     */
    ghost predicate PeekOk(r: ReadResult, b: array<byte>)
      reads this, frameQueue, b
    {
      match r
      case Blocked =>
        && !cancelledLocally && !closeForShutdownErr
        && Lacks(frameQueue.received, readPos, Min(readPos + b.Length, finalOffset))
        && (cancelledRemotely ==> Lacks(frameQueue.received, readPos, Min(readPos + b.Length, reliableSize)))
      case Returned(n, err) =>
        && 0 <= n <= b.Length
        && (err == NoError ==> n == b.Length)
        && (err == EOF ==> finalOffset != MaxByteCount && readPos + n == finalOffset && n < b.Length)
        && (n > 0 && err == Cancelled ==> cancelledRemotely && readPos + n == reliableSize && n < b.Length)
        && (n > 0 ==> err in {NoError, EOF, Cancelled})
    }

    /** Which errors Peek returns without data, and that it checks for them in this order. */
    ghost predicate PeekErrors(r: ReadResult, expired: bool)
      reads this
    {
      if currentFrameIsLast && currentFrame.None? then r == Returned(0, EOF)
      else
        var cancelled := cancelledLocally || RemoteCancellation();
        && (r == Returned(0, Cancelled) <==> cancelled)
        && (r == Returned(0, Shutdown) <==> closeForShutdownErr && !cancelled)
        && (r == Returned(0, DeadlineExceeded) <==> expired && !closeForShutdownErr && !cancelled)
    }

    /** Copies the rest of the current frame, and what follows it up to b[hi], if all of that was received. */
    method PeekTo(b: array<byte>, available: int, hi: int) returns (ok: bool)
      requires Valid() && !Exhausted() && available == |currentFrame.value| - readPosInFrame < b.Length
               && 0 <= hi <= b.Length
      modifies b
      ensures ok ==> ShowsAll(b[..hi])
      ensures !ok ==> available < hi && !Complete(frameQueue, hi - available)
      ensures ok && available < hi ==> Complete(frameQueue, hi - available)
    {
      RestLength(frameQueue.delivered, consumed, currentFrame, readPosInFrame);
      hide StateOk, Missing, Conserved, Reading, Releasing, FinalOk, Agrees, Prefix;
      ok := true;
      if hi > available {
        ok := PeekSorter(frameQueue, b, available, hi);
        if !ok {
          return;
        }
      }
      CopyRest(b, currentFrame.value, readPosInFrame, available, hi);
      hide Rest;
      forall stream: int -> byte | frameQueue.ConsistentWith(stream) ensures Shows(b[..hi], readPos, stream) {
        ReadsArePrefix(stream);
        ShowsJoin(b[..], available, hi, readPos, stream);
      }
    }

    /** The bytes are those of every stream from which all frames can have been cut. */
    ghost predicate ShowsAll(bytes: seq<byte>)
      reads this, frameQueue
    {
      forall stream :: frameQueue.ConsistentWith(stream) ==> Shows(bytes, readPos, stream)
    }

    /** The part of peekImpl that deals with a current frame that was not read completely. */
    method PeekFrame(b: array<byte>) returns (r: Option<ReadResult>)
      requires Valid() && !Exhausted() && !RemoteCancellation() && !cancelledLocally && !closeForShutdownErr
      requires b.Length > 0
      modifies b
      ensures r.Some? ==> PeekOk(r.value, b) && r.value.Returned? && r.value.n > 0 && ShowsAll(b[..r.value.n])
      ensures r.None? ==> !currentFrameIsLast && PeekOk(Blocked, b)
    {
      RestLength(frameQueue.delivered, consumed, currentFrame, readPosInFrame);
      BelowFinal(highestReceived, finalOffset, receivedFinalOffset, currentFrameIsLast, frameQueue);
      hide StateOk, Missing, Conserved, Agrees, Prefix, Releasing, Reading, FinalOk, Complete, ShowsAll, Shows, Rest;
      var available := |currentFrame.value| - readPosInFrame;
      if available >= b.Length {
        PeekInFrame(b);
        return Some(Returned(b.Length, NoError));
      }
      var ok := PeekTo(b, available, b.Length);
      if ok {
        return Some(Returned(b.Length, NoError));
      }
      if currentFrameIsLast {
        ok := PeekTo(b, available, available);
        return Some(Returned(available, EOF));
      }
      LacksSome(frameQueue, readPos, b.Length, available);
      r := PeekPart(b, available);
    }

    /** Shows all bytes up to `end`, if they were received. */
    method PeekUpTo(b: array<byte>, available: int, end: int) returns (ok: bool)
      requires Valid() && !Exhausted() && readPos < end <= MaxByteCount && end <= readPos + b.Length
      requires available == |currentFrame.value| - readPosInFrame < b.Length
      modifies b
      ensures ok ==> ShowsAll(b[..end - readPos]) && end < MaxByteCount
      ensures !ok ==> Lacks(frameQueue.received, readPos, end)
    {
      RestLength(frameQueue.delivered, consumed, currentFrame, readPosInFrame);
      BelowFinal(highestReceived, finalOffset, receivedFinalOffset, currentFrameIsLast, frameQueue);
      hide StateOk, Missing, Conserved, Agrees, Prefix, Releasing, Reading, FinalOk, Complete, Shows, Rest;
      ok := PeekTo(b, available, end - readPos);
      if !ok {
        NotAllQueued(frameQueue, end);
      }
    }

    /** The bytes asked for extend beyond what was received, and maybe beyond the end. */
    method PeekPart(b: array<byte>, available: int) returns (r: Option<ReadResult>)
      requires Valid() && !Exhausted() && !RemoteCancellation() && !cancelledLocally && !closeForShutdownErr
      requires available == |currentFrame.value| - readPosInFrame < b.Length && readPos < finalOffset
      requires Lacks(frameQueue.received, readPos, readPos + b.Length)
      modifies b
      ensures r.Some? ==> PeekOk(r.value, b) && r.value.Returned? && r.value.n > 0 && ShowsAll(b[..r.value.n])
      ensures r.None? ==> PeekOk(Blocked, b)
    {
      hide StateOk, Missing, Conserved, Agrees, Prefix, Releasing, Reading, ShowsAll, Lacks;
      if cancelledRemotely && readPos + b.Length > reliableSize {
        var ok := PeekUpTo(b, available, reliableSize);
        if ok {
          return Some(Returned(reliableSize - readPos, Cancelled));
        }
      }
      if readPos + b.Length > finalOffset {
        var ok := PeekUpTo(b, available, finalOffset);
        if ok {
          return Some(Returned(finalOffset - readPos, EOF));
        }
      }
      return None;
    }

    /**
     Peek, up to the point where it returns or waits. It does not change what Read will return: the
     bytes shown are those of the stream from the read position on.
     */
    method Peek(b: array<byte>, expired: bool, woken: bool) returns (r: ReadResult)
      requires Valid() && (woken ==> !(currentFrameIsLast && currentFrame.None?))
      modifies b, this`readPosInFrame, this`currentFrame, this`called, this`currentFrameDone, this`currentFrameIsLast,
               frameQueue
      ensures Valid() && frameQueue.received == old(frameQueue.received)
      ensures PeekOk(r, b) && (b.Length > 0 ==> PeekErrors(r, expired))
      ensures r == Blocked ==> !(currentFrameIsLast && currentFrame.None?)
      ensures r.Returned? ==> forall stream :: old(frameQueue.ConsistentWith(stream)) ==>
              Shows(b[..r.n], readPos, stream)
      ensures forall stream :: old(frameQueue.ConsistentWith(stream)) ==> frameQueue.ConsistentWith(stream)
    {
      hide StateOk, Missing, Conserved, Agrees, Prefix, Reading, Releasing, Rest, FinalOk;
      if b.Length == 0 {
        return Returned(0, NoError);
      }
      if woken && Exhausted() {
        ExhaustedRest(frameQueue.delivered, consumed, currentFrame, readPosInFrame);
        Dequeue();
      }
      if currentFrameIsLast && currentFrame.None? {
        AtEnd();
        return Returned(0, EOF);
      }
      if cancelledLocally || RemoteCancellation() {
        return Returned(0, Cancelled);
      }
      if closeForShutdownErr {
        return Returned(0, Shutdown);
      }
      if expired {
        return Returned(0, DeadlineExceeded);
      }
      r := PeekNow(b);
    }

    /** The last frame was read. */
    lemma AtEnd()
      requires Valid() && currentFrameIsLast && Exhausted()
      ensures finalOffset != MaxByteCount && readPos == finalOffset
    {
      ExhaustedRest(frameQueue.delivered, consumed, currentFrame, readPosInFrame);
    }

    /** peekImpl, after its checks for errors */
    method PeekNow(b: array<byte>) returns (r: ReadResult)
      requires Valid() && !(currentFrameIsLast && currentFrame.None?) && b.Length > 0
      requires !RemoteCancellation() && !cancelledLocally && !closeForShutdownErr
      modifies b, this`readPosInFrame, this`currentFrame, this`called, this`currentFrameDone, this`currentFrameIsLast,
               frameQueue
      ensures Valid() && frameQueue.received == old(frameQueue.received)
      ensures PeekOk(r, b) && (b.Length > 0 ==> PeekErrors(r, false))
      ensures r == Blocked ==> !(currentFrameIsLast && currentFrame.None?)
      ensures r.Returned? ==> forall stream :: old(frameQueue.ConsistentWith(stream)) ==>
              Shows(b[..r.n], readPos, stream)
      ensures forall stream :: old(frameQueue.ConsistentWith(stream)) ==> frameQueue.ConsistentWith(stream)
    {
      hide StateOk, Missing, Conserved, Agrees, Prefix, Reading, Releasing, Rest, FinalOk;
      if Exhausted() {
        ExhaustedRest(frameQueue.delivered, consumed, currentFrame, readPosInFrame);
        Dequeue();
      }
      if currentFrame.Some? && readPosInFrame < |currentFrame.value| {
        var shown := PeekFrame(b);
        if shown.Some? {
          return shown.value;
        }
      }
      BelowFinal(highestReceived, finalOffset, receivedFinalOffset, currentFrameIsLast, frameQueue);
      ReadBelow(frameQueue.delivered, consumed, currentFrame, readPosInFrame);
      if currentFrameIsLast || readPos >= finalOffset {
        return Returned(0, EOF);
      }
      return Blocked;
    }

    /** All bytes asked for are in the current frame. */
    method PeekInFrame(b: array<byte>)
      requires Valid() && !Exhausted() && |currentFrame.value| - readPosInFrame >= b.Length
      modifies b
      ensures ShowsAll(b[..b.Length])
    {
      RestLength(frameQueue.delivered, consumed, currentFrame, readPosInFrame);
      hide StateOk, Missing, Conserved, Reading, Releasing, FinalOk, Agrees, Prefix;
      var m := Copy(b, 0, currentFrame.value, readPosInFrame);
      assert b[..b.Length] == currentFrame.value[readPosInFrame..][..b.Length];
      forall stream: int -> byte | frameQueue.ConsistentWith(stream) ensures Shows(b[..b.Length], readPos, stream) {
        ReadsArePrefix(stream);
      }
    }
  }

  lemma BelowFinal(highest: int, final: int, finalKnown: bool, last: bool, sorter: FrameSorter)
    requires sorter.Valid() && FinalOk(sorter.received, highest, final, finalKnown, last, sorter.readPos)
    ensures sorter.readPos <= final <= MaxByteCount && sorter.readPos < MaxByteCount
    ensures last ==> final != MaxByteCount && sorter.readPos == final
    ensures !Complete(sorter, MaxByteCount - sorter.readPos)
  {
    sorter.DeliveredReceived(highest);
    assert MaxByteCount - 1 !in sorter.received;
    assert !InEntry(sorter.queue, MaxByteCount - 1);
  }

  lemma RestLength(delivered: seq<byte>, consumed: seq<byte>, frame: Option<seq<byte>>, pos: int)
    requires Reading(delivered, consumed, frame, pos) && frame.Some?
    ensures 0 <= pos <= |frame.value| && Rest(frame, pos) == frame.value[pos..]
    ensures |delivered| == |consumed| + |frame.value| - pos
  {
  }

  lemma ShowsJoin(bytes: seq<byte>, k: int, hi: int, pos: int, stream: int -> byte)
    requires 0 <= k <= |bytes| && 0 <= hi <= |bytes| && SliceOf(bytes[..k], pos, stream)
    requires hi > k ==> Shows(bytes[k..hi], pos + k, stream)
    ensures Shows(bytes[..hi], pos, stream)
  {
    forall i | 0 <= i < hi ensures bytes[..hi][i] == stream(pos + i) {
      if i < k {
        assert bytes[i] == bytes[..k][i];
      } else {
        assert bytes[i] == bytes[k..hi][i - k];
      }
    }
  }

  /** copy(b[:available], frame[pos:]) */
  method CopyRest(b: array<byte>, frame: seq<byte>, pos: int, available: int, ghost hi: int)
    requires 0 <= pos <= |frame| && available == |frame| - pos < b.Length && 0 <= hi <= b.Length
    modifies b
    ensures b[..][..available] == frame[pos..]
    ensures hi > available ==> b[..][available..hi] == old(b[available..hi])
  {
    var m := Copy(b, 0, frame, pos);
    assert frame[pos..pos + m] == frame[pos..];
  }

  /** The bytes are those of the stream from pos on. */
  ghost predicate Shows(bytes: seq<byte>, pos: int, stream: int -> byte) {
    forall k :: 0 <= k < |bytes| ==> bytes[k] == stream(pos + k)
  }

  /** Not all bytes from lo to hi were received. */
  ghost predicate Lacks(received: iset<int>, lo: int, hi: int) {
    exists x :: lo <= x < hi && x !in received
  }

  /** If not all bytes up to hi are queued without a gap, one of them was not received. */
  lemma NotAllQueued(sorter: FrameSorter, hi: int)
    requires sorter.Valid() && sorter.readPos < hi <= MaxByteCount && !Complete(sorter, hi - sorter.readPos)
    ensures Lacks(sorter.received, sorter.readPos, hi)
  {
    NothingToPop(sorter.queue, sorter.gaps, sorter.readPos);
    if sorter.readPos !in sorter.queue {
      assert sorter.readPos !in sorter.received;
    } else {
      var x :| sorter.readPos <= x < hi && !InEntry(sorter.queue, x);
      assert x !in sorter.received;
    }
  }

  /** If what follows the current frame is not complete, one of the bytes asked for was not received. */
  lemma LacksSome(sorter: FrameSorter, pos: int, n: int, available: int)
    requires sorter.Valid() && pos + available == sorter.readPos && 0 <= available < n
    requires sorter.readPos < MaxByteCount
    requires !Complete(sorter, n - available) && !Complete(sorter, MaxByteCount - sorter.readPos)
    ensures Lacks(sorter.received, pos, pos + n)
  {
    if pos + n <= MaxByteCount {
      NotAllQueued(sorter, pos + n);
    } else {
      NotAllQueued(sorter, MaxByteCount);
    }
  }

  /** Peeks from the sorter's read position on. */
  method PeekSorter(sorter: FrameSorter, b: array<byte>, lo: int, hi: int) returns (ok: bool)
    requires sorter.Valid() && 0 <= lo <= hi <= b.Length
    modifies b
    ensures b[..lo] == old(b[..lo])
    ensures ok ==> forall stream :: sorter.ConsistentWith(stream) ==> Shows(b[lo..hi], sorter.readPos, stream)
    ensures !ok ==> lo < hi && !Complete(sorter, hi - lo)
    ensures ok && lo < hi ==> Complete(sorter, hi - lo)
  {
    ok := sorter.Peek(sorter.readPos, b, lo, hi);
    if ok {
      forall stream: int -> byte | sorter.ConsistentWith(stream) ensures Shows(b[lo..hi], sorter.readPos, stream) {
        forall k | 0 <= k < hi - lo ensures b[lo..hi][k] == stream(sorter.readPos + k) {
          ByteAtStream(sorter.queue, sorter.readPos + k, stream);
        }
      }
    }
  }

  /** The next n bytes are queued. */
  ghost predicate Complete(sorter: FrameSorter, n: int)
    reads sorter
  {
    sorter.readPos in sorter.queue && forall x :: sorter.readPos <= x < sorter.readPos + n ==> InEntry(sorter.queue, x)
  }

  lemma ReadBelow(delivered: seq<byte>, consumed: seq<byte>, frame: Option<seq<byte>>, pos: int)
    requires Reading(delivered, consumed, frame, pos)
    ensures |consumed| <= |delivered| && (frame.None? ==> |consumed| == |delivered|)
  {
  }

  lemma NoneDelivered(delivered: seq<byte>, consumed: seq<byte>, pos: int)
    requires Reading(delivered, consumed, None, pos)
    ensures delivered == consumed
  {
  }

  lemma EndFrame(delivered: seq<byte>, consumed: seq<byte>, handed: multiset<Callback>, called: multiset<Callback>,
                 frame: Option<seq<byte>>, pos: int, done: Option<Callback>)
    requires Reading(delivered, consumed, frame, pos) && (frame.None? || pos >= |frame.value|)
    requires Releasing(handed, called, frame, true, done) && (frame.None? ==> done == None)
    ensures Reading(delivered, consumed, None, pos) && delivered == consumed
    ensures Releasing(handed, called + CbBag(done), None, true, done)
  {
  }

  lemma ExhaustedRest(delivered: seq<byte>, consumed: seq<byte>, frame: Option<seq<byte>>, pos: int)
    requires Reading(delivered, consumed, frame, pos)
    ensures (frame.None? || pos >= |frame.value|) <==> Rest(frame, pos) == []
    ensures Rest(frame, pos) == [] ==> delivered == consumed
  {
  }

  lemma PosOk(delivered: seq<byte>, consumed: seq<byte>, frame: Option<seq<byte>>, pos: int, m: int)
    requires Reading(delivered, consumed, frame, pos) && frame.Some? && 0 <= m <= |Rest(frame, pos)|
    ensures 0 <= pos <= |frame.value| && |Rest(frame, pos)| == |frame.value| - pos
    ensures Rest(frame, pos)[..m] == frame.value[pos..pos + m]
  {
  }

  lemma NoRest(pos: int)
    ensures Rest(None, pos) == []
  {
  }

  /** copy(p[at:], data[from:]) */
  method Copy(p: array<byte>, at: int, data: seq<byte>, from: int) returns (m: int)
    requires 0 <= at <= p.Length && 0 <= from <= |data|
    modifies p
    ensures m == Min(p.Length - at, |data| - from)
    ensures p[at..at + m] == data[from..from + m]
    ensures p[..at] == old(p[..at]) && p[at + m..] == old(p[at + m..])
  {
    m := Min(p.Length - at, |data| - from);
    for i := at to at + m
      invariant forall j :: at <= j < i ==> p[j] == data[from + j - at]
      invariant forall j :: 0 <= j < at || i <= j < p.Length ==> p[j] == old(p[j])
    {
      p[i] := data[from + i - at];
    }
  }
}
