/**
 The sending half of a stream. A method is what happens under one hold of the mutex: Write blocks by
 returning Blocked, and continues with ResumeWrite. Deadlines and the send window are parameters.
 Frames in flight belong to the acknowledgment handler; their list is history, and an acknowledgment
 or loss names a frame by its position in it.
 */
module SendStream {
  import opened Common
  import opened StreamFrames
  import opened SendModel

  /** See the last fields of State. */
  datatype History = History(
    stream: seq<byte>, acked: seq<Frame>, inflight: seq<Frame>, resets: seq<ResetFrame>, reports: int)

  lemma LeaveShutdown(st: State)
    ensures Leave(st).shutdown == st.shutdown
  {
  }

  lemma BoundaryCases(st: State)
    requires Inv(st)
    ensures var st' := SendModel.SetReliableBoundary(st);
            && (!st.reset || !st.supportsResetStreamAt || st'.reliableSize == st.reliableSize ==> Inv(st'))
            && (st.reset && st.supportsResetStreamAt && !st.shutdown && st'.reliableSize != st.reliableSize ==>
                  (Counted(st') <==>
                     st.resets == [] && st.queuedReset.None? && (st.reliableSize == 0 ==> st.inflight == [])))
  {
    hide Inv, Counted;
    var st' := SendModel.SetReliableBoundary(st);
    if !st.reset || !st.supportsResetStreamAt {
      BoundaryInv(st);
    } else if st'.reliableSize == st.reliableSize {
      assert st' == st;
    } else if !st.shutdown {
      BoundaryAfterResetExact(st);
    }
  }

  lemma EnableCases(st: State)
    requires Inv(st)
    ensures var st' := SendModel.EnableResetStreamAt(st);
            && (!st.reset || st.supportsResetStreamAt || st.reliableSize == 0 ==> Inv(st'))
            && (st.reset && !st.supportsResetStreamAt && !st.shutdown && st.reliableSize != 0 ==>
                  (Counted(st') <==> st.resets == [] && st.queuedReset.None? && st.inflight == []))
  {
    hide Inv, Counted;
    if !st.reset || st.supportsResetStreamAt || st.reliableSize == 0 {
      EnableInv(st);
    } else if !st.shutdown {
      EnableAfterResetExact(st);
    }
  }

  class SendStream {
    const id: int
    var numOutstandingFrames: int
    var retransmissionQueue: seq<Frame>
    var reliableSize: int
    var writeOffset: int
    var shutdownErr: bool
    var resetErr: bool
    var queuedResetStreamFrame: Option<ResetFrame>
    var supportsResetStreamAt: bool
    var finishedWriting: bool
    var finSent: bool
    var cancellationFlagged: bool
    var completed: bool
    var dataForWriting: seq<byte>
    var nextFrame: Option<Frame>
    var pending: Option<int>

    ghost var h: History

    ghost function St(): State
      reads this
    {
      State(numOutstandingFrames, retransmissionQueue, reliableSize, writeOffset, shutdownErr, resetErr,
            queuedResetStreamFrame, supportsResetStreamAt, finishedWriting, finSent, cancellationFlagged, completed,
            dataForWriting, nextFrame, pending, h.stream, h.acked, h.inflight, h.resets, h.reports)
    }

    ghost predicate Valid()
      reads this
    {
      Inv(St())
    }

    constructor (id: int, supportsResetStreamAt: bool)
      ensures Valid() && St() == Init(supportsResetStreamAt) && this.id == id
    {
      this.id := id;
      numOutstandingFrames, retransmissionQueue, reliableSize, writeOffset := 0, [], 0, 0;
      shutdownErr, resetErr, queuedResetStreamFrame := false, false, None;
      this.supportsResetStreamAt := supportsResetStreamAt;
      finishedWriting, finSent, cancellationFlagged, completed := false, false, false, false;
      dataForWriting, nextFrame, pending := [], None, None;
      h := History([], [], [], [], 0);
      new;
      InitInv(supportsResetStreamAt);
      hide Inv;
    }

    /** Whether the stream is completed now and was not before. */
    method IsNewlyCompleted() returns (newly: bool)
      requires Valid()
      modifies this`completed, this`h
      ensures newly <==> NewlyCompleted(old(St()))
      ensures newly <==> h.reports == old(h.reports) + 1
      ensures St() == Complete(old(St())) && Valid()
    {
      hide Inv;
      CompleteInv(St());
      if completed {
        return false;
      }
      if nextFrame.Some? && |nextFrame.value.data| > 0 {
        return false;
      }
      if numOutstandingFrames > 0 || |retransmissionQueue| > 0 || queuedResetStreamFrame.Some? {
        return false;
      }
      if finSent {
        MarkCompleted();
        return true;
      }
      if resetErr && (cancellationFlagged || finishedWriting) {
        MarkCompleted();
        return true;
      }
      return false;
    }

    method MarkCompleted()
      modifies this`completed, this`h
      ensures St() == old(St()).(completed := true, reports := old(h.reports) + 1)
    {
      completed, h := true, h.(reports := h.reports + 1);
    }

    /** Write, up to the point where it returns or waits. */
    method Write(p: seq<byte>, expired: bool) returns (r: WriteResult)
      requires Valid() && pending.None?
      modifies this
      ensures Valid()
      ensures WriteStep(St(), r) == WriteNow(old(St()), p, expired)
    {
      hide Inv, Complete, Iterate;
      WriteNowInv(St(), p, expired);
      if resetErr {
        r := ReturnReset(0);
        return;
      }
      if shutdownErr {
        return Returned(0, StreamShutdown, false);
      }
      if finishedWriting {
        return Returned(0, StreamClosed, false);
      }
      if expired {
        return Returned(0, DeadlineExceeded, false);
      }
      if |p| == 0 {
        return Returned(0, NoError, false);
      }
      BeginWriteInv(St(), p);
      dataForWriting, h, pending := p, h.(stream := h.stream + p), Some(|p|);
      r := ResumeWrite(expired);
    }

    method BufferRest()
      modifies this`nextFrame, this`dataForWriting, this`pending
      ensures St() == Leave(BufferData(old(St())))
    {
      if nextFrame.None? {
        nextFrame := Some(Frame(writeOffset, dataForWriting, false));
      } else {
        nextFrame := Some(nextFrame.value.(data := nextFrame.value.data + dataForWriting));
      }
      dataForWriting, pending := [], None;
    }

    method DropRest()
      modifies this`dataForWriting, this`pending, this`h
      ensures St() == Leave(DropData(old(St())))
    {
      if !resetErr && !shutdownErr {
        h := h.(stream := h.stream[..Max(0, |h.stream| - |dataForWriting|)]);
      }
      dataForWriting, pending := [], None;
    }

    method ReturnReset(n: int) returns (r: WriteResult)
      requires Valid()
      modifies this
      ensures St() == Complete(FlagReset(old(St()))) && Valid()
      ensures r == Returned(n, StreamReset, NewlyCompleted(FlagReset(old(St()))))
    {
      hide Inv;
      FlagInv(St());
      cancellationFlagged := true;
      var newly := IsNewlyCompleted();
      return Returned(n, StreamReset, newly);
    }

    /** Write continues after it was woken up. */
    method ResumeWrite(expired: bool) returns (r: WriteResult)
      requires Valid() && pending.Some?
      modifies this
      ensures Valid()
      ensures WriteStep(St(), r) == Iterate(old(St()), expired)
    {
      hide Inv, BufferData, DropData, Complete, NewlyCompleted, Leave, FlagReset;
      ghost var st := St();
      LeaveShutdown(st);
      IterateInv(st, expired);
      var len := pending.value;
      var l := if nextFrame.Some? then |nextFrame.value.data| else 0;
      if l + |dataForWriting| <= MaxPacketBufferSize && |dataForWriting| > 0 {
        BufferRest();
        return Returned(len, NoError, false);
      }
      var bytesWritten := len - |dataForWriting|;
      if expired {
        DropRest();
        return Returned(bytesWritten, DeadlineExceeded, false);
      }
      if !(dataForWriting == [] || shutdownErr || resetErr) {
        return Blocked;
      }
      LeaveInv(st);
      r := FinishWrite(bytesWritten, len);
    }

    /** What Write does after its loop. */
    method FinishWrite(bytesWritten: int, len: int) returns (r: WriteResult)
      requires Inv(Leave(St()))
      modifies this
      ensures var st := Leave(old(St()));
              if bytesWritten == len then r == Returned(bytesWritten, NoError, false) && St() == st
              else if st.shutdown then r == Returned(bytesWritten, StreamShutdown, false) && St() == st
              else
                && r == Returned(bytesWritten, StreamReset, NewlyCompleted(FlagReset(st)))
                && St() == Complete(FlagReset(st))
    {
      hide Inv, Complete;
      pending := None;
      if bytesWritten == len {
        return Returned(bytesWritten, NoError, false);
      }
      if shutdownErr {
        return Returned(bytesWritten, StreamShutdown, false);
      }
      r := ReturnReset(bytesWritten);
    }

    /** popStreamFrame: the next STREAM frame that fits into maxBytes, if any, and whether there may be more. */
    method PopStreamFrame(maxBytes: int, window: int) returns (f: Option<Frame>, hasMore: bool)
      requires Valid() && maxBytes <= MaxPacketBufferSize
      modifies this
      ensures Valid()
      ensures PopResult(St(), f, hasMore) == Pop(old(St()), id, maxBytes, window)
    {
      hide Inv, PopRetx, PopNew;
      PopInv(St(), id, maxBytes, window);
      if shutdownErr {
        return None, false;
      }
      var reliableOffset := if supportsResetStreamAt then reliableSize else 0;
      if resetErr && (reliableOffset == 0 || (writeOffset >= reliableOffset && |retransmissionQueue| == 0)) {
        return None, false;
      }
      if |retransmissionQueue| > 0 {
        f, hasMore := PopRetransmission(maxBytes);
      } else {
        f, hasMore := PopNewFrame(maxBytes, window, reliableOffset);
      }
    }

    /** maybeGetRetransmission, with MaybeSplitOffFrame */
    method PopRetransmission(maxBytes: int) returns (f: Option<Frame>, hasMore: bool)
      requires Valid() && retransmissionQueue != [] && !Ignores(St())
      modifies this
      ensures PopResult(St(), f, hasMore) == PopRetx(old(St()), id, maxBytes)
    {
      hide Inv, Resend, ResendPart;
      PopRetxInv(St(), id, maxBytes);
      var head := retransmissionQueue[0];
      if maxBytes >= Length(id, head) {
        SendFirst();
        return Some(head), true;
      }
      var n := MaxDataLen(id, head.offset, maxBytes);
      if n == 0 {
        return None, true;
      }
      SendPart(n);
      return Some(Frame(head.offset, head.data[..n], false)), true;
    }

    /** Sends the first lost frame again. */
    method SendFirst()
      requires retransmissionQueue != []
      modifies this`retransmissionQueue, this`h, this`numOutstandingFrames
      ensures St() == Resend(old(St()))
    {
      hide Tracking;
      var head := retransmissionQueue[0];
      retransmissionQueue := retransmissionQueue[1..];
      Track(head);
    }

    /** Splits the first lost frame, and sends its first n bytes again. */
    method SendPart(n: int)
      requires retransmissionQueue != [] && 0 < n < |retransmissionQueue[0].data|
      modifies this`retransmissionQueue, this`h, this`numOutstandingFrames
      ensures St() == ResendPart(old(St()), n)
    {
      hide Tracking;
      var head := retransmissionQueue[0];
      retransmissionQueue := [Frame(head.offset + n, head.data[n..], head.fin)] + retransmissionQueue[1..];
      Track(Frame(head.offset, head.data[..n], false));
    }

    /** A frame is sent. */
    method Track(f: Frame)
      modifies this`h, this`numOutstandingFrames
      ensures St() == Tracking(old(St()), f)
    {
      numOutstandingFrames := numOutstandingFrames + 1;
      h := h.(inflight := h.inflight + [f]);
    }

    /** Accounts for a new frame that carries `data` and leaves nextFrame' and rest to be sent. */
    method EmitFrame(data: seq<byte>, nextFrame': Option<Frame>, rest: seq<byte>) returns (f: Frame)
      modifies this`writeOffset, this`nextFrame, this`dataForWriting, this`finSent, this`h, this`numOutstandingFrames
      ensures St() == Emit(old(St()), data, nextFrame', rest)
      ensures LastSent(St()) == Some(f) && f.offset == old(writeOffset) && f.data == data
      ensures f.fin <==> old(finishedWriting && !finSent) && nextFrame'.None? && rest == []
    {
      f := TakeFrame(data, nextFrame', rest);
      Track(f);
    }

    method TakeFrame(data: seq<byte>, nextFrame': Option<Frame>, rest: seq<byte>) returns (f: Frame)
      modifies this`writeOffset, this`nextFrame, this`dataForWriting, this`finSent
      ensures St() == Advance(old(St()), |data|, f.fin, nextFrame', rest)
      ensures f.offset == old(writeOffset) && f.data == data
      ensures f.fin <==> old(finishedWriting && !finSent) && nextFrame'.None? && rest == []
    {
      nextFrame, dataForWriting := nextFrame', rest;
      f := Frame(writeOffset, data, finishedWriting && dataForWriting == [] && nextFrame.None? && !finSent);
      writeOffset := writeOffset + |data|;
      if f.fin {
        finSent := true;
      }
    }

    /** popNewStreamFrame and getDataForWriting, for at most n > 0 bytes */
    method EmitUpTo(n: int) returns (f: Frame)
      requires 0 < n && (nextFrame.Some? || dataForWriting != [])
      modifies this`writeOffset, this`nextFrame, this`dataForWriting, this`finSent, this`h, this`numOutstandingFrames
      ensures St() == if old(nextFrame.Some?) then EmitBuffered(old(St()), n) else EmitDirect(old(St()), n)
      ensures LastSent(St()) == Some(f)
    {
      hide Emit;
      if nextFrame.Some? {
        var data := nextFrame.value.data;
        if |data| > n {
          f := EmitFrame(data[..n], Some(Frame(writeOffset + n, data[n..], false)), dataForWriting);
        } else {
          assert data[..|data|] == data;
          f := EmitFrame(data, None, dataForWriting);
        }
      } else if |dataForWriting| <= n {
        assert dataForWriting[..|dataForWriting|] == dataForWriting && dataForWriting[|dataForWriting|..] == [];
        f := EmitFrame(dataForWriting, None, []);
      } else {
        f := EmitFrame(dataForWriting[..n], None, dataForWriting[n..]);
      }
    }

    /** The part of popNewOrRetransmittedStreamFrame that deals with new data. */
    method PopNewFrame(maxBytes: int, window: int, reliableOffset: int) returns (f: Option<Frame>, hasMore: bool)
      requires reliableOffset == ReliableOffset(St())
      modifies this
      ensures PopResult(St(), f, hasMore) == PopNew(old(St()), id, maxBytes, window)
    {
      hide Emit, EmitBuffered, EmitDirect;
      if |dataForWriting| == 0 && nextFrame.None? {
        if finishedWriting && !finSent {
          var fin := EmitFrame([], None, []);
          return Some(fin), false;
        }
        return None, false;
      }
      if window <= 0 {
        return None, true;
      }
      var maxDataLen := window;
      if resetErr && reliableOffset > 0 {
        maxDataLen := Min(maxDataLen, reliableOffset - writeOffset);
      }
      var n := Min(maxDataLen, MaxDataLen(id, writeOffset, maxBytes));
      if n <= 0 {
        return None, true;
      }
      var buffered := nextFrame.Some?;
      var frame := EmitUpTo(n);
      hasMore := nextFrame.Some? || dataForWriting != [] || (!buffered && finishedWriting);
      if resetErr && writeOffset >= reliableOffset {
        hasMore := false;
      }
      return Some(frame), hasMore;
    }

    /** sendStreamAckHandler.OnAcked: the i-th frame in flight was acknowledged. */
    method OnAcked(ghost i: int) returns (newly: bool)
      requires Valid() && 0 <= i < |h.inflight|
      modifies this
      ensures Valid() && St() == SendModel.OnAcked(old(St()), i)
      ensures newly <==> h.reports == old(h.reports) + 1
    {
      hide Inv, Complete;
      ghost var st := St();
      OnAckedInv(st, i);
      LandInv(st, i);
      h := h.(acked := h.acked + [h.inflight[i]], inflight := Without(h.inflight, i));
      if resetErr && GetReliableOffset() == 0 {
        return false;
      }
      numOutstandingFrames := numOutstandingFrames - 1;
      assert numOutstandingFrames >= 0; // no panic
      assert St() == Land(st, i);
      newly := IsNewlyCompleted();
    }

    /** sendStreamAckHandler.OnLost: the i-th frame in flight, f, was declared lost. */
    method OnLost(f: Frame, ghost i: int) returns (newly: bool)
      requires Valid() && 0 <= i < |h.inflight| && f == h.inflight[i]
      modifies this
      ensures Valid() && St() == SendModel.OnLost(old(St()), i)
      ensures newly <==> h.reports == old(h.reports) + 1
    {
      hide Inv, Complete, Requeue, Lose;
      OnLostInv(St(), i);
      LoseInv(St(), i);
      var reliableOffset := GetReliableOffset();
      QueueAgain(f, i);
      if !resetErr || reliableOffset == 0 {
        return false;
      }
      if f.offset >= reliableOffset {
        newly := IsNewlyCompleted();
      } else {
        newly := false;
      }
    }

    /** A lost frame is counted out, and the part of it that has to be delivered is queued. */
    method QueueAgain(f: Frame, ghost i: int)
      requires 0 <= i < |h.inflight| && f == h.inflight[i]
      requires !Ignores(St()) ==> numOutstandingFrames > 0
      modifies this`h, this`numOutstandingFrames, this`retransmissionQueue
      ensures St() == Lose(old(St()), i) && h.reports == old(h.reports)
    {
      h := h.(inflight := Without(h.inflight, i));
      var reliableOffset := GetReliableOffset();
      if resetErr && reliableOffset == 0 {
        return;
      }
      numOutstandingFrames := numOutstandingFrames - 1;
      assert numOutstandingFrames >= 0; // no panic
      if resetErr {
        if f.offset >= reliableOffset {
          return;
        }
        if End(f) > reliableOffset {
          retransmissionQueue := retransmissionQueue + [f.(data := f.data[..reliableOffset - f.offset])];
          return;
        }
      }
      retransmissionQueue := retransmissionQueue + [f];
    }

    /** reliableOffset */
    function GetReliableOffset(): int
      reads this
    {
      if supportsResetStreamAt then reliableSize else 0
    }

    /** Close must not be called while Write is running. */
    method Close() returns (newly: bool)
      requires Valid() && pending.None?
      modifies this
      ensures Valid() && St() == SendModel.Close(old(St()))
      ensures newly <==> h.reports == old(h.reports) + 1
    {
      hide Inv;
      CloseInv(St());
      ClosingInv(St());
      if shutdownErr || finishedWriting {
        return false;
      }
      finishedWriting := true;
      if resetErr {
        cancellationFlagged := true;
      }
      newly := IsNewlyCompleted();
    }

    /**
     SetReliableBoundary. After a reset, the count of outstanding frames survives a move of the boundary
     exactly if nothing was counted under the old one.
     */
    method SetReliableBoundary()
      requires Valid()
      modifies this`reliableSize
      ensures St() == SendModel.SetReliableBoundary(old(St()))
      ensures !resetErr || !supportsResetStreamAt || reliableSize == old(reliableSize) ==> Valid()
      ensures resetErr && supportsResetStreamAt && !shutdownErr && reliableSize != old(reliableSize) ==>
                (Counted(St()) <==>
                   && old(St()).resets == [] && old(St()).queuedReset.None?
                   && (old(reliableSize) == 0 ==> old(St()).inflight == []))
    {
      hide Inv, Counted, SendModel.SetReliableBoundary;
      BoundaryCases(St());
      MoveBoundary();
    }

    method MoveBoundary()
      modifies this`reliableSize
      ensures St() == SendModel.SetReliableBoundary(old(St()))
    {
      reliableSize := writeOffset;
      if nextFrame.Some? {
        reliableSize := reliableSize + |nextFrame.value.data|;
      }
    }

    /** enableResetStreamAt. After a reset, it makes a boundary count that was ignored until then. */
    method EnableResetStreamAt()
      requires Valid()
      modifies this`supportsResetStreamAt
      ensures St() == SendModel.EnableResetStreamAt(old(St()))
      ensures !resetErr || old(supportsResetStreamAt) || reliableSize == 0 ==> Valid()
      ensures resetErr && !old(supportsResetStreamAt) && !shutdownErr && reliableSize != 0 ==>
                (Counted(St()) <==> old(St()).resets == [] && old(St()).queuedReset.None? && old(St()).inflight == [])
    {
      EnableCases(St());
      hide Inv, Counted;
      supportsResetStreamAt := true;
    }

    /** returnFramesToPool */
    method DropFrames()
      modifies this`retransmissionQueue, this`nextFrame
      ensures retransmissionQueue == [] && nextFrame == None
    {
      retransmissionQueue, nextFrame := [], None;
    }

    /** CancelWrite */
    method CancelWrite() returns (newly: bool)
      requires Valid()
      modifies this
      ensures Valid() && St() == SendModel.CancelWrite(old(St()))
      ensures newly <==> h.reports == old(h.reports) + 1
    {
      hide Inv, Complete, Reset;
      CancelWriteInv(St());
      FlagInv(St());
      if shutdownErr {
        return false;
      }
      if resetErr {
        cancellationFlagged := true;
        newly := IsNewlyCompleted();
        return;
      }
      ResetNow();
      return false;
    }

    /** What CancelWrite does to a stream that was not reset before. */
    method ResetNow()
      modifies this
      ensures St() == Reset(old(St())) && h == old(h)
    {
      hide TrimNext, TrimAll;
      var reliableOffset := GetReliableOffset();
      FlagAndQueue(reliableOffset);
      if reliableOffset == 0 {
        ForgetAll();
      } else {
        TrimFrames(reliableOffset);
      }
    }

    method FlagAndQueue(reliableOffset: int)
      modifies this`cancellationFlagged, this`resetErr, this`queuedResetStreamFrame
      ensures St() == old(St()).(reset := true, cancellationFlagged := true,
                                 queuedReset := Some(ResetFrame(Max(writeOffset, reliableOffset), reliableOffset)))
    {
      cancellationFlagged, resetErr := true, true;
      queuedResetStreamFrame := Some(ResetFrame(Max(writeOffset, reliableOffset), reliableOffset));
    }

    method ForgetAll()
      modifies this`numOutstandingFrames, this`retransmissionQueue, this`nextFrame
      ensures St() == old(St()).(numOutstanding := 0, retx := [], nextFrame := None)
    {
      numOutstandingFrames := 0;
      DropFrames();
    }

    /** Forgets what lies beyond the reliable offset. */
    method TrimFrames(reliableOffset: int)
      modifies this`retransmissionQueue, this`nextFrame
      ensures nextFrame == TrimNext(old(nextFrame), reliableOffset)
      ensures retransmissionQueue == TrimAll(old(retransmissionQueue), reliableOffset)
    {
      if nextFrame.Some? {
        var f := nextFrame.value;
        if f.offset >= reliableOffset {
          nextFrame := None;
        } else if End(f) > reliableOffset {
          nextFrame := Some(f.(data := f.data[..reliableOffset - f.offset]));
        }
      }
      retransmissionQueue := TrimQueue(retransmissionQueue, reliableOffset);
    }

    static method TrimQueue(frames: seq<Frame>, reliableOffset: int) returns (queue: seq<Frame>)
      ensures queue == TrimAll(frames, reliableOffset)
    {
      hide TrimAll;
      NoneTrimmed(reliableOffset);
      queue := [];
      assert frames[0..] == frames;
      for k := 0 to |frames|
        invariant TrimAll(frames, reliableOffset) == queue + TrimAll(frames[k..], reliableOffset)
      {
        var f := frames[k];
        TrimAllStep(frames, k, reliableOffset);
        if f.offset >= reliableOffset {
          continue;
        }
        if End(f) <= reliableOffset {
          queue := queue + [f];
        } else {
          queue := queue + [f.(data := f.data[..reliableOffset - f.offset])];
        }
      }
      assert frames[|frames|..] == [];
    }

    /** handleStopSendingFrame */
    method HandleStopSending()
      requires Valid()
      modifies this
      ensures Valid() && St() == StopSending(old(St()))
    {
      hide Inv;
      ghost var st := St();
      StopSendingInv(st);
      if shutdownErr {
        return;
      }
      if resetErr && GetReliableOffset() == 0 {
        return;
      }
      StopNow();
    }

    method StopNow()
      modifies this
      ensures St() == old(St()).(reliableSize := 0, numOutstanding := 0, retx := [], nextFrame := None, reset := true,
                                 queuedReset := Some(ResetFrame(old(writeOffset), 0)))
    {
      reliableSize := 0;
      ForgetAll();
      resetErr := true;
      queuedResetStreamFrame := Some(ResetFrame(writeOffset, 0));
    }

    /** getControlFrame */
    method GetControlFrame() returns (f: Option<ResetFrame>)
      requires Valid()
      modifies this
      ensures Valid() && f == old(queuedResetStreamFrame)
      ensures St() == if f.None? then old(St()) else SendReset(old(St()))
    {
      hide Inv;
      if queuedResetStreamFrame.None? {
        return None;
      }
      SendResetInv(St());
      numOutstandingFrames := numOutstandingFrames + 1;
      f := queuedResetStreamFrame;
      h := h.(resets := h.resets + [f.value]);
      queuedResetStreamFrame := None;
    }

    /** closeForShutdown */
    method CloseForShutdown()
      requires Valid()
      modifies this
      ensures Valid() && St() == Shutdown(old(St()))
    {
      hide Inv;
      ShutdownInv(St());
      if !shutdownErr && !finishedWriting {
        shutdownErr := true;
        DropFrames();
      }
    }

    /** The j-th RESET_STREAM frame in flight, f, is no longer in flight. It may not have been tracked any more. */
    method ForgetReset(f: ResetFrame, ghost j: int) returns (tracked: bool)
      requires 0 <= j < |h.resets| && f == h.resets[j]
      modifies this`h, this`numOutstandingFrames
      ensures St() == WithoutReset(old(St()), j)
      ensures tracked <==> f.reliableSize == ReliableOffset(old(St()))
    {
      h := h.(resets := h.resets[..j] + h.resets[j + 1..]);
      tracked := f.reliableSize == GetReliableOffset();
      if tracked {
        numOutstandingFrames := numOutstandingFrames - 1;
      }
    }

    /** sendStreamResetStreamHandler.OnAcked */
    method OnResetAcked(f: ResetFrame, ghost j: int) returns (newly: bool)
      requires Valid() && 0 <= j < |h.resets| && f == h.resets[j]
      modifies this
      ensures Valid() && St() == SendModel.OnResetAcked(old(St()), j)
      ensures newly <==> h.reports == old(h.reports) + 1
    {
      hide Inv, Complete;
      ghost var st := St();
      OnResetAckedInv(st, j);
      WithoutResetInv(st, j);
      var tracked := ForgetReset(f, j);
      if !tracked {
        return false;
      }
      assert numOutstandingFrames >= 0; // no panic
      newly := IsNewlyCompleted();
    }

    /** sendStreamResetStreamHandler.OnLost */
    method OnResetLost(f: ResetFrame, ghost j: int)
      requires Valid() && 0 <= j < |h.resets| && f == h.resets[j]
      modifies this
      ensures Valid() && St() == SendModel.OnResetLost(old(St()), j)
    {
      hide Inv, WithoutReset;
      OnResetLostInv(St(), j);
      var tracked := ForgetReset(f, j);
      if tracked {
        queuedResetStreamFrame := Some(f);
      }
    }
  }
}
