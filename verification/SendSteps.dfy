/** What each call on the sending half of a stream does to the stream, to its frames and to what is buffered. */
module SendSteps {
  import opened Common
  import opened StreamFrames
  import opened SendModel
  import opened SendRuns
  import opened SendProgress

  /** No frame was sent, acknowledged, lost or forgotten. */
  ghost predicate SameFrames(st: State, st': State) {
    && st'.inflight == st.inflight && st'.acked == st.acked && st'.retx == st.retx
    && st'.writeOffset == st.writeOffset && st'.finSent == st.finSent
  }

  ghost predicate SameResets(st: State, st': State) {
    st'.resets == st.resets && st'.queuedReset == st.queuedReset && st'.numOutstanding == st.numOutstanding
  }

  /** Neither closed, reset nor shut down. */
  predicate Open(st: State) { !st.reset && !st.shutdown && !st.finishedWriting }

  // ----------------------------------------------------------------- Write

  /**
   An open stream takes all of p. The Write returns at once if p fits into the buffered frame, and waits
   otherwise.
   */
  lemma WriteAccepts(st: State, p: seq<byte>)
    requires Inv(st) && st.pending.None? && Open(st)
    ensures var r := WriteNow(st, p, false);
            && r.st.stream == st.stream + p && SameFrames(st, r.st) && SameResets(st, r.st) && Open(r.st)
            && (r.result == Blocked <==> |NextData(st)| + |p| > MaxPacketBufferSize && p != [])
            && (r.result != Blocked ==>
                  && r.result == Returned(|p|, NoError, false) && r.st.pending.None?
                  && NextData(r.st) == NextData(st) + p && r.st.dfw == [])
            && (r.result == Blocked ==>
                  r.st.pending == Some(|p|) && NextData(r.st) == NextData(st) && r.st.dfw == p)
  {
    assert Buffered(st);
    hide Inv, Complete, NewlyCompleted;
    assert NextData(st) + [] == NextData(st) && st.stream + [] == st.stream;
  }

  /** A Write is refused, without accepting a byte, with the first of these reasons that applies. */
  lemma WriteRefused(st: State, p: seq<byte>, expired: bool)
    requires Inv(st) && st.pending.None? && (!Open(st) || expired)
    ensures var r := WriteNow(st, p, expired);
            && r.result.Returned? && r.result.n == 0
            && (r.result.err == StreamReset <==> st.reset)
            && (r.result.err == StreamShutdown <==> !st.reset && st.shutdown)
            && (r.result.err == StreamClosed <==> !st.reset && !st.shutdown && st.finishedWriting)
            && (r.result.err == DeadlineExceeded <==> Open(st))
            && (r.st.cancellationFlagged <==> st.cancellationFlagged || st.reset)
            && (r.result.completed <==> r.st.reports == st.reports + 1)
            && r.st.stream == st.stream && SameFrames(st, r.st) && SameResets(st, r.st)
            && r.st.nextFrame == st.nextFrame && r.st.dfw == st.dfw && r.st.pending == st.pending
  {
    hide Inv, NewlyCompleted;
  }

  /**
   A Write of an open stream that is woken up returns all of its data once what is left fits into the
   buffered frame, and gives up what is left if its deadline passed. Otherwise it waits on.
   */
  lemma ResumeExact(st: State, expired: bool)
    requires Inv(st) && st.pending.Some? && Open(st)
    ensures var r, len, left := Iterate(st, expired), st.pending.value, |st.dfw|;
            var fits := |NextData(st)| + left <= MaxPacketBufferSize && left > 0;
            && SameFrames(st, r.st) && SameResets(st, r.st) && r.st.dfw == (if r.result == Blocked then st.dfw else [])
            && (r.result == Blocked <==> !fits && !expired && left > 0)
            && (r.result == Returned(len, NoError, false) <==> fits || (!expired && left == 0))
            && (r.result == Returned(len - left, DeadlineExceeded, false) <==> !fits && expired)
            && (fits ==> NextData(r.st) == NextData(st) + st.dfw) && (!fits ==> r.st.nextFrame == st.nextFrame)
            && |r.st.stream| == |st.stream| - (if !fits && expired then left else 0)
            && (r.result == Blocked ==> r.st == st) && (r.result != Blocked ==> r.st.pending.None?)
  {
    assert Buffered(st);
    hide Inv, Complete, NewlyCompleted;
  }

  /**
   A Write that waits when the stream is reset or shut down does not wait on: unless what is left fits
   into the buffered frame, it returns how much was sent, with the first of these reasons that applies.
   */
  lemma ResumeEnds(st: State, expired: bool)
    requires st.pending.Some? && (st.reset || st.shutdown)
    ensures var r, len, left := Iterate(st, expired), st.pending.value, |st.dfw|;
            var fits := |NextData(st)| + left <= MaxPacketBufferSize && left > 0;
            && r.result.Returned? && r.result.n == (if fits then len else len - left)
            && (r.result.err == DeadlineExceeded <==> !fits && expired)
            && (r.result.err == NoError <==> fits || (!expired && left == 0))
            && (r.result.err == StreamShutdown <==> !fits && !expired && left > 0 && st.shutdown)
            && (r.result.err == StreamReset <==> !fits && !expired && left > 0 && !st.shutdown)
            && Left(st, r.st) && NextData(r.st) == NextData(st) + (if fits then st.dfw else [])
            && (r.result.completed <==> r.st.reports == st.reports + 1)
  {
    hide Complete, NewlyCompleted, Left, BufferData, DropData, Leave, FlagReset;
    LeaveLeft(st);
    BufferLeft(st);
    FlagLeft(st);
    assert NextData(st) + [] == NextData(st);
  }

  /** A Write has returned, and nothing else happened. */
  ghost predicate Left(st: State, st': State) {
    SameFrames(st, st') && SameResets(st, st') && st'.stream == st.stream && st'.pending.None?
  }

  lemma LeaveLeft(st: State)
    requires st.reset || st.shutdown
    ensures Left(st, Leave(st)) && Leave(st).nextFrame == st.nextFrame && Leave(st).reports == st.reports
    ensures var st' := Leave(DropData(st)); Left(st, st') && st'.nextFrame == st.nextFrame && st'.reports == st.reports
    ensures Leave(st).shutdown == st.shutdown
  {
  }

  lemma BufferLeft(st: State)
    ensures var st' := Leave(BufferData(st));
            Left(st, st') && NextData(st') == NextData(st) + st.dfw && st'.reports == st.reports
  {
  }

  lemma FlagLeft(st: State)
    ensures var st' := Complete(FlagReset(Leave(st)));
            && Left(st, st') && st'.nextFrame == st.nextFrame
            && (NewlyCompleted(FlagReset(Leave(st))) <==> st'.reports == st.reports + 1)
  {
    hide NewlyCompleted;
  }

  /** A Write that waits returns, with all its data, once enough was sent. */
  lemma WriteReturns(st: State)
    requires Inv(st) && st.pending.Some? && Open(st) && Backlog(st) == 0
    ensures Iterate(st, false).result == Returned(st.pending.value, NoError, false)
    ensures Iterate(st, false).st.stream == st.stream
  {
    UnsentPositive(st);
    hide Inv;
  }

  /** Close closes a stream that was not shut down, and only adds the FIN to what has to be sent. */
  lemma CloseEnds(st: State)
    requires Inv(st) && st.pending.None?
    ensures var st' := Close(st);
            && (st'.finishedWriting <==> st.finishedWriting || !st.shutdown)
            && SameFrames(st, st') && SameResets(st, st') && st'.stream == st.stream
            && st'.nextFrame == st.nextFrame && st'.dfw == st.dfw
            && st'.reset == st.reset && st'.shutdown == st.shutdown
            && (st.reset && !st.shutdown && !st.finishedWriting ==> st'.cancellationFlagged)
            && (Open(st) ==> Backlog(st') == Backlog(st) + 1)
  {
    if Open(st) {
      OpenNotFin(st);
    }
    hide Inv, Complete;
    CompleteOnly(Closing(st));
  }

  lemma OpenNotFin(st: State)
    requires Inv(st) && Open(st)
    ensures !st.finSent
  {
  }

  /** The boundary covers everything that was written, if no Write is waiting. */
  lemma BoundaryCovers(st: State)
    requires Inv(st) && !st.shutdown && !st.reset
    ensures var st' := SetReliableBoundary(st);
            && st'.reliableSize == |st.stream| - |st.dfw| && (st.pending.None? ==> st'.reliableSize == |st.stream|)
            && SameFrames(st, st') && SameResets(st, st') && st'.stream == st.stream
            && st'.nextFrame == st.nextFrame && st'.dfw == st.dfw
            && ReliableOffset(EnableResetStreamAt(st')) == st'.reliableSize
  {
    UnsentBytes(st);
    assert Buffered(st);
    hide Inv;
  }

  // ----------------------------------------------------------- frames

  lemma CountTrimmed(f: Frame, r: int, p: int)
    requires 0 <= f.offset < r
    ensures Carries(TrimTo(f, r), p) == if p < r then Carries(f, p) else 0
  {
  }

  /**
   A lost frame is not in flight any more; of its bytes, those that have to be delivered wait to be sent
   again, and no others. The FIN of an open stream waits with them.
   */
  lemma LostWaits(st: State, i: int, p: int)
    requires Inv(st) && 0 <= i < |st.inflight|
    ensures var st', f := OnLost(st, i), st.inflight[i];
            && st'.inflight == Without(st.inflight, i) && st'.acked == st.acked
            && Count(st'.retx, p) == Count(st.retx, p) + (if p < Limit(st) then Carries(f, p) else 0)
            && (!st.reset ==> Fins(st'.retx) == Fins(st.retx) + if f.fin then 1 else 0)
            && st'.writeOffset == st.writeOffset && st'.nextFrame == st.nextFrame && st'.dfw == st.dfw
            && st'.stream == st.stream && st'.reset == st.reset && st'.shutdown == st.shutdown
            && st'.numOutstanding == st.numOutstanding - if Ignores(st) then 0 else 1
  {
    LoseFields(st, i);
    var f, r := st.inflight[i], ReliableOffset(st);
    assert PieceOf(f, st.stream, st.writeOffset) && st.writeOffset <= |st.stream| && 0 <= st.reliableSize;
    hide Inv, OnLost, Lose;
    if !st.reset {
      StreamFrames.CountAppend(st.retx, f, p);
    } else if f.offset < r {
      CountTrimmed(f, r, p);
      StreamFrames.CountAppend(st.retx, TrimTo(f, r), p);
    }
  }

  lemma LoseFields(st: State, i: int)
    requires 0 <= i < |st.inflight|
    ensures var st' := OnLost(st, i);
            && st'.inflight == Without(st.inflight, i) && st'.acked == st.acked
            && st'.retx == Requeue(st, st.inflight[i])
            && st'.writeOffset == st.writeOffset && st'.nextFrame == st.nextFrame && st'.dfw == st.dfw
            && st'.stream == st.stream && st'.reset == st.reset && st'.shutdown == st.shutdown
            && st'.numOutstanding == st.numOutstanding - if Ignores(st) then 0 else 1
  {
    hide Complete, Without, Requeue;
    CompleteOnly(Lose(st, i));
  }

  /** A lost frame adds to the backlog of an open stream what it takes to send it again. */
  lemma LostBacklog(st: State, i: int)
    requires Inv(st) && 0 <= i < |st.inflight| && !st.reset && !st.shutdown
    ensures Backlog(OnLost(st, i)) == Backlog(st) + Max(1, |st.inflight[i].data|)
  {
    WorkAppend(st.retx, st.inflight[i]);
    hide Inv;
  }

  lemma {:induction false} WorkAppend(frames: seq<Frame>, f: Frame)
    ensures Work(frames + [f]) == Work(frames) + Max(1, |f.data|)
  {
    if frames == [] {
      assert frames + [f] == [f];
      assert [f][1..] == [];
    } else {
      assert (frames + [f])[1..] == frames[1..] + [f];
      WorkAppend(frames[1..], f);
    }
  }

  // ------------------------------------------------------------ resets

  lemma {:induction false} NothingBeyond(frames: seq<Frame>, r: int, stream: seq<byte>, n: int, p: int)
    requires PiecesOf(frames, stream, n) && p >= r
    ensures Count(TrimAll(frames, r), p) == 0
  {
    if frames != [] {
      var f, rest := frames[0], frames[1..];
      assert PieceOf(f, stream, n);
      assert PiecesOf(rest, stream, n);
      NothingBeyond(rest, r, stream, n, p);
      if f.offset < r {
        CountTrimmed(f, r, p);
        CountConcat([TrimTo(f, r)], TrimAll(rest, r), p);
        CountOne(TrimTo(f, r), p);
      } else {
        assert TrimAll(frames, r) == TrimAll(rest, r);
      }
    }
  }

  /**
   CancelWrite resets an open or closed stream: a RESET_STREAM with the final size is queued, lost bytes
   beyond the reliable offset are forgotten and the others kept, and what is still to be sent ends at the
   reliable offset.
   */
  lemma CancelResets(st: State, p: int)
    requires Inv(st) && !st.shutdown && !st.reset
    ensures var st', r := CancelWrite(st), ReliableOffset(st);
            && st'.reset && st'.cancellationFlagged && !st'.shutdown && ReliableOffset(st') == r
            && st'.queuedReset == Some(ResetFrame(Max(st.writeOffset, r), r)) && st'.resets == st.resets
            && st'.numOutstanding == (if r == 0 then 0 else st.numOutstanding)
            && st'.inflight == st.inflight && st'.acked == st.acked
            && st'.stream == st.stream && st'.writeOffset == st.writeOffset
            && Count(st'.retx, p) == (if p < r then Count(st.retx, p) else 0)
            && Unsent(st') == Max(0, r - st.writeOffset)
  {
    assert Pieces(st) && st.reliableSize >= 0;
    hide Inv, TrimNext, TrimAll;
    var r := ReliableOffset(st);
    if p < r {
      TrimAllCount(st.retx, r, st.stream, st.writeOffset, p);
    } else {
      NothingBeyond(st.retx, r, st.stream, st.writeOffset, p);
    }
    NoFrames(p);
    if r == 0 {
      NoneBelow(st.retx, st.stream, st.writeOffset, p);
    }
  }

  lemma NoFrames(p: int)
    ensures Count([], p) == 0
  {
  }

  lemma {:induction false} NoneBelow(frames: seq<Frame>, stream: seq<byte>, n: int, p: int)
    requires PiecesOf(frames, stream, n)
    ensures p < 0 ==> Count(frames, p) == 0
  {
    if frames != [] {
      assert PieceOf(frames[0], stream, n);
      assert PiecesOf(frames[1..], stream, n);
      NoneBelow(frames[1..], stream, n, p);
    }
  }

  /** CancelWrite again only notes that the user knows of the reset; after a shutdown it does nothing. */
  lemma CancelAgain(st: State)
    requires st.shutdown || st.reset
    ensures var st' := CancelWrite(st);
            && SameFrames(st, st') && SameResets(st, st') && st'.stream == st.stream
            && st'.nextFrame == st.nextFrame && st'.dfw == st.dfw
            && st'.reset == st.reset && st'.shutdown == st.shutdown && ReliableOffset(st') == ReliableOffset(st)
            && (st'.cancellationFlagged <==> st.cancellationFlagged || !st.shutdown)
  {
    hide NewlyCompleted;
  }

  /**
   STOP_SENDING resets a stream that still has something to deliver. A RESET_STREAM with what was sent as
   the final size is queued, and nothing is left to be sent or counted.
   */
  lemma StopResets(st: State)
    requires Inv(st)
    ensures var st' := StopSending(st);
            if st.shutdown || Ignores(st) then st' == st
            else
              && st'.reset && !st'.shutdown && Ignores(st') && Backlog(st') == 0
              && st'.queuedReset == Some(ResetFrame(st.writeOffset, 0)) && st'.numOutstanding == 0
              && st'.retx == [] && NextData(st') == [] && st'.resets == st.resets
              && st'.inflight == st.inflight && st'.acked == st.acked && st'.stream == st.stream
              && st'.writeOffset == st.writeOffset && st'.cancellationFlagged == st.cancellationFlagged
  {
    hide Inv;
  }

  /** closeForShutdown ends a stream that was not closed. */
  lemma ShutdownEnds(st: State)
    ensures var st' := Shutdown(st);
            && (st'.shutdown <==> st.shutdown || !st.finishedWriting)
            && (st'.shutdown ==> Backlog(st') == 0)
            && (st'.shutdown && !st.shutdown ==> st'.retx == [] && st'.nextFrame.None?)
            && (st.finishedWriting || st.shutdown ==> st' == st)
            && st'.stream == st.stream && st'.acked == st.acked && st'.inflight == st.inflight
            && SameResets(st, st') && st'.writeOffset == st.writeOffset
  {
  }

  /** The RESET_STREAM frame queued is handed out once, and is in flight then. */
  lemma ResetSent(st: State)
    requires st.queuedReset.Some?
    ensures var st' := SendReset(st);
            && st'.queuedReset.None? && st'.resets == st.resets + [st.queuedReset.value]
            && st'.numOutstanding == st.numOutstanding + 1
            && SameFrames(st, st') && st'.stream == st.stream && st'.nextFrame == st.nextFrame
  {
  }

  /** A RESET_STREAM frame is not in flight any more. It was counted if no other reliable size was announced since. */
  ghost predicate ResetLanded(st: State, j: int, st': State)
    requires 0 <= j < |st.resets|
  {
    && st'.resets == st.resets[..j] + st.resets[j + 1..]
    && st'.numOutstanding == st.numOutstanding - (if st.resets[j].reliableSize == ReliableOffset(st) then 1 else 0)
    && SameFrames(st, st') && st'.nextFrame == st.nextFrame && st'.stream == st.stream
  }

  lemma WithoutLands(st: State, j: int)
    requires 0 <= j < |st.resets|
    ensures ResetLanded(st, j, WithoutReset(st, j)) && WithoutReset(st, j).queuedReset == st.queuedReset
  {
  }

  lemma ResetAckLands(st: State, j: int)
    requires 0 <= j < |st.resets|
    ensures ResetLanded(st, j, OnResetAcked(st, j)) && OnResetAcked(st, j).queuedReset == st.queuedReset
  {
    hide Complete, WithoutReset;
    WithoutLands(st, j);
    CompleteOnly(WithoutReset(st, j));
  }

  /** A lost RESET_STREAM frame is queued again, exactly if no other reliable size was announced after it. */
  lemma ResetLostWaits(st: State, j: int)
    requires 0 <= j < |st.resets|
    ensures ResetLanded(st, j, OnResetLost(st, j))
    ensures OnResetLost(st, j).queuedReset ==
            if st.resets[j].reliableSize == ReliableOffset(st) then Some(st.resets[j]) else st.queuedReset
  {
    hide WithoutReset;
    WithoutLands(st, j);
  }

  // ------------------------------------------- a stream that has nothing to deliver

  /** Nothing has to be delivered, and nothing was sent. */
  ghost predicate Quiet(st: State, st': State) {
    Ignores(st') && st'.writeOffset == st.writeOffset && forall f :: f in st'.inflight ==> f in st.inflight
  }

  /** Fields that completion does not change. */
  lemma QuietComplete(st: State, st': State)
    requires Quiet(st, st')
    ensures Quiet(st, Complete(st'))
  {
    hide NewlyCompleted;
  }

  lemma QuietLand(st: State, i: int)
    requires Ignores(st) && 0 <= i < |st.inflight|
    ensures Quiet(st, OnAcked(st, i)) && Quiet(st, OnLost(st, i))
  {
    hide Complete;
  }

  lemma QuietReset(st: State, j: int)
    requires Ignores(st)
    ensures st.queuedReset.Some? ==> Quiet(st, SendReset(st))
    ensures 0 <= j < |st.resets| ==> Quiet(st, OnResetLost(st, j)) && Quiet(st, OnResetAcked(st, j))
  {
    hide Complete;
    if 0 <= j < |st.resets| {
      QuietComplete(st, WithoutReset(st, j));
    }
  }

  lemma QuietFrames(st: State, e: Event)
    requires Allowed(st, e) && Ignores(st)
    requires e.Acked? || e.Lost? || e.PopReset? || e.ResetAcked? || e.ResetLost?
    ensures Quiet(st, Step(st, e))
  {
    hide OnAcked, OnLost, SendReset, OnResetAcked, OnResetLost, Quiet;
    match e
    case Acked(i) => QuietLand(st, i);
    case Lost(i) => QuietLand(st, i);
    case PopReset => QuietReset(st, 0);
    case ResetAcked(j) => QuietReset(st, j);
    case ResetLost(j) => QuietReset(st, j);
  }

  lemma QuietUser(st: State, e: Event)
    requires Inv(st) && Allowed(st, e) && Ignores(st)
    requires e.Finish? || e.Boundary? || e.Enable? || e.Cancel? || e.Stop? || e.ShutDown?
    ensures Quiet(st, Step(st, e))
  {
    hide Inv, NewlyCompleted, TrimAll, TrimNext;
  }

  lemma QuietResume(st: State, expired: bool)
    requires Ignores(st) && st.pending.Some?
    ensures Quiet(st, Iterate(st, expired).st)
  {
    hide Complete;
    QuietComplete(st, FlagReset(Leave(st)));
  }

  lemma QuietWrite(st: State, e: Event)
    requires Allowed(st, e) && Ignores(st) && (e.Write? || e.Resume? || e.PopFrame?)
    ensures Quiet(st, Step(st, e))
  {
    hide Complete, Iterate, PopNew, PopRetx;
    match e
    case Write(_, _) => QuietComplete(st, FlagReset(st));
    case Resume(expired) => QuietResume(st, expired);
    case PopFrame(_, _, _) =>
  }

  /** Once nothing has to be delivered, as after STOP_SENDING, no STREAM frame is sent any more. */
  lemma {:induction false} NothingAfterStop(st: State, events: seq<Event>, st': State, f: Frame)
    requires Inv(st) && Ignores(st) && Runs(st, events, st')
    ensures Ignores(st') && st'.writeOffset == st.writeOffset
    ensures Sent(st, events, f) ==> f in st.inflight
    decreases |events|
  {
    hide Inv, Step, Allowed;
    if events != [] {
      var e := events[0];
      StepInv(st, e);
      if e.Write? || e.Resume? || e.PopFrame? {
        QuietWrite(st, e);
      } else if e.Acked? || e.Lost? || e.PopReset? || e.ResetAcked? || e.ResetLost? {
        QuietFrames(st, e);
      } else {
        QuietUser(st, e);
      }
      NothingAfterStop(Step(st, e), events[1..], st', f);
    }
  }
}
