/** Properties of all runs of the sending half of a stream. */
module SendRuns {
  import opened Common
  import opened StreamFrames
  import opened SendModel

  datatype Event =
    | Write(p: seq<byte>, expired: bool)
    | Resume(expired: bool)
    | PopFrame(id: int, maxBytes: int, window: int)
    | Acked(i: int)
    | Lost(i: int)
    | Finish
    | Boundary
    | Enable
    | Cancel
    | Stop
    | ShutDown
    | PopReset
    | ResetAcked(j: int)
    | ResetLost(j: int)

  /** What the callers of the stream promise. */
  ghost predicate Allowed(st: State, e: Event) {
    match e
    case Write(_, _) => st.pending.None?
    case Resume(_) => st.pending.Some?
    case PopFrame(_, maxBytes, _) => maxBytes <= MaxPacketBufferSize
    case Acked(i) => 0 <= i < |st.inflight|
    case Lost(i) => 0 <= i < |st.inflight|
    case Finish => st.pending.None?
    case Boundary => !st.reset || !st.supportsResetStreamAt
    case Enable => !st.reset || st.supportsResetStreamAt || st.reliableSize == 0
    case PopReset => st.queuedReset.Some?
    case ResetAcked(j) => 0 <= j < |st.resets|
    case ResetLost(j) => 0 <= j < |st.resets|
    case _ => true
  }

  ghost function Step(st: State, e: Event): State
    requires Allowed(st, e)
  {
    match e
    case Write(p, expired) => WriteNow(st, p, expired).st
    case Resume(expired) => Iterate(st, expired).st
    case PopFrame(id, maxBytes, window) => Pop(st, id, maxBytes, window).st
    case Acked(i) => OnAcked(st, i)
    case Lost(i) => OnLost(st, i)
    case Finish => Close(st)
    case Boundary => SetReliableBoundary(st)
    case Enable => EnableResetStreamAt(st)
    case Cancel => CancelWrite(st)
    case Stop => StopSending(st)
    case ShutDown => Shutdown(st)
    case PopReset => SendReset(st)
    case ResetAcked(j) => OnResetAcked(st, j)
    case ResetLost(j) => OnResetLost(st, j)
  }

  /** st' can be reached from st. */
  ghost predicate Runs(st: State, events: seq<Event>, st': State)
    decreases |events|
  {
    if events == [] then st == st' else Allowed(st, events[0]) && Runs(Step(st, events[0]), events[1..], st')
  }

  lemma Prepend(st: State, e: Event, rest: seq<Event>, st': State)
    requires Allowed(st, e) && Runs(Step(st, e), rest, st')
    ensures Runs(st, [e] + rest, st')
  {
    assert ([e] + rest)[0] == e && ([e] + rest)[1..] == rest;
  }

  lemma Stay(st: State)
    ensures Runs(st, [], st)
  {
  }

  /** Completion is reported as soon as it is due, and a stream that is completed without a reset is done. */
  ghost predicate Reported(st: State) {
    && (!st.shutdown ==> !NewlyCompleted(st))
    && (st.completed && !st.reset ==> st.finSent && st.numOutstanding == 0 && st.retx == [])
  }

  lemma StepInv(st: State, e: Event)
    requires Inv(st) && Allowed(st, e)
    ensures Inv(Step(st, e))
  {
    hide Inv;
    match e
    case Write(p, expired) => WriteNowInv(st, p, expired);
    case Resume(expired) => IterateInv(st, expired);
    case PopFrame(id, maxBytes, window) => PopInv(st, id, maxBytes, window);
    case Acked(i) => OnAckedInv(st, i);
    case Lost(i) => OnLostInv(st, i);
    case Finish => CloseInv(st);
    case Boundary => BoundaryInv(st);
    case Enable => EnableInv(st);
    case Cancel => CancelWriteInv(st);
    case Stop => StopSendingInv(st);
    case ShutDown => ShutdownInv(st);
    case PopReset => SendResetInv(st);
    case ResetAcked(j) => OnResetAckedInv(st, j);
    case ResetLost(j) => OnResetLostInv(st, j);
  }

  ghost predicate DoneIfCompleted(st: State) {
    st.completed && !st.reset ==> st.finSent && st.numOutstanding == 0 && st.retx == []
  }

  lemma Outstanding(st: State)
    requires Inv(st)
    ensures st.numOutstanding >= 0
    ensures !st.reset ==> st.numOutstanding == |st.inflight| && st.queuedReset.None?
    ensures st.finSent && !st.reset ==> st.finishedWriting && !st.shutdown && st.dfw == [] && st.nextFrame.None?
    ensures st.pending.Some? && !st.reset ==> !st.finSent
  {
    TrackedNonNegative(st.resets, ReliableOffset(st));
    hide Placed, Pieces, SmallFrames;
    assert st.finSent && !st.reset ==> |NextData(st) + st.dfw| == 0;
  }

  lemma CompleteReported(st: State)
    requires Inv(st) && DoneIfCompleted(st)
    ensures Reported(Complete(st))
  {
    Outstanding(st);
    hide Inv;
  }

  lemma WriteReported(st: State, p: seq<byte>, expired: bool)
    requires Inv(st) && st.pending.None? && Reported(st)
    ensures Reported(WriteNow(st, p, expired).st)
  {
    hide Inv;
    Outstanding(st);
    FlagInv(st);
    if st.reset {
      CompleteReported(FlagReset(st));
    }
  }

  lemma LeaveReported(st: State)
    requires Reported(st) && (st.completed ==> st.reset)
    ensures Reported(Leave(st)) && Reported(Leave(DropData(st)))
    ensures st.dfw != [] ==> Reported(Leave(BufferData(st)))
    ensures DoneIfCompleted(FlagReset(Leave(st)))
  {
  }

  lemma ResumeReported(st: State, expired: bool)
    requires Inv(st) && st.pending.Some? && Reported(st)
    ensures Reported(Iterate(st, expired).st)
  {
    hide Inv, Complete, Leave, DropData, BufferData, FlagReset, NewlyCompleted;
    Outstanding(st);
    LeaveReported(st);
    if !(CanBuffer(st) && st.dfw != []) && !expired && (st.dfw == [] || st.shutdown || st.reset) {
      LeaveInv(st);
      FlagInv(Leave(st));
      CompleteReported(FlagReset(Leave(st)));
      hide Reported;
    }
  }

  /** A frame in flight keeps the stream from being completed. */
  lemma TrackingReported(st: State, f: Frame)
    requires st.numOutstanding >= 0 && (st.completed ==> st.reset)
    ensures Reported(Tracking(st, f))
  {
  }

  lemma PopReported(st: State, id: int, maxBytes: int, window: int)
    requires Inv(st) && Reported(st)
    ensures Reported(Pop(st, id, maxBytes, window).st)
  {
    hide Inv, Tracking;
    Outstanding(st);
    var st' := Pop(st, id, maxBytes, window).st;
    if st' != st {
      assert st.completed ==> st.reset;
      PopTracks(st, id, maxBytes, window);
    }
  }

  lemma PopTracks(st: State, id: int, maxBytes: int, window: int)
    requires Pop(st, id, maxBytes, window).st != st && st.numOutstanding >= 0 && (st.completed ==> st.reset)
    ensures Reported(Pop(st, id, maxBytes, window).st)
  {
    hide Reported;
    if st.retx != [] {
      var f := st.retx[0];
      var n := MaxDataLen(id, f.offset, maxBytes);
      if Length(id, f) <= maxBytes {
        TrackingReported(st.(retx := st.retx[1..]), f);
      } else {
        TrackingReported(st.(retx := [Tail(f, n)] + st.retx[1..]), Head(f, n));
      }
    } else {
      PopNewTracks(st, id, maxBytes, window);
    }
  }

  lemma EmitReported(st: State, data: seq<byte>, nextFrame': Option<Frame>, dfw': seq<byte>)
    requires st.numOutstanding >= 0 && (st.completed ==> st.reset)
    ensures Reported(Emit(st, data, nextFrame', dfw'))
  {
    hide Reported;
    var fin := st.finishedWriting && dfw' == [] && nextFrame'.None? && !st.finSent;
    TrackingReported(Advance(st, |data|, fin, nextFrame', dfw'), Frame(st.writeOffset, data, fin));
  }

  lemma PopNewTracks(st: State, id: int, maxBytes: int, window: int)
    requires PopNew(st, id, maxBytes, window).st != st && st.numOutstanding >= 0 && (st.completed ==> st.reset)
    ensures Reported(PopNew(st, id, maxBytes, window).st)
  {
    hide Reported, Emit, PopNew;
    var data, nextFrame', dfw' := PopNewEmits(st, id, maxBytes, window);
    EmitReported(st, data, nextFrame', dfw');
  }

  lemma AckedReported(st: State, i: int)
    requires Inv(st) && 0 <= i < |st.inflight| && Reported(st)
    ensures Reported(OnAcked(st, i))
  {
    Outstanding(st);
    LandInv(st, i);
    hide Inv;
    if !Ignores(st) {
      CompleteReported(Land(st, i));
    }
  }

  lemma LostReported(st: State, i: int)
    requires Inv(st) && 0 <= i < |st.inflight| && Reported(st)
    ensures Reported(OnLost(st, i))
  {
    Outstanding(st);
    LoseInv(st, i);
    hide Inv;
    if !Ignores(st) && st.reset && st.inflight[i].offset >= ReliableOffset(st) {
      CompleteReported(Lose(st, i));
    }
  }

  lemma CloseReported(st: State)
    requires Inv(st) && st.pending.None? && Reported(st)
    ensures Reported(Close(st))
  {
    Outstanding(st);
    ClosingInv(st);
    hide Inv;
    if !st.shutdown && !st.finishedWriting {
      CompleteReported(Closing(st));
    }
  }

  lemma CancelReported(st: State)
    requires Inv(st) && Reported(st)
    ensures Reported(CancelWrite(st))
  {
    FlagInv(st);
    hide Inv;
    if st.reset {
      CompleteReported(FlagReset(st));
    }
  }

  lemma ResetAckedReported(st: State, j: int)
    requires Inv(st) && 0 <= j < |st.resets| && Reported(st)
    ensures Reported(OnResetAcked(st, j)) && Reported(OnResetLost(st, j))
  {
    assert st.reset;
    WithoutResetInv(st, j);
    hide Inv;
    CompleteReported(WithoutReset(st, j));
  }

  lemma PopResetReported(st: State)
    requires Inv(st) && st.queuedReset.Some? && Reported(st)
    ensures Reported(SendReset(st))
  {
    assert st.reset;
    Outstanding(st);
    hide Inv;
  }

  lemma ShutdownReported(st: State)
    requires Inv(st) && Reported(st)
    ensures Reported(Shutdown(st))
  {
    Outstanding(st);
    hide Inv;
  }

  lemma StepReported(st: State, e: Event)
    requires Inv(st) && Reported(st) && Allowed(st, e)
    ensures Reported(Step(st, e))
  {
    hide Inv, Reported;
    match e
    case Write(p, expired) => WriteReported(st, p, expired);
    case Resume(expired) => ResumeReported(st, expired);
    case PopFrame(id, maxBytes, window) => PopReported(st, id, maxBytes, window);
    case Acked(i) => AckedReported(st, i);
    case Lost(i) => LostReported(st, i);
    case Finish => CloseReported(st);
    case Boundary => BoundaryReported(st);
    case Enable => BoundaryReported(st);
    case Cancel => CancelReported(st);
    case Stop => BoundaryReported(st);
    case ShutDown => ShutdownReported(st);
    case PopReset => PopResetReported(st);
    case ResetAcked(j) => ResetAckedReported(st, j);
    case ResetLost(j) => ResetAckedReported(st, j);
  }

  lemma BoundaryReported(st: State)
    requires Reported(st)
    ensures Reported(SetReliableBoundary(st)) && Reported(EnableResetStreamAt(st)) && Reported(StopSending(st))
  {
  }

  lemma {:induction false} RunInv(st: State, events: seq<Event>, st': State)
    requires Inv(st) && Reported(st) && Runs(st, events, st')
    ensures Inv(st') && Reported(st')
    decreases |events|
  {
    hide Inv, Reported, Step, Allowed;
    if events != [] {
      StepInv(st, events[0]);
      StepReported(st, events[0]);
      RunInv(Step(st, events[0]), events[1..], st');
    }
  }

  lemma ReachedInv(supports: bool, events: seq<Event>, st: State)
    requires Runs(Init(supports), events, st)
    ensures Inv(st) && Reported(st)
  {
    InitInv(supports);
    hide Inv, Runs;
    RunInv(Init(supports), events, st);
  }

  /**
   In every run in which the stream was neither reset nor shut down, it is completed exactly if the
   FIN was sent and no frame is in flight or waiting to be sent again. Completion was then reported
   exactly once, and the peer has acknowledged every byte exactly once, and the FIN at the end.
   */
  lemma CompletedIffDelivered(supports: bool, events: seq<Event>, st: State)
    requires Runs(Init(supports), events, st) && !st.reset && !st.shutdown
    ensures st.completed <==> st.finSent && st.inflight == [] && st.retx == []
    ensures st.reports == if st.completed then 1 else 0
    ensures st.completed ==>
              && (forall p :: 0 <= p < |st.stream| ==> Count(st.acked, p) == 1)
              && PiecesOf(st.acked, st.stream, |st.stream|)
              && Fins(st.acked) == 1 && FinsAt(st.acked, |st.stream|)
  {
    hide Runs, Placed, Pieces, Buffered, FinOk, Counted;
    ReachedInv(supports, events, st);
    Outstanding(st);
    assert st.completed <==> st.finSent && st.numOutstanding == 0 && st.retx == [];
    if st.completed {
      AllAcked(st);
    }
  }

  lemma PiecesOfAll(a: seq<Frame>, b: seq<Frame>, c: seq<Frame>, stream: seq<byte>, n: int)
    requires PiecesOf(a, stream, n) && PiecesOf(b, stream, n) && PiecesOf(c, stream, n)
    ensures PiecesOf(a + b + c, stream, n)
  {
  }

  /**
   In any run, no byte that has to be delivered is ever lost or in two frames at once: it is in
   exactly one frame, and frames carry the bytes of the stream, or it is buffered in its place.
   */
  lemma NothingLost(supports: bool, events: seq<Event>, st: State, p: int)
    requires Runs(Init(supports), events, st) && !st.shutdown && 0 <= p < |st.stream| && p < Limit(st)
    ensures p < st.writeOffset ==> Places(st.acked, st.inflight, st.retx, p) == 1
    ensures PiecesOf(st.acked + st.inflight + st.retx, st.stream, st.writeOffset)
    ensures p >= st.writeOffset ==>
              var d := NextData(st) + st.dfw;
              p - st.writeOffset < |d| && d[p - st.writeOffset] == st.stream[p]
  {
    hide Runs, Counted, FinOk;
    ReachedInv(supports, events, st);
    PiecesOfAll(st.acked, st.inflight, st.retx, st.stream, st.writeOffset);
    hide Pieces, PiecesOf;
    if p >= st.writeOffset {
      if st.reset {
        assert NextData(st)[p - st.writeOffset] == st.stream[st.writeOffset..ReliableOffset(st)][p - st.writeOffset];
      } else {
        assert st.stream[st.writeOffset..][p - st.writeOffset] == st.stream[p];
      }
    }
  }

  // ------------------------------------------------------------ sent frames

  /** What was sent stays, and a stream that was sent completely is not extended. */
  ghost predicate Extends(st: State, st': State)
    requires 0 <= st.writeOffset <= |st.stream|
  {
    && st.writeOffset <= st'.writeOffset && st.stream[..st.writeOffset] <= st'.stream
    && (st.reset ==> st'.reset) && (st.shutdown ==> st'.shutdown)
    && (st.finSent && !st'.reset && !st'.shutdown ==> st'.finSent && st'.stream == st.stream)
  }

  /** One step extends the stream, and acknowledges only what is in flight. */
  ghost predicate Goes(st: State, st': State)
    requires 0 <= st.writeOffset <= |st.stream|
  {
    Extends(st, st') && forall f :: f in st'.acked ==> f in st.acked || f in st.inflight
  }

  /** Nothing was written, sent or acknowledged. */
  ghost predicate Still(st: State, st': State) {
    && st'.writeOffset == st.writeOffset && st'.stream == st.stream && st'.finSent == st.finSent
    && (st.reset ==> st'.reset) && (st.shutdown ==> st'.shutdown) && st'.acked == st.acked
  }

  lemma StillGoes(st: State, st': State)
    requires 0 <= st.writeOffset <= |st.stream| && Still(st, st')
    ensures Goes(st, st')
  {
  }

  lemma CompleteStill(st: State)
    ensures Still(st, Complete(st)) && Still(st, Complete(FlagReset(st)))
  {
    hide NewlyCompleted;
  }

  lemma LeaveStill(st: State)
    ensures Still(st, Leave(st)) && Still(st, Leave(BufferData(st)))
  {
  }

  lemma ResetWriteStill(st: State)
    ensures Still(st, Complete(FlagReset(Leave(st))))
  {
    hide NewlyCompleted;
  }

  /** What is dropped was not sent. */
  lemma DropGoes(st: State)
    requires Inv(st) && st.pending.Some?
    ensures Goes(st, Leave(DropData(st)))
  {
    Outstanding(st);
    hide Placed, Pieces, Counted, FinOk, SmallFrames;
    if !st.reset && !st.shutdown {
      assert |st.stream[st.writeOffset..]| == |NextData(st)| + |st.dfw|;
    }
  }

  lemma StillHere(st: State)
    ensures Still(st, st)
  {
  }

  lemma IterateGoes(st: State, expired: bool)
    requires Inv(st) && st.pending.Some?
    ensures Goes(st, Iterate(st, expired).st)
  {
    assert Shape(st);
    hide Inv, Goes, Still, Leave, DropData, BufferData, FlagReset, Complete, NewlyCompleted, CanBuffer;
    DropGoes(st);
    LeaveStill(st);
    StillHere(st);
    ResetWriteStill(st);
    var st' := Iterate(st, expired).st;
    if st' != Leave(DropData(st)) {
      StillGoes(st, st');
    }
  }

  lemma BeginGoes(st: State, p: seq<byte>, st': State)
    requires 0 <= st.writeOffset <= |st.stream| && !st.finSent && Goes(BeginWrite(st, p), st')
    ensures Goes(st, st')
  {
    var begun := BeginWrite(st, p);
    assert begun.stream[..st.writeOffset] == st.stream[..st.writeOffset];
  }

  lemma WriteGoes(st: State, p: seq<byte>, expired: bool)
    requires Inv(st) && st.pending.None?
    ensures Goes(st, WriteNow(st, p, expired).st)
  {
    assert Shape(st);
    hide Inv, Goes, Still, Iterate, FlagReset, Complete, NewlyCompleted;
    CompleteStill(st);
    StillHere(st);
    if !st.reset && !st.shutdown && !st.finishedWriting && !expired && p != [] {
      BeginWriteInv(st, p);
      IterateGoes(BeginWrite(st, p), expired);
      BeginGoes(st, p, Iterate(BeginWrite(st, p), expired).st);
    } else {
      StillGoes(st, WriteNow(st, p, expired).st);
    }
  }

  lemma EmitGoes(st: State, data: seq<byte>, nextFrame': Option<Frame>, dfw': seq<byte>)
    requires 0 <= st.writeOffset <= |st.stream|
    ensures Goes(st, Emit(st, data, nextFrame', dfw'))
  {
  }

  lemma PopNewGoes(st: State, id: int, maxBytes: int, window: int)
    requires 0 <= st.writeOffset <= |st.stream|
    ensures Goes(st, PopNew(st, id, maxBytes, window).st)
  {
    hide Emit, Goes, PopNew;
    StillGoes(st, st);
    var data, nextFrame', dfw' := PopNewEmits(st, id, maxBytes, window);
    EmitGoes(st, data, nextFrame', dfw');
  }

  lemma ResendStill(st: State, n: int)
    requires st.retx != []
    ensures Still(st, Resend(st))
    ensures 0 < n < |st.retx[0].data| ==> Still(st, ResendPart(st, n))
  {
    hide Head, Tail;
  }

  lemma RetxStill(st: State, id: int, maxBytes: int)
    requires st.retx != []
    ensures Still(st, PopRetx(st, id, maxBytes).st)
  {
    hide Still, MaxDataLen, Length, Resend, ResendPart;
    StillHere(st);
    ResendStill(st, MaxDataLen(id, st.retx[0].offset, maxBytes));
  }

  lemma PopGoes(st: State, id: int, maxBytes: int, window: int)
    requires Inv(st)
    ensures Goes(st, Pop(st, id, maxBytes, window).st)
  {
    assert Shape(st);
    hide Inv, Goes, PopNew, PopRetx, Still;
    PopNewGoes(st, id, maxBytes, window);
    StillHere(st);
    StillGoes(st, st);
    if st.retx != [] {
      RetxStill(st, id, maxBytes);
      StillGoes(st, PopRetx(st, id, maxBytes).st);
    }
  }

  lemma AckGoes(st: State, i: int)
    requires 0 <= i < |st.inflight| && 0 <= st.writeOffset <= |st.stream|
    ensures Goes(st, OnAcked(st, i))
  {
    hide NewlyCompleted, Without;
  }

  lemma LoseStill(st: State, i: int)
    requires 0 <= i < |st.inflight|
    ensures Still(st, OnLost(st, i))
  {
    hide NewlyCompleted, Without, Requeue;
  }

  lemma ResetFrameStill(st: State, j: int)
    ensures 0 <= j < |st.resets| ==> Still(st, OnResetAcked(st, j)) && Still(st, OnResetLost(st, j))
    ensures st.queuedReset.Some? ==> Still(st, SendReset(st))
  {
    hide NewlyCompleted;
  }

  lemma CloseStill(st: State)
    ensures Still(st, Close(st)) && Still(st, SetReliableBoundary(st)) && Still(st, EnableResetStreamAt(st))
  {
    hide NewlyCompleted;
  }

  lemma CancelStill(st: State)
    ensures Still(st, CancelWrite(st)) && Still(st, StopSending(st)) && Still(st, Shutdown(st))
  {
    hide NewlyCompleted, TrimAll, TrimNext;
  }

  lemma FrameGoes(st: State, e: Event)
    requires Allowed(st, e) && 0 <= st.writeOffset <= |st.stream|
    requires e.Acked? || e.Lost? || e.PopReset? || e.ResetAcked? || e.ResetLost?
    ensures Goes(st, Step(st, e))
  {
    hide Goes, Still, OnAcked, OnLost, OnResetAcked, OnResetLost, SendReset;
    match e
    case Acked(i) => AckGoes(st, i);
    case Lost(i) => LoseStill(st, i); StillGoes(st, OnLost(st, i));
    case PopReset => ResetFrameStill(st, 0); StillGoes(st, SendReset(st));
    case ResetAcked(j) => ResetFrameStill(st, j); StillGoes(st, OnResetAcked(st, j));
    case ResetLost(j) => ResetFrameStill(st, j); StillGoes(st, OnResetLost(st, j));
  }

  lemma UserGoes(st: State, e: Event)
    requires Allowed(st, e) && 0 <= st.writeOffset <= |st.stream|
    requires e.Finish? || e.Boundary? || e.Enable? || e.Cancel? || e.Stop? || e.ShutDown?
    ensures Goes(st, Step(st, e))
  {
    hide Goes, Still, Close, SetReliableBoundary, EnableResetStreamAt, CancelWrite, StopSending, Shutdown;
    CloseStill(st);
    CancelStill(st);
    StillGoes(st, Step(st, e));
  }

  lemma StepGoes(st: State, e: Event)
    requires Inv(st) && Allowed(st, e)
    ensures 0 <= st.writeOffset <= |st.stream| && Goes(st, Step(st, e))
  {
    hide Inv, Shape, Goes, WriteNow, Iterate, Pop;
    InvShape(st);
    match e
    case Write(p, expired) => WriteGoes(st, p, expired);
    case Resume(expired) => IterateGoes(st, expired);
    case PopFrame(id, maxBytes, window) => PopGoes(st, id, maxBytes, window);
    case Acked(_) => FrameGoes(st, e);
    case Lost(_) => FrameGoes(st, e);
    case PopReset => FrameGoes(st, e);
    case ResetAcked(_) => FrameGoes(st, e);
    case ResetLost(_) => FrameGoes(st, e);
    case _ => UserGoes(st, e);
  }

  lemma InvShape(st: State)
    requires Inv(st)
    ensures 0 <= st.writeOffset <= |st.stream|
  {
  }

  lemma ExtendsTrans(a: State, b: State, c: State)
    requires 0 <= a.writeOffset <= |a.stream| && 0 <= b.writeOffset <= |b.stream|
    requires Extends(a, b) && Extends(b, c)
    ensures Extends(a, c)
  {
    assert a.stream[..a.writeOffset] == b.stream[..b.writeOffset][..a.writeOffset];
  }

  lemma {:induction false} RunExtends(st: State, events: seq<Event>, st': State)
    requires Inv(st) && Runs(st, events, st')
    ensures 0 <= st.writeOffset <= |st.stream| && Extends(st, st')
    decreases |events|
  {
    assert Shape(st);
    hide Inv, Step, Allowed, Extends;
    if events == [] {
      StillGoes(st, st);
    } else {
      var next := Step(st, events[0]);
      StepInv(st, events[0]);
      StepGoes(st, events[0]);
      RunExtends(next, events[1..], st');
      ExtendsTrans(st, next, st');
    }
  }

  /** f was in flight at some point of the run. */
  ghost predicate Sent(st: State, events: seq<Event>, f: Frame)
    decreases |events|
  {
    f in st.inflight || (events != [] && Allowed(st, events[0]) && Sent(Step(st, events[0]), events[1..], f))
  }

  /** Every frame that was ever sent carries bytes of the stream, and its FIN is at the end of the stream. */
  lemma {:induction false} SentPiece(st: State, events: seq<Event>, st': State, f: Frame)
    requires Inv(st) && Runs(st, events, st') && Sent(st, events, f) && !st'.reset && !st'.shutdown
    ensures 0 <= st'.writeOffset <= |st'.stream| && PieceOf(f, st'.stream, st'.writeOffset)
    ensures f.fin ==> End(f) == |st'.stream|
    decreases |events|
  {
    hide Inv, Step, Allowed, Extends;
    ReachesInv(st, events, st');
    if f in st.inflight {
      RunExtends(st, events, st');
      InflightPiece(st, st', f);
    } else {
      StepInv(st, events[0]);
      SentPiece(Step(st, events[0]), events[1..], st', f);
    }
  }

  lemma {:induction false} ReachesInv(st: State, events: seq<Event>, st': State)
    requires Inv(st) && Runs(st, events, st')
    ensures Inv(st') && 0 <= st'.writeOffset <= |st'.stream|
    decreases |events|
  {
    assert Shape(st);
    hide Inv, Step, Allowed;
    if events != [] {
      StepInv(st, events[0]);
      ReachesInv(Step(st, events[0]), events[1..], st');
    }
  }

  lemma InflightPiece(st: State, st': State, f: Frame)
    requires Inv(st) && f in st.inflight && 0 <= st'.writeOffset <= |st'.stream| && Extends(st, st') && !st'.reset
             && !st'.shutdown
    ensures PieceOf(f, st'.stream, st'.writeOffset) && (f.fin ==> End(f) == |st'.stream|)
  {
    hide Placed, Counted, Buffered, SmallFrames;
    PiecesLonger(st.inflight, st.stream, st.writeOffset, st'.stream, st'.writeOffset);
    var i :| 0 <= i < |st.inflight| && st.inflight[i] == f;
    assert PieceOf(st.inflight[i], st'.stream, st'.writeOffset);
    if f.fin && !st.finSent {
      FinCounted(st.inflight, i);
    }
  }

  lemma {:induction false} FinCounted(frames: seq<Frame>, i: int)
    requires 0 <= i < |frames| && frames[i].fin
    ensures Fins(frames) > 0
  {
    if i > 0 {
      assert frames[1..][i - 1] == frames[i];
      FinCounted(frames[1..], i - 1);
    }
  }

  /** What was acknowledged was sent. */
  lemma {:induction false} AckedSent(st: State, events: seq<Event>, st': State, f: Frame)
    requires Inv(st) && Runs(st, events, st') && f in st'.acked
    ensures f in st.acked || Sent(st, events, f)
    decreases |events|
  {
    hide Inv, Step, Allowed, Extends;
    if events != [] {
      StepInv(st, events[0]);
      AckedSent(Step(st, events[0]), events[1..], st', f);
      StepGoes(st, events[0]);
    }
  }

  /** No acknowledgment or loss, in any run, finds the count of outstanding frames at zero. */
  lemma NeverNegative(supports: bool, events: seq<Event>, st: State)
    requires Runs(Init(supports), events, st)
    ensures st.inflight != [] && !Ignores(st) ==> st.numOutstanding > 0
    ensures forall j :: 0 <= j < |st.resets| && st.resets[j].reliableSize == ReliableOffset(st) ==>
            st.numOutstanding > 0
  {
    hide Inv, Runs;
    ReachedInv(supports, events, st);
    if st.inflight != [] {
      LandInv(st, 0);
    }
    forall j | 0 <= j < |st.resets| && st.resets[j].reliableSize == ReliableOffset(st) ensures st.numOutstanding > 0 {
      WithoutResetInv(st, j);
    }
  }
}
