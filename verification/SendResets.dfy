/**
 When a reset stream is completed. A Write that waits when the stream is reset, and is woken up, still
 buffers the rest of its data if that fits. Nobody sends it, and the stream is never completed.
 */
module SendResets {
  import opened Common
  import opened StreamFrames
  import opened SendModel
  import opened SendRuns

  /** A reset stream of which nothing is outstanding, queued or to be sent again, and whose user knows of the reset. */
  ghost predicate Settled(st: State) {
    && st.reset && !st.shutdown
    && st.numOutstanding == 0 && st.retx == [] && st.queuedReset.None?
    && (st.finSent || st.cancellationFlagged || st.finishedWriting)
  }

  /** Data is buffered that will not be sent: it is beyond the reliable offset r. */
  ghost predicate Stuck(st: State, r: int) {
    st.reset && !st.completed && NextData(st) != [] && ReliableOffset(st) == r <= st.writeOffset
  }

  // ------------------------------------------------------ what completes a stream

  /** A stream becomes completed only when nothing is buffered. */
  ghost predicate Clean(st: State, st': State) {
    st'.completed ==> st.completed || NextData(st') == []
  }

  lemma CompleteClean(st: State, st': State)
    requires st'.completed == st.completed
    ensures Clean(st, Complete(st')) && Clean(st, st')
  {
  }

  lemma IterateClean(st: State, expired: bool)
    requires st.pending.Some?
    ensures Clean(st, Iterate(st, expired).st)
  {
    hide Clean, Complete, CanBuffer, NewlyCompleted;
    CompleteClean(st, Leave(BufferData(st)));
    CompleteClean(st, Leave(DropData(st)));
    CompleteClean(st, Leave(st));
    CompleteClean(st, st);
    CompleteClean(st, FlagReset(Leave(st)));
  }

  lemma BeginClean(st: State, p: seq<byte>, st': State)
    requires Clean(BeginWrite(st, p), st')
    ensures Clean(st, st')
  {
  }

  lemma WriteClean(st: State, p: seq<byte>, expired: bool)
    ensures Clean(st, WriteNow(st, p, expired).st)
  {
    hide Clean, Complete, Iterate, NewlyCompleted;
    CompleteClean(st, FlagReset(st));
    CompleteClean(st, st);
    IterateClean(BeginWrite(st, p), expired);
    BeginClean(st, p, Iterate(BeginWrite(st, p), expired).st);
  }

  lemma EmitCompleted(st: State, data: seq<byte>, nextFrame': Option<Frame>, dfw': seq<byte>)
    ensures Emit(st, data, nextFrame', dfw').completed == st.completed
  {
  }

  lemma PopNewCompleted(st: State, id: int, maxBytes: int, window: int)
    ensures PopNew(st, id, maxBytes, window).st.completed == st.completed
  {
    hide Emit, PopNew;
    var data, nextFrame', dfw' := PopNewEmits(st, id, maxBytes, window);
    EmitCompleted(st, data, nextFrame', dfw');
  }

  lemma ResendCompleted(st: State, n: int)
    requires st.retx != []
    ensures Resend(st).completed == st.completed
    ensures 0 < n < |st.retx[0].data| ==> ResendPart(st, n).completed == st.completed
  {
    hide Head, Tail;
  }

  lemma PopCompleted(st: State, id: int, maxBytes: int, window: int)
    ensures Pop(st, id, maxBytes, window).st.completed == st.completed
  {
    hide PopNew, Resend, ResendPart, MaxDataLen, Length;
    PopNewCompleted(st, id, maxBytes, window);
    if st.retx != [] {
      ResendCompleted(st, MaxDataLen(id, st.retx[0].offset, maxBytes));
    }
  }

  lemma LandCompleted(st: State, i: int)
    requires 0 <= i < |st.inflight|
    ensures Land(st, i).completed == st.completed && Lose(st, i).completed == st.completed
  {
    hide Requeue, Without;
  }

  lemma ResetCompleted(st: State, j: int)
    ensures st.queuedReset.Some? ==> SendReset(st).completed == st.completed
    ensures 0 <= j < |st.resets| ==>
            WithoutReset(st, j).completed == st.completed && OnResetLost(st, j).completed == st.completed
  {
  }

  lemma FrameClean(st: State, e: Event)
    requires Allowed(st, e) && (e.Acked? || e.Lost? || e.PopReset? || e.ResetAcked? || e.ResetLost?)
    ensures Clean(st, Step(st, e))
  {
    hide Clean, Complete, Land, Lose, SendReset, WithoutReset, OnResetLost;
    match e
    case Acked(i) => LandCompleted(st, i); CompleteClean(st, Land(st, i));
    case Lost(i) => LandCompleted(st, i); CompleteClean(st, Lose(st, i));
    case PopReset => ResetCompleted(st, 0); CompleteClean(st, SendReset(st));
    case ResetAcked(j) => ResetCompleted(st, j); CompleteClean(st, WithoutReset(st, j));
    case ResetLost(j) => ResetCompleted(st, j); CompleteClean(st, OnResetLost(st, j));
  }

  lemma UserClean(st: State, e: Event)
    requires Allowed(st, e) && (e.Finish? || e.Boundary? || e.Enable? || e.Cancel? || e.Stop? || e.ShutDown?)
    ensures Clean(st, Step(st, e))
  {
    hide Clean, Complete, TrimAll, TrimNext;
    CompleteClean(st, st);
    match e
    case Finish => CompleteClean(st, Closing(st));
    case Cancel => CompleteClean(st, FlagReset(st)); CompleteClean(st, Reset(st));
    case Boundary => CompleteClean(st, SetReliableBoundary(st));
    case Enable => CompleteClean(st, EnableResetStreamAt(st));
    case Stop => CompleteClean(st, StopSending(st));
    case ShutDown => CompleteClean(st, Shutdown(st));
  }

  lemma StepClean(st: State, e: Event)
    requires Allowed(st, e)
    ensures Clean(st, Step(st, e))
  {
    hide Clean, WriteNow, Iterate, Pop;
    match e
    case Write(p, expired) => WriteClean(st, p, expired);
    case Resume(expired) => IterateClean(st, expired);
    case PopFrame(id, maxBytes, window) =>
      PopCompleted(st, id, maxBytes, window);
      CompleteClean(st, Pop(st, id, maxBytes, window).st);
    case Acked(_) => FrameClean(st, e);
    case Lost(_) => FrameClean(st, e);
    case PopReset => FrameClean(st, e);
    case ResetAcked(_) => FrameClean(st, e);
    case ResetLost(_) => FrameClean(st, e);
    case _ => UserClean(st, e);
  }

  /**
   When the last step settles a reset stream, the stream is completed in this step exactly if nothing is
   buffered.
   */
  lemma CompletedIffNothingBuffered(supports: bool, events: seq<Event>, st: State, e: Event)
    requires Runs(Init(supports), events, st) && Allowed(st, e) && !st.completed && Settled(Step(st, e))
    ensures Step(st, e).completed <==> NextData(Step(st, e)) == []
  {
    hide Runs, Step, Allowed, Inv;
    ReachedInv(supports, events, st);
    StepReported(st, e);
    StepClean(st, e);
  }

  /** In every run, a reset stream that is settled is completed, or holds data that will not be sent. */
  lemma SettledReset(supports: bool, events: seq<Event>, st: State)
    requires Runs(Init(supports), events, st) && Settled(st)
    ensures st.completed || NextData(st) != []
  {
    hide Runs, Inv;
    ReachedInv(supports, events, st);
  }

  // ------------------------------------------------------------- stuck streams

  /** The woken Write makes a reset stream stuck exactly if the rest of its data fits into the buffer. */
  lemma WokenWriteSticks(st: State, expired: bool)
    requires st.pending.Some? && st.reset && !st.completed && NextData(st) == [] && ReliableOffset(st) <= st.writeOffset
    ensures Stuck(Iterate(st, expired).st, ReliableOffset(st)) <==> CanBuffer(st) && st.dfw != []
  {
    hide NewlyCompleted;
  }

  lemma CompleteStuck(st: State, r: int)
    requires Stuck(st, r)
    ensures Stuck(Complete(st), r)
  {
  }

  lemma LeaveStuck(st: State, r: int)
    requires Stuck(st, r)
    ensures Stuck(Leave(BufferData(st)), r) && Stuck(Leave(DropData(st)), r) && Stuck(Leave(st), r)
    ensures Stuck(FlagReset(Leave(st)), r) && Stuck(FlagReset(st), r)
  {
  }

  lemma IterateStuck(st: State, expired: bool, r: int)
    requires Stuck(st, r) && st.pending.Some?
    ensures Stuck(Iterate(st, expired).st, r)
  {
    hide Stuck, Complete, NewlyCompleted, CanBuffer, BufferData, DropData, Leave, FlagReset;
    LeaveStuck(st, r);
    CompleteStuck(FlagReset(Leave(st)), r);
  }

  lemma WriteStuck(st: State, p: seq<byte>, expired: bool, r: int)
    requires Stuck(st, r)
    ensures Stuck(WriteNow(st, p, expired).st, r)
  {
    assert st.reset;
    hide Stuck, Complete, Iterate, NewlyCompleted, FlagReset;
    LeaveStuck(st, r);
    CompleteStuck(FlagReset(st), r);
  }

  lemma ResendStuck(st: State, n: int, r: int)
    requires Stuck(st, r) && st.retx != []
    ensures Stuck(Resend(st), r) && (0 < n < |st.retx[0].data| ==> Stuck(ResendPart(st, n), r))
  {
  }

  lemma PopStuck(st: State, id: int, maxBytes: int, window: int, r: int)
    requires Stuck(st, r)
    ensures Stuck(Pop(st, id, maxBytes, window).st, r)
  {
    hide PopNew, Resend, ResendPart, MaxDataLen, Length;
    if st.retx != [] {
      ResendStuck(st, MaxDataLen(id, st.retx[0].offset, maxBytes), r);
    }
  }

  lemma LandStuck(st: State, i: int, r: int)
    requires Stuck(st, r) && 0 <= i < |st.inflight|
    ensures Stuck(Land(st, i), r) && Stuck(Lose(st, i), r)
  {
    hide Requeue, Without;
  }

  lemma ResetStuck(st: State, j: int, r: int)
    requires Stuck(st, r)
    ensures st.queuedReset.Some? ==> Stuck(SendReset(st), r)
    ensures 0 <= j < |st.resets| ==> Stuck(WithoutReset(st, j), r) && Stuck(OnResetLost(st, j), r)
  {
  }

  lemma FrameStuck(st: State, e: Event, r: int)
    requires Stuck(st, r) && Allowed(st, e)
    requires e.Acked? || e.Lost? || e.PopReset? || e.ResetAcked? || e.ResetLost?
    ensures Stuck(Step(st, e), r)
  {
    hide Stuck, Complete, Land, Lose, SendReset, WithoutReset, OnResetLost;
    match e
    case Acked(i) => LandStuck(st, i, r); CompleteStuck(Land(st, i), r);
    case Lost(i) => LandStuck(st, i, r); CompleteStuck(Lose(st, i), r);
    case PopReset => ResetStuck(st, 0, r);
    case ResetAcked(j) => ResetStuck(st, j, r); CompleteStuck(WithoutReset(st, j), r);
    case ResetLost(j) => ResetStuck(st, j, r);
  }

  lemma UserStuck(st: State, e: Event, r: int)
    requires Stuck(st, r) && Allowed(st, e)
    requires e.Finish? || e.Boundary? || e.Enable? || e.Cancel? || e.ShutDown? || (e.Stop? && r == 0)
    ensures Stuck(Step(st, e), r) || Step(st, e).shutdown
  {
    hide Complete, Reset;
    match e
    case Finish => CompleteStuck(Closing(st), r);
    case Cancel => CompleteStuck(FlagReset(st), r);
    case Boundary =>
    case Enable =>
    case ShutDown =>
    case Stop =>
  }

  lemma StepStuck(st: State, e: Event, r: int)
    requires Stuck(st, r) && Allowed(st, e) && (e.Stop? ==> r == 0)
    ensures Stuck(Step(st, e), r) || Step(st, e).shutdown
  {
    hide Stuck, WriteNow, Iterate, Pop;
    match e
    case Write(p, expired) => WriteStuck(st, p, expired, r);
    case Resume(expired) => IterateStuck(st, expired, r);
    case PopFrame(id, maxBytes, window) => PopStuck(st, id, maxBytes, window, r);
    case Acked(_) => FrameStuck(st, e, r);
    case Lost(_) => FrameStuck(st, e, r);
    case PopReset => FrameStuck(st, e, r);
    case ResetAcked(_) => FrameStuck(st, e, r);
    case ResetLost(_) => FrameStuck(st, e, r);
    case _ => UserStuck(st, e, r);
  }

  /** What was shut down stays shut down. */
  lemma {:induction false} RunShutdown(st: State, events: seq<Event>, st': State)
    requires Inv(st) && Runs(st, events, st') && st.shutdown
    ensures st'.shutdown
  {
    hide Inv, Runs;
    RunExtends(st, events, st');
  }

  /**
   A stuck stream is never completed, whatever happens to it, unless the connection is closed, or
   STOP_SENDING arrives while some of its data still has to be delivered.
   */
  lemma {:induction false} NeverCompleted(st: State, events: seq<Event>, st': State, r: int)
    requires Inv(st) && Stuck(st, r) && Runs(st, events, st') && (r == 0 || Stop !in events)
    ensures Stuck(st', r) || st'.shutdown
    decreases |events|
  {
    hide Inv, Stuck, Step, Allowed;
    if events != [] {
      StepInv(st, events[0]);
      StepStuck(st, events[0], r);
      var next := Step(st, events[0]);
      if next.shutdown {
        RunShutdown(next, events[1..], st');
      } else {
        NeverCompleted(next, events[1..], st', r);
      }
    }
  }

  // --------------------------------------------------------------- a failing run

  /** A thousand bytes. */
  function Thousand(): seq<byte> { seq(1000, _ => 7) }

  /** The second Write waits. */
  function Waiting(): State {
    Init(true).(nextFrame := Some(Frame(0, Thousand(), false)), dfw := Thousand(), pending := Some(1000),
                stream := Thousand() + Thousand())
  }

  lemma ReachWaiting()
    ensures var one := Step(Init(true), Write(Thousand(), false));
            one.pending.None? && Step(one, Write(Thousand(), false)) == Waiting()
  {
    var one := WriteNow(Init(true), Thousand(), false).st;
    assert [] + Thousand() == Thousand();
    assert one == Init(true).(nextFrame := Some(Frame(0, Thousand(), false)), stream := Thousand());
  }

  /** The stream is reset, and the waiting Write is woken up; it returns without an error. */
  function Woken(): State {
    Waiting().(reset := true, cancellationFlagged := true, queuedReset := Some(ResetFrame(0, 0)),
               nextFrame := Some(Frame(0, Thousand(), false)), dfw := [], pending := None)
  }

  lemma ReachWoken()
    ensures Iterate(CancelWrite(Waiting()), false) == WriteStep(Woken(), Returned(1000, NoError, false))
  {
  }

  /** RESET_STREAM is sent and acknowledged. */
  function Acknowledged(): State { Woken().(queuedReset := None) }

  lemma ReachAcknowledged()
    ensures Woken().queuedReset.Some? && |SendReset(Woken()).resets| == 1
    ensures OnResetAcked(SendReset(Woken()), 0) == Acknowledged()
  {
    assert SendReset(Woken()).resets == [ResetFrame(0, 0)];
    assert [ResetFrame(0, 0)][..0] + [ResetFrame(0, 0)][1..] == [];
  }

  function FailingRun(): seq<Event> {
    [Write(Thousand(), false)]
      + ([Write(Thousand(), false)] + ([Cancel] + ([Resume(false)] + ([PopReset] + ([ResetAcked(0)] + [])))))
  }

  /** Everything is settled, and the stream is not completed; and it never will be. */
  lemma NotCompleted()
    ensures Runs(Init(true), FailingRun(), Acknowledged())
    ensures Settled(Acknowledged()) && !Acknowledged().completed && Stuck(Acknowledged(), 0)
  {
    hide Runs, WriteNow, Iterate, CancelWrite, SendReset, OnResetAcked;
    ReachWaiting();
    ReachWoken();
    ReachAcknowledged();
    var end := Acknowledged();
    var sent := SendReset(Woken());
    Stay(end);
    Prepend(sent, ResetAcked(0), [], end);
    Prepend(Woken(), PopReset, [ResetAcked(0)] + [], end);
    WaitingStays();
    Prepend(CancelWrite(Waiting()), Resume(false), [PopReset] + ([ResetAcked(0)] + []), end);
    Prepend(Waiting(), Cancel, [Resume(false)] + ([PopReset] + ([ResetAcked(0)] + [])), end);
    var one := Step(Init(true), Write(Thousand(), false));
    var rest := [Cancel] + ([Resume(false)] + ([PopReset] + ([ResetAcked(0)] + [])));
    Prepend(one, Write(Thousand(), false), rest, end);
    Prepend(Init(true), Write(Thousand(), false), [Write(Thousand(), false)] + rest, end);
  }

  lemma WaitingStays()
    ensures CancelWrite(Waiting()).pending == Some(1000)
  {
  }
}
