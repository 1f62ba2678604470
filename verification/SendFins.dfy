/**
 Where FINs end up, and which final size is announced, when a stream is reset after its FIN was
 sent. Truncating a frame to the reliable offset leaves its FIN on, so that it ends the stream too
 early: in every run, that happens exactly if something was sent beyond the reliable offset.
 */
module SendFins {
  import opened Common
  import opened StreamFrames
  import opened SendModel
  import opened SendRuns

  /** The final size that RESET_STREAM announces. */
  function FinalSize(st: State): int {
    Max(st.writeOffset, ReliableOffset(st))
  }

  /** Nothing reaches beyond r, and a FIN is at r. */
  ghost predicate CutAt(frames: seq<Frame>, r: int) {
    forall i :: 0 <= i < |frames| ==> End(frames[i]) <= r && (frames[i].fin ==> End(frames[i]) == r)
  }

  /** FINs are at one of two places. */
  ghost predicate FinsAtEither(frames: seq<Frame>, m: int, n: int) {
    forall i :: 0 <= i < |frames| && frames[i].fin ==> End(frames[i]) == m || End(frames[i]) == n
  }

  ghost predicate Announces(st: State, n: int) {
    && (st.queuedReset.Some? ==> st.queuedReset.value.finalSize == n)
    && (forall j :: 0 <= j < |st.resets| && st.resets[j].reliableSize == ReliableOffset(st) ==>
        st.resets[j].finalSize == n)
  }

  /** After a reset, every frame to be sent again is cut at the reliable offset, FIN or not. */
  ghost predicate FinPlaces(st: State) {
    st.reset && !st.shutdown ==>
      var r := ReliableOffset(st);
      && Announces(st, FinalSize(st))
      && (if r == 0 then st.retx == [] else CutAt(st.retx, r) && FinsAtEither(st.inflight, FinalSize(st), r))
  }

  // ------------------------------------------------------------ transitions

  /** Changes that FinPlaces does not depend on. */
  lemma SamePlaces(st: State, st': State)
    requires FinPlaces(st) && st'.reset == st.reset && (st'.shutdown || !st.shutdown)
    requires st'.retx == st.retx && st'.inflight == st.inflight && st'.resets == st.resets
             && st'.queuedReset == st.queuedReset
    requires st'.writeOffset == st.writeOffset && ReliableOffset(st') == ReliableOffset(st)
    ensures FinPlaces(st')
  {
  }

  lemma CompletePlaces(st: State)
    requires FinPlaces(st)
    ensures FinPlaces(Complete(st))
  {
    hide NewlyCompleted;
  }

  lemma BufferPlaces(st: State)
    requires FinPlaces(st)
    ensures FinPlaces(Leave(BufferData(st)))
  {
    hide FinPlaces;
    SamePlaces(st, Leave(BufferData(st)));
  }

  lemma DropPlaces(st: State)
    requires FinPlaces(st)
    ensures FinPlaces(Leave(DropData(st)))
  {
    hide FinPlaces;
    SamePlaces(st, Leave(DropData(st)));
  }

  lemma FlagPlaces(st: State)
    requires FinPlaces(st)
    ensures FinPlaces(FlagReset(st))
  {
    hide FinPlaces;
    SamePlaces(st, FlagReset(st));
  }

  lemma LeavePlaces(st: State)
    requires FinPlaces(st)
    ensures FinPlaces(Leave(st))
  {
    hide FinPlaces;
    SamePlaces(st, Leave(st));
  }

  lemma BeginPlaces(st: State, p: seq<byte>)
    requires FinPlaces(st)
    ensures FinPlaces(BeginWrite(st, p))
  {
    hide FinPlaces;
    SamePlaces(st, BeginWrite(st, p));
  }

  lemma IteratePlaces(st: State, expired: bool)
    requires FinPlaces(st) && st.pending.Some?
    ensures FinPlaces(Iterate(st, expired).st)
  {
    hide FinPlaces, Complete, BufferData, DropData, FlagReset, Leave, NewlyCompleted;
    BufferPlaces(st);
    DropPlaces(st);
    LeavePlaces(st);
    FlagPlaces(Leave(st));
    CompletePlaces(FlagReset(Leave(st)));
  }

  lemma WritePlaces(st: State, p: seq<byte>, expired: bool)
    requires FinPlaces(st)
    ensures FinPlaces(WriteNow(st, p, expired).st)
  {
    hide FinPlaces, Complete, FlagReset, Iterate, NewlyCompleted;
    FlagPlaces(st);
    BeginPlaces(st, p);
    CompletePlaces(FlagReset(st));
    IteratePlaces(BeginWrite(st, p), expired);
  }

  lemma AppendPlace(frames: seq<Frame>, f: Frame, m: int, n: int)
    requires FinsAtEither(frames, m, n) && (f.fin ==> End(f) == m || End(f) == n)
    ensures FinsAtEither(frames + [f], m, n)
  {
  }

  lemma ResendPlaces(st: State)
    requires FinPlaces(st) && st.retx != []
    ensures FinPlaces(Resend(st))
  {
    if st.reset && !st.shutdown {
      AppendPlace(st.inflight, st.retx[0], FinalSize(st), ReliableOffset(st));
    }
  }

  lemma ResendPartPlacesFin(st: State, n: int)
    requires FinPlaces(st) && st.retx != [] && 0 < n < |st.retx[0].data|
    ensures FinPlaces(ResendPart(st, n))
  {
    if st.reset && !st.shutdown {
      AppendPlace(st.inflight, Head(st.retx[0], n), FinalSize(st), ReliableOffset(st));
    }
  }

  /** A new frame of a reset stream ends at the reliable offset if it carries the FIN. */
  lemma EmitPlaces(st: State, data: seq<byte>, nextFrame': Option<Frame>, dfw': seq<byte>)
    requires FinPlaces(st) && Inv(st) && EmitOk(st, data, nextFrame', dfw')
    ensures FinPlaces(Emit(st, data, nextFrame', dfw'))
  {
    hide Pieces, Placed, Counted, FinOk, SmallFrames, CutAt, Announces;
    if st.reset {
      var st' := Emit(st, data, nextFrame', dfw');
      var f := st'.inflight[|st.inflight|];
      assert FinalSize(st') == FinalSize(st);
      SameAnnounced(st, st');
      assert f.fin ==> End(f) == ReliableOffset(st);
      AppendPlace(st.inflight, f, FinalSize(st), ReliableOffset(st));
    }
  }

  lemma SameAnnounced(st: State, st': State)
    requires Announces(st, FinalSize(st)) && FinalSize(st') == FinalSize(st)
             && ReliableOffset(st') == ReliableOffset(st)
    requires st'.resets == st.resets && st'.queuedReset == st.queuedReset
    ensures Announces(st', FinalSize(st'))
  {
  }

  lemma PopNewPlaces(st: State, id: int, maxBytes: int, window: int)
    requires FinPlaces(st) && Inv(st) && !st.shutdown && (st.reset ==> st.writeOffset < ReliableOffset(st))
    ensures FinPlaces(PopNew(st, id, maxBytes, window).st)
  {
    hide Shape, Pieces, Placed, Buffered, Counted, FinOk, Emit, EmitOk, FinPlaces;
    if st.reset {
      ResetHasNext(st);
      var r := ReliableOffset(st);
      var n := Min(Min(window, r - st.writeOffset), MaxDataLen(id, st.writeOffset, maxBytes));
      if window > 0 && n > 0 {
        var data := st.nextFrame.value.data;
        var k := Min(n, |data|);
        NextNotEmpty(st);
        EmitBufferedOk(st, k);
        EmitPlaces(st, data[..k], Rest(st, k), st.dfw);
      }
    } else {
      NotReset(st, id, maxBytes, window);
    }
  }

  lemma NextNotEmpty(st: State)
    requires Inv(st) && st.nextFrame.Some?
    ensures st.nextFrame.value.data != []
  {
  }

  lemma NotReset(st: State, id: int, maxBytes: int, window: int)
    requires !st.reset
    ensures FinPlaces(PopNew(st, id, maxBytes, window).st)
  {
    hide PopNew;
    var data, nextFrame', dfw' := PopNewEmits(st, id, maxBytes, window);
  }

  lemma PopPlaces(st: State, id: int, maxBytes: int, window: int)
    requires FinPlaces(st) && Inv(st)
    ensures FinPlaces(Pop(st, id, maxBytes, window).st)
  {
    hide FinPlaces, Inv, PopNew, Resend, ResendPart;
    var r := ReliableOffset(st);
    if st.shutdown || (st.reset && (r == 0 || (st.writeOffset >= r && st.retx == []))) {
    } else if st.retx != [] {
      var f := st.retx[0];
      var n := MaxDataLen(id, f.offset, maxBytes);
      if Length(id, f) <= maxBytes {
        ResendPlaces(st);
      } else if 0 < n < |f.data| {
        ResendPartPlacesFin(st, n);
      }
    } else {
      PopNewPlaces(st, id, maxBytes, window);
    }
  }

  lemma WithoutPlace(frames: seq<Frame>, i: int, m: int, n: int)
    requires FinsAtEither(frames, m, n) && 0 <= i < |frames|
    ensures FinsAtEither(Without(frames, i), m, n)
  {
    var w := Without(frames, i);
    assert forall j :: 0 <= j < |w| ==> w[j] == if j < i then frames[j] else frames[j + 1];
  }

  lemma LandPlaces(st: State, i: int)
    requires FinPlaces(st) && 0 <= i < |st.inflight|
    ensures FinPlaces(OnAcked(st, i))
  {
    if st.reset && !st.shutdown && ReliableOffset(st) != 0 {
      WithoutPlace(st.inflight, i, FinalSize(st), ReliableOffset(st));
    }
  }

  /** A lost frame is cut at the reliable offset, and its FIN moves there. */
  lemma LosePlaces(st: State, i: int)
    requires FinPlaces(st) && 0 <= i < |st.inflight|
    ensures FinPlaces(OnLost(st, i))
  {
    if st.reset && !st.shutdown && ReliableOffset(st) != 0 {
      var f, r := st.inflight[i], ReliableOffset(st);
      WithoutPlace(st.inflight, i, FinalSize(st), r);
      if f.offset < r {
        assert End(TrimTo(f, r)) <= r && (f.fin ==> End(TrimTo(f, r)) == r);
        assert CutAt(st.retx + [TrimTo(f, r)], r);
      }
    }
  }

  /** Cutting frames of which one may carry the FIN at n >= r. */
  lemma {:induction false} TrimAllCut(frames: seq<Frame>, n: int, r: int)
    requires FinsAt(frames, n) && r <= n
    ensures CutAt(TrimAll(frames, r), r)
  {
    if frames != [] {
      var rest := frames[1..];
      assert FinsAt(rest, n);
      TrimAllCut(rest, n, r);
      var f := frames[0];
      assert f.fin ==> End(f) == n;
      if f.offset < r {
        assert End(TrimTo(f, r)) <= r && (f.fin ==> End(TrimTo(f, r)) == r);
        assert TrimAll(frames, r) == [TrimTo(f, r)] + TrimAll(rest, r);
      } else {
        assert TrimAll(frames, r) == TrimAll(rest, r);
      }
    }
  }

  /** Before a reset, FINs are at the end of the stream, and the reliable offset is not beyond what was sent. */
  lemma FinsBefore(st: State)
    requires Inv(st) && !st.reset && !st.shutdown
    ensures FinsAt(st.retx, FinalSize(st)) && FinsAt(st.inflight, FinalSize(st))
  {
    hide Pieces, Placed, Counted;
    if st.finSent {
      assert st.stream[st.writeOffset..] == [];
      assert NextData(st) == [];
    } else {
      NoFins(st.retx, FinalSize(st));
      NoFins(st.inflight, FinalSize(st));
    }
  }

  lemma CancelPlaces(st: State)
    requires FinPlaces(st) && Inv(st)
    ensures FinPlaces(CancelWrite(st))
  {
    if !st.shutdown && !st.reset {
      FinsBefore(st);
      assert st.resets == [];
      hide Inv;
      TrimAllCut(st.retx, FinalSize(st), ReliableOffset(st));
    }
  }

  lemma StopPlaces(st: State)
    requires FinPlaces(st) && Inv(st)
    ensures FinPlaces(StopSending(st))
  {
    hide Pieces, Placed, Buffered, FinOk, SmallFrames;
  }

  lemma WithoutResetPlaces(st: State, j: int)
    requires FinPlaces(st) && 0 <= j < |st.resets|
    ensures FinPlaces(WithoutReset(st, j))
    ensures st.resets[j].reliableSize == ReliableOffset(st) ==>
            FinPlaces(WithoutReset(st, j).(queuedReset := Some(st.resets[j])))
  {
    hide CutAt, FinsAtEither;
    var w := st.resets[..j] + st.resets[j + 1..];
    assert forall k :: 0 <= k < |w| ==> w[k] == if k < j then st.resets[k] else st.resets[k + 1];
  }

  lemma ResetFramePlaces(st: State, j: int)
    requires FinPlaces(st) && 0 <= j < |st.resets|
    ensures FinPlaces(OnResetAcked(st, j)) && FinPlaces(OnResetLost(st, j))
  {
    hide FinPlaces, WithoutReset, Complete;
    WithoutResetPlaces(st, j);
    CompletePlaces(WithoutReset(st, j));
  }

  lemma OtherPlaces(st: State, e: Event)
    requires FinPlaces(st) && Allowed(st, e) && (e.Finish? || e.Boundary? || e.Enable? || e.ShutDown? || e.PopReset?)
    ensures FinPlaces(Step(st, e))
  {
  }

  lemma StepPlaces(st: State, e: Event)
    requires FinPlaces(st) && Inv(st) && Allowed(st, e)
    ensures FinPlaces(Step(st, e))
  {
    hide FinPlaces, Inv;
    match e
    case Write(p, expired) => WritePlaces(st, p, expired);
    case Resume(expired) => IteratePlaces(st, expired);
    case PopFrame(id, maxBytes, window) => PopPlaces(st, id, maxBytes, window);
    case Acked(i) => LandPlaces(st, i);
    case Lost(i) => LosePlaces(st, i);
    case Cancel => CancelPlaces(st);
    case Stop => StopPlaces(st);
    case ResetAcked(j) => ResetFramePlaces(st, j);
    case ResetLost(j) => ResetFramePlaces(st, j);
    case _ => OtherPlaces(st, e);
  }

  lemma {:induction false} RunPlaces(st: State, events: seq<Event>, st': State)
    requires FinPlaces(st) && Inv(st) && Runs(st, events, st')
    ensures FinPlaces(st')
    decreases |events|
  {
    hide FinPlaces, Inv, Step, Allowed;
    if events != [] {
      StepInv(st, events[0]);
      StepPlaces(st, events[0]);
      RunPlaces(Step(st, events[0]), events[1..], st');
    }
  }

  lemma InitPlaces(supports: bool)
    ensures FinPlaces(Init(supports))
  {
  }

  lemma ReachedPlaces(supports: bool, events: seq<Event>, st: State)
    requires Runs(Init(supports), events, st)
    ensures FinPlaces(st)
  {
    hide Inv, FinPlaces, Runs, Step, Allowed, Init;
    InitInv(supports);
    InitPlaces(supports);
    RunPlaces(Init(supports), events, st);
  }

  // ---------------------------------------------------------------- results

  /**
   In every run: a FIN that waits to be sent again after a reset, whether its frame was lost before
   or after it, ends the stream at the reliable offset. That is the final size announced to the peer
   exactly if nothing was sent beyond the reliable offset.
   */
  lemma FinAfterReset(supports: bool, events: seq<Event>, st: State, i: int)
    requires Runs(Init(supports), events, st) && st.reset && !st.shutdown
    requires 0 <= i < |st.retx| && st.retx[i].fin
    ensures Announces(st, FinalSize(st))
    ensures End(st.retx[i]) == ReliableOffset(st)
    ensures End(st.retx[i]) == FinalSize(st) <==> st.writeOffset <= ReliableOffset(st)
  {
    hide Runs;
    ReachedPlaces(supports, events, st);
  }

  /** After a reset, STOP_SENDING keeps the final size exactly if everything up to the reliable offset was sent. */
  lemma FinalSizeKept(supports: bool, events: seq<Event>, st: State)
    requires Runs(Init(supports), events, st) && st.reset && !st.shutdown && ReliableOffset(st) > 0
    ensures Announces(st, FinalSize(st))
    ensures var again := StopSending(st).queuedReset;
            again.Some? && (again.value.finalSize == FinalSize(st) <==> ReliableOffset(st) <= st.writeOffset)
  {
    hide Runs;
    ReachedPlaces(supports, events, st);
  }

  // ----------------------------------------------------------- failing runs

  /** One byte is written, and has to be delivered reliably. */
  function OneWritten(): State {
    Init(true).(nextFrame := Some(Frame(0, [7], false)), stream := [7], reliableSize := 1)
  }

  lemma ReachOneWritten()
    ensures Step(Step(Init(true), Write([7], false)), Boundary) == OneWritten()
  {
    assert [] + [7] == [7];
  }

  lemma OneWrittenRun(rest: seq<Event>, st: State)
    requires Runs(OneWritten(), rest, st)
    ensures Runs(Init(true), WriteOne(rest), st)
  {
    hide Runs;
    ReachOneWritten();
    Prepend(Step(Init(true), Write([7], false)), Boundary, rest, st);
    Prepend(Init(true), Write([7], false), [Boundary] + rest, st);
  }

  /** Two bytes were written, the first one reliably, and sent with the FIN. */
  function FinSent(): State {
    Init(true).(writeOffset := 2, reliableSize := 1, numOutstanding := 1, finishedWriting := true, finSent := true,
                stream := [7, 8], inflight := [Frame(0, [7, 8], true)])
  }

  lemma ReachFinSent()
    ensures var two := WriteNow(OneWritten(), [8], false).st;
            FinSent() == Pop(Close(two), 0, 100, 100).st && two.pending.None?
  {
    assert [7] + [8] == [7, 8];
    var two := WriteNow(OneWritten(), [8], false).st;
    assert two.nextFrame == Some(Frame(0, [7, 8], false));
    var closed := Close(two);
    assert [7, 8][..2] == [7, 8];
    assert Pop(closed, 0, 100, 100).st == EmitBuffered(closed, 97);
  }

  /** A byte is written and made reliable. */
  function WriteOne(rest: seq<Event>): seq<Event> {
    [Write([7], false)] + ([Boundary] + rest)
  }

  /** A second byte is written, and both are sent with the FIN. */
  function SendFin(rest: seq<Event>): seq<Event> {
    WriteOne([Write([8], false)] + ([Finish] + ([PopFrame(0, 100, 100)] + rest)))
  }

  lemma FinSentRun(rest: seq<Event>, st: State)
    requires Runs(FinSent(), rest, st)
    ensures Runs(Init(true), SendFin(rest), st)
  {
    hide Runs, Pop, Close, WriteNow;
    ReachFinSent();
    var two := WriteNow(OneWritten(), [8], false).st;
    Prepend(Close(two), PopFrame(0, 100, 100), rest, st);
    Prepend(two, Finish, [PopFrame(0, 100, 100)] + rest, st);
    Prepend(OneWritten(), Write([8], false), [Finish] + ([PopFrame(0, 100, 100)] + rest), st);
    OneWrittenRun([Write([8], false)] + ([Finish] + ([PopFrame(0, 100, 100)] + rest)), st);
  }

  lemma CutFrame()
    ensures var f := Frame(0, [7, 8], true);
            TrimTo(f, 1) == Frame(0, [7], true) && TrimAll([f], 1) == [Frame(0, [7], true)]
  {
    assert [7, 8][..1] == [7];
    NoneTrimmed(1);
  }

  /** The final size 2 is announced, and a FIN is sent again after the first byte. */
  ghost predicate EndsEarly(events: seq<Event>) {
    exists st :: Runs(Init(true), events, st) && st.retx == [Frame(0, [7], true)]
      && st.queuedReset == Some(ResetFrame(2, 1))
  }

  /** The FIN is sent again before the final size: its frame is lost after the reset, or before it. */
  lemma FinBeforeFinalSize()
    ensures EndsEarly(SendFin([Cancel] + [Lost(0)])) && EndsEarly(SendFin([Lost(0)] + [Cancel]))
  {
    LostAfter();
    LostBefore();
  }

  lemma LostAfter()
    ensures EndsEarly(SendFin([Cancel] + [Lost(0)]))
  {
    hide Runs;
    CutFrame();
    var a := CancelWrite(FinSent());
    assert a.inflight == [Frame(0, [7, 8], true)];
    var b := OnLost(a, 0);
    Stay(b);
    Prepend(a, Lost(0), [], b);
    assert [Lost(0)] + [] == [Lost(0)];
    Prepend(FinSent(), Cancel, [Lost(0)], b);
    FinSentRun([Cancel] + [Lost(0)], b);
  }

  lemma LostBefore()
    ensures EndsEarly(SendFin([Lost(0)] + [Cancel]))
  {
    hide Runs;
    CutFrame();
    var a := OnLost(FinSent(), 0);
    assert a.retx == [Frame(0, [7, 8], true)];
    var b := CancelWrite(a);
    Stay(b);
    Prepend(a, Cancel, [], b);
    assert [Cancel] + [] == [Cancel];
    Prepend(FinSent(), Lost(0), [Cancel], b);
    FinSentRun([Lost(0)] + [Cancel], b);
  }

  /** The final size 1 is announced, and after STOP_SENDING the final size 0. */
  lemma FinalSizeChanges()
    ensures exists st :: Runs(Init(true), WriteOne([Cancel] + ([PopReset] + [Stop])), st)
                         && st.resets == [ResetFrame(1, 1)] && st.queuedReset == Some(ResetFrame(0, 0))
  {
    hide Runs;
    var a := CancelWrite(OneWritten());
    var b := SendReset(a);
    var c := StopSending(b);
    Stay(c);
    Prepend(b, Stop, [], c);
    assert [Stop] + [] == [Stop];
    Prepend(a, PopReset, [Stop], c);
    Prepend(OneWritten(), Cancel, [PopReset] + [Stop], c);
    OneWrittenRun([Cancel] + ([PopReset] + [Stop]), c);
  }
}
