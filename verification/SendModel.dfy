/**
 The sending half of a stream as a transition system. The state holds the fields of the stream and
 the history needed to say where every byte is. One transition is what happens under one hold of the
 mutex.
 */
module SendModel {
  import opened Common
  import opened StreamFrames

  /** A RESET_STREAM frame, or RESET_STREAM_AT if reliableSize > 0. */
  datatype ResetFrame = ResetFrame(finalSize: int, reliableSize: int)

  datatype State = State(
    numOutstanding: int,
    retx: seq<Frame>,                  // retransmissionQueue
    reliableSize: int,
    writeOffset: int,
    shutdown: bool,                    // shutdownErr != nil
    reset: bool,                       // resetErr != nil
    queuedReset: Option<ResetFrame>,
    supportsResetStreamAt: bool,
    finishedWriting: bool,
    finSent: bool,
    cancellationFlagged: bool,
    completed: bool,
    dfw: seq<byte>,                    // dataForWriting; nil is empty
    nextFrame: Option<Frame>,
    pending: Option<int>,              // the length passed to a Write that has not returned
    // history
    stream: seq<byte>,                 // all bytes accepted by Write, and those it is waiting to hand over
    acked: seq<Frame>,
    inflight: seq<Frame>,              // STREAM frames sent, neither acknowledged nor declared lost
    resets: seq<ResetFrame>,           // the same for RESET_STREAM frames
    reports: int)                      // how often completion was reported

  function Init(supports: bool): State {
    State(0, [], 0, 0, false, false, None, supports, false, false, false, false, [], None, None, [], [], [], [], 0)
  }

  function ReliableOffset(st: State): int {
    if st.supportsResetStreamAt then st.reliableSize else 0
  }

  function NextData(st: State): seq<byte> {
    if st.nextFrame.Some? then st.nextFrame.value.data else []
  }

  function CanBuffer(st: State): bool {
    |NextData(st)| + |st.dfw| <= MaxPacketBufferSize
  }

  // ------------------------------------------------------------ invariant

  /** In how many frames, acknowledged, in flight or waiting to be sent again, the byte at p is. */
  ghost function Places(acked: seq<Frame>, inflight: seq<Frame>, retx: seq<Frame>, p: int): nat {
    Count(acked, p) + Count(inflight, p) + Count(retx, p)
  }

  /** Bytes below this offset are delivered reliably. */
  ghost function Limit(st: State): int {
    if st.reset then ReliableOffset(st) else |st.stream|
  }

  ghost predicate SmallFrames(frames: seq<Frame>) {
    forall i :: 0 <= i < |frames| ==> |frames[i].data| <= MaxPacketBufferSize
  }

  ghost predicate Shape(st: State) {
    && 0 <= st.writeOffset <= |st.stream| && 0 <= st.reliableSize
    && (st.nextFrame.Some? ==>
          var f := st.nextFrame.value; f.offset == st.writeOffset && !f.fin && 0 < |f.data| <= MaxPacketBufferSize)
    && SmallFrames(st.retx) && SmallFrames(st.inflight)
    && (st.shutdown ==> !st.finishedWriting)
    && (st.finSent ==> st.finishedWriting)
    && st.reports == if st.completed then 1 else 0
  }

  /** Every frame carries the right bytes for its offset, and nothing beyond the write offset. */
  ghost predicate Pieces(st: State) {
    && PiecesOf(st.acked, st.stream, st.writeOffset)
    && PiecesOf(st.inflight, st.stream, st.writeOffset)
    && PiecesOf(st.retx, st.stream, st.writeOffset)
  }

  /** Every byte sent that has to be delivered is in exactly one frame. */
  ghost predicate Placed(st: State) {
    !st.shutdown ==> forall p :: 0 <= p < st.writeOffset && p < Limit(st) ==>
      Places(st.acked, st.inflight, st.retx, p) == 1
  }

  /** Every byte not yet sent that has to be delivered is buffered, in order. */
  ghost predicate Buffered(st: State)
    requires 0 <= st.writeOffset <= |st.stream|
  {
    !st.shutdown ==>
      if !st.reset then
        && st.stream[st.writeOffset..] == NextData(st) + st.dfw
        && st.reliableSize <= st.writeOffset + |NextData(st)|
        && (st.pending.None? ==> st.dfw == [])
        && (st.pending.Some? ==> |st.dfw| <= st.pending.value && !st.finishedWriting)
      else
        var r := ReliableOffset(st);
        && r <= |st.stream|
        && (st.writeOffset < r ==>
            r - st.writeOffset <= |NextData(st)| && NextData(st)[..r - st.writeOffset] == st.stream[st.writeOffset..r])
  }

  /** The RESET_STREAM frames whose fate still matters. */
  function Tracked(resets: seq<ResetFrame>, r: int): int {
    if resets == [] then 0 else Tracked(resets[1..], r) + if resets[0].reliableSize == r then 1 else 0
  }

  /** The outstanding frames are those in flight, except STREAM frames once nothing has to be delivered. */
  ghost predicate Counted(st: State) {
    var r := ReliableOffset(st);
    && st.numOutstanding == (if st.reset && r == 0 then 0 else |st.inflight|) + Tracked(st.resets, r)
    && (!st.reset ==> st.resets == [] && st.queuedReset.None?)
    && (st.queuedReset.Some? ==> st.queuedReset.value.reliableSize == r)
    && (st.reset && r > 0 ==> forall i :: 0 <= i < |st.resets| ==> st.resets[i].reliableSize == r)
  }

  ghost predicate FinsAt(frames: seq<Frame>, n: int) {
    forall i :: 0 <= i < |frames| && frames[i].fin ==> End(frames[i]) == n
  }

  /** Without a reset, there is exactly one FIN, at the end of the stream, once it was sent. */
  ghost predicate FinOk(st: State) {
    !st.reset && !st.shutdown ==>
      && Fins(st.acked) + Fins(st.inflight) + Fins(st.retx) == (if st.finSent then 1 else 0)
      && (st.finSent ==>
            && st.writeOffset == |st.stream|
            && FinsAt(st.acked, |st.stream|) && FinsAt(st.inflight, |st.stream|) && FinsAt(st.retx, |st.stream|))
  }

  lemma {:induction false} NoFins(frames: seq<Frame>, n: int)
    requires Fins(frames) == 0
    ensures FinsAt(frames, n)
  {
    if frames != [] {
      NoFins(frames[1..], n);
      forall i | 0 <= i < |frames| && frames[i].fin ensures End(frames[i]) == n {
        assert i > 0 && frames[i] == frames[1..][i - 1];
      }
    }
  }

  /** Holds in every reachable state. */
  ghost predicate Inv(st: State) {
    Shape(st) && Pieces(st) && Placed(st) && Buffered(st) && Counted(st) && FinOk(st)
  }

  lemma InitInv(supports: bool)
    ensures Inv(Init(supports))
  {
  }

  // ------------------------------------------------------------ completion

  /** isNewlyCompleted */
  function NewlyCompleted(st: State): bool {
    && !st.completed
    && NextData(st) == []
    && !(st.numOutstanding > 0 || |st.retx| > 0 || st.queuedReset.Some?)
    && (st.finSent || (st.reset && (st.cancellationFlagged || st.finishedWriting)))
  }

  function Complete(st: State): State {
    if NewlyCompleted(st) then st.(completed := true, reports := st.reports + 1) else st
  }

  lemma CompleteInv(st: State)
    requires Inv(st)
    ensures Inv(Complete(st))
  {
  }

  /** Without a reset, if the FIN was sent and nothing is outstanding, every byte and the FIN were acknowledged. */
  lemma AllAcked(st: State)
    requires Inv(st) && !st.reset && !st.shutdown && st.finSent && st.numOutstanding == 0 && st.retx == []
    ensures forall p :: 0 <= p < |st.stream| ==> Count(st.acked, p) == 1
    ensures PiecesOf(st.acked, st.stream, |st.stream|)
    ensures Fins(st.acked) == 1 && FinsAt(st.acked, |st.stream|)
  {
    assert st.inflight == [];
    forall p | 0 <= p < |st.stream| ensures Count(st.acked, p) == 1 {
      assert Places(st.acked, st.inflight, st.retx, p) == 1;
    }
  }

  // ----------------------------------------------------------------- write

  /** A Write hands over p. */
  function BeginWrite(st: State, p: seq<byte>): State {
    st.(dfw := p, stream := st.stream + p, pending := Some(|p|))
  }

  lemma TailGrows(stream: seq<byte>, w: int, data: seq<byte>, p: seq<byte>)
    requires 0 <= w <= |stream| && stream[w..] == data + []
    ensures (stream + p)[w..] == data + p && (stream + p)[..w] == stream[..w]
  {
  }

  lemma BeginBuffered(st: State, p: seq<byte>)
    requires Shape(st) && Buffered(st) && !st.reset && !st.shutdown && !st.finishedWriting && st.pending.None?
    ensures Buffered(BeginWrite(st, p))
  {
    hide SmallFrames;
    TailGrows(st.stream, st.writeOffset, NextData(st), p);
  }

  lemma BeginPlaced(st: State, p: seq<byte>)
    requires Shape(st) && Placed(st) && !st.reset
    ensures Placed(BeginWrite(st, p))
  {
    hide SmallFrames, Places;
  }

  lemma BeginRest(st: State, p: seq<byte>)
    requires Inv(st) && !st.reset && !st.shutdown && !st.finishedWriting && p != []
    ensures Shape(BeginWrite(st, p)) && Counted(BeginWrite(st, p)) && FinOk(BeginWrite(st, p))
  {
    hide Buffered, Placed, Pieces, SmallFrames, Fins, FinsAt, Tracked;
  }

  lemma BeginPieces(st: State, p: seq<byte>)
    requires Shape(st) && Pieces(st)
    ensures Pieces(BeginWrite(st, p))
  {
    assert st.stream[..st.writeOffset] <= st.stream + p;
    PiecesGrow(st, st.stream + p, st.writeOffset);
  }

  lemma BeginWriteInv(st: State, p: seq<byte>)
    requires Inv(st) && !st.reset && !st.shutdown && !st.finishedWriting && st.pending.None? && p != []
    ensures Inv(BeginWrite(st, p))
  {
    hide Shape, Pieces, Placed, Buffered, Counted, FinOk;
    BeginBuffered(st, p);
    BeginPlaced(st, p);
    BeginPieces(st, p);
    BeginRest(st, p);
  }

  /** The pieces sent so far stay pieces of a longer stream. */
  lemma PiecesGrow(st: State, stream: seq<byte>, n: int)
    requires Pieces(st) && 0 <= st.writeOffset <= n <= |stream| && st.writeOffset <= |st.stream|
    requires st.stream[..st.writeOffset] <= stream
    ensures PiecesOf(st.acked, stream, n) && PiecesOf(st.inflight, stream, n) && PiecesOf(st.retx, stream, n)
  {
    PiecesLonger(st.acked, st.stream, st.writeOffset, stream, n);
    PiecesLonger(st.inflight, st.stream, st.writeOffset, stream, n);
    PiecesLonger(st.retx, st.stream, st.writeOffset, stream, n);
  }

  /** The rest of the data fits into the next frame. */
  function BufferData(st: State): State {
    st.(nextFrame := Some(if st.nextFrame.None? then Frame(st.writeOffset, st.dfw, false)
                          else st.nextFrame.value.(data := st.nextFrame.value.data + st.dfw)),
        dfw := [])
  }

  lemma BufferDataInv(st: State)
    requires Inv(st) && CanBuffer(st) && st.dfw != []
    ensures Inv(BufferData(st))
  {
    var st' := BufferData(st);
    assert NextData(st') == NextData(st) + st.dfw;
    assert NextData(st') + [] == NextData(st');
  }

  /** The deadline passed: the rest of the data is not accepted. */
  function DropData(st: State): State {
    if st.reset || st.shutdown then st.(dfw := [])
    else st.(dfw := [], stream := st.stream[..Max(0, |st.stream| - |st.dfw|)])
  }

  lemma DropDataInv(st: State)
    requires Inv(st) && (st.reset || st.shutdown || st.pending.Some?)
    ensures Inv(DropData(st))
  {
    if !st.reset && !st.shutdown {
      var st' := DropData(st);
      var n := |st'.stream|;
      assert n == st.writeOffset + |NextData(st)|;
      assert st'.stream[st.writeOffset..] == NextData(st) by {
        assert st.stream[st.writeOffset..][..|NextData(st)|] == NextData(st);
      }
      assert st.stream[..st.writeOffset] == st'.stream[..st.writeOffset];
      PiecesGrow(st, st'.stream, st.writeOffset);
    }
  }

  datatype WriteError = NoError | DeadlineExceeded | StreamShutdown | StreamReset | StreamClosed

  /** A Write waits for data to be sent, or returns how much of its data was accepted. */
  datatype WriteResult = Blocked | Returned(n: int, err: WriteError, completed: bool)

  datatype WriteStep = WriteStep(st: State, result: WriteResult)

  function FlagReset(st: State): State {
    st.(cancellationFlagged := true)
  }

  /** The Write returns. */
  function Leave(st: State): State {
    st.(pending := None)
  }

  /** One round of the loop in write, with the mutex held. */
  function Iterate(st: State, expired: bool): WriteStep
    requires st.pending.Some?
  {
    var len := st.pending.value;
    var n := len - |st.dfw|;
    if CanBuffer(st) && st.dfw != [] then WriteStep(Leave(BufferData(st)), Returned(len, NoError, false))
    else if expired then WriteStep(Leave(DropData(st)), Returned(n, DeadlineExceeded, false))
    else if !(st.dfw == [] || st.shutdown || st.reset) then WriteStep(st, Blocked)
    else if n == len then WriteStep(Leave(st), Returned(n, NoError, false))
    else if st.shutdown then WriteStep(Leave(st), Returned(n, StreamShutdown, false))
    else WriteStep(Complete(FlagReset(Leave(st))), Returned(n, StreamReset, NewlyCompleted(FlagReset(Leave(st)))))
  }

  /** Write, up to the point where it returns or waits */
  function WriteNow(st: State, p: seq<byte>, expired: bool): WriteStep {
    if st.reset then WriteStep(Complete(FlagReset(st)), Returned(0, StreamReset, NewlyCompleted(FlagReset(st))))
    else if st.shutdown then WriteStep(st, Returned(0, StreamShutdown, false))
    else if st.finishedWriting then WriteStep(st, Returned(0, StreamClosed, false))
    else if expired then WriteStep(st, Returned(0, DeadlineExceeded, false))
    else if p == [] then WriteStep(st, Returned(0, NoError, false))
    else Iterate(BeginWrite(st, p), expired)
  }

  lemma WriteNowInv(st: State, p: seq<byte>, expired: bool)
    requires Inv(st) && st.pending.None?
    ensures Inv(WriteNow(st, p, expired).st)
  {
    hide Inv, Iterate, Complete;
    FlagInv(st);
    CompleteInv(FlagReset(st));
    if !st.reset && !st.shutdown && !st.finishedWriting && p != [] {
      BeginWriteInv(st, p);
      IterateInv(BeginWrite(st, p), expired);
    }
  }

  lemma LeaveInv(st: State)
    requires Inv(st) && (st.dfw == [] || st.reset || st.shutdown)
    ensures Inv(Leave(st))
  {
  }

  lemma IterateInv(st: State, expired: bool)
    requires Inv(st) && st.pending.Some?
    ensures Inv(Iterate(st, expired).st)
  {
    hide Shape, Pieces, Placed, Buffered, Counted, FinOk, Leave, FlagReset, Complete;
    if CanBuffer(st) && st.dfw != [] {
      BufferDataInv(st);
      LeaveInv(BufferData(st));
    } else if expired {
      DropDataInv(st);
      LeaveInv(DropData(st));
    } else if st.dfw == [] || st.shutdown || st.reset {
      LeaveInv(st);
      FlagInv(Leave(st));
      CompleteInv(FlagReset(Leave(st)));
    }
  }

  /** The number returned is the number of bytes that became part of the stream. */
  lemma IterateAccepts(st: State, expired: bool)
    requires Inv(st) && st.pending.Some? && !st.reset && !st.shutdown
    ensures var r := Iterate(st, expired);
            r.result.Returned? ==>
              && 0 <= r.result.n <= st.pending.value
              && r.st.stream == st.stream[..|st.stream| - (st.pending.value - r.result.n)]
  {
    assert st.stream[..|st.stream|] == st.stream;
  }

  lemma FlagInv(st: State)
    requires Inv(st)
    ensures Inv(FlagReset(st))
  {
  }

  // ------------------------------------------------------------------- pop

  /** Sends `data` in a new frame, leaving nextFrame' and dfw' to be sent. The last frame carries the FIN. */
  function Emit(st: State, data: seq<byte>, nextFrame': Option<Frame>, dfw': seq<byte>): State {
    var fin := st.finishedWriting && dfw' == [] && nextFrame'.None? && !st.finSent;
    Tracking(Advance(st, |data|, fin, nextFrame', dfw'), Frame(st.writeOffset, data, fin))
  }

  function Advance(st: State, n: int, fin: bool, nextFrame': Option<Frame>, dfw': seq<byte>): State {
    st.(writeOffset := st.writeOffset + n, nextFrame := nextFrame', dfw := dfw', finSent := st.finSent || fin)
  }

  /** A frame is in flight. */
  function Tracking(st: State, f: Frame): State {
    st.(inflight := st.inflight + [f], numOutstanding := st.numOutstanding + 1)
  }

  /** `data` is what comes next, and what is left is buffered as before. */
  ghost predicate EmitOk(st: State, data: seq<byte>, nextFrame': Option<Frame>, dfw': seq<byte>)
    requires 0 <= st.writeOffset
  {
    var w := st.writeOffset + |data|;
    && !st.shutdown && w <= |st.stream| && data == st.stream[st.writeOffset..w] && |data| <= MaxPacketBufferSize
    && (nextFrame'.Some? ==>
          var f := nextFrame'.value; f.offset == w && !f.fin && 0 < |f.data| <= MaxPacketBufferSize)
    && Buffered(Advance(st, |data|, false, nextFrame', dfw'))
    && (st.reset ==> w <= ReliableOffset(st) && data != [])
    && (data != [] || (st.nextFrame.None? && nextFrame'.None? && st.dfw == dfw' == []))
  }

  /** What is buffered does not depend on the frames already sent. */
  lemma BufferedSame(st: State, st': State)
    requires 0 <= st.writeOffset <= |st.stream| && Buffered(st)
    requires st == st'.(numOutstanding := st.numOutstanding, retx := st.retx, inflight := st.inflight,
                        acked := st.acked, finSent := st.finSent)
    ensures Buffered(st')
  {
  }

  lemma EmitPlaced(st: State, data: seq<byte>, nextFrame': Option<Frame>, dfw': seq<byte>)
    requires Inv(st) && EmitOk(st, data, nextFrame', dfw')
    ensures Placed(Emit(st, data, nextFrame', dfw'))
  {
    var st' := Emit(st, data, nextFrame', dfw');
    var f := st'.inflight[|st.inflight|];
    forall p | 0 <= p < st'.writeOffset && p < Limit(st') ensures Places(st'.acked, st'.inflight, st'.retx, p) == 1 {
      StreamFrames.CountAppend(st.inflight, f, p);
      if p >= st.writeOffset {
        CountBeyond(st.acked, st.stream, st.writeOffset, p);
        CountBeyond(st.inflight, st.stream, st.writeOffset, p);
        CountBeyond(st.retx, st.stream, st.writeOffset, p);
      } else {
        assert Places(st.acked, st.inflight, st.retx, p) == 1;
      }
    }
  }

  lemma EmitFin(st: State, data: seq<byte>, nextFrame': Option<Frame>, dfw': seq<byte>)
    requires Inv(st) && EmitOk(st, data, nextFrame', dfw')
    ensures FinOk(Emit(st, data, nextFrame', dfw'))
  {
    hide Placed, Counted, PiecesOf, SmallFrames;
    if !st.reset {
      var st' := Emit(st, data, nextFrame', dfw');
      var f := st'.inflight[|st.inflight|];
      StreamFrames.CountAppend(st.inflight, f, 0);
      assert f.fin ==> End(f) == |st.stream|;
      if f.fin {
        NoFins(st.acked, |st.stream|);
        NoFins(st.inflight, |st.stream|);
        NoFins(st.retx, |st.stream|);
      }
    }
  }

  lemma EmitPieces(st: State, data: seq<byte>, nextFrame': Option<Frame>, dfw': seq<byte>)
    requires Inv(st) && EmitOk(st, data, nextFrame', dfw')
    ensures Pieces(Emit(st, data, nextFrame', dfw')) && Shape(Emit(st, data, nextFrame', dfw'))
  {
    hide Placed, Counted, FinOk, Buffered;
    var st' := Emit(st, data, nextFrame', dfw');
    PiecesGrow(st, st.stream, st'.writeOffset);
    PiecesAppend(st.inflight, st'.inflight[|st.inflight|], st.stream, st'.writeOffset);
  }

  lemma EmitCounted(st: State, data: seq<byte>, nextFrame': Option<Frame>, dfw': seq<byte>)
    requires Counted(st) && (st.reset ==> ReliableOffset(st) > 0)
    ensures Counted(Emit(st, data, nextFrame', dfw'))
  {
  }

  lemma EmitInv(st: State, data: seq<byte>, nextFrame': Option<Frame>, dfw': seq<byte>)
    requires Inv(st) && EmitOk(st, data, nextFrame', dfw')
    ensures Inv(Emit(st, data, nextFrame', dfw'))
  {
    EmitPlaced(st, data, nextFrame', dfw');
    EmitFin(st, data, nextFrame', dfw');
    EmitPieces(st, data, nextFrame', dfw');
    EmitCounted(st, data, nextFrame', dfw');
    BufferedSame(Advance(st, |data|, false, nextFrame', dfw'), Emit(st, data, nextFrame', dfw'));
  }

  /** Sends up to n bytes of the buffered frame. */
  function EmitBuffered(st: State, n: int): State
    requires st.nextFrame.Some? && 0 < n
  {
    var data := st.nextFrame.value.data;
    var k := Min(n, |data|);
    Emit(st, data[..k], Rest(st, k), st.dfw)
  }

  /** The buffered frame without its first k bytes. */
  function Rest(st: State, k: int): Option<Frame>
    requires st.nextFrame.Some? && 0 <= k <= |st.nextFrame.value.data|
  {
    if k < |st.nextFrame.value.data| then Some(Frame(st.writeOffset + k, st.nextFrame.value.data[k..], false)) else None
  }

  /** Cutting k bytes off what is left of the stream. */
  lemma CutTail(stream: seq<byte>, w: int, data: seq<byte>, rest: seq<byte>, k: int)
    requires 0 <= w <= |stream| && stream[w..] == data + rest && 0 <= k <= |data|
    ensures w + k <= |stream| && data[..k] == stream[w..w + k] && stream[w + k..] == data[k..] + rest
  {
    var tail := stream[w..];
    assert data[..k] == tail[..k] == stream[w..w + k];
    assert stream[w + k..] == tail[k..] == data[k..] + rest;
  }

  lemma CutKnown(stream: seq<byte>, w: int, r: int, data: seq<byte>, k: int)
    requires 0 <= w <= r <= |stream| && r - w <= |data| && data[..r - w] == stream[w..r] && 0 <= k <= r - w
    ensures data[..k] == stream[w..w + k] && data[k..][..r - w - k] == stream[w + k..r]
  {
    var known := stream[w..r];
    assert data[..k] == known[..k] == stream[w..w + k];
    assert data[k..][..r - w - k] == known[k..] == stream[w + k..r];
  }

  /** What is left after the first k bytes of the buffered frame stays buffered. */
  lemma AdvanceBuffered(st: State, k: int)
    requires Shape(st) && Buffered(st) && !st.shutdown && st.nextFrame.Some? && 0 < k <= |st.nextFrame.value.data|
    requires st.reset ==> st.writeOffset + k <= ReliableOffset(st)
    ensures st.writeOffset + k <= |st.stream|
    ensures st.nextFrame.value.data[..k] == st.stream[st.writeOffset..st.writeOffset + k]
    ensures Buffered(Advance(st, k, false, Rest(st, k), st.dfw))
  {
    hide SmallFrames;
    var data := st.nextFrame.value.data;
    assert NextData(Advance(st, k, false, Rest(st, k), st.dfw)) == data[k..];
    if !st.reset {
      CutTail(st.stream, st.writeOffset, data, st.dfw, k);
    } else {
      CutKnown(st.stream, st.writeOffset, ReliableOffset(st), data, k);
    }
  }

  lemma EmitBufferedOk(st: State, k: int)
    requires Inv(st) && !st.shutdown && st.nextFrame.Some? && 0 < k <= |st.nextFrame.value.data|
    requires st.reset ==> st.writeOffset + k <= ReliableOffset(st)
    ensures EmitOk(st, st.nextFrame.value.data[..k], Rest(st, k), st.dfw)
  {
    hide Placed, Counted, FinOk, Pieces, SmallFrames, Buffered;
    AdvanceBuffered(st, k);
  }

  lemma EmitBufferedInv(st: State, n: int)
    requires Inv(st) && !st.shutdown && st.nextFrame.Some? && 0 < n
    requires st.reset ==> st.writeOffset + n <= ReliableOffset(st)
    ensures Inv(EmitBuffered(st, n))
  {
    var data := st.nextFrame.value.data;
    var k := Min(n, |data|);
    assert |data| > 0;
    EmitBufferedOk(st, k);
    EmitInv(st, data[..k], Rest(st, k), st.dfw);
  }

  /** Sends up to n bytes straight from the Write that is waiting. */
  function EmitDirect(st: State, n: int): State
    requires 0 < n
  {
    var k := Min(n, |st.dfw|);
    Emit(st, st.dfw[..k], None, st.dfw[k..])
  }

  lemma EmitDirectOk(st: State, k: int)
    requires Inv(st) && !st.shutdown && !st.reset && st.nextFrame.None? && 0 < k <= |st.dfw| && k <= MaxPacketBufferSize
    ensures EmitOk(st, st.dfw[..k], None, st.dfw[k..])
  {
    hide Placed, Counted, FinOk, Pieces, SmallFrames;
    assert [] + st.dfw == st.dfw + [];
    CutTail(st.stream, st.writeOffset, st.dfw, [], k);
    assert st.dfw[k..] + [] == [] + st.dfw[k..];
  }

  lemma EmitDirectInv(st: State, n: int)
    requires Inv(st) && !st.shutdown && !st.reset && st.nextFrame.None? && st.dfw != [] && 0 < n <= MaxPacketBufferSize
    ensures Inv(EmitDirect(st, n))
  {
    hide Shape, Pieces, Placed, Buffered, Counted, FinOk, EmitOk;
    var k := Min(n, |st.dfw|);
    EmitDirectOk(st, k);
    EmitInv(st, st.dfw[..k], None, st.dfw[k..]);
  }

  lemma EmitFinOnlyInv(st: State)
    requires Inv(st) && !st.shutdown && !st.reset && st.nextFrame.None? && st.dfw == []
    ensures Inv(Emit(st, [], None, []))
  {
    EmitInv(st, [], None, []);
  }

  /** Sends the first lost frame again, or its first n bytes. */
  function Resend(st: State): State
    requires st.retx != []
  {
    Tracking(st.(retx := st.retx[1..]), st.retx[0])
  }

  function ResendPart(st: State, n: int): State
    requires st.retx != [] && 0 < n < |st.retx[0].data|
  {
    var f := st.retx[0];
    Tracking(st.(retx := [Tail(f, n)] + st.retx[1..]), Head(f, n))
  }

  /** Moving frames between the lists without changing what they carry keeps everything in place. */
  lemma MoveInv(st: State, st': State)
    requires Inv(st) && Shape(st') && Pieces(st') && Counted(st')
    requires st' == st.(retx := st'.retx, inflight := st'.inflight, acked := st'.acked,
                        numOutstanding := st'.numOutstanding)
    requires forall p :: Places(st'.acked, st'.inflight, st'.retx, p) == Places(st.acked, st.inflight, st.retx, p)
    requires Fins(st'.acked) + Fins(st'.inflight) + Fins(st'.retx) == Fins(st.acked) + Fins(st.inflight) + Fins(st.retx)
    requires st.finSent && !st.reset && !st.shutdown ==>
             FinsAt(st'.acked, |st.stream|) && FinsAt(st'.inflight, |st.stream|) && FinsAt(st'.retx, |st.stream|)
    ensures Inv(st')
  {
  }

  lemma ResendInv(st: State)
    requires Inv(st) && st.retx != [] && !(st.reset && ReliableOffset(st) == 0)
    ensures Inv(Resend(st))
  {
    var st', f := Resend(st), st.retx[0];
    assert st.retx == [f] + st.retx[1..];
    forall p ensures Places(st'.acked, st'.inflight, st'.retx, p) == Places(st.acked, st.inflight, st.retx, p) {
      StreamFrames.CountAppend(st.inflight, f, p);
    }
    StreamFrames.CountAppend(st.inflight, f, 0);
    PiecesAppend(st.inflight, f, st.stream, st.writeOffset);
    assert PiecesOf(st'.retx, st.stream, st.writeOffset);
    MoveInv(st, st');
  }

  lemma ResendPartPlaces(st: State, n: int)
    requires Pieces(st) && st.retx != [] && 0 < n < |st.retx[0].data|
    ensures Pieces(ResendPart(st, n))
    ensures var st' := ResendPart(st, n);
            && (forall p :: Places(st'.acked, st'.inflight, st'.retx, p) == Places(st.acked, st.inflight, st.retx, p))
            && Fins(st'.acked) + Fins(st'.inflight) + Fins(st'.retx) ==
              Fins(st.acked) + Fins(st.inflight) + Fins(st.retx)
  {
    var st', f := ResendPart(st, n), st.retx[0];
    var rest := st.retx[1..];
    assert st'.retx[0] == Tail(f, n) && st'.retx[1..] == rest;
    forall p ensures Places(st'.acked, st'.inflight, st'.retx, p) == Places(st.acked, st.inflight, st.retx, p) {
      StreamFrames.CountAppend(st.inflight, Head(f, n), p);
      CountSplit(f, n, p);
    }
    StreamFrames.CountAppend(st.inflight, Head(f, n), 0);
    PiecesOfPart(f, n, st.stream, st.writeOffset);
    PiecesAppend(st.inflight, Head(f, n), st.stream, st.writeOffset);
  }

  lemma ResendPartInv(st: State, n: int)
    requires Inv(st) && st.retx != [] && 0 < n < |st.retx[0].data| && !(st.reset && ReliableOffset(st) == 0)
    ensures Inv(ResendPart(st, n))
  {
    hide Placed, Buffered, Pieces;
    ResendPartPlaces(st, n);
    MoveInv(st, ResendPart(st, n));
  }

  datatype PopResult = PopResult(st: State, frame: Option<Frame>, hasMore: bool)

  function LastSent(st: State): Option<Frame> {
    if st.inflight == [] then None else Some(st.inflight[|st.inflight| - 1])
  }

  /** Retransmissions go first. */
  function PopRetx(st: State, id: int, maxBytes: int): PopResult
    requires st.retx != []
  {
    var f := st.retx[0];
    var n := MaxDataLen(id, f.offset, maxBytes);
    if Length(id, f) <= maxBytes then PopResult(Resend(st), Some(f), true)
    else if n == 0 || n >= |f.data| then PopResult(st, None, true)
    else PopResult(ResendPart(st, n), Some(Head(f, n)), true)
  }

  /** New data: the buffered frame first, then the data of a waiting Write. */
  function PopNew(st: State, id: int, maxBytes: int, window: int): PopResult {
    if st.dfw == [] && st.nextFrame.None? then
      if st.finishedWriting && !st.finSent then
        PopResult(Emit(st, [], None, []), Some(Frame(st.writeOffset, [], true)), false)
      else PopResult(st, None, false)
    else if window <= 0 then PopResult(st, None, true)
    else
      var r := ReliableOffset(st);
      var maxDataLen := if st.reset && r > 0 then Min(window, r - st.writeOffset) else window;
      var n := Min(maxDataLen, MaxDataLen(id, st.writeOffset, maxBytes));
      if n <= 0 then PopResult(st, None, st.nextFrame.Some? || st.dfw != [] || st.finishedWriting)
      else
        var st' := if st.nextFrame.Some? then EmitBuffered(st, n) else EmitDirect(st, n);
        var more := st'.nextFrame.Some? || st'.dfw != [] || (st.nextFrame.None? && st.finishedWriting);
        PopResult(st', LastSent(st'), more && !(st.reset && st'.writeOffset >= r))
  }

  /** What PopNew sends, if it sends anything. */
  lemma PopNewEmits(st: State, id: int, maxBytes: int, window: int)
    returns (data: seq<byte>, nextFrame': Option<Frame>, dfw': seq<byte>)
    ensures var st' := PopNew(st, id, maxBytes, window).st; st' == st || st' == Emit(st, data, nextFrame', dfw')
  {
    hide Emit;
    data, nextFrame', dfw' := [], None, [];
    if st.dfw != [] || st.nextFrame.Some? {
      var r := ReliableOffset(st);
      var maxDataLen := if st.reset && r > 0 then Min(window, r - st.writeOffset) else window;
      var n := Min(maxDataLen, MaxDataLen(id, st.writeOffset, maxBytes));
      if n > 0 {
        if st.nextFrame.Some? {
          var k := Min(n, |st.nextFrame.value.data|);
          data, nextFrame', dfw' := st.nextFrame.value.data[..k], Rest(st, k), st.dfw;
        } else {
          var k := Min(n, |st.dfw|);
          data, dfw' := st.dfw[..k], st.dfw[k..];
        }
      }
    }
  }

  /** popStreamFrame */
  function Pop(st: State, id: int, maxBytes: int, window: int): PopResult {
    var r := ReliableOffset(st);
    if st.shutdown then PopResult(st, None, false)
    else if st.reset && (r == 0 || (st.writeOffset >= r && st.retx == [])) then PopResult(st, None, false)
    else if st.retx != [] then PopRetx(st, id, maxBytes)
    else PopNew(st, id, maxBytes, window)
  }

  lemma PopRetxInv(st: State, id: int, maxBytes: int)
    requires Inv(st) && st.retx != [] && !(st.reset && ReliableOffset(st) == 0)
    ensures Inv(PopRetx(st, id, maxBytes).st)
    ensures var f := st.retx[0]; var n := MaxDataLen(id, f.offset, maxBytes);
            Length(id, f) <= maxBytes || n == 0 || n < |f.data|
  {
    var f := st.retx[0];
    assert |f.data| <= MaxPacketBufferSize;
    var n := MaxDataLen(id, f.offset, maxBytes);
    if Length(id, f) <= maxBytes {
      ResendInv(st);
    } else {
      MaxDataLenSplits(id, f, maxBytes);
      if n != 0 {
        ResendPartInv(st, n);
      }
    }
  }

  /** A reset stream sends only what is buffered. */
  lemma ResetHasNext(st: State)
    requires Inv(st) && !st.shutdown && st.reset && st.writeOffset < ReliableOffset(st)
    ensures st.nextFrame.Some? && 0 <= st.writeOffset
  {
    hide Pieces, Placed, Counted, FinOk;
  }

  lemma PopNewInv(st: State, id: int, maxBytes: int, window: int)
    requires Inv(st) && !st.shutdown && maxBytes <= MaxPacketBufferSize
    requires st.reset ==> st.writeOffset < ReliableOffset(st)
    ensures Inv(PopNew(st, id, maxBytes, window).st)
  {
    hide Shape, Pieces, Placed, Buffered, Counted, FinOk, EmitBuffered, EmitDirect, Emit;
    if st.reset {
      ResetHasNext(st);
    }
    if st.dfw == [] && st.nextFrame.None? {
      if st.finishedWriting && !st.finSent {
        EmitFinOnlyInv(st);
      }
    } else {
      var r := ReliableOffset(st);
      var maxDataLen := if st.reset && r > 0 then Min(window, r - st.writeOffset) else window;
      var n := Min(maxDataLen, MaxDataLen(id, st.writeOffset, maxBytes));
      if window > 0 && n > 0 {
        if st.nextFrame.Some? {
          EmitBufferedInv(st, n);
        } else {
          EmitDirectInv(st, n);
        }
      }
    }
  }

  lemma PopInv(st: State, id: int, maxBytes: int, window: int)
    requires Inv(st) && maxBytes <= MaxPacketBufferSize
    ensures Inv(Pop(st, id, maxBytes, window).st)
  {
    hide Shape, Pieces, Placed, Buffered, Counted, FinOk;
    if st.shutdown {
    } else if st.reset && (ReliableOffset(st) == 0 || (st.writeOffset >= ReliableOffset(st) && st.retx == [])) {
    } else if st.retx != [] {
      PopRetxInv(st, id, maxBytes);
    } else {
      PopNewInv(st, id, maxBytes, window);
    }
  }

  /** If a stream says that it has no more data, nothing is left to be sent. */
  lemma NoMoreMeansNothingLeft(st: State, id: int, maxBytes: int, window: int)
    requires Inv(st) && !st.reset && !st.shutdown && !Pop(st, id, maxBytes, window).hasMore
    ensures var st' := Pop(st, id, maxBytes, window).st;
            && st'.retx == [] && st'.nextFrame.None? && st'.dfw == []
            && (st'.finishedWriting ==> st'.finSent)
  {
  }

  lemma EmittedFrame(st: State, n: int)
    requires 0 < n && (st.nextFrame.Some? || st.dfw != [])
    ensures var f := LastSent(if st.nextFrame.Some? then EmitBuffered(st, n) else EmitDirect(st, n)).value;
            f.offset == st.writeOffset
              && |f.data| == Min(n, if st.nextFrame.Some? then |st.nextFrame.value.data| else |st.dfw|)
  {
  }

  lemma PopNewFits(st: State, id: int, maxBytes: int, window: int)
    requires maxBytes <= MaxPacketBufferSize
    requires st.nextFrame.Some? ==> st.nextFrame.value.data != []
    ensures var f := PopNew(st, id, maxBytes, window).frame;
            f.Some? && f.value.data != [] ==> Length(id, f.value) <= maxBytes
  {
    var f := PopNew(st, id, maxBytes, window).frame;
    if f.Some? && f.value.data != [] {
      var r := ReliableOffset(st);
      var maxDataLen := if st.reset && r > 0 then Min(window, r - st.writeOffset) else window;
      EmittedFrame(st, Min(maxDataLen, MaxDataLen(id, st.writeOffset, maxBytes)));
      MaxDataLenFits(id, f.value, maxBytes);
    }
  }

  /** A frame with data, and a retransmission, is never longer than allowed. */
  lemma PopFits(st: State, id: int, maxBytes: int, window: int)
    requires Inv(st) && maxBytes <= MaxPacketBufferSize
    ensures var f := Pop(st, id, maxBytes, window).frame;
            f.Some? && (f.value.data != [] || st.retx != []) ==> Length(id, f.value) <= maxBytes
  {
    assert st.nextFrame.Some? ==> st.nextFrame.value.data != [];
    PopNewFits(st, id, maxBytes, window);
    if st.retx != [] && PopRetx(st, id, maxBytes).frame.Some? {
      var f := st.retx[0];
      var n := MaxDataLen(id, f.offset, maxBytes);
      if Length(id, f) > maxBytes {
        MaxDataLenFits(id, Head(f, n), maxBytes);
      }
    }
  }

  // --------------------------------------------------- acknowledgment, loss

  /** Nothing of a reset stream has to be delivered: the fate of its STREAM frames no longer matters. */
  predicate Ignores(st: State) { st.reset && ReliableOffset(st) == 0 }

  function Land(st: State, i: int): State
    requires 0 <= i < |st.inflight|
  {
    st.(inflight := Without(st.inflight, i), acked := st.acked + [st.inflight[i]],
        numOutstanding := st.numOutstanding - if Ignores(st) then 0 else 1)
  }

  /** sendStreamAckHandler.OnAcked, for the i-th frame in flight */
  function OnAcked(st: State, i: int): State
    requires 0 <= i < |st.inflight|
  {
    if Ignores(st) then Land(st, i) else Complete(Land(st, i))
  }

  lemma LandInv(st: State, i: int)
    requires Inv(st) && 0 <= i < |st.inflight|
    ensures Inv(Land(st, i))
    ensures !Ignores(st) ==> st.numOutstanding > 0
  {
    var st', f := Land(st, i), st.inflight[i];
    TrackedNonNegative(st.resets, ReliableOffset(st));
    forall p ensures Places(st'.acked, st'.inflight, st'.retx, p) == Places(st.acked, st.inflight, st.retx, p) {
      StreamFrames.CountAppend(st.acked, f, p);
      CountWithout(st.inflight, i, p);
    }
    StreamFrames.CountAppend(st.acked, f, 0);
    CountWithout(st.inflight, i, 0);
    PiecesAppend(st.acked, f, st.stream, st.writeOffset);
    PiecesWithout(st.inflight, i, st.stream, st.writeOffset);
    WithoutAt(st.inflight, i, |st.stream|);
    MoveInv(st, st');
  }

  lemma WithoutAt(frames: seq<Frame>, i: int, n: int)
    requires 0 <= i < |frames|
    ensures SmallFrames(frames) ==> SmallFrames(Without(frames, i))
    ensures FinsAt(frames, n) ==> FinsAt(Without(frames, i), n)
  {
    var w := Without(frames, i);
    assert forall j :: 0 <= j < |w| ==> w[j] == if j < i then frames[j] else frames[j + 1];
  }

  lemma {:induction false} TrackedNonNegative(resets: seq<ResetFrame>, r: int)
    ensures Tracked(resets, r) >= 0
  {
    if resets != [] {
      TrackedNonNegative(resets[1..], r);
    }
  }

  lemma OnAckedInv(st: State, i: int)
    requires Inv(st) && 0 <= i < |st.inflight|
    ensures Inv(OnAcked(st, i))
    ensures !Ignores(st) ==> st.numOutstanding > 0
  {
    LandInv(st, i);
    CompleteInv(Land(st, i));
  }

  /** The part of a frame below r. */
  function TrimTo(f: Frame, r: int): Frame
    requires f.offset < r
  {
    if End(f) > r then f.(data := f.data[..r - f.offset]) else f
  }

  lemma TrimToOk(f: Frame, r: int, stream: seq<byte>, n: int, p: int)
    requires f.offset < r && PieceOf(f, stream, n)
    ensures PieceOf(TrimTo(f, r), stream, n) && |TrimTo(f, r).data| <= |f.data|
    ensures p < r ==> Carries(TrimTo(f, r), p) == Carries(f, p)
  {
    if End(f) > r {
      assert f.data[..r - f.offset] == stream[f.offset..r];
    }
  }

  /** A lost frame is sent again, as far as it has to be delivered. */
  function Requeue(st: State, f: Frame): seq<Frame> {
    if !st.reset then st.retx + [f]
    else if Ignores(st) || f.offset >= ReliableOffset(st) then st.retx
    else st.retx + [TrimTo(f, ReliableOffset(st))]
  }

  function Lose(st: State, i: int): State
    requires 0 <= i < |st.inflight|
  {
    st.(inflight := Without(st.inflight, i), retx := Requeue(st, st.inflight[i]),
        numOutstanding := st.numOutstanding - if Ignores(st) then 0 else 1)
  }

  /** sendStreamAckHandler.OnLost, for the i-th frame in flight */
  function OnLost(st: State, i: int): State
    requires 0 <= i < |st.inflight|
  {
    if !Ignores(st) && st.reset && st.inflight[i].offset >= ReliableOffset(st) then Complete(Lose(st, i))
    else Lose(st, i)
  }

  lemma LosePlaced(st: State, i: int)
    requires Inv(st) && 0 <= i < |st.inflight|
    ensures Placed(Lose(st, i))
  {
    var st', f, r := Lose(st, i), st.inflight[i], ReliableOffset(st);
    assert PieceOf(f, st.stream, st.writeOffset);
    if !st.shutdown && !Ignores(st) {
      forall p | 0 <= p < st.writeOffset && p < Limit(st) ensures Places(st'.acked, st'.inflight, st'.retx, p) == 1 {
        assert Places(st.acked, st.inflight, st.retx, p) == 1;
        CountWithout(st.inflight, i, p);
        if !(st.reset && f.offset >= r) {
          var g := if st.reset then TrimTo(f, r) else f;
          StreamFrames.CountAppend(st.retx, g, p);
          if st.reset {
            TrimToOk(f, r, st.stream, st.writeOffset, p);
          }
        }
      }
    }
  }

  lemma LoseFin(st: State, i: int)
    requires Inv(st) && 0 <= i < |st.inflight|
    ensures FinOk(Lose(st, i))
  {
    if !st.reset {
      StreamFrames.CountAppend(st.retx, st.inflight[i], 0);
      CountWithout(st.inflight, i, 0);
      WithoutAt(st.inflight, i, |st.stream|);
    }
  }

  lemma LosePieces(st: State, i: int)
    requires Inv(st) && 0 <= i < |st.inflight|
    ensures Pieces(Lose(st, i)) && SmallFrames(Lose(st, i).inflight) && SmallFrames(Lose(st, i).retx)
  {
    hide Placed, Counted, FinOk, Buffered;
    var f, r := st.inflight[i], ReliableOffset(st);
    PiecesWithout(st.inflight, i, st.stream, st.writeOffset);
    WithoutAt(st.inflight, i, 0);
    assert PieceOf(f, st.stream, st.writeOffset);
    if !(st.reset && f.offset >= r) {
      var g := if st.reset then TrimTo(f, r) else f;
      if st.reset {
        TrimToOk(f, r, st.stream, st.writeOffset, 0);
      }
      PiecesAppend(st.retx, g, st.stream, st.writeOffset);
    }
  }

  lemma LoseCounted(st: State, i: int)
    requires 0 <= i < |st.inflight| && Counted(st)
    ensures Counted(Lose(st, i))
    ensures !Ignores(st) ==> st.numOutstanding > 0
  {
    hide Requeue;
    TrackedNonNegative(st.resets, ReliableOffset(st));
  }

  lemma LoseInv(st: State, i: int)
    requires Inv(st) && 0 <= i < |st.inflight|
    ensures Inv(Lose(st, i))
    ensures !Ignores(st) ==> st.numOutstanding > 0
  {
    LosePlaced(st, i);
    LoseFin(st, i);
    LosePieces(st, i);
    LoseCounted(st, i);
    BufferedSame(st, Lose(st, i));
  }

  lemma OnLostInv(st: State, i: int)
    requires Inv(st) && 0 <= i < |st.inflight|
    ensures Inv(OnLost(st, i))
    ensures !Ignores(st) ==> st.numOutstanding > 0
  {
    LoseInv(st, i);
    CompleteInv(Lose(st, i));
  }

  // ------------------------------------------------------ close and reset

  /** The user is done with the stream. */
  function Closing(st: State): State {
    st.(finishedWriting := true, cancellationFlagged := st.cancellationFlagged || st.reset)
  }

  function Close(st: State): State {
    if st.shutdown || st.finishedWriting then st else Complete(Closing(st))
  }

  lemma ClosingInv(st: State)
    requires Inv(st) && st.pending.None?
    ensures !st.shutdown && !st.finishedWriting ==> Inv(Closing(st))
  {
  }

  lemma CloseInv(st: State)
    requires Inv(st) && st.pending.None?
    ensures Inv(Close(st))
  {
    ClosingInv(st);
    if !st.shutdown && !st.finishedWriting {
      CompleteInv(Closing(st));
    }
  }

  function SetReliableBoundary(st: State): State {
    st.(reliableSize := st.writeOffset + |NextData(st)|)
  }

  /** Moving the boundary is safe before a reset, or if the peer cannot make use of it. */
  lemma BoundaryInv(st: State)
    requires Inv(st) && (!st.reset || !st.supportsResetStreamAt)
    ensures Inv(SetReliableBoundary(st))
  {
  }

  function EnableResetStreamAt(st: State): State {
    st.(supportsResetStreamAt := true)
  }

  lemma EnableInv(st: State)
    requires Inv(st) && (!st.reset || st.supportsResetStreamAt || st.reliableSize == 0)
    ensures Inv(EnableResetStreamAt(st))
  {
  }

  /**
   Moving the boundary after a reset breaks the count: with a frame in flight that the reset stopped
   tracking, the next acknowledgment finds no outstanding frame and panics.
   */
  lemma BoundaryAfterReset()
    ensures var st := SetReliableBoundary(CancelWrite(Pop(BufferData(BeginWrite(Init(true), [7])), 0, 100, 100).st));
            |st.inflight| == 1 && !Ignores(st) && st.numOutstanding == 0
  {
    var st := BufferData(BeginWrite(Init(true), [7]));
    assert st.nextFrame == Some(Frame(0, [7], false));
    var st' := Pop(st, 0, 100, 100).st;
    assert st' == EmitBuffered(st, 97);
    assert [7][..1] == [7];
    assert st'.inflight == [Frame(0, [7], false)] && st'.writeOffset == 1;
  }

  lemma {:induction false} NoneTracked(resets: seq<ResetFrame>, r: int, r': int)
    requires r != r' && forall i :: 0 <= i < |resets| ==> resets[i].reliableSize == r
    ensures Tracked(resets, r') == 0
  {
    if resets != [] {
      NoneTracked(resets[1..], r, r');
    }
  }

  lemma {:induction false} AllTracked(resets: seq<ResetFrame>, r: int)
    requires forall i :: 0 <= i < |resets| ==> resets[i].reliableSize == r
    ensures Tracked(resets, r) == |resets|
  {
    if resets != [] {
      AllTracked(resets[1..], r);
    }
  }

  /** After a reset, the count survives a move of the boundary exactly if nothing was counted under the old one. */
  lemma BoundaryAfterResetExact(st: State)
    requires Inv(st) && st.reset && st.supportsResetStreamAt && !st.shutdown
    requires SetReliableBoundary(st).reliableSize != st.reliableSize
    ensures Counted(SetReliableBoundary(st)) <==>
            st.resets == [] && st.queuedReset.None? && (st.reliableSize == 0 ==> st.inflight == [])
  {
    var r, r' := st.reliableSize, SetReliableBoundary(st).reliableSize;
    assert r' > 0;
    if Counted(SetReliableBoundary(st)) {
      AllTracked(st.resets, r');
      NoneTracked(st.resets, r', r);
    }
  }

  /** The same happens when the extension is enabled after the reset. */
  lemma EnableAfterReset()
    ensures var sent := Pop(BufferData(BeginWrite(Init(false), [7])), 0, 100, 100).st;
            var st := EnableResetStreamAt(CancelWrite(SetReliableBoundary(sent)));
            |st.inflight| == 1 && !Ignores(st) && st.numOutstanding == 0
  {
    var st := BufferData(BeginWrite(Init(false), [7]));
    assert st.nextFrame == Some(Frame(0, [7], false));
    var st' := Pop(st, 0, 100, 100).st;
    assert st' == EmitBuffered(st, 97);
    assert [7][..1] == [7];
    assert st'.inflight == [Frame(0, [7], false)] && st'.writeOffset == 1;
  }

  /** Enabling the extension after a reset makes a boundary count that was ignored until then. */
  lemma EnableAfterResetExact(st: State)
    requires Inv(st) && st.reset && !st.supportsResetStreamAt && !st.shutdown && st.reliableSize != 0
    ensures Counted(EnableResetStreamAt(st)) <==> st.resets == [] && st.queuedReset.None? && st.inflight == []
  {
    if Counted(EnableResetStreamAt(st)) {
      AllTracked(st.resets, st.reliableSize);
      NoneTracked(st.resets, st.reliableSize, 0);
    }
  }

  function TrimAll(frames: seq<Frame>, r: int): seq<Frame> {
    if frames == [] then []
    else (if frames[0].offset >= r then [] else [TrimTo(frames[0], r)]) + TrimAll(frames[1..], r)
  }

  lemma TrimAllStep(frames: seq<Frame>, k: int, r: int)
    requires 0 <= k < |frames|
    ensures TrimAll(frames[k..], r) ==
            (if frames[k].offset >= r then [] else [TrimTo(frames[k], r)]) + TrimAll(frames[k + 1..], r)
  {
    assert frames[k..][1..] == frames[k + 1..];
  }

  lemma NoneTrimmed(r: int)
    ensures TrimAll([], r) == []
  {
  }

  lemma {:induction false} TrimAllOk(frames: seq<Frame>, r: int, stream: seq<byte>, n: int)
    requires PiecesOf(frames, stream, n) && SmallFrames(frames)
    ensures PiecesOf(TrimAll(frames, r), stream, n) && SmallFrames(TrimAll(frames, r))
  {
    if frames != [] {
      var f, rest := frames[0], frames[1..];
      assert PieceOf(f, stream, n);
      assert PiecesOf(rest, stream, n) && SmallFrames(rest);
      TrimAllOk(rest, r, stream, n);
      if f.offset < r {
        TrimToOk(f, r, stream, n, 0);
      }
    }
  }

  lemma {:induction false} TrimAllCount(frames: seq<Frame>, r: int, stream: seq<byte>, n: int, p: int)
    requires PiecesOf(frames, stream, n) && p < r
    ensures Count(TrimAll(frames, r), p) == Count(frames, p)
  {
    if frames != [] {
      var f, rest := frames[0], frames[1..];
      assert PieceOf(f, stream, n);
      assert PiecesOf(rest, stream, n);
      TrimAllCount(rest, r, stream, n, p);
      if f.offset < r {
        TrimToOk(f, r, stream, n, p);
        CountConcat([TrimTo(f, r)], TrimAll(rest, r), p);
        CountOne(TrimTo(f, r), p);
      } else {
        assert TrimAll(frames, r) == TrimAll(rest, r);
      }
    }
  }

  /** The part of the buffered frame below r. */
  function TrimNext(f: Option<Frame>, r: int): Option<Frame> {
    if f.None? || f.value.offset >= r then None else Some(TrimTo(f.value, r))
  }

  /** The reset itself: what does not have to be delivered is forgotten. */
  function Reset(st: State): State {
    var r := ReliableOffset(st);
    var st' := st.(reset := true, cancellationFlagged := true,
                   queuedReset := Some(ResetFrame(Max(st.writeOffset, r), r)));
    if r == 0 then st'.(numOutstanding := 0, retx := [], nextFrame := None)
    else st'.(nextFrame := TrimNext(st.nextFrame, r), retx := TrimAll(st.retx, r))
  }

  function CancelWrite(st: State): State {
    if st.shutdown then st
    else if st.reset then Complete(FlagReset(st))
    else Reset(st)
  }

  lemma ResetPlaced(st: State)
    requires Inv(st) && !st.reset && !st.shutdown
    ensures Placed(Reset(st))
  {
    var st', r := Reset(st), ReliableOffset(st);
    if r > 0 {
      forall p | 0 <= p < st.writeOffset && p < r ensures Places(st'.acked, st'.inflight, st'.retx, p) == 1 {
        assert Places(st.acked, st.inflight, st.retx, p) == 1;
        TrimAllCount(st.retx, r, st.stream, st.writeOffset, p);
      }
    }
  }

  /** The beginning of what is buffered, and of what follows in the stream. */
  lemma CutPrefix(stream: seq<byte>, w: int, data: seq<byte>, rest: seq<byte>, n: int)
    requires 0 <= w <= |stream| && stream[w..] == data + rest && 0 <= n <= |data|
    ensures w + n <= |stream| && data[..n] == stream[w..w + n]
  {
    assert data[..n] == (data + rest)[..n] == stream[w..][..n];
  }

  lemma TrimmedData(f: Frame, r: int)
    requires f.offset < r <= End(f)
    ensures r - f.offset <= |TrimTo(f, r).data| && TrimTo(f, r).data[..r - f.offset] == f.data[..r - f.offset]
  {
  }

  lemma ResetBuffered(st: State)
    requires Inv(st) && !st.reset && !st.shutdown
    ensures Buffered(Reset(st))
  {
    hide Pieces, Placed, Counted, FinOk, SmallFrames, TrimAll;
    var r, w := ReliableOffset(st), st.writeOffset;
    assert r <= w + |NextData(st)| <= |st.stream|;
    if w < r {
      CutPrefix(st.stream, w, NextData(st), st.dfw, r - w);
      TrimmedData(st.nextFrame.value, r);
    }
  }

  lemma ResetInv(st: State)
    requires Inv(st) && !st.reset && !st.shutdown
    ensures Inv(Reset(st))
  {
    ResetPlaced(st);
    ResetBuffered(st);
    TrimAllOk(st.retx, ReliableOffset(st), st.stream, st.writeOffset);
  }

  lemma CancelWriteInv(st: State)
    requires Inv(st)
    ensures Inv(CancelWrite(st))
  {
    if !st.shutdown {
      FlagInv(st);
      if st.reset {
        CompleteInv(FlagReset(st));
      } else {
        ResetInv(st);
      }
    }
  }

  /** handleStopSendingFrame: the peer does not read anything any more. */
  function StopSending(st: State): State {
    if st.shutdown || Ignores(st) then st
    else st.(reliableSize := 0, numOutstanding := 0, retx := [], nextFrame := None, reset := true,
             queuedReset := Some(ResetFrame(st.writeOffset, 0)))
  }

  lemma StopSendingInv(st: State)
    requires Inv(st)
    ensures Inv(StopSending(st))
  {
    if !st.shutdown && !Ignores(st) && st.reset {
      NoneTracked(st.resets, ReliableOffset(st), 0);
    }
  }

  /** closeForShutdown */
  function Shutdown(st: State): State {
    if st.shutdown || st.finishedWriting then st else st.(shutdown := true, retx := [], nextFrame := None)
  }

  lemma ShutdownInv(st: State)
    requires Inv(st)
    ensures Inv(Shutdown(st))
  {
  }

  // ------------------------------------------------------- RESET_STREAM

  /** getControlFrame */
  function SendReset(st: State): State
    requires st.queuedReset.Some?
  {
    st.(queuedReset := None, resets := st.resets + [st.queuedReset.value], numOutstanding := st.numOutstanding + 1)
  }

  lemma {:induction false} TrackedConcat(a: seq<ResetFrame>, b: seq<ResetFrame>, r: int)
    ensures Tracked(a + b, r) == Tracked(a, r) + Tracked(b, r)
  {
    if a == [] {
      assert a + b == b;
    } else {
      assert (a + b)[1..] == a[1..] + b;
      TrackedConcat(a[1..], b, r);
    }
  }

  lemma SendResetInv(st: State)
    requires Inv(st) && st.queuedReset.Some?
    ensures Inv(SendReset(st))
  {
    TrackedConcat(st.resets, [st.queuedReset.value], ReliableOffset(st));
  }

  function WithoutReset(st: State, j: int): State
    requires 0 <= j < |st.resets|
  {
    st.(resets := st.resets[..j] + st.resets[j + 1..],
        numOutstanding := st.numOutstanding - if st.resets[j].reliableSize == ReliableOffset(st) then 1 else 0)
  }

  /** sendStreamResetStreamHandler.OnAcked */
  function OnResetAcked(st: State, j: int): State
    requires 0 <= j < |st.resets|
  {
    if st.resets[j].reliableSize != ReliableOffset(st) then WithoutReset(st, j) else Complete(WithoutReset(st, j))
  }

  /** sendStreamResetStreamHandler.OnLost */
  function OnResetLost(st: State, j: int): State
    requires 0 <= j < |st.resets|
  {
    if st.resets[j].reliableSize != ReliableOffset(st) then WithoutReset(st, j)
    else WithoutReset(st, j).(queuedReset := Some(st.resets[j]))
  }

  lemma WithoutResetInv(st: State, j: int)
    requires Inv(st) && 0 <= j < |st.resets|
    ensures Inv(WithoutReset(st, j))
    ensures st.resets[j].reliableSize == ReliableOffset(st) ==> st.numOutstanding > 0
  {
    var r, a, b := ReliableOffset(st), st.resets[..j], st.resets[j + 1..];
    assert st.resets == a + ([st.resets[j]] + b);
    TrackedConcat(a, [st.resets[j]] + b, r);
    TrackedConcat([st.resets[j]], b, r);
    TrackedConcat(a, b, r);
    TrackedNonNegative(a, r);
    TrackedNonNegative(b, r);
  }

  lemma OnResetAckedInv(st: State, j: int)
    requires Inv(st) && 0 <= j < |st.resets|
    ensures Inv(OnResetAcked(st, j))
    ensures st.resets[j].reliableSize == ReliableOffset(st) ==> st.numOutstanding > 0
  {
    WithoutResetInv(st, j);
    CompleteInv(WithoutReset(st, j));
  }

  lemma OnResetLostInv(st: State, j: int)
    requires Inv(st) && 0 <= j < |st.resets|
    ensures Inv(OnResetLost(st, j))
  {
    WithoutResetInv(st, j);
  }
}
