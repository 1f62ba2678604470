/**
 What the sending half of a stream gets done: which frame a pop sends, and that enough pops send all
 that has to be sent, after which acknowledgments complete the stream.
 */
module SendProgress {
  import opened Common
  import opened StreamFrames
  import opened SendModel
  import opened SendRuns

  /** The bytes that still have to be sent for the first time. */
  function Unsent(st: State): int {
    if st.reset then Max(0, ReliableOffset(st) - st.writeOffset) else |NextData(st)| + |st.dfw|
  }

  /** How many of them can go into one frame: what is buffered is not joined with the data of a waiting Write. */
  function Available(st: State): int {
    if st.reset then Unsent(st) else if NextData(st) != [] then |NextData(st)| else |st.dfw|
  }

  // ----------------------------------------------------------- what a pop sends

  /** A frame was sent, and what is left of the lost frames is `retx`. */
  ghost predicate SentFrame(st: State, f: Frame, retx: seq<Frame>, st': State) {
    && st'.inflight == st.inflight + [f] && st'.numOutstanding == st.numOutstanding + 1
    && st'.retx == retx && st'.acked == st.acked && st'.stream == st.stream && st'.pending == st.pending
    && st'.reset == st.reset && st'.shutdown == st.shutdown && st'.finishedWriting == st.finishedWriting
    && ReliableOffset(st') == ReliableOffset(st) && st'.completed == st.completed
  }

  /** What is buffered of an open stream is the end of the stream. */
  lemma UnsentBytes(st: State)
    requires Inv(st) && !st.shutdown
    ensures !st.reset ==> Unsent(st) == |st.stream| - st.writeOffset
    ensures st.reset && Unsent(st) > 0 ==> st.nextFrame.Some? && Unsent(st) <= |NextData(st)|
    ensures !st.reset && Unsent(st) > 0 ==> !st.finSent
    ensures !st.reset && NextData(st) == [] ==> st.nextFrame.None? && (st.dfw != [] ==> !st.finishedWriting)
  {
    hide Pieces, Placed, Counted, SmallFrames, Fins, FinsAt;
    if !st.reset {
      assert |st.stream[st.writeOffset..]| == |NextData(st) + st.dfw|;
    }
  }

  /** How much PopNew sends. */
  function Amount(st: State, id: int, maxBytes: int, window: int): int {
    Min(Min(window, MaxDataLen(id, st.writeOffset, maxBytes)), Available(st))
  }

  /** Sending k bytes of what is buffered. */
  ghost predicate SentBytes(st: State, k: int, r: PopResult) {
    && r.frame.Some? && r.frame.value.offset == st.writeOffset && |r.frame.value.data| == k
    && SentFrame(st, r.frame.value, st.retx, r.st)
    && r.st.writeOffset == st.writeOffset + k && Unsent(r.st) == Unsent(st) - k
    && (r.hasMore <==> Unsent(r.st) > 0)
    && (r.st.finSent <==> st.finSent || r.frame.value.fin)
  }

  /** An open stream sends the FIN with its last byte. */
  ghost predicate FinWithLast(st: State, r: PopResult) {
    r.frame.Some? && !st.reset ==> (r.frame.value.fin <==> st.finishedWriting && Unsent(r.st) == 0)
  }

  lemma BufferedSends(st: State, n: int)
    requires st.nextFrame.Some? && 0 < n
    ensures var st', k := EmitBuffered(st, n), Min(n, |st.nextFrame.value.data|);
            && LastSent(st').Some?
            && LastSent(st').value == Frame(st.writeOffset, st.nextFrame.value.data[..k],
                                            st.finishedWriting && !st.finSent && st'.nextFrame.None? && st'.dfw == [])
            && SentFrame(st, LastSent(st').value, st.retx, st')
            && st'.writeOffset == st.writeOffset + k && st'.dfw == st.dfw && NextData(st') == NextData(st)[k..]
            && (st'.nextFrame.Some? <==> k < |NextData(st)|)
            && st'.finSent == (st.finSent || LastSent(st').value.fin)
  {
  }

  lemma DirectSends(st: State, n: int)
    requires 0 < n && st.nextFrame.None?
    ensures var st', k := EmitDirect(st, n), Min(n, |st.dfw|);
            && LastSent(st').Some?
            && LastSent(st').value == Frame(st.writeOffset, st.dfw[..k],
                                            st.finishedWriting && !st.finSent && st'.nextFrame.None? && st'.dfw == [])
            && SentFrame(st, LastSent(st').value, st.retx, st')
            && st'.writeOffset == st.writeOffset + k && st'.nextFrame.None? && st'.dfw == st.dfw[k..]
            && st'.finSent == (st.finSent || LastSent(st').value.fin)
  {
  }

  lemma PopOpen(st: State, id: int, maxBytes: int, window: int)
    requires Inv(st) && !st.shutdown && !st.reset && st.retx == [] && Unsent(st) > 0
    ensures var r, n := Pop(st, id, maxBytes, window), Amount(st, id, maxBytes, window);
            if n > 0 then SentBytes(st, n, r) && FinWithLast(st, r) else r == PopResult(st, None, true)
  {
    UnsentBytes(st);
    assert Shape(st);
    hide Inv, Shape, EmitBuffered, EmitDirect, LastSent, MaxDataLen;
    var n := Min(window, MaxDataLen(id, st.writeOffset, maxBytes));
    if n > 0 {
      if st.nextFrame.Some? {
        NextNotEmpty(st);
        BufferedSends(st, n);
      } else {
        DirectSends(st, n);
      }
    }
  }

  lemma NextNotEmpty(st: State)
    requires Inv(st) && st.nextFrame.Some?
    ensures st.nextFrame.value.data != []
  {
    assert Shape(st);
  }

  lemma ReliableSends(st: State, n: int, more: bool)
    requires st.reset && st.nextFrame.Some? && 0 < n <= Unsent(st) <= |NextData(st)|
    requires var st' := EmitBuffered(st, n);
             more <==> (st'.nextFrame.Some? || st'.dfw != []) && !(st.reset && st'.writeOffset >= ReliableOffset(st))
    ensures var st' := EmitBuffered(st, n); SentBytes(st, n, PopResult(st', LastSent(st'), more))
  {
    hide EmitBuffered, LastSent;
    BufferedSends(st, n);
  }

  lemma PopReliable(st: State, id: int, maxBytes: int, window: int)
    requires Inv(st) && !st.shutdown && st.reset && st.retx == [] && Unsent(st) > 0
    ensures var r, n := Pop(st, id, maxBytes, window), Amount(st, id, maxBytes, window);
            if n > 0 then SentBytes(st, n, r) else r == PopResult(st, None, true)
  {
    UnsentBytes(st);
    hide Inv, EmitBuffered, EmitDirect, LastSent, MaxDataLen, SentBytes;
    var n := Min(Min(window, ReliableOffset(st) - st.writeOffset), MaxDataLen(id, st.writeOffset, maxBytes));
    if n > 0 {
      ReliableSends(st, n, Pop(st, id, maxBytes, window).hasMore);
    }
  }

  /**
   A stream of which no frame was lost sends new data exactly if there is some, the send window is open
   and a byte fits: as much as the window, the space and what is available allow, starting at the write
   offset. It says that there is more exactly if that was not everything. The FIN goes with the last
   byte of a closed stream.
   */
  lemma PopSends(st: State, id: int, maxBytes: int, window: int)
    requires Inv(st) && !st.shutdown && st.retx == [] && Unsent(st) > 0
    ensures var r, space := Pop(st, id, maxBytes, window), MaxDataLen(id, st.writeOffset, maxBytes);
            && (r.frame.Some? <==> window > 0 && space > 0)
            && (r.frame.Some? ==> SentBytes(st, Min(Min(window, space), Available(st)), r) && FinWithLast(st, r))
            && (r.frame.None? ==> r.st == st && r.hasMore)
  {
    hide Inv, Pop, MaxDataLen, SentBytes, SentFrame;
    if st.reset {
      PopReliable(st, id, maxBytes, window);
    } else {
      PopOpen(st, id, maxBytes, window);
      UnsentBytes(st);
    }
    SomeSent(st, id, maxBytes, window);
  }

  lemma SomeSent(st: State, id: int, maxBytes: int, window: int)
    ensures var r, n := Pop(st, id, maxBytes, window), Amount(st, id, maxBytes, window);
            SentBytes(st, n, r) ==> r.frame.Some?
  {
    hide Pop;
  }

  /** The bytes in the frame are those of the stream at its offset. */
  lemma PopSendsStream(st: State, id: int, maxBytes: int, window: int)
    requires Inv(st) && maxBytes <= MaxPacketBufferSize && Pop(st, id, maxBytes, window).frame.Some?
    ensures var r := Pop(st, id, maxBytes, window); PieceOf(r.frame.value, st.stream, r.st.writeOffset)
  {
    PopInv(st, id, maxBytes, window);
    PopTracked(st, id, maxBytes, window);
    hide Pop, Placed, Buffered, Counted, FinOk;
    var r := Pop(st, id, maxBytes, window);
    assert PieceOf(r.st.inflight[|st.inflight|], st.stream, r.st.writeOffset);
  }

  /** The frame returned is the one in flight. */
  lemma PopTracked(st: State, id: int, maxBytes: int, window: int)
    requires Inv(st) && Pop(st, id, maxBytes, window).frame.Some?
    ensures var r := Pop(st, id, maxBytes, window);
            r.st.inflight == st.inflight + [r.frame.value] && r.st.stream == st.stream
  {
    UnsentOrNot(st, id, maxBytes, window);
    hide Inv, Pop;
    if st.retx != [] {
      PopAgain(st, id, maxBytes, window);
    } else if Unsent(st) > 0 {
      PopSends(st, id, maxBytes, window);
    } else {
      PopFin(st, id, maxBytes, window);
    }
  }

  lemma UnsentOrNot(st: State, id: int, maxBytes: int, window: int)
    requires Inv(st) && Pop(st, id, maxBytes, window).frame.Some?
    ensures !st.shutdown && !Ignores(st) && (st.retx == [] && Unsent(st) == 0 ==> !st.reset) && Unsent(st) >= 0
  {
  }

  /** A stream of which everything was sent sends an empty frame with the FIN, once, whatever space and window are. */
  lemma PopFin(st: State, id: int, maxBytes: int, window: int)
    requires Inv(st) && !st.shutdown && !st.reset && st.retx == [] && Unsent(st) == 0
    ensures var r, f := Pop(st, id, maxBytes, window), Frame(|st.stream|, [], true);
            && !r.hasMore
            && (if st.finishedWriting && !st.finSent
                then r.frame == Some(f) && SentFrame(st, f, [], r.st) && r.st.finSent && Unsent(r.st) == 0
                else r.frame == None && r.st == st)
  {
    UnsentBytes(st);
    hide Inv;
  }

  /** A stream that was shut down, or was reset and has delivered what it has to, sends nothing. */
  lemma PopNothing(st: State, id: int, maxBytes: int, window: int)
    requires st.shutdown || Ignores(st) || (st.reset && st.retx == [] && Unsent(st) == 0)
    ensures Pop(st, id, maxBytes, window) == PopResult(st, None, false)
  {
  }

  /** The rest of a frame after its first n bytes. */
  function RestOf(f: Frame, n: int): Frame
    requires 0 <= n <= |f.data|
  {
    Frame(f.offset + n, f.data[n..], f.fin)
  }

  /** Nothing new was sent. */
  ghost predicate NothingNew(st: State, st': State) {
    && st'.writeOffset == st.writeOffset && st'.nextFrame == st.nextFrame && st'.dfw == st.dfw
    && st'.finSent == st.finSent
  }

  lemma ResendSends(st: State)
    requires st.retx != []
    ensures SentFrame(st, st.retx[0], st.retx[1..], Resend(st)) && NothingNew(st, Resend(st))
  {
  }

  lemma ResendPartSends(st: State, n: int)
    requires st.retx != [] && 0 < n < |st.retx[0].data|
    ensures var f, st' := st.retx[0], ResendPart(st, n);
            && Head(f, n) == Frame(f.offset, f.data[..n], false)
            && SentFrame(st, Head(f, n), [RestOf(f, n)] + st.retx[1..], st') && NothingNew(st, st')
  {
  }

  /**
   The frame lost first is sent again, completely if it fits, and otherwise as much of it as fits; the
   rest, with the FIN, stays first.
   */
  lemma PopAgain(st: State, id: int, maxBytes: int, window: int)
    requires Inv(st) && !st.shutdown && !Ignores(st) && st.retx != []
    ensures var r, f := Pop(st, id, maxBytes, window), st.retx[0];
            var fits, n := Length(id, f) <= maxBytes, MaxDataLen(id, f.offset, maxBytes);
            && r.hasMore && (r.frame.Some? <==> fits || n > 0)
            && (fits ==> r.frame == Some(f) && SentFrame(st, f, st.retx[1..], r.st))
            && (!fits && n > 0 ==>
                  && n < |f.data| && r.frame == Some(Frame(f.offset, f.data[..n], false))
                  && SentFrame(st, r.frame.value, [RestOf(f, n)] + st.retx[1..], r.st))
            && (if r.frame.Some? then NothingNew(st, r.st) else r.st == st)
  {
    assert |st.retx[0].data| <= MaxPacketBufferSize by { assert Shape(st); }
    hide Inv, Length, MaxDataLen, Resend, ResendPart, SentFrame, NothingNew, Head, RestOf;
    var f, n := st.retx[0], MaxDataLen(id, st.retx[0].offset, maxBytes);
    ResendSends(st);
    if Length(id, f) > maxBytes {
      MaxDataLenSplits(id, f, maxBytes);
      if n > 0 {
        ResendPartSends(st, n);
      }
    }
  }

  // ------------------------------------------------------ enough pops send all

  /** The number of pops that lost frames may take. */
  function Work(frames: seq<Frame>): nat {
    if frames == [] then 0 else Max(1, |frames[0].data|) + Work(frames[1..])
  }

  /** Bounds the number of pops until nothing is left to be sent. */
  function Backlog(st: State): int {
    if st.shutdown || Ignores(st) then 0
    else Work(st.retx) + Unsent(st) + if !st.reset && st.finishedWriting && !st.finSent then 1 else 0
  }

  /** The offset of the next frame. */
  function NextOffset(st: State): int {
    if st.retx != [] then st.retx[0].offset else st.writeOffset
  }

  /** The window is open, and a byte fits. */
  predicate Allows(st: State, id: int, maxBytes: int, window: int) {
    window > 0 && MaxDataLen(id, NextOffset(st), maxBytes) > 0
  }

  /** Nineteen bytes are always enough. */
  lemma RoomForOne(st: State, id: int, maxBytes: int, window: int)
    requires maxBytes >= 19 && window > 0
    ensures Allows(st, id, maxBytes, window)
  {
  }

  lemma WorkSplit(f: Frame, n: int, rest: seq<Frame>)
    requires 0 < n < |f.data|
    ensures Work([RestOf(f, n)] + rest) < Work([f] + rest)
    ensures Work(rest) < Work([f] + rest)
  {
    assert ([RestOf(f, n)] + rest)[1..] == rest && ([f] + rest)[1..] == rest;
  }

  lemma EmptyFits(id: int, f: Frame, maxBytes: int)
    requires MaxDataLen(id, f.offset, maxBytes) > 0 && f.data == []
    ensures Length(id, f) <= maxBytes
  {
  }

  lemma AgainShrinks(st: State, id: int, maxBytes: int, window: int)
    requires Inv(st) && !st.shutdown && !Ignores(st) && st.retx != [] && Allows(st, id, maxBytes, window)
    ensures Backlog(Pop(st, id, maxBytes, window).st) < Backlog(st)
  {
    PopAgain(st, id, maxBytes, window);
    var f := st.retx[0];
    var n := MaxDataLen(id, f.offset, maxBytes);
    hide Inv, Pop, Length, MaxDataLen;
    if Length(id, f) > maxBytes {
      assert st.retx == [f] + st.retx[1..];
      WorkSplit(f, n, st.retx[1..]);
    }
  }

  /** Each pop that allows a byte brings the backlog down. */
  lemma PopShrinks(st: State, id: int, maxBytes: int, window: int)
    requires Inv(st) && Allows(st, id, maxBytes, window)
    ensures var r := Pop(st, id, maxBytes, window);
            if Backlog(st) > 0 then r.frame.Some? && 0 <= Backlog(r.st) < Backlog(st)
            else r == PopResult(st, None, false)
  {
    hide Inv, Pop, MaxDataLen;
    UnsentPositive(st);
    if st.shutdown || Ignores(st) {
      PopNothing(st, id, maxBytes, window);
    } else if st.retx != [] {
      AgainShrinks(st, id, maxBytes, window);
      PopAgain(st, id, maxBytes, window);
    } else if Unsent(st) > 0 {
      PopSends(st, id, maxBytes, window);
    } else if st.reset {
      PopNothing(st, id, maxBytes, window);
    } else {
      PopFin(st, id, maxBytes, window);
    }
  }

  lemma UnsentPositive(st: State)
    ensures Unsent(st) >= 0 && Backlog(st) >= 0 && (Unsent(st) > 0 ==> Available(st) > 0)
  {
  }

  /** The events are pops that allow a byte. */
  ghost predicate AllPops(st: State, events: seq<Event>)
    decreases |events|
  {
    events == [] ||
    (var e := events[0];
     && e.PopFrame? && Allowed(st, e) && Allows(st, e.id, e.maxBytes, e.window)
     && AllPops(Step(st, e), events[1..]))
  }

  /** Pops change neither the stream nor what was acknowledged. */
  ghost predicate SameStream(st: State, st': State) {
    && st'.stream == st.stream && st'.acked == st.acked && st'.finishedWriting == st.finishedWriting
    && st'.reset == st.reset && st'.shutdown == st.shutdown && ReliableOffset(st') == ReliableOffset(st)
  }

  lemma PopSame(st: State, id: int, maxBytes: int, window: int)
    requires Inv(st)
    ensures SameStream(st, Pop(st, id, maxBytes, window).st)
  {
    hide Inv, PopNew, PopRetx;
    RetxSame(st, id, maxBytes);
    hide Emit;
    var data, nextFrame', dfw' := PopNewEmits(st, id, maxBytes, window);
    EmitSame(st, data, nextFrame', dfw');
  }

  lemma EmitSame(st: State, data: seq<byte>, nextFrame': Option<Frame>, dfw': seq<byte>)
    ensures SameStream(st, Emit(st, data, nextFrame', dfw'))
  {
  }

  lemma RetxSame(st: State, id: int, maxBytes: int)
    ensures st.retx != [] ==> SameStream(st, PopRetx(st, id, maxBytes).st)
  {
    hide Length, MaxDataLen, Resend, ResendPart, RestOf;
    if st.retx != [] {
      SameHere(st);
      ResendSends(st);
      var n := MaxDataLen(id, st.retx[0].offset, maxBytes);
      if 0 < n < |st.retx[0].data| {
        ResendPartSends(st, n);
      }
    }
  }

  /** As many pops as the backlog, each allowing a byte, leave no backlog. */
  lemma {:induction false} PopsDrain(st: State, events: seq<Event>, st': State)
    requires Inv(st) && AllPops(st, events) && Runs(st, events, st')
    ensures SameStream(st, st') && Inv(st') && 0 <= Backlog(st') <= Max(0, Backlog(st) - |events|)
    decreases |events|
  {
    hide Inv, Pop, Allows, Backlog, SameStream;
    UnsentPositive(st);
    if events == [] {
      SameHere(st);
    } else {
      var e := events[0];
      PopShrinks(st, e.id, e.maxBytes, e.window);
      PopSame(st, e.id, e.maxBytes, e.window);
      PopInv(st, e.id, e.maxBytes, e.window);
      var next := Step(st, e);
      PopsDrain(next, events[1..], st');
      SameTrans(st, next, st');
    }
  }

  lemma SameHere(st: State)
    ensures SameStream(st, st)
  {
  }

  lemma SameTrans(a: State, b: State, c: State)
    requires SameStream(a, b) && SameStream(b, c)
    ensures SameStream(a, c)
  {
  }

  /**
   After as many pops as the backlog, in any state of any run, every byte that has to be delivered was
   acknowledged or is in flight, in one frame, and the FIN of a closed stream was sent.
   */
  lemma EverythingSent(supports: bool, events: seq<Event>, st: State, pops: seq<Event>, st': State)
    requires Runs(Init(supports), events, st) && AllPops(st, pops) && Runs(st, pops, st') && |pops| >= Backlog(st)
    requires !st.shutdown
    ensures SameStream(st, st') && Backlog(st') == 0
    ensures forall p :: 0 <= p < Limit(st) ==> Count(st'.acked, p) + Count(st'.inflight, p) == 1
    ensures !st.reset && st.finishedWriting ==> st'.finSent && Fins(st'.acked) + Fins(st'.inflight) == 1
    ensures !Ignores(st) ==> st'.retx == []
  {
    hide Inv, Runs, AllPops;
    ReachedInv(supports, events, st);
    PopsDrain(st, pops, st');
    DrainedPlaces(st');
  }

  lemma WorkZero(frames: seq<Frame>)
    requires Work(frames) == 0
    ensures frames == []
  {
  }

  lemma DrainedPlaces(st: State)
    requires Inv(st) && !st.shutdown && Backlog(st) == 0
    ensures forall p :: 0 <= p < Limit(st) ==> Count(st.acked, p) + Count(st.inflight, p) == 1
    ensures !st.reset && st.finishedWriting ==> st.finSent && Fins(st.acked) + Fins(st.inflight) == 1
    ensures !Ignores(st) ==> st.retx == []
  {
    UnsentPositive(st);
    if !Ignores(st) {
      WorkZero(st.retx);
      UnsentBytes(st);
      hide Pieces, Counted, Buffered, SmallFrames;
      forall p | 0 <= p < Limit(st) ensures Count(st.acked, p) + Count(st.inflight, p) == 1 {
        assert Places(st.acked, st.inflight, st.retx, p) == 1;
      }
    }
  }

  // -------------------------------------------------------------- completion

  /** The oldest frame in flight is acknowledged, n times. */
  function Acks(n: nat): seq<Event> {
    if n == 0 then [] else [Event.Acked(0)] + Acks(n - 1)
  }

  /** Completion changes nothing else. */
  lemma CompleteOnly(st: State)
    ensures Complete(st) == st.(completed := Complete(st).completed, reports := Complete(st).reports)
  {
  }

  /** An acknowledgment takes the frame out of flight and changes nothing about the others. */
  lemma AckLands(st: State, i: int)
    requires 0 <= i < |st.inflight|
    ensures var st' := OnAcked(st, i);
            && st'.acked == st.acked + [st.inflight[i]] && st'.inflight == Without(st.inflight, i)
            && st'.retx == st.retx && st'.nextFrame == st.nextFrame && st'.dfw == st.dfw
            && st'.writeOffset == st.writeOffset && st'.stream == st.stream && st'.finSent == st.finSent
            && st'.reset == st.reset && st'.shutdown == st.shutdown
            && (!Ignores(st) ==> st'.numOutstanding == st.numOutstanding - 1)
  {
    hide Complete, Without;
    CompleteOnly(Land(st, i));
  }

  lemma DueIsReported(st: State)
    requires Inv(st) && Reported(st) && !st.reset && !st.shutdown && st.finSent && st.retx == [] && st.inflight == []
    ensures st.completed
  {
    Outstanding(st);
    hide Inv;
  }

  lemma {:induction false} AckAll(st: State) returns (st': State)
    requires Inv(st) && Reported(st) && !st.reset && !st.shutdown && st.finSent && st.retx == []
    ensures Runs(st, Acks(|st.inflight|), st') && Inv(st') && Reported(st')
    ensures st'.completed && st'.inflight == [] && st'.retx == [] && st'.finSent && st'.stream == st.stream
    ensures !st'.reset && !st'.shutdown
    decreases |st.inflight|
  {
    hide Inv, Reported, OnAcked;
    if st.inflight == [] {
      st' := st;
      DueIsReported(st);
    } else {
      var e := Event.Acked(0);
      StepInv(st, e);
      StepReported(st, e);
      AckLands(st, 0);
      var next := Step(st, e);
      st' := AckAll(next);
      hide Runs;
      Prepend(st, e, Acks(|next.inflight|), st');
    }
  }

  /**
   A closed stream that is neither reset nor shut down completes, from any state of any run: after as many
   pops as its backlog, the acknowledgment of what is in flight completes it. Every byte and the FIN
   were then acknowledged once.
   */
  lemma Completes(supports: bool, events: seq<Event>, st: State, pops: seq<Event>, sent: State) returns (st': State)
    requires Runs(Init(supports), events, st) && !st.reset && !st.shutdown && st.finishedWriting
    requires AllPops(st, pops) && Runs(st, pops, sent) && |pops| >= Backlog(st)
    ensures Runs(sent, Acks(|sent.inflight|), st') && st'.completed && st'.reports == 1 && st'.stream == st.stream
    ensures forall p :: 0 <= p < |st.stream| ==> Count(st'.acked, p) == 1
    ensures Fins(st'.acked) == 1 && FinsAt(st'.acked, |st.stream|)
  {
    hide Inv, Runs, AllPops, Reported;
    EverythingSent(supports, events, st, pops, sent);
    ReachedInv(supports, events, st);
    RunInv(st, pops, sent);
    NotIgnored(st);
    st' := AckAll(sent);
    Outstanding(st');
    OneReport(st');
    AllAcked(st');
  }

  lemma NotIgnored(st: State)
    requires !st.reset
    ensures !Ignores(st)
  {
  }

  lemma OneReport(st: State)
    requires Inv(st) && st.completed && !st.reset && st.inflight == []
    ensures st.reports == 1 && st.numOutstanding == 0
  {
    assert Shape(st);
    Outstanding(st);
  }
}
