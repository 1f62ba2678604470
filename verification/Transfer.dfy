/** A stream from end to end: what the sender's frames carry is what the receiver reads. */
module Transfer {
  import opened Common
  import opened SorterModel
  import opened FrameSorter
  import opened StreamFrames
  import SendModel
  import SendRuns
  import R = ReceiveStream

  lemma PieceIsSlice(f: Frame, bytes: seq<byte>, n: int)
    requires PieceOf(f, bytes, n)
    ensures SliceOf(f.data, f.offset, StreamOf(bytes))
  {
    forall i | 0 <= i < |f.data| ensures f.data[i] == StreamOf(bytes)(f.offset + i) {
      assert f.data[i] == bytes[f.offset..f.offset + |f.data|][i];
    }
  }

  /** The frames are cut from the stream, and the FIN, if any, is at its end. */
  ghost predicate FramesOf(frames: seq<Frame>, stream: seq<byte>) {
    PiecesOf(frames, stream, |stream|) && SendModel.FinsAt(frames, |stream|) && |stream| < MaxByteCount
  }

  /** The offsets of the bytes that the frames carry. */
  ghost function Bytes(frames: seq<Frame>): iset<int> {
    iset p | Count(frames, p) >= 1
  }

  /** Frame i would split a gap when the frames before it leave as many gaps as allowed. */
  ghost predicate Refused(frames: seq<Frame>, i: int)
    requires 0 <= i < |frames|
  {
    OverLimit(Bytes(frames[..i]), frames[i].offset, |frames[i].data|)
  }

  ghost predicate HitsLimit(frames: seq<Frame>) {
    exists i :: 0 <= i < |frames| && Refused(frames, i)
  }

  /** What a receiver knows after these frames. */
  ghost predicate Knows(r: R.ReceiveStream, frames: seq<Frame>, stream: seq<byte>)
    reads r, r.frameQueue
  {
    && r.Receives(stream) && r.frameQueue.received == Bytes(frames)
    && r.finalOffset == (if Fins(frames) > 0 then |stream| else MaxByteCount)
  }

  lemma NextFrame(frames: seq<Frame>, i: int)
    requires 0 <= i < |frames|
    ensures Bytes(frames[..i + 1]) == Bytes(frames[..i]) + Range(frames[i].offset, End(frames[i]))
    ensures Fins(frames[..i + 1]) > 0 <==> Fins(frames[..i]) > 0 || frames[i].fin
  {
    assert frames[..i + 1] == frames[..i] + [frames[i]];
    StreamFrames.CountAppend(frames[..i], frames[i], 0);
    forall p ensures Count(frames[..i + 1], p) >= 1 <==>
      Count(frames[..i], p) >= 1 || InRange(p, frames[i].offset, End(frames[i])) {
      StreamFrames.CountAppend(frames[..i], frames[i], p);
    }
  }

  /** After i frames there are at most i + 1 gaps. */
  lemma {:induction false} GapPerFrame(frames: seq<Frame>, i: nat)
    requires i <= |frames|
    ensures |GapStarts(Bytes(frames[..i]))| <= i + 1
  {
    if i == 0 {
      var starts := GapStarts(Bytes(frames[..0]));
      assert starts <= {0};
      assert {0} == starts + ({0} - starts);
    } else {
      GapPerFrame(frames, i - 1);
      NextFrame(frames, i - 1);
      OneMoreGap(Bytes(frames[..i - 1]), frames[i - 1].offset, End(frames[i - 1]));
    }
  }

  lemma FewFrames(frames: seq<Frame>)
    requires |frames| < MaxStreamFrameSorterGaps
    ensures !HitsLimit(frames)
  {
    forall i | 0 <= i < |frames| ensures !Refused(frames, i) {
      GapPerFrame(frames, i);
    }
  }

  /** n frames of one byte each, which leave out every other byte. */
  function EveryOther(n: nat): (frames: seq<Frame>)
    ensures |frames| == n
  {
    if n == 0 then [] else EveryOther(n - 1) + [Frame(2 * n - 1, [7], false)]
  }

  lemma {:induction false} EveryOtherCarries(n: nat, p: int)
    ensures Count(EveryOther(n), p) >= 1 <==> 0 < p < 2 * n && p % 2 == 1
    ensures forall i :: 0 <= i < n ==>
            EveryOther(n)[..i] == EveryOther(i) && EveryOther(n)[i] == Frame(2 * i + 1, [7], false)
  {
    if n > 0 {
      EveryOtherCarries(n - 1, p);
      StreamFrames.CountAppend(EveryOther(n - 1), Frame(2 * n - 1, [7], false), p);
    }
  }

  ghost function Evens(n: nat): set<int> {
    set k | 0 <= k <= n :: 2 * k
  }

  lemma {:induction false} EvensSize(n: nat)
    ensures |Evens(n)| == n + 1
  {
    if n == 0 {
      assert Evens(0) == {0};
    } else {
      EvensSize(n - 1);
      assert Evens(n) == Evens(n - 1) + {2 * n};
    }
  }

  lemma EveryOtherGaps(n: nat)
    requires 2 * n < MaxByteCount
    ensures |GapStarts(Bytes(EveryOther(n)))| == n + 1
  {
    hide EveryOther;
    var received := Bytes(EveryOther(n));
    forall p ensures p in received <==> 0 < p < 2 * n && p % 2 == 1 {
      EveryOtherCarries(n, p);
    }
    hide Bytes;
    forall p ensures p in GapStarts(received) <==> p in Evens(n) {
      if p in GapStarts(received) {
        assert p == 2 * (p / 2);
      }
    }
    assert GapStarts(received) == Evens(n);
    EvensSize(n);
  }

  lemma EveryOtherRefused()
    ensures Refused(EveryOther(MaxStreamFrameSorterGaps), MaxStreamFrameSorterGaps - 1)
  {
    var n := MaxStreamFrameSorterGaps - 1;
    EveryOtherGaps(n);
    EveryOtherCarries(n + 1, 0);
    forall p | 2 * n <= p <= 2 * n + 2 ensures p !in Bytes(EveryOther(n)) {
      EveryOtherCarries(n, p);
    }
  }

  function Sevens(n: nat): seq<byte> { seq(n, _ => 7) }

  /** Every other byte of a stream, and then all of it with the FIN. */
  function OddFirst(): seq<Frame> {
    EveryOther(MaxStreamFrameSorterGaps) + [Frame(0, Sevens(2 * MaxStreamFrameSorterGaps), true)]
  }

  lemma AllSevens(n: nat)
    ensures |Sevens(n)| == n && PieceOf(Frame(0, Sevens(n), true), Sevens(n), n)
  {
    assert Sevens(n)[0..n] == Sevens(n);
  }

  lemma OneSeven(n: nat, p: nat)
    requires p < n
    ensures PieceOf(Frame(p, [7], false), Sevens(n), n)
  {
    assert Sevens(n)[p..p + 1] == [7];
  }

  lemma OddFirstPieces()
    ensures FramesOf(OddFirst(), Sevens(2 * MaxStreamFrameSorterGaps))
  {
    hide EveryOther, Sevens;
    var n := MaxStreamFrameSorterGaps;
    var stream, frames := Sevens(2 * n), OddFirst();
    AllSevens(2 * n);
    forall i | 0 <= i < |frames|
      ensures PieceOf(frames[i], stream, |stream|) && (frames[i].fin ==> End(frames[i]) == |stream|)
    {
      if i < n {
        EveryOtherCarries(n, 0);
        assert frames[i] == Frame(2 * i + 1, [7], false);
        OneSeven(2 * n, 2 * i + 1);
      } else {
        assert frames[i] == Frame(0, stream, true);
      }
    }
  }

  lemma OddFirstRefused()
    ensures HitsLimit(OddFirst())
  {
    hide EveryOther, Sevens, OverLimit;
    var n := MaxStreamFrameSorterGaps;
    EveryOtherRefused();
    assert OddFirst()[..n - 1] == EveryOther(n)[..n - 1] && OddFirst()[n - 1] == EveryOther(n)[n - 1];
    assert Refused(OddFirst(), n - 1);
  }

  lemma OddFirstCovers(p: int)
    ensures Fins(OddFirst()) > 0
    ensures 0 <= p < 2 * MaxStreamFrameSorterGaps ==> Count(OddFirst(), p) >= 1
  {
    hide EveryOther, Sevens, Count, Fins;
    var n := MaxStreamFrameSorterGaps;
    AllSevens(2 * n);
    StreamFrames.CountAppend(EveryOther(n), Frame(0, Sevens(2 * n), true), p);
  }

  /** The limit can be hit by frames that together carry a whole stream and its FIN, all of them cut from it. */
  lemma LimitHit()
    ensures FramesOf(OddFirst(), Sevens(2 * MaxStreamFrameSorterGaps)) && Fins(OddFirst()) > 0
    ensures forall p :: 0 <= p < 2 * MaxStreamFrameSorterGaps ==> Count(OddFirst(), p) >= 1
    ensures HitsLimit(OddFirst())
  {
    hide OddFirst, Sevens, HitsLimit, FramesOf, Count, Fins;
    OddFirstPieces();
    OddFirstRefused();
    OddFirstCovers(0);
    forall p | 0 <= p < 2 * MaxStreamFrameSorterGaps ensures Count(OddFirst(), p) >= 1 {
      OddFirstCovers(p);
    }
  }

  method NewReceiver(ghost frames: seq<Frame>, ghost stream: seq<byte>) returns (r: R.ReceiveStream)
    ensures fresh(r) && fresh(r.frameQueue) && Knows(r, frames[..0], stream) && r.consumed == []
  {
    r := new R.ReceiveStream();
    assert frames[..0] == [];
    assert Bytes([]) == iset{};
  }

  /** The next frame arrives. It is refused exactly if it makes one gap too many, which takes a long stream. */
  method FeedOne(r: R.ReceiveStream, f: Frame, ghost frames: seq<Frame>, ghost i: int, ghost stream: seq<byte>)
    returns (ok: bool)
    requires FramesOf(frames, stream) && 0 <= i < |frames| && f == frames[i] && Knows(r, frames[..i], stream)
    modifies r, r.frameQueue
    ensures ok <==> !Refused(frames, i)
    ensures ok ==> Knows(r, frames[..i + 1], stream) && r.consumed == old(r.consumed)
    ensures !ok ==> 2 * (MaxStreamFrameSorterGaps - 1) <= |stream|
  {
    ReceivedBelow(r, stream);
    hide R.ReceiveStream.Receives, Bytes, Fins, PiecesOf, SliceOf, StreamOf, SendModel.FinsAt, GapStarts;
    FrameFacts(frames, stream, i);
    NextFrame(frames, i);
    ok := r.Arrive(f.data, f.offset, f.fin, stream);
  }

  lemma ReceivedBelow(r: R.ReceiveStream, stream: seq<byte>)
    requires r.Receives(stream)
    ensures 2 * (|GapStarts(r.frameQueue.received)| - 1) <= |stream|
  {
    GapCount(r.frameQueue.gaps, r.frameQueue.received);
    FewGaps(r.frameQueue.gaps, r.frameQueue.received, |stream|);
  }

  /**
   Feeds frames to a receiver, in the order given. It is stopped exactly if the order makes one gap
   too many, which takes as many frames as gaps are allowed, and a stream twice as long.
   */
  method Feed(frames: seq<Frame>, ghost stream: seq<byte>) returns (r: R.ReceiveStream, limitHit: bool)
    requires FramesOf(frames, stream)
    ensures fresh(r) && fresh(r.frameQueue)
    ensures limitHit <==> HitsLimit(frames)
    ensures limitHit ==> |frames| >= MaxStreamFrameSorterGaps && |stream| >= 2 * (MaxStreamFrameSorterGaps - 1)
    ensures !limitHit ==> Knows(r, frames, stream) && r.consumed == []
  {
    hide Knows, FramesOf, Refused;
    if |frames| < MaxStreamFrameSorterGaps {
      FewFrames(frames);
    }
    r := NewReceiver(frames, stream);
    for i := 0 to |frames|
      invariant fresh(r) && fresh(r.frameQueue)
      invariant Knows(r, frames[..i], stream) && r.consumed == []
      invariant forall j :: 0 <= j < i ==> !Refused(frames, j)
    {
      var ok := FeedOne(r, frames[i], frames, i, stream);
      if !ok {
        return r, true;
      }
    }
    assert frames[..|frames|] == frames;
    limitHit := false;
  }

  lemma FrameFacts(frames: seq<Frame>, stream: seq<byte>, i: int)
    requires FramesOf(frames, stream) && 0 <= i < |frames|
    ensures var f := frames[i];
            && 0 <= f.offset && End(f) <= |stream| && (f.fin ==> End(f) == |stream|)
            && SliceOf(f.data, f.offset, StreamOf(stream))
  {
    assert PieceOf(frames[i], stream, |stream|);
    PieceIsSlice(frames[i], stream, |stream|);
  }

  /** Reads one buffer full. As all bytes have arrived, it does not block. */
  method ReadSome(r: R.ReceiveStream, size: int, ghost frames: seq<Frame>, ghost stream: seq<byte>)
    returns (data: seq<byte>, eof: bool)
    requires Knows(r, frames, stream) && Fins(frames) > 0 && size > 0
    requires forall p :: 0 <= p < |stream| ==> Count(frames, p) >= 1
    modifies r, r.frameQueue
    ensures Knows(r, frames, stream) && r.consumed == old(r.consumed) + data && |r.consumed| <= |stream|
    ensures eof ==> |r.consumed| == |stream|
    ensures !eof ==> data != []
  {
    hide StateOk, Missing, Conserved, Agrees, Prefix, Count, Fins;
    var buf := new byte[size];
    var res := r.Read(buf, false);
    R.ReadBelow(r.frameQueue.delivered, r.consumed, r.currentFrame, r.readPosInFrame);
    R.BelowFinal(r.highestReceived, r.finalOffset, r.receivedFinalOffset, r.currentFrameIsLast, r.frameQueue);
    data, eof := buf[..res.n], res.err == R.EOF;
  }

  /**
   Reads everything. Frames may have arrived in any order and any number of times: if together they
   carry the whole stream and the FIN, the receiver reads exactly the stream, and then EOF, unless
   the order of arrival makes one gap too many.
   */
  method Deliver(frames: seq<Frame>, size: int, ghost stream: seq<byte>) returns (out: seq<byte>, limitHit: bool)
    requires FramesOf(frames, stream) && Fins(frames) > 0 && size > 0
    requires forall p :: 0 <= p < |stream| ==> Count(frames, p) >= 1
    ensures limitHit <==> HitsLimit(frames)
    ensures limitHit ==> |frames| >= MaxStreamFrameSorterGaps && |stream| >= 2 * (MaxStreamFrameSorterGaps - 1)
    ensures out == if limitHit then [] else stream
  {
    hide HitsLimit;
    var r;
    r, limitHit := Feed(frames, stream);
    out := [];
    if limitHit {
      return;
    }
    var eof := false;
    while !eof
      invariant fresh(r) && fresh(r.frameQueue) && Knows(r, frames, stream)
      invariant r.consumed == out && |out| <= |stream| && (eof ==> |out| == |stream|)
      decreases |stream| - |out|, !eof
    {
      var data;
      data, eof := ReadSome(r, size, frames, stream);
      out := out + data;
    }
    r.ReadsArePrefix(StreamOf(stream));
    PrefixOfStream(stream);
  }

  lemma {:induction false} CountPositive(frames: seq<Frame>, p: int)
    ensures Count(frames, p) >= 1 <==> exists f :: f in frames && f.offset <= p < End(f)
    ensures Fins(frames) > 0 <==> exists f :: f in frames && f.fin
  {
    if frames != [] {
      CountPositive(frames[1..], p);
      assert forall f :: f in frames <==> f == frames[0] || f in frames[1..];
    }
  }

  /** Frames of the stream that include those acknowledged carry all of it. */
  lemma ArrivedAll(acked: seq<Frame>, arrived: seq<Frame>, stream: seq<byte>)
    requires Fins(acked) > 0 && forall p :: 0 <= p < |stream| ==> Count(acked, p) >= 1
    requires forall f :: f in acked ==> f in arrived
    ensures Fins(arrived) > 0
    ensures forall p :: 0 <= p < |stream| ==> Count(arrived, p) >= 1
  {
    CountPositive(acked, 0);
    CountPositive(arrived, 0);
    forall p | 0 <= p < |stream| ensures Count(arrived, p) >= 1 {
      CountPositive(acked, p);
      CountPositive(arrived, p);
    }
  }

  /** Whatever was sent is a piece of the stream in the end. */
  lemma ArrivedPieces(supports: bool, events: seq<SendRuns.Event>, st: SendModel.State, arrived: seq<Frame>)
    requires SendRuns.Runs(SendModel.Init(supports), events, st) && st.completed && !st.reset && !st.shutdown
    requires forall f :: f in arrived ==> SendRuns.Sent(SendModel.Init(supports), events, f)
    requires |st.stream| < MaxByteCount
    ensures FramesOf(arrived, st.stream)
  {
    hide SendRuns.Runs, SendRuns.Sent, SendModel.Init, SendModel.Inv;
    SendModel.InitInv(supports);
    SendRuns.ReachedInv(supports, events, st);
    WholeStreamSent(st);
    forall i | 0 <= i < |arrived|
      ensures PieceOf(arrived[i], st.stream, |st.stream|) && (arrived[i].fin ==> End(arrived[i]) == |st.stream|)
    {
      assert arrived[i] in arrived;
      SendRuns.SentPiece(SendModel.Init(supports), events, st, arrived[i]);
    }
  }

  lemma WholeStreamSent(st: SendModel.State)
    requires SendModel.Inv(st) && SendRuns.Reported(st) && st.completed && !st.reset && !st.shutdown
    ensures st.writeOffset == |st.stream|
  {
  }

  /**
   When a stream was not reset, and the sender reports it as completed, a receiver that got the
   frames acknowledged, among any frames the sender ever sent, in any order and any number of times,
   reads exactly what was written, unless the order of arrival makes one gap too many.
   */
  method EndToEnd(ghost supports: bool, ghost events: seq<SendRuns.Event>, ghost st: SendModel.State,
                  arrived: seq<Frame>, size: int)
    returns (out: seq<byte>, limitHit: bool)
    requires SendRuns.Runs(SendModel.Init(supports), events, st) && st.completed && !st.reset && !st.shutdown
    requires |st.stream| < MaxByteCount && size > 0
    requires forall f :: f in arrived ==> SendRuns.Sent(SendModel.Init(supports), events, f)
    requires forall f :: f in st.acked ==> f in arrived
    ensures limitHit <==> HitsLimit(arrived)
    ensures limitHit ==> |arrived| >= MaxStreamFrameSorterGaps && |st.stream| >= 2 * (MaxStreamFrameSorterGaps - 1)
    ensures out == if limitHit then [] else st.stream
  {
    hide SendRuns.Runs, SendRuns.Sent, Count, Fins, HitsLimit;
    SendRuns.CompletedIffDelivered(supports, events, st);
    ArrivedPieces(supports, events, st, arrived);
    ArrivedAll(st.acked, arrived, st.stream);
    out, limitHit := Deliver(arrived, size, st.stream);
  }
}
