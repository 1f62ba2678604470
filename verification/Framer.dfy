/**
 The framer: fills a packet with control frames and STREAM frames. What a stream answers when it is
 asked for a frame is a function of the number of the request, the stream and, for STREAM frames, the
 space offered.
 */
module Framer {
  import opened Common
  import opened StreamFrames
  import opened RingBuffer
  import SendModel
  import Varint

  /** protocol.MinStreamFrameSize */
  const MinStreamFrameSize: int := 128
  const MaxStreamControlFrameSize: int := 25

  /** Any frame but a STREAM frame, with the length it takes. */
  datatype Control = Control(name: int, len: nat)

  /** A STREAM frame popped from a stream. */
  datatype Popped = Popped(id: int, frame: Frame)

  datatype PopAnswer = PopAnswer(frame: Option<Frame>, blocked: Option<Control>, hasMore: bool)
  datatype ControlAnswer = ControlAnswer(frame: Option<Control>, hasMore: bool)

  type PopStream = (int, int, int) -> PopAnswer
  type GetControl = (int, int) -> ControlAnswer

  /** A stream does not use more space than it is offered, nor more than a pooled frame can hold. */
  ghost predicate AnswerFits(id: int, space: int, a: PopAnswer) {
    a.frame.Some? ==> Length(id, a.frame.value) <= space && |a.frame.value.data| <= MaxPacketBufferSize
  }

  /** So do all streams, for all space up to maxSpace. */
  ghost predicate PopFits(pop: PopStream, maxSpace: int) {
    forall k, id, space :: MinStreamFrameSize <= space <= maxSpace ==> AnswerFits(id, space, pop(k, id, space))
  }

  /** Stream-related control frames have at most the stated size. */
  ghost predicate ControlFits(get: GetControl) {
    forall k, id :: get(k, id).frame.Some? ==> 0 < get(k, id).frame.value.len <= MaxStreamControlFrameSize
  }

  // ---------------------------------------------------------------- length

  function ControlLen(frames: seq<Control>): nat {
    if frames == [] then 0 else ControlLen(frames[..|frames| - 1]) + frames[|frames| - 1].len
  }

  lemma ControlLenAppend(frames: seq<Control>, c: Control)
    ensures ControlLen(frames + [c]) == ControlLen(frames) + c.len
  {
    assert (frames + [c])[..|frames|] == frames;
  }

  function Reversed(frames: seq<Control>): seq<Control> {
    if frames == [] then [] else Reversed(frames[1..]) + [frames[0]]
  }

  /** STREAM frames with a DataLen field */
  function StreamLen(frames: seq<Popped>): int {
    if frames == [] then 0
    else var last := frames[|frames| - 1]; StreamLen(frames[..|frames| - 1]) + Length(last.id, last.frame)
  }

  lemma StreamLenAppend(frames: seq<Popped>, p: Popped)
    ensures StreamLen(frames + [p]) == StreamLen(frames) + Length(p.id, p.frame)
  {
    assert (frames + [p])[..|frames|] == frames;
  }

  /** The last STREAM frame in a packet has no DataLen field. */
  function PacketLen(frames: seq<Popped>): int {
    if frames == [] then 0 else StreamLen(frames) - Varint.Len(|frames[|frames| - 1].frame.data|)
  }

  /** The space offered for a STREAM frame when `space` is left. */
  function Offered(space: int): int { space + Varint.Len(space) }

  /** A frame that takes all the space it was offered still fits once it loses its DataLen field. */
  lemma OfferedFits(id: int, f: Frame, space: int)
    requires MinStreamFrameSize <= space && Length(id, f) <= Offered(space) && |f.data| <= MaxPacketBufferSize
    ensures Length(id, f) - Varint.Len(|f.data|) <= space
  {
  }

  /** The offer is exact: a frame is within it if and only if it fits once it loses its DataLen field. */
  lemma OfferedExact(id: int, f: Frame, space: int)
    requires MinStreamFrameSize <= space && |f.data| <= MaxPacketBufferSize
    ensures Length(id, f) <= Offered(space) <==> Length(id, f) - Varint.Len(|f.data|) <= space
  {
  }

  /**
   What is left of the space. A STREAM frame may take more than is left, by no more than its DataLen
   field, but then it is the last frame.
   */
  ghost predicate Packed(maxLen: int, frames: seq<Control>, streamFrames: seq<Popped>, left: int) {
    && left == maxLen - ControlLen(frames) - StreamLen(streamFrames)
    && (left < 0 ==> streamFrames != [] && left + Varint.Len(|streamFrames[|streamFrames| - 1].frame.data|) >= 0)
  }

  lemma PackStream(maxLen: int, frames: seq<Control>, streamFrames: seq<Popped>, left: int, p: Popped)
    requires Packed(maxLen, frames, streamFrames, left) && left >= MinStreamFrameSize
    requires Length(p.id, p.frame) <= Offered(left) && |p.frame.data| <= MaxPacketBufferSize
    ensures Packed(maxLen, frames, streamFrames + [p], left - Length(p.id, p.frame))
  {
    OfferedFits(p.id, p.frame, left);
    StreamLenAppend(streamFrames, p);
  }

  lemma PackControl(maxLen: int, frames: seq<Control>, streamFrames: seq<Popped>, left: int, c: Control)
    requires Packed(maxLen, frames, streamFrames, left) && left >= c.len
    ensures Packed(maxLen, frames + [c], streamFrames, left - c.len)
  {
    ControlLenAppend(frames, c);
  }

  // ------------------------------------------------------------- the queue

  /** The queue after a stream was popped. */
  function AfterPop(queue: seq<int>, again: bool): seq<int>
    requires queue != []
  {
    queue[1..] + if again then [queue[0]] else []
  }

  /** The queue after some pops; again[i] says whether the i-th stream popped has more data. */
  function AfterPops(queue: seq<int>, again: seq<bool>): seq<int>
    decreases |again|
  {
    if queue == [] || again == [] then queue else AfterPops(AfterPop(queue, again[0]), again[1..])
  }

  /** Round robin: the streams that were not popped move forward by the number of pops, whatever the others do. */
  lemma {:induction false} Fair(queue: seq<int>, again: seq<bool>, i: int)
    requires 0 <= i && |again| + i < |queue|
    ensures i < |AfterPops(queue, again)| && AfterPops(queue, again)[i] == queue[|again| + i]
    decreases |again|
  {
    if again != [] {
      var queue' := AfterPop(queue, again[0]);
      Fair(queue', again[1..], i);
      assert queue'[|again| - 1 + i] == queue[|again| + i];
    }
  }

  // ------------------------------------------------------ packing a packet

  /** What a stream that is popped answers; a stream that is not active is not asked. */
  datatype Answer = Answer(id: int, a: PopAnswer)

  /** The framer, and the packet while STREAM frames are added to it. */
  datatype Packing = Packing(
    queue: seq<int>, active: set<int>, queued: seq<Control>,
    frames: seq<Control>, streamFrames: seq<Popped>, left: int, full: bool)

  function Ask(s: Packing, k: int, pop: PopStream): Answer
    requires s.queue != []
  {
    var id := s.queue[0];
    Answer(id, if id in s.active then pop(k, id, Offered(s.left)) else PopAnswer(None, None, false))
  }

  /** The stream goes back to the end of the queue if it has more data. */
  function Requeue(s: Packing, answer: Answer): Packing
    requires s.queue != []
  {
    s.(queue := AfterPop(s.queue, answer.a.hasMore),
       active := if answer.a.hasMore then s.active else s.active - {answer.id})
  }

  function AddFrame(s: Packing, answer: Answer): Packing {
    if answer.a.frame.None? then s
    else
      var f := answer.a.frame.value;
      s.(streamFrames := s.streamFrames + [Popped(answer.id, f)], left := s.left - Length(answer.id, f))
  }

  /** A STREAM_DATA_BLOCKED frame goes into the packet, or waits for the next one. */
  function AddBlocked(s: Packing, blocked: Option<Control>): Packing {
    if blocked.None? then s
    else if s.left < blocked.value.len then s.(queued := s.queued + [blocked.value], full := true)
    else s.(frames := s.frames + [blocked.value], left := s.left - blocked.value.len)
  }

  function AskNext(s: Packing, k: int, pop: PopStream): Packing
    requires s.queue != []
  {
    var answer := Ask(s, k, pop);
    AddBlocked(AddFrame(Requeue(s, answer), answer), answer.a.blocked)
  }

  /** Every stream was asked, or little space is left, or a blocked frame did not fit. */
  predicate Stops(s: Packing, k: int, n: int) {
    k >= n || s.left < MinStreamFrameSize || s.full || s.queue == []
  }

  /** The loop over the queue, from stream k on. */
  function AskAll(s: Packing, k: int, n: int, pop: PopStream): Packing
    decreases n - k
  {
    if Stops(s, k, n) then s else AskAll(AskNext(s, k, pop), k + 1, n, pop)
  }

  /** The streams asked, with their answers. */
  function Answers(s: Packing, k: int, n: int, pop: PopStream): seq<Answer>
    decreases n - k
  {
    if Stops(s, k, n) then [] else [Ask(s, k, pop)] + Answers(AskNext(s, k, pop), k + 1, n, pop)
  }

  function Again(answers: seq<Answer>): seq<bool> {
    if answers == [] then [] else [answers[0].a.hasMore] + Again(answers[1..])
  }

  /** The STREAM frames in the answers. */
  function FramesIn(answers: seq<Answer>): seq<Popped> {
    if answers == [] then []
    else
      (if answers[0].a.frame.Some? then [Popped(answers[0].id, answers[0].a.frame.value)] else [])
      + FramesIn(answers[1..])
  }

  /** The STREAM_DATA_BLOCKED frames in the answers. */
  function BlockedIn(answers: seq<Answer>): seq<Control> {
    if answers == [] then []
    else (if answers[0].a.blocked.Some? then [answers[0].a.blocked.value] else []) + BlockedIn(answers[1..])
  }

  /** The streams that have nothing more to send. */
  function Finished(answers: seq<Answer>): set<int> {
    if answers == [] then {} else (if answers[0].a.hasMore then {} else {answers[0].id}) + Finished(answers[1..])
  }

  /** The answers come from the first streams of the queue, in order, and determine the queue afterwards. */
  lemma {:induction false} RoundRobin(s: Packing, k: int, n: int, pop: PopStream)
    requires n - k <= |s.queue|
    ensures var t, r := Answers(s, k, n, pop), AskAll(s, k, n, pop);
            && |t| <= Max(0, n - k)
            && (forall j :: 0 <= j < |t| ==> t[j].id == s.queue[j])
            && r.queue == AfterPops(s.queue, Again(t))
            && r.active == s.active - Finished(t)
    decreases n - k
  {
    hide AddFrame, AddBlocked, Ask;
    if !Stops(s, k, n) {
      var s', answer := AskNext(s, k, pop), Ask(s, k, pop);
      AskedFields(s, k, pop);
      RoundRobin(s', k + 1, n, pop);
      var rest := Answers(s', k + 1, n, pop);
      assert ([answer] + rest)[1..] == rest;
      assert forall j :: 0 <= j < |s.queue| - 1 ==> s'.queue[j] == s.queue[j + 1];
    }
  }

  lemma AskedFields(s: Packing, k: int, pop: PopStream)
    requires s.queue != []
    ensures var answer, s' := Ask(s, k, pop), AskNext(s, k, pop);
            && answer.id == s.queue[0]
            && s'.queue == AfterPop(s.queue, answer.a.hasMore)
            && s'.active == s.active - if answer.a.hasMore then {} else {answer.id}
  {
  }

  /** Everything the streams handed out is in the packet, or queued. */
  lemma {:induction false} NothingDropped(s: Packing, k: int, n: int, pop: PopStream)
    ensures var t, r := Answers(s, k, n, pop), AskAll(s, k, n, pop);
            && r.streamFrames == s.streamFrames + FramesIn(t)
            && multiset(r.frames) + multiset(r.queued) ==
               multiset(s.frames) + multiset(s.queued) + multiset(BlockedIn(t))
    decreases n - k
  {
    hide Ask, AskNext, FramesIn, BlockedIn;
    if Stops(s, k, n) {
      NothingIn();
    } else {
      var s', answer := AskNext(s, k, pop), Ask(s, k, pop);
      NothingDropped(s', k + 1, n, pop);
      AnswerKept(s, k, pop);
      FirstIn(answer, Answers(s', k + 1, n, pop));
    }
  }

  lemma NothingIn()
    ensures FramesIn([]) == [] && BlockedIn([]) == []
  {
  }

  lemma FirstIn(answer: Answer, rest: seq<Answer>)
    ensures FramesIn([answer] + rest) == FramesIn([answer]) + FramesIn(rest)
    ensures BlockedIn([answer] + rest) == BlockedIn([answer]) + BlockedIn(rest)
  {
    assert ([answer] + rest)[1..] == rest && [answer][1..] == [];
    NothingIn();
  }

  lemma {:induction false} FramesGrow(s: Packing, k: int, n: int, pop: PopStream)
    ensures s.frames <= AskAll(s, k, n, pop).frames
    decreases n - k
  {
    hide Ask, Requeue;
    if !Stops(s, k, n) {
      RequeueFields(s, Ask(s, k, pop));
      FramesGrow(AskNext(s, k, pop), k + 1, n, pop);
    }
  }

  lemma AnswerKept(s: Packing, k: int, pop: PopStream)
    requires s.queue != []
    ensures var s', answer := AskNext(s, k, pop), Ask(s, k, pop);
            && s'.streamFrames == s.streamFrames + FramesIn([answer])
            && multiset(s'.frames) + multiset(s'.queued) ==
              multiset(s.frames) + multiset(s.queued) + multiset(BlockedIn([answer]))
  {
    hide Ask;
    assert FramesIn([]) == [] && BlockedIn([]) == [];
  }

  /** Why the loop ends: all streams were asked, or little space is left, or a blocked frame did not fit. */
  lemma {:induction false} WhyStopped(s: Packing, k: int, n: int, pop: PopStream)
    requires n - k <= |s.queue| && !s.full
    ensures var t, r := Answers(s, k, n, pop), AskAll(s, k, n, pop);
            && (|t| >= n - k || r.left < MinStreamFrameSize || r.full)
            && (r.full ==> t != [] && t[|t| - 1].a.blocked.Some? && r.left < t[|t| - 1].a.blocked.value.len)
    decreases n - k
  {
    hide Ask;
    if !Stops(s, k, n) {
      var s', answer := AskNext(s, k, pop), Ask(s, k, pop);
      var rest := Answers(s', k + 1, n, pop);
      var t := [answer] + rest;
      if s'.full {
        assert rest == [] && t[0] == answer;
      } else {
        WhyStopped(s', k + 1, n, pop);
        assert rest != [] ==> t[|t| - 1] == rest[|rest| - 1];
      }
    }
  }

  /** The packet is never longer than allowed. */
  lemma {:induction false} PacketFits(maxLen: int, s: Packing, k: int, n: int, pop: PopStream)
    requires Packed(maxLen, s.frames, s.streamFrames, s.left) && s.left <= maxLen && PopFits(pop, Offered(maxLen))
    ensures var r := AskAll(s, k, n, pop); Packed(maxLen, r.frames, r.streamFrames, r.left)
    decreases n - k
  {
    hide Packed, PopFits, Ask, Requeue, Length, Varint.Len;
    if !Stops(s, k, n) {
      var answer := Ask(s, k, pop);
      AnswerShort(s, k, pop, maxLen);
      var s1 := AddFrame(Requeue(s, answer), answer);
      RequeueFields(s, answer);
      if answer.a.frame.Some? {
        PackStream(maxLen, s.frames, s.streamFrames, s.left, Popped(answer.id, answer.a.frame.value));
      }
      if answer.a.blocked.Some? && s1.left >= answer.a.blocked.value.len {
        PackControl(maxLen, s1.frames, s1.streamFrames, s1.left, answer.a.blocked.value);
      }
      assert AskNext(s, k, pop).left <= s.left by {
        if answer.a.frame.Some? {
          LengthBounds(answer.id, answer.a.frame.value);
        }
      }
      PacketFits(maxLen, AskNext(s, k, pop), k + 1, n, pop);
    }
  }

  lemma RequeueFields(s: Packing, answer: Answer)
    requires s.queue != []
    ensures var s1 := Requeue(s, answer);
            s1.frames == s.frames && s1.streamFrames == s.streamFrames && s1.left == s.left && s1.queued == s.queued
  {
  }

  lemma OfferedGrows(a: int, b: int)
    requires a <= b
    ensures Offered(a) <= Offered(b)
  {
  }

  lemma AnswerShort(s: Packing, k: int, pop: PopStream, maxLen: int)
    requires PopFits(pop, Offered(maxLen)) && s.queue != [] && MinStreamFrameSize <= s.left <= maxLen
    ensures var answer := Ask(s, k, pop);
            answer.a.frame.Some? ==>
              Length(answer.id, answer.a.frame.value) <= Offered(s.left)
                && |answer.a.frame.value.data| <= MaxPacketBufferSize
  {
    OfferedGrows(s.left, maxLen);
    assert AnswerFits(s.queue[0], Offered(s.left), pop(k, s.queue[0], Offered(s.left)));
  }

  /** One PATH_RESPONSE goes into a packet, if it fits. */
  function FirstPath(paths: seq<Control>, maxLen: int): seq<Control> {
    if |paths| > 0 && paths[0].len <= maxLen then [paths[0]] else []
  }

  /** The first PATH_RESPONSE waits only if it is too long. */
  lemma PathTaken(paths: seq<Control>, maxLen: int)
    ensures var r := FirstPath(paths, maxLen);
            r <= paths && |r| <= 1 && (r == [] <==> paths == [] || paths[0].len > maxLen)
  {
  }

  /** The frames that streams hand out when they are asked, one after the other, for control frames. */
  function Got(get: GetControl, asked: seq<int>): seq<Control> {
    if asked == [] then []
    else
      var n := |asked| - 1;
      Got(get, asked[..n]) + if get(n, asked[n]).frame.Some? then [get(n, asked[n]).frame.value] else []
  }

  /** Every frame that was handed out is in it, in the order of the requests. */
  lemma {:induction false} GotAll(get: GetControl, asked: seq<int>) returns (at: seq<int>)
    ensures |at| == |asked| && |Got(get, asked)| <= |asked|
    ensures forall i :: 0 <= i < |asked| && get(i, asked[i]).frame.Some? ==>
              0 <= at[i] < |Got(get, asked)| && Got(get, asked)[at[i]] == get(i, asked[i]).frame.value
    ensures forall i, j :: 0 <= i < j < |asked| && get(i, asked[i]).frame.Some? && get(j, asked[j]).frame.Some? ==>
              at[i] < at[j]
    decreases |asked|
  {
    at := [];
    if asked != [] {
      var n := |asked| - 1;
      at := GotAll(get, asked[..n]);
      at := at + [|Got(get, asked[..n])|];
    }
  }

  /** The streams that have no more control frames are those that said so. */
  lemma {:induction false} SilentExactly(get: GetControl, asked: seq<int>, id: int)
    ensures id in Silent(get, asked) <==> exists i :: 0 <= i < |asked| && asked[i] == id && !get(i, id).hasMore
    decreases |asked|
  {
    if asked != [] {
      var n := |asked| - 1;
      var init := asked[..n];
      SilentExactly(get, init, id);
      if i :| 0 <= i < |init| && init[i] == id && !get(i, id).hasMore {
        assert asked[i] == id;
      }
      if i :| 0 <= i < |asked| && asked[i] == id && !get(i, id).hasMore {
        assert i == n || init[i] == id;
      }
      if asked[n] == id && !get(n, id).hasMore {
        assert asked[n] == id;
      }
    }
  }

  /** The streams that have no more control frames. */
  function Silent(get: GetControl, asked: seq<int>): set<int> {
    if asked == [] then {}
    else
      var n := |asked| - 1;
      Silent(get, asked[..n]) + if get(n, asked[n]).hasMore then {} else {asked[n]}
  }

  /** The frames are those of the path and those handed out; the streams with nothing more are gone. */
  ghost predicate Handed(get: GetControl, path: seq<Control>, asked: seq<int>, frames: seq<Control>,
                         before: set<int>, now: set<int>) {
    frames == path + Got(get, asked) && now == before - Silent(get, asked)
  }

  lemma HandedNone(get: GetControl, path: seq<Control>, before: set<int>)
    ensures Handed(get, path, [], path, before, before)
  {
  }

  lemma HandedOne(get: GetControl, path: seq<Control>, asked: seq<int>, frames: seq<Control>,
                  before: set<int>, now: set<int>, id: int)
    requires Handed(get, path, asked, frames, before, now)
    ensures var a := get(|asked|, id);
            Handed(get, path, asked + [id], if a.frame.Some? then frames + [a.frame.value] else frames,
                   before, if a.hasMore then now else now - {id})
  {
    assert (asked + [id])[..|asked|] == asked;
  }

  lemma {:induction false} ReversedBag(frames: seq<Control>)
    ensures multiset(Reversed(frames)) == multiset(frames)
  {
    if frames != [] {
      ReversedBag(frames[1..]);
      assert frames == [frames[0]] + frames[1..];
    }
  }

  // ---------------------------------------------------------------- framer

  /** The streams of this model meet the contract. */
  lemma SendStreamFits(st: SendModel.State, id: int, space: int, window: int)
    requires SendModel.Inv(st) && MinStreamFrameSize <= space <= MaxPacketBufferSize
    ensures var r := SendModel.Pop(st, id, space, window); AnswerFits(id, space, PopAnswer(r.frame, None, r.hasMore))
  {
    hide SendModel.Inv, SendModel.Pop, Length;
    SendModel.PopFits(st, id, space, window);
    var r := SendModel.Pop(st, id, space, window);
    if r.frame.Some? {
      LengthBounds(id, r.frame.value);
    }
  }

  /** If all streams asked are streams of this model, a packet of usual size can be filled. */
  lemma SendStreamsFit(pop: PopStream, states: (int, int) -> SendModel.State, window: (int, int) -> int, maxLen: int)
    requires Offered(maxLen) <= MaxPacketBufferSize
    requires forall k, id :: SendModel.Inv(states(k, id))
    requires forall k, id, space ::
               var r := SendModel.Pop(states(k, id), id, space, window(k, id));
               pop(k, id, space).frame == r.frame && pop(k, id, space).hasMore == r.hasMore
    ensures PopFits(pop, Offered(maxLen))
  {
    hide SendModel.Inv, SendModel.Pop, Length;
    forall k, id, space | MinStreamFrameSize <= space <= Offered(maxLen)
      ensures AnswerFits(id, space, pop(k, id, space))
    {
      SendStreamFits(states(k, id), id, space, window(k, id));
    }
  }

  lemma LengthBounds(id: int, f: Frame)
    ensures |f.data| < Length(id, f) && (f.data == [] ==> Length(id, f) <= MinStreamFrameSize)
  {
  }

  /** Every active stream but the first is behind it. */
  lemma StillQueued(queue: seq<int>, active: set<int>)
    requires queue != [] && forall x :: x in active ==> x in queue
    ensures forall x :: x in active ==> x == queue[0] || x in queue[1..]
  {
    assert queue == [queue[0]] + queue[1..];
  }

  class Framer {
    var activeStreams: set<int>
    const streamQueue: RingBuffer<int>
    var streamsWithControlFrames: set<int>
    var controlFrames: seq<Control>
    var pathResponses: seq<Control>

    ghost function Queue(): seq<int>
      requires streamQueue.Valid()
      reads streamQueue, streamQueue.ring
    {
      streamQueue.Contents()
    }

    /** Every active stream is in the queue. */
    ghost predicate Valid()
      reads this, streamQueue, streamQueue.ring
    {
      streamQueue.Valid() && forall id :: id in activeStreams ==> id in Queue()
    }

    constructor ()
      ensures Valid() && fresh(streamQueue) && fresh(streamQueue.ring) && Queue() == [] && activeStreams == {}
    {
      activeStreams, streamsWithControlFrames, controlFrames, pathResponses := {}, {}, [], [];
      streamQueue := new RingBuffer<int>();
    }

    method AddActiveStream(id: int)
      requires Valid()
      modifies this`activeStreams, streamQueue, streamQueue.ring
      ensures Valid() && activeStreams == old(activeStreams) + {id}
      ensures Queue() == if id in old(activeStreams) then old(Queue()) else old(Queue()) + [id]
      ensures streamQueue.ring == old(streamQueue.ring) || fresh(streamQueue.ring)
    {
      if id !in activeStreams {
        streamQueue.PushBack(id);
        activeStreams := activeStreams + {id};
      }
    }

    /** The stream stays in the queue, and is skipped when it is popped. */
    method RemoveActiveStream(id: int)
      requires Valid()
      modifies this`activeStreams
      ensures Valid() && activeStreams == old(activeStreams) - {id} && Queue() == old(Queue())
    {
      activeStreams := activeStreams - {id};
    }

    /** The state of the packing. */
    ghost function Pack(frames: seq<Control>, streamFrames: seq<Popped>, left: int, full: bool): Packing
      requires streamQueue.Valid()
      reads this, streamQueue, streamQueue.ring
    {
      Packing(Queue(), activeStreams, controlFrames, frames, streamFrames, left, full)
    }

    /** getNextStreamFrame */
    method GetNextStreamFrame(space: int, k: int, pop: PopStream)
      returns (id: int, frame: Option<Frame>, blocked: Option<Control>)
      requires Valid() && Queue() != []
      modifies this`activeStreams, streamQueue, streamQueue.ring
      ensures Valid() && id == old(Queue())[0]
      ensures var active := id in old(activeStreams); var a := pop(k, id, Offered(space));
              && frame == (if active then a.frame else None) && blocked == (if active then a.blocked else None)
              && Queue() == AfterPop(old(Queue()), active && a.hasMore)
              && activeStreams == if active && a.hasMore then old(activeStreams) else old(activeStreams) - {id}
      ensures streamQueue.ring == old(streamQueue.ring) || fresh(streamQueue.ring)
    {
      hide RingBuffer.Valid, RingBuffer.Contents, Offered;
      StillQueued(Queue(), activeStreams);
      id := streamQueue.PopFront();
      if id !in activeStreams {
        return id, None, None;
      }
      var a := pop(k, id, Offered(space));
      if a.hasMore {
        streamQueue.PushBack(id);
      } else {
        activeStreams := activeStreams - {id};
      }
      return id, a.frame, a.blocked;
    }

    /** The first PATH_RESPONSE, if it fits */
    method AppendPathResponse(maxLen: int) returns (frames: seq<Control>)
      requires maxLen >= 0
      modifies this`pathResponses
      ensures ControlLen(frames) <= maxLen && frames == FirstPath(old(pathResponses), maxLen)
      ensures frames + pathResponses == old(pathResponses)
      ensures frames == [] ==> pathResponses == [] || pathResponses[0].len > maxLen
    {
      frames := [];
      if |pathResponses| > 0 && pathResponses[0].len <= maxLen {
        frames := [pathResponses[0]];
        ControlLenAppend([], pathResponses[0]);
        assert frames == [] + [pathResponses[0]];
        pathResponses := pathResponses[1..];
      }
    }

    /** The control frames of one stream, as long as a frame of the largest size fits. */
    method AppendStreamControl(frames: seq<Control>, id: int, k: int, maxLen: int, get: GetControl,
                               ghost path: seq<Control>, ghost asked: seq<int>, ghost before: set<int>)
      returns (frames': seq<Control>, ghost asked': seq<int>, k': int)
      requires ControlFits(get) && ControlLen(frames) <= maxLen && k == |asked|
      requires Handed(get, path, asked, frames, before, streamsWithControlFrames)
      modifies this`streamsWithControlFrames
      ensures ControlLen(frames') <= maxLen && k' == |asked'|
      ensures Handed(get, path, asked', frames', before, streamsWithControlFrames)
      ensures id in asked' || maxLen - ControlLen(frames') <= MaxStreamControlFrameSize
      ensures forall x :: x in asked ==> x in asked'
      ensures forall x :: x in asked' ==> x in asked || x == id
    {
      hide Handed;
      frames', asked', k' := frames, asked, k;
      while maxLen - ControlLen(frames') > MaxStreamControlFrameSize
        invariant ControlLen(frames') <= maxLen && k' == |asked'|
        invariant Handed(get, path, asked', frames', before, streamsWithControlFrames)
        invariant forall x :: x in asked ==> x in asked'
        invariant forall x :: x in asked' ==> x in asked || x == id
        decreases maxLen - ControlLen(frames')
      {
        var a := get(k', id);
        HandedOne(get, path, asked', frames', before, streamsWithControlFrames, id);
        k', asked' := k' + 1, asked' + [id];
        if !a.hasMore {
          streamsWithControlFrames := streamsWithControlFrames - {id};
        }
        if a.frame.None? {
          return;
        }
        ControlLenAppend(frames', a.frame.value);
        frames' := frames' + [a.frame.value];
        if !a.hasMore {
          return;
        }
      }
    }

    /**
     The loop over streamsWithControlFrames, in any order: everything the streams hand out goes into the
     packet, and all of them are asked unless the space runs out.
     */
    method AppendAllStreamControl(path: seq<Control>, maxLen: int, get: GetControl)
      returns (frames: seq<Control>, ghost asked: seq<int>)
      requires ControlFits(get) && ControlLen(path) <= maxLen
      modifies this`streamsWithControlFrames
      ensures ControlLen(frames) <= maxLen
      ensures Handed(get, path, asked, frames, old(streamsWithControlFrames), streamsWithControlFrames)
      ensures forall x :: x in asked ==> x in old(streamsWithControlFrames)
      ensures || maxLen - ControlLen(frames) <= MaxStreamControlFrameSize
              || forall x :: x in old(streamsWithControlFrames) ==> x in asked
    {
      frames, asked := path, [];
      var k, todo := 0, streamsWithControlFrames;
      ghost var before := streamsWithControlFrames;
      HandedNone(get, path, before);
      hide Handed, ControlFits, ControlLen;
      while todo != {}
        invariant ControlLen(frames) <= maxLen && k == |asked| && todo <= before
        invariant Handed(get, path, asked, frames, before, streamsWithControlFrames)
        invariant forall x :: x in asked ==> x in before
        invariant forall x :: x in before && x !in todo ==> x in asked
        decreases |todo|
      {
        var id := Pick(todo);
        todo := todo - {id};
        frames, asked, k := AppendStreamControl(frames, id, k, maxLen, get, path, asked, before);
        if maxLen - ControlLen(frames) <= MaxStreamControlFrameSize {
          break;
        }
      }
    }

    /**
     appendControlFrames: at most one PATH_RESPONSE, then what the streams have, then the queued
     frames from the end of the queue. No queued frame gets lost, and the rest stays queued because
     the next one does not fit.
     */
    method AppendControlFrames(maxLen: int, get: GetControl)
      returns (frames: seq<Control>, ghost path: seq<Control>, ghost asked: seq<int>, ghost taken: seq<Control>)
      requires maxLen >= 0 && ControlFits(get)
      modifies this`pathResponses, this`streamsWithControlFrames, this`controlFrames
      ensures ControlLen(frames) <= maxLen && frames == path + Got(get, asked) + Reversed(taken)
      ensures path == FirstPath(old(pathResponses), maxLen) && path + pathResponses == old(pathResponses)
      ensures controlFrames + taken == old(controlFrames)
      ensures streamsWithControlFrames == old(streamsWithControlFrames) - Silent(get, asked)
      ensures || maxLen - ControlLen(path + Got(get, asked)) <= MaxStreamControlFrameSize
              || forall x :: x in old(streamsWithControlFrames) ==> x in asked
      ensures controlFrames != [] ==> ControlLen(frames) + controlFrames[|controlFrames| - 1].len > maxLen
    {
      hide Got, Silent;
      var start := AppendPathResponse(maxLen);
      path := start;
      frames, asked := AppendAllStreamControl(start, maxLen, get);
      frames, taken := AppendQueued(frames, maxLen);
    }

    /** The first PATH_RESPONSE goes first; the loop over controlFrames takes frames off its end. */
    method AppendQueued(start: seq<Control>, maxLen: int) returns (frames: seq<Control>, ghost taken: seq<Control>)
      requires ControlLen(start) <= maxLen
      modifies this`controlFrames
      ensures ControlLen(frames) <= maxLen && frames == start + Reversed(taken)
      ensures controlFrames + taken == old(controlFrames)
      ensures controlFrames != [] ==> ControlLen(frames) + controlFrames[|controlFrames| - 1].len > maxLen
    {
      frames, taken := start, [];
      while |controlFrames| > 0
        invariant ControlLen(frames) <= maxLen && frames == start + Reversed(taken)
        invariant controlFrames + taken == old(controlFrames)
        decreases |controlFrames|
      {
        var frame := controlFrames[|controlFrames| - 1];
        if ControlLen(frames) + frame.len > maxLen {
          break;
        }
        ControlLenAppend(frames, frame);
        frames := frames + [frame];
        taken := [frame] + taken;
        controlFrames := controlFrames[..|controlFrames| - 1];
      }
    }

    /** A stream is popped, and what it has goes into the packet. */
    method PackNext(k: int, pop: PopStream, frames: seq<Control>, streamFrames: seq<Popped>, left: int)
      returns (frames': seq<Control>, streamFrames': seq<Popped>, left': int, full: bool)
      requires Valid() && Queue() != []
      modifies this`activeStreams, this`controlFrames, streamQueue, streamQueue.ring
      ensures Valid() && (streamQueue.ring == old(streamQueue.ring) || fresh(streamQueue.ring))
      ensures Pack(frames', streamFrames', left', full) == AskNext(old(Pack(frames, streamFrames, left, false)), k, pop)
    {
      hide Length, Varint.Len, Offered, RingBuffer.Valid, RingBuffer.Contents;
      var id, frame, blocked := GetNextStreamFrame(left, k, pop);
      frames', streamFrames', left', full := frames, streamFrames, left, false;
      if frame.Some? {
        streamFrames' := streamFrames + [Popped(id, frame.value)];
        left' := left - Length(id, frame.value);
      }
      if blocked.Some? {
        if left' < blocked.value.len {
          controlFrames := controlFrames + [blocked.value];
          full := true;
        } else {
          frames' := frames + [blocked.value];
          left' := left' - blocked.value.len;
        }
      }
    }

    /** The loop in Append that pops STREAM frames, each stream at most once. */
    method AppendStreamFrames(control: seq<Control>, maxLen: int, pop: PopStream)
      returns (frames: seq<Control>, streamFrames: seq<Popped>, left: int, full: bool)
      requires Valid()
      modifies this`activeStreams, this`controlFrames, streamQueue, streamQueue.ring
      ensures Valid() && (streamQueue.ring == old(streamQueue.ring) || fresh(streamQueue.ring))
      ensures Pack(frames, streamFrames, left, full) ==
              AskAll(old(Pack(control, [], maxLen, false)), 0, |old(Queue())|, pop)
    {
      hide AskNext, RingBuffer.Valid, RingBuffer.Contents;
      frames, streamFrames, left, full := control, [], maxLen, false;
      ghost var start := Pack(control, [], maxLen, false);
      var n := streamQueue.Len();
      var i := 0;
      while i < n && MinStreamFrameSize <= left && !full
        invariant Valid() && (streamQueue.ring == old(streamQueue.ring) || fresh(streamQueue.ring))
        invariant 0 <= i <= n && |Queue()| >= n - i
        invariant AskAll(Pack(frames, streamFrames, left, full), i, n, pop) == AskAll(start, 0, n, pop)
        decreases n - i
      {
        AskedFields(Pack(frames, streamFrames, left, full), i, pop);
        frames, streamFrames, left, full := PackNext(i, pop, frames, streamFrames, left);
        i := i + 1;
      }
    }

    /** A DATA_BLOCKED frame goes into the packet, or waits for the next one. */
    method AddDataBlocked(start: seq<Control>, left: int, dataBlocked: Option<Control>) returns (frames: seq<Control>)
      modifies this`controlFrames
      ensures ControlLen(frames) <= ControlLen(start) + Max(0, left)
      ensures start <= frames && (dataBlocked.None? || left < dataBlocked.value.len ==> frames == start)
      ensures multiset(frames) + multiset(controlFrames) ==
              multiset(start) + multiset(old(controlFrames))
              + if dataBlocked.Some? then multiset{dataBlocked.value} else multiset{}
    {
      frames := start;
      if dataBlocked.Some? {
        if left >= dataBlocked.value.len {
          ControlLenAppend(frames, dataBlocked.value);
          frames := frames + [dataBlocked.value];
        } else {
          controlFrames := controlFrames + [dataBlocked.value];
        }
      }
    }

    /**
     Append: the frames for a packet, which take no more than maxLen bytes. The streams asked are the
     first ones of the queue, in order, and the frames they hand out are in the packet; those with more
     data go to the end of the queue. Every control frame that was queued, or that a stream handed out,
     is in the packet or still queued.
     */
    method Append(maxLen: int, get: GetControl, pop: PopStream, dataBlocked: Option<Control>)
      returns (frames: seq<Control>, streamFrames: seq<Popped>, length: int, ghost log: Log)
      requires Valid() && maxLen >= 0 && ControlFits(get) && PopFits(pop, Offered(maxLen))
      modifies this, streamQueue, streamQueue.ring
      ensures Valid() && (streamQueue.ring == old(streamQueue.ring) || fresh(streamQueue.ring))
      ensures length == ControlLen(frames) + PacketLen(streamFrames) <= maxLen
      ensures ControlPacked(log.first, log.rest, Got(get, log.asked), maxLen,
                            old(controlFrames), old(pathResponses), pathResponses)
      ensures FirstPath(old(pathResponses), maxLen) + pathResponses == old(pathResponses)
      ensures streamsWithControlFrames == old(streamsWithControlFrames) - Silent(get, log.asked)
      ensures || maxLen - ControlLen(FirstPath(old(pathResponses), maxLen)
                                     + Got(get, log.asked)) <= MaxStreamControlFrameSize
              || forall x :: x in old(streamsWithControlFrames) ==> x in log.asked
      ensures StreamsPacked(log, pop, maxLen, old(Queue()), old(activeStreams), Queue(), activeStreams, streamFrames)
      ensures log.control <= frames && (dataBlocked.None? || log.left < dataBlocked.value.len ==> frames == log.control)
      ensures multiset(frames) + multiset(controlFrames) ==
              multiset(log.first) + multiset(log.rest) + multiset(BlockedIn(log.answers))
              + if dataBlocked.Some? then multiset{dataBlocked.value} else multiset{}
    {
      hide StreamsPacked, ControlPacked, Got, Silent, BlockedIn, RingBuffer.Valid, RingBuffer.Contents, PopFits,
           ControlFits;
      var first, path, asked, taken := AppendControlFrames(maxLen, get);
      log := Log(first, controlFrames, asked, [], [], 0);
      ControlKept(first, controlFrames, Got(get, asked), maxLen, path, taken, pathResponses, old(controlFrames),
                  old(pathResponses));
      hide Reversed;
      var control, left;
      control, streamFrames, left, log := FillStreams(first, maxLen, pop, log);
      PackedFacts(log, pop, maxLen, old(Queue()), old(activeStreams), Queue(), activeStreams, streamFrames);
      frames := AddDataBlocked(control, left, dataBlocked);
      length := ControlLen(frames) + PacketLen(streamFrames);
    }

    /** The STREAM frames, and what became of the streams and of the blocked frames. */
    method FillStreams(first: seq<Control>, maxLen: int, pop: PopStream, ghost log: Log)
      returns (control: seq<Control>, streamFrames: seq<Popped>, left: int, ghost log': Log)
      requires Valid() && ControlLen(first) <= maxLen && PopFits(pop, Offered(maxLen)) && log.first == first
               && log.rest == controlFrames
      modifies this`activeStreams, this`controlFrames, streamQueue, streamQueue.ring
      ensures Valid() && (streamQueue.ring == old(streamQueue.ring) || fresh(streamQueue.ring))
      ensures log' == log.(answers := log'.answers, control := control, left := left)
      ensures StreamsPacked(log', pop, maxLen, old(Queue()), old(activeStreams), Queue(), activeStreams, streamFrames)
      ensures multiset(control) + multiset(controlFrames) ==
              multiset(first) + multiset(log.rest) + multiset(BlockedIn(log'.answers))
    {
      hide AskAll, Answers, Packed, PopFits, RingBuffer.Valid, RingBuffer.Contents;
      ghost var s, n := Pack(first, [], maxLen - ControlLen(first), false), |Queue()|;
      StartPacked(maxLen, first);
      ghost var answers := Answers(s, 0, n, pop);
      RoundRobin(s, 0, n, pop);
      NothingDropped(s, 0, n, pop);
      WhyStopped(s, 0, n, pop);
      PacketFits(maxLen, s, 0, n, pop);
      FramesGrow(s, 0, n, pop);
      var full;
      control, streamFrames, left, full := AppendStreamFrames(first, maxLen - ControlLen(first), pop);
      assert [] + FramesIn(answers) == FramesIn(answers);
      log' := log.(answers := answers, control := control, left := left);
    }
  }

  lemma StartPacked(maxLen: int, first: seq<Control>)
    requires ControlLen(first) <= maxLen
    ensures Packed(maxLen, first, [], maxLen - ControlLen(first))
  {
  }

  lemma PackedFacts(log: Log, pop: PopStream, maxLen: int, queue: seq<int>, active: set<int>,
                    queue': seq<int>, active': set<int>, streamFrames: seq<Popped>)
    requires StreamsPacked(log, pop, maxLen, queue, active, queue', active', streamFrames)
    ensures ControlLen(log.control) + Max(0, log.left) + PacketLen(streamFrames) <= maxLen
  {
    hide Answers, Served;
  }

  lemma ControlKept(first: seq<Control>, rest: seq<Control>, got: seq<Control>, maxLen: int, path: seq<Control>,
                    taken: seq<Control>, paths': seq<Control>, control: seq<Control>, paths: seq<Control>)
    requires first == path + got + Reversed(taken) && path + paths' == paths && rest + taken == control
    requires rest != [] ==> ControlLen(first) + rest[|rest| - 1].len > maxLen
    ensures ControlPacked(first, rest, got, maxLen, control, paths, paths')
  {
    ReversedBag(taken);
  }

  /** What happened in Append. */
  datatype Log = Log(
    first: seq<Control>,       // the control frames packed before the STREAM frames
    rest: seq<Control>,        // those left in the queue then
    asked: seq<int>,           // the streams asked for control frames
    answers: seq<Answer>,      // the streams asked for STREAM frames, and their answers
    control: seq<Control>,     // the control frames packed before DATA_BLOCKED
    left: int)                 // the space left before DATA_BLOCKED

  /** The streams that answered were the first ones of the queue, and what they answered was done. */
  ghost predicate Served(queue: seq<int>, active: set<int>, answers: seq<Answer>, queue': seq<int>, active': set<int>,
                         streamFrames: seq<Popped>) {
    && |answers| <= |queue| && (forall j :: 0 <= j < |answers| ==> answers[j].id == queue[j])
    && queue' == AfterPops(queue, Again(answers)) && active' == active - Finished(answers)
    && streamFrames == FramesIn(answers)
  }

  ghost predicate DidNotFit(answer: Answer, left: int) {
    answer.a.blocked.Some? && left < answer.a.blocked.value.len
  }

  /** No control frame got lost: it is packed or queued, and the next one in the queue does not fit. */
  ghost predicate ControlPacked(first: seq<Control>, rest: seq<Control>, got: seq<Control>, maxLen: int,
                                control: seq<Control>, paths: seq<Control>, paths': seq<Control>) {
    && multiset(first) + multiset(rest) + multiset(paths') == multiset(control) + multiset(paths) + multiset(got)
    && (rest != [] ==> ControlLen(first) + rest[|rest| - 1].len > maxLen)
  }

  /** The control frames are packed. */
  function Start(log: Log, maxLen: int, queue: seq<int>, active: set<int>): Packing {
    Packing(queue, active, log.rest, log.first, [], maxLen - ControlLen(log.first), false)
  }

  /**
   The streams were asked with the space that was left, and served; the others were not because
   little space is left, or a blocked frame did not fit.
   */
  ghost predicate StreamsPacked(log: Log, pop: PopStream, maxLen: int, queue: seq<int>, active: set<int>,
                                queue': seq<int>, active': set<int>, streamFrames: seq<Popped>) {
    && log.answers == Answers(Start(log, maxLen, queue, active), 0, |queue|, pop)
    && Served(queue, active, log.answers, queue', active', streamFrames)
    && (|| |log.answers| == |queue| || log.left < MinStreamFrameSize
        || (log.answers != [] && DidNotFit(log.answers[|log.answers| - 1], log.left)))
    && Packed(maxLen, log.control, streamFrames, log.left) && log.first <= log.control
  }
}
