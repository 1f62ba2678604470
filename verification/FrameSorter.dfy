/**
 The frame sorter: reassembles overlapping, duplicate and reordered byte ranges
 into a contiguous stream. The linked list of gaps is a sequence; a pointer into
 it is an index. A done callback is an identity; calling it adds it to `called`.
 */
module FrameSorter {
  import opened Common
  import opened SorterModel

  const MaxStreamFrameSorterGaps: int := 10000
  const MinStreamFrameBufferSize: int := 128

  datatype PushResult =
    | Accepted
    | Duplicate      // errDuplicateStreamData, never leaves Push
    | TooManyGaps    // "too many gaps in received data"
    | Panic          // "no gap found"

  /** A frame of n bytes at offset would split a gap, and there are as many gaps as allowed. */
  ghost predicate OverLimit(received: iset<int>, offset: int, n: int) {
    n > 0 && |GapStarts(received)| == MaxStreamFrameSorterGaps && Surrounded(received, offset, offset + n)
  }

  class FrameSorter {
    var queue: Queue
    var readPos: int
    var gaps: seq<Interval>
    /** Every callback the sorter has invoked, with multiplicity. */
    var called: multiset<Callback>

    // History of the run.
    ghost var received: iset<int>           // offsets of all bytes pushed
    ghost var delivered: seq<byte>          // bytes popped, in order
    ghost var given: multiset<Callback>     // callbacks passed to Push
    ghost var handed: multiset<Callback>    // callbacks returned by Pop

    /** Holds in every state reachable by Push and Pop. */
    ghost predicate Valid()
      reads this
    {
      && StateOk(queue, gaps, readPos)
      && |gaps| <= MaxStreamFrameSorterGaps
      && Missing(gaps, received)
      && |delivered| == readPos
      && Conserved(called, queue, handed, given)
    }

    /** Everything queued and delivered so far belongs to `stream`. */
    ghost predicate ConsistentWith(stream: int -> byte)
      reads this
    {
      && readPos >= 0
      && Agrees(queue, stream)
      && delivered == Prefix(stream, readPos)
    }

    constructor ()
      ensures Valid()
      ensures received == iset{} && delivered == [] && given == multiset{} && readPos == 0
      ensures forall stream :: ConsistentWith(stream)
    {
      queue := map[];
      readPos := 0;
      gaps := [Interval(0, MaxByteCount)];
      called := multiset{};
      received, delivered, given, handed := iset{}, [], multiset{}, multiset{};
      new;
      assert gaps[0] == Interval(0, MaxByteCount);
      assert Callbacks(queue) == map[];
    }

    /** What was delivered was received: no byte from `limit` on can have been delivered if none was received. */
    lemma DeliveredReceived(limit: int)
      requires Valid() && 0 <= limit && forall p :: p in received ==> p < limit
      ensures readPos <= limit && readPos < MaxByteCount
    {
      assert readPos > limit ==> !InGap(gaps, limit) && limit in received;
    }

    /** Everything delivered was received. */
    lemma ReceivedBelow(p: int)
      requires Valid() && 0 <= p < readPos
      ensures p in received
    {
      assert !InGap(gaps, p);
    }

    method FindStartGap(offset: int) returns (found: bool, i: int, inGap: bool)
      requires GapsOk(gaps)
      ensures found <==> offset <= MaxByteCount
      ensures found ==> 0 <= i < |gaps| && offset <= gaps[i].end
      ensures found ==> forall j :: 0 <= j < i ==> gaps[j].end < offset
      ensures found ==> inGap == (gaps[i].start <= offset)
    {
      i := 0;
      while i < |gaps|
        invariant 0 <= i <= |gaps|
        invariant forall j :: 0 <= j < i ==> gaps[j].end < offset
      {
        if gaps[i].start <= offset <= gaps[i].end {
          return true, i, true;
        }
        if offset < gaps[i].start {
          return true, i, false;
        }
        i := i + 1;
      }
      return false, 0, false;
    }

    /** The gap in which a frame ends, or the last gap before its end (which may be the one before s). */
    method FindEndGap(s: int, offset: int) returns (found: bool, e: int, inGap: bool)
      requires GapsOk(gaps) && 0 <= s < |gaps|
      ensures found <==> offset < MaxByteCount
      ensures found ==> s - 1 <= e < |gaps|
      ensures found && inGap ==> s <= e && gaps[e].start <= offset < gaps[e].end
      ensures found && !inGap ==> (s <= e ==> gaps[e].end <= offset) && e + 1 < |gaps| && offset < gaps[e + 1].start
    {
      e := s;
      while e < |gaps|
        invariant s <= e <= |gaps|
        invariant forall j :: s <= j < e ==> gaps[j].end <= offset
      {
        if gaps[e].start <= offset < gaps[e].end {
          return true, e, true;
        }
        if offset < gaps[e].start {
          return true, e - 1, false;
        }
        e := e + 1;
      }
      return false, 0, false;
    }

    /** Deletes the entry at pos, the next one in a chain, and calls its callback. */
    method DeleteEntry(pos: int, ghost q0: Queue, ghost start: int) returns (next: int)
      requires QueueOk(q0) && pos in queue && Chain(q0, start, pos) && Outside(q0, start, pos, queue)
      requires start == pos || start in q0
      modifies this`queue, this`called
      ensures next == pos + |old(queue)[pos].data| && start in q0 && pos < next
      ensures Chain(q0, start, next) && Outside(q0, start, next, queue)
      ensures |queue| < |old(queue)|
      ensures called + Held(queue) == old(called + Held(queue))
    {
      CallOnDelete(called, queue, pos);
      OutsideStep(q0, start, pos, queue);
      ChainStep(q0, start, pos);
      RemoveShrinks(queue, pos);
      hide Held, CbBag;
      next := pos + |queue[pos].data|;
      called := called + CbBag(queue[pos].doneCb);
      queue := queue - {pos};
    }

    /** Deletes adjacent entries from pos on, calling their callbacks. */
    method DeleteConsecutive(pos: int) returns (ghost stop: int)
      requires QueueOk(queue)
      modifies this`queue, this`called
      ensures Chain(old(queue), pos, stop) && stop !in old(queue)
      ensures Outside(old(queue), pos, stop, queue)
      ensures pos !in old(queue) ==> queue == old(queue)
      ensures called + Held(queue) == old(called + Held(queue))
    {
      ghost var q0, total := queue, called + Held(queue);
      var p := pos;
      while p in queue
        invariant Chain(q0, pos, p)
        invariant Outside(q0, pos, p, queue)
        invariant pos in q0 || (p == pos && queue == q0)
        invariant called + Held(queue) == total
        decreases |queue|
      {
        p := DeleteEntry(p, q0, pos);
      }
      stop := p;
    }

    /**
     Deletes the entries that a frame [start, end) supersedes, starting with the one at start.
     Reports a duplicate if that one covers the frame, and a cut if a later one reaches beyond it.
     */
    method ReplaceEntries(start: int, end: int) returns (duplicate: bool, replaced: bool, cut: bool, pos: int)
      requires QueueOk(queue) && start < end
      modifies this`queue, this`called
      ensures duplicate ==> queue == old(queue) && called == old(called)
      ensures duplicate ==> start in queue && end <= start + |queue[start].data|
      ensures !duplicate ==> Replaced(old(queue), start, end, replaced, cut, pos, queue)
      ensures called + Held(queue) == old(called + Held(queue))
    {
      ghost var q0, total := queue, called + Held(queue);
      pos, replaced := start, false;
      while pos in queue
        invariant Chain(q0, start, pos) && pos <= end
        invariant Outside(q0, start, pos, queue)
        invariant replaced <==> start < pos
        invariant replaced ==> start in q0
        invariant !replaced ==> queue == q0 && called == old(called)
        invariant called + Held(queue) == total
        decreases |queue|
      {
        var entry := queue[pos];
        if end - pos > |entry.data| || (replaced && end - pos == |entry.data|) {
          pos := DeleteEntry(pos, q0, start);
          replaced := true;
        } else {
          return !replaced, replaced, true, pos;
        }
      }
      return false, replaced, false, pos;
    }

    method DeleteAfterGap(pos: int, ghost q0: Queue, ghost g0: seq<Interval>, ghost i: int, ghost lo: int)
      requires StateOk(q0, g0, readPos) && 0 <= i < |g0| - 1
      requires pos == g0[i].end && lo <= pos
      requires Outside(q0, lo, pos, queue) || (lo == pos && Outside(q0, lo, g0[i + 1].start, queue))
      modifies this`queue, this`called
      ensures Outside(q0, lo, g0[i + 1].start, queue)
      ensures called + Held(queue) == old(called + Held(queue))
    {
      ghost var q1 := queue;
      ghost var hi := if Outside(q0, lo, pos, q1) then pos else g0[i + 1].start;
      OutsideQueueOk(q0, lo, hi, q1);
      ghost var stop := DeleteConsecutive(pos);
      if hi == pos {
        DeleteBetweenGaps(q0, g0, readPos, lo, i, q1, stop, queue);
      }
    }

    /** Removes gap n (which is g0[i]) and the entries after it. */
    method DropGap(n: int, ghost q0: Queue, ghost g0: seq<Interval>, ghost i: int, ghost lo: int,
                   ghost pre: seq<Interval>)
      requires StateOk(q0, g0, readPos) && 0 <= i < |g0| - 1
      requires n == |pre| && gaps == After(pre, g0, i)
      requires lo <= g0[i].end && Outside(q0, lo, g0[i].start, queue)
      modifies this`queue, this`called, this`gaps
      ensures gaps == After(pre, g0, i + 1)
      ensures Outside(q0, lo, g0[i + 1].start, queue)
      ensures called + Held(queue) == old(called + Held(queue))
    {
      DropAt(pre, g0, i, gaps);
      SkipGap(q0, g0, readPos, lo, i, g0[i].end, queue);
      DeleteAfterGap(gaps[n].end, q0, g0, i, lo);
      gaps := gaps[..n] + gaps[n + 1..];
    }

    /** Removes the gaps strictly between the start gap and the end gap, and all entries between those two. */
    method DropMiddle(n: int, startGapEnd: int, endGapStart: int, ghost q0: Queue, ghost g0: seq<Interval>,
                      ghost s: int, ghost e: int, ghost lo: int, ghost pre: seq<Interval>)
      requires StateOk(q0, g0, readPos) && 0 <= s < e < |g0|
      requires startGapEnd == g0[s].end && endGapStart == g0[e].start
      requires n == |pre| && gaps == After(pre, g0, s + 1)
      requires lo <= g0[s].end
      requires || Outside(q0, lo, g0[s].end, queue)
               || (lo == g0[s].end && Outside(q0, lo, g0[s + 1].start, queue))
      modifies this`queue, this`called, this`gaps
      ensures gaps == After(pre, g0, e)
      ensures Outside(q0, lo, g0[e].start, queue)
      ensures called + Held(queue) == old(called + Held(queue))
    {
      hide QueueOk, Tiles, Outside, Held, After;
      ghost var i, total := s + 1, called + Held(queue);
      DeleteAfterGap(startGapEnd, q0, g0, s, lo);
      DropAt(pre, g0, i, gaps);
      GapOrder(g0, i, e);
      while gaps[n].end < endGapStart
        invariant s < i <= e
        invariant gaps == After(pre, g0, i)
        invariant n < |gaps| && (gaps[n].end < endGapStart <==> i < e)
        invariant Outside(q0, lo, g0[i].start, queue)
        invariant called + Held(queue) == total
        decreases e - i
      {
        GapOrder(g0, s, i);
        DropGap(n, q0, g0, i, lo, pre);
        i := i + 1;
        DropAt(pre, g0, i, gaps);
        GapOrder(g0, i, e);
      }
    }

    /** Takes the frame's start out of gap s. */
    method CutStartGap(s: int, start: int, end: int, replaced: bool) returns (n: int, adjusted: bool)
      requires 0 <= s < |gaps|
      modifies this`gaps
      ensures gaps == CutStart(old(gaps), s, start, end, replaced)
      ensures n == if start <= old(gaps)[s].start && end >= old(gaps)[s].end then s else s + 1
      ensures adjusted <==> old(gaps)[s].start < start && !replaced
    {
      n, adjusted := s + 1, false; // n is the index of startGap.Next()
      if start <= gaps[s].start {
        if end >= gaps[s].end {
          gaps := gaps[..s] + gaps[s + 1..];
          n := s;
        } else {
          gaps := gaps[s := Interval(end, gaps[s].end)];
        }
      } else if !replaced {
        gaps := gaps[s := Interval(gaps[s].start, start)];
        adjusted := true;
      }
    }

    /** The frame starts and ends at gap s: splits the gap in two if it lies strictly inside. */
    method CutSameGap(s: int, end': int, startGapEnd: int, adjusted: bool,
                      ghost g0: seq<Interval>, ghost start: int, ghost end: int, ghost replaced: bool)
      requires 0 <= s < |g0| && gaps == CutStart(g0, s, start, end, replaced)
      requires startGapEnd == g0[s].end && (adjusted <==> g0[s].start < start && !replaced)
      requires end' == end || (end >= g0[s].end && end' == g0[s].end)
      requires adjusted ==> end' <= g0[s].end
      requires g0[s].start < start && replaced ==> start == g0[s].end <= end'
      modifies this`gaps
      ensures gaps == Carve(g0, s, s, start, end')
    {
      if end' != startGapEnd && adjusted {
        CarveSplit(g0, s, start, end', gaps);
        gaps := gaps[..s + 1] + [Interval(end', startGapEnd)] + gaps[s + 1..];
      } else {
        CarveOneGap(g0, s, start, end, end', replaced);
      }
    }

    /** The frame ends at a later gap, now at index n: removes or shrinks it. */
    method CutEndGap(n: int, end': int, endGapEnd: int, ghost g0: seq<Interval>, ghost s: int, ghost e: int,
                     ghost start: int)
      requires 0 <= s < e < |g0| && gaps == (g0[..s] + Left(g0[s], start)) + g0[e..]
      requires n == s + |Left(g0[s], start)| && endGapEnd == g0[e].end && end' <= endGapEnd
      modifies this`gaps
      ensures gaps == Carve(g0, s, e, start, end')
    {
      CarveManyGaps(g0, s, e, start, end', gaps);
      if end' == endGapEnd {
        gaps := gaps[..n] + gaps[n + 1..];
      } else {
        gaps := gaps[n := Interval(end', gaps[n].end)];
      }
    }

    /**
     Takes the frame [start, end) out of the gap list, cutting the frame to the end of gap e
     when it ends in received data.
     */
    method CarveGaps(s: int, e: int, start: int, end: int, replaced: bool, endsInGap: bool, ghost q0: Queue)
      returns (end': int)
      requires StateOk(q0, gaps, readPos)
      requires 0 <= s <= e < |gaps|
      requires start <= gaps[s].end && gaps[s].start < end && start < end
      requires if endsInGap then gaps[e].start <= end < gaps[e].end else gaps[e].end <= end
      requires gaps[s].start < start ==> (replaced <==> start == gaps[s].end)
      requires s < e ==> || Outside(q0, start, gaps[s].end, queue)
                         || (start == gaps[s].end && Outside(q0, start, gaps[s + 1].start, queue))
      modifies this`queue, this`called, this`gaps
      ensures end' == if endsInGap || start == old(gaps)[e].end then end else old(gaps)[e].end
      ensures gaps == Carve(old(gaps), s, e, start, end')
      ensures s < e ==> Outside(q0, start, old(gaps)[e].start, queue)
      ensures s == e ==> queue == old(queue)
      ensures called + Held(queue) == old(called + Held(queue))
    {
      ghost var g0, pre := gaps, gaps[..s] + Left(gaps[s], start);
      GapOrder(g0, s, e);
      var same := s == e;
      var startGapEnd, endGapStart, endGapEnd := gaps[s].end, gaps[e].start, gaps[e].end;
      var n, adjustedStartGapEnd := CutStartGap(s, start, end, replaced);

      if !same {
        CutStartMany(g0, s, start, end, replaced);
        DropMiddle(n, startGapEnd, endGapStart, q0, g0, s, e, start, pre);
      }

      end' := end;
      if !endsInGap && start != endGapEnd && end > endGapEnd {
        end' := endGapEnd;
      }
      if same {
        CutSameGap(s, end', startGapEnd, adjustedStartGapEnd, g0, start, end, replaced);
      } else {
        CutEndGap(n, end', endGapEnd, g0, s, e, start);
      }
    }

    /** Finds the gaps a non-empty frame [start, end) touches, or that it touches none. */
    method Locate(start: int, end: int) returns (r: PushResult, s: int, e: int, startsInGap: bool, endsInGap: bool)
      requires StateOk(queue, gaps, readPos) && 0 <= start < end
      ensures r == Panic <==> end >= MaxByteCount
      ensures r == Duplicate ==> forall p :: start <= p < end ==> !InGap(gaps, p)
      ensures r == Accepted ==> Located(gaps, start, end, s, e, startsInGap, endsInGap)
      ensures r != TooManyGaps
    {
      s, e, startsInGap, endsInGap := 0, 0, false, false;
      if end <= gaps[0].start {
        assert gaps[0].start < gaps[|gaps| - 1].end;
        forall p | start <= p < end ensures !InGap(gaps, p) {
          forall i | 0 <= i < |gaps| ensures !(gaps[i].start <= p < gaps[i].end) {
            GapAbove(gaps, i);
          }
        }
        return Duplicate, s, e, startsInGap, endsInGap;
      }
      var found: bool;
      found, s, startsInGap := FindStartGap(start);
      if !found {
        return Panic, 0, e, startsInGap, endsInGap;
      }
      found, e, endsInGap := FindEndGap(s, end);
      if !found {
        return Panic, s, e, startsInGap, endsInGap;
      }
      if (s == e && end <= gaps[s].start) || (s != e && gaps[s].end >= gaps[e].start && end <= gaps[s].start) {
        assert forall p :: start <= p < end ==> !InGap(gaps, p);
        return Duplicate, s, e, startsInGap, endsInGap;
      }
      return Accepted, s, e, startsInGap, endsInGap;
    }

    /** Queues the (possibly cut) frame unless there are too many gaps. A small cut frame is copied. */
    method Store(data: seq<byte>, start: int, doneCb: Option<Callback>, wasCut: bool) returns (accepted: bool)
      requires start !in queue
      modifies this`queue, this`called
      ensures accepted <==> |gaps| <= MaxStreamFrameSorterGaps
      ensures accepted ==> exists cb :: queue == old(queue)[start := Entry(data, cb)]
      ensures accepted ==> called + Held(queue) == old(called + Held(queue)) + CbBag(doneCb)
    {
      var cb := doneCb;
      if wasCut && |data| < MinStreamFrameBufferSize {
        called := called + CbBag(cb);
        cb := None;
      }
      if |gaps| > MaxStreamFrameSorterGaps {
        return false;
      }
      HeldInsert(queue, start, Entry(data, cb));
      queue := queue[start := Entry(data, cb)];
      return true;
    }

    /** Cuts the frame where ReplaceEntries stopped, or to the start of the gap it reaches into. */
    static method CutFront(data: seq<byte>, offset: int, gapStart: int, startsInGap: bool, replaced: bool, cut: bool,
                           pos: int)
      returns (frame: seq<byte>, start: int, end: int, wasCut: bool)
      requires cut ==> replaced && offset <= pos <= offset + |data|
      requires !startsInGap ==> offset <= gapStart <= offset + |data|
      ensures start == if !startsInGap && !replaced then gapStart else offset
      ensures end == if cut then pos else offset + |data|
      ensures offset <= start <= end <= offset + |data| && frame == data[start - offset..end - offset]
      ensures wasCut <==> cut || (!startsInGap && !replaced)
    {
      frame, start, end, wasCut := data, offset, offset + |data|, cut;
      if cut {
        frame, end := frame[..pos - start], pos;
      }
      if !startsInGap && !replaced {
        frame, start, wasCut := frame[gapStart - start..], gapStart, true;
      }
    }

    /** Cuts the frame to the end of the gap it reaches into. */
    static method CutBack(frame: seq<byte>, start: int, end: int, end': int, cut: bool, ghost data: seq<byte>,
                          ghost offset: int)
      returns (frame': seq<byte>, wasCut: bool)
      requires offset <= start <= end' <= end <= offset + |data| && frame == data[start - offset..end - offset]
      ensures frame' == data[start - offset..end' - offset]
      ensures wasCut <==> cut || end' < end
    {
      frame', wasCut := frame, cut;
      if end' < end {
        SliceSlice(data, start - offset, end - offset, 0, end' - start);
        frame', wasCut := frame[..end' - start], true;
      }
    }

    /** Cuts the frame to its queued part [lo, hi), and takes that out of gaps and queue. */
    method CutFrame(data: seq<byte>, offset: int, s: int, e: int, startsInGap: bool, endsInGap: bool,
                    replaced: bool, cut: bool, pos: int, ghost q0: Queue, ghost lo: int, ghost hi: int)
      returns (frame: seq<byte>, start: int, wasCut: bool)
      requires StateOk(q0, gaps, readPos)
      requires Located(gaps, offset, offset + |data|, s, e, startsInGap, endsInGap)
      requires Replaced(q0, offset, offset + |data|, replaced, cut, pos, queue)
      requires lo == Lo(gaps[s], offset, startsInGap, replaced)
      requires hi == Hi(gaps[e], lo, if cut then pos else offset + |data|, endsInGap)
      modifies this`queue, this`called, this`gaps
      ensures offset <= lo < hi <= offset + |data|
      ensures start == lo && frame == data[lo - offset..hi - offset]
      ensures gaps == Carve(old(gaps), s, e, lo, hi)
      ensures Outside(q0, lo, hi, queue)
      ensures called + Held(queue) == old(called + Held(queue))
    {
      hide QueueOk, Tiles, Outside, Held, Carve;
      ghost var g0 := gaps;
      LandLow(q0, g0, readPos, offset, offset + |data|, s, e, startsInGap, endsInGap, replaced, cut, pos, queue);
      LandHigh(q0, g0, readPos, offset, offset + |data|, s, e, startsInGap, endsInGap, replaced, cut, pos, queue, lo,
               hi);
      var end;
      frame, start, end, wasCut := CutFront(data, offset, gaps[s].start, startsInGap, replaced, cut, pos);
      var end' := CarveGaps(s, e, start, end, replaced, endsInGap, q0);
      assert start == lo && end' == hi;
      assert Outside(q0, lo, hi, queue) by {
        if s < e {
          SkipGap(q0, g0, readPos, lo, e, hi, queue);
        }
      }
      frame, wasCut := CutBack(frame, start, end, end', wasCut, data, offset);
    }

    /** Queues the new part of a frame that touches the gaps s..e, after ReplaceEntries. */
    method Insert(data: seq<byte>, offset: int, doneCb: Option<Callback>, s: int, e: int,
                  startsInGap: bool, endsInGap: bool, replaced: bool, cut: bool, pos: int, ghost q0: Queue)
      returns (accepted: bool)
      requires StateOk(q0, gaps, readPos)
      requires Located(gaps, offset, offset + |data|, s, e, startsInGap, endsInGap)
      requires Replaced(q0, offset, offset + |data|, replaced, cut, pos, queue)
      modifies this`queue, this`called, this`gaps
      ensures accepted <==> |gaps| <= MaxStreamFrameSorterGaps
      ensures |gaps| <= |old(gaps)| + 1
      ensures |gaps| == |old(gaps)| + 1 <==> Splits(old(gaps), offset, offset + |data|)
      ensures accepted ==> StateOk(queue, gaps, readPos)
      ensures accepted ==> forall p :: InGap(gaps, p) <==> InGap(old(gaps), p) && !(offset <= p < offset + |data|)
      ensures accepted ==> Provenance(q0, queue, data, offset)
      ensures accepted ==> called + Held(queue) == old(called + Held(queue)) + CbBag(doneCb)
    {
      ghost var g0, q1 := gaps, queue;
      ghost var lo := Lo(gaps[s], offset, startsInGap, replaced);
      ghost var hi := Hi(gaps[e], lo, if cut then pos else offset + |data|, endsInGap);
      var frame, start, wasCut := CutFrame(data, offset, s, e, startsInGap, endsInGap, replaced, cut, pos, q0, lo, hi);
      Landing(q0, g0, readPos, offset, offset + |data|, s, e, startsInGap, endsInGap, replaced, cut, pos, q1, lo, hi);
      ghost var q2 := queue;
      assert lo !in q2;
      accepted := Store(frame, start, doneCb, wasCut);
      if accepted {
        ghost var cb :| queue == q2[lo := Entry(frame, cb)];
        StoreOk(q0, g0, readPos, s, e, lo, hi, data, offset, Entry(frame, cb), q2);
      }
    }

    method TryPush(data: seq<byte>, offset: int, doneCb: Option<Callback>) returns (r: PushResult)
      requires StateOk(queue, gaps, readPos) && |gaps| <= MaxStreamFrameSorterGaps && offset >= 0
      modifies this`queue, this`called, this`gaps
      ensures r == Panic <==> |data| > 0 && offset + |data| >= MaxByteCount
      ensures r == TooManyGaps <==>
              && |data| > 0 && offset + |data| < MaxByteCount
              && |old(gaps)| == MaxStreamFrameSorterGaps && Splits(old(gaps), offset, offset + |data|)
      ensures r == Panic || r == Duplicate ==> queue == old(queue) && gaps == old(gaps) && called == old(called)
      ensures r == Duplicate ==> forall p :: offset <= p < offset + |data| ==> !InGap(gaps, p)
      ensures r == Accepted ==> StateOk(queue, gaps, readPos) && |gaps| <= MaxStreamFrameSorterGaps
      ensures r == Accepted ==> Absorbed(old(queue), old(gaps), old(called), queue, gaps, called, data, offset, doneCb)
    {
      if |data| == 0 {
        return Duplicate;
      }
      var start, end := offset, offset + |data|;
      if Splits(gaps, start, end) {
        SplitsStartsInGap(gaps, start, end);
      }
      var s, e, startsInGap, endsInGap;
      r, s, e, startsInGap, endsInGap := Locate(start, end);
      if r != Accepted {
        return;
      }
      ghost var q0 := queue;
      var duplicate, replaced, cut, pos := ReplaceEntries(start, end);
      if duplicate {
        InsideEntry(q0, gaps, readPos, start, end);
        return Duplicate;
      }
      var accepted := Insert(data, offset, doneCb, s, e, startsInGap, endsInGap, replaced, cut, pos, q0);
      r := if accepted then Accepted else TooManyGaps;
    }

    /** A duplicate is accepted after calling its callback. */
    method PushFrame(data: seq<byte>, offset: int, doneCb: Option<Callback>) returns (r: PushResult)
      requires StateOk(queue, gaps, readPos) && |gaps| <= MaxStreamFrameSorterGaps && offset >= 0
      modifies this`queue, this`called, this`gaps
      ensures r != Duplicate
      ensures r == Panic <==> |data| > 0 && offset + |data| >= MaxByteCount
      ensures r == TooManyGaps <==>
              && |data| > 0 && offset + |data| < MaxByteCount
              && |old(gaps)| == MaxStreamFrameSorterGaps && Splits(old(gaps), offset, offset + |data|)
      ensures r == Accepted ==> StateOk(queue, gaps, readPos) && |gaps| <= MaxStreamFrameSorterGaps
      ensures r == Accepted ==> Absorbed(old(queue), old(gaps), old(called), queue, gaps, called, data, offset, doneCb)
    {
      r := TryPush(data, offset, doneCb);
      if r == Duplicate {
        AbsorbDuplicate(queue, gaps, called, data, offset, doneCb);
        called := called + CbBag(doneCb);
        r := Accepted;
      }
    }

    /**
     Accepts any frame that ends below MaxByteCount and does not split a gap too many. An accepted
     frame adds exactly its range to what was received, whatever it overlaps.
     */
    method Push(data: seq<byte>, offset: int, doneCb: Option<Callback>) returns (r: PushResult)
      requires Valid() && offset >= 0
      modifies this
      ensures r != Duplicate
      ensures r == Panic <==> |data| > 0 && offset + |data| >= MaxByteCount
      ensures r == TooManyGaps <==> offset + |data| < MaxByteCount && OverLimit(old(received), offset, |data|)
      ensures r == Accepted ==> Valid()
      ensures r == Accepted ==> received == old(received) + Range(offset, offset + |data|)
      ensures r == Accepted ==> given == old(given) + CbBag(doneCb)
      ensures r == Accepted ==> Provenance(old(queue), queue, data, offset)
      ensures readPos == old(readPos) && delivered == old(delivered) && handed == old(handed)
    {
      GapCount(gaps, received);
      if 0 < |data| < MaxByteCount - offset {
        SplitsSurrounded(gaps, received, offset, offset + |data|);
      }
      hide GapStarts, Surrounded, Splits;
      r := PushFrame(data, offset, doneCb);
      if r == Accepted {
        AbsorbedHistory(old(queue), old(gaps), old(called), queue, gaps, called, data, offset, doneCb, received, handed,
                        given);
      }
      received := received + Range(offset, offset + |data|);
      given := given + CbBag(doneCb);
    }

    /** Hands out the entry at the read position; there is none exactly if that byte was never received. */
    method Pop() returns (offset: int, data: Option<seq<byte>>, doneCb: Option<Callback>)
      requires Valid()
      modifies this
      ensures Valid()
      ensures offset == old(readPos)
      ensures data.None? <==> old(readPos) !in old(received)
      ensures data.None? ==>
              doneCb == None && readPos == old(readPos) && delivered == old(delivered) && queue == old(queue)
      ensures data.Some? ==> |data.value| > 0 && readPos == old(readPos) + |data.value|
      ensures data.Some? ==> old(readPos) in old(queue) && data.value == old(queue)[old(readPos)].data
      ensures data.Some? ==> delivered == old(delivered) + data.value && queue == old(queue) - {old(readPos)}
      ensures handed == old(handed) + CbBag(doneCb) && called == old(called)
      ensures received == old(received) && given == old(given) && gaps == old(gaps)
      ensures forall stream :: old(ConsistentWith(stream)) ==> ConsistentWith(stream)
    {
      offset := readPos;
      NothingToPop(queue, gaps, readPos);
      if readPos !in queue {
        return offset, None, None;
      }
      var entry := queue[readPos];
      PopOk(queue, gaps, readPos);
      ConservedPop(called, queue, handed, given, readPos);
      queue := queue - {readPos};
      readPos := readPos + |entry.data|;
      delivered := delivered + entry.data;
      handed := handed + CbBag(entry.doneCb);
      // the panic "read position higher than a gap" is unreachable
      assert readPos < gaps[0].end;
      forall stream: int -> byte | old(ConsistentWith(stream)) ensures ConsistentWith(stream) {
        PrefixExtend(stream, offset, entry.data);
      }
      return offset, Some(entry.data), entry.doneCb;
    }

    /**
     Copies the bytes at [offset, offset + hi - lo) to p[lo..hi]. Succeeds exactly if an entry
     starts at offset and all these bytes are queued; changes nothing otherwise.
     */
    method Peek(offset: int, p: array<byte>, lo: int, hi: int) returns (ok: bool)
      requires QueueOk(queue) && 0 <= lo <= hi <= p.Length
      modifies p
      ensures ok <==> lo == hi || (offset in queue && forall x :: offset <= x < offset + hi - lo ==> InEntry(queue, x))
      ensures !ok ==> p[..] == old(p[..])
      ensures ok ==> forall x :: offset <= x < offset + hi - lo ==>
              InEntry(queue, x) && p[lo + x - offset] == ByteAt(queue, x)
      ensures p[..lo] == old(p[..lo]) && p[hi..] == old(p[hi..])
    {
      if lo == hi {
        return true;
      }
      ok := HasRange(offset, hi - lo);
      if !ok {
        return;
      }
      CopyRange(offset, p, lo, hi);
      hide InEntry, ByteAt;
      forall x | offset <= x < offset + hi - lo ensures InEntry(queue, x) && p[lo + x - offset] == ByteAt(queue, x) {
        assert p[lo + x - offset] == p[lo..hi][x - offset];
      }
    }

    /** The loop of Peek, once it is known that all bytes are queued */
    method CopyRange(offset: int, p: array<byte>, lo: int, hi: int)
      requires QueueOk(queue) && 0 <= lo < hi <= p.Length && offset in queue
      requires forall x :: offset <= x < offset + hi - lo ==> InEntry(queue, x)
      modifies p
      ensures Holds(queue, offset, p[lo..hi]) && p[..lo] == old(p[..lo]) && p[hi..] == old(p[hi..])
    {
      hide Holds, InEntry, ByteAt, Chain, QueueOk;
      ChainNone(queue, offset);
      HoldsNone(queue, offset);
      assert p[lo..lo] == [];
      var pos, at := offset, lo;
      while at < hi
        invariant lo <= at <= hi && Chain(queue, offset, pos) && (at < hi ==> pos == offset + at - lo)
        invariant Holds(queue, offset, p[lo..at])
        invariant p[..lo] == old(p[..lo]) && p[hi..] == old(p[hi..])
        decreases hi - at
      {
        NextEntry(queue, offset, pos);
        var n := CopyNext(pos, p, lo, at, hi, offset);
        pos, at := pos + |queue[pos].data|, at + n;
      }
    }

    /** Copies the entry at pos, or the beginning of it that is asked for. */
    method CopyNext(pos: int, p: array<byte>, ghost lo: int, at: int, hi: int, ghost offset: int) returns (n: int)
      requires QueueOk(queue) && pos in queue && 0 <= lo <= at <= hi <= p.Length && pos == offset + at - lo
      requires Holds(queue, offset, p[lo..at])
      modifies p
      ensures n == Min(hi - at, |queue[pos].data|) && Holds(queue, offset, p[lo..at + n])
      ensures p[..lo] == old(p[..lo]) && p[hi..] == old(p[hi..])
    {
      hide Holds, QueueOk;
      n := Min(hi - at, |queue[pos].data|);
      HoldsStep(queue, offset, p[lo..at], n);
      CopyEntry(pos, n, p, lo, at, hi);
    }

    /** copy(p[at:], entry.Data) */
    method CopyEntry(pos: int, n: int, p: array<byte>, ghost lo: int, at: int, ghost hi: int)
      requires pos in queue && 0 <= n <= |queue[pos].data|
      requires 0 <= lo <= at && at + n <= hi <= p.Length
      modifies p
      ensures p[lo..at + n] == old(p[lo..at]) + queue[pos].data[..n]
      ensures p[..lo] == old(p[..lo]) && p[hi..] == old(p[hi..])
    {
      var data := queue[pos].data;
      for i := at to at + n
        invariant forall j :: at <= j < i ==> p[j] == data[j - at]
        invariant forall j :: 0 <= j < at || i <= j < p.Length ==> p[j] == old(p[j])
      {
        p[i] := data[i - at];
      }
    }

    /** Whether n > 0 consecutive bytes are queued from the start of the entry at offset on. */
    method HasRange(offset: int, n: int) returns (ok: bool)
      requires QueueOk(queue) && n > 0
      ensures ok <==> offset in queue && forall x :: offset <= x < offset + n ==> InEntry(queue, x)
    {
      var pos, remaining := offset, n;
      while remaining > 0
        invariant Chain(queue, offset, pos) && remaining == n - (pos - offset) && remaining > 0
        invariant pos == offset || offset in queue
        decreases remaining
      {
        if pos !in queue {
          if offset in queue {
            EntryEdges(queue, offset);
            ChainEndIsBoundary(queue, offset, pos);
            assert !InEntry(queue, pos);
          }
          return false;
        }
        ChainStep(queue, offset, pos);
        var entryLen := |queue[pos].data|;
        if remaining <= entryLen {
          break;
        }
        remaining := remaining - entryLen;
        pos := pos + entryLen;
      }
      return true;
    }

    method HasMoreData() returns (more: bool)
      requires Valid()
      ensures more <==> exists p :: readPos <= p < MaxByteCount && p in received
    {
      more := |queue| > 0;
      if more {
        var k := AnyKey(queue);
        assert InEntry(queue, k);
        assert k in received;
      } else {
        assert queue.Keys == {};
        forall p | readPos <= p < MaxByteCount ensures p !in received {
          assert !InEntry(queue, p);
        }
      }
    }
  }
}
