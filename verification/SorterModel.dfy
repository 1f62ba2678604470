/**
 The value-level theory of the frame sorter: what a gap list and a queue of
 entries mean, and which edits of the two keep them in step.
 */
module SorterModel {
  import opened Common

  /** The identity of a done callback. */
  type Callback = int

  /** A half-open interval of stream offsets. */
  datatype Interval = Interval(start: int, end: int)

  datatype Entry = Entry(data: seq<byte>, doneCb: Option<Callback>)

  type Queue = map<int, Entry>

  // ---------------------------------------------------------------- gaps

  ghost predicate InGap(gaps: seq<Interval>, p: int) {
    exists i :: 0 <= i < |gaps| && gaps[i].start <= p < gaps[i].end
  }

  /** Non-empty, sorted and pairwise separated; the last gap ends at MaxByteCount. */
  ghost predicate GapsOk(gaps: seq<Interval>) {
    && |gaps| > 0
    && gaps[|gaps| - 1].end == MaxByteCount
    && Separated(gaps)
  }

  ghost predicate Separated(gaps: seq<Interval>) {
    && (forall i :: 0 <= i < |gaps| ==> gaps[i].start < gaps[i].end)
    && (forall i, j :: 0 <= i < j < |gaps| ==> gaps[i].end < gaps[j].start)
  }

  lemma SeparatedSlice(g: seq<Interval>, lo: int, hi: int)
    requires Separated(g) && 0 <= lo <= hi <= |g|
    ensures Separated(g[lo..hi])
  {
  }

  lemma SeparatedConcat(a: seq<Interval>, b: seq<Interval>)
    requires Separated(a) && Separated(b)
    requires forall i, j :: 0 <= i < |a| && 0 <= j < |b| ==> a[i].end < b[j].start
    ensures Separated(a + b)
  {
  }

  /** What is left of a gap below start, and above end. */
  function Left(g: Interval, start: int): seq<Interval> {
    if g.start < start then [Interval(g.start, start)] else []
  }

  function Right(g: Interval, end: int): seq<Interval> {
    if end < g.end then [Interval(end, g.end)] else []
  }

  /** What is left of the gaps gs..ge when [start, end) is received. */
  function Remainder(gs: Interval, ge: Interval, start: int, end: int): seq<Interval> {
    Left(gs, start) + Right(ge, end)
  }

  function Carve(gaps: seq<Interval>, s: int, e: int, start: int, end: int): seq<Interval>
    requires 0 <= s <= e < |gaps|
  {
    gaps[..s] + Remainder(gaps[s], gaps[e], start, end) + gaps[e + 1..]
  }

  /** Gap s is the first one not entirely below start, gap e the last one not entirely above end. */
  ghost predicate Brackets(gaps: seq<Interval>, s: int, e: int, start: int, end: int) {
    && 0 <= s <= e < |gaps|
    && start < end < MaxByteCount
    && (forall i :: 0 <= i < s ==> gaps[i].end < start)
    && start <= gaps[s].end
    && gaps[s].start < end
    && gaps[e].start <= end
    && (forall i :: e < i < |gaps| ==> end < gaps[i].start)
  }

  /** The gaps from i on, after those in pre. */
  ghost function After(pre: seq<Interval>, g: seq<Interval>, i: int): seq<Interval>
    requires 0 <= i <= |g|
  {
    pre + g[i..]
  }

  /** Dropping the element after `pre` from pre + g[i..]. */
  lemma DropAt(pre: seq<Interval>, g: seq<Interval>, i: int, r: seq<Interval>)
    requires 0 <= i < |g| && r == After(pre, g, i)
    ensures |pre| < |r| && r[|pre|] == g[i]
    ensures r[..|pre|] + r[|pre| + 1..] == After(pre, g, i + 1)
  {
  }

  /** The gap list after the frame's start has been taken out of gap s. */
  function CutStart(g: seq<Interval>, s: int, start: int, end: int, replaced: bool): seq<Interval>
    requires 0 <= s < |g|
  {
    if start <= g[s].start then
      if end >= g[s].end then g[..s] + g[s + 1..] else g[s := Interval(end, g[s].end)]
    else if replaced then
      g
    else
      g[s := Interval(g[s].start, start)]
  }

  lemma CarveSplit(g: seq<Interval>, s: int, start: int, end: int, g1: seq<Interval>)
    requires 0 <= s < |g| && g[s].start < start && end < g[s].end
    requires g1 == g[s := Interval(g[s].start, start)]
    ensures Carve(g, s, s, start, end) == g1[..s + 1] + [Interval(end, g[s].end)] + g1[s + 1..]
  {
  }

  /** Carving within one gap needs no more than cutting its start, unless the gap is split in two. */
  lemma CarveOneGap(g: seq<Interval>, s: int, start: int, end: int, end': int, replaced: bool)
    requires 0 <= s < |g|
    requires end' == end || (end >= g[s].end && end' == g[s].end)
    requires g[s].start < start ==> end' >= g[s].end && (replaced ==> start == g[s].end)
    ensures Carve(g, s, s, start, end') == CutStart(g, s, start, end, replaced)
  {
    var r, c := Carve(g, s, s, start, end'), CutStart(g, s, start, end, replaced);
    assert |r| == |c|;
    assert forall i :: 0 <= i < |r| ==> r[i] == c[i];
  }

  lemma CutStartMany(g: seq<Interval>, s: int, start: int, end: int, replaced: bool)
    requires 0 <= s < |g| && g[s].end <= end
    requires g[s].start < start && replaced ==> start == g[s].end
    ensures CutStart(g, s, start, end, replaced) == (g[..s] + Left(g[s], start)) + g[s + 1..]
  {
    var c, r := CutStart(g, s, start, end, replaced), (g[..s] + Left(g[s], start)) + g[s + 1..];
    assert |r| == |c|;
    assert forall i :: 0 <= i < |r| ==> r[i] == c[i];
  }

  /** Carving across gaps: after the gaps between s and e are gone, gap e is removed or shrunk. */
  lemma CarveManyGaps(g: seq<Interval>, s: int, e: int, start: int, end: int, r: seq<Interval>)
    requires 0 <= s < e < |g|
    requires r == (g[..s] + Left(g[s], start)) + g[e..]
    ensures var n := s + |Left(g[s], start)|;
            && n < |r| && r[n] == g[e]
            && (end >= g[e].end ==> Carve(g, s, e, start, end) == r[..n] + r[n + 1..])
            && (end < g[e].end ==> Carve(g, s, e, start, end) == r[n := Interval(end, g[e].end)])
  {
    var pre := g[..s] + Left(g[s], start);
    DropAt(pre, g, e, r);
  }

  lemma InGapConcat(a: seq<Interval>, b: seq<Interval>, p: int)
    ensures InGap(a + b, p) <==> InGap(a, p) || InGap(b, p)
  {
    if i :| 0 <= i < |a| && a[i].start <= p < a[i].end {
      assert (a + b)[i] == a[i];
    }
    if i :| 0 <= i < |b| && b[i].start <= p < b[i].end {
      assert (a + b)[|a| + i] == b[i];
    }
  }

  lemma RemainderOk(gaps: seq<Interval>, s: int, e: int, start: int, end: int)
    requires GapsOk(gaps)
    requires Brackets(gaps, s, e, start, end)
    ensures var mid := Remainder(gaps[s], gaps[e], start, end);
            && Separated(mid)
            && (forall i :: 0 <= i < |mid| ==> mid[i].start == gaps[s].start || mid[i].start == end)
            && (forall i :: 0 <= i < |mid| ==> mid[i].end == start || mid[i].end == gaps[e].end)
            && (e == |gaps| - 1 ==> |mid| > 0 && mid[|mid| - 1].end == MaxByteCount)
  {
  }

  lemma CarveLower(gaps: seq<Interval>, s: int, e: int, start: int, end: int)
    requires GapsOk(gaps)
    requires Brackets(gaps, s, e, start, end)
    ensures var lower := gaps[..s] + Remainder(gaps[s], gaps[e], start, end);
            && Separated(lower)
            && (forall i :: 0 <= i < |lower| ==> lower[i].end <= Max(end, gaps[e].end))
  {
    var a, mid := gaps[..s], Remainder(gaps[s], gaps[e], start, end);
    RemainderOk(gaps, s, e, start, end);
    SeparatedSlice(gaps, 0, s);
    forall i, j | 0 <= i < |a| && 0 <= j < |mid| ensures a[i].end < mid[j].start {
      assert a[i] == gaps[i];
    }
    SeparatedConcat(a, mid);
  }

  /** The gaps behind the ones carved are above everything left of those. */
  lemma CarveUpper(gaps: seq<Interval>, s: int, e: int, start: int, end: int, lower: seq<Interval>, b: seq<Interval>)
    requires GapsOk(gaps) && Brackets(gaps, s, e, start, end) && b == gaps[e + 1..]
    requires forall i :: 0 <= i < |lower| ==> lower[i].end <= Max(end, gaps[e].end)
    ensures Separated(b)
    ensures forall i, j :: 0 <= i < |lower| && 0 <= j < |b| ==> lower[i].end < b[j].start
  {
    SeparatedSlice(gaps, e + 1, |gaps|);
    forall i, j | 0 <= i < |lower| && 0 <= j < |b| ensures lower[i].end < b[j].start {
      assert b[j] == gaps[e + 1 + j];
    }
  }

  lemma LastOfConcat(a: seq<Interval>, b: seq<Interval>, c: seq<Interval>)
    requires c != [] || b != []
    ensures a + b + c != [] && (a + b + c)[|a + b + c| - 1] == if c != [] then c[|c| - 1] else b[|b| - 1]
  {
  }

  lemma CarveOk(gaps: seq<Interval>, s: int, e: int, start: int, end: int)
    requires GapsOk(gaps)
    requires Brackets(gaps, s, e, start, end)
    ensures GapsOk(Carve(gaps, s, e, start, end))
  {
    var mid := Remainder(gaps[s], gaps[e], start, end);
    var lower, b := gaps[..s] + mid, gaps[e + 1..];
    CarveLower(gaps, s, e, start, end);
    RemainderOk(gaps, s, e, start, end);
    CarveUpper(gaps, s, e, start, end, lower, b);
    assert b != [] ==> b[|b| - 1] == gaps[|gaps| - 1];
    SeparatedConcat(lower, b);
    LastOfConcat(gaps[..s], mid, b);
  }

  lemma InRemainder(gs: Interval, ge: Interval, start: int, end: int, p: int)
    ensures InGap(Remainder(gs, ge, start, end), p) <==> gs.start <= p < start || end <= p < ge.end
  {
    var left, right := Left(gs, start), Right(ge, end);
    InGapConcat(left, right, p);
    if gs.start <= p < start {
      assert left[0].start <= p < left[0].end;
    }
    if end <= p < ge.end {
      assert right[0].start <= p < right[0].end;
    }
  }

  /** Within the bracketed gaps, the remainder is exactly what lies outside [start, end). */
  lemma RemainderIsDifference(gaps: seq<Interval>, s: int, e: int, start: int, end: int, p: int)
    requires GapsOk(gaps)
    requires Brackets(gaps, s, e, start, end)
    ensures InGap(Remainder(gaps[s], gaps[e], start, end), p) <==> InGap(gaps[s..e + 1], p) && !(start <= p < end)
  {
    hide Remainder;
    InRemainder(gaps[s], gaps[e], start, end, p);
    var some := gaps[s..e + 1];
    if gaps[s].start <= p < start {
      assert some[0].start <= p < some[0].end;
    }
    if end <= p < gaps[e].end {
      assert some[e - s].start <= p < some[e - s].end;
    }
    if i :| 0 <= i < |some| && some[i].start <= p < some[i].end && !(start <= p < end) {
      assert some[i] == gaps[s + i];
      GapOrder(gaps, s, s + i);
      GapOrder(gaps, s + i, e);
    }
  }

  /** Carving is set difference. */
  lemma CarveIsDifference(gaps: seq<Interval>, s: int, e: int, start: int, end: int, p: int)
    requires GapsOk(gaps)
    requires Brackets(gaps, s, e, start, end)
    ensures InGap(Carve(gaps, s, e, start, end), p) <==> InGap(gaps, p) && !(start <= p < end)
  {
    var mid := Remainder(gaps[s], gaps[e], start, end);
    var a, m, b := gaps[..s], gaps[s..e + 1], gaps[e + 1..];
    InGapConcat(a + mid, b, p);
    InGapConcat(a, mid, p);
    RemainderIsDifference(gaps, s, e, start, end, p);
    assert gaps == (a + m) + b;
    InGapConcat(a + m, b, p);
    InGapConcat(a, m, p);
  }

  // --------------------------------------------------------------- queue

  ghost predicate InEntry(q: Queue, p: int) {
    exists k :: k in q && k <= p < k + |q[k].data|
  }

  /** Entries are non-empty and do not overlap. */
  ghost predicate QueueOk(q: Queue) {
    && (forall k :: k in q ==> |q[k].data| > 0)
    && (forall k, m :: k in q && m in q && k < m ==> k + |q[k].data| <= m)
  }

  /** The queue covers exactly [readPos, MaxByteCount) minus the gaps. */
  ghost predicate Tiles(q: Queue, gaps: seq<Interval>, readPos: int) {
    && (forall k :: k in q ==> readPos <= k && k + |q[k].data| <= MaxByteCount)
    && (forall p :: readPos <= p < MaxByteCount ==> (InGap(gaps, p) <==> !InEntry(q, p)))
  }

  ghost predicate StateOk(q: Queue, gaps: seq<Interval>, readPos: int) {
    && GapsOk(gaps)
    && 0 <= readPos <= gaps[0].start
    && QueueOk(q)
    && Tiles(q, gaps, readPos)
  }

  /** No entry has p strictly inside. */
  ghost predicate Boundary(q: Queue, p: int) {
    forall k :: k in q ==> !(k < p < k + |q[k].data|)
  }

  /** q' is q without the entries that start in [lo, hi). */
  ghost predicate Outside(q: Queue, lo: int, hi: int, q': Queue) {
    && (forall k :: k in q' <==> k in q && !(lo <= k < hi))
    && (forall k :: k in q' ==> q'[k] == q[k])
  }

  lemma EntryEdges(q: Queue, k: int)
    requires QueueOk(q) && k in q
    ensures Boundary(q, k) && Boundary(q, k + |q[k].data|)
  {
  }

  lemma GapIsBoundary(q: Queue, gaps: seq<Interval>, readPos: int, i: int, p: int)
    requires StateOk(q, gaps, readPos)
    requires 0 <= i < |gaps| && gaps[i].start <= p <= gaps[i].end
    requires p < MaxByteCount
    ensures Boundary(q, p)
    ensures p < gaps[i].end ==> p !in q
  {
    GapAbove(gaps, i);
    var x := if p < gaps[i].end then p else p - 1;
    assert InGap(gaps, x);
    assert !InEntry(q, x);
  }

  lemma GapOrder(gaps: seq<Interval>, i: int, j: int)
    requires GapsOk(gaps) && 0 <= i <= j < |gaps|
    ensures gaps[i].end < gaps[j].start <==> i < j
  {
  }

  lemma GapAbove(gaps: seq<Interval>, i: int)
    requires GapsOk(gaps) && 0 <= i < |gaps|
    ensures gaps[0].start <= gaps[i].start
  {
  }

  /** A received offset that no entry straddles is the start of an entry. */
  lemma KeyOrGap(q: Queue, gaps: seq<Interval>, readPos: int, p: int)
    requires StateOk(q, gaps, readPos)
    requires readPos <= p < MaxByteCount && Boundary(q, p) && !InGap(gaps, p)
    ensures p in q
  {
    var k :| k in q && k <= p < k + |q[k].data|;
  }

  /** The bytes right after a gap (other than the last) start an entry. */
  lemma GapEndIsKey(q: Queue, gaps: seq<Interval>, readPos: int, i: int)
    requires StateOk(q, gaps, readPos)
    requires 0 <= i < |gaps| - 1
    ensures gaps[i].end in q
  {
    var p := gaps[i].end;
    assert p < gaps[i + 1].start < gaps[|gaps| - 1].end;
    GapAbove(gaps, i);
    GapIsBoundary(q, gaps, readPos, i, p);
    assert !InGap(gaps, p);
    KeyOrGap(q, gaps, readPos, p);
  }

  /** A run of adjacent entries that starts inside a received range ends where the next gap starts. */
  lemma ChainReachesGap(q: Queue, gaps: seq<Interval>, readPos: int, i: int, from: int, stop: int)
    requires StateOk(q, gaps, readPos)
    requires 0 <= i < |gaps|
    requires readPos <= from <= gaps[i].start && (i > 0 ==> gaps[i - 1].end <= from)
    requires Boundary(q, from) && Chain(q, from, stop) && stop !in q
    ensures stop == gaps[i].start
  {
    ChainEndIsBoundary(q, from, stop);
    var g := gaps[i].start;
    assert InGap(gaps, g);
    assert !InEntry(q, g);
    if stop < g {
      assert forall j :: 0 <= j < i ==> gaps[j].end <= stop;
      assert !InGap(gaps, stop);
      KeyOrGap(q, gaps, readPos, stop);
    }
  }

  lemma SkipGap(q: Queue, gaps: seq<Interval>, readPos: int, lo: int, i: int, x: int, q': Queue)
    requires StateOk(q, gaps, readPos)
    requires 0 <= i < |gaps| && gaps[i].start <= x <= gaps[i].end
    requires Outside(q, lo, gaps[i].start, q')
    ensures Outside(q, lo, x, q')
  {
    forall k | gaps[i].start <= k < x ensures k !in q {
      GapIsBoundary(q, gaps, readPos, i, k);
    }
  }

  lemma OutsideStep(q: Queue, lo: int, k: int, q': Queue)
    requires QueueOk(q) && k in q && lo <= k
    requires Outside(q, lo, k, q')
    ensures k in q' && q'[k] == q[k]
    ensures Outside(q, lo, k + |q[k].data|, q' - {k})
  {
  }

  lemma OutsideOutside(q: Queue, lo: int, mid: int, hi: int, q': Queue, q'': Queue)
    requires lo <= mid <= hi
    requires Outside(q, lo, mid, q') && Outside(q', mid, hi, q'')
    ensures Outside(q, lo, hi, q'')
  {
  }

  /** Adjacent entries of q tile [from, to). */
  ghost predicate Chain(q: Queue, from: int, to: int) {
    && from <= to
    && (forall p :: from <= p < to ==> InEntry(q, p))
    && (to == from || exists k :: k in q && to == k + |q[k].data|)
  }

  lemma ChainNone(q: Queue, from: int)
    ensures Chain(q, from, from)
  {
  }

  lemma ChainStep(q: Queue, from: int, k: int)
    requires QueueOk(q) && Chain(q, from, k) && k in q
    ensures Chain(q, from, k + |q[k].data|)
  {
    forall p | from <= p < k + |q[k].data| ensures InEntry(q, p) {
    }
  }

  lemma ChainEndIsBoundary(q: Queue, from: int, to: int)
    requires QueueOk(q) && Chain(q, from, to) && Boundary(q, from)
    ensures Boundary(q, to)
  {
    if to != from {
      var k :| k in q && to == k + |q[k].data|;
      EntryEdges(q, k);
    }
  }

  lemma OutsideQueueOk(q: Queue, lo: int, hi: int, q': Queue)
    requires QueueOk(q) && Outside(q, lo, hi, q')
    ensures QueueOk(q')
  {
  }

  lemma ChainInLarger(q: Queue, lo: int, mid: int, q': Queue, from: int, to: int)
    requires Outside(q, lo, mid, q') && Chain(q', from, to)
    ensures Chain(q, from, to)
  {
    forall p | from <= p < to ensures InEntry(q, p) {
      assert InEntry(q', p);
      var k :| k in q' && k <= p < k + |q'[k].data|;
      assert k in q && q[k] == q'[k];
    }
    if to != from {
      var k :| k in q' && to == k + |q'[k].data|;
      assert k in q && q[k] == q'[k];
    }
  }

  /** Deleting the run of entries after gap i deletes everything up to gap i + 1. */
  lemma DeleteBetweenGaps(q: Queue, gaps: seq<Interval>, readPos: int, lo: int, i: int, q': Queue, stop: int,
                          q'': Queue)
    requires StateOk(q, gaps, readPos)
    requires 0 <= i < |gaps| - 1 && lo <= gaps[i].end
    requires Outside(q, lo, gaps[i].end, q')
    requires Chain(q', gaps[i].end, stop) && stop !in q' && Outside(q', gaps[i].end, stop, q'')
    ensures Outside(q, lo, gaps[i + 1].start, q'')
  {
    var from := gaps[i].end;
    GapAbove(gaps, i);
    assert gaps[i + 1].start < gaps[|gaps| - 1].end;
    GapIsBoundary(q, gaps, readPos, i, from);
    ChainInLarger(q, lo, from, q', from, stop);
    ChainReachesGap(q, gaps, readPos, i + 1, from, stop);
    OutsideOutside(q, lo, from, stop, q', q'');
  }

  /** q' is q with the entries that start in [lo, hi) replaced by one entry at lo. */
  ghost predicate Spliced(q: Queue, lo: int, hi: int, entry: Entry, q': Queue) {
    && (forall k :: k in q' <==> k == lo || (k in q && !(lo <= k < hi)))
    && (forall k :: k in q' ==> q'[k] == if k == lo then entry else q[k])
  }

  lemma SpliceOk(q: Queue, lo: int, hi: int, entry: Entry, q': Queue)
    requires QueueOk(q) && Boundary(q, lo)
    requires lo < hi && |entry.data| == hi - lo
    requires Spliced(q, lo, hi, entry, q')
    ensures QueueOk(q')
  {
  }

  lemma SpliceCovers(q: Queue, lo: int, hi: int, entry: Entry, q': Queue, p: int)
    requires QueueOk(q) && Boundary(q, lo) && Boundary(q, hi)
    requires lo < hi && |entry.data| == hi - lo
    requires Spliced(q, lo, hi, entry, q')
    ensures InEntry(q', p) <==> lo <= p < hi || InEntry(q, p)
  {
    if lo <= p < hi {
      assert lo in q' && lo <= p < lo + |q'[lo].data|;
    } else if k :| k in q && k <= p < k + |q[k].data| {
      assert k in q' && q'[k] == q[k];
    }
  }

  /** Replacing [lo, hi) in the queue and carving it out of the gaps keeps the two in step. */
  lemma InsertOk(q: Queue, gaps: seq<Interval>, readPos: int, s: int, e: int, lo: int, hi: int, entry: Entry, q': Queue)
    requires StateOk(q, gaps, readPos)
    requires Brackets(gaps, s, e, lo, hi)
    requires readPos <= lo && Boundary(q, lo) && Boundary(q, hi)
    requires |entry.data| == hi - lo
    requires Spliced(q, lo, hi, entry, q')
    ensures StateOk(q', Carve(gaps, s, e, lo, hi), readPos)
  {
    var gaps' := Carve(gaps, s, e, lo, hi);
    CarveOk(gaps, s, e, lo, hi);
    SpliceOk(q, lo, hi, entry, q');
    assert readPos <= gaps'[0].start by {
      var p := gaps'[0].start;
      assert InGap(gaps', p);
      CarveIsDifference(gaps, s, e, lo, hi, p);
      var i :| 0 <= i < |gaps| && gaps[i].start <= p < gaps[i].end;
      GapAbove(gaps, i);
    }
    forall p | readPos <= p < MaxByteCount ensures InGap(gaps', p) <==> !InEntry(q', p) {
      CarveIsDifference(gaps, s, e, lo, hi, p);
      SpliceCovers(q, lo, hi, entry, q', p);
    }
  }

  // ------------------------------------------------- where a frame lands

  /** What findStartGap and findEndGap establish about a frame that is not a duplicate. */
  ghost predicate Located(gaps: seq<Interval>, start: int, end: int, s: int, e: int, startsInGap: bool,
                          endsInGap: bool) {
    && 0 <= s <= e < |gaps|
    && 0 <= start < end < MaxByteCount
    && (forall i :: 0 <= i < s ==> gaps[i].end < start)
    && start <= gaps[s].end && gaps[s].start < end
    && (startsInGap <==> gaps[s].start <= start)
    && (if endsInGap then gaps[e].start <= end < gaps[e].end else gaps[e].end <= end)
    && (forall i :: e < i < |gaps| ==> end < gaps[i].start)
  }

  /** What ReplaceEntries establishes about the queue q' it leaves. */
  ghost predicate Replaced(q: Queue, start: int, end: int, replaced: bool, cut: bool, pos: int, q': Queue) {
    && Chain(q, start, pos) && Outside(q, start, pos, q') && pos <= end
    && (replaced <==> start < pos) && (replaced ==> start in q)
    && (if cut then replaced && pos in q && end < pos + |q[pos].data| else pos !in q)
  }

  /** Where the queued part of the frame starts and ends. */
  function Lo(gs: Interval, start: int, startsInGap: bool, replaced: bool): int {
    if !startsInGap && !replaced then gs.start else start
  }

  function Hi(ge: Interval, lo: int, end: int, endsInGap: bool): int {
    if endsInGap || lo == ge.end then end else ge.end
  }

  /** A frame that contains an offset in a gap is not covered by adjacent entries. */
  lemma NotCovered(q: Queue, gaps: seq<Interval>, readPos: int, start: int, pos: int, end: int, i: int)
    requires StateOk(q, gaps, readPos) && readPos <= start
    requires Chain(q, start, pos) && pos in q && pos <= end < pos + |q[pos].data|
    requires 0 <= i < |gaps|
    ensures !(start <= gaps[i].start <= end)
  {
    var g := gaps[i].start;
    assert InGap(gaps, g);
    if start <= g <= end {
      assert InEntry(q, g);
    }
  }

  /** The frame starts before gap s, in received data. */
  lemma LandBeforeGap(q: Queue, gaps: seq<Interval>, readPos: int, start: int, end: int, s: int, e: int,
                      startsInGap: bool, endsInGap: bool, replaced: bool, cut: bool, pos: int, q': Queue)
    requires StateOk(q, gaps, readPos)
    requires Located(gaps, start, end, s, e, startsInGap, endsInGap) && !startsInGap
    requires Replaced(q, start, end, replaced, cut, pos, q')
    ensures !cut
    ensures var lo := Lo(gaps[s], start, startsInGap, replaced);
            readPos <= lo <= gaps[s].start && Boundary(q, lo) && Outside(q, lo, gaps[s].start, q')
  {
    if replaced {
      EntryEdges(q, start);
      if cut {
        NotCovered(q, gaps, readPos, start, pos, end, s);
      } else {
        ChainReachesGap(q, gaps, readPos, s, start, pos);
      }
    } else {
      GapIsBoundary(q, gaps, readPos, s, gaps[s].start);
    }
  }

  /** The frame starts inside gap s. */
  lemma LandInGap(q: Queue, gaps: seq<Interval>, readPos: int, start: int, end: int, s: int, e: int,
                  startsInGap: bool, endsInGap: bool, replaced: bool, cut: bool, pos: int, q': Queue, x: int)
    requires StateOk(q, gaps, readPos)
    requires Located(gaps, start, end, s, e, startsInGap, endsInGap) && startsInGap && start < gaps[s].end
    requires Replaced(q, start, end, replaced, cut, pos, q')
    requires start <= x <= gaps[s].end
    ensures !cut && !replaced && readPos <= start && Boundary(q, start) && Outside(q, start, x, q')
  {
    GapAbove(gaps, s);
    GapIsBoundary(q, gaps, readPos, s, start);
    forall k | start <= k < x ensures k !in q {
      GapIsBoundary(q, gaps, readPos, s, k);
    }
  }

  /** The frame starts right behind gap s. */
  lemma LandAfterGap(q: Queue, gaps: seq<Interval>, readPos: int, start: int, end: int, s: int, e: int,
                     startsInGap: bool, endsInGap: bool, replaced: bool, cut: bool, pos: int, q': Queue)
    requires StateOk(q, gaps, readPos)
    requires Located(gaps, start, end, s, e, startsInGap, endsInGap) && start == gaps[s].end
    requires Replaced(q, start, end, replaced, cut, pos, q')
    ensures replaced && readPos <= start && Boundary(q, start)
    ensures cut <==> s == e
    ensures s < e ==> pos == gaps[s + 1].start
  {
    assert s < |gaps| - 1;
    GapAbove(gaps, s);
    GapEndIsKey(q, gaps, readPos, s);
    EntryEdges(q, start);
    if s < e {
      GapOrder(gaps, s + 1, e);
      if cut {
        NotCovered(q, gaps, readPos, start, pos, end, s + 1);
      }
    }
    if !cut {
      ChainReachesGap(q, gaps, readPos, s + 1, start, pos);
    }
  }

  /** Where the queued part of the frame starts, and what is left of the queue at that point. */
  lemma LandLow(q: Queue, gaps: seq<Interval>, readPos: int, start: int, end: int, s: int, e: int,
                startsInGap: bool, endsInGap: bool, replaced: bool, cut: bool, pos: int, q': Queue)
    requires StateOk(q, gaps, readPos)
    requires Located(gaps, start, end, s, e, startsInGap, endsInGap)
    requires Replaced(q, start, end, replaced, cut, pos, q')
    ensures var lo := Lo(gaps[s], start, startsInGap, replaced);
            && readPos <= lo <= gaps[s].end && start <= lo && Boundary(q, lo)
            && (gaps[s].start < lo ==> (replaced <==> lo == gaps[s].end))
            && (cut <==> lo == gaps[s].end && s == e)
            && (s < e ==> || Outside(q, lo, gaps[s].end, q')
                          || (lo == gaps[s].end && Outside(q, lo, gaps[s + 1].start, q')))
  {
    GapOrder(gaps, s, e);
    if !startsInGap {
      LandBeforeGap(q, gaps, readPos, start, end, s, e, startsInGap, endsInGap, replaced, cut, pos, q');
      SkipGap(q, gaps, readPos, Lo(gaps[s], start, startsInGap, replaced), s, gaps[s].end, q');
    } else if start < gaps[s].end {
      LandInGap(q, gaps, readPos, start, end, s, e, startsInGap, endsInGap, replaced, cut, pos, q', gaps[s].end);
    } else {
      LandAfterGap(q, gaps, readPos, start, end, s, e, startsInGap, endsInGap, replaced, cut, pos, q');
    }
  }

  /** Where the queued part of the frame ends. */
  lemma LandHigh(q: Queue, gaps: seq<Interval>, readPos: int, start: int, end: int, s: int, e: int,
                 startsInGap: bool, endsInGap: bool, replaced: bool, cut: bool, pos: int, q': Queue, lo: int, hi: int)
    requires StateOk(q, gaps, readPos)
    requires Located(gaps, start, end, s, e, startsInGap, endsInGap)
    requires Replaced(q, start, end, replaced, cut, pos, q')
    requires lo == Lo(gaps[s], start, startsInGap, replaced)
    requires hi == Hi(gaps[e], lo, if cut then pos else end, endsInGap)
    ensures Boundary(q, hi) && hi <= end && Brackets(gaps, s, e, lo, hi)
    ensures s == e ==> Outside(q, lo, hi, q')
  {
    LandLow(q, gaps, readPos, start, end, s, e, startsInGap, endsInGap, replaced, cut, pos, q');
    GapOrder(gaps, s, e);
    if cut {
      ChainEndIsBoundary(q, start, pos);
    } else {
      GapIsBoundary(q, gaps, readPos, e, hi);
      if s == e && startsInGap {
        LandInGap(q, gaps, readPos, start, end, s, e, startsInGap, endsInGap, replaced, cut, pos, q', hi);
      } else if s == e {
        LandBeforeGap(q, gaps, readPos, start, end, s, e, startsInGap, endsInGap, replaced, cut, pos, q');
        SkipGap(q, gaps, readPos, lo, s, hi, q');
      }
    }
  }

  /** Only received bytes are cut off the frame. */
  lemma LandKeepsGaps(q: Queue, gaps: seq<Interval>, readPos: int, start: int, end: int, s: int, e: int,
                      startsInGap: bool, endsInGap: bool, replaced: bool, cut: bool, pos: int, q': Queue,
                      lo: int, hi: int)
    requires StateOk(q, gaps, readPos)
    requires Located(gaps, start, end, s, e, startsInGap, endsInGap)
    requires Replaced(q, start, end, replaced, cut, pos, q')
    requires lo == Lo(gaps[s], start, startsInGap, replaced)
    requires hi == Hi(gaps[e], lo, if cut then pos else end, endsInGap)
    ensures forall p :: InGap(gaps, p) && start <= p < end ==> lo <= p < hi
  {
    LandLow(q, gaps, readPos, start, end, s, e, startsInGap, endsInGap, replaced, cut, pos, q');
    forall p | InGap(gaps, p) && start <= p < end ensures lo <= p < hi {
      var i :| 0 <= i < |gaps| && gaps[i].start <= p < gaps[i].end;
      assert s <= i <= e;
      GapOrder(gaps, s, i);
      GapOrder(gaps, i, e);
    }
  }

  /** A frame strictly inside a gap. */
  ghost predicate Splits(gaps: seq<Interval>, start: int, end: int) {
    exists i :: 0 <= i < |gaps| && gaps[i].start < start && end < gaps[i].end
  }

  /** Only a frame strictly inside a gap makes the gap list longer. */
  lemma CarveGrows(gaps: seq<Interval>, start: int, end: int, s: int, e: int, startsInGap: bool, endsInGap: bool,
                   lo: int, hi: int)
    requires GapsOk(gaps)
    requires Located(gaps, start, end, s, e, startsInGap, endsInGap)
    requires if startsInGap then lo == start else start <= lo <= gaps[s].start
    requires if endsInGap then hi == end else gaps[e].end <= hi
    ensures |Carve(gaps, s, e, lo, hi)| <= |gaps| + 1
    ensures |Carve(gaps, s, e, lo, hi)| == |gaps| + 1 <==> Splits(gaps, start, end)
  {
    if i :| 0 <= i < |gaps| && gaps[i].start < start && end < gaps[i].end {
      assert i == s;
      assert i == e;
    }
  }

  lemma SplitsStartsInGap(gaps: seq<Interval>, start: int, end: int)
    requires Splits(gaps, start, end) && start < end
    ensures InGap(gaps, start)
  {
  }

  /** A frame inside one entry holds nothing new. */
  lemma InsideEntry(q: Queue, gaps: seq<Interval>, readPos: int, start: int, end: int)
    requires StateOk(q, gaps, readPos)
    requires start in q && end <= start + |q[start].data|
    ensures forall p :: start <= p < end ==> !InGap(gaps, p)
  {
    forall p | start <= p < end ensures !InGap(gaps, p) {
      assert InEntry(q, p);
    }
  }

  lemma SpliceFromOutside(q: Queue, lo: int, hi: int, entry: Entry, q': Queue)
    requires lo < hi && Outside(q, lo, hi, q')
    ensures lo !in q' && Spliced(q, lo, hi, entry, q'[lo := entry])
  {
  }

  lemma SpliceProvenance(q: Queue, lo: int, hi: int, entry: Entry, q': Queue, data: seq<byte>, offset: int)
    requires offset <= lo < hi <= offset + |data|
    requires Spliced(q, lo, hi, entry, q') && entry.data == data[lo - offset..hi - offset]
    ensures Provenance(q, q', data, offset)
  {
  }

  /** Storing the queued part of a frame keeps queue and gaps in step. */
  lemma StoreOk(q: Queue, gaps: seq<Interval>, readPos: int, s: int, e: int, lo: int, hi: int,
                data: seq<byte>, offset: int, entry: Entry, q': Queue)
    requires StateOk(q, gaps, readPos)
    requires Brackets(gaps, s, e, lo, hi)
    requires readPos <= lo && Boundary(q, lo) && Boundary(q, hi)
    requires offset <= lo && hi <= offset + |data| && entry.data == data[lo - offset..hi - offset]
    requires Outside(q, lo, hi, q')
    ensures lo !in q' && StateOk(q'[lo := entry], Carve(gaps, s, e, lo, hi), readPos)
    ensures Provenance(q, q'[lo := entry], data, offset)
  {
    SpliceFromOutside(q, lo, hi, entry, q');
    InsertOk(q, gaps, readPos, s, e, lo, hi, entry, q'[lo := entry]);
    SpliceProvenance(q, lo, hi, entry, q'[lo := entry], data, offset);
  }

  /** Taking the queued part of a frame out of the gaps takes the whole frame out of the gaps. */
  lemma CarveRemovesFrame(gaps: seq<Interval>, start: int, end: int, s: int, e: int, lo: int, hi: int)
    requires GapsOk(gaps)
    requires Brackets(gaps, s, e, lo, hi) && start <= lo && hi <= end
    requires forall p :: InGap(gaps, p) && start <= p < end ==> lo <= p < hi
    ensures forall p :: InGap(Carve(gaps, s, e, lo, hi), p) <==> InGap(gaps, p) && !(start <= p < end)
  {
    forall p ensures InGap(Carve(gaps, s, e, lo, hi), p) <==> InGap(gaps, p) && !(start <= p < end) {
      CarveIsDifference(gaps, s, e, lo, hi, p);
    }
  }

  lemma SliceSlice(data: seq<byte>, a: int, b: int, c: int, d: int)
    requires 0 <= a <= b <= |data| && 0 <= c <= d <= b - a
    ensures data[a..b][c..d] == data[a + c..a + d]
  {
    var l, r := data[a..b][c..d], data[a + c..a + d];
    assert forall i :: 0 <= i < |l| ==> l[i] == r[i];
  }

  /** Everything the landing of a frame says about the stored part [lo, hi) and the carved gaps. */
  lemma Landing(q: Queue, gaps: seq<Interval>, readPos: int, start: int, end: int, s: int, e: int,
                startsInGap: bool, endsInGap: bool, replaced: bool, cut: bool, pos: int, q': Queue, lo: int, hi: int)
    requires StateOk(q, gaps, readPos)
    requires Located(gaps, start, end, s, e, startsInGap, endsInGap)
    requires Replaced(q, start, end, replaced, cut, pos, q')
    requires lo == Lo(gaps[s], start, startsInGap, replaced)
    requires hi == Hi(gaps[e], lo, if cut then pos else end, endsInGap)
    ensures Brackets(gaps, s, e, lo, hi) && readPos <= lo && Boundary(q, lo) && Boundary(q, hi)
    ensures var gaps' := Carve(gaps, s, e, lo, hi);
            && |gaps'| <= |gaps| + 1
            && (|gaps'| == |gaps| + 1 <==> Splits(gaps, start, end))
            && (forall p :: InGap(gaps', p) <==> InGap(gaps, p) && !(start <= p < end))
  {
    LandLow(q, gaps, readPos, start, end, s, e, startsInGap, endsInGap, replaced, cut, pos, q');
    LandHigh(q, gaps, readPos, start, end, s, e, startsInGap, endsInGap, replaced, cut, pos, q', lo, hi);
    LandKeepsGaps(q, gaps, readPos, start, end, s, e, startsInGap, endsInGap, replaced, cut, pos, q', lo, hi);
    CarveGrows(gaps, start, end, s, e, startsInGap, endsInGap, lo, hi);
    CarveRemovesFrame(gaps, start, end, s, e, lo, hi);
  }

  // -------------------------------------------------------------- reading

  /** Removing the entry at the read position and advancing past it. */
  lemma PopOk(q: Queue, gaps: seq<Interval>, readPos: int)
    requires StateOk(q, gaps, readPos) && readPos in q
    ensures StateOk(q - {readPos}, gaps, readPos + |q[readPos].data|)
  {
    var q', next := q - {readPos}, readPos + |q[readPos].data|;
    assert next <= gaps[0].start by {
      assert InGap(gaps, gaps[0].start);
      assert !InEntry(q, gaps[0].start);
    }
    forall p | next <= p < MaxByteCount ensures InGap(gaps, p) <==> !InEntry(q', p) {
      if k :| k in q && k <= p < k + |q[k].data| {
        assert k in q' && q'[k] == q[k];
      }
    }
  }

  /** Nothing is queued at the read position exactly if the byte there is missing. */
  lemma NothingToPop(q: Queue, gaps: seq<Interval>, readPos: int)
    requires StateOk(q, gaps, readPos)
    ensures readPos < MaxByteCount
    ensures readPos in q <==> !InGap(gaps, readPos)
  {
    assert gaps[0].start < gaps[|gaps| - 1].end;
    if readPos in q {
      assert InEntry(q, readPos);
    } else if !InGap(gaps, readPos) {
      KeyOrGap(q, gaps, readPos, readPos);
    }
  }

  ghost function ByteAt(q: Queue, p: int): byte
    requires InEntry(q, p)
  {
    var k :| k in q && k <= p < k + |q[k].data|;
    q[k].data[p - k]
  }

  lemma ByteAtKey(q: Queue, k: int, p: int)
    requires QueueOk(q) && k in q && k <= p < k + |q[k].data|
    ensures InEntry(q, p) && ByteAt(q, p) == q[k].data[p - k]
  {
  }

  /** The bytes are those queued from offset on. */
  ghost predicate Holds(q: Queue, offset: int, bytes: seq<byte>) {
    forall x :: offset <= x < offset + |bytes| ==> InEntry(q, x) && bytes[x - offset] == ByteAt(q, x)
  }

  lemma HoldsNone(q: Queue, offset: int)
    ensures Holds(q, offset, [])
  {
  }

  lemma HoldsStep(q: Queue, offset: int, bytes: seq<byte>, n: int)
    requires QueueOk(q) && Holds(q, offset, bytes)
    requires var pos := offset + |bytes|; pos in q && 0 <= n <= |q[pos].data|
    ensures Holds(q, offset, bytes + q[offset + |bytes|].data[..n])
  {
    var pos := offset + |bytes|;
    var more := bytes + q[pos].data[..n];
    forall x | offset <= x < offset + |more| ensures InEntry(q, x) && more[x - offset] == ByteAt(q, x) {
      if x >= pos {
        ByteAtKey(q, pos, x);
      }
    }
  }

  lemma ByteAtStream(q: Queue, p: int, stream: int -> byte)
    requires InEntry(q, p) && Agrees(q, stream)
    ensures ByteAt(q, p) == stream(p)
  {
    var k :| k in q && k <= p < k + |q[k].data| && ByteAt(q, p) == q[k].data[p - k];
    assert q[k].data[p - k] == stream(k + (p - k));
  }

  lemma InEntryBoundaryIsKey(q: Queue, p: int)
    requires InEntry(q, p) && Boundary(q, p)
    ensures p in q
  {
  }

  /** Where a chain ends and the next byte is queued, the next entry starts. */
  lemma NextEntry(q: Queue, offset: int, pos: int)
    requires QueueOk(q) && offset in q && Chain(q, offset, pos) && InEntry(q, pos)
    ensures pos in q && |q[pos].data| > 0 && Chain(q, offset, pos + |q[pos].data|)
  {
    EntryEdges(q, offset);
    ChainEndIsBoundary(q, offset, pos);
    InEntryBoundaryIsKey(q, pos);
    ChainStep(q, offset, pos);
  }

  // ----------------------------------------------------------- callbacks

  function CbBag(cb: Option<Callback>): multiset<Callback> {
    if cb.Some? then multiset{cb.value} else multiset{}
  }

  ghost function Callbacks(q: Queue): map<int, Callback> {
    map k | k in q && q[k].doneCb.Some? :: q[k].doneCb.value
  }

  /** Deleting an entry and calling its callback loses no callback. */
  lemma CallOnDelete(called: multiset<Callback>, q: Queue, k: int)
    requires k in q
    ensures called + CbBag(q[k].doneCb) + Held(q - {k}) == called + Held(q)
  {
    HeldRemove(q, k);
  }

  /** The callbacks held by the queue, with multiplicity. */
  ghost function Held(q: Queue): multiset<Callback> {
    Bag(Callbacks(q))
  }

  lemma HeldRemove(q: Queue, k: int)
    requires k in q
    ensures Held(q) == Held(q - {k}) + CbBag(q[k].doneCb)
  {
    var c := Callbacks(q);
    if q[k].doneCb.Some? {
      assert Callbacks(q - {k}) == c - {k};
      BagRemove(c, k);
    } else {
      assert Callbacks(q - {k}) == c;
    }
  }

  lemma HeldInsert(q: Queue, k: int, entry: Entry)
    requires k !in q
    ensures Held(q[k := entry]) == Held(q) + CbBag(entry.doneCb)
  {
    assert q[k := entry] - {k} == q;
    HeldRemove(q[k := entry], k);
  }

  // ---------------------------------------------------------- provenance

  /** Every queued entry was queued before, or is a slice of the frame `data` at `offset`. */
  ghost predicate Provenance(q: Queue, q': Queue, data: seq<byte>, offset: int) {
    forall k :: k in q' ==>
      || (k in q && q'[k].data == q[k].data)
      || (offset <= k && k + |q'[k].data| <= offset + |data|
          && q'[k].data == data[k - offset..k - offset + |q'[k].data|])
  }

  /** The queued bytes agree with `stream`. */
  ghost predicate Agrees(q: Queue, stream: int -> byte) {
    forall k :: k in q ==> SliceOf(q[k].data, k, stream)
  }

  /** Frames cut from one stream only ever queue bytes of that stream. */
  lemma ProvenanceAgrees(q: Queue, q': Queue, data: seq<byte>, offset: int, stream: int -> byte)
    requires Provenance(q, q', data, offset)
    requires Agrees(q, stream) && SliceOf(data, offset, stream)
    ensures Agrees(q', stream)
  {
    forall k | k in q' ensures SliceOf(q'[k].data, k, stream) {
      if !(k in q && q'[k].data == q[k].data) {
        var d := q'[k].data;
        forall i | 0 <= i < |d| ensures d[i] == stream(k + i) {
          assert d[i] == data[k - offset + i];
        }
      }
    }
  }

  // -------------------------------------------------------------- history

  ghost predicate InRange(p: int, lo: int, hi: int) { lo <= p < hi }

  ghost function Range(lo: int, hi: int): iset<int> {
    iset p | InRange(p, lo, hi)
  }

  /** The gaps are exactly the offsets not received so far. */
  ghost predicate Missing(gaps: seq<Interval>, received: iset<int>) {
    forall p :: 0 <= p < MaxByteCount ==> (InGap(gaps, p) <==> p !in received)
  }

  /** A run of missing bytes starts at p. */
  ghost predicate StartsGap(received: iset<int>, p: int) {
    p !in received && (p == 0 || p - 1 in received)
  }

  ghost function GapStarts(received: iset<int>): set<int> {
    set p | 0 <= p < MaxByteCount && StartsGap(received, p)
  }

  /** Nothing of [start, end) was received, nor the bytes directly before and behind it. */
  ghost predicate Surrounded(received: iset<int>, start: int, end: int) {
    0 < start && forall p :: start - 1 <= p <= end ==> p !in received
  }

  ghost function Starts(gaps: seq<Interval>): set<int> {
    set i | 0 <= i < |gaps| :: gaps[i].start
  }

  lemma {:induction false} StartsDistinct(gaps: seq<Interval>)
    requires Separated(gaps)
    ensures |Starts(gaps)| == |gaps|
  {
    if gaps != [] {
      var n := |gaps| - 1;
      var init := gaps[..n];
      SeparatedSlice(gaps, 0, n);
      StartsDistinct(init);
      assert forall i :: 0 <= i < n ==> init[i].start in Starts(init);
      assert Starts(gaps) == Starts(init) + {gaps[n].start};
      assert gaps[n].start !in Starts(init);
    }
  }

  /** A gap starts at a missing byte that follows a received one. */
  lemma GapStartAt(gaps: seq<Interval>, received: iset<int>, i: int)
    requires GapsOk(gaps) && 0 <= gaps[0].start && Missing(gaps, received) && 0 <= i < |gaps|
    ensures gaps[i].start in GapStarts(received)
  {
    var p := gaps[i].start;
    assert 0 <= p < MaxByteCount by {
      GapOrder(gaps, 0, i);
      GapOrder(gaps, i, |gaps| - 1);
    }
    assert InGap(gaps, p);
    if p > 0 {
      forall j | 0 <= j < |gaps| ensures !(gaps[j].start <= p - 1 < gaps[j].end) {
        GapOrder(gaps, Min(i, j), Max(i, j));
      }
      assert !InGap(gaps, p - 1);
    }
  }

  /** The number of gaps is a matter of what was received. */
  lemma GapCount(gaps: seq<Interval>, received: iset<int>)
    requires GapsOk(gaps) && 0 <= gaps[0].start && Missing(gaps, received)
    ensures |GapStarts(received)| == |gaps|
  {
    forall p | p in GapStarts(received) ensures p in Starts(gaps) {
      assert InGap(gaps, p);
      var i :| 0 <= i < |gaps| && gaps[i].start <= p < gaps[i].end;
      assert gaps[i].start < p ==> InGap(gaps, p - 1);
    }
    forall i | 0 <= i < |gaps| ensures gaps[i].start in GapStarts(received) {
      GapStartAt(gaps, received, i);
    }
    assert GapStarts(received) == Starts(gaps);
    StartsDistinct(gaps);
  }

  /** The byte behind a gap was received. */
  lemma BehindGap(gaps: seq<Interval>, received: iset<int>, i: int)
    requires GapsOk(gaps) && 0 <= gaps[0].start && Missing(gaps, received) && 0 <= i < |gaps|
    ensures gaps[i].end <= MaxByteCount && (gaps[i].end < MaxByteCount ==> gaps[i].end in received)
  {
    var q := gaps[i].end;
    GapOrder(gaps, 0, i);
    GapOrder(gaps, i, |gaps| - 1);
    forall j | 0 <= j < |gaps| ensures !(gaps[j].start <= q < gaps[j].end) {
      GapOrder(gaps, Min(i, j), Max(i, j));
    }
    assert !InGap(gaps, q);
  }

  /** A frame lies strictly inside a gap exactly if nothing next to it was received. */
  lemma SplitsSurrounded(gaps: seq<Interval>, received: iset<int>, start: int, end: int)
    requires GapsOk(gaps) && 0 <= gaps[0].start && Missing(gaps, received) && 0 <= start < end < MaxByteCount
    ensures Splits(gaps, start, end) <==> Surrounded(received, start, end)
  {
    if i :| 0 <= i < |gaps| && gaps[i].start < start && end < gaps[i].end {
      GapOrder(gaps, 0, i);
      assert forall p :: start - 1 <= p <= end ==> InGap(gaps, p);
    }
    if Surrounded(received, start, end) {
      assert InGap(gaps, start - 1);
      var i :| 0 <= i < |gaps| && gaps[i].start <= start - 1 < gaps[i].end;
      BehindGap(gaps, received, i);
      assert gaps[i].start < start && end < gaps[i].end;
    }
  }

  /** A frame adds at most one gap, which starts at its end. */
  lemma OneMoreGap(received: iset<int>, start: int, end: int)
    ensures |GapStarts(received + Range(start, end))| <= |GapStarts(received)| + 1
  {
    var before, after := GapStarts(received), GapStarts(received + Range(start, end));
    assert after <= before + {end};
    assert before + {end} == after + (before + {end} - after);
  }

  /** Separated gaps are at least two bytes apart. */
  lemma {:induction false} GapStartsFarApart(gaps: seq<Interval>, i: int)
    requires GapsOk(gaps) && 0 <= gaps[0].start && 0 <= i < |gaps|
    ensures gaps[i].start >= 2 * i
  {
    if i > 0 {
      GapStartsFarApart(gaps, i - 1);
      GapOrder(gaps, i - 1, i);
    }
  }

  /** If nothing was received from `limit` on, there are at most limit / 2 + 1 gaps. */
  lemma FewGaps(gaps: seq<Interval>, received: iset<int>, limit: int)
    requires GapsOk(gaps) && 0 <= gaps[0].start && Missing(gaps, received)
    requires 0 <= limit && forall p :: p in received ==> p < limit
    ensures 2 * (|gaps| - 1) <= limit
  {
    var last := |gaps| - 1;
    GapStartsFarApart(gaps, last);
    var p := gaps[last].start - 1;
    forall i | 0 <= i < |gaps| ensures !(gaps[i].start <= p < gaps[i].end) {
      GapOrder(gaps, i, last);
    }
    assert !InGap(gaps, p);
  }

  lemma MissingStep(gaps: seq<Interval>, received: iset<int>, gaps': seq<Interval>, lo: int, hi: int)
    requires Missing(gaps, received)
    requires forall p :: InGap(gaps', p) <==> InGap(gaps, p) && !(lo <= p < hi)
    ensures Missing(gaps', received + Range(lo, hi))
  {
  }

  /** Every callback ever given is called, held by the queue or handed out, exactly once. */
  ghost predicate Conserved(called: multiset<Callback>, q: Queue, handed: multiset<Callback>,
                            given: multiset<Callback>) {
    called + Held(q) + handed == given
  }

  lemma ConservedStep(called: multiset<Callback>, q: Queue, handed: multiset<Callback>, given: multiset<Callback>,
                      called': multiset<Callback>, q': Queue, cb: Option<Callback>)
    requires Conserved(called, q, handed, given)
    requires called' + Held(q') == called + Held(q) + CbBag(cb)
    ensures Conserved(called', q', handed, given + CbBag(cb))
  {
    var x, y, c := called + Held(q), called' + Held(q'), CbBag(cb);
    assert y + handed == (x + handed) + c;
  }

  lemma ConservedPop(called: multiset<Callback>, q: Queue, handed: multiset<Callback>, given: multiset<Callback>,
                     k: int)
    requires Conserved(called, q, handed, given) && k in q
    ensures Conserved(called, q - {k}, handed + CbBag(q[k].doneCb), given)
  {
    HeldRemove(q, k);
    var h, c := Held(q - {k}), CbBag(q[k].doneCb);
    assert called + (h + c) + handed == called + h + (handed + c);
  }

  /** How an accepted frame changes queue, gaps and called callbacks. */
  ghost predicate Absorbed(q: Queue, gaps: seq<Interval>, called: multiset<Callback>,
                           q': Queue, gaps': seq<Interval>, called': multiset<Callback>,
                           data: seq<byte>, offset: int, cb: Option<Callback>)
  {
    && Provenance(q, q', data, offset)
    && (forall p :: InGap(gaps', p) <==> InGap(gaps, p) && !(offset <= p < offset + |data|))
    && called' + Held(q') == called + Held(q) + CbBag(cb)
  }

  lemma AbsorbDuplicate(q: Queue, gaps: seq<Interval>, called: multiset<Callback>, data: seq<byte>, offset: int,
                        cb: Option<Callback>)
    requires forall p :: offset <= p < offset + |data| ==> !InGap(gaps, p)
    ensures Absorbed(q, gaps, called, q, gaps, called + CbBag(cb), data, offset, cb)
  {
    var h, c := Held(q), CbBag(cb);
    assert called + c + h == called + h + c;
  }

  lemma AbsorbedHistory(q: Queue, gaps: seq<Interval>, called: multiset<Callback>,
                        q': Queue, gaps': seq<Interval>, called': multiset<Callback>,
                        data: seq<byte>, offset: int, cb: Option<Callback>,
                        received: iset<int>, handed: multiset<Callback>, given: multiset<Callback>)
    requires Absorbed(q, gaps, called, q', gaps', called', data, offset, cb)
    requires Missing(gaps, received) && Conserved(called, q, handed, given)
    ensures Missing(gaps', received + Range(offset, offset + |data|))
    ensures Conserved(called', q', handed, given + CbBag(cb))
  {
    MissingStep(gaps, received, gaps', offset, offset + |data|);
    ConservedStep(called, q, handed, given, called', q', cb);
  }
}
