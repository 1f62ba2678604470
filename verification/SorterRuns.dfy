/** What holds over whole runs of the frame sorter. */
module SorterRuns {
  import opened Common
  import opened SorterModel
  import opened FrameSorter

  datatype Op =
    | PushOp(data: seq<byte>, offset: int, doneCb: Option<Callback>)
    | PopOp

  /** What an operation returned: the bytes popped and where they start. */
  datatype Outcome = Pushed | Nothing(at: int) | Chunk(at: int, data: seq<byte>)

  /** One of the pushes carries the byte at p. */
  ghost predicate Carried(ops: seq<Op>, p: int) {
    exists i :: 0 <= i < |ops| && ops[i].PushOp? && ops[i].offset <= p < ops[i].offset + |ops[i].data|
  }

  /** The offsets of all bytes pushed. */
  ghost function Bytes(ops: seq<Op>): iset<int> {
    iset p | Carried(ops, p)
  }

  /** Operation i pushes a frame that would split a gap when there are as many gaps as allowed. */
  ghost predicate Refused(ops: seq<Op>, i: int)
    requires 0 <= i < |ops|
  {
    ops[i].PushOp? && OverLimit(Bytes(ops[..i]), ops[i].offset, |ops[i].data|)
  }

  lemma BytesStep(ops: seq<Op>, i: int)
    requires 0 <= i < |ops|
    ensures Bytes(ops[..i + 1]) ==
            Bytes(ops[..i]) + if ops[i].PushOp? then Range(ops[i].offset, ops[i].offset + |ops[i].data|) else iset{}
  {
    forall p ensures Carried(ops[..i + 1], p) <==>
                     Carried(ops[..i], p) || (ops[i].PushOp? && ops[i].offset <= p < ops[i].offset + |ops[i].data|)
    {
      CarriedStep(ops, i, p);
    }
  }

  /** After i operations there are at most i + 1 gaps. */
  lemma {:induction false} GapPerPush(ops: seq<Op>, i: nat)
    requires i <= |ops|
    ensures |GapStarts(Bytes(ops[..i]))| <= i + 1
  {
    if i == 0 {
      assert forall p :: !Carried(ops[..0], p);
      assert GapStarts(Bytes(ops[..0])) <= {0};
      assert {0} == GapStarts(Bytes(ops[..0])) + ({0} - GapStarts(Bytes(ops[..0])));
    } else {
      GapPerPush(ops, i - 1);
      BytesStep(ops, i - 1);
      var before := Bytes(ops[..i - 1]);
      if ops[i - 1].PushOp? {
        OneMoreGap(before, ops[i - 1].offset, ops[i - 1].offset + |ops[i - 1].data|);
      } else {
        assert before + iset{} == before;
      }
    }
  }

  /** All frames are cut from one stream, which ends before MaxByteCount. */
  ghost predicate FramesOf(ops: seq<Op>, stream: int -> byte) {
    forall i :: 0 <= i < |ops| && ops[i].PushOp? ==>
      && ops[i].offset >= 0 && ops[i].offset + |ops[i].data| < MaxByteCount
      && SliceOf(ops[i].data, ops[i].offset, stream)
  }

  function Concat(outcomes: seq<Outcome>): seq<byte> {
    if outcomes == [] then []
    else
      var last := outcomes[|outcomes| - 1];
      Concat(outcomes[..|outcomes| - 1]) + if last.Chunk? then last.data else []
  }

  lemma ConcatAppend(outcomes: seq<Outcome>, o: Outcome)
    ensures Concat(outcomes + [o]) == Concat(outcomes) + if o.Chunk? then o.data else []
  {
    assert (outcomes + [o])[..|outcomes|] == outcomes;
  }

  /** The outcome of operation i, given what was popped before it. */
  ghost predicate OutcomeOk(ops: seq<Op>, outcomes: seq<Outcome>, i: int)
    requires 0 <= i < |outcomes| <= |ops|
  {
    match outcomes[i]
    case Pushed => ops[i].PushOp?
    case Nothing(at) => ops[i].PopOp? && at == |Concat(outcomes[..i])| && !Carried(ops[..i], at)
    case Chunk(at, data) => ops[i].PopOp? && at == |Concat(outcomes[..i])| && data != [] && Carried(ops[..i], at)
  }

  lemma CarriedStep(ops: seq<Op>, i: int, p: int)
    requires 0 <= i < |ops|
    ensures Carried(ops[..i + 1], p) <==>
            Carried(ops[..i], p) || (ops[i].PushOp? && ops[i].offset <= p < ops[i].offset + |ops[i].data|)
  {
    var a, b := ops[..i], ops[..i + 1];
    if j :| 0 <= j < |a| && a[j].PushOp? && a[j].offset <= p < a[j].offset + |a[j].data| {
      assert b[j] == a[j];
    }
    if j :| 0 <= j < |b| && b[j].PushOp? && b[j].offset <= p < b[j].offset + |b[j].data| {
      assert j == i || a[j] == b[j];
    }
    assert b[i] == ops[i];
  }

  lemma OutcomesExtend(ops: seq<Op>, outcomes: seq<Outcome>, o: Outcome)
    requires |outcomes| < |ops|
    requires forall i :: 0 <= i < |outcomes| ==> OutcomeOk(ops, outcomes, i)
    requires OutcomeOk(ops, outcomes + [o], |outcomes|)
    ensures forall i :: 0 <= i < |outcomes| + 1 ==> OutcomeOk(ops, outcomes + [o], i)
  {
    var all := outcomes + [o];
    forall i | 0 <= i < |outcomes| ensures OutcomeOk(ops, all, i) {
      assert OutcomeOk(ops, outcomes, i);
      assert all[i] == outcomes[i] && all[..i] == outcomes[..i];
    }
  }

  /**
   Any interleaving of pushes and pops over frames cut from one stream, in any order and with any
   overlap: the chunks popped concatenate to a prefix of the stream, and a pop yields nothing exactly
   if the byte at the read position was never pushed. The run stops at the first frame that would
   make one gap too many, and only there: never with fewer operations than gaps are allowed.
   */
  method RunSorter(ops: seq<Op>, ghost stream: int -> byte) returns (outcomes: seq<Outcome>, limitHit: bool)
    requires FramesOf(ops, stream)
    ensures |outcomes| <= |ops| && (limitHit <==> |outcomes| < |ops|)
    ensures limitHit ==> Refused(ops, |outcomes|)
    ensures forall i :: 0 <= i < |outcomes| ==> !Refused(ops, i)
    ensures |ops| < MaxStreamFrameSorterGaps ==> !limitHit
    ensures Concat(outcomes) == Prefix(stream, |Concat(outcomes)|)
    ensures forall i :: 0 <= i < |outcomes| ==> OutcomeOk(ops, outcomes, i)
  {
    hide Ran, Refused, FramesOf;
    var sorter := Start(ops, stream);
    outcomes := [];
    for i := 0 to |ops|
      invariant fresh(sorter) && Ran(ops, i, outcomes, stream, sorter)
    {
      RanFacts(ops, i, outcomes, stream, sorter);
      var o := RunOne(sorter, ops, i, outcomes, stream);
      if o.None? {
        FewOps(ops, i);
        return outcomes, true;
      }
      outcomes := outcomes + [o.value];
    }
    RanFacts(ops, |ops|, outcomes, stream, sorter);
    limitHit := false;
  }

  /** The outcomes of the first i operations, and the sorter after them. */
  ghost predicate Ran(ops: seq<Op>, i: int, outcomes: seq<Outcome>, stream: int -> byte, sorter: FrameSorter)
    requires 0 <= i <= |ops|
    reads sorter
  {
    && Described(ops, i, outcomes, sorter.delivered)
    && sorter.Valid() && sorter.ConsistentWith(stream) && sorter.received == Bytes(ops[..i])
  }

  ghost predicate Described(ops: seq<Op>, i: int, outcomes: seq<Outcome>, delivered: seq<byte>)
    requires 0 <= i <= |ops|
  {
    && |outcomes| == i && delivered == Concat(outcomes)
    && forall j :: 0 <= j < i ==> OutcomeOk(ops, outcomes, j) && !Refused(ops, j)
  }

  lemma RanFacts(ops: seq<Op>, i: int, outcomes: seq<Outcome>, stream: int -> byte, sorter: FrameSorter)
    requires 0 <= i <= |ops| && Ran(ops, i, outcomes, stream, sorter)
    ensures |outcomes| == i && Concat(outcomes) == Prefix(stream, |Concat(outcomes)|)
    ensures forall j :: 0 <= j < i ==> OutcomeOk(ops, outcomes, j) && !Refused(ops, j)
  {
    hide Refused, OutcomeOk;
  }

  method Start(ghost ops: seq<Op>, ghost stream: int -> byte) returns (sorter: FrameSorter)
    ensures fresh(sorter) && Ran(ops, 0, [], stream, sorter)
  {
    sorter := new FrameSorter();
    assert Bytes(ops[..0]) == iset{};
  }

  /** One more outcome. */
  lemma DescribeNext(ops: seq<Op>, i: int, outcomes: seq<Outcome>, delivered: seq<byte>, o: Outcome,
                     delivered': seq<byte>)
    requires 0 <= i < |ops| && Described(ops, i, outcomes, delivered) && !Refused(ops, i)
    requires delivered' == delivered + if o.Chunk? then o.data else []
    requires match o
             case Pushed => ops[i].PushOp?
             case Nothing(at) => ops[i].PopOp? && at == |delivered| && at !in Bytes(ops[..i])
             case Chunk(at, data) => ops[i].PopOp? && at == |delivered| && data != [] && at in Bytes(ops[..i])
    ensures Described(ops, i + 1, outcomes + [o], delivered')
  {
    hide Refused;
    assert (outcomes + [o])[..i] == outcomes;
    ConcatAppend(outcomes, o);
    OutcomesExtend(ops, outcomes, o);
  }

  /** Operation i; there is no outcome exactly if it is refused. */
  method RunOne(sorter: FrameSorter, ops: seq<Op>, i: int, ghost outcomes: seq<Outcome>, ghost stream: int -> byte)
    returns (o: Option<Outcome>)
    requires 0 <= i < |ops| && FramesOf(ops, stream) && Ran(ops, i, outcomes, stream, sorter)
    modifies sorter
    ensures o.None? <==> Refused(ops, i)
    ensures o.Some? ==> Ran(ops, i + 1, outcomes + [o.value], stream, sorter)
  {
    hide OverLimit, Described, OutcomeOk, Concat, StateOk, Missing, Conserved, Agrees, Prefix, Bytes;
    BytesStep(ops, i);
    ghost var delivered := sorter.delivered;
    match ops[i] {
      case PushOp(data, offset, doneCb) =>
        var r := PushOne(sorter, data, offset, doneCb, stream);
        if r != Accepted {
          return None;
        }
        o := Some(Pushed);
      case PopOp =>
        var popped := PopOne(sorter, stream);
        o := Some(popped);
    }
    DescribeNext(ops, i, outcomes, delivered, o.value, sorter.delivered);
  }

  lemma FewOps(ops: seq<Op>, i: int)
    requires 0 <= i < |ops| && Refused(ops, i)
    ensures |ops| >= MaxStreamFrameSorterGaps
  {
    GapPerPush(ops, i);
  }

  method PushOne(sorter: FrameSorter, data: seq<byte>, offset: int, doneCb: Option<Callback>, ghost stream: int -> byte)
    returns (r: PushResult)
    requires sorter.Valid() && sorter.ConsistentWith(stream)
    requires offset >= 0 && offset + |data| < MaxByteCount && SliceOf(data, offset, stream)
    modifies sorter
    ensures r == if OverLimit(old(sorter.received), offset, |data|) then TooManyGaps else Accepted
    ensures r == Accepted ==> sorter.Valid() && sorter.ConsistentWith(stream)
    ensures r == Accepted ==> sorter.received == old(sorter.received) + Range(offset, offset + |data|)
    ensures sorter.delivered == old(sorter.delivered)
  {
    hide OverLimit;
    ghost var q := sorter.queue;
    r := sorter.Push(data, offset, doneCb);
    if r == Accepted {
      ProvenanceAgrees(q, sorter.queue, data, offset, stream);
    }
  }

  method PopOne(sorter: FrameSorter, ghost stream: int -> byte) returns (o: Outcome)
    requires sorter.Valid() && sorter.ConsistentWith(stream)
    modifies sorter
    ensures sorter.Valid() && sorter.ConsistentWith(stream)
    ensures sorter.received == old(sorter.received)
    ensures o.Nothing? ==>
            o.at == old(sorter.readPos) && o.at !in old(sorter.received) && sorter.delivered == old(sorter.delivered)
    ensures o.Chunk? ==> o.at == old(sorter.readPos) && o.at in old(sorter.received) && o.data != []
    ensures o.Chunk? ==> sorter.delivered == old(sorter.delivered) + o.data
    ensures !o.Pushed?
  {
    var at, data, _ := sorter.Pop();
    o := if data.None? then Nothing(at) else Chunk(at, data.value);
  }
}
