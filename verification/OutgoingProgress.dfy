/** What each call on the outgoing streams does, and that calls that wait get their streams once the limit allows. */
module OutgoingProgress {
  import opened Common
  import opened OutgoingModel
  import opened OutgoingRuns

  // ------------------------------------------------------------ single calls

  /** No stream was opened or deleted, and nobody's place in the queue changed. */
  ghost predicate SameStreams(st: State, st': State) {
    && st'.streams == st.streams && st'.next == st.next && st'.queue == st.queue
    && st'.h.served == st.h.served && st'.h.openings == st.h.openings && st'.h.phase == st.h.phase
    && st'.h.gone == st.h.gone
  }

  /** The next stream was opened. */
  ghost predicate OpenedNext(st: State, st': State) {
    && st'.streams == st.streams + {st.next} && st'.next == st.next + 4 && st'.max == st.max
    && st'.h.openings == st.h.openings + [Opening(st.next, st.max)]
  }

  /** The peer was told about the limit. */
  ghost predicate ToldLimit(st: State, st': State) {
    && st'.blockedSent && st'.max == st.max && st'.closed == st.closed
    && (if st.blockedSent then st'.frames == st.frames else st'.frames == st.frames + [StreamLimit(st.max)])
  }

  /** OpenStream opens the next stream exactly if the map is open, nobody waits and the limit allows it. */
  lemma OpenExact(st: State)
    ensures var r := OpenStream(st);
            && (r.result == Opened(st.next) <==> !st.closed && st.queue == [] && st.next <= st.max)
            && (r.result == LimitReached <==> !st.closed && (st.queue != [] || st.next > st.max))
            && (r.result == Closed <==> st.closed)
            && (r.result == Closed ==> r.st == st)
            && (r.result == LimitReached ==> SameStreams(st, r.st) && ToldLimit(st, r.st))
            && (r.result == Opened(st.next) ==>
                  OpenedNext(st, r.st) && r.st.queue == [] && r.st.h.phase == st.h.phase && r.st.frames == st.frames)
  {
  }

  /** OpenStreamSync waits at the end of the queue exactly if OpenStream would report the limit. */
  lemma OpenSyncExact(st: State, done: bool)
    ensures var r := OpenStreamSync(st, done);
            && (r.result == Closed <==> st.closed) && (r.result == ContextDone <==> !st.closed && done)
            && (r.result == Opened(st.next) <==> !done && OpenStream(st).result == Opened(st.next))
            && (r.result == Wait(st.tickets) <==> !done && OpenStream(st).result == LimitReached)
            && (r.result in {Closed, ContextDone} ==> r.st == st)
            && (r.result == Opened(st.next) ==>
                  OpenedNext(st, r.st) && r.st.queue == [] && r.st.h.phase == st.h.phase && r.st.frames == st.frames)
            && (r.result == Wait(st.tickets) ==>
                  && r.st.queue == st.queue + [st.tickets] && r.st.h.phase == st.h.phase[st.tickets := Waiting]
                  && r.st.streams == st.streams && r.st.next == st.next && ToldLimit(st, r.st))
  {
  }

  /** The limit is raised to id, unless it is at least that. */
  lemma MaxRaised(st: State, id: int)
    ensures var st' := SetMaxStream(st, id);
            && st'.max == Max(st.max, id) && SameStreams(st, st') && st'.closed == st.closed
            && (id > st.max ==>
                  (st'.blockedSent <==> id < st.next - 4 + 4 * |st.queue|)
                  && st'.frames == st.frames + if st'.blockedSent then [StreamLimit(id)] else [])
            && (id > st.max && st.queue != [] && st.next <= id ==> st.queue[0] in st'.tokens)
            && (id <= st.max ==> st' == st)
  {
  }

  /** A call that waits takes the value out of its channel, or notices that its context is done. */
  lemma WakesUp(st: State, w: int)
    ensures var st' := Receive(st, w);
            && w !in st'.tokens && (forall x :: x != w ==> (x in st'.tokens <==> x in st.tokens))
            && st'.h.phase == st.h.phase[w := Woken] && st'.queue == st.queue && st'.streams == st.streams
            && st'.next == st.next && st'.max == st.max && st'.frames == st.frames && st'.closed == st.closed
    ensures NoticeDone(st, w) == st.(h := st.h.(phase := st.h.phase[w := Done]))
  {
  }

  lemma DoneFields(st: State, w: int)
    ensures var st' := ResumeDone(st, w);
            && st'.queue == Remove(st.queue, w) && st'.h.phase == st.h.phase - {w} && st'.closed == st.closed
            && (w in st.queue ==> w in st'.h.gone) && st'.h.openings == st.h.openings
            && st'.streams == st.streams && st'.next == st.next && st'.max == st.max && st'.h.served == st.h.served
  {
    hide Remove;
  }

  lemma QueueIncreasing(st: State)
    requires Inv(st)
    ensures Increasing(st.queue)
  {
    hide IdsOk, RunningOk, HeadOnly, HeadWoken, BlockedOk, CoverOk;
    assert forall i :: 0 <= i < |st.queue| ==> (st.h.served + st.queue)[|st.h.served| + i] == st.queue[i];
  }

  /** A call that gives up leaves the queue, and the others keep their places. */
  lemma DoneLeaves(st: State, w: int)
    requires Inv(st) && w in st.h.phase && st.h.phase[w] == Done
    ensures var st' := ResumeDone(st, w);
            && w !in st'.queue && st'.h.phase == st.h.phase - {w}
            && (forall x :: x in st'.queue <==> x in st.queue && x != w) && Increasing(st'.queue)
            && (w in st.queue ==> w in st'.h.gone)
            && st'.streams == st.streams && st'.next == st.next && st'.max == st.max && st'.h.served == st.h.served
  {
    hide Inv, ResumeDone, Remove, Increasing;
    RemoveOk(st.queue, w);
    DoneFields(st, w);
    ResumeDoneInv(st, w);
    QueueIncreasing(ResumeDone(st, w));
  }

  /** Once the map is closed, nobody is in the queue, whoever waited can proceed, and nothing is opened any more. */
  lemma CloseCloses(st: State, done: bool)
    requires Inv(st)
    ensures var st' := CloseWithError(st);
            && st'.closed && st'.queue == [] && st'.streams == st.streams && st'.next == st.next && st'.max == st.max
            && (forall w :: w in st.queue && w in st.h.phase && st.h.phase[w] == Waiting ==> CanReceive(st', w))
            && OpenStream(st').result == OpenStreamSync(st', done).result == Closed
  {
  }

  lemma StepOpens(st: State, e: Event)
    ensures var st' := Step(st, e);
            || (st'.streams == st.streams + {st.next} && !e.Delete?
                && st'.h.openings == st.h.openings + [Opening(st.next, st.max)])
            || (st'.streams == (if e.Delete? then st.streams - {e.id} else st.streams)
                && st'.h.openings == st.h.openings)
  {
    hide Remove, StreamLimit;
  }

  /** The streams in the map are those opened and not deleted. */
  lemma StreamsExact(st: State, e: Event, s: int)
    requires Inv(st) && Enabled(st, e)
    ensures var st' := Step(st, e);
            && |st.h.openings| <= |st'.h.openings| && st.h.openings == st'.h.openings[..|st.h.openings|]
            && (s in st'.streams <==>
                  || (s in st.streams && e != Delete(s))
                  || exists k :: |st.h.openings| <= k < |st'.h.openings| && st'.h.openings[k].id == s)
  {
    var st' := Step(st, e);
    hide Inv, Remove, StreamLimit;
    StepOpens(st, e);
    hide Step;
    if |st'.h.openings| > |st.h.openings| {
      assert st'.h.openings[|st.h.openings|].id == st.next;
    }
  }

  // ---------------------------------------------------------------- progress

  /** The calls that have not given up. */
  function Live(queue: seq<int>, phase: map<int, Phase>): seq<int> {
    if queue == [] then []
    else (if queue[0] in phase && phase[queue[0]] == Done then [] else [queue[0]]) + Live(queue[1..], phase)
  }

  lemma {:induction false} LiveWithout(queue: seq<int>, phase: map<int, Phase>, w: int)
    requires w !in queue
    ensures Live(queue, phase - {w}) == Live(queue, phase)
  {
    if queue != [] {
      LiveWithout(queue[1..], phase, w);
    }
  }

  lemma {:induction false} RemoveAbsent(queue: seq<int>, w: int)
    requires w !in queue
    ensures Remove(queue, w) == queue
  {
    if queue != [] {
      RemoveAbsent(queue[1..], w);
    }
  }

  /** The number of streams that the limit allows to be opened. */
  function Free(st: State): int {
    if st.next > st.max then 0 else (st.max - st.next) / 4 + 1
  }

  /** The calls that were waiting proceed, without anything else happening. */
  ghost predicate Internal(events: seq<Event>) {
    forall i :: 0 <= i < |events| ==> events[i].Receives? || events[i].ResumesWoken? || events[i].ResumesDone?
  }

  /** The first k live calls got the next k streams, in their order, and the others keep theirs. */
  ghost predicate Served(st: State, k: int, st': State)
    requires 0 <= k <= |Live(st.queue, st.h.phase)|
  {
    var live := Live(st.queue, st.h.phase);
    && st'.h.served == st.h.served + live[..k] && Live(st'.queue, st'.h.phase) == live[k..]
    && st'.next == st.next + 4 * k && st'.max == st.max && st'.closed == st.closed
    && |st'.h.openings| == |st.h.openings| + k
    && (forall i :: 0 <= i < k ==> st'.h.openings[|st.h.openings| + i].id == st.next + 4 * i)
  }

  lemma ServedNone(st: State)
    ensures Served(st, 0, st)
  {
    var live := Live(st.queue, st.h.phase);
    assert live[..0] == [] && live[0..] == live;
  }

  lemma Prepend(st: State, e: Event, rest: seq<Event>, st': State)
    requires Enabled(st, e) && Runs(Step(st, e), rest, st') && Internal(rest)
    ensures Runs(st, [e] + rest, st')
    ensures e.Receives? || e.ResumesWoken? || e.ResumesDone? ==> Internal([e] + rest)
  {
    assert ([e] + rest)[0] == e && ([e] + rest)[1..] == rest;
  }

  /** The first call in the queue has given up: it leaves. */
  lemma FirstLeaves(st: State)
    requires Inv(st) && !st.closed && st.queue != [] && st.queue[0] in st.h.phase && st.h.phase[st.queue[0]] == Done
    ensures var st' := ResumeDone(st, st.queue[0]);
            && Inv(st') && !st'.closed && st'.queue == st.queue[1..]
            && Live(st'.queue, st'.h.phase) == Live(st.queue, st.h.phase)
            && st'.next == st.next && st'.max == st.max && st'.h.served == st.h.served
            && st'.h.openings == st.h.openings
  {
    var w := st.queue[0];
    HeadIsLeast(st.h.served, st.queue);
    hide Inv, ResumeDone, Increasing;
    ResumeDoneInv(st, w);
    DoneFields(st, w);
    RemoveAbsent(st.queue[1..], w);
    LiveWithout(st.queue[1..], st.h.phase, w);
    assert Remove(st.queue, w) == st.queue[1..];
  }

  /** The first call in the queue gets the next stream. */
  lemma FirstServed(st: State)
    requires Inv(st) && !st.closed && st.queue != [] && st.next <= st.max
    requires st.queue[0] in st.h.phase && st.h.phase[st.queue[0]] != Done
    ensures st.h.phase[st.queue[0]] == Woken || CanReceive(st, st.queue[0])
    ensures var st', live := Round(st), Live(st.queue, st.h.phase);
            && Inv(st') && !st'.closed && st'.queue == st.queue[1..] && st'.next == st.next + 4 && st'.max == st.max
            && st'.h.served == st.h.served + [st.queue[0]]
            && live != [] && live[0] == st.queue[0] && Live(st'.queue, st'.h.phase) == live[1..]
            && st'.h.openings == st.h.openings + [Opening(st.next, st.max)]
  {
    var w := st.queue[0];
    assert NotDone(st, 1);
    RoundServes(st);
    HeadIsLeast(st.h.served, st.queue);
    LiveWithout(st.queue[1..], st.h.phase, w);
    RoundOpens(st);
    hide Inv, Round;
    assert Live(st.queue, st.h.phase) == [w] + Live(st.queue[1..], st.h.phase);
  }

  lemma RoundOpens(st: State)
    requires Inv(st) && !st.closed && st.queue != [] && st.next <= st.max
    ensures Round(st).h.openings == st.h.openings + [Opening(st.next, st.max)]
  {
    hide Inv;
  }

  lemma RoundRuns(st: State, rest: seq<Event>, st': State) returns (events: seq<Event>)
    requires st.queue != [] && st.queue[0] in st.h.phase
    requires st.h.phase[st.queue[0]] == Woken || CanReceive(st, st.queue[0])
    requires Runs(Round(st), rest, st') && Internal(rest)
    ensures Runs(st, events, st') && Internal(events)
  {
    hide Runs;
    var w := st.queue[0];
    var e := ResumesWoken(w);
    if st.h.phase[w] == Woken {
      Prepend(st, e, rest, st');
      events := [e] + rest;
    } else {
      Prepend(Receive(st, w), e, rest, st');
      Prepend(st, Receives(w), [e] + rest, st');
      events := [Receives(w)] + ([e] + rest);
    }
  }

  lemma LeaveRuns(st: State, w: int, rest: seq<Event>, st': State)
    requires w in st.h.phase && st.h.phase[w] == Done && Runs(ResumeDone(st, w), rest, st') && Internal(rest)
    ensures Runs(st, [ResumesDone(w)] + rest, st') && Internal([ResumesDone(w)] + rest)
  {
    hide Runs;
    Prepend(st, ResumesDone(w), rest, st');
  }

  lemma ServedMore(st: State, st1: State, k: int, st': State)
    requires var live := Live(st.queue, st.h.phase);
             && live != [] && Live(st1.queue, st1.h.phase) == live[1..] && 0 <= k <= |live| - 1
             && st1.h.served == st.h.served + [live[0]] && st1.next == st.next + 4 && st1.max == st.max
             && st1.closed == st.closed && st1.h.openings == st.h.openings + [Opening(st.next, st.max)]
    requires Served(st1, k, st')
    requires forall i :: 0 <= i < |st1.h.openings| ==> i < |st'.h.openings| && st'.h.openings[i] == st1.h.openings[i]
    ensures Served(st, k + 1, st')
  {
    var live := Live(st.queue, st.h.phase);
    hide Live;
    assert live[..k + 1] == [live[0]] + live[1..][..k] && live[1..][k..] == live[k + 1..];
    forall i | 0 <= i < k + 1 ensures st'.h.openings[|st.h.openings| + i].id == st.next + 4 * i {
      if i > 0 {
        assert st'.h.openings[|st1.h.openings| + (i - 1)].id == st1.next + 4 * (i - 1);
      }
    }
  }

  /**
   From any state of an open map, the calls in the queue can proceed on their own: those that have
   given up leave, and the first of the others, as many as the limit allows, get the next streams in
   their order.
   */
  lemma {:induction false} Settle(st: State) returns (events: seq<Event>, st': State)
    requires Inv(st) && !st.closed
    ensures Runs(st, events, st') && Internal(events) && Inv(st')
    ensures Free(st) >= 0 && Served(st, Min(|Live(st.queue, st.h.phase)|, Free(st)), st')
    ensures |st.h.openings| <= |st'.h.openings| && st.h.openings == st'.h.openings[..|st.h.openings|]
    decreases |st.queue|
  {
    hide Inv, Served, Live, Round, ResumeDone, Step, Enabled;
    LiveEmpty(st);
    if st.queue == [] {
      events, st' := [], st;
      ServedNone(st);
    } else {
      RunningHead(st);
      var w := st.queue[0];
      if st.h.phase[w] == Done {
        FirstLeaves(st);
        var rest;
        rest, st' := Settle(ResumeDone(st, w));
        hide Runs, Internal;
        LeaveRuns(st, w, rest, st');
        events := [ResumesDone(w)] + rest;
        ServedSame(st, ResumeDone(st, w), Min(|Live(st.queue, st.h.phase)|, Free(st)), st');
      } else if st.next > st.max {
        events, st' := [], st;
        ServedNone(st);
      } else {
        FirstServed(st);
        var rest;
        rest, st' := Settle(Round(st));
        hide Runs, Internal;
        events := RoundRuns(st, rest, st');
        Longer(st.h.openings, Opening(st.next, st.max), st'.h.openings);
        ServedMore(st, Round(st), Min(|Live(st.queue, st.h.phase)| - 1, Free(st) - 1), st');
      }
    }
  }

  lemma Longer(a: seq<Opening>, o: Opening, b: seq<Opening>)
    requires |a| + 1 <= |b| && a + [o] == b[..|a| + 1]
    ensures a == b[..|a|] && forall i :: 0 <= i < |a + [o]| ==> b[i] == (a + [o])[i]
  {
    assert forall i :: 0 <= i < |a + [o]| ==> b[..|a| + 1][i] == b[i];
    assert a == (a + [o])[..|a|];
  }

  lemma ServedSame(st: State, st1: State, k: int, st': State)
    requires Live(st1.queue, st1.h.phase) == Live(st.queue, st.h.phase) && 0 <= k <= |Live(st.queue, st.h.phase)|
    requires st1.h.served == st.h.served && st1.next == st.next && st1.max == st.max && st1.closed == st.closed
    requires st1.h.openings == st.h.openings && Served(st1, k, st')
    ensures Served(st, k, st')
  {
  }

  lemma LiveEmpty(st: State)
    ensures st.queue == [] ==> Live(st.queue, st.h.phase) == []
  {
  }

  lemma RunningHead(st: State)
    requires Inv(st) && !st.closed && st.queue != []
    ensures st.queue[0] in st.h.phase
  {
    assert RunningOk(st);
    hide IdsOk, FifoOk, HeadOnly, HeadWoken, BlockedOk;
    var w := st.queue[0];
    assert w in st.queue;
  }

  /**
   MAX_STREAMS releases the calls that wait: in every run, after SetMaxStream, they can proceed on their
   own, and the first of those that have not given up get the next streams, in their order, up to the
   larger of the two limits.
   */
  lemma RaiseServes(first: int, before: seq<Event>, st: State, id: int) returns (events: seq<Event>, st': State)
    requires Runs(Init(first), before, st) && !st.closed
    ensures Runs(SetMaxStream(st, id), events, st') && Internal(events) && st'.max == Max(st.max, id)
    ensures var live := Live(st.queue, st.h.phase);
            var k := Min(|live|, if st.next > st'.max then 0 else (st'.max - st.next) / 4 + 1);
            && st'.h.served == st.h.served + live[..k] && Live(st'.queue, st'.h.phase) == live[k..]
            && st'.next == st.next + 4 * k && |st'.h.openings| == |st.h.openings| + k
            && (forall i :: 0 <= i < k ==> st'.h.openings[|st.h.openings| + i].id == st.next + 4 * i)
  {
    hide Inv, Runs, SetMaxStream, Live, Internal;
    ReachedInv(first, before, st);
    SetMaxStreamInv(st, id);
    MaxRaised(st, id);
    var raised := SetMaxStream(st, id);
    events, st' := Settle(raised);
    assert Served(raised, Min(|Live(st.queue, st.h.phase)|, Free(raised)), st');
  }
}
