/**
 The protocol by which goroutines open streams. A transition is what happens under one hold of the
 mutex, or one choice of a select statement. Every call of OpenStreamSync that has to wait gets a
 ticket, which names its channel.
 */
module OutgoingModel {
  import opened Common

  /** protocol.InvalidStreamID and protocol.InvalidStreamNum */
  const InvalidStream: int := -1

  /** Where a waiting OpenStreamSync call is. */
  datatype Phase =
    | Waiting   // in the select statement
    | Woken     // it received from its channel and is about to take the lock
    | Done      // it noticed that its context is done and is about to take the lock

  datatype Opening = Opening(id: int, limit: int)

  datatype History = History(
    first: int,
    phase: map<int, Phase>,       // the calls that have not returned
    served: seq<int>,             // the tickets that got a stream, in order
    gone: set<int>,               // the tickets whose context was done
    failed: set<int>,             // the tickets in the queue when the map was closed
    openings: seq<Opening>,         // all streams opened, with the limit in force
    blockedAt: seq<int>)          // the limits for which STREAMS_BLOCKED was sent

  datatype State = State(
    streams: set<int>,
    queue: seq<int>,              // openQueue
    next: int,                    // nextStream
    max: int,                     // maxStream
    blockedSent: bool,
    closed: bool,                 // closeErr != nil
    frames: seq<int>,             // the limits in the STREAMS_BLOCKED frames queued
    tickets: int,                 // the number of channels made so far
    tokens: set<int>,             // the channels that hold a value
    closedChans: set<int>,
    h: History)

  function Init(first: int): State {
    State({}, [], first, InvalidStream, false, false, [], 0, {}, {}, History(first, map[], [], {}, {}, [], []))
  }

  // ----------------------------------------------------------- transitions

  /** openStream */
  function OpenNow(st: State): State {
    st.(streams := st.streams + {st.next}, next := st.next + 4,
        h := st.h.(openings := st.h.openings + [Opening(st.next, st.max)]))
  }

  /** The number of streams up to this ID. */
  function StreamLimit(id: int): int {
    if id == InvalidStream then 0 else id / 4 + 1
  }

  /** maybeSendBlockedFrame */
  function SendBlocked(st: State): State {
    if st.blockedSent then st
    else st.(blockedSent := true, frames := st.frames + [StreamLimit(st.max)],
             h := st.h.(blockedAt := st.h.blockedAt + [st.max]))
  }

  /** maybeUnblockOpenSync */
  function Unblock(st: State): State {
    if st.queue == [] || st.next > st.max then st else st.(tokens := st.tokens + {st.queue[0]})
  }

  datatype Result = Closed | ContextDone | LimitReached | Opened(id: int) | Wait(ticket: int)

  datatype Outcome = Outcome(st: State, result: Result)

  function OpenStream(st: State): Outcome {
    if st.closed then Outcome(st, Closed)
    else if st.queue != [] || st.next > st.max then Outcome(SendBlocked(st), LimitReached)
    else Outcome(OpenNow(st), Opened(st.next))
  }

  function Enqueue(st: State): State {
    st.(queue := st.queue + [st.tickets], tickets := st.tickets + 1,
        h := st.h.(phase := st.h.phase[st.tickets := Waiting]))
  }

  /** OpenStreamSync, up to the point where it returns or waits */
  function OpenStreamSync(st: State, done: bool): Outcome {
    if st.closed then Outcome(st, Closed)
    else if done then Outcome(st, ContextDone)
    else if st.queue == [] && st.next <= st.max then Outcome(OpenNow(st), Opened(st.next))
    else Outcome(SendBlocked(Enqueue(st)), Wait(st.tickets))
  }

  function At(st: State, w: int, p: Phase): State {
    st.(h := st.h.(phase := st.h.phase[w := p]))
  }

  function Return(st: State, w: int): State {
    st.(h := st.h.(phase := st.h.phase - {w}))
  }

  /** Call w is waiting, and its channel is ready. */
  predicate CanReceive(st: State, w: int) {
    w in st.h.phase && st.h.phase[w] == Waiting && (w in st.tokens || w in st.closedChans)
  }

  function Receive(st: State, w: int): State {
    At(st.(tokens := st.tokens - {w}), w, Woken)
  }

  function NoticeDone(st: State, w: int): State {
    At(st, w, Done)
  }

  /** Call w opens a stream and takes the first place of the queue with it. */
  function Serve(st: State, w: int): State {
    var st' := OpenNow(st);
    Return(st'.(queue := if st.queue == [] then [] else st.queue[1..], h := st'.h.(served := st.h.served + [w])), w)
  }

  /** What call w does after it was woken up. */
  function ResumeWoken(st: State, w: int): Outcome {
    if st.closed then Outcome(Return(st, w), Closed)
    else if st.next > st.max then Outcome(At(st, w, Waiting), Wait(w))
    else Outcome(Unblock(Serve(st, w)), Opened(st.next))
  }

  function Remove(q: seq<int>, w: int): seq<int> {
    if q == [] then [] else (if q[0] == w then [] else [q[0]]) + Remove(q[1..], w)
  }

  function Withdraw(st: State, w: int): State {
    Return(st.(queue := Remove(st.queue, w), h := st.h.(gone := st.h.gone + if w in st.queue then {w} else {})), w)
  }

  /** What call w does after it noticed that its context is done. */
  function ResumeDone(st: State, w: int): State {
    Unblock(Withdraw(st, w))
  }

  function Raise(st: State, id: int): State {
    var st' := st.(max := id, blockedSent := false);
    if id < st.next - 4 + 4 * |st.queue| then SendBlocked(st') else st'
  }

  function SetMaxStream(st: State, id: int): State {
    if id <= st.max then st else Unblock(Raise(st, id))
  }

  function Elements(q: seq<int>): set<int> {
    set w | w in q
  }

  function CloseWithError(st: State): State {
    st.(closed := true, closedChans := st.closedChans + Elements(st.queue), queue := [],
        h := st.h.(failed := st.h.failed + Elements(st.queue)))
  }

  function DeleteStream(st: State, id: int): State {
    st.(streams := st.streams - {id})
  }

  // ------------------------------------------------------------- invariant

  ghost predicate Increasing(q: seq<int>) {
    forall i, j :: 0 <= i < j < |q| ==> q[i] < q[j]
  }

  /** The IDs opened are first, first+4, ..., each within the limit in force. */
  ghost predicate IdsOk(st: State) {
    && st.next == st.h.first + 4 * |st.h.openings|
    && (forall k :: 0 <= k < |st.h.openings| ==>
          var o := st.h.openings[k]; o.id == st.h.first + 4 * k && o.id <= o.limit <= st.max)
    && (forall s :: s in st.streams ==> st.h.first <= s < st.next && (s - st.h.first) % 4 == 0)
  }

  /** No ticket gets lost, and none is in two places. */
  ghost predicate CoverOk(st: State) {
    && 0 <= st.tickets
    && (forall w :: w in st.h.served || w in st.queue || w in st.h.gone || w in st.h.failed <==> 0 <= w < st.tickets)
    && (forall w :: w in st.h.gone ==> w !in st.h.served && w !in st.queue && w !in st.h.failed)
    && (if st.closed then st.queue == [] else st.h.failed == {})
  }

  /** Tickets are served in the order in which they were drawn. */
  ghost predicate FifoOk(st: State) {
    && CoverOk(st)
    && Increasing(st.h.served + st.queue)
    && (forall w, x :: w in st.h.failed && x in st.h.served ==> x < w)
  }

  /** Call w is running, and it is in the queue unless the map was closed. */
  ghost predicate RunningOk(st: State) {
    && (forall w :: w in st.h.phase ==> if st.closed then w in st.h.failed else w in st.queue)
    && (!st.closed ==> forall w :: w in st.queue ==> w in st.h.phase)
    && (forall w :: w in st.tokens ==> 0 <= w < st.tickets)
    && st.closedChans == st.h.failed
  }

  /** Only the head of the queue is woken up, and only if there is a stream for it. */
  ghost predicate HeadOnly(st: State) {
    !st.closed ==>
      forall w :: w in st.queue && (w in st.tokens || (w in st.h.phase && st.h.phase[w] == Woken)) ==>
        st.queue[0] == w && st.next <= st.max
  }

  /** No wake-up is lost: if there is a stream for the head of the queue, it has a token, or it has consumed one. */
  ghost predicate HeadWoken(st: State) {
    !st.closed && st.queue != [] && st.next <= st.max ==>
      st.queue[0] in st.tokens || (st.queue[0] in st.h.phase && st.h.phase[st.queue[0]] == Woken)
  }

  /** One STREAMS_BLOCKED per limit; without one, the limit is enough for all that wait. */
  ghost predicate BlockedOk(st: State) {
    && Increasing(st.h.blockedAt)
    && (forall i :: 0 <= i < |st.h.blockedAt| ==> st.h.blockedAt[i] <= st.max)
    && (st.blockedSent <==> st.h.blockedAt != [] && st.h.blockedAt[|st.h.blockedAt| - 1] == st.max)
    && |st.frames| == |st.h.blockedAt|
    && (forall i :: 0 <= i < |st.frames| ==> st.frames[i] == StreamLimit(st.h.blockedAt[i]))
    && (st.queue != [] && !st.blockedSent ==> st.next - 4 + 4 * |st.queue| <= st.max)
  }

  ghost predicate Inv(st: State) {
    IdsOk(st) && FifoOk(st) && RunningOk(st) && HeadOnly(st) && HeadWoken(st) && BlockedOk(st)
  }

  lemma InitInv(first: int)
    ensures Inv(Init(first))
  {
  }

  // ----------------------------------------------------------------- steps

  lemma OpenNowInv(st: State)
    requires Inv(st) && st.queue == [] && st.next <= st.max
    ensures Inv(OpenNow(st))
  {
  }

  lemma SendBlockedInv(st: State)
    requires IdsOk(st) && FifoOk(st) && RunningOk(st) && HeadOnly(st) && HeadWoken(st)
    requires BlockedOk(st.(queue := []))
    ensures Inv(SendBlocked(st))
  {
  }

  lemma OpenStreamInv(st: State)
    requires Inv(st)
    ensures Inv(OpenStream(st).st)
  {
    if !st.closed {
      if st.queue != [] || st.next > st.max {
        SendBlockedInv(st);
      } else {
        OpenNowInv(st);
      }
    }
  }

  lemma EnqueueOk(st: State)
    requires Inv(st) && !st.closed && (st.queue != [] || st.next > st.max)
    ensures var st' := Enqueue(st); IdsOk(st') && FifoOk(st') && RunningOk(st') && HeadOnly(st') && HeadWoken(st')
  {
    var st' := Enqueue(st);
    var all, all' := st.h.served + st.queue, st.h.served + st'.queue;
    assert all' == all + [st.tickets];
    assert forall i :: 0 <= i < |all| ==> all[i] in st.h.served || all[i] in st.queue;
    assert forall w :: w in st'.queue <==> w in st.queue || w == st.tickets;
    assert st.tickets !in st.tokens && st.tickets !in st.queue;
  }

  lemma OpenStreamSyncInv(st: State, done: bool)
    requires Inv(st)
    ensures Inv(OpenStreamSync(st, done).st)
  {
    if !st.closed && !done {
      if st.queue == [] && st.next <= st.max {
        OpenNowInv(st);
      } else {
        EnqueueOk(st);
        SendBlockedInv(Enqueue(st));
      }
    }
  }

  lemma ReceiveInv(st: State, w: int)
    requires Inv(st) && CanReceive(st, w)
    ensures Inv(Receive(st, w))
  {
  }

  lemma NoticeDoneInv(st: State, w: int)
    requires Inv(st) && w in st.h.phase && st.h.phase[w] == Waiting
    ensures Inv(NoticeDone(st, w))
  {
  }

  /** A call that was woken up is first in the queue, and there is a stream for it: it never waits again. */
  lemma WokenCanOpen(st: State, w: int)
    requires Inv(st) && !st.closed && w in st.h.phase && st.h.phase[w] == Woken
    ensures st.queue != [] && st.queue[0] == w && st.next <= st.max
  {
  }

  /** Everything but HeadWoken, which Unblock restores. */
  ghost predicate AlmostInv(st: State) {
    IdsOk(st) && FifoOk(st) && RunningOk(st) && HeadOnly(st) && BlockedOk(st)
  }

  lemma UnblockInv(st: State)
    requires AlmostInv(st)
    ensures Inv(Unblock(st))
  {
    if st.queue != [] {
      assert st.queue[0] in st.queue;
    }
  }

  lemma ServeCover(st: State, w: int)
    requires CoverOk(st) && st.queue != [] && st.queue[0] == w && !st.closed
    requires w !in st.queue[1..] && w !in st.h.served
    ensures CoverOk(Serve(st, w))
  {
    var st' := Serve(st, w);
    assert forall x :: x in st.queue <==> x == w || x in st'.queue;
    assert forall x :: x in st'.h.served <==> x == w || x in st.h.served;
  }

  lemma ServeQueue(st: State, w: int)
    requires FifoOk(st) && st.queue != [] && st.queue[0] == w && !st.closed
    ensures FifoOk(Serve(st, w)) && w !in st.queue[1..]
  {
    HeadIsLeast(st.h.served, st.queue);
    ServeCover(st, w);
    assert Serve(st, w).h.served + Serve(st, w).queue == st.h.served + st.queue;
    assert st.h.failed == {};
  }

  lemma HeadIsLeast(a: seq<int>, q: seq<int>)
    requires Increasing(a + q) && q != []
    ensures q[0] !in q[1..]
    ensures forall x :: x in q ==> x !in a
  {
    assert forall i :: 0 <= i < |q| ==> q[i] == (a + q)[|a| + i];
    assert forall i :: 0 <= i < |a| ==> a[i] == (a + q)[i];
  }

  lemma ServeInv(st: State, w: int)
    requires Inv(st) && !st.closed && w in st.h.phase && st.h.phase[w] == Woken
    ensures AlmostInv(Serve(st, w))
  {
    ServeQueue(st, w);
    assert st.queue == [w] + st.queue[1..];
  }

  lemma ResumeWokenInv(st: State, w: int)
    requires Inv(st) && w in st.h.phase && st.h.phase[w] == Woken
    ensures Inv(ResumeWoken(st, w).st)
  {
    if !st.closed {
      WokenCanOpen(st, w);
      ServeInv(st, w);
      UnblockInv(Serve(st, w));
    }
  }

  lemma {:induction false} RemoveOk(q: seq<int>, w: int)
    ensures forall x :: x in Remove(q, w) <==> x in q && x != w
    ensures |Remove(q, w)| <= |q|
    ensures q != [] && q[0] != w ==> Remove(q, w) != [] && Remove(q, w)[0] == q[0]
  {
    if q != [] {
      RemoveOk(q[1..], w);
      assert q == [q[0]] + q[1..];
    }
  }

  lemma DropMiddle(a: seq<int>, x: int, q: seq<int>)
    requires Increasing(a + [x] + q)
    ensures Increasing(a + q)
  {
    var all := a + [x] + q;
    assert forall i :: 0 <= i < |a + q| ==> (a + q)[i] == all[if i < |a| then i else i + 1];
  }

  lemma {:induction false} RemoveIncreasing(a: seq<int>, q: seq<int>, w: int)
    requires Increasing(a + q)
    ensures Increasing(a + Remove(q, w))
    decreases |q|
  {
    if q == [] {
      assert a + Remove(q, w) == a + q;
    } else {
      assert a + [q[0]] + q[1..] == a + q;
      if q[0] == w {
        assert Remove(q, w) == Remove(q[1..], w);
        DropMiddle(a, q[0], q[1..]);
        RemoveIncreasing(a, q[1..], w);
      } else {
        RemoveIncreasing(a + [q[0]], q[1..], w);
        assert a + [q[0]] + Remove(q[1..], w) == a + Remove(q, w);
      }
    }
  }

  lemma WithdrawFifo(st: State, w: int)
    requires FifoOk(st) && w !in st.h.served && w !in st.h.gone
    ensures FifoOk(Withdraw(st, w))
  {
    RemoveIncreasing(st.h.served, st.queue, w);
    RemoveOk(st.queue, w);
  }

  lemma ResumeDoneInv(st: State, w: int)
    requires Inv(st) && w in st.h.phase && st.h.phase[w] == Done
    ensures Inv(ResumeDone(st, w))
  {
    InQueueOnly(st, w);
    WithdrawFifo(st, w);
    WithdrawInv(st, w);
    UnblockInv(Withdraw(st, w));
  }

  /** A running call has not been served and is not gone. */
  lemma InQueueOnly(st: State, w: int)
    requires FifoOk(st) && RunningOk(st) && w in st.h.phase
    ensures w !in st.h.served && w !in st.h.gone
  {
    if w in st.queue {
      HeadIsLeast(st.h.served, st.queue);
    }
  }

  lemma WithdrawInv(st: State, w: int)
    requires Inv(st) && w in st.h.phase && st.h.phase[w] == Done
    ensures var st' := Withdraw(st, w); IdsOk(st') && RunningOk(st') && HeadOnly(st') && BlockedOk(st')
  {
    hide FifoOk, Increasing, HeadWoken;
    RemoveOk(st.queue, w);
  }

  lemma RaiseInv(st: State, id: int)
    requires Inv(st) && id > st.max
    ensures AlmostInv(Raise(st, id))
  {
  }

  lemma SetMaxStreamInv(st: State, id: int)
    requires Inv(st)
    ensures Inv(SetMaxStream(st, id))
  {
    if id > st.max {
      RaiseInv(st, id);
      UnblockInv(Raise(st, id));
    }
  }

  lemma CloseFifo(st: State)
    requires FifoOk(st)
    ensures FifoOk(CloseWithError(st))
  {
    var st' := CloseWithError(st);
    var all := st.h.served + st.queue;
    assert st'.h.served + st'.queue == st.h.served;
    assert forall i :: 0 <= i < |st.h.served| ==> all[i] == st.h.served[i];
    forall w, x | w in st'.h.failed && x in st.h.served ensures x < w {
      if w in st.queue {
        var i :| 0 <= i < |st.h.served| && st.h.served[i] == x;
        var j :| 0 <= j < |st.queue| && st.queue[j] == w;
        assert all[i] < all[|st.h.served| + j];
      }
    }
  }

  lemma CloseInv(st: State)
    requires Inv(st)
    ensures Inv(CloseWithError(st))
  {
    CloseFifo(st);
  }

  lemma DeleteInv(st: State, id: int)
    requires Inv(st)
    ensures Inv(DeleteStream(st, id))
  {
  }

  lemma OpenedBefore(st: State, id: int)
    requires Inv(st) && id in st.streams
    ensures id < st.next && exists k :: 0 <= k < |st.h.openings| && st.h.openings[k].id == id
  {
    var k := (id - st.h.first) / 4;
    assert id == st.h.first + 4 * k && st.h.openings[k].id == id;
  }
}
