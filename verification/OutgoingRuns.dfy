/** Properties of all runs of the protocol for opening streams. */
module OutgoingRuns {
  import opened Common
  import opened OutgoingModel

  datatype Event =
    | Open
    | OpenSync(done: bool)
    | Receives(w: int)
    | NoticesDone(w: int)
    | ResumesWoken(w: int)
    | ResumesDone(w: int)
    | SetMax(id: int)
    | Close
    | Delete(id: int)

  ghost predicate Enabled(st: State, e: Event) {
    match e
    case Receives(w) => CanReceive(st, w)
    case NoticesDone(w) => w in st.h.phase && st.h.phase[w] == Waiting
    case ResumesWoken(w) => w in st.h.phase && st.h.phase[w] == Woken
    case ResumesDone(w) => w in st.h.phase && st.h.phase[w] == Done
    case _ => true
  }

  ghost function Step(st: State, e: Event): State {
    match e
    case Open => OpenStream(st).st
    case OpenSync(done) => OpenStreamSync(st, done).st
    case Receives(w) => Receive(st, w)
    case NoticesDone(w) => NoticeDone(st, w)
    case ResumesWoken(w) => ResumeWoken(st, w).st
    case ResumesDone(w) => ResumeDone(st, w)
    case SetMax(id) => SetMaxStream(st, id)
    case Close => CloseWithError(st)
    case Delete(id) => DeleteStream(st, id)
  }

  ghost predicate Runs(st: State, events: seq<Event>, st': State)
    decreases |events|
  {
    if events == [] then st == st' else Enabled(st, events[0]) && Runs(Step(st, events[0]), events[1..], st')
  }

  lemma StepInv(st: State, e: Event)
    requires Inv(st) && Enabled(st, e)
    ensures Inv(Step(st, e)) && Step(st, e).h.first == st.h.first
  {
    hide Inv;
    match e
    case Open => OpenStreamInv(st);
    case OpenSync(done) => OpenStreamSyncInv(st, done);
    case Receives(w) => ReceiveInv(st, w);
    case NoticesDone(w) => NoticeDoneInv(st, w);
    case ResumesWoken(w) => ResumeWokenInv(st, w);
    case ResumesDone(w) => ResumeDoneInv(st, w);
    case SetMax(id) => SetMaxStreamInv(st, id);
    case Close => CloseInv(st);
    case Delete(id) => DeleteInv(st, id);
  }

  lemma {:induction false} RunInv(st: State, events: seq<Event>, st': State)
    requires Inv(st) && Runs(st, events, st')
    ensures Inv(st') && st'.h.first == st.h.first
    decreases |events|
  {
    hide Inv, Step, Enabled;
    if events != [] {
      StepInv(st, events[0]);
      RunInv(Step(st, events[0]), events[1..], st');
    }
  }

  lemma ReachedInv(first: int, events: seq<Event>, st: State)
    requires Runs(Init(first), events, st)
    ensures Inv(st) && st.h.first == first
  {
    InitInv(first);
    hide Inv, Runs;
    RunInv(Init(first), events, st);
  }

  /**
   No lost wake-up: in every run, whenever the map is not closed and there is a stream for the first
   call in the queue, that call has a token or has consumed one; and a call that has consumed one
   will find a stream.
   */
  lemma NoLostWakeUp(first: int, events: seq<Event>, st: State)
    requires Runs(Init(first), events, st) && !st.closed
    ensures st.queue != [] && st.next <= st.max ==>
              st.queue[0] in st.tokens || (st.queue[0] in st.h.phase && st.h.phase[st.queue[0]] == Woken)
    ensures forall w :: w in st.h.phase && st.h.phase[w] == Woken ==> ResumeWoken(st, w).result == Opened(st.next)
  {
    hide Runs, ResumeWoken;
    ReachedInv(first, events, st);
    forall w | w in st.h.phase && st.h.phase[w] == Woken ensures ResumeWoken(st, w).result == Opened(st.next) {
      WokenResult(st, w);
    }
  }

  lemma WokenResult(st: State, w: int)
    requires Inv(st) && !st.closed && w in st.h.phase && st.h.phase[w] == Woken
    ensures ResumeWoken(st, w).result == Opened(st.next)
  {
    WokenCanOpen(st, w);
  }

  /** A call is served only after every call that started to wait before it, unless that one was cancelled. */
  lemma Fifo(first: int, events: seq<Event>, st: State, a: int, b: int)
    requires Runs(Init(first), events, st) && b in st.h.served && 0 <= a < b && a !in st.h.gone
    ensures exists i, j :: 0 <= i < j < |st.h.served| && st.h.served[i] == a && st.h.served[j] == b
  {
    hide Runs, IdsOk, RunningOk, HeadOnly, HeadWoken, BlockedOk;
    ReachedInv(first, events, st);
    var all := st.h.served + st.queue;
    var j :| 0 <= j < |st.h.served| && st.h.served[j] == b;
    assert all[j] == b && a < st.tickets;
    assert a !in st.h.failed;
    assert forall i :: 0 <= i < |st.queue| ==> st.queue[i] == all[|st.h.served| + i] && all[j] < all[|st.h.served| + i];
    var i :| 0 <= i < |st.h.served| && st.h.served[i] == a;
    assert all[i] == a;
  }

  /** The IDs opened in any run are first, first+4, ..., and none exceeds the limit in force when it was opened. */
  lemma Ids(first: int, events: seq<Event>, st: State, k: int)
    requires Runs(Init(first), events, st) && 0 <= k < |st.h.openings|
    ensures st.h.openings[k].id == first + 4 * k
    ensures st.h.openings[k].id <= st.h.openings[k].limit <= st.max
    ensures st.next == first + 4 * |st.h.openings|
  {
    hide Runs;
    ReachedInv(first, events, st);
  }

  /** The peer is told at most once about each limit, and a call that waits in vain is never kept secret from it. */
  lemma BlockedFrames(first: int, events: seq<Event>, st: State)
    requires Runs(Init(first), events, st)
    ensures Increasing(st.h.blockedAt) && |st.frames| == |st.h.blockedAt|
    ensures forall i :: 0 <= i < |st.frames| ==> st.frames[i] == StreamLimit(st.h.blockedAt[i])
    ensures st.queue != [] && st.next > st.max ==>
            st.h.blockedAt != [] && st.h.blockedAt[|st.h.blockedAt| - 1] == st.max
  {
    hide Runs;
    ReachedInv(first, events, st);
  }

  /** No value is sent on a closed channel, and no channel is closed twice. */
  lemma ChannelsOpen(first: int, events: seq<Event>, st: State)
    requires Runs(Init(first), events, st)
    ensures forall w :: w in st.queue ==> w !in st.closedChans
  {
    hide Runs;
    ReachedInv(first, events, st);
  }

  /** Once the map is closed, every call that waits can proceed, and returns the error. */
  lemma CloseReleasesAll(first: int, events: seq<Event>, st: State, w: int)
    requires Runs(Init(first), events, st) && st.closed && w in st.h.phase && st.h.phase[w] == Waiting
    ensures CanReceive(st, w)
    ensures ResumeWoken(Receive(st, w), w).result == Closed && w !in ResumeWoken(Receive(st, w), w).st.h.phase
  {
    hide Runs;
    ReachedInv(first, events, st);
  }

  // -------------------------------------------------------------- progress

  /** The first call in the queue runs until it returns. */
  ghost function Round(st: State): State
    requires st.queue != []
  {
    var w := st.queue[0];
    ResumeWoken(if w in st.h.phase && st.h.phase[w] == Woken then st else Receive(st, w), w).st
  }

  ghost predicate NotDone(st: State, n: int) {
    forall i :: 0 <= i < n && i < |st.queue| ==> st.queue[i] in st.h.phase && st.h.phase[st.queue[i]] != Done
  }

  lemma RoundServes(st: State)
    requires Inv(st) && !st.closed && st.queue != [] && st.next <= st.max && NotDone(st, 1)
    ensures st.h.phase[st.queue[0]] == Woken || CanReceive(st, st.queue[0])
    ensures var st' := Round(st);
            && Inv(st') && !st'.closed && st'.max == st.max && st'.next == st.next + 4
            && st'.queue == st.queue[1..] && st'.h.served == st.h.served + [st.queue[0]]
            && st'.h.phase == st.h.phase - {st.queue[0]}
  {
    var w := st.queue[0];
    var st1 := if st.h.phase[w] == Woken then st else Receive(st, w);
    if st.h.phase[w] != Woken {
      ReceiveInv(st, w);
    }
    WokenCanOpen(st1, w);
    ResumeWokenInv(st1, w);
    hide Inv;
    assert st1.h.phase - {w} == st.h.phase - {w};
  }

  ghost function Rounds(st: State, n: nat): State
    requires n <= |st.queue|
    decreases n
  {
    if n == 0 || |Round(st).queue| < n - 1 then st else Rounds(Round(st), n - 1)
  }

  /**
   If the limit allows n more streams, the first n calls in the queue can all proceed, without any
   further event, and get the next n streams in their order.
   */
  lemma {:induction false} Drain(st: State, n: nat)
    requires Inv(st) && !st.closed && n <= |st.queue| && NotDone(st, n)
    requires n > 0 ==> st.next + 4 * (n - 1) <= st.max
    ensures var st' := Rounds(st, n);
            Inv(st') && st'.h.served == st.h.served + st.queue[..n] && st'.queue == st.queue[n..]
              && st'.next == st.next + 4 * n
    decreases n
  {
    hide Inv, Round, Increasing;
    if n > 0 {
      RoundServes(st);
      var st1 := Round(st);
      RestNotDone(st, n);
      Drain(st1, n - 1);
      assert [st.queue[0]] + st.queue[1..][..n - 1] == st.queue[..n];
      assert st1.h.served + st1.queue[..n - 1] == st.h.served + ([st.queue[0]] + st.queue[1..][..n - 1]);
    }
  }

  lemma RestNotDone(st: State, n: int)
    requires Inv(st) && !st.closed && st.queue != [] && NotDone(st, n) && Round(st).queue == st.queue[1..]
    requires Round(st).h.phase == st.h.phase - {st.queue[0]}
    ensures NotDone(Round(st), n - 1)
  {
    HeadIsLeast(st.h.served, st.queue);
    hide Inv, Round;
    assert forall i :: 0 <= i < |st.queue| - 1 ==>
           st.queue[1..][i] == st.queue[i + 1] && st.queue[i + 1] in st.queue[1..];
  }
}
