/**
 The streams opened by the peer, and the limit on their number. A transition is what happens under
 one hold of the mutex, or one choice of a select statement. A call of AcceptStream is named by a
 number.
 */
module IncomingModel {
  import opened Common

  const MaxStreamID: int := 0x3fff_ffff_ffff_ffff
  const MaxStreamCount: int := 0x1000_0000_0000_0000

  /** Where a call of AcceptStream is. */
  datatype Phase =
    | Starting  // it drained the channel and is about to take the lock
    | Waiting   // in the select statement
    | Woken     // it received from the channel and is about to take the lock

  datatype History = History(
    first: int,
    acceptors: map<int, Phase>,   // the calls of AcceptStream that have not returned
    solo: bool,                   // there never were two at a time
    accepted: seq<int>,           // what AcceptStream returned
    gone: set<int>)               // the streams deleted from the map

  datatype State = State(
    streams: map<int, bool>,      // whether the entry shouldDelete
    toAccept: int,                // nextStreamToAccept
    toOpen: int,                  // nextStreamToOpen
    max: int,                     // maxStream
    limit: int,                   // maxNumStreams
    frames: seq<int>,             // MaxStreamNum of the MAX_STREAMS frames queued
    closed: bool,                 // closeErr != nil, and newStreamChan is closed
    token: bool,                  // newStreamChan holds a value
    h: History)

  function Init(first: int, limit: int): State {
    State(map[], first, first, if limit == 0 then -1 else first + 4 * (limit - 1), limit, [], false, false,
          History(first, map[], true, [], {}))
  }

  // ------------------------------------------------------------- invariant

  /** An ID of this kind. */
  predicate IsId(first: int, id: int) {
    id >= first && (id - first) % 4 == 0
  }

  /** The number of streams the peer may still open. */
  function Remaining(st: State): int {
    if st.max < st.toOpen then 0 else (st.max - st.toOpen) / 4 + 1
  }

  /** The highest stream that could be allowed. */
  function Target(st: State): int {
    st.toOpen + 4 * (st.limit - |st.streams| - 1)
  }

  /** Every stream that was opened is in the map or gone, and it stays in the map until it was accepted. */
  ghost predicate IdsOk(st: State) {
    && 0 <= st.h.first < 4 && IsId(st.h.first, st.toAccept) && IsId(st.h.first, st.toOpen) && st.toAccept <= st.toOpen
    && (forall id :: id in st.streams ==> IsId(st.h.first, id) && id < st.toOpen)
    && (forall id :: id in st.streams && st.streams[id] ==> id >= st.toAccept)
    && (forall id :: IsId(st.h.first, id) && id < st.toOpen ==> id in st.streams || id in st.h.gone)
    && (forall id :: id in st.h.gone ==> id !in st.streams && IsId(st.h.first, id) && id < st.toAccept)
  }

  ghost predicate AcceptedOk(st: State) {
    && st.toAccept == st.h.first + 4 * |st.h.accepted|
    && forall k :: 0 <= k < |st.h.accepted| ==> st.h.accepted[k] == st.h.first + 4 * k
  }

  /** The limit is all used, until stream IDs run out. */
  ghost predicate LimitOk(st: State) {
    && 0 <= st.limit <= MaxStreamCount && st.max <= MaxStreamID && |st.streams| <= st.limit
    && (if st.limit == 0 then st.max == -1 && st.toOpen == st.h.first
        else if Target(st) <= MaxStreamID then st.max == Target(st)
        else IsId(st.h.first, st.max) && st.max > MaxStreamID - 4 && st.toOpen <= st.max + 4)
  }

  /** Each MAX_STREAMS frame raises the limit by one. */
  ghost predicate FramesOk(st: State) {
    && (forall i :: 0 <= i < |st.frames| ==> st.frames[i] == st.limit + 1 + i)
    && (st.limit > 0 ==> st.max == st.h.first + 4 * (st.limit + |st.frames| - 1))
  }

  /** A single acceptor does not miss a stream. */
  ghost predicate WakeOk(st: State) {
    st.h.solo ==>
      && (forall a, b :: a in st.h.acceptors && b in st.h.acceptors ==> a == b)
      && (forall a :: a in st.h.acceptors && st.h.acceptors[a] == Waiting && !st.closed && st.toAccept in st.streams ==>
          st.token)
  }

  ghost predicate Inv(st: State) {
    IdsOk(st) && AcceptedOk(st) && LimitOk(st) && FramesOk(st) && WakeOk(st)
  }

  lemma InitInv(first: int, limit: int)
    requires 0 <= first < 4 && 0 <= limit <= MaxStreamCount
    ensures Inv(Init(first, limit))
  {
  }

  /** Open streams, and streams that may still be opened, are at most the limit, with equality until IDs run out. */
  lemma WithinLimit(st: State)
    requires Inv(st)
    ensures |st.streams| + Remaining(st) <= st.limit
    ensures Target(st) <= MaxStreamID ==> |st.streams| + Remaining(st) == st.limit
  {
  }

  // ----------------------------------------------------------- transitions

  function OpenOne(st: State): State {
    st.(streams := st.streams[st.toOpen := false], toOpen := st.toOpen + 4, token := true)
  }

  /** Opens all streams up to id. */
  function OpenTo(st: State, id: int): State
    decreases id - st.toOpen
  {
    if id < st.toOpen then st else OpenTo(OpenOne(st), id)
  }

  lemma OpenToStep(st: State, id: int)
    requires st.toOpen <= id
    ensures OpenTo(st, id) == OpenTo(OpenOne(st), id)
  {
  }

  lemma NewKey(m: map<int, bool>, k: int, v: bool)
    requires k !in m
    ensures |m[k := v]| == |m| + 1
  {
    assert m[k := v].Keys == m.Keys + {k};
  }

  /** IDs are four apart. */
  lemma Apart(first: int, a: int, b: int)
    requires IsId(first, a) && IsId(first, b)
    ensures IsId(first, a + 4) && (a < b ==> a + 4 <= b)
  {
  }

  lemma OpenOneIds(st: State)
    requires IdsOk(st)
    ensures IdsOk(OpenOne(st)) && st.toOpen !in st.streams
  {
    hide IsId;
    Apart(st.h.first, st.toOpen, st.toOpen);
    forall id | IsId(st.h.first, id) && id < st.toOpen + 4 ensures id <= st.toOpen {
      Apart(st.h.first, st.toOpen, id);
    }
  }

  lemma OpenOneLimit(st: State)
    requires LimitOk(st) && 0 <= st.h.first <= st.toOpen <= st.max && st.toOpen !in st.streams
    ensures LimitOk(OpenOne(st))
  {
    hide IsId;
    NewKey(st.streams, st.toOpen, false);
  }

  lemma OpenOneInv(st: State)
    requires Inv(st) && st.toOpen <= st.max
    ensures Inv(OpenOne(st))
  {
    OpenOneIds(st);
    OpenOneLimit(st);
    hide IdsOk, LimitOk;
  }

  /** Opens streams up to id, and changes nothing else. */
  ghost predicate Opened(st: State, id: int, st': State) {
    && st'.max == st.max && st'.toAccept == st.toAccept && st'.h == st.h
    && (forall s :: IsId(st.h.first, s) && st.toOpen <= s <= id ==> s in st'.streams && !st'.streams[s])
    && (forall s :: s in st.streams ==> s in st'.streams && st'.streams[s] == st.streams[s])
  }

  lemma OpenedOne(st: State, id: int, st': State)
    requires Inv(st) && IsId(st.h.first, id) && st.toOpen <= id && Opened(OpenOne(st), id, st')
    ensures Opened(st, id, st')
  {
    hide IsId;
    assert st.toOpen !in st.streams;
    forall s | IsId(st.h.first, s) && st.toOpen <= s <= id ensures s in st'.streams && !st'.streams[s] {
      Apart(st.h.first, st.toOpen, s);
      if s == st.toOpen {
        assert s in OpenOne(st).streams;
      }
    }
  }

  lemma {:induction false} OpenToInv(st: State, id: int)
    requires Inv(st) && id <= st.max && IsId(st.h.first, id)
    ensures var st' := OpenTo(st, id); Inv(st') && st'.toOpen == Max(st.toOpen, id + 4) && Opened(st, id, st')
    decreases id - st.toOpen
  {
    NextOpen(st, id);
    hide Inv, IsId;
    if id >= st.toOpen {
      OpenOneInv(st);
      OpenToInv(OpenOne(st), id);
      hide Opened;
      OpenedOne(st, id, OpenTo(st, id));
    }
  }

  lemma NextOpen(st: State, id: int)
    requires Inv(st) && IsId(st.h.first, id)
    ensures st.toOpen > id ==> st.toOpen >= id + 4
  {
    Apart(st.h.first, id, st.toOpen);
  }

  /** StreamID.StreamNum */
  function StreamNum(id: int): int { id / 4 + 1 }

  /** The end of deleteStream: the peer may open another stream, if there is an ID for it. */
  function RemoveNow(st: State, id: int): State {
    var st' := st.(streams := st.streams - {id}, h := st.h.(gone := st.h.gone + {id}));
    if st.limit > |st'.streams| && Target(st') <= MaxStreamID
    then st'.(max := Target(st'), frames := st.frames + [StreamNum(Target(st'))])
    else st'
  }

  lemma RemoveKey(m: map<int, bool>, id: int)
    requires id in m
    ensures |m - {id}| == |m| - 1 && |m[id := false]| == |m|
  {
    assert m.Keys == (m - {id}).Keys + {id};
    assert m[id := false].Keys == m.Keys;
  }

  lemma RemoveIds(st: State, id: int)
    requires IdsOk(st.(streams := st.streams[id := false])) && id in st.streams && id < st.toAccept
    ensures IdsOk(RemoveNow(st, id))
  {
    hide IsId;
    var before := st.streams[id := false];
    assert forall s :: s in before <==> s in st.streams;
    assert forall s :: s in st.streams && s != id ==> before[s] == st.streams[s];
  }

  lemma RemoveLimit(st: State, id: int)
    requires LimitOk(st.(streams := st.streams[id := false])) && FramesOk(st) && id in st.streams
    requires 0 <= st.h.first < 4 && IsId(st.h.first, st.toOpen)
    ensures LimitOk(RemoveNow(st, id)) && FramesOk(RemoveNow(st, id)) && RemoveNow(st, id).max >= st.max
  {
    RemoveKey(st.streams, id);
    var st' := RemoveNow(st, id);
    var n := |st.streams|;
    assert Target(st.(streams := st.streams - {id})) == st.toOpen + 4 * (st.limit - n);
    hide IsId;
  }

  lemma RemoveNowInv(st: State, id: int)
    requires Inv(st.(streams := st.streams[id := false])) && id in st.streams && id < st.toAccept
    ensures Inv(RemoveNow(st, id)) && RemoveNow(st, id).max >= st.max
  {
    hide IdsOk, AcceptedOk, LimitOk, FramesOk, WakeOk, RemoveNow, IsId;
    RemoveFacts(st, id);
    RemoveIds(st, id);
    RemoveLimit(st, id);
    RemoveRest(st, id);
  }

  lemma RemoveFacts(st: State, id: int)
    requires var before := st.(streams := st.streams[id := false]); IdsOk(before) && FramesOk(before)
    ensures FramesOk(st) && 0 <= st.h.first < 4 && IsId(st.h.first, st.toOpen)
  {
    hide IsId;
  }

  /** What does not depend on the streams that were accepted. */
  lemma RemoveRest(st: State, id: int)
    requires var before := st.(streams := st.streams[id := false]); AcceptedOk(before) && WakeOk(before)
    requires id in st.streams && id < st.toAccept
    ensures AcceptedOk(RemoveNow(st, id)) && WakeOk(RemoveNow(st, id))
  {
    hide StreamNum, Target;
  }

  datatype DeleteResult = Deleted | Unknown | Twice

  datatype Deletion = Deletion(st: State, result: DeleteResult)

  /** deleteStream */
  function Delete(st: State, id: int): Deletion {
    if id !in st.streams then Deletion(st, Unknown)
    else if id >= st.toAccept then
      if st.streams[id] then Deletion(st, Twice) else Deletion(st.(streams := st.streams[id := true]), Deleted)
    else Deletion(RemoveNow(st, id), Deleted)
  }

  lemma DeleteInv(st: State, id: int)
    requires Inv(st)
    ensures Inv(Delete(st, id).st) && Delete(st, id).st.max >= st.max
  {
    if id in st.streams {
      if id < st.toAccept {
        assert st.streams[id := false] == st.streams;
        RemoveNowInv(st, id);
      } else {
        assert st.streams[id := true].Keys == st.streams.Keys && |st.streams[id := true]| == |st.streams|;
      }
    }
  }

  /** AcceptStream takes the next stream. */
  function Take(st: State): State {
    st.(toAccept := st.toAccept + 4, h := st.h.(accepted := st.h.accepted + [st.toAccept]))
  }

  function Accept(st: State): State
    requires st.toAccept in st.streams
  {
    if st.streams[st.toAccept] then RemoveNow(Take(st), st.toAccept) else Take(st)
  }

  lemma TakeIds(st: State)
    requires IdsOk(st) && st.toAccept in st.streams
    ensures IdsOk(Take(st).(streams := st.streams[st.toAccept := false]))
  {
    hide IsId;
    Apart(st.h.first, st.toAccept, st.toOpen);
    forall id | id in st.streams && id > st.toAccept ensures id >= st.toAccept + 4 {
      Apart(st.h.first, st.toAccept, id);
    }
  }

  /** Taking a stream wakes nobody up, so nobody may be waiting. */
  lemma TakeInv(st: State)
    requires Inv(st) && st.toAccept in st.streams
    requires st.h.solo ==> forall a :: a in st.h.acceptors ==> st.h.acceptors[a] != Waiting
    ensures Inv(Take(st).(streams := st.streams[st.toAccept := false]))
  {
    TakeIds(st);
    RemoveKey(st.streams, st.toAccept);
    hide IsId, IdsOk;
  }

  lemma AcceptInv(st: State)
    requires Inv(st) && st.toAccept in st.streams
    requires st.h.solo ==> forall a :: a in st.h.acceptors ==> st.h.acceptors[a] != Waiting
    ensures Inv(Accept(st)) && Accept(st).max >= st.max
  {
    TakeInv(st);
    if st.streams[st.toAccept] {
      RemoveNowInv(Take(st), st.toAccept);
    } else {
      assert st.streams[st.toAccept := false] == st.streams;
    }
  }

  // ---------------------------------------------------------- AcceptStream

  function Put(st: State, a: int, p: Phase): State {
    st.(h := st.h.(acceptors := st.h.acceptors[a := p]))
  }

  function Return(st: State, a: int): State {
    st.(h := st.h.(acceptors := st.h.acceptors - {a}))
  }

  /** AcceptStream starts by draining the channel. */
  function Start(st: State, a: int): State {
    Put(st, a, Starting).(token := false,
                          h := st.h.(acceptors := st.h.acceptors[a := Starting],
                                     solo := st.h.solo && st.h.acceptors == map[]))
  }

  datatype AcceptResult = Closed | Accepted(id: int) | Wait

  datatype Attempt = Attempt(st: State, result: AcceptResult)

  /** AcceptStream looks for the next stream, with the mutex held. */
  function Try(st: State, a: int): Attempt {
    if st.closed then Attempt(Return(st, a), Closed)
    else if st.toAccept in st.streams then Attempt(Accept(Return(st, a)), Accepted(st.toAccept))
    else Attempt(Put(st, a, Waiting), Wait)
  }

  function Receive(st: State, a: int): State {
    Put(st, a, Woken).(token := false)
  }

  function CloseWithError(st: State): State {
    st.(closed := true)
  }

  lemma StartInv(st: State, a: int)
    requires Inv(st) && a !in st.h.acceptors
    ensures Inv(Start(st, a))
  {
    hide IsId;
  }

  lemma ReturnInv(st: State, a: int)
    requires Inv(st)
    ensures Inv(Return(st, a))
  {
    hide IsId;
  }

  lemma WaitInv(st: State, a: int)
    requires Inv(st) && a in st.h.acceptors && st.toAccept !in st.streams
    ensures Inv(Put(st, a, Waiting))
  {
    hide IsId;
  }

  lemma TryInv(st: State, a: int)
    requires Inv(st) && a in st.h.acceptors && st.h.acceptors[a] != Waiting
    ensures Inv(Try(st, a).st)
  {
    ReturnInv(st, a);
    hide IsId, IdsOk, LimitOk, FramesOk, AcceptedOk;
    if st.closed {
    } else if st.toAccept in st.streams {
      AcceptInv(Return(st, a));
    } else {
      WaitInv(st, a);
    }
  }

  lemma ReceiveInv(st: State, a: int)
    requires Inv(st) && a in st.h.acceptors && st.h.acceptors[a] == Waiting
    ensures Inv(Receive(st, a))
  {
    hide IsId;
  }

  lemma CloseInv(st: State)
    requires Inv(st)
    ensures Inv(CloseWithError(st))
  {
    hide IsId;
  }

  /** The next stream to accept is there exactly if the peer has opened it. */
  lemma NextIsThere(st: State)
    requires Inv(st)
    ensures st.toAccept in st.streams <==> st.toAccept < st.toOpen
  {
  }

  // ------------------------------------------------------------------ runs

  datatype Event =
    | Begin(a: int)
    | Attempts(a: int)
    | Receives(a: int)
    | Quits(a: int)
    | Open(id: int)
    | Deletes(id: int)
    | Closes

  ghost predicate Enabled(st: State, e: Event) {
    match e
    case Begin(a) => a !in st.h.acceptors
    case Attempts(a) => a in st.h.acceptors && st.h.acceptors[a] != Waiting
    case Receives(a) => a in st.h.acceptors && st.h.acceptors[a] == Waiting && (st.token || st.closed)
    case Quits(a) => a in st.h.acceptors && st.h.acceptors[a] == Waiting
    case Open(id) => IsId(st.h.first, id) && id <= st.max
    case _ => true
  }

  function Step(st: State, e: Event): State {
    match e
    case Begin(a) => Start(st, a)
    case Attempts(a) => Try(st, a).st
    case Receives(a) => Receive(st, a)
    case Quits(a) => Return(st, a)
    case Open(id) => OpenTo(st, id)
    case Deletes(id) => Delete(st, id).st
    case Closes => CloseWithError(st)
  }

  ghost predicate Runs(st: State, events: seq<Event>, st': State)
    decreases |events|
  {
    if events == [] then st == st' else Enabled(st, events[0]) && Runs(Step(st, events[0]), events[1..], st')
  }

  lemma StepInv(st: State, e: Event)
    requires Inv(st) && Enabled(st, e)
    ensures Inv(Step(st, e)) && Step(st, e).limit == st.limit && Step(st, e).h.first == st.h.first
            && Step(st, e).max >= st.max
  {
    hide Inv, Try, OpenTo, Delete, Opened;
    match e
    case Begin(a) => StartInv(st, a);
    case Attempts(a) =>
      TryInv(st, a);
      TryFields(st, a);
      TryLimits(st, a);
    case Receives(a) => ReceiveInv(st, a);
    case Quits(a) => ReturnInv(st, a);
    case Open(id) =>
      OpenToInv(st, id);
      OpenToLimits(st, id);
    case Deletes(id) =>
      DeleteInv(st, id);
      DeleteFields(st, id);
    case Closes => CloseInv(st);
  }

  lemma TryFields(st: State, a: int)
    ensures a in st.h.acceptors ==> Try(st, a).st.limit == st.limit && Try(st, a).st.h.first == st.h.first
  {
  }

  lemma DeleteFields(st: State, id: int)
    ensures Delete(st, id).st.limit == st.limit && Delete(st, id).st.h.first == st.h.first
  {
  }

  lemma TryLimits(st: State, a: int)
    requires Inv(st) && a in st.h.acceptors && st.h.acceptors[a] != Waiting
    ensures Try(st, a).st.max >= st.max
  {
    ReturnInv(st, a);
    if !st.closed && st.toAccept in st.streams {
      AcceptInv(Return(st, a));
    }
    hide Inv;
  }

  lemma {:induction false} OpenToLimits(st: State, id: int)
    ensures var st' := OpenTo(st, id); st'.limit == st.limit && st'.h == st.h && st'.max == st.max
    decreases id - st.toOpen
  {
    if id >= st.toOpen {
      OpenToLimits(OpenOne(st), id);
    }
  }

  lemma {:induction false} RunInv(st: State, events: seq<Event>, st': State)
    requires Inv(st) && Runs(st, events, st')
    ensures Inv(st') && st'.limit == st.limit && st'.h.first == st.h.first && st'.max >= st.max
    decreases |events|
  {
    hide Inv, Step, Enabled;
    if events != [] {
      StepInv(st, events[0]);
      RunInv(Step(st, events[0]), events[1..], st');
    }
  }

  lemma ReachedInv(first: int, limit: int, events: seq<Event>, st: State)
    requires 0 <= first < 4 && 0 <= limit <= MaxStreamCount && Runs(Init(first, limit), events, st)
    ensures Inv(st) && st.limit == limit && st.h.first == first
  {
    InitInv(first, limit);
    hide Inv, Runs;
    RunInv(Init(first, limit), events, st);
  }

  /**
   In every run, the streams in the map and those the peer may still open are together at most the
   limit, and exactly the limit until stream IDs run out. Every MAX_STREAMS frame raises the limit
   by one.
   */
  lemma StreamLimit(first: int, limit: int, events: seq<Event>, st: State)
    requires 0 <= first < 4 && 0 <= limit <= MaxStreamCount && Runs(Init(first, limit), events, st)
    ensures |st.streams| + Remaining(st) <= limit
    ensures Target(st) <= MaxStreamID ==> |st.streams| + Remaining(st) == limit
    ensures forall i :: 0 <= i < |st.frames| ==> st.frames[i] == limit + 1 + i
    ensures limit > 0 ==> StreamNum(st.max) == limit + |st.frames|
  {
    hide Runs;
    ReachedInv(first, limit, events, st);
    WithinLimit(st);
  }

  /**
   In every run, AcceptStream returns every stream exactly once, in the order of their IDs, whether or not
   it was completed.
   */
  lemma AcceptedInOrder(first: int, limit: int, events: seq<Event>, st: State)
    requires 0 <= first < 4 && 0 <= limit <= MaxStreamCount && Runs(Init(first, limit), events, st)
    ensures forall k :: 0 <= k < |st.h.accepted| ==> st.h.accepted[k] == first + 4 * k
    ensures st.toAccept == first + 4 * |st.h.accepted| <= st.toOpen
    ensures forall id :: IsId(first, id) && st.toAccept <= id < st.toOpen ==> id in st.streams
  {
    hide Runs, IsId;
    ReachedInv(first, limit, events, st);
  }

  /** As long as there is one call of AcceptStream at a time, it never waits for a stream that is there. */
  lemma NotMissed(first: int, limit: int, events: seq<Event>, st: State, a: int)
    requires 0 <= first < 4 && 0 <= limit <= MaxStreamCount && Runs(Init(first, limit), events, st)
    requires st.h.solo && a in st.h.acceptors && st.h.acceptors[a] == Waiting && (st.closed || st.toAccept < st.toOpen)
    ensures Enabled(st, Receives(a))
    ensures Try(Receive(st, a), a).result == if st.closed then Closed else Accepted(st.toAccept)
  {
    hide Runs, IsId;
    ReachedInv(first, limit, events, st);
    NextIsThere(st);
  }

  /** Two calls of AcceptStream wait for a first stream. */
  function TwoWaiting(): State {
    Init(0, 2).(h := History(0, map[1 := Waiting, 2 := Waiting], false, [], {}))
  }

  lemma ReachTwoWaiting()
    ensures Runs(Init(0, 2), [Begin(1), Attempts(1), Begin(2), Attempts(2)], TwoWaiting())
  {
    var s1 := Step(Init(0, 2), Begin(1));
    var s2 := Step(s1, Attempts(1));
    var s3 := Step(s2, Begin(2));
    assert 1 in s2.h.acceptors;
    assert s3.h.acceptors[2 := Waiting] == map[1 := Waiting, 2 := Waiting];
    assert Step(s3, Attempts(2)) == TwoWaiting();
    hide Step;
    Chain(s3, [Attempts(2)], TwoWaiting());
    Chain(s2, [Begin(2), Attempts(2)], TwoWaiting());
    Chain(s1, [Attempts(1), Begin(2), Attempts(2)], TwoWaiting());
    Chain(Init(0, 2), [Begin(1), Attempts(1), Begin(2), Attempts(2)], TwoWaiting());
  }

  /** One of them takes a stream, and the other one still waits. */
  function OneLeft(): State {
    TwoWaiting().(streams := map[0 := false, 4 := false], toAccept := 4, toOpen := 8,
                  h := History(0, map[2 := Waiting], false, [0], {}))
  }

  lemma ReachOneLeft()
    ensures Runs(TwoWaiting(), [Open(4), Receives(1), Attempts(1)], OneLeft())
  {
    var s5 := Step(TwoWaiting(), Open(4));
    assert s5 == OpenOne(OpenOne(TwoWaiting()));
    assert s5.streams == map[0 := false, 4 := false];
    var s6 := Step(s5, Receives(1));
    assert s6.h.acceptors - {1} == map[2 := Waiting];
    assert Step(s6, Attempts(1)) == OneLeft();
    hide Step;
    Chain(s6, [Attempts(1)], OneLeft());
    Chain(s5, [Receives(1), Attempts(1)], OneLeft());
    Chain(TwoWaiting(), [Open(4), Receives(1), Attempts(1)], OneLeft());
  }

  /** They can miss a stream: two streams opened at once leave one value in the channel. */
  lemma TwoAcceptors()
    ensures Runs(Init(0, 2), [Begin(1), Attempts(1), Begin(2), Attempts(2)], TwoWaiting())
    ensures Runs(TwoWaiting(), [Open(4), Receives(1), Attempts(1)], OneLeft())
    ensures var st := OneLeft(); st.h.acceptors[2] == Waiting && st.toAccept in st.streams && !st.token && !st.closed
  {
    hide Runs;
    ReachTwoWaiting();
    ReachOneLeft();
  }

  lemma Chain(st: State, events: seq<Event>, st': State)
    requires events != [] && Enabled(st, events[0]) && Runs(Step(st, events[0]), events[1..], st')
    ensures Runs(st, events, st')
  {
  }
}
