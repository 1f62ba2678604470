/** What each call on the incoming streams does, and what becomes of the streams that are deleted. */
module IncomingProgress {
  import opened Common
  import opened IncomingModel

  // ------------------------------------------------------------ single calls

  /** Stream id is not in the map any more, and the others are. */
  ghost predicate Removed(st: State, id: int, st': State) {
    && st'.streams == st.streams - {id} && st'.h.gone == st.h.gone + {id}
    && st'.toOpen == st.toOpen && st'.limit == st.limit && st'.closed == st.closed && st'.token == st.token
  }

  /** The peer may open one more stream, and is told so, unless there is no ID for it. */
  ghost predicate OneMore(st: State, st': State) {
    if Target(st) + 4 <= MaxStreamID then
      && Remaining(st') == Remaining(st) + 1 && st'.max == st.max + 4
      && st'.frames == st.frames + [StreamNum(st.max) + 1]
    else
      st'.max == st.max && st'.frames == st.frames
  }

  /** The arithmetic of the limit. */
  lemma TargetMoves(st: State, id: int)
    requires LimitOk(st) && id in st.streams
    ensures var st' := st.(streams := st.streams - {id}, h := st.h.(gone := st.h.gone + {id}));
            Target(st') == Target(st) + 4 && st.limit > |st'.streams|
    ensures Target(st) + 4 <= MaxStreamID ==> st.max == Target(st)
  {
    RemoveKey(st.streams, id);
  }

  lemma RemoveExact(st: State, id: int)
    requires LimitOk(st) && id in st.streams && IsId(st.h.first, st.toOpen) && 0 <= st.h.first < 4
    ensures Removed(st, id, RemoveNow(st, id)) && OneMore(st, RemoveNow(st, id))
    ensures RemoveNow(st, id).toAccept == st.toAccept
  {
    TargetMoves(st, id);
    hide LimitOk;
  }

  /**
   Deleting a stream that was accepted removes it and lets the peer open another one. One that was not
   accepted is only marked. A stream that is not in the map, or is marked already, is not deleted.
   */
  lemma DeleteExact(st: State, id: int)
    requires Inv(st)
    ensures var r, known := Delete(st, id), id in st.streams;
            && (r.result == Unknown <==> !known)
            && (r.result == Twice <==> known && id >= st.toAccept && st.streams[id])
            && (r.result != Deleted ==> r.st == st)
            && (r.result == Deleted && id >= st.toAccept ==> r.st == st.(streams := st.streams[id := true]))
            && (r.result == Deleted && id < st.toAccept ==>
                  Removed(st, id, r.st) && OneMore(st, r.st) && r.st.toAccept == st.toAccept)
  {
    if id in st.streams {
      RemoveExact(st, id);
    }
    hide Inv, RemoveNow, Removed, OneMore;
  }

  /** No stream was opened or removed. */
  ghost predicate SameMap(st: State, st': State) {
    && st'.streams == st.streams && st'.h.gone == st.h.gone && st'.toOpen == st.toOpen
    && st'.max == st.max && st'.frames == st.frames
  }

  /** AcceptStream returns the next stream exactly if the peer has opened it. If it is marked, it is removed now. */
  lemma AcceptExact(st: State, a: int)
    requires Inv(st) && a in st.h.acceptors && st.h.acceptors[a] != Waiting
    ensures var r, id := Try(st, a), st.toAccept;
            && (r.result == Closed <==> st.closed)
            && (r.result == Accepted(id) <==> !st.closed && id < st.toOpen)
            && (r.result == Wait <==> !st.closed && id >= st.toOpen)
            && (if r.result == Wait then r.st.h.acceptors == st.h.acceptors[a := Waiting]
                else r.st.h.acceptors == st.h.acceptors - {a})
            && (r.result == Accepted(id) ==>
                  && id in st.streams && r.st.toAccept == id + 4 && r.st.h.accepted == st.h.accepted + [id]
                  && (if st.streams[id] then Removed(st, id, r.st) && OneMore(st, r.st) else SameMap(st, r.st)))
            && (!r.result.Accepted? ==>
                  SameMap(st, r.st) && r.st.toAccept == id && r.st.h.accepted == st.h.accepted)
  {
    NextIsThere(st);
    var taken := Take(IncomingModel.Return(st, a));
    if st.toAccept in st.streams {
      RemoveExact(taken, st.toAccept);
      SameRoom(st, taken, RemoveNow(taken, st.toAccept));
    }
    hide Inv, RemoveNow, OneMore;
  }

  lemma SameRoom(st: State, st1: State, st': State)
    requires st1.streams == st.streams && st1.toOpen == st.toOpen && st1.limit == st.limit && st1.max == st.max
    requires st1.frames == st.frames && OneMore(st1, st')
    ensures OneMore(st, st')
  {
  }

  /** A frame for a stream that may be opened opens it and all before it, and wakes an acceptor up. */
  lemma OpenExact(st: State, id: int)
    requires Inv(st) && IsId(st.h.first, id) && st.toOpen <= id <= st.max
    ensures var st' := OpenTo(st, id);
            && st'.token && st'.toOpen == id + 4 && st'.frames == st.frames && st'.closed == st.closed
            && st'.toAccept == st.toAccept && st'.h == st.h
            && (forall s :: s in st'.streams <==> s in st.streams || (IsId(st.h.first, s) && st.toOpen <= s <= id))
            && (forall s :: s in st'.streams ==> (st'.streams[s] <==> s in st.streams && st.streams[s]))
  {
    OpenToInv(st, id);
    OpenToRest(st, id);
    OpenToFrom(st, id);
    hide Inv, OpenTo, IsId;
  }

  lemma {:induction false} OpenToRest(st: State, id: int)
    ensures var st' := OpenTo(st, id);
            && (id >= st.toOpen ==> st'.token) && st'.frames == st.frames && st'.closed == st.closed
            && (id < st.toOpen ==> st'.token == st.token)
    decreases id - st.toOpen
  {
    if id >= st.toOpen {
      OpenToRest(OpenOne(st), id);
    }
  }

  lemma {:induction false} OpenToFrom(st: State, id: int)
    requires Inv(st) && IsId(st.h.first, id) && id <= st.max
    ensures forall s :: s in OpenTo(st, id).streams && s !in st.streams ==> IsId(st.h.first, s) && st.toOpen <= s <= id
    decreases id - st.toOpen
  {
    if id >= st.toOpen {
      OpenOneInv(st);
      Apart(st.h.first, st.toOpen, id);
      assert OpenOne(st).h == st.h && OpenOne(st).max == st.max;
      assert IsId(st.h.first, st.toOpen);
      hide Inv, IsId;
      OpenToFrom(OpenOne(st), id);
    }
  }

  /** After CloseWithError, whoever waits can proceed, and AcceptStream returns the error. */
  lemma CloseCloses(st: State, a: int)
    ensures var st' := CloseWithError(st);
            && st'.closed && SameMap(st, st') && st'.toAccept == st.toAccept && st'.h == st.h
            && (a in st.h.acceptors && st.h.acceptors[a] == Waiting ==> Enabled(st', Receives(a)))
            && Try(st', a).result == Closed && Try(Receive(st', a), a).result == Closed
  {
  }

  /** A call that waits takes the value out of the channel; a new one drains it. */
  lemma TokenTaken(st: State, a: int)
    ensures var st' := Receive(st, a);
            !st'.token && st'.h.acceptors == st.h.acceptors[a := Woken] && SameMap(st, st')
            && st'.toAccept == st.toAccept
    ensures var st' := Start(st, a);
            !st'.token && st'.h.acceptors == st.h.acceptors[a := Starting] && SameMap(st, st')
            && st'.toAccept == st.toAccept && (st'.h.solo <==> st.h.solo && st.h.acceptors == map[])
  {
  }

  // --------------------------------------------------------- deleted streams

  /** The stream that a step deletes. */
  function DeletedBy(st: State, e: Event): set<int> {
    if e.Deletes? && Delete(st, e.id).result == Deleted then {e.id} else {}
  }

  /** The streams for which DeleteStream succeeded in a run. */
  function DeletedIn(st: State, events: seq<Event>): set<int>
    decreases |events|
  {
    if events == [] then {} else DeletedBy(st, events[0]) + DeletedIn(Step(st, events[0]), events[1..])
  }

  /** Of the streams deleted, those that were accepted are gone, and the others are marked. */
  ghost predicate Tracks(st: State, deleted: set<int>) {
    && (forall id :: id in st.h.gone <==> id in deleted && id < st.toAccept)
    && (forall id :: id in st.streams ==> (st.streams[id] <==> id in deleted))
    && (forall id :: id in deleted ==> IsId(st.h.first, id) && id < st.toOpen)
  }

  /** Every stream that was opened is counted once. */
  ghost predicate CountOk(st: State) {
    st.toOpen == st.h.first + 4 * (|st.streams| + |st.h.gone|)
  }

  lemma RemovedCount(st: State, id: int, st': State)
    requires CountOk(st) && id in st.streams && id !in st.h.gone && Removed(st, id, st') && st'.h.first == st.h.first
    ensures CountOk(st')
  {
    RemoveKey(st.streams, id);
  }

  lemma MarkedCount(st: State, id: int)
    requires CountOk(st) && id in st.streams
    ensures CountOk(st.(streams := st.streams[id := true]))
  {
    assert st.streams[id := true].Keys == st.streams.Keys;
    assert |st.streams[id := true]| == |st.streams|;
  }

  /** A stream in the map is not gone, and is not marked if it was accepted. */
  lemma InMap(st: State, id: int)
    requires Inv(st) && id in st.streams
    ensures id !in st.h.gone && IsId(st.h.first, id) && id < st.toOpen && (id < st.toAccept ==> !st.streams[id])
  {
  }

  /** A marked stream is accepted, or one that was accepted is deleted. */
  lemma RemovedTracks(st: State, id: int, st': State, deleted: set<int>)
    requires Tracks(st, deleted) && CountOk(st) && Removed(st, id, st') && st'.h.first == st.h.first
    requires id in st.streams && id !in st.h.gone && st.toAccept <= st'.toAccept && id < st'.toAccept
    requires IsId(st.h.first, id) && id < st.toOpen
    requires forall s :: s in st.streams && st.toAccept <= s < st'.toAccept ==> s == id
    requires forall s :: s in deleted && st.toAccept <= s < st'.toAccept ==> s in st.streams
    ensures Tracks(st', deleted + {id}) && CountOk(st')
  {
    RemovedCount(st, id, st');
    hide CountOk, IsId;
  }

  /** A stream that is not marked is accepted. */
  lemma TakenTracks(st: State, st': State, deleted: set<int>)
    requires Tracks(st, deleted) && CountOk(st) && SameMap(st, st') && st'.h.first == st.h.first
    requires st.toAccept <= st'.toAccept
    requires forall s :: s in deleted && st.toAccept <= s < st'.toAccept ==> s in st.streams
    requires forall s :: s in st.streams && st.toAccept <= s < st'.toAccept ==> !st.streams[s]
    ensures Tracks(st', deleted) && CountOk(st')
  {
  }

  lemma MarkedTracks(st: State, id: int, deleted: set<int>)
    requires Tracks(st, deleted) && CountOk(st) && id in st.streams && id >= st.toAccept
    requires IsId(st.h.first, id) && id < st.toOpen
    ensures var st' := st.(streams := st.streams[id := true]); Tracks(st', deleted + {id}) && CountOk(st')
  {
    MarkedCount(st, id);
    hide CountOk, IsId;
  }

  lemma DeleteTracks(st: State, id: int, deleted: set<int>)
    requires Inv(st) && Tracks(st, deleted) && CountOk(st)
    ensures Tracks(Delete(st, id).st, deleted + DeletedBy(st, Deletes(id))) && CountOk(Delete(st, id).st)
  {
    DeleteExact(st, id);
    DeleteFields(st, id);
    var r := Delete(st, id);
    if r.result == Deleted {
      InMap(st, id);
      hide Inv, Delete, OneMore, Tracks, CountOk, Removed, IsId;
      if id < st.toAccept {
        RemovedTracks(st, id, r.st, deleted);
      } else {
        MarkedTracks(st, id, deleted);
      }
    } else {
      assert deleted + {} == deleted;
    }
  }

  /** What was deleted and not accepted is in the map. */
  lemma DeletedThere(st: State, deleted: set<int>)
    requires Inv(st) && Tracks(st, deleted)
    ensures forall s :: s in deleted && st.toAccept <= s ==> s in st.streams
  {
  }

  lemma NextMarked(st: State, deleted: set<int>)
    requires Tracks(st, deleted) && st.toAccept in st.streams && st.streams[st.toAccept]
    ensures deleted + {st.toAccept} == deleted
  {
    hide IsId;
  }

  /** Only the next stream, if it was opened, is between the one to be accepted and the one after it. */
  lemma NextUnmarked(st: State)
    requires Inv(st) && (st.toAccept in st.streams ==> !st.streams[st.toAccept])
    ensures forall s :: s in st.streams && st.toAccept <= s < st.toAccept + 4 ==> !st.streams[s]
  {
    NextOnly(st);
  }

  lemma AcceptTracks(st: State, a: int, deleted: set<int>)
    requires Inv(st) && a in st.h.acceptors && st.h.acceptors[a] != Waiting && Tracks(st, deleted) && CountOk(st)
    ensures Tracks(Try(st, a).st, deleted) && CountOk(Try(st, a).st)
  {
    hide Inv, Try, OneMore, Tracks, CountOk, Removed, SameMap, IsId;
    AcceptExact(st, a);
    TryFields(st, a);
    DeletedThere(st, deleted);
    var r, id := Try(st, a), st.toAccept;
    if r.result == Accepted(id) && st.streams[id] {
      NextOnly(st);
      InMap(st, id);
      NextMarked(st, deleted);
      RemovedTracks(st, id, r.st, deleted);
    } else {
      if r.result == Accepted(id) {
        NextUnmarked(st);
      }
      TakenTracks(st, r.st, deleted);
    }
  }

  /** The next ID after the one to be accepted is four more. */
  lemma NextOnly(st: State)
    requires Inv(st)
    ensures forall id :: id in st.streams && id < st.toAccept + 4 ==> id <= st.toAccept
    ensures forall id :: id in st.h.gone ==> id < st.toAccept
  {
    forall id | id in st.streams && id < st.toAccept + 4 ensures id <= st.toAccept {
      Apart(st.h.first, st.toAccept, id);
    }
  }

  lemma {:induction false} OpenTracks(st: State, id: int, deleted: set<int>)
    requires Inv(st) && IsId(st.h.first, id) && id <= st.max && Tracks(st, deleted) && CountOk(st)
    ensures Tracks(OpenTo(st, id), deleted) && CountOk(OpenTo(st, id))
    decreases id - st.toOpen
  {
    hide IsId;
    if id >= st.toOpen {
      OpenOneInv(st);
      assert st.toOpen !in st.streams;
      NewKey(st.streams, st.toOpen, false);
      hide Inv;
      OpenTracks(OpenOne(st), id, deleted);
    }
  }

  lemma StepTracks(st: State, e: Event, deleted: set<int>)
    requires Inv(st) && Enabled(st, e) && Tracks(st, deleted) && CountOk(st)
    ensures Tracks(Step(st, e), deleted + DeletedBy(st, e)) && CountOk(Step(st, e))
  {
    hide Inv, Try, OpenTo, Delete, Tracks, CountOk, IsId;
    assert deleted + {} == deleted;
    match e
    case Attempts(a) => AcceptTracks(st, a, deleted);
    case Open(id) => OpenTracks(st, id, deleted);
    case Deletes(id) => DeleteTracks(st, id, deleted);
    case _ => TakenTracks(st, Step(st, e), deleted);
  }

  lemma {:induction false} RunTracks(st: State, events: seq<Event>, st': State, deleted: set<int>)
    requires Inv(st) && Runs(st, events, st') && Tracks(st, deleted) && CountOk(st)
    ensures Tracks(st', deleted + DeletedIn(st, events)) && CountOk(st')
    decreases |events|
  {
    hide Inv, Step, Enabled, Tracks, CountOk, DeletedBy;
    if events == [] {
      assert deleted + {} == deleted;
    } else {
      var e := events[0];
      StepInv(st, e);
      StepTracks(st, e, deleted);
      RunTracks(Step(st, e), events[1..], st', deleted + DeletedBy(st, e));
      assert deleted + (DeletedBy(st, e) + DeletedIn(Step(st, e), events[1..])) ==
             (deleted + DeletedBy(st, e)) + DeletedIn(Step(st, e), events[1..]);
    }
  }

  /**
   In every run: a stream that was opened is in the map until it was both accepted and deleted, in
   whichever order, and then it is not. A MAX_STREAMS frame was sent for each stream that left the
   map, until stream IDs run out.
   */
  lemma GoneExactly(first: int, limit: int, events: seq<Event>, st: State, id: int)
    requires 0 <= first < 4 && 0 < limit <= MaxStreamCount && Runs(Init(first, limit), events, st)
    requires IsId(first, id) && id < st.toOpen
    ensures var deleted := DeletedIn(Init(first, limit), events);
            && (id in st.h.gone <==> id in deleted && id < st.toAccept)
            && (id in st.streams <==> !(id in deleted && id < st.toAccept))
            && (id in st.streams ==> (st.streams[id] <==> id in deleted))
    ensures |st.frames| <= |st.h.gone| && (|st.frames| == |st.h.gone| <==> Target(st) <= MaxStreamID)
  {
    hide Runs, DeletedIn, IsId;
    InitInv(first, limit);
    RunTracks(Init(first, limit), events, st, {});
    ReachedInv(first, limit, events, st);
    assert {} + DeletedIn(Init(first, limit), events) == DeletedIn(Init(first, limit), events);
    FramesCount(st);
  }

  lemma FramesCount(st: State)
    requires Inv(st) && CountOk(st) && st.limit > 0
    ensures |st.frames| <= |st.h.gone| && (|st.frames| == |st.h.gone| <==> Target(st) <= MaxStreamID)
  {
    hide IdsOk, AcceptedOk, WakeOk;
    assert Target(st) == st.h.first + 4 * (st.limit + |st.h.gone| - 1);
  }
}
