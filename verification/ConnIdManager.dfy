/**
 connIDManager. RETIRE_CONNECTION_ID frames are appended to `controlFrames`; the calls that add and
 remove stateless reset tokens are history. The loops over paths visit them in any order. A method
 only needs the queue to be sorted; what else holds, and when, is a matter of the transitions.
 */
module ConnIdManager {
  import opened Common
  import opened ConnIdModel

  datatype AddResult = Added | ZeroLength | Conflict | LimitReached

  /** The first i entries were visited; the first k of them are dropped. */
  ghost predicate KeptUpTo(queue: seq<Entry>, k: int, i: int, kept: seq<Entry>, dropped: seq<int>)
    requires 0 <= k <= |queue| && 0 <= i <= |queue|
  {
    if i <= k then kept == [] && dropped == Nums(queue[..i]) else kept == queue[k..i] && dropped == Nums(queue[..k])
  }

  lemma KeepStep(queue: seq<Entry>, k: int, i: int, kept: seq<Entry>, dropped: seq<int>)
    requires 0 <= k <= |queue| && 0 <= i < |queue| && KeptUpTo(queue, k, i, kept, dropped)
    ensures i < k ==> KeptUpTo(queue, k, i + 1, kept, dropped + [queue[i].num])
    ensures i >= k ==> KeptUpTo(queue, k, i + 1, kept + [queue[i]], dropped)
  {
    if i < k {
      assert Nums(queue[..i + 1]) == Nums(queue[..i]) + [queue[i].num];
    }
  }

  lemma NoNums()
    ensures Nums([]) == []
  {
  }

  /** What is left of the paths, and what was retired of them, after those in done were visited. */
  lemma VisitPath(before: map<int, Entry>, r: int, done: set<int>, p: int)
    requires p in before && p !in done
    ensures var gone, gone' := PathsBelow(before, r, done), PathsBelow(before, r, done + {p});
            && (before[p].num >= r ==> gone' == gone)
            && (before[p].num < r ==> p !in gone && gone' == gone[p := before[p]] && gone' - {p} == gone)
            && (before[p].num < r ==> before - gone'.Keys == (before - gone.Keys) - {p})
            && p in before - gone.Keys
  {
  }

  lemma VisitBags(gone: map<int, Entry>, p: int, e: Entry)
    requires p !in gone
    ensures Bag(NumMap(gone[p := e])) == Bag(NumMap(gone)) + multiset{e.num}
    ensures Bag(TokenMap(gone[p := e])) == Bag(TokenMap(gone)) + multiset{e.token}
  {
    var gone' := gone[p := e];
    assert gone' - {p} == gone;
    OnePath(gone', p);
  }

  /** The state after the paths in done were visited. */
  ghost function RetireSome(st: State, r: int, done: set<int>): State {
    var gone := PathsBelow(st.probing, r, done);
    st.(probing := st.probing - gone.Keys, retired := st.retired + Bag(NumMap(gone)),
        live := st.live - Bag(TokenMap(gone)))
  }

  lemma VisitNext(st: State, r: int, done: set<int>, p: int)
    requires p in st.probing && p !in done
    ensures var st1 := RetireSome(st, r, done);
            && p in st1.probing
            && RetireSome(st, r, done + {p}) == if st1.probing[p].num < r then RetirePath(st1, p) else st1
  {
    hide Bag, NumMap, TokenMap, PathsBelow;
    var gone := PathsBelow(st.probing, r, done);
    VisitPath(st.probing, r, done, p);
    if st.probing[p].num < r {
      VisitBags(gone, p, st.probing[p]);
      Remaining(st.live, Bag(TokenMap(gone)), st.probing[p].token);
    }
  }

  lemma VisitNone(before: map<int, Entry>, r: int)
    ensures PathsBelow(before, r, {}) == map[] && before - PathsBelow(before, r, {}).Keys == before
    ensures Bag(NumMap(map[])) == multiset{} && Bag(TokenMap(map[])) == multiset{}
  {
    NoPaths(map[]);
  }

  class ConnIdManager {
    var queue: seq<Entry>
    var highestProbingID: int
    var pathProbing: map<int, Entry>
    var handshakeComplete: bool
    var activeSequenceNumber: int
    var highestRetired: int
    var activeConnectionID: ConnId
    var activeStatelessResetToken: Option<Token>
    var packetsSinceLastChange: int
    var packetsPerConnectionID: int
    var controlFrames: seq<int>
    var closed: bool
    ghost var received: set<int>
    ghost var live: multiset<Token>

    ghost function St(): State
      reads this
    {
      State(queue, highestProbingID, pathProbing, activeSequenceNumber, highestRetired, activeStatelessResetToken,
            closed, received, multiset(controlFrames), live)
    }

    ghost predicate Valid()
      reads this
    {
      Sorted(queue)
    }

    constructor (initialDestConnID: ConnId)
      ensures Valid() && St() == Init() && activeConnectionID == initialDestConnID
    {
      activeConnectionID := initialDestConnID;
      queue, highestProbingID, pathProbing, activeSequenceNumber, highestRetired := [], 0, map[], 0, 0;
      activeStatelessResetToken, closed, controlFrames, handshakeComplete := None, false, [], false;
      packetsSinceLastChange, packetsPerConnectionID := 0, 0;
      received, live := {0}, multiset{};
    }

    /** The paths in done were visited. */
    ghost predicate Visited(st: State, r: int, done: set<int>)
      reads this
    {
      St() == RetireSome(st, r, done)
    }

    /** The loop over pathProbing in add. */
    method RetirePaths(r: int)
      modifies this`pathProbing, this`controlFrames, this`live
      ensures St() == RetireBelow(old(St()), r)
    {
      hide Visited;
      ghost var st, done := St(), {};
      var paths := pathProbing.Keys;
      VisitedStart(st, r);
      while paths != {}
        invariant Visited(st, r, done) && paths <= st.probing.Keys && done == st.probing.Keys - paths
        decreases |paths|
      {
        var p := Pick(paths);
        VisitOne(st, r, done, p);
        paths := paths - {p};
        done := done + {p};
      }
      assert done == st.probing.Keys;
      VisitedAll(st, r, done);
    }

    lemma VisitedStart(st: State, r: int)
      requires St() == st
      ensures Visited(st, r, {})
    {
      VisitNone(st.probing, r);
    }

    lemma VisitedAll(st: State, r: int, done: set<int>)
      requires Visited(st, r, done) && done == st.probing.Keys
      ensures St() == RetireBelow(st, r)
    {
    }

    method VisitOne(ghost st: State, r: int, ghost done: set<int>, p: int)
      requires Visited(st, r, done) && p in st.probing && p !in done
      modifies this`pathProbing, this`controlFrames, this`live
      ensures Visited(st, r, done + {p})
    {
      hide RetireSome, RetirePath;
      VisitNext(st, r, done, p);
      if pathProbing[p].num < r {
        RetireOne(p);
      }
    }

    method RetireOne(p: int)
      requires p in pathProbing
      modifies this`pathProbing, this`controlFrames, this`live
      ensures St() == RetirePath(old(St()), p)
    {
      controlFrames := controlFrames + [pathProbing[p].num];
      live := live - multiset{pathProbing[p].token};
      pathProbing := pathProbing - {p};
    }

    /** The loop over the queue in add. */
    static method KeepFrom(queue: seq<Entry>, r: int) returns (newQueue: seq<Entry>, dropped: seq<int>)
      requires Sorted(queue)
      ensures newQueue == queue[Below(queue, r)..] && dropped == Nums(queue[..Below(queue, r)])
    {
      hide Below, Sorted, Nums;
      newQueue, dropped := [], [];
      Split(queue, r);
      ghost var k := Below(queue, r);
      NoNums();
      for i := 0 to |queue|
        invariant KeptUpTo(queue, k, i, newQueue, dropped)
      {
        KeepStep(queue, k, i, newQueue, dropped);
        hide KeptUpTo;
        if queue[i].num >= r {
          newQueue := newQueue + [queue[i]];
        } else {
          dropped := dropped + [queue[i].num];
        }
      }
    }

    method DropQueued(r: int)
      requires Valid()
      modifies this`queue, this`controlFrames, this`highestRetired
      ensures Valid() && St() == Drop(old(St()), r)
    {
      hide Below, Nums;
      Split(queue, r);
      var dropped: seq<int>;
      queue, dropped := KeepFrom(queue, r);
      controlFrames := controlFrames + dropped;
      highestRetired := r;
    }

    /**
     The fast and the slow path of addConnectionID. A number that is queued already must come with the
     same contents.
     */
    static method InsertEntry(queue: seq<Entry>, e: Entry) returns (newQueue: seq<Entry>, ok: bool)
      requires Sorted(queue)
      ensures var k := Below(queue, e.num);
              if k < |queue| && queue[k].num == e.num then newQueue == queue && ok == (queue[k] == e)
              else newQueue == queue[..k] + [e] + queue[k..] && ok
    {
      hide Below, Sorted;
      Split(queue, e.num);
      var k := Below(queue, e.num);
      if |queue| == 0 || queue[|queue| - 1].num < e.num {
        assert queue[..|queue|] + [e] + queue[|queue|..] == queue + [e];
        return queue + [e], true;
      }
      var i := 0;
      while queue[i].num < e.num
        invariant 0 <= i < |queue| && i <= k
        decreases |queue| - i
      {
        i := i + 1;
      }
      if queue[i].num == e.num {
        return queue, queue[i] == e;
      }
      return queue[..i] + [e] + queue[i..], true;
    }

    /** addConnectionID */
    method AddConnectionID(num: int, id: ConnId, token: Token) returns (ok: bool)
      requires Valid()
      modifies this`queue, this`received
      ensures Valid() && St() == Insert(old(St()), Entry(num, id, token))
      ensures InQueue(queue, num)
      ensures !ok <==> Conflicting(old(queue), Entry(num, id, token))
    {
      var e := Entry(num, id, token);
      InsertKeepsSorted(St(), e);
      ConflictAt(queue, e);
      hide Below, Sorted, InQueue, Conflicting;
      received := received + {num};
      queue, ok := InsertEntry(queue, e);
    }

    /** updateConnectionID */
    method UpdateConnectionID(rnd: int)
      requires Valid() && !closed && queue != [] && 0 <= rnd < PacketsPerConnectionID
      modifies this
      ensures Valid() && St() == Update(old(St()))
      ensures activeConnectionID == old(queue)[0].id && activeSequenceNumber == old(queue)[0].num
      ensures queue == old(queue)[1..] && controlFrames == old(controlFrames) + [old(activeSequenceNumber)]
      ensures handshakeComplete == old(handshakeComplete) && pathProbing == old(pathProbing)
      ensures packetsSinceLastChange == 0 && packetsPerConnectionID == PacketsPerConnectionID / 2 + rnd
    {
      hide Sorted;
      TailSorted(queue);
      RetireActive();
      TakeFront();
      RestartCount(rnd);
    }

    /** The front of the queue becomes active. */
    method TakeFront()
      requires queue != []
      modifies this`queue, this`activeSequenceNumber, this`activeConnectionID, this`activeStatelessResetToken, this`live
      ensures activeConnectionID == old(queue)[0].id && activeSequenceNumber == old(queue)[0].num
      ensures queue == old(queue)[1..]
      ensures var front := old(queue)[0];
              St() == old(St()).(queue := old(queue)[1..], active := front.num, activeToken := Some(front.token),
                                 live := old(live) + multiset{front.token})
    {
      Activate(queue[0]);
      queue := queue[1..];
    }

    method RestartCount(rnd: int)
      modifies this`packetsSinceLastChange, this`packetsPerConnectionID
      ensures St() == old(St())
      ensures packetsSinceLastChange == 0 && packetsPerConnectionID == PacketsPerConnectionID / 2 + rnd
    {
      packetsSinceLastChange, packetsPerConnectionID := 0, PacketsPerConnectionID / 2 + rnd;
    }

    method RetireActive()
      modifies this`controlFrames, this`highestRetired, this`live
      ensures St() == old(St()).(retired := old(St()).retired + multiset{activeSequenceNumber},
                                 highestRetired := Max(old(highestRetired), activeSequenceNumber),
                                 live := old(live) - ActiveBag(activeStatelessResetToken))
      ensures controlFrames == old(controlFrames) + [activeSequenceNumber]
    {
      controlFrames := controlFrames + [activeSequenceNumber];
      highestRetired := Max(highestRetired, activeSequenceNumber);
      live := live - ActiveBag(activeStatelessResetToken);
    }

    method Activate(front: Entry)
      modifies this`activeSequenceNumber, this`activeConnectionID, this`activeStatelessResetToken, this`live
      ensures St() == old(St()).(active := front.num, activeToken := Some(front.token),
                                 live := old(live) + multiset{front.token})
      ensures activeConnectionID == front.id
    {
      activeSequenceNumber := front.num;
      activeConnectionID := front.id;
      activeStatelessResetToken := Some(front.token);
      live := live + multiset{front.token};
    }

    /** The part of add that deals with Retire Prior To. */
    method Retire(r: int)
      requires Valid()
      modifies this`pathProbing, this`controlFrames, this`live, this`queue, this`highestRetired
      ensures Valid() && St() == RetirePrior(old(St()), r)
    {
      hide RetireBelow, Drop;
      RetireBelowFields(St(), r);
      if r != 0 {
        RetirePaths(r);
      }
      if r > highestRetired {
        DropQueued(r);
      }
    }

    /** add, for a frame that is not late. The queue is never empty when the active connection ID is replaced. */
    method Store(f: NewConnectionId, rnd: int) returns (r: AddResult)
      requires Valid() && !closed && 0 <= rnd < PacketsPerConnectionID && !Late(St(), f.num)
      modifies this
      ensures Valid() && St() == AddFrame(old(St()), f) && r in {Added, Conflict}
      ensures r == Conflict <==>
              f.num != old(activeSequenceNumber)
                && Conflicting(RetirePrior(old(St()), f.retirePriorTo).queue, ToEntry(f))
    {
      hide RetirePrior, Insert, Conflicting, Update, Late, Sorted;
      RetirePriorFields(St(), f.retirePriorTo);
      Retire(f.retirePriorTo);
      if f.num == activeSequenceNumber {
        return Added;
      }
      InsertFields(St(), ToEntry(f));
      var ok := AddConnectionID(f.num, f.id, f.token);
      if !ok {
        return Conflict;
      }
      if activeSequenceNumber < f.retirePriorTo {
        UpdateConnectionID(rnd);
      }
      return Added;
    }

    method RetireLate(num: int)
      modifies this`controlFrames, this`received
      ensures St() == RetireNow(old(St()), num)
    {
      controlFrames, received := controlFrames + [num], received + {num};
    }

    method Add(f: NewConnectionId, rnd: int) returns (r: AddResult)
      requires Valid() && !closed && 0 <= f.retirePriorTo <= f.num && 0 <= rnd < PacketsPerConnectionID
      modifies this
      ensures Valid()
      ensures r == ZeroLength <==> old(activeConnectionID) == []
      ensures St() == if r == ZeroLength then old(St()) else AddFrame(old(St()), f)
      ensures r == Conflict <==>
              && r != ZeroLength && !Late(old(St()), f.num) && f.num != old(activeSequenceNumber)
              && Conflicting(old(queue), ToEntry(f))
      ensures r == LimitReached <==> r != ZeroLength && r != Conflict && |queue| >= MaxActiveConnectionIDs
    {
      ConflictKept(St(), f);
      hide AddFrame, RetirePrior, RetireNow, Conflicting, Sorted;
      if |activeConnectionID| == 0 {
        return ZeroLength;
      }
      if f.num < Max(activeSequenceNumber, highestProbingID) || f.num < highestRetired {
        AddLate(St(), f);
        RetireLate(f.num);
        r := Added;
      } else {
        r := Store(f, rnd);
      }
      if r == Added && |queue| >= MaxActiveConnectionIDs {
        r := LimitReached;
      }
    }

    /** AddFromPreferredAddress */
    method AddFromPreferredAddress(id: ConnId, token: Token) returns (ok: bool)
      requires Valid()
      modifies this`queue, this`received
      ensures Valid() && St() == Insert(old(St()), Entry(1, id, token))
      ensures !ok <==> Conflicting(old(queue), Entry(1, id, token))
    {
      hide Insert, Conflicting, Sorted;
      ok := AddConnectionID(1, id, token);
    }

    /** shouldUpdateConnID */
    function ShouldUpdate(): (r: bool)
      reads this
      ensures r <==>
              && handshakeComplete && queue != []
              && (activeSequenceNumber == 0 || (|queue| >= 2 && packetsSinceLastChange >= packetsPerConnectionID))
    {
      && handshakeComplete
      && ((|queue| > 0 && activeSequenceNumber == 0)
          || (2 * |queue| >= MaxActiveConnectionIDs && packetsSinceLastChange >= packetsPerConnectionID))
    }

    /** Get: the active connection ID, which may be replaced first. */
    method Get(rnd: int) returns (id: ConnId)
      requires Valid() && !closed && 0 <= rnd < PacketsPerConnectionID
      modifies this
      ensures Valid() && id == activeConnectionID
      ensures St() == if old(ShouldUpdate()) then Update(old(St())) else old(St())
      ensures if old(handshakeComplete && queue != []
                     && (activeSequenceNumber == 0
                         || (|queue| >= 2 && packetsSinceLastChange >= packetsPerConnectionID)))
              then id == old(queue)[0].id && activeSequenceNumber == old(queue)[0].num && packetsSinceLastChange == 0
              else id == old(activeConnectionID) && packetsSinceLastChange == old(packetsSinceLastChange)
    {
      if ShouldUpdate() {
        UpdateConnectionID(rnd);
      }
      return activeConnectionID;
    }

    method SetHandshakeComplete()
      requires Valid()
      modifies this`handshakeComplete
      ensures Valid() && handshakeComplete && St() == old(St())
    {
      handshakeComplete := true;
    }

    /** packetsSinceLastChange is a 32-bit counter. */
    method SentPacket()
      requires Valid()
      modifies this`packetsSinceLastChange
      ensures Valid() && St() == old(St())
              && packetsSinceLastChange == (old(packetsSinceLastChange) + 1) % 0x1_0000_0000
    {
      packetsSinceLastChange := (packetsSinceLastChange + 1) % 0x1_0000_0000;
    }

    /** GetConnIDForPath: the same path gets the same connection ID, a new one the next from the queue. */
    method GetConnIDForPath(p: int) returns (r: Option<ConnId>)
      requires Valid() && !closed
      modifies this
      ensures Valid()
      ensures if old(activeConnectionID) == [] then r == Some([]) && St() == old(St())
              else if p in old(pathProbing) then r == Some(old(pathProbing)[p].id) && St() == old(St())
              else if old(queue) == [] then r == None && St() == old(St())
              else r == Some(old(queue)[0].id) && St() == TakePath(old(St()), p)
    {
      if |activeConnectionID| == 0 {
        return Some([]);
      }
      if p in pathProbing {
        return Some(pathProbing[p].id);
      }
      if |queue| == 0 {
        return None;
      }
      TailSorted(queue);
      hide Sorted;
      var front := queue[0];
      queue, pathProbing, highestProbingID := queue[1..], pathProbing[p := front], front.num;
      live := live + multiset{front.token};
      return Some(front.id);
    }

    method RetireConnIDForPath(p: int)
      requires Valid() && !closed
      modifies this`pathProbing, this`controlFrames, this`live
      ensures St() == if activeConnectionID == [] || p !in old(pathProbing) then old(St()) else RetirePath(old(St()), p)
    {
      if |activeConnectionID| == 0 || p !in pathProbing {
        return;
      }
      RetireOne(p);
    }

    method ChangeInitialConnID(id: ConnId) returns (panicked: bool)
      modifies this`activeConnectionID
      ensures panicked <==> activeSequenceNumber != 0
      ensures activeConnectionID == (if panicked then old(activeConnectionID) else id) && St() == old(St())
    {
      if activeSequenceNumber != 0 {
        return true;
      }
      activeConnectionID := id;
      return false;
    }

    /** The token from the transport parameters */
    method SetStatelessResetToken(token: Token) returns (panicked: bool)
      modifies this`activeStatelessResetToken, this`live
      ensures panicked <==> closed || activeSequenceNumber != 0
      ensures St() == if panicked then old(St()) else SetToken(old(St()), token)
    {
      if closed || activeSequenceNumber != 0 {
        return true;
      }
      activeStatelessResetToken := Some(token);
      live := live + multiset{token};
      return false;
    }

    method Close()
      modifies this`closed, this`live
      ensures St() == CloseAll(old(St()))
    {
      closed := true;
      live := live - ActiveBag(activeStatelessResetToken);
      RemoveTokens();
    }

    /** The loop over pathProbing in Close. */
    method RemoveTokens()
      modifies this`live
      ensures live == old(live) - Bag(TokenMap(pathProbing))
    {
      hide Bag, TokenMap, TokensOf, TokensLeft;
      var paths := pathProbing.Keys;
      TokensLeftStart(live, pathProbing);
      while paths != {}
        invariant paths <= pathProbing.Keys && TokensLeft(old(live), live, pathProbing, paths)
        decreases |paths|
      {
        var p := Pick(paths);
        TokensLeftStep(old(live), live, pathProbing, paths, p);
        paths := paths - {p};
        live := live - multiset{pathProbing[p].token};
      }
      TokensLeftEnd(old(live), live, pathProbing);
    }

    /** Whether the token is in use, by the active connection ID or on a path. */
    method IsActiveStatelessResetToken(token: Token) returns (r: bool)
      ensures r <==> token in ActiveBag(activeStatelessResetToken) + Bag(TokenMap(pathProbing))
    {
      BagHas(TokenMap(pathProbing), token);
      hide Bag;
      if activeStatelessResetToken.Some? && activeStatelessResetToken.value == token {
        return true;
      }
      var paths := pathProbing.Keys;
      while paths != {}
        invariant paths <= pathProbing.Keys
        invariant forall p :: p in pathProbing && pathProbing[p].token == token ==> p in paths
        decreases |paths|
      {
        var p := Pick(paths);
        if pathProbing[p].token == token {
          assert TokenMap(pathProbing)[p] == token;
          return true;
        }
        paths := paths - {p};
      }
      assert forall p :: p in TokenMap(pathProbing) ==> TokenMap(pathProbing)[p] != token;
      return false;
    }
  }

  /** The tokens of all paths but those given were removed. */
  ghost predicate TokensLeft(before: multiset<Token>, live: multiset<Token>, m: map<int, Entry>, paths: set<int>) {
    exists removed :: removed + Bag(TokensOf(m, paths)) == Bag(TokenMap(m)) && live == before - removed
  }

  lemma TokensLeftStart(live: multiset<Token>, m: map<int, Entry>)
    ensures TokensLeft(live, live, m, m.Keys)
  {
    TokensAll(m);
    assert multiset{} + Bag(TokensOf(m, m.Keys)) == Bag(TokenMap(m)) && live == live - multiset{};
  }

  lemma TokensLeftStep(before: multiset<Token>, live: multiset<Token>, m: map<int, Entry>, paths: set<int>, p: int)
    requires TokensLeft(before, live, m, paths) && p in paths && paths <= m.Keys
    ensures TokensLeft(before, live - multiset{m[p].token}, m, paths - {p})
  {
    hide Bag, TokensOf, TokenMap;
    var removed :| removed + Bag(TokensOf(m, paths)) == Bag(TokenMap(m)) && live == before - removed;
    TokensStep(m, paths, p);
    var removed' := removed + multiset{m[p].token};
    assert removed' + Bag(TokensOf(m, paths - {p})) == Bag(TokenMap(m));
    Remaining(before, removed, m[p].token);
  }

  lemma TokensLeftEnd(before: multiset<Token>, live: multiset<Token>, m: map<int, Entry>)
    requires TokensLeft(before, live, m, {})
    ensures live == before - Bag(TokenMap(m))
  {
    TokensAll(m);
  }

  lemma Remaining(all: multiset<Token>, removed: multiset<Token>, t: Token)
    ensures (all - removed) - multiset{t} == all - (removed + multiset{t})
  {
  }

  lemma TailSorted(queue: seq<Entry>)
    requires Sorted(queue) && queue != []
    ensures Sorted(queue[1..])
  {
  }

  lemma InsertKeepsSorted(st: State, e: Entry)
    requires Sorted(st.queue)
    ensures Sorted(Insert(st, e).queue) && InQueue(Insert(st, e).queue, e.num)
  {
    var k := Below(st.queue, e.num);
    Found(st.queue, e.num);
    Split(st.queue, e.num);
    InsertPlaces(st.queue, k, e, e.num);
    if !(k < |st.queue| && st.queue[k].num == e.num) {
      InsertSorted(st.queue, k, e);
    }
  }

  lemma RetireBelowFields(st: State, r: int)
    ensures RetireBelow(st, r).queue == st.queue && RetireBelow(st, r).highestRetired == st.highestRetired
  {
  }

  lemma RetirePriorFields(st: State, r: int)
    ensures RetirePrior(st, r).active == st.active && RetirePrior(st, r).closed == st.closed
  {
    hide Bag, PathsBelow;
  }

  lemma AddLate(st: State, f: NewConnectionId)
    requires Late(st, f.num)
    ensures AddFrame(st, f) == RetireNow(st, f.num)
  {
  }

  lemma ConflictAt(queue: seq<Entry>, e: Entry)
    requires Sorted(queue)
    ensures Conflicting(queue, e) <==> InQueue(queue, e.num) && queue[Below(queue, e.num)] != e
    ensures var k := Below(queue, e.num); InQueue(queue, e.num) <==> k < |queue| && queue[k].num == e.num
  {
    Found(queue, e.num);
    Split(queue, e.num);
  }

  /** An entry that conflicts is not dropped. */
  lemma ConflictKept(st: State, f: NewConnectionId)
    requires Sorted(st.queue) && f.retirePriorTo <= f.num
    ensures Conflicting(RetirePrior(st, f.retirePriorTo).queue, ToEntry(f)) <==> Conflicting(st.queue, ToEntry(f))
  {
    var r := f.retirePriorTo;
    var k := Below(st.queue, r);
    RetireBelowFields(st, r);
    Split(st.queue, r);
    hide Below, Sorted, RetireBelow;
    if r > st.highestRetired {
      var kept := st.queue[k..];
      assert forall i :: k <= i < |st.queue| ==> kept[i - k] == st.queue[i];
      assert forall i :: 0 <= i < |kept| ==> kept[i] == st.queue[k + i];
    }
  }
}
