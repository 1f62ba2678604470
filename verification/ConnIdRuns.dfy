/** Properties of all runs of the connection ID manager. */
module ConnIdRuns {
  import opened Common
  import opened ConnIdModel

  datatype Event =
    | NewId(f: NewConnectionId)
    | Preferred(id: ConnId, token: Token)
    | FirstToken(token: Token)
    | Rotate
    | Probe(path: int)
    | EndProbe(path: int)
    | Shut

  /** What does not panic, and changes something. */
  ghost predicate Allowed(st: State, e: Event) {
    && !st.closed
    && match e
       case NewId(f) => 0 <= f.retirePriorTo <= f.num
       case FirstToken(_) => st.active == 0
       case Rotate => st.queue != []
       case Probe(p) => p !in st.probing && st.queue != []
       case EndProbe(p) => p in st.probing
       case _ => true
  }

  ghost function Step(st: State, e: Event): State
    requires Allowed(st, e)
  {
    match e
    case NewId(f) => AddFrame(st, f)
    case Preferred(id, token) => Insert(st, Entry(1, id, token))
    case FirstToken(token) => SetToken(st, token)
    case Rotate => Update(st)
    case Probe(p) => TakePath(st, p)
    case EndProbe(p) => RetirePath(st, p)
    case Shut => CloseAll(st)
  }

  /** Runs in which every step is allowed. */
  ghost predicate Runs(st: State, events: seq<Event>, st': State)
    decreases |events|
  {
    if events == [] then st == st' else Allowed(st, events[0]) && Runs(Step(st, events[0]), events[1..], st')
  }

  /** A frame does not repeat a number that is in use or retired, and the first token is set once. */
  ghost predicate Sound(st: State, e: Event) {
    match e
    case NewId(f) => Fresh(st, f.num)
    case Preferred(_, _) => InQueue(st.queue, 1) || (1 !in st.received && !Late(st, 1))
    case FirstToken(_) => st.activeToken.None?
    case _ => true
  }

  ghost predicate AllSound(st: State, events: seq<Event>)
    decreases |events|
  {
    events == [] || (Allowed(st, events[0]) && Sound(st, events[0]) && AllSound(Step(st, events[0]), events[1..]))
  }

  /** The invariant holds in every state of the run. */
  ghost predicate Always(st: State, events: seq<Event>)
    decreases |events|
  {
    Inv(st) && (events == [] || (Allowed(st, events[0]) && Always(Step(st, events[0]), events[1..])))
  }

  lemma StepExact(st: State, e: Event)
    requires Inv(st) && Allowed(st, e)
    ensures Inv(Step(st, e)) <==> Sound(st, e)
  {
    hide Inv, AddFrame, Insert, InQueue, Fresh, Late;
    match e
    case NewId(f) => AddExact(st, f);
    case Preferred(id, token) => PreferredExact(st, Entry(1, id, token));
    case FirstToken(token) => SetTokenExact(st, token);
    case Rotate => UpdateInv(st);
    case Probe(p) => TakePathInv(st, p);
    case EndProbe(p) => RetirePathInv(st, p);
    case Shut => CloseInv(st);
  }

  /** The invariant holds all along a run exactly if every step of it is sound. */
  lemma {:induction false} RunExact(st: State, events: seq<Event>, st': State)
    requires Inv(st) && Runs(st, events, st')
    ensures Always(st, events) <==> AllSound(st, events)
    ensures AllSound(st, events) ==> Inv(st')
    decreases |events|
  {
    hide Inv, Step, Allowed, Sound;
    if events != [] {
      StepExact(st, events[0]);
      if Sound(st, events[0]) {
        RunExact(Step(st, events[0]), events[1..], st');
      }
    }
  }

  /** What was retired stays retired, and the active number never falls. */
  ghost predicate Later(st: State, st': State) {
    st.retired <= st'.retired && st.active <= st'.active
  }

  lemma RetirePriorLater(st: State, r: int)
    ensures Later(st, RetirePrior(st, r)) && RetirePrior(st, r).active == st.active
  {
    hide Bag, Nums, Below;
  }

  lemma AddLater(st: State, f: NewConnectionId)
    requires Inv(st) && !st.closed && 0 <= f.retirePriorTo <= f.num
    ensures Later(st, AddFrame(st, f))
  {
    hide Inv, RetirePrior, Insert, Conflicting, InQueue;
    var st1 := RetirePrior(st, f.retirePriorTo);
    RetirePriorLater(st, f.retirePriorTo);
    if !Late(st, f.num) && f.num != st1.active {
      RetirePriorInv(st, f.retirePriorTo);
      InsertFields(st1, ToEntry(f));
      FrontLater(st1, f);
    }
  }

  lemma FrontLater(st: State, f: NewConnectionId)
    requires Inv(st) && !Late(st, f.num) && f.num != st.active
    ensures var q := Insert(st, ToEntry(f)).queue; q != [] ==> q[0].num > st.active
  {
    var k := Below(st.queue, f.num);
    InsertEntries(st.queue, k, ToEntry(f), st.active + 1);
    assert forall i :: 0 <= i < |st.queue| ==> st.queue[i].num > st.active;
  }

  lemma StepLater(st: State, e: Event)
    requires Inv(st) && Allowed(st, e)
    ensures Later(st, Step(st, e))
  {
    hide AddFrame, Insert, InQueue, IsProbing, TokensOk;
    match e
    case NewId(f) => AddLater(st, f);
    case Preferred(id, token) => InsertFields(st, Entry(1, id, token));
    case _ =>
  }

  lemma {:induction false} RunLater(st: State, events: seq<Event>, st': State)
    requires Always(st, events) && Runs(st, events, st')
    ensures Later(st, st') && Inv(st')
    decreases |events|
  {
    hide Inv, Step, Allowed;
    if events != [] {
      StepLater(st, events[0]);
      RunLater(Step(st, events[0]), events[1..], st');
    }
  }

  // ------------------------------------------------------- what a step retires

  lemma GoneNums(probing: map<int, Entry>, r: int, s: int)
    ensures s in Bag(NumMap(Gone(probing, r))) <==> IsProbing(probing, s) && s < r
  {
    var gone := Gone(probing, r);
    var nums := NumMap(gone);
    BagHas(nums, s);
    hide Bag;
    if IsProbing(probing, s) && s < r {
      var p :| p in probing && probing[p].num == s;
      assert p in nums && nums[p] == s;
    }
    if s in Bag(nums) {
      var p := BagKey(nums, s);
      GoneHas(probing, r, p);
      assert probing[p].num == s;
    }
  }

  lemma RetireBelowRetires(st: State, r: int, s: int)
    ensures s in RetireBelow(st, r).retired <==> s in st.retired || (IsProbing(st.probing, s) && s < r)
  {
    GoneNums(st.probing, r, s);
    hide Bag, NumMap, TokenMap, Gone, IsProbing;
  }

  lemma DropRetires(st: State, r: int, s: int)
    requires Sorted(st.queue)
    ensures s in Drop(st, r).retired <==> s in st.retired || (InQueue(st.queue, s) && s < r)
  {
    DropPlaces(st.queue, r, s);
    hide Sorted, Nums, Below, InQueue;
  }

  lemma RetireBelowRest(st: State, r: int)
    ensures var st' := RetireBelow(st, r); st'.queue == st.queue && st'.highestRetired == st.highestRetired
  {
  }

  lemma RetirePriorRetires(st: State, r: int, s: int)
    requires Inv(st) && r >= 0
    ensures s in RetirePrior(st, r).retired <==>
            s in st.retired || ((InQueue(st.queue, s) || IsProbing(st.probing, s)) && s < r)
  {
    SortedQueue(st);
    InUseBounds(st, s);
    hide Inv, RetireBelow, Drop, InQueue, IsProbing, Sorted;
    RetireBelowRetires(st, r, s);
    RetireBelowRest(st, r);
    DropRetires(st, r, s);
    DropRetires(RetireBelow(st, r), r, s);
  }

  lemma InUseBounds(st: State, s: int)
    requires Inv(st)
    ensures InQueue(st.queue, s) ==> s >= st.highestRetired && s > st.active >= 0
    ensures IsProbing(st.probing, s) ==> s >= 0
  {
  }

  lemma RetirePriorKeeps(st: State, r: int)
    requires r >= 0 && forall p :: p in st.probing ==> st.probing[p].num >= 0
    ensures var st' := RetirePrior(st, r);
            && st'.active == st.active && st'.received == st.received
            && (forall p :: p in st'.probing <==> p in st.probing && st.probing[p].num >= r)
            && (forall p :: p in st'.probing ==> st'.probing[p] == st.probing[p])
  {
    hide Bag, NumMap, TokenMap, Nums, Below;
  }

  /** The frame is entered: only the active number can be retired, and only if it has to be. */
  lemma EnterRetires(st: State, f: NewConnectionId)
    requires !Conflicting(st.queue, ToEntry(f))
    ensures var st' := Enter(st, f);
            && st'.received == st.received + {f.num} && st'.probing == st.probing
            && st'.retired == (if st.active < f.retirePriorTo then st.retired + multiset{st.active} else st.retired)
            && (st.active >= f.retirePriorTo ==> st'.active == st.active)
  {
    InsertFields(st, ToEntry(f));
    InsertPlaces(st.queue, Below(st.queue, f.num), ToEntry(f), f.num);
    assert Insert(st, ToEntry(f)).queue != [];
    hide Conflicting, Insert, Below, InQueue;
  }

  lemma EnterMember(st: State, f: NewConnectionId, s: int)
    requires !Conflicting(st.queue, ToEntry(f))
    ensures s in Enter(st, f).retired <==> s in st.retired || (s == st.active && s < f.retirePriorTo)
  {
    hide Enter, Conflicting;
    EnterRetires(st, f);
  }

  lemma InPlaces(st: State, s: int)
    requires Inv(st)
    ensures s in st.received <==>
            s == st.active || InQueue(st.queue, s) || IsProbing(st.probing, s) || s in st.retired
  {
  }

  /** Which numbers a frame retires. */
  lemma AddMember(st: State, f: NewConnectionId, s: int)
    requires Inv(st) && !st.closed && 0 <= f.retirePriorTo <= f.num && !Conflicting(st.queue, ToEntry(f))
    requires !Late(st, f.num)
    ensures s in AddFrame(st, f).retired <==> s in st.retired || (s in st.received && s < f.retirePriorTo)
  {
    hide Inv, RetirePrior, Enter, InQueue, IsProbing, Conflicting;
    var r, st1 := f.retirePriorTo, RetirePrior(st, f.retirePriorTo);
    InPlaces(st, s);
    RetirePriorRetires(st, r, s);
    RetirePriorLater(st, r);
    KeptConflict(st, f);
    if f.num != st1.active {
      EnterMember(st1, f, s);
    }
  }

  lemma ProbingNums(st: State)
    requires Inv(st)
    ensures (forall p :: p in st.probing ==> st.probing[p].num >= 0) && st.active in st.received
  {
  }

  /** What a frame keeps. */
  lemma AddKeeps(st: State, f: NewConnectionId)
    requires Inv(st) && !st.closed && 0 <= f.retirePriorTo <= f.num && !Conflicting(st.queue, ToEntry(f))
    requires !Late(st, f.num)
    ensures var st', r := AddFrame(st, f), f.retirePriorTo;
            && st'.received == st.received + {f.num} && (st.active >= r ==> st'.active == st.active)
            && (forall p :: p in st'.probing <==> p in st.probing && st.probing[p].num >= r)
            && (forall p :: p in st'.probing ==> st'.probing[p] == st.probing[p])
  {
    hide Inv, RetirePrior, Enter, Conflicting;
    var st1 := RetirePrior(st, f.retirePriorTo);
    ProbingNums(st);
    RetirePriorKeeps(st, f.retirePriorTo);
    KeptConflict(st, f);
    if f.num != st1.active {
      EnterRetires(st1, f);
    } else {
      assert st.received + {f.num} == st.received;
    }
  }

  /**
   A frame retires exactly what it asks for: of the numbers received so far, those below Retire Prior To;
   or, if it comes late, just its own number.
   */
  lemma AddRetires(st: State, f: NewConnectionId, s: int)
    requires Inv(st) && !st.closed && 0 <= f.retirePriorTo <= f.num && !Conflicting(st.queue, ToEntry(f))
    ensures var st', r, late := AddFrame(st, f), f.retirePriorTo, Late(st, f.num);
            && st'.received == st.received + {f.num}
            && (s in st'.retired <==> s in st.retired || (if late then s == f.num else s in st.received && s < r))
            && (late || st.active >= r ==> st'.active == st.active)
            && (forall p :: p in st'.probing <==> p in st.probing && (late || st.probing[p].num >= r))
            && (forall p :: p in st'.probing ==> st'.probing[p] == st.probing[p])
  {
    hide Inv, Conflicting, RetirePrior, Enter;
    if !Late(st, f.num) {
      hide AddFrame, Late;
      AddMember(st, f, s);
      AddKeeps(st, f);
    }
  }

  /** What is queued after an insertion. */
  lemma InsertHas(st: State, e: Entry, x: Entry)
    requires Sorted(st.queue) && !Conflicting(st.queue, e)
    ensures x in Insert(st, e).queue <==> x in st.queue || x == e
  {
    var k := Below(st.queue, e.num);
    Found(st.queue, e.num);
    hide Below;
    assert st.queue == st.queue[..k] + st.queue[k..];
    if InQueue(st.queue, e.num) {
      assert st.queue[k] == e;
    }
  }

  lemma DropHas(st: State, r: int, x: Entry)
    requires Sorted(st.queue)
    ensures x in Drop(st, r).queue <==> x in st.queue && x.num >= r
  {
    var k := Below(st.queue, r);
    Split(st.queue, r);
    hide Below, Nums, Sorted;
    assert st.queue == st.queue[..k] + st.queue[k..];
    if x in st.queue && x.num >= r {
      var i :| 0 <= i < |st.queue| && st.queue[i] == x;
      assert st.queue[k..][i - k] == x;
    }
  }

  lemma RetirePriorHas(st: State, r: int, x: Entry)
    requires Inv(st)
    ensures x in RetirePrior(st, r).queue <==> x in st.queue && x.num >= r
  {
    SortedQueue(st);
    assert x in st.queue ==> x.num >= st.highestRetired;
    hide Inv, RetireBelow, Drop, Sorted;
    RetireBelowRest(st, r);
    DropHas(st, r, x);
    DropHas(RetireBelow(st, r), r, x);
  }

  /** x is queued, or just became active. */
  ghost predicate Usable(st: State, x: Entry) {
    x in st.queue || (st.active == x.num && st.activeToken == Some(x.token))
  }

  lemma EnterHas(st: State, f: NewConnectionId, x: Entry)
    requires Sorted(st.queue) && !Conflicting(st.queue, ToEntry(f))
    ensures x in Enter(st, f).queue ==> x in st.queue || x == ToEntry(f)
    ensures x in st.queue || x == ToEntry(f) ==> Usable(Enter(st, f), x)
  {
    InsertHas(st, ToEntry(f), x);
    hide Insert, Conflicting, Sorted;
    var q := Insert(st, ToEntry(f)).queue;
    if q != [] {
      assert q == [q[0]] + q[1..];
    }
  }

  /**
   A frame that is not late is queued with what was queued, except below Retire Prior To; the first of
   these may have become active.
   */
  lemma AddQueues(st: State, f: NewConnectionId, x: Entry)
    requires Inv(st) && !st.closed && 0 <= f.retirePriorTo <= f.num && !Conflicting(st.queue, ToEntry(f))
    requires !Late(st, f.num) && f.num != st.active
    ensures var st', kept := AddFrame(st, f), (x in st.queue && x.num >= f.retirePriorTo) || x == ToEntry(f);
            (x in st'.queue ==> kept) && (kept ==> Usable(st', x))
  {
    hide Inv, RetirePrior, Enter, Conflicting, Sorted, Late;
    var st1 := RetirePrior(st, f.retirePriorTo);
    RetirePriorHas(st, f.retirePriorTo, x);
    RetirePriorInv(st, f.retirePriorTo);
    SortedQueue(st1);
    KeptConflict(st, f);
    EnterHas(st1, f, x);
  }

  /** What the other steps receive and retire, and what they do to the paths and the active number. */
  lemma StepRetires(st: State, e: Event)
    requires Inv(st) && Allowed(st, e) && !e.NewId?
    ensures var st' := Step(st, e);
            && st'.received == st.received + (if e.Preferred? then {1} else {})
            && st'.retired == st.retired + (if e.Rotate? then multiset{st.active}
                                            else if e.EndProbe? then multiset{st.probing[e.path].num}
                                            else multiset{})
            && st'.active == (if e.Rotate? then st.queue[0].num else st.active)
            && st'.queue == (if e.Rotate? || e.Probe? then st.queue[1..]
                             else if e.Preferred? then Insert(st, Entry(1, e.id, e.token)).queue
                             else st.queue)
            && st'.probing == (if e.Probe? then st.probing[e.path := st.queue[0]]
                               else if e.EndProbe? then st.probing - {e.path}
                               else st.probing)
            && (st'.closed <==> e.Shut?)
            && (e.FirstToken? ==> st'.activeToken == Some(e.token) && e.token in st'.live)
  {
    hide Inv, Insert, Bag;
    if e.Preferred? {
      InsertFields(st, Entry(1, e.id, e.token));
    }
  }

  // ---------------------------------------------------------------- results

  /**
   In every sound run: no number is retired twice, or is in use once it was retired; every number
   received is queued, active, on a path or retired, in one place only; and the tokens known are
   those in use, none once the manager was closed.
   */
  lemma RetiredOnce(events: seq<Event>, st: State)
    requires Runs(Init(), events, st) && AllSound(Init(), events)
    ensures forall s :: st.retired[s] <= 1
    ensures forall s :: s in st.retired ==> s != st.active && !InQueue(st.queue, s) && !IsProbing(st.probing, s)
    ensures forall s :: s in st.received <==>
                        s == st.active || InQueue(st.queue, s) || IsProbing(st.probing, s) || s in st.retired
    ensures st.live == if st.closed then multiset{} else ActiveBag(st.activeToken) + Bag(TokenMap(st.probing))
  {
    hide Runs, AllSound, Always, InQueue, IsProbing, Bag, TokenMap;
    InitInv();
    RunExact(Init(), events, st);
  }

  /** In a sound run, a number that was retired at some point is not in use at any later point. */
  lemma NeverReused(events: seq<Event>, st: State, more: seq<Event>, st': State, s: int)
    requires Runs(Init(), events, st) && AllSound(Init(), events) && Runs(st, more, st') && AllSound(st, more)
    requires s in st.retired
    ensures s in st'.retired && s != st'.active && !InQueue(st'.queue, s) && !IsProbing(st'.probing, s)
  {
    InitInv();
    hide Runs, AllSound, Always, InQueue, IsProbing, TokensOk;
    RunExact(Init(), events, st);
    RunExact(st, more, st');
    RunLater(st, more, st');
  }

  // ----------------------------------------------------------- failing runs

  lemma Prepend(st: State, e: Event, rest: seq<Event>, st': State)
    requires Allowed(st, e) && Runs(Step(st, e), rest, st')
    ensures Runs(st, [e] + rest, st')
  {
    assert ([e] + rest)[0] == e && ([e] + rest)[1..] == rest;
  }

  function Frame(num: int, retirePriorTo: int): NewConnectionId {
    NewConnectionId(num, retirePriorTo, [1], [1])
  }

  /** Number num was queued. */
  function Queued(num: int): State {
    Init().(queue := [Entry(num, [1], [1])], received := {0, num})
  }

  lemma ReachQueued(num: int)
    requires num > 0
    ensures Allowed(Init(), NewId(Frame(num, 0))) && Step(Init(), NewId(Frame(num, 0))) == Queued(num)
  {
    assert {0} + {num} == {0, num};
    assert [] + [Entry(num, [1], [1])] + [] == [Entry(num, [1], [1])];
    assert RetirePrior(Init(), 0) == Init();
  }

  lemma Two(st: State, e1: Event, e2: Event)
    requires Allowed(st, e1) && Allowed(Step(st, e1), e2)
    ensures Runs(st, [e1] + ([e2] + []), Step(Step(st, e1), e2))
  {
    var st' := Step(Step(st, e1), e2);
    assert Runs(st', [], st');
    Prepend(Step(st, e1), e2, [], st');
    Prepend(st, e1, [e2] + [], st');
  }

  /** The active connection ID is replaced, and then its frame arrives again: it is retired a second time. */
  lemma RetiredTwice()
    ensures exists st :: Runs(Init(), [NewId(Frame(1, 0))] + ([Rotate] + ([NewId(Frame(0, 0))] + [])), st)
                         && st.retired[0] == 2
  {
    ReachQueued(1);
    var a := Queued(1);
    var b := Update(a);
    assert b.retired == multiset{0} && Late(b, 0);
    var c := AddFrame(b, Frame(0, 0));
    assert c.retired == multiset{0} + multiset{0};
    hide Runs, AddFrame;
    Two(a, Rotate, NewId(Frame(0, 0)));
    Prepend(Init(), NewId(Frame(1, 0)), [Rotate] + ([NewId(Frame(0, 0))] + []), c);
  }

  /** A number is taken for a path, and then its frame arrives again: it is queued while it is in use. */
  lemma QueuedInUse()
    ensures exists st :: Runs(Init(), [NewId(Frame(1, 0))] + ([Probe(7)] + ([NewId(Frame(1, 0))] + [])), st)
                         && InQueue(st.queue, 1) && IsProbing(st.probing, 1)
  {
    ReachQueued(1);
    var a := Queued(1);
    var b := TakePath(a, 7);
    assert b.queue == [] && b.probing == map[7 := Entry(1, [1], [1])] && !Late(b, 1) && RetirePrior(b, 0) == b;
    var c := AddFrame(b, Frame(1, 0));
    assert [] + [Entry(1, [1], [1])] + [] == [Entry(1, [1], [1])];
    assert c.queue[0].num == 1 && c.probing[7].num == 1;
    hide Runs, AddFrame;
    Two(a, Probe(7), NewId(Frame(1, 0)));
    Prepend(Init(), NewId(Frame(1, 0)), [Probe(7)] + ([NewId(Frame(1, 0))] + []), c);
  }

  /** Number 5 is on a path when a frame with number 3 asks to retire 0 and 1: number 0 stays active. */
  lemma RetirePriorIgnored()
    ensures exists st :: Runs(Init(), [NewId(Frame(5, 0))] + ([Probe(7)] + ([NewId(Frame(3, 2))] + [])), st)
                         && st.active == 0 && !Obeys(st, 2) && st.retired == multiset{3}
  {
    ReachQueued(5);
    var a := Queued(5);
    var b := TakePath(a, 7);
    assert b.highestProbing == 5 && Late(b, 3);
    var c := AddFrame(b, Frame(3, 2));
    assert c.retired == multiset{} + multiset{3};
    hide Runs, AddFrame;
    Two(a, Probe(7), NewId(Frame(3, 2)));
    Prepend(Init(), NewId(Frame(5, 0)), [Probe(7)] + ([NewId(Frame(3, 2))] + []), c);
  }

  /** The first token is set twice: the one set before is never removed, not even by Close. */
  lemma TokenLeft()
    ensures exists st :: Runs(Init(), [FirstToken([1])] + ([FirstToken([2])] + ([Shut] + [])), st)
                         && st.closed && st.live == multiset{[1]}
  {
    var a := SetToken(Init(), [1]);
    var b := SetToken(a, [2]);
    NoPaths(map[]);
    assert a.live == multiset{[1]} && b.live == multiset{[1], [2]};
    var c := CloseAll(b);
    assert c.live == multiset{[1]};
    hide Runs, Bag;
    Two(a, FirstToken([2]), Shut);
    Prepend(Init(), FirstToken([1]), [FirstToken([2])] + ([Shut] + []), c);
  }

  /** The preferred address comes after number 2 became active: number 1 is queued behind it in time, and below it. */
  lemma PreferredLate()
    ensures exists st :: Runs(Init(), [NewId(Frame(2, 0))] + ([Rotate] + ([Preferred([3], [3])] + [])), st)
                         && st.active == 2 && InQueue(st.queue, 1)
  {
    ReachQueued(2);
    var a := Queued(2);
    var b := Update(a);
    assert b.queue == [];
    var c := Insert(b, Entry(1, [3], [3]));
    assert [] + [Entry(1, [3], [3])] + [] == [Entry(1, [3], [3])];
    assert c.queue[0].num == 1;
    hide Runs;
    Two(a, Rotate, Preferred([3], [3]));
    Prepend(Init(), NewId(Frame(2, 0)), [Rotate] + ([Preferred([3], [3])] + []), c);
  }
}
