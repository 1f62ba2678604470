/**
 The life of the connection IDs that the peer issues: received in NEW_CONNECTION_ID frames, queued,
 used as the active one or for probing a path, and finally retired.
 */
module ConnIdModel {
  import opened Common

  type ConnId = seq<byte>
  type Token = seq<byte>

  const MaxActiveConnectionIDs: int := 4
  const PacketsPerConnectionID: int := 10000

  datatype Entry = Entry(num: int, id: ConnId, token: Token)

  datatype State = State(
    queue: seq<Entry>,
    highestProbing: int,
    probing: map<int, Entry>,         // pathProbing; nil is empty
    active: int,                      // activeSequenceNumber
    highestRetired: int,
    activeToken: Option<Token>,
    closed: bool,
    // history
    received: set<int>,               // sequence numbers received
    retired: multiset<int>,           // sequence numbers in RETIRE_CONNECTION_ID frames
    live: multiset<Token>)            // tokens added and not removed

  function Init(): State {
    State([], 0, map[], 0, 0, None, false, {0}, multiset{}, multiset{})
  }

  // ------------------------------------------------------------- invariant

  predicate InQueue(queue: seq<Entry>, num: int) {
    exists i :: 0 <= i < |queue| && queue[i].num == num
  }

  predicate IsProbing(probing: map<int, Entry>, num: int) {
    exists p :: p in probing && probing[p].num == num
  }

  ghost predicate Once(s: multiset<int>) {
    forall n :: s[n] <= 1
  }

  /** The queue is sorted, and above all numbers in use. */
  ghost predicate QueueOk(st: State) {
    && Sorted(st.queue)
    && (forall i :: 0 <= i < |st.queue| ==>
          var n := st.queue[i].num; n > st.active && n > st.highestProbing && n >= st.highestRetired)
  }

  ghost predicate ProbingOk(st: State) {
    && (forall p :: p in st.probing ==> 0 <= st.probing[p].num <= st.highestProbing && st.probing[p].num != st.active)
    && OneEach(st.probing)
  }

  /** No number is retired twice, or retired while it is in use. */
  ghost predicate RetiredOk(st: State) {
    && Once(st.retired)
    && forall s :: s in st.retired ==> s != st.active && !InQueue(st.queue, s) && !IsProbing(st.probing, s)
  }

  /** Every number received is queued, active, probing or retired, and no other number is. */
  ghost predicate CoverOk(st: State) {
    forall s :: s in st.received <==>
      s == st.active || InQueue(st.queue, s) || IsProbing(st.probing, s) || s in st.retired
  }

  function TokenMap(m: map<int, Entry>): map<int, Token> {
    map p | p in m :: m[p].token
  }

  function ActiveBag(t: Option<Token>): multiset<Token> {
    if t.Some? then multiset{t.value} else multiset{}
  }

  /** The tokens known are those of the active connection ID and of the paths being probed. */
  ghost predicate Live(live: multiset<Token>, closed: bool, active: Option<Token>, probing: map<int, Entry>) {
    live == if closed then multiset{} else ActiveBag(active) + Bag(TokenMap(probing))
  }

  ghost predicate TokensOk(st: State) {
    Live(st.live, st.closed, st.activeToken, st.probing)
  }

  ghost predicate Inv(st: State) {
    && QueueOk(st) && ProbingOk(st) && RetiredOk(st) && CoverOk(st) && TokensOk(st)
    && 0 <= st.active && 0 <= st.highestProbing && st.highestProbing in st.received
  }

  lemma InitInv()
    ensures Inv(Init())
  {
  }

  /** A number is in one place only. */
  lemma OnePlace(st: State, s: int)
    requires Inv(st)
    ensures !(InQueue(st.queue, s) && (s == st.active || IsProbing(st.probing, s) || s in st.retired))
    ensures !(IsProbing(st.probing, s) && (s == st.active || s in st.retired))
    ensures !(s == st.active && s in st.retired)
  {
  }

  // ----------------------------------------------------------- transitions

  /** A frame that comes too late: its connection ID is not used any more. */
  predicate Late(st: State, num: int) {
    num < Max(st.active, st.highestProbing) || num < st.highestRetired
  }

  function RetireNow(st: State, num: int): State {
    st.(retired := st.retired + multiset{num}, received := st.received + {num})
  }

  /** Retiring a late connection ID is right exactly if it is seen for the first time. */
  lemma RetireNowExact(st: State, num: int)
    requires Inv(st) && Late(st, num) && num >= 0
    ensures Inv(RetireNow(st, num)) <==> num !in st.received
  {
    hide Live;
    var st' := RetireNow(st, num);
    assert forall s :: s in st'.retired <==> s in st.retired || s == num;
    assert st'.retired[num] == st.retired[num] + 1;
    assert num in st'.retired;
  }

  function RetirePath(st: State, p: int): State
    requires p in st.probing
  {
    st.(retired := st.retired + multiset{st.probing[p].num}, probing := st.probing - {p},
        live := st.live - multiset{st.probing[p].token})
  }

  ghost predicate OneEach(probing: map<int, Entry>) {
    forall p, q :: p in probing && q in probing && p != q ==> probing[p].num != probing[q].num
  }

  lemma WithoutPath(probing: map<int, Entry>, p: int, s: int)
    requires OneEach(probing) && p in probing
    ensures IsProbing(probing - {p}, s) <==> IsProbing(probing, s) && s != probing[p].num
  {
    if IsProbing(probing, s) && s != probing[p].num {
      var q :| q in probing && probing[q].num == s;
      assert q in probing - {p};
    }
  }

  lemma RetirePathTokens(st: State, p: int)
    requires TokensOk(st) && !st.closed && p in st.probing
    ensures TokensOk(RetirePath(st, p)) && st.probing[p].token in st.live
  {
    assert TokenMap(st.probing) - {p} == TokenMap(st.probing - {p});
    BagRemove(TokenMap(st.probing), p);
  }

  lemma RetirePathPlaces(st: State, p: int)
    requires RetiredOk(st) && CoverOk(st) && OneEach(st.probing) && p in st.probing
    requires var num := st.probing[p].num; num != st.active && !InQueue(st.queue, num)
    ensures RetiredOk(RetirePath(st, p)) && CoverOk(RetirePath(st, p))
  {
    hide InQueue, OneEach;
    var st', num := RetirePath(st, p), st.probing[p].num;
    assert IsProbing(st.probing, num);
    forall s ensures IsProbing(st'.probing, s) <==> IsProbing(st.probing, s) && s != num {
      WithoutPath(st.probing, p, s);
    }
    hide IsProbing;
    assert forall s :: s in st'.retired <==> s in st.retired || s == num;
    assert forall s :: st'.retired[s] == st.retired[s] + if s == num then 1 else 0;
  }

  lemma RetirePathInv(st: State, p: int)
    requires Inv(st) && !st.closed && p in st.probing
    ensures Inv(RetirePath(st, p)) && st.probing[p].token in st.live
  {
    hide TokensOk, RetiredOk, CoverOk;
    RetirePathTokens(st, p);
    RetirePathPlaces(st, p);
  }

  /** The number of entries at the start of the queue that are below r. */
  function Below(queue: seq<Entry>, r: int): (k: int)
    ensures 0 <= k <= |queue|
    ensures forall i :: 0 <= i < k ==> queue[i].num < r
    ensures k < |queue| ==> queue[k].num >= r
  {
    if queue == [] || queue[0].num >= r then 0 else 1 + Below(queue[1..], r)
  }

  ghost predicate Sorted(queue: seq<Entry>) {
    forall i, j :: 0 <= i < j < |queue| ==> queue[i].num < queue[j].num
  }

  function Nums(queue: seq<Entry>): seq<int> {
    seq(|queue|, i requires 0 <= i < |queue| => queue[i].num)
  }

  /** Retires what is queued below r. */
  function Drop(st: State, r: int): State {
    var k := Below(st.queue, r);
    st.(queue := st.queue[k..], retired := st.retired + multiset(Nums(st.queue[..k])), highestRetired := r)
  }

  lemma Concat(a: seq<Entry>, b: seq<Entry>, s: int)
    ensures InQueue(a + b, s) <==> InQueue(a, s) || InQueue(b, s)
  {
    if InQueue(a, s) {
      var i :| 0 <= i < |a| && a[i].num == s;
      assert (a + b)[i].num == s;
    }
    if InQueue(b, s) {
      var i :| 0 <= i < |b| && b[i].num == s;
      assert (a + b)[|a| + i].num == s;
    }
  }

  lemma InNums(queue: seq<Entry>, s: int)
    ensures s in Nums(queue) <==> InQueue(queue, s)
  {
    if InQueue(queue, s) {
      var i :| 0 <= i < |queue| && queue[i].num == s;
      assert Nums(queue)[i] == s;
    }
  }

  /** The entries below r, and the others. */
  lemma Split(queue: seq<Entry>, r: int)
    requires Sorted(queue)
    ensures var k := Below(queue, r);
            && Sorted(queue[k..])
            && (forall i :: 0 <= i < k ==> queue[i].num < r)
            && (forall i :: k <= i < |queue| ==> queue[i].num >= r)
  {
    var k := Below(queue, r);
    hide Below;
    if k < |queue| {
      assert forall i :: k < i < |queue| ==> queue[k].num < queue[i].num;
    }
  }

  lemma AllBelow(queue: seq<Entry>, r: int, s: int)
    requires forall i :: 0 <= i < |queue| ==> queue[i].num < r
    ensures InQueue(queue, s) ==> s < r
  {
  }

  lemma AllFrom(queue: seq<Entry>, r: int, s: int)
    requires forall i :: 0 <= i < |queue| ==> queue[i].num >= r
    ensures InQueue(queue, s) ==> s >= r
  {
  }

  lemma DropPlaces(queue: seq<Entry>, r: int, s: int)
    requires Sorted(queue)
    ensures var k := Below(queue, r);
            && (InQueue(queue[k..], s) <==> InQueue(queue, s) && s >= r)
            && (s in Nums(queue[..k]) <==> InQueue(queue, s) && s < r)
  {
    hide Below, Sorted, Nums, InQueue;
    var k := Below(queue, r);
    Split(queue, r);
    InNums(queue[..k], s);
    assert queue == queue[..k] + queue[k..];
    Concat(queue[..k], queue[k..], s);
    AllBelow(queue[..k], r, s);
    AllFrom(queue[k..], r, s);
  }

  lemma {:induction false} NumsOnce(queue: seq<Entry>)
    requires Sorted(queue)
    ensures Once(multiset(Nums(queue)))
  {
    if queue != [] {
      var n := |queue| - 1;
      var init := queue[..n];
      NumsOnce(init);
      InNums(init, queue[n].num);
      assert Nums(queue) == Nums(init) + [queue[n].num];
    }
  }

  lemma DropOnce(st: State, r: int)
    requires QueueOk(st) && RetiredOk(st)
    ensures Once(Drop(st, r).retired)
  {
    var k := Below(st.queue, r);
    var dropped := Nums(st.queue[..k]);
    NumsOnce(st.queue[..k]);
    forall n ensures !(n in st.retired && n in dropped) {
      DropPlaces(st.queue, r, n);
    }
    forall n ensures Drop(st, r).retired[n] <= 1 {
      assert n in st.retired || st.retired[n] == 0;
      assert n in dropped || multiset(dropped)[n] == 0;
    }
  }

  lemma DropQueue(st: State, r: int)
    requires QueueOk(st)
    ensures QueueOk(Drop(st, r))
  {
    hide Nums;
    var k, kept := Below(st.queue, r), Drop(st, r).queue;
    Split(st.queue, r);
    hide Below, Sorted;
    forall i | 0 <= i < |kept| ensures kept[i].num > st.active && kept[i].num > st.highestProbing && kept[i].num >= r {
      assert kept[i] == st.queue[k + i];
    }
  }

  lemma DropInv(st: State, r: int)
    requires Inv(st) && r > st.highestRetired
    ensures Inv(Drop(st, r))
  {
    hide Live, IsProbing, InQueue, Nums;
    var st' := Drop(st, r);
    DropOnce(st, r);
    DropQueue(st, r);
    forall s ensures InQueue(st'.queue, s) <==> InQueue(st.queue, s) && s >= r {
      DropPlaces(st.queue, r, s);
    }
    forall s ensures s in st'.retired <==> s in st.retired || (InQueue(st.queue, s) && s < r) {
      DropPlaces(st.queue, r, s);
    }
    forall s ensures InQueue(st.queue, s) ==> s != st.active && !IsProbing(st.probing, s) {
      OnePlace(st, s);
    }
    hide Once, QueueOk;
  }

  /** Puts an entry into its place, unless its number is queued already. */
  function Insert(st: State, e: Entry): State {
    var k := Below(st.queue, e.num);
    if k < |st.queue| && st.queue[k].num == e.num then st.(received := st.received + {e.num})
    else st.(queue := st.queue[..k] + [e] + st.queue[k..], received := st.received + {e.num})
  }

  lemma InsertSorted(queue: seq<Entry>, k: int, e: Entry)
    requires Sorted(queue) && 0 <= k <= |queue|
    requires forall i :: 0 <= i < k ==> queue[i].num < e.num
    requires forall i :: k <= i < |queue| ==> queue[i].num > e.num
    ensures Sorted(queue[..k] + [e] + queue[k..])
  {
    var queue' := queue[..k] + [e] + queue[k..];
    assert forall i :: 0 <= i < |queue'| ==>
           queue'[i] == if i < k then queue[i] else if i == k then e else queue[i - 1];
  }

  lemma InsertPlaces(queue: seq<Entry>, k: int, e: Entry, s: int)
    requires 0 <= k <= |queue|
    ensures InQueue(queue[..k] + [e] + queue[k..], s) <==> InQueue(queue, s) || s == e.num
  {
    assert [e][0].num == e.num;
    assert InQueue([e], s) <==> s == e.num;
    assert queue == queue[..k] + queue[k..];
    Concat(queue[..k], queue[k..], s);
    Concat(queue[..k] + [e], queue[k..], s);
    Concat(queue[..k], [e], s);
  }

  /** Whether a number is queued can be told from where it would be inserted. */
  lemma Found(queue: seq<Entry>, num: int)
    requires Sorted(queue)
    ensures var k := Below(queue, num); InQueue(queue, num) <==> k < |queue| && queue[k].num == num
  {
    Split(queue, num);
    hide Below;
  }

  /** The entries after an insertion. */
  lemma InsertEntries(queue: seq<Entry>, k: int, e: Entry, lo: int)
    requires 0 <= k <= |queue| && e.num >= lo && forall i :: 0 <= i < |queue| ==> queue[i].num >= lo
    ensures forall i :: 0 <= i <= |queue| ==> (queue[..k] + [e] + queue[k..])[i].num >= lo
  {
  }

  lemma InsertQueue(st: State, e: Entry)
    requires QueueOk(st) && !InQueue(st.queue, e.num) && e.num > st.active && e.num > st.highestProbing
             && e.num >= st.highestRetired
    ensures QueueOk(Insert(st, e))
    ensures forall s :: InQueue(Insert(st, e).queue, s) <==> InQueue(st.queue, s) || s == e.num
  {
    var k := Below(st.queue, e.num);
    Found(st.queue, e.num);
    forall s ensures InQueue(Insert(st, e).queue, s) <==> InQueue(st.queue, s) || s == e.num {
      InsertPlaces(st.queue, k, e, s);
    }
    Split(st.queue, e.num);
    assert k < |st.queue| ==> st.queue[k].num > e.num;
    InsertSorted(st.queue, k, e);
    InsertEntries(st.queue, k, e, Max(Max(st.active, st.highestProbing) + 1, st.highestRetired));
    hide InQueue, Below, Sorted;
  }

  lemma InsertInv(st: State, e: Entry)
    requires Inv(st) && !Late(st, e.num) && e.num != st.active && e.num !in st.received
    ensures Inv(Insert(st, e)) && InQueue(Insert(st, e).queue, e.num)
  {
    hide InQueue, IsProbing, Live, Below;
    InsertQueue(st, e);
    hide QueueOk;
    assert Insert(st, e).received == st.received + {e.num};
  }

  /** A number that is in use or retired must not be queued. */
  lemma InsertBroken(st: State, e: Entry)
    requires Inv(st) && e.num in st.received && !InQueue(st.queue, e.num) && e.num != st.active
    ensures !Inv(Insert(st, e))
  {
    Found(st.queue, e.num);
    InsertPlaces(st.queue, Below(st.queue, e.num), e, e.num);
    hide Below, Live;
    var st' := Insert(st, e);
    assert InQueue(st'.queue, e.num);
    if IsProbing(st.probing, e.num) {
      assert !QueueOk(st');
    } else {
      assert e.num in st.retired;
      assert !RetiredOk(st');
    }
  }

  lemma InsertQueued(st: State, e: Entry)
    requires Inv(st) && InQueue(st.queue, e.num)
    ensures Insert(st, e) == st
  {
    Found(st.queue, e.num);
    hide Below;
    assert e.num in st.received;
    assert st.received + {e.num} == st.received;
  }

  /** Queueing a connection ID is right exactly if it is seen for the first time, or is still in the queue. */
  lemma InsertExact(st: State, e: Entry)
    requires Inv(st) && !Late(st, e.num) && e.num != st.active
    ensures Inv(Insert(st, e)) <==> e.num !in st.received || InQueue(st.queue, e.num)
  {
    hide Inv, Insert, InQueue;
    if e.num !in st.received {
      InsertInv(st, e);
    } else if InQueue(st.queue, e.num) {
      InsertQueued(st, e);
    } else {
      InsertBroken(st, e);
    }
  }

  /** updateConnectionID */
  function Update(st: State): State
    requires st.queue != []
  {
    var front := st.queue[0];
    st.(retired := st.retired + multiset{st.active}, highestRetired := Max(st.highestRetired, st.active),
        queue := st.queue[1..], active := front.num, activeToken := Some(front.token),
        live := st.live - ActiveBag(st.activeToken) + multiset{front.token})
  }

  /** Taking the front off the queue. */
  lemma FrontPlaces(queue: seq<Entry>, s: int)
    requires Sorted(queue) && queue != []
    ensures InQueue(queue, queue[0].num)
    ensures InQueue(queue[1..], s) <==> InQueue(queue, s) && s != queue[0].num
  {
    if InQueue(queue, s) && s != queue[0].num {
      var i :| 0 <= i < |queue| && queue[i].num == s;
      assert queue[1..][i - 1].num == s;
    }
  }

  lemma UpdateTokens(st: State)
    requires TokensOk(st) && !st.closed && st.queue != []
    ensures TokensOk(Update(st))
    ensures st.activeToken.Some? ==> st.activeToken.value in st.live
  {
    hide TokenMap, Bag;
  }

  lemma UpdatePlaces(st: State)
    requires QueueOk(st) && ProbingOk(st) && RetiredOk(st) && CoverOk(st) && st.queue != []
    ensures RetiredOk(Update(st)) && CoverOk(Update(st))
  {
    var st' := Update(st);
    forall s ensures InQueue(st'.queue, s) <==> InQueue(st.queue, s) && s != st'.active {
      FrontPlaces(st.queue, s);
    }
    FrontPlaces(st.queue, 0);
    assert !IsProbing(st.probing, st'.active) && !IsProbing(st.probing, st.active) && !InQueue(st.queue, st.active);
    hide InQueue, IsProbing, QueueOk, ProbingOk;
    assert forall s :: s in st'.retired <==> s in st.retired || s == st.active;
    assert forall s :: st'.retired[s] == st.retired[s] + if s == st.active then 1 else 0;
  }

  lemma UpdateQueue(st: State)
    requires QueueOk(st) && ProbingOk(st) && st.queue != []
    ensures QueueOk(Update(st)) && ProbingOk(Update(st)) && Update(st).active > st.active
  {
  }

  lemma UpdateInv(st: State)
    requires Inv(st) && !st.closed && st.queue != []
    ensures Inv(Update(st)) && Update(st).active > st.active
    ensures st.activeToken.Some? ==> st.activeToken.value in st.live
  {
    hide QueueOk, ProbingOk, RetiredOk, CoverOk, TokensOk;
    UpdateTokens(st);
    UpdatePlaces(st);
    UpdateQueue(st);
  }

  /** GetConnIDForPath takes the front of the queue for path p. */
  function TakePath(st: State, p: int): State
    requires st.queue != []
  {
    var front := st.queue[0];
    st.(queue := st.queue[1..], probing := st.probing[p := front], highestProbing := front.num,
        live := st.live + multiset{front.token})
  }

  lemma TokenMapInsert(m: map<int, Entry>, p: int, e: Entry)
    requires p !in m
    ensures TokenMap(m[p := e]) == TokenMap(m)[p := e.token] && p !in TokenMap(m)
  {
  }

  lemma TakePathTokens(st: State, p: int)
    requires TokensOk(st) && !st.closed && p !in st.probing && st.queue != []
    ensures TokensOk(TakePath(st, p))
  {
    var e := st.queue[0];
    TokenMapInsert(st.probing, p, e);
    hide TokenMap, Bag;
    BagInsert(TokenMap(st.probing), p, e.token);
  }

  lemma WithPath(probing: map<int, Entry>, p: int, e: Entry, s: int)
    requires p !in probing
    ensures IsProbing(probing[p := e], s) <==> IsProbing(probing, s) || s == e.num
  {
    var probing' := probing[p := e];
    assert probing'[p].num == e.num;
    if IsProbing(probing, s) {
      var q :| q in probing && probing[q].num == s;
      assert probing'[q].num == s;
    }
  }

  lemma TakePathQueue(st: State, p: int)
    requires QueueOk(st) && ProbingOk(st) && p !in st.probing && st.queue != [] && 0 <= st.active
    ensures QueueOk(TakePath(st, p)) && ProbingOk(TakePath(st, p))
  {
  }

  lemma TakePathInv(st: State, p: int)
    requires Inv(st) && !st.closed && p !in st.probing && st.queue != []
    ensures Inv(TakePath(st, p))
  {
    hide InQueue, IsProbing, Live;
    var st', num := TakePath(st, p), st.queue[0].num;
    TakePathTokens(st, p);
    TakePathQueue(st, p);
    assert num > st.active >= 0;
    forall s ensures InQueue(st'.queue, s) <==> InQueue(st.queue, s) && s != num {
      FrontPlaces(st.queue, s);
    }
    FrontPlaces(st.queue, 0);
    forall s ensures IsProbing(st'.probing, s) <==> IsProbing(st.probing, s) || s == num {
      WithPath(st.probing, p, st.queue[0], s);
    }
    hide QueueOk, ProbingOk, Once;
  }

  /** SetStatelessResetToken */
  function SetToken(st: State, t: Token): State {
    st.(activeToken := Some(t), live := st.live + multiset{t})
  }

  /** The token of the first connection ID may be set once. */
  lemma SetTokenExact(st: State, t: Token)
    requires Inv(st) && !st.closed
    ensures Inv(SetToken(st, t)) <==> st.activeToken.None?
  {
    var st' := SetToken(st, t);
    assert st.activeToken.Some? ==> |st'.live| == |ActiveBag(st'.activeToken) + Bag(TokenMap(st'.probing))| + 1;
  }

  /** Close */
  ghost function CloseAll(st: State): State {
    st.(closed := true, live := st.live - ActiveBag(st.activeToken) - Bag(TokenMap(st.probing)))
  }

  lemma CloseInv(st: State)
    requires Inv(st) && !st.closed
    ensures Inv(CloseAll(st)) && CloseAll(st).live == multiset{}
  {
  }

  /** The tokens of some of the paths. */
  ghost function TokensOf(m: map<int, Entry>, paths: set<int>): map<int, Token> {
    map p | p in m && p in paths :: m[p].token
  }

  lemma TokensAll(m: map<int, Entry>)
    ensures TokensOf(m, m.Keys) == TokenMap(m) && Bag(TokensOf(m, {})) == multiset{}
  {
    assert TokensOf(m, {}).Keys == {};
  }

  lemma TokensStep(m: map<int, Entry>, paths: set<int>, p: int)
    requires p in paths && paths <= m.Keys
    ensures Bag(TokensOf(m, paths)) == Bag(TokensOf(m, paths - {p})) + multiset{m[p].token}
  {
    assert TokensOf(m, paths - {p}) == TokensOf(m, paths) - {p};
    BagRemove(TokensOf(m, paths), p);
  }

  // ------------------------------------------------- NEW_CONNECTION_ID frames

  /** A NEW_CONNECTION_ID frame. Parsing has made sure that retirePriorTo <= num. */
  datatype NewConnectionId = NewConnectionId(num: int, retirePriorTo: int, id: ConnId, token: Token)

  function ToEntry(f: NewConnectionId): Entry {
    Entry(f.num, f.id, f.token)
  }

  function NumMap(m: map<int, Entry>): map<int, int> {
    map p | p in m :: m[p].num
  }

  /** Of the paths given, those whose connection ID is below r. */
  function PathsBelow(m: map<int, Entry>, r: int, paths: set<int>): map<int, Entry> {
    map p | p in m && p in paths && m[p].num < r :: m[p]
  }

  /** Retires the connection IDs of all paths below r. */
  ghost function RetireBelow(st: State, r: int): State {
    var gone := Gone(st.probing, r);
    st.(probing := st.probing - gone.Keys, retired := st.retired + Bag(NumMap(gone)),
        live := st.live - Bag(TokenMap(gone)))
  }

  lemma NoPaths(m: map<int, Entry>)
    requires m.Keys == {}
    ensures Bag(NumMap(m)) == multiset{} && Bag(TokenMap(m)) == multiset{}
  {
    assert NumMap(m).Keys == {} && TokenMap(m).Keys == {};
  }

  lemma OnePath(m: map<int, Entry>, p: int)
    requires p in m
    ensures Bag(NumMap(m)) == Bag(NumMap(m - {p})) + multiset{m[p].num}
    ensures Bag(TokenMap(m)) == Bag(TokenMap(m - {p})) + multiset{m[p].token}
  {
    assert NumMap(m) - {p} == NumMap(m - {p}) && TokenMap(m) - {p} == TokenMap(m - {p});
    BagRemove(NumMap(m), p);
    BagRemove(TokenMap(m), p);
  }

  ghost function Gone(probing: map<int, Entry>, r: int): map<int, Entry> {
    PathsBelow(probing, r, probing.Keys)
  }

  lemma GoneStep(probing: map<int, Entry>, r: int, p: int)
    requires p in probing && probing[p].num < r
    ensures Gone(probing - {p}, r) == Gone(probing, r) - {p}
    ensures probing - Gone(probing, r).Keys == (probing - {p}) - Gone(probing - {p}, r).Keys
  {
  }

  lemma BagAlgebra<T>(all: multiset<T>, rest: multiset<T>, x: T)
    ensures all - (rest + multiset{x}) == (all - multiset{x}) - rest
    ensures all + (rest + multiset{x}) == (all + multiset{x}) + rest
  {
  }

  /** One path at a time. */
  lemma RetireBelowStep(st: State, r: int, p: int)
    requires p in st.probing && st.probing[p].num < r
    ensures RetireBelow(st, r) == RetireBelow(RetirePath(st, p), r)
  {
    hide PathsBelow, Bag, NumMap, TokenMap;
    var gone := Gone(st.probing, r);
    assert p in gone && gone[p] == st.probing[p] by {
      GoneHas(st.probing, r, p);
    }
    GoneStep(st.probing, r, p);
    OnePath(gone, p);
    BagAlgebra(st.live, Bag(TokenMap(gone - {p})), gone[p].token);
    BagAlgebra(st.retired, Bag(NumMap(gone - {p})), gone[p].num);
  }

  lemma GoneHas(probing: map<int, Entry>, r: int, p: int)
    ensures p in Gone(probing, r) <==> p in probing && probing[p].num < r
    ensures p in Gone(probing, r) ==> Gone(probing, r)[p] == probing[p]
  {
  }

  lemma RetireNone(st: State, r: int)
    requires Gone(st.probing, r).Keys == {}
    ensures RetireBelow(st, r) == st
  {
    hide Bag;
    NoPaths(Gone(st.probing, r));
    assert st.probing - {} == st.probing;
  }

  lemma {:induction false} RetireBelowInv(st: State, r: int)
    requires Inv(st) && !st.closed
    ensures Inv(RetireBelow(st, r))
    decreases |st.probing|
  {
    hide Inv, RetireBelow, Gone;
    if Gone(st.probing, r).Keys == {} {
      RetireNone(st, r);
    } else {
      var p := AnyKey(Gone(st.probing, r));
      GoneHas(st.probing, r, p);
      RetirePathInv(st, p);
      RetireBelowStep(st, r, p);
      RemoveShrinks(st.probing, p);
      RetireBelowInv(RetirePath(st, p), r);
    }
  }

  /** Retire Prior To is obeyed for paths and queue. */
  ghost function RetirePrior(st: State, r: int): State {
    var st1 := if r != 0 then RetireBelow(st, r) else st;
    if r > st1.highestRetired then Drop(st1, r) else st1
  }

  /** The queue holds the same number with other contents. */
  ghost predicate Conflicting(queue: seq<Entry>, e: Entry) {
    exists i :: 0 <= i < |queue| && queue[i].num == e.num && queue[i] != e
  }

  /** The end of add: the active connection ID may have to be replaced. */
  ghost function Enter(st: State, f: NewConnectionId): State {
    var st1 := Insert(st, ToEntry(f));
    if !Conflicting(st.queue, ToEntry(f)) && st1.active < f.retirePriorTo && st1.queue != [] then Update(st1) else st1
  }

  /** add, unless connection IDs of length zero are in use */
  ghost function AddFrame(st: State, f: NewConnectionId): State {
    if Late(st, f.num) then RetireNow(st, f.num)
    else
      var st1 := RetirePrior(st, f.retirePriorTo);
      if f.num == st1.active then st1 else Enter(st1, f)
  }

  lemma RetirePriorInv(st: State, r: int)
    requires Inv(st) && !st.closed
    ensures Inv(RetirePrior(st, r)) && !RetirePrior(st, r).closed
    ensures RetirePrior(st, r).highestRetired == if r > st.highestRetired then r else st.highestRetired
    ensures RetirePrior(st, r).active == st.active && RetirePrior(st, r).highestProbing == st.highestProbing
    ensures RetirePrior(st, r).received == st.received
  {
    hide Inv, Bag;
    if r != 0 {
      RetireBelowInv(st, r);
    }
    var st1 := if r != 0 then RetireBelow(st, r) else st;
    if r > st1.highestRetired {
      DropInv(st1, r);
    }
  }

  lemma SortedQueue(st: State)
    requires Inv(st)
    ensures Sorted(st.queue)
  {
  }

  lemma RetirePriorQueue(st: State, r: int, num: int)
    requires Inv(st) && r <= num
    ensures InQueue(RetirePrior(st, r).queue, num) <==> InQueue(st.queue, num)
  {
    SortedQueue(st);
    hide Inv, Bag, InQueue;
    DropPlaces(st.queue, r, num);
  }

  lemma NeverLate(st: State, num: int)
    requires Inv(st) && InQueue(st.queue, num)
    ensures !Late(st, num) && num != st.active && num in st.received
  {
  }

  /** What addConnectionID does is right for this number. */
  ghost predicate Fresh(st: State, num: int) {
    num !in st.received || InQueue(st.queue, num) || (num == st.active && !Late(st, num))
  }

  /**
   A number that is queued although it is in use or retired stays wrong when the front of the queue
   becomes active.
   */
  lemma EnterBroken(st: State, f: NewConnectionId)
    requires Inv(st) && !Late(st, f.num) && f.num != st.active && f.num in st.received && !InQueue(st.queue, f.num)
    ensures !Inv(Enter(st, f))
  {
    assert IsProbing(st.probing, f.num) || f.num in st.retired;
    EnterPlaces(st, f);
    hide InQueue, IsProbing, Inv, Enter;
    if Inv(Enter(st, f)) {
      OnePlace(Enter(st, f), f.num);
    }
  }

  /** Where the number is after the frame. */
  lemma EnterPlaces(st: State, f: NewConnectionId)
    ensures var st2 := Enter(st, f);
            && (InQueue(st2.queue, f.num) || st2.active == f.num)
            && st2.probing == st.probing && st2.highestProbing == st.highestProbing && st.retired <= st2.retired
  {
    hide Conflicting;
    var e, k := ToEntry(f), Below(st.queue, f.num);
    InsertPlaces(st.queue, k, e, f.num);
    var st1 := Insert(st, e);
    assert InQueue(st1.queue, f.num);
    InsertFields(st, e);
    hide Insert, Below;
    var i :| 0 <= i < |st1.queue| && st1.queue[i].num == f.num;
    assert i == 0 || st1.queue[1..][i - 1].num == f.num;
  }

  lemma EnterInv(st: State, f: NewConnectionId)
    requires Inv(st) && !st.closed && !Late(st, f.num) && f.num != st.active
    requires f.num !in st.received || InQueue(st.queue, f.num)
    ensures Inv(Enter(st, f))
  {
    hide Inv, Insert, Conflicting;
    InsertExact(st, ToEntry(f));
    InsertFields(st, ToEntry(f));
    var st1 := Insert(st, ToEntry(f));
    if st1.queue != [] {
      UpdateInv(st1);
    }
  }

  lemma InsertFields(st: State, e: Entry)
    ensures Insert(st, e) == st.(queue := Insert(st, e).queue, received := st.received + {e.num})
  {
  }

  /** A frame keeps every number in one place, and retired at most once, exactly if its number is right. */
  lemma AddExact(st: State, f: NewConnectionId)
    requires Inv(st) && !st.closed && 0 <= f.retirePriorTo <= f.num
    ensures Inv(AddFrame(st, f)) <==> Fresh(st, f.num)
  {
    hide Inv, RetirePrior, Enter, RetireNow, InQueue;
    if InQueue(st.queue, f.num) {
      NeverLate(st, f.num);
    }
    if Late(st, f.num) {
      RetireNowExact(st, f.num);
    } else {
      var st1 := RetirePrior(st, f.retirePriorTo);
      RetirePriorInv(st, f.retirePriorTo);
      RetirePriorQueue(st, f.retirePriorTo, f.num);
      if f.num == st1.active {
      } else if f.num !in st1.received || InQueue(st1.queue, f.num) {
        EnterInv(st1, f);
      } else {
        EnterBroken(st1, f);
      }
    }
  }

  /** Every number in use is at least r. */
  ghost predicate Obeys(st: State, r: int) {
    && st.active >= r
    && (forall i :: 0 <= i < |st.queue| ==> st.queue[i].num >= r)
    && (forall p :: p in st.probing ==> st.probing[p].num >= r)
  }

  lemma RetirePriorObeys(st: State, r: int)
    requires Inv(st) && !st.closed && r >= 0
    ensures var st1 := RetirePrior(st, r);
            && (forall i :: 0 <= i < |st1.queue| ==> st1.queue[i].num >= r)
            && (forall p :: p in st1.probing ==> st1.probing[p].num >= r)
  {
    hide Bag;
    RetirePriorInv(st, r);
    var st1 := RetirePrior(st, r);
    assert QueueOk(st1);
  }

  /**
   Retire Prior To is obeyed, except by a frame that comes late: that one changes nothing about the
   numbers in use. A conflict closes the connection.
   */
  lemma AddObeys(st: State, f: NewConnectionId)
    requires Inv(st) && !st.closed && 0 <= f.retirePriorTo <= f.num && Fresh(st, f.num)
    requires !Conflicting(st.queue, ToEntry(f))
    ensures Obeys(AddFrame(st, f), f.retirePriorTo) <==> !Late(st, f.num) || Obeys(st, f.retirePriorTo)
  {
    hide Bag, Inv, InQueue;
    if !Late(st, f.num) {
      var st1 := RetirePrior(st, f.retirePriorTo);
      RetirePriorInv(st, f.retirePriorTo);
      RetirePriorObeys(st, f.retirePriorTo);
      RetirePriorQueue(st, f.retirePriorTo, f.num);
      KeptConflict(st, f);
      hide RetirePrior;
      if f.num != st1.active {
        EnterObeys(st1, f);
      }
    }
  }

  lemma KeptConflict(st: State, f: NewConnectionId)
    requires Inv(st)
    ensures Conflicting(RetirePrior(st, f.retirePriorTo).queue, ToEntry(f)) ==> Conflicting(st.queue, ToEntry(f))
  {
    hide Inv, Bag;
  }

  lemma InsertAbove(st: State, e: Entry, r: int)
    requires e.num >= r && forall i :: 0 <= i < |st.queue| ==> st.queue[i].num >= r
    ensures var q := Insert(st, e).queue; q != [] && forall i :: 0 <= i < |q| ==> q[i].num >= r
  {
    var k := Below(st.queue, e.num);
    hide Below;
    InsertEntries(st.queue, k, e, r);
  }

  lemma EnterObeys(st: State, f: NewConnectionId)
    requires !Conflicting(st.queue, ToEntry(f)) && f.num >= f.retirePriorTo
    requires forall i :: 0 <= i < |st.queue| ==> st.queue[i].num >= f.retirePriorTo
    requires forall p :: p in st.probing ==> st.probing[p].num >= f.retirePriorTo
    ensures Obeys(Enter(st, f), f.retirePriorTo)
  {
    hide Conflicting, Insert;
    InsertAbove(st, ToEntry(f), f.retirePriorTo);
    InsertFields(st, ToEntry(f));
  }

  /** The connection ID of the preferred address is queued without any check. */
  lemma PreferredExact(st: State, e: Entry)
    requires Inv(st) && e.num >= 0
    ensures Inv(Insert(st, e)) <==> InQueue(st.queue, e.num) || (e.num !in st.received && !Late(st, e.num))
  {
    if InQueue(st.queue, e.num) {
      NeverLate(st, e.num);
      InsertExact(st, e);
    } else if Late(st, e.num) || e.num == st.active {
      Found(st.queue, e.num);
      InsertPlaces(st.queue, Below(st.queue, e.num), e, e.num);
      hide Below;
      assert InQueue(Insert(st, e).queue, e.num);
      assert !QueueOk(Insert(st, e));
    } else {
      InsertExact(st, e);
    }
  }
}
