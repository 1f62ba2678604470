/** The path MTU search as a transition system, and what its runs have in common. */
module MtuModel {
  import opened Common

  const MaxMTUDiff: int := 20
  const MaxLostMTUProbes: int := 3

  /** The sizes of the smallest lost probes, sorted; free slots hold InvalidByteCount and come last. */
  type Lost = s: seq<int> | |s| == MaxLostMTUProbes witness [0, 0, 0]

  datatype Search = Search(
    min: int,
    lost: Lost,
    lastProbeWasLost: bool,
    losses: seq<int>)         // history: the sizes of all probes lost so far

  function InitLost(max: int): Lost { [max, InvalidByteCount, InvalidByteCount] }

  /** The number of occupied slots. */
  function Used(lost: Lost): int {
    if lost[1] == InvalidByteCount then 1 else if lost[2] == InvalidByteCount then 2 else 3
  }

  /** The largest size still considered possible. */
  function MaxOf(lost: Lost): int { lost[Used(lost) - 1] }

  function Done(s: Search): bool { MaxOf(s.lost) - s.min <= MaxMTUDiff + 1 }

  function ProbeSize(s: Search): int {
    if s.lastProbeWasLost then (s.min + s.lost[0]) / 2 else (s.min + MaxOf(s.lost)) / 2
  }

  /** Index of the first entry larger than size; 0 if there is none. */
  function FirstLarger(lost: Lost, size: int): int {
    if size < lost[0] then 0 else if size < lost[1] then 1 else if size < lost[2] then 2 else 0
  }

  function ShiftLeft(lost: Lost, j: int): Lost {
    if j == 0 then lost
    else if j == 1 then [lost[1], lost[2], InvalidByteCount]
    else [lost[2], InvalidByteCount, InvalidByteCount]
  }

  function InsertLost(lost: Lost, size: int): Lost {
    if size < lost[0] then [size, lost[0], lost[1]]
    else if size < lost[1] then [lost[0], size, lost[1]]
    else if size < lost[2] then [lost[0], lost[1], size]
    else lost
  }

  function AfterAck(s: Search, size: int): Search {
    s.(min := size, lost := ShiftLeft(s.lost, FirstLarger(s.lost, size)), lastProbeWasLost := false)
  }

  function AfterLoss(s: Search, size: int): Search {
    s.(lost := InsertLost(s.lost, size), lastProbeWasLost := true, losses := s.losses + [size])
  }

  /** One probe and its outcome; nothing is probed once the search is done. */
  function Step(s: Search, acked: bool): Search {
    if Done(s) then s else if acked then AfterAck(s, ProbeSize(s)) else AfterLoss(s, ProbeSize(s))
  }

  function Run(s: Search, outcomes: seq<bool>): Search
    decreases |outcomes|
  {
    if outcomes == [] then s else Run(Step(s, outcomes[0]), outcomes[1..])
  }

  // ------------------------------------------------------------ invariant

  /** Sorted, sentinels last, nothing below min, and not empty. */
  predicate LostOk(lost: Lost, min: int) {
    && 0 <= min <= lost[0]
    && (if lost[1] == InvalidByteCount then lost[2] == InvalidByteCount else lost[0] <= lost[1])
    && (lost[2] == InvalidByteCount || lost[1] <= lost[2])
  }

  function CountUpTo(sizes: seq<int>, x: int): nat {
    if sizes == [] then 0
    else CountUpTo(sizes[..|sizes| - 1], x) + if sizes[|sizes| - 1] <= x then 1 else 0
  }

  lemma CountAppend(sizes: seq<int>, size: int, x: int)
    ensures CountUpTo(sizes + [size], x) == CountUpTo(sizes, x) + if size <= x then 1 else 0
  {
    assert (sizes + [size])[..|sizes|] == sizes;
  }

  lemma {:induction false} CountMonotone(sizes: seq<int>, x: int, y: int)
    requires x <= y
    ensures CountUpTo(sizes, x) <= CountUpTo(sizes, y)
  {
    if sizes != [] {
      CountMonotone(sizes[..|sizes| - 1], x, y);
    }
  }

  /** Entry i is the initial maximum (and then the last one), or i + 1 probes of at most that size were lost. */
  ghost predicate Witnessed(s: Search, max: int, i: int)
    requires 0 <= i < 3
  {
    (s.lost[i] == max && i == Used(s.lost) - 1) || CountUpTo(s.losses, s.lost[i]) >= i + 1
  }

  ghost predicate Inv(s: Search, max: int) {
    && LostOk(s.lost, s.min)
    && MaxOf(s.lost) <= max
    && (forall i :: 0 <= i < Used(s.lost) ==> Witnessed(s, max, i))
    // the maximum came down only after three losses
    && (MaxOf(s.lost) == max || CountUpTo(s.losses, MaxOf(s.lost)) >= MaxLostMTUProbes)
  }

  lemma ProbeInRange(s: Search, max: int)
    requires Inv(s, max) && !Done(s)
    ensures s.min <= ProbeSize(s) < MaxOf(s.lost)
    ensures !s.lastProbeWasLost ==> s.min < ProbeSize(s)
  {
  }

  lemma AckInv(s: Search, max: int, size: int)
    requires Inv(s, max) && s.min <= size < MaxOf(s.lost)
    ensures Inv(AfterAck(s, size), max)
    ensures MaxOf(AfterAck(s, size).lost) == MaxOf(s.lost)
  {
    var s' := AfterAck(s, size);
    var j := FirstLarger(s.lost, size);
    forall i | 0 <= i < Used(s'.lost) ensures Witnessed(s', max, i) {
      assert Witnessed(s, max, i + j);
    }
  }

  lemma LossInv(s: Search, max: int, size: int)
    requires Inv(s, max) && s.min <= size < MaxOf(s.lost)
    ensures Inv(AfterLoss(s, size), max)
    ensures MaxOf(AfterLoss(s, size).lost) <= MaxOf(s.lost)
  {
    var s' := AfterLoss(s, size);
    var j := FirstLarger(s.lost, size);
    forall i | 0 <= i < Used(s'.lost) ensures Witnessed(s', max, i) {
      var x := s'.lost[i];
      CountAppend(s.losses, size, x);
      if i < j {
        assert Witnessed(s, max, i);
      } else if i == j {
        if j > 0 {
          assert Witnessed(s, max, j - 1);
          CountMonotone(s.losses, s.lost[j - 1], x);
        }
      } else {
        assert Witnessed(s, max, i - 1);
      }
    }
    var m := MaxOf(s'.lost);
    CountAppend(s.losses, size, m);
    if m != MaxOf(s.lost) {
      assert Witnessed(s', max, 2);
    }
  }

  lemma StepInv(s: Search, max: int, acked: bool)
    requires Inv(s, max)
    ensures Inv(Step(s, acked), max)
    ensures s.min <= Step(s, acked).min
    ensures MaxOf(Step(s, acked).lost) <= MaxOf(s.lost)
  {
    if !Done(s) {
      ProbeInRange(s, max);
      if acked {
        AckInv(s, max, ProbeSize(s));
      } else {
        LossInv(s, max, ProbeSize(s));
      }
    }
  }

  function Start(start: int, max: int): Search { Search(start, InitLost(max), false, []) }

  /** The path only delivers probes of at most mtu bytes (and may lose those, too). */
  ghost predicate OnPath(s: Search, outcomes: seq<bool>, mtu: int)
    decreases |outcomes|
  {
    outcomes == [] ||
    ((!Done(s) && outcomes[0] ==> ProbeSize(s) <= mtu) && OnPath(Step(s, outcomes[0]), outcomes[1..], mtu))
  }

  /** The peer accepts less than the size the search would start from: there is nothing to find. */
  ghost predicate NothingToFind(s: Search, max: int) {
    s == Start(s.min, max) && 0 <= max < s.min
  }

  lemma StartOk(start: int, max: int)
    requires 0 <= start && 0 <= max
    ensures if start <= max then Inv(Start(start, max), max)
            else NothingToFind(Start(start, max), max) && Done(Start(start, max))
  {
    assert start <= max ==> Witnessed(Start(start, max), max, 0);
  }

  // ------------------------------------------------------------- accuracy

  lemma {:induction false} RunInv(s: Search, outcomes: seq<bool>, max: int)
    requires Inv(s, max)
    ensures Inv(Run(s, outcomes), max)
    ensures s.min <= Run(s, outcomes).min && MaxOf(Run(s, outcomes).lost) <= MaxOf(s.lost)
    decreases |outcomes|
  {
    if outcomes != [] {
      StepInv(s, max, outcomes[0]);
      RunInv(Step(s, outcomes[0]), outcomes[1..], max);
    }
  }

  lemma {:induction false} NeverTooLarge(s: Search, outcomes: seq<bool>, mtu: int)
    requires OnPath(s, outcomes, mtu) && s.min <= mtu
    ensures Run(s, outcomes).min <= mtu
    decreases |outcomes|
  {
    if outcomes != [] {
      NeverTooLarge(Step(s, outcomes[0]), outcomes[1..], mtu);
    }
  }

  /**
   The search never exceeds the path MTU. If at most two probes that fit were lost, it ends at most
   MaxMTUDiff + 1 bytes below it.
   */
  lemma Accuracy(start: int, max: int, mtu: int, outcomes: seq<bool>)
    requires 0 <= start <= mtu <= max && OnPath(Start(start, max), outcomes, mtu)
    ensures var end := Run(Start(start, max), outcomes);
            && end.min <= mtu
            && (CountUpTo(end.losses, mtu) < MaxLostMTUProbes && Done(end) ==> end.min >= mtu - (MaxMTUDiff + 1))
  {
    var s := Start(start, max);
    var end := Run(s, outcomes);
    StartOk(start, max);
    RunInv(s, outcomes, max);
    NeverTooLarge(s, outcomes, mtu);
    if MaxOf(end.lost) < mtu {
      CountMonotone(end.losses, MaxOf(end.lost), mtu);
    }
  }

  // ---------------------------------------------------------- termination

  function One(b: bool): int { if b then 1 else 0 }

  /** Number of entries equal to x, and larger than x. */
  function Equal(lost: Lost, x: int): int { One(lost[0] == x) + One(lost[1] == x) + One(lost[2] == x) }

  function Larger(lost: Lost, x: int): int { One(lost[0] > x) + One(lost[1] > x) + One(lost[2] > x) }

  /**
   Bounds the number of probes still to come: lexicographically, the search interval, the entries at
   its upper end, the slots free above min, whether the last probe was lost, the entries not at min.
   */
  function Rank(s: Search): int {
    var m := MaxOf(s.lost);
    (m - s.min) * 128 + Equal(s.lost, m) * 32 + (3 - Larger(s.lost, s.min)) * 8 + One(s.lastProbeWasLost) * 4
      + (3 - Equal(s.lost, s.min))
  }

  lemma AckRank(s: Search, max: int)
    requires Inv(s, max) && !Done(s)
    ensures Rank(AfterAck(s, ProbeSize(s))) < Rank(s)
  {
    ProbeInRange(s, max);
    AckInv(s, max, ProbeSize(s));
  }

  lemma LossRank(s: Search, max: int)
    requires Inv(s, max) && !Done(s)
    ensures Rank(AfterLoss(s, ProbeSize(s))) < Rank(s)
  {
    ProbeInRange(s, max);
    LossInv(s, max, ProbeSize(s));
  }

  lemma RankPositive(s: Search, max: int)
    requires Inv(s, max)
    ensures Rank(s) >= 0
  {
  }

  /** Whatever is acknowledged or lost, the search ends after at most Rank(s) probes. */
  lemma {:induction false} Termination(s: Search, outcomes: seq<bool>, max: int)
    requires Inv(s, max) && |outcomes| >= Rank(s)
    ensures Done(Run(s, outcomes))
    decreases |outcomes|
  {
    if Done(s) {
      StaysDone(s, outcomes);
    } else {
      StepInv(s, max, outcomes[0]);
      AckRank(s, max);
      LossRank(s, max);
      RankPositive(Step(s, outcomes[0]), max);
      Termination(Step(s, outcomes[0]), outcomes[1..], max);
    }
  }

  lemma {:induction false} StaysDone(s: Search, outcomes: seq<bool>)
    requires Done(s)
    ensures Run(s, outcomes) == s
    decreases |outcomes|
  {
    if outcomes != [] {
      StaysDone(s, outcomes[1..]);
    }
  }
}
