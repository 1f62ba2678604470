/** The MTU search is a binary search: a probe halves an interval, and the search takes logarithmic time. */
module MtuBisection {
  import opened Common
  import opened MtuModel

  /** The upper end of the interval that is probed: after a loss, the smallest size lost. */
  function Upper(s: Search): int { if s.lastProbeWasLost then s.lost[0] else MaxOf(s.lost) }

  /** The interval in which the MTU is searched. */
  function Width(s: Search): int { MaxOf(s.lost) - s.min }

  /**
   An acknowledgment leaves at most half of the interval probed above the new size, rounded up. If the
   last probe was not lost, that is half of the whole interval. A loss leaves at most half of the interval
   probed below the smallest size lost.
   */
  lemma Halves(s: Search, max: int)
    requires Inv(s, max) && !Done(s)
    ensures var acked, lost, n := Step(s, true), Step(s, false), Upper(s) - s.min;
            && Upper(s) - acked.min <= (n + 1) / 2 && acked.min >= s.min && MaxOf(acked.lost) == MaxOf(s.lost)
            && (!s.lastProbeWasLost ==> Width(acked) <= (Width(s) + 1) / 2)
            && lost.lost[0] - lost.min <= n / 2 && lost.min == s.min
            && (lost.lost[0] == s.lost[0] || lost.lost[0] - lost.min >= n / 2)
  {
    ProbeInRange(s, max);
    AckInv(s, max, ProbeSize(s));
  }

  // ------------------------------------------------------------ number of probes

  /** The number of sizes lost that are above min, by at most t. */
  function Near(s: Search, t: int): int {
    One(s.min < s.lost[0] <= s.min + t) + One(s.min < s.lost[1] <= s.min + t) + One(s.min < s.lost[2] <= s.min + t)
  }

  /**
   Bounds the number of probes until the interval is at most t: three sizes near min have to be lost. After
   a loss, probes may go below the smallest size lost; the last of them may have size min itself, which
   can only be lost if an acknowledged size can.
   */
  function PhaseRank(s: Search, t: int, lossy: bool): int {
    if lossy then (3 - Near(s, t)) * 4 + (if s.lastProbeWasLost then 3 - Equal(s.lost, s.min) else 0)
    else (3 - Near(s, t)) * 2 + One(s.lastProbeWasLost)
  }

  /** The most probes it takes to halve the interval. */
  function PhaseLength(lossy: bool): nat { if lossy then 12 else 6 }

  lemma RankRange(s: Search, max: int, t: int, lossy: bool)
    requires Inv(s, max) && 0 < t < Width(s)
    ensures var rank := PhaseRank(s, t, lossy); if lossy then 4 <= rank <= 15 else 2 <= rank <= 7
  {
  }

  lemma AckPhase(s: Search, max: int, t: int, lossy: bool)
    requires Inv(s, max) && !Done(s) && 0 < t < Width(s) <= 2 * t
    ensures var s' := Step(s, true); Width(s') <= t || PhaseRank(s', t, lossy) < PhaseRank(s, t, lossy)
  {
    ProbeInRange(s, max);
    AckInv(s, max, ProbeSize(s));
  }

  lemma LossPhase(s: Search, max: int, t: int, lossy: bool)
    requires Inv(s, max) && !Done(s) && 0 < t < Width(s) <= 2 * t && (lossy || ProbeSize(s) > s.min)
    ensures var s' := Step(s, false); Width(s') <= t || PhaseRank(s', t, lossy) < PhaseRank(s, t, lossy)
  {
    ProbeInRange(s, max);
    LossInv(s, max, ProbeSize(s));
  }

  /** No probe is lost whose size was acknowledged before. */
  ghost predicate OnlyLarger(s: Search, outcomes: seq<bool>)
    decreases |outcomes|
  {
    outcomes == [] ||
    ((!Done(s) && !outcomes[0] ==> ProbeSize(s) > s.min) && OnlyLarger(Step(s, outcomes[0]), outcomes[1..]))
  }

  lemma WidthShrinks(s: Search, max: int, outcomes: seq<bool>)
    requires Inv(s, max)
    ensures Inv(Run(s, outcomes), max) && Width(Run(s, outcomes)) <= Width(s)
  {
    hide Inv;
    RunInv(s, outcomes, max);
  }

  /** Enough probes halve the interval. */
  lemma {:induction false} PhaseEnds(s: Search, max: int, t: int, lossy: bool, outcomes: seq<bool>)
    requires Inv(s, max) && MaxMTUDiff + 1 <= t && Width(s) <= 2 * t && (lossy || OnlyLarger(s, outcomes))
    requires Width(s) > t ==> |outcomes| >= PhaseRank(s, t, lossy) - (if lossy then 3 else 1)
    ensures Width(Run(s, outcomes)) <= t
    decreases |outcomes|
  {
    hide Inv, PhaseRank, ProbeSize, Step;
    WidthShrinks(s, max, outcomes);
    if Width(s) > t {
      RankRange(s, max, t, lossy);
      var s' := Step(s, outcomes[0]);
      StepInv(s, max, outcomes[0]);
      if outcomes[0] {
        AckPhase(s, max, t, lossy);
      } else {
        LossPhase(s, max, t, lossy);
      }
      PhaseEnds(s', max, t, lossy, outcomes[1..]);
    }
  }

  function Pow2(k: nat): nat { if k == 0 then 1 else 2 * Pow2(k - 1) }

  lemma {:induction false} RunSplit(s: Search, a: seq<bool>, b: seq<bool>)
    ensures Run(s, a + b) == Run(Run(s, a), b)
    ensures OnlyLarger(s, a + b) ==> OnlyLarger(s, a) && OnlyLarger(Run(s, a), b)
    decreases |a|
  {
    if a == [] {
      assert a + b == b;
    } else {
      assert (a + b)[1..] == a[1..] + b && (a + b)[0] == a[0];
      RunSplit(Step(s, a[0]), a[1..], b);
    }
  }

  /**
   The search takes logarithmic time. Whatever is acknowledged or lost, an interval of (MaxMTUDiff + 1) *
   2^k bytes is searched with 12 k probes; and with 6 k probes, if no size is lost that was acknowledged
   before.
   */
  lemma {:induction false} LogTime(s: Search, max: int, k: nat, lossy: bool, outcomes: seq<bool>)
    requires Inv(s, max) && Width(s) <= (MaxMTUDiff + 1) * Pow2(k) && (lossy || OnlyLarger(s, outcomes))
    requires |outcomes| >= PhaseLength(lossy) * k
    ensures Done(Run(s, outcomes))
    decreases k
  {
    hide Inv, Run, OnlyLarger;
    if k == 0 {
      StaysDone(s, outcomes);
    } else {
      var n, t := PhaseLength(lossy), (MaxMTUDiff + 1) * Pow2(k - 1);
      PowPositive(k - 1);
      assert n * k == n * (k - 1) + n;
      assert n * (k - 1) >= 0;
      var a, b := outcomes[..n], outcomes[n..];
      assert outcomes == a + b;
      RunSplit(s, a, b);
      if Width(s) > t {
        RankRange(s, max, t, lossy);
      }
      PhaseEnds(s, max, t, lossy, a);
      WidthShrinks(s, max, a);
      LogTime(Run(s, a), max, k - 1, lossy, b);
    }
  }

  lemma {:induction false} PowPositive(k: nat)
    ensures Pow2(k) >= 1
  {
    if k > 0 {
      PowPositive(k - 1);
    }
  }

  /** The path delivers exactly the probes of at most mtu bytes. */
  ghost predicate Reliable(s: Search, outcomes: seq<bool>, mtu: int)
    decreases |outcomes|
  {
    outcomes == [] ||
    ((!Done(s) ==> (outcomes[0] <==> ProbeSize(s) <= mtu)) && Reliable(Step(s, outcomes[0]), outcomes[1..], mtu))
  }

  lemma {:induction false} ReliableLoses(s: Search, outcomes: seq<bool>, mtu: int)
    requires Reliable(s, outcomes, mtu) && s.min <= mtu
    ensures OnlyLarger(s, outcomes) && OnPath(s, outcomes, mtu)
    ensures CountUpTo(Run(s, outcomes).losses, mtu) == CountUpTo(s.losses, mtu)
    decreases |outcomes|
  {
    if outcomes != [] {
      var s' := Step(s, outcomes[0]);
      CountAppend(s.losses, ProbeSize(s), mtu);
      ReliableLoses(s', outcomes[1..], mtu);
    }
  }

  /**
   On a path that loses only what is too large, the search started at `start` ends after 6 k probes, where
   2^k times MaxMTUDiff + 1 covers the distance to the maximum, at most MaxMTUDiff + 1 bytes below the MTU.
   */
  lemma FindsMtu(start: int, max: int, mtu: int, k: nat, outcomes: seq<bool>)
    requires 0 <= start <= mtu <= max <= start + (MaxMTUDiff + 1) * Pow2(k)
    requires Reliable(Start(start, max), outcomes, mtu) && |outcomes| >= 6 * k
    ensures var end := Run(Start(start, max), outcomes); Done(end) && mtu - (MaxMTUDiff + 1) <= end.min <= mtu
  {
    hide Run, Reliable, OnlyLarger, OnPath;
    var s := Start(start, max);
    StartOk(start, max);
    ReliableLoses(s, outcomes, mtu);
    LogTime(s, max, k, false, outcomes);
    Accuracy(start, max, mtu, outcomes);
  }
}
