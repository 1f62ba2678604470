/** Path MTU discovery: a binary search that tolerates the loss of two probes. */
module MtuFinder {
  import opened Common
  import opened MtuModel

  class MtuFinder {
    var inFlight: int
    var min: int
    const lost: array<int>
    var lastProbeWasLost: bool
    var generation: int    // uint8

    ghost var losses: seq<int>   // probes lost in this generation
    ghost var limit: int         // the maximum of this generation

    ghost function St(): Search
      requires lost.Length == MaxLostMTUProbes
      reads this, lost
    {
      Search(min, lost[..], lastProbeWasLost, losses)
    }

    ghost predicate Valid()
      reads this, lost
    {
      && lost.Length == MaxLostMTUProbes
      && 0 <= generation < 256
      && (Inv(St(), limit) || NothingToFind(St(), limit))
      && (inFlight == InvalidByteCount || (inFlight == ProbeSize(St()) && !Done(St())))
    }

    constructor (start: int, max: int)
      requires 0 <= start && 0 <= max
      ensures Valid() && fresh(lost)
      ensures St() == Start(start, max) && limit == max && inFlight == InvalidByteCount && generation == 0
    {
      inFlight, generation, lastProbeWasLost := InvalidByteCount, 0, false;
      min, losses, limit := start, [], max;
      lost := new int[3];
      new;
      InitArray(max);
      StartOk(start, max);
    }

    /** The loop of mtuFinder.init. */
    method InitArray(max: int)
      requires lost.Length == MaxLostMTUProbes
      modifies lost
      ensures lost[..] == InitLost(max)
    {
      for i := 0 to lost.Length
        invariant i > 0 ==> lost[0] == max
        invariant forall j :: 1 <= j < i ==> lost[j] == InvalidByteCount
      {
        if i == 0 {
          lost[i] := max;
        } else {
          lost[i] := InvalidByteCount;
        }
      }
    }

    method Max() returns (m: int)
      requires lost.Length == MaxLostMTUProbes && lost[0] != InvalidByteCount
      ensures m == MaxOf(lost[..])
    {
      for i := 0 to lost.Length
        invariant forall j :: 0 <= j < i ==> lost[j] != InvalidByteCount
      {
        if lost[i] == InvalidByteCount {
          return lost[i - 1];
        }
      }
      return lost[lost.Length - 1];
    }

    method IsDone() returns (done: bool)
      requires Valid()
      ensures done <==> Done(St())
    {
      var m := Max();
      done := m - min <= MaxMTUDiff + 1;
    }

    /** timeElapsed: discovery was started and mtuProbeDelay round trips went by since the last probe. */
    method ShouldSendProbe(timeElapsed: bool) returns (should: bool)
      requires Valid()
      ensures should ==> inFlight == InvalidByteCount && !Done(St())
      ensures should <==> timeElapsed && inFlight == InvalidByteCount && MaxOf(lost[..]) - min > MaxMTUDiff + 1
    {
      var done := IsDone();
      if inFlight != InvalidByteCount || done {
        return false;
      }
      return timeElapsed;
    }

    /** Sends a probe; called only after ShouldSendProbe. */
    method GetPing() returns (size: int, gen: int)
      requires Valid() && inFlight == InvalidByteCount && !Done(St())
      modifies this`inFlight
      ensures Valid() && inFlight == size && gen == generation
      ensures min <= size < MaxOf(lost[..])
      ensures var hi := if lastProbeWasLost then lost[0] else MaxOf(lost[..]); size - min <= hi - size <= size - min + 1
    {
      ProbeInRange(St(), limit);
      if lastProbeWasLost {
        size := (min + lost[0]) / 2;
      } else {
        var m := Max();
        size := (min + m) / 2;
      }
      inFlight := size;
      gen := generation;
    }

    method Reset(start: int, max: int)
      requires Valid() && 0 <= start && 0 <= max
      modifies this, lost
      ensures Valid() && St() == Start(start, max) && limit == max && inFlight == InvalidByteCount
      ensures generation != old(generation)
    {
      generation := (generation + 1) % 256;
      lastProbeWasLost, inFlight := false, InvalidByteCount;
      min, losses, limit := start, [], max;
      InitArray(max);
      StartOk(start, max);
    }

    /** Drops the first j entries. */
    method ShiftArray(j: int)
      requires lost.Length == MaxLostMTUProbes && 0 <= j < 3
      modifies lost
      ensures lost[..] == ShiftLeft(old(lost[..]), j)
    {
      if j > 0 {
        for i := 0 to lost.Length
          invariant forall k :: 0 <= k < i ==>
                    lost[k] == if k + j < lost.Length then old(lost[k + j]) else InvalidByteCount
          invariant forall k :: i <= k < lost.Length ==> lost[k] == old(lost[k])
        {
          if i + j < lost.Length {
            lost[i] := lost[i + j];
          } else {
            lost[i] := InvalidByteCount;
          }
        }
      }
    }

    /** The probe in flight was acknowledged. Acknowledgments of an older generation are ignored. */
    method OnAcked(gen: int) returns (panicked: bool)
      requires Valid()
      modifies this, lost
      ensures Valid() && generation == old(generation) && limit == old(limit)
      ensures panicked <==> gen == generation && old(inFlight) == InvalidByteCount
      ensures gen != generation || panicked ==> St() == old(St()) && inFlight == old(inFlight)
      ensures gen == generation && !panicked ==> St() == Step(old(St()), true) && inFlight == InvalidByteCount
    {
      if gen != generation {
        return false;
      }
      var size := inFlight;
      if size == InvalidByteCount {
        return true;
      }
      ghost var s := St();
      StepInv(s, limit, true);
      inFlight := InvalidByteCount;
      min := size;
      lastProbeWasLost := false;
      var j := 0;
      for i := 0 to lost.Length
        invariant j == 0 && forall k :: 0 <= k < i ==> lost[k] <= size
      {
        if size < lost[i] {
          j := i;
          break;
        }
      }
      assert j == FirstLarger(s.lost, size);
      ShiftArray(j);
      assert St() == Step(s, true);
      return false;
    }

    /** The probe in flight was lost. Losses of an older generation are ignored. */
    method OnLost(gen: int) returns (panicked: bool)
      requires Valid()
      modifies this, lost
      ensures Valid() && generation == old(generation) && limit == old(limit)
      ensures panicked <==> gen == generation && old(inFlight) == InvalidByteCount
      ensures gen != generation || panicked ==> St() == old(St()) && inFlight == old(inFlight)
      ensures gen == generation && !panicked ==> St() == Step(old(St()), false) && inFlight == InvalidByteCount
    {
      if gen != generation {
        return false;
      }
      var size := inFlight;
      if size == InvalidByteCount {
        return true;
      }
      ghost var s := St();
      StepInv(s, limit, false);
      lastProbeWasLost := true;
      inFlight := InvalidByteCount;
      losses := losses + [size];
      InsertLoss(size);
      assert St() == Step(s, false);
      return false;
    }

    /** Inserts size before the first larger entry, if there is one. */
    method InsertLoss(size: int)
      requires lost.Length == MaxLostMTUProbes
      modifies lost
      ensures lost[..] == InsertLost(old(lost[..]), size)
    {
      for i := 0 to lost.Length
        invariant lost[..] == old(lost[..]) && forall k :: 0 <= k < i ==> lost[k] <= size
      {
        if size < lost[i] {
          InsertAt(i, size);
          break;
        }
      }
    }

    /** copy(lost[i+1:], lost[i:]); lost[i] = size */
    method InsertAt(i: int, size: int)
      requires lost.Length == MaxLostMTUProbes && 0 <= i < 3
      modifies lost
      ensures lost[..] == (old(lost[..])[..i] + [size] + old(lost[..])[i..])[..3]
    {
      var k := lost.Length - 1;
      while k > i
        invariant i <= k < lost.Length
        invariant forall n :: 0 <= n <= k ==> lost[n] == old(lost[n])
        invariant forall n :: k < n < lost.Length ==> lost[n] == old(lost[n - 1])
      {
        lost[k] := lost[k - 1];
        k := k - 1;
      }
      lost[i] := size;
    }
  }
}
