/**
 A sliding window over sequence numbers, for detecting duplicates. The bitfield is a sequence of 128
 bits, the least significant one first; bit i stands for the sequence number upper - i.
 */
module SeqNumWindow {
  import opened Common

  const WindowSize: int := 128
  const U64Max: int := 0xffff_ffff_ffff_ffff
  const U32Count: int := 0x1_0000_0000

  datatype Window = Window(lower: int, bits: seq<bool>)

  /** u64::saturating_add */
  function SaturatingAdd(a: int, b: int): int { Min(a + b, U64Max) }

  function Upper(w: Window): int { SaturatingAdd(w.lower, WindowSize) - 1 }

  function Zero(): seq<bool> { seq(WindowSize, i => false) }

  function Empty(): Window { Window(0, Zero()) }

  /** u128::checked_shl, which fails if all bits would be shifted out; then zero. */
  function CheckedShl(bits: seq<bool>, d: int): (r: seq<bool>)
    requires |bits| == WindowSize && d >= 0
    ensures |r| == WindowSize
  {
    if d >= WindowSize then Zero() else seq(WindowSize, i requires 0 <= i < WindowSize => i >= d && bits[i - d])
  }

  /** The window moved up, so that seq is its upper end. The distance is cut to 32 bits before shifting. */
  function Slide(w: Window, s: int): Window
    requires |w.bits| == WindowSize && s > Upper(w)
  {
    var diff := s - Upper(w);
    Window(w.lower + diff, CheckedShl(w.bits, diff % U32Count))
  }

  /** insert; None if the subtraction upper - seq overflows. */
  function Put(w: Window, s: int): Option<Window>
    requires |w.bits| == WindowSize
  {
    if s < w.lower then Some(w)
    else
      var w' := if s > Upper(w) then Slide(w, s) else w;
      var bit := Upper(w') - s;
      if 0 <= bit < WindowSize then Some(w'.(bits := w'.bits[bit := true])) else None
  }

  function Member(w: Window, s: int): bool
    requires |w.bits| == WindowSize
  {
    if s > Upper(w) then false
    else if s < w.lower then true
    else var bit := Upper(w) - s; bit < WindowSize && w.bits[bit]
  }

  // ------------------------------------------------------------- invariant

  /** The lower end is 127 below the largest number inserted, and everything inserted is seen. */
  ghost predicate Inv(w: Window, inserted: set<int>) {
    && |w.bits| == WindowSize && 0 <= w.lower && w.lower + WindowSize <= U64Max
    && (forall s :: s in inserted ==> 0 <= s <= Upper(w))
    && (w.lower > 0 ==> Upper(w) in inserted)
    && (forall s :: s in inserted && s >= w.lower ==> w.bits[Upper(w) - s])
  }

  /** The window shows nothing that was not inserted. */
  ghost predicate Exact(w: Window, inserted: set<int>)
    requires |w.bits| == WindowSize
  {
    forall i :: 0 <= i < WindowSize && w.bits[i] ==> Upper(w) - i in inserted
  }

  /** The jump is far enough to leave the whole window behind, but after cutting it to 32 bits some bits stay. */
  ghost predicate Stale(w: Window, s: int)
    requires |w.bits| == WindowSize
  {
    var diff := s - Upper(w);
    var d := diff % U32Count;
    diff >= WindowSize && exists i :: 0 <= i < WindowSize && w.bits[i] && 0 < i + d < WindowSize
  }

  lemma Bounds(w: Window, inserted: set<int>)
    requires Inv(w, inserted)
    ensures |w.bits| == WindowSize && 0 <= w.lower && Upper(w) == w.lower + WindowSize - 1
  {
  }

  /** Any number but the largest 64-bit number can be inserted. */
  lemma InsertDefined(w: Window, inserted: set<int>, s: int)
    requires Inv(w, inserted) && 0 <= s <= U64Max
    ensures Put(w, s).Some? <==> s != U64Max
  {
  }

  /** Where a bit of the window comes from after a jump. */
  lemma SlidBit(w: Window, s: int, i: int)
    requires |w.bits| == WindowSize && s > Upper(w) && 0 <= i < WindowSize
    ensures var d := (s - Upper(w)) % U32Count;
            Slide(w, s).bits[i] <==> d <= i && w.bits[i - d]
  {
  }

  lemma SlideInv(w: Window, inserted: set<int>, s: int)
    requires Inv(w, inserted) && Upper(w) < s < U64Max
    ensures Inv(Slide(w, s).(bits := Slide(w, s).bits[0 := true]), inserted + {s})
  {
    var w' := Slide(w, s);
    assert Upper(w') == s && w'.lower == w.lower + (s - Upper(w));
    forall x | x in inserted && x >= w'.lower ensures w'.bits[s - x] {
      assert s - Upper(w) < WindowSize;
      SlidBit(w, s, s - x);
    }
    hide Slide, CheckedShl;
  }

  lemma InsertInv(w: Window, inserted: set<int>, s: int)
    requires Inv(w, inserted) && 0 <= s < U64Max
    ensures Put(w, s).Some? && Inv(Put(w, s).value, inserted + {s})
  {
    if s > Upper(w) {
      SlideInv(w, inserted, s);
      assert Upper(Slide(w, s)) == s;
      hide Inv;
    }
  }

  /** Nothing that was inserted is ever reported absent. */
  lemma NeverMissed(w: Window, inserted: set<int>, s: int)
    requires Inv(w, inserted) && s in inserted
    ensures Member(w, s)
  {
  }

  /** An exact window reports exactly what was inserted, and everything below it. */
  lemma ContainsExactly(w: Window, inserted: set<int>, s: int)
    requires Inv(w, inserted) && Exact(w, inserted) && 0 <= s
    ensures Member(w, s) <==> s in inserted || s < w.lower
  {
  }

  /** A stale bit shows a number above all that were inserted. */
  lemma StaleShows(w: Window, inserted: set<int>, s: int)
    requires Inv(w, inserted) && Upper(w) < s < U64Max && Stale(w, s)
    ensures !Exact(Slide(w, s).(bits := Slide(w, s).bits[0 := true]), inserted + {s})
  {
    var d := (s - Upper(w)) % U32Count;
    var i :| 0 <= i < WindowSize && w.bits[i] && 0 < i + d < WindowSize;
    SlidBit(w, s, i + d);
    var w' := Slide(w, s).(bits := Slide(w, s).bits[0 := true]);
    assert Upper(w') == s;
    hide Slide, CheckedShl;
    assert w'.bits[i + d];
    assert s - (i + d) > Upper(w);
  }

  /** Without stale bits, every bit after a jump stands for a number that was inserted. */
  lemma SlideKeeps(w: Window, inserted: set<int>, s: int, i: int)
    requires Inv(w, inserted) && Exact(w, inserted) && Upper(w) < s < U64Max && !Stale(w, s)
    requires 0 < i < WindowSize && Slide(w, s).bits[i]
    ensures s - i in inserted
  {
    var d := (s - Upper(w)) % U32Count;
    SlidBit(w, s, i);
    hide Slide, CheckedShl;
    assert w.bits[i - d] && 0 < (i - d) + d < WindowSize;
    assert s - Upper(w) < WindowSize;
    assert d == s - Upper(w);
    assert s - i == Upper(w) - (i - d);
  }

  lemma SlideExact(w: Window, inserted: set<int>, s: int)
    requires Inv(w, inserted) && Exact(w, inserted) && Upper(w) < s < U64Max
    ensures Exact(Slide(w, s).(bits := Slide(w, s).bits[0 := true]), inserted + {s}) <==> !Stale(w, s)
  {
    var w' := Slide(w, s).(bits := Slide(w, s).bits[0 := true]);
    assert Upper(w') == s;
    hide Slide, Stale;
    if Stale(w, s) {
      StaleShows(w, inserted, s);
    } else {
      forall i | 0 <= i < WindowSize && w'.bits[i] ensures s - i in inserted + {s} {
        if i > 0 {
          SlideKeeps(w, inserted, s, i);
        }
      }
    }
  }

  /** The window stays exact, unless a jump leaves stale bits; and then it is not exact any more. */
  lemma InsertExact(w: Window, inserted: set<int>, s: int)
    requires Inv(w, inserted) && Exact(w, inserted) && 0 <= s < U64Max
    ensures Put(w, s).Some? && |Put(w, s).value.bits| == WindowSize
    ensures Exact(Put(w, s).value, inserted + {s}) <==> !(s > Upper(w) && Stale(w, s))
  {
    if s > Upper(w) {
      SlideExact(w, inserted, s);
      hide Exact, Stale;
    }
  }

  /** Jumps below 2^32 leave no stale bits. */
  lemma ShortJump(w: Window, s: int)
    requires |w.bits| == WindowSize && s > Upper(w) && s - Upper(w) < U32Count
    ensures !Stale(w, s)
  {
  }

  /** A number that was never inserted is reported after a jump by 2^32 + 1. */
  lemma FalseDuplicate()
    ensures var w := Put(Empty(), 127).value;
            var w' := Put(w, 127 + U32Count + 1).value;
            Member(w', 127 + U32Count)
  {
    var w := Put(Empty(), 127).value;
    assert w.bits[0];
    var w' := Slide(w, 127 + U32Count + 1);
    assert w'.bits[1];
  }

  // ------------------------------------------------------ runs of insertions

  /** The window after all insertions, unless one of them overflows. */
  function PutAll(w: Window, nums: seq<int>): Option<Window>
    requires |w.bits| == WindowSize
    decreases |nums|
  {
    if nums == [] then Some(w)
    else
      var next := Put(w, nums[0]);
      if next.None? then None else PutAll(next.value, nums[1..])
  }

  ghost function Numbers(nums: seq<int>): set<int> {
    set x | x in nums
  }

  /** No insertion leaves stale bits. */
  ghost predicate NoneStale(w: Window, nums: seq<int>)
    requires |w.bits| == WindowSize
    decreases |nums|
  {
    nums == [] ||
    (!(nums[0] > Upper(w) && Stale(w, nums[0]))
     && (Put(w, nums[0]).Some? ==> NoneStale(Put(w, nums[0]).value, nums[1..])))
  }

  /** The window is exact after every insertion. */
  ghost predicate AlwaysExact(w: Window, inserted: set<int>, nums: seq<int>)
    requires |w.bits| == WindowSize
    decreases |nums|
  {
    && Exact(w, inserted)
    && (nums != [] && Put(w, nums[0]).Some? ==> AlwaysExact(Put(w, nums[0]).value, inserted + {nums[0]}, nums[1..]))
  }

  ghost predicate AllNumbers(nums: seq<int>) {
    forall i :: 0 <= i < |nums| ==> 0 <= nums[i] < U64Max
  }

  /** No number is 2^32 or more above the largest one before it, nor above 127. */
  ghost predicate ShortJumps(highest: int, nums: seq<int>)
    decreases |nums|
  {
    nums == [] || (nums[0] - highest < U32Count && ShortJumps(Max(highest, nums[0]), nums[1..]))
  }

  lemma NumbersStep(inserted: set<int>, nums: seq<int>)
    requires nums != []
    ensures inserted + Numbers(nums) == inserted + {nums[0]} + Numbers(nums[1..])
  {
    assert forall x :: x in nums <==> x == nums[0] || x in nums[1..];
  }

  /** Over any sequence of insertions, the window is exact all along exactly if none of them leaves stale bits. */
  lemma {:induction false} RunExact(w: Window, inserted: set<int>, nums: seq<int>)
    requires Inv(w, inserted) && Exact(w, inserted) && AllNumbers(nums)
    ensures PutAll(w, nums).Some? && Inv(PutAll(w, nums).value, inserted + Numbers(nums))
    ensures AlwaysExact(w, inserted, nums) <==> NoneStale(w, nums)
    ensures NoneStale(w, nums) ==> Exact(PutAll(w, nums).value, inserted + Numbers(nums))
    decreases |nums|
  {
    hide Inv, Exact, Stale, Put;
    if nums == [] {
      assert inserted + Numbers(nums) == inserted;
    } else {
      InsertOk(w, inserted, nums[0]);
      NumbersStep(inserted, nums);
      var next := Put(w, nums[0]).value;
      if Exact(next, inserted + {nums[0]}) {
        RunExact(next, inserted + {nums[0]}, nums[1..]);
      } else {
        RunDefined(next, inserted + {nums[0]}, nums[1..]);
      }
    }
  }

  lemma {:induction false} RunDefined(w: Window, inserted: set<int>, nums: seq<int>)
    requires Inv(w, inserted) && AllNumbers(nums)
    ensures |w.bits| == WindowSize
    ensures PutAll(w, nums).Some? && Inv(PutAll(w, nums).value, inserted + Numbers(nums))
    decreases |nums|
  {
    Bounds(w, inserted);
    hide Inv, Put;
    if nums == [] {
      assert inserted + Numbers(nums) == inserted;
    } else {
      InsertInv(w, inserted, nums[0]);
      NumbersStep(inserted, nums);
      RunDefined(Put(w, nums[0]).value, inserted + {nums[0]}, nums[1..]);
    }
  }

  lemma PutUpper(w: Window, inserted: set<int>, s: int)
    requires Inv(w, inserted) && 0 <= s < U64Max
    ensures Put(w, s).Some? && Upper(Put(w, s).value) == Max(Upper(w), s)
  {
  }

  lemma {:induction false} ShortJumpsFresh(w: Window, inserted: set<int>, nums: seq<int>)
    requires Inv(w, inserted) && AllNumbers(nums) && ShortJumps(Upper(w), nums)
    ensures |w.bits| == WindowSize && NoneStale(w, nums)
    decreases |nums|
  {
    Bounds(w, inserted);
    hide Inv, Put, Stale, Upper;
    if nums != [] {
      if nums[0] > Upper(w) {
        ShortJump(w, nums[0]);
      }
      PutUpper(w, inserted, nums[0]);
      InsertInv(w, inserted, nums[0]);
      ShortJumpsFresh(Put(w, nums[0]).value, inserted + {nums[0]}, nums[1..]);
    }
  }

  /**
   A window into which numbers are inserted, none of them 2^32 or more above all before, reports exactly
   these numbers, and everything that is 128 or more below the largest one.
   */
  lemma ShortRuns(nums: seq<int>, s: int)
    requires AllNumbers(nums) && ShortJumps(WindowSize - 1, nums) && 0 <= s
    ensures PutAll(Empty(), nums).Some? && |PutAll(Empty(), nums).value.bits| == WindowSize
    ensures var w := PutAll(Empty(), nums).value; Member(w, s) <==> s in nums || s < w.lower
  {
    assert Inv(Empty(), {}) && Exact(Empty(), {}) && Upper(Empty()) == WindowSize - 1;
    hide Inv, Exact, Put, Stale, Empty;
    ShortJumpsFresh(Empty(), {}, nums);
    RunExact(Empty(), {}, nums);
    assert {} + Numbers(nums) == Numbers(nums);
    Bounds(PutAll(Empty(), nums).value, Numbers(nums));
    ContainsExactly(PutAll(Empty(), nums).value, Numbers(nums), s);
  }

  lemma InsertOk(w: Window, inserted: set<int>, s: int)
    requires Inv(w, inserted) && 0 <= s < U64Max
    ensures |w.bits| == WindowSize && 0 <= w.lower && Upper(w) == w.lower + WindowSize - 1
    ensures Put(w, s).Some? && Inv(Put(w, s).value, inserted + {s}) && |Put(w, s).value.bits| == WindowSize
    ensures Exact(w, inserted) ==> (Exact(Put(w, s).value, inserted + {s}) <==> !(s > Upper(w) && Stale(w, s)))
  {
    hide Exact, Stale;
    InsertInv(w, inserted, s);
    if Exact(w, inserted) {
      InsertExact(w, inserted, s);
    }
  }

  lemma MemberOk(w: Window, inserted: set<int>, s: int)
    requires Inv(w, inserted) && 0 <= s
    ensures |w.bits| == WindowSize && 0 <= w.lower && Upper(w) == w.lower + WindowSize - 1
    ensures s in inserted ==> Member(w, s)
    ensures Exact(w, inserted) ==> (Member(w, s) <==> s in inserted || s < w.lower)
  {
    Bounds(w, inserted);
    if s in inserted {
      NeverMissed(w, inserted, s);
    }
    if Exact(w, inserted) {
      ContainsExactly(w, inserted, s);
    }
    hide Inv, Exact, Member;
  }

  class SlidingWindow {
    var lower: int
    var window: seq<bool>
    ghost var inserted: set<int>

    ghost function W(): Window
      reads this
    {
      Window(lower, window)
    }

    ghost predicate Valid()
      reads this
    {
      Inv(W(), inserted)
    }

    constructor ()
      ensures Valid() && inserted == {} && Exact(W(), inserted)
    {
      lower, window, inserted := 0, Zero(), {};
    }

    method Insert(s: int)
      requires Valid() && 0 <= s < U64Max
      modifies this
      ensures Valid() && inserted == old(inserted) + {s} && lower >= old(lower)
      ensures Some(W()) == Put(old(W()), s)
      ensures old(Exact(W(), inserted)) ==> (Exact(W(), inserted) <==> !(s > old(Upper(W())) && old(Stale(W(), s))))
    {
      hide Inv, Exact, Stale, CheckedShl;
      InsertOk(W(), inserted, s);
      inserted := inserted + {s};
      if s < lower {
        return;
      }
      var upper := SaturatingAdd(lower, WindowSize) - 1;
      if s > upper {
        var diff := s - upper;
        lower := lower + diff;
        window := CheckedShl(window, diff % U32Count);
      }
      window := window[SaturatingAdd(lower, WindowSize) - 1 - s := true];
    }

    method Contains(s: int) returns (r: bool)
      requires Valid() && 0 <= s <= U64Max
      ensures s in inserted ==> r
      ensures Exact(W(), inserted) ==> (r <==> s in inserted || s < lower)
    {
      hide Inv, Exact;
      MemberOk(W(), inserted, s);
      var upper := SaturatingAdd(lower, WindowSize) - 1;
      if s > upper {
        return false;
      }
      if s < lower {
        return true;
      }
      return window[upper - s];
    }
  }
}
