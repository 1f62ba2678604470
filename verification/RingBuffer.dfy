/** A queue in an array that is used in a circle, and doubled when it is full. */
module RingBuffer {

  /** The elements from head to tail, around the end of the ring. */
  function Around<T>(ring: seq<T>, head: int, tail: int, full: bool): (s: seq<T>)
    requires 0 <= head <= |ring| && 0 <= tail <= |ring|
  {
    if full || tail < head then ring[head..] + ring[..tail] else ring[head..tail]
  }

  /** Head and tail are in the ring, and meet if it is full. */
  predicate Shape(n: int, head: int, tail: int, full: bool) {
    && (if n == 0 then head == tail == 0 && !full else 0 <= head < n && 0 <= tail < n)
    && (full ==> head == tail)
  }

  function Next(pos: int, n: int): int { if pos + 1 == n then 0 else pos + 1 }

  lemma PushAround<T>(ring: seq<T>, head: int, tail: int, t: T)
    requires |ring| > 0 && Shape(|ring|, head, tail, false)
    ensures var tail' := Next(tail, |ring|);
            Around(ring[tail := t], head, tail', tail' == head) == Around(ring, head, tail, false) + [t]
  {
    var ring' := ring[tail := t];
    if tail < head {
      assert ring'[head..] == ring[head..] && ring'[..tail + 1] == ring[..tail] + [t];
    } else if tail + 1 == |ring| {
      assert ring'[head..] == ring[head..tail] + [t];
    } else {
      assert ring'[head..tail + 1] == ring[head..tail] + [t];
    }
  }

  lemma PopAround<T>(ring: seq<T>, head: int, tail: int, full: bool, t: T)
    requires |ring| > 0 && Shape(|ring|, head, tail, full) && (full || head != tail)
    ensures var s := Around(ring, head, tail, full);
            s != [] && s[0] == ring[head] && Around(ring[head := t], Next(head, |ring|), tail, false) == s[1..]
  {
  }

  class RingBuffer<T(0)> {
    var ring: array<T>
    var headPos: int
    var tailPos: int
    var full: bool

    ghost predicate Valid()
      reads this
    {
      Shape(ring.Length, headPos, tailPos, full)
    }

    /** The elements, the front first. */
    ghost function Contents(): seq<T>
      requires Valid()
      reads this, ring
    {
      Around(ring[..], headPos, tailPos, full)
    }

    constructor ()
      ensures Valid() && fresh(ring) && Contents() == []
    {
      ring := new T[0];
      headPos, tailPos, full := 0, 0, false;
    }

    method Len() returns (n: int)
      requires Valid()
      ensures n == |Contents()|
    {
      if full {
        return ring.Length;
      }
      if tailPos >= headPos {
        return tailPos - headPos;
      }
      return tailPos - headPos + ring.Length;
    }

    method Empty() returns (e: bool)
      requires Valid()
      ensures e <==> Contents() == []
    {
      e := !full && headPos == tailPos;
    }

    method PushBack(t: T)
      requires Valid()
      modifies this, ring
      ensures Valid() && Contents() == old(Contents()) + [t]
      ensures ring == old(ring) || fresh(ring)
    {
      if full || ring.Length == 0 {
        Grow();
      }
      PushAround(ring[..], headPos, tailPos, t);
      Put(t);
    }

    method Put(t: T)
      requires Valid() && !full && ring.Length > 0
      modifies this`tailPos, this`full, ring
      ensures tailPos == Next(old(tailPos), ring.Length) && full == (tailPos == headPos)
      ensures ring[..] == old(ring[..][tailPos := t])
    {
      ring[tailPos] := t;
      tailPos := tailPos + 1;
      if tailPos == ring.Length {
        tailPos := 0;
      }
      if tailPos == headPos {
        full := true;
      }
    }

    method PopFront() returns (t: T)
      requires Valid() && Contents() != []
      modifies this, ring
      ensures Valid() && ring == old(ring)
      ensures t == old(Contents())[0] && Contents() == old(Contents())[1..]
    {
      var zero: T := *;
      PopAround(ring[..], headPos, tailPos, full, zero);
      full := false;
      t := ring[headPos];
      ring[headPos] := zero;
      headPos := headPos + 1;
      if headPos == ring.Length {
        headPos := 0;
      }
    }

    /** Doubles the capacity of a full buffer. */
    method Grow()
      requires Valid() && (full || ring.Length == 0)
      modifies this
      ensures Valid() && fresh(ring) && !full && ring.Length > 0 && Contents() == old(Contents())
    {
      var n := ring.Length;
      var newRing := new T[if n == 0 then 1 else 2 * n];
      for i := 0 to n
        modifies newRing
        invariant ring[..] == old(ring[..])
        invariant forall j :: 0 <= j < i ==> newRing[j] == old(Contents())[j]
      {
        newRing[i] := if i < n - headPos then ring[headPos + i] else ring[i - (n - headPos)];
      }
      assert newRing[0..n] == old(Contents());
      ring := newRing;
      headPos, tailPos, full := 0, n, false;
    }
  }
}
