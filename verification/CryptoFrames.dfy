/** CRYPTO frames (section 19.6 of RFC 9000) and which bytes a list of them carries. */
module CryptoFrames {
  import opened Common
  import Varint

  datatype Frame = Frame(offset: int, data: seq<byte>)

  /** CryptoFrame.MaxDataLen: how much data fits into maxSize bytes at this offset. */
  function MaxDataLen(offset: int, maxSize: int): (n: int)
    ensures n >= 0
    ensures maxSize >= Varint.Len(offset) + 3 <==> n > 0
  {
    var headerLen := 1 + Varint.Len(offset) + 1;
    if headerLen > maxSize then 0
    else
      var n := maxSize - headerLen;
      if Varint.Len(n) != 1 then n - 1 else n
  }

  /** CryptoFrame.Length */
  function Length(offset: int, n: int): int {
    1 + Varint.Len(offset) + Varint.Len(n) + n
  }

  /** A frame filled up to MaxDataLen fits. */
  lemma MaxDataLenFits(offset: int, maxSize: int, n: int)
    requires 0 < n <= MaxDataLen(offset, maxSize) && maxSize <= Varint.MaxVarInt2
    ensures Length(offset, n) <= maxSize
  {
  }

  /** MaxDataLen is exactly the largest amount of data that fits. */
  lemma MaxDataLenExact(offset: int, maxSize: int, n: int)
    requires 0 < n && maxSize <= Varint.MaxVarInt2
    ensures Length(offset, n) <= maxSize <==> n <= MaxDataLen(offset, maxSize)
  {
  }

  predicate Carries(f: Frame, p: int) {
    f.offset <= p < f.offset + |f.data|
  }

  /** How many of the frames carry the byte at p. */
  ghost function Count(frames: seq<Frame>, p: int): nat {
    if frames == [] then 0
    else Count(frames[..|frames| - 1], p) + if Carries(frames[|frames| - 1], p) then 1 else 0
  }

  lemma CountAppend(frames: seq<Frame>, f: Frame, p: int)
    ensures Count(frames + [f], p) == Count(frames, p) + if Carries(f, p) then 1 else 0
  {
    assert (frames + [f])[..|frames|] == frames;
  }

  lemma {:induction false} CountPositive(frames: seq<Frame>, p: int)
    ensures Count(frames, p) > 0 <==> exists i :: 0 <= i < |frames| && Carries(frames[i], p)
  {
    if frames != [] {
      var n := |frames| - 1;
      var init := frames[..n];
      CountPositive(init, p);
      if i :| 0 <= i < |init| && Carries(init[i], p) {
        assert Carries(frames[i], p);
      }
      if i :| 0 <= i < |frames| && Carries(frames[i], p) {
        assert i == n || Carries(init[i], p);
      }
    }
  }

  /** Every frame is a non-empty piece of `written`, at the right place. */
  ghost predicate PiecesOf(frames: seq<Frame>, written: seq<byte>) {
    forall i :: 0 <= i < |frames| ==> PieceOf(frames[i], written)
  }

  ghost predicate PieceOf(f: Frame, written: seq<byte>) {
    && |f.data| > 0 && 0 <= f.offset && f.offset + |f.data| <= |written|
    && f.data == written[f.offset..f.offset + |f.data|]
  }

  lemma PiecesOfLonger(frames: seq<Frame>, written: seq<byte>, more: seq<byte>)
    requires PiecesOf(frames, written)
    ensures PiecesOf(frames, written + more)
  {
    forall i | 0 <= i < |frames| ensures PieceOf(frames[i], written + more) {
      var f := frames[i];
      assert PieceOf(f, written);
      assert (written + more)[f.offset..f.offset + |f.data|] == written[f.offset..f.offset + |f.data|];
    }
  }
}
