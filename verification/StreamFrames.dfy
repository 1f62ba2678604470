/** STREAM frames (section 19.8 of RFC 9000) and which bytes a list of them carries. */
module StreamFrames {
  import opened Common
  import Varint

  /** The DataLen field is present unless the frame is the last one in a packet. */
  datatype Frame = Frame(offset: int, data: seq<byte>, fin: bool)

  function End(f: Frame): int { f.offset + |f.data| }

  function OffsetLen(offset: int): int { if offset == 0 then 0 else Varint.Len(offset) }

  /** StreamFrame.MaxDataLen of a frame with a DataLen field. */
  function MaxDataLen(id: int, offset: int, maxSize: int): (n: int)
    ensures n >= 0
  {
    var headerLen := 1 + Varint.Len(id) + OffsetLen(offset) + 1;
    if headerLen > maxSize then 0
    else
      var n := maxSize - headerLen;
      if Varint.Len(n) != 1 then n - 1 else n
  }

  /** StreamFrame.Length of a frame with a DataLen field. */
  function Length(id: int, f: Frame): int {
    1 + Varint.Len(id) + OffsetLen(f.offset) + Varint.Len(|f.data|) + |f.data|
  }

  /** A frame filled up to MaxDataLen fits. */
  lemma MaxDataLenFits(id: int, f: Frame, maxSize: int)
    requires |f.data| <= MaxDataLen(id, f.offset, maxSize) && |f.data| <= Varint.MaxVarInt2
    requires 0 < |f.data|
    ensures Length(id, f) <= maxSize
  {
  }

  /** A frame that does not fit carries more than MaxDataLen bytes. */
  lemma MaxDataLenSplits(id: int, f: Frame, maxSize: int)
    requires Length(id, f) > maxSize && |f.data| <= Varint.MaxVarInt2
    ensures MaxDataLen(id, f.offset, maxSize) < |f.data| || MaxDataLen(id, f.offset, maxSize) == 0
  {
  }

  /** MaxDataLen is exactly the largest amount of data that fits. */
  lemma MaxDataLenExact(id: int, f: Frame, maxSize: int)
    requires 0 < |f.data| && maxSize <= Varint.MaxVarInt2
    ensures Length(id, f) <= maxSize <==> |f.data| <= MaxDataLen(id, f.offset, maxSize)
  {
  }

  /** The first n bytes of a frame. FIN stays with the rest. */
  function Head(f: Frame, n: int): Frame
    requires 0 <= n <= |f.data|
  {
    Frame(f.offset, f.data[..n], false)
  }

  function Tail(f: Frame, n: int): Frame
    requires 0 <= n <= |f.data|
  {
    Frame(f.offset + n, f.data[n..], f.fin)
  }

  // ------------------------------------------------------------- counting

  function Carries(f: Frame, p: int): int {
    if f.offset <= p < f.offset + |f.data| then 1 else 0
  }

  /** How many of the frames carry the byte at p. */
  ghost function Count(frames: seq<Frame>, p: int): nat {
    if frames == [] then 0 else Carries(frames[0], p) + Count(frames[1..], p)
  }

  /** How many of the frames carry the FIN. */
  ghost function Fins(frames: seq<Frame>): nat {
    if frames == [] then 0 else (if frames[0].fin then 1 else 0) + Fins(frames[1..])
  }

  lemma {:induction false} CountConcat(a: seq<Frame>, b: seq<Frame>, p: int)
    ensures Count(a + b, p) == Count(a, p) + Count(b, p)
    ensures Fins(a + b) == Fins(a) + Fins(b)
  {
    if a == [] {
      assert a + b == b;
    } else {
      assert (a + b)[0] == a[0] && (a + b)[1..] == a[1..] + b;
      CountConcat(a[1..], b, p);
    }
  }

  lemma CountOne(f: Frame, p: int)
    ensures Count([f], p) == Carries(f, p) && Fins([f]) == if f.fin then 1 else 0
  {
    assert [f][1..] == [];
  }

  lemma CountAppend(frames: seq<Frame>, f: Frame, p: int)
    ensures Count(frames + [f], p) == Count(frames, p) + Carries(f, p)
    ensures Fins(frames + [f]) == Fins(frames) + if f.fin then 1 else 0
  {
    CountConcat(frames, [f], p);
    CountOne(f, p);
  }

  function Without(frames: seq<Frame>, i: int): seq<Frame>
    requires 0 <= i < |frames|
  {
    frames[..i] + frames[i + 1..]
  }

  lemma CountWithout(frames: seq<Frame>, i: int, p: int)
    requires 0 <= i < |frames|
    ensures Count(frames, p) == Count(Without(frames, i), p) + Carries(frames[i], p)
    ensures Fins(frames) == Fins(Without(frames, i)) + if frames[i].fin then 1 else 0
  {
    var a, b := frames[..i], frames[i + 1..];
    assert frames == (a + [frames[i]]) + b;
    CountConcat(a + [frames[i]], b, p);
    CountAppend(a, frames[i], p);
    CountConcat(a, b, p);
  }

  lemma CountSplit(f: Frame, n: int, p: int)
    requires 0 <= n <= |f.data|
    ensures Carries(f, p) == Carries(Head(f, n), p) + Carries(Tail(f, n), p)
  {
  }

  // -------------------------------------------------------------- content

  /** f is a piece of the first n bytes of the stream, at the right place. */
  ghost predicate PieceOf(f: Frame, stream: seq<byte>, n: int) {
    && 0 <= f.offset && f.offset + |f.data| <= n <= |stream|
    && f.data == stream[f.offset..f.offset + |f.data|]
  }

  ghost predicate PiecesOf(frames: seq<Frame>, stream: seq<byte>, n: int) {
    forall i :: 0 <= i < |frames| ==> PieceOf(frames[i], stream, n)
  }

  lemma PiecesAppend(frames: seq<Frame>, f: Frame, stream: seq<byte>, n: int)
    requires PiecesOf(frames, stream, n) && PieceOf(f, stream, n)
    ensures PiecesOf(frames + [f], stream, n)
  {
  }

  lemma PiecesWithout(frames: seq<Frame>, i: int, stream: seq<byte>, n: int)
    requires PiecesOf(frames, stream, n) && 0 <= i < |frames|
    ensures PiecesOf(Without(frames, i), stream, n)
  {
    var w := Without(frames, i);
    forall j | 0 <= j < |w| ensures PieceOf(w[j], stream, n) {
      assert w[j] == if j < i then frames[j] else frames[j + 1];
    }
  }

  /** Pieces stay pieces when the stream grows, and when more of it counts as sent. */
  lemma PiecesLonger(frames: seq<Frame>, stream: seq<byte>, n: int, stream': seq<byte>, n': int)
    requires PiecesOf(frames, stream, n) && 0 <= n <= n' <= |stream'| && n <= |stream| && stream[..n] <= stream'
    ensures PiecesOf(frames, stream', n')
  {
    forall i | 0 <= i < |frames| ensures PieceOf(frames[i], stream', n') {
      var f := frames[i];
      assert PieceOf(f, stream, n);
      var a, b := stream[f.offset..End(f)], stream'[f.offset..End(f)];
      forall j | 0 <= j < |a| ensures a[j] == b[j] {
        assert stream[..n][f.offset + j] == stream'[f.offset + j];
      }
      assert a == b;
    }
  }

  lemma PiecesOfPart(f: Frame, k: int, stream: seq<byte>, n: int)
    requires PieceOf(f, stream, n) && 0 <= k <= |f.data|
    ensures PieceOf(Head(f, k), stream, n) && PieceOf(Tail(f, k), stream, n)
  {
    assert Head(f, k).data == stream[f.offset..f.offset + k];
    assert Tail(f, k).data == stream[f.offset + k..End(f)];
  }

  lemma {:induction false} CountBeyond(frames: seq<Frame>, stream: seq<byte>, n: int, p: int)
    requires PiecesOf(frames, stream, n) && p >= n
    ensures Count(frames, p) == 0
  {
    if frames != [] {
      assert PieceOf(frames[0], stream, n);
      forall i | 0 <= i < |frames[1..]| ensures PieceOf(frames[1..][i], stream, n) {
        assert frames[1..][i] == frames[i + 1];
      }
      CountBeyond(frames[1..], stream, n, p);
    }
  }
}
