/**
 The sending half of the Initial crypto stream. A client cuts the ClientHello in the middle of the
 server name and of the ECH extension type, sends what lies outside the cuts first, and the cuts last.
 */
module CryptoStream {
  import opened Common
  import opened CryptoFrames
  import opened Sni

  /** A part of the ClientHello that is sent late. Gone once start is InvalidByteCount. */
  datatype Cut = Cut(start: int, end: int)

  const NoCut := Cut(InvalidByteCount, InvalidByteCount)

  /** The array of two cuts. */
  datatype Cuts = Cuts(a: Cut, b: Cut) {
    function At(i: int): Cut { if i == 0 then a else b }

    function Set(i: int, c: Cut): Cuts { if i == 0 then Cuts(c, b) else Cuts(a, c) }
  }

  /** slices.SortFunc on the two cuts, with the comparison of the source. */
  function SortCuts(a: Cut, b: Cut): Cuts {
    if b.start == InvalidByteCount || b.start > a.start then Cuts(a, b) else Cuts(b, a)
  }

  function Live(c: Cut): bool { c.start != InvalidByteCount }

  ghost predicate InCut(c: Cut, p: int) {
    Live(c) && c.start <= p < c.end
  }

  /** Bytes still to be sent: those from writeOffset on, and those in a cut. */
  ghost predicate Pending(writeOffset: int, cuts: Cuts, p: int)
  {
    p >= writeOffset || InCut(cuts.a, p) || InCut(cuts.b, p)
  }

  ghost predicate CutOk(c: Cut, end: int) {
    Live(c) ==> 0 <= c.start <= c.end <= end
  }

  /** The cuts do not touch each other, and the write position is not inside one or at its start. */
  ghost predicate Apart(writeOffset: int, cuts: Cuts)
  {
    && (Live(cuts.a) && Live(cuts.b) ==> cuts.a.end < cuts.b.start)
    && (Live(cuts.a) ==> writeOffset < cuts.a.start || cuts.a.end <= writeOffset)
    && (Live(cuts.b) ==> writeOffset < cuts.b.start || cuts.b.end <= writeOffset)
  }

  /** Every byte written was sent or is pending. */
  ghost predicate NothingLost(sent: seq<Frame>, writeOffset: int, cuts: Cuts, n: int)
  {
    forall p :: 0 <= p < n ==> Pending(writeOffset, cuts, p) || Count(sent, p) >= 1
  }

  /** Every byte written was sent exactly once or is pending and was not sent. */
  ghost predicate ExactlyOnce(sent: seq<Frame>, writeOffset: int, cuts: Cuts, n: int)
  {
    forall p :: 0 <= p < n ==> Count(sent, p) == if Pending(writeOffset, cuts, p) then 0 else 1
  }

  /** The first cut, in order, that starts behind the write position. */
  function NextCut(cuts: Cuts, writeOffset: int): Cut
  {
    if Live(cuts.a) && cuts.a.start > writeOffset then cuts.a
    else if Live(cuts.b) && cuts.b.start > writeOffset then cuts.b
    else NoCut
  }

  /** Sending f keeps every byte accounted for if what stops pending is in f. */
  lemma SendLosesNothing(sent: seq<Frame>, w: int, cuts: Cuts, f: Frame, w': int, cuts': Cuts, n: int)
    requires NothingLost(sent, w, cuts, n)
    requires forall p :: 0 <= p < n && Pending(w, cuts, p) ==> Pending(w', cuts', p) || Carries(f, p)
    ensures NothingLost(sent + [f], w', cuts', n)
  {
    forall p | 0 <= p < n ensures Pending(w', cuts', p) || Count(sent + [f], p) >= 1 {
      CountAppend(sent, f, p);
    }
  }

  /** Sending f keeps the count exact if exactly the bytes of f stop pending. */
  lemma SendExactlyOnce(sent: seq<Frame>, w: int, cuts: Cuts, f: Frame, w': int, cuts': Cuts, n: int)
    requires ExactlyOnce(sent, w, cuts, n)
    requires forall p :: 0 <= p < n ==> (Pending(w, cuts, p) <==> Pending(w', cuts', p) || Carries(f, p))
    requires forall p :: 0 <= p < n && Carries(f, p) ==> !Pending(w', cuts', p)
    ensures ExactlyOnce(sent + [f], w', cuts', n)
  {
    forall p | 0 <= p < n ensures Count(sent + [f], p) == if Pending(w', cuts', p) then 0 else 1 {
      CountAppend(sent, f, p);
    }
  }

  lemma {:induction false} CountBeyond(frames: seq<Frame>, written: seq<byte>, p: int)
    requires PiecesOf(frames, written) && p >= |written|
    ensures Count(frames, p) == 0
  {
    CountPositive(frames, p);
    forall i | 0 <= i < |frames| ensures !Carries(frames[i], p) {
      assert PieceOf(frames[i], written);
    }
  }

  lemma WriteKeeps(sent: seq<Frame>, w: int, cuts: Cuts, written: seq<byte>, more: seq<byte>)
    requires 0 <= w <= |written| && PiecesOf(sent, written)
    ensures PiecesOf(sent, written + more)
    ensures NothingLost(sent, w, cuts, |written|) ==> NothingLost(sent, w, cuts, |written + more|)
    ensures ExactlyOnce(sent, w, cuts, |written|) ==> ExactlyOnce(sent, w, cuts, |written + more|)
  {
    PiecesOfLonger(sent, written, more);
    forall p | |written| <= p < |written + more| ensures Pending(w, cuts, p) && Count(sent, p) == 0 {
      CountBeyond(sent, written, p);
    }
  }

  lemma PieceAppend(sent: seq<Frame>, f: Frame, written: seq<byte>)
    requires PiecesOf(sent, written) && PieceOf(f, written)
    ensures PiecesOf(sent + [f], written)
  {
  }

  /** From the middle of the server name to its end. */
  function SniCut(r: FindResult): Cut
    requires r.Found?
  {
    Cut(r.sniPos + r.sniLen / 2, r.sniPos + r.sniLen)
  }

  /** From the middle of the ECH extension type on, 16 bytes. */
  function EchCut(r: FindResult, end: int): Cut
    requires r.Found?
  {
    if r.echPos > 0 then Cut(r.echPos + 1, Min(r.echPos + 1 + 16, end)) else NoCut
  }

  /** The cuts for the positions found; c is the second cut so far. */
  function MakeCuts(r: FindResult, end: int, c: Cut): Cuts
    requires r.Found?
  {
    SortCuts(SniCut(r), if r.echPos > 0 then EchCut(r, end) else c)
  }

  /** c is what is left of `whole`. */
  ghost predicate RestOf(c: Cut, whole: Cut) {
    Live(whole) && whole.start <= c.start && c.end == whole.end
  }

  ghost predicate FromFind(c: Cut, r: FindResult, end: int)
    requires r.Found?
  {
    Live(c) ==> RestOf(c, SniCut(r)) || RestOf(c, EchCut(r, end))
  }

  lemma CutsInBounds(data: seq<byte>, r: FindResult)
    requires FoundOk(data, r) && r.Found?
    ensures CutOk(SniCut(r), |data|) && CutOk(EchCut(r, |data|), |data|)
  {
  }

  /** Cutting (again) makes no pending byte non-pending. */
  lemma ArmKeepsPending(w: int, cuts: Cuts, r: FindResult, end: int, cuts': Cuts)
    requires !Live(cuts.a) && r.Found?
    requires FromFind(cuts.b, r, end)
    requires cuts' == MakeCuts(r, end, cuts.b)
    ensures forall p :: Pending(w, cuts, p) ==> Pending(w, cuts', p)
  {
  }

  /** The bytes announce a complete ClientHello of n bytes in which there is something to cut. */
  ghost predicate Cuttable(written: seq<byte>, n: int) {
    && 4 <= n <= |written| && n == 4 + HandshakeLen(written)
    && var r := Find(written[..n]);
       r.Found? && !(r.sniPos == -1 && r.echPos == -1)
  }

  lemma CuttableLonger(written: seq<byte>, more: seq<byte>, n: int)
    requires Cuttable(written, n)
    ensures Cuttable(written + more, n)
  {
    assert (written + more)[..n] == written[..n];
  }

  /** A snapshot of the stream and of its history. */
  datatype State = State(
    writeOffset: int, writeBuf: seq<byte>, scramble: bool, end: int, cuts: Cuts,
    written: seq<byte>,   // everything passed to Write
    sent: seq<Frame>,     // everything returned by PopCryptoFrame
    once: bool)           // the cuts were apart when they were made

  /** Holds in every reachable state. */
  ghost predicate Ok(st: State) {
    && 0 <= st.writeOffset <= |st.written|
    && PiecesOf(st.sent, st.written)
    && NothingLost(st.sent, st.writeOffset, st.cuts, |st.written|)
    && (st.once ==> ExactlyOnce(st.sent, st.writeOffset, st.cuts, |st.written|) && Apart(st.writeOffset, st.cuts))
    && (if st.scramble then Scrambling(st) else
          st.writeBuf == st.written[st.writeOffset..] && !Live(st.cuts.a) && !Live(st.cuts.b))
  }

  /** Either the ClientHello is still incomplete, or it is being sent around the cuts. */
  ghost predicate Scrambling(st: State)
  {
    && st.writeBuf == st.written && st.writeOffset <= st.end <= |st.written|
    && CutOk(st.cuts.a, st.end) && CutOk(st.cuts.b, st.end)
    && (if Live(st.cuts.a) || Live(st.cuts.b) then Armed(st) else st.end == 0)
  }

  ghost predicate Armed(st: State)
  {
    && Cuttable(st.written, st.end)
    && var r := Find(st.written[..st.end]);
       FromFind(st.cuts.a, r, st.end) && FromFind(st.cuts.b, r, st.end)
  }

  lemma WriteOk(st: State, p: seq<byte>)
    requires Ok(st)
    ensures Ok(st.(writeBuf := st.writeBuf + p, written := st.written + p))
  {
    hide Find;
    WriteKeeps(st.sent, st.writeOffset, st.cuts, st.written, p);
    if st.scramble && (Live(st.cuts.a) || Live(st.cuts.b)) {
      CuttableLonger(st.written, p, st.end);
      assert (st.written + p)[..st.end] == st.written[..st.end];
    }
  }

  /** A complete ClientHello that is found again is the one that was cut. */
  lemma FoundAgain(st: State, r: FindResult)
    requires Ok(st) && st.scramble && Live(st.cuts.b)
    requires r == Find(st.written) && |st.written| >= 4 && |st.written| == 4 + HandshakeLen(st.written)
    ensures st.end == |st.written| && r.Found? && !(r.sniPos == -1 && r.echPos == -1) && FromFind(st.cuts.b, r, st.end)
  {
    assert st.written[..st.end] == st.written;
  }

  lemma NothingToCut(st: State, r: FindResult)
    requires Ok(st) && st.scramble && !Live(st.cuts.a)
    requires r == Find(st.written) && |st.written| >= 4 && |st.written| == 4 + HandshakeLen(st.written)
    requires r.Found? && r.sniPos == -1 && r.echPos == -1
    ensures Ok(st.(scramble := false))
  {
    if Live(st.cuts.b) {
      FoundAgain(st, r);
    }
  }

  lemma ArmOk(st: State, r: FindResult, cuts: Cuts)
    requires Ok(st) && st.scramble && !Live(st.cuts.a)
    requires r == Find(st.written) && FoundOk(st.written, r) && |st.written| >= 4
             && |st.written| == 4 + HandshakeLen(st.written)
    requires r.Found? && !(r.sniPos == -1 && r.echPos == -1)
    requires cuts == MakeCuts(r, |st.written|, st.cuts.b)
    ensures Ok(st.(end := |st.written|, cuts := cuts,
                   once := st.once && !Live(st.cuts.b) && Apart(st.writeOffset, cuts)))
  {
    var n := |st.written|;
    assert st.written[..n] == st.written;
    CutsInBounds(st.written, r);
    if Live(st.cuts.b) {
      FoundAgain(st, r);
    }
    ArmKeepsPending(st.writeOffset, st.cuts, r, n, cuts);
  }

  /** b[lo..hi], or nothing if that is not a range of b. */
  function Bytes(b: seq<byte>, lo: int, hi: int): seq<byte> {
    if 0 <= lo <= hi <= |b| then b[lo..hi] else []
  }

  /** The state after cutting at the positions found, or after finding nothing to cut. */
  ghost function CutState(st: State, r: FindResult): State
    requires r.Found?
  {
    if r.sniPos == -1 && r.echPos == -1 then st.(scramble := false)
    else
      var cuts := MakeCuts(r, |st.writeBuf|, st.cuts.b);
      st.(end := |st.writeBuf|, cuts := cuts, once := st.once && !Live(st.cuts.b) && Apart(st.writeOffset, cuts))
  }

  /** The state after writing p: the ClientHello is cut as soon as it is complete. */
  ghost function WriteState(st: State, p: seq<byte>): State {
    var st' := st.(writeBuf := st.writeBuf + p, written := st.written + p);
    var r := Find(st'.writeBuf);
    if st.scramble && !Live(st.cuts.a) && r.Found? then CutState(st', r) else st'
  }

  /** How far the next frame may reach while the bytes outside the cuts are sent. */
  function MainLimit(st: State): int
  {
    var next := NextCut(st.cuts, st.writeOffset);
    if Live(next) then next.start else st.end
  }

  /** Sends n bytes from the write position on, and skips the cut they run into. */
  function SendMain(st: State, n: int): State {
    var w := st.writeOffset + n;
    var next := NextCut(st.cuts, st.writeOffset);
    st.(writeOffset := if w == next.start then next.end else w,
        sent := st.sent + [Frame(st.writeOffset, Bytes(st.writeBuf, st.writeOffset, w))])
  }

  lemma SendMainApart(st: State, n: int)
    requires Ok(st) && st.scramble && st.writeOffset < st.end && st.once
    requires 0 < n <= MainLimit(st) - st.writeOffset
    ensures var w' := SendMain(st, n).writeOffset;
            && Apart(w', st.cuts)
            && (forall p :: Pending(st.writeOffset, st.cuts, p) <==>
                Pending(w', st.cuts, p) || st.writeOffset <= p < st.writeOffset + n)
            && (forall p :: st.writeOffset <= p < st.writeOffset + n ==> !Pending(w', st.cuts, p))
  {
    hide Find;
  }

  lemma SendMainOk(st: State, n: int)
    requires Ok(st) && st.scramble && st.writeOffset < st.end
    requires 0 < n <= MainLimit(st) - st.writeOffset
    ensures Ok(SendMain(st, n))
  {
    hide Find;
    var st' := SendMain(st, n);
    var f := Frame(st.writeOffset, st.writeBuf[st.writeOffset..st.writeOffset + n]);
    PieceAppend(st.sent, f, st.written);
    SendLosesNothing(st.sent, st.writeOffset, st.cuts, f, st'.writeOffset, st.cuts, |st.written|);
    if st.once {
      SendMainApart(st, n);
      SendExactlyOnce(st.sent, st.writeOffset, st.cuts, f, st'.writeOffset, st.cuts, |st.written|);
    }
  }

  /** The cut that is sent next, once everything else was sent. */
  function FirstLive(cuts: Cuts): int {
    if Live(cuts.a) then 0 else 1
  }

  function First(cuts: Cuts): Cut {
    cuts.At(FirstLive(cuts))
  }

  /** Takes n bytes off the front of a cut. */
  function Shorten(c: Cut, n: int): Cut {
    if c.start + n == c.end then NoCut else Cut(c.start + n, c.end)
  }

  /** Sends n bytes of the first live cut; when no cut is left, goes back to sending in order. */
  function SendCut(st: State, n: int): State {
    var i := FirstLive(st.cuts);
    var c := st.cuts.At(i);
    var cuts' := st.cuts.Set(i, Shorten(c, n));
    var st' := st.(cuts := cuts', sent := st.sent + [Frame(c.start, Bytes(st.writeBuf, c.start, c.start + n))]);
    if Live(cuts'.a) || Live(cuts'.b) then st' else
      st'.(writeBuf := Bytes(st.writeBuf, st.end, |st.writeBuf|), end := InvalidByteCount, scramble := false)
  }

  lemma SendCutPending(st: State, n: int, cuts': Cuts)
    requires Ok(st) && st.scramble && st.writeOffset == st.end
    requires Live(First(st.cuts))
    requires var i := FirstLive(st.cuts); var c := st.cuts.At(i);
             0 < n <= c.end - c.start && cuts' == st.cuts.Set(i, Shorten(c, n))
    ensures var c := First(st.cuts);
            && (forall p :: Pending(st.writeOffset, st.cuts, p) <==>
                Pending(st.writeOffset, cuts', p) || c.start <= p < c.start + n)
            && (st.once ==> Apart(st.writeOffset, cuts') && forall p :: c.start <= p < c.start + n ==>
                !Pending(st.writeOffset, cuts', p))
  {
    hide Find;
  }

  lemma SendCutAccounts(st: State, n: int, cuts': Cuts, f: Frame)
    requires Ok(st) && st.scramble && st.writeOffset == st.end
    requires Live(First(st.cuts))
    requires var i := FirstLive(st.cuts); var c := st.cuts.At(i);
             && 0 < n <= c.end - c.start && cuts' == st.cuts.Set(i, Shorten(c, n))
             && f == Frame(c.start, Bytes(st.writeBuf, c.start, c.start + n))
    ensures PiecesOf(st.sent + [f], st.written)
    ensures NothingLost(st.sent + [f], st.writeOffset, cuts', |st.written|)
    ensures st.once ==> ExactlyOnce(st.sent + [f], st.writeOffset, cuts', |st.written|) && Apart(st.writeOffset, cuts')
  {
    hide Find;
    SendCutPending(st, n, cuts');
    PieceAppend(st.sent, f, st.written);
    SendLosesNothing(st.sent, st.writeOffset, st.cuts, f, st.writeOffset, cuts', |st.written|);
    if st.once {
      SendExactlyOnce(st.sent, st.writeOffset, st.cuts, f, st.writeOffset, cuts', |st.written|);
    }
  }

  lemma ShortenOk(c: Cut, n: int, end: int, r: FindResult)
    requires Live(c) && CutOk(c, end) && 0 < n <= c.end - c.start && r.Found? && FromFind(c, r, end)
    ensures CutOk(Shorten(c, n), end) && FromFind(Shorten(c, n), r, end)
  {
  }

  /** With the last cut, the ClientHello is sent; what was written after it follows in order. */
  lemma SendLastCutOk(st: State, cuts': Cuts, sent': seq<Frame>)
    requires 0 <= st.writeOffset == st.end <= |st.written| && st.writeBuf == st.written
    requires PiecesOf(sent', st.written) && NothingLost(sent', st.writeOffset, cuts', |st.written|)
    requires st.once ==> ExactlyOnce(sent', st.writeOffset, cuts', |st.written|) && Apart(st.writeOffset, cuts')
    requires !Live(cuts'.a) && !Live(cuts'.b)
    ensures Ok(st.(cuts := cuts', sent := sent', writeBuf := st.writeBuf[st.end..], end := InvalidByteCount,
                   scramble := false))
  {
  }

  lemma SendCutOk(st: State, n: int)
    requires Ok(st) && st.scramble && st.writeOffset == st.end
    requires Live(First(st.cuts))
    requires var c := First(st.cuts); 0 < n <= c.end - c.start
    ensures Ok(SendCut(st, n))
  {
    hide Find;
    var i := FirstLive(st.cuts);
    var c := st.cuts.At(i);
    var cuts', f := st.cuts.Set(i, Shorten(c, n)), Frame(c.start, Bytes(st.writeBuf, c.start, c.start + n));
    SendCutAccounts(st, n, cuts', f);
    ShortenOk(c, n, st.end, Find(st.written[..st.end]));
    if !Live(cuts'.a) && !Live(cuts'.b) {
      SendLastCutOk(st, cuts', st.sent + [f]);
    } else {
      assert SendCut(st, n) == st.(cuts := cuts', sent := st.sent + [f]);
    }
  }

  /** Sends n bytes in order. */
  function SendPlain(st: State, n: int): State {
    st.(writeOffset := st.writeOffset + n, writeBuf := Bytes(st.writeBuf, n, |st.writeBuf|),
        sent := st.sent + [Frame(st.writeOffset, Bytes(st.writeBuf, 0, n))])
  }

  lemma SendPlainOk(st: State, n: int)
    requires Ok(st) && !st.scramble && 0 < n <= |st.writeBuf|
    ensures Ok(SendPlain(st, n))
  {
    hide Find;
    var f := Frame(st.writeOffset, st.writeBuf[..n]);
    var w' := st.writeOffset + n;
    assert f.data == st.written[st.writeOffset..w'];
    assert st.writeBuf[n..] == st.written[w'..];
    PieceAppend(st.sent, f, st.written);
    SendLosesNothing(st.sent, st.writeOffset, st.cuts, f, w', st.cuts, |st.written|);
    if st.once {
      SendExactlyOnce(st.sent, st.writeOffset, st.cuts, f, w', st.cuts, |st.written|);
    }
  }

  /** The state after PopCryptoFrame. */
  ghost function PopState(st: State, maxLen: int): State {
    if !st.scramble then
      var n := Min(MaxDataLen(st.writeOffset, maxLen), |st.writeBuf|);
      if n <= 0 then st else SendPlain(st, n)
    else if st.writeOffset == st.end then
      var c := First(st.cuts);
      var n := Min(MaxDataLen(c.start, maxLen), c.end - c.start);
      if !Live(c) then st.(end := InvalidByteCount, scramble := false) else if n <= 0 then st else SendCut(st, n)
    else
      var n := Min(MaxDataLen(st.writeOffset, maxLen), MainLimit(st) - st.writeOffset);
      if n <= 0 then st else SendMain(st, n)
  }

  /** There is nothing to send: all was sent, or the ClientHello is incomplete. */
  ghost predicate Idle(st: State)
  {
    if st.scramble then !Live(st.cuts.a) && !Live(st.cuts.b) else st.writeBuf == []
  }

  /** All but the cuts was sent, and the next cut is empty. */
  ghost predicate Stuck(st: State)
  {
    && st.scramble && st.writeOffset == st.end
    && var c := First(st.cuts);
       Live(c) && c.start == c.end
  }

  /** The offset of the next frame. */
  ghost function NextOffset(st: State): int
  {
    if st.scramble && st.writeOffset == st.end then First(st.cuts).start else st.writeOffset
  }

  ghost function CutLen(c: Cut): int {
    if Live(c) then c.end - c.start else 0
  }

  /** An upper bound for the number of frames still to come. */
  ghost function Todo(st: State): int
  {
    |st.written| - st.writeOffset + CutLen(st.cuts.a) + CutLen(st.cuts.b)
  }

  lemma TodoDecreases(st: State, n: int)
    requires Ok(st) && 0 < n
    ensures Todo(st) >= 0
    ensures !st.scramble && n <= |st.writeBuf| ==> Todo(SendPlain(st, n)) < Todo(st)
    ensures st.scramble && st.writeOffset < st.end && n <= MainLimit(st) - st.writeOffset ==>
            Todo(SendMain(st, n)) < Todo(st)
    ensures (st.scramble && st.writeOffset == st.end && Live(First(st.cuts)) && n <= CutLen(First(st.cuts)))
            ==> Todo(SendCut(st, n)) < Todo(st)
  {
    hide Find;
  }

  /** No cut still to be sent is empty. */
  ghost predicate CutsNonEmpty(cuts: Cuts) {
    (Live(cuts.a) ==> cuts.a.start < cuts.a.end) && (Live(cuts.b) ==> cuts.b.start < cuts.b.end)
  }

  /** A frame that starts at the next offset cannot go beyond e: there, a cut starts or ends, or everything ends. */
  ghost predicate EndsAt(st: State, e: int)
  {
    if !st.scramble then e == |st.written|
    else if st.writeOffset == st.end then e == First(st.cuts).end
    else e == st.end || (Live(st.cuts.a) && e == st.cuts.a.start) || (Live(st.cuts.b) && e == st.cuts.b.start)
  }

  /** What a frame, or no frame, returned by PopCryptoFrame means. */
  ghost predicate Popped(st: State, st': State, maxLen: int, f: Option<Frame>)
    requires Ok(st)
  {
    && Ok(st') && st'.written == st.written
    && (f.None? <==> Idle(st) || Stuck(st) || MaxDataLen(NextOffset(st), maxLen) == 0)
    && (f.None? ==> st' == st || (st.scramble && Idle(st) && st' == st.(end := InvalidByteCount, scramble := false)))
    && (f.Some? ==>
          && st'.sent == st.sent + [f.value] && f.value.offset == NextOffset(st)
          && 0 < |f.value.data| <= MaxDataLen(f.value.offset, maxLen)
          && (|f.value.data| == MaxDataLen(f.value.offset, maxLen) || EndsAt(st, f.value.offset + |f.value.data|))
          && 0 <= Todo(st') < Todo(st))
    && st'.once == st.once
    && (CutsNonEmpty(st'.cuts) <==> CutsNonEmpty(st.cuts))
    && (f.Some? && st'.scramble ==> Live(st'.cuts.a) || Live(st'.cuts.b))
  }

  lemma MainPopped(st: State, n: int, maxLen: int)
    requires Ok(st) && st.scramble && st.writeOffset < st.end
    requires n == Min(MaxDataLen(st.writeOffset, maxLen), MainLimit(st) - st.writeOffset)
    ensures n <= 0 ==> Popped(st, st, maxLen, None)
    ensures n > 0 ==> Popped(st, SendMain(st, n), maxLen,
                             Some(Frame(st.writeOffset, Bytes(st.writeBuf, st.writeOffset, st.writeOffset + n))))
  {
    hide Find;
    if n > 0 {
      SendMainOk(st, n);
      TodoDecreases(st, n);
      TodoDecreases(SendMain(st, n), 1);
    }
  }

  lemma CutNotPopped(st: State, n: int, maxLen: int)
    requires Ok(st) && st.scramble && st.writeOffset == st.end && Live(First(st.cuts))
    requires var c := First(st.cuts); n == Min(MaxDataLen(c.start, maxLen), c.end - c.start) <= 0
    ensures Popped(st, st, maxLen, None)
  {
    hide Find;
  }

  /** What sending part of a cut does to the fields. */
  lemma SendCutFields(st: State, n: int)
    requires var c := First(st.cuts);
             Live(c) && 0 <= c.start && c.end <= |st.writeBuf| && 0 < n <= c.end - c.start
    ensures var c, st' := First(st.cuts), SendCut(st, n);
            var f := Frame(c.start, Bytes(st.writeBuf, c.start, c.start + n));
            && |f.data| == n && st'.sent == st.sent + [f]
            && st'.written == st.written && st'.once == st.once
            && (CutsNonEmpty(st'.cuts) <==> CutsNonEmpty(st.cuts))
            && (st'.scramble ==> st.scramble && (Live(st'.cuts.a) || Live(st'.cuts.b)))
  {
  }

  lemma CutPopped(st: State, n: int, maxLen: int)
    requires Ok(st) && st.scramble && st.writeOffset == st.end && Live(First(st.cuts))
    requires var c := First(st.cuts); n == Min(MaxDataLen(c.start, maxLen), c.end - c.start) && n > 0
    ensures var c := First(st.cuts);
            Popped(st, SendCut(st, n), maxLen, Some(Frame(c.start, Bytes(st.writeBuf, c.start, c.start + n))))
  {
    hide Find;
    SendCutFields(st, n);
    SendCutOk(st, n);
    hide Ok, SendCut, Shorten;
    TodoDecreases(st, n);
    TodoDecreases(SendCut(st, n), 1);
  }

  /** Popping while the ClientHello is incomplete gives up scrambling. */
  lemma NonePopped(st: State, maxLen: int)
    requires Ok(st) && st.scramble && !Live(st.cuts.a) && !Live(st.cuts.b)
    ensures Popped(st, st.(end := InvalidByteCount, scramble := false), maxLen, None)
  {
    hide Find;
  }

  /** The three ways to leave the phase in which the cuts are sent. */
  lemma CutCase(st: State, n: int, maxLen: int)
    requires Ok(st) && st.scramble && st.writeOffset == st.end
    requires var c := First(st.cuts); Live(c) ==> n == Min(MaxDataLen(c.start, maxLen), c.end - c.start)
    ensures var c := First(st.cuts);
            && (!Live(c) ==> Popped(st, st.(end := InvalidByteCount, scramble := false), maxLen, None))
            && (Live(c) && n <= 0 ==> Popped(st, st, maxLen, None))
            && (Live(c) && n > 0 ==>
                Popped(st, SendCut(st, n), maxLen, Some(Frame(c.start, Bytes(st.writeBuf, c.start, c.start + n)))))
  {
    hide Find;
    if !Live(First(st.cuts)) {
      NonePopped(st, maxLen);
    } else if n <= 0 {
      CutNotPopped(st, n, maxLen);
    } else {
      CutPopped(st, n, maxLen);
    }
    hide Ok, SendCut;
  }

  /** Once everything up to end was sent, only the cuts are left. */
  lemma AtEnd(st: State)
    requires Ok(st) && st.scramble && st.writeOffset == st.end
    ensures CutOk(st.cuts.a, |st.writeBuf|) && CutOk(st.cuts.b, |st.writeBuf|) && 0 <= st.end <= |st.writeBuf|
    ensures !Live(st.cuts.a) && !Live(st.cuts.b) ==> st.end == 0
  {
    hide Find;
  }

  lemma PoppedOk(st: State, st': State, maxLen: int, f: Option<Frame>)
    requires Ok(st) && Popped(st, st', maxLen, f)
    ensures Ok(st')
  {
    hide Ok;
  }

  lemma BeforeEnd(st: State)
    requires Ok(st) && st.scramble && st.writeOffset != st.end
    ensures st.writeOffset < st.end
  {
    hide Find, PiecesOf, NothingLost, ExactlyOnce;
  }

  class InitialCryptoStream {
    var writeOffset: int
    var writeBuf: seq<byte>
    var scramble: bool
    var end: int
    var cuts: Cuts
    ghost var written: seq<byte>
    ghost var sent: seq<Frame>
    ghost var once: bool

    ghost function St(): State
      reads this
    {
      State(writeOffset, writeBuf, scramble, end, cuts, written, sent, once)
    }

    ghost predicate Valid()
      reads this
    {
      Ok(St())
    }

    constructor (scramble: bool)
      ensures Valid()
      ensures written == [] && sent == [] && once && this.scramble == scramble
      ensures cuts == Cuts(NoCut, NoCut)
    {
      writeOffset, writeBuf, end := 0, [], 0;
      this.scramble := scramble;
      cuts := Cuts(NoCut, NoCut);
      written, sent, once := [], [], true;
    }

    predicate HasData()
      reads this
    {
      if scramble && writeOffset == 0 && cuts.a.start == InvalidByteCount then false
      else |writeBuf| > 0
    }

    /** Queues p. Once the ClientHello is complete, cuts it. Fails if that is malformed. */
    method Write(p: seq<byte>) returns (ok: bool)
      requires Valid()
      modifies this
      ensures Valid()
      ensures St() == WriteState(old(St()), p)
      ensures !ok <==> old(scramble && !Live(cuts.a)) && Find(old(writeBuf) + p) == Malformed
    {
      WriteOk(St(), p);
      hide Ok;
      writeBuf := writeBuf + p;
      written := written + p;
      if !scramble {
        return true;
      }
      if cuts.a.start == InvalidByteCount {
        var r := FindSNIAndECH(writeBuf);
        hide Find;
        if r == UnexpectedEOF {
          return true;
        }
        if r == Malformed {
          return false;
        }
        CutClientHello(r);
      }
      return true;
    }

    /** Cuts the complete ClientHello. If there is nothing to cut, stops scrambling. */
    method CutClientHello(r: FindResult)
      requires Valid() && scramble && !Live(cuts.a)
      requires r == Find(writeBuf) && FoundOk(writeBuf, r) && r.Found? && |writeBuf| >= 4
               && |writeBuf| == 4 + HandshakeLen(writeBuf)
      modifies this
      ensures Valid()
      ensures St() == CutState(old(St()), r)
    {
      ghost var st := St();
      assert writeBuf == written;
      if r.sniPos == -1 && r.echPos == -1 {
        NothingToCut(st, r);
        hide Ok, Find;
        scramble := false;
        return;
      }
      var made := MakeCuts(r, |writeBuf|, cuts.b);
      ArmOk(st, r, made);
      hide Ok, Find;
      ghost var apart := once && !Live(st.cuts.b) && Apart(writeOffset, made);
      end, cuts, once := |writeBuf|, made, apart;
    }

    /** baseCryptoStream.PopCryptoFrame */
    method PopPlain(maxLen: int) returns (f: Option<Frame>)
      requires Valid() && !scramble
      modifies this
      ensures Popped(old(St()), St(), maxLen, f) && St() == PopState(old(St()), maxLen)
    {
      hide Find;
      ghost var st := St();
      var n := Min(MaxDataLen(writeOffset, maxLen), |writeBuf|);
      if n <= 0 {
        return None;
      }
      SendPlainOk(st, n);
      TodoDecreases(st, n);
      f := Some(Frame(writeOffset, writeBuf[..n]));
      writeBuf := writeBuf[n..];
      writeOffset := writeOffset + n;
      sent := sent + [f.value];
      assert St() == SendPlain(st, n);
      TodoDecreases(St(), 1);
    }

    method FindNextCut() returns (nextCut: Cut)
      ensures nextCut == NextCut(cuts, writeOffset)
    {
      nextCut := NoCut;
      for i := 0 to 2
        invariant nextCut == NoCut
        invariant (i > 0 ==> !(Live(cuts.a) && cuts.a.start > writeOffset))
                  && (i > 1 ==> !(Live(cuts.b) && cuts.b.start > writeOffset))
      {
        var c := cuts.At(i);
        if c.start == InvalidByteCount {
          continue;
        }
        if c.start > writeOffset {
          nextCut := c;
          break;
        }
      }
    }

    /** Sends what lies outside the cuts. */
    method PopMain(maxLen: int) returns (f: Option<Frame>, ghost n: int)
      requires Valid() && scramble && writeOffset != end
      modifies this
      ensures var st := old(St());
              && n == Min(MaxDataLen(st.writeOffset, maxLen), MainLimit(st) - st.writeOffset)
              && St() == (if n <= 0 then st else SendMain(st, n))
              && f == if n <= 0 then None
                else Some(Frame(st.writeOffset, Bytes(st.writeBuf, st.writeOffset, st.writeOffset + n)))
    {
      hide Find;
      ghost var st := St();
      var nextCut := FindNextCut();
      var maxOffset := nextCut.start;
      if maxOffset == InvalidByteCount {
        maxOffset := end;
      }
      var len := Min(MaxDataLen(writeOffset, maxLen), maxOffset - writeOffset);
      n := len;
      assert 0 <= writeOffset && maxOffset <= |writeBuf|;
      hide Ok;
      if len <= 0 {
        return None, n;
      }
      f := Some(Frame(writeOffset, writeBuf[writeOffset..writeOffset + len]));
      writeOffset := writeOffset + len;
      if writeOffset == nextCut.start {
        writeOffset := nextCut.end;
      }
      sent := sent + [f.value];
    }

    /** Takes as much as fits from the first live cut. */
    method TakeCut(maxLen: int) returns (f: Option<Frame>, foundCuts: bool, ghost n: int)
      requires CutOk(cuts.a, |writeBuf|) && CutOk(cuts.b, |writeBuf|)
      modifies this`cuts
      ensures f.None? ==> cuts == old(cuts) && (foundCuts <==> Live(cuts.a) || Live(cuts.b))
      ensures f.None? && foundCuts ==> var c := First(cuts); n == Min(MaxDataLen(c.start, maxLen), c.end - c.start) <= 0
      ensures f.Some? ==>
                var k := FirstLive(old(cuts)); var c := old(cuts).At(k);
                && Live(c) && n == Min(MaxDataLen(c.start, maxLen), c.end - c.start) && n > 0
                && cuts == old(cuts).Set(k, Shorten(c, n)) && (foundCuts <==> Live(cuts.a) || Live(cuts.b))
                && f.value == Frame(c.start, Bytes(writeBuf, c.start, c.start + n))
    {
      var all := cuts;
      f, foundCuts, n := None, false, 0;
      for i := 0 to 2
        invariant f.None? ==> cuts == all && !foundCuts && (i > 0 ==> !Live(all.a)) && (i > 1 ==> !Live(all.b))
        invariant f.Some? ==>
                    var k := FirstLive(all); var c := all.At(k);
                    && k < i && Live(c) && n == Min(MaxDataLen(c.start, maxLen), c.end - c.start) && n > 0
                    && cuts == all.Set(k, Shorten(c, n)) && (foundCuts <==> Live(cuts.At(k)))
                    && f.value == Frame(c.start, writeBuf[c.start..c.start + n])
                    && (k == 0 && i > 1 ==> !Live(all.b))
      {
        var c := all.At(i);
        if c.start == InvalidByteCount {
          continue;
        }
        foundCuts := true;
        if f.Some? {
          break;
        }
        var m := Min(MaxDataLen(c.start, maxLen), c.end - c.start);
        n := m;
        if m <= 0 {
          return None, true, m;
        }
        f := Some(Frame(c.start, writeBuf[c.start..c.start + m]));
        cuts := cuts.Set(i, Shorten(c, m));
        if c.start + m == c.end {
          foundCuts := false;
        }
      }
    }

    /** Sends the skipped parts. Gives up scrambling if there are none. */
    method PopCut(maxLen: int) returns (f: Option<Frame>, ghost n: int)
      requires Valid() && scramble && writeOffset == end
      modifies this
      ensures var st := old(St()); var c := First(st.cuts);
              && (!Live(c) ==> f.None? && St() == st.(end := InvalidByteCount, scramble := false))
              && (Live(c) ==>
                    && n == Min(MaxDataLen(c.start, maxLen), c.end - c.start)
                    && St() == (if n <= 0 then st else SendCut(st, n))
                    && f == if n <= 0 then None else Some(Frame(c.start, Bytes(st.writeBuf, c.start, c.start + n))))
    {
      hide Find, Ok, Bytes;
      AtEnd(St());
      var foundCuts;
      f, foundCuts, n := TakeCut(maxLen);
      if f.Some? {
        sent := sent + [f.value];
      }
      if !foundCuts {
        StopScrambling();
      }
    }

    /** Everything up to end was sent. */
    method StopScrambling()
      requires 0 <= end <= |writeBuf|
      modifies this`writeBuf, this`end, this`scramble
      ensures writeBuf == Bytes(old(writeBuf), old(end), |old(writeBuf)|) && end == InvalidByteCount && !scramble
      ensures old(end) == 0 ==> writeBuf == old(writeBuf)
    {
      writeBuf := writeBuf[end..];
      end := InvalidByteCount;
      scramble := false;
    }

    /**
     Returns the next CRYPTO frame that fits into maxLen bytes. There is none exactly if nothing is
     left to send, not even one byte fits, or the next cut is empty.
     */
    method PopCryptoFrame(maxLen: int) returns (f: Option<Frame>)
      requires Valid()
      modifies this
      ensures Valid()
      ensures Popped(old(St()), St(), maxLen, f) && St() == PopState(old(St()), maxLen)
    {
      hide Find, Ok, Popped, SendMain, SendCut, SendPlain, MainLimit, Bytes;
      ghost var st, n := St(), 0;
      if !scramble {
        f := PopPlain(maxLen);
      } else if writeOffset == end {
        f, n := PopCut(maxLen);
        CutCase(st, n, maxLen);
      } else {
        f, n := PopMain(maxLen);
        BeforeEnd(st);
        MainPopped(st, n, maxLen);
      }
      PoppedOk(st, St(), maxLen, f);
    }
  }
}
