/** Scrambling a ClientHello, end to end: sending it around the cuts, and putting it together again. */
module Scrambling {
  import opened Common
  import opened SorterModel
  import opened CryptoFrames
  import opened CryptoStream
  import opened CryptoReader
  import opened Sni
  import opened SniSearch

  /** A budget that lets every CRYPTO frame of a ClientHello carry at least one byte. */
  const EnoughForOneByte: int := 7

  lemma EnoughSuffices(offset: int, budget: int)
    requires offset <= 4 + 0xff_ffff && budget >= EnoughForOneByte
    ensures MaxDataLen(offset, budget) > 0
  {
  }

  /** The cuts made for a complete ClientHello. */
  ghost function CutsOf(hello: seq<byte>): Cuts
    requires Find(hello).Found?
  {
    MakeCuts(Find(hello), |hello|, NoCut)
  }

  /** Only an empty server name makes an empty cut. */
  lemma EmptyNameEmptyCut(hello: seq<byte>, r: FindResult)
    requires r.Found? && FoundOk(hello, r)
    ensures CutsNonEmpty(MakeCuts(r, |hello|, NoCut)) <==> !(r.sniPos != -1 && r.sniLen == 0)
  {
  }

  /** The first of the two sorted cuts is there exactly if the server name gave one. */
  lemma FirstCut(hello: seq<byte>, r: FindResult)
    requires r.Found? && FoundOk(hello, r) && !(r.sniPos == -1 && r.echPos == -1)
    ensures var cuts := MakeCuts(r, |hello|, NoCut);
            && (Live(cuts.a) || Live(cuts.b))
            && (Live(cuts.a) <==> r.sniPos != -1 || r.sniLen >= 2)
  {
  }

  /** Only an ECH extension shortly before the server name makes the two cuts meet. */
  lemma CutsApart(hello: seq<byte>, r: FindResult)
    requires r.Found? && FoundOk(hello, r) && r.sniPos != -1
    ensures Apart(0, MakeCuts(r, |hello|, NoCut)) <==>
            r.echPos == -1 || r.sniPos <= r.echPos || r.echPos + 17 < r.sniPos + r.sniLen / 2
  {
    var a, b := SniCut(r), EchCut(r, |hello|);
    assert 0 < a.start && (Live(b) ==> 0 < b.start);
    if r.echPos != -1 && r.echPos < r.sniPos {
      assert MakeCuts(r, |hello|, NoCut) == Cuts(b, a);
    } else {
      assert MakeCuts(r, |hello|, NoCut) == Cuts(a, b);
    }
  }

  /** Without a server name, the length of a name of another type is taken for its place. */
  lemma CutsApartNoName(hello: seq<byte>, r: FindResult)
    requires r.Found? && FoundOk(hello, r) && r.sniPos == -1 && r.echPos != -1
    ensures Apart(0, MakeCuts(r, |hello|, NoCut)) <==>
            || r.sniLen < 2
            || (r.sniLen >= 4 && (r.sniLen < r.echPos + 2 || Min(r.echPos + 17, |hello|) < r.sniLen / 2 - 1))
  {
    var a, b := SniCut(r), EchCut(r, |hello|);
    if Live(a) && b.start <= a.start {
      assert MakeCuts(r, |hello|, NoCut) == Cuts(b, a);
    } else {
      assert MakeCuts(r, |hello|, NoCut) == Cuts(a, b);
    }
  }

  lemma AllSent(st: State)
    requires Ok(st) && Idle(st) && !st.scramble
    ensures forall p :: 0 <= p < |st.written| ==> Count(st.sent, p) >= 1
    ensures st.once ==> forall p :: 0 <= p < |st.written| ==> Count(st.sent, p) == 1
  {
    assert st.writeOffset == |st.written|;
    assert forall p :: p < |st.written| ==> !Pending(st.writeOffset, st.cuts, p);
  }

  lemma NextOffsetInside(st: State)
    requires Ok(st) && (st.scramble ==> Live(st.cuts.a) || Live(st.cuts.b))
    ensures NextOffset(st) <= |st.written|
  {
  }

  /** What stays true while a complete ClientHello is sent. */
  ghost predicate Sending(st: State, hello: seq<byte>, cuts: Cuts) {
    && Ok(st) && st.written == hello
    && st.once == Apart(0, cuts)
    && (CutsNonEmpty(st.cuts) <==> CutsNonEmpty(cuts))
    && (st.scramble ==> Live(st.cuts.a) || Live(st.cuts.b))
  }

  lemma FirstWrite(st: State, hello: seq<byte>)
    requires st == State(0, [], true, 0, Cuts(NoCut, NoCut), [], [], true)
    requires Find(hello).Found? && !(Find(hello).sniPos == -1 && Find(hello).echPos == -1)
    ensures WriteState(st, hello) == State(0, hello, true, |hello|, CutsOf(hello), hello, [], Apart(0, CutsOf(hello)))
  {
    hide Find;
    assert [] + hello == hello;
  }

  function Concat(parts: seq<seq<byte>>): seq<byte> {
    if parts == [] then [] else parts[0] + Concat(parts[1..])
  }

  /** The state after the parts were written one after the other. */
  ghost function WriteParts(st: State, parts: seq<seq<byte>>): State
    decreases |parts|
  {
    if parts == [] then st else WriteParts(WriteState(st, parts[0]), parts[1..])
  }

  /** Nothing of the ClientHello was cut or sent, and `part` of it was written. */
  ghost function Begun(part: seq<byte>): State {
    State(0, part, true, 0, Cuts(NoCut, NoCut), part, [], true)
  }

  /** A part of the ClientHello is only kept. */
  lemma PartKept(hello: seq<byte>, part: seq<byte>, p: seq<byte>)
    requires Find(hello).Found? && part + p < hello
    ensures WriteState(Begun(part), p) == Begun(part + p)
  {
    PartIncomplete(hello, |part + p|);
    assert hello[..|part + p|] == part + p;
    hide Find;
  }

  lemma LastPart(hello: seq<byte>, part: seq<byte>, p: seq<byte>)
    requires Find(hello).Found? && part + p == hello
    ensures WriteState(Begun(part), p) == WriteState(Begun([]), hello)
  {
    hide Find;
    assert [] + hello == hello;
  }

  lemma {:induction false} ConcatNotEmpty(parts: seq<seq<byte>>)
    requires parts != [] && parts[|parts| - 1] != []
    ensures Concat(parts) != []
  {
    if |parts| > 1 {
      ConcatNotEmpty(parts[1..]);
    }
  }

  /** A ClientHello that is written in parts is cut as if it were written at once, with its last part. */
  lemma {:induction false} PartsAsOne(hello: seq<byte>, part: seq<byte>, parts: seq<seq<byte>>)
    requires Find(hello).Found? && parts != [] && parts[|parts| - 1] != [] && part + Concat(parts) == hello
    ensures WriteParts(Begun(part), parts) == WriteState(Begun([]), hello)
    decreases |parts|
  {
    hide Find, WriteState;
    var p, rest := parts[0], parts[1..];
    assert (part + p) + Concat(rest) == hello;
    if rest == [] {
      assert part + p == hello;
      LastPart(hello, part, p);
    } else {
      ConcatNotEmpty(rest);
      PartKept(hello, part, p);
      PartsAsOne(hello, part + p, rest);
    }
  }

  lemma SendingStarts(st: State, hello: seq<byte>, r: FindResult, cuts: Cuts)
    requires r.Found? && FoundOk(hello, r) && !(r.sniPos == -1 && r.echPos == -1)
    requires cuts == MakeCuts(r, |hello|, NoCut)
    requires st == State(0, hello, true, |hello|, cuts, hello, [], Apart(0, cuts)) && Ok(st)
    ensures Sending(st, hello, cuts)
    ensures Todo(st) <= 3 * |hello|
  {
    FirstCut(hello, r);
    CutsInBounds(hello, r);
  }

  lemma SendingContinues(st: State, st': State, hello: seq<byte>, cuts: Cuts, size: int, f: Option<Frame>)
    requires Sending(st, hello, cuts) && Popped(st, st', size, f)
    ensures Sending(st', hello, cuts)
    ensures f.Some? ==> Todo(st') < Todo(st)
    ensures f.None? ==> st' == st
  {
    hide Ok;
  }

  /** With non-empty cuts and a sufficient size, only the end of the ClientHello stops a frame. */
  lemma SendingProgress(st: State, hello: seq<byte>, cuts: Cuts, size: int)
    requires Sending(st, hello, cuts) && CutsNonEmpty(cuts)
    requires |hello| <= 4 + 0xff_ffff && size >= EnoughForOneByte
    ensures !Stuck(st) && MaxDataLen(NextOffset(st), size) > 0
    ensures Idle(st) <==> !st.scramble && st.writeBuf == []
  {
    NextOffsetInside(st);
    EnoughSuffices(NextOffset(st), size);
  }

  // ----------------------------------------------------------- failing inputs

  /** A ClientHello with the given extensions, no session ID, one cipher suite and no compression. */
  function HelloWith(extensions: seq<byte>): seq<byte>
    requires |extensions| < 200
  {
    [1, 0, 0, (43 + |extensions|) as byte, 3, 3] + seq(32, _ => 0 as byte)
      + [0, 0, 2, 0x13, 1, 1, 0, 0, |extensions| as byte] + extensions
  }

  lemma FindInHello(extensions: seq<byte>)
    requires |extensions| < 200
    ensures var hello := HelloWith(extensions);
            |hello| == 47 + |extensions| && hello[47..] == extensions
              && Find(hello) == Scan(hello, 47, |hello|, -1, 0, -1)
  {
    var hello := HelloWith(extensions);
    assert hello[38..47] == [0, 0, 2, 0x13, 1, 1, 0, 0, |extensions| as byte];
    assert forall i :: 38 <= i < 47 ==> hello[i] == hello[38..47][i - 38];
    assert HandshakeLen(hello) == 43 + |extensions|;
    assert SkipVector(hello, Some(38), 1) == Some(39);
    assert SkipVector(hello, Some(39), 2) == Some(43);
    assert SkipVector(hello, Some(43), 1) == Some(45);
  }

  /** A server name extension with an empty host name. */
  const EmptyName: seq<byte> := [0, 0, 0, 5, 0, 3, 0, 0, 0]

  /** With this ClientHello, the cut is empty. */
  lemma EmptyNameHello()
    ensures Find(HelloWith(EmptyName)) == Found(56, 0, -1) && !CutsNonEmpty(CutsOf(HelloWith(EmptyName)))
  {
    FindInHello(EmptyName);
    var hello := HelloWith(EmptyName);
    assert forall i :: 0 <= i < 9 ==> hello[47 + i] == hello[47..][i];
    hide HelloWith;
    ScanSNI(hello, 47, 56, 0, -1);
    assert ServerName(hello, 51, 5, 0) == Name(56, 0);
  }

  /** An ECH extension without contents. */
  const EchOnly: seq<byte> := [0xfe, 0x0d, 0, 0]

  /** With this ClientHello there is no first cut, which is what HasData asks for. */
  lemma EchOnlyHello()
    ensures Find(HelloWith(EchOnly)) == Found(-1, 0, 47) && !Live(CutsOf(HelloWith(EchOnly)).a)
  {
    FindInHello(EchOnly);
    var hello := HelloWith(EchOnly);
    assert forall i :: 0 <= i < 4 ==> hello[47 + i] == hello[47..][i];
    hide HelloWith;
    ScanOther(hello, 47, 51, -1, 0, -1);
  }

  /** An ECH extension without contents, and then the server name "ab". */
  const EchThenName: seq<byte> := [0xfe, 0x0d, 0, 0, 0, 0, 0, 7, 0, 5, 0, 0, 2, 0x61, 0x62]

  /** With this ClientHello, the two cuts meet. */
  lemma MeetingCutsHello()
    ensures Find(HelloWith(EchThenName)) == Found(60, 2, 47) && !Apart(0, CutsOf(HelloWith(EchThenName)))
  {
    FindInHello(EchThenName);
    hide HelloWith, Scan, Find;
    ScanEchThenName(HelloWith(EchThenName));
    CutsMeet();
  }

  lemma ScanEchThenName(hello: seq<byte>)
    requires |hello| == 62 && hello[47..] == EchThenName
    ensures Scan(hello, 47, 62, -1, 0, -1) == Found(60, 2, 47)
  {
    assert forall i :: 0 <= i < 15 ==> hello[47 + i] == hello[47..][i];
    hide Scan;
    ScanOther(hello, 47, 62, -1, 0, -1);
    ScanSNI(hello, 51, 62, 0, 47);
    assert ServerName(hello, 55, 7, 0) == Name(60, 2);
  }

  lemma CutsMeet()
    ensures !Apart(0, MakeCuts(Found(60, 2, 47), 62, NoCut))
  {
    assert MakeCuts(Found(60, 2, 47), 62, NoCut) == Cuts(Cut(48, 62), Cut(61, 62));
  }

  // ------------------------------------------------------------ sent twice

  /** In how many cuts the byte at x is. */
  ghost function InCuts(cuts: Cuts, x: int): int {
    (if InCut(cuts.a, x) then 1 else 0) + (if InCut(cuts.b, x) then 1 else 0)
  }

  /** The byte at x is in a cut, but the write position will not skip it. */
  ghost predicate NotSkipped(w: int, cuts: Cuts, x: int) {
    || (w == x && InCuts(cuts, x) >= 1)
    || (Live(cuts.a) && w < cuts.a.start && cuts.a.end == x && InCut(cuts.b, x) && cuts.b.start == x)
  }

  /** The byte at x was sent twice, or will be. */
  ghost predicate Doubled(st: State, x: int) {
    Count(st.sent, x) + InCuts(st.cuts, x) >= 2 || (st.scramble && NotSkipped(st.writeOffset, st.cuts, x))
  }

  ghost predicate Twice(st: State, n: int) {
    exists x :: 0 <= x < n && Doubled(st, x)
  }

  /** If the cuts are not apart, some byte will be sent twice. */
  lemma TwiceStarts(st: State, hello: seq<byte>, r: FindResult, cuts: Cuts)
    requires r.Found? && FoundOk(hello, r) && cuts == MakeCuts(r, |hello|, NoCut)
    requires st.scramble && st.writeOffset == 0 && st.cuts == cuts && CutsNonEmpty(cuts) && !Apart(0, cuts)
    ensures Twice(st, |hello|)
  {
    CutsInBounds(hello, r);
    var a, b := cuts.a, cuts.b;
    if (Live(a) && a.start == 0) || (Live(b) && b.start == 0) {
      assert Doubled(st, 0);
    } else {
      assert Doubled(st, b.start);
    }
  }

  lemma DoubledMain(st: State, n: int, x: int)
    requires Ok(st) && st.scramble && st.writeOffset < st.end && 0 < n <= MainLimit(st) - st.writeOffset
             && Doubled(st, x)
    ensures Doubled(SendMain(st, n), x)
  {
    hide Find, PiecesOf, NothingLost, ExactlyOnce, Armed;
    var w := st.writeOffset;
    CountAppend(st.sent, Frame(w, Bytes(st.writeBuf, w, w + n)), x);
  }

  lemma DoubledCut(st: State, n: int, x: int)
    requires Ok(st) && st.scramble && st.writeOffset == st.end && Live(First(st.cuts)) && Doubled(st, x)
    requires var c := First(st.cuts); 0 < n <= c.end - c.start
    ensures Doubled(SendCut(st, n), x)
  {
    hide Find, PiecesOf, NothingLost, ExactlyOnce, Armed;
    var c := First(st.cuts);
    CountAppend(st.sent, Frame(c.start, Bytes(st.writeBuf, c.start, c.start + n)), x);
  }

  lemma DoubledPlain(st: State, n: int, x: int)
    requires Ok(st) && !st.scramble && 0 < n <= |st.writeBuf| && Doubled(st, x)
    ensures Doubled(SendPlain(st, n), x)
  {
    hide Find, PiecesOf, NothingLost, ExactlyOnce;
    CountAppend(st.sent, Frame(st.writeOffset, Bytes(st.writeBuf, 0, n)), x);
  }

  lemma TwiceContinues(st: State, maxLen: int, n: int)
    requires Ok(st) && Twice(st, n)
    ensures Twice(PopState(st, maxLen), n)
  {
    hide Ok, Doubled, SendMain, SendCut, SendPlain;
    var x :| 0 <= x < n && Doubled(st, x);
    if st.scramble && st.writeOffset != st.end {
      BeforeEnd(st);
    }
    if !st.scramble {
      var k := Min(MaxDataLen(st.writeOffset, maxLen), |st.writeBuf|);
      if k > 0 {
        DoubledPlain(st, k, x);
      }
    } else if st.writeOffset == st.end {
      var c := First(st.cuts);
      var k := Min(MaxDataLen(c.start, maxLen), c.end - c.start);
      if !Live(c) {
        DoubledIdle(st, x);
      } else if k > 0 {
        DoubledCut(st, k, x);
      }
    } else {
      var k := Min(MaxDataLen(st.writeOffset, maxLen), MainLimit(st) - st.writeOffset);
      if k > 0 {
        DoubledMain(st, k, x);
      }
    }
    assert Doubled(PopState(st, maxLen), x);
  }

  lemma DoubledIdle(st: State, x: int)
    requires Doubled(st, x) && !Live(First(st.cuts))
    ensures Doubled(st.(end := InvalidByteCount, scramble := false), x)
  {
  }

  lemma TwiceSent(st: State)
    requires Ok(st) && !st.scramble && Twice(st, |st.written|)
    ensures exists p :: 0 <= p < |st.written| && Count(st.sent, p) >= 2
  {
    var x :| 0 <= x < |st.written| && Doubled(st, x);
    assert Count(st.sent, x) >= 2;
  }

  // ------------------------------------------------------ what no frame shows

  /** The cuts are sorted and do not overlap. */
  ghost predicate InOrder(cuts: Cuts) {
    Live(cuts.a) && Live(cuts.b) ==> cuts.a.start <= cuts.a.end <= cuts.b.start
  }

  /** The frame does not carry both the byte before the cut and the first byte of the cut. */
  ghost predicate Respects(f: Frame, c: Cut) {
    Live(c) ==> !(Carries(f, c.start - 1) && Carries(f, c.start))
  }

  ghost predicate AllRespect(frames: seq<Frame>, cuts: Cuts) {
    forall i :: 0 <= i < |frames| ==> Respects(frames[i], cuts.a) && Respects(frames[i], cuts.b)
  }

  /** What is left of a cut. */
  ghost predicate LeftOf(c: Cut, whole: Cut) {
    Live(c) ==> RestOf(c, whole)
  }

  /** The cuts are untouched until everything else was sent, and then sent piece by piece. */
  ghost predicate Splitting(st: State, cuts: Cuts) {
    && AllRespect(st.sent, cuts)
    && (st.scramble ==> st.end == |st.written| && LeftOf(st.cuts.a, cuts.a) && LeftOf(st.cuts.b, cuts.b))
    && (st.scramble && st.writeOffset < st.end ==> st.cuts == cuts)
    && (!st.scramble ==> st.writeBuf == [])
  }

  lemma RespectAppend(frames: seq<Frame>, f: Frame, cuts: Cuts)
    requires AllRespect(frames, cuts) && Respects(f, cuts.a) && Respects(f, cuts.b)
    ensures AllRespect(frames + [f], cuts)
  {
  }

  lemma SplitMain(st: State, n: int, cuts: Cuts)
    requires Ok(st) && st.scramble && st.writeOffset < st.end && 0 < n <= MainLimit(st) - st.writeOffset
    requires Splitting(st, cuts) && InOrder(cuts)
    ensures Splitting(SendMain(st, n), cuts)
  {
    hide Find, PiecesOf, NothingLost, ExactlyOnce, Armed;
    RespectAppend(st.sent, Frame(st.writeOffset, Bytes(st.writeBuf, st.writeOffset, st.writeOffset + n)), cuts);
    hide AllRespect;
  }

  lemma SplitCut(st: State, n: int, cuts: Cuts)
    requires Ok(st) && st.scramble && st.writeOffset == st.end && Live(First(st.cuts))
    requires var c := First(st.cuts); 0 < n <= c.end - c.start
    requires Splitting(st, cuts) && InOrder(cuts)
    ensures Splitting(SendCut(st, n), cuts)
  {
    hide Find, PiecesOf, NothingLost, ExactlyOnce, Armed;
    var c := First(st.cuts);
    RespectAppend(st.sent, Frame(c.start, Bytes(st.writeBuf, c.start, c.start + n)), cuts);
    hide AllRespect;
  }

  lemma SplitContinues(st: State, maxLen: int, cuts: Cuts)
    requires Ok(st) && Splitting(st, cuts) && InOrder(cuts) && (st.scramble ==> Live(st.cuts.a) || Live(st.cuts.b))
    ensures Splitting(PopState(st, maxLen), cuts)
  {
    if st.scramble && st.writeOffset != st.end {
      BeforeEnd(st);
    }
    hide Ok, SendMain, SendCut, SendPlain, Splitting, InOrder, MainLimit;
    SplitPlain(st, cuts);
    if st.scramble {
      if st.writeOffset == st.end {
        var c := First(st.cuts);
        var k := Min(MaxDataLen(c.start, maxLen), c.end - c.start);
        if k > 0 {
          SplitCut(st, k, cuts);
        }
      } else {
        var k := Min(MaxDataLen(st.writeOffset, maxLen), MainLimit(st) - st.writeOffset);
        if k > 0 {
          SplitMain(st, k, cuts);
        }
      }
    }
  }

  lemma SplitPlain(st: State, cuts: Cuts)
    requires Splitting(st, cuts)
    ensures !st.scramble ==> st.writeBuf == []
  {
  }

  /** Only an ECH extension shortly before the server name makes the two cuts overlap. */
  lemma CutsInOrder(hello: seq<byte>, r: FindResult)
    requires r.Found? && FoundOk(hello, r) && r.sniPos != -1
    ensures InOrder(MakeCuts(r, |hello|, NoCut)) <==>
            r.echPos == -1 || r.sniPos <= r.echPos || Min(r.echPos + 17, |hello|) <= r.sniPos + r.sniLen / 2
  {
    var a, b := SniCut(r), EchCut(r, |hello|);
    if r.echPos != -1 && r.echPos < r.sniPos {
      assert MakeCuts(r, |hello|, NoCut) == Cuts(b, a);
    } else {
      assert MakeCuts(r, |hello|, NoCut) == Cuts(a, b);
    }
  }

  /** No frame carries both halves of the server name, or both bytes of the type of the ECH extension. */
  ghost predicate Hides(f: Frame, r: FindResult)
    requires r.Found?
  {
    && (r.sniPos != -1 && r.sniLen >= 2 ==>
          !(Carries(f, r.sniPos + r.sniLen / 2 - 1) && Carries(f, r.sniPos + r.sniLen / 2)))
    && (r.echPos != -1 ==> !(Carries(f, r.echPos) && Carries(f, r.echPos + 1)))
  }

  lemma RespectHides(hello: seq<byte>, r: FindResult, f: Frame)
    requires r.Found? && FoundOk(hello, r) && !(r.sniPos == -1 && r.echPos == -1)
    requires var cuts := MakeCuts(r, |hello|, NoCut); Respects(f, cuts.a) && Respects(f, cuts.b)
    ensures Hides(f, r)
  {
    var a, b := SniCut(r), EchCut(r, |hello|);
    assert MakeCuts(r, |hello|, NoCut) in {Cuts(a, b), Cuts(b, a)};
  }

  /** If the cuts overlap, a frame with enough space shows what the second one hides. */
  lemma OverlapShows(st: State, cuts: Cuts, maxLen: int)
    requires Ok(st) && st.scramble && st.writeOffset == st.end && st.cuts == cuts
    requires Live(cuts.a) && Live(cuts.b) && cuts.a.start < cuts.b.start < cuts.a.end
    requires MaxDataLen(cuts.a.start, maxLen) >= cuts.a.end - cuts.a.start
    ensures var sent := PopState(st, maxLen).sent; sent != [] && !Respects(sent[|sent| - 1], cuts.b)
  {
    hide Find, PiecesOf, NothingLost, ExactlyOnce, Armed;
  }

  /**
   Sends a complete ClientHello in frames of the given sizes. Every frame is a piece of it. If each
   size allows a byte and there are enough of them, everything is sent, unless the server name is
   empty; in that case sending never ends. Nothing is sent twice exactly if the cuts are apart. The stream
   reports data exactly if there is a server name, or a name of another type of two bytes or more. Unless
   the cuts overlap, no frame shows the server name, or the type of the ECH extension.
   */
  method SendClientHello(hello: seq<byte>, sizes: seq<int>) returns (frames: seq<Frame>, done: bool, ready: bool)
    requires Find(hello).Found? && !(Find(hello).sniPos == -1 && Find(hello).echPos == -1)
    ensures PiecesOf(frames, hello)
    ensures done ==> forall p :: 0 <= p < |hello| ==> Count(frames, p) >= 1
    ensures done ==> (Apart(0, CutsOf(hello)) <==> forall p :: 0 <= p < |hello| ==> Count(frames, p) == 1)
    ensures (forall i :: 0 <= i < |sizes| ==> sizes[i] >= EnoughForOneByte) && |sizes| > 3 * |hello| ==>
            (done <==> !(Find(hello).sniPos != -1 && Find(hello).sniLen == 0))
    ensures ready <==> Find(hello).sniPos != -1 || Find(hello).sniLen >= 2
    ensures InOrder(CutsOf(hello)) ==> forall i :: 0 <= i < |frames| ==> Hides(frames[i], Find(hello))
  {
    var r := FindSNIAndECH(hello);
    var stream := new InitialCryptoStream(true);
    ghost var st := stream.St();
    FirstWrite(st, hello);
    var _ := stream.Write(hello);
    ghost var cuts, enough := CutsOf(hello), forall i :: 0 <= i < |sizes| ==> sizes[i] >= EnoughForOneByte;
    SendingStarts(stream.St(), hello, r, cuts);
    FirstCut(hello, r);
    EmptyNameEmptyCut(hello, r);
    if CutsNonEmpty(cuts) && !Apart(0, cuts) {
      TwiceStarts(stream.St(), hello, r, cuts);
    }
    ready := stream.HasData();
    SplitStarts(stream.St(), cuts);
    frames, done := SendFrames(stream, hello, cuts, sizes, enough);
    if InOrder(cuts) {
      forall i | 0 <= i < |frames| ensures Hides(frames[i], r) {
        RespectHides(hello, r, frames[i]);
      }
    }
  }

  lemma SplitStarts(st: State, cuts: Cuts)
    requires st.scramble && st.cuts == cuts && st.sent == [] && st.end == |st.written|
    ensures Splitting(st, cuts)
  {
  }

  method SendFrames(stream: InitialCryptoStream, ghost hello: seq<byte>, ghost cuts: Cuts, sizes: seq<int>,
                    ghost enough: bool)
    returns (frames: seq<Frame>, done: bool)
    requires Sending(stream.St(), hello, cuts) && stream.sent == [] && |hello| <= 4 + 0xff_ffff
    requires enough ==> forall i :: 0 <= i < |sizes| ==> sizes[i] >= EnoughForOneByte
    requires CutsNonEmpty(cuts) && !Apart(0, cuts) ==> Twice(stream.St(), |hello|)
    requires Splitting(stream.St(), cuts)
    modifies stream
    ensures PiecesOf(frames, hello)
    ensures done ==> forall p :: 0 <= p < |hello| ==> Count(frames, p) >= 1
    ensures done ==> (Apart(0, cuts) <==> forall p :: 0 <= p < |hello| ==> Count(frames, p) == 1)
    ensures enough && |sizes| > old(Todo(stream.St())) ==> (done <==> CutsNonEmpty(cuts))
    ensures !CutsNonEmpty(cuts) ==> !done
    ensures InOrder(cuts) ==> AllRespect(frames, cuts)
  {
    frames := [];
    ghost var todo := Todo(stream.St());
    for i := 0 to |sizes|
      invariant Sending(stream.St(), hello, cuts) && stream.sent == frames
      invariant CutsNonEmpty(cuts) && !Apart(0, cuts) ==> Twice(stream.St(), |hello|)
      invariant InOrder(cuts) ==> Splitting(stream.St(), cuts)
      invariant enough && CutsNonEmpty(cuts) ==>
                (!stream.scramble && stream.writeBuf == []) || Todo(stream.St()) <= todo - i
    {
      ghost var st := stream.St();
      var f := stream.PopCryptoFrame(sizes[i]);
      SendingContinues(st, stream.St(), hello, cuts, sizes[i], f);
      if CutsNonEmpty(cuts) && !Apart(0, cuts) {
        TwiceContinues(st, sizes[i], |hello|);
      }
      if InOrder(cuts) {
        SplitContinues(st, sizes[i], cuts);
      }
      if enough && CutsNonEmpty(cuts) {
        SendingProgress(st, hello, cuts, sizes[i]);
      }
      if f.Some? {
        frames := frames + [f.value];
      }
    }
    done := !stream.scramble && |stream.writeBuf| == 0;
    TodoDecreases(stream.St(), 1);
    if done {
      AllSent(stream.St());
      if !Apart(0, cuts) {
        TwiceSent(stream.St());
      }
    }
  }

  lemma PieceIsSlice(f: Frame, bytes: seq<byte>)
    requires PieceOf(f, bytes)
    ensures SliceOf(f.data, f.offset, StreamOf(bytes))
  {
    forall i | 0 <= i < |f.data| ensures f.data[i] == StreamOf(bytes)(f.offset + i) {
      assert f.data[i] == bytes[f.offset..f.offset + |f.data|][i];
    }
  }

  /** Frames that arrive in any order, any number of times, carry what was sent. */
  lemma ArrivalCarriesAll(sent: seq<Frame>, arrived: seq<Frame>, hello: seq<byte>)
    requires PiecesOf(sent, hello)
    requires forall f :: f in sent <==> f in arrived
    ensures PiecesOf(arrived, hello)
    ensures forall p :: Count(sent, p) >= 1 ==> Count(arrived, p) >= 1
  {
    forall i | 0 <= i < |arrived| ensures PieceOf(arrived[i], hello) {
      assert arrived[i] in sent;
    }
    forall p | Count(sent, p) >= 1 ensures Count(arrived, p) >= 1 {
      CountPositive(sent, p);
      CountPositive(arrived, p);
      var i :| 0 <= i < |sent| && Carries(sent[i], p);
      assert sent[i] in arrived;
      var j :| 0 <= j < |arrived| && arrived[j] == sent[i];
    }
  }

  /** Feeds frames to a crypto stream. */
  method FeedAll(arrived: seq<Frame>, ghost hello: seq<byte>) returns (reader: CryptoReader)
    requires PiecesOf(arrived, hello) && |hello| <= MaxCryptoStreamOffset
    ensures fresh(reader) && fresh(reader.queue) && reader.Valid()
    ensures reader.queue.ConsistentWith(StreamOf(hello)) && reader.queue.delivered == []
    ensures forall p :: p in reader.queue.received <==> Count(arrived, p) >= 1
  {
    ghost var stream := StreamOf(hello);
    reader := NewReader(hello);
    for i := 0 to |arrived|
      invariant fresh(reader) && fresh(reader.queue) && reader.Valid() && !reader.finished
      invariant reader.queue.ConsistentWith(stream) && reader.queue.delivered == []
      invariant forall p :: p in reader.queue.received <==> Count(arrived[..i], p) >= 1
    {
      assert PieceOf(arrived[i], hello);
      ghost var received := reader.queue.received;
      FeedOne(reader, arrived[i], hello);
      CarriedStep(received, arrived, i, reader.queue.received);
    }
    assert arrived[..|arrived|] == arrived;
  }

  method NewReader(ghost hello: seq<byte>) returns (reader: CryptoReader)
    ensures fresh(reader) && fresh(reader.queue) && reader.Valid() && !reader.finished
    ensures reader.queue.ConsistentWith(StreamOf(hello)) && reader.queue.delivered == []
            && reader.queue.received == iset{}
  {
    reader := new CryptoReader();
  }

  lemma CarriedStep(received: iset<int>, arrived: seq<Frame>, i: int, received': iset<int>)
    requires 0 <= i < |arrived| && forall p :: p in received <==> Count(arrived[..i], p) >= 1
    requires received' == received + Range(arrived[i].offset, arrived[i].offset + |arrived[i].data|)
    ensures forall p :: p in received' <==> Count(arrived[..i + 1], p) >= 1
  {
    assert arrived[..i + 1] == arrived[..i] + [arrived[i]];
    forall p ensures p in received' <==> Count(arrived[..i + 1], p) >= 1 {
      CountAppend(arrived[..i], arrived[i], p);
    }
  }

  /** A frame cut from the ClientHello arrives. */
  method FeedOne(reader: CryptoReader, f: Frame, ghost hello: seq<byte>)
    requires reader.Valid() && !reader.finished && PieceOf(f, hello) && |hello| <= MaxCryptoStreamOffset
    requires reader.queue.ConsistentWith(StreamOf(hello))
    modifies reader, reader.queue
    ensures reader.Valid() && !reader.finished && reader.queue.ConsistentWith(StreamOf(hello))
    ensures reader.queue.delivered == old(reader.queue.delivered)
    ensures reader.queue.received == old(reader.queue.received) + Range(f.offset, f.offset + |f.data|)
  {
    hide StateOk, Missing, Conserved, Prefix, Agrees, Provenance;
    PieceIsSlice(f, hello);
    ghost var q := reader.queue.queue;
    var r := reader.HandleCryptoFrame(f);
    ProvenanceAgrees(q, reader.queue.queue, f.data, f.offset, StreamOf(hello));
  }

  /** The read position is never beyond the first byte that was not received. */
  lemma ReadPosBounded(q: Queue, gaps: seq<Interval>, readPos: int, received: iset<int>, n: int)
    requires StateOk(q, gaps, readPos) && Missing(gaps, received)
    requires 0 <= n < MaxByteCount && n !in received
    ensures readPos <= n
  {
    assert InGap(gaps, n);
    var i :| 0 <= i < |gaps| && gaps[i].start <= n < gaps[i].end;
    GapAbove(gaps, i);
  }

  /**
   Feeds frames to a crypto stream and reads it until it has no more data: yields the ClientHello up
   to the first byte that no frame carries.
   */
  method Reassemble(arrived: seq<Frame>, ghost hello: seq<byte>) returns (out: seq<byte>)
    requires PiecesOf(arrived, hello) && |hello| <= MaxCryptoStreamOffset
    ensures out <= hello
    ensures |out| < |hello| ==> Count(arrived, |out|) == 0
    ensures (forall p :: 0 <= p < |hello| ==> Count(arrived, p) >= 1) ==> out == hello
  {
    ghost var stream := StreamOf(hello);
    var reader := FeedAll(arrived, hello);
    CountBeyond(arrived, hello, |hello|);
    out := [];
    var more := true;
    while more
      invariant fresh(reader) && fresh(reader.queue) && reader.Valid() && reader.queue.ConsistentWith(stream)
      invariant forall p :: p in reader.queue.received <==> Count(arrived, p) >= 1
      invariant reader.queue.delivered == out && |out| <= |hello|
      invariant more || Count(arrived, |out|) == 0
      decreases |hello| - |out|, more
    {
      var data := reader.GetCryptoData();
      more := data.Some?;
      if data.Some? {
        out := out + data.value;
        ReadPosBounded(reader.queue.queue, reader.queue.gaps, reader.queue.readPos, reader.queue.received, |hello|);
      }
    }
    PrefixOfStream(hello);
    assert Prefix(stream, |out|) == hello[..|out|];
  }

  ghost predicate Has(order: seq<int>, i: int) {
    exists j :: 0 <= j < |order| && order[j] == i
  }

  /** An order in which n frames arrive: each of them, at least once. */
  ghost predicate Arrival(order: seq<int>, n: int) {
    && (forall j :: 0 <= j < |order| ==> 0 <= order[j] < n)
    && (forall i :: 0 <= i < n ==> Has(order, i))
  }

  method Arrange(frames: seq<Frame>, order: seq<int>) returns (arrived: seq<Frame>)
    requires Arrival(order, |frames|)
    ensures forall f :: f in frames <==> f in arrived
  {
    arrived := seq(|order|, j requires 0 <= j < |order| && Arrival(order, |frames|) => frames[order[j]]);
    forall f | f in frames ensures f in arrived {
      var i :| 0 <= i < |frames| && frames[i] == f;
      assert Has(order, i);
      var j :| 0 <= j < |order| && order[j] == i;
      assert arrived[j] == f;
    }
  }

  /**
   Scrambling and reassembling is the identity: every ClientHello with a server name that is not
   empty, sent with enough frame sizes and received in any order, is read as it was written.
   */
  method Exchange(hello: seq<byte>, sizes: seq<int>, order: int -> seq<int>) returns (out: seq<byte>)
    requires Find(hello).Found? && Find(hello).sniPos != -1 && Find(hello).sniLen > 0
             && |hello| <= MaxCryptoStreamOffset
    requires (forall i :: 0 <= i < |sizes| ==> sizes[i] >= EnoughForOneByte) && |sizes| > 3 * |hello|
    requires forall n :: Arrival(order(n), n)
    ensures out == hello
  {
    hide Find;
    var frames, done, _ := SendClientHello(hello, sizes);
    var arrived := Arrange(frames, order(|frames|));
    ArrivalCarriesAll(frames, arrived, hello);
    out := Reassemble(arrived, hello);
  }
}
