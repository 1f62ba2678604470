/** What the search of a ClientHello finds, in terms of the list of its extensions. */
module SniSearch {
  import opened Common
  import opened Sni

  /** Where the complete extensions in data[pos..limit] start. */
  function Offsets(data: seq<byte>, pos: int, limit: int): seq<int>
    requires 0 <= pos && limit <= |data|
    decreases limit - pos
  {
    if pos + 4 > limit || pos + 4 + U16(data, pos + 2) > limit then []
    else [pos] + Offsets(data, pos + 4 + U16(data, pos + 2), limit)
  }

  /** The list ends with an extension that is not complete. */
  predicate Truncated(data: seq<byte>, pos: int, limit: int)
    requires 0 <= pos && limit <= |data|
    decreases limit - pos
  {
    pos + 4 <= limit
    && (pos + 4 + U16(data, pos + 2) > limit || Truncated(data, pos + 4 + U16(data, pos + 2), limit))
  }

  predicate HasType(data: seq<byte>, o: int, extType: int) {
    0 <= o && o + 4 <= |data| && U16(data, o) == extType
  }

  /** What the extension at o says about the server name. */
  function NameAt(data: seq<byte>, o: int): NameResult {
    if HasType(data, o, ExtTypeSNI) && o + 4 + U16(data, o + 2) <= |data|
    then ServerName(data, o + 4, U16(data, o + 2), 0)
    else NoName(0)
  }

  /** Whether a name is found does not depend on the names before. */
  lemma NameSame(data: seq<byte>, base: int, extLen: int, len: int)
    requires 0 <= base && 0 <= extLen && base + extLen <= |data|
    ensures var a, b := ServerName(data, base, extLen, len), ServerName(data, base, extLen, 0);
            a == b || (a.NoName? && b.NoName?)
  {
  }

  /** Position p is that of the first ECH extension, or -1 if there is none. */
  ghost predicate FirstEch(data: seq<byte>, offs: seq<int>, p: int) {
    if p == -1 then forall i :: 0 <= i < |offs| ==> !HasType(data, offs[i], ExtTypeECH)
    else exists i :: 0 <= i < |offs| && offs[i] == p && HasType(data, p, ExtTypeECH)
                     && forall j :: 0 <= j < i ==> !HasType(data, offs[j], ExtTypeECH)
  }

  /** Position and length are those of the first host name, or -1 if there is none. */
  ghost predicate FirstName(data: seq<byte>, offs: seq<int>, p: int, n: int) {
    if p == -1 then forall i :: 0 <= i < |offs| ==> !NameAt(data, offs[i]).Name?
    else exists i :: 0 <= i < |offs| && NameAt(data, offs[i]) == Name(p, n)
                     && forall j :: 0 <= j < i ==> !NameAt(data, offs[j]).Name?
  }

  /** There is a second ECH extension, or another server name extension after a host name. */
  ghost predicate Repeated(data: seq<byte>, offs: seq<int>) {
    exists i, j :: 0 <= i < j < |offs|
                   && ((HasType(data, offs[i], ExtTypeECH) && HasType(data, offs[j], ExtTypeECH))
                       || (NameAt(data, offs[i]).Name? && HasType(data, offs[j], ExtTypeSNI)))
  }

  ghost predicate HasBadName(data: seq<byte>, offs: seq<int>) {
    exists i :: 0 <= i < |offs| && NameAt(data, offs[i]).BadName?
  }

  ghost predicate Has(data: seq<byte>, offs: seq<int>, extType: int) {
    exists i :: 0 <= i < |offs| && HasType(data, offs[i], extType)
  }

  /** What is true of the result of a scan of the extensions at offs, if sniPos and echPos were found before. */
  ghost predicate ScanOk(data: seq<byte>, offs: seq<int>, truncated: bool, sniPos: int, sniLen: int, echPos: int,
                         r: FindResult) {
    match r
    case Found(p, n, e) =>
      && (if echPos != -1 then e == echPos else FirstEch(data, offs, e))
      && (if sniPos != -1 then p == sniPos && n == sniLen else FirstName(data, offs, p, n))
      && (p == -1 || e == -1 ==> !truncated && !HasBadName(data, offs))
    case Malformed =>
      || Repeated(data, offs) || (echPos != -1 && Has(data, offs, ExtTypeECH))
      || (sniPos != -1 && Has(data, offs, ExtTypeSNI))
    case UnexpectedEOF => truncated || HasBadName(data, offs)
  }

  /** Nothing comes before the first extension. */
  lemma At(offs: seq<int>, o: int)
    ensures ([o] + offs)[0] == o && forall i :: 0 <= i < |offs| ==> ([o] + offs)[i + 1] == offs[i]
  {
  }

  lemma EchLater(data: seq<byte>, offs: seq<int>, o: int, p: int)
    requires FirstEch(data, offs, p) && !HasType(data, o, ExtTypeECH)
    ensures FirstEch(data, [o] + offs, p)
  {
    hide HasType;
    At(offs, o);
    var all := [o] + offs;
    if p != -1 {
      var i :| 0 <= i < |offs| && offs[i] == p && HasType(data, p, ExtTypeECH)
               && forall j :: 0 <= j < i ==> !HasType(data, offs[j], ExtTypeECH);
      assert all[i + 1] == p;
      forall j | 0 <= j < i + 1 ensures !HasType(data, all[j], ExtTypeECH) {
        assert j > 0 ==> all[j] == offs[j - 1];
      }
    } else {
      forall j | 0 <= j < |all| ensures !HasType(data, all[j], ExtTypeECH) {
        assert j > 0 ==> all[j] == offs[j - 1];
      }
    }
  }

  lemma EchHere(data: seq<byte>, offs: seq<int>, o: int)
    requires HasType(data, o, ExtTypeECH)
    ensures FirstEch(data, [o] + offs, o)
  {
    assert o != -1;
    hide HasType;
    assert ([o] + offs)[0] == o;
    assert HasType(data, ([o] + offs)[0], ExtTypeECH);
  }

  lemma NameLater(data: seq<byte>, offs: seq<int>, o: int, p: int, n: int)
    requires FirstName(data, offs, p, n) && !NameAt(data, o).Name?
    ensures FirstName(data, [o] + offs, p, n)
  {
    hide NameAt;
    At(offs, o);
    var all := [o] + offs;
    if p != -1 {
      var i :| 0 <= i < |offs| && NameAt(data, offs[i]) == Name(p, n)
               && forall j :: 0 <= j < i ==> !NameAt(data, offs[j]).Name?;
      assert NameAt(data, all[i + 1]) == Name(p, n);
      forall j | 0 <= j < i + 1 ensures !NameAt(data, all[j]).Name? {
        assert j > 0 ==> all[j] == offs[j - 1];
      }
    } else {
      forall j | 0 <= j < |all| ensures !NameAt(data, all[j]).Name? {
        assert j > 0 ==> all[j] == offs[j - 1];
      }
    }
  }

  lemma NameHere(data: seq<byte>, offs: seq<int>, o: int)
    requires NameAt(data, o).Name?
    ensures var r := NameAt(data, o); r.pos != -1 ==> FirstName(data, [o] + offs, r.pos, r.len)
  {
    hide NameAt;
    assert NameAt(data, ([o] + offs)[0]).Name?;
  }

  lemma RepeatedLater(data: seq<byte>, offs: seq<int>, o: int)
    requires Repeated(data, offs)
    ensures Repeated(data, [o] + offs)
  {
    hide NameAt, HasType;
    At(offs, o);
    var i, j :| 0 <= i < j < |offs|
                && ((HasType(data, offs[i], ExtTypeECH) && HasType(data, offs[j], ExtTypeECH))
                    || (NameAt(data, offs[i]).Name? && HasType(data, offs[j], ExtTypeSNI)));
    assert ([o] + offs)[i + 1] == offs[i] && ([o] + offs)[j + 1] == offs[j];
  }

  lemma BadNameLater(data: seq<byte>, offs: seq<int>, o: int)
    ensures HasBadName(data, [o] + offs) <==> NameAt(data, o).BadName? || HasBadName(data, offs)
  {
    hide NameAt;
    At(offs, o);
    var all := [o] + offs;
    if HasBadName(data, offs) {
      var i :| 0 <= i < |offs| && NameAt(data, offs[i]).BadName?;
      assert NameAt(data, all[i + 1]).BadName?;
    }
    if HasBadName(data, all) {
      var i :| 0 <= i < |all| && NameAt(data, all[i]).BadName?;
      assert i == 0 || NameAt(data, offs[i - 1]).BadName?;
    }
    if NameAt(data, o).BadName? {
      assert NameAt(data, all[0]).BadName?;
    }
  }

  lemma HasLater(data: seq<byte>, offs: seq<int>, o: int, extType: int)
    ensures HasType(data, o, extType) || Has(data, offs, extType) ==> Has(data, [o] + offs, extType)
  {
    hide HasType;
    At(offs, o);
    var all := [o] + offs;
    if Has(data, offs, extType) {
      var i :| 0 <= i < |offs| && HasType(data, offs[i], extType);
      assert HasType(data, all[i + 1], extType);
    }
    if HasType(data, o, extType) {
      assert HasType(data, all[0], extType);
    }
  }

  lemma RepeatedHere(data: seq<byte>, offs: seq<int>, o: int)
    ensures HasType(data, o, ExtTypeECH) && Has(data, offs, ExtTypeECH) ==> Repeated(data, [o] + offs)
    ensures NameAt(data, o).Name? && Has(data, offs, ExtTypeSNI) ==> Repeated(data, [o] + offs)
  {
    hide NameAt, HasType;
    At(offs, o);
    var all := [o] + offs;
    if HasType(data, o, ExtTypeECH) && Has(data, offs, ExtTypeECH) {
      var j :| 0 <= j < |offs| && HasType(data, offs[j], ExtTypeECH);
      assert HasType(data, all[0], ExtTypeECH) && HasType(data, all[j + 1], ExtTypeECH);
    }
    if NameAt(data, o).Name? && Has(data, offs, ExtTypeSNI) {
      var j :| 0 <= j < |offs| && HasType(data, offs[j], ExtTypeSNI);
      assert NameAt(data, all[0]).Name? && HasType(data, all[j + 1], ExtTypeSNI);
    }
  }

  /** The errors of a longer list. */
  lemma ErrorsLater(data: seq<byte>, offs: seq<int>, o: int)
    ensures Repeated(data, offs) ==> Repeated(data, [o] + offs)
    ensures HasBadName(data, [o] + offs) <==> NameAt(data, o).BadName? || HasBadName(data, offs)
    ensures HasType(data, o, ExtTypeECH) || Has(data, offs, ExtTypeECH) ==> Has(data, [o] + offs, ExtTypeECH)
    ensures HasType(data, o, ExtTypeSNI) || Has(data, offs, ExtTypeSNI) ==> Has(data, [o] + offs, ExtTypeSNI)
    ensures HasType(data, o, ExtTypeECH) && Has(data, offs, ExtTypeECH) ==> Repeated(data, [o] + offs)
    ensures NameAt(data, o).Name? && Has(data, offs, ExtTypeSNI) ==> Repeated(data, [o] + offs)
  {
    hide HasBadName, Repeated, Has, NameAt, HasType;
    if Repeated(data, offs) {
      RepeatedLater(data, offs, o);
    }
    BadNameLater(data, offs, o);
    HasLater(data, offs, o, ExtTypeECH);
    HasLater(data, offs, o, ExtTypeSNI);
    RepeatedHere(data, offs, o);
  }

  /** A position that was found is not -1. */
  lemma NamePlaced(data: seq<byte>, o: int)
    requires NameAt(data, o).Name?
    ensures NameAt(data, o).pos > 0
  {
  }

  /** An extension that is neither an ECH extension nor has a host name changes nothing. */
  lemma OtherOk(data: seq<byte>, offs: seq<int>, o: int, truncated: bool, sniPos: int, sniLen: int, len: int,
                echPos: int, r: FindResult)
    requires ScanOk(data, offs, truncated, sniPos, len, echPos, r) && (sniPos != -1 ==> len == sniLen)
    requires !HasType(data, o, ExtTypeECH) && NameAt(data, o).NoName?
    ensures ScanOk(data, [o] + offs, truncated, sniPos, sniLen, echPos, r)
  {
    hide FirstEch, FirstName, HasBadName, Repeated, Has, NameAt, HasType;
    ErrorsLater(data, offs, o);
    if r.Found? {
      if echPos == -1 {
        EchLater(data, offs, o, r.echPos);
      }
      if sniPos == -1 {
        NameLater(data, offs, o, r.sniPos, r.sniLen);
      }
    }
  }

  lemma NameOk(data: seq<byte>, offs: seq<int>, o: int, truncated: bool, sniLen: int, r: FindResult)
    requires NameAt(data, o).Name? && !HasType(data, o, ExtTypeECH)
    requires var name := NameAt(data, o); ScanOk(data, offs, truncated, name.pos, name.len, -1, r)
    ensures ScanOk(data, [o] + offs, truncated, -1, sniLen, -1, r)
  {
    NamePlaced(data, o);
    hide FirstEch, FirstName, HasBadName, Repeated, Has, NameAt, HasType;
    ErrorsLater(data, offs, o);
    NameHere(data, offs, o);
    if r.Found? {
      EchLater(data, offs, o, r.echPos);
    }
  }

  lemma EchOk(data: seq<byte>, offs: seq<int>, o: int, truncated: bool, sniLen: int, r: FindResult)
    requires HasType(data, o, ExtTypeECH) && NameAt(data, o).NoName?
    requires ScanOk(data, offs, truncated, -1, sniLen, o, r)
    ensures ScanOk(data, [o] + offs, truncated, -1, sniLen, -1, r)
  {
    assert o != -1;
    hide FirstEch, FirstName, HasBadName, Repeated, Has, NameAt, HasType;
    ErrorsLater(data, offs, o);
    EchHere(data, offs, o);
    if r.Found? {
      NameLater(data, offs, o, r.sniPos, r.sniLen);
    }
  }

  lemma NoneThere(data: seq<byte>, n: int)
    ensures FirstEch(data, [], -1) && FirstName(data, [], -1, n) && !HasBadName(data, [])
  {
  }

  /** A server name extension. */
  lemma SniExact(data: seq<byte>, pos: int, limit: int, sniPos: int, sniLen: int, echPos: int)
    requires 0 <= pos && pos + 4 <= limit <= |data| && pos + 4 + U16(data, pos + 2) <= limit
    requires U16(data, pos) == ExtTypeSNI && (sniPos == -1 || echPos == -1)
    ensures ScanOk(data, Offsets(data, pos, limit), Truncated(data, pos, limit), sniPos, sniLen, echPos,
                   Scan(data, pos, limit, sniPos, sniLen, echPos))
    decreases limit - pos, 0
  {
    var next := pos + 4 + U16(data, pos + 2);
    var offs, truncated := Offsets(data, next, limit), Truncated(data, next, limit);
    var name := ServerName(data, pos + 4, U16(data, pos + 2), sniLen);
    assert Offsets(data, pos, limit) == [pos] + offs && (Truncated(data, pos, limit) <==> truncated);
    assert HasType(data, pos, ExtTypeSNI) && !HasType(data, pos, ExtTypeECH);
    NameSame(data, pos + 4, U16(data, pos + 2), sniLen);
    assert NameAt(data, pos) == name || (NameAt(data, pos).NoName? && name.NoName?);
    hide FirstEch, FirstName, HasBadName, Repeated, Has, ServerName, NameAt, HasType, Truncated, Offsets;
    ErrorsLater(data, offs, pos);
    if sniPos == -1 {
      ScanSNI(data, pos, limit, sniLen, echPos);
      if name.NoName? {
        ScanExact(data, next, limit, -1, name.len, echPos);
        OtherOk(data, offs, pos, truncated, -1, sniLen, name.len, echPos,
                Scan(data, next, limit, -1, name.len, echPos));
      } else if name.Name? {
        NamePlaced(data, pos);
        NameHere(data, offs, pos);
        if echPos == -1 {
          ScanExact(data, next, limit, name.pos, name.len, -1);
          NameOk(data, offs, pos, truncated, sniLen, Scan(data, next, limit, name.pos, name.len, -1));
        }
      }
    }
  }

  /** Any other extension. */
  lemma OtherExact(data: seq<byte>, pos: int, limit: int, sniPos: int, sniLen: int, echPos: int)
    requires 0 <= pos && pos + 4 <= limit <= |data| && pos + 4 + U16(data, pos + 2) <= limit
    requires U16(data, pos) != ExtTypeSNI && (sniPos == -1 || echPos == -1)
    ensures ScanOk(data, Offsets(data, pos, limit), Truncated(data, pos, limit), sniPos, sniLen, echPos,
                   Scan(data, pos, limit, sniPos, sniLen, echPos))
    decreases limit - pos, 0
  {
    var next := pos + 4 + U16(data, pos + 2);
    var offs, truncated := Offsets(data, next, limit), Truncated(data, next, limit);
    assert Offsets(data, pos, limit) == [pos] + offs && (Truncated(data, pos, limit) <==> truncated);
    assert HasType(data, pos, ExtTypeECH) <==> U16(data, pos) == ExtTypeECH;
    assert NameAt(data, pos).NoName?;
    ScanOther(data, pos, limit, sniPos, sniLen, echPos);
    hide FirstEch, FirstName, HasBadName, Repeated, Has, NameAt, HasType, Truncated, Offsets, Scan;
    ErrorsLater(data, offs, pos);
    if HasType(data, pos, ExtTypeECH) {
      EchHere(data, offs, pos);
      if echPos == -1 && sniPos == -1 {
        ScanExact(data, next, limit, -1, sniLen, pos);
        EchOk(data, offs, pos, truncated, sniLen, Scan(data, next, limit, -1, sniLen, pos));
      }
    } else {
      ScanExact(data, next, limit, sniPos, sniLen, echPos);
      OtherOk(data, offs, pos, truncated, sniPos, sniLen, sniLen, echPos,
              Scan(data, next, limit, sniPos, sniLen, echPos));
    }
  }

  /** The scan of a list of extensions, after sniPos or echPos was found. */
  lemma {:induction false} ScanExact(data: seq<byte>, pos: int, limit: int, sniPos: int, sniLen: int, echPos: int)
    requires 0 <= pos && limit <= |data| && (sniPos == -1 || echPos == -1)
    ensures ScanOk(data, Offsets(data, pos, limit), Truncated(data, pos, limit), sniPos, sniLen, echPos,
                   Scan(data, pos, limit, sniPos, sniLen, echPos))
    decreases limit - pos, 1
  {
    hide FirstEch, FirstName, HasBadName, Repeated, Has, ServerName;
    if pos + 4 > limit || pos + 4 + U16(data, pos + 2) > limit {
      NoneThere(data, sniLen);
    } else if U16(data, pos) == ExtTypeSNI {
      SniExact(data, pos, limit, sniPos, sniLen, echPos);
    } else {
      OtherExact(data, pos, limit, sniPos, sniLen, echPos);
    }
  }

  /**
   The search of a ClientHello whose extensions are data[start..limit] finds the first host name and the first
   ECH extension, and reports that there is none only if there is none. It calls the message malformed
   only if an extension is repeated, and incomplete only if an extension or a list of names is.
   */
  lemma FindExact(data: seq<byte>)
    requires |data| >= 4 && data[0] == 1 && |data| == 4 + HandshakeLen(data) && ExtensionsAt(data).Some?
    requires var at := ExtensionsAt(data).value; at + 2 <= |data| && at + 2 + U16(data, at) <= |data|
    ensures var start := ExtensionsAt(data).value + 2;
            var limit := start + U16(data, start - 2);
            var offs, truncated := Offsets(data, start, limit), Truncated(data, start, limit);
            match Find(data)
            case Found(sniPos, sniLen, echPos) =>
              && FirstEch(data, offs, echPos) && FirstName(data, offs, sniPos, sniLen)
              && (sniPos == -1 || echPos == -1 ==> !truncated && !HasBadName(data, offs))
            case Malformed => Repeated(data, offs)
            case UnexpectedEOF => truncated || HasBadName(data, offs)
  {
    hide FirstEch, FirstName, HasBadName, Repeated, Has, Scan, Offsets, Truncated;
    var start := ExtensionsAt(data).value + 2;
    ScanExact(data, start, start + U16(data, start - 2), -1, 0, -1);
  }

  /** A part of a ClientHello is incomplete, wherever it ends. */
  lemma PartIncomplete(hello: seq<byte>, n: int)
    requires Find(hello).Found? && 0 <= n < |hello|
    ensures Find(hello[..n]) == UnexpectedEOF
  {
    if n >= 4 {
      assert HandshakeLen(hello[..n]) == HandshakeLen(hello);
    }
  }
}
