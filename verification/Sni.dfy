/** Locates the server name and the Encrypted Client Hello extension in a ClientHello. */
module Sni {
  import opened Common

  const ExtTypeSNI: int := 0
  const ExtTypeECH: int := 0xfe0d

  datatype FindResult =
    | Found(sniPos: int, sniLen: int, echPos: int)
    | UnexpectedEOF
    | Malformed

  function U16(data: seq<byte>, i: int): int
    requires 0 <= i && i + 2 <= |data|
  {
    data[i] as int * 256 + data[i + 1] as int
  }

  /** The bytes before sniPos announce a host_name of sniLen bytes, which fits. */
  ghost predicate IsHostName(data: seq<byte>, sniPos: int, sniLen: int) {
    && 4 + 9 <= sniPos && 0 <= sniLen && sniPos + sniLen <= |data|
    && data[sniPos - 3] == 0 && U16(data, sniPos - 2) == sniLen
  }

  /** An extension of the given type starts at pos, and fits. */
  ghost predicate IsExtension(data: seq<byte>, pos: int, extType: int) {
    && 0 < pos && pos + 4 <= |data|
    && U16(data, pos) == extType
    && pos + 4 + U16(data, pos + 2) <= |data|
  }

  /**
   What a successful search guarantees: the positions point at a host name and at an ECH
   extension, and those two do not overlap. Without a host name, sniLen is the length of the
   last name of another type, if any.
   */
  ghost predicate FoundOk(data: seq<byte>, r: FindResult) {
    r.Found? ==>
      && (r.sniPos == -1 || IsHostName(data, r.sniPos, r.sniLen))
      && 0 <= r.sniLen <= |data|
      && (r.echPos == -1 || IsExtension(data, r.echPos, ExtTypeECH))
      && (r.sniPos != -1 && r.echPos != -1 ==>
            || r.sniPos + r.sniLen <= r.echPos
            || r.echPos + 4 + U16(data, r.echPos + 2) + 9 <= r.sniPos)
  }

  // ------------------------------------------------------- specification

  /** Skips a length-prefixed vector whose length takes `width` bytes. */
  function SkipVector(data: seq<byte>, pos: Option<int>, width: int): (r: Option<int>)
    requires width == 1 || width == 2
    requires pos.Some? ==> 0 <= pos.value <= |data|
    ensures r.Some? ==> pos.Some? && pos.value < r.value <= |data|
  {
    if pos.None? || pos.value + width > |data| then None
    else
      var n := if width == 1 then data[pos.value] as int else U16(data, pos.value);
      if pos.value + width + n > |data| then None else Some(pos.value + width + n)
  }

  /** Where the extension block starts: behind version, random, session ID, cipher suites and compression methods. */
  function ExtensionsAt(data: seq<byte>): (r: Option<int>)
    ensures r.Some? ==> 4 < r.value <= |data|
  {
    if |data| < 38 then None
    else SkipVector(data, SkipVector(data, SkipVector(data, Some(38), 1), 2), 1)
  }

  datatype NameResult = Name(pos: int, len: int) | NoName(len: int) | BadName

  /** The first host_name among the names data[base + listPos..base + extLen]. */
  function HostName(data: seq<byte>, base: int, listPos: int, extLen: int, len: int): (r: NameResult)
    requires 0 <= base && 0 <= listPos && 0 <= extLen && base + extLen <= |data|
    ensures r.Name? ==> base + listPos + 3 <= r.pos && r.pos + r.len <= base + extLen
    decreases extLen - listPos
  {
    if listPos + 3 > extLen then NoName(len)
    else
      var n := U16(data, base + listPos + 1);
      if listPos + 3 + n > extLen then BadName
      else if data[base + listPos] == 0 then Name(base + listPos + 3, n)
      else HostName(data, base, listPos + 3 + n, extLen, n)
  }

  function ServerName(data: seq<byte>, base: int, extLen: int, len: int): NameResult
    requires 0 <= base && 0 <= extLen && base + extLen <= |data|
  {
    if extLen < 2 || extLen != 2 + U16(data, base) then BadName else HostName(data, base, 2, extLen, len)
  }

  /** The result of scanning the extensions data[pos..limit]. */
  function Scan(data: seq<byte>, pos: int, limit: int, sniPos: int, sniLen: int, echPos: int): FindResult
    requires 0 <= pos && limit <= |data|
    decreases limit - pos
  {
    if pos + 4 > limit then Found(sniPos, sniLen, echPos)
    else
      var extType, extLen := U16(data, pos), U16(data, pos + 2);
      var next := pos + 4 + extLen;
      if next > limit then UnexpectedEOF
      else if extType == ExtTypeSNI then
        if sniPos != -1 then Malformed
        else
          match ServerName(data, pos + 4, extLen, sniLen)
          case BadName => UnexpectedEOF
          case NoName(n) => Scan(data, next, limit, -1, n, echPos)
          case Name(p, n) =>
            if echPos != -1 then Found(p, n, echPos) else Scan(data, next, limit, p, n, echPos)
      else if extType == ExtTypeECH then
        if echPos != -1 then Malformed
        else if sniPos != -1 then Found(sniPos, sniLen, pos)
        else Scan(data, next, limit, sniPos, sniLen, pos)
      else Scan(data, next, limit, sniPos, sniLen, echPos)
  }

  function HandshakeLen(data: seq<byte>): int
    requires |data| >= 4
  {
    data[1] as int * 65536 + data[2] as int * 256 + data[3] as int
  }

  function Find(data: seq<byte>): FindResult {
    if |data| < 4 then UnexpectedEOF
    else if data[0] != 1 then Malformed
    else if |data| != 4 + HandshakeLen(data) then UnexpectedEOF
    else
      var at := ExtensionsAt(data);
      if at.None? || at.value + 2 > |data| then UnexpectedEOF
      else
        var start, limit := at.value + 2, at.value + 2 + U16(data, at.value);
        if limit > |data| then UnexpectedEOF else Scan(data, start, limit, -1, 0, -1)
  }

  // ------------------------------------------------------------- methods

  /** Skips the fields before the extensions. */
  method ExtensionRange(data: seq<byte>) returns (ok: bool, start: int, len: int)
    requires |data| >= 4
    ensures var at := ExtensionsAt(data);
            && (ok <==> at.Some? && at.value + 2 <= |data| && at.value + 2 + U16(data, at.value) <= |data|)
            && (ok ==> start == at.value + 2 && len == U16(data, at.value))
  {
    var parsePos := 4;
    start, len := 0, 0;
    if parsePos + 2 > |data| { return false, 0, 0; }
    parsePos := parsePos + 2;
    if parsePos + 32 > |data| { return false, 0, 0; }
    parsePos := parsePos + 32;
    if parsePos + 1 > |data| { return false, 0, 0; }
    var sessionIDLen := data[parsePos] as int;
    parsePos := parsePos + 1;
    if parsePos + sessionIDLen > |data| { return false, 0, 0; }
    parsePos := parsePos + sessionIDLen;
    if parsePos + 2 > |data| { return false, 0, 0; }
    var cipherSuitesLen := U16(data, parsePos);
    parsePos := parsePos + 2;
    if parsePos + cipherSuitesLen > |data| { return false, 0, 0; }
    parsePos := parsePos + cipherSuitesLen;
    if parsePos + 1 > |data| { return false, 0, 0; }
    var compressionMethodsLen := data[parsePos] as int;
    parsePos := parsePos + 1;
    if parsePos + compressionMethodsLen > |data| { return false, 0, 0; }
    parsePos := parsePos + compressionMethodsLen;
    if parsePos + 2 > |data| { return false, 0, 0; }
    var extensionsLen := U16(data, parsePos);
    parsePos := parsePos + 2;
    if parsePos + extensionsLen > |data| { return false, 0, 0; }
    return true, parsePos, extensionsLen;
  }

  /** Searches the server name list data[base..base + extLen] for the first host_name. */
  method FindHostName(data: seq<byte>, base: int, extLen: int, oldLen: int) returns (ok: bool, sniPos: int, sniLen: int)
    requires 8 <= base && 0 <= extLen && base + extLen <= |data|
    requires 0 <= oldLen <= |data|
    ensures 0 <= sniLen <= |data|
    ensures match ServerName(data, base, extLen, oldLen)
            case BadName => !ok
            case NoName(n) => ok && sniPos == -1 && sniLen == n
            case Name(p, n) => ok && sniPos == p && sniLen == n
    ensures ok && sniPos != -1 ==>
            IsHostName(data, sniPos, sniLen) && base + 5 <= sniPos && sniPos + sniLen <= base + extLen
  {
    sniPos, sniLen := -1, oldLen;
    if extLen < 2 { return false, -1, oldLen; }
    var nameListLen := U16(data, base);
    if extLen != 2 + nameListLen { return false, -1, oldLen; }
    var listPos := 2;
    while listPos + 3 <= nameListLen + 2
      invariant 2 <= listPos && listPos <= extLen && extLen == 2 + nameListLen
      invariant sniPos == -1 && 0 <= sniLen <= |data|
      invariant HostName(data, base, 2, extLen, oldLen) == HostName(data, base, listPos, extLen, sniLen)
    {
      var nameType := data[base + listPos];
      var n := U16(data, base + listPos + 1);
      if listPos + 3 + n > extLen { return false, -1, sniLen; }
      sniLen := n;
      if nameType == 0 {
        return true, base + listPos + 3, sniLen;
      }
      listPos := listPos + 3 + sniLen;
    }
    return true, -1, sniLen;
  }

  /** Unfolds Scan at a server name extension. */
  lemma ScanSNI(data: seq<byte>, pos: int, limit: int, sniLen: int, echPos: int)
    requires 0 <= pos && pos + 4 <= limit <= |data| && pos + 4 + U16(data, pos + 2) <= limit
    requires U16(data, pos) == ExtTypeSNI
    ensures var next := pos + 4 + U16(data, pos + 2);
            Scan(data, pos, limit, -1, sniLen, echPos) ==
            match ServerName(data, pos + 4, U16(data, pos + 2), sniLen)
            case BadName => UnexpectedEOF
            case NoName(n) => Scan(data, next, limit, -1, n, echPos)
            case Name(p, n) => if echPos != -1 then Found(p, n, echPos) else Scan(data, next, limit, p, n, echPos)
  {
  }

  /** Unfolds Scan at any other extension. */
  lemma ScanOther(data: seq<byte>, pos: int, limit: int, sniPos: int, sniLen: int, echPos: int)
    requires 0 <= pos && pos + 4 <= limit <= |data| && pos + 4 + U16(data, pos + 2) <= limit
    requires U16(data, pos) != ExtTypeSNI
    ensures var next := pos + 4 + U16(data, pos + 2);
            Scan(data, pos, limit, sniPos, sniLen, echPos) ==
            if U16(data, pos) == ExtTypeECH then
              if echPos != -1 then Malformed
              else if sniPos != -1 then Found(sniPos, sniLen, pos)
              else Scan(data, next, limit, sniPos, sniLen, pos)
            else Scan(data, next, limit, sniPos, sniLen, echPos)
  {
  }

  /** Scans the extensions data[start..start + extensionsLen]. */
  method ScanExtensions(data: seq<byte>, start: int, extensionsLen: int) returns (r: FindResult)
    requires 4 < start && 0 <= extensionsLen && start + extensionsLen <= |data|
    ensures r == Scan(data, start, start + extensionsLen, -1, 0, -1)
    ensures FoundOk(data, r)
  {
    var extPos, sniPos, sniLen, echPos := 0, -1, 0, -1;
    ghost var limit := start + extensionsLen;
    while extPos + 4 <= extensionsLen
      invariant 0 <= extPos
      invariant FoundOk(data, Found(sniPos, sniLen, echPos))
      invariant sniPos != -1 ==> sniPos + sniLen <= start + extPos
      invariant echPos != -1 ==> echPos + 4 + U16(data, echPos + 2) <= start + extPos
      invariant sniPos == -1 || echPos == -1
      invariant Scan(data, start, limit, -1, 0, -1) == Scan(data, start + extPos, limit, sniPos, sniLen, echPos)
      decreases extensionsLen - extPos
    {
      ghost var pos, sniLen0 := start + extPos, sniLen;
      var extType := U16(data, start + extPos);
      var extLen := U16(data, start + extPos + 2);
      if extPos + 4 + extLen > extensionsLen { return UnexpectedEOF; }
      if extType == ExtTypeSNI {
        if sniPos != -1 { return Malformed; }
        var ok;
        ok, sniPos, sniLen := FindHostName(data, start + extPos + 4, extLen, sniLen);
        ScanSNI(data, pos, limit, sniLen0, echPos);
        if !ok { return UnexpectedEOF; }
      } else {
        ScanOther(data, pos, limit, sniPos, sniLen, echPos);
        if extType == ExtTypeECH {
          if echPos != -1 { return Malformed; }
          echPos := start + extPos;
        }
      }
      extPos := extPos + 4 + extLen;
      if sniPos != -1 && echPos != -1 {
        break;
      }
    }
    return Found(sniPos, sniLen, echPos);
  }

  /** Locates SNI host name and ECH extension of a complete ClientHello. */
  method FindSNIAndECH(data: seq<byte>) returns (r: FindResult)
    ensures r == Find(data)
    ensures FoundOk(data, r)
    ensures r.Found? ==> |data| >= 4 && |data| == 4 + HandshakeLen(data)
  {
    if |data| < 4 { return UnexpectedEOF; }
    if data[0] != 1 { return Malformed; }
    var handshakeLen := data[1] as int * 65536 + data[2] as int * 256 + data[3] as int;
    if |data| != 4 + handshakeLen { return UnexpectedEOF; }
    var ok, start, extensionsLen := ExtensionRange(data);
    if !ok { return UnexpectedEOF; }
    r := ScanExtensions(data, start, extensionsLen);
  }
}
