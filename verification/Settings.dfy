/** HTTP/3 SETTINGS frames (section 7.2.4 of RFC 9114). */
module Settings {
  import opened Common
  import opened Varint
  import opened VarintCodec

  const MaxFieldSectionSize: int := 0x6
  const ExtendedConnect: int := 0x8
  const Datagram: int := 0x33
  const MaxPayload: int := 8192

  datatype Frame = Frame(
    maxFieldSectionSize: int,      // -1 if not set
    datagram: bool,
    extendedConnect: bool,
    other: map<int, int>)          // nil is empty

  datatype Setting = Setting(id: int, val: int)

  predicate Reserved(id: int) { id == MaxFieldSectionSize || id == ExtendedConnect || id == Datagram }

  predicate IsVarint(i: int) { 0 <= i <= MaxVarInt8 }

  /** All numbers can be written. */
  ghost predicate Writable(f: Frame) {
    && (f.maxFieldSectionSize == -1 || IsVarint(f.maxFieldSectionSize))
    && forall id :: id in f.other ==> IsVarint(id) && IsVarint(f.other[id])
  }

  // --------------------------------------------------------------- writing

  ghost predicate AllVarints(settings: seq<Setting>) {
    forall i :: 0 <= i < |settings| ==> IsVarint(settings[i].id) && IsVarint(settings[i].val)
  }

  ghost function Payload(settings: seq<Setting>): seq<byte>
    requires AllVarints(settings)
  {
    if settings == [] then [] else Append(settings[0].id) + Append(settings[0].val) + Payload(settings[1..])
  }

  /** What is written before the other settings. */
  function Known(f: Frame): seq<Setting> {
    (if f.maxFieldSectionSize >= 0 then [Setting(MaxFieldSectionSize, f.maxFieldSectionSize)] else [])
    + (if f.datagram then [Setting(Datagram, 1)] else [])
    + (if f.extendedConnect then [Setting(ExtendedConnect, 1)] else [])
  }

  /** The settings are the entries of m, each once, in some order. */
  ghost predicate Lists(settings: seq<Setting>, m: map<int, int>) {
    && (forall i :: 0 <= i < |settings| ==> settings[i].id in m && settings[i].val == m[settings[i].id])
    && (forall id :: id in m ==> exists i :: 0 <= i < |settings| && settings[i].id == id)
    && (forall i, j :: 0 <= i < j < |settings| ==> settings[i].id != settings[j].id)
  }

  // --------------------------------------------------------------- reading

  datatype Error = TooLong | ReadError | DuplicateSetting | InvalidValue

  datatype Result<T> = Ok(value: T) | Err(error: Error)

  /** The frame read so far, and which settings were seen. */
  datatype Progress = Progress(frame: Frame, readMax: bool, readDatagram: bool, readConnect: bool)

  function Begin(): Progress { Progress(Frame(-1, false, false, map[]), false, false, false) }

  function Step(p: Progress, s: Setting): Result<Progress> {
    if s.id == MaxFieldSectionSize then
      if p.readMax then Err(DuplicateSetting)
        else Ok(p.(readMax := true, frame := p.frame.(maxFieldSectionSize := s.val)))
    else if s.id == ExtendedConnect then
      if p.readConnect then Err(DuplicateSetting)
      else if s.val != 0 && s.val != 1 then Err(InvalidValue)
      else Ok(p.(readConnect := true, frame := p.frame.(extendedConnect := s.val == 1)))
    else if s.id == Datagram then
      if p.readDatagram then Err(DuplicateSetting)
      else if s.val != 0 && s.val != 1 then Err(InvalidValue)
      else Ok(p.(readDatagram := true, frame := p.frame.(datagram := s.val == 1)))
    else if s.id in p.frame.other then Err(DuplicateSetting)
    else Ok(p.(frame := p.frame.(other := p.frame.other[s.id := s.val])))
  }

  function Steps(p: Progress, settings: seq<Setting>): Result<Progress>
    decreases |settings|
  {
    if settings == [] then Ok(p)
    else
      var next := Step(p, settings[0]);
      if next.Err? then next else Steps(next.value, settings[1..])
  }

  /** What the bytes of a payload mean. */
  ghost function Meaning(p: Progress, b: seq<byte>): Result<Progress>
    decreases |b|
  {
    if b == [] then Ok(p)
    else
      var id := Decode(b);
      if !id.Parsed? then Err(ReadError)
      else
        var val := Decode(b[id.n..]);
        if !val.Parsed? then Err(ReadError)
        else
          var next := Step(p, Setting(id.value, val.value));
          if next.Err? then next else Meaning(next.value, b[id.n..][val.n..])
  }

  lemma AppendDecode(i: int, rest: seq<byte>)
    requires IsVarint(i)
    ensures Decode(Append(i) + rest) == Parsed(i, |Append(i)|) && |Append(i)| == Len(i)
    ensures (Append(i) + rest)[|Append(i)|..] == rest
  {
    AppendEncodes(i);
    EncodeDecode(i, Len(i), rest);
  }

  /** Reading a payload reads the settings that were written. */
  lemma {:induction false} MeaningOfPayload(p: Progress, settings: seq<Setting>)
    requires AllVarints(settings)
    ensures Meaning(p, Payload(settings)) == Steps(p, settings)
    decreases |settings|
  {
    if settings != [] {
      var s, rest := settings[0], Payload(settings[1..]);
      var b := Payload(settings);
      assert b == Append(s.id) + (Append(s.val) + rest);
      AppendDecode(s.id, Append(s.val) + rest);
      AppendDecode(s.val, rest);
      var next := Step(p, s);
      if next.Ok? {
        MeaningOfPayload(next.value, settings[1..]);
      }
    }
  }

  lemma {:induction false} StepsConcat(p: Progress, a: seq<Setting>, b: seq<Setting>)
    ensures Steps(p, a + b) == if Steps(p, a).Err? then Steps(p, a) else Steps(Steps(p, a).value, b)
    decreases |a|
  {
    if a == [] {
      assert a + b == b;
    } else {
      assert (a + b)[1..] == a[1..] + b;
      var next := Step(p, a[0]);
      if next.Ok? {
        StepsConcat(next.value, a[1..], b);
      }
    }
  }

  lemma OneStep(p: Progress, s: Setting)
    ensures Steps(p, [s]) == Step(p, s)
  {
    if Step(p, s).Ok? {
      assert Steps(Step(p, s).value, []) == Ok(Step(p, s).value);
      assert [s][1..] == [];
    }
  }

  function AfterKnown(f: Frame): Progress {
    Progress(f.(other := map[]), f.maxFieldSectionSize >= 0, f.datagram, f.extendedConnect)
  }

  lemma StepsKnown(f: Frame)
    requires f.maxFieldSectionSize >= -1
    ensures Steps(Begin(), Known(f)) == Ok(AfterKnown(f))
  {
    var a := if f.maxFieldSectionSize >= 0 then [Setting(MaxFieldSectionSize, f.maxFieldSectionSize)] else [];
    var b := if f.datagram then [Setting(Datagram, 1)] else [];
    var c := if f.extendedConnect then [Setting(ExtendedConnect, 1)] else [];
    StepsConcat(Begin(), a + b, c);
    StepsConcat(Begin(), a, b);
    OneStep(Begin(), Setting(MaxFieldSectionSize, f.maxFieldSectionSize));
    var p := AfterKnown(f.(datagram := false, extendedConnect := false));
    OneStep(p, Setting(Datagram, 1));
    var q := AfterKnown(f.(extendedConnect := false));
    OneStep(q, Setting(ExtendedConnect, 1));
    assert Steps(Begin(), a) == Ok(p);
    assert Steps(p, b) == Ok(q);
  }

  /** The settings still to come are new, and not reserved. */
  ghost predicate Fresh(settings: seq<Setting>, other: map<int, int>) {
    && (forall i :: 0 <= i < |settings| ==> !Reserved(settings[i].id) && settings[i].id !in other)
    && (forall i, j :: 0 <= i < j < |settings| ==> settings[i].id != settings[j].id)
  }

  ghost function With(other: map<int, int>, settings: seq<Setting>): map<int, int>
    decreases |settings|
  {
    if settings == [] then other else With(other[settings[0].id := settings[0].val], settings[1..])
  }

  lemma {:induction false} StepsOther(p: Progress, settings: seq<Setting>)
    requires Fresh(settings, p.frame.other)
    ensures Steps(p, settings) == Ok(p.(frame := p.frame.(other := With(p.frame.other, settings))))
    decreases |settings|
  {
    if settings != [] {
      var next := Step(p, settings[0]).value;
      assert forall i :: 0 <= i < |settings| - 1 ==> settings[1..][i] == settings[i + 1];
      StepsOther(next, settings[1..]);
    }
  }

  /** What the map holds in the end. */
  lemma {:induction false} WithHas(other: map<int, int>, settings: seq<Setting>, id: int)
    requires forall i, j :: 0 <= i < j < |settings| ==> settings[i].id != settings[j].id
    ensures forall i :: 0 <= i < |settings| ==>
            settings[i].id in With(other, settings) && With(other, settings)[settings[i].id] == settings[i].val
    ensures (forall i :: 0 <= i < |settings| ==> settings[i].id != id) ==>
              (id in With(other, settings) <==> id in other) && (id in other ==> With(other, settings)[id] == other[id])
    decreases |settings|
  {
    if settings != [] {
      var other', rest := other[settings[0].id := settings[0].val], settings[1..];
      assert forall i :: 0 <= i < |rest| ==> rest[i] == settings[i + 1];
      WithHas(other', rest, settings[0].id);
      WithHas(other', rest, id);
      forall i | 0 <= i < |settings|
        ensures settings[i].id in With(other, settings) && With(other, settings)[settings[i].id] == settings[i].val {
        if i > 0 {
          assert rest[i - 1] == settings[i];
        }
      }
    }
  }

  lemma WithLists(settings: seq<Setting>, m: map<int, int>)
    requires Lists(settings, m)
    ensures With(map[], settings) == m
  {
    var w := With(map[], settings);
    forall id ensures (id in w <==> id in m) && (id in m ==> id in w && w[id] == m[id]) {
      WithHas(map[], settings, id);
    }
  }

  lemma {:induction false} NeverReserved(p: Progress, settings: seq<Setting>)
    requires forall id :: id in p.frame.other ==> !Reserved(id)
    ensures Steps(p, settings).Ok? ==> forall id :: id in Steps(p, settings).value.frame.other ==> !Reserved(id)
    decreases |settings|
  {
    if settings != [] {
      var next := Step(p, settings[0]);
      if next.Ok? {
        NeverReserved(next.value, settings[1..]);
      }
    }
  }

  /**
   What is read is what was written, in whatever order the map was iterated, exactly if no other setting
   uses a reserved number.
   */
  lemma RoundTrip(f: Frame, others: seq<Setting>)
    requires Writable(f) && Lists(others, f.other)
    ensures AllVarints(Known(f) + others)
    ensures var r := Meaning(Begin(), Payload(Known(f) + others));
            (r.Ok? && r.value.frame == f) <==> forall id :: id in f.other ==> !Reserved(id)
  {
    var all := Known(f) + others;
    assert AllVarints(all);
    MeaningOfPayload(Begin(), all);
    StepsConcat(Begin(), Known(f), others);
    StepsKnown(f);
    WithLists(others, f.other);
    NeverReserved(Begin(), all);
    if forall id :: id in f.other ==> !Reserved(id) {
      StepsOther(AfterKnown(f), others);
    }
  }

  /** A reserved number among the other settings is read as the setting it is reserved for. */
  lemma ReservedSetting(others: seq<Setting>)
    requires Lists(others, map[Datagram := 1])
    ensures AllVarints(others)
    ensures var r := Meaning(Begin(), Payload(others)); !(r.Ok?
                                                          && r.value.frame == Frame(-1, false, false,
                                                            map[Datagram := 1]))
  {
    var f := Frame(-1, false, false, map[Datagram := 1]);
    RoundTrip(f, others);
    assert Known(f) + others == others;
    assert Datagram in f.other;
  }

  lemma PayloadAppend(a: seq<Setting>, s: Setting)
    requires AllVarints(a) && IsVarint(s.id) && IsVarint(s.val)
    ensures AllVarints(a + [s]) && Payload(a + [s]) == Payload(a) + Append(s.id) + Append(s.val)
  {
    hide Append;
    PayloadConcat(a, [s]);
    PayloadOne(s);
    assert Payload(a) + (Append(s.id) + Append(s.val)) == Payload(a) + Append(s.id) + Append(s.val);
  }

  /** The number of bytes the settings in the map take. */
  ghost function MapLen(m: map<int, int>): int
    decreases |m|
  {
    if m.Keys == {} then 0
    else
      var k := AnyKey(m);
      RemoveShrinks(m, k);
      Len(k) + Len(m[k]) + MapLen(m - {k})
  }

  lemma {:induction false} MapLenRemove(m: map<int, int>, k: int)
    requires k in m
    ensures MapLen(m) == Len(k) + Len(m[k]) + MapLen(m - {k})
    decreases |m|
  {
    var c := AnyKey(m);
    if c != k {
      RemoveTwo(m, c, k);
      RemoveTwo(m, k, c);
      MapLenRemove(m - {c}, k);
      MapLenRemove(m - {k}, c);
      assert m - {c} - {k} == m - {k} - {c};
    }
  }

  /** The map without the keys that were visited. */
  ghost function Todo(m: map<int, int>, keys: set<int>): map<int, int> {
    m - (m.Keys - keys)
  }

  lemma VisitOne(m: map<int, int>, keys: set<int>, id: int)
    requires id in keys && keys <= m.Keys
    ensures MapLen(Todo(m, keys)) == Len(id) + Len(m[id]) + MapLen(Todo(m, keys - {id}))
  {
    assert Todo(m, keys - {id}) == Todo(m, keys) - {id};
    MapLenRemove(Todo(m, keys), id);
  }

  lemma VisitAll(m: map<int, int>)
    ensures Todo(m, m.Keys) == m && MapLen(Todo(m, {})) == 0
  {
    assert Todo(m, {}).Keys == {};
  }

  /** The loop in settingsFrame.Append that adds up the lengths of the other settings */
  method OtherLen(other: map<int, int>) returns (l: int)
    ensures l == MapLen(other)
  {
    var keys := other.Keys;
    l := 0;
    VisitAll(other);
    while keys != {}
      invariant keys <= other.Keys && l + MapLen(Todo(other, keys)) == MapLen(other)
      decreases |keys|
    {
      var id := Pick(keys);
      VisitOne(other, keys, id);
      l := l + Len(id) + Len(other[id]);
      keys := keys - {id};
    }
  }

  /** Another setting is written. */
  lemma WriteOne(others: seq<Setting>, other: map<int, int>, keys: set<int>, id: int)
    requires AllVarints(others) && id in keys && keys <= other.Keys && IsVarint(id) && IsVarint(other[id])
    ensures var others' := others + [Setting(id, other[id])];
            && AllVarints(others') && Payload(others') == Payload(others) + Append(id) + Append(other[id])
            && |Payload(others')| + MapLen(Todo(other, keys - {id})) == |Payload(others)| + MapLen(Todo(other, keys))
  {
    hide MapLen;
    VisitOne(other, keys, id);
    AppendDecode(id, []);
    AppendDecode(other[id], []);
    PayloadAppend(others, Setting(id, other[id]));
  }

  /** One setting is written. */
  method AppendOne(b: seq<byte>, id: int, val: int, ghost start: seq<byte>, ghost before: seq<Setting>)
    returns (r: seq<byte>)
    requires AllVarints(before) && b == start + Payload(before) && IsVarint(id) && IsVarint(val)
    ensures AllVarints(before + [Setting(id, val)]) && r == start + Payload(before + [Setting(id, val)])
  {
    hide Append, Payload;
    PayloadAppend(before, Setting(id, val));
    Regroup(start, Payload(before), Append(id), Append(val));
    r := b + Append(id);
    r := r + Append(val);
  }

  lemma Regroup(a: seq<byte>, b: seq<byte>, c: seq<byte>, d: seq<byte>)
    ensures a + b + c + d == a + (b + c + d)
    ensures a + b + (c + d) == a + b + c + d
  {
  }

  /** The loop that writes the other settings, in any order */
  method AppendOther(b: seq<byte>, other: map<int, int>) returns (r: seq<byte>, ghost others: seq<Setting>)
    requires forall id :: id in other ==> IsVarint(id) && IsVarint(other[id])
    ensures Lists(others, other) && AllVarints(others) && r == b + Payload(others) && |Payload(others)| == MapLen(other)
  {
    var keys := other.Keys;
    r, others := b, [];
    VisitAll(other);
    assert Payload([]) == [];
    while keys != {}
      invariant keys <= other.Keys && AllVarints(others) && r == b + Payload(others)
      invariant |Payload(others)| + MapLen(Todo(other, keys)) == MapLen(other)
      invariant Listed(others, other, keys)
      decreases |keys|
    {
      hide Listed, AllVarints;
      var id := Pick(keys);
      WriteOne(others, other, keys, id);
      ListOne(others, other, keys, id);
      r := AppendOne(r, id, other[id], b, others);
      others := others + [Setting(id, other[id])];
      keys := keys - {id};
    }
  }

  /** All settings but those in keys are listed. */
  ghost predicate Listed(settings: seq<Setting>, m: map<int, int>, keys: set<int>) {
    && (forall i :: 0 <= i < |settings| ==>
        settings[i].id in m && settings[i].id !in keys && settings[i].val == m[settings[i].id])
    && (forall id :: id in m && id !in keys ==> exists i :: 0 <= i < |settings| && settings[i].id == id)
    && (forall i, j :: 0 <= i < j < |settings| ==> settings[i].id != settings[j].id)
  }

  lemma ListOne(settings: seq<Setting>, m: map<int, int>, keys: set<int>, id: int)
    requires Listed(settings, m, keys) && id in keys && id in m
    ensures Listed(settings + [Setting(id, m[id])], m, keys - {id})
  {
    var settings' := settings + [Setting(id, m[id])];
    forall x | x in m && x !in keys - {id} ensures exists i :: 0 <= i < |settings'| && settings'[i].id == x {
      if x == id {
        assert settings'[|settings|].id == id;
      } else {
        var i :| 0 <= i < |settings| && settings[i].id == x;
        assert settings'[i].id == x;
      }
    }
  }

  /** parseSettingsFrame, of a frame with l bytes of payload. The reader holds `input`. */
  method ParseSettings(input: seq<byte>, l: int) returns (r: Result<Frame>)
    requires l >= 0
    ensures if l > MaxPayload then r == Err(TooLong)
            else if |input| < l then r == Err(ReadError)
            else
              var m := Meaning(Begin(), input[..l]);
              r == if m.Ok? then Ok(m.value.frame) else Err(m.error)
  {
    if l > MaxPayload {
      return Err(TooLong);
    }
    if |input| < l {
      return Err(ReadError);
    }
    var buf := input[..l];
    var pos, p := 0, Begin();
    assert buf[0..] == buf;
    while pos < |buf|
      invariant 0 <= pos <= |buf|
      invariant Meaning(p, buf[pos..]) == Meaning(Begin(), buf)
      decreases |buf| - pos
    {
      DecodeBounds(buf[pos..]);
      var id, pos1 := Read(buf, pos);
      if id.None? {
        return Err(ReadError);
      }
      assert buf[pos..][pos1 - pos..] == buf[pos1..];
      DecodeBounds(buf[pos1..]);
      var val, pos2 := Read(buf, pos1);
      if val.None? {
        return Err(ReadError);
      }
      assert buf[pos1..][pos2 - pos1..] == buf[pos2..];
      var next := Step(p, Setting(id.value, val.value));
      if next.Err? {
        return Err(next.error);
      }
      p, pos := next.value, pos2;
    }
    return Ok(p.frame);
  }

  lemma DecodeBounds(b: seq<byte>)
    ensures Decode(b).Parsed? ==> 0 < Decode(b).n <= |b|
  {
  }

  lemma {:induction false} PayloadConcat(a: seq<Setting>, b: seq<Setting>)
    requires AllVarints(a) && AllVarints(b)
    ensures AllVarints(a + b) && Payload(a + b) == Payload(a) + Payload(b)
  {
    hide Append;
    if a == [] {
      assert a + b == b;
    } else {
      assert (a + b)[1..] == a[1..] + b;
      PayloadConcat(a[1..], b);
      Regroup(Append(a[0].id), Append(a[0].val), Payload(a[1..]), Payload(b));
    }
  }

  lemma PayloadOne(s: Setting)
    requires IsVarint(s.id) && IsVarint(s.val)
    ensures AllVarints([s]) && Payload([s]) == Append(s.id) + Append(s.val) && |Payload([s])| == Len(s.id) + Len(s.val)
  {
    hide Append;
    assert Payload([]) == [] && [s][1..] == [];
    AppendDecode(s.id, []);
    AppendDecode(s.val, []);
  }

  /** A setting that is known, if it is set, and its length. */
  method AppendIf(b: seq<byte>, l: int, isSet: bool, id: int, val: int, ghost before: seq<Setting>)
    returns (r: seq<byte>, l': int, ghost after: seq<Setting>)
    requires AllVarints(before) && b == Payload(before) && l == |b| && (isSet ==> IsVarint(id) && IsVarint(val))
    ensures after == before + (if isSet then [Setting(id, val)] else [])
    ensures AllVarints(after) && r == Payload(after) && l' == |r|
  {
    r, l', after := b, l, before;
    if isSet {
      PayloadOne(Setting(id, val));
      PayloadConcat(before, [Setting(id, val)]);
      l' := l + Len(id) + Len(val);
      after := before + [Setting(id, val)];
      r := AppendOne(b, id, val, [], before);
    }
  }

  /** The settings written before the others, and their length. */
  method AppendKnown(f: Frame) returns (b: seq<byte>, l: int)
    requires Writable(f)
    ensures AllVarints(Known(f)) && b == Payload(Known(f)) && l == |b|
  {
    assert Payload([]) == [];
    ghost var done: seq<Setting>;
    b, l, done := AppendIf([], 0, f.maxFieldSectionSize >= 0, MaxFieldSectionSize, f.maxFieldSectionSize, []);
    b, l, done := AppendIf(b, l, f.datagram, Datagram, 1, done);
    b, l, done := AppendIf(b, l, f.extendedConnect, ExtendedConnect, 1, done);
    assert done == Known(f);
  }

  /** The length of the payload, which does not depend on the order of the settings. */
  ghost function PayloadLen(f: Frame): int
    requires Writable(f)
  {
    |Payload(Known(f))| + MapLen(f.other)
  }

  /** settingsFrame.Append: the type, the exact length of the payload, and the payload. */
  method AppendSettings(b: seq<byte>, f: Frame) returns (r: seq<byte>, ghost others: seq<Setting>)
    requires Writable(f) && MapLen(f.other) <= MaxVarInt8 - 64
    ensures Lists(others, f.other) && AllVarints(Known(f) + others)
    ensures var payload := Payload(Known(f) + others);
            |payload| == PayloadLen(f) <= MaxVarInt8 && r == b + Append(0x4) + Append(|payload|) + payload
  {
    hide Append;
    MapLenPositive(f.other);
    var known, l := AppendKnown(f);
    KnownShort(f);
    var n := OtherLen(f.other);
    r := b + Append(0x4);
    r := r + Append(l + n);
    r := r + known;
    r, others := AppendOther(r, f.other);
    PayloadConcat(Known(f), others);
  }

  lemma {:induction false} MapLenPositive(m: map<int, int>)
    ensures MapLen(m) >= 0
    decreases |m|
  {
    if m.Keys != {} {
      RemoveShrinks(m, AnyKey(m));
      MapLenPositive(m - {AnyKey(m)});
    }
  }

  lemma KnownShort(f: Frame)
    requires Writable(f) && AllVarints(Known(f))
    ensures |Payload(Known(f))| <= 64
  {
    ShortPayload(Known(f));
  }

  lemma {:induction false} ShortPayload(settings: seq<Setting>)
    requires AllVarints(settings)
    ensures |Payload(settings)| <= 16 * |settings|
  {
    if settings != [] {
      ShortPayload(settings[1..]);
      AppendDecode(settings[0].id, []);
      AppendDecode(settings[0].val, []);
    }
  }

  /** A header, and what follows it. */
  lemma Layout(b: seq<byte>, typ: seq<byte>, len: seq<byte>, payload: seq<byte>, rest: seq<byte>)
    requires b == typ + len + payload
    ensures b + rest == typ + (len + (payload + rest))
    ensures (b + rest)[|typ|..] == len + (payload + rest)
    ensures (b + rest)[|typ| + |len|..] == payload + rest
    ensures (payload + rest)[..|payload|] == payload
  {
  }

  /** Reads the type and the length of a frame. */
  method ReadHeader(input: seq<byte>, ghost typ: int, ghost len: int, ghost rest: seq<byte>) returns (l: int, pos: int)
    requires IsVarint(typ) && IsVarint(len) && input == Append(typ) + (Append(len) + rest)
    ensures l == len && 0 <= pos <= |input| && input[pos..] == rest
  {
    AppendDecode(typ, Append(len) + rest);
    AppendDecode(len, rest);
    assert input[0..] == input;
    var t, p := Read(input, 0);
    assert input[p..] == Append(len) + rest;
    var n, p' := Read(input, p);
    assert input[p'..] == input[p..][p' - p..];
    return n.value, p';
  }

  /**
   A frame that is written and read back, with anything after it. It is rejected as too long exactly
   if the payload has more than 8192 bytes; otherwise exactly the same settings are read, if and only
   if the other settings avoid the reserved numbers.
   */
  method WriteAndRead(f: Frame, rest: seq<byte>) returns (r: Result<Frame>)
    requires Writable(f) && MapLen(f.other) <= MaxVarInt8 - 64
    ensures r == Err(TooLong) <==> PayloadLen(f) > MaxPayload
    ensures PayloadLen(f) <= MaxPayload ==> (r == Ok(f) <==> forall id :: id in f.other ==> !Reserved(id))
  {
    hide Append, Payload, Meaning, Known, Lists, MapLen, AllVarints, Writable, PayloadLen;
    var b, others := AppendSettings([], f);
    RoundTrip(f, others);
    ghost var payload := Payload(Known(f) + others);
    NotTooLong(Begin(), payload);
    assert [] + Append(0x4) == Append(0x4);
    Layout(b, Append(0x4), Append(|payload|), payload, rest);
    var l, pos := ReadHeader(b + rest, 0x4, |payload|, payload + rest);
    r := ParseSettings((b + rest)[pos..], l);
  }

  /** The length is checked before the settings are read. */
  lemma {:induction false} NotTooLong(p: Progress, b: seq<byte>)
    ensures Meaning(p, b) != Err(TooLong)
    decreases |b|
  {
    hide Decode;
    DecodeBounds(b);
    if b != [] && Decode(b).Parsed? {
      var rest := b[Decode(b).n..];
      DecodeBounds(rest);
      if Decode(rest).Parsed? {
        var next := Step(p, Setting(Decode(b).value, Decode(rest).value));
        if next.Ok? {
          NotTooLong(next.value, rest[Decode(rest).n..]);
        }
      }
    }
  }
}
