/** QUIC variable-length integers (section 16 of RFC 9000), as the Go and the Rust code write and read them. */
module VarintCodec {
  import opened Common
  import opened Varint

  const MaxVarInt8: int := 0x3fff_ffff_ffff_ffff

  /** The n least significant bytes, most significant first. */
  function BigEndian(i: int, n: nat): (b: seq<byte>)
    requires i >= 0
    ensures |b| == n
  {
    if n == 0 then [] else BigEndian(i / 256, n - 1) + [(i % 256) as byte]
  }

  function Value(b: seq<byte>): (v: int)
    ensures v >= 0
  {
    if b == [] then 0 else 256 * Value(b[..|b| - 1]) + b[|b| - 1] as int
  }

  function Pow256(n: nat): (p: int)
    ensures p > 0
  {
    if n == 0 then 1 else 256 * Pow256(n - 1)
  }

  predicate ValidLen(n: int) { n == 1 || n == 2 || n == 4 || n == 8 }

  /** The two bits that say how long the encoding is, at the top of the number. */
  function Tag(n: int): int {
    if n == 2 then 0x4000 else if n == 4 then 0x8000_0000 else if n == 8 then 0xc000_0000_0000_0000 else 0
  }

  function MaxValue(n: int): int {
    if n == 1 then MaxVarInt1 else if n == 2 then MaxVarInt2 else if n == 4 then MaxVarInt4 else MaxVarInt8
  }

  /** The encoding of i in n bytes. */
  function Encode(i: int, n: int): (b: seq<byte>)
    requires ValidLen(n) && 0 <= i <= MaxValue(n)
    ensures |b| == n
  {
    BigEndian(i + Tag(n), n)
  }

  /** The length of an encoding is in its first two bits. */
  function DecodeLen(first: byte): (n: int)
    ensures ValidLen(n)
  {
    if first < 64 then 1 else if first < 128 then 2 else if first < 192 then 4 else 8
  }

  datatype Parsed = Parsed(value: int, n: int) | EOF | UnexpectedEOF

  /** What the encoding at the start of b stands for. */
  function Decode(b: seq<byte>): Parsed {
    if b == [] then EOF
    else
      var n := DecodeLen(b[0]);
      if |b| < n then UnexpectedEOF else Parsed(Value(b[..n]) - Tag(n), n)
  }

  // ------------------------------------------------------------ round trip

  lemma {:induction false} ValueOfBigEndian(i: int, n: nat)
    requires 0 <= i < Pow256(n)
    ensures Value(BigEndian(i, n)) == i
  {
    if n > 0 {
      ValueOfBigEndian(i / 256, n - 1);
      var b := BigEndian(i, n);
      assert b[..n - 1] == BigEndian(i / 256, n - 1);
    }
  }

  lemma {:induction false} BigEndianOfValue(b: seq<byte>)
    ensures Value(b) < Pow256(|b|) && BigEndian(Value(b), |b|) == b
  {
    if b != [] {
      var init, last := b[..|b| - 1], b[|b| - 1];
      BigEndianOfValue(init);
      assert Value(b) / 256 == Value(init) && Value(b) % 256 == last as int;
      assert b == init + [last];
    }
  }

  /** The first byte of a big-endian number says in which range the number is. */
  lemma {:induction false} FirstByte(i: int, n: nat)
    requires n > 0 && 0 <= i < Pow256(n)
    ensures var b := BigEndian(i, n)[0] as int; b * Pow256(n - 1) <= i < (b + 1) * Pow256(n - 1)
  {
    if n > 1 {
      FirstByte(i / 256, n - 1);
      assert BigEndian(i, n)[0] == BigEndian(i / 256, n - 1)[0];
      hide BigEndian;
      Scale(BigEndian(i, n)[0] as int, Pow256(n - 2), i / 256, i);
    }
  }

  lemma Scale(b: int, p: int, q: int, i: int)
    requires b * p <= q < (b + 1) * p && 256 * q <= i < 256 * q + 256
    ensures b * (256 * p) <= i < (b + 1) * (256 * p)
  {
    Swap(b, p);
    Swap(b + 1, p);
    var x, y := b * p, (b + 1) * p;
    assert 256 * x <= 256 * q && 256 * q + 256 <= 256 * y;
  }

  lemma Swap(b: int, p: int)
    ensures b * (256 * p) == 256 * (b * p)
  {
  }

  lemma Powers()
    ensures Pow256(0) == 1 && Pow256(1) == 0x100 && Pow256(2) == 0x1_0000 && Pow256(3) == 0x100_0000
            && Pow256(4) == 0x1_0000_0000
    ensures Pow256(7) == 0x100_0000_0000_0000 && Pow256(8) == 0x1_0000_0000_0000_0000
  {
    assert Pow256(5) == 0x100_0000_0000 && Pow256(6) == 0x1_0000_0000_0000;
  }

  lemma TagOfFirst(i: int, n: int, first: byte)
    requires ValidLen(n) && 0 <= i <= MaxValue(n)
    requires first as int * Pow256(n - 1) <= i + Tag(n) < (first as int + 1) * Pow256(n - 1)
    ensures DecodeLen(first) == n
  {
    Powers();
    hide Pow256;
  }

  /** Decoding what was encoded gives the number back, and uses exactly the bytes written, whatever follows. */
  lemma EncodeDecode(i: int, n: int, rest: seq<byte>)
    requires ValidLen(n) && 0 <= i <= MaxValue(n)
    ensures Decode(Encode(i, n) + rest) == Parsed(i, n)
  {
    Powers();
    var b := Encode(i, n) + rest;
    assert b[..n] == Encode(i, n);
    ValueOfBigEndian(i + Tag(n), n);
    FirstByte(i + Tag(n), n);
    hide BigEndian, Value, Pow256;
    TagOfFirst(i, n, b[0]);
  }

  /** Conversely, whatever is decoded is the encoding of the result in that many bytes. */
  lemma DecodeEncode(b: seq<byte>)
    requires Decode(b).Parsed?
    ensures var p := Decode(b);
            ValidLen(p.n) && 0 <= p.value <= MaxValue(p.n) && p.n <= |b| && Encode(p.value, p.n) == b[..p.n]
  {
    Powers();
    var n := DecodeLen(b[0]);
    var c := b[..n];
    BigEndianOfValue(c);
    FirstByte(Value(c), n);
    hide BigEndian, Value, Pow256;
  }

  // -------------------------------------------------------------------- Go

  function Low(i: int): byte
    requires i >= 0
  {
    (i % 256) as byte
  }

  /** i >> (8 * k) */
  function Shift(i: int, k: nat): (r: int)
    requires i >= 0
    ensures r >= 0
  {
    if k == 0 then i else Shift(i / 256, k - 1)
  }

  /** quicvarint.Append, of a number that is not too large */
  function Append(i: int): seq<byte>
    requires 0 <= i <= MaxVarInt8
  {
    if i <= MaxVarInt1 then [Low(i)]
    else if i <= MaxVarInt2 then [Low(Shift(i, 1) + 0x40), Low(i)]
    else if i <= MaxVarInt4 then [Low(Shift(i, 3) + 0x80), Low(Shift(i, 2)), Low(Shift(i, 1)), Low(i)]
    else
      [Low(Shift(i, 7) + 0xc0), Low(Shift(i, 6)), Low(Shift(i, 5)), Low(Shift(i, 4)),
       Low(Shift(i, 3)), Low(Shift(i, 2)), Low(Shift(i, 1)), Low(i)]
  }

  lemma {:induction false} ByteOf(i: int, n: nat, k: nat)
    requires i >= 0 && k < n
    ensures BigEndian(i, n)[n - 1 - k] == Low(Shift(i, k))
  {
    if k > 0 {
      ByteOf(i / 256, n - 1, k - 1);
    }
  }

  /** Adding a multiple of 256^m changes nothing below. */
  lemma {:induction false} AddHigh(i: int, t: int, m: nat, k: nat)
    requires i >= 0 && t >= 0 && k <= m
    ensures t * Pow256(m) >= 0 && Shift(i + t * Pow256(m), k) == Shift(i, k) + t * Pow256(m - k)
    ensures k < m ==> Low(Shift(i + t * Pow256(m), k)) == Low(Shift(i, k))
  {
    if k < m {
      Swap(t, Pow256(m - k - 1));
    }
    if k > 0 {
      Swap(t, Pow256(m - 1));
      AddHigh(i / 256, t, m - 1, k - 1);
      assert (i + t * Pow256(m)) / 256 == i / 256 + t * Pow256(m - 1);
    }
  }

  /** The k-th byte from the end of an encoding. */
  lemma EncodeByte(i: int, n: int, k: nat)
    requires ValidLen(n) && 0 <= i <= MaxValue(n) && k < n
    ensures Encode(i, n)[n - 1 - k] == Low(Shift(i, k) + if k == n - 1 then Tag(n) / Pow256(n - 1) else 0)
  {
    Powers();
    var t := Tag(n) / Pow256(n - 1);
    assert Tag(n) == t * Pow256(n - 1);
    ByteOf(i + Tag(n), n, k);
    AddHigh(i, t, n - 1, k);
    hide BigEndian, Shift;
    assert k == n - 1 ==> t * Pow256(n - 1 - k) == t;
  }

  /** Append writes the shortest encoding. */
  lemma AppendEncodes(i: int)
    requires 0 <= i <= MaxVarInt8
    ensures Append(i) == Encode(i, Len(i)) && i <= MaxValue(Len(i))
  {
    Powers();
    var n := Len(i);
    var e := Encode(i, n);
    forall k | 0 <= k < n ensures e[n - 1 - k] == Low(Shift(i, k) + if k == n - 1 then Tag(n) / Pow256(n - 1) else 0) {
      EncodeByte(i, n, k);
    }
    assert Shift(i, 0) == i;
    hide Encode, Shift;
    forall j | 0 <= j < n ensures Append(i)[j] == e[j] {
      assert e[n - 1 - (n - 1 - j)] == e[j];
    }
  }

  /** The number in the lower bits of b[0] and the n - 1 bytes after it. */
  function Masked(b: seq<byte>, n: int): int
    requires ValidLen(n) && n <= |b|
  {
    if n == 1 then b[0] as int % 64
    else if n == 2 then b[1] as int + b[0] as int % 64 * 0x100
    else if n == 4 then b[3] as int + b[2] as int * 0x100 + b[1] as int * 0x1_0000 + b[0] as int % 64 * 0x100_0000
    else Value(b[..8]) % 0x4000_0000_0000_0000
  }

  /** quicvarint.Parse */
  function Parse(b: seq<byte>): Parsed {
    if |b| == 0 then EOF
    else
      match b[0] as int / 64
      case 0 => Parsed(Masked(b, 1), 1)
      case 1 => if |b| < 2 then UnexpectedEOF else Parsed(Masked(b, 2), 2)
      case 2 => if |b| < 4 then UnexpectedEOF else Parsed(Masked(b, 4), 4)
      case _ => if |b| < 8 then UnexpectedEOF else Parsed(Masked(b, 8), 8)
  }

  lemma ValueOf(b: seq<byte>)
    requires b != []
    ensures Value(b) == 256 * Value(b[..|b| - 1]) + b[|b| - 1] as int
  {
  }

  lemma ValueOfTwo(b: seq<byte>)
    requires |b| == 2
    ensures Value(b) == b[0] as int * 0x100 + b[1] as int
  {
    ValueOf(b);
    ValueOf(b[..1]);
    assert b[..1][..0] == [];
  }

  lemma ValueOfFour(b: seq<byte>)
    requires |b| == 4
    ensures Value(b) == b[0] as int * 0x100_0000 + b[1] as int * 0x1_0000 + b[2] as int * 0x100 + b[3] as int
  {
    ValueOf(b);
    ValueOf(b[..3]);
    assert b[..3][..2] == b[..2];
    ValueOfTwo(b[..2]);
  }

  /** Parse decodes. */
  lemma ParseDecodes(b: seq<byte>)
    ensures Parse(b) == Decode(b)
  {
    if b != [] && |b| >= DecodeLen(b[0]) {
      var n := DecodeLen(b[0]);
      var c := b[..n];
      if n == 1 {
        ValueOf(c);
        assert c[..0] == [];
      } else if n == 2 {
        ValueOfTwo(c);
      } else if n == 4 {
        ValueOfFour(c);
      } else {
        DecodeEncode(b);
      }
    }
  }

  lemma {:induction false} ShiftedOut(i: int, l: nat, k: nat)
    requires 0 <= i < Pow256(l) && l <= k
    ensures Shift(i, k) == 0
  {
    if k == 0 {
    } else if l == 0 {
      ShiftedOut(0, 0, k - 1);
    } else {
      ShiftedOut(i / 256, l - 1, k - 1);
    }
  }

  /** The tag as a byte. */
  function FirstOf(n: int): byte { if n == 2 then 0x40 else if n == 4 then 0x80 else if n == 8 then 0xc0 else 0 }

  lemma TagByte(n: int)
    requires ValidLen(n)
    ensures Tag(n) / Pow256(n - 1) == FirstOf(n) as int
  {
    Powers();
    hide Pow256;
    if n == 1 {
      assert Tag(n) / 1 == 0;
    } else if n == 2 {
      assert Tag(n) / 0x100 == 0x40;
    } else if n == 4 {
      assert Tag(n) / 0x100_0000 == 0x80;
    } else {
      assert Tag(n) / 0x100_0000_0000_0000 == 0xc0;
    }
  }

  lemma LowOfByte(b: byte)
    ensures Low(b as int) == b
  {
  }

  /** Byte k from the end of an encoding in more bytes than necessary. */
  function PaddedAt(i: int, n: int, l: nat, k: nat): byte
    requires i >= 0
  {
    if k == n - 1 then FirstOf(n) else if k >= l then 0 else Low(Shift(i, k))
  }

  /** Encoding in more bytes than necessary: the tag, zeros, and the bytes of the number. */
  lemma PaddedByte(i: int, n: int, l: nat, k: nat)
    requires ValidLen(n) && 0 <= i <= MaxValue(n) && i < Pow256(l) && 0 < l < n && k < n
    ensures Encode(i, n)[n - 1 - k] == PaddedAt(i, n, l, k)
  {
    hide Encode, Pow256, Shift, Low, Tag, FirstOf;
    EncodeByte(i, n, k);
    if k >= l {
      ShiftedOut(i, l, k);
    }
    TagByte(n);
    LowOfByte(FirstOf(n));
    LowOfByte(0);
  }

  lemma Padded(i: int, n: int)
    requires ValidLen(n) && 0 <= i <= MaxVarInt8 && Len(i) < n
    ensures i <= MaxValue(n)
    ensures var e, l := Encode(i, n), Len(i);
            && e[0] == FirstOf(n)
            && (forall p :: 1 <= p < n - l ==> e[p] == 0)
            && (forall p :: n - l <= p < n ==> e[p] == Low(Shift(i, n - 1 - p)))
  {
    Powers();
    var e, l := Encode(i, n), Len(i);
    assert i < Pow256(l);
    PaddedByte(i, n, l, n - 1);
    hide Pow256, Encode, Shift;
    forall p | 1 <= p < n ensures e[p] == if p < n - l then 0 else Low(Shift(i, n - 1 - p)) {
      PaddedByte(i, n, l, n - 1 - p);
    }
  }

  /** quicvarint.AppendWithLen: the encoding in exactly `length` bytes, which must be enough */
  method AppendWithLen(b: seq<byte>, i: int, length: int) returns (r: seq<byte>)
    requires 0 <= i <= MaxVarInt8 && ValidLen(length) && Len(i) <= length
    ensures i <= MaxValue(length) && r == b + Encode(i, length)
  {
    var l := Len(i);
    if l == length {
      AppendEncodes(i);
      return b + Append(i);
    }
    Padded(i, length);
    ghost var e := Encode(i, length);
    hide Encode, Shift, Len;
    r := b + [FirstOf(length)];
    for z := 0 to length - l - 1
      invariant r == b + e[..1 + z]
    {
      assert e[..2 + z] == e[..1 + z] + [e[1 + z]];
      r := r + [0];
    }
    for j := 0 to l
      invariant r == b + e[..length - l + j]
    {
      assert e[..length - l + j + 1] == e[..length - l + j] + [e[length - l + j]];
      r := r + [Low(Shift(i, l - 1 - j))];
    }
    assert e[..length] == e;
  }

  lemma ValueOfEight(b: seq<byte>)
    requires |b| == 8
    ensures Value(b) == Value(b[..4]) * 0x1_0000_0000 + b[4] as int * 0x100_0000 + b[5] as int * 0x1_0000
            + b[6] as int * 0x100 + b[7] as int
  {
    ValueOf(b);
    ValueOf(b[..7]);
    ValueOf(b[..6]);
    ValueOf(b[..5]);
    assert b[..7][..6] == b[..6] && b[..6][..5] == b[..5] && b[..5][..4] == b[..4];
  }

  /** quicvarint.Read, from a reader of b at position pos. Without enough bytes, it reads to the end and fails. */
  method Read(b: seq<byte>, pos: int) returns (r: Option<int>, pos': int)
    requires 0 <= pos <= |b|
    ensures var d := Decode(b[pos..]);
            if d.Parsed? then r == Some(d.value) && pos' == pos + d.n <= |b| else r == None && pos' == |b|
  {
    ghost var rest := b[pos..];
    ParseDecodes(rest);
    hide Value, Decode;
    if pos == |b| {
      return None, pos;
    }
    var l := DecodeLen(b[pos]);
    var b1 := b[pos] as int % 64;
    if |b| - pos < l {
      return None, |b|;
    }
    if l == 1 {
      return Some(b1), pos + 1;
    }
    var b2 := b[pos + 1] as int;
    if l == 2 {
      return Some(b2 + b1 * 0x100), pos + 2;
    }
    var b3, b4 := b[pos + 2] as int, b[pos + 3] as int;
    var high := b4 + b3 * 0x100 + b2 * 0x1_0000 + b1 * 0x100_0000;
    if l == 4 {
      return Some(high), pos + 4;
    }
    var b5, b6, b7, b8 := b[pos + 4] as int, b[pos + 5] as int, b[pos + 6] as int, b[pos + 7] as int;
    EightAt(rest[..8]);
    return Some(b8 + b7 * 0x100 + b6 * 0x1_0000 + b5 * 0x100_0000 + high * 0x1_0000_0000), pos + 8;
  }

  lemma EightAt(b: seq<byte>)
    requires |b| == 8
    ensures Value(b) % 0x4000_0000_0000_0000 ==
            (b[0] as int % 64 * 0x100_0000 + b[1] as int * 0x1_0000 + b[2] as int * 0x100 + b[3] as int) * 0x1_0000_0000
            + b[4] as int * 0x100_0000 + b[5] as int * 0x1_0000 + b[6] as int * 0x100 + b[7] as int
  {
    ValueOfEight(b);
    ValueOfFour(b[..4]);
    hide Value;
    var high := b[1] as int * 0x1_0000 + b[2] as int * 0x100 + b[3] as int;
    var low := b[4] as int * 0x100_0000 + b[5] as int * 0x1_0000 + b[6] as int * 0x100 + b[7] as int;
    CutTop(b[0] as int, high, low);
  }

  /** Cutting the two upper bits off a 64-bit number. */
  lemma CutTop(first: int, high: int, low: int)
    requires 0 <= first < 256 && 0 <= high < 0x100_0000 && 0 <= low < 0x1_0000_0000
    ensures ((first * 0x100_0000 + high) * 0x1_0000_0000 + low) % 0x4000_0000_0000_0000
            == (first % 64 * 0x100_0000 + high) * 0x1_0000_0000 + low
  {
    var q, r := first / 64, first % 64;
    var rest := (r * 0x100_0000 + high) * 0x1_0000_0000 + low;
    assert 0 <= rest < 0x4000_0000_0000_0000;
    assert (first * 0x100_0000 + high) * 0x1_0000_0000 + low == q * 0x4000_0000_0000_0000 + rest;
  }

  // ------------------------------------------------------------------ Rust

  /** n | 0x4000 */
  function Or14(n: int): int { if n / 0x4000 % 2 == 1 then n else n + 0x4000 }

  /** n | 0x8000_0000, of 32 bits */
  function Or31(n: int): int { n % 0x8000_0000 + 0x8000_0000 }

  /** n | 0xc000_0000_0000_0000, of 64 bits */
  function Or62(n: int): int { n % 0x4000_0000_0000_0000 + 0xc000_0000_0000_0000 }

  /** The number that write_varint_with_len writes. The casts cut n to the size of the number. */
  function Tagged(n: int, len: int): int {
    if len == 1 then n % 0x100 else if len == 2 then Or14(n % 0x1_0000) else if len == 4 then Or31(n % 0x1_0000_0000)
      else Or62(n)
  }

  /** For a number that fits, that is the encoding. */
  lemma TaggedEncodes(n: int, len: int)
    requires ValidLen(len) && 0 <= n <= MaxValue(len)
    ensures Tagged(n, len) == n + Tag(len)
  {
  }

  /** The bits of n above those that are kept leave the tag alone. */
  predicate Unharmed(n: int, len: int) {
    if len == 1 then n % 0x100 <= MaxVarInt1
    else if len == 2 then n % 0x1_0000 < 0x8000
    else if len == 4 then n % 0x1_0000_0000 % 0x8000_0000 < 0x4000_0000
    else true
  }

  lemma CutTwo(n: int)
    requires n >= 0
    ensures n % 0x1_0000 % 0x4000 == n % 0x4000
  {
    var q, m := n / 0x1_0000, n % 0x1_0000;
    var y, z := m / 0x4000, m % 0x4000;
    assert n == 0x4000 * (4 * q + y) + z;
  }

  lemma CutFour(n: int)
    requires n >= 0
    ensures n % 0x1_0000_0000 % 0x8000_0000 % 0x4000_0000 == n % 0x4000_0000
  {
    var q, m := n / 0x1_0000_0000, n % 0x1_0000_0000;
    var x, k := m / 0x8000_0000, m % 0x8000_0000;
    var y, z := k / 0x4000_0000, k % 0x4000_0000;
    assert n == 0x4000_0000 * (4 * q + 2 * x + y) + z;
  }

  lemma CutOne(n: int)
    requires n >= 0 && n % 0x100 < 64
    ensures n % 0x100 == n % 64
  {
    var q, m := n / 0x100, n % 0x100;
    assert n == 64 * (4 * q) + m;
  }

  lemma OrTwo(m: int)
    requires 0 <= m < 0x1_0000
    ensures m < 0x8000 ==> Or14(m) == m % 0x4000 + 0x4000
    ensures m >= 0x8000 ==> 0xc000 <= Or14(m) < 0x1_0000
  {
  }

  lemma TaggedCut(n: int, len: int)
    requires ValidLen(len) && n >= 0 && Unharmed(n, len)
    ensures 0 <= n % (MaxValue(len) + 1) <= MaxValue(len)
    ensures Tagged(n, len) == n % (MaxValue(len) + 1) + Tag(len)
  {
    hide Or14;
    if len == 1 {
      CutOne(n);
    } else if len == 2 {
      CutTwo(n);
      OrTwo(n % 0x1_0000);
    } else if len == 4 {
      CutFour(n);
    }
  }

  /** The tag announces more bytes than were written. */
  lemma TaggedHarmed(n: int, len: int)
    requires ValidLen(len) && n >= 0 && !Unharmed(n, len)
    ensures len == 1 ==> 64 <= Tagged(n, len) < 0x100
    ensures len == 2 ==> 0xc000 <= Tagged(n, len) < 0x1_0000
    ensures len == 4 ==> 0xc000_0000 <= Tagged(n, len) < 0x1_0000_0000
    ensures len != 8
  {
    hide Or14;
    if len == 2 {
      OrTwo(n % 0x1_0000);
    }
  }

  lemma HarmedFirst(t: int, len: int)
    requires len == 1 ==> 64 <= t < 0x100
    requires len == 2 ==> 0xc000 <= t < 0x1_0000
    requires len == 4 ==> 0xc000_0000 <= t < 0x1_0000_0000
    requires len == 1 || len == 2 || len == 4
    ensures Decode(BigEndian(t, len)) == UnexpectedEOF
  {
    Powers();
    hide Pow256, BigEndian, Value;
    FirstByte(t, len);
  }

  /**
   What is read back from what write_varint_with_len has written: the lower bits of the number, or
   nothing, because the tag announces more bytes. That is the number itself exactly if it fits.
   */
  lemma ReadBack(n: int, len: int)
    requires ValidLen(len) && 0 <= n < 0x1_0000_0000_0000_0000
    ensures Tagged(n, len) >= 0
    ensures Decode(BigEndian(Tagged(n, len), len)) ==
            if Unharmed(n, len) then Parsed(n % (MaxValue(len) + 1), len) else UnexpectedEOF
    ensures Decode(BigEndian(Tagged(n, len), len)) == Parsed(n, len) <==> n <= MaxValue(len)
  {
    hide Tagged, Unharmed, Decode, BigEndian;
    if Unharmed(n, len) {
      TaggedCut(n, len);
      var m := n % (MaxValue(len) + 1);
      EncodeDecode(m, len, []);
      assert Encode(m, len) + [] == BigEndian(Tagged(n, len), len);
      Fits(n, len);
    } else {
      TaggedHarmed(n, len);
      HarmedFirst(Tagged(n, len), len);
      AlwaysUnharmed(n, len);
    }
  }

  lemma Fits(n: int, len: int)
    requires ValidLen(len) && n >= 0
    ensures n % (MaxValue(len) + 1) == n <==> n <= MaxValue(len)
  {
  }

  lemma AlwaysUnharmed(n: int, len: int)
    requires ValidLen(len) && n >= 0
    ensures n <= MaxValue(len) ==> Unharmed(n, len)
  {
  }

  /**
   write_varint_with_len at buf[pos..], for any 64-bit number. For a number that fits len bytes, these
   are the bytes that the Go code writes; for no other number is it read back.
   */
  method WriteVarintWithLen(buf: array<byte>, pos: int, n: int, len: int) returns (r: Option<int>)
    requires 0 <= pos <= buf.Length && ValidLen(len) && 0 <= n < 0x1_0000_0000_0000_0000
    modifies buf
    ensures r.None? <==> buf.Length - pos < len
    ensures r.None? ==> buf[..] == old(buf[..])
    ensures r.Some? ==> r.value == len && Tagged(n, len) >= 0 && buf[pos..pos + len] == BigEndian(Tagged(n, len), len)
    ensures r.Some? && n <= MaxValue(len) ==> buf[pos..pos + len] == Encode(n, len)
    ensures r.Some? ==> (Decode(buf[pos..pos + len]) == Parsed(n, len) <==> n <= MaxValue(len))
    ensures r.Some? ==> buf[..pos] == old(buf[..pos]) && buf[pos + len..] == old(buf[pos + len..])
  {
    ReadBack(n, len);
    if n <= MaxValue(len) {
      TaggedEncodes(n, len);
    }
    hide Tagged, Decode, BigEndian, Encode;
    if buf.Length - pos < len {
      return None;
    }
    Put(buf, pos, BigEndian(Tagged(n, len), len));
    return Some(len);
  }

  /** put_u8, put_u16, put_u32 and put_u64 */
  method Put(buf: array<byte>, pos: int, b: seq<byte>)
    requires 0 <= pos && pos + |b| <= buf.Length
    modifies buf
    ensures buf[pos..pos + |b|] == b
    ensures buf[..pos] == old(buf[..pos]) && buf[pos + |b|..] == old(buf[pos + |b|..])
  {
    for i := 0 to |b|
      invariant buf[..pos] == old(buf[..pos]) && buf[pos + |b|..] == old(buf[pos + |b|..])
      invariant buf[pos..pos + i] == b[..i]
    {
      buf[pos + i] := b[i];
    }
    assert b[..|b|] == b;
  }

  /** write_varint: the shortest encoding. encode_varint_len panics for numbers that have none. */
  method WriteVarint(buf: array<byte>, pos: int, n: int) returns (r: Option<int>, panicked: bool)
    requires 0 <= pos <= buf.Length && 0 <= n < 0x1_0000_0000_0000_0000
    modifies buf
    ensures panicked <==> n > MaxVarInt8
    ensures r.None? <==> panicked || buf.Length - pos < Len(n)
    ensures r.None? ==> buf[..] == old(buf[..])
    ensures r.Some? ==> r.value == Len(n) && buf[pos..pos + Len(n)] == Append(n)
    ensures r.Some? ==> buf[..pos] == old(buf[..pos]) && buf[pos + Len(n)..] == old(buf[pos + Len(n)..])
  {
    if n > MaxVarInt8 {
      return None, true;
    }
    AppendEncodes(n);
    hide Append, Encode, BigEndian, Decode, Tagged;
    r := WriteVarintWithLen(buf, pos, n, Len(n));
    panicked := false;
  }

  /** read_varint: the value, and how many bytes it took */
  function ReadVarint(b: seq<byte>): Option<(int, int)> {
    if |b| < 1 then None
    else
      var len := DecodeLen(b[0]);
      if |b| < len then None
      else
        var v := Value(b[..len]);
        Some((if len == 1 then v else if len == 2 then v % 0x4000 else if len == 4 then v % 0x4000_0000
              else v % 0x4000_0000_0000_0000, len))
  }

  lemma MaskTag(value: int, n: int)
    requires ValidLen(n) && 0 <= value <= MaxValue(n)
    ensures n == 2 ==> (value + Tag(n)) % 0x4000 == value
    ensures n == 4 ==> (value + Tag(n)) % 0x4000_0000 == value
    ensures n == 8 ==> (value + Tag(n)) % 0x4000_0000_0000_0000 == value
  {
  }

  /** The Rust code reads what the Go code reads. */
  lemma ReadVarintDecodes(b: seq<byte>)
    ensures ReadVarint(b) == if Decode(b).Parsed? then Some((Decode(b).value, Decode(b).n)) else None
  {
    if Decode(b).Parsed? {
      DecodeEncode(b);
      MaskTag(Decode(b).value, Decode(b).n);
      hide Value, Encode;
    }
  }
}
