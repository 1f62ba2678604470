/** Types, constants and collection facts shared by the components. */
module Common {

  datatype Option<+T> = None | Some(value: T)

  newtype byte = x: int | 0 <= x < 256

  /** The largest stream offset (protocol.MaxByteCount). */
  const MaxByteCount: int := 0x3fff_ffff_ffff_ffff

  /** The sentinel protocol.InvalidByteCount. */
  const InvalidByteCount: int := -1

  /** protocol.MaxPacketBufferSize: capacity of every pooled STREAM frame. */
  const MaxPacketBufferSize: int := 1452

  function Min(a: int, b: int): int { if a < b then a else b }

  function Max(a: int, b: int): int { if a < b then b else a }

  /** The first n bytes of an (unbounded) byte stream. */
  ghost function Prefix(stream: int -> byte, n: nat): seq<byte> {
    seq(n, i => stream(i))
  }

  /** `data`, placed at `offset`, is a slice of `stream`. */
  ghost predicate SliceOf(data: seq<byte>, offset: int, stream: int -> byte) {
    forall i :: 0 <= i < |data| ==> data[i] == stream(offset + i)
  }

  lemma PrefixExtend(stream: int -> byte, n: nat, data: seq<byte>)
    requires SliceOf(data, n, stream)
    ensures Prefix(stream, n) + data == Prefix(stream, n + |data|)
  {
  }

  /** The stream that starts with the given bytes. */
  ghost function StreamOf(bytes: seq<byte>): int -> byte {
    i => if 0 <= i < |bytes| then bytes[i] else 0
  }

  lemma PrefixOfStream(bytes: seq<byte>)
    ensures Prefix(StreamOf(bytes), |bytes|) == bytes
  {
  }

  ghost function AnyKey<K, V>(m: map<K, V>): (k: K)
    requires m.Keys != {}
    ensures k in m
  {
    var k :| k in m.Keys;
    k
  }

  /** The values of a map, with multiplicity. */
  ghost function Bag<K, V>(m: map<K, V>): multiset<V>
    decreases |m|
  {
    if m.Keys == {} then
      multiset{}
    else
      var k := AnyKey(m);
      multiset{m[k]} + Bag(m - {k})
  }

  lemma RemoveShrinks<K, V>(m: map<K, V>, a: K)
    requires a in m
    ensures |m - {a}| < |m|
  {
    assert m.Keys == (m - {a}).Keys + {a};
  }

  lemma RemoveTwo<K, V>(m: map<K, V>, a: K, b: K)
    requires a in m
    ensures |m - {a}| < |m|
    ensures (m - {a}) - {b} == (m - {b}) - {a}
  {
    RemoveShrinks(m, a);
  }

  /** Unfolds Bag once. */
  lemma BagStep<K, V>(m: map<K, V>)
    requires m.Keys != {}
    ensures Bag(m) == multiset{m[AnyKey(m)]} + Bag(m - {AnyKey(m)})
  {
  }

  lemma {:induction false} BagRemove<K, V>(m: map<K, V>, k: K)
    requires k in m
    ensures Bag(m) == Bag(m - {k}) + multiset{m[k]}
    decreases |m|
  {
    var c := AnyKey(m);
    BagStep(m);
    if c != k {
      RemoveTwo(m, c, k);
      RemoveTwo(m, k, c);
      BagRemove(m - {c}, k);
      BagRemove(m - {k}, c);
      SwapLast(Bag((m - {c}) - {k}), m[c], m[k]);
    }
  }

  lemma SwapLast<V>(rest: multiset<V>, a: V, b: V)
    ensures multiset{a} + (rest + multiset{b}) == (rest + multiset{a}) + multiset{b}
  {
  }

  lemma BagInsert<K, V>(m: map<K, V>, k: K, v: V)
    requires k !in m
    ensures Bag(m[k := v]) == Bag(m) + multiset{v}
  {
    assert m[k := v] - {k} == m;
    BagRemove(m[k := v], k);
  }

  /** Exactly the values of the map are in its bag. */
  lemma {:induction false} BagHas<K, V>(m: map<K, V>, v: V)
    ensures v in Bag(m) <==> exists k :: k in m && m[k] == v
    decreases |m|
  {
    if m.Keys != {} {
      var c := AnyKey(m);
      BagStep(m);
      RemoveShrinks(m, c);
      var rest := m - {c};
      BagHas(rest, v);
      if v in Bag(m) {
        if v != m[c] {
          var k :| k in rest && rest[k] == v;
          assert k in m && m[k] == v;
        }
      } else {
        assert forall k :: k in m && k != c ==> k in rest && m[k] == rest[k];
      }
    }
  }

  /** A key of a value in the bag. */
  lemma {:induction false} BagKey<K, V>(m: map<K, V>, v: V) returns (k: K)
    requires v in Bag(m)
    ensures k in m && m[k] == v
    decreases |m|
  {
    k := AnyKey(m);
    BagStep(m);
    if m[k] != v {
      RemoveShrinks(m, k);
      k := BagKey(m - {k}, v);
    }
  }

  /** Any element: Go iterates over a map in no particular order. */
  method Pick<T(==)>(s: set<T>) returns (p: T)
    requires s != {}
    ensures p in s
  {
    p :| p in s;
  }
}
