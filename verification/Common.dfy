/** Vocabulary shared by the models: results, bytes, digests and byte encodings of integers. */
module Common {

  datatype Option<+T> = None | Some(value: T)

  datatype Result<+T, +E> = Ok(value: T) | Err(error: E)

  const U32_MAX: nat := 0xFFFF_FFFF
  const U64_MAX: nat := 0xFFFF_FFFF_FFFF_FFFF
  const U128_MAX: nat := 0xFFFF_FFFF_FFFF_FFFF_FFFF_FFFF_FFFF_FFFF

  type byte = x: int | 0 <= x < 256

  type Bytes = seq<byte>

  /** A tree of the key-value store. */
  type Tree = map<Bytes, Bytes>

  /** A 32-byte digest, key or address. */
  type Hash = h: Bytes | |h| == 32 witness seq(32, _ => 0)

  const ZERO_HASH: Hash := [0, 0, 0, 0, 0, 0, 0, 0, 0, 0, 0, 0, 0, 0, 0, 0,
                            0, 0, 0, 0, 0, 0, 0, 0, 0, 0, 0, 0, 0, 0, 0, 0]

  function Min(a: nat, b: nat): nat { if a <= b then a else b }

  function Max(a: nat, b: nat): nat { if a >= b then a else b }

  function SaturatingSub(a: nat, b: nat): nat { if a >= b then a - b else 0 }

  function Pow2(n: nat): (r: nat)
    ensures r >= 1
  {
    if n == 0 then 1 else 2 * Pow2(n - 1)
  }

  function Last<T>(s: seq<T>): T
    requires s != []
  {
    s[|s| - 1]
  }

  predicate Distinct<T(==)>(s: seq<T>) {
    forall i, j :: 0 <= i < j < |s| ==> s[i] != s[j]
  }

  /** `order` lists every key of the map once, as iterating over it does. */
  ghost predicate Visits<K(!new), V>(m: map<K, V>, order: seq<K>) {
    (forall k :: k in m <==> k in order) && Distinct(order)
  }

  /** `256^w`, the number of values a `w`-byte integer can hold. */
  function Radix(w: nat): (r: nat)
    ensures r >= 1
  {
    if w == 0 then 1 else 256 * Radix(w - 1)
  }

  /** `to_be_bytes` at width `w`. */
  function ToBE(n: nat, w: nat): (s: Bytes)
    ensures |s| == w
  {
    if w == 0 then [] else ToBE(n / 256, w - 1) + [n % 256]
  }

  /** `from_be_bytes` at any width. */
  function FromBE(s: Bytes): (n: nat)
    ensures n < Radix(|s|)
  {
    if s == [] then 0 else 256 * FromBE(s[..|s| - 1]) + s[|s| - 1]
  }

  /** `from_le_bytes` at any width. */
  function FromLE(s: Bytes): (n: nat)
    ensures n < Radix(|s|)
  {
    if s == [] then 0 else s[0] + 256 * FromLE(s[1..])
  }

  /** Big-endian encoding loses nothing that fits the width. */
  lemma {:induction false} FromToBE(n: nat, w: nat)
    requires n < Radix(w)
    ensures FromBE(ToBE(n, w)) == n
  {
    if w > 0 {
      FromToBE(n / 256, w - 1);
      var s := ToBE(n, w);
      assert s[..|s| - 1] == ToBE(n / 256, w - 1);
    }
  }

  /** Every byte string of a width is the encoding of the integer it denotes. */
  lemma {:induction false} ToFromBE(s: Bytes)
    ensures ToBE(FromBE(s), |s|) == s
  {
    if s != [] {
      ToFromBE(s[..|s| - 1]);
      assert s == s[..|s| - 1] + [s[|s| - 1]];
    }
  }

  function Join(left: Bytes, right: Bytes): Bytes {
    left + right
  }

  /** Joining equal-length halves is injective, so hashing the join hashes the pair. */
  lemma {:induction false} JoinInjective(l: Bytes, r: Bytes, l': Bytes, r': Bytes)
    requires |l| == |l'| && l + r == l' + r'
    ensures l == l' && r == r'
  {
    assert l == (l + r)[..|l|] && l' == (l' + r')[..|l|];
    assert r == (l + r)[|l|..] && r' == (l' + r')[|l|..];
  }

  /** Big endian: the first byte is the most significant. */
  lemma {:induction false} FromBEFirst(b: byte, s: Bytes)
    ensures FromBE([b] + s) == b * Radix(|s|) + FromBE(s)
    decreases |s|
  {
    if s == [] {
      assert [b] + s == [b] && [b][..0] == [];
    } else {
      var front, last := s[..|s| - 1], s[|s| - 1];
      FromBEFirst(b, front);
      assert ([b] + s)[..|s|] == [b] + front;
      assert b * (256 * Radix(|front|)) == 256 * (b * Radix(|front|));
    }
  }

  /** Little endian: the last byte is the most significant. */
  lemma {:induction false} FromLELast(s: Bytes, b: byte)
    ensures FromLE(s + [b]) == FromLE(s) + b * Radix(|s|)
    decreases |s|
  {
    if s == [] {
      assert s + [b] == [b] && [b][1..] == [];
    } else {
      FromLELast(s[1..], b);
      assert (s + [b])[1..] == s[1..] + [b];
      assert 256 * (b * Radix(|s| - 1)) == b * (256 * Radix(|s| - 1));
    }
  }

  /** The widths of the source's integers. */
  lemma {:induction false} RadixValues()
    ensures Radix(4) == U32_MAX + 1 && Radix(8) == U64_MAX + 1 && Radix(16) == U128_MAX + 1
  {
    assert Radix(2) == 65536 && Radix(4) == 65536 * Radix(2);
    RadixAdd(4, 4);
    RadixAdd(8, 8);
  }

  lemma {:induction false} RadixAdd(v: nat, w: nat)
    ensures Radix(v + w) == Radix(v) * Radix(w)
    decreases v
  {
    if v > 0 {
      RadixAdd(v - 1, w);
      assert 256 * (Radix(v - 1) * Radix(w)) == (256 * Radix(v - 1)) * Radix(w);
    }
  }
}
