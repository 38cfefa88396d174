/** The 24-word recovery phrase of the client (BIP-39, "Generating the mnemonic"): encoding 32 bytes
    of entropy and one checksum byte as 24 words of 11 bits, and decoding a typed phrase. */
module Mnemonic {
  import opened Common

  type bit = x: int | 0 <= x < 2

  type Sha256 = Bytes -> Hash

  datatype Error = WordCount | UnknownWord | BitLength | Checksum | EntropyLength | WordIndex

  // ------------------------------------------------------------- bits and integers

  /** `n >> i`. */
  function Shr(n: nat, i: nat): nat
    decreases i
  {
    if i == 0 then n else Shr(n / 2, i - 1)
  }

  /** The integer whose binary digits, most significant first, are `bs`. */
  function Value(bs: seq<bit>): (n: nat)
    ensures n < Pow2(|bs|)
  {
    if bs == [] then 0 else 2 * Value(bs[..|bs| - 1]) + bs[|bs| - 1]
  }

  /** The `w` low binary digits of `n`, most significant first. */
  function BitsOf(n: nat, w: nat): (bs: seq<bit>)
    ensures |bs| == w
  {
    if w == 0 then [] else BitsOf(n / 2, w - 1) + [n % 2]
  }

  lemma {:induction false} BitsOfIndex(n: nat, w: nat, k: nat)
    requires k < w
    ensures BitsOf(n, w)[k] == Shr(n, w - 1 - k) % 2
  {
    if k < w - 1 {
      BitsOfIndex(n / 2, w - 1, k);
    }
  }

  lemma {:induction false} ValueOfBits(n: nat, w: nat)
    requires n < Pow2(w)
    ensures Value(BitsOf(n, w)) == n
  {
    if w > 0 {
      ValueOfBits(n / 2, w - 1);
      assert BitsOf(n, w)[..w - 1] == BitsOf(n / 2, w - 1);
    }
  }

  lemma {:induction false} BitsOfValue(bs: seq<bit>)
    ensures BitsOf(Value(bs), |bs|) == bs
  {
    if bs != [] {
      BitsOfValue(bs[..|bs| - 1]);
      assert bs == bs[..|bs| - 1] + [bs[|bs| - 1]];
    }
  }

  // ------------------------------------------------------------- regrouping

  /** The number of digits in `m` groups of `w`. */
  function Span(m: nat, w: nat): nat {
    if m == 0 then 0 else Span(m - 1, w) + w
  }

  lemma {:induction false} SpanIs(m: nat, w: nat)
    ensures Span(m, w) == m * w
  {
    if m > 0 {
      SpanIs(m - 1, w);
    }
  }

  lemma {:induction false} SpanMono(i: nat, m: nat, w: nat)
    requires i <= m
    ensures Span(i, w) <= Span(m, w)
  {
    if i < m {
      SpanMono(i, m - 1, w);
    }
  }

  /** All digits of a list of `w`-bit integers. */
  function Unpack(vs: seq<nat>, w: nat): (bs: seq<bit>)
    ensures |bs| == Span(|vs|, w)
  {
    if vs == [] then [] else Unpack(vs[..|vs| - 1], w) + BitsOf(vs[|vs| - 1], w)
  }

  /** The first `m` groups of `w` digits, as integers. */
  function Pack(bs: seq<bit>, w: nat, m: nat): (vs: seq<nat>)
    requires Span(m, w) <= |bs|
    ensures |vs| == m
    decreases m
  {
    if m == 0 then []
    else Pack(bs, w, m - 1) + [Value(bs[Span(m - 1, w)..Span(m, w)])]
  }

  lemma {:induction false} PackBounded(bs: seq<bit>, w: nat, m: nat, i: nat)
    requires Span(m, w) <= |bs| && i < m
    ensures Pack(bs, w, m)[i] < Pow2(w)
    decreases m
  {
    if i < m - 1 {
      PackBounded(bs, w, m - 1, i);
    }
  }

  lemma {:induction false} UnpackSlice(vs: seq<nat>, w: nat, i: nat)
    requires i < |vs|
    ensures Span(i + 1, w) <= Span(|vs|, w)
    ensures Unpack(vs, w)[Span(i, w)..Span(i + 1, w)] == BitsOf(vs[i], w)
    decreases |vs|
  {
    var n := |vs| - 1;
    SpanMono(i + 1, |vs|, w);
    if i < n {
      UnpackSlice(vs[..n], w, i);
      assert Unpack(vs, w)[..Span(n, w)] == Unpack(vs[..n], w);
    }
  }

  /** Digit `k` of integer `i` is digit `i * w + k` of the whole. */
  lemma {:induction false} UnpackIndex(vs: seq<nat>, w: nat, i: nat, k: nat)
    requires i < |vs| && k < w
    ensures Span(i, w) + k < Span(|vs|, w)
    ensures Unpack(vs, w)[Span(i, w) + k] == BitsOf(vs[i], w)[k]
  {
    UnpackSlice(vs, w, i);
    assert Unpack(vs, w)[Span(i, w)..Span(i + 1, w)][k] == Unpack(vs, w)[Span(i, w) + k];
  }

  lemma {:induction false} PackLast(bs: seq<bit>, w: nat, m: nat)
    requires m > 0 && Span(m, w) <= |bs|
    ensures Span(m - 1, w) + w == Span(m, w)
    ensures Pack(bs, w, m) == Pack(bs, w, m - 1) + [Value(bs[Span(m - 1, w)..Span(m, w)])]
  {}

  lemma {:induction false} TakeSnoc(vs: seq<nat>, m: nat)
    requires 0 < m <= |vs|
    ensures vs[..m] == vs[..m - 1] + [vs[m - 1]]
  {}

  lemma {:induction false} TakeSlice(bs: seq<bit>, from: nat, to: nat)
    requires from <= to <= |bs|
    ensures bs[..to] == bs[..from] + bs[from..to]
  {}

  lemma {:induction false} PackUnpack(vs: seq<nat>, w: nat, m: nat)
    requires forall v :: v in vs ==> v < Pow2(w)
    requires m <= |vs|
    ensures Span(m, w) <= Span(|vs|, w)
    ensures Pack(Unpack(vs, w), w, m) == vs[..m]
    decreases m
  {
    SpanMono(m, |vs|, w);
    if m > 0 {
      PackUnpack(vs, w, m - 1);
      assert vs[m - 1] in vs;
      PackUnpackStep(vs, Unpack(vs, w), w, m);
    }
  }

  lemma {:induction false} PackUnpackStep(vs: seq<nat>, bs: seq<bit>, w: nat, m: nat)
    requires 0 < m <= |vs| && vs[m - 1] < Pow2(w) && bs == Unpack(vs, w) && Span(m, w) <= |bs|
    requires Pack(bs, w, m - 1) == vs[..m - 1]
    ensures Pack(bs, w, m) == vs[..m]
  {
    PackLast(bs, w, m);
    UnpackSlice(vs, w, m - 1);
    ValueOfBits(vs[m - 1], w);
    TakeSnoc(vs, m);
  }

  lemma {:induction false} UnpackPack(bs: seq<bit>, w: nat, m: nat)
    requires Span(m, w) <= |bs|
    ensures Unpack(Pack(bs, w, m), w) == bs[..Span(m, w)]
    decreases m
  {
    if m > 0 {
      UnpackPack(bs, w, m - 1);
      UnpackPackStep(bs, w, m, Span(m - 1, w), Span(m, w), Pack(bs, w, m - 1));
    }
  }

  lemma {:induction false} UnpackPackStep(bs: seq<bit>, w: nat, m: nat, from: nat, to: nat, front: seq<nat>)
    requires m > 0 && from == Span(m - 1, w) && to == Span(m, w) <= |bs|
    requires front == Pack(bs, w, m - 1) && Unpack(front, w) == bs[..from]
    ensures Unpack(Pack(bs, w, m), w) == bs[..to]
  {
    PackLast(bs, w, m);
    BitsOfValue(bs[from..to]);
    UnpackAppend(front, Value(bs[from..to]), w);
    TakeSlice(bs, from, to);
  }

  lemma {:induction false} PackUnpackAll(vs: seq<nat>, w: nat)
    requires forall v :: v in vs ==> v < Pow2(w)
    ensures Pack(Unpack(vs, w), w, |vs|) == vs
  {
    PackUnpack(vs, w, |vs|);
    assert vs[..|vs|] == vs;
  }

  lemma {:induction false} UnpackPackAll(bs: seq<bit>, w: nat, m: nat)
    requires Span(m, w) == |bs|
    ensures Unpack(Pack(bs, w, m), w) == bs
  {
    UnpackPack(bs, w, m);
    assert bs[..|bs|] == bs;
  }

  lemma {:induction false} UnpackAppend(vs: seq<nat>, v: nat, w: nat)
    ensures Unpack(vs + [v], w) == Unpack(vs, w) + BitsOf(v, w)
  {
    assert (vs + [v])[..|vs|] == vs;
  }

  // ------------------------------------------------------------- the phrase

  /** Entropy followed by its checksum byte. */
  function Checked(sha: Sha256, entropy: Bytes): seq<nat> {
    entropy + [sha(entropy)[0]]
  }

  /** Regroups 33 bytes as 24 numbers of 11 bits. */
  function Regroup8To11(bytes: seq<nat>): (ix: seq<nat>)
    requires |bytes| == 33
    ensures |ix| == 24
  {
    SpanIs(33, 8); SpanIs(24, 11);
    Pack(Unpack(bytes, 8), 11, 24)
  }

  /** Regroups 24 numbers of 11 bits as 33 bytes. */
  function Regroup11To8(ix: seq<nat>): (bytes: seq<nat>)
    requires |ix| == 24
    ensures |bytes| == 33
  {
    SpanIs(33, 8); SpanIs(24, 11);
    Pack(Unpack(ix, 11), 8, 33)
  }

  lemma {:induction false} Regroup11To8Inverse(bytes: seq<nat>)
    requires |bytes| == 33 && forall v :: v in bytes ==> v < 256
    ensures Regroup11To8(Regroup8To11(bytes)) == bytes
  {
    var bits := Unpack(bytes, 8);
    SpanIs(33, 8); SpanIs(24, 11); Pow2Values();
    UnpackPackAll(bits, 11, 24);
    PackUnpackAll(bytes, 8);
  }

  lemma {:induction false} Regroup8To11Inverse(ix: seq<nat>)
    requires |ix| == 24 && forall v :: v in ix ==> v < 2048
    ensures Regroup8To11(Regroup11To8(ix)) == ix
  {
    var bits := Unpack(ix, 11);
    SpanIs(33, 8); SpanIs(24, 11); Pow2Values();
    UnpackPackAll(bits, 8, 33);
    PackUnpackAll(ix, 11);
  }

  /** The 24 word numbers of a 32-byte entropy. */
  function Indices(sha: Sha256, entropy: Bytes): (ix: seq<nat>)
    requires |entropy| == 32
    ensures |ix| == 24
  {
    Regroup8To11(Checked(sha, entropy))
  }

  /** The English list: 2048 different words, already in lower case and free of white space. */
  predicate WordList(list: seq<string>, ws: char -> bool, lower: string -> string) {
    && |list| == 2048
    && Distinct(list)
    && (forall i :: 0 <= i < |list| ==> Word(list[i], ws) && lower(list[i]) == list[i])
  }

  predicate Word(w: string, ws: char -> bool) {
    w != "" && forall i :: 0 <= i < |w| ==> !ws(w[i])
  }

  /** `ix` numbers the words `words` in `list`. */
  predicate Spells(list: seq<string>, ix: seq<nat>, words: seq<string>) {
    |ix| == |words| && forall i :: 0 <= i < |ix| ==> ix[i] < |list| && list[ix[i]] == words[i]
  }

  lemma {:induction false} SpellsSnoc(list: seq<string>, ix: seq<nat>, words: seq<string>, i: nat)
    requires Spells(list, ix, words) && i < |list|
    ensures Spells(list, ix + [i], words + [list[i]])
  {}

  lemma {:induction false} SpellsSame(list: seq<string>, ix: seq<nat>, words: seq<string>, words': seq<string>)
    requires Spells(list, ix, words) && Spells(list, ix, words')
    ensures words == words'
  {}

  lemma {:induction false} SpellsUnique(list: seq<string>, ix: seq<nat>, ix': seq<nat>, words: seq<string>)
    requires Distinct(list) && Spells(list, ix, words) && Spells(list, ix', words)
    ensures ix == ix'
  {
    forall i | 0 <= i < |ix| ensures ix[i] == ix'[i] {
      assert list[ix[i]] == list[ix'[i]];
    }
  }

  /** Bit `t` of word number `i`, most significant first, is bit `11 * i + t` of the entropy followed by the
      first byte of its digest, each byte most significant bit first. */
  lemma {:induction false} IndexBits(sha: Sha256, entropy: Bytes, i: nat, t: nat)
    requires |entropy| == 32 && i < 24 && t < 11
    ensures var k := 11 * i + t;
            BitsOf(Indices(sha, entropy)[i], 11)[t]
            == if k < 256 then Shr(entropy[k / 8], 7 - k % 8) % 2 else Shr(sha(entropy)[0], 7 - (k - 256)) % 2
  {
    var bits := CheckedBits(sha, entropy);
    SpanIs(24, 11);
    PackUnpackIndex(bits, i, t);
    ReadBitIs(entropy, sha(entropy)[0], 11 * i + t);
  }

  lemma {:induction false} ReadBitIs(entropy: Bytes, checksum: byte, k: nat)
    requires |entropy| == 32 && k < 264
    ensures ReadBit(entropy, checksum, k)
         == if k < 256 then Shr(entropy[k / 8], 7 - k % 8) % 2 else Shr(checksum, 7 - (k - 256)) % 2
  {}

  lemma {:induction false} PackUnpackIndex(bits: seq<bit>, i: nat, t: nat)
    requires |bits| == 264 == Span(24, 11) && i < 24 && t < 11
    ensures BitsOf(Pack(bits, 11, 24)[i], 11)[t] == bits[11 * i + t]
  {
    var ix := Pack(bits, 11, 24);
    UnpackPackAll(bits, 11, 24);
    UnpackIndex(ix, 11, i, t);
    SpanIs(i, 11);
  }

  /** Every word number fits the list, so encoding never runs off it. */
  lemma {:induction false} IndicesBounded(sha: Sha256, entropy: Bytes, i: nat)
    requires |entropy| == 32 && i < 24
    ensures Indices(sha, entropy)[i] < 2048
  {
    SpanIs(33, 8); SpanIs(24, 11); Pow2Values();
    PackBounded(Unpack(Checked(sha, entropy), 8), 11, 24, i);
  }

  lemma {:induction false} Pow2Values()
    ensures Pow2(8) == 256 && Pow2(11) == 2048
  {
    assert Pow2(4) == 16;
    assert Pow2(8) == 16 * Pow2(4);
    assert Pow2(11) == 8 * Pow2(8);
  }

  // ------------------------------------------------------------- encoding

  method MnemonicFromEntropy(list: seq<string>, sha: Sha256, entropy: Bytes)
    returns (r: Result<seq<string>, Error>)
    requires |list| == 2048
    ensures r.Ok? <==> |entropy| == 32
    ensures r.Ok? ==> |r.value| == 24 && Spells(list, Indices(sha, entropy), r.value)
    ensures r.Err? ==> r.error == EntropyLength
  {
    if |entropy| != 32 {
      return Err(EntropyLength);
    }
    var entropyBits := |entropy| * 8;
    var checksumBits := entropyBits / 32;
    var wordCount := (entropyBits + checksumBits) / 11;
    var checksum := sha(entropy)[0];
    var words := EncodeWords(list, entropy, checksum, wordCount, CheckedBits(sha, entropy));
    if words == None {
      return Err(WordIndex);
    }
    EncodedAll(list, sha, entropy, wordCount, words.value);
    r := Ok(words.value);
  }

  /** The encoder's outer loop, one word per eleven digits. */
  method EncodeWords(list: seq<string>, entropy: Bytes, checksum: byte, count: nat, ghost bits: seq<bit>)
    returns (r: Option<seq<string>>)
    requires |list| == 2048 && 11 * count <= |bits| && ReadsAs(bits, entropy, checksum)
    ensures r.Some? && Encoded(list, bits, count, r.value)
  {
    var words: seq<string> := [];
    var bitIndex := 0;
    for j := 0 to count
      invariant bitIndex == 11 * j
      invariant Encoded(list, bits, j, words)
    {
      var word, index := EncodeWord(list, entropy, checksum, bitIndex, bits);
      if word == None {
        return None;
      }
      bitIndex := bitIndex + 11;
      EncodedStep(list, bits, j, words, index);
      words := words + [word.value];
    }
    r := Some(words);
  }

  /** The word for the eleven digits from `from` on. */
  method EncodeWord(list: seq<string>, entropy: Bytes, checksum: byte, from: nat, ghost bits: seq<bit>)
    returns (word: Option<string>, ghost index: nat)
    requires |list| == 2048 && from + 11 <= |bits| && ReadsAs(bits, entropy, checksum)
    ensures index == Value(bits[from..from + 11]) < |list| && word == Some(list[index])
  {
    var i := ReadIndex(entropy, checksum, from, bits);
    index := i;
    word := if i < |list| then Some(list[i]) else None;
  }

  /** All 264 digits, as the encoder reads them. */
  ghost function CheckedBits(sha: Sha256, entropy: Bytes): (bits: seq<bit>)
    requires |entropy| == 32
    ensures |bits| == 264 && ReadsAs(bits, entropy, sha(entropy)[0])
  {
    SpanIs(33, 8);
    CheckedBitsRead(sha, entropy);
    Unpack(Checked(sha, entropy), 8)
  }

  /** The first `j` groups of eleven digits have been turned into `words`. */
  ghost predicate Encoded(list: seq<string>, bits: seq<bit>, j: nat, words: seq<string>) {
    Span(j, 11) <= |bits| && Spells(list, Pack(bits, 11, j), words)
  }

  lemma {:induction false} EncodedAll(list: seq<string>, sha: Sha256, entropy: Bytes, n: nat, words: seq<string>)
    requires |entropy| == 32 && n == 24 && Encoded(list, CheckedBits(sha, entropy), n, words)
    ensures |words| == 24 && Spells(list, Indices(sha, entropy), words)
  {}

  lemma {:induction false} EncodedStep(list: seq<string>, bits: seq<bit>, j: nat, words: seq<string>, index: nat)
    requires Encoded(list, bits, j, words) && 11 * j + 11 <= |bits| && index < |list|
    requires index == Value(bits[11 * j..11 * j + 11])
    ensures Encoded(list, bits, j + 1, words + [list[index]])
  {
    PackStep(bits, 11, j);
    SpellsSnoc(list, Pack(bits, 11, j), words, index);
  }

  /** Digit `k` of the checksum byte; zero past its end. */
  function ChecksumBit(checksum: byte, k: nat): bit {
    if k >= 8 then 0 else Shr(checksum, 7 - k) % 2
  }

  /** Digit `k` of the entropy, or past it of the checksum byte. */
  function ReadBit(entropy: Bytes, checksum: byte, k: nat): bit {
    if k < |entropy| * 8 then Shr(entropy[k / 8], 7 - k % 8) % 2 else ChecksumBit(checksum, k - |entropy| * 8)
  }

  predicate ReadsAs(bits: seq<bit>, entropy: Bytes, checksum: byte) {
    forall k :: 0 <= k < |bits| ==> bits[k] == ReadBit(entropy, checksum, k)
  }

  /** The encoder's inner loop: accumulates eleven digits into a word number. */
  method ReadIndex(entropy: Bytes, checksum: byte, from: nat, ghost bits: seq<bit>) returns (index: nat)
    requires from + 11 <= |bits| && ReadsAs(bits, entropy, checksum)
    ensures index == Value(bits[from..from + 11]) < 2048
  {
    var bitIndex := from;
    index := 0;
    for t := 0 to 11
      invariant bitIndex == from + t
      invariant index == Value(bits[from..from + t])
    {
      ValueSnoc(bits, from, t);
      index := 2 * index + ReadBit(entropy, checksum, bitIndex);
      bitIndex := bitIndex + 1;
    }
    Pow2Values();
  }

  lemma {:induction false} ValueSnoc(bits: seq<bit>, from: nat, t: nat)
    requires from + t < |bits|
    ensures Value(bits[from..from + t + 1]) == 2 * Value(bits[from..from + t]) + bits[from + t]
  {
    assert bits[from..from + t + 1][..t] == bits[from..from + t];
  }

  lemma {:induction false} PackStep(bits: seq<bit>, w: nat, j: nat)
    requires (j + 1) * w <= |bits|
    ensures Span(j, w) == j * w && Span(j + 1, w) == (j + 1) * w == j * w + w
    ensures Pack(bits, w, j + 1) == Pack(bits, w, j) + [Value(bits[j * w..j * w + w])]
  {
    SpanIs(j, w);
    SpanIs(j + 1, w);
  }

  lemma {:induction false} CheckedBitsRead(sha: Sha256, entropy: Bytes)
    requires |entropy| == 32
    ensures ReadsAs(Unpack(Checked(sha, entropy), 8), entropy, sha(entropy)[0])
  {
    var vs := Checked(sha, entropy);
    SpanIs(33, 8);
    forall k | 0 <= k < 264 ensures Unpack(vs, 8)[k] == ReadBit(entropy, sha(entropy)[0], k) {
      SpanIs(k / 8, 8);
      UnpackIndex(vs, 8, k / 8, k % 8);
      BitsOfIndex(vs[k / 8], 8, k % 8);
    }
  }

  // ------------------------------------------------------------- decoding

  /** `split_whitespace`: the maximal runs of non-white-space characters. */
  function Split(s: string, ws: char -> bool): seq<string> {
    if s == "" then []
    else if ws(s[0]) then Split(s[1..], ws)
    else
      var n := RunLength(s, ws);
      [s[..n]] + Split(s[n..], ws)
  }

  function RunLength(s: string, ws: char -> bool): (n: nat)
    ensures n <= |s|
    ensures s != "" && !ws(s[0]) ==> n > 0
  {
    if s == "" || ws(s[0]) then 0 else 1 + RunLength(s[1..], ws)
  }

  /** The lower-cased words of a typed phrase. */
  function TypedWords(phrase: string, ws: char -> bool, lower: string -> string): seq<string> {
    LowerAll(Split(phrase, ws), lower)
  }

  function LowerAll(words: seq<string>, lower: string -> string): (r: seq<string>)
    ensures |r| == |words|
    ensures forall i :: 0 <= i < |r| ==> r[i] == lower(words[i])
  {
    if words == [] then [] else LowerAll(words[..|words| - 1], lower) + [lower(words[|words| - 1])]
  }

  /** `iter().position()`. */
  method Position(list: seq<string>, word: string) returns (p: Option<nat>)
    ensures p.Some? <==> word in list
    ensures p.Some? ==> p.value < |list| && list[p.value] == word && word !in list[..p.value]
  {
    for i := 0 to |list|
      invariant word !in list[..i]
    {
      if list[i] == word {
        return Some(i);
      }
    }
    return None;
  }

  method EntropyFromMnemonic(list: seq<string>, ws: char -> bool, lower: string -> string,
                             sha: Sha256, phrase: string) returns (r: Result<Bytes, Error>)
    requires WordList(list, ws, lower)
    ensures r.Ok? ==> |r.value| == 32
    // accepted exactly when the typed words are the phrase of the entropy returned
    ensures r.Ok? ==> Spells(list, Indices(sha, r.value), TypedWords(phrase, ws, lower))
    ensures forall e: Bytes ::
              |e| == 32 && Spells(list, Indices(sha, e), TypedWords(phrase, ws, lower)) ==> r == Ok(e)
    ensures r == Err(WordCount) <==> |TypedWords(phrase, ws, lower)| != 24
    ensures r == Err(UnknownWord) <==>
            && |TypedWords(phrase, ws, lower)| == 24
            && exists w :: w in TypedWords(phrase, ws, lower) && w !in list
    ensures r.Err? ==> r.error == WordCount || r.error == UnknownWord || r.error == Checksum
  {
    var words := TypedWords(phrase, ws, lower);
    if |words| != 24 {
      return Err(WordCount);
    }
    r := EntropyFromWords(list, sha, words);
  }

  /** Decoding from the word list on. */
  method EntropyFromWords(list: seq<string>, sha: Sha256, words: seq<string>) returns (r: Result<Bytes, Error>)
    requires |list| == 2048 && Distinct(list) && |words| == 24
    ensures r.Ok? ==> |r.value| == 32 && Spells(list, Indices(sha, r.value), words)
    ensures forall e: Bytes :: |e| == 32 && Spells(list, Indices(sha, e), words) ==> r == Ok(e)
    ensures r == Err(UnknownWord) <==> exists w :: w in words && w !in list
    ensures r.Err? ==> r.error == UnknownWord || r.error == Checksum
  {
    var looked, ix := LookUpWords(list, words);
    if looked == None {
      forall e: Bytes | |e| == 32 ensures !Spells(list, Indices(sha, e), words) {
        var w :| w in words && w !in list;
      }
      return Err(UnknownWord);
    }
    r := DecodeBits(sha, looked.value, ix);
    forall e: Bytes | |e| == 32
      ensures Spells(list, Indices(sha, e), words) <==> Regroup11To8(ix) == Checked(sha, e)
    {
      PhraseOf(list, sha, ix, words, e);
    }
  }

  /** Bits to bytes and the checksum comparison. */
  method DecodeBits(sha: Sha256, bits: seq<bit>, ghost ix: seq<nat>) returns (r: Result<Bytes, Error>)
    requires |ix| == 24 && bits == Unpack(ix, 11)
    ensures r.Ok? ==> |r.value| == 32 && Regroup11To8(ix) == Checked(sha, r.value)
    ensures r.Err? ==> r.error == Checksum
    ensures r.Err? ==> forall e: Bytes :: |e| == 32 ==> Regroup11To8(ix) != Checked(sha, e)
  {
    SpanIs(24, 11);
    if |bits| != 264 {
      return Err(BitLength);
    }
    var entropy := BitsToBytes(bits, 32);
    var checksum := ReadByte(bits, 256);
    PackStep(bits, 8, 32);
    assert Regroup11To8(ix) == entropy + [checksum];
    if checksum != sha(entropy)[0] {
      forall e: Bytes | |e| == 32 ensures entropy + [checksum] != Checked(sha, e) {
        if entropy + [checksum] == Checked(sha, e) {
          SnocInjective(entropy, checksum, e, sha(e)[0]);
        }
      }
      return Err(Checksum);
    }
    return Ok(entropy);
  }

  lemma {:induction false} SnocInjective(s: seq<nat>, x: nat, t: seq<nat>, y: nat)
    requires s + [x] == t + [y]
    ensures s == t && x == y
  {
    assert |s| == |s + [x]| - 1 == |t|;
    assert s == (s + [x])[..|s|] && t == (t + [y])[..|s|];
    assert x == (s + [x])[|s|] && y == (t + [y])[|s|];
  }

  /** The words are the phrase of `e` exactly when their digits regroup to `e` and its checksum. */
  lemma {:induction false} PhraseOf(list: seq<string>, sha: Sha256, ix: seq<nat>, words: seq<string>, e: Bytes)
    requires |list| == 2048 && Distinct(list) && |words| == 24 && Spells(list, ix, words) && |e| == 32
    ensures Spells(list, Indices(sha, e), words) <==> Regroup11To8(ix) == Checked(sha, e)
  {
    if Spells(list, Indices(sha, e), words) {
      SpellsUnique(list, ix, Indices(sha, e), words);
      Regroup11To8Inverse(Checked(sha, e));
    }
    if Regroup11To8(ix) == Checked(sha, e) {
      Regroup8To11Inverse(ix);
    }
  }

  /** The digits of all the words, or nothing at the first word that is not in the list. */
  method LookUpWords(list: seq<string>, words: seq<string>) returns (bits: Option<seq<bit>>, ghost ix: seq<nat>)
    ensures bits.None? <==> exists w :: w in words && w !in list
    ensures bits.Some? ==> Spells(list, ix, words) && bits.value == Unpack(ix, 11)
  {
    var acc: seq<bit> := [];
    ix := [];
    for j := 0 to |words|
      invariant Spells(list, ix, words[..j]) && acc == Unpack(ix, 11)
    {
      var p := Position(list, words[j]);
      if p == None {
        assert words[j] in words;
        return None, [];
      }
      acc := AppendIndexBits(acc, p.value);
      LookedUp(list, ix, words, j, p.value);
      ix := ix + [p.value];
    }
    assert words[..|words|] == words;
    return Some(acc), ix;
  }

  lemma {:induction false} LookedUp(list: seq<string>, ix: seq<nat>, words: seq<string>, j: nat, p: nat)
    requires j < |words| && Spells(list, ix, words[..j]) && p < |list| && list[p] == words[j]
    ensures Spells(list, ix + [p], words[..j + 1]) && Unpack(ix + [p], 11) == Unpack(ix, 11) + BitsOf(p, 11)
  {
    SpellsSnoc(list, ix, words[..j], p);
    assert words[..j + 1] == words[..j] + [words[j]];
    UnpackAppend(ix, p, 11);
  }

  method BitsToBytes(bits: seq<bit>, n: nat) returns (bytes: Bytes)
    requires 8 * n <= |bits|
    ensures Span(n, 8) == 8 * n && |bytes| == n && bytes == Pack(bits, 8, n)
  {
    bytes := [];
    for i := 0 to n
      invariant Span(i, 8) == 8 * i && bytes == Pack(bits, 8, i)
    {
      var b := ReadByte(bits, 8 * i);
      PackStep(bits, 8, i);
      bytes := bytes + [b];
    }
  }

  /** Pushes the 11 digits of a word number, from bit 10 down to bit 0. */
  method AppendIndexBits(bits: seq<bit>, index: nat) returns (r: seq<bit>)
    ensures r == bits + BitsOf(index, 11)
  {
    r := bits;
    var i := 11;
    while i > 0
      invariant 0 <= i <= 11 && r == bits + BitsOf(index, 11)[..11 - i]
    {
      i := i - 1;
      BitsOfIndex(index, 11, 10 - i);
      r := r + [Shr(index, i) % 2];
    }
  }

  /** Accumulates eight digits into a byte. */
  method ReadByte(bits: seq<bit>, from: nat) returns (b: byte)
    requires from + 8 <= |bits|
    ensures b == Value(bits[from..from + 8])
  {
    var acc: nat := 0;
    for j := 0 to 8
      invariant acc == Value(bits[from..from + j])
    {
      ValueSnoc(bits, from, j);
      acc := 2 * acc + bits[from + j];
    }
    Pow2Values();
    b := acc;
  }

  // ------------------------------------------------------------- the round trip

  /** `words.join(" ")`. */
  function JoinWords(words: seq<string>): string {
    if words == [] then "" else if |words| == 1 then words[0] else words[0] + " " + JoinWords(words[1..])
  }

  lemma {:induction false} RunLengthOfWord(w: string, rest: string, ws: char -> bool)
    requires forall i :: 0 <= i < |w| ==> !ws(w[i])
    requires rest == "" || ws(rest[0])
    ensures RunLength(w + rest, ws) == |w|
  {
    if w == "" {
      assert w + rest == rest;
    } else {
      RunLengthOfWord(w[1..], rest, ws);
      assert (w + rest)[1..] == w[1..] + rest;
    }
  }

  lemma {:induction false} SplitJoin(words: seq<string>, ws: char -> bool)
    requires ws(' ') && forall i :: 0 <= i < |words| ==> Word(words[i], ws)
    ensures Split(JoinWords(words), ws) == words
  {
    if words != [] {
      var w := words[0];
      var rest := if |words| == 1 then "" else " " + JoinWords(words[1..]);
      var s := JoinWords(words);
      assert s == w + rest;
      RunLengthOfWord(w, rest, ws);
      assert s[..|w|] == w && s[|w|..] == rest;
      if |words| > 1 {
        SplitJoin(words[1..], ws);
        assert rest[1..] == JoinWords(words[1..]);
      }
      assert words == [w] + words[1..];
    }
  }

  /** The words are joined by single blanks, with nothing before or after. */
  lemma {:induction false} JoinIsSpaced(words: seq<string>)
    requires words != []
    ensures JoinWords(words) == Spaced(words, [""] + Blanks(|words| - 1) + [""])
    decreases |words|
  {
    var gaps := [""] + Blanks(|words| - 1) + [""];
    if |words| == 1 {
      assert gaps == ["", ""] && Spaced(words[1..], gaps[1..]) == "";
    } else {
      JoinIsSpaced(words[1..]);
      BlanksFirst(|words| - 1);
      SpacedFirstGap(words[1..], gaps[1..], [""] + Blanks(|words| - 2) + [""], " ");
    }
  }

  function Blanks(n: nat): (gaps: seq<string>)
    ensures |gaps| == n
  {
    if n == 0 then [] else Blanks(n - 1) + [" "]
  }

  lemma {:induction false} BlanksFirst(n: nat)
    requires n > 0
    ensures Blanks(n) == [" "] + Blanks(n - 1)
  {
    if n > 1 {
      BlanksFirst(n - 1);
    }
  }

  lemma {:induction false} SpacedFirstGap(words: seq<string>, gaps: seq<string>, gaps': seq<string>, gap: string)
    requires words != [] && |gaps| == |gaps'| == |words| + 1
    requires gaps[0] == gap && gaps'[0] == "" && gaps[1..] == gaps'[1..]
    ensures Spaced(words, gaps) == gap + Spaced(words, gaps')
  {}

  predicate Blank(s: string, ws: char -> bool) {
    forall i :: 0 <= i < |s| ==> ws(s[i])
  }

  /** The words with `gaps[i]` before word `i` and the last gap at the end. */
  function Spaced(words: seq<string>, gaps: seq<string>): string
    requires |gaps| == |words| + 1
  {
    if words == [] then gaps[0] else gaps[0] + words[0] + Spaced(words[1..], gaps[1..])
  }

  lemma {:induction false} SplitSkipsBlank(gap: string, rest: string, ws: char -> bool)
    requires Blank(gap, ws)
    ensures Split(gap + rest, ws) == Split(rest, ws)
  {
    if gap == "" {
      assert gap + rest == rest;
    } else {
      assert (gap + rest)[0] == gap[0] && (gap + rest)[1..] == gap[1..] + rest;
      SplitSkipsBlank(gap[1..], rest, ws);
    }
  }

  /** Any white space around and between the words gives the same words. */
  lemma {:induction false} SplitSpaced(words: seq<string>, gaps: seq<string>, ws: char -> bool)
    requires |gaps| == |words| + 1 && forall i :: 0 <= i < |words| ==> Word(words[i], ws)
    requires forall i :: 0 <= i < |gaps| ==> Blank(gaps[i], ws)
    requires forall i :: 0 < i < |words| ==> gaps[i] != ""
    ensures Split(Spaced(words, gaps), ws) == words
    decreases |words|
  {
    if words == [] {
      SplitSkipsBlank(gaps[0], "", ws);
      assert gaps[0] + "" == gaps[0];
    } else {
      var w, rest := words[0], Spaced(words[1..], gaps[1..]);
      assert Spaced(words, gaps) == gaps[0] + (w + rest);
      SplitSkipsBlank(gaps[0], w + rest, ws);
      SpacedStart(words[1..], gaps[1..], ws);
      RunLengthOfWord(w, rest, ws);
      assert (w + rest)[..|w|] == w && (w + rest)[|w|..] == rest && (w + rest)[0] == w[0];
      SplitSpaced(words[1..], gaps[1..], ws);
    }
  }

  /** After a word comes white space or the end. */
  lemma {:induction false} SpacedStart(words: seq<string>, gaps: seq<string>, ws: char -> bool)
    requires |gaps| == |words| + 1 && Blank(gaps[0], ws) && (words != [] ==> gaps[0] != "")
    ensures Spaced(words, gaps) == "" || ws(Spaced(words, gaps)[0])
  {}

  /** Splitting yields only words. */
  lemma {:induction false} SplitWords(s: string, ws: char -> bool, i: nat)
    requires i < |Split(s, ws)|
    ensures Word(Split(s, ws)[i], ws)
    decreases |s|
  {
    if ws(s[0]) {
      SplitWords(s[1..], ws, i);
    } else {
      var n := RunLength(s, ws);
      if i == 0 {
        RunIsWord(s, ws);
      } else {
        SplitWords(s[n..], ws, i - 1);
      }
    }
  }

  lemma {:induction false} RunIsWord(s: string, ws: char -> bool)
    ensures forall i :: 0 <= i < RunLength(s, ws) ==> !ws(s[i])
    decreases |s|
  {
    if s != "" && !ws(s[0]) {
      RunIsWord(s[1..], ws);
      forall i | 0 <= i < RunLength(s, ws) ensures !ws(s[i]) {
        if i > 0 {
          assert s[i] == s[1..][i - 1];
        }
      }
    }
  }

  /** Writing the seed phrase down and typing it back in recovers the entropy. */
  method RecoverFromSeedPhrase(list: seq<string>, ws: char -> bool, lower: string -> string,
                               sha: Sha256, entropy: Bytes) returns (r: Result<Bytes, Error>)
    requires WordList(list, ws, lower) && ws(' ') && |entropy| == 32
    ensures r == Ok(entropy)
  {
    var m := MnemonicFromEntropy(list, sha, entropy);
    var words := m.value;
    SplitJoin(words, ws);
    assert LowerAll(words, lower) == words;
    r := EntropyFromMnemonic(list, ws, lower, sha, JoinWords(words));
  }

  /** Re-encoding gives back the words in lower case, for exactly the phrases that are accepted. */
  method ReencodePhrase(list: seq<string>, ws: char -> bool, lower: string -> string,
                        sha: Sha256, phrase: string) returns (r: Result<seq<string>, Error>)
    requires WordList(list, ws, lower)
    ensures r.Ok? ==> r.value == TypedWords(phrase, ws, lower)
    ensures r.Ok? <==> exists e: Bytes :: |e| == 32 && Spells(list, Indices(sha, e), TypedWords(phrase, ws, lower))
  {
    var e := EntropyFromMnemonic(list, ws, lower, sha, phrase);
    if e.Err? {
      return Err(e.error);
    }
    r := MnemonicFromEntropy(list, sha, e.value);
    SpellsSame(list, Indices(sha, e.value), r.value, TypedWords(phrase, ws, lower));
  }
}
