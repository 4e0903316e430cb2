/** The LZ4 block format: what a compressed block says, independently of who writes or reads it. */
module Lz4Format {
  import opened Bytes

  const MINMATCH := 4
  const LASTLITERALS := 5
  const MFLIMIT := 12
  const RUN_MASK := 15
  const ML_MASK := 15
  const DISTANCE_MAX := 65535
  const MAX_INPUT_SIZE := 0x7E00_0000

  /** One sequence: literals, then a copy of `matchLength` bytes from `offset` bytes back. */
  datatype Sequence = Sequence(literals: seq<byte>, offset: nat, matchLength: nat)

  // ----- wire form

  /** The run of 255s and the final byte that extend a length nibble of 15. */
  function Extension(v: nat): seq<byte> {
    if v < 255 then [v] else [255] + Extension(v - 255)
  }

  function Nibble(v: nat): (n: nat)
    ensures n < 16
  {
    if v < RUN_MASK then v else RUN_MASK
  }

  function Tail(v: nat): seq<byte> {
    if v < RUN_MASK then [] else Extension(v - RUN_MASK)
  }

  function Token(literals: nat, matchCode: nat): byte {
    16 * Nibble(literals) + Nibble(matchCode)
  }

  function LE16(v: nat): seq<byte>
    requires v < UINT16_SIZE
  {
    [v % 256, v / 256]
  }

  ghost predicate Encodable(s: Sequence) {
    s.offset < UINT16_SIZE && s.matchLength >= MINMATCH
  }

  function EncodeSequence(s: Sequence): seq<byte>
    requires Encodable(s)
  {
    var matchCode := s.matchLength - MINMATCH;
    [Token(|s.literals|, matchCode)] + Tail(|s.literals|) + s.literals + LE16(s.offset) + Tail(matchCode)
  }

  function EncodeLast(literals: seq<byte>): seq<byte> {
    [Token(|literals|, 0)] + Tail(|literals|) + literals
  }

  ghost predicate AllEncodable(ss: seq<Sequence>) {
    forall i :: 0 <= i < |ss| ==> Encodable(ss[i])
  }

  function EncodeAll(ss: seq<Sequence>): seq<byte>
    requires AllEncodable(ss)
  {
    if ss == [] then [] else EncodeSequence(ss[0]) + EncodeAll(ss[1..])
  }

  // ----- meaning

  /** `s` describes `src` from `pos` on, and keeps the end-of-block restrictions:
      no match starts in the last 12 bytes and the last 5 bytes are literals. */
  ghost predicate Describes(src: seq<byte>, pos: nat, s: Sequence) {
    var start := pos + |s.literals|;
    && Encodable(s)
    && start + MFLIMIT <= |src|
    && start + s.matchLength + LASTLITERALS <= |src|
    && s.literals == src[pos..start]
    && 1 <= s.offset <= start
    && src[start..start + s.matchLength] == src[start - s.offset..start - s.offset + s.matchLength]
  }

  function Width(s: Sequence): nat {
    |s.literals| + s.matchLength
  }

  /** `ss` is a parse of `src[from..to]`. */
  ghost predicate Parses(src: seq<byte>, from: nat, ss: seq<Sequence>, to: nat)
    decreases |ss|
  {
    if ss == [] then from == to <= |src|
    else Describes(src, from, ss[0]) && Parses(src, from + Width(ss[0]), ss[1..], to)
  }

  /** `block` is a well-formed encoding of `src`. */
  ghost predicate IsBlockOf(block: seq<byte>, src: seq<byte>) {
    exists ss: seq<Sequence>, to: nat :: IsEncoding(block, src, ss, to)
  }

  ghost predicate IsEncoding(block: seq<byte>, src: seq<byte>, ss: seq<Sequence>, to: nat) {
    && Parses(src, 0, ss, to)
    && AllEncodable(ss)
    && to <= |src|
    && block == EncodeAll(ss) + EncodeLast(src[to..])
  }

  // ----- lemmas

  lemma ParsesEncodable(src: seq<byte>, from: nat, ss: seq<Sequence>, to: nat)
    requires Parses(src, from, ss, to)
    ensures AllEncodable(ss)
    ensures from <= to <= |src|
    ensures ss != [] ==> to + LASTLITERALS <= |src|
    decreases |ss|
  {
    if ss != [] {
      ParsesEncodable(src, from + Width(ss[0]), ss[1..], to);
      forall i | 0 <= i < |ss| ensures Encodable(ss[i]) {
        if i > 0 { assert ss[i] == ss[1..][i - 1]; }
      }
    }
  }

  lemma ParsesSnoc(src: seq<byte>, from: nat, ss: seq<Sequence>, to: nat, s: Sequence)
    requires Parses(src, from, ss, to) && Describes(src, to, s)
    ensures Parses(src, from, ss + [s], to + Width(s))
    decreases |ss|
  {
    if ss == [] {
      assert [s][1..] == [];
    } else {
      hide Describes;
      ParsesSnoc(src, from + Width(ss[0]), ss[1..], to, s);
      assert (ss + [s])[1..] == ss[1..] + [s];
    }
  }

  lemma {:induction false} EncodeAllSnoc(ss: seq<Sequence>, s: Sequence)
    requires AllEncodable(ss) && Encodable(s)
    ensures AllEncodable(ss + [s])
    ensures EncodeAll(ss + [s]) == EncodeAll(ss) + EncodeSequence(s)
  {
    hide Encodable, EncodeSequence;
    forall i | 0 <= i < |ss + [s]| ensures Encodable((ss + [s])[i]) {
    }
    if ss == [] {
      assert [] + [s] == [s] && [s][1..] == [];
    } else {
      EncodeAllSnoc(ss[1..], s);
      assert (ss + [s])[1..] == ss[1..] + [s];
      assert EncodeSequence(ss[0]) + (EncodeAll(ss[1..]) + EncodeSequence(s))
          == EncodeSequence(ss[0]) + EncodeAll(ss[1..]) + EncodeSequence(s);
    }
  }

  // ----- size of a block

  lemma ExtensionSize(v: nat)
    ensures |Extension(v)| == v / 255 + 1
  {
    if v >= 255 { ExtensionSize(v - 255); }
  }

  lemma TailSize(v: nat)
    ensures |Tail(v)| == if v < RUN_MASK then 0 else (v + 240) / 255
  {
    if v >= RUN_MASK { ExtensionSize(v - RUN_MASK); }
  }

  /** A sequence costs at most what it covers plus one byte per 255 literals. */
  lemma SequenceCost(s: Sequence)
    requires Encodable(s)
    ensures |EncodeSequence(s)| <= Width(s) + |s.literals| / 255
  {
    TailSize(|s.literals|);
    TailSize(s.matchLength - MINMATCH);
  }

  lemma {:induction false} EncodeAllCost(src: seq<byte>, from: nat, ss: seq<Sequence>, to: nat)
    requires Parses(src, from, ss, to) && AllEncodable(ss)
    ensures from <= to
    ensures |EncodeAll(ss)| <= (to - from) + (to - from) / 255
    decreases |ss|
  {
    if ss != [] {
      SequenceCost(ss[0]);
      EncodeAllCost(src, from + Width(ss[0]), ss[1..], to);
    }
  }

  function CompressBound(n: nat): nat {
    if n > MAX_INPUT_SIZE then 0 else n + n / 255 + 16
  }

  /** No parse of `src`, however it was found, encodes to more than n + n/255 + 2 bytes;
      the 14 further bytes of the documented bound are room for over-writing copies. */
  lemma BlockSizeBound(block: seq<byte>, src: seq<byte>)
    requires IsBlockOf(block, src)
    ensures 0 < |block| <= |src| + |src| / 255 + 2
  {
    var ss: seq<Sequence>, to: nat :| IsEncoding(block, src, ss, to);
    EncodeAllCost(src, 0, ss, to);
    TailSize(|src[to..]|);
  }
}
