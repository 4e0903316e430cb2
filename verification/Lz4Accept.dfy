/** What the LZ4 decoder accepts: a parse with looser rules than the format's, stated without the decoder's
    control flow, and blocks that are accepted although no encoder may write them. */
module Lz4Accept {
  import opened Bytes
  import opened Lz4Format
  import opened Lz4Decode

  // ----- lengths

  /** The bytes from `ip` to `next` are a length extension: 255s and a last byte, which may be another 255 only where
      reading stops. */
  ghost predicate RunAt(input: seq<byte>, ip: nat, limit: int, sum: nat, next: nat) {
    && ip < next <= |input|
    && (forall k :: ip <= k < next - 1 ==> input[k] == 255 && k + 1 < limit)
    && (input[next - 1] != 255 || next >= limit)
    && sum == 255 * (next - 1 - ip) + input[next - 1]
  }

  lemma {:induction false} ReadRunIs(input: seq<byte>, ip: nat, limit: int)
    requires ip < |input| && limit <= |input|
    ensures var (v, next, ok) := ReadRun(input, ip, limit); RunAt(input, ip, limit, v, next) && (ok <==> next < limit)
    decreases |input| - ip
  {
    if ip + 1 < limit && input[ip] == 255 {
      ReadRunIs(input, ip + 1, limit);
    }
  }

  lemma RunNotLonger(input: seq<byte>, ip: nat, limit: int, sum: nat, next: nat, sum': nat, next': nat)
    requires RunAt(input, ip, limit, sum, next) && RunAt(input, ip, limit, sum', next')
    ensures next >= next'
  {
    assert next < next' ==> ip <= next - 1 < next' - 1;
  }

  lemma RunUnique(input: seq<byte>, ip: nat, limit: int, sum: nat, next: nat, sum': nat, next': nat)
    requires RunAt(input, ip, limit, sum, next) && RunAt(input, ip, limit, sum', next')
    ensures sum == sum' && next == next'
  {
    RunNotLonger(input, ip, limit, sum, next, sum', next');
    RunNotLonger(input, ip, limit, sum', next', sum, next);
  }

  /** A length is a nibble below 15, or 15 and an extension; sums are taken modulo 2^32. */
  ghost predicate Spells(input: seq<byte>, ip: nat, nibble: nat, limit: int, length: nat, next: nat) {
    if nibble < 15 then length == nibble && next == ip
    else ip < limit && exists sum: nat :: RunAt(input, ip, limit, sum, next) && length == 15 + sum % UINT32_SIZE
  }

  // ----- one sequence

  /** Where the literals of a sequence start, how many they are, the offset, how much is copied, and where the next
      sequence starts. */
  datatype Piece = Piece(lits: nat, length: nat, offset: nat, copy: nat, next: nat)

  /** Room for the shortcut: few literals, far from the end of the input and of the output. */
  predicate Short(input: seq<byte>, start: nat, out: seq<byte>, capacity: nat)
    requires start < |input|
  {
    input[start] / 16 < 15 && start + 1 + 16 < |input| && |out| + 32 <= capacity
  }

  /** Room for the ordinary path: eight bytes of input behind the literals, and twelve of output. */
  predicate Roomy(input: seq<byte>, out: seq<byte>, capacity: nat, p: Piece) {
    p.lits + p.length + 8 <= |input| && |out| + p.length + 12 <= capacity
  }

  /** The sequence at `start` is read as `p`. Only a short match by the shortcut, at a distance of at least eight, need
      not leave five bytes of output. */
  ghost predicate ReadAs(input: seq<byte>, start: nat, out: seq<byte>, capacity: nat, p: Piece) {
    && start < |input| && p.lits + p.length + 2 < |input|
    && Spells(input, start + 1, input[start] / 16, |input| - 15, p.length, p.lits)
    && p.offset == (input[p.lits + p.length] as nat) + 256 * (input[p.lits + p.length + 1] as nat) <= |out| + p.length
    && p.copy >= 4 && Spells(input, p.lits + p.length + 2, input[start] % 16, |input| - 4, p.copy - 4, p.next)
    && (input[start] % 16 == 15 ==> p.next < |input| - 4)
    && (Short(input, start, out, capacity) || Roomy(input, out, capacity, p))
    && (|| (Short(input, start, out, capacity) && input[start] % 16 < 15 && p.offset >= 8)
        || |out| + p.length + p.copy + 5 <= capacity)
  }

  function After(input: seq<byte>, out: seq<byte>, p: Piece): seq<byte>
    requires p.lits + p.length <= |input| && p.offset <= |out| + p.length
  {
    CopyBack(out + input[p.lits..p.lits + p.length], p.offset, p.copy)
  }

  /** The last literals reach to the end of the input. */
  ghost predicate Ends(input: seq<byte>, start: nat, out: seq<byte>, capacity: nat, lits: nat, src: seq<byte>) {
    && start < |input| && lits <= |input|
    && Spells(input, start + 1, input[start] / 16, |input| - 15, |input| - lits, lits)
    && src == out + input[lits..] && |src| <= capacity
  }

  /** The block is read as `ps` and last literals from `lits`, and this gives `src`. */
  ghost predicate Reads(input: seq<byte>, start: nat, out: seq<byte>, capacity: nat, ps: seq<Piece>, lits: nat,
                        src: seq<byte>)
    decreases |ps|
  {
    if ps == [] then Ends(input, start, out, capacity, lits, src)
    else ReadAs(input, start, out, capacity, ps[0])
         && Reads(input, ps[0].next, After(input, out, ps[0]), capacity, ps[1..], lits, src)
  }

  // ----- the decoder accepts exactly this

  /** What the decoder makes of a length. */
  lemma LengthRead(input: seq<byte>, ip: nat, limit: int, length: nat, next: nat)
    requires ip < limit <= |input| && Spells(input, ip, 15, limit, length, next)
    ensures ReadRun(input, ip, limit).1 == next && length == 15 + ReadRun(input, ip, limit).0 % UINT32_SIZE
    ensures ReadRun(input, ip, limit).2 <==> next < limit
  {
    var sum: nat :| RunAt(input, ip, limit, sum, next) && length == 15 + sum % UINT32_SIZE;
    ReadRunIs(input, ip, limit);
    var r := ReadRun(input, ip, limit);
    RunUnique(input, ip, limit, sum, next, r.0, r.1);
  }

  lemma LengthSpelled(input: seq<byte>, ip: nat, limit: int)
    requires ip < limit <= |input|
    ensures var r := ReadRun(input, ip, limit);
      Spells(input, ip, 15, limit, 15 + r.0 % UINT32_SIZE, r.1) && (r.2 <==> r.1 < limit)
  {
    ReadRunIs(input, ip, limit);
  }

  lemma PieceLengths(input: seq<byte>, start: nat, out: seq<byte>, capacity: nat, p: Piece)
    requires ReadAs(input, start, out, capacity, p)
    ensures var ip, at := start + 1, p.lits + p.length + 2;
      && (if input[start] / 16 < 15 then p.length == input[start] / 16 && p.lits == ip
          else ip < |input| - 15 && ReadRun(input, ip, |input| - 15).1 == p.lits
               && p.length == 15 + ReadRun(input, ip, |input| - 15).0 % UINT32_SIZE)
      && (if input[start] % 16 < 15 then p.copy == 4 + input[start] % 16 && p.next == at
          else at < |input| - 4 && ReadRun(input, at, |input| - 4).1 == p.next && ReadRun(input, at, |input| - 4).2
               && p.copy == 4 + 15 + ReadRun(input, at, |input| - 4).0 % UINT32_SIZE)
  {
    if input[start] / 16 == 15 {
      LengthRead(input, start + 1, |input| - 15, p.length, p.lits);
    }
    if input[start] % 16 == 15 {
      LengthRead(input, p.lits + p.length + 2, |input| - 4, p.copy - 4, p.next);
    }
    hide ReadRun, RunAt;
  }

  /** What the decoder makes of an offset and a length that it can read. */
  lemma MatchRead(input: seq<byte>, ip: nat, out: seq<byte>, capacity: nat, code: nat, shortcut: bool, offset: nat,
                  copy: nat, next: nat)
    requires code < 16 && ip + 2 < |input|
    requires offset == (input[ip] as nat) + 256 * (input[ip + 1] as nat) <= |out|
    requires if code < 15 then copy == 4 + code && next == ip + 2
             else var r := ReadRun(input, ip + 2, |input| - 4); r.1 == next && r.2 && copy == 4 + 15 + r.0 % UINT32_SIZE
    requires (shortcut && code < 15 && offset >= 8) || |out| + copy + 5 <= capacity
    ensures MatchStep(input, ip, out, capacity, code, shortcut) == Continue(next, CopyBack(out, offset, copy))
  {
    hide ReadRun, CopyBack;
  }

  lemma MatchOfPiece(input: seq<byte>, start: nat, out: seq<byte>, capacity: nat, p: Piece)
    requires ReadAs(input, start, out, capacity, p)
    ensures var written := out + input[p.lits..p.lits + p.length];
      MatchStep(input, p.lits + p.length, written, capacity, input[start] % 16, Short(input, start, out, capacity))
      == Continue(p.next, After(input, out, p))
  {
    PieceLengths(input, start, out, capacity, p);
    hide Spells, ReadRun, RunAt, CopyBack, Short, Roomy, MatchStep;
    MatchRead(input, p.lits + p.length, out + input[p.lits..p.lits + p.length], capacity, input[start] % 16,
              Short(input, start, out, capacity), p.offset, p.copy, p.next);
  }

  /** The two ways into a sequence, as the step unfolds. */
  lemma StepByShortcut(input: seq<byte>, start: nat, out: seq<byte>, capacity: nat)
    requires start < |input| && Short(input, start, out, capacity)
    ensures var lits, length := start + 1, input[start] / 16;
      DecodeStep(input, start, out, capacity)
      == MatchStep(input, lits + length, out + input[lits..lits + length], capacity, input[start] % 16, true)
  {
    hide MatchStep, LiteralStep, ReadRun;
  }

  lemma StepByLiterals(input: seq<byte>, start: nat, out: seq<byte>, capacity: nat, lits: nat, length: nat)
    requires start < |input| && !Short(input, start, out, capacity) && lits <= |input|
    requires if input[start] / 16 < 15 then length == input[start] / 16 && lits == start + 1
             else start + 1 < |input| - 15 && ReadRun(input, start + 1, |input| - 15).1 == lits
                  && length == 15 + ReadRun(input, start + 1, |input| - 15).0 % UINT32_SIZE
    ensures DecodeStep(input, start, out, capacity)
            == LiteralStep(input, lits, out, capacity, length, input[start] % 16)
  {
    hide MatchStep, LiteralStep, ReadRun;
  }

  lemma LiteralsThenMatch(input: seq<byte>, out: seq<byte>, capacity: nat, lits: nat, length: nat, code: nat)
    requires lits + length + 8 <= |input| && |out| + length + 12 <= capacity && code < 16
    ensures LiteralStep(input, lits, out, capacity, length, code)
         == MatchStep(input, lits + length, out + input[lits..lits + length], capacity, code, false)
  {
    hide MatchStep;
  }

  /** Where the parts of a piece lie, and the room that there is for them. */
  lemma PieceRoom(input: seq<byte>, start: nat, out: seq<byte>, capacity: nat, p: Piece)
    requires ReadAs(input, start, out, capacity, p)
    ensures start < |input| && p.lits + p.length + 2 < |input| && p.offset <= |out| + p.length
    ensures Short(input, start, out, capacity) ==> p.lits == start + 1 && p.length == input[start] / 16
    ensures !Short(input, start, out, capacity) ==>
              p.lits + p.length + 8 <= |input| && |out| + p.length + 12 <= capacity
  {
    PieceLengths(input, start, out, capacity, p);
    hide Spells, ReadRun;
  }

  lemma StepOfPiece(input: seq<byte>, start: nat, out: seq<byte>, capacity: nat, p: Piece)
    requires ReadAs(input, start, out, capacity, p)
    ensures DecodeStep(input, start, out, capacity) == Continue(p.next, After(input, out, p))
  {
    PieceLengths(input, start, out, capacity, p);
    PieceRoom(input, start, out, capacity, p);
    MatchOfPiece(input, start, out, capacity, p);
    hide *;
    if Short(input, start, out, capacity) {
      StepByShortcut(input, start, out, capacity);
    } else {
      StepByLiterals(input, start, out, capacity, p.lits, p.length);
      LiteralsThenMatch(input, out, capacity, p.lits, p.length, input[start] % 16);
    }
  }

  /** When the match step goes on, the offset and the length were as these rules say. */
  lemma ReadOfMatch(input: seq<byte>, ip: nat, out: seq<byte>, capacity: nat, code: nat, shortcut: bool)
    returns (offset: nat, copy: nat, next: nat)
    requires code < 16 && ip + 2 < |input| && MatchStep(input, ip, out, capacity, code, shortcut).Continue?
    ensures offset == (input[ip] as nat) + 256 * (input[ip + 1] as nat) <= |out|
    ensures copy >= 4 && Spells(input, ip + 2, code, |input| - 4, copy - 4, next)
    ensures code == 15 ==> next < |input| - 4
    ensures (shortcut && code < 15 && offset >= 8) || |out| + copy + 5 <= capacity
  {
    offset, copy, next := (input[ip] as nat) + 256 * (input[ip + 1] as nat), 4 + code, ip + 2;
    if code == 15 {
      var r := ReadRun(input, ip + 2, |input| - 4);
      LastRun(input, ip + 2, |input| - 4);
      LengthSpelled(input, ip + 2, |input| - 4);
      copy, next := 4 + 15 + r.0 % UINT32_SIZE, r.1;
    }
    hide ReadRun, CopyBack, RunAt;
  }

  /** A run that ends below its limit begins below it. */
  lemma LastRun(input: seq<byte>, ip: nat, limit: int)
    requires ip < |input| && limit <= |input| && ReadRun(input, ip, limit).2
    ensures ip < limit
  {
  }

  lemma PieceOfMatch(input: seq<byte>, start: nat, out: seq<byte>, capacity: nat, lits: nat, length: nat)
    returns (p: Piece)
    requires start < |input| && lits + length + 2 < |input|
    requires Spells(input, start + 1, input[start] / 16, |input| - 15, length, lits)
    requires Short(input, start, out, capacity) || (lits + length + 8 <= |input| && |out| + length + 12 <= capacity)
    requires MatchStep(input, lits + length, out + input[lits..lits + length], capacity, input[start] % 16,
                       Short(input, start, out, capacity)).Continue?
    ensures ReadAs(input, start, out, capacity, p) && p.lits == lits && p.length == length
  {
    hide Spells, Short, MatchStep;
    var offset, copy, next := ReadOfMatch(input, lits + length, out + input[lits..lits + length], capacity,
                                          input[start] % 16, Short(input, start, out, capacity));
    p := Piece(lits, length, offset, copy, next);
  }

  lemma PieceOfStep(input: seq<byte>, start: nat, out: seq<byte>, capacity: nat) returns (p: Piece)
    requires start < |input| && DecodeStep(input, start, out, capacity).Continue?
    ensures ReadAs(input, start, out, capacity, p)
  {
    var lits, length := start + 1, input[start] / 16;
    if length == 15 {
      LengthSpelled(input, start + 1, |input| - 15);
      var r := ReadRun(input, start + 1, |input| - 15);
      lits, length := r.1, 15 + r.0 % UINT32_SIZE;
    } else {
      assert Spells(input, start + 1, length, |input| - 15, length, lits);
    }
    hide Spells, ReadRun, MatchStep, ReadAs;
    p := PieceOfMatch(input, start, out, capacity, lits, length);
  }

  lemma FinishOfEnd(input: seq<byte>, start: nat, out: seq<byte>, capacity: nat, lits: nat, src: seq<byte>)
    requires Ends(input, start, out, capacity, lits, src)
    ensures DecodeStep(input, start, out, capacity) == Finish(src)
  {
    if input[start] / 16 == 15 {
      LengthRead(input, start + 1, |input| - 15, |input| - lits, lits);
    }
    hide Spells, ReadRun, MatchStep;
  }

  lemma EndOfFinish(input: seq<byte>, start: nat, out: seq<byte>, capacity: nat) returns (lits: nat)
    requires start < |input| && DecodeStep(input, start, out, capacity).Finish?
    ensures Ends(input, start, out, capacity, lits, DecodeStep(input, start, out, capacity).out)
  {
    lits := start + 1;
    if input[start] / 16 == 15 {
      LengthSpelled(input, start + 1, |input| - 15);
      lits := ReadRun(input, start + 1, |input| - 15).1;
    }
    hide ReadRun, MatchStep, RunAt;
  }

  lemma {:induction false} DecodeOfReads(input: seq<byte>, start: nat, out: seq<byte>, capacity: nat, ps: seq<Piece>,
                                         lits: nat, src: seq<byte>)
    requires start < |input| && |out| <= capacity && Reads(input, start, out, capacity, ps, lits, src)
    ensures DecodeFrom(input, start, out, capacity) == Data(src)
    decreases |ps|
  {
    StepProgress(input, start, out, capacity);
    hide DecodeStep, ReadAs, Ends;
    if ps == [] {
      FinishOfEnd(input, start, out, capacity, lits, src);
    } else {
      StepOfPiece(input, start, out, capacity, ps[0]);
      DecodeOfReads(input, ps[0].next, After(input, out, ps[0]), capacity, ps[1..], lits, src);
    }
  }

  lemma {:induction false} ReadsOfDecode(input: seq<byte>, start: nat, out: seq<byte>, capacity: nat)
    returns (ps: seq<Piece>, lits: nat)
    requires start < |input| && |out| <= capacity && DecodeFrom(input, start, out, capacity).Data?
    ensures Reads(input, start, out, capacity, ps, lits, DecodeFrom(input, start, out, capacity).out)
    decreases |input| - start
  {
    StepProgress(input, start, out, capacity);
    hide DecodeStep, ReadAs, Ends;
    match DecodeStep(input, start, out, capacity)
    case Finish(all) =>
      ps := [];
      lits := EndOfFinish(input, start, out, capacity);
    case Continue(next, more) =>
      var p := PieceOfStep(input, start, out, capacity);
      StepOfPiece(input, start, out, capacity, p);
      var rest;
      rest, lits := ReadsOfDecode(input, next, more, capacity);
      ps := [p] + rest;
      assert ps[1..] == rest;
  }

  /** A block decodes to `src` if and only if it can be read as sequences and last literals by these rules that give
      `src`; without capacity, only the block of nothing does. */
  lemma AcceptsIff(input: seq<byte>, capacity: nat, src: seq<byte>)
    ensures Decode(input, capacity) == Data(src)
            <==> if capacity == 0 then input == [0] && src == []
                 else exists ps: seq<Piece>, lits: nat :: Reads(input, 0, [], capacity, ps, lits, src)
  {
    hide DecodeFrom, Reads;
    if capacity > 0 {
      if Decode(input, capacity) == Data(src) {
        var ps, lits := ReadsOfDecode(input, 0, [], capacity);
        assert Reads(input, 0, [], capacity, ps, lits, src);
      }
      if ps: seq<Piece>, lits: nat :| Reads(input, 0, [], capacity, ps, lits, src) {
        ReadsSomething(input, 0, [], capacity, ps, lits, src);
        DecodeOfReads(input, 0, [], capacity, ps, lits, src);
      }
    }
  }

  lemma ReadsSomething(input: seq<byte>, start: nat, out: seq<byte>, capacity: nat, ps: seq<Piece>, lits: nat,
                       src: seq<byte>)
    requires Reads(input, start, out, capacity, ps, lits, src)
    ensures start < |input|
  {
  }

  // ----- what no encoder may write

  /** Fourteen literals, a match of four bytes at a distance of eight, and no last literals. */
  function MatchAtEnd(): seq<byte> { [0xE0] + seq(14, _ => 1) + [8, 0] + [0] }

  lemma MatchAtEndReads(capacity: nat)
    requires capacity >= 32
    ensures Reads(MatchAtEnd(), 0, [], capacity, [Piece(1, 14, 8, 4, 17)], 18, seq(18, _ => 1))
  {
    var input, p, src := MatchAtEnd(), Piece(1, 14, 8, 4, 17), seq(18, _ => 1);
    assert |input| == 18 && input[0] == 0xE0 && input[15] == 8 && input[16] == 0 && input[17] == 0;
    assert input[1..15] == seq(14, _ => 1);
    assert ReadAs(input, 0, [], capacity, p);
    assert After(input, [], p) == src;
    assert Ends(input, 17, src, capacity, 18, src) by {
      assert src + input[18..] == src;
    }
    assert [p][1..] == [];
    assert Reads(input, 17, src, capacity, [], 18, src);
  }

  /** With a sequence in it, a block ends in five bytes of what it stands for. */
  lemma LastByte(block: seq<byte>, src: seq<byte>, ss: seq<Sequence>, to: nat)
    requires IsEncoding(block, src, ss, to) && ss != []
    ensures |block| > 0 && |src| > 0 && block[|block| - 1] == src[|src| - 1]
  {
    ParsesEncodable(src, 0, ss, to);
    hide *;
    var all, last := EncodeAll(ss), EncodeLast(src[to..]);
    LastOfLast(src[to..]);
    EncodingParts(block, src, ss, to);
    assert (all + last)[|all| + |last| - 1] == last[|last| - 1];
  }

  lemma EncodingParts(block: seq<byte>, src: seq<byte>, ss: seq<Sequence>, to: nat)
    requires IsEncoding(block, src, ss, to)
    ensures AllEncodable(ss) && to <= |src| && block == EncodeAll(ss) + EncodeLast(src[to..])
  {
    hide EncodeAll, EncodeLast;
  }

  lemma LastOfLast(literals: seq<byte>)
    requires literals != []
    ensures EncodeLast(literals) != [] && EncodeLast(literals)[|EncodeLast(literals)| - 1] == literals[|literals| - 1]
  {
    hide Tail;
  }

  /** Without a sequence, it starts with a token for all its literals. */
  lemma FirstByte(block: seq<byte>, src: seq<byte>, to: nat)
    requires IsEncoding(block, src, [], to)
    ensures block != [] && block[0] == 16 * Nibble(|src|)
  {
    assert src[0..] == src;
    hide Tail;
  }

  /** By the shortcut the decoder accepts a block whose last bytes are not literals; by the format it is not a block of
      the bytes that come out. */
  lemma ShortcutAccepts(capacity: nat)
    requires capacity >= 32
    ensures Decode(MatchAtEnd(), capacity) == Data(seq(18, _ => 1)) && !IsBlockOf(MatchAtEnd(), seq(18, _ => 1))
  {
    var block, src: seq<byte> := MatchAtEnd(), seq(18, _ => 1);
    MatchAtEndReads(capacity);
    AcceptsIff(block, capacity, src);
    assert |block| == 18 && block[0] == 0xE0 && block[17] == 0;
    hide *;
    NibbleOf(18);
    forall ss: seq<Sequence>, to: nat ensures !IsEncoding(block, src, ss, to) {
      if IsEncoding(block, src, ss, to) {
        if ss != [] {
          LastByte(block, src, ss, to);
        } else {
          FirstByte(block, src, to);
        }
      }
    }
    NoEncoding(block, src);
  }

  lemma NibbleOf(v: nat)
    requires v >= 15
    ensures Nibble(v) == 15
  {
  }

  lemma NoEncoding(block: seq<byte>, src: seq<byte>)
    requires forall ss: seq<Sequence>, to: nat :: !IsEncoding(block, src, ss, to)
    ensures !IsBlockOf(block, src)
  {
    hide IsEncoding;
  }

  /** An offset of zero puts out zeros. */
  lemma ZeroOffset(input: seq<byte>, start: nat, out: seq<byte>, capacity: nat, p: Piece)
    requires ReadAs(input, start, out, capacity, p) && p.offset == 0
    ensures After(input, out, p) == out + input[p.lits..p.lits + p.length] + seq(p.copy, _ => 0)
  {
  }

  /** The error of a literal length that runs into its limit is ignored: here fifteen literals and the last byte of
      their length fill the input to the end. */
  lemma LimitIgnored(capacity: nat)
    requires capacity >= 15
    ensures var input := [0xF0, 0] + seq(15, _ => 7);
      !ReadRun(input, 1, |input| - 15).2 && Decode(input, capacity) == Data(seq(15, _ => 7))
  {
    var input: seq<byte> := [0xF0, 0] + seq(15, _ => 7);
    assert input[2..] == seq(15, _ => 7);
    assert [] + input[2..] == input[2..];
  }
}
