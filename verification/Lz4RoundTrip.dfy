/** Decoding undoes encoding, for every parse that keeps the end-of-block restrictions. */
module Lz4RoundTrip {
  import opened Bytes
  import opened Lz4Format
  import opened Lz4Decode
  import opened Arith

  // ----- reading back a length

  lemma {:induction false} ReadRunExtension(input: seq<byte>, ip: nat, v: nat, limit: int)
    requires limit <= |input| && ip + |Extension(v)| <= limit
    requires input[ip..ip + |Extension(v)|] == Extension(v)
    ensures ReadRun(input, ip, limit) == (v, ip + |Extension(v)|, ip + |Extension(v)| < limit)
    decreases v
  {
    var n := |Extension(v)|;
    assert input[ip] == input[ip..ip + n][0];
    if v >= 255 {
      assert input[ip + 1..ip + n] == input[ip..ip + n][1..];
      ReadRunExtension(input, ip + 1, v - 255, limit);
    }
  }

  // ----- reading back a copy

  lemma SliceAt(src: seq<byte>, a: nat, b: nat, n: nat, k: nat)
    requires a + n <= |src| && b + n <= |src| && k < n && src[a..a + n] == src[b..b + n]
    ensures src[a + k] == src[b + k]
  {
    assert src[a..a + n][k] == src[b..b + n][k];
  }

  /** A stretch that equals itself `offset` earlier continues what precedes it periodically. */
  lemma {:induction false} RepetitionIsPeriodic(src: seq<byte>, start: nat, offset: nat, n: nat, k: nat)
    requires 1 <= offset <= start && start + n <= |src| && k < n
    requires src[start..start + n] == src[start - offset..start - offset + n]
    ensures src[start + k] == src[start - offset + k % offset]
  {
    SliceAt(src, start, start - offset, n, k);
    if k >= offset {
      RepetitionIsPeriodic(src, start, offset, n, k - offset);
      ModShift(k, offset, -1);
      assert k + offset * -1 == k - offset;
      assert (k - offset) % offset == k % offset;
    } else {
      DivModUnique(k, offset, 0, k);
      assert k % offset == k;
    }
  }

  lemma RepetitionIsCopy(src: seq<byte>, start: nat, offset: nat, n: nat)
    requires 1 <= offset <= start && start + n <= |src|
    requires src[start..start + n] == src[start - offset..start - offset + n]
    ensures src[..start + n] == CopyBack(src[..start], offset, n)
  {
    var copy := CopyBack(src[..start], offset, n);
    forall i | 0 <= i < start + n ensures src[..start + n][i] == copy[i] {
      if i >= start {
        RepetitionIsPeriodic(src, start, offset, n, i - start);
        assert copy[i] == Periodic(src[..start], offset, i - start);
      }
    }
  }

  // ----- reading back a sequence

  lemma Front(input: seq<byte>, ip: nat, a: seq<byte>, rest: seq<byte>)
    requires ip <= |input| && input[ip..] == a + rest
    ensures ip + |a| <= |input| && input[ip..ip + |a|] == a && input[ip + |a|..] == rest
  {
    assert input[ip..ip + |a|] == input[ip..][..|a|];
    assert input[ip + |a|..] == input[ip..][|a|..];
  }

  lemma Reassociate(a: seq<byte>, b: seq<byte>, c: seq<byte>)
    ensures a + b + c == a + (b + c)
  {
  }

  lemma FiveParts(input: seq<byte>, ip: nat, a: seq<byte>, b: seq<byte>, c: seq<byte>, d: seq<byte>, e: seq<byte>,
                  rest: seq<byte>)
    requires ip <= |input| && input[ip..] == a + b + c + d + e + rest
    ensures ip + |a| + |b| + |c| + |d| + |e| <= |input|
    ensures input[ip..ip + |a|] == a
    ensures input[ip + |a|..ip + |a| + |b|] == b
    ensures input[ip + |a| + |b|..ip + |a| + |b| + |c|] == c
    ensures input[ip + |a| + |b| + |c|..ip + |a| + |b| + |c| + |d|] == d
    ensures input[ip + |a| + |b| + |c| + |d|..ip + |a| + |b| + |c| + |d| + |e|] == e
  {
    Reassociate(a + b + c + d, e, rest);
    Reassociate(a + b + c, d, e + rest);
    Reassociate(a + b, c, d + (e + rest));
    Reassociate(a, b, c + (d + (e + rest)));
    Front(input, ip, a, b + (c + (d + (e + rest))));
    Front(input, ip + |a|, b, c + (d + (e + rest)));
    Front(input, ip + |a| + |b|, c, d + (e + rest));
    Front(input, ip + |a| + |b| + |c|, d, e + rest);
    Front(input, ip + |a| + |b| + |c| + |d|, e, rest);
  }

  /** Where the parts of an encoded sequence lie. */
  ghost predicate LaidOut(input: seq<byte>, ip: nat, s: Sequence)
    requires Encodable(s)
  {
    var l, m := |s.literals|, s.matchLength - MINMATCH;
    var t, u := |Tail(l)|, |Tail(m)|;
    && ip + 1 + t + l + 2 + u <= |input|
    && input[ip] == Token(l, m)
    && input[ip + 1..ip + 1 + t] == Tail(l)
    && input[ip + 1 + t..ip + 1 + t + l] == s.literals
    && input[ip + 1 + t + l] == s.offset % 256 && input[ip + 2 + t + l] == s.offset / 256
    && input[ip + 3 + t + l..ip + 3 + t + l + u] == Tail(m)
  }

  lemma EncodedIsLaidOut(input: seq<byte>, ip: nat, s: Sequence, rest: seq<byte>)
    requires Encodable(s) && ip <= |input| && input[ip..] == EncodeSequence(s) + rest
    ensures LaidOut(input, ip, s)
  {
    hide Tail, Token;
    var l, m := |s.literals|, s.matchLength - MINMATCH;
    FiveParts(input, ip, [Token(l, m)], Tail(l), s.literals, LE16(s.offset), Tail(m), rest);
    var at := ip + 1 + |Tail(l)| + l;
    assert input[ip] == input[ip..ip + 1][0];
    assert input[at] == input[at..at + 2][0] && input[at + 1] == input[at..at + 2][1];
  }

  lemma TokenParts(l: nat, m: nat)
    ensures Token(l, m) / 16 == Nibble(l) && Token(l, m) % 16 == Nibble(m)
  {
  }

  /** From the offset on, when the sequence fits and leaves room for the last literals. */
  lemma MatchStepReads(input: seq<byte>, ip: nat, src: seq<byte>, start: nat, s: Sequence, capacity: nat,
                       shortcut: bool)
    requires Encodable(s) && |src| <= capacity && |src| <= MAX_INPUT_SIZE
    requires 1 <= s.offset <= start && start + s.matchLength + LASTLITERALS <= |src|
    requires src[start..start + s.matchLength] == src[start - s.offset..start - s.offset + s.matchLength]
    requires ip + 2 + |Tail(s.matchLength - MINMATCH)| + 6 <= |input|
    requires input[ip] == s.offset % 256 && input[ip + 1] == s.offset / 256
    requires input[ip + 2..ip + 2 + |Tail(s.matchLength - MINMATCH)|] == Tail(s.matchLength - MINMATCH)
    ensures MatchStep(input, ip, src[..start], capacity, Nibble(s.matchLength - MINMATCH), shortcut)
         == Continue(ip + 2 + |Tail(s.matchLength - MINMATCH)|, src[..start + s.matchLength])
  {
    hide CopyBack;
    var m := s.matchLength - MINMATCH;
    RepetitionIsCopy(src, start, s.offset, s.matchLength);
    if m >= ML_MASK {
      ReadRunExtension(input, ip + 2, m - ML_MASK, |input| - LASTLITERALS + 1);
    }
  }

  // The three ways a step can begin.

  lemma StepByShortcut(input: seq<byte>, start: nat, out: seq<byte>, capacity: nat, literals: nat, code: nat)
    requires start < |input| && input[start] / 16 == literals && input[start] % 16 == code
    requires Shortcut(input, start + 1, literals, |out|, capacity)
    ensures DecodeStep(input, start, out, capacity)
         == MatchStep(input, start + 1 + literals, out + input[start + 1..start + 1 + literals], capacity, code, true)
  {
  }

  lemma StepByNibble(input: seq<byte>, start: nat, out: seq<byte>, capacity: nat, literals: nat, code: nat)
    requires start < |input| && input[start] / 16 == literals < RUN_MASK && input[start] % 16 == code
    requires !Shortcut(input, start + 1, literals, |out|, capacity)
    ensures DecodeStep(input, start, out, capacity) == LiteralStep(input, start + 1, out, capacity, literals, code)
  {
  }

  lemma StepByRun(input: seq<byte>, start: nat, out: seq<byte>, capacity: nat, v: nat, next: nat, code: nat)
    requires start < |input| && input[start] / 16 == RUN_MASK && input[start] % 16 == code
    requires start + 1 < |input| - RUN_MASK && v < UINT32_SIZE && next <= |input|
    requires ReadRun(input, start + 1, |input| - RUN_MASK).0 == v
             && ReadRun(input, start + 1, |input| - RUN_MASK).1 == next
    ensures DecodeStep(input, start, out, capacity) == LiteralStep(input, next, out, capacity, RUN_MASK + v, code)
  {
    hide LiteralStep, MatchStep, ReadRun;
  }

  lemma LiteralsReachMatch(input: seq<byte>, ip: nat, out: seq<byte>, capacity: nat, length: nat, code: nat)
    requires ip + length + 2 + 1 + LASTLITERALS <= |input| && |out| + length + MFLIMIT <= capacity && code < 16
    ensures LiteralStep(input, ip, out, capacity, length, code)
         == MatchStep(input, ip + length, out + input[ip..ip + length], capacity, code, false)
  {
  }

  /** However it begins, a step on a token for `length` literals continues at the offset, if the
      literals end far enough from both ends. */
  lemma StepReachesMatch(input: seq<byte>, start: nat, out: seq<byte>, capacity: nat, length: nat, code: nat)
    returns (shortcut: bool)
    requires start < |input| && input[start] / 16 == Nibble(length) && input[start] % 16 == code
    requires start + 1 + |Tail(length)| + length + 2 + 1 + LASTLITERALS <= |input|
    requires input[start + 1..start + 1 + |Tail(length)|] == Tail(length)
    requires |out| + length + MFLIMIT <= capacity && length < UINT32_SIZE
    ensures var ip := start + 1 + |Tail(length)|;
            DecodeStep(input, start, out, capacity)
            == MatchStep(input, ip + length, out + input[ip..ip + length], capacity, code, shortcut)
  {
    hide DecodeStep, MatchStep, LiteralStep;
    shortcut := Shortcut(input, start + 1, Nibble(length), |out|, capacity);
    if length >= RUN_MASK {
      ReadRunExtension(input, start + 1, length - RUN_MASK, |input| - RUN_MASK);
      StepByRun(input, start, out, capacity, length - RUN_MASK, start + 1 + |Tail(length)|, code);
      LiteralsReachMatch(input, start + 1 + |Tail(length)|, out, capacity, length, code);
    } else if shortcut {
      StepByShortcut(input, start, out, capacity, length, code);
    } else {
      StepByNibble(input, start, out, capacity, length, code);
      LiteralsReachMatch(input, start + 1, out, capacity, length, code);
    }
  }

  lemma {:induction false} StepReadsSequence(input: seq<byte>, ip: nat, src: seq<byte>, pos: nat, s: Sequence,
                                             rest: seq<byte>, capacity: nat)
    requires Describes(src, pos, s) && |src| <= capacity && |src| <= MAX_INPUT_SIZE
    requires ip < |input| && input[ip..] == EncodeSequence(s) + rest && |rest| >= 6
    ensures DecodeStep(input, ip, src[..pos], capacity)
         == Continue(ip + |EncodeSequence(s)|, src[..pos + Width(s)])
  {
    EncodedIsLaidOut(input, ip, s, rest);
    assert |input| == ip + |EncodeSequence(s)| + |rest|;
    StepReadsLaidOut(input, ip, src, pos, s, capacity);
  }

  lemma SequenceSize(s: Sequence)
    requires Encodable(s)
    ensures |EncodeSequence(s)| == 1 + |Tail(|s.literals|)| + |s.literals| + 2 + |Tail(s.matchLength - MINMATCH)|
  {
  }

  lemma LastSize(literals: seq<byte>)
    ensures |EncodeLast(literals)| == 1 + |Tail(|literals|)| + |literals|
  {
  }

  lemma StepReadsLaidOut(input: seq<byte>, ip: nat, src: seq<byte>, pos: nat, s: Sequence, capacity: nat)
    requires Describes(src, pos, s) && |src| <= capacity && |src| <= MAX_INPUT_SIZE
    requires LaidOut(input, ip, s) && ip + |EncodeSequence(s)| + 6 <= |input|
    ensures DecodeStep(input, ip, src[..pos], capacity)
         == Continue(ip + |EncodeSequence(s)|, src[..pos + Width(s)])
  {
    hide DecodeStep, MatchStep, LiteralStep, EncodeSequence, Tail, Token, Nibble;
    SequenceSize(s);
    var l, m := |s.literals|, s.matchLength - MINMATCH;
    TokenParts(l, m);
    var at := ip + 1 + |Tail(l)|;
    var shortcut := StepReachesMatch(input, ip, src[..pos], capacity, l, Nibble(m));
    assert src[..pos] + input[at..at + l] == src[..pos + l];
    MatchStepReads(input, at + l, src, pos + l, s, capacity, shortcut);
  }

  lemma LastParts(lits: seq<byte>)
    ensures EncodeLast(lits) == [Token(|lits|, 0)] + (Tail(|lits|) + lits)
  {
    hide Token, Tail;
  }

  lemma StepReadsLast(input: seq<byte>, ip: nat, src: seq<byte>, pos: nat, capacity: nat)
    requires pos <= |src| <= capacity && |src| <= MAX_INPUT_SIZE
    requires ip < |input| && input[ip..] == EncodeLast(src[pos..])
    ensures DecodeStep(input, ip, src[..pos], capacity) == Finish(src)
  {
    hide *;
    var lits := src[pos..];
    var l := |src| - pos;
    TokenParts(l, 0);
    NoNibble();
    LastParts(lits);
    Front(input, ip, [Token(l, 0)], Tail(l) + lits);
    assert input[ip] == input[ip..ip + 1][0];
    Front(input, ip + 1, Tail(l), lits);
    LastStep(input, ip, src, pos, capacity);
  }

  lemma NoNibble()
    ensures Nibble(0) == 0
  {
  }

  lemma LastIsNoShortcut(input: seq<byte>, ip: nat, literals: nat, written: nat, capacity: nat)
    requires literals < RUN_MASK && |input| <= ip + literals
    ensures !Shortcut(input, ip, literals, written, capacity)
  {
  }

  lemma LastStep(input: seq<byte>, ip: nat, src: seq<byte>, pos: nat, capacity: nat)
    requires pos <= |src| <= capacity && |src| <= MAX_INPUT_SIZE
    requires ip + 1 + |Tail(|src| - pos)| <= |input|
    requires input[ip] / 16 == Nibble(|src| - pos) && input[ip] % 16 == 0
    requires input[ip + 1..ip + 1 + |Tail(|src| - pos)|] == Tail(|src| - pos)
    requires input[ip + 1 + |Tail(|src| - pos)|..] == src[pos..]
    ensures DecodeStep(input, ip, src[..pos], capacity) == Finish(src)
  {
    hide DecodeStep, MatchStep, LiteralStep, Extension, Shortcut;
    var l := |src| - pos;
    var at := ip + 1 + |Tail(l)|;
    assert |input[at..]| == l;
    if l >= RUN_MASK {
      ReadRunExtension(input, ip + 1, l - RUN_MASK, |input| - RUN_MASK);
      StepByRun(input, ip, src[..pos], capacity, l - RUN_MASK, at, 0);
    } else {
      LastIsNoShortcut(input, ip + 1, l, pos, capacity);
      StepByNibble(input, ip, src[..pos], capacity, l, 0);
    }
    LiteralsFinish(input, at, src, pos, capacity);
  }

  lemma LiteralsFinish(input: seq<byte>, ip: nat, src: seq<byte>, pos: nat, capacity: nat)
    requires pos <= |src| <= capacity && ip <= |input| && input[ip..] == src[pos..]
    ensures LiteralStep(input, ip, src[..pos], capacity, |src| - pos, 0) == Finish(src)
  {
    assert |input[ip..]| == |src| - pos;
    assert src[..pos] + src[pos..] == src;
  }

  // ----- reading back a block

  lemma {:induction false} DecodeParse(input: seq<byte>, ip: nat, src: seq<byte>, pos: nat, ss: seq<Sequence>, to: nat,
                                       capacity: nat)
    requires Parses(src, pos, ss, to) && AllEncodable(ss)
    requires pos <= to <= |src| <= capacity && |src| <= MAX_INPUT_SIZE
    requires ip < |input| && input[ip..] == EncodeAll(ss) + EncodeLast(src[to..])
    ensures DecodeFrom(input, ip, src[..pos], capacity) == Data(src)
    decreases |ss|
  {
    hide DecodeStep, EncodeSequence, EncodeLast, Describes;
    var last := EncodeLast(src[to..]);
    if ss == [] {
      assert input[ip..] == last;
      StepReadsLast(input, ip, src, pos, capacity);
    } else {
      var s := ss[0];
      var rest := EncodeAll(ss[1..]) + last;
      ParsesEncodable(src, pos, ss, to);
      ParsesEncodable(src, pos + Width(s), ss[1..], to);
      LastSize(src[to..]);
      assert input[ip..] == EncodeSequence(s) + rest;
      StepReadsSequence(input, ip, src, pos, s, rest, capacity);
      var next := ip + |EncodeSequence(s)|;
      assert input[next..] == input[ip..][|EncodeSequence(s)|..] == rest;
      DecodeParse(input, next, src, pos + Width(s), ss[1..], to, capacity);
    }
  }

  /** The round trip: every encoding of `src`, whatever parse it is of, decodes to `src` in any
      output of at least its size. */
  lemma RoundTrip(block: seq<byte>, src: seq<byte>, capacity: nat)
    requires IsBlockOf(block, src) && |src| <= capacity && |src| <= MAX_INPUT_SIZE
    ensures capacity > 0 || |src| == 0
    ensures Decode(block, capacity) == Data(src)
  {
    hide DecodeStep, DecodeFrom;
    var ss: seq<Sequence>, to: nat :| IsEncoding(block, src, ss, to);
    if capacity == 0 {
      if ss != [] { ParsesEncodable(src, 0, ss, to); assert false; }
      assert block == EncodeLast(src[to..]) == [0];
    } else {
      BlockSizeBound(block, src);
      assert block[0..] == block && src[..0] == [];
      DecodeParse(block, 0, src, 0, ss, to, capacity);
    }
  }
}
