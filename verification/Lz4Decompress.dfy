/** `LZ4_decompress_safe`: the decoding loop over an output array. Every read and write is shown
    to stay inside the two buffers, for every input, and the copies in groups of eight bytes to
    give what copying one byte at a time would. */
module Lz4Decompress {
  import opened Bytes
  import opened Arith
  import opened Lz4Format
  import opened Lz4Decode

  // ----- overlapping copies

  /** A copy of `w` bytes from `distance` back continues the period `offset`. */
  ghost predicate KeepsPeriod(offset: nat, n: nat, distance: nat, w: nat) {
    w <= distance && if offset == 0 then distance <= n else distance % offset == 0 && distance <= n + offset
  }

  lemma CopyBackAt(out: seq<byte>, offset: nat, n: nat, j: int)
    requires 0 < offset <= |out| && 0 <= j + offset && j < n
    ensures CopyBack(out, offset, n)[|out| + j] == Periodic(out, offset, j)
  {
    if j < 0 { DivModUnique(j, offset, -1, j + offset); }
  }

  lemma CopyBackLater(out: seq<byte>, offset: nat, n: nat, distance: nat, w: nat, i: nat)
    requires offset <= |out| && KeepsPeriod(offset, n, distance, w) && distance <= |out| + n
    requires n <= i < n + w
    ensures CopyBack(out, offset, n + w)[|out| + i] == CopyBack(out, offset, n)[|out| + i - distance]
  {
    if offset > 0 {
      PeriodicLater(out, offset, n, distance, w, i);
    }
  }

  lemma PeriodicLater(out: seq<byte>, offset: nat, n: nat, distance: nat, w: nat, i: nat)
    requires 0 < offset <= |out| && KeepsPeriod(offset, n, distance, w)
    requires n <= i < n + w
    ensures CopyBack(out, offset, n + w)[|out| + i] == CopyBack(out, offset, n)[|out| + i - distance]
  {
    hide CopyBack;
    CopyBackAt(out, offset, n, i - distance);
    CopyBackAt(out, offset, n + w, i);
    ModSubMultiple(i, offset, distance);
  }

  lemma CopyBackExtend(out: seq<byte>, offset: nat, n: nat, distance: nat, w: nat)
    requires offset <= |out| && KeepsPeriod(offset, n, distance, w) && distance <= |out| + n
    ensures var before := CopyBack(out, offset, n);
            var from := |out| + n - distance;
            CopyBack(out, offset, n + w) == before + before[from..from + w]
  {
    var before := CopyBack(out, offset, n);
    var from := |out| + n - distance;
    var after, sum := CopyBack(out, offset, n + w), before + before[from..from + w];
    CopyBackPrefix(out, offset, n + w, n);
    forall i | 0 <= i < |after| ensures after[i] == sum[i] {
      if i < |before| {
        assert after[i] == after[..|before|][i];
      } else {
        CopyBackLater(out, offset, n, distance, w, i - |out|);
        assert sum[i] == before[from..from + w][i - |before|];
      }
    }
  }

  /** `memcpy` inside the output: source and destination do not overlap. */
  method CopyChunk(dst: array<byte>, d: nat, s: nat, w: nat, ghost out: seq<byte>, ghost offset: nat)
    requires s + w <= d && d + w <= dst.Length
    requires offset <= |out| <= d && dst[..d] == CopyBack(out, offset, d - |out|)
    requires KeepsPeriod(offset, d - |out|, d - s, w)
    modifies dst
    ensures dst[..d + w] == CopyBack(out, offset, d + w - |out|)
  {
    hide CopyBack, KeepsPeriod;
    ghost var before := dst[..d];
    CopyBackExtend(out, offset, d - |out|, d - s, w);
    ghost var x, y := before[s..s + w], dst[s..s + w];
    forall i | 0 <= i < w ensures x[i] == y[i] {
      assert before[s + i] == dst[s + i];
    }
    assert x == y;
    MoveChunk(dst, d, s, w);
  }

  method MoveChunk(dst: array<byte>, d: nat, s: nat, w: nat)
    requires s + w <= d && d + w <= dst.Length
    modifies dst
    ensures dst[..d + w] == old(dst[..d]) + old(dst[s..s + w])
  {
    ghost var before, chunk := dst[..d], dst[s..s + w];
    forall k | d <= k < d + w {
      dst[k] := dst[k - d + s];
    }
    forall i | 0 <= i < d + w ensures dst[..d + w][i] == (before + chunk)[i] {
      if i < d {
        assert dst[i] == before[i];
      } else {
        assert dst[i] == chunk[i - d];
      }
    }
  }

  lemma KeepsPeriodLater(offset: nat, n: nat, distance: nat, w: nat, more: nat)
    requires KeepsPeriod(offset, n, distance, w)
    ensures KeepsPeriod(offset, n + more, distance, w)
  {
  }

  /** `LZ4_wildCopy8` inside the output: it may run up to seven bytes past `end`. */
  method WildCopy8(dst: array<byte>, start: nat, from: nat, end: nat, ghost out: seq<byte>, ghost offset: nat)
    requires from + 8 <= start && start + 8 <= dst.Length && end + 7 <= dst.Length
    requires offset <= |out| <= start && dst[..start] == CopyBack(out, offset, start - |out|)
    requires KeepsPeriod(offset, start - |out|, start - from, 8)
    modifies dst
    ensures var last := if end < start then start else end;
            dst[..last] == CopyBack(out, offset, last - |out|)
  {
    hide CopyBack;
    var d, s := start, from;
    while d == start || d < end
      invariant start <= d <= dst.Length && d - s == start - from
      invariant d < end + 8 || d <= start + 8
      invariant dst[..d] == CopyBack(out, offset, d - |out|)
      decreases end + start + 16 - d
    {
      KeepsPeriodLater(offset, start - |out|, start - from, 8, d - start);
      CopyChunk(dst, d, s, 8, out, offset);
      d, s := d + 8, s + 8;
    }
    var last := if end < start then start else end;
    CopyBackPrefix(out, offset, d - |out|, last - |out|);
    assert dst[..last] == dst[..d][..last];
  }

  // ----- copying a match

  const INC32: seq<nat> := [0, 1, 2, 1, 0, 4, 4, 4]
  const DEC64: seq<int> := [0, 0, 0, -1, -4, 1, 2, 3]

  /** Four single-byte copies that may overlap. After `LZ4_write32(op, 0)` a zero offset copies
      the zeros just written onto themselves. */
  method CopyFour(dst: array<byte>, op: nat, offset: nat, ghost out: seq<byte>)
    requires offset < 8 && offset <= op == |out| && op + 4 <= dst.Length && dst[..op] == out
    modifies dst
    ensures dst[..op + 4] == CopyBack(out, offset, 4)
  {
    hide CopyBack;
    CopyBackNone(out, offset);
    dst[op], dst[op + 1], dst[op + 2], dst[op + 3] := 0, 0, 0, 0;
    assert dst[..op] == out;
    if offset == 0 {
      FourZeros(out);
      assert dst[..op + 4] == out + [0, 0, 0, 0];
    } else {
      assert offset % offset == 0;
      CopyByte(dst, op, out, offset);
      CopyByte(dst, op + 1, out, offset);
      CopyByte(dst, op + 2, out, offset);
      CopyByte(dst, op + 3, out, offset);
    }
  }

  method CopyByte(dst: array<byte>, d: nat, ghost out: seq<byte>, offset: nat)
    requires 0 < offset <= |out| <= d < dst.Length && dst[..d] == CopyBack(out, offset, d - |out|)
    modifies dst
    ensures dst[..d + 1] == CopyBack(out, offset, d + 1 - |out|)
  {
    hide CopyBack;
    CopyChunk(dst, d, d - offset, 1, out, offset);
  }

  lemma CopyBackNone(out: seq<byte>, offset: nat)
    requires offset <= |out|
    ensures CopyBack(out, offset, 0) == out
  {
  }

  lemma FourZeros(out: seq<byte>)
    ensures CopyBack(out, 0, 4) == out + [0, 0, 0, 0]
  {
  }

  /** The first eight bytes of a match. For a small offset the two tables move the source so that
      the distance becomes a multiple of the offset and at least eight. */
  method CopyEight(dst: array<byte>, op: nat, offset: nat, ghost out: seq<byte>) returns (from: nat)
    requires offset <= op == |out| && op + 8 <= dst.Length && dst[..op] == out
    modifies dst
    ensures dst[..op + 8] == CopyBack(out, offset, 8)
    ensures from <= op && KeepsPeriod(offset, 8, op + 8 - from, 8)
  {
    hide CopyBack;
    if offset < 8 {
      CopyFour(dst, op, offset, out);
      from := op - offset + INC32[offset];
      CopyChunk(dst, op + 4, from, 4, out, offset);
      from := from - DEC64[offset];
    } else {
      CopyBackNone(out, offset);
      CopyChunk(dst, op, op - offset, 8, out, offset);
      from := op - offset + 8;
    }
  }

  /** The rest of a match that ends at `end`, less than twelve bytes before the end of the
      output: groups of eight as far as they may overrun, then single bytes. */
  method CopyNearEnd(dst: array<byte>, start: nat, match_: nat, end: nat, ghost out: seq<byte>, ghost offset: nat)
    requires match_ + 8 <= start && start + 4 <= dst.Length
    requires offset <= |out| <= start && |out| <= end && dst[..start] == CopyBack(out, offset, start - |out|)
    requires KeepsPeriod(offset, start - |out|, start - match_, 8)
    requires end + LASTLITERALS <= dst.Length
    modifies dst
    ensures dst[..end] == CopyBack(out, offset, end - |out|)
  {
    hide CopyBack;
    var op, from := start, match_;
    var copyLimit := dst.Length - 7;
    if op < copyLimit {
      WildCopy8(dst, op, from, copyLimit, out, offset);
      from := from + (copyLimit - op);
      op := copyLimit;
    }
    while op < end
      invariant start <= op <= dst.Length && op - from == start - match_
      invariant dst[..op] == CopyBack(out, offset, op - |out|)
    {
      KeepsPeriodLater(offset, start - |out|, start - match_, 8, op - start);
      CopyChunk(dst, op, from, 1, out, offset);
      op, from := op + 1, from + 1;
    }
    CopyBackPrefix(out, offset, op - |out|, end - |out|);
    assert dst[..end] == dst[..op][..end];
  }

  /** The copy of a match inside the block, and the check that it leaves the last five bytes. */
  method CopyMatch(dst: array<byte>, start: nat, offset: nat, length: nat) returns (ok: bool)
    requires offset <= start && start + MFLIMIT <= dst.Length && length >= MINMATCH
    modifies dst
    ensures ok <==> start + length + LASTLITERALS <= dst.Length
    ensures ok ==> dst[..start + length] == CopyBack(old(dst[..start]), offset, length)
  {
    hide CopyBack;
    ghost var out := dst[..start];
    var end := start + length;
    var from := CopyEight(dst, start, offset, out);
    var op := start + 8;
    ok := end + LASTLITERALS <= dst.Length;
    if end > dst.Length - MATCH_SAFEGUARD {
      if ok { CopyNearEnd(dst, op, from, end, out, offset); }
    } else {
      CopyChunk(dst, op, from, 8, out, offset);
      if length > 16 {
        KeepsPeriodLater(offset, 8, op - from, 8, 8);
        WildCopy8(dst, op + 8, from + 8, end, out, offset);
      }
      var written := if length > 16 then end else start + 16;
      CopyBackPrefix(out, offset, written - start, length);
      assert dst[..end] == dst[..written][..end];
    }
  }

  // ----- one sequence

  datatype Kind = Failed | Finished | Continuing

  /** `kind`, the next input index and the output so far are what `step` says. */
  ghost predicate Performs(step: Step, kind: Kind, next: nat, written: seq<byte>) {
    match step
    case Fail(at) => kind == Failed && next == at
    case Finish(out) => kind == Finished && written == out
    case Continue(ip, out) => kind == Continuing && next == ip && written == out
  }

  lemma AddWraps(sum: nat, s: nat)
    ensures (sum % UINT32_SIZE + s) % UINT32_SIZE == (sum + s) % UINT32_SIZE
  {
  }

  lemma ReadRunStep(input: seq<byte>, ip: nat, limit: int)
    requires ip < |input| && limit <= |input|
    ensures ReadRun(input, ip, limit)
         == if ip + 1 >= limit then (input[ip] as nat, ip + 1, false)
            else if input[ip] != 255 then (input[ip] as nat, ip + 1, true)
            else var r := ReadRun(input, ip + 1, limit); (255 + r.0, r.1, r.2)
  {
  }

  /** Reads a length extension; `unsigned` arithmetic wraps. */
  method ReadVariableLength(input: seq<byte>, start: nat, limit: int) returns (length: nat, ip: nat, ok: bool)
    requires start < |input| && limit <= |input|
    ensures var r := ReadRun(input, start, limit);
            length == r.0 % UINT32_SIZE && ip == r.1 && ok == r.2
  {
    ip, length, ok := start, 0, true;
    ghost var all := ReadRun(input, start, limit);
    ghost var sum: nat := 0;
    hide ReadRun;
    while true
      invariant start <= ip < |input| && length == sum % UINT32_SIZE
      invariant var r := ReadRun(input, ip, limit); all == (sum + r.0, r.1, r.2)
      decreases |input| - ip
    {
      ReadRunStep(input, ip, limit);
      var s := input[ip];
      ip := ip + 1;
      AddWraps(sum, s);
      sum := sum + s;
      length := (length + s) % UINT32_SIZE;
      if ip >= limit {
        return length, ip, false;
      }
      if s != 255 {
        return length, ip, true;
      }
    }
  }

  /** The 18 bytes copied on behalf of a short match when there is room for them. */
  method CopyEighteen(dst: array<byte>, op: nat, offset: nat, length: nat)
    requires 8 <= offset <= op && op + 18 <= dst.Length && length <= 18
    modifies dst
    ensures dst[..op + length] == CopyBack(old(dst[..op]), offset, length)
  {
    hide CopyBack;
    ghost var out := dst[..op];
    CopyBackNone(out, offset);
    assert offset % offset == 0;
    CopyChunk(dst, op, op - offset, 8, out, offset);
    CopyChunk(dst, op + 8, op + 8 - offset, 8, out, offset);
    CopyChunk(dst, op + 16, op + 16 - offset, 2, out, offset);
    CopyBackPrefix(out, offset, 18, length);
    assert dst[..op + length] == dst[..op + 18][..op + length];
  }

  method MatchPart(input: seq<byte>, dst: array<byte>, start: nat, op: nat, code: nat, shortcut: bool)
    returns (kind: Kind, ip: nat, end: nat)
    requires code < 16 && start + 2 < |input|
    requires op + (if shortcut then 18 else MFLIMIT) <= dst.Length
    modifies dst
    ensures end <= dst.Length
            && Performs(MatchStep(input, start, old(dst[..op]), dst.Length, code, shortcut), kind, ip, dst[..end])
  {
    hide CopyBack;
    ip, end := start + 2, op;
    var offset: nat := (input[start] as nat) + 256 * (input[start + 1] as nat);
    if shortcut && code != ML_MASK && offset >= 8 && offset <= op {
      CopyEighteen(dst, op, offset, code + MINMATCH);
      return Continuing, ip, op + code + MINMATCH;
    }
    var length: nat := code;
    if code == ML_MASK {
      var more, ok;
      more, ip, ok := ReadVariableLength(input, ip, |input| - LASTLITERALS + 1);
      if !ok {
        return Failed, ip, end;
      }
      length := length + more;
    }
    length := length + MINMATCH;
    if offset > op {
      return Failed, ip, end;
    }
    var ok := CopyMatch(dst, op, offset, length);
    if ok {
      kind, end := Continuing, op + length;
    } else {
      kind := Failed;
    }
  }

  /** `memcpy` from the input, of which only the first `length` bytes are meant. */
  method CopyIn(input: seq<byte>, ip: nat, dst: array<byte>, op: nat, n: nat, length: nat)
    requires length <= n && ip + n <= |input| && op + n <= dst.Length
    modifies dst
    ensures dst[..op + length] == old(dst[..op]) + input[ip..ip + length]
  {
    forall k | op <= k < op + n {
      dst[k] := input[k - op + ip];
    }
  }

  method LiteralPart(input: seq<byte>, dst: array<byte>, start: nat, op: nat, length: nat, code: nat)
    returns (kind: Kind, ip: nat, end: nat)
    requires start <= |input| && code < 16 && op <= dst.Length
    modifies dst
    ensures end <= dst.Length
            && Performs(LiteralStep(input, start, old(dst[..op]), dst.Length, length, code), kind, ip, dst[..end])
  {
    hide MatchStep;
    ip, end := start, op;
    if op + length > dst.Length - MFLIMIT || ip + length > |input| - (2 + 1 + LASTLITERALS) {
      if ip + length != |input| || op + length > dst.Length {
        return Failed, ip, end;
      }
      CopyIn(input, ip, dst, op, length, length);
      assert input[ip..ip + length] == input[ip..];
      return Finished, ip + length, op + length;
    }
    ghost var out := dst[..op];
    CopyIn(input, ip, dst, op, WildLength(length), length);
    kind, ip, end := MatchPart(input, dst, ip + length, op + length, code, false);
  }

  /** How many bytes `LZ4_wildCopy8` writes for `n`. */
  function WildLength(n: nat): (w: nat)
    ensures n <= w <= n + 8 && 8 <= w && (n > 0 ==> w <= n + 7)
  {
    if n == 0 then 8 else (n + 7) / 8 * 8
  }

  method OneStep(input: seq<byte>, dst: array<byte>, start: nat, op: nat) returns (kind: Kind, ip: nat, end: nat)
    requires start < |input| && op <= dst.Length
    modifies dst
    ensures end <= dst.Length && Performs(DecodeStep(input, start, old(dst[..op]), dst.Length), kind, ip, dst[..end])
  {
    hide MatchStep, LiteralStep;
    var token := input[start];
    var literals := token / 16;
    ip, end := start + 1, op;
    if Shortcut(input, ip, literals, op, dst.Length) {
      CopyIn(input, ip, dst, op, 16, literals);
      kind, ip, end := MatchPart(input, dst, ip + literals, op + literals, token % 16, true);
      return;
    }
    var length: nat := literals;
    if literals == RUN_MASK {
      if ip >= |input| - RUN_MASK {
        return Failed, ip, end;
      }
      var more, ok;
      more, ip, ok := ReadVariableLength(input, ip, |input| - RUN_MASK);
      length := length + more;
    }
    kind, ip, end := LiteralPart(input, dst, ip, op, length, token % 16);
  }

  // ----- a block

  /** The number of bytes decoded, or a negative number that tells how far the input was read. */
  method Decompress(input: seq<byte>, dst: array<byte>) returns (size: int)
    modifies dst
    ensures match Decode(input, dst.Length)
            case Error(code) => size == code < 0
            case Data(out) => size == |out| <= dst.Length && dst[..size] == out
  {
    hide DecodeStep;
    if dst.Length == 0 {
      return if |input| == 1 && input[0] == 0 then 0 else -1;
    }
    if |input| == 0 {
      return -1;
    }
    var ip: nat, op: nat := 0, 0;
    assert dst[..0] == [];
    while true
      invariant ip < |input| && op <= dst.Length
      invariant DecodeFrom(input, ip, dst[..op], dst.Length) == Decode(input, dst.Length)
      decreases |input| - ip
    {
      ghost var out := dst[..op];
      StepProgress(input, ip, out, dst.Length);
      var kind, next, end := OneStep(input, dst, ip, op);
      match kind
      case Failed =>
        return -1 - next;
      case Finished =>
        return end;
      case Continuing =>
        ip, op := next, end;
    }
  }
}
