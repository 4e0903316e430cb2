/** What the bounds-checked LZ4 decoder accepts and returns, on values: one step per sequence,
    with the same checks, in the same order, as the decoding loop. */
module Lz4Decode {
  import opened Bytes
  import opened Lz4Format

  const MATCH_SAFEGUARD := 12
  const SHORTCUT_INPUT := 16    // 14 literals and the offset
  const SHORTCUT_OUTPUT := 32   // 14 literals and an 18-byte match

  // ----- copying from the output produced so far

  /** The byte at index `j` of the periodic continuation of `out` with period `offset`. */
  function Periodic(out: seq<byte>, offset: nat, j: int): byte
    requires 0 < offset <= |out|
  {
    out[|out| - offset + j % offset]
  }

  /** `out` followed by `n` bytes copied from `offset` back, with overlap; a zero offset,
      which only malformed input contains, yields zeros. */
  function CopyBack(out: seq<byte>, offset: nat, n: nat): (r: seq<byte>)
    requires offset <= |out|
    ensures |r| == |out| + n
  {
    out + if offset == 0 then seq(n, _ => 0) else seq(n, k => Periodic(out, offset, k))
  }

  lemma CopyBackPrefix(out: seq<byte>, offset: nat, n: nat, m: nat)
    requires offset <= |out| && m <= n
    ensures CopyBack(out, offset, n)[..|out| + m] == CopyBack(out, offset, m)
  {
  }

  // ----- reading lengths

  /** The value of the bytes from `ip` up to and including the first that is not 255, the
      index after them, and whether that index stays below `limit`, where reading stops. */
  function ReadRun(input: seq<byte>, ip: nat, limit: int): (r: (nat, nat, bool))
    requires ip < |input| && limit <= |input|
    ensures ip < r.1 <= |input|
    ensures r.2 ==> r.1 < limit
    decreases |input| - ip
  {
    var s := input[ip];
    if ip + 1 >= limit then (s, ip + 1, false)
    else if s == 255 then
      var (v, next, ok) := ReadRun(input, ip + 1, limit);
      (255 + v, next, ok)
    else (s, ip + 1, true)
  }

  // ----- one sequence

  datatype Step =
    | Fail(at: nat)
    | Finish(out: seq<byte>)
    | Continue(next: nat, out: seq<byte>)

  /** Enough room on both sides for the copies that ignore the exact lengths. */
  predicate Shortcut(input: seq<byte>, ip: nat, literals: nat, written: nat, capacity: nat) {
    literals != RUN_MASK && ip < |input| - SHORTCUT_INPUT && written <= capacity - SHORTCUT_OUTPUT
  }

  /** From the offset on. */
  function MatchStep(input: seq<byte>, ip: nat, out: seq<byte>, capacity: nat, code: nat, shortcut: bool): Step
    requires code < 16 && ip + 2 < |input|
  {
    var offset: nat := (input[ip] as nat) + 256 * (input[ip + 1] as nat);
    if shortcut && code != ML_MASK && offset >= 8 && offset <= |out| then
      Continue(ip + 2, CopyBack(out, offset, code + MINMATCH))
    else if code != ML_MASK then
      CopyStep(ip + 2, out, capacity, offset, code + MINMATCH)
    else
      var (v, next, ok) := ReadRun(input, ip + 2, |input| - LASTLITERALS + 1);
      if !ok then Fail(next)
      else CopyStep(next, out, capacity, offset, ML_MASK + v % UINT32_SIZE + MINMATCH)
  }

  /** The check that the offset stays inside the output, and the one that the last five bytes
      of the output are left to literals. */
  function CopyStep(ip: nat, out: seq<byte>, capacity: nat, offset: nat, length: nat): Step {
    if offset > |out| || |out| + length > capacity - LASTLITERALS then Fail(ip)
    else Continue(ip, CopyBack(out, offset, length))
  }

  function DecodeStep(input: seq<byte>, start: nat, out: seq<byte>, capacity: nat): Step
    requires start < |input|
  {
    var token := input[start];
    var literals := token / 16;
    var ip := start + 1;
    if Shortcut(input, ip, literals, |out|, capacity) then
      MatchStep(input, ip + literals, out + input[ip..ip + literals], capacity, token % 16, true)
    else if literals != RUN_MASK then
      LiteralStep(input, ip, out, capacity, literals, token % 16)
    else if ip >= |input| - RUN_MASK then Fail(ip)
    else
      var (v, next, _) := ReadRun(input, ip, |input| - RUN_MASK);
      LiteralStep(input, next, out, capacity, RUN_MASK + v % UINT32_SIZE, token % 16)
  }

  /** Literals: the parsing restrictions tell the last sequence from the others. */
  function LiteralStep(input: seq<byte>, ip: nat, out: seq<byte>, capacity: nat, length: nat, code: nat): Step
    requires ip <= |input| && code < 16
  {
    if |out| + length > capacity - MFLIMIT || ip + length > |input| - (2 + 1 + LASTLITERALS) then
      if ip + length != |input| || |out| + length > capacity then Fail(ip)
      else Finish(out + input[ip..])
    else MatchStep(input, ip + length, out + input[ip..ip + length], capacity, code, false)
  }

  lemma StepProgress(input: seq<byte>, start: nat, out: seq<byte>, capacity: nat)
    requires start < |input| && |out| <= capacity
    ensures var step := DecodeStep(input, start, out, capacity);
            && (step.Continue? ==> start < step.next < |input| && |step.out| <= capacity)
            && (step.Finish? ==> |step.out| <= capacity)
  {
  }

  // ----- a block

  datatype Decoded = Error(code: int) | Data(out: seq<byte>)

  function DecodeFrom(input: seq<byte>, ip: nat, out: seq<byte>, capacity: nat): Decoded
    requires ip < |input| && |out| <= capacity
    decreases |input| - ip
  {
    StepProgress(input, ip, out, capacity);
    match DecodeStep(input, ip, out, capacity)
    case Fail(at) => Error((-1 as int) - at)
    case Finish(all) => Data(all)
    case Continue(next, more) => DecodeFrom(input, next, more, capacity)
  }

  function Decode(input: seq<byte>, capacity: nat): Decoded {
    if capacity == 0 then
      if |input| == 1 && input[0] == 0 then Data([]) else Error(-1)
    else if |input| == 0 then Error(-1)
    else DecodeFrom(input, 0, [], capacity)
  }
}
