/** The greedy hash-table compressor: `LZ4_compress_generic` without dictionary, for the
    16-bit and 32-bit index tables, and its entry point. The hash is an arbitrary function. */
module Lz4Compress {
  import opened Bytes
  import opened Lz4Format

  const SKIP_TRIGGER := 64        // 1 << LZ4_skipTrigger
  const LIMIT_64K := 0x1_0000 + 11

  type Hash = seq<byte> -> nat

  datatype TableType = ByU16 | ByU32

  // ----- the hash table

  /** The slot for the eight bytes at `p`; they are all inside the input. */
  function SlotAt(src: seq<byte>, p: nat, hash: Hash, size: nat): (h: nat)
    requires p + 8 <= |src| && size > 0
    ensures h < size
  {
    hash(src[p..p + 8]) % size
  }

  ghost predicate Below(table: seq<nat>, limit: nat) {
    forall h :: 0 <= h < |table| ==> table[h] < limit
  }

  /** Stores an index, truncated to the width of the table's entries. */
  method PutIndex(table: array<nat>, h: nat, idx: nat, kind: TableType)
    requires h < table.Length
    requires idx < if kind == ByU16 then UINT16_SIZE else UINT32_SIZE
    modifies table
    ensures table[..] == old(table[..])[h := idx]
  {
    table[h] := if kind == ByU16 then idx % UINT16_SIZE else idx % UINT32_SIZE;
  }

  // ----- finding a match

  ghost predicate Same(src: seq<byte>, i: nat, distance: nat)
    requires distance <= i < |src|
  {
    src[i] == src[i - distance]
  }

  /** The `n` bytes at `ip` repeat those at the earlier position `match_`. */
  ghost predicate Match(src: seq<byte>, ip: nat, match_: nat, n: nat) {
    var d := ip - match_;
    match_ < ip && ip + n <= |src| && forall i :: ip <= i < ip + n ==> Same(src, i, d)
  }

  lemma MatchIsSliceEquality(src: seq<byte>, ip: nat, match_: nat, n: nat)
    requires match_ < ip && ip + n <= |src|
    ensures Match(src, ip, match_, n) <==> src[match_..match_ + n] == src[ip..ip + n]
  {
    var a, b := src[match_..match_ + n], src[ip..ip + n];
    if a == b {
      var d := ip - match_;
      forall i | ip <= i < ip + n ensures Same(src, i, d) {
        assert a[i - ip] == b[i - ip];
      }
    }
    if Match(src, ip, match_, n) {
      assert forall k :: 0 <= k < n ==> a[k] == b[k] by {
        forall k | 0 <= k < n ensures a[k] == b[k] {
          assert Same(src, ip + k, ip - match_);
        }
      }
    }
  }

  /** The search loop: positions are probed with growing steps until four bytes agree with
      the indexed candidate, or the last position where a match may start has been passed. */
  method FindMatch(src: seq<byte>, table: array<nat>, hash: Hash, kind: TableType, acceleration: nat, start: nat)
    returns (found: bool, ip: nat, match_: nat)
    requires 1 <= start <= |src| - MFLIMIT + 1
    requires |src| <= MAX_INPUT_SIZE && (kind == ByU16 ==> |src| < LIMIT_64K)
    requires table.Length > 0 && Below(table[..], start)
    requires acceleration >= 1
    modifies table
    ensures found ==> start <= ip <= |src| - MFLIMIT && Match(src, ip, match_, MINMATCH)
    ensures found ==> ip - match_ <= DISTANCE_MAX && Below(table[..], ip + 1)
  {
    var mflimitPlusOne := |src| - MFLIMIT + 1;
    var forwardIp := start;
    var forwardH := SlotAt(src, start, hash, table.Length);
    var step := 1;
    var searchMatchNb := acceleration * SKIP_TRIGGER;
    ip, match_ := start, 0;
    while true
      invariant start <= forwardIp <= mflimitPlusOne
      invariant 0 <= forwardH < table.Length
      invariant step >= 1 && searchMatchNb >= SKIP_TRIGGER
      invariant Below(table[..], forwardIp)
      decreases mflimitPlusOne - forwardIp
    {
      var h := forwardH;
      var current := forwardIp;
      match_ := table[h];
      assert match_ < current by { assert table[..][h] < forwardIp; }
      ip := forwardIp;
      forwardIp := forwardIp + step;
      step := searchMatchNb / SKIP_TRIGGER;
      searchMatchNb := searchMatchNb + 1;
      if forwardIp > mflimitPlusOne {
        return false, ip, match_;
      }
      forwardH := SlotAt(src, forwardIp, hash, table.Length);
      PutIndex(table, h, current, kind);
      if kind != ByU16 && match_ + DISTANCE_MAX < current {
        continue;
      }
      if src[match_..match_ + MINMATCH] == src[ip..ip + MINMATCH] {
        MatchIsSliceEquality(src, ip, match_, MINMATCH);
        return true, ip, match_;
      }
    }
  }

  /** Extends a match backwards over literals that also agree. */
  method CatchUp(src: seq<byte>, anchor: nat, ip0: nat, match0: nat) returns (ip: nat, match_: nat)
    requires anchor <= ip0 && Match(src, ip0, match0, MINMATCH)
    ensures anchor <= ip <= ip0 && ip - match_ == ip0 - match0
    ensures Match(src, ip, match_, ip0 - ip + MINMATCH)
    ensures ip == anchor || match_ == 0 || src[ip - 1] != src[match_ - 1]
  {
    ip, match_ := ip0, match0;
    while ip > anchor && match_ > 0 && src[ip - 1] == src[match_ - 1]
      invariant anchor <= ip <= ip0 && ip - match_ == ip0 - match0
      invariant Match(src, ip, match_, ip0 - ip + MINMATCH)
    {
      ip, match_ := ip - 1, match_ - 1;
    }
  }

  /** The number of leading bytes in which two words agree (`LZ4_NbCommonBytes`). */
  function CommonBytes(a: seq<byte>, b: seq<byte>): (n: nat)
    requires |a| == |b|
    ensures n <= |a| && a[..n] == b[..n] && (n < |a| ==> a[n] != b[n])
  {
    if a == [] || a[0] != b[0] then 0
    else
      var n := 1 + CommonBytes(a[1..], b[1..]);
      assert a[..n] == [a[0]] + a[1..][..n - 1];
      assert b[..n] == [b[0]] + b[1..][..n - 1];
      n
  }

  /** Compares the `w`-byte words at `p` and `m`: they agree in exactly the first `c` bytes. */
  method CompareWords(src: seq<byte>, p: nat, m: nat, w: nat) returns (c: nat)
    requires m < p && p + w <= |src|
    ensures c <= w && Match(src, p, m, c)
    ensures c < w ==> !Same(src, p + c, p - m)
  {
    var a, b := src[m..m + w], src[p..p + w];
    c := CommonBytes(a, b);
    ghost var d := p - m;
    forall i | p <= i < p + c ensures Same(src, i, d) {
      assert a[..c][i - p] == b[..c][i - p];
    }
  }

  /** The count is exact: it stops at the limit or at the first difference. */
  ghost predicate ExactCount(src: seq<byte>, p: nat, m: nat, limit: nat, n: nat) {
    && Match(src, p, m, n)
    && p + n <= limit <= |src|
    && (p + n < limit ==> !Same(src, p + n, p - m))
  }

  /** Counts how far two positions agree before `limit`: eight bytes at a time, then the rest. */
  method Count(src: seq<byte>, start: nat, matchStart: nat, limit: nat) returns (n: nat)
    requires matchStart < start <= limit <= |src|
    ensures ExactCount(src, start, matchStart, limit, n)
  {
    n := 0;
    while start + n < limit - 7
      invariant start + n <= limit
      invariant Match(src, start, matchStart, n)
    {
      var p, m := start + n, matchStart + n;
      var c := CompareWords(src, p, m, 8);
      n := n + c;
      if c < 8 {
        return;
      }
    }
    var rest := CountRest(src, start + n, matchStart + n, limit);
    n := n + rest;
  }

  /** The last seven bytes before the limit: four, two and one at a time. */
  method CountRest(src: seq<byte>, start: nat, matchStart: nat, limit: nat) returns (n: nat)
    requires matchStart < start <= limit <= |src| && limit - start <= 7
    ensures ExactCount(src, start, matchStart, limit, n)
  {
    n := 0;
    if start < limit - 3 {
      var common := CompareWords(src, start, matchStart, 4);
      if common == 4 {
        n := 4;
      }
    }
    var p, m := start + n, matchStart + n;
    if p < limit - 1 {
      var common := CompareWords(src, p, m, 2);
      if common == 2 {
        n := n + 2;
      }
    }
    p, m := start + n, matchStart + n;
    if p < limit && src[m] == src[p] {
      n := n + 1;
    }
  }

  ghost predicate MayRepeat(src: seq<byte>, ip: nat, match_: nat) {
    ip + MFLIMIT <= |src| && Match(src, ip, match_, MINMATCH) && ip - match_ <= DISTANCE_MAX
  }

  /** After a sequence: enters the position two back, then looks the current one up and enters it. */
  method TestNext(src: seq<byte>, table: array<nat>, hash: Hash, kind: TableType, ip: nat)
    returns (found: bool, match_: nat)
    requires 2 <= ip <= |src| - MFLIMIT && |src| <= MAX_INPUT_SIZE && (kind == ByU16 ==> |src| < LIMIT_64K)
    requires table.Length > 0 && Below(table[..], ip)
    modifies table
    ensures Below(table[..], ip + 1)
    ensures found ==> MayRepeat(src, ip, match_)
  {
    PutIndex(table, SlotAt(src, ip - 2, hash, table.Length), ip - 2, kind);
    var h := SlotAt(src, ip, hash, table.Length);
    match_ := table[h];
    assert match_ < ip by { assert table[..][h] < ip; }
    PutIndex(table, h, ip, kind);
    found := (kind == ByU16 || match_ + DISTANCE_MAX >= ip) && src[match_..match_ + MINMATCH] == src[ip..ip + MINMATCH];
    MatchIsSliceEquality(src, ip, match_, MINMATCH);
  }

  // ----- writing a sequence

  /** `LZ4_wildCopy8` out of the input: whole groups of eight bytes, which may run up to seven
      bytes past what was asked for. */
  method WildCopy8(src: seq<byte>, from: nat, dest: array<byte>, op: nat, n: nat)
    requires from + n + 8 <= |src|
    requires op + 8 <= dest.Length && op + n + 7 <= dest.Length
    modifies dest
    ensures dest[..op + n] == old(dest[..op]) + src[from..from + n]
  {
    var i := 0;
    ghost var head := dest[..op];
    while i == 0 || i < n
      invariant 0 <= i && (i <= 8 || i <= n + 7) && op + i <= dest.Length
      invariant dest[..op + i] == head + src[from..from + i]
      decreases n + 8 - i
    {
      CopyEight(src, from + i, dest, op + i);
      assert src[from..from + i + 8] == src[from..from + i] + src[from + i..from + i + 8];
      i := i + 8;
    }
    assert dest[..op + n] == dest[..op + i][..op + n];
    assert src[from..from + n] == src[from..from + i][..n];
  }

  method CopyEight(src: seq<byte>, from: nat, dest: array<byte>, op: nat)
    requires from + 8 <= |src| && op + 8 <= dest.Length
    modifies dest
    ensures dest[..op + 8] == old(dest[..op]) + src[from..from + 8]
  {
    forall k | op <= k < op + 8 {
      dest[k] := src[k - op + from];
    }
  }

  /** `*op++ = b`. */
  method Push(dest: array<byte>, op: nat, b: byte)
    requires op < dest.Length
    modifies dest
    ensures dest[..op + 1] == old(dest[..op]) + [b]
  {
    dest[op] := b;
  }

  lemma ExtensionStep(done: seq<byte>, v: nat)
    requires v >= 255
    ensures (done + [255]) + Extension(v - 255) == done + Extension(v)
    ensures |Extension(v)| == 1 + |Extension(v - 255)|
  {
  }

  /** Writes the extension of a literal length, if there is one. */
  method WriteTail(dest: array<byte>, start: nat, length: nat) returns (op: nat)
    requires start + |Tail(length)| <= dest.Length
    modifies dest
    ensures op == start + |Tail(length)|
    ensures dest[..op] == old(dest[..start]) + Tail(length)
  {
    op := start;
    if length >= RUN_MASK {
      var len := length - RUN_MASK;
      while len >= 255
        invariant 0 <= len && start <= op
        invariant op + |Extension(len)| == start + |Tail(length)|
        invariant dest[..op] + Extension(len) == old(dest[..start]) + Tail(length)
      {
        ExtensionStep(dest[..op], len);
        Push(dest, op, 255);
        op := op + 1;
        len := len - 255;
      }
      Push(dest, op, len);
      op := op + 1;
    }
  }

  /** Writes a token with its literals: everything of a sequence before the offset. */
  method WriteLiterals(src: seq<byte>, dest: array<byte>, anchor: nat, ip: nat, token: nat) returns (op: nat)
    requires anchor <= ip && ip + 8 <= |src|
    requires token + 1 + (ip - anchor) + 8 + (ip - anchor) / 255 <= dest.Length
    modifies dest
    ensures op == token + 1 + |Tail(ip - anchor)| + (ip - anchor) <= dest.Length
    ensures dest[..op] == old(dest[..token]) + [16 * Nibble(ip - anchor)] + Tail(ip - anchor) + src[anchor..ip]
  {
    var litLength := ip - anchor;
    TailSize(litLength);
    Push(dest, token, 16 * Nibble(litLength));
    op := WriteTail(dest, token + 1, litLength);
    WildCopy8(src, anchor, dest, op, litLength);
    op := op + litLength;
  }

  function Fill(k: nat): (s: seq<byte>)
    ensures |s| == k
  {
    seq(k, _ => 255)
  }

  lemma ExtensionFill(v: nat, k: nat)
    requires 255 * k <= v
    ensures Extension(v) == Fill(k) + Extension(v - 255 * k)
  {
    if k > 0 {
      ExtensionFill(v - 255, k - 1);
      assert Fill(k) == [255] + Fill(k - 1);
    }
  }

  /** Adds the match length to the token and writes its extension, four bytes at a time. */
  method WriteMatchCode(dest: array<byte>, token: nat, start: nat, matchCode: nat) returns (op: nat)
    requires token < start < dest.Length && dest[token] <= 240
    requires start + 1 + LASTLITERALS + (matchCode + 240) / 255 <= dest.Length
    modifies dest
    ensures op == start + |Tail(matchCode)| <= dest.Length
    ensures dest[..op] == old(dest[..start])[token := old(dest[token]) + Nibble(matchCode)] + Tail(matchCode)
  {
    if matchCode < ML_MASK {
      dest[token] := dest[token] + matchCode;
      op := start;
    } else {
      dest[token] := dest[token] + ML_MASK;
      op := WriteMatchTail(dest, start, matchCode);
    }
  }

  method WriteMatchTail(dest: array<byte>, start: nat, matchCode: nat) returns (op: nat)
    requires matchCode >= ML_MASK
    requires start + 1 + LASTLITERALS + (matchCode + 240) / 255 <= dest.Length
    modifies dest
    ensures op == start + |Tail(matchCode)| <= dest.Length
    ensures dest[..op] == old(dest[..start]) + Tail(matchCode)
  {
    op := start;
    ghost var head := dest[..start];
    var code := matchCode - ML_MASK;
    Write32(dest, op);
    while code >= 4 * 255
      invariant 0 <= code && start <= op && op + code / 255 == start + (matchCode - ML_MASK) / 255
      invariant op + 4 <= dest.Length
      invariant code == matchCode - ML_MASK - 255 * (op - start)
      invariant dest[..start] == head
      invariant forall k :: start <= k < op + 4 ==> dest[k] == 255
    {
      op := op + 4;
      Write32(dest, op);
      code := code - 4 * 255;
    }
    op := op + code / 255;
    ghost var k := op - start;
    ghost var filled := dest[..op];
    FilledIs(filled, start, k, head);
    TailIs(matchCode, k, code % 255);
    dest[op] := code % 255;
    op := op + 1;
    assert dest[..op] == filled + [code % 255];
  }

  lemma FilledIs(s: seq<byte>, start: nat, k: nat, head: seq<byte>)
    requires |s| == start + k && s[..start] == head && forall i :: start <= i < |s| ==> s[i] == 255
    ensures s == head + Fill(k)
  {
    assert s == s[..start] + s[start..];
    assert s[start..] == Fill(k);
  }

  lemma TailIs(matchCode: nat, k: nat, last: byte)
    requires matchCode >= ML_MASK && matchCode - ML_MASK == 255 * k + last as int && last < 255
    ensures Tail(matchCode) == Fill(k) + [last]
  {
    ExtensionFill(matchCode - ML_MASK, k);
    assert Extension(last as nat) == [last];
  }

  /** `LZ4_write32(op, 0xFFFFFFFF)`. */
  method Write32(dest: array<byte>, op: nat)
    requires op + 4 <= dest.Length
    modifies dest
    ensures dest[..op] == old(dest[..op])
    ensures forall k :: op <= k < op + 4 ==> dest[k] == 255
  {
    dest[op], dest[op + 1], dest[op + 2], dest[op + 3] := 255, 255, 255, 255;
  }

  // ----- one sequence

  ghost predicate Room(dest: array<byte>, src: seq<byte>, limited: bool) {
    limited || dest.Length >= |src| + |src| / 255 + 16
  }

  /** What is in `dest` when the offset of a sequence is about to be written. */
  ghost predicate LiteralsWritten(bytes: seq<byte>, prefix: seq<byte>, literals: seq<byte>) {
    bytes == prefix + [16 * Nibble(|literals|)] + Tail(|literals|) + literals
  }

  lemma Splice(prefix: seq<byte>, t0: byte, t1: byte, a: seq<byte>, b: seq<byte>, c: seq<byte>, d: seq<byte>)
    ensures (prefix + [t0] + a + b + c)[|prefix| := t1] + d == prefix + ([t1] + a + b + c + d)
  {
    assert prefix + [t0] + a + b + c == prefix + [t0] + (a + b + c);
    assert (prefix + [t0] + (a + b + c))[|prefix| := t1] == prefix + [t1] + (a + b + c);
    assert prefix + [t1] + (a + b + c) + d == prefix + ([t1] + (a + b + c) + d);
    assert [t1] + (a + b + c) + d == [t1] + a + b + c + d;
  }

  lemma SequenceBytes(prefix: seq<byte>, literals: seq<byte>, offset: nat, matchCode: nat, bytes: seq<byte>)
    requires offset < UINT16_SIZE
    requires LiteralsWritten(bytes, prefix, literals)
    ensures |prefix| < |bytes|
    ensures (bytes + LE16(offset))[|prefix| := Token(|literals|, matchCode)] + Tail(matchCode)
         == prefix + EncodeSequence(Sequence(literals, offset, matchCode + MINMATCH))
  {
    Splice(prefix, 16 * Nibble(|literals|), Token(|literals|, matchCode), Tail(|literals|), literals, LE16(offset),
           Tail(matchCode));
  }

  /** `bytes` encodes a parse of `src[..anchor]`. */
  ghost predicate Encodes(bytes: seq<byte>, src: seq<byte>, ss: seq<Sequence>, anchor: nat) {
    Parses(src, 0, ss, anchor) && AllEncodable(ss) && bytes == EncodeAll(ss)
  }

  lemma EncodesNothing(src: seq<byte>)
    ensures Encodes([], src, [], 0)
  {
  }

  lemma EncodesSnoc(prefix: seq<byte>, bytes: seq<byte>, src: seq<byte>, ss: seq<Sequence>, anchor: nat, s: Sequence)
    requires Encodes(prefix, src, ss, anchor) && Describes(src, anchor, s)
    requires bytes == prefix + EncodeSequence(s)
    ensures Encodes(bytes, src, ss + [s], anchor + Width(s))
  {
    ParsesSnoc(src, 0, ss, anchor, s);
    EncodeAllSnoc(ss, s);
  }

  lemma EncodesSize(bytes: seq<byte>, src: seq<byte>, ss: seq<Sequence>, anchor: nat)
    requires Encodes(bytes, src, ss, anchor)
    ensures |bytes| <= anchor + anchor / 255 && anchor <= |src|
  {
    ParsesEncodable(src, 0, ss, anchor);
    EncodeAllCost(src, 0, ss, anchor);
  }

  /** What holds between the literals and the offset of a sequence. */
  ghost predicate ReadyForOffset(src: seq<byte>, bytes: seq<byte>, prefix: seq<byte>, anchor: nat, ip: nat, match_: nat,
                                 known: nat) {
    && anchor <= ip && MINMATCH <= known && ip + MFLIMIT <= |src| && ip + known + LASTLITERALS <= |src|
    && Match(src, ip, match_, known) && ip - match_ <= DISTANCE_MAX
    && LiteralsWritten(bytes, prefix, src[anchor..ip])
  }

  /** From the offset on: measures the match, writes the offset, and writes the match length
      unless the output limit would be exceeded. `known` bytes are already known to match. */
  method EmitMatch(src: seq<byte>, dest: array<byte>, limited: bool, anchor: nat, ip: nat, match_: nat,
                   token: nat, start: nat, ghost known: nat, ghost before: seq<Sequence>)
    returns (ok: bool, next: nat, op: nat, ghost ss: seq<Sequence>)
    requires Room(dest, src, limited) && start + 2 <= dest.Length
    requires anchor <= ip && start == token + 1 + |Tail(ip - anchor)| + (ip - anchor)
    requires ReadyForOffset(src, dest[..start], dest[..token], anchor, ip, match_, known)
    requires Encodes(dest[..token], src, before, anchor)
    modifies dest
    ensures !limited ==> ok
    ensures ip + known <= next <= |src|
    ensures ok ==> op <= dest.Length && Encodes(dest[..op], src, ss, next)
    ensures ok && limited ==> op + 1 + LASTLITERALS <= dest.Length
  {
    hide Describes, EncodeSequence, Tail, Nibble;
    ghost var prefix := dest[..token];
    ghost var s;
    var matchCode;
    matchCode, s := MeasureMatch(src, anchor, ip, match_, known);
    next := ip + matchCode + MINMATCH;
    MatchRoom(src, prefix, before, anchor, ip, matchCode);
    ss := before + [s];
    ok, op := WriteMatch(dest, limited, token, start, ip - match_, matchCode, s.literals);
    if ok { EncodesSnoc(prefix, dest[..op], src, before, anchor, s); }
  }

  method MeasureMatch(src: seq<byte>, anchor: nat, ip: nat, match_: nat, ghost known: nat)
    returns (matchCode: nat, ghost s: Sequence)
    requires anchor <= ip && ip + MFLIMIT <= |src| && MINMATCH <= known
    requires Match(src, ip, match_, known) && ip - match_ <= DISTANCE_MAX && ip + known + LASTLITERALS <= |src|
    ensures s == Sequence(src[anchor..ip], ip - match_, matchCode + MINMATCH) && Describes(src, anchor, s)
    ensures known <= matchCode + MINMATCH <= |src| - LASTLITERALS - ip
  {
    matchCode := Count(src, ip + MINMATCH, match_ + MINMATCH, |src| - LASTLITERALS);
    MatchDescribed(src, anchor, ip, match_, known, matchCode);
    s := Sequence(src[anchor..ip], ip - match_, matchCode + MINMATCH);
  }

  /** Counting on from four matching bytes gives a sequence that describes the source, at
      least as long as what was already known to match. */
  lemma MatchDescribed(src: seq<byte>, anchor: nat, ip: nat, match_: nat, known: nat, count: nat)
    requires anchor <= ip && ip + MFLIMIT <= |src|
    requires MINMATCH <= known && Match(src, ip, match_, known) && ip + known + LASTLITERALS <= |src|
    requires ip - match_ <= DISTANCE_MAX
    requires ExactCount(src, ip + MINMATCH, match_ + MINMATCH, |src| - LASTLITERALS, count)
    ensures count + MINMATCH >= known
    ensures Describes(src, anchor, Sequence(src[anchor..ip], ip - match_, count + MINMATCH))
  {
    CountCoversKnown(src, ip, match_, known, count);
    WholeMatch(src, ip, match_, count);
  }

  /** The offset, the check against the output limit, and the match length. */
  method WriteMatch(dest: array<byte>, limited: bool, token: nat, start: nat, offset: nat, matchCode: nat,
                    ghost literals: seq<byte>)
    returns (ok: bool, op: nat)
    requires offset < UINT16_SIZE && start + 2 <= dest.Length
    requires token <= start && LiteralsWritten(dest[..start], dest[..token], literals)
    requires !limited ==> start + 2 + 1 + LASTLITERALS + (matchCode + 240) / 255 <= dest.Length
    modifies dest
    ensures ok <==> !limited || start + 2 + 1 + LASTLITERALS + (matchCode + 240) / 255 <= dest.Length
    ensures ok ==>
              op <= dest.Length && dest[..op]
              == old(dest[..token]) + EncodeSequence(Sequence(literals, offset, matchCode + MINMATCH))
    ensures ok && limited ==> op + 1 + LASTLITERALS <= dest.Length
  {
    hide EncodeSequence, Tail, Nibble;
    ghost var prefix, bytes := dest[..token], dest[..start];
    op := WriteLE16(dest, start, offset);
    ok := !limited || op + 1 + LASTLITERALS + (matchCode + 240) / 255 <= dest.Length;
    if ok {
      TokenByte(dest[..op], bytes, prefix, literals, offset);
      assert dest[token] == dest[..op][token];
      TailSize(matchCode);
      op := WriteMatchCode(dest, token, op, matchCode);
      SequenceBytes(prefix, literals, offset, matchCode, bytes);
    }
  }

  lemma TokenByte(now: seq<byte>, bytes: seq<byte>, prefix: seq<byte>, literals: seq<byte>, offset: nat)
    requires offset < UINT16_SIZE
    requires LiteralsWritten(bytes, prefix, literals) && now == bytes + LE16(offset)
    ensures |prefix| < |bytes| && now[|prefix|] == 16 * Nibble(|literals|)
  {
  }

  method WriteLE16(dest: array<byte>, start: nat, v: nat) returns (op: nat)
    requires v < UINT16_SIZE && start + 2 <= dest.Length
    modifies dest
    ensures op == start + 2 && dest[..op] == old(dest[..start]) + LE16(v)
  {
    dest[start], dest[start + 1] := v % 256, v / 256;
    op := start + 2;
  }

  lemma CountCoversKnown(src: seq<byte>, ip: nat, match_: nat, known: nat, count: nat)
    requires MINMATCH <= known && Match(src, ip, match_, known) && ip + known + LASTLITERALS <= |src|
    requires ExactCount(src, ip + MINMATCH, match_ + MINMATCH, |src| - LASTLITERALS, count)
    ensures count + MINMATCH >= known
  {
  }

  lemma WholeMatch(src: seq<byte>, ip: nat, match_: nat, count: nat)
    requires Match(src, ip, match_, MINMATCH) && Match(src, ip + MINMATCH, match_ + MINMATCH, count)
    ensures src[ip..ip + count + MINMATCH] == src[match_..match_ + count + MINMATCH]
  {
    var d := ip - match_;
    forall i | ip <= i < ip + count + MINMATCH ensures Same(src, i, d) {
      if i < ip + MINMATCH {
        assert Same(src, i, ip - match_);
      } else {
        assert Same(src, i, (ip + MINMATCH) - (match_ + MINMATCH));
      }
    }
    hide Same;
    MatchIsSliceEquality(src, ip, match_, count + MINMATCH);
  }

  // ----- the whole block

  lemma MatchRoom(src: seq<byte>, prefix: seq<byte>, ss: seq<Sequence>, anchor: nat, ip: nat, matchCode: nat)
    requires Encodes(prefix, src, ss, anchor)
    requires anchor <= ip && ip + matchCode + MINMATCH + LASTLITERALS <= |src|
    ensures |prefix| + 1 + |Tail(ip - anchor)| + (ip - anchor) + 2 + 1 + LASTLITERALS + (matchCode + 240) / 255
         <= |src| + |src| / 255 + 16
  {
    EncodesSize(prefix, src, ss, anchor);
    TailSize(ip - anchor);
  }

  /** The token of a sequence without literals. */
  method WriteEmptyToken(src: seq<byte>, dest: array<byte>, ip: nat, match_: nat, token: nat) returns (op: nat)
    requires token < dest.Length && MayRepeat(src, ip, match_)
    modifies dest
    ensures op == token + 1 && dest[..token] == old(dest[..token])
    ensures ReadyForOffset(src, dest[..op], dest[..token], ip, ip, match_, MINMATCH)
  {
    dest[token] := 0;
    op := token + 1;
    assert src[ip..ip] == [];
    assert dest[..op] == dest[..token] + [0];
  }

  datatype Search = Written | NoMatch | NoRoom

  /** Finds the next match and writes the token and the literals before it. */
  method EmitLiterals(src: seq<byte>, dest: array<byte>, limited: bool, kind: TableType, hash: Hash,
                      acceleration: nat, table: array<nat>, anchor: nat, start: nat, token: nat)
    returns (result: Search, ip: nat, match_: nat, op: nat, ghost known: nat)
    requires anchor <= start && 1 <= start <= |src| - MFLIMIT + 1
    requires |src| <= MAX_INPUT_SIZE && (kind == ByU16 ==> |src| < LIMIT_64K)
    requires table.Length > 0 && Below(table[..], start)
    requires acceleration >= 1 && Room(dest, src, limited)
    requires token <= dest.Length && (!limited ==> token <= anchor + anchor / 255)
    modifies dest, table
    ensures dest[..token] == old(dest[..token])
    ensures result.NoRoom? ==> limited
    ensures result.Written? ==>
      && op + 2 <= dest.Length && MINMATCH <= known && Below(table[..], ip + known) && anchor <= ip
      && op == token + 1 + |Tail(ip - anchor)| + (ip - anchor)
      && ReadyForOffset(src, dest[..op], dest[..token], anchor, ip, match_, known)
  {
    hide Tail, Nibble, SlotAt;
    var found, at, candidate := FindMatch(src, table, hash, kind, acceleration, start);
    ip, match_, op, known := at, candidate, token, MINMATCH;
    if !found {
      return NoMatch, ip, match_, op, known;
    }
    ip, match_ := CatchUp(src, anchor, at, candidate);
    known := at - ip + MINMATCH;
    var litLength := ip - anchor;
    if limited && token + 1 + litLength + 2 + 1 + LASTLITERALS + litLength / 255 > dest.Length {
      return NoRoom, ip, match_, op, known;
    }
    TailSize(litLength);
    op := WriteLiterals(src, dest, anchor, ip, token);
    result := Written;
  }

  /** The main loop: sequences are written until no further match may start. A match found by
      testing the position right after a sequence is written at once, without literals. */
  method WriteSequences(src: seq<byte>, dest: array<byte>, limited: bool, kind: TableType,
                        hash: Hash, acceleration: nat, table: array<nat>)
    returns (ok: bool, anchor: nat, op: nat, ghost ss: seq<Sequence>)
    requires MFLIMIT < |src| <= MAX_INPUT_SIZE && (kind == ByU16 ==> |src| < LIMIT_64K)
    requires table.Length > 0 && Below(table[..], 1)
    requires acceleration >= 1 && Room(dest, src, limited)
    modifies dest, table
    ensures !limited ==> ok
    ensures ok ==> op <= dest.Length && Encodes(dest[..op], src, ss, anchor)
  {
    hide Encodes, ReadyForOffset;
    EncodesNothing(src);
    var ip, again, match_ := 1, false, 0;
    anchor, op, ss, ok := 0, 0, [], true;
    PutIndex(table, SlotAt(src, 0, hash, table.Length), 0, kind);
    while true
      invariant 1 <= ip <= |src| - MFLIMIT + 1 && anchor <= ip && op <= dest.Length
      invariant Encodes(dest[..op], src, ss, anchor)
      invariant Below(table[..], if again then ip + 1 else ip)
      invariant again ==> anchor == ip && MayRepeat(src, ip, match_)
      invariant again && limited ==> op + 1 + LASTLITERALS <= dest.Length
      decreases |src| - anchor
    {
      var token := op;
      ghost var known := MINMATCH;
      EncodesSize(dest[..token], src, ss, anchor);
      if again {
        op := WriteEmptyToken(src, dest, ip, match_, token);
      } else {
        var result;
        result, ip, match_, op,
          known := EmitLiterals(src, dest, limited, kind, hash, acceleration, table, anchor, ip, token);
        if !result.Written? {
          return result.NoMatch?, anchor, token, ss;
        }
      }
      ok, anchor, op, ss := EmitMatch(src, dest, limited, anchor, ip, match_, token, op, known, ss);
      ip := anchor;
      if !ok || ip >= |src| - MFLIMIT + 1 {
        return;
      }
      again, match_ := TestNext(src, table, hash, kind, ip);
      if !again {
        ip := ip + 1;
      }
    }
  }

  /** The last run of literals, to the end of the input. */
  method WriteLast(src: seq<byte>, dest: array<byte>, anchor: nat, token: nat) returns (op: nat)
    requires anchor <= |src|
    requires token + |EncodeLast(src[anchor..])| <= dest.Length
    modifies dest
    ensures op == token + |EncodeLast(src[anchor..])|
    ensures dest[..op] == old(dest[..token]) + EncodeLast(src[anchor..])
  {
    var lastRun := |src| - anchor;
    hide Tail, EncodeLast;
    LastBytes(dest[..token], src[anchor..]);
    Push(dest, token, 16 * Nibble(lastRun));
    op := WriteTail(dest, token + 1, lastRun);
    Append(dest, op, src[anchor..]);
    op := op + lastRun;
  }

  lemma LastBytes(done: seq<byte>, literals: seq<byte>)
    ensures done + [16 * Nibble(|literals|)] + Tail(|literals|) + literals == done + EncodeLast(literals)
    ensures |EncodeLast(literals)| == 1 + |Tail(|literals|)| + |literals|
  {
    assert EncodeLast(literals) == [16 * Nibble(|literals|)] + (Tail(|literals|) + literals);
  }

  /** `memcpy` of the whole of `from`. */
  method Append(dest: array<byte>, op: nat, from: seq<byte>)
    requires op + |from| <= dest.Length
    modifies dest
    ensures dest[..op + |from|] == old(dest[..op]) + from
  {
    forall k | op <= k < op + |from| {
      dest[k] := from[k - op];
    }
  }

  /** `LZ4_compress_generic`: the length of the block written, or 0 when the input is too
      large for the table or the block does not fit the output. */
  method CompressGeneric(src: seq<byte>, dest: array<byte>, limited: bool, kind: TableType,
                         hash: Hash, acceleration: nat, table: array<nat>)
    returns (size: nat)
    requires table.Length > 0 && Below(table[..], 1)
    requires acceleration >= 1 && (|src| <= MAX_INPUT_SIZE ==> Room(dest, src, limited))
    modifies dest, table
    ensures size <= dest.Length
    ensures size > 0 ==> IsBlockOf(dest[..size], src)
    ensures |src| > MAX_INPUT_SIZE ==> size == 0
    ensures size == 0 ==> limited || |src| > MAX_INPUT_SIZE || (kind == ByU16 && |src| >= LIMIT_64K)
  {
    if |src| > MAX_INPUT_SIZE || (kind == ByU16 && |src| >= LIMIT_64K) {
      return 0;
    }
    var ok, anchor, op := true, 0, 0;
    ghost var ss: seq<Sequence> := [];
    if |src| > MFLIMIT {
      ok, anchor, op, ss := WriteSequences(src, dest, limited, kind, hash, acceleration, table);
      if !ok {
        return 0;
      }
    }
    ghost var prefix := dest[..op];
    assert Encodes(prefix, src, ss, anchor);
    EncodesSize(prefix, src, ss, anchor);
    var lastRun := |src| - anchor;
    TailSize(lastRun);
    if limited && op + lastRun + 1 + (lastRun + 240) / 255 > dest.Length {
      return 0;
    }
    size := WriteLast(src, dest, anchor, op);
    assert IsEncoding(dest[..size], src, ss, anchor);
  }

  /** `LZ4_compress_fast`: a fresh table, and unlimited output exactly when the capacity reaches
      the documented bound. Success is then guaranteed for every supported input. */
  method CompressFast(src: seq<byte>, dest: array<byte>, hash: Hash, acceleration: int) returns (size: nat)
    modifies dest
    ensures size <= dest.Length
    ensures size > 0 ==> IsBlockOf(dest[..size], src)
    ensures |src| <= MAX_INPUT_SIZE && dest.Length >= CompressBound(|src|) ==> size > 0
    ensures |src| > MAX_INPUT_SIZE ==> size == 0
  {
    var kind := if |src| < LIMIT_64K then ByU16 else ByU32;
    var limited := dest.Length < CompressBound(|src|);
    var table := new nat[if kind == ByU16 then 8192 else 4096](_ => 0);
    size := CompressGeneric(src, dest, limited, kind, hash, if acceleration < 1 then 1 else acceleration, table);
  }
}
