/** `permute_args`: exchanging two adjacent blocks of the argument vector in place, by gcd cycles. */
module PermuteArgs {
  import opened Arith

  // ----- greatest common divisor

  /** Euclid's loop. The coefficients witness that the result is the greatest common divisor. */
  method Gcd(a0: nat, b0: nat) returns (b: nat, ghost u: int, ghost v: int)
    requires b0 > 0
    ensures b > 0 && a0 % b == 0 && b0 % b == 0
    ensures b == u * a0 + v * b0
    ensures forall d: nat :: d > 0 && a0 % d == 0 && b0 % d == 0 ==> b % d == 0
  {
    var a := a0;
    b := b0;
    u, v := 0, 1;
    ghost var p, q := 1, 0;           // a == p * a0 + q * b0
    ghost var x, y, z, w := 1, 0, 0, 1;  // a0 == x * a + y * b and b0 == z * a + w * b
    var c := a % b;
    while c != 0
      invariant b > 0 && a >= 0 && c == a % b
      invariant a == p * a0 + q * b0 && b == u * a0 + v * b0
      invariant a0 == x * a + y * b && b0 == z * a + w * b
      decreases b
    {
      ghost var k := a / b;
      CombineStep(a, b, c, k, a0, b0, p, q, u, v);
      ExpressStep(a, b, c, k, x, y);
      ExpressStep(a, b, c, k, z, w);
      p, q, u, v := u, v, p - k * u, q - k * v;
      x, y, z, w := x * k + y, x, z * k + w, z;
      a, b := b, c;
      c := a % b;
    }
    MultipleOf(a, b, x, y);
    MultipleOf(a, b, z, w);
    forall d: nat | d > 0 && a0 % d == 0 && b0 % d == 0 ensures b % d == 0 {
      CombinationDivides(a0, b0, u, v, d);
    }
  }

  lemma CombineStep(a: int, b: int, c: int, k: int, a0: int, b0: int, p: int, q: int, u: int, v: int)
    requires b > 0 && k == a / b && c == a % b
    requires a == p * a0 + q * b0 && b == u * a0 + v * b0
    ensures c == (p - k * u) * a0 + (q - k * v) * b0
  {
    assert a == b * k + c;
    assert k * b == k * (u * a0) + k * (v * b0);
    assert (p - k * u) * a0 == p * a0 - k * (u * a0);
    assert (q - k * v) * b0 == q * b0 - k * (v * b0);
  }

  lemma ExpressStep(a: int, b: int, c: int, k: int, x: int, y: int)
    requires b > 0 && k == a / b && c == a % b
    ensures x * a + y * b == (x * k + y) * b + x * c
  {
    assert a == b * k + c;
    assert x * a == x * (b * k) + x * c;
    assert x * (b * k) == (x * k) * b;
  }

  lemma MultipleOf(a: int, b: int, x: int, y: int)
    requires b > 0 && a % b == 0
    ensures (x * a + y * b) % b == 0
  {
    var k := a / b;
    ExpressStep(a, b, 0, k, x, y);
    DivModUnique(x * a + y * b, b, x * k + y, 0);
  }

  lemma CombinationDivides(a: int, b: int, u: int, v: int, d: nat)
    requires d > 0 && a % d == 0 && b % d == 0
    ensures (u * a + v * b) % d == 0
  {
    var i, j := a / d, b / d;
    assert u * (d * i) == d * (u * i);
    assert v * (d * j) == d * (v * j);
    DivModUnique(u * a + v * b, d, u * i + v * j, 0);
  }

  // ----- the stops of a cycle

  // Inside one cycle, positions are numbered by y with position = i + g * y; every move goes
  // from y to y - s modulo the cycle length, where g * s is the length of the first block.

  /** The stop reached after `k` moves from stop 0. */
  function Stop(k: int, s: int, len: nat): (y: nat)
    requires len > 0
    ensures y < len
  {
    (-(k * s)) % len
  }

  ghost predicate Inverse(s: int, t: int, len: nat)
    requires len > 0
  {
    (s * t) % len == 1 % len
  }

  /** With an inverse of `s`, every stop knows after how many moves it is reached; in
      particular the `len` stops are distinct and cover the whole cycle. */
  lemma StopInverse(k: nat, s: int, t: int, len: nat)
    requires k < len && Inverse(s, t, len)
    ensures Stop(Stop(k, s, len), t, len) == k
  {
    if len > 1 {
      var m, y := DivMod(-(k * s), len);
      var n := InverseQuotient(s, t, len);
      assert Stop(k, s, len) == y;
      StopFromQuotients(k, s, t, len, m, n, y);
      StopAt(y, t, len, -(y * t));
      hide *;
    }
  }

  lemma InverseQuotient(s: int, t: int, len: nat) returns (n: int)
    requires len > 1 && Inverse(s, t, len)
    ensures s * t == len * n + 1
  {
    var one;
    n, one := DivMod(s * t, len);
  }

  lemma StopFromQuotients(k: nat, s: int, t: int, len: nat, m: int, n: int, y: int)
    requires k < len && y == -(k * s) - len * m && s * t == len * n + 1
    ensures (-(y * t)) % len == k
  {
    StopAlgebra(k, s, t, len, m, n, y);
    DivModUnique(-(y * t), len, k * n + m * t, k);
  }

  lemma StopAlgebra(k: int, s: int, t: int, len: int, m: int, n: int, y: int)
    requires y == -(k * s) - len * m && s * t == len * n + 1
    ensures -(y * t) == len * (k * n + m * t) + k
  {
    assert y * t == -((k * s) * t) - (len * m) * t;
    assert (k * s) * t == k * (s * t) == k * (len * n + 1) == len * (k * n) + k;
    assert (len * m) * t == len * (m * t);
    assert len * (k * n + m * t) == len * (k * n) + len * (m * t);
  }

  lemma StopAt(k: int, s: int, len: nat, x: int)
    requires len > 0 && x == -(k * s)
    ensures Stop(k, s, len) == x % len
  {
  }

  lemma StopMove(k: int, s: int, len: nat)
    requires len > 0
    ensures Stop(k + 1, s, len) == (Stop(k, s, len) - s) % len
    ensures Stop(k - 1, s, len) == (Stop(k, s, len) + s) % len
  {
    hide Stop;
    var x := -(k * s);
    StopAt(k, s, len, x);
    StopAt(k + 1, s, len, x - s);
    StopAt(k - 1, s, len, x + s);
    ModPlus(x, -s, len);
    ModPlus(x, s, len);
  }

  lemma StopPeriod(k: int, s: int, len: nat)
    requires len > 0
    ensures Stop(k + len, s, len) == Stop(k, s, len)
  {
    assert (k + len) * s == k * s + len * s;
    assert len * -s == -(len * s);
    ModShift(-(k * s), len, -s);
  }

  /** Divided by the gcd, the first block has an inverse modulo the cycle length. */
  lemma BezoutInverse(g: nat, s: nat, r: nat, u: int, v: int)
    requires g > 0 && s + r > 0
    requires g == u * (g * s) + v * (g * r)
    ensures Inverse(s, u - v, s + r)
  {
    assert u * (g * s) == g * (u * s) && v * (g * r) == g * (v * r);
    assert g * (u * s + v * r) == g;
    assert u * s + v * r == 1 by {
      if u * s + v * r > 1 {
        MulMono(g, 2, u * s + v * r);
        assert false;
      } else if u * s + v * r < 1 {
        MulMono(g, u * s + v * r, 0);
        assert false;
      }
    }
    var len := s + r;
    assert s * (u - v) == u * s - v * s;
    assert v * len == v * s + v * r;
    assert s * (u - v) == 1 + len * -v by { assert len * -v == -(v * len); }
    ModShift(1, len, -v);
  }

  // ----- positions

  function Pos(g: nat, i: nat, y: nat): nat {
    i + g * y
  }

  lemma PosParts(g: nat, len: nat, i: nat, y: nat)
    requires i < g && y < len
    ensures Pos(g, i, y) < g * len && Pos(g, i, y) / g == y && Pos(g, i, y) % g == i
  {
    MulMono(g, y + 1, len);
    assert g * (y + 1) == g * y + g;
    DivModUnique(Pos(g, i, y), g, y, i);
  }

  lemma PosOf(g: nat, len: nat, x: nat)
    requires g > 0 && x < g * len
    ensures x == Pos(g, x % g, x / g) && x / g < len
  {
    var y, i := DivMod(x, g);
    if y >= len {
      MulMono(g, len, y);
      assert false;
    }
  }

  /** Adding the length of the first block moves `s` stops on, modulo the whole. */
  lemma PosShift(g: nat, len: nat, i: nat, y: nat, s: nat)
    requires i < g && y < len && s < len
    ensures (Pos(g, i, y) + g * s) % (g * len) == Pos(g, i, (y + s) % len)
  {
    var y' := if y + s < len then y + s else y + s - len;
    DivModUnique(y + s, len, if y + s < len then 0 else 1, y');
    PosParts(g, len, i, y');
    assert g * (y + s) == g * y + g * s;
    assert g * (y + s - len) == g * y + g * s - g * len;
    DivModUnique(Pos(g, i, y) + g * s, g * len, if y + s < len then 0 else 1, Pos(g, i, y'));
  }

  /** The two branches of the loop body: back by the first block's length, or on by the second's. */
  lemma PosMove(g: nat, len: nat, i: nat, y: nat, s: nat)
    requires i < g && y < len && s < len
    ensures Pos(g, i, y) >= g * s ==> Pos(g, i, y) - g * s == Pos(g, i, (y - s) % len)
    ensures Pos(g, i, y) < g * s ==> Pos(g, i, y) + (g * len - g * s) == Pos(g, i, (y - s) % len)
  {
    if y >= s {
      MulMono(g, s, y);
      DivModUnique(y - s, len, 0, y - s);
      assert g * (y - s) == g * y - g * s;
    } else {
      MulMono(g, y + 1, s);
      assert g * (y + 1) == g * y + g;
      DivModUnique(y - s, len, -1, y - s + len);
      assert g * (y - s + len) == g * y - g * s + g * len;
    }
  }

  // ----- the contents after each move

  /** The gcd `g` of the lengths of the first block, g * s, and of both, g * len; with an
      inverse `t` of `s` modulo `len`. */
  datatype Cycles = Cycles(g: nat, len: nat, s: nat, t: int, first: nat, total: nat) {
    ghost predicate Valid() {
      && g > 0 && s < len && Inverse(s, t, len)
      && first == g * s && total == g * len
    }

    /** The cycle that position `x` belongs to, and its stop there. */
    function CycleOf(x: nat): nat
      requires g > 0
    {
      x % g
    }

    function StopOf(x: nat): nat
      requires g > 0
    {
      x / g
    }
  }

  /** What position `x` holds when cycles below `i` are done and `j` moves of cycle `i` are made.
      The start of the cycle, stop `s`, holds the element last picked up. */
  ghost function Cell<T>(w: seq<T>, c: Cycles, i: nat, j: nat, x: nat): T
    requires c.Valid() && |w| == c.total && x < |w| && j <= c.len
  {
    var y := c.StopOf(x);
    if c.CycleOf(x) < i then w[(x + c.first) % |w|]
    else if c.CycleOf(x) > i then w[x]
    else if y == c.s then
      var k := Stop(if j == c.len then j - 2 else j - 1, c.s, c.len);
      PosParts(c.g, c.len, i, k);
      w[Pos(c.g, i, k)]
    else if Stop(y, c.t, c.len) < j then w[(x + c.first) % |w|]
    else w[x]
  }

  ghost function Contents<T>(w: seq<T>, c: Cycles, i: nat, j: nat): (r: seq<T>)
    requires c.Valid() && |w| == c.total && j <= c.len
    ensures |r| == |w|
  {
    seq(|w|, x requires 0 <= x < |w| => Cell(w, c, i, j, x))
  }

  lemma Within(c: Cycles, i: nat, y: nat)
    requires c.Valid() && i < c.g && y < c.len
    ensures Pos(c.g, i, y) < c.total && c.StopOf(Pos(c.g, i, y)) == y && c.CycleOf(Pos(c.g, i, y)) == i
  {
    PosParts(c.g, c.len, i, y);
  }

  lemma Locate(c: Cycles, x: nat)
    requires c.Valid() && x < c.total
    ensures c.g > 0 && c.s < c.len
    ensures x == Pos(c.g, c.CycleOf(x), c.StopOf(x)) && c.StopOf(x) < c.len
  {
    PosOf(c.g, c.len, x);
  }

  lemma StopsDiffer(c: Cycles, j: nat, y: nat)
    requires c.Valid() && j < c.len && y < c.len
    ensures Stop(y, c.t, c.len) == j <==> y == Stop(j, c.s, c.len)
  {
    StopInverse(j, c.s, c.t, c.len);
    StopInverse(y, c.t, c.s, c.len);
  }

  lemma LastStopIsStart(c: Cycles, j: nat)
    requires c.Valid() && j < c.len
    ensures Stop(j, c.s, c.len) == c.s <==> j == c.len - 1
  {
    StopPeriod(-1, c.s, c.len);
    assert -(-1 * (c.s as int)) == c.s;
    DivModUnique(c.s, c.len, 0, c.s);
    StopInverse(j, c.s, c.t, c.len);
    StopInverse(c.len - 1, c.s, c.t, c.len);
  }

  ghost function Swapped<T>(w: seq<T>, p: nat, q: nat): (r: seq<T>)
    requires p < |w| && q < |w|
    ensures |r| == |w|
  {
    w[p := w[q]][q := w[p]]
  }

  /** The element that a cell finally receives. */
  lemma CellPicks<T>(w: seq<T>, c: Cycles, i: nat, j: nat)
    requires c.Valid() && |w| == c.total && i < c.g && j < c.len
    ensures Pos(c.g, i, Stop(j, c.s, c.len)) < |w| && Pos(c.g, i, Stop(j - 1, c.s, c.len)) < |w|
    ensures w[(Pos(c.g, i, Stop(j, c.s, c.len)) + c.first) % |w|] == w[Pos(c.g, i, Stop(j - 1, c.s, c.len))]
  {
    PosParts(c.g, c.len, i, Stop(j, c.s, c.len));
    PosParts(c.g, c.len, i, Stop(j - 1, c.s, c.len));
    PosShift(c.g, c.len, i, Stop(j, c.s, c.len), c.s);
    StopMove(j, c.s, c.len);
  }

  /** Cell by cell: only the stop just reached and the start of the cycle change. */
  lemma MoveCell<T>(w: seq<T>, c: Cycles, i: nat, j: nat, x: nat)
    requires c.Valid() && |w| == c.total && i < c.g && j < c.len && x < |w|
    ensures var p, q := Pos(c.g, i, Stop(j, c.s, c.len)), Pos(c.g, i, c.s);
            && p < |w| && q < |w|
            && (x == q ==> Cell(w, c, i, j + 1, x) == Cell(w, c, i, j, p))
            && (x == p != q ==> Cell(w, c, i, j + 1, x) == Cell(w, c, i, j, q))
            && (x != p && x != q ==> Cell(w, c, i, j + 1, x) == Cell(w, c, i, j, x))
  {
    hide Cell, Pos, Stop, Inverse, Cycles.Valid, Cycles.CycleOf, Cycles.StopOf;
    Locate(c, x);
    var y', y := Stop(j, c.s, c.len), c.StopOf(x);
    Within(c, i, y');
    Within(c, i, c.s);
    CellPicks(w, c, i, j);
    StopsDiffer(c, j, y);
    StopsDiffer(c, j, y');
    LastStopIsStart(c, j);
    if c.CycleOf(x) == i {
      MoveCellInCycle(w, c, i, j, x, y', Pos(c.g, i, y'), Pos(c.g, i, c.s));
    } else {
      MoveCellElsewhere(w, c, i, j, x);
    }
  }

  lemma MoveCellElsewhere<T>(w: seq<T>, c: Cycles, i: nat, j: nat, x: nat)
    requires c.Valid() && |w| == c.total && j < c.len && x < |w| && c.CycleOf(x) != i
    ensures Cell(w, c, i, j + 1, x) == Cell(w, c, i, j, x)
  {
  }

  lemma MoveCellInCycle<T>(w: seq<T>, c: Cycles, i: nat, j: nat, x: nat, y': nat, p: nat, q: nat)
    requires c.Valid() && |w| == c.total && i < c.g && j < c.len && x < |w| && c.CycleOf(x) == i
    requires p < |w| && c.CycleOf(p) == i && c.StopOf(p) == y' && p == Pos(c.g, i, y')
    requires q < |w| && c.CycleOf(q) == i && c.StopOf(q) == c.s
    requires c.StopOf(x) == y' <==> x == p
    requires c.StopOf(x) == c.s <==> x == q
    requires y' == Stop(j, c.s, c.len) && Stop(y', c.t, c.len) == j
    requires Stop(c.StopOf(x), c.t, c.len) == j <==> c.StopOf(x) == y'
    requires y' == c.s <==> j == c.len - 1
    requires Pos(c.g, i, Stop(j - 1, c.s, c.len)) < |w|
    requires w[(p + c.first) % |w|] == w[Pos(c.g, i, Stop(j - 1, c.s, c.len))]
    ensures x == q ==> Cell(w, c, i, j + 1, x) == Cell(w, c, i, j, p)
    ensures x == p != q ==> Cell(w, c, i, j + 1, x) == Cell(w, c, i, j, q)
    ensures x != p && x != q ==> Cell(w, c, i, j + 1, x) == Cell(w, c, i, j, x)
  {
    hide Pos, Stop, Inverse, Cycles.Valid, Cycles.CycleOf, Cycles.StopOf;
  }

  /** One trip round the inner loop. */
  lemma MoveContents<T>(w: seq<T>, c: Cycles, i: nat, j: nat)
    requires c.Valid() && |w| == c.total && i < c.g && j < c.len
    ensures Pos(c.g, i, Stop(j, c.s, c.len)) < |w| && Pos(c.g, i, c.s) < |w|
    ensures Swapped(Contents(w, c, i, j), Pos(c.g, i, Stop(j, c.s, c.len)), Pos(c.g, i, c.s))
            == Contents(w, c, i, j + 1)
  {
    PosParts(c.g, c.len, i, Stop(j, c.s, c.len));
    PosParts(c.g, c.len, i, c.s);
    forall x | 0 <= x < |w|
      ensures Swapped(Contents(w, c, i, j), Pos(c.g, i, Stop(j, c.s, c.len)), Pos(c.g, i, c.s))[x]
              == Contents(w, c, i, j + 1)[x]
    {
      MoveCell(w, c, i, j, x);
    }
  }

  lemma NextCycleCell<T>(w: seq<T>, c: Cycles, i: nat, x: nat)
    requires c.Valid() && |w| == c.total && i < c.g && x < |w|
    ensures Cell(w, c, i, c.len, x) == Cell(w, c, i + 1, 0, x)
  {
    var y := c.StopOf(x);
    PosOf(c.g, c.len, x);
    if c.CycleOf(x) == i && y == c.s {
      PosShift(c.g, c.len, i, y, c.s);
      StopPeriod(-2, c.s, c.len);
    } else if c.CycleOf(x) == i + 1 && y == c.s {
      DivModUnique(c.s, c.len, 0, c.s);
    }
  }

  lemma NextCycle<T>(w: seq<T>, c: Cycles, i: nat)
    requires c.Valid() && |w| == c.total && i < c.g
    ensures Contents(w, c, i, c.len) == Contents(w, c, i + 1, 0)
  {
    forall x | 0 <= x < |w| ensures Contents(w, c, i, c.len)[x] == Contents(w, c, i + 1, 0)[x] {
      NextCycleCell(w, c, i, x);
    }
  }

  lemma AtStart<T>(w: seq<T>, c: Cycles)
    requires c.Valid() && |w| == c.total
    ensures Contents(w, c, 0, 0) == w
  {
    forall x | 0 <= x < |w| ensures Contents(w, c, 0, 0)[x] == w[x] {
      PosOf(c.g, c.len, x);
      DivModUnique(c.s, c.len, 0, c.s);
    }
  }

  lemma AtEnd<T>(w: seq<T>, c: Cycles)
    requires c.Valid() && |w| == c.total
    ensures c.first <= |w| && Contents(w, c, c.g, 0) == w[c.first..] + w[..c.first]
  {
    MulMono(c.g, c.s, c.len);
    var a, n := c.first, |w|;
    forall x | 0 <= x < n ensures Contents(w, c, c.g, 0)[x] == (w[a..] + w[..a])[x] {
      PosOf(c.g, c.len, x);
      var q := if x + a < n then 0 else 1;
      DivModUnique(x + a, n, q, x + a - n * q);
    }
  }

  // ----- the method

  /** The number and the size of the cycles. */
  method Lengths(nnonopts: nat, nopts: nat) returns (ncycle: nat, cyclelen: nat, ghost c: Cycles)
    requires nopts > 0
    ensures c.Valid() && c.g == ncycle && c.len == cyclelen
    ensures c.first == nnonopts && c.total == nnonopts + nopts
  {
    ghost var u, v;
    ncycle, u, v := Gcd(nnonopts, nopts);
    cyclelen := (nnonopts + nopts) / ncycle;
    c := Geometry(nnonopts, nopts, ncycle, u, v);
  }

  /** Exchanges the block from `start` to `middle` with the one from `middle` to `end`, keeping
      the order inside each; nothing outside them changes. */
  method PermuteArgs<T>(nargv: array<T>, start: nat, middle: nat, end: nat)
    requires start <= middle < end <= nargv.Length
    modifies nargv
    ensures nargv[..] == old(nargv[..start] + nargv[middle..end] + nargv[start..middle] + nargv[end..])
  {
    var nnonopts, nopts := middle - start, end - middle;
    var ncycle, cyclelen; ghost var c;
    ncycle, cyclelen, c := Lengths(nnonopts, nopts);
    ghost var w := nargv[start..end];
    ghost var before, after := nargv[..start], nargv[end..];
    hide Contents, Cycles.Valid, Pos, Stop;
    AtStart(w, c);
    Window(nargv[..], start, middle, end);
    AllCycles(nargv, nnonopts, nopts, middle, ncycle, cyclelen, w, c, before, after);
    AtEnd(w, c);
  }

  /** The outer loop. */
  method AllCycles<T>(nargv: array<T>, nnonopts: nat, nopts: nat, middle: nat, ncycle: nat, cyclelen: nat,
                      ghost w: seq<T>, ghost c: Cycles, ghost before: seq<T>, ghost after: seq<T>)
    requires c.Valid() && |w| == c.total && ncycle == c.g && cyclelen == c.len
    requires c.first == nnonopts && c.total == nnonopts + nopts && middle == |before| + nnonopts
    requires nargv[..] == before + Contents(w, c, 0, 0) + after
    modifies nargv
    ensures nargv[..] == before + Contents(w, c, c.g, 0) + after
  {
    hide Contents, Cycles.Valid, Pos, Stop;
    var i := 0;
    while i < ncycle
      invariant 0 <= i <= ncycle
      invariant nargv[..] == before + Contents(w, c, i, 0) + after
    {
      OneCycle(nargv, nnonopts, nopts, middle, cyclelen, i, w, c, before, after);
      NextCycle(w, c, i);
      i := i + 1;
    }
  }

  lemma Window<T>(all: seq<T>, start: nat, middle: nat, end: nat)
    requires start <= middle <= end <= |all|
    ensures all == all[..start] + all[start..end] + all[end..]
    ensures var w := all[start..end];
            all[..start] + (w[middle - start..] + w[..middle - start]) + all[end..]
            == all[..start] + all[middle..end] + all[start..middle] + all[end..]
  {
    var w := all[start..end];
    assert w[middle - start..] == all[middle..end];
    assert w[..middle - start] == all[start..middle];
  }

  /** The inner loop: the elements of one cycle move on by one stop. */
  method OneCycle<T>(nargv: array<T>, nnonopts: nat, nopts: nat, middle: nat, cyclelen: nat, i: nat,
                     ghost w: seq<T>, ghost c: Cycles, ghost before: seq<T>, ghost after: seq<T>)
    requires c.Valid() && |w| == c.total && i < c.g && cyclelen == c.len
    requires c.first == nnonopts && c.total == nnonopts + nopts && middle == |before| + nnonopts
    requires nargv[..] == before + Contents(w, c, i, 0) + after
    modifies nargv
    ensures nargv[..] == before + Contents(w, c, i, c.len) + after
  {
    hide Contents, Pos, Stop, Cycles.Valid, Swapped;
    var cstart := middle + i;
    var pos := cstart;
    var j := 0;
    FirstPos(c, i);
    while j < cyclelen
      invariant 0 <= j <= cyclelen
      invariant cstart == |before| + Pos(c.g, i, c.s)
      invariant pos == |before| + Pos(c.g, i, Stop(j - 1, c.s, c.len))
      invariant nargv[..] == before + Contents(w, c, i, j) + after
    {
      NextPos(c, i, j);
      if pos >= middle {
        pos := pos - nnonopts;
      } else {
        pos := pos + nopts;
      }
      MoveContents(w, c, i, j);
      SwappedMiddle(before, Contents(w, c, i, j), after, pos - |before|, cstart - |before|);
      Swap(nargv, pos, cstart);
      j := j + 1;
    }
  }

  method Swap<T>(nargv: array<T>, pos: nat, cstart: nat)
    requires pos < nargv.Length && cstart < nargv.Length
    modifies nargv
    ensures nargv[..] == Swapped(old(nargv[..]), pos, cstart)
  {
    var swap := nargv[pos];
    nargv[pos] := nargv[cstart];
    nargv[cstart] := swap;
  }

  lemma SwappedMiddle<T>(before: seq<T>, w: seq<T>, after: seq<T>, p: nat, q: nat)
    requires p < |w| && q < |w|
    ensures Swapped(before + w + after, |before| + p, |before| + q) == before + Swapped(w, p, q) + after
  {
  }

  lemma FirstPos(c: Cycles, i: nat)
    requires c.Valid() && i < c.g
    ensures Pos(c.g, i, c.s) == c.first + i
    ensures Stop(-1, c.s, c.len) == c.s
  {
    assert -(-1 * (c.s as int)) == c.s;
    DivModUnique(c.s, c.len, 0, c.s);
  }

  lemma NextPos(c: Cycles, i: nat, j: nat)
    requires c.Valid() && i < c.g && j < c.len
    ensures var p, p' := Pos(c.g, i, Stop(j - 1, c.s, c.len)), Pos(c.g, i, Stop(j, c.s, c.len));
            p' == if p >= c.first then p - c.first else p + (c.total - c.first)
  {
    StopMove(j - 1, c.s, c.len);
    PosMove(c.g, c.len, i, Stop(j - 1, c.s, c.len), c.s);
  }

  lemma Geometry(a: nat, b: nat, g: nat, u: int, v: int) returns (c: Cycles)
    requires b > 0 && g > 0 && a % g == 0 && b % g == 0 && g == u * a + v * b
    ensures c.Valid() && c.g == g && c.first == a && c.total == a + b && c.len == (a + b) / g
  {
    var s, z := DivMod(a, g);
    var r, z' := DivMod(b, g);
    Distribute(g, s, r);
    DivModUnique(a + b, g, s + r, 0);
    BezoutInverse(g, s, r, u, v);
    c := Cycles(g, s + r, s, u - v, a, a + b);
  }
}
