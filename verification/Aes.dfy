/** The AES block transforms: decryption undoes encryption for every block and every array of round keys. */
module Aes {
  import opened Gf256
  import F = AesField
  import T = AesTables

  datatype Column = Column(b0: bv8, b1: bv8, b2: bv8, b3: bv8)

  /** The four columns of the state. */
  datatype Grid = Grid(c0: Column, c1: Column, c2: Column, c3: Column)

  // ----- the steps, sections 5.1 and 5.3 of FIPS 197

  function SubColumn(c: Column): Column {
    Column(T.Sub(c.b0), T.Sub(c.b1), T.Sub(c.b2), T.Sub(c.b3))
  }

  function InvSubColumn(c: Column): Column {
    Column(T.InvSub(c.b0), T.InvSub(c.b1), T.InvSub(c.b2), T.InvSub(c.b3))
  }

  function SubGrid(g: Grid): Grid {
    Grid(SubColumn(g.c0), SubColumn(g.c1), SubColumn(g.c2), SubColumn(g.c3))
  }

  function InvSubGrid(g: Grid): Grid {
    Grid(InvSubColumn(g.c0), InvSubColumn(g.c1), InvSubColumn(g.c2), InvSubColumn(g.c3))
  }

  /** Row i moves left by i. */
  function ShiftGrid(g: Grid): Grid {
    Grid(Column(g.c0.b0, g.c1.b1, g.c2.b2, g.c3.b3), Column(g.c1.b0, g.c2.b1, g.c3.b2, g.c0.b3),
         Column(g.c2.b0, g.c3.b1, g.c0.b2, g.c1.b3), Column(g.c3.b0, g.c0.b1, g.c1.b2, g.c2.b3))
  }

  /** Row i moves right by i. */
  function InvShiftGrid(g: Grid): Grid {
    Grid(Column(g.c0.b0, g.c3.b1, g.c2.b2, g.c1.b3), Column(g.c1.b0, g.c0.b1, g.c3.b2, g.c2.b3),
         Column(g.c2.b0, g.c1.b1, g.c0.b2, g.c3.b3), Column(g.c3.b0, g.c2.b1, g.c1.b2, g.c0.b3))
  }

  function MixColumn(c: Column): Column {
    Column(Xor4(T.Mul2(c.b0), T.Mul3(c.b1), c.b2, c.b3), Xor4(c.b0, T.Mul2(c.b1), T.Mul3(c.b2), c.b3),
           Xor4(c.b0, c.b1, T.Mul2(c.b2), T.Mul3(c.b3)), Xor4(T.Mul3(c.b0), c.b1, c.b2, T.Mul2(c.b3)))
  }

  function InvMixColumn(c: Column): Column {
    Column(Xor4(T.Mul14(c.b0), T.Mul11(c.b1), T.Mul13(c.b2), T.Mul9(c.b3)),
           Xor4(T.Mul9(c.b0), T.Mul14(c.b1), T.Mul11(c.b2), T.Mul13(c.b3)),
           Xor4(T.Mul13(c.b0), T.Mul9(c.b1), T.Mul14(c.b2), T.Mul11(c.b3)),
           Xor4(T.Mul11(c.b0), T.Mul13(c.b1), T.Mul9(c.b2), T.Mul14(c.b3)))
  }

  function MixGrid(g: Grid): Grid {
    Grid(MixColumn(g.c0), MixColumn(g.c1), MixColumn(g.c2), MixColumn(g.c3))
  }

  function InvMixGrid(g: Grid): Grid {
    Grid(InvMixColumn(g.c0), InvMixColumn(g.c1), InvMixColumn(g.c2), InvMixColumn(g.c3))
  }

  function Byte3(w: bv32): bv8 { (w >> 24) as bv8 }

  function Byte2(w: bv32): bv8 { ((w >> 16) & 0xff) as bv8 }

  function Byte1(w: bv32): bv8 { ((w >> 8) & 0xff) as bv8 }

  function Byte0(w: bv32): bv8 { (w & 0xff) as bv8 }

  /** A column and a word of the key, most significant byte first. */
  function AddWord(c: Column, w: bv32): Column {
    Column(Xor(c.b0, Byte3(w)), Xor(c.b1, Byte2(w)), Xor(c.b2, Byte1(w)), Xor(c.b3, Byte0(w)))
  }

  /** Round key `r`. */
  function AddKey(g: Grid, key: seq<bv32>, r: nat): Grid
    requires 4 * r + 4 <= |key|
  {
    Grid(AddWord(g.c0, key[4 * r]), AddWord(g.c1, key[4 * r + 1]), AddWord(g.c2, key[4 * r + 2]),
         AddWord(g.c3, key[4 * r + 3]))
  }

  // ----- each step is undone

  lemma SubUndone(g: Grid)
    ensures InvSubGrid(InvShiftGrid(ShiftGrid(SubGrid(g)))) == g
  {
    hide T.Sub, T.InvSub, SubColumn, InvSubColumn;
    SubColumnParts(g);
    SubColumnUndone(g.c0);
    SubColumnUndone(g.c1);
    SubColumnUndone(g.c2);
    SubColumnUndone(g.c3);
  }

  lemma SubColumnParts(g: Grid)
    ensures InvSubGrid(InvShiftGrid(ShiftGrid(SubGrid(g))))
         == Grid(InvSubColumn(SubColumn(g.c0)), InvSubColumn(SubColumn(g.c1)), InvSubColumn(SubColumn(g.c2)),
                 InvSubColumn(SubColumn(g.c3)))
  {
    hide T.Sub, T.InvSub;
  }

  lemma SubColumnUndone(c: Column)
    ensures InvSubColumn(SubColumn(c)) == c
  {
    hide T.Sub, T.InvSub;
    T.SubInverse(c.b0);
    T.SubInverse(c.b1);
    T.SubInverse(c.b2);
    T.SubInverse(c.b3);
  }

  lemma XorUndone(a: bv8, b: bv8)
    ensures Xor(Xor(a, b), b) == a
  {
    hide Xor;
    Assoc(a, b, b);
    Self(b);
    Self(a);
  }

  lemma AddWordUndone(c: Column, w: bv32)
    ensures AddWord(AddWord(c, w), w) == c
  {
    hide Xor, Byte0, Byte1, Byte2, Byte3;
    XorUndone(c.b0, Byte3(w));
    XorUndone(c.b1, Byte2(w));
    XorUndone(c.b2, Byte1(w));
    XorUndone(c.b3, Byte0(w));
  }

  lemma AddKeyUndone(g: Grid, key: seq<bv32>, r: nat)
    requires 4 * r + 4 <= |key|
    ensures AddKey(AddKey(g, key, r), key, r) == g
  {
    hide AddWord;
    AddWordUndone(g.c0, key[4 * r]);
    AddWordUndone(g.c1, key[4 * r + 1]);
    AddWordUndone(g.c2, key[4 * r + 2]);
    AddWordUndone(g.c3, key[4 * r + 3]);
  }

  lemma MixRows(c: Column)
    ensures MixColumn(c) == Column(F.Mix(c.b0, c.b1, c.b2, c.b3), F.Mix(c.b1, c.b2, c.b3, c.b0),
                                   F.Mix(c.b2, c.b3, c.b0, c.b1), F.Mix(c.b3, c.b0, c.b1, c.b2))
  {
    hide Xor4, T.Mul2, T.Mul3;
    Turn(T.Mul2(c.b1), T.Mul3(c.b2), c.b3, c.b0);
    Turn(T.Mul2(c.b2), T.Mul3(c.b3), c.b0, c.b1);
    Turn(c.b1, T.Mul2(c.b2), T.Mul3(c.b3), c.b0);
    Turn(T.Mul3(c.b0), c.b1, c.b2, T.Mul2(c.b3));
  }

  lemma InvMixRows(c: Column)
    ensures InvMixColumn(c) == Column(F.InvMix(c.b0, c.b1, c.b2, c.b3), F.InvMix(c.b1, c.b2, c.b3, c.b0),
                                      F.InvMix(c.b2, c.b3, c.b0, c.b1), F.InvMix(c.b3, c.b0, c.b1, c.b2))
  {
    hide Xor4, T.Mul9, T.Mul11, T.Mul13, T.Mul14;
    Turn(T.Mul14(c.b1), T.Mul11(c.b2), T.Mul13(c.b3), T.Mul9(c.b0));
    Turn(T.Mul14(c.b2), T.Mul11(c.b3), T.Mul13(c.b0), T.Mul9(c.b1));
    Turn(T.Mul9(c.b1), T.Mul14(c.b2), T.Mul11(c.b3), T.Mul13(c.b0));
    Turn(T.Mul11(c.b0), T.Mul13(c.b1), T.Mul9(c.b2), T.Mul14(c.b3));
  }

  lemma MixColumnUndone(c: Column)
    ensures InvMixColumn(MixColumn(c)) == c
  {
    hide F.Mix, F.InvMix, MixColumn, InvMixColumn;
    MixRows(c);
    InvMixRows(MixColumn(c));
    F.MixUndone(c.b0, c.b1, c.b2, c.b3);
    F.MixUndone(c.b1, c.b2, c.b3, c.b0);
    F.MixUndone(c.b2, c.b3, c.b0, c.b1);
    F.MixUndone(c.b3, c.b0, c.b1, c.b2);
  }

  lemma MixUndone(g: Grid)
    ensures InvMixGrid(MixGrid(g)) == g
  {
    hide MixColumn, InvMixColumn;
    MixColumnUndone(g.c0);
    MixColumnUndone(g.c1);
    MixColumnUndone(g.c2);
    MixColumnUndone(g.c3);
  }

  // ----- the whole transform, for any number of rounds

  /** The state after round `r`, counting the first round key as round 0. */
  function Rounds(g: Grid, key: seq<bv32>, r: nat): Grid
    requires 4 * r + 4 <= |key|
  {
    if r == 0 then AddKey(g, key, 0) else AddKey(MixGrid(ShiftGrid(SubGrid(Rounds(g, key, r - 1)))), key, r)
  }

  /** The last of `n` rounds does not mix columns. */
  function EncryptGrid(g: Grid, key: seq<bv32>, n: nat): Grid
    requires n > 0 && 4 * n + 4 <= |key|
  {
    AddKey(ShiftGrid(SubGrid(Rounds(g, key, n - 1))), key, n)
  }

  /** The inverse rounds from `r` down. */
  function InvRounds(g: Grid, key: seq<bv32>, r: nat): Grid
    requires 4 * r + 4 <= |key|
    decreases r
  {
    var s := AddKey(InvSubGrid(InvShiftGrid(g)), key, r);
    if r == 0 then s else InvRounds(InvMixGrid(s), key, r - 1)
  }

  function DecryptGrid(g: Grid, key: seq<bv32>, n: nat): Grid
    requires n > 0 && 4 * n + 4 <= |key|
  {
    InvRounds(AddKey(g, key, n), key, n - 1)
  }

  lemma {:induction false} InvRoundsUndo(g: Grid, key: seq<bv32>, r: nat)
    requires 4 * r + 4 <= |key|
    ensures InvRounds(ShiftGrid(SubGrid(Rounds(g, key, r))), key, r) == g
  {
    hide AddKey, SubGrid, InvSubGrid, ShiftGrid, InvShiftGrid, MixGrid, InvMixGrid;
    SubUndone(Rounds(g, key, r));
    if r == 0 {
      AddKeyUndone(g, key, 0);
    } else {
      var mixed := MixGrid(ShiftGrid(SubGrid(Rounds(g, key, r - 1))));
      AddKeyUndone(mixed, key, r);
      MixUndone(ShiftGrid(SubGrid(Rounds(g, key, r - 1))));
      InvRoundsUndo(g, key, r - 1);
    }
  }

  /** Decryption undoes encryption, whatever the round keys and the number of rounds. */
  lemma DecryptUndoesEncrypt(g: Grid, key: seq<bv32>, n: nat)
    requires n > 0 && 4 * n + 4 <= |key|
    ensures DecryptGrid(EncryptGrid(g, key, n), key, n) == g
  {
    hide AddKey, SubGrid, ShiftGrid, Rounds, InvRounds;
    AddKeyUndone(ShiftGrid(SubGrid(Rounds(g, key, n - 1))), key, n);
    InvRoundsUndo(g, key, n - 1);
  }
}
