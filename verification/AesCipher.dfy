/** The block cipher as the code runs it: steps in place on a 4 by 4 state. */
module AesCipher {
  import opened Aes
  import opened Gf256
  import T = AesTables

  type State = array2<bv8>

  ghost predicate IsState(s: State) { s.Length0 == 4 && s.Length1 == 4 }

  ghost function ColumnOf(s: State, j: nat): Column
    reads s
    requires IsState(s) && j < 4
  {
    Column(s[0, j], s[1, j], s[2, j], s[3, j])
  }

  ghost function View(s: State): Grid
    reads s
    requires IsState(s)
  {
    Grid(ColumnOf(s, 0), ColumnOf(s, 1), ColumnOf(s, 2), ColumnOf(s, 3))
  }

  method SubBytes(s: State)
    requires IsState(s)
    modifies s
    ensures View(s) == SubGrid(old(View(s)))
  {
    hide T.Sub;
    forall i, j | 0 <= i < 4 && 0 <= j < 4 {
      s[i, j] := T.Sub(s[i, j]);
    }
  }

  method InvSubBytes(s: State)
    requires IsState(s)
    modifies s
    ensures View(s) == InvSubGrid(old(View(s)))
  {
    hide T.InvSub;
    forall i, j | 0 <= i < 4 && 0 <= j < 4 {
      s[i, j] := T.InvSub(s[i, j]);
    }
  }

  method SetRow(s: State, i: nat, x0: bv8, x1: bv8, x2: bv8, x3: bv8)
    requires IsState(s) && i < 4
    modifies s
    ensures s[i, 0] == x0 && s[i, 1] == x1 && s[i, 2] == x2 && s[i, 3] == x3
    ensures forall k, j :: 0 <= k < 4 && 0 <= j < 4 && k != i ==> s[k, j] == old(s[k, j])
  {
    s[i, 0], s[i, 1], s[i, 2], s[i, 3] := x0, x1, x2, x3;
  }

  method ShiftRows(s: State)
    requires IsState(s)
    modifies s
    ensures View(s) == ShiftGrid(old(View(s)))
  {
    SetRow(s, 1, s[1, 1], s[1, 2], s[1, 3], s[1, 0]);
    SetRow(s, 2, s[2, 2], s[2, 3], s[2, 0], s[2, 1]);
    SetRow(s, 3, s[3, 3], s[3, 0], s[3, 1], s[3, 2]);
  }

  method InvShiftRows(s: State)
    requires IsState(s)
    modifies s
    ensures View(s) == InvShiftGrid(old(View(s)))
  {
    SetRow(s, 1, s[1, 3], s[1, 0], s[1, 1], s[1, 2]);
    SetRow(s, 2, s[2, 2], s[2, 3], s[2, 0], s[2, 1]);
    SetRow(s, 3, s[3, 1], s[3, 2], s[3, 3], s[3, 0]);
  }

  method AddRoundKeyColumn(s: State, j: nat, w: bv32)
    requires IsState(s) && j < 4
    modifies s
    ensures ColumnOf(s, j) == AddWord(old(ColumnOf(s, j)), w)
    ensures forall k :: 0 <= k < 4 && k != j ==> ColumnOf(s, k) == old(ColumnOf(s, k))
  {
    hide Xor, Byte0, Byte1, Byte2, Byte3;
    s[0, j] := Xor(s[0, j], Byte3(w));
    s[1, j] := Xor(s[1, j], Byte2(w));
    s[2, j] := Xor(s[2, j], Byte1(w));
    s[3, j] := Xor(s[3, j], Byte0(w));
  }

  method AddRoundKey(s: State, key: seq<bv32>, r: nat)
    requires IsState(s) && 4 * r + 4 <= |key|
    modifies s
    ensures View(s) == AddKey(old(View(s)), key, r)
  {
    hide AddWord, ColumnOf;
    AddRoundKeyColumn(s, 0, key[4 * r]);
    AddRoundKeyColumn(s, 1, key[4 * r + 1]);
    AddRoundKeyColumn(s, 2, key[4 * r + 2]);
    AddRoundKeyColumn(s, 3, key[4 * r + 3]);
  }

  lemma Left4(a: bv8, b: bv8, c: bv8, d: bv8)
    ensures Xor(Xor(Xor(a, b), c), d) == Xor4(a, b, c, d)
  {
    hide Xor;
    Assoc(Xor(a, b), c, d);
  }

  method MixColumnInPlace(s: State, j: nat)
    requires IsState(s) && j < 4
    modifies s
    ensures ColumnOf(s, j) == MixColumn(old(ColumnOf(s, j)))
    ensures forall k :: 0 <= k < 4 && k != j ==> ColumnOf(s, k) == old(ColumnOf(s, k))
  {
    hide Xor, Xor4, T.Mul2, T.Mul3;
    var c0, c1, c2, c3 := s[0, j], s[1, j], s[2, j], s[3, j];
    s[0, j] := Xor(Xor(Xor(T.Mul2(c0), T.Mul3(c1)), c2), c3);
    Left4(T.Mul2(c0), T.Mul3(c1), c2, c3);
    s[1, j] := Xor(Xor(Xor(c0, T.Mul2(c1)), T.Mul3(c2)), c3);
    Left4(c0, T.Mul2(c1), T.Mul3(c2), c3);
    s[2, j] := Xor(Xor(Xor(c0, c1), T.Mul2(c2)), T.Mul3(c3));
    Left4(c0, c1, T.Mul2(c2), T.Mul3(c3));
    s[3, j] := Xor(Xor(Xor(T.Mul3(c0), c1), c2), T.Mul2(c3));
    Left4(T.Mul3(c0), c1, c2, T.Mul2(c3));
  }

  method MixColumns(s: State)
    requires IsState(s)
    modifies s
    ensures View(s) == MixGrid(old(View(s)))
  {
    hide MixColumn, ColumnOf;
    MixColumnInPlace(s, 0);
    MixColumnInPlace(s, 1);
    MixColumnInPlace(s, 2);
    MixColumnInPlace(s, 3);
  }

  method InvMixColumnInPlace(s: State, j: nat)
    requires IsState(s) && j < 4
    modifies s
    ensures ColumnOf(s, j) == InvMixColumn(old(ColumnOf(s, j)))
    ensures forall k :: 0 <= k < 4 && k != j ==> ColumnOf(s, k) == old(ColumnOf(s, k))
  {
    hide Xor, Xor4, T.Mul9, T.Mul11, T.Mul13, T.Mul14;
    var c0, c1, c2, c3 := s[0, j], s[1, j], s[2, j], s[3, j];
    s[0, j] := Xor(Xor(Xor(T.Mul14(c0), T.Mul11(c1)), T.Mul13(c2)), T.Mul9(c3));
    Left4(T.Mul14(c0), T.Mul11(c1), T.Mul13(c2), T.Mul9(c3));
    s[1, j] := Xor(Xor(Xor(T.Mul9(c0), T.Mul14(c1)), T.Mul11(c2)), T.Mul13(c3));
    Left4(T.Mul9(c0), T.Mul14(c1), T.Mul11(c2), T.Mul13(c3));
    s[2, j] := Xor(Xor(Xor(T.Mul13(c0), T.Mul9(c1)), T.Mul14(c2)), T.Mul11(c3));
    Left4(T.Mul13(c0), T.Mul9(c1), T.Mul14(c2), T.Mul11(c3));
    s[3, j] := Xor(Xor(Xor(T.Mul11(c0), T.Mul13(c1)), T.Mul9(c2)), T.Mul14(c3));
    Left4(T.Mul11(c0), T.Mul13(c1), T.Mul9(c2), T.Mul14(c3));
  }

  method InvMixColumns(s: State)
    requires IsState(s)
    modifies s
    ensures View(s) == InvMixGrid(old(View(s)))
  {
    hide InvMixColumn, ColumnOf;
    InvMixColumnInPlace(s, 0);
    InvMixColumnInPlace(s, 1);
    InvMixColumnInPlace(s, 2);
    InvMixColumnInPlace(s, 3);
  }

  // ----- blocks

  type Block = b: seq<bv8> | |b| == 16 witness seq(16, _ => 0)

  /** Sixteen bytes fill the state column by column. */
  function GridOf(b: Block): Grid {
    Grid(Column(b[0], b[1], b[2], b[3]), Column(b[4], b[5], b[6], b[7]),
         Column(b[8], b[9], b[10], b[11]), Column(b[12], b[13], b[14], b[15]))
  }

  function BytesOf(g: Grid): Block {
    [g.c0.b0, g.c0.b1, g.c0.b2, g.c0.b3, g.c1.b0, g.c1.b1, g.c1.b2, g.c1.b3,
     g.c2.b0, g.c2.b1, g.c2.b2, g.c2.b3, g.c3.b0, g.c3.b1, g.c3.b2, g.c3.b3]
  }

  lemma BlockRoundTrip(b: Block)
    ensures BytesOf(GridOf(b)) == b
  {
  }

  method Load(b: array<bv8>) returns (s: State)
    requires b.Length == 16
    ensures fresh(s) && IsState(s) && View(s) == GridOf(b[..])
  {
    s := new bv8[4, 4];
    forall i, j | 0 <= i < 4 && 0 <= j < 4 {
      s[i, j] := b[4 * j + i];
    }
  }

  method SaveColumn(s: State, j: nat, b: array<bv8>)
    requires IsState(s) && j < 4 && b.Length == 16
    modifies b
    ensures Column(b[4 * j], b[4 * j + 1], b[4 * j + 2], b[4 * j + 3]) == ColumnOf(s, j)
    ensures forall k :: 0 <= k < 16 && !(4 * j <= k < 4 * j + 4) ==> b[k] == old(b[k])
  {
    b[4 * j], b[4 * j + 1], b[4 * j + 2], b[4 * j + 3] := s[0, j], s[1, j], s[2, j], s[3, j];
  }

  method Save(s: State, b: array<bv8>)
    requires IsState(s) && b.Length == 16
    modifies b
    ensures b[..] == BytesOf(View(s))
  {
    hide ColumnOf;
    SaveColumn(s, 0, b);
    SaveColumn(s, 1, b);
    SaveColumn(s, 2, b);
    SaveColumn(s, 3, b);
    assert GridOf(b[..]) == View(s);
    BlockRoundTrip(b[..]);
  }

  // ----- the cipher, for the three key sizes

  function RoundsOf(keysize: nat): (n: nat)
    ensures n > 0
  {
    if keysize == 128 then 10 else if keysize == 192 then 12 else 14
  }

  /** Six more rounds than the key has words, section 5 of FIPS 197. */
  lemma RoundsIs(keysize: nat)
    requires keysize == 128 || keysize == 192 || keysize == 256
    ensures RoundsOf(keysize) == keysize / 32 + 6
  {
  }

  predicate KeyOk(key: seq<bv32>, keysize: nat) {
    (keysize == 128 || keysize == 192 || keysize == 256) && |key| >= 4 * RoundsOf(keysize) + 4
  }

  function Encrypt(b: Block, key: seq<bv32>, keysize: nat): Block
    requires KeyOk(key, keysize)
  {
    BytesOf(EncryptGrid(GridOf(b), key, RoundsOf(keysize)))
  }

  function Decrypt(b: Block, key: seq<bv32>, keysize: nat): Block
    requires KeyOk(key, keysize)
  {
    BytesOf(DecryptGrid(GridOf(b), key, RoundsOf(keysize)))
  }

  /** `aes_decrypt` undoes `aes_encrypt` for every block, every array of round keys and all three key sizes. */
  lemma BlockInverse(b: Block, key: seq<bv32>, keysize: nat)
    requires KeyOk(key, keysize)
    ensures Decrypt(Encrypt(b, key, keysize), key, keysize) == b
  {
    hide EncryptGrid, DecryptGrid;
    DecryptUndoesEncrypt(GridOf(b), key, RoundsOf(keysize));
    BlockRoundTrip(b);
  }

  method Round(s: State, key: seq<bv32>, r: nat, ghost g: Grid)
    requires IsState(s) && 0 < r && 4 * r + 4 <= |key| && View(s) == Rounds(g, key, r - 1)
    modifies s
    ensures View(s) == Rounds(g, key, r)
  {
    hide View, SubGrid, ShiftGrid, MixGrid, AddKey;
    SubBytes(s);
    ShiftRows(s);
    MixColumns(s);
    AddRoundKey(s, key, r);
  }

  method LastRound(s: State, key: seq<bv32>, r: nat)
    requires IsState(s) && 4 * r + 4 <= |key|
    modifies s
    ensures View(s) == AddKey(ShiftGrid(SubGrid(old(View(s)))), key, r)
  {
    hide View, SubGrid, ShiftGrid, AddKey;
    SubBytes(s);
    ShiftRows(s);
    AddRoundKey(s, key, r);
  }

  /** `aes_encrypt`: one more pair of rounds for each larger key. */
  method EncryptBlock(input: array<bv8>, out: array<bv8>, key: seq<bv32>, keysize: nat)
    requires input.Length == 16 && out.Length == 16 && KeyOk(key, keysize)
    modifies out
    ensures out[..] == Encrypt(old(input[..]), key, keysize)
  {
    hide View, GridOf, BytesOf, AddKey, SubGrid, ShiftGrid, MixGrid;
    var s := Load(input);
    ghost var g := GridOf(input[..]);
    AddRoundKey(s, key, 0);
    FirstRound(g, key);
    hide Rounds;
    Round(s, key, 1, g);
    Round(s, key, 2, g);
    Round(s, key, 3, g);
    Round(s, key, 4, g);
    Round(s, key, 5, g);
    Round(s, key, 6, g);
    Round(s, key, 7, g);
    Round(s, key, 8, g);
    Round(s, key, 9, g);
    if keysize != 128 {
      Round(s, key, 10, g);
      Round(s, key, 11, g);
      if keysize != 192 {
        Round(s, key, 12, g);
        Round(s, key, 13, g);
        LastRound(s, key, 14);
      } else {
        LastRound(s, key, 12);
      }
    } else {
      LastRound(s, key, 10);
    }
    Save(s, out);
  }

  lemma FirstRound(g: Grid, key: seq<bv32>)
    requires |key| >= 4
    ensures Rounds(g, key, 0) == AddKey(g, key, 0)
  {
  }

  /** One turn of decryption: what is left to do from round `r` down is unchanged. */
  method InvRound(s: State, key: seq<bv32>, r: nat)
    requires IsState(s) && 0 < r && 4 * r + 4 <= |key|
    modifies s
    ensures InvRounds(View(s), key, r - 1) == old(InvRounds(View(s), key, r))
  {
    hide View, InvSubGrid, InvShiftGrid, InvMixGrid, AddKey;
    InvShiftRows(s);
    InvSubBytes(s);
    AddRoundKey(s, key, r);
    InvMixColumns(s);
  }

  lemma LastInvRound(g: Grid, key: seq<bv32>)
    requires |key| >= 4
    ensures InvRounds(g, key, 0) == AddKey(InvSubGrid(InvShiftGrid(g)), key, 0)
  {
  }

  /** `aes_decrypt`. */
  method DecryptBlock(input: array<bv8>, out: array<bv8>, key: seq<bv32>, keysize: nat)
    requires input.Length == 16 && out.Length == 16 && KeyOk(key, keysize)
    modifies out
    ensures out[..] == Decrypt(old(input[..]), key, keysize)
  {
    hide View, GridOf, BytesOf, AddKey, InvSubGrid, InvShiftGrid, InvRounds;
    var s := Load(input);
    ghost var g := GridOf(input[..]);
    if keysize > 128 {
      if keysize > 192 {
        AddRoundKey(s, key, 14);
        InvRound(s, key, 13);
        InvRound(s, key, 12);
      } else {
        AddRoundKey(s, key, 12);
      }
      InvRound(s, key, 11);
      InvRound(s, key, 10);
    } else {
      AddRoundKey(s, key, 10);
    }
    assert InvRounds(View(s), key, 9) == DecryptGrid(g, key, RoundsOf(keysize));
    InvRound(s, key, 9);
    InvRound(s, key, 8);
    InvRound(s, key, 7);
    InvRound(s, key, 6);
    InvRound(s, key, 5);
    InvRound(s, key, 4);
    InvRound(s, key, 3);
    InvRound(s, key, 2);
    InvRound(s, key, 1);
    LastInvRound(View(s), key);
    InvShiftRows(s);
    InvSubBytes(s);
    AddRoundKey(s, key, 0);
    Save(s, out);
  }
}
