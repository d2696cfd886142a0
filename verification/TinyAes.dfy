/** crypto/tinyaes_src.c: AES-128 on a 4 x 4 state held column by column in a
    buffer of octets, and the chained modes on whole buffers. */
module TinyAes {
  import opened AesColumns
  import opened AesTables

  const NR := 10

  type State = s: seq<bv8> | |s| == 16 witness seq(16, _ => 0)
  type RoundKeys = s: seq<bv8> | |s| == 176 witness seq(176, _ => 0)
  type Word = s: seq<bv8> | |s| == 4 witness seq(4, _ => 0)

  // ----- The steps of a round, on a whole state -----

  function AddRoundKey(round: nat, s: State, rk: RoundKeys): State
    requires round <= NR
  {
    seq(16, k requires 0 <= k < 16 => s[k] ^ rk[16 * round + k])
  }

  function SubBytes(s: State): State { MapOctets(Sbox, s) }

  function InvSubBytes(s: State): State { MapOctets(InvSbox, s) }

  function MapOctets(f: bv8 -> bv8, s: State): State {
    seq(16, k requires 0 <= k < 16 => f(s[k]))
  }

  /** Row r of the state sits at offsets r, r + 4, r + 8, r + 12 and turns left by r. */
  function ShiftRows(s: State): State {
    seq(16, k requires 0 <= k < 16 => s[LeftOf(k)])
  }

  function InvShiftRows(s: State): State {
    seq(16, k requires 0 <= k < 16 => s[RightOf(k)])
  }

  function LeftOf(k: nat): nat
    requires k < 16
  {
    4 * ((k / 4 + k % 4) % 4) + k % 4
  }

  function RightOf(k: nat): nat
    requires k < 16
  {
    4 * ((k / 4 - k % 4) % 4) + k % 4
  }

  function MixColumns(s: State): State { MapColumns(MixColumn, s) }

  function InvMixColumns(s: State): State { MapColumns(InvMixColumn, s) }

  function MapColumns(f: Column -> Column, s: State): State {
    seq(16, k requires 0 <= k < 16 => Entry(f(ColumnAt(s, k / 4)), k % 4))
  }

  function ColumnAt(s: State, i: nat): Column
    requires i < 4
  {
    Column(s[4 * i], s[4 * i + 1], s[4 * i + 2], s[4 * i + 3])
  }

  function Entry(c: Column, j: nat): bv8 {
    if j == 0 then c.a else if j == 1 then c.b else if j == 2 then c.c else c.d
  }

  lemma AddRoundKeyInverse(round: nat, s: State, rk: RoundKeys)
    requires round <= NR
    ensures AddRoundKey(round, AddRoundKey(round, s, rk), rk) == s
  {
    forall k | 0 <= k < 16
      ensures AddRoundKey(round, AddRoundKey(round, s, rk), rk)[k] == s[k]
    {
      XorTwice(s[k], rk[16 * round + k]);
    }
  }

  lemma XorTwice(x: bv8, y: bv8)
    ensures (x ^ y) ^ y == x
  {
  }

  lemma SubBytesInverse(s: State)
    ensures InvSubBytes(SubBytes(s)) == s
  {
    forall x ensures InvSbox(Sbox(x)) == x {
      SboxInverse(x);
    }
    MapOctetsInverse(Sbox, InvSbox, s);
  }

  lemma MapOctetsInverse(f: bv8 -> bv8, g: bv8 -> bv8, s: State)
    requires forall x :: g(f(x)) == x
    ensures MapOctets(g, MapOctets(f, s)) == s
  {
    forall k | 0 <= k < 16 ensures MapOctets(g, MapOctets(f, s))[k] == s[k] {
      assert g(f(s[k])) == s[k];
    }
  }

  lemma ShiftRowsInverse(s: State)
    ensures InvShiftRows(ShiftRows(s)) == s
  {
    forall k | 0 <= k < 16
      ensures InvShiftRows(ShiftRows(s))[k] == s[k]
    {
      LeftOfRight(k);
    }
  }

  lemma LeftOfRight(k: nat)
    requires k < 16
    ensures LeftOf(RightOf(k)) == k
  {
    var column, row := k / 4, k % 4;
    var from := (column - row) % 4;
    assert RightOf(k) / 4 == from && RightOf(k) % 4 == row;
    assert (from + row) % 4 == column;
  }

  lemma MixColumnsInverse(s: State)
    ensures InvMixColumns(MixColumns(s)) == s
  {
    forall c ensures InvMixColumn(MixColumn(c)) == c {
      MixColumnInverse(c);
    }
    MapColumnsInverse(MixColumn, InvMixColumn, s);
  }

  lemma MapColumnsInverse(f: Column -> Column, g: Column -> Column, s: State)
    requires forall c :: g(f(c)) == c
    ensures MapColumns(g, MapColumns(f, s)) == s
  {
    forall k | 0 <= k < 16
      ensures MapColumns(g, MapColumns(f, s))[k] == s[k]
    {
      MapColumnsAt(f, s, k / 4);
      assert s[k] == Entry(ColumnAt(s, k / 4), k % 4);
    }
  }

  lemma MapColumnsAt(f: Column -> Column, s: State, i: nat)
    requires i < 4
    ensures ColumnAt(MapColumns(f, s), i) == f(ColumnAt(s, i))
  {
  }

  // ----- The cipher and its inverse -----

  /** The state after n full rounds. */
  function Rounds(n: nat, s: State, rk: RoundKeys): State
    requires n < NR
  {
    if n == 0 then
      AddRoundKey(0, s, rk)
    else
      AddRoundKey(n, MixColumns(ShiftRows(SubBytes(Rounds(n - 1, s, rk)))), rk)
  }

  function Cipher(s: State, rk: RoundKeys): State {
    AddRoundKey(NR, ShiftRows(SubBytes(Rounds(NR - 1, s, rk))), rk)
  }

  /** The state when the loop of InvCipher is about to run for round n. */
  function InvRounds(n: nat, s: State, rk: RoundKeys): State
    requires n < NR
    decreases NR - n
  {
    if n == NR - 1 then
      AddRoundKey(NR, s, rk)
    else
      InvMixColumns(AddRoundKey(n + 1, InvSubBytes(InvShiftRows(InvRounds(n + 1, s, rk))), rk))
  }

  function InvCipher(s: State, rk: RoundKeys): State {
    AddRoundKey(0, InvSubBytes(InvShiftRows(InvRounds(0, s, rk))), rk)
  }

  lemma SubstitutionUndone(s: State)
    ensures InvSubBytes(InvShiftRows(ShiftRows(SubBytes(s)))) == s
  {
    ShiftRowsInverse(SubBytes(s));
    SubBytesInverse(s);
  }

  lemma MixingUndone(n: nat, s: State, rk: RoundKeys)
    requires n <= NR
    ensures InvMixColumns(AddRoundKey(n, AddRoundKey(n, MixColumns(s), rk), rk)) == s
  {
    AddRoundKeyInverse(n, MixColumns(s), rk);
    MixColumnsInverse(s);
  }

  lemma {:induction false} InvRoundsMirror(n: nat, s: State, rk: RoundKeys)
    requires n < NR
    ensures InvRounds(n, Cipher(s, rk), rk) == ShiftRows(SubBytes(Rounds(n, s, rk)))
    decreases NR - n
  {
    if n == NR - 1 {
      AddRoundKeyInverse(NR, ShiftRows(SubBytes(Rounds(n, s, rk))), rk);
    } else {
      InvRoundsMirror(n + 1, s, rk);
      SubstitutionUndone(Rounds(n + 1, s, rk));
      MixingUndone(n + 1, ShiftRows(SubBytes(Rounds(n, s, rk))), rk);
    }
  }

  /** InvCipher undoes Cipher under any round keys. */
  lemma CipherInverse(s: State, rk: RoundKeys)
    ensures InvCipher(Cipher(s, rk), rk) == s
  {
    InvRoundsMirror(0, s, rk);
    SubstitutionUndone(Rounds(0, s, rk));
    AddRoundKeyInverse(0, s, rk);
  }

  // ----- The same steps in place, on sixteen octets of a buffer -----

  /** The buffer s with the state b at offset p. */
  function Put(s: seq<bv8>, p: nat, b: State): seq<bv8>
    requires p + 16 <= |s|
  {
    s[..p] + b + s[p + 16..]
  }

  /** The first n octets of the state at p have the round key added. */
  ghost predicate KeyAdded(s: seq<bv8>, t: seq<bv8>, p: nat, keys: seq<bv8>, n: nat)
    requires p + 16 <= |s| == |t| && |keys| == 16 && n <= 16
  {
    && (forall k :: 0 <= k < n ==> t[p + k] == s[p + k] ^ keys[k])
    && (forall k :: 0 <= k < p || p + n <= k < |s| ==> t[k] == s[k])
  }

  method AddRoundKeyInPlace(round: nat, buf: array<bv8>, p: nat, rk: array<bv8>)
    requires round <= NR && rk.Length == 176 && rk != buf
    requires p + 16 <= buf.Length
    modifies buf
    ensures buf[..] == Put(old(buf[..]), p, AddRoundKey(round, old(buf[p..p + 16]), rk[..]))
  {
    ghost var s, keys := buf[..], rk[16 * round..16 * round + 16];
    for i := 0 to 4
      invariant KeyAdded(s, buf[..], p, keys, 4 * i)
    {
      for j := 0 to 4
        invariant KeyAdded(s, buf[..], p, keys, 4 * i + j)
      {
        AddOctet(round, buf, p, rk, i, j);
      }
    }
    AllAdded(s, buf[..], p, rk[..], round);
  }

  /** The innermost assignment of AddRoundKey. */
  method AddOctet(round: nat, buf: array<bv8>, p: nat, rk: array<bv8>, i: nat, j: nat)
    requires round <= NR && rk.Length == 176 && rk != buf
    requires p + 16 <= buf.Length && i < 4 && j < 4
    modifies buf
    ensures buf[p + 4 * i + j] == old(buf[p + 4 * i + j]) ^ rk[16 * round..16 * round + 16][4 * i + j]
    ensures forall k :: 0 <= k < buf.Length && k != p + 4 * i + j ==> buf[k] == old(buf[k])
  {
    buf[p + 4 * i + j] := buf[p + 4 * i + j] ^ rk[(round * 4 * 4) + (i * 4) + j];
  }

  lemma AllAdded(s: seq<bv8>, t: seq<bv8>, p: nat, rk: RoundKeys, round: nat)
    requires round <= NR && p + 16 <= |s| == |t|
    requires KeyAdded(s, t, p, rk[16 * round..16 * round + 16], 16)
    ensures t == Put(s, p, AddRoundKey(round, s[p..p + 16], rk))
  {
    OutsideUnchanged(s, t, p);
    var a := s[p..p + 16];
    forall k | 0 <= k < 16 ensures t[p..p + 16][k] == AddRoundKey(round, a, rk)[k] {
      assert t[p + k] == s[p + k] ^ rk[16 * round..16 * round + 16][k];
    }
  }

  /** SubBytes and InvSubBytes differ only in the table. */
  method MapOctetsInPlace(table: bv8 -> bv8, buf: array<bv8>, p: nat)
    requires p + 16 <= buf.Length
    modifies buf
    ensures buf[..] == Put(old(buf[..]), p, MapOctets(table, old(buf[p..p + 16])))
  {
    for i := 0 to 4
      invariant forall k :: 0 <= k < buf.Length ==>
        buf[k] == if p <= k < p + 16 && (k - p) % 4 < i then table(old(buf[k])) else old(buf[k])
    {
      for j := 0 to 4
        invariant forall k :: 0 <= k < buf.Length ==>
          buf[k] == if p <= k < p + 16 && ((k - p) % 4 < i || ((k - p) % 4 == i && (k - p) / 4 < j))
                    then table(old(buf[k])) else old(buf[k])
      {
        buf[p + 4 * j + i] := table(buf[p + 4 * j + i]);
      }
    }
    AllMapped(table, old(buf[..]), buf[..], p);
  }

  lemma AllMapped(table: bv8 -> bv8, s: seq<bv8>, t: seq<bv8>, p: nat)
    requires p + 16 <= |s| == |t|
    requires forall k :: 0 <= k < |s| ==> t[k] == if p <= k < p + 16 then table(s[k]) else s[k]
    ensures t == Put(s, p, MapOctets(table, s[p..p + 16]))
  {
    OutsideUnchanged(s, t, p);
    assert t[p..p + 16] == MapOctets(table, s[p..p + 16]);
  }

  /** Row `row` turned left by `turn` columns, the other rows unchanged. */
  function TurnRow(s: State, row: nat, turn: nat): State
    requires row < 4
  {
    seq(16, k requires 0 <= k < 16 => if k % 4 == row then s[4 * ((k / 4 + turn) % 4) + row] else s[k])
  }

  lemma RowsTurnedLeft(s: State)
    ensures TurnRow(TurnRow(TurnRow(s, 1, 1), 2, 2), 3, 3) == ShiftRows(s)
  {
    forall k | 0 <= k < 16
      ensures TurnRow(TurnRow(TurnRow(s, 1, 1), 2, 2), 3, 3)[k] == ShiftRows(s)[k]
    {
      RowTurnedLeft(s, k / 4, k % 4);
    }
  }

  lemma RowTurnedLeft(s: State, column: nat, row: nat)
    requires column < 4 && row < 4
    ensures TurnRow(TurnRow(TurnRow(s, 1, 1), 2, 2), 3, 3)[4 * column + row] == ShiftRows(s)[4 * column + row]
  {
    ThreeTurns(s, 1, 2, 3, column, row);
    LeftOfParts(column, row);
  }

  lemma LeftOfParts(column: nat, row: nat)
    requires column < 4 && row < 4
    ensures LeftOf(4 * column + row) == 4 * ((column + row) % 4) + row
  {
  }

  lemma RowsTurnedRight(s: State)
    ensures TurnRow(TurnRow(TurnRow(s, 1, 3), 2, 2), 3, 1) == InvShiftRows(s)
  {
    forall k | 0 <= k < 16
      ensures TurnRow(TurnRow(TurnRow(s, 1, 3), 2, 2), 3, 1)[k] == InvShiftRows(s)[k]
    {
      ThreeTurns(s, 3, 2, 1, k / 4, k % 4);
      RightIsLeft(k / 4, k % 4);
    }
  }

  /** Turning right by a row's number is turning left by the rest of four. */
  lemma RightIsLeft(column: nat, row: nat)
    requires column < 4 && row < 4
    ensures (column - row) % 4 == if row == 0 then column else (column + (4 - row)) % 4
  {
  }

  lemma OneTurn(s: State, row: nat, turn: nat, column: nat, at: nat)
    requires row < 4 && column < 4 && at < 4
    ensures TurnRow(s, row, turn)[4 * column + at] ==
            if at == row then s[4 * ((column + turn) % 4) + row] else s[4 * column + at]
  {
    assert (4 * column + at) / 4 == column && (4 * column + at) % 4 == at;
  }

  lemma ThreeTurns(s: State, turn1: nat, turn2: nat, turn3: nat, column: nat, at: nat)
    requires column < 4 && at < 4
    ensures TurnRow(TurnRow(TurnRow(s, 1, turn1), 2, turn2), 3, turn3)[4 * column + at] ==
            if at == 0 then s[4 * column]
            else s[4 * ((column + (if at == 1 then turn1 else if at == 2 then turn2 else turn3)) % 4) + at]
  {
    var s1 := TurnRow(s, 1, turn1);
    var s2 := TurnRow(s1, 2, turn2);
    OneTurn(s2, 3, turn3, column, at);
    var c2 := if at == 3 then (column + turn3) % 4 else column;
    OneTurn(s1, 2, turn2, c2, at);
    var c1 := if at == 2 then (c2 + turn2) % 4 else c2;
    OneTurn(s, 1, turn1, c1, at);
  }

  /** The buffer t is s with row `row` of the state at p turned left by `turn` columns. */
  ghost predicate Turned(s: seq<bv8>, t: seq<bv8>, p: nat, row: nat, turn: nat)
    requires p + 16 <= |s| == |t| && row < 4
  {
    && t[p + row] == s[p + 4 * (turn % 4) + row]
    && t[p + 4 + row] == s[p + 4 * ((1 + turn) % 4) + row]
    && t[p + 8 + row] == s[p + 4 * ((2 + turn) % 4) + row]
    && t[p + 12 + row] == s[p + 4 * ((3 + turn) % 4) + row]
    && forall k :: 0 <= k < |s| && !(p <= k < p + 16 && (k - p) % 4 == row) ==> t[k] == s[k]
  }

  lemma TurnedIsTurnRow(s: seq<bv8>, t: seq<bv8>, p: nat, row: nat, turn: nat)
    requires p + 16 <= |s| == |t| && row < 4
    requires Turned(s, t, p, row, turn)
    ensures t == Put(s, p, TurnRow(s[p..p + 16], row, turn))
  {
    var a, b := s[p..p + 16], t[p..p + 16];
    forall k | 0 <= k < 16 && k % 4 != row ensures b[k] == a[k] {
      assert t[p + k] == s[p + k] by {
        assert (p + k) - p == k;
      }
    }
    TurnRowAt(a, b, row, turn);
    OutsideUnchanged(s, t, p);
  }

  lemma OutsideUnchanged(s: seq<bv8>, t: seq<bv8>, p: nat)
    requires p + 16 <= |s| == |t|
    requires forall k :: 0 <= k < |s| && !(p <= k < p + 16) ==> t[k] == s[k]
    ensures t == Put(s, p, t[p..p + 16])
  {
  }

  // Rotate the first row one column to the left.
  method ShiftFirstRowLeft(buf: array<bv8>, p: nat)
    requires p + 16 <= buf.Length
    modifies buf
    ensures Turned(old(buf[..]), buf[..], p, 1, 1)
  {
    var temp := buf[p + 1];
    buf[p + 1] := buf[p + 5];
    buf[p + 5] := buf[p + 9];
    buf[p + 9] := buf[p + 13];
    buf[p + 13] := temp;
  }

  // Rotate the first row one column to the right.
  method ShiftFirstRowRight(buf: array<bv8>, p: nat)
    requires p + 16 <= buf.Length
    modifies buf
    ensures Turned(old(buf[..]), buf[..], p, 1, 3)
  {
    var temp := buf[p + 13];
    buf[p + 13] := buf[p + 9];
    buf[p + 9] := buf[p + 5];
    buf[p + 5] := buf[p + 1];
    buf[p + 1] := temp;
  }

  // Rotate the second row two columns, either way.
  method ShiftSecondRow(buf: array<bv8>, p: nat)
    requires p + 16 <= buf.Length
    modifies buf
    ensures Turned(old(buf[..]), buf[..], p, 2, 2)
  {
    var temp := buf[p + 2];
    buf[p + 2] := buf[p + 10];
    buf[p + 10] := temp;
    temp := buf[p + 6];
    buf[p + 6] := buf[p + 14];
    buf[p + 14] := temp;
  }

  // Rotate the third row three columns to the left.
  method ShiftThirdRowLeft(buf: array<bv8>, p: nat)
    requires p + 16 <= buf.Length
    modifies buf
    ensures Turned(old(buf[..]), buf[..], p, 3, 3)
  {
    var temp := buf[p + 3];
    buf[p + 3] := buf[p + 15];
    buf[p + 15] := buf[p + 11];
    buf[p + 11] := buf[p + 7];
    buf[p + 7] := temp;
  }

  // Rotate the third row three columns to the right.
  method ShiftThirdRowRight(buf: array<bv8>, p: nat)
    requires p + 16 <= buf.Length
    modifies buf
    ensures Turned(old(buf[..]), buf[..], p, 3, 1)
  {
    var temp := buf[p + 3];
    buf[p + 3] := buf[p + 7];
    buf[p + 7] := buf[p + 11];
    buf[p + 11] := buf[p + 15];
    buf[p + 15] := temp;
  }

  lemma TurnRowAt(s: State, t: State, row: nat, turn: nat)
    requires row < 4
    requires t[row] == s[4 * (turn % 4) + row]
    requires t[4 + row] == s[4 * ((1 + turn) % 4) + row]
    requires t[8 + row] == s[4 * ((2 + turn) % 4) + row]
    requires t[12 + row] == s[4 * ((3 + turn) % 4) + row]
    requires forall k :: 0 <= k < 16 && k % 4 != row ==> t[k] == s[k]
    ensures t == TurnRow(s, row, turn)
  {
    hide TurnRow;
    forall k | 0 <= k < 16 ensures t[k] == TurnRow(s, row, turn)[k] {
      OneTurn(s, row, turn, k / 4, k % 4);
      TurnedEntry(s, t, row, turn, k / 4);
    }
  }

  lemma TurnedEntry(s: State, t: State, row: nat, turn: nat, column: nat)
    requires row < 4 && column < 4
    requires t[row] == s[4 * (turn % 4) + row]
    requires t[4 + row] == s[4 * ((1 + turn) % 4) + row]
    requires t[8 + row] == s[4 * ((2 + turn) % 4) + row]
    requires t[12 + row] == s[4 * ((3 + turn) % 4) + row]
    ensures t[4 * column + row] == s[4 * ((column + turn) % 4) + row]
  {
    if column == 0 {
    } else if column == 1 {
    } else if column == 2 {
    } else {
      assert column == 3;
    }
  }

  lemma ThreeRowsTurned(s0: seq<bv8>, s1: seq<bv8>, s2: seq<bv8>, s3: seq<bv8>, p: nat,
                        turn1: nat, turn2: nat, turn3: nat)
    requires p + 16 <= |s0| == |s1| == |s2| == |s3|
    requires Turned(s0, s1, p, 1, turn1) && Turned(s1, s2, p, 2, turn2) && Turned(s2, s3, p, 3, turn3)
    ensures s3 == Put(s0, p, TurnRow(TurnRow(TurnRow(s0[p..p + 16], 1, turn1), 2, turn2), 3, turn3))
  {
    var a := TurnRow(s0[p..p + 16], 1, turn1);
    var b := TurnRow(a, 2, turn2);
    TurnedIsTurnRow(s0, s1, p, 1, turn1);
    NextRowTurned(s0, s1, s2, p, a, 2, turn2);
    NextRowTurned(s0, s2, s3, p, b, 3, turn3);
  }

  lemma NextRowTurned(s0: seq<bv8>, s: seq<bv8>, t: seq<bv8>, p: nat, a: State, row: nat, turn: nat)
    requires p + 16 <= |s0| == |s| == |t| && row < 4
    requires s == Put(s0, p, a) && Turned(s, t, p, row, turn)
    ensures t == Put(s0, p, TurnRow(a, row, turn))
  {
    TurnedIsTurnRow(s, t, p, row, turn);
    PutPut(s0, p, a, TurnRow(a, row, turn));
  }

  method ShiftRowsInPlace(buf: array<bv8>, p: nat)
    requires p + 16 <= buf.Length
    modifies buf
    ensures buf[..] == Put(old(buf[..]), p, ShiftRows(old(buf[p..p + 16])))
  {
    hide Turned, TurnRow, ShiftRows, Put;
    ghost var s0 := buf[..];
    ShiftFirstRowLeft(buf, p);
    ghost var s1 := buf[..];
    ShiftSecondRow(buf, p);
    ghost var s2 := buf[..];
    ShiftThirdRowLeft(buf, p);
    ThreeRowsTurned(s0, s1, s2, buf[..], p, 1, 2, 3);
    RowsTurnedLeft(s0[p..p + 16]);
  }

  method InvShiftRowsInPlace(buf: array<bv8>, p: nat)
    requires p + 16 <= buf.Length
    modifies buf
    ensures buf[..] == Put(old(buf[..]), p, InvShiftRows(old(buf[p..p + 16])))
  {
    hide Turned, TurnRow, InvShiftRows, Put;
    ghost var s0 := buf[..];
    ShiftFirstRowRight(buf, p);
    ghost var s1 := buf[..];
    ShiftSecondRow(buf, p);
    ghost var s2 := buf[..];
    ShiftThirdRowRight(buf, p);
    ThreeRowsTurned(s0, s1, s2, buf[..], p, 3, 2, 1);
    RowsTurnedRight(s0[p..p + 16]);
  }

  /** A second step on the same sixteen octets. */
  lemma PutPut(s: seq<bv8>, p: nat, a: State, b: State)
    requires p + 16 <= |s|
    ensures Put(s, p, a)[p..p + 16] == a
    ensures Put(Put(s, p, a), p, b) == Put(s, p, b)
  {
  }

  /** The buffer s with the column c at offset q. */
  function PutColumn(s: seq<bv8>, q: nat, c: Column): seq<bv8>
    requires q + 4 <= |s|
  {
    s[q := c.a][q + 1 := c.b][q + 2 := c.c][q + 3 := c.d]
  }

  function ColumnOf(s: seq<bv8>, q: nat): Column
    requires q + 4 <= |s|
  {
    Column(s[q], s[q + 1], s[q + 2], s[q + 3])
  }

  method MixOneColumn(buf: array<bv8>, q: nat)
    requires q + 4 <= buf.Length
    modifies buf
    ensures buf[..] == PutColumn(old(buf[..]), q, MixColumn(ColumnOf(old(buf[..]), q)))
  {
    var t := buf[q];
    var tmp := Plus(Plus(Plus(buf[q], buf[q + 1]), buf[q + 2]), buf[q + 3]);
    var tm := Plus(buf[q], buf[q + 1]);
    buf[q] := Plus(buf[q], Plus(Xtime(tm), tmp));
    tm := Plus(buf[q + 1], buf[q + 2]);
    buf[q + 1] := Plus(buf[q + 1], Plus(Xtime(tm), tmp));
    tm := Plus(buf[q + 2], buf[q + 3]);
    buf[q + 2] := Plus(buf[q + 2], Plus(Xtime(tm), tmp));
    tm := Plus(buf[q + 3], t);
    buf[q + 3] := Plus(buf[q + 3], Plus(Xtime(tm), tmp));
  }

  method InvMixOneColumn(buf: array<bv8>, q: nat)
    requires q + 4 <= buf.Length
    modifies buf
    ensures buf[..] == PutColumn(old(buf[..]), q, InvMixColumn(ColumnOf(old(buf[..]), q)))
  {
    var a, b, c, d := buf[q], buf[q + 1], buf[q + 2], buf[q + 3];
    var mixed := InvMixColumn(Column(a, b, c, d));
    buf[q] := mixed.a;
    buf[q + 1] := mixed.b;
    buf[q + 2] := mixed.c;
    buf[q + 3] := mixed.d;
  }

  /** Column i of the state at p. */
  function ColumnIn(s: seq<bv8>, p: nat, i: nat): Column
    requires p + 16 <= |s| && i < 4
  {
    ColumnOf(s, p + 4 * i)
  }

  /** The first n columns of the state at p have been replaced by their images. */
  ghost predicate ColumnsDone(s: seq<bv8>, t: seq<bv8>, p: nat, f: Column -> Column, n: nat)
    requires p + 16 <= |s| == |t| && n <= 4
  {
    && (forall i :: 0 <= i < n ==> ColumnIn(t, p, i) == f(ColumnIn(s, p, i)))
    && (forall k :: 0 <= k < p || p + 4 * n <= k < |s| ==> t[k] == s[k])
  }

  lemma ColumnDone(s: seq<bv8>, t: seq<bv8>, p: nat, f: Column -> Column, n: nat)
    requires p + 16 <= |s| == |t| && n < 4
    requires ColumnsDone(s, t, p, f, n)
    ensures ColumnsDone(s, PutColumn(t, p + 4 * n, f(ColumnOf(t, p + 4 * n))), p, f, n + 1)
  {
    var t' := PutColumn(t, p + 4 * n, f(ColumnOf(t, p + 4 * n)));
    assert ColumnIn(t, p, n) == ColumnIn(s, p, n);
    forall i | 0 <= i < n + 1
      ensures ColumnIn(t', p, i) == f(ColumnIn(s, p, i))
    {
      if i < n {
        assert ColumnIn(t', p, i) == ColumnIn(t, p, i);
      } else {
        assert i == n;
      }
    }
  }

  lemma AllColumnsDone(s: seq<bv8>, t: seq<bv8>, p: nat, f: Column -> Column)
    requires p + 16 <= |s| == |t|
    requires ColumnsDone(s, t, p, f, 4)
    ensures t == Put(s, p, MapColumns(f, s[p..p + 16]))
  {
    var b := t[p..p + 16];
    forall k | 0 <= k < 16
      ensures b[k] == MapColumns(f, s[p..p + 16])[k]
    {
      ColumnImage(s, t, p, f, k / 4);
      assert b[k] == Entry(ColumnIn(t, p, k / 4), k % 4);
    }
    OutsideUnchanged(s, t, p);
  }

  lemma ColumnImage(s: seq<bv8>, t: seq<bv8>, p: nat, f: Column -> Column, i: nat)
    requires p + 16 <= |s| == |t| && i < 4
    requires ColumnsDone(s, t, p, f, 4)
    ensures ColumnIn(t, p, i) == f(ColumnAt(s[p..p + 16], i))
  {
    assert ColumnIn(s, p, i) == ColumnAt(s[p..p + 16], i);
  }

  method MixColumnsInPlace(buf: array<bv8>, p: nat)
    requires p + 16 <= buf.Length
    modifies buf
    ensures buf[..] == Put(old(buf[..]), p, MixColumns(old(buf[p..p + 16])))
  {
    for i := 0 to 4
      invariant ColumnsDone(old(buf[..]), buf[..], p, MixColumn, i)
    {
      ColumnDone(old(buf[..]), buf[..], p, MixColumn, i);
      MixOneColumn(buf, p + 4 * i);
    }
    AllColumnsDone(old(buf[..]), buf[..], p, MixColumn);
  }

  method InvMixColumnsInPlace(buf: array<bv8>, p: nat)
    requires p + 16 <= buf.Length
    modifies buf
    ensures buf[..] == Put(old(buf[..]), p, InvMixColumns(old(buf[p..p + 16])))
  {
    for i := 0 to 4
      invariant ColumnsDone(old(buf[..]), buf[..], p, InvMixColumn, i)
    {
      ColumnDone(old(buf[..]), buf[..], p, InvMixColumn, i);
      InvMixOneColumn(buf, p + 4 * i);
    }
    AllColumnsDone(old(buf[..]), buf[..], p, InvMixColumn);
  }

  // The two halves of a round's loop body, before and after the test for the last round.

  method SubstituteInPlace(buf: array<bv8>, p: nat)
    requires p + 16 <= buf.Length
    modifies buf
    ensures buf[..] == Put(old(buf[..]), p, ShiftRows(SubBytes(old(buf[p..p + 16]))))
  {
    ghost var all, b := buf[..], buf[p..p + 16];
    MapOctetsInPlace(Sbox, buf, p);
    PutPut(all, p, SubBytes(b), ShiftRows(SubBytes(b)));
    ShiftRowsInPlace(buf, p);
  }

  method MixAndAddInPlace(round: nat, buf: array<bv8>, p: nat, rk: array<bv8>)
    requires round <= NR && rk.Length == 176 && rk != buf
    requires p + 16 <= buf.Length
    modifies buf
    ensures buf[..] == Put(old(buf[..]), p, AddRoundKey(round, MixColumns(old(buf[p..p + 16])), rk[..]))
  {
    ghost var all, b := buf[..], buf[p..p + 16];
    MixColumnsInPlace(buf, p);
    PutPut(all, p, MixColumns(b), AddRoundKey(round, MixColumns(b), rk[..]));
    AddRoundKeyInPlace(round, buf, p, rk);
  }

  method InvSubstituteAndAddInPlace(round: nat, buf: array<bv8>, p: nat, rk: array<bv8>)
    requires round <= NR && rk.Length == 176 && rk != buf
    requires p + 16 <= buf.Length
    modifies buf
    ensures buf[..] ==
            Put(old(buf[..]), p, AddRoundKey(round, InvSubBytes(InvShiftRows(old(buf[p..p + 16]))), rk[..]))
  {
    ghost var all, b := buf[..], buf[p..p + 16];
    InvShiftRowsInPlace(buf, p);
    ghost var c := InvShiftRows(b);
    PutPut(all, p, c, InvSubBytes(c));
    MapOctetsInPlace(InvSbox, buf, p);
    PutPut(all, p, InvSubBytes(c), AddRoundKey(round, InvSubBytes(c), rk[..]));
    AddRoundKeyInPlace(round, buf, p, rk);
  }

  method CipherInPlace(buf: array<bv8>, p: nat, rk: array<bv8>)
    requires rk.Length == 176 && rk != buf
    requires p + 16 <= buf.Length
    modifies buf
    ensures buf[..] == Put(old(buf[..]), p, Cipher(old(buf[p..p + 16]), rk[..]))
  {
    hide AddRoundKey, MixColumns, ShiftRows, SubBytes, MapOctets, Sbox;
    ghost var all, s, keys := buf[..], buf[p..p + 16], rk[..];
    AddRoundKeyInPlace(0, buf, p, rk);
    var round := 1;
    ghost var b := Rounds(0, s, keys);
    while true
      invariant 1 <= round <= NR
      invariant b == Rounds(round - 1, s, keys)
      invariant buf[..] == Put(all, p, b) && rk[..] == keys
      decreases NR - round
    {
      PutPut(all, p, b, ShiftRows(SubBytes(b)));
      b := ShiftRows(SubBytes(b));
      SubstituteInPlace(buf, p);
      if round == NR {
        break;
      }
      PutPut(all, p, b, AddRoundKey(round, MixColumns(b), keys));
      b := AddRoundKey(round, MixColumns(b), keys);
      MixAndAddInPlace(round, buf, p, rk);
      round := round + 1;
    }
    PutPut(all, p, b, AddRoundKey(NR, b, keys));
    AddRoundKeyInPlace(NR, buf, p, rk);
  }

  method InvCipherInPlace(buf: array<bv8>, p: nat, rk: array<bv8>)
    requires rk.Length == 176 && rk != buf
    requires p + 16 <= buf.Length
    modifies buf
    ensures buf[..] == Put(old(buf[..]), p, InvCipher(old(buf[p..p + 16]), rk[..]))
  {
    hide AddRoundKey, InvMixColumns, InvShiftRows, InvSubBytes, MapOctets, InvSbox;
    ghost var all, s, keys := buf[..], buf[p..p + 16], rk[..];
    AddRoundKeyInPlace(NR, buf, p, rk);
    var round := NR - 1;
    ghost var b := InvRounds(round, s, keys);
    while true
      invariant 0 <= round < NR
      invariant b == InvRounds(round, s, keys)
      invariant buf[..] == Put(all, p, b) && rk[..] == keys
      decreases round
    {
      PutPut(all, p, b, AddRoundKey(round, InvSubBytes(InvShiftRows(b)), keys));
      b := AddRoundKey(round, InvSubBytes(InvShiftRows(b)), keys);
      InvSubstituteAndAddInPlace(round, buf, p, rk);
      if round == 0 {
        break;
      }
      PutPut(all, p, b, InvMixColumns(b));
      b := InvMixColumns(b);
      InvMixColumnsInPlace(buf, p);
      round := round - 1;
    }
  }
}
