/** What TinyAES computes is AES-128: the rounds of section 5.1 of FIPS 197 octet by octet,
    without the step functions of the implementation. */
module Fips197 {
  import opened Bytes
  import opened AesColumns
  import opened AesKeys
  import opened AesTables
  import opened TinyAes
  import M = TinyAesModes

  /** Entry i of column j once the octets are substituted and row i has turned left by i. */
  function Moved(s: State, j: nat, i: nat): bv8
    requires j < 4 && i < 4
  {
    Sbox(s[4 * ((j + i) % 4) + i])
  }

  /** Entry i of column j after a full round: the entries of the column from i on, weighted 2,
      3, 1 and 1, and the round key. */
  function RoundEntry(s: State, rk: RoundKeys, n: nat, j: nat, i: nat): bv8
    requires n <= NR && j < 4 && i < 4
  {
    Weighted(Moved(s, j, i), Moved(s, j, (i + 1) % 4), Moved(s, j, (i + 2) % 4), Moved(s, j, (i + 3) % 4))
    ^ rk[16 * n + 4 * j + i]
  }

  function Weighted(a: bv8, b: bv8, c: bv8, d: bv8): bv8 {
    Plus(Plus(Plus(Xtime(a), Plus(Xtime(b), b)), c), d)
  }

  ghost predicate FullRound(s: State, t: State, rk: RoundKeys, n: nat)
    requires n <= NR
  {
    forall j, i :: 0 <= j < 4 && 0 <= i < 4 ==> t[4 * j + i] == RoundEntry(s, rk, n, j, i)
  }

  /** The states of an encryption: the first round key added, nine full rounds, and a last one
      in which the columns are not mixed. */
  ghost predicate Encryption(input: State, output: State, rk: RoundKeys, states: seq<State>) {
    && |states| == 10
    && (forall k :: 0 <= k < 16 ==> states[0][k] == input[k] ^ rk[k])
    && (forall n :: 1 <= n <= 9 ==> FullRound(states[n - 1], states[n], rk, n))
    && (forall j, i :: 0 <= j < 4 && 0 <= i < 4 ==>
          output[4 * j + i] == Moved(states[9], j, i) ^ rk[160 + 4 * j + i])
  }

  // ----- The columns -----

  lemma ColumnWeights(c: Column)
    ensures MixColumn(c).a == Weighted(c.a, c.b, c.c, c.d) && MixColumn(c).b == Weighted(c.b, c.c, c.d, c.a)
    ensures MixColumn(c).c == Weighted(c.c, c.d, c.a, c.b) && MixColumn(c).d == Weighted(c.d, c.a, c.b, c.c)
  {
    hide Xtime, Weighted, Plus;
    var tmp := Plus(Plus(Plus(c.a, c.b), c.c), c.d);
    SameSum(c.a, c.b, c.c, c.d);
    WeightsOf(c.a, c.b, c.c, c.d, tmp);
    WeightsOf(c.b, c.c, c.d, c.a, tmp);
    WeightsOf(c.c, c.d, c.a, c.b, tmp);
    WeightsOf(c.d, c.a, c.b, c.c, tmp);
  }

  lemma WeightsOf(a: bv8, b: bv8, c: bv8, d: bv8, tmp: bv8)
    requires tmp == Plus(Plus(Plus(a, b), c), d)
    ensures Plus(a, Plus(Xtime(Plus(a, b)), tmp)) == Weighted(a, b, c, d)
  {
    hide Xtime, Plus;
    var x, y, rest := Xtime(a), Xtime(b), Plus(b, Plus(c, d));
    XtimeOfSum(a, b);
    FourRight(a, b, c, d);
    SwapFront(Plus(x, y), a, rest);
    CancelFront(a, Plus(Plus(x, y), rest));
    FiveLeft(x, y, b, c, d);
  }

  lemma XtimeOfSum(a: bv8, b: bv8)
    ensures Xtime(Plus(a, b)) == Plus(Xtime(a), Xtime(b))
  {
    hide Xtime;
    XtimeLinearAt(a, b);
  }

  lemma Assoc(a: bv8, b: bv8, c: bv8)
    ensures Plus(Plus(a, b), c) == Plus(a, Plus(b, c))
  {
  }

  lemma Commute(a: bv8, b: bv8)
    ensures Plus(a, b) == Plus(b, a)
  {
  }

  lemma FourRight(a: bv8, b: bv8, c: bv8, d: bv8)
    ensures Plus(Plus(Plus(a, b), c), d) == Plus(a, Plus(b, Plus(c, d)))
  {
    hide Plus;
    Assoc(Plus(a, b), c, d);
    Assoc(a, b, Plus(c, d));
  }

  lemma SwapFront(u: bv8, a: bv8, w: bv8)
    ensures Plus(u, Plus(a, w)) == Plus(a, Plus(u, w))
  {
    hide Plus;
    Assoc(u, a, w);
    Commute(u, a);
    Assoc(a, u, w);
  }

  lemma CancelFront(a: bv8, v: bv8)
    ensures Plus(a, Plus(a, v)) == v
  {
  }

  lemma FiveLeft(x: bv8, y: bv8, b: bv8, c: bv8, d: bv8)
    ensures Plus(Plus(x, y), Plus(b, Plus(c, d))) == Plus(Plus(Plus(x, Plus(y, b)), c), d)
  {
    hide Plus;
    Assoc(x, y, Plus(b, Plus(c, d)));
    Assoc(y, b, Plus(c, d));
    Assoc(x, Plus(y, b), Plus(c, d));
    Assoc(Plus(x, Plus(y, b)), c, d);
  }

  lemma SameSum(a: bv8, b: bv8, c: bv8, d: bv8)
    ensures var sum := Plus(Plus(Plus(a, b), c), d);
      && sum == Plus(Plus(Plus(b, c), d), a) && sum == Plus(Plus(Plus(c, d), a), b)
      && sum == Plus(Plus(Plus(d, a), b), c)
  {
    hide Plus;
    SumTurned(a, b, c, d);
    SumTurned(b, c, d, a);
    SumTurned(c, d, a, b);
  }

  lemma SumTurned(a: bv8, b: bv8, c: bv8, d: bv8)
    ensures Plus(Plus(Plus(a, b), c), d) == Plus(Plus(Plus(b, c), d), a)
  {
    hide Plus;
    FourRight(a, b, c, d);
    Assoc(b, c, d);
    Commute(a, Plus(b, Plus(c, d)));
  }

  // ----- The rounds -----

  lemma PlaceOf(j: nat, i: nat)
    requires j < 4 && i < 4
    ensures (4 * j + i) / 4 == j && (4 * j + i) % 4 == i && 4 * j + i < 16
  {
  }

  lemma MovedIs(s: State, j: nat, i: nat)
    requires j < 4 && i < 4
    ensures ShiftRows(SubBytes(s))[4 * j + i] == Moved(s, j, i)
  {
    hide Sbox;
    PlaceOf(j, i);
    assert LeftOf(4 * j + i) == 4 * ((j + i) % 4) + i;
    assert SubBytes(s)[4 * ((j + i) % 4) + i] == Moved(s, j, i);
  }

  lemma MixedEntry(u: State, j: nat, i: nat)
    requires j < 4 && i < 4
    ensures MixColumns(u)[4 * j + i] ==
            Weighted(u[4 * j + i], u[4 * j + (i + 1) % 4], u[4 * j + (i + 2) % 4], u[4 * j + (i + 3) % 4])
  {
    hide Weighted, MixColumn, MapColumns;
    ColumnWeights(ColumnAt(u, j));
    MapColumnsAt(MixColumn, u, j);
    assert i == 0 || i == 1 || i == 2 || i == 3;
  }

  lemma RoundIs(s: State, rk: RoundKeys, n: nat)
    requires n <= NR
    ensures FullRound(s, AddRoundKey(n, MixColumns(ShiftRows(SubBytes(s))), rk), rk, n)
  {
    hide MixColumns, ShiftRows, SubBytes, Moved, Weighted;
    var u := ShiftRows(SubBytes(s));
    forall j, i | 0 <= j < 4 && 0 <= i < 4
      ensures AddRoundKey(n, MixColumns(u), rk)[4 * j + i] == RoundEntry(s, rk, n, j, i)
    {
      MixedEntry(u, j, i);
      MovedIs(s, j, i);
      MovedIs(s, j, (i + 1) % 4);
      MovedIs(s, j, (i + 2) % 4);
      MovedIs(s, j, (i + 3) % 4);
    }
  }

  /** For every state and round keys. */
  lemma CipherIsEncryption(s: State, rk: RoundKeys) returns (states: seq<State>)
    ensures Encryption(s, Cipher(s, rk), rk, states)
  {
    hide MixColumns, ShiftRows, SubBytes, Moved, FullRound;
    states := seq(10, n requires 0 <= n < 10 => Rounds(n, s, rk));
    forall n | 1 <= n <= 9 ensures FullRound(states[n - 1], states[n], rk, n) {
      RoundIs(Rounds(n - 1, s, rk), rk, n);
    }
    var last := Rounds(9, s, rk);
    forall j, i | 0 <= j < 4 && 0 <= i < 4
      ensures Cipher(s, rk)[4 * j + i] == Moved(states[9], j, i) ^ rk[160 + 4 * j + i]
    {
      MovedIs(last, j, i);
    }
  }

  /** The backend behind the secure channel encrypts a block as AES-128 does under the
      schedule of its key. */
  lemma BackendIsAes(key: Block, b: Block) returns (rk: RoundKeys, states: seq<State>)
    ensures Scheduled(M.Patterns(key), rk)
    ensures Encryption(M.Patterns(b), M.Patterns(M.BACKEND.enc(key, b)), rk, states)
  {
    hide Expand, Cipher, Scheduled, Encryption;
    rk := Expand(M.Patterns(key));
    ExpandIsScheduled(M.Patterns(key));
    states := CipherIsEncryption(M.Patterns(b), rk);
    M.PatternsOfOctets(Cipher(M.Patterns(b), rk));
  }
}
