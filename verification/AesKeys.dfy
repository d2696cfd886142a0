/** The key expansion of crypto/tinyaes_src.c (section 5.2 of FIPS 197). */
module AesKeys {
  import opened AesColumns
  import opened AesTables
  import opened TinyAes

  function Rcon(i: nat): bv8
    requires i <= 10
  {
    [0x8d, 0x01, 0x02, 0x04, 0x08, 0x10, 0x20, 0x40, 0x80, 0x1b, 0x36][i]
  }

  function RotWord(w: Word): Word { [w[1], w[2], w[3], w[0]] }

  function SubWord(w: Word): Word { [Sbox(w[0]), Sbox(w[1]), Sbox(w[2]), Sbox(w[3])] }

  function XorWord(v: Word, w: Word): Word {
    [v[0] ^ w[0], v[1] ^ w[1], v[2] ^ w[2], v[3] ^ w[3]]
  }

  function XorFirst(w: Word, c: bv8): Word { w[0 := w[0] ^ c] }

  /** What is added to the word four places back. */
  function Mixed(i: nat, temp: Word): Word
    requires i < 44
  {
    if i % 4 == 0 then XorFirst(SubWord(RotWord(temp)), Rcon(i / 4)) else temp
  }

  function ExpandedWord(key: State, i: nat): Word
    requires i < 44
  {
    if i < 4 then
      key[4 * i..4 * i + 4]
    else
      XorWord(ExpandedWord(key, i - 4), Mixed(i, ExpandedWord(key, i - 1)))
  }

  function Expand(key: State): RoundKeys {
    seq(176, k requires 0 <= k < 176 => ExpandedWord(key, k / 4)[k % 4])
  }

  ghost predicate WordAt(rk: seq<bv8>, i: nat, w: Word)
    requires 4 * i + 4 <= |rk|
  {
    rk[4 * i] == w[0] && rk[4 * i + 1] == w[1] && rk[4 * i + 2] == w[2] && rk[4 * i + 3] == w[3]
  }

  /** The body of the loop of KeyExpansion for word i. */
  method NextWord(rk: array<bv8>, ghost key: State, i: nat)
    requires rk.Length == 176 && 4 <= i < 44
    requires WordAt(rk[..], i - 1, ExpandedWord(key, i - 1))
    requires WordAt(rk[..], i - 4, ExpandedWord(key, i - 4))
    modifies rk
    ensures WordAt(rk[..], i, ExpandedWord(key, i))
    ensures forall k :: 0 <= k < 176 && !(4 * i <= k < 4 * i + 4) ==> rk[k] == old(rk[k])
  {
    hide XorWord, Mixed, SubWord, RotWord, XorFirst, Sbox;
    var tempa := LoadWord(rk, i - 1);
    tempa := MixTemp(i, tempa);
    var back := LoadWord(rk, i - 4);
    StoreWord(rk, i, XorWord(back, tempa));
  }

  method LoadWord(rk: array<bv8>, i: nat) returns (w: Word)
    requires 4 * i + 4 <= rk.Length
    ensures forall v: Word {:trigger WordAt(rk[..], i, v)} :: WordAt(rk[..], i, v) ==> w == v
  {
    w := [rk[4 * i], rk[4 * i + 1], rk[4 * i + 2], rk[4 * i + 3]];
  }

  method StoreWord(rk: array<bv8>, i: nat, w: Word)
    requires 4 * i + 4 <= rk.Length
    modifies rk
    ensures WordAt(rk[..], i, w)
    ensures forall k :: 0 <= k < rk.Length && !(4 * i <= k < 4 * i + 4) ==> rk[k] == old(rk[k])
  {
    rk[4 * i] := w[0];
    rk[4 * i + 1] := w[1];
    rk[4 * i + 2] := w[2];
    rk[4 * i + 3] := w[3];
  }

  method MixTemp(i: nat, temp: Word) returns (tempa: Word)
    requires i < 44
    ensures tempa == Mixed(i, temp)
  {
    tempa := temp;
    if i % 4 == 0 {
      tempa := RotWord(tempa);
      tempa := SubWord(tempa);
      tempa := XorFirst(tempa, Rcon(i / 4));
    }
  }

  /** x to the power n in GF(2^8). */
  function PowerOfX(n: nat): bv8 { if n == 0 then 1 else Xtime(PowerOfX(n - 1)) }

  /** Octet j of round key r: the octet of the round key before, and added to it, for the first
      word, the S-box of the turned last word and the power of x, for the others the word
      in front. */
  ghost predicate ScheduledOctet(rk: seq<bv8>, r: nat, j: nat)
    requires |rk| == 176 && 1 <= r <= 10 && j < 16
  {
    rk[16 * r + j] == rk[16 * (r - 1) + j] ^
      (if j == 0 then Sbox(rk[16 * r - 3]) ^ PowerOfX(r - 1)
       else if j < 4 then Sbox(rk[16 * r - 4 + (j + 1) % 4])
       else rk[16 * r + j - 4])
  }

  /** The key schedule of section 5.2 of FIPS 197 for AES-128. */
  ghost predicate Scheduled(key: seq<bv8>, rk: seq<bv8>) {
    && |rk| == 176 && rk[..16] == key
    && forall r, j :: 1 <= r <= 10 && 0 <= j < 16 ==> ScheduledOctet(rk, r, j)
  }

  method KeyExpansion(rk: array<bv8>, key: array<bv8>)
    requires rk.Length == 176 && key.Length == 16 && rk != key
    modifies rk
    ensures rk[..] == Expand(key[..])
    ensures Scheduled(key[..], rk[..])
  {
    hide ExpandedWord, Expand, Scheduled;
    ghost var k0 := key[..];
    ExpandIsScheduled(k0);
    CopyKey(rk, key);
    for i := 4 to 44
      invariant FirstWords(rk[..], k0, i)
    {
      NextWord(rk, k0, i);
    }
    WordsAreExpansion(rk[..], k0);
  }

  ghost predicate FirstWords(rk: seq<bv8>, key: State, n: nat)
    requires |rk| == 176 && n <= 44
  {
    forall w {:trigger ExpandedWord(key, w)} :: 0 <= w < n ==> WordAt(rk, w, ExpandedWord(key, w))
  }

  lemma KeyCopied(rk: seq<bv8>, key: State)
    requires |rk| == 176 && forall k :: 0 <= k < 16 ==> rk[k] == key[k]
    ensures FirstWords(rk, key, 4)
  {
  }

  /** The first loop of KeyExpansion: the key itself is the first round key. */
  method CopyKey(rk: array<bv8>, key: array<bv8>)
    requires rk.Length == 176 && key.Length == 16 && rk != key
    modifies rk
    ensures FirstWords(rk[..], key[..], 4)
  {
    hide FirstWords;
    ghost var k0 := key[..];
    for i := 0 to 4
      invariant forall k :: 0 <= k < 4 * i ==> rk[k] == k0[k]
    {
      rk[i * 4] := key[i * 4];
      rk[i * 4 + 1] := key[i * 4 + 1];
      rk[i * 4 + 2] := key[i * 4 + 2];
      rk[i * 4 + 3] := key[i * 4 + 3];
    }
    KeyCopied(rk[..], k0);
  }

  lemma WordsAreExpansion(rk: seq<bv8>, key: State)
    requires |rk| == 176
    requires FirstWords(rk, key, 44)
    ensures rk == Expand(key)
  {
    forall k | 0 <= k < 176 ensures rk[k] == Expand(key)[k] {
      assert WordAt(rk, k / 4, ExpandedWord(key, k / 4));
      assert k == 4 * (k / 4) + k % 4;
    }
  }

  // ----- The key schedule octet by octet -----

  lemma RconIsPower(r: nat)
    requires 1 <= r <= 10
    ensures Rcon(r) == PowerOfX(r - 1)
  {
    PowersOfX();
  }

  lemma PowersOfX()
    ensures PowerOfX(0) == 0x01 && PowerOfX(1) == 0x02 && PowerOfX(2) == 0x04 && PowerOfX(3) == 0x08
    ensures PowerOfX(4) == 0x10 && PowerOfX(5) == 0x20 && PowerOfX(6) == 0x40 && PowerOfX(7) == 0x80
    ensures PowerOfX(8) == 0x1b && PowerOfX(9) == 0x36
  {
  }

  lemma MixedOctet(i: nat, temp: Word, b: nat)
    requires i < 44 && b < 4
    ensures Mixed(i, temp)[b] ==
      if i % 4 != 0 then temp[b]
      else if b == 0 then Sbox(temp[1]) ^ Rcon(i / 4)
      else Sbox(temp[(b + 1) % 4])
  {
    hide Sbox, Rcon;
    assert b == 0 || b == 1 || b == 2 || b == 3;
  }

  lemma ScheduleStep(key: State, r: nat, j: nat)
    requires 1 <= r <= 10 && j < 16
    ensures ScheduledOctet(Expand(key), r, j)
  {
    hide ExpandedWord, Expand, Sbox, Rcon, PowerOfX, Mixed;
    var i, b := 4 * r + j / 4, j % 4;
    assert 4 * i + b == 16 * r + j && i % 4 == j / 4 && i / 4 == r;
    OctetOfWord(key, i, b);
    OctetOfWord(key, i - 4, b);
    OctetOfWord(key, i - 1, if j < 4 then (j + 1) % 4 else b);
    WordStep(key, i, b);
    MixedOctet(i, ExpandedWord(key, i - 1), b);
    RconIsPower(r);
  }

  lemma WordStep(key: State, i: nat, b: nat)
    requires 4 <= i < 44 && b < 4
    ensures ExpandedWord(key, i)[b] ==
            ExpandedWord(key, i - 4)[b] ^ Mixed(i, ExpandedWord(key, i - 1))[b]
  {
    hide Mixed, XorWord;
    XorWordAt(ExpandedWord(key, i - 4), Mixed(i, ExpandedWord(key, i - 1)), b);
  }

  lemma XorWordAt(v: Word, w: Word, b: nat)
    requires b < 4
    ensures XorWord(v, w)[b] == v[b] ^ w[b]
  {
    if b == 0 {
      assert XorWord(v, w)[0] == v[0] ^ w[0];
    } else if b == 1 {
      assert XorWord(v, w)[1] == v[1] ^ w[1];
    } else if b == 2 {
      assert XorWord(v, w)[2] == v[2] ^ w[2];
    } else {
      assert XorWord(v, w)[3] == v[3] ^ w[3];
    }
  }

  lemma PlaceOf(i: nat, b: nat)
    requires b < 4
    ensures (4 * i + b) / 4 == i && (4 * i + b) % 4 == b
  {
  }

  lemma OctetOfWord(key: State, i: nat, b: nat)
    requires i < 44 && b < 4
    ensures Expand(key)[4 * i + b] == ExpandedWord(key, i)[b]
  {
    hide ExpandedWord;
    PlaceOf(i, b);
  }

  lemma ExpandIsScheduled(key: State)
    ensures Scheduled(key, Expand(key))
  {
    hide ExpandedWord, ScheduledOctet;
    forall r, j | 1 <= r <= 10 && 0 <= j < 16 ensures ScheduledOctet(Expand(key), r, j) {
      ScheduleStep(key, r, j);
    }
    forall k | 0 <= k < 16 ensures Expand(key)[k] == key[k] {
      KeyWord(key, k);
    }
    assert Expand(key)[..16] == key;
  }

  lemma KeyWord(key: State, k: nat)
    requires k < 16
    ensures Expand(key)[k] == key[k]
  {
    assert key[4 * (k / 4)..4 * (k / 4) + 4][k % 4] == key[k];
  }
}
