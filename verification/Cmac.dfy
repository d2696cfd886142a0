/** desfire_cmac of desfire_crypto.c against section 6 of NIST SP 800-38B, over any
    block cipher. */
module Cmac {
  import opened Bytes
  import opened BlockCipher

  const RB: uint8 := 0x87

  // ----- Shifting one bit to the left -----

  /** An octet string as a number, most significant octet first. */
  function Value(s: seq<uint8>): nat {
    if s == [] then 0 else 256 * Value(s[..|s| - 1]) + s[|s| - 1]
  }

  function Pow256(n: nat): nat { if n == 0 then 1 else 256 * Pow256(n - 1) }

  /** The octet string shifted by one bit, with `carry` coming in from the right. */
  function Shifted(s: seq<uint8>, carry: nat): (r: seq<uint8>)
    requires carry <= 1
    ensures |r| == |s|
    decreases |s|
  {
    if s == [] then []
    else
      var last: nat := s[|s| - 1];
      Shifted(s[..|s| - 1], last / 128) + [last % 128 * 2 + carry]
  }

  /** The bit that falls out on the left. */
  function TopBit(s: seq<uint8>, carry: nat): nat { if s == [] then carry else s[0] as nat / 128 }

  /** The shift doubles the number: what does not fit is the bit that falls out. */
  lemma {:induction false} ShiftDoubles(s: seq<uint8>, carry: nat)
    requires carry <= 1
    ensures Value(Shifted(s, carry)) + Pow256(|s|) * TopBit(s, carry) == 2 * Value(s) + carry
    decreases |s|
  {
    if s != [] {
      var front: seq<uint8>, last: nat := s[..|s| - 1], s[|s| - 1];
      ShiftDoubles(front, last / 128);
      var t := Shifted(s, carry);
      assert t[..|t| - 1] == Shifted(front, last / 128) && t[|t| - 1] as nat == last % 128 * 2 + carry;
      assert TopBit(front, last / 128) == TopBit(s, carry);
      assert 256 * (Pow256(|front|) * TopBit(s, carry)) == Pow256(|s|) * TopBit(s, carry);
    }
  }

  /** left_shift_one */
  method LeftShiftOne(s: Block) returns (r: Block)
    ensures r == Shifted(s, 0)
  {
    r := ZERO_BLOCK;
    var carry: nat := 0;
    var i := 16;
    assert s[..16] == s;
    while i > 0
      invariant 0 <= i <= 16 && carry <= 1
      invariant r[i..] == Shifted(s, 0)[i..]
      invariant Shifted(s, 0)[..i] == Shifted(s[..i], carry)
    {
      i := i - 1;
      var octet: nat := s[i];
      ShiftStep(s[..i + 1], carry);
      assert s[..i + 1][..i] == s[..i];
      r := r[i := octet % 128 * 2 + carry];
      carry := octet / 128;
    }
  }

  lemma ShiftStep(s: seq<uint8>, carry: nat)
    requires carry <= 1 && s != []
    ensures var last: nat := s[|s| - 1];
      && Shifted(s, carry)[..|s| - 1] == Shifted(s[..|s| - 1], last / 128)
      && Shifted(s, carry)[|s| - 1] == last % 128 * 2 + carry
  {
  }

  // ----- Subkeys (section 6.1) -----

  const R_128: Block := Repeated(15) + [RB]

  /** Multiplication by the polynomial u: shift, and subtract the field polynomial when
      a bit falls out. */
  function Double(b: Block): Block {
    if TopBit(b, 0) == 0 then Shifted(b, 0) else XorBlock(Shifted(b, 0), R_128)
  }

  /** As numbers: twice b, less 2^128 with the constant added in when it does not fit. */
  lemma DoubleValue(b: Block)
    ensures TopBit(b, 0) == 0 ==> Value(Double(b)) == 2 * Value(b)
    ensures TopBit(b, 0) == 1 ==> Value(XorBlock(Double(b), R_128)) == 2 * Value(b) - Pow256(16)
    ensures TopBit(b, 0) == 0 || TopBit(b, 0) == 1
  {
    hide Value, Pow256;
    ShiftDoubles(b, 0);
    XorBlockCancels(Shifted(b, 0), R_128);
  }

  datatype Subkeys = Subkeys(k1: Block, k2: Block)

  function KeysOf(c: Cipher, key: Block): Subkeys {
    var l := c.enc(key, ZERO_BLOCK);
    Subkeys(Double(l), Double(Double(l)))
  }

  lemma XorWithZero(a: uint8)
    ensures Xor(a, 0) == a
  {
    FromBitsBits(a);
    assert Bits(a) ^ 0 == Bits(a);
  }

  /** The constant touches the last octet only. */
  lemma LastOctetXor(a: Block)
    ensures XorBlock(a, R_128) == a[15 := Xor(a[15], RB)]
  {
    forall i | 0 <= i < 16 ensures XorBlock(a, R_128)[i] == a[15 := Xor(a[15], RB)][i] {
      if i < 15 {
        assert R_128[i] == 0;
        XorWithZero(a[i]);
      } else {
        assert R_128[i] == RB;
      }
    }
  }

  /** One step of cmac_subkeys. */
  method NextSubkey(b: Block) returns (k: Block)
    ensures k == Double(b)
  {
    k := LeftShiftOne(b);
    if b[0] >= 128 {
      LastOctetXor(k);
      k := k[15 := Xor(k[15], RB)];
    }
  }

  /** cmac_subkeys */
  method CmacSubkeys(c: Cipher, key: Block) returns (k1: Block, k2: Block)
    ensures Subkeys(k1, k2) == KeysOf(c, key)
  {
    var l := c.enc(key, ZERO_BLOCK);
    k1 := NextSubkey(l);
    k2 := NextSubkey(k1);
  }

  // ----- The tag (section 6.2) -----

  /** Step 4: the last block, complete or padded with a one and zeros. */
  function LastPrepared(k: Subkeys, last: seq<uint8>): Block
    requires |last| <= 16
  {
    if |last| == 16 then XorBlock(k.k1, last) else XorBlock(k.k2, last + [0x80] + Repeated(15 - |last|))
  }

  /** Steps 3 to 6: block after block from the chaining value on; an empty message
      counts as one incomplete block. */
  function Tag(c: Cipher, key: Block, k: Subkeys, x: Block, msg: seq<uint8>): Block
    decreases |msg|
  {
    if |msg| <= 16 then c.enc(key, XorBlock(x, LastPrepared(k, msg)))
    else Tag(c, key, k, c.enc(key, XorBlock(x, msg[..16])), msg[16..])
  }

  function Cmac(c: Cipher, key: Block, msg: seq<uint8>): Block {
    Tag(c, key, KeysOf(c, key), ZERO_BLOCK, msg)
  }

  /** The number of blocks (step 2). */
  function BlockCount(len: nat): nat { if len == 0 then 1 else (len + 15) / 16 }

  /** The message with its last block prepared. */
  function Prepared(k: Subkeys, msg: seq<uint8>): (p: seq<uint8>)
    ensures |p| % 16 == 0
  {
    var front := 16 * (BlockCount(|msg|) - 1);
    msg[..front] + LastPrepared(k, msg[front..])
  }

  lemma XorBlockCommutes(a: Block, b: Block)
    ensures XorBlock(a, b) == XorBlock(b, a)
  {
    forall i | 0 <= i < 16 ensures XorBlock(a, b)[i] == XorBlock(b, a)[i] {
      assert Bits(a[i]) ^ Bits(b[i]) == Bits(b[i]) ^ Bits(a[i]);
    }
  }

  /** The tag is the last block of the prepared message encrypted in CBC mode. */
  lemma {:induction false} TagIsLastOfChain(c: Cipher, key: Block, k: Subkeys, x: Block, msg: seq<uint8>)
    ensures Prepared(k, msg) != [] && Tag(c, key, k, x, msg) == LastBlock(x, CbcEncrypt(c, key, x, Prepared(k, msg)))
    decreases |msg|
  {
    var p := Prepared(k, msg);
    if |msg| <= 16 {
      OneBlock(k, msg);
      assert p[..16] == p && p[16..] == [];
      XorBlockCommutes(x, p);
    } else {
      MoreBlocks(k, msg);
      var e := c.enc(key, XorBlock(p[..16], x));
      XorBlockCommutes(x, msg[..16]);
      TagIsLastOfChain(c, key, k, e, msg[16..]);
      ChainTail(c, key, x, p, e);
    }
  }

  lemma OneBlock(k: Subkeys, msg: seq<uint8>)
    requires |msg| <= 16
    ensures Prepared(k, msg) == LastPrepared(k, msg)
  {
    assert BlockCount(|msg|) == 1;
    assert msg[0..] == msg;
  }

  lemma MoreBlocks(k: Subkeys, msg: seq<uint8>)
    requires |msg| > 16
    ensures |Prepared(k, msg)| >= 32
    ensures Prepared(k, msg)[..16] == msg[..16] && Prepared(k, msg)[16..] == Prepared(k, msg[16..])
  {
    hide LastPrepared;
    var n := BlockCount(|msg|);
    assert BlockCount(|msg| - 16) == n - 1;
    var front := 16 * (n - 1);
    assert msg[16..][..front - 16] == msg[..front][16..];
    assert msg[16..][front - 16..] == msg[front..];
  }

  lemma ChainTail(c: Cipher, key: Block, x: Block, p: seq<uint8>, e: Block)
    requires |p| % 16 == 0 && |p| >= 32 && e == c.enc(key, XorBlock(p[..16], x))
    ensures LastBlock(x, CbcEncrypt(c, key, x, p)) == LastBlock(e, CbcEncrypt(c, key, e, p[16..]))
  {
    assert CbcEncrypt(c, key, x, p) == e + CbcEncrypt(c, key, e, p[16..]);
  }

  /** desfire_cmac */
  method DesfireCmac(c: Cipher, key: Block, msg: seq<uint8>) returns (out: Block)
    ensures out == Cmac(c, key, msg)
    ensures out == LastBlock(ZERO_BLOCK, CbcEncrypt(c, key, ZERO_BLOCK, Prepared(KeysOf(c, key), msg)))
  {
    TagIsLastOfChain(c, key, KeysOf(c, key), ZERO_BLOCK, msg);
    hide LastPrepared, KeysOf, CbcEncrypt, Prepared;
    var k1, k2 := CmacSubkeys(c, key);
    ghost var k := Subkeys(k1, k2);
    var n := BlockCount(|msg|);
    var last := PrepareLast(k1, k2, msg[(n - 1) * 16..]);
    var x := ZERO_BLOCK;
    assert msg[0..] == msg;
    for i := 0 to n - 1
      invariant 16 * i <= |msg| && Tag(c, key, k, x, msg[16 * i..]) == Tag(c, key, k, ZERO_BLOCK, msg)
    {
      ghost var rest := msg[16 * i..];
      assert rest[..16] == msg[i * 16..i * 16 + 16] && rest[16..] == msg[16 * (i + 1)..];
      var y := XorBlock(x, msg[i * 16..i * 16 + 16]);
      x := c.enc(key, y);
    }
    out := c.enc(key, XorBlock(x, last));
  }

  /** The last block, octet by octet. */
  method PrepareLast(k1: Block, k2: Block, tail: seq<uint8>) returns (last: Block)
    requires |tail| <= 16
    ensures last == LastPrepared(Subkeys(k1, k2), tail)
  {
    if |tail| == 16 {
      last := tail;
      last := XorInto(last, k1);
    } else {
      last := ZERO_BLOCK;
      for i := 0 to |tail|
        invariant last == tail[..i] + Repeated(16 - i)
      {
        last := last[i := tail[i]];
      }
      last := last[|tail| := 0x80];
      assert last == tail + [0x80] + Repeated(15 - |tail|);
      last := XorInto(last, k2);
    }
  }

  method XorInto(a: Block, k: Block) returns (r: Block)
    ensures r == XorBlock(k, a)
  {
    r := a;
    for i := 0 to 16
      invariant forall j :: 0 <= j < 16 ==> r[j] == if j < i then XorBlock(a, k)[j] else a[j]
    {
      r := r[i := Xor(r[i], k[i])];
    }
    XorBlockCommutes(a, k);
    assert r == XorBlock(a, k);
  }

  // ----- The tag without the functions above -----

  /** Octet i of b shifted by one bit. */
  function ShiftedAt(b: Block, i: nat): uint8
    requires i < 16
  {
    var next: nat := if i < 15 then b[i + 1] else 0;
    (2 * (b[i] as int) + next / 128) % 256
  }

  /** d is b doubled: shifted by one bit, and 0x87 added to the last octet when one falls out. */
  ghost predicate IsDouble(b: Block, d: Block) {
    forall i :: 0 <= i < 16 ==>
      d[i] == if i == 15 && b[0] >= 128 then Xor(ShiftedAt(b, i), 0x87) else ShiftedAt(b, i)
  }

  lemma {:induction false} ShiftedOctet(s: seq<uint8>, carry: nat, i: nat)
    requires carry <= 1 && i < |s|
    ensures Shifted(s, carry)[i] ==
            s[i] % 128 * 2 + if i + 1 < |s| then s[i + 1] / 128 else carry
    decreases |s|
  {
    if i < |s| - 1 {
      ShiftedOctet(s[..|s| - 1], (s[|s| - 1] as int) / 128, i);
    }
  }

  lemma DoubleIs(b: Block)
    ensures IsDouble(b, Double(b))
  {
    hide Shifted, Xor, XorBlock;
    var s := Shifted(b, 0);
    forall i | 0 <= i < 16 ensures s[i] == ShiftedAt(b, i) {
      ShiftedOctet(b, 0, i);
    }
    LastOctetXor(s);
    assert Double(b) == if b[0] >= 128 then s[15 := Xor(s[15], 0x87)] else s;
  }

  lemma DoubleUnique(b: Block, d: Block)
    requires IsDouble(b, d)
    ensures d == Double(b)
  {
    hide Double, Xor, ShiftedAt;
    DoubleIs(b);
    forall i | 0 <= i < 16 ensures d[i] == Double(b)[i] {
    }
  }

  /** The last block of the message, complete or filled with 0x80 and zeros. */
  ghost predicate LastFilled(msg: seq<uint8>, n: nat, last: Block) {
    && 16 * n <= |msg| <= 16 * n + 16
    && forall i :: 0 <= i < 16 ==>
         last[i] == if 16 * n + i < |msg| then msg[16 * n + i] else if 16 * n + i == |msg| then 0x80 else 0
  }

  /** For every message, of n full blocks and a last one: the encryption of the last block added
      to a subkey and to the chaining value behind the others. The subkeys are zero encrypted,
      doubled once for a complete last block and twice for one that had to be filled. */
  lemma TagExactly(c: Cipher, key: Block, msg: seq<uint8>, n: nat, k1: Block, k2: Block, last: Block)
    requires IsDouble(c.enc(key, ZERO_BLOCK), k1) && IsDouble(k1, k2)
    requires n == (if msg == [] then 0 else (|msg| - 1) / 16) && LastFilled(msg, n, last)
    ensures 16 * n <= |msg| && Cmac(c, key, msg) ==
      c.enc(key, XorBlock(XorBlock(if |msg| == 16 * n + 16 then k1 else k2, last),
                          Chained(c, key, ZERO_BLOCK, msg, n)))
  {
    hide XorBlock, Double, Shifted, Chained;
    DoubleUnique(c.enc(key, ZERO_BLOCK), k1);
    DoubleUnique(k1, k2);
    var k := KeysOf(c, key);
    TagIsLastOfChain(c, key, k, ZERO_BLOCK, msg);
    assert BlockCount(|msg|) == n + 1;
    var front, tail := msg[..16 * n], msg[16 * n..];
    var p := LastPrepared(k, tail);
    FilledIsPrepared(k, msg, n, last);
    CbcEncryptAppend(c, key, ZERO_BLOCK, front, p);
    ChainedIsCbc(c, key, ZERO_BLOCK, msg, n);
    OneBlockChain(c, key, Chained(c, key, ZERO_BLOCK, msg, n), p);
  }

  lemma FilledIsPrepared(k: Subkeys, msg: seq<uint8>, n: nat, last: Block)
    requires LastFilled(msg, n, last) && (msg != [] ==> 16 * n < |msg|)
    ensures LastPrepared(k, msg[16 * n..]) == XorBlock(if |msg| == 16 * n + 16 then k.k1 else k.k2, last)
  {
    hide XorBlock;
    var tail := msg[16 * n..];
    if |tail| == 16 {
      assert last == tail;
    } else {
      assert last == tail + [0x80] + Repeated(15 - |tail|);
    }
  }
}
