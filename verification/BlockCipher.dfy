/** The cipher backend seen through osdp_encrypt and osdp_decrypt: one block
    under a key, and chains of blocks (section 6.2 of NIST SP 800-38A). */
module BlockCipher {
  import opened Bytes

  datatype Cipher = Cipher(enc: (Block, Block) -> Block, dec: (Block, Block) -> Block)

  ghost predicate Invertible(c: Cipher) {
    forall key: Block, b: Block {:trigger c.enc(key, b)} :: c.dec(key, c.enc(key, b)) == b
  }

  function CbcEncrypt(c: Cipher, key: Block, iv: Block, data: seq<uint8>): (r: seq<uint8>)
    requires |data| % 16 == 0
    ensures |r| == |data|
    decreases |data|
  {
    if data == [] then
      []
    else
      var e := c.enc(key, XorBlock(data[..16], iv));
      e + CbcEncrypt(c, key, e, data[16..])
  }

  function CbcDecrypt(c: Cipher, key: Block, iv: Block, data: seq<uint8>): (r: seq<uint8>)
    requires |data| % 16 == 0
    ensures |r| == |data|
    decreases |data|
  {
    if data == [] then
      []
    else
      XorBlock(c.dec(key, data[..16]), iv) + CbcDecrypt(c, key, data[..16], data[16..])
  }

  /** The last block of a chain, or the initial vector of an empty one. */
  function LastBlock(iv: Block, data: seq<uint8>): Block
    requires |data| % 16 == 0
  {
    if data == [] then iv else data[|data| - 16..]
  }

  lemma {:induction false} CbcRoundTrip(c: Cipher, key: Block, iv: Block, data: seq<uint8>)
    requires Invertible(c)
    requires |data| % 16 == 0
    ensures CbcDecrypt(c, key, iv, CbcEncrypt(c, key, iv, data)) == data
    decreases |data|
  {
    if data != [] {
      var e := c.enc(key, XorBlock(data[..16], iv));
      var all := CbcEncrypt(c, key, iv, data);
      assert all[..16] == e && all[16..] == CbcEncrypt(c, key, e, data[16..]);
      CbcRoundTrip(c, key, e, data[16..]);
      XorBlockCancels(data[..16], iv);
      assert data == data[..16] + data[16..];
    }
  }

  /** Encrypting a and then b with the chaining value carried over is
      encrypting a + b at once. */
  lemma {:induction false} CbcEncryptAppend(c: Cipher, key: Block, iv: Block, a: seq<uint8>, b: seq<uint8>)
    requires |a| % 16 == 0 && |b| % 16 == 0
    ensures CbcEncrypt(c, key, iv, a + b) ==
            var ea := CbcEncrypt(c, key, iv, a);
            ea + CbcEncrypt(c, key, LastBlock(iv, ea), b)
    decreases |a|
  {
    if a == [] {
      assert a + b == b;
    } else {
      var e := c.enc(key, XorBlock(a[..16], iv));
      assert (a + b)[..16] == a[..16] && (a + b)[16..] == a[16..] + b;
      CbcEncryptAppend(c, key, e, a[16..], b);
      var rest := CbcEncrypt(c, key, e, a[16..]);
      assert LastBlock(iv, e + rest) == LastBlock(e, rest);
    }
  }

  lemma {:induction false} CbcDecryptAppend(c: Cipher, key: Block, iv: Block, a: seq<uint8>, b: seq<uint8>)
    requires |a| % 16 == 0 && |b| % 16 == 0
    ensures CbcDecrypt(c, key, iv, a + b) ==
            CbcDecrypt(c, key, iv, a) + CbcDecrypt(c, key, LastBlock(iv, a), b)
    decreases |a|
  {
    hide XorBlock;
    if a == [] {
      assert a + b == b;
    } else {
      assert (a + b)[..16] == a[..16] && (a + b)[16..] == a[16..] + b;
      CbcDecryptAppend(c, key, a[..16], a[16..], b);
      LastAfterFirst(iv, a);
      hide LastBlock;
      var first: seq<uint8> := XorBlock(c.dec(key, a[..16]), iv);
      var rest, last := CbcDecrypt(c, key, a[..16], a[16..]), CbcDecrypt(c, key, LastBlock(iv, a), b);
      assert first + (rest + last) == first + rest + last;
    }
  }

  lemma LastAfterFirst(iv: Block, a: seq<uint8>)
    requires |a| % 16 == 0 && a != []
    ensures LastBlock(iv, a) == LastBlock(a[..16], a[16..])
  {
  }

  /** Block i of a message. */
  function BlockAt(s: seq<uint8>, i: nat): Block
    requires 16 * i + 16 <= |s|
  {
    s[16 * i..16 * i + 16]
  }

  lemma BlocksOfSum(first: Block, rest: seq<uint8>, i: nat)
    requires 16 * i <= |rest|
    ensures BlockAt(first + rest, i) == if i == 0 then first else BlockAt(rest, i - 1)
  {
  }

  /** Every block is added to the cipher block before it, the first to the vector. */
  lemma {:induction false} CbcEncryptBlocks(c: Cipher, key: Block, iv: Block, data: seq<uint8>, i: nat)
    requires |data| % 16 == 0 && 16 * i + 16 <= |data|
    ensures var out := CbcEncrypt(c, key, iv, data);
      BlockAt(out, i) == c.enc(key, XorBlock(BlockAt(data, i), if i == 0 then iv else BlockAt(out, i - 1)))
    decreases i
  {
    hide XorBlock, BlockAt;
    var first, rest := data[..16], data[16..];
    assert data == first + rest;
    var e := c.enc(key, XorBlock(first, iv));
    var out := CbcEncrypt(c, key, e, rest);
    assert CbcEncrypt(c, key, iv, data) == e + out;
    BlocksOfSum(first, rest, i);
    BlocksOfSum(e, out, i);
    if i > 0 {
      BlocksOfSum(e, out, i - 1);
      CbcEncryptBlocks(c, key, e, rest, i - 1);
    }
  }

  /** out is data in CBC mode, block by block. */
  ghost predicate ChainOf(c: Cipher, key: Block, iv: Block, data: seq<uint8>, out: seq<uint8>) {
    && |out| == |data|
    && forall i {:trigger BlockAt(out, i)} :: 0 <= i < |data| / 16 ==>
         BlockAt(out, i) == c.enc(key, XorBlock(BlockAt(data, i), if i == 0 then iv else BlockAt(out, i - 1)))
  }

  lemma CbcEncryptIsChain(c: Cipher, key: Block, iv: Block, data: seq<uint8>)
    requires |data| % 16 == 0
    ensures ChainOf(c, key, iv, data, CbcEncrypt(c, key, iv, data))
  {
    hide XorBlock, BlockAt, CbcEncrypt;
    var out := CbcEncrypt(c, key, iv, data);
    forall i {:trigger BlockAt(out, i)} | 0 <= i < |data| / 16
      ensures BlockAt(out, i) == c.enc(key, XorBlock(BlockAt(data, i), if i == 0 then iv else BlockAt(out, i - 1)))
    {
      CbcEncryptBlocks(c, key, iv, data, i);
    }
  }

  /** And the other way: decrypted, then the cipher block before it added. */
  lemma {:induction false} CbcDecryptBlocks(c: Cipher, key: Block, iv: Block, data: seq<uint8>, i: nat)
    requires |data| % 16 == 0 && 16 * i + 16 <= |data|
    ensures BlockAt(CbcDecrypt(c, key, iv, data), i) ==
            XorBlock(c.dec(key, BlockAt(data, i)), if i == 0 then iv else BlockAt(data, i - 1))
    decreases i
  {
    hide XorBlock, BlockAt;
    var first, rest := data[..16], data[16..];
    assert data == first + rest;
    var plain := XorBlock(c.dec(key, first), iv);
    var out := CbcDecrypt(c, key, first, rest);
    assert CbcDecrypt(c, key, iv, data) == plain + out;
    BlocksOfSum(first, rest, i);
    BlocksOfSum(plain, out, i);
    if i > 0 {
      BlocksOfSum(first, rest, i - 1);
      CbcDecryptBlocks(c, key, first, rest, i - 1);
    }
  }

  /** The chaining value after n blocks. */
  function Chained(c: Cipher, key: Block, iv: Block, s: seq<uint8>, n: nat): Block
    requires 16 * n <= |s|
  {
    if n == 0 then iv else c.enc(key, XorBlock(BlockAt(s, n - 1), Chained(c, key, iv, s, n - 1)))
  }

  lemma {:induction false} ChainedIsCbc(c: Cipher, key: Block, iv: Block, s: seq<uint8>, n: nat)
    requires 16 * n <= |s|
    ensures Chained(c, key, iv, s, n) == LastBlock(iv, CbcEncrypt(c, key, iv, s[..16 * n]))
    decreases n
  {
    hide XorBlock, CbcEncrypt, LastBlock;
    if n == 0 {
      EmptyCbc(c, key, iv);
      assert s[..0] == [];
    } else {
      var last := BlockAt(s, n - 1);
      var front := s[..16 * (n - 1)];
      ChainedIsCbc(c, key, iv, s, n - 1);
      assert s[..16 * n] == front + last;
      CbcEncryptAppend(c, key, iv, front, last);
      OneBlockChain(c, key, Chained(c, key, iv, s, n - 1), last);
      LastOfSum(iv, CbcEncrypt(c, key, iv, front), c.enc(key, XorBlock(last, Chained(c, key, iv, s, n - 1))));
    }
  }

  lemma EmptyCbc(c: Cipher, key: Block, iv: Block)
    ensures CbcEncrypt(c, key, iv, []) == [] && LastBlock(iv, []) == iv
  {
  }

  lemma LastOfSum(iv: Block, front: seq<uint8>, last: Block)
    requires |front| % 16 == 0
    ensures LastBlock(iv, front + last) == last
  {
  }

  lemma OneBlockChain(c: Cipher, key: Block, iv: Block, b: Block)
    ensures CbcEncrypt(c, key, iv, b) == c.enc(key, XorBlock(b, iv))
  {
    hide XorBlock;
    assert b[..16] == b && b[16..] == [];
    assert CbcEncrypt(c, key, c.enc(key, XorBlock(b, iv)), []) == [];
  }

  /** osdp_encrypt with an initial vector, on part of a buffer. */
  method EncryptChain(c: Cipher, key: Block, iv: Block, data: array<uint8>, off: nat, len: nat)
    requires len % 16 == 0 && off + len <= data.Length
    modifies data
    ensures data[off..off + len] == CbcEncrypt(c, key, iv, old(data[off..off + len]))
    ensures data[..off] == old(data[..off]) && data[off + len..] == old(data[off + len..])
  {
    var out := CbcEncrypt(c, key, iv, data[off..off + len]);
    forall i | 0 <= i < len {
      data[off + i] := out[i];
    }
    assert data[off..off + len] == out;
  }

  /** osdp_decrypt with an initial vector, on part of a buffer. */
  method DecryptChain(c: Cipher, key: Block, iv: Block, data: array<uint8>, off: nat, len: nat)
    requires len % 16 == 0 && off + len <= data.Length
    modifies data
    ensures data[off..off + len] == CbcDecrypt(c, key, iv, old(data[off..off + len]))
    ensures data[..off] == old(data[..off]) && data[off + len..] == old(data[off + len..])
  {
    var out := CbcDecrypt(c, key, iv, data[off..off + len]);
    forall i | 0 <= i < len {
      data[off + i] := out[i];
    }
    assert data[off..off + len] == out;
  }
}
