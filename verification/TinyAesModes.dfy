/** The chained modes of crypto/tinyaes_src.c, and TinyAES as one of the backends
    behind osdp_encrypt and osdp_decrypt. */
module TinyAesModes {
  import opened Bytes
  import opened TinyAes
  import opened AesKeys
  import B = BlockCipher

  // ----- Octets as numbers and as bit patterns -----

  function Octets(s: seq<bv8>): seq<uint8> {
    seq(|s|, k requires 0 <= k < |s| => FromBits(s[k]))
  }

  function Patterns(s: seq<uint8>): seq<bv8> {
    seq(|s|, k requires 0 <= k < |s| => Bits(s[k]))
  }

  lemma PatternsOfOctets(s: seq<bv8>)
    ensures Patterns(Octets(s)) == s
  {
    forall k | 0 <= k < |s| ensures Patterns(Octets(s))[k] == s[k] {
      BitsFromBits(s[k]);
    }
  }

  lemma OctetsOfPatterns(s: seq<uint8>)
    ensures Octets(Patterns(s)) == s
  {
    forall k | 0 <= k < |s| ensures Octets(Patterns(s))[k] == s[k] {
      FromBitsBits(s[k]);
    }
  }

  // ----- TinyAES as a cipher backend -----

  function EncryptBlock(key: Block, b: Block): Block {
    Octets(Cipher(Patterns(b), Expand(Patterns(key))))
  }

  function DecryptBlock(key: Block, b: Block): Block {
    Octets(InvCipher(Patterns(b), Expand(Patterns(key))))
  }

  const BACKEND: B.Cipher := B.Cipher(EncryptBlock, DecryptBlock)

  lemma DecryptUndoesEncrypt(key: Block, b: Block)
    ensures DecryptBlock(key, EncryptBlock(key, b)) == b
  {
    var rk := Expand(Patterns(key));
    PatternsOfOctets(Cipher(Patterns(b), rk));
    CipherInverse(Patterns(b), rk);
    OctetsOfPatterns(b);
  }

  /** TinyAES decrypts what it encrypts, so it can stand behind the secure channel. */
  lemma BackendInvertible()
    ensures B.Invertible(BACKEND)
  {
    forall key: Block, b: Block ensures BACKEND.dec(key, BACKEND.enc(key, b)) == b {
      DecryptUndoesEncrypt(key, b);
    }
  }

  // ----- Chained modes in place -----

  function XorState(a: State, b: State): State {
    seq(16, k requires 0 <= k < 16 => a[k] ^ b[k])
  }

  lemma XorOctets(a: bv8, b: bv8)
    ensures FromBits(a ^ b) == Xor(FromBits(a), FromBits(b))
  {
    BitsFromBits(a);
    BitsFromBits(b);
  }

  lemma XorStateOctets(a: State, b: State)
    ensures Octets(XorState(a, b)) == XorBlock(Octets(a), Octets(b))
  {
    forall k | 0 <= k < 16
      ensures Octets(XorState(a, b))[k] == XorBlock(Octets(a), Octets(b))[k]
    {
      hide FromBits, Xor;
      XorOctets(a[k], b[k]);
    }
  }

  method XorWithIv(buf: array<bv8>, p: nat, iv: array<bv8>, q: nat)
    requires p + 16 <= buf.Length && q + 16 <= iv.Length
    requires iv != buf || q + 16 <= p
    modifies buf
    ensures buf[..] == Put(old(buf[..]), p, XorState(old(buf[p..p + 16]), old(iv[q..q + 16])))
  {
    for i := 0 to 16
      invariant forall k :: 0 <= k < buf.Length ==>
        buf[k] == if p <= k < p + i then old(buf[k]) ^ old(iv[q + (k - p)]) else old(buf[k])
    {
      buf[p + i] := buf[p + i] ^ iv[q + i];
    }
  }

  /** One more block at the end of an encrypted chain. */
  lemma EncryptOneMore(key: Block, iv: Block, done: seq<uint8>, b: Block)
    requires |done| % 16 == 0
    ensures var out := B.CbcEncrypt(BACKEND, key, iv, done);
      B.CbcEncrypt(BACKEND, key, iv, done + b) ==
        out + EncryptBlock(key, XorBlock(b, B.LastBlock(iv, out)))
  {
    var out := B.CbcEncrypt(BACKEND, key, iv, done);
    B.CbcEncryptAppend(BACKEND, key, iv, done, b);
    assert b[..16] == b && b[16..] == [];
  }

  lemma DecryptOneMore(key: Block, iv: Block, done: seq<uint8>, b: Block)
    requires |done| % 16 == 0
    ensures B.CbcDecrypt(BACKEND, key, iv, done + b) ==
      B.CbcDecrypt(BACKEND, key, iv, done) + XorBlock(DecryptBlock(key, b), B.LastBlock(iv, done))
  {
    B.CbcDecryptAppend(BACKEND, key, iv, done, b);
    assert b[..16] == b && b[16..] == [];
  }

  /** One block of AES_CBC_encrypt_buffer. */
  method EncryptNext(buf: array<bv8>, p: nat, iv: array<bv8>, q: nat, rk: array<bv8>, ghost key: Block)
    requires rk.Length == 176 && rk != buf && rk[..] == Expand(Patterns(key))
    requires p + 16 <= buf.Length && q + 16 <= iv.Length
    requires iv != buf || q + 16 <= p
    modifies buf
    ensures |buf[..]| == |old(buf[..])|
    ensures buf[..p] == old(buf[..p]) && buf[p + 16..] == old(buf[p + 16..])
    ensures Octets(buf[p..p + 16]) ==
            EncryptBlock(key, XorBlock(Octets(old(buf[p..p + 16])), Octets(old(iv[q..q + 16]))))
  {
    ghost var all, b, v := buf[..], buf[p..p + 16], iv[q..q + 16];
    XorWithIv(buf, p, iv, q);
    PutPut(all, p, XorState(b, v), Cipher(XorState(b, v), rk[..]));
    CipherInPlace(buf, p, rk);
    XorStateOctets(b, v);
    PatternsOfOctets(XorState(b, v));
  }

  /** One block of AES_CBC_decrypt_buffer; iv is the context's own vector. */
  method DecryptNext(buf: array<bv8>, p: nat, iv: array<bv8>, rk: array<bv8>, ghost key: Block)
    requires rk.Length == 176 && rk != buf && rk[..] == Expand(Patterns(key))
    requires p + 16 <= buf.Length && iv.Length == 16 && iv != buf && iv != rk
    modifies buf, iv
    ensures buf[..p] == old(buf[..p]) && buf[p + 16..] == old(buf[p + 16..])
    ensures Octets(buf[p..p + 16]) ==
            XorBlock(DecryptBlock(key, Octets(old(buf[p..p + 16]))), Octets(old(iv[..])))
    ensures iv[..] == old(buf[p..p + 16])
  {
    ghost var all, b, v := buf[..], buf[p..p + 16], iv[..];
    var storeNextIv := buf[p..p + 16];
    InvCipherInPlace(buf, p, rk);
    ghost var c := InvCipher(b, rk[..]);
    PutPut(all, p, c, XorState(c, v));
    assert iv[0..16] == iv[..];
    XorWithIv(buf, p, iv, 0);
    forall i | 0 <= i < 16 {
      iv[i] := storeNextIv[i];
    }
    XorStateOctets(c, v);
    PatternsOfOctets(b);
  }

  lemma OctetsSplit(s: seq<bv8>, i: nat, j: nat)
    requires i <= j <= |s|
    ensures Octets(s[..j]) == Octets(s[..i]) + Octets(s[i..j])
  {
  }

  /** The loop invariant of encryption, one block later. */
  lemma ChainGrows(before: seq<bv8>, after: seq<bv8>, i: nat, data: seq<uint8>, iv: Block, key: Block)
    requires i % 16 == 0 && i + 16 <= |data| <= |before| == |after|
    requires Octets(before[..i]) == B.CbcEncrypt(BACKEND, key, iv, data[..i])
    requires Octets(before[i..i + 16]) == data[i..i + 16]
    requires after[..i] == before[..i]
    requires Octets(after[i..i + 16]) ==
             EncryptBlock(key, XorBlock(data[i..i + 16], B.LastBlock(iv, Octets(before[..i]))))
    ensures Octets(after[..i + 16]) == B.CbcEncrypt(BACKEND, key, iv, data[..i + 16])
    ensures Octets(after[i..i + 16]) == B.LastBlock(iv, Octets(after[..i + 16]))
  {
    EncryptOneMore(key, iv, data[..i], data[i..i + 16]);
    assert data[..i + 16] == data[..i] + data[i..i + 16];
    OctetsSplit(after, i, i + 16);
  }

  /** The loop invariant of decryption, one block later. */
  lemma PlainGrows(before: seq<bv8>, after: seq<bv8>, i: nat, data: seq<uint8>, iv: Block, key: Block)
    requires i % 16 == 0 && i + 16 <= |data| <= |before| == |after|
    requires Octets(before[..i]) == B.CbcDecrypt(BACKEND, key, iv, data[..i])
    requires after[..i] == before[..i]
    requires Octets(after[i..i + 16]) ==
             XorBlock(DecryptBlock(key, data[i..i + 16]), B.LastBlock(iv, data[..i]))
    ensures Octets(after[..i + 16]) == B.CbcDecrypt(BACKEND, key, iv, data[..i + 16])
    ensures data[i..i + 16] == B.LastBlock(iv, data[..i + 16])
  {
    hide B.CbcDecrypt, DecryptBlock, XorBlock;
    DecryptOneMore(key, iv, data[..i], data[i..i + 16]);
    assert data[..i + 16] == data[..i] + data[i..i + 16];
    OctetsSplit(after, i, i + 16);
  }

  /** The first i octets are encrypted, last is the vector for the next block,
      and the rest is untouched. */
  ghost predicate EncryptedUpTo(buf: seq<bv8>, i: nat, last: seq<bv8>, all: seq<bv8>, length: nat, iv: Block,
      key: Block)
    requires length % 16 == 0 && length <= |all|
  {
    && i % 16 == 0 && i <= length && |buf| == |all| && |last| == 16
    && Octets(buf[..i]) == B.CbcEncrypt(BACKEND, key, iv, Octets(all[..length])[..i])
    && Octets(last) == B.LastBlock(iv, Octets(buf[..i]))
    && buf[i..] == all[i..]
  }

  ghost predicate DecryptedUpTo(buf: seq<bv8>, i: nat, last: seq<bv8>, all: seq<bv8>, length: nat, iv: Block,
      key: Block)
    requires length % 16 == 0 && length <= |all|
  {
    && i % 16 == 0 && i <= length && |buf| == |all| && |last| == 16
    && Octets(buf[..i]) == B.CbcDecrypt(BACKEND, key, iv, Octets(all[..length])[..i])
    && Octets(last) == B.LastBlock(iv, Octets(all[..length])[..i])
    && buf[i..] == all[i..]
  }

  lemma EncryptedNext(before: seq<bv8>, after: seq<bv8>, i: nat, last: seq<bv8>, all: seq<bv8>, length: nat,
                      iv: Block, key: Block)
    requires length % 16 == 0 && i < length <= |all|
    requires EncryptedUpTo(before, i, last, all, length, iv, key)
    requires |after| == |before| && i + 16 <= length
    requires after[..i] == before[..i] && after[i + 16..] == before[i + 16..]
    requires Octets(after[i..i + 16]) == EncryptBlock(key, XorBlock(Octets(before[i..i + 16]), Octets(last)))
    ensures EncryptedUpTo(after, i + 16, after[i..i + 16], all, length, iv, key)
  {
    RestAgrees(before, all, length, i);
    ChainGrows(before, after, i, Octets(all[..length]), iv, key);
  }

  lemma DecryptedNext(before: seq<bv8>, after: seq<bv8>, i: nat, last: seq<bv8>, all: seq<bv8>, length: nat,
                      iv: Block, key: Block)
    requires length % 16 == 0 && i < length <= |all|
    requires DecryptedUpTo(before, i, last, all, length, iv, key)
    requires |after| == |before| && i + 16 <= length
    requires after[..i] == before[..i] && after[i + 16..] == before[i + 16..]
    requires Octets(after[i..i + 16]) == XorBlock(DecryptBlock(key, Octets(before[i..i + 16])), Octets(last))
    ensures DecryptedUpTo(after, i + 16, before[i..i + 16], all, length, iv, key)
  {
    RestAgrees(before, all, length, i);
    PlainGrows(before, after, i, Octets(all[..length]), iv, key);
  }

  lemma RestAgrees(buf: seq<bv8>, all: seq<bv8>, length: nat, i: nat)
    requires i + 16 <= length <= |all| == |buf|
    requires buf[i..] == all[i..]
    ensures Octets(buf[i..i + 16]) == Octets(all[..length])[i..i + 16]
    ensures buf[i + 16..] == all[i + 16..]
  {
    assert buf[i..i + 16] == buf[i..][..16];
    assert all[i..i + 16] == all[i..][..16];
    assert buf[i + 16..] == buf[i..][16..];
  }

  lemma EncryptedAll(buf: seq<bv8>, last: seq<bv8>, all: seq<bv8>, length: nat, iv: Block, key: Block)
    requires length % 16 == 0 && length <= |all|
    requires EncryptedUpTo(buf, length, last, all, length, iv, key)
    ensures Octets(buf[..length]) == B.CbcEncrypt(BACKEND, key, iv, Octets(all[..length]))
    ensures Octets(last) == B.LastBlock(iv, Octets(buf[..length]))
    ensures buf[length..] == all[length..]
  {
    assert Octets(all[..length])[..length] == Octets(all[..length]);
  }

  lemma DecryptedAll(buf: seq<bv8>, last: seq<bv8>, all: seq<bv8>, length: nat, iv: Block, key: Block)
    requires length % 16 == 0 && length <= |all|
    requires DecryptedUpTo(buf, length, last, all, length, iv, key)
    ensures Octets(buf[..length]) == B.CbcDecrypt(BACKEND, key, iv, Octets(all[..length]))
    ensures Octets(last) == B.LastBlock(iv, Octets(all[..length]))
    ensures buf[length..] == all[length..]
  {
    assert Octets(all[..length])[..length] == Octets(all[..length]);
  }

  lemma EncryptedNone(last: seq<bv8>, all: seq<bv8>, length: nat, iv: Block, key: Block)
    requires length % 16 == 0 && length <= |all| && |last| == 16 && iv == Octets(last)
    ensures EncryptedUpTo(all, 0, last, all, length, iv, key)
    ensures DecryptedUpTo(all, 0, last, all, length, iv, key)
  {
  }

  class AesCtx {
    const roundKey: array<bv8>
    const iv: array<bv8>
    ghost const key: Block

    ghost predicate Valid()
      reads roundKey, iv
    {
      && roundKey.Length == 176 && iv.Length == 16 && roundKey != iv
      && roundKey[..] == Expand(Patterns(key))
    }

    /** AES_init_ctx_iv */
    constructor InitIv(key: array<bv8>, iv: array<bv8>)
      requires key.Length == 16 && iv.Length == 16
      ensures Valid() && fresh(roundKey) && fresh(this.iv)
      ensures this.key == Octets(key[..]) && this.iv[..] == iv[..]
    {
      roundKey := new bv8[176];
      this.iv := new bv8[16](i requires 0 <= i < 16 reads iv => iv[i]);
      this.key := Octets(key[..]);
      new;
      KeyExpansion(roundKey, key);
      PatternsOfOctets(key[..]);
    }

    /** AES_CBC_encrypt_buffer: the vector is the context's, then each block written. */
    method CbcEncryptBuffer(buf: array<bv8>, length: nat)
      requires Valid() && buf != roundKey && buf != iv
      requires length % 16 == 0 && length <= buf.Length
      modifies buf, iv
      ensures Valid()
      ensures Octets(buf[..length]) == B.CbcEncrypt(BACKEND, key, old(Octets(iv[..])), old(Octets(buf[..length])))
      ensures buf[length..] == old(buf[length..])
      ensures Octets(iv[..]) == B.LastBlock(old(Octets(iv[..])), Octets(buf[..length]))
    {
      hide EncryptedUpTo, B.CbcEncrypt, B.LastBlock;
      ghost var all := buf[..];
      var ivBuf, ivAt := EncryptBlocks(buf, length);
      var last := ivBuf[ivAt..ivAt + 16];
      EncryptedAll(buf[..], last, all, length, Octets(iv[..]), key);
      forall k | 0 <= k < 16 {
        iv[k] := last[k];
      }
      assert iv[..] == last;
    }

    /** The loop of AES_CBC_encrypt_buffer; returns where the last vector lies. */
    method EncryptBlocks(buf: array<bv8>, length: nat) returns (ivBuf: array<bv8>, ivAt: nat)
      requires Valid() && buf != roundKey && buf != iv
      requires length % 16 == 0 && length <= buf.Length
      modifies buf
      ensures ivAt + 16 <= ivBuf.Length
      ensures EncryptedUpTo(buf[..], length, ivBuf[ivAt..ivAt + 16], old(buf[..]), length, Octets(iv[..]), key)
    {
      ghost var iv0, all := Octets(iv[..]), buf[..];
      ivBuf, ivAt := iv, 0;
      var i := 0;
      assert iv[0..16] == iv[..];
      EncryptedNone(iv[..], all, length, iv0, key);
      while i < length
        invariant (ivBuf == iv && ivAt == 0) || (ivBuf == buf && ivAt + 16 == i <= buf.Length)
        invariant EncryptedUpTo(buf[..], i, ivBuf[ivAt..ivAt + 16], all, length, iv0, key)
      {
        ghost var before, last := buf[..], ivBuf[ivAt..ivAt + 16];
        EncryptNext(buf, i, ivBuf, ivAt, roundKey, key);
        EncryptedNext(before, buf[..], i, last, all, length, iv0, key);
        ivBuf, ivAt := buf, i;
        i := i + 16;
      }
    }

    /** AES_CBC_decrypt_buffer: each block is saved as the next vector before it is overwritten. */
    method CbcDecryptBuffer(buf: array<bv8>, length: nat)
      requires Valid() && buf != roundKey && buf != iv
      requires length % 16 == 0 && length <= buf.Length
      modifies buf, iv
      ensures Valid()
      ensures Octets(buf[..length]) == B.CbcDecrypt(BACKEND, key, old(Octets(iv[..])), old(Octets(buf[..length])))
      ensures buf[length..] == old(buf[length..])
      ensures Octets(iv[..]) == B.LastBlock(old(Octets(iv[..])), old(Octets(buf[..length])))
    {
      ghost var iv0, all := Octets(iv[..]), buf[..];
      var i := 0;
      EncryptedNone(iv[..], all, length, iv0, key);
      while i < length
        invariant DecryptedUpTo(buf[..], i, iv[..], all, length, iv0, key)
      {
        ghost var before, last := buf[..], iv[..];
        DecryptNext(buf, i, iv, roundKey, key);
        DecryptedNext(before, buf[..], i, last, all, length, iv0, key);
        i := i + 16;
      }
      DecryptedAll(buf[..], iv[..], all, length, iv0, key);
    }
  }

  /** Decrypting in place undoes encrypting in place, for every key, vector and
      buffer of whole blocks. */
  lemma CbcBuffersRoundTrip(key: Block, iv: Block, data: seq<uint8>)
    requires |data| % 16 == 0
    ensures B.CbcDecrypt(BACKEND, key, iv, B.CbcEncrypt(BACKEND, key, iv, data)) == data
  {
    BackendInvertible();
    B.CbcRoundTrip(BACKEND, key, iv, data);
  }
}
