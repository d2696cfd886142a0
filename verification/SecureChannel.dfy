/** osdp_sc.c: session keys, cryptograms, encryption of the data portion and the
    rolling MAC (Annex D of SIA OSDP v2.2), over any cipher backend. */
module SecureChannel {
  import opened Bytes
  import opened Options
  import opened BlockCipher
  import Config

  const EOM_MARKER: uint8 := 0x80

  /** osdp_scbk_default */
  const SCBK_DEFAULT: Block := [
    0x30, 0x31, 0x32, 0x33, 0x34, 0x35, 0x36, 0x37, 0x38, 0x39, 0x3A, 0x3B, 0x3C, 0x3D, 0x3E, 0x3F]

  /** struct osdp_secure_channel */
  datatype Keys = Keys(
    scbk: Block, sEnc: Block, sMac1: Block, sMac2: Block, rMac: Block, cMac: Block,
    cpRandom: Half, pdRandom: Half, clientUid: Half, cpCryptogram: Block, pdCryptogram: Block)

  // ----- Handshake values -----

  function ScbkInUse(k: Keys, useScbkd: bool): Block {
    if useScbkd then SCBK_DEFAULT else k.scbk
  }

  function Seed(b0: uint8, b1: uint8, cpRandom: Half): Block {
    [b0, b1] + cpRandom[..6] + seq(8, _ => 0)
  }

  function WithSessionKeys(c: Cipher, k: Keys, useScbkd: bool): Keys {
    var scbk := ScbkInUse(k, useScbkd);
    k.(sEnc := c.enc(scbk, Seed(0x01, 0x82, k.cpRandom)),
       sMac1 := c.enc(scbk, Seed(0x01, 0x01, k.cpRandom)),
       sMac2 := c.enc(scbk, Seed(0x01, 0x02, k.cpRandom)))
  }

  function CpCryptogram(c: Cipher, k: Keys): Block { c.enc(k.sEnc, k.pdRandom + k.cpRandom) }

  function PdCryptogram(c: Cipher, k: Keys): Block { c.enc(k.sEnc, k.cpRandom + k.pdRandom) }

  function InitialRMac(c: Cipher, k: Keys): Block { c.enc(k.sMac2, c.enc(k.sMac1, k.cpCryptogram)) }

  // ----- Data portion -----

  /** AES_PAD_LEN */
  function PadLen(n: nat): (r: nat)
    ensures r % 16 == 0 && n <= r < n + 16
  {
    (n + 15) / 16 * 16
  }

  /** The marker and the zeros up to a block boundary. */
  function Pad(data: seq<uint8>): (r: seq<uint8>)
    ensures |r| == PadLen(|data| + 1)
  {
    data + [EOM_MARKER] + Repeated(PadLen(|data| + 1) - |data| - 1)
  }

  /** What is left of the data after its trailing zeros and one marker. */
  function Unpad(data: seq<uint8>): Option<seq<uint8>> {
    if data == [] then None
    else if |data| > 1 && data[|data| - 1] == 0 then Unpad(data[..|data| - 1])
    else if data[|data| - 1] == EOM_MARKER then Some(data[..|data| - 1])
    else None
  }

  lemma {:induction false} UnpadZeros(data: seq<uint8>, n: nat)
    ensures Unpad(data + [EOM_MARKER] + Repeated(n)) == Some(data)
  {
    var all := data + [EOM_MARKER] + Repeated(n);
    if n == 0 {
      assert all[..|all| - 1] == data;
    } else {
      assert all[..|all| - 1] == data + [EOM_MARKER] + Repeated(n - 1);
      UnpadZeros(data, n - 1);
    }
  }

  /** Behind the last octet that counts. */
  lemma StripsMarker(data: seq<uint8>, last: nat)
    requires last < |data| && (last == 0 || data[last] != 0)
    ensures Unpad(data[..last + 1]) == if data[last] == EOM_MARKER then Some(data[..last]) else None
  {
    assert data[..last + 1][..last] == data[..last];
  }

  /** Every octet string survives padding, also one that ends in zeros or markers. */
  lemma UnpadPad(data: seq<uint8>)
    ensures Unpad(Pad(data)) == Some(data)
  {
    UnpadZeros(data, PadLen(|data| + 1) - |data| - 1);
  }

  /** And nothing else reads as data: exactly the marker and any zeros are stripped. */
  lemma {:induction false} UnpadExactly(padded: seq<uint8>, data: seq<uint8>)
    ensures Unpad(padded) == Some(data) <==> exists n: nat :: padded == data + [0x80] + Repeated(n)
    decreases |padded|
  {
    var last := |padded| - 1;
    if n: nat :| padded == data + [0x80] + Repeated(n) {
      UnpadZeros(data, n);
    }
    if Unpad(padded) == Some(data) {
      if |padded| > 1 && padded[last] == 0 {
        UnpadExactly(padded[..last], data);
        var n: nat :| padded[..last] == data + [0x80] + Repeated(n);
        assert padded == data + [0x80] + Repeated(n + 1);
      } else {
        assert padded == data + [0x80] + Repeated(0);
      }
    }
  }

  /** The side that speaks chains from the MAC the other side sent last. */
  function LastMac(k: Keys, isCmd: bool): Block {
    if isCmd then k.rMac else k.cMac
  }

  function EncryptData(c: Cipher, k: Keys, isCmd: bool, data: seq<uint8>): (r: seq<uint8>)
    ensures |r| == PadLen(|data| + 1)
  {
    CbcEncrypt(c, k.sEnc, ComplementBlock(LastMac(k, isCmd)), Pad(data))
  }

  function DecryptData(c: Cipher, k: Keys, isCmd: bool, allowEmpty: bool, data: seq<uint8>): Option<seq<uint8>> {
    if |data| % 16 != 0 then None
    else if allowEmpty && data == [] then Some([])
    else Unpad(CbcDecrypt(c, k.sEnc, ComplementBlock(LastMac(k, isCmd)), data))
  }

  /** Any data that one side encrypts the other side, holding the same session
      key and the same last MAC, decrypts to exactly that data. */
  lemma DecryptEncrypt(c: Cipher, sender: Keys, receiver: Keys, isCmd: bool, allowEmpty: bool, data: seq<uint8>)
    requires Invertible(c)
    requires sender.sEnc == receiver.sEnc && LastMac(sender, isCmd) == LastMac(receiver, isCmd)
    ensures DecryptData(c, receiver, isCmd, allowEmpty, EncryptData(c, sender, isCmd, data)) == Some(data)
  {
    CbcRoundTrip(c, sender.sEnc, ComplementBlock(LastMac(sender, isCmd)), Pad(data));
    UnpadPad(data);
  }

  /** What a data portion reads as, with nothing assumed of who encrypted it: under S-ENC and
      the inverted MAC, the data before the marker; nothing at all only where that is allowed. */
  lemma DecryptsTo(c: Cipher, k: Keys, isCmd: bool, allowEmpty: bool, text: seq<uint8>, iv: Block, data: seq<uint8>)
    requires forall i :: 0 <= i < 16 ==> iv[i] == 255 - (if isCmd then k.rMac else k.cMac)[i]
    ensures DecryptData(c, k, isCmd, allowEmpty, text) == Some(data) <==>
      |text| % 16 == 0 && if text == [] then allowEmpty && data == []
                          else exists n: nat :: CbcDecrypt(c, k.sEnc, iv, text) == data + [0x80] + Repeated(n)
  {
    assert iv == ComplementBlock(LastMac(k, isCmd));
    if |text| % 16 == 0 {
      UnpadExactly(CbcDecrypt(c, k.sEnc, iv, text), data);
    }
  }

  function LastNonZero(s: seq<uint8>): (i: nat)
    requires exists k :: 0 <= k < |s| && s[k] != 0
    ensures i < |s| && s[i] != 0
  {
    if s[|s| - 1] != 0 then |s| - 1 else LastNonZero(s[..|s| - 1])
  }

  /** A marker that is the last octet but for zeros taken away. */
  function Unmarked(s: seq<uint8>): seq<uint8>
    requires exists k :: 0 <= k < |s| && s[k] != 0
  {
    var last := LastNonZero(s);
    if s[last] == EOM_MARKER then s[last := 0] else s
  }

  /** With no data behind it an identifier of 0x80 counts as the marker. */
  lemma IdentifierUnmarked(front: seq<uint8>, id: uint8)
    requires id != 0
    ensures var s := front + [id];
      s[|front|] != 0 && Unmarked(s) == front + [if id == EOM_MARKER then 0 else id]
  {
  }

  // ----- MAC -----

  function MacPad(data: seq<uint8>): (r: seq<uint8>)
    ensures |r| == PadLen(|data|)
  {
    if |data| % 16 == 0 then data else data + [0x80] + Repeated(PadLen(|data|) - |data| - 1)
  }

  /** The MAC over the padded message: all blocks but the last are chained under
      S-MAC1, the last under S-MAC2. */
  function MacOver(c: Cipher, k: Keys, iv: Block, padded: seq<uint8>): Block
    requires |padded| % 16 == 0 && |padded| > 0
  {
    var n := |padded| - 16;
    var iv2 := LastBlock(iv, CbcEncrypt(c, k.sMac1, iv, padded[..n]));
    c.enc(k.sMac2, XorBlock(padded[n..], iv2))
  }

  function Mac(c: Cipher, k: Keys, isCmd: bool, data: seq<uint8>): Block
    requires |data| > 0
  {
    MacOver(c, k, LastMac(k, isCmd), MacPad(data))
  }

  function WithMac(c: Cipher, k: Keys, isCmd: bool, data: seq<uint8>): Keys
    requires |data| > 0
  {
    var mac := Mac(c, k, isCmd, data);
    if isCmd then k.(cMac := mac) else k.(rMac := mac)
  }

  /** The definition block by block: every block is added to the chaining value
      and encrypted, under S-MAC2 when it is the last. */
  function MacChain(c: Cipher, k: Keys, iv: Block, padded: seq<uint8>): Block
    requires |padded| % 16 == 0 && |padded| > 0
    decreases |padded|
  {
    if |padded| == 16 then
      c.enc(k.sMac2, XorBlock(padded, iv))
    else
      MacChain(c, k, c.enc(k.sMac1, XorBlock(padded[..16], iv)), padded[16..])
  }

  /** The first of several blocks taken off the front. */
  lemma ChainStep(c: Cipher, key: Block, iv: Block, head: seq<uint8>)
    requires |head| % 16 == 0 && |head| > 0
    ensures var e := c.enc(key, XorBlock(head[..16], iv));
      LastBlock(iv, CbcEncrypt(c, key, iv, head)) == LastBlock(e, CbcEncrypt(c, key, e, head[16..]))
  {
    hide XorBlock;
    var e := c.enc(key, XorBlock(head[..16], iv));
    var out := CbcEncrypt(c, key, e, head[16..]);
    assert CbcEncrypt(c, key, iv, head) == e + out;
  }

  lemma {:induction false} MacOverIsChain(c: Cipher, k: Keys, iv: Block, padded: seq<uint8>)
    requires |padded| % 16 == 0 && |padded| > 0
    ensures MacOver(c, k, iv, padded) == MacChain(c, k, iv, padded)
    decreases |padded|
  {
    hide XorBlock, LastBlock;
    var n := |padded| - 16;
    if n == 0 {
      EmptyCbc(c, k.sMac1, iv);
      assert padded[..n] == [] && padded[n..] == padded;
    } else {
      var e := c.enc(k.sMac1, XorBlock(padded[..16], iv));
      var head, rest := padded[..n], padded[16..];
      MacOverIsChain(c, k, e, rest);
      assert head[..16] == padded[..16] && head[16..] == rest[..n - 16];
      ChainStep(c, k.sMac1, iv, head);
      assert padded[n..] == rest[n - 16..];
    }
  }

  lemma LastOf(iv: Block, data: seq<uint8>)
    requires |data| % 16 == 0 && data != []
    ensures LastBlock(iv, data) == data[|data| - 16..]
  {
  }

  // ----- The functions of osdp_sc.c, in place -----

  class Session {
    const crypto: Cipher
    var scbk: Block
    var sEnc: Block
    var sMac1: Block
    var sMac2: Block
    var rMac: Block
    var cMac: Block
    var cpRandom: Half
    var pdRandom: Half
    var clientUid: Half
    var cpCryptogram: Block
    var pdCryptogram: Block

    constructor (crypto: Cipher)
      ensures this.crypto == crypto
      ensures State() == Cleared(ZERO_BLOCK)
    {
      this.crypto := crypto;
      scbk, sEnc, sMac1, sMac2 := ZERO_BLOCK, ZERO_BLOCK, ZERO_BLOCK, ZERO_BLOCK;
      rMac, cMac, cpCryptogram, pdCryptogram := ZERO_BLOCK, ZERO_BLOCK, ZERO_BLOCK, ZERO_BLOCK;
      cpRandom, pdRandom, clientUid := ZERO_HALF, ZERO_HALF, ZERO_HALF;
    }

    ghost function State(): Keys
      reads this
    {
      Keys(scbk, sEnc, sMac1, sMac2, rMac, cMac, cpRandom, pdRandom, clientUid, cpCryptogram, pdCryptogram)
    }

    /** osdp_compute_session_keys: S-ENC, S-MAC1 and S-MAC2 are 01 82, 01 01 and 01 02, each
        with six octets of the panel's random number and eight zeros behind, encrypted
        under the base key in use. */
    method ComputeSessionKeys(useScbkd: bool)
      modifies this
      ensures State() == WithSessionKeys(crypto, old(State()), useScbkd)
      ensures var base := if useScbkd then SCBK_DEFAULT else old(scbk);
        Invertible(crypto) ==>
          && crypto.dec(base, sEnc) == [0x01, 0x82] + cpRandom[..6] + [0, 0, 0, 0, 0, 0, 0, 0]
          && crypto.dec(base, sMac1) == [0x01, 0x01] + cpRandom[..6] + [0, 0, 0, 0, 0, 0, 0, 0]
          && crypto.dec(base, sMac2) == [0x01, 0x02] + cpRandom[..6] + [0, 0, 0, 0, 0, 0, 0, 0]
    {
      var base := if useScbkd then SCBK_DEFAULT else scbk;
      var enc: Block, mac1: Block, mac2: Block := ZERO_BLOCK, ZERO_BLOCK, ZERO_BLOCK;
      enc := enc[0 := 0x01][1 := 0x82];
      mac1 := mac1[0 := 0x01][1 := 0x01];
      mac2 := mac2[0 := 0x01][1 := 0x02];
      for i := 2 to 8
        invariant enc == [0x01, 0x82] + cpRandom[..i - 2] + Repeated(16 - i)
        invariant mac1 == [0x01, 0x01] + cpRandom[..i - 2] + Repeated(16 - i)
        invariant mac2 == [0x01, 0x02] + cpRandom[..i - 2] + Repeated(16 - i)
      {
        enc := enc[i := cpRandom[i - 2]];
        mac1 := mac1[i := cpRandom[i - 2]];
        mac2 := mac2[i := cpRandom[i - 2]];
      }
      sEnc := crypto.enc(base, enc);
      sMac1 := crypto.enc(base, mac1);
      sMac2 := crypto.enc(base, mac2);
      assert Repeated(8) == [0, 0, 0, 0, 0, 0, 0, 0];
    }

    /** osdp_compute_cp_cryptogram: the device's random number, then the panel's. */
    method ComputeCpCryptogram()
      modifies this
      ensures State() == old(State()).(cpCryptogram := CpCryptogram(crypto, old(State())))
      ensures Invertible(crypto) ==> crypto.dec(sEnc, cpCryptogram) == pdRandom + cpRandom
    {
      cpCryptogram := pdRandom + cpRandom;
      cpCryptogram := crypto.enc(sEnc, cpCryptogram);
    }

    /** osdp_compute_pd_cryptogram: the panel's random number, then the device's. */
    method ComputePdCryptogram()
      modifies this
      ensures State() == old(State()).(pdCryptogram := PdCryptogram(crypto, old(State())))
      ensures Invertible(crypto) ==> crypto.dec(sEnc, pdCryptogram) == cpRandom + pdRandom
    {
      pdCryptogram := cpRandom + pdRandom;
      pdCryptogram := crypto.enc(sEnc, pdCryptogram);
    }

    /** osdp_verify_cp_cryptogram */
    method VerifyCpCryptogram() returns (ok: bool)
      ensures ok == (cpCryptogram == CpCryptogram(crypto, State()))
      ensures Invertible(crypto) && ok ==> crypto.dec(sEnc, cpCryptogram) == pdRandom + cpRandom
    {
      var expected := crypto.enc(sEnc, pdRandom + cpRandom);
      var diff := CtCompare(cpCryptogram, expected);
      ok := diff == 0;
    }

    /** osdp_verify_pd_cryptogram */
    method VerifyPdCryptogram() returns (ok: bool)
      ensures ok == (pdCryptogram == PdCryptogram(crypto, State()))
      ensures Invertible(crypto) && ok ==> crypto.dec(sEnc, pdCryptogram) == cpRandom + pdRandom
    {
      var expected := crypto.enc(sEnc, cpRandom + pdRandom);
      var diff := CtCompare(pdCryptogram, expected);
      ok := diff == 0;
    }

    /** osdp_compute_rmac_i: the panel's cryptogram under S-MAC1, then under S-MAC2. */
    method ComputeRMacI()
      modifies this
      ensures State() == old(State()).(rMac := InitialRMac(crypto, old(State())))
      ensures Invertible(crypto) ==> crypto.dec(sMac1, crypto.dec(sMac2, rMac)) == cpCryptogram
    {
      rMac := cpCryptogram;
      rMac := crypto.enc(sMac1, rMac);
      rMac := crypto.enc(sMac2, rMac);
    }

    /** The vector of the data portion: every octet of the last MAC inverted. */
    method DataIv(isCmd: bool) returns (iv: Block)
      ensures iv == ComplementBlock(LastMac(State(), isCmd))
    {
      var mac := if isCmd then rMac else cMac;
      iv := mac;
      for i := 0 to 16
        invariant forall k :: 0 <= k < 16 ==> iv[k] == if k < i then Complement(mac[k]) else mac[k]
      {
        iv := iv[i := Complement(iv[i])];
      }
    }

    /** osdp_encrypt_data: marker, zeros, then the chain, all inside the packet buffer. */
    method EncryptInPlace(isCmd: bool, data: array<uint8>, off: nat, length: nat) returns (padLen: nat)
      requires off + PadLen(length + 1) <= data.Length
      modifies data
      ensures padLen == PadLen(length + 1)
      ensures data[off..off + padLen] == EncryptData(crypto, State(), isCmd, old(data[off..off + length]))
      ensures data[..off] == old(data[..off]) && data[off + padLen..] == old(data[off + padLen..])
    {
      ghost var plain := data[off..off + length];
      data[off + length] := EOM_MARKER;
      padLen := PadLen(length + 1);
      forall i | off + length + 1 <= i < off + padLen {
        data[i] := 0;
      }
      assert data[off..off + padLen] == Pad(plain);
      assert data[..off] == old(data[..off]);
      assert data[off + padLen..] == old(data[off + padLen..]);
      var iv := DataIv(isCmd);
      EncryptChain(crypto, sEnc, iv, data, off, padLen);
    }

    /** osdp_decrypt_data: negative on a bad length, for no data and when the marker is missing. */
    method DecryptInPlace(isCmd: bool, allowEmpty: bool, data: array<uint8>, off: nat, length: nat) returns (ret: int)
      requires off + length <= data.Length
      requires length == 0 && !allowEmpty ==> exists i :: 0 <= i < off && data[i] != 0
      modifies data
      ensures ret <= length
      ensures DecryptData(crypto, State(), isCmd, allowEmpty, old(data[off..off + length])) ==
              if ret < 0 then None else Some(data[off..off + ret])
      ensures data[..off] == if length == 0 && !allowEmpty then Unmarked(old(data[..off])) else old(data[..off])
      ensures data[off + length..] == old(data[off + length..])
    {
      hide CbcDecrypt, Unpad, LastMac, ComplementBlock, Unmarked, LastNonZero;
      if length % 16 != 0 {
        return -1;
      }
      if allowEmpty && length == 0 {
        return 0;
      }
      if length == 0 {
        ret := StepBack(data, off);
        NothingDecrypted(isCmd, allowEmpty);
        return;
      }
      var iv := DataIv(isCmd);
      DecryptChain(crypto, sEnc, iv, data, off, length);
      ret := StripPadding(data, off, length);
    }

    lemma NothingDecrypted(isCmd: bool, allowEmpty: bool)
      ensures !allowEmpty ==> DecryptData(crypto, State(), isCmd, allowEmpty, []) == None
    {
    }

    /** The same tail for no data at all: the length becomes -1, and the step back goes
        over the octets before the data to the last one that is not zero. The result is
        negative whatever it finds, but a marker found there is taken away. */
    method StepBack(data: array<uint8>, off: nat) returns (ret: int)
      requires off <= data.Length && exists i :: 0 <= i < off && data[i] != 0
      modifies data
      ensures 0 <= off + ret && ret < 0
      ensures data[off..] == old(data[off..])
      ensures data[..off] == Unmarked(old(data[..off]))
    {
      ghost var before := data[..off];
      var last: int := -1;
      assert before[..off] == before;
      while data[off + last] == 0
        invariant 0 <= off + last && last < 0
        invariant exists i :: 0 <= i <= off + last && data[i] != 0
        invariant LastNonZero(before[..off + last + 1]) == LastNonZero(before)
        decreases off + last
      {
        assert before[..off + last + 1][..off + last] == before[..off + last];
        last := last - 1;
      }
      if data[off + last] != EOM_MARKER {
        return -1;
      }
      data[off + last] := 0;
      return last;
    }

    /** The tail of osdp_decrypt_data: step back over the zeros and drop the marker. */
    method StripPadding(data: array<uint8>, off: nat, length: nat) returns (ret: int)
      requires off + length <= data.Length && length > 0
      modifies data
      ensures ret == -1 || 0 <= ret < length
      ensures Unpad(old(data[off..off + length])) == if ret == -1 then None else Some(data[off..off + ret])
      ensures data[..off] == old(data[..off]) && data[off + length..] == old(data[off + length..])
    {
      ghost var plain := data[off..off + length];
      var last := length - 1;
      assert plain[..length] == plain;
      while last != 0 && data[off + last] == 0
        invariant 0 <= last < length
        invariant Unpad(plain[..last + 1]) == Unpad(plain)
      {
        assert plain[..last + 1][..last] == plain[..last];
        last := last - 1;
      }
      assert plain[last] == data[off + last];
      StripsMarker(plain, last);
      if data[off + last] != EOM_MARKER {
        return -1;
      }
      data[off + last] := 0;
      assert data[off..off + last] == plain[..last];
      assert data[..off] == old(data[..off]) && data[off + length..] == old(data[off + length..]);
      return last;
    }

    /** osdp_compute_mac: the new MAC becomes the C-MAC of a command or the R-MAC of a reply. */
    method ComputeMac(isCmd: bool, data: array<uint8>, off: nat, len: nat)
      requires off + len <= data.Length && 0 < len && PadLen(len) <= Config.PACKET_BUF_SIZE
      modifies this
      ensures State() == WithMac(crypto, old(State()), isCmd, data[off..off + len])
    {
      var buf := new uint8[Config.PACKET_BUF_SIZE](i => 0);
      forall i | 0 <= i < len {
        buf[i] := data[off + i];
      }
      var padLen := if len % 16 == 0 then len else PadLen(len);
      if len % 16 != 0 {
        buf[len] := 0x80;
      }
      assert buf[..padLen] == MacPad(data[off..off + len]);
      var mac := MacOfBlocks(isCmd, buf, padLen);
      if isCmd {
        cMac := mac;
      } else {
        rMac := mac;
      }
    }

    /** All blocks but the last are encrypted under S-MAC1; the last of those is
        the vector of the last block, which is encrypted under S-MAC2. */
    method MacOfBlocks(isCmd: bool, buf: array<uint8>, padLen: nat) returns (mac: Block)
      requires padLen % 16 == 0 && 0 < padLen <= buf.Length
      modifies buf
      ensures mac == MacOver(crypto, State(), LastMac(State(), isCmd), old(buf[..padLen]))
    {
      hide XorBlock, LastBlock, CbcEncrypt;
      ghost var padded := buf[..padLen];
      var n := padLen - 16;
      var last := buf[n..padLen];
      assert last == padded[n..] && buf[..n] == padded[..n];
      var iv := if isCmd then rMac else cMac;
      iv := ChainFront(iv, buf, n);
      mac := crypto.enc(sMac2, XorBlock(last, iv));
    }

    /** The blocks under S-MAC1, and the vector they leave. */
    method ChainFront(iv: Block, buf: array<uint8>, n: nat) returns (iv': Block)
      requires n % 16 == 0 && n <= buf.Length
      modifies buf
      ensures iv' == LastBlock(iv, CbcEncrypt(crypto, sMac1, iv, old(buf[..n])))
    {
      hide LastBlock;
      ghost var out := CbcEncrypt(crypto, sMac1, iv, buf[..n]);
      if n == 0 {
        assert buf[..n] == [];
        EmptyCbc(crypto, sMac1, iv);
        return iv;
      }
      assert buf[0..n] == buf[..n];
      EncryptChain(crypto, sMac1, iv, buf, 0, n);
      assert buf[0..n] == out;
      iv' := buf[n - 16..n];
      assert iv' == out[n - 16..];
      LastOf(iv, out);
    }

    /** osdp_sc_setup: the base key survives on a PD and on a CP that was given one.
        The CP draws its random number, the PD derives its client UID. */
    method Setup(preserveScbk: bool, pdMode: bool, random: Half, uid: Half)
      modifies this
      ensures State() == AfterSetup(old(State()), preserveScbk, pdMode, random, uid)
    {
      var saved := scbk;
      Clear();
      if preserveScbk {
        scbk := saved;
      }
      if pdMode {
        clientUid := uid;
      } else {
        cpRandom := random;
      }
    }

    method Clear()
      modifies this
      ensures State() == Cleared(ZERO_BLOCK)
    {
      scbk, sEnc, sMac1, sMac2 := ZERO_BLOCK, ZERO_BLOCK, ZERO_BLOCK, ZERO_BLOCK;
      rMac, cMac, cpCryptogram, pdCryptogram := ZERO_BLOCK, ZERO_BLOCK, ZERO_BLOCK, ZERO_BLOCK;
      cpRandom, pdRandom, clientUid := ZERO_HALF, ZERO_HALF, ZERO_HALF;
    }
  }

  function AfterSetup(k: Keys, preserveScbk: bool, pdMode: bool, random: Half, uid: Half): Keys {
    var cleared := Cleared(if preserveScbk then k.scbk else ZERO_BLOCK);
    if pdMode then cleared.(clientUid := uid) else cleared.(cpRandom := random)
  }

  /** The channel context after osdp_sc_setup, apart from what each side fills in. */
  function Cleared(scbk: Block): Keys {
    Keys(scbk, ZERO_BLOCK, ZERO_BLOCK, ZERO_BLOCK, ZERO_BLOCK, ZERO_BLOCK, ZERO_HALF, ZERO_HALF, ZERO_HALF,
        ZERO_BLOCK, ZERO_BLOCK)
  }

  /** Setting up forgets the old session: every key, MAC and cryptogram is zero again, and of what
      there was only the base key may stay. */
  lemma SetupForgets(k: Keys, preserveScbk: bool, pdMode: bool, random: Half, uid: Half, i: nat)
    requires i < 16
    ensures var s := AfterSetup(k, preserveScbk, pdMode, random, uid);
      && s.scbk[i] == (if preserveScbk then k.scbk[i] else 0)
      && s.sEnc[i] == s.sMac1[i] == s.sMac2[i] == s.rMac[i] == s.cMac[i] == s.cpCryptogram[i] == s.pdCryptogram[i] == 0
      && (i < 8 ==> s.cpRandom[i] == (if pdMode then 0 else random[i]) && s.pdRandom[i] == 0)
      && (i < 8 ==> s.clientUid[i] == if pdMode then uid[i] else 0)
  {
  }

  function Or(a: uint8, b: uint8): uint8 { FromBits(Bits(a) | Bits(b)) }

  lemma OrZero(a: uint8, b: uint8)
    ensures Or(a, b) == 0 <==> a == 0 && b == 0
  {
    FromBitsBits(a);
    FromBitsBits(b);
    BitsFromBits(Bits(a) | Bits(b));
    OrZeroBits(Bits(a), Bits(b));
  }

  lemma OrZeroBits(v: bv8, w: bv8)
    ensures v | w == 0 <==> v == 0 && w == 0
  {
  }

  lemma XorZero(a: uint8, b: uint8)
    ensures Xor(a, b) == 0 <==> a == b
  {
    if Xor(a, b) == 0 {
      XorBits(a, b);
      XorZeroBits(Bits(a), Bits(b));
      FromBitsBits(a);
      FromBitsBits(b);
    } else if a == b {
      XorBits(a, b);
      XorZeroBits(Bits(a), Bits(b));
      FromBitsBits(Xor(a, b));
    }
  }

  lemma XorZeroBits(v: bv8, w: bv8)
    ensures v ^ w == 0 <==> v == w
  {
  }

  /** osdp_ct_compare: zero exactly when the two blocks are equal. */
  method CtCompare(s1: Block, s2: Block) returns (ret: uint8)
    ensures ret == 0 <==> s1 == s2
  {
    ret := 0;
    for i := 0 to 16
      invariant ret == 0 <==> forall k :: 0 <= k < i ==> s1[k] == s2[k]
    {
      XorZero(s1[i], s2[i]);
      OrZero(ret, Xor(s1[i], s2[i]));
      ret := Or(ret, Xor(s1[i], s2[i]));
    }
    if ret == 0 {
      assert s1 == s2;
    }
  }
}
