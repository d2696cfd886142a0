/** What secured packets hold and which are believed, octet by octet (section 5.9 and
    Annex D of SIA OSDP v2.2): stated without the functions that build and read them. */
module Authenticity {
  import opened Bytes
  import opened Options
  import opened BlockCipher
  import SC = SecureChannel
  import Crc16
  import opened Phy
  import opened Packet

  // ----- The MAC -----

  /** 0x80 and zeros behind a message that does not fill its last block. */
  ghost predicate MacPadded(msg: seq<uint8>, padded: seq<uint8>) {
    && |padded| % 16 == 0 && |msg| <= |padded| < |msg| + 16 && padded[..|msg|] == msg
    && forall i :: |msg| <= i < |padded| ==> padded[i] == if i == |msg| then 0x80 else 0
  }

  /** All blocks but the last chained under the first key, the last under the second. */
  function MacOf(c: Cipher, key1: Block, key2: Block, iv: Block, padded: seq<uint8>): Block
    requires |padded| % 16 == 0 && padded != []
  {
    var n := |padded| / 16 - 1;
    c.enc(key2, XorBlock(BlockAt(padded, n), Chained(c, key1, iv, padded, n)))
  }

  /** The MAC the other side sent last: of a reply for a command, of a command for a reply. */
  function Previous(k: SC.Keys, isCmd: bool): Block { if isCmd then k.rMac else k.cMac }

  lemma MacPadUnique(msg: seq<uint8>, padded: seq<uint8>)
    requires MacPadded(msg, padded)
    ensures padded == SC.MacPad(msg)
  {
    assert |SC.MacPad(msg)| == |padded|;
  }

  lemma MacIs(c: Cipher, k: SC.Keys, isCmd: bool, msg: seq<uint8>, padded: seq<uint8>)
    requires msg != [] && MacPadded(msg, padded)
    ensures padded != [] && SC.Mac(c, k, isCmd, msg) == MacOf(c, k.sMac1, k.sMac2, Previous(k, isCmd), padded)
  {
    hide XorBlock;
    MacPadUnique(msg, padded);
    var n := |padded| / 16 - 1;
    assert 16 * n == |padded| - 16;
    assert BlockAt(padded, n) == padded[|padded| - 16..];
    ChainedIsCbc(c, k.sMac1, Previous(k, isCmd), padded, n);
  }

  /** The keys once the MAC of this direction has been computed. */
  function Rolled(k: SC.Keys, isCmd: bool, mac: Block): SC.Keys {
    if isCmd then k.(cMac := mac) else k.(rMac := mac)
  }

  // ----- What is sent -----

  /** The marker and zeros that fill the last block of the data. */
  ghost predicate DataPadded(data: seq<uint8>, padded: seq<uint8>) {
    && |padded| % 16 == 0 && |data| < |padded| <= |data| + 16 && padded[..|data|] == data
    && forall i :: |data| <= i < |padded| ==> padded[i] == if i == |data| then 0x80 else 0
  }

  lemma DataPadUnique(data: seq<uint8>, padded: seq<uint8>)
    requires DataPadded(data, padded)
    ensures padded == SC.Pad(data)
  {
    assert |SC.Pad(data)| == |padded|;
  }

  ghost predicate Inverted(a: Block, b: Block) { forall i :: 0 <= i < 16 ==> b[i] == 255 - a[i] }

  lemma InvertedUnique(a: Block, b: Block)
    requires Inverted(a, b)
    ensures b == ComplementBlock(a)
  {
  }

  /** Every secured packet: start, address, length, control octet with the number, block
      and identifier, the encrypted data, and behind them the first four octets of the MAC
      over all of that and the CRC. The sender keeps that MAC. */
  lemma SecuredPacket(c: Cipher, tx: Peer, payload: seq<uint8>, third: uint8, padded: seq<uint8>)
    requires payload != [] && tx.scActive
    requires var f := Body(c, tx, payload, third); |f| >= 6 && MacPadded(f[..|f| - 6], padded)
    ensures var f, isCmd := Body(c, tx, payload, third), !tx.pdMode;
            var n := |f| - 6;
      && padded != [] && n >= 8
      && SecuredHead(f[..8], tx, |payload| > 1, payload[0], |f|)
      && var mac := MacOf(c, tx.keys.sMac1, tx.keys.sMac2, Previous(tx.keys, isCmd), padded);
         && f[n..n + 4] == mac[..4]
         && Send(c, tx, payload, third).0.keys == Rolled(tx.keys, isCmd, mac)
  {
    hide SC.Mac, MacOf, Assembled, Protect, ControlOctet, CipherText, XorBlock, WithCrc;
    var w, k := Authenticated(c, tx, payload), KeysAfterSend(c, tx, payload);
    var f := Body(c, tx, payload, third);
    ProtectSecure(c, tx, payload, third);
    BodyParts(w, SentMac(k, !tx.pdMode)[..4]);
    assert f[..|f| - 6] == w;
    MacIs(c, tx.keys, !tx.pdMode, w, padded);
    HeadOf(c, tx, payload);
    assert f[..8] == w[..8];
  }

  lemma BodyParts(w: seq<uint8>, mac: seq<uint8>)
    requires |mac| == 4
    ensures var f := WithCrc(w + mac); |f| == |w| + 6 && f[..|w|] == w && f[|w|..|w| + 4] == mac
  {
  }

  /** The eight octets in front of the data, for a packet of n octets. */
  ghost predicate SecuredHead(h: seq<uint8>, tx: Peer, hasData: bool, id: uint8, n: nat) {
    var number := if tx.pdMode then tx.seqNumber else NextSeq(tx.seqNumber);
    && |h| == 8 && h[0] == 0x53
    && h[1] == (if tx.broadcast then 0x7F else tx.address % 128) + (if tx.pdMode then 0x80 else 0)
    && h[2] == n % 256 && h[3] == n / 256 % 256
    && h[4] == number % 4 + 0x04 + 0x08
    && h[5] == 2
    && h[6] == (if tx.pdMode then (if hasData then 0x18 else 0x16) else (if hasData then 0x17 else 0x15))
    && h[7] == id
  }

  lemma HeadOf(c: Cipher, tx: Peer, payload: seq<uint8>)
    requires payload != []
    ensures var w := Authenticated(c, tx, payload); SecuredHead(w[..8], tx, |payload| > 1, payload[0], |w| + 6)
  {
    hide CipherText;
    assert AfterInit(tx).seqNumber == if tx.pdMode then tx.seqNumber else NextSeq(tx.seqNumber);
  }

  /** The data portion: nothing for a lone identifier, and otherwise the padded data, block by
      block under S-ENC, from the inverted MAC of the other side on. */
  lemma SecuredData(c: Cipher, tx: Peer, payload: seq<uint8>, third: uint8, padded: seq<uint8>, iv: Block)
    requires payload != [] && tx.scActive
    requires DataPadded(payload[1..], padded) && Inverted(Previous(tx.keys, !tx.pdMode), iv)
    ensures var f := Body(c, tx, payload, third);
      if |payload| == 1 then |f| == 14
      else |f| == 14 + |padded| && ChainOf(c, tx.keys.sEnc, iv, padded, f[8..8 + |padded|])
  {
    hide SC.Mac, SC.WithMac, Assembled, Protect, ControlOctet, XorBlock, WithCrc, CbcEncrypt, ChainOf;
    var w := Authenticated(c, tx, payload);
    var f := Body(c, tx, payload, third);
    ProtectSecure(c, tx, payload, third);
    BodyParts(w, SentMac(KeysAfterSend(c, tx, payload), !tx.pdMode)[..4]);
    if |payload| > 1 {
      DataPadUnique(payload[1..], padded);
      InvertedUnique(Previous(tx.keys, !tx.pdMode), iv);
      CbcEncryptIsChain(c, tx.keys.sEnc, iv, padded);
      var text := CbcEncrypt(c, tx.keys.sEnc, iv, padded);
      assert CipherText(c, tx, payload) == text;
      assert f[..|w|][8..] == w[8..] == text;
      assert f[8..8 + |padded|] == text;
    }
  }

  /** Every packet outside an open channel: the same header, the three octets of a handshake's
      block where the command or reply belongs to one, and the payload in the clear. */
  lemma PlainPacket(c: Cipher, tx: Peer, payload: seq<uint8>, third: uint8)
    requires payload != [] && !tx.scActive
    ensures var f, id := Body(c, tx, payload, third), payload[0];
            var handshake := if tx.pdMode then id == 0x76 || id == 0x78 else id == 0x76 || id == 0x77;
            var kind: uint8 := (if id == 0x76 then 0x11 else 0x13) + (if tx.pdMode then 1 else 0);
            var block := if handshake then [3, kind, third] else [];
            var number := if tx.pdMode then tx.seqNumber else NextSeq(tx.seqNumber);
      && |f| == 7 + |block| + |payload|
      && f[0] == 0x53 && f[1] == (if tx.broadcast then 0x7F else tx.address % 128) + (if tx.pdMode then 0x80 else 0)
      && f[2] == |f| % 256 && f[3] == |f| / 256 % 256
      && f[4] == number % 4 + 0x04 + (if handshake then 0x08 else 0)
      && f[5..|f| - 2] == block + payload
  {
    hide WithCrc, Protect, Assembled;
    ProtectPlain(c, tx, payload, third);
    var v := Protect(c, AfterInit(tx), Assembled(tx, payload, third)).1;
    assert v[5..] == SecurityBlock(tx, payload, third) + payload;
    CrcBehind(v);
  }

  lemma CrcBehind(v: seq<uint8>)
    ensures var f := WithCrc(v); |f| == |v| + 2 && f[..|v|] == v
  {
  }

  // ----- What is believed -----

  /** A packet of type SCS_15 or above in an open channel is read only if its four octets are
      those of the MAC over everything before them; otherwise the answer is NAK 6 and the
      channel is closed. `n` is where the CRC or the checksum starts. */
  lemma OnlyAuthenticRead(c: Cipher, p: Peer, u: seq<uint8>, n: nat, padded: seq<uint8>)
    requires WellLaidOut(p, u) && p.scActive && (p.pdMode ==> p.scCapable)
    requires u[4] / 8 % 2 == 1 && 0x15 <= u[6] <= 0x18
    requires n == (if u[4] / 4 % 2 == 1 then |u| - 2 else |u| - 1) && n >= 4 && MacPadded(u[..n - 4], padded)
    ensures n >= 12 && padded != []
    ensures var mac := MacOf(c, p.keys.sMac1, p.keys.sMac2, Previous(p.keys, p.pdMode), padded);
            var (p', d) := Decode(c, p, u);
            var rolled := p.(keys := Rolled(p.keys, p.pdMode, mac));
      && (d.Payload? ==> u[n - 4..n] == mac[..4] && p' == rolled)
      && (!d.Payload? ==> d == Nak(6) && p' == rolled.(scActive := false, replyId := 0x41, nakCode := 6))
      && (u[6] <= 0x16 && u[n - 4..n] == mac[..4] ==> d == Payload(u[5 + u[5]..n - 4]))
  {
    hide MacOf, SC.Mac, SC.DecryptData, Decode, DecodeSecured, WellLaidOut;
    ReadAsSecured(c, p, u);
    MacIs(c, p.keys, p.pdMode, u[..n - 4], padded);
    SecuredOutcome(c, p, u);
  }

  lemma ReadAsSecured(c: Cipher, p: Peer, u: seq<uint8>)
    requires WellLaidOut(p, u) && p.scActive && (p.pdMode ==> p.scCapable)
    requires u[4] / 8 % 2 == 1 && 0x15 <= u[6] <= 0x18
    ensures |u| >= 13 && Secured(p.scActive, u) && Decode(c, p, u) == DecodeSecured(c, p, u)
    ensures BodyLength(u) >= 12
  {
    hide DecodeSecured;
    assert p.(useScbkd := p.useScbkd) == p;
  }

  lemma RolledIs(c: Cipher, k: SC.Keys, isCmd: bool, w: seq<uint8>)
    requires w != []
    ensures SC.WithMac(c, k, isCmd, w) == Rolled(k, isCmd, SC.Mac(c, k, isCmd, w))
    ensures SentMac(SC.WithMac(c, k, isCmd, w), isCmd) == SC.Mac(c, k, isCmd, w)
  {
    hide SC.Mac;
  }

  /** The outcome with the four octets as a condition. */
  lemma SecuredForm(c: Cipher, p: Peer, u: seq<uint8>)
    requires WellLaidOut(p, u) && Secured(p.scActive, u) && BodyLength(u) >= 12
    ensures var n := BodyLength(u);
            var mac := SC.Mac(c, p.keys, p.pdMode, u[..n - 4]);
            var p' := p.(keys := Rolled(p.keys, p.pdMode, mac));
            var closed := (p'.(scActive := false, replyId := 0x41, nakCode := 6), Nak(6));
      && 5 + u[5] < n - 4
      && DecodeSecured(c, p, u) ==
           if u[n - 4..n] != mac[..4] then closed
           else if !Encrypted(u) then (p', Payload(u[5 + u[5]..n - 4]))
           else
             match SC.DecryptData(c, p'.keys, p.pdMode, p.allowEmpty, u[6 + u[5]..n - 4])
             case None => closed
             case Some(data) => (p', Payload([u[5 + u[5]]] + data))
  {
    hide SC.WithMac, SC.Mac, SC.DecryptData, SentMac, Rolled;
    RolledIs(c, p.keys, p.pdMode, u[..BodyLength(u) - 4]);
  }

  lemma SecuredOutcome(c: Cipher, p: Peer, u: seq<uint8>)
    requires WellLaidOut(p, u) && Secured(p.scActive, u) && BodyLength(u) >= 12
    ensures var n := BodyLength(u);
            var mac := SC.Mac(c, p.keys, p.pdMode, u[..n - 4]);
            var (p', d) := DecodeSecured(c, p, u);
            var rolled := p.(keys := Rolled(p.keys, p.pdMode, mac));
      && (d.Payload? ==> u[n - 4..n] == mac[..4] && p' == rolled)
      && (!d.Payload? ==> d == Nak(6) && p' == rolled.(scActive := false, replyId := 0x41, nakCode := 6))
      && (u[6] <= 0x16 && u[n - 4..n] == mac[..4] ==> 5 + u[5] <= n - 4 && d == Payload(u[5 + u[5]..n - 4]))
  {
    hide SC.Mac, SC.DecryptData, DecodeSecured, WellLaidOut, HasScb, HasCrc, Rolled;
    SecuredForm(c, p, u);
  }

  /** An encrypted data portion in such a packet: what is read is the identifier and the data
      that the portion decrypts to; where it decrypts to nothing, the channel is closed. */
  lemma EncryptedRead(c: Cipher, p: Peer, u: seq<uint8>, n: nat, padded: seq<uint8>)
    requires WellLaidOut(p, u) && p.scActive && (p.pdMode ==> p.scCapable)
    requires u[4] / 8 % 2 == 1 && (u[6] == 0x17 || u[6] == 0x18)
    requires n == (if u[4] / 4 % 2 == 1 then |u| - 2 else |u| - 1) && n >= 4 && MacPadded(u[..n - 4], padded)
    requires padded != [] && u[n - 4..n] ==
      MacOf(c, p.keys.sMac1, p.keys.sMac2, Previous(p.keys, p.pdMode), padded)[..4]
    ensures 6 + u[5] <= n - 4 &&
      Decode(c, p, u).1 ==
        match SC.DecryptData(c, p.keys, p.pdMode, p.allowEmpty, u[6 + u[5]..n - 4])
        case None => Nak(6)
        case Some(data) => Payload([u[5 + u[5]]] + data)
  {
    hide MacOf, SC.Mac, SC.DecryptData, Decode, DecodeSecured, WellLaidOut;
    ReadAsSecured(c, p, u);
    MacIs(c, p.keys, p.pdMode, u[..n - 4], padded);
    EncryptedOutcome(c, p, u);
  }

  lemma EncryptedOutcome(c: Cipher, p: Peer, u: seq<uint8>)
    requires WellLaidOut(p, u) && Secured(p.scActive, u) && BodyLength(u) >= 12 && Encrypted(u)
    requires var n := BodyLength(u); u[n - 4..n] == SC.Mac(c, p.keys, p.pdMode, u[..n - 4])[..4]
    ensures var n := BodyLength(u);
      && 6 + u[5] <= n - 4
      && DecodeSecured(c, p, u).1 ==
           match SC.DecryptData(c, p.keys, p.pdMode, p.allowEmpty, u[6 + u[5]..n - 4])
           case None => Nak(6)
           case Some(data) => Payload([u[5 + u[5]]] + data)
  {
    hide SC.Mac, SC.DecryptData, SC.WithMac, DecodeSecured, HasScb, HasCrc, Rolled;
    SecuredForm(c, p, u);
    RolledIs(c, p.keys, p.pdMode, u[..BodyLength(u) - 4]);
    DecryptAfterMac(c, p.keys, p.pdMode, p.allowEmpty, u[..BodyLength(u) - 4], u[6 + u[5]..BodyLength(u) - 4]);
  }

  /** Without a MAC: in an open channel a plain packet is read only by a panel, and only as an
      ACK for its KEYSET or as a NAK. */
  lemma PlainRead(c: Cipher, p: Peer, u: seq<uint8>)
    requires WellLaidOut(p, u) && u[4] / 8 % 2 == 0
    ensures var n := if u[4] / 4 % 2 == 1 then |u| - 2 else |u| - 1;
            var allowed := !p.scActive || (!p.pdMode && ((p.cmdId == 0x75 && u[5] == 0x40) || u[5] == 0x41));
      Decode(c, p, u) == if allowed then (p, Payload(u[5..n]))
                         else (p.(replyId := 0x41, nakCode := 6), Nak(6))
  {
  }

  /** With a security block that carries no MAC: a device that cannot have a channel answers
      NAK 5; an unknown type, and one that needs the open channel there is not, NAK 6; a
      handshake packet is read, and asks for SCBK-D only in install mode. */
  lemma BlockRead(c: Cipher, p: Peer, u: seq<uint8>)
    requires WellLaidOut(p, u) && u[4] / 8 % 2 == 1 && !(p.scActive && 0x15 <= u[6] <= 0x18)
    ensures var n := if u[4] / 4 % 2 == 1 then |u| - 2 else |u| - 1;
      Decode(c, p, u) ==
        if p.pdMode && !p.scCapable then (p.(replyId := 0x41, nakCode := 5), Nak(5))
        else if u[6] < 0x11 || u[6] > 0x14 then (p.(replyId := 0x41, nakCode := 6), Nak(6))
        else (p.(useScbkd := p.useScbkd || (p.installMode && u[6] != 0x12 && u[6] != 0x14 && u[7] == 0)),
              Payload(u[5 + u[5]..n]))
  {
  }
}
