/** What one packet means: the receiver finds in the bytes exactly the payload
    the sender put there, and both channel contexts move on together. */
module Packet {
  import opened Bytes
  import opened Options
  import opened BlockCipher
  import SC = SecureChannel
  import Crc16
  import opened Phy

  /** The bytes after the mark. */
  function Body(c: Cipher, p: Peer, payload: seq<uint8>, third: uint8): seq<uint8>
    requires payload != []
  {
    WithCrc(Protect(c, AfterInit(p), Assembled(p, payload, third)).1)
  }

  /** The data portion as it travels in an active channel. */
  function CipherText(c: Cipher, p: Peer, payload: seq<uint8>): seq<uint8>
    requires payload != []
  {
    if |payload| > 1 then SC.EncryptData(c, p.keys, !p.pdMode, payload[1..]) else []
  }

  /** Everything the MAC covers. */
  function Authenticated(c: Cipher, p: Peer, payload: seq<uint8>): (w: seq<uint8>)
    requires payload != []
    ensures |w| == 8 + |CipherText(c, p, payload)|
  {
    var text := CipherText(c, p, payload);
    var n := 8 + |text| + 6;
    [SOM, AddressOctet(p), Byte0(n), Byte1(n), ControlOctet(AfterInit(p).seqNumber, true),
     2, SecureType(p.pdMode, |payload| > 1), payload[0]] + text
  }

  function KeysAfterSend(c: Cipher, p: Peer, payload: seq<uint8>): SC.Keys
    requires payload != []
  {
    SC.WithMac(c, p.keys, !p.pdMode, Authenticated(c, p, payload))
  }

  lemma AssembledSecure(p: Peer, payload: seq<uint8>, third: uint8)
    requires payload != [] && p.scActive
    ensures var u := Assembled(p, payload, third);
      && Secured(true, u) && DataOffset(u) == 8 && |u| == 7 + |payload|
      && u[8..] == payload[1..]
      && (Encrypted(u) <==> |payload| > 1)
      && u[..8] == [SOM, AddressOctet(p), 0, 0, ControlOctet(AfterInit(p).seqNumber, true),
                    2, SecureType(p.pdMode, |payload| > 1), payload[0]]
  {
  }

  /** In an active channel: header, block, identifier, encrypted data, four octets of MAC. */
  lemma ProtectSecure(c: Cipher, p: Peer, payload: seq<uint8>, third: uint8)
    requires payload != [] && p.scActive
    ensures var w := Authenticated(c, p, payload);
            var keys := KeysAfterSend(c, p, payload);
      Protect(c, AfterInit(p), Assembled(p, payload, third)) ==
        (AfterInit(p).(keys := keys), w + SentMac(keys, !p.pdMode)[..4])
  {
    hide Assembled, SC.EncryptData, SC.WithMac, ControlOctet, Secured, DataOffset, Encrypted;
    var u := Assembled(p, payload, third);
    AssembledSecure(p, payload, third);
    var e := EncryptPart(c, p.keys, !p.pdMode, u);
    assert e == u[..8] + CipherText(c, p, payload);
    assert WithLength(e, |e| + 4 + 2) == Authenticated(c, p, payload);
  }

  lemma ControlBits(seqNumber: int, scb: bool)
    ensures var control := ControlOctet(seqNumber, scb);
      Sqn(control) == seqNumber % 4 && HasCrc(control) && (HasScb(control) <==> scb)
  {
  }

  /** Without an active channel: header, handshake block if any, payload. */
  lemma ProtectPlain(c: Cipher, p: Peer, payload: seq<uint8>, third: uint8)
    requires payload != [] && !p.scActive
    ensures var scb := SecurityBlock(p, payload, third);
            var n := 5 + |scb| + |payload| + 2;
      Protect(c, AfterInit(p), Assembled(p, payload, third)) ==
        (AfterInit(p),
         [SOM, AddressOctet(p), Byte0(n), Byte1(n), ControlOctet(AfterInit(p).seqNumber, scb != [])] + scb + payload)
  {
    var u := Assembled(p, payload, third);
    var scb := SecurityBlock(p, payload, third);
    var n := 5 + |scb| + |payload| + 2;
    assert WithLength(u, n) ==
      [SOM, AddressOctet(p), Byte0(n), Byte1(n), ControlOctet(AfterInit(p).seqNumber, scb != [])] + scb + payload;
  }

  lemma CheckOfWithCrc(v: seq<uint8>)
    requires |v| >= 6 && HasCrc(v[4])
    ensures CheckMatches(WithCrc(v)) && BodyLength(WithCrc(v)) == |v|
  {
    var f := WithCrc(v);
    assert f[..|v|] == v;
    Le16RoundTrip(Crc16.Compute(v));
  }

  /** Both ends hold the same session: keys and last MACs. */
  ghost predicate SameSession(a: SC.Keys, b: SC.Keys) {
    a.sEnc == b.sEnc && a.sMac1 == b.sMac1 && a.sMac2 == b.sMac2 && a.rMac == b.rMac && a.cMac == b.cMac
  }

  lemma MacsAgree(c: Cipher, a: SC.Keys, b: SC.Keys, isCmd: bool, w: seq<uint8>)
    requires SameSession(a, b) && w != []
    ensures SameSession(SC.WithMac(c, a, isCmd, w), SC.WithMac(c, b, isCmd, w))
  {
  }

  /** The new MAC belongs to the other direction: it leaves this side's vector alone. */
  lemma DecryptAfterMac(c: Cipher, k: SC.Keys, isCmd: bool, allowEmpty: bool, w: seq<uint8>, text: seq<uint8>)
    requires w != []
    ensures SC.DecryptData(c, SC.WithMac(c, k, isCmd, w), isCmd, allowEmpty, text) ==
            SC.DecryptData(c, k, isCmd, allowEmpty, text)
  {
  }

  /** The receiver's side of one secured packet, although it checks the MAC before
      it decrypts and the sender encrypted before it computed the MAC. */
  lemma DecodeSecure(c: Cipher, tx: Peer, rx: Peer, payload: seq<uint8>, third: uint8)
    requires Invertible(c) && payload != []
    requires tx.scActive && rx.scActive && rx.pdMode == !tx.pdMode
    requires rx.pdMode ==> rx.scCapable
    requires SameSession(tx.keys, rx.keys)
    ensures var f := Body(c, tx, payload, third);
            var keys := SC.WithMac(c, rx.keys, rx.pdMode, Authenticated(c, tx, payload));
      WellLaidOut(rx, f) && Decode(c, rx, f) == (rx.(keys := keys), Payload(payload))
  {
    hide Body, Authenticated, SC.DecryptData, SC.WithMac, WithCrc, Decode, WellLaidOut, Framed;
    var w := Authenticated(c, tx, payload);
    var text := CipherText(c, tx, payload);
    var mac := SentMac(KeysAfterSend(c, tx, payload), !tx.pdMode)[..4];
    SecureBody(c, tx, payload, third);
    MacsAgree(c, tx.keys, rx.keys, rx.pdMode, w);
    if |payload| > 1 {
      SC.DecryptEncrypt(c, tx.keys, rx.keys, rx.pdMode, rx.allowEmpty, payload[1..]);
      DecryptAfterMac(c, rx.keys, rx.pdMode, rx.allowEmpty, w, text);
    }
    DecodeEval(c, rx, Body(c, tx, payload, third), w, mac, payload, text);
  }

  lemma SecureBody(c: Cipher, tx: Peer, payload: seq<uint8>, third: uint8)
    requires payload != [] && tx.scActive
    ensures var w := Authenticated(c, tx, payload);
            var text := CipherText(c, tx, payload);
            var mac := SentMac(KeysAfterSend(c, tx, payload), !tx.pdMode)[..4];
      && Body(c, tx, payload, third) == WithCrc(w + mac)
      && Framed(w, mac, payload, text, !tx.pdMode)
  {
    hide Protect, Assembled, SC.EncryptData, SC.WithMac, WithCrc, HasCrc, HasScb, ControlOctet;
    ProtectSecure(c, tx, payload, third);
    ControlBits(AfterInit(tx).seqNumber, true);
  }

  /** w is header, block, identifier and encrypted data of a packet; rxPd says who receives it. */
  ghost predicate Framed(w: seq<uint8>, mac: seq<uint8>, payload: seq<uint8>, text: seq<uint8>, rxPd: bool) {
    && payload != [] && |w| == 8 + |text| && |mac| == 4
    && (|payload| > 1 ==> |text| >= 16)
    && (|payload| == 1 ==> text == [])
    && w[5] == 2 && w[6] == SecureType(!rxPd, |payload| > 1) && w[8..] == text && w[7] == payload[0]
    && HasCrc(w[4]) && HasScb(w[4])
  }

  lemma DecodeEval(c: Cipher, rx: Peer, f: seq<uint8>, w: seq<uint8>, mac: seq<uint8>, payload: seq<uint8>,
                   text: seq<uint8>)
    requires rx.scActive && (rx.pdMode ==> rx.scCapable) && payload != []
    requires Framed(w, mac, payload, text, rx.pdMode) && f == WithCrc(w + mac)
    requires var keys := SC.WithMac(c, rx.keys, rx.pdMode, w);
      && mac == SentMac(keys, rx.pdMode)[..4]
      && (|payload| > 1 ==> SC.DecryptData(c, keys, rx.pdMode, rx.allowEmpty, text) == Some(payload[1..]))
    ensures var keys := SC.WithMac(c, rx.keys, rx.pdMode, w);
      WellLaidOut(rx, f) && Decode(c, rx, f) == (rx.(keys := keys), Payload(payload))
  {
    hide WithCrc, SC.WithMac, SC.DecryptData, Framed, WellLaidOut, Secured, Encrypted, DataOffset, HasCrc, HasScb,
        DecodeSecured;
    DecodeParts(rx, f, w, mac, payload, text);
    SecuredEval(c, rx, f, w, mac, payload, text);
    assert rx.(useScbkd := rx.useScbkd) == rx;
  }

  lemma SecuredEval(c: Cipher, rx: Peer, f: seq<uint8>, w: seq<uint8>, mac: seq<uint8>, payload: seq<uint8>,
                    text: seq<uint8>)
    requires WellLaidOut(rx, f) && Secured(rx.scActive, f) && payload != [] && BodyLength(f) == |f| - 2
    requires |f| >= 14
    requires (Encrypted(f) <==> |payload| > 1) && DataOffset(f) == 8 && f[5] == 2 && f[7] == payload[0]
    requires var m := |f| - 6; f[..m] == w && f[m..m + 4] == mac && f[8..m] == text && f[7..m] == [payload[0]] + text
    requires |payload| == 1 ==> text == []
    requires var keys := SC.WithMac(c, rx.keys, rx.pdMode, w);
      && mac == SentMac(keys, rx.pdMode)[..4]
      && (|payload| > 1 ==> SC.DecryptData(c, keys, rx.pdMode, rx.allowEmpty, text) == Some(payload[1..]))
    ensures DecodeSecured(c, rx, f) == (rx.(keys := SC.WithMac(c, rx.keys, rx.pdMode, w)), Payload(payload))
  {
    hide SC.WithMac, SC.DecryptData, WellLaidOut, Secured, Encrypted, DataOffset, HasCrc, HasScb;
    assert [payload[0]] + payload[1..] == payload;
  }

  lemma DecodeParts(rx: Peer, f: seq<uint8>, w: seq<uint8>, mac: seq<uint8>, payload: seq<uint8>,
                    text: seq<uint8>)
    requires rx.scActive
    requires Framed(w, mac, payload, text, rx.pdMode) && f == WithCrc(w + mac)
    ensures WellLaidOut(rx, f) && Secured(true, f) && DataOffset(f) == 8 && f[7] == payload[0]
    ensures BodyLength(f) == |f| - 2 && |f| >= 14
    ensures var m := |f| - 6; f[..m] == w && f[m..m + 4] == mac && f[8..m] == text && f[7..m] == [payload[0]] + text
    ensures (Encrypted(f) <==> |payload| > 1) && HasScb(f[4]) && SCS_11 <= f[6] <= SCS_18
    ensures |payload| == 1 ==> text == []
    ensures f[6] != SCS_11 && f[6] != SCS_13 && f[5] == 2
  {
  }

  // ----- Without a channel -----

  /** f carries the payload behind a header and the block scb, all in the clear. */
  ghost predicate PlainFramed(f: seq<uint8>, scb: seq<uint8>, payload: seq<uint8>) {
    && payload != [] && |f| == 7 + |scb| + |payload|
    && HasCrc(f[4]) && (HasScb(f[4]) <==> scb != [])
    && f[5..5 + |scb|] == scb && f[5 + |scb|..|f| - 2] == payload
  }

  lemma PlainBody(c: Cipher, tx: Peer, payload: seq<uint8>, third: uint8)
    requires payload != [] && !tx.scActive
    ensures PlainFramed(Body(c, tx, payload, third), SecurityBlock(tx, payload, third), payload)
  {
    var scb := SecurityBlock(tx, payload, third);
    ProtectPlain(c, tx, payload, third);
    ControlBits(AfterInit(tx).seqNumber, scb != []);
    var v := Protect(c, AfterInit(tx), Assembled(tx, payload, third)).1;
    var f := Body(c, tx, payload, third);
    assert f[..|v|] == v;
    assert v[5..5 + |scb|] == scb && v[5 + |scb|..] == payload;
  }

  /** The SCBK-D flag a PD takes over from a handshake packet in install mode. */
  function TakesScbkd(rx: Peer, id: uint8, third: uint8): bool {
    rx.pdMode && InHandshake(false, id) && rx.installMode && third == 0
  }

  lemma DecodePlain(c: Cipher, tx: Peer, rx: Peer, payload: seq<uint8>, third: uint8)
    requires payload != []
    requires !tx.scActive && !rx.scActive && rx.pdMode == !tx.pdMode
    requires rx.pdMode && InHandshake(false, payload[0]) ==> rx.scCapable
    ensures WellLaidOut(rx, Body(c, tx, payload, third))
    ensures Decode(c, rx, Body(c, tx, payload, third)) ==
            (rx.(useScbkd := rx.useScbkd || TakesScbkd(rx, payload[0], third)), Payload(payload))
  {
    PlainBody(c, tx, payload, third);
    DecodePlainFramed(c, tx, rx, Body(c, tx, payload, third), payload, third);
  }

  lemma DecodePlainFramed(c: Cipher, tx: Peer, rx: Peer, f: seq<uint8>, payload: seq<uint8>, third: uint8)
    requires payload != []
    requires !tx.scActive && !rx.scActive && rx.pdMode == !tx.pdMode
    requires rx.pdMode && InHandshake(false, payload[0]) ==> rx.scCapable
    requires PlainFramed(f, SecurityBlock(tx, payload, third), payload)
    ensures WellLaidOut(rx, f)
    ensures Decode(c, rx, f) ==
            (rx.(useScbkd := rx.useScbkd || TakesScbkd(rx, payload[0], third)), Payload(payload))
  {
    var scb := SecurityBlock(tx, payload, third);
    if scb == [] {
      DecodeNoBlock(c, rx, f, payload);
      assert rx.(useScbkd := rx.useScbkd || TakesScbkd(rx, payload[0], third)) == rx;
    } else {
      DecodeBlock(c, rx, f, scb, payload);
    }
  }

  lemma DecodeNoBlock(c: Cipher, rx: Peer, f: seq<uint8>, payload: seq<uint8>)
    requires !rx.scActive && payload != [] && |f| == 7 + |payload|
    requires HasCrc(f[4]) && !HasScb(f[4]) && f[5..|f| - 2] == payload
    ensures WellLaidOut(rx, f) && Decode(c, rx, f) == (rx, Payload(payload))
  {
  }

  lemma DecodeBlock(c: Cipher, rx: Peer, f: seq<uint8>, scb: seq<uint8>, payload: seq<uint8>)
    requires !rx.scActive && payload != [] && |f| == 10 + |payload|
    requires rx.pdMode ==> rx.scCapable
    requires HasCrc(f[4]) && HasScb(f[4])
    requires |scb| == 3 && scb[0] == 3 && SCS_11 <= scb[1] <= SCS_14
    requires f[5..8] == scb && f[8..|f| - 2] == payload
    ensures WellLaidOut(rx, f)
    ensures Decode(c, rx, f) ==
      (rx.(useScbkd := rx.useScbkd || ((scb[1] == SCS_11 || scb[1] == SCS_13) && rx.installMode && scb[2] == 0)),
       Payload(payload))
  {
    assert f[5] == scb[0] && f[6] == scb[1] && f[7] == scb[2];
  }

  // ----- Header and packet check, with or without a channel -----

  /** What a receiver checks of v, the packet without its CRC, before it decodes. */
  ghost predicate Headed(v: seq<uint8>, tx: Peer, id: uint8) {
    && |v| >= 6 && v[0] == SOM && v[1] == AddressOctet(tx)
    && v[2] == Byte0(|v| + 2) && v[3] == Byte1(|v| + 2)
    && Sqn(v[4]) == AfterInit(tx).seqNumber % 4 && HasCrc(v[4])
    && (|v| == 6 ==> v[5] == id)
  }

  lemma HeadedPlain(tx: Peer, scb: seq<uint8>, payload: seq<uint8>)
    requires payload != []
    ensures var n := 5 + |scb| + |payload| + 2;
      Headed([SOM, AddressOctet(tx), Byte0(n), Byte1(n), ControlOctet(AfterInit(tx).seqNumber, scb != [])]
             + scb + payload, tx, payload[0])
  {
    ControlBits(AfterInit(tx).seqNumber, scb != []);
  }

  lemma HeadedSecure(c: Cipher, tx: Peer, payload: seq<uint8>, mac: seq<uint8>)
    requires payload != [] && |mac| == 4
    ensures Headed(Authenticated(c, tx, payload) + mac, tx, payload[0])
  {
    ControlBits(AfterInit(tx).seqNumber, true);
  }

  lemma BodyHeaded(c: Cipher, tx: Peer, payload: seq<uint8>, third: uint8)
    requires payload != []
    ensures Headed(Protect(c, AfterInit(tx), Assembled(tx, payload, third)).1, tx, payload[0])
  {
    if tx.scActive {
      ProtectSecure(c, tx, payload, third);
      HeadedSecure(c, tx, payload, SentMac(KeysAfterSend(c, tx, payload), !tx.pdMode)[..4]);
    } else {
      ProtectPlain(c, tx, payload, third);
      HeadedPlain(tx, SecurityBlock(tx, payload, third), payload);
    }
  }

  /** What the receiver of a packet f sent by tx sees of its header and its CRC. */
  ghost predicate Checks(f: seq<uint8>, tx: Peer, id: uint8) {
    && |f| >= 8 && f[0] == SOM && f[1] == AddressOctet(tx)
    && Sqn(f[4]) == AfterInit(tx).seqNumber % 4
    && HasCrc(f[4]) && (|f| == 8 ==> f[5] == id)
    && (|f| < 65536 ==> Le16(f[2], f[3]) == |f|)
  }

  /** The CRC leaves everything before it as it was. */
  lemma FrontOfWithCrc(v: seq<uint8>)
    requires |v| >= 6
    ensures var f := WithCrc(v);
      f[0] == v[0] && f[1] == v[1] && f[2] == v[2] && f[3] == v[3] && f[4] == v[4] && f[5] == v[5]
  {
  }

  lemma LengthField(f: seq<uint8>)
    requires |f| >= 8 && f[2] == Byte0(|f|) && f[3] == Byte1(|f|)
    ensures |f| < 65536 ==> Le16(f[2], f[3]) == |f|
  {
    if |f| < 65536 {
      Le16RoundTrip(|f|);
    }
  }

  lemma HeadedChecks(v: seq<uint8>, f: seq<uint8>, tx: Peer, id: uint8)
    requires Headed(v, tx, id) && f == WithCrc(v)
    ensures Checks(f, tx, id)
  {
    FrontOfWithCrc(v);
    LengthField(f);
  }

  /** Every packet a side sends carries its address, its sequence number, its
      length and a matching CRC. */
  lemma BodyChecks(c: Cipher, tx: Peer, payload: seq<uint8>, third: uint8)
    requires payload != []
    ensures var f := Body(c, tx, payload, third);
      Checks(f, tx, payload[0]) && CheckMatches(f)
  {
    var v := Protect(c, AfterInit(tx), Assembled(tx, payload, third)).1;
    BodyHeaded(c, tx, payload, third);
    CheckOfWithCrc(v);
    HeadedChecks(v, Body(c, tx, payload, third), tx, payload[0]);
  }
}
