/** osdp_phy.c: one packet, from its header to its packet check (section 5.9 of
    SIA OSDP v2.2). The functions here say what the bytes and the state become;
    the methods of class Device do it inside the packet buffer. */
module Phy {
  import opened Bytes
  import opened Codes
  import opened Options
  import opened BlockCipher
  import SC = SecureChannel
  import Crc16

  const MARK: uint8 := 0xFF
  const SOM: uint8 := 0x53
  const BROADCAST: uint8 := 0x7F

  const SCS_11: uint8 := 0x11
  const SCS_12: uint8 := 0x12
  const SCS_13: uint8 := 0x13
  const SCS_14: uint8 := 0x14
  const SCS_15: uint8 := 0x15
  const SCS_16: uint8 := 0x16
  const SCS_17: uint8 := 0x17
  const SCS_18: uint8 := 0x18

  /** The part of struct osdp_pd that the packet layer reads and writes. */
  datatype Peer = Peer(
    pdMode: bool,
    address: uint8,
    seqNumber: int,
    hasMark: bool,
    skipMark: bool,
    broadcast: bool,
    skipSeqCheck: bool,
    scCapable: bool,
    scActive: bool,
    useScbkd: bool,
    installMode: bool,
    allowEmpty: bool,
    cmdId: uint8,
    replyId: uint8,
    nakCode: uint8,
    keys: SC.Keys)

  // ----- Control octet -----

  function Sqn(control: uint8): nat { control % 4 }
  predicate HasCrc(control: uint8) { control / 4 % 2 == 1 }
  predicate HasScb(control: uint8) { control / 8 % 2 == 1 }

  // ----- Building -----

  /** osdp_phy_get_seq_number with the increment. */
  function NextSeq(s: int): int {
    if s + 1 > 3 then 1 else s + 1
  }

  predicate InHandshake(isReply: bool, id: uint8) {
    if isReply then id == REPLY_CCRYPT || id == REPLY_RMAC_I else id == CMD_CHLNG || id == CMD_SCRYPT
  }

  /** The state after osdp_phy_packet_init. */
  function AfterInit(p: Peer): Peer {
    p.(hasMark := p.hasMark || (!p.pdMode && !p.skipMark),
       broadcast := false,
       seqNumber := if p.pdMode then p.seqNumber else NextSeq(p.seqNumber))
  }

  function AddressOctet(p: Peer): uint8 {
    (if p.broadcast then BROADCAST else p.address % 128) + (if p.pdMode then 128 else 0)
  }

  function ControlOctet(seqNumber: int, scb: bool): uint8 {
    seqNumber % 4 + 4 + (if scb then 8 else 0)
  }

  /** The block type of a packet in an active channel: with or without data. */
  function SecureType(pdMode: bool, hasData: bool): uint8 {
    if pdMode then (if hasData then SCS_18 else SCS_16) else (if hasData then SCS_17 else SCS_15)
  }

  function HandshakeType(pdMode: bool, id: uint8): uint8 {
    if pdMode then (if id == REPLY_CCRYPT then SCS_12 else SCS_14)
    else (if id == CMD_CHLNG then SCS_11 else SCS_13)
  }

  /** The security block that osdp_phy_packet_init and the command or reply
      builder leave in the buffer together; `third` is the handshake's own octet. */
  function SecurityBlock(p: Peer, payload: seq<uint8>, third: uint8): seq<uint8>
    requires payload != []
  {
    if p.scActive then [2, SecureType(p.pdMode, |payload| > 1)]
    else if InHandshake(p.pdMode, payload[0]) then [3, HandshakeType(p.pdMode, payload[0]), third]
    else []
  }

  /** Header, security block and payload before osdp_phy_packet_finalize; the
      length is still open. */
  function Assembled(p: Peer, payload: seq<uint8>, third: uint8): (u: seq<uint8>)
    requires payload != []
    ensures |u| == 5 + |SecurityBlock(p, payload, third)| + |payload|
  {
    var scb := SecurityBlock(p, payload, third);
    [SOM, AddressOctet(p), 0, 0, ControlOctet(AfterInit(p).seqNumber, scb != [])] + scb + payload
  }

  function WithLength(u: seq<uint8>, n: nat): (r: seq<uint8>)
    requires |u| >= 5
    ensures |r| == |u|
  {
    u[2 := Byte0(n)][3 := Byte1(n)]
  }

  /** The packet carries a MAC: the channel is active and the block says so. */
  predicate Secured(scActive: bool, u: seq<uint8>) {
    scActive && |u| >= 7 && HasScb(u[4]) && u[6] >= SCS_15
  }

  predicate Encrypted(u: seq<uint8>)
    requires |u| >= 7
  {
    u[6] == SCS_17 || u[6] == SCS_18
  }

  /** Where the data portion starts: after header, security block and identifier. */
  function DataOffset(u: seq<uint8>): nat
    requires |u| >= 7
  {
    var block: nat := u[5];
    5 + block + 1
  }

  /** The data portion encrypted, where the block type asks for it. */
  function EncryptPart(c: Cipher, keys: SC.Keys, isCmd: bool, u: seq<uint8>): (r: seq<uint8>)
    requires |u| >= 7 && DataOffset(u) <= |u|
    ensures |r| >= |u|
  {
    if Encrypted(u) then
      u[..DataOffset(u)] + SC.EncryptData(c, keys, isCmd, u[DataOffset(u)..])
    else
      u
  }

  function SentMac(keys: SC.Keys, isCmd: bool): Block {
    if isCmd then keys.cMac else keys.rMac
  }

  /** Length, encryption and MAC; the state keeps the new MAC. */
  function Protect(c: Cipher, p: Peer, u: seq<uint8>): (r: (Peer, seq<uint8>))
    requires |u| >= 5 && (Secured(p.scActive, u) ==> DataOffset(u) <= |u|)
    ensures |r.1| >= |u| && r.0.hasMark == p.hasMark
  {
    if Secured(p.scActive, u) then
      var e := EncryptPart(c, p.keys, !p.pdMode, u);
      var w := WithLength(e, |e| + 4 + 2);
      var keys := SC.WithMac(c, p.keys, !p.pdMode, w);
      (p.(keys := keys), w + SentMac(keys, !p.pdMode)[..4])
    else
      (p, WithLength(u, |u| + 2))
  }

  function WithCrc(u: seq<uint8>): (r: seq<uint8>)
    ensures |r| == |u| + 2
  {
    var crc := Crc16.Compute(u);
    u + [Byte0(crc), Byte1(crc)]
  }

  function MarkOf(p: Peer): seq<uint8> { if p.hasMark then [MARK] else [] }

  /** The bytes on the wire and the sender's state for one payload. */
  function Send(c: Cipher, p: Peer, payload: seq<uint8>, third: uint8): (r: (Peer, seq<uint8>))
    requires payload != []
    ensures |r.1| >= 8 + |MarkOf(r.0)|
  {
    var u := Assembled(p, payload, third);
    var (p', v) := Protect(c, AfterInit(p), u);
    (p', MarkOf(p') + WithCrc(v))
  }

  // ----- Receiving -----

  /** OSDP_ERR_PKT_* as far as a complete packet can cause them. */
  datatype Checked = Accepted | Malformed | NotOurs | Foreign | Busy | WrongSequence

  /** The packet check over everything before it: CRC, or checksum. */
  predicate CheckMatches(u: seq<uint8>)
    requires |u| >= 6
  {
    var n := BodyLength(u);
    if HasCrc(u[4]) then Le16(u[n], u[n + 1]) == Crc16.Compute(u[..n]) else u[n] == Checksum(u[..n])
  }

  function BodyLength(u: seq<uint8>): nat
    requires |u| >= 6
  {
    if HasCrc(u[4]) then |u| - 2 else |u| - 1
  }

  function Sum(msg: seq<uint8>): nat {
    if msg == [] then 0 else Sum(msg[..|msg| - 1]) + msg[|msg| - 1]
  }

  /** osdp_compute_checksum: two's complement of the low octet of the sum. */
  function Checksum(msg: seq<uint8>): uint8 {
    (256 - Sum(msg) % 256) % 256
  }

  /** phy_check_packet on the bytes after the mark. */
  function Check(p: Peer, u: seq<uint8>): (Peer, Checked)
    requires |u| >= 6
  {
    if !CheckMatches(u) then (p, Malformed)
    else CheckHeader(p, u[1] % 128, Sqn(u[4]), BodyLength(u) == 6 && u[5] == REPLY_BUSY)
  }

  /** Its second part: address, then sequence number; `busy` says that the packet
      is the shortest possible and holds a busy reply. */
  function CheckHeader(p: Peer, address: nat, sqn: nat, busy: bool): (Peer, Checked) {
    if address != p.address && address != BROADCAST then
      (p, if p.pdMode then NotOurs else Foreign)
    else if p.pdMode then
      CheckSequence(CommandSequence(p, sqn).(broadcast := p.broadcast || address == BROADCAST), sqn)
    else if sqn == 0 && busy then
      (p.(seqNumber := p.seqNumber - 1), Busy)
    else
      CheckSequence(p, sqn)
  }

  /** What a PD does to its counter before comparing: 0 restarts, a repeat steps back. */
  function CommandSequence(p: Peer, sqn: nat): Peer {
    p.(seqNumber := if sqn == 0 then -1 else if sqn == p.seqNumber then p.seqNumber - 1 else p.seqNumber,
       scActive := p.scActive && sqn != 0)
  }

  function CheckSequence(p: Peer, sqn: nat): (Peer, Checked) {
    var p' := p.(seqNumber := if p.pdMode then NextSeq(p.seqNumber) else p.seqNumber);
    if p'.seqNumber % 4 != sqn && !p.skipSeqCheck then
      (p'.(replyId := REPLY_NAK, nakCode := NAK_SEQ_NUM), WrongSequence)
    else
      (p', Accepted)
  }

  /** The outcome of osdp_phy_decode_packet. */
  datatype Decoded = Payload(bytes: seq<uint8>) | Nak(code: uint8)

  /** The security block, the identifier and the MAC of the packet lie inside it. */
  predicate WellLaidOut(p: Peer, u: seq<uint8>) {
    && |u| >= 7 && BodyLength(u) >= 6
    && (HasScb(u[4]) ==>
          && BodyLength(u) >= 8 && 2 <= u[5]
          && 5 + u[5] + (if p.scActive && u[6] >= SCS_15 then 4 else 0) < BodyLength(u))
  }

  /** A plain packet is still accepted in an active channel from a PD that answers a
      KEYSET with ACK, or that reports an error with NAK. */
  predicate PlainAllowed(p: Peer, id: uint8) {
    !p.pdMode && ((p.cmdId == CMD_KEYSET && id == REPLY_ACK) || id == REPLY_NAK)
  }

  function Refused(p: Peer, code: uint8): (Peer, Decoded) {
    (p.(replyId := REPLY_NAK, nakCode := code), Nak(code))
  }

  /** osdp_phy_decode_packet on the bytes after the mark. */
  function Decode(c: Cipher, p: Peer, u: seq<uint8>): (Peer, Decoded)
    requires WellLaidOut(p, u)
  {
    var n := BodyLength(u);
    if !HasScb(u[4]) then
      if p.scActive && !PlainAllowed(p, u[5]) then Refused(p, NAK_SC_COND) else (p, Payload(u[5..n]))
    else if p.pdMode && !p.scCapable then Refused(p, NAK_SC_UNSUP)
    else if u[6] < SCS_11 || u[6] > SCS_18 then Refused(p, NAK_SC_COND)
    else if !p.scActive && u[6] > SCS_14 then Refused(p, NAK_SC_COND)
    else
      var p1 := p.(useScbkd := p.useScbkd ||
                   ((u[6] == SCS_11 || u[6] == SCS_13) && p.installMode && u[7] == 0));
      if Secured(p.scActive, u) then DecodeSecured(c, p1, u) else (p1, Payload(u[5 + u[5]..n]))
  }

  /** MAC first, then the data portion. */
  function DecodeSecured(c: Cipher, p: Peer, u: seq<uint8>): (Peer, Decoded)
    requires WellLaidOut(p, u) && Secured(p.scActive, u)
  {
    var m := BodyLength(u) - 4;
    var p1 := p.(keys := SC.WithMac(c, p.keys, p.pdMode, u[..m]));
    if u[m..m + 4] != SentMac(p1.keys, p.pdMode)[..4] then
      Refused(p1.(scActive := false), NAK_SC_COND)
    else if Encrypted(u) then
      match SC.DecryptData(c, p1.keys, p.pdMode, p.allowEmpty, u[DataOffset(u)..m])
      case None => Refused(p1.(scActive := false), NAK_SC_COND)
      case Some(data) => (p1, Payload([u[5 + u[5]]] + data))
    else
      (p1, Payload(u[5 + u[5]..m]))
  }
}
