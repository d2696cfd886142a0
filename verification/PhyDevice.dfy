/** The packet layer of osdp_phy.c inside the packet buffer: building and
    finalising a packet, checking and decoding one, all in place. */
module PhyDevice {
  import opened Bytes
  import opened Sequences
  import opened Codes
  import opened Options
  import opened BlockCipher
  import Config
  import SC = SecureChannel
  import Crc16
  import opened Phy

  const ERR_FMT := -1
  const ERR_NACK := -6

  /** What osdp_phy_packet_init itself writes of the security block. */
  function InitialBlock(p: Peer, id: uint8): seq<uint8> {
    if p.scActive then [2, SCS_15] else if InHandshake(p.pdMode, id) then [3, SCS_11] else []
  }

  function BlockLength(p: Peer, id: uint8): nat {
    if p.scActive then 2 else if InHandshake(p.pdMode, id) then 3 else 0
  }

  /** A panel that skips the mark but has noted one: packet_init writes none, and
      packet_finalize looks for it. */
  predicate MarkMissing(p: Peer) { !p.pdMode && p.skipMark && p.hasMark }

  function OwnId(p: Peer): uint8 { if p.pdMode then p.replyId else p.cmdId }

  /** The buffer holds a mark if p has one, then header and block of a packet; the
      two octets of the length are open. */
  ghost predicate HeaderIn(s: seq<uint8>, p: Peer, scb: seq<uint8>, control: uint8, address: uint8) {
    var m := |MarkOf(p)|;
    && |s| >= m + 5 + |scb|
    && s[..m] == MarkOf(p) && s[m] == SOM && s[m + 1] == address && s[m + 4] == control
    && s[m + 5..m + 5 + |scb|] == scb
  }

  /** u and v agree outside the length octets. */
  ghost predicate SameButLength(u: seq<uint8>, v: seq<uint8>) {
    |u| == |v| && |u| >= 6 && u[..2] == v[..2] && u[4..] == v[4..]
  }

  lemma ProtectLike(c: Cipher, p: Peer, u: seq<uint8>, v: seq<uint8>)
    requires SameButLength(u, v) && (Secured(p.scActive, u) ==> DataOffset(u) <= |u|)
    ensures Secured(p.scActive, u) <==> Secured(p.scActive, v)
    ensures HasScb(u[4]) == HasScb(v[4]) && u[0] == v[0]
    ensures Secured(p.scActive, u) ==> DataOffset(u) == DataOffset(v)
    ensures Protect(c, p, u) == Protect(c, p, v)
  {
    assert u[0] == u[..2][0] && v[0] == v[..2][0];
    assert u[4] == u[4..][0] && v[4] == v[4..][0];
    if |u| >= 7 {
      assert u[5] == u[4..][1] && v[5] == v[4..][1];
      assert u[6] == u[4..][2] && v[6] == v[4..][2];
    }
    LengthIgnored(u, v);
    LengthRewritten(c, p.keys, !p.pdMode, p.scActive, u, 0);
    LengthRewritten(c, p.keys, !p.pdMode, p.scActive, v, 0);
  }

  lemma LengthIgnored(u: seq<uint8>, v: seq<uint8>)
    requires SameButLength(u, v)
    ensures forall n: nat :: WithLength(u, n) == WithLength(v, n)
  {
    forall n: nat ensures WithLength(u, n) == WithLength(v, n) {
      assert u == u[..2] + u[2..4] + u[4..];
      assert v == v[..2] + v[2..4] + v[4..];
    }
  }

  /** Packet building changes neither mode nor channel. */
  lemma InitKeeps(p: Peer, id: uint8)
    ensures BlockLength(AfterInit(p), id) == BlockLength(p, id) && OwnId(AfterInit(p)) == OwnId(p)
    ensures AfterInit(p).scActive == p.scActive
  {
  }

  lemma InitKeepsBlock(p: Peer, payload: seq<uint8>, third: uint8)
    requires payload != []
    ensures SecurityBlock(AfterInit(p), payload, third) == SecurityBlock(p, payload, third)
    ensures |SecurityBlock(p, payload, third)| == BlockLength(p, payload[0])
    ensures (SecurityBlock(p, payload, third) != []) == (BlockLength(p, payload[0]) != 0)
    ensures Assembled(p, payload, third)[5..] == SecurityBlock(p, payload, third) + payload
  {
  }

  lemma FilledIsAssembled(p: Peer, s: seq<uint8>, t: seq<uint8>, payload: seq<uint8>, third: uint8)
    requires payload != []
    requires HeaderIn(s, AfterInit(p), InitialBlock(p, payload[0]),
                      ControlOctet(AfterInit(p).seqNumber, BlockLength(p, payload[0]) != 0), AddressOctet(p))
    requires var m, n := |MarkOf(AfterInit(p))|, BlockLength(AfterInit(p), payload[0]);
      && m + 5 + n + |payload| <= |t| && |s| == |t|
      && t[..m + 5] == s[..m + 5]
      && t[m + 5..m + 5 + n + |payload|] == SecurityBlock(AfterInit(p), payload, third) + payload
    ensures Built(t, |MarkOf(AfterInit(p))| + 5 + BlockLength(p, payload[0]) + |payload|, p, payload, third)
  {
    hide ControlOctet, AddressOctet, InHandshake, SecureType, HandshakeType, AfterInit;
    hide InitialBlock, Assembled, SecurityBlock, BlockLength, MarkOf;
    InitKeeps(p, payload[0]);
    InitKeepsBlock(p, payload, third);
    AssembledHead(p, payload, third);
    var m, n := |MarkOf(AfterInit(p))|, BlockLength(p, payload[0]);
    var rest := SecurityBlock(p, payload, third) + payload;
    HeaderSlices(s, t, m, rest);
    ButLength(Assembled(p, payload, third), t[m..m + 5 + |rest|]);
  }

  lemma AssembledHead(p: Peer, payload: seq<uint8>, third: uint8)
    requires payload != []
    ensures var u := Assembled(p, payload, third);
      && u[0] == SOM && u[1] == AddressOctet(p)
      && u[4] == ControlOctet(AfterInit(p).seqNumber, BlockLength(p, payload[0]) != 0)
  {
    hide ControlOctet, AddressOctet, AfterInit;
  }

  lemma HeaderSlices(s: seq<uint8>, t: seq<uint8>, m: nat, rest: seq<uint8>)
    requires |s| == |t| && m + 5 + |rest| <= |t|
    requires t[..m + 5] == s[..m + 5] && t[m + 5..m + 5 + |rest|] == rest
    ensures var u := t[m..m + 5 + |rest|];
      u[5..] == rest && u[0] == s[m] && u[1] == s[m + 1] && u[4] == s[m + 4]
    ensures t[..m] == s[..m]
  {
    assert t[m] == t[..m + 5][m] && t[m + 1] == t[..m + 5][m + 1] && t[m + 4] == t[..m + 5][m + 4];
    assert t[..m] == t[..m + 5][..m];
  }

  lemma ButLength(u: seq<uint8>, v: seq<uint8>)
    requires |u| == |v| && |u| >= 6
    requires u[0] == v[0] && u[1] == v[1] && u[4] == v[4] && u[5..] == v[5..]
    ensures SameButLength(u, v)
  {
    assert u[4..] == [u[4]] + u[5..] && v[4..] == [v[4]] + v[5..];
  }

  lemma AssembledBounds(p: Peer, payload: seq<uint8>, third: uint8)
    requires payload != []
    ensures var u := Assembled(p, payload, third);
      && |u| == 5 + BlockLength(p, payload[0]) + |payload|
      && (HasScb(u[4]) ==> |u| >= 7)
      && (Secured(p.scActive, u) ==> DataOffset(u) == 8 == |u| - (|payload| - 1))
  {
  }

  /** The buffer holds, after the mark, the packet that Assembled describes. */
  ghost predicate Built(s: seq<uint8>, len: nat, p: Peer, payload: seq<uint8>, third: uint8)
    requires payload != []
  {
    var m := |MarkOf(AfterInit(p))|;
    && len == m + |Assembled(p, payload, third)| <= |s|
    && SameButLength(Assembled(p, payload, third), s[m..len])
    && s[..m] == MarkOf(AfterInit(p))
  }

  lemma BuiltPlaced(c: Cipher, p: Peer, s: seq<uint8>, len: nat, payload: seq<uint8>, third: uint8, maxLen: nat)
    requires payload != [] && |s| >= 2 && Built(s, len, p, payload, third)
    requires p.scActive ==> PaddingStays(|MarkOf(AfterInit(p))|, |payload| - 1, maxLen)
    ensures var m := |MarkOf(AfterInit(p))|;
            var u := s[m..len];
      && m + 5 < len == m + 5 + BlockLength(p, payload[0]) + |payload| && m <= 1
      && HeaderPlaced(AfterInit(p), len, s)
      && (HasScb(u[4]) ==> |u| >= 7)
      && (Secured(AfterInit(p).scActive, u) ==> DataOffset(u) <= |u| && SealStays(m, u, maxLen))
      && Protect(c, AfterInit(p), u) == Protect(c, AfterInit(p), Assembled(p, payload, third))
  {
    hide Assembled, Protect, SameButLength, Secured, HasScb, DataOffset, SealStays, BlockLength;
    var m := |MarkOf(AfterInit(p))|;
    AssembledBounds(p, payload, third);
    InitKeeps(p, payload[0]);
    AssembledStarts(p, payload, third);
    ProtectLike(c, AfterInit(p), Assembled(p, payload, third), s[m..len]);
    if Secured(AfterInit(p).scActive, s[m..len]) {
      SealsData(m, s[m..len], |payload| - 1, maxLen);
    }
  }

  lemma SealsData(m: nat, u: seq<uint8>, n: nat, maxLen: nat)
    requires |u| >= 7 && DataOffset(u) == 8 == |u| - n && PaddingStays(m, n, maxLen)
    ensures SealStays(m, u, maxLen)
  {
  }

  lemma NotPlaced(p: Peer, len: nat, s: seq<uint8>)
    requires |s| >= 2 && MarkMissing(p) && s[0] == SOM
    ensures !HeaderPlaced(AfterInit(p), len, s)
  {
  }

  lemma AssembledStarts(p: Peer, payload: seq<uint8>, third: uint8)
    requires payload != []
    ensures Assembled(p, payload, third)[0] == SOM
  {
  }

  lemma MarkLength(p: Peer)
    ensures |MarkOf(p)| == if p.hasMark then 1 else 0
  {
  }

  /** A packet whose first part stayed and whose data portion was replaced. */
  lemma Joined(s: seq<uint8>, t: seq<uint8>, off: nat, data: nat, n: nat, n': nat, text: seq<uint8>)
    requires data <= n && data <= n' && off + n <= |s| == |t| && off + n' <= |t|
    requires t[..off + data] == s[..off + data] && t[off + data..off + n'] == text
    ensures t[off..off + n'] == s[off..off + n][..data] + text
    ensures s[off..off + n][data..] == s[off + data..off + n] && t[..off] == s[..off]
  {
    assert t[..off] == t[..off + data][..off];
    assert t[off..off + data] == t[..off + data][off..];
    assert s[off..off + n][..data] == s[..off + data][off..];
    assert t[off..off + n'] == t[off..off + data] + t[off + data..off + n'];
  }

  /** What the length octets hold beforehand makes no difference. */
  lemma LengthRewritten(c: Cipher, keys: SC.Keys, isCmd: bool, scActive: bool, u: seq<uint8>, x: nat)
    requires |u| >= 6 && (Secured(scActive, u) ==> DataOffset(u) <= |u|)
    ensures var v := WithLength(u, x);
      && v[4] == u[4] && (|u| >= 7 ==> v[6] == u[6]) && (Secured(scActive, u) <==> Secured(scActive, v))
      && (Secured(scActive, u) ==>
            && DataOffset(v) == DataOffset(u) && Encrypted(v) == Encrypted(u)
            && var e, e' := EncryptPart(c, keys, isCmd, u), EncryptPart(c, keys, isCmd, v);
               |e'| == |e| && forall n: nat :: WithLength(e', n) == WithLength(e, n))
  {
    if Secured(scActive, u) {
      var v := WithLength(u, x);
      assert v[DataOffset(v)..] == u[DataOffset(u)..];
    }
  }

  /** Final length and MAC around an encrypted packet. */
  function Sealed(c: Cipher, k: SC.Keys, isCmd: bool, e: seq<uint8>): (r: (SC.Keys, seq<uint8>))
    requires |e| >= 5
    ensures |r.1| == |e| + 4
  {
    var w := WithLength(e, |e| + 4 + 2);
    var keys := SC.WithMac(c, k, isCmd, w);
    (keys, w + SentMac(keys, isCmd)[..4])
  }

  lemma SealedAlike(c: Cipher, k: SC.Keys, isCmd: bool, e: seq<uint8>, e': seq<uint8>)
    requires |e| == |e'| >= 5 && forall n: nat :: WithLength(e', n) == WithLength(e, n)
    ensures Sealed(c, k, isCmd, e) == Sealed(c, k, isCmd, e')
  {
  }

  /** Protect without the rest of the peer's state. */
  function Guard(c: Cipher, keys: SC.Keys, isCmd: bool, scActive: bool, u: seq<uint8>): (SC.Keys, seq<uint8>)
    requires |u| >= 5 && (Secured(scActive, u) ==> DataOffset(u) <= |u|)
  {
    if Secured(scActive, u) then Sealed(c, keys, isCmd, EncryptPart(c, keys, isCmd, u))
    else (keys, WithLength(u, |u| + 2))
  }

  lemma ProtectIsGuard(c: Cipher, p: Peer, u: seq<uint8>)
    requires |u| >= 6 && (Secured(p.scActive, u) ==> DataOffset(u) <= |u|)
    ensures var (keys, v) := Guard(c, p.keys, !p.pdMode, p.scActive, u);
      Protect(c, p, u) == (p.(keys := keys), v)
  {
    hide EncryptPart, WithLength, SC.WithMac;
  }

  /** The test in the code, on the packet in the buffer. */
  lemma SecuredInBuffer(scActive: bool, u: seq<uint8>)
    requires |u| >= 6 && (HasScb(u[4]) ==> |u| >= 7)
    ensures Secured(scActive, u) <==> scActive && HasScb(u[4]) && u[6] >= SCS_15
  {
  }

  /** What is left to do for u once its length octets have been set in v. */
  lemma GuardPlan(c: Cipher, keys: SC.Keys, isCmd: bool, scActive: bool, u: seq<uint8>, v: seq<uint8>)
    requires |u| >= 6 && (HasScb(u[4]) ==> |u| >= 7) && v == WithLength(u, |u| + 2)
    requires Secured(scActive, u) ==> DataOffset(u) <= |u|
    ensures HasScb(v[4]) ==> |v| >= 7
    ensures if scActive && HasScb(v[4]) && v[6] >= SCS_15 then
              && Secured(scActive, u) && DataOffset(v) == DataOffset(u) <= |v| && Encrypted(v) == Encrypted(u)
              && Guard(c, keys, isCmd, scActive, u) == Sealed(c, keys, isCmd, EncryptPart(c, keys, isCmd, v))
            else Guard(c, keys, isCmd, scActive, u) == (keys, v)
  {
    hide EncryptPart, HasScb, WithLength, Sealed, Secured;
    LengthRewritten(c, keys, isCmd, scActive, u, |u| + 2);
    SecuredInBuffer(scActive, v);
    if Secured(scActive, u) {
      SealedAlike(c, keys, isCmd, EncryptPart(c, keys, isCmd, u), EncryptPart(c, keys, isCmd, v));
    }
  }

  lemma SealsAlike(m: nat, u: seq<uint8>, v: seq<uint8>, maxLen: nat)
    requires |v| == |u| >= 7 && DataOffset(v) == DataOffset(u) <= |u| && Encrypted(v) == Encrypted(u)
    ensures SealStays(m, v, maxLen) == SealStays(m, u, maxLen)
  {
  }

  lemma EncryptCases(c: Cipher, keys: SC.Keys, isCmd: bool, u: seq<uint8>)
    requires |u| >= 7 && DataOffset(u) <= |u|
    ensures EncryptPart(c, keys, isCmd, u) ==
            if Encrypted(u) then u[..DataOffset(u)] + SC.EncryptData(c, keys, isCmd, u[DataOffset(u)..]) else u
    ensures |EncryptPart(c, keys, isCmd, u)| ==
            if Encrypted(u) then DataOffset(u) + SC.PadLen(|u| - DataOffset(u) + 1) else |u|
  {
  }

  class Device {
    const session: SC.Session
    const buf: array<uint8>
    const pdMode: bool
    var address: uint8
    var seqNumber: int
    var hasMark: bool
    var skipMark: bool
    var broadcast: bool
    var skipSeqCheck: bool
    var scCapable: bool
    var scActive: bool
    var useScbkd: bool
    var installMode: bool
    var allowEmpty: bool
    var cmdId: uint8
    var replyId: uint8
    var nakCode: uint8

    constructor (session: SC.Session, pdMode: bool, address: uint8)
      ensures fresh(buf) && buf.Length == Config.PACKET_BUF_SIZE
      ensures this.session == session && this.pdMode == pdMode
      ensures State() == Peer(pdMode, address, -1, false, false, false, false, pdMode, false, false, false, false,
                              0, 0, 0, session.State())
    {
      this.session := session;
      this.buf := new uint8[Config.PACKET_BUF_SIZE](i => 0);
      this.pdMode := pdMode;
      this.address := address;
      seqNumber, hasMark, skipMark, broadcast, skipSeqCheck := -1, false, false, false, false;
      scCapable, scActive, useScbkd, installMode, allowEmpty := pdMode, false, false, false, false;
      cmdId, replyId, nakCode := 0, 0, 0;
    }

    ghost function State(): Peer
      reads this, session
    {
      Peer(pdMode, address, seqNumber, hasMark, skipMark, broadcast, skipSeqCheck, scCapable, scActive, useScbkd,
           installMode, allowEmpty, cmdId, replyId, nakCode, session.State())
    }

    /** osdp_phy_get_seq_number */
    method GetSeqNumber(doInc: bool) returns (sqn: uint8)
      modifies this`seqNumber
      ensures seqNumber == if doInc then NextSeq(old(seqNumber)) else old(seqNumber)
      ensures sqn == seqNumber % 4
    {
      if doInc {
        seqNumber := seqNumber + 1;
        if seqNumber > 3 {
          seqNumber := 1;
        }
      }
      sqn := seqNumber % 4;
    }

    /** osdp_phy_packet_init: header and the first octets of the security block. Where
        the mark is missing, the header starts one octet before its place. */
    method PacketInit(maxLen: nat) returns (ret: int)
      requires Config.MINIMUM_PACKET_SIZE <= buf.Length
      modifies this`seqNumber, this`hasMark, this`broadcast, buf
      ensures maxLen < Config.MINIMUM_PACKET_SIZE ==> ret == ERR_FMT && State() == old(State())
      ensures maxLen >= Config.MINIMUM_PACKET_SIZE ==>
        var p, id := old(State()), OwnId(old(State()));
        && State() == AfterInit(p)
        && (if MarkMissing(p) then buf[0] == SOM
            else HeaderIn(buf[..], State(), InitialBlock(p, id),
                          ControlOctet(State().seqNumber, BlockLength(p, id) != 0), AddressOctet(p)))
        && ret == |MarkOf(State())| + 5 + BlockLength(p, id)
    {
      if maxLen < Config.MINIMUM_PACKET_SIZE {
        return ERR_FMT;
      }
      hide AddressOctet, ControlOctet, NextSeq, InHandshake, MarkOf;
      var off := WriteMark();
      var length := InitHeader(off);
      MarkLength(State());
      return (if hasMark then 1 else 0) + length;
    }

    /** The mark: a device returns the panel's, a panel writes its own. */
    method WriteMark() returns (off: nat)
      requires Config.MINIMUM_PACKET_SIZE <= buf.Length
      modifies this`hasMark, buf
      ensures State() == old(State()).(hasMark := AfterInit(old(State())).hasMark)
      ensures off == (if hasMark && !MarkMissing(old(State())) then 1 else 0)
      ensures !MarkMissing(old(State())) ==> buf[..off] == MarkOf(State())
    {
      off := 0;
      if (pdMode && hasMark) || (!pdMode && !skipMark) {
        buf[0] := MARK;
        off := 1;
        hasMark := true;
      }
    }

    /** Start of message, address, control octet with the next number, and the
        placeholder of the security block. */
    method InitHeader(off: nat) returns (length: nat)
      requires off + 8 <= buf.Length
      modifies this`seqNumber, this`broadcast, buf
      ensures State() == old(State()).(broadcast := false,
                seqNumber := if pdMode then old(seqNumber) else NextSeq(old(seqNumber)))
      ensures length == 5 + BlockLength(old(State()), OwnId(old(State())))
      ensures buf[off] == SOM && buf[off + 1] == AddressOctet(old(State()))
      ensures buf[off + 4] == ControlOctet(seqNumber, length != 5)
      ensures length != 5 ==> buf[off + 5..off + 7] == InitialBlock(old(State()), OwnId(old(State())))
      ensures buf[..off] == old(buf[..off])
    {
      WriteAddress(off);
      var sqn := GetSeqNumber(!pdMode);
      var scbLen := InitBlock(off, sqn + 4);
      length := 5 + scbLen;
      assert buf[off] == buf[..off + 4][off] && buf[off + 1] == buf[..off + 4][off + 1];
      assert buf[..off] == buf[..off + 4][..off];
    }

    method WriteAddress(off: nat)
      requires off + 8 <= buf.Length
      modifies this`broadcast, buf
      ensures State() == old(State()).(broadcast := false)
      ensures buf[off] == SOM && buf[off + 1] == AddressOctet(old(State()))
      ensures buf[..off] == old(buf[..off])
    {
      buf[off] := SOM;
      buf[off + 1] := address % 128;
      if broadcast {
        buf[off + 1] := BROADCAST;
        broadcast := false;
      }
      if pdMode {
        buf[off + 1] := buf[off + 1] + 128;
      }
    }

    /** The control octet and the placeholder of the security block. */
    method InitBlock(off: nat, control: uint8) returns (scbLen: nat)
      requires off + 8 <= buf.Length && control < 8
      modifies buf
      ensures scbLen == BlockLength(State(), OwnId(State()))
      ensures buf[off + 4] == control + (if scbLen != 0 then 8 else 0)
      ensures scbLen != 0 ==> buf[off + 5..off + 7] == InitialBlock(State(), OwnId(State()))
      ensures buf[..off + 4] == old(buf[..off + 4])
    {
      scbLen := 0;
      var id := if pdMode then replyId else cmdId;
      buf[off + 4] := control;
      if scActive {
        buf[off + 4] := control + 8;
        scbLen := 2;
        buf[off + 5] := 2;
        buf[off + 6] := SCS_15;
      } else if InHandshake(pdMode, id) {
        buf[off + 4] := control + 8;
        scbLen := 3;
        buf[off + 5] := 3;
        buf[off + 6] := SCS_11;
      }
    }

    /** The packet without its mark: n octets from off. */
    ghost function Bytes(off: nat, n: nat): (b: seq<uint8>)
      requires off + n <= buf.Length
      reads buf
      ensures |b| == n
    {
      buf[off..off + n]
    }

    /** What cp_build_command and pd_build_reply leave behind the header: the
        security block in its final form and the payload. */
    method Fill(payload: seq<uint8>, third: uint8)
      requires payload != [] && payload[0] == OwnId(State())
      requires |MarkOf(State())| + 5 + BlockLength(State(), payload[0]) + |payload| <= buf.Length
      modifies buf
      ensures var m, n := |MarkOf(State())|, BlockLength(State(), payload[0]);
        && buf[..m + 5] == old(buf[..m + 5])
        && buf[m + 5..m + 5 + n + |payload|] == SecurityBlock(State(), payload, third) + payload
    {
      hide MarkOf, InHandshake, BlockLength, SecurityBlock;
      var off := (if hasMark then 1 else 0) + 5;
      assert |MarkOf(State())| + 5 == off by { MarkLength(State()); }
      var n := WriteBlock(off, payload, third);
      ghost var front := buf[..off + n];
      assert front[..off] == old(buf[..off]) && front[off..] == buf[off..off + n];
      Copy(off + n, payload);
      assert front == buf[..off + n];
      assert buf[..off] == front[..off] && buf[off..off + n] == front[off..];
      assert buf[off..off + n + |payload|] == buf[off..off + n] + buf[off + n..off + n + |payload|];
    }

    /** The security block as the command or reply builder completes it. */
    method WriteBlock(off: nat, payload: seq<uint8>, third: uint8) returns (n: nat)
      requires payload != [] && off + BlockLength(State(), payload[0]) <= buf.Length
      modifies buf
      ensures n == BlockLength(State(), payload[0])
      ensures buf[..off] == old(buf[..off]) && buf[off..off + n] == SecurityBlock(State(), payload, third)
    {
      hide InHandshake, SecureType, HandshakeType;
      n := 0;
      if scActive {
        n := 2;
        buf[off], buf[off + 1] := 2, SecureType(pdMode, |payload| > 1);
      } else if InHandshake(pdMode, payload[0]) {
        n := 3;
        buf[off], buf[off + 1], buf[off + 2] := 3, HandshakeType(pdMode, payload[0]), third;
      }
    }

    method Copy(off: nat, payload: seq<uint8>)
      requires off + |payload| <= buf.Length
      modifies buf
      ensures buf[off..off + |payload|] == payload
      ensures buf[..off] == old(buf[..off])
    {
      forall i | 0 <= i < |payload| {
        buf[off + i] := payload[i];
      }
    }

    /** Header, block and payload in the buffer; only the length is still open. */
    method BuildPacket(payload: seq<uint8>, third: uint8, maxLen: nat) returns (len: nat)
      requires buf.Length == Config.PACKET_BUF_SIZE && Config.MINIMUM_PACKET_SIZE <= maxLen <= buf.Length
      requires payload != [] && payload[0] == OwnId(State()) && 9 + |payload| <= maxLen
      modifies this`seqNumber, this`hasMark, this`broadcast, buf
      ensures State() == AfterInit(old(State()))
      ensures len == |MarkOf(State())| + 5 + BlockLength(State(), payload[0]) + |payload|
      ensures if MarkMissing(old(State())) then buf[0] == SOM else Built(buf[..], len, old(State()), payload, third)
    {
      hide AfterInit, HeaderIn, Assembled, SecurityBlock, ControlOctet, AddressOctet, SameButLength;
      ghost var p := State();
      var start := PacketInit(maxLen);
      InitKeeps(p, payload[0]);
      ghost var before := buf[..];
      Fill(payload, third);
      len := start + |payload|;
      if MarkMissing(p) {
        assert buf[0] == buf[..|MarkOf(State())| + 5][0];
      } else {
        FilledIsAssembled(p, before, buf[..], payload, third);
      }
    }

    /** cp_build_and_send_packet and pd_send_reply up to the write to the channel: the
        buffer holds the packet that Send describes, or it did not fit; without its mark
        no packet passes. */
    method SendPacket(payload: seq<uint8>, third: uint8, maxLen: nat) returns (ret: int)
      requires buf.Length == Config.PACKET_BUF_SIZE && Config.MINIMUM_PACKET_SIZE <= maxLen <= buf.Length
      requires payload != [] && payload[0] == OwnId(State()) && 9 + |payload| <= maxLen
      requires scActive ==> PaddingStays(|MarkOf(AfterInit(State()))|, |payload| - 1, maxLen)
      modifies this, buf, session
      ensures MarkMissing(old(State())) ==> ret == ERR_FMT && State() == AfterInit(old(State()))
      ensures !MarkMissing(old(State())) ==>
        var (p', wire) := Send(session.crypto, old(State()), payload, third);
        if |wire| <= maxLen then ret == |wire| && State() == p' && buf[..ret] == wire else ret == ERR_FMT
    {
      hide AfterInit, Assembled, Protect, WithCrc, SameButLength, Secured, HasScb, DataOffset, SealStays, Built,
          HeaderPlaced;
      ghost var p := State();
      var len := BuildPacket(payload, third, maxLen);
      if MarkMissing(p) {
        NotPlaced(p, len, buf[..]);
      } else {
        BuiltPlaced(session.crypto, p, buf[..], len, payload, third, maxLen);
      }
      ret := Finalize(len, maxLen);
    }

    /** The packet check: the CRC over everything after the mark, low octet first. */
    method AppendCrc(off: nat, n: nat)
      requires off + n + 2 <= buf.Length
      modifies buf
      ensures Bytes(off, n + 2) == WithCrc(old(Bytes(off, n)))
      ensures buf[..off] == old(buf[..off])
    {
      var crc := Crc16.ComputeCrc16(buf, off, n);
      buf[off + n] := Byte0(crc);
      buf[off + n + 1] := Byte1(crc);
    }

    /** The length, and in an open channel the encrypted data portion and the MAC. */
    method ProtectInPlace(off: nat, n: nat, room: nat) returns (ok: bool, n': nat)
      requires off <= 1 && 6 <= n <= room && off + room <= buf.Length == Config.PACKET_BUF_SIZE
      requires var u := Bytes(off, n);
        (HasScb(u[4]) ==> n >= 7) &&
        (Secured(scActive, u) ==> DataOffset(u) <= n && SealStays(off, u, off + room))
      modifies buf, session
      ensures var (keys, v) := Guard(session.crypto, old(session.State()), !pdMode, scActive, old(Bytes(off, n)));
        && (ok <==> |v| <= room)
        && (ok ==> n' == |v| && session.State() == keys && Bytes(off, n') == v)
      ensures buf[..off] == old(buf[..off])
    {
      hide EncryptPart, HasScb, WithLength, Sealed, Guard, Secured, DataOffset, SealStays, Bytes;
      ghost var keys, u := session.State(), Bytes(off, n);
      SetLength(off, n, n + 2);
      GuardPlan(session.crypto, keys, !pdMode, scActive, u, Bytes(off, n));
      ok, n' := true, n;
      var secure := CarriesMac(off, n);
      if secure {
        SealsAlike(off, u, Bytes(off, n), off + room);
        ok, n' := SealInPlace(off, n, room);
      }
    }

    /** The channel is open and the block says so. */
    method CarriesMac(off: nat, n: nat) returns (yes: bool)
      requires 6 <= n && off + n <= buf.Length && (HasScb(Bytes(off, n)[4]) ==> n >= 7)
      ensures yes == (scActive && HasScb(Bytes(off, n)[4]) && Bytes(off, n)[6] >= SCS_15)
    {
      yes := scActive && HasScb(buf[off + 4]) && buf[off + 6] >= SCS_15;
    }

    /** The secured case: encryption, the final length, the MAC. */
    method SealInPlace(off: nat, n: nat, room: nat) returns (ok: bool, n': nat)
      requires off <= 1 && 7 <= n <= room && off + room <= buf.Length == Config.PACKET_BUF_SIZE
      requires var u := Bytes(off, n); DataOffset(u) <= n && SealStays(off, u, off + room)
      modifies buf, session
      ensures var e := EncryptPart(session.crypto, old(session.State()), !pdMode, old(Bytes(off, n)));
              var (keys, v) := Sealed(session.crypto, old(session.State()), !pdMode, e);
        && (ok <==> |v| <= room)
        && (ok ==> n' == |v| && session.State() == keys && Bytes(off, n') == v)
      ensures buf[..off] == old(buf[..off])
    {
      hide EncryptPart, SC.WithMac, SentMac, WithLength, DataOffset, SealStays;
      ok, n' := EncryptPortion(off, n, room);
      if !ok || n' + 4 > room {
        return false, n';
      }
      SetLength(off, n', n' + 2 + 4);
      AppendMac(off, n');
      n' := n' + 4;
    }

    method SetLength(off: nat, ghost k: nat, n: nat)
      requires 5 <= k && off + k <= buf.Length
      modifies buf
      ensures Bytes(off, k) == WithLength(old(Bytes(off, k)), n)
      ensures buf[..off] == old(buf[..off])
    {
      buf[off + 2] := Byte0(n);
      buf[off + 3] := Byte1(n);
    }

    /** Only the data after the identifier is encrypted, and only in packets that
        carry some. */
    method EncryptPortion(off: nat, n: nat, room: nat) returns (ok: bool, n': nat)
      requires off <= 1 && 7 <= n <= room && off + room <= buf.Length == Config.PACKET_BUF_SIZE
      requires var u := Bytes(off, n); DataOffset(u) <= n && SealStays(off, u, off + room)
      modifies buf
      ensures var e := EncryptPart(session.crypto, session.State(), !pdMode, old(Bytes(off, n)));
        && (|e| <= room ==> ok)
        && (ok ==> n' == |e| && off + n' <= buf.Length && Bytes(off, n') == e)
      ensures buf[..off] == old(buf[..off])
    {
      hide SC.EncryptData, SC.PadLen, EncryptPart;
      ghost var u := Bytes(off, n);
      EncryptCases(session.crypto, session.State(), !pdMode, u);
      ok, n' := true, n;
      if buf[off + 6] == SCS_17 || buf[off + 6] == SCS_18 {
        var block: nat := buf[off + 5];
        var data := 5 + block + 1;
        if SC.PadLen(n - data + 1) > room {
          return false, n;
        }
        n' := EncryptAt(off, n, data);
      }
    }

    /** Everything from `data` on encrypted in place. */
    method EncryptAt(off: nat, n: nat, data: nat) returns (n': nat)
      requires data <= n && off + n <= buf.Length && off + data + SC.PadLen(n - data + 1) <= buf.Length
      modifies buf
      ensures n' == data + SC.PadLen(n - data + 1) && buf[..off] == old(buf[..off])
      ensures var u := old(Bytes(off, n));
        Bytes(off, n') == u[..data] + SC.EncryptData(session.crypto, session.State(), !pdMode, u[data..])
    {
      hide SC.EncryptData, SC.PadLen;
      ghost var s, u := buf[..], Bytes(off, n);
      SliceOfSlice(s, off, n, data, n);
      assert buf[off + data..off + n] == u[data..];
      ghost var text := SC.EncryptData(session.crypto, session.State(), !pdMode, u[data..]);
      var padLen := session.EncryptInPlace(!pdMode, buf, off + data, n - data);
      n' := data + padLen;
      assert buf[..][..off + data] == s[..off + data];
      assert buf[..][off + data..off + n'] == text;
      Joined(s, buf[..], off, data, n, n', text);
    }

    method AppendMac(off: nat, n: nat)
      requires 0 < n && off + n + 4 <= buf.Length == Config.PACKET_BUF_SIZE
      modifies buf, session
      ensures var keys := SC.WithMac(session.crypto, old(session.State()), !pdMode, old(Bytes(off, n)));
        && session.State() == keys
        && Bytes(off, n + 4) == old(Bytes(off, n)) + SentMac(keys, !pdMode)[..4]
      ensures buf[..off] == old(buf[..off])
    {
      hide SC.WithMac, SC.PadLen;
      session.ComputeMac(!pdMode, buf, off, n);
      var mac := if !pdMode then session.cMac else session.rMac;
      forall i | 0 <= i < 4 {
        buf[off + n + i] := mac[i];
      }
    }

    /** osdp_phy_packet_finalize: checks on the header, the length, then
        encryption and MAC in an open channel, then the CRC. */
    method Finalize(len: nat, maxLen: nat) returns (ret: int)
      requires buf.Length == Config.PACKET_BUF_SIZE && len <= maxLen <= buf.Length
      requires len <= 5 || 5 + |MarkOf(State())| < len
      requires HeaderPlaced(State(), len, buf[..]) ==>
        var u := Bytes(|MarkOf(State())|, len - |MarkOf(State())|);
        (HasScb(u[4]) ==> |u| >= 7) &&
        (Secured(scActive, u) ==> DataOffset(u) <= |u| && SealStays(|MarkOf(State())|, u, maxLen))
      modifies buf, session
      ensures !HeaderPlaced(old(State()), len, old(buf[..])) ==> ret == ERR_FMT && State() == old(State())
      ensures HeaderPlaced(old(State()), len, old(buf[..])) ==>
        var p, u := old(State()), old(Bytes(|MarkOf(State())|, len - |MarkOf(State())|));
              var (p', v) := Protect(session.crypto, p, u);
              var wire := MarkOf(p) + WithCrc(v);
        if |wire| <= maxLen then ret == |wire| && State() == p' && buf[..ret] == wire else ret == ERR_FMT
    {
      hide Protect, WithCrc, Secured, DataOffset, SealStays, HasScb;
      if len <= 5 || (hasMark && buf[0] != MARK) {
        return ERR_FMT;
      }
      var off := if hasMark then 1 else 0;
      if buf[off] != SOM {
        return ERR_FMT;
      }
      assert buf[..off] == MarkOf(State());
      ret := Close(off, len - off, maxLen - off);
    }

    /** The packet of n octets at off protected and given its CRC, if it fits. */
    method Close(off: nat, n: nat, room: nat) returns (ret: int)
      requires off <= 1 && 6 <= n <= room && off + room <= buf.Length == Config.PACKET_BUF_SIZE
      requires var u := Bytes(off, n);
        (HasScb(u[4]) ==> n >= 7) &&
        (Secured(scActive, u) ==> DataOffset(u) <= n && SealStays(off, u, off + room))
      modifies buf, session
      ensures var (p', v) := Protect(session.crypto, old(State()), old(Bytes(off, n)));
        if |v| + 2 <= room then
          ret == off + |v| + 2 && State() == p' && buf[..ret] == old(buf[..off]) + WithCrc(v)
        else ret == ERR_FMT
    {
      hide Protect, Guard, WithCrc, Secured, DataOffset, SealStays, HasScb;
      ProtectIsGuard(session.crypto, State(), Bytes(off, n));
      var ok, k := ProtectInPlace(off, n, room);
      if !ok || k + 2 > room {
        return ERR_FMT;
      }
      AppendCrc(off, k);
      assert buf[..off + k + 2] == buf[..off] + Bytes(off, k + 2);
      return off + k + 2;
    }

    // ----- Receiving -----

    /** osdp_compute_checksum */
    method ComputeChecksum(off: nat, length: nat) returns (checksum: uint8)
      requires off + length <= buf.Length
      ensures checksum == Checksum(buf[off..off + length])
    {
      ghost var msg := buf[off..off + length];
      var whole: nat := 0;
      checksum := 0;
      assert msg[..0] == [];
      for i := 0 to length
        invariant whole == Sum(msg[..i]) && checksum == Checksum(msg[..i])
      {
        assert msg[..i + 1][..i] == msg[..i];
        whole := whole + buf[off + i];
        checksum := (255 - whole % 256 + 1) % 256;
      }
      assert msg[..length] == msg;
    }

    /** The part of phy_check_packet before the address: CRC or checksum. */
    method CheckMatchesInPlace(off: nat, n: nat) returns (ok: bool)
      requires 6 <= n && off + n <= buf.Length
      ensures ok == CheckMatches(Bytes(off, n))
    {
      ghost var u := Bytes(off, n);
      if HasCrc(buf[off + 4]) {
        var cur := Le16(buf[off + n - 2], buf[off + n - 1]);
        var comp := Crc16.ComputeCrc16(buf, off, n - 2);
        SliceOfSlice(buf[..], off, n, 0, n - 2);
        ok := comp == cur;
      } else {
        var comp := ComputeChecksum(off, n - 1);
        SliceOfSlice(buf[..], off, n, 0, n - 1);
        ok := comp == buf[off + n - 1];
      }
    }

    /** phy_check_packet on the pktLen octets in the buffer. */
    method CheckPacket(pktLen: nat) returns (result: Checked)
      requires |MarkOf(State())| + 6 <= pktLen <= buf.Length
      modifies this
      ensures (State(), result) == Check(old(State()), Bytes(|MarkOf(old(State()))|, pktLen - |MarkOf(old(State()))|))
    {
      hide CheckMatches, CheckHeader;
      var off := if hasMark then 1 else 0;
      var n := pktLen - off;
      ghost var u := Bytes(off, n);
      assert u[1] == buf[off + 1] && u[4] == buf[off + 4] && u[5] == buf[off + 5];
      var ok := CheckMatchesInPlace(off, n);
      if !ok {
        return Malformed;
      }
      var busy := (if HasCrc(buf[off + 4]) then n - 2 else n - 1) == 6 && buf[off + 5] == REPLY_BUSY;
      ghost var p := State();
      assert Check(p, u) == CheckHeader(p, u[1] % 128, Sqn(u[4]), busy);
      result := TakeHeader(buf[off + 1] % 128, Sqn(buf[off + 4]), busy);
      assert (State(), result) == CheckHeader(p, u[1] % 128, Sqn(u[4]), busy);
      assert off == |MarkOf(p)|;
      assert u == Bytes(off, n);
    }

    /** The checks on address and sequence number. */
    method TakeHeader(pdAddr: nat, comp: nat, busy: bool) returns (result: Checked)
      modifies this
      ensures (State(), result) == CheckHeader(old(State()), pdAddr, comp, busy)
    {
      hide CheckSequence;
      if pdAddr != address && pdAddr != BROADCAST {
        return if pdMode then NotOurs else Foreign;
      }
      if pdMode {
        TakeCommandNumber(comp);
        if pdAddr == BROADCAST {
          broadcast := true;
        }
      } else if comp == 0 {
        if busy {
          seqNumber := seqNumber - 1;
          return Busy;
        }
      }
      result := MatchNumber(comp);
    }

    method TakeCommandNumber(comp: nat)
      modifies this
      ensures State() == CommandSequence(old(State()), comp)
    {
      if comp == 0 {
        seqNumber := -1;
        scActive := false;
      } else if comp == seqNumber {
        seqNumber := seqNumber - 1;
      }
    }

    method MatchNumber(comp: nat) returns (result: Checked)
      modifies this
      ensures (State(), result) == CheckSequence(old(State()), comp)
    {
      hide NextSeq;
      var cur := GetSeqNumber(pdMode);
      if cur != comp && !skipSeqCheck {
        replyId, nakCode := REPLY_NAK, NAK_SEQ_NUM;
        return WrongSequence;
      }
      return Accepted;
    }

    // ----- Decoding -----

    /** osdp_phy_decode_packet: where the payload starts in the buffer and how long
        it is, or the code of the NAK to send. */
    method DecodePacket(bufLen: nat) returns (ret: int, start: nat)
      requires |MarkOf(State())| < bufLen <= buf.Length == Config.PACKET_BUF_SIZE
      requires WellLaidOut(State(), Bytes(|MarkOf(State())|, bufLen - |MarkOf(State())|))
      modifies this, buf, session
      ensures var (p', decoded) :=
        Decode(session.crypto, old(State()), old(Bytes(|MarkOf(State())|, bufLen - |MarkOf(State())|)));
        State() == p' && Found(decoded, ret, start, buf[..], nakCode)
    {
      hide Decode, Found, WellLaidOut;
      var off := if hasMark then 1 else 0;
      var t := bufLen - off;
      LaidOut(State(), Bytes(off, t));
      var n := if HasCrc(buf[off + 4]) then t - 2 else t - 1;
      if HasScb(buf[off + 4]) {
        ret, start := DecodeBlockInPlace(off, n, t);
      } else {
        start := off + 5;
        ret := DecodePlainInPlace(off, n, t);
      }
    }

    /** A packet with a security block. */
    method DecodeBlockInPlace(off: nat, n: nat, ghost t: nat) returns (ret: int, start: nat)
      requires 8 <= n < t && off + t <= buf.Length == Config.PACKET_BUF_SIZE && n == BodyLength(Bytes(off, t))
      requires WellLaidOut(State(), Bytes(off, t)) && HasScb(buf[off + 4])
      modifies this, buf, session
      ensures var (p', decoded) := Decode(session.crypto, old(State()), old(Bytes(off, t)));
        State() == p' && Found(decoded, ret, start, buf[..], nakCode)
    {
      hide Decode, WellLaidOut, AfterBlock, KeyChoice, HasScb, BlockError, Found;
      BlockLaidOut(State(), Bytes(off, t));
      BlockCases(session.crypto, State(), Bytes(off, t));
      var code := CheckBlock(buf[off + 6]);
      if code == 0 {
        TakeKeyChoice(off);
        ret, start := DecodeRest(off, n, t);
      } else {
        start := off + 5;
        ret := Refuse(code);
        RefusedFound(State(), code, ret, start, buf[..]);
      }
    }

    /** The checks on the type of the security block: 0, or the code of the NAK. */
    method CheckBlock(blockType: uint8) returns (code: uint8)
      ensures code == BlockError(State(), blockType)
    {
      if pdMode && !scCapable {
        return NAK_SC_UNSUP;
      }
      if blockType < SCS_11 || blockType > SCS_18 {
        return NAK_SC_COND;
      }
      if !scActive && blockType > SCS_14 {
        return NAK_SC_COND;
      }
      return 0;
    }

    /** The panel names SCBK-D; a device in install mode follows. */
    method TakeKeyChoice(off: nat)
      requires off + 8 <= buf.Length
      modifies this`useScbkd
      ensures State() == KeyChoice(old(State()), buf[off + 6], buf[off + 7])
    {
      if (buf[off + 6] == SCS_11 || buf[off + 6] == SCS_13) && installMode && buf[off + 7] == 0 {
        useScbkd := true;
      }
    }

    /** Behind the block: secured, or in the clear. */
    method DecodeRest(off: nat, n: nat, ghost t: nat) returns (ret: int, start: nat)
      requires 8 <= n < t && off + t <= buf.Length == Config.PACKET_BUF_SIZE && n == BodyLength(Bytes(off, t))
      requires WellLaidOut(State(), Bytes(off, t)) && HasScb(buf[off + 4])
      modifies this, buf, session
      ensures var (p', decoded) := AfterBlock(session.crypto, old(State()), old(Bytes(off, t)));
        State() == p' && Found(decoded, ret, start, buf[..], nakCode)
    {
      hide WellLaidOut, SC.DecryptData, DecodeSecured, HasScb;
      BlockLaidOut(State(), Bytes(off, t));
      var block: nat := buf[off + 5];
      start := off + 5 + block;
      if scActive && buf[off + 6] >= SCS_15 {
        SecuredHere(State(), Bytes(off, t));
        ret := DecodeSecuredInPlace(off, n, t, start);
      } else {
        ret := n - (5 + block);
        SliceOfSlice(buf[..], off, t, 5 + block, n);
      }
    }

    method DecodePlainInPlace(off: nat, n: nat, ghost t: nat) returns (ret: int)
      requires 6 <= n < t && off + t <= buf.Length && n == BodyLength(Bytes(off, t))
      requires WellLaidOut(State(), Bytes(off, t)) && !HasScb(buf[off + 4])
      modifies this`replyId, this`nakCode
      ensures var (p', decoded) := Decode(session.crypto, old(State()), old(Bytes(off, t)));
        State() == p' && Found(decoded, ret, off + 5, buf[..], nakCode)
    {
      hide SC.DecryptData, DecodeSecured;
      SliceOfSlice(buf[..], off, t, 5, n);
      if scActive && !(!pdMode && ((cmdId == CMD_KEYSET && buf[off + 5] == REPLY_ACK) || buf[off + 5] == REPLY_NAK)) {
        ret := Refuse(NAK_SC_COND);
      } else {
        ret := n - 5;
      }
    }

    method Refuse(code: uint8) returns (ret: int)
      modifies this`replyId, this`nakCode
      ensures State() == Refused(old(State()), code).0 && ret == ERR_NACK
    {
      replyId, nakCode := REPLY_NAK, code;
      ret := ERR_NACK;
    }

    /** The MAC over everything before it; the new MAC becomes this direction's last. */
    method VerifyMac(off: nat, n: nat) returns (ok: bool)
      requires 6 <= n && off + n <= buf.Length == Config.PACKET_BUF_SIZE
      modifies session
      ensures var u := Bytes(off, n);
              var keys := SC.WithMac(session.crypto, old(session.State()), pdMode, u[..n - 4]);
        && session.State() == keys
        && (ok <==> u[n - 4..] == SentMac(keys, pdMode)[..4])
    {
      hide SC.WithMac, SC.PadLen;
      ghost var u := Bytes(off, n);
      assert u[..n - 4] == buf[off..off + (n - 4)];
      session.ComputeMac(pdMode, buf, off, n - 4);
      var mac := if pdMode then session.cMac else session.rMac;
      assert u[n - 4..] == buf[off + n - 4..off + n];
      ok := buf[off + n - 4..off + n] == mac[..4];
    }

    /** The data after the identifier at `start`, decrypted where it stands; something
        before it is not zero. */
    method DecryptPortion(start: nat, len: nat) returns (ret: int)
      requires 1 <= len && start + len <= buf.Length
      requires exists i :: 0 <= i <= start && buf[i] != 0
      modifies buf
      ensures var id, data := old(buf[start]), old(buf[start + 1..start + len]);
        match SC.DecryptData(session.crypto, session.State(), pdMode, allowEmpty, data) {
          case None => ret == -1
          case Some(plain) => ret == 1 + |plain| && start + ret <= buf.Length && buf[start..start + ret] == [id] + plain
        }
    {
      hide SC.DecryptData;
      ret := session.DecryptInPlace(pdMode, allowEmpty, buf, start + 1, len - 1);
      if len == 1 && !allowEmpty {
        session.NothingDecrypted(pdMode, allowEmpty);
      } else {
        assert buf[start] == buf[..start + 1][start];
      }
      if ret < 0 {
        ret := -1;
      } else {
        ret := ret + 1;
        assert buf[start..start + ret] == [buf[start]] + buf[start + 1..start + ret];
      }
    }

    method DecodeSecuredInPlace(off: nat, n: nat, ghost t: nat, start: nat) returns (ret: int)
      requires 6 <= n < t && off + t <= buf.Length == Config.PACKET_BUF_SIZE && n == BodyLength(Bytes(off, t))
      requires WellLaidOut(State(), Bytes(off, t)) && Secured(scActive, Bytes(off, t))
      requires start == off + 5 + Bytes(off, t)[5]
      modifies this, buf, session
      ensures var (p', decoded) := DecodeSecured(session.crypto, old(State()), old(Bytes(off, t)));
        State() == p' && Found(decoded, ret, start, buf[..], nakCode)
    {
      hide SC.DecryptData, SC.WithMac, SentMac, DecodeSecured, WellLaidOut, Secured, AfterMac, Authentic, DecodedPart;
      SecuredLayout(State(), Bytes(off, t));
      SecuredCases(session.crypto, State(), Bytes(off, t));
      ret := VerifyAndRead(off, n, t, start);
      if ret < 0 {
        ret := Discard();
      }
    }

    /** The MAC first, then the data portion; -1 when either is wrong. */
    method VerifyAndRead(off: nat, n: nat, ghost t: nat, start: nat) returns (ret: int)
      requires 8 <= n < t && off + t <= buf.Length == Config.PACKET_BUF_SIZE && n == BodyLength(Bytes(off, t))
      requires var u := Bytes(off, t);
        off + 7 <= start == off + DataOffset(u) - 1 && start < off + n - 4
      modifies buf, session
      ensures State() == AfterMac(session.crypto, old(State()), old(Bytes(off, t)))
      ensures Read(session.crypto, State(), old(Bytes(off, t)), ret, start, buf[..])
    {
      hide SC.DecryptData, SC.WithMac, SentMac, DecodedPart;
      ghost var u := Bytes(off, t);
      SlicesOfBytes(buf[..], off, n, t, start - off);
      var ok := VerifyMac(off, n);
      if !ok {
        return -1;
      }
      ret := DataInPlace(off, n, t, start);
    }

    /** A wrong MAC or a data portion that cannot be decrypted closes the channel. */
    method Discard() returns (ret: int)
      modifies this`scActive, this`replyId, this`nakCode
      ensures State() == Refused(old(State()).(scActive := false), NAK_SC_COND).0 && ret == ERR_NACK
    {
      scActive := false;
      ret := Refuse(NAK_SC_COND);
    }

    /** The payload of a packet whose MAC was right: decrypted if it was encrypted. */
    method DataInPlace(off: nat, n: nat, ghost t: nat, start: nat) returns (ret: int)
      requires 6 <= n < t && off + t <= buf.Length && n == BodyLength(Bytes(off, t))
      requires var u := Bytes(off, t);
        off + 7 <= start == off + DataOffset(u) - 1 && start < off + n - 4
      modifies buf
      ensures match DecodedPart(session.crypto, State(), old(Bytes(off, t))) {
          case None => ret == -1
          case Some(bytes) => ret == |bytes| && start + ret <= buf.Length && buf[start..start + ret] == bytes
        }
    {
      hide SC.DecryptData;
      SlicesOfBytes(buf[..], off, n, t, start - off);
      ret := off + n - 4 - start;
      if buf[off + 6] == SCS_17 || buf[off + 6] == SCS_18 {
        ret := DecryptPortion(start, ret);
      }
    }
  }

  /** The payload between the block and the MAC, as state p reads it. */
  function DecodedPart(c: Cipher, p: Peer, u: seq<uint8>): Option<seq<uint8>>
    requires |u| >= 7 && BodyLength(u) >= 8 && DataOffset(u) + 4 <= BodyLength(u)
  {
    var m: nat, b := BodyLength(u) - 4, DataOffset(u) - 1;
    if Encrypted(u) then
      match SC.DecryptData(c, p.keys, p.pdMode, p.allowEmpty, u[b + 1..m])
      case None => None
      case Some(plain) => Some([u[b]] + plain)
    else Some(u[b..m])
  }

  lemma SecuredLayout(p: Peer, u: seq<uint8>)
    requires WellLaidOut(p, u) && Secured(p.scActive, u)
    ensures |u| >= 7 && BodyLength(u) >= 8 && 8 <= DataOffset(u) <= BodyLength(u) - 4
  {
  }

  /** The state once the MAC has been computed. */
  function AfterMac(c: Cipher, p: Peer, u: seq<uint8>): Peer
    requires |u| >= 7 && BodyLength(u) >= 5
  {
    p.(keys := SC.WithMac(c, p.keys, p.pdMode, u[..BodyLength(u) - 4]))
  }

  /** The four octets before the CRC are those of the MAC. */
  ghost predicate Authentic(p: Peer, u: seq<uint8>)
    requires |u| >= 7 && BodyLength(u) >= 4
  {
    u[BodyLength(u) - 4..BodyLength(u)] == SentMac(p.keys, p.pdMode)[..4]
  }

  /** What a method that checked the MAC of u and read its payload has left in s. */
  ghost predicate Read(c: Cipher, p: Peer, u: seq<uint8>, ret: int, start: nat, s: seq<uint8>)
    requires |u| >= 7 && BodyLength(u) >= 8 && DataOffset(u) + 4 <= BodyLength(u)
  {
    if !Authentic(p, u) then ret == -1
    else match DecodedPart(c, p, u)
      case None => ret == -1
      case Some(bytes) => ret == |bytes| && start + ret <= |s| && s[start..start + ret] == bytes
  }

  /** The ways through the decoding of a packet with a MAC. */
  lemma SecuredCases(c: Cipher, p: Peer, u: seq<uint8>)
    requires WellLaidOut(p, u) && Secured(p.scActive, u)
    ensures |u| >= 7 && BodyLength(u) >= 8 && DataOffset(u) + 4 <= BodyLength(u)
    ensures var p1 := AfterMac(c, p, u);
            var closed := Refused(p1.(scActive := false), NAK_SC_COND);
            var d := DecodeSecured(c, p, u);
      if !Authentic(p1, u) then d == closed
      else match DecodedPart(c, p1, u) {
        case None => d == closed
        case Some(bytes) => d == (p1, Payload(bytes))
      }
  {
    hide SC.DecryptData, SC.WithMac, SentMac;
    SecuredLayout(p, u);
  }

  function KeyChoice(p: Peer, blockType: uint8, third: uint8): Peer {
    p.(useScbkd := p.useScbkd || ((blockType == SCS_11 || blockType == SCS_13) && p.installMode && third == 0))
  }

  function AfterBlock(c: Cipher, p: Peer, u: seq<uint8>): (Peer, Decoded)
    requires WellLaidOut(p, u) && HasScb(u[4])
  {
    if Secured(p.scActive, u) then DecodeSecured(c, p, u) else (p, Payload(u[DataOffset(u) - 1..BodyLength(u)]))
  }

  function BlockError(p: Peer, blockType: uint8): uint8 {
    if p.pdMode && !p.scCapable then NAK_SC_UNSUP
    else if blockType < SCS_11 || blockType > SCS_18 || (!p.scActive && blockType > SCS_14) then NAK_SC_COND
    else 0
  }

  lemma RefusedFound(p: Peer, code: uint8, ret: int, start: nat, s: seq<uint8>)
    requires ret == ERR_NACK && p.nakCode == code
    ensures Found(Nak(code), ret, start, s, p.nakCode)
  {
  }

  lemma LaidOut(p: Peer, u: seq<uint8>)
    requires WellLaidOut(p, u)
    ensures |u| >= 7 && BodyLength(u) >= 6 && (HasScb(u[4]) ==> BodyLength(u) >= 8)
  {
  }

  lemma BlockLaidOut(p: Peer, u: seq<uint8>)
    requires WellLaidOut(p, u) && HasScb(u[4])
    ensures |u| >= 9 && BodyLength(u) >= 8 && DataOffset(u) <= BodyLength(u)
  {
  }

  lemma SecuredHere(p: Peer, u: seq<uint8>)
    requires |u| >= 9 && HasScb(u[4]) && p.scActive && u[6] >= SCS_15
    ensures Secured(p.scActive, u)
  {
  }

  /** The ways through the decoding of a packet with a security block. */
  lemma BlockCases(c: Cipher, p: Peer, u: seq<uint8>)
    requires WellLaidOut(p, u) && HasScb(u[4])
    ensures var d := Decode(c, p, u);
            var p1 := KeyChoice(p, u[6], u[7]);
      if BlockError(p, u[6]) != 0 then d == Refused(p, BlockError(p, u[6]))
      else WellLaidOut(p1, u) && d == AfterBlock(c, p1, u)
  {
    hide SC.DecryptData, SC.WithMac;
  }

  /** Where a method left the payload, or which NAK it left. */
  ghost predicate Found(d: Decoded, ret: int, start: nat, s: seq<uint8>, code: uint8) {
    match d
    case Payload(bytes) => ret == |bytes| && start + ret <= |s| && s[start..start + ret] == bytes
    case Nak(nak) => ret == ERR_NACK && code == nak
  }

  /** The same parts of a packet seen in the packet and in the buffer; n counts up
      to the packet check, b is where the payload starts. */
  lemma SlicesOfBytes(s: seq<uint8>, off: nat, n: nat, t: nat, b: nat)
    requires off + t <= |s| && 7 <= n <= t && b + 4 <= n
    ensures var u, v := s[off..off + t], s[off..off + n];
      && u[..n - 4] == v[..n - 4] && u[n - 4..n] == v[n - 4..]
      && u[b..n - 4] == s[off + b..off + n - 4]
      && (b + 5 <= n ==> u[b + 1..n - 4] == s[off + b + 1..off + n - 4] && u[b] == s[off + b])
      && u[6] == s[off + 6]
  {
    var u, v := s[off..off + t], s[off..off + n];
    assert u[..n] == v && u == s[off..off + t];
    SliceOfSlice(s, off, t, b, n - 4);
    if b + 5 <= n {
      SliceOfSlice(s, off, t, b + 1, n - 4);
    }
    assert u[..n - 4] == u[..n][..n - 4];
    assert u[n - 4..n] == u[..n][n - 4..];
  }

  /** The header that osdp_phy_packet_finalize expects to find. */
  ghost predicate HeaderPlaced(p: Peer, len: nat, s: seq<uint8>)
    requires |s| >= 2
  {
    len > 5 && (p.hasMark ==> s[0] == MARK) && s[|MarkOf(p)|] == SOM
  }

  /** Data of n octets is padded behind a mark of m octets, header, block and identifier
      only if the padding ends inside the buffer. */
  predicate PaddingStays(m: nat, n: nat, maxLen: nat) {
    m + SC.PadLen(n + 1) <= maxLen ==> m + 8 + SC.PadLen(n + 1) <= Config.PACKET_BUF_SIZE
  }

  /** The test on the room lets exactly these packets out of the buffer: no mark, the
      whole buffer to fill, and 240 octets of data or more. */
  lemma PaddingLimit(m: nat, n: nat, maxLen: nat)
    requires m <= 1 && m + 8 + n <= maxLen <= Config.PACKET_BUF_SIZE
    ensures PaddingStays(m, n, maxLen) <==> m == 1 || maxLen < Config.PACKET_BUF_SIZE || n < 240
  {
    assert SC.PadLen(n + 1) == (n + 16) / 16 * 16;
  }

  /** The same of a packet u at m, wherever its data starts. */
  predicate SealStays(m: nat, u: seq<uint8>, maxLen: nat)
    requires |u| >= 7 && DataOffset(u) <= |u|
  {
    var padLen := SC.PadLen(|u| - DataOffset(u) + 1);
    Encrypted(u) && m + padLen <= maxLen ==> m + DataOffset(u) + padLen <= Config.PACKET_BUF_SIZE
  }

  /** The mark stays missing over any number of attempts: only a packet received without
      one takes the flag away. */
  lemma {:induction false} MarkStaysMissing(p: Peer, attempts: nat)
    requires MarkMissing(p)
    ensures MarkMissing(AfterAttempts(p, attempts))
    decreases attempts
  {
    if attempts > 0 {
      MarkStaysMissing(AfterInit(p), attempts - 1);
    }
  }

  function AfterAttempts(p: Peer, attempts: nat): Peer
    decreases attempts
  {
    if attempts == 0 then p else AfterAttempts(AfterInit(p), attempts - 1)
  }

  /** A panel that skips the mark polls: with a mark noted the poll does not go out, and
      without one it does, in eight octets. */
  method SkippingPanelExample(session: SC.Session) returns (marked: int, unmarked: int)
    modifies session
    ensures marked == ERR_FMT && unmarked == 8
  {
    hide Send, PaddingStays;
    var panel := new Device(session, false, 1);
    panel.skipMark, panel.cmdId, panel.hasMark := true, CMD_POLL, true;
    marked := panel.SendPacket([CMD_POLL], 0, Config.PACKET_BUF_SIZE);
    panel.hasMark, panel.scActive, panel.cmdId := false, false, CMD_POLL;
    ghost var p := panel.State();
    PollLength(session.crypto, p);
    unmarked := panel.SendPacket([CMD_POLL], 0, Config.PACKET_BUF_SIZE);
  }

  lemma PollLength(c: Cipher, p: Peer)
    requires !p.pdMode && p.skipMark && !p.hasMark && !p.scActive
    ensures |Send(c, p, [CMD_POLL], 0).1| == 8
  {
  }
}
