/** A control panel and a peripheral device joined by a byte stream: what stays
    in step over every run of delivered commands and replies. */
module Link {
  import opened Bytes
  import opened Codes
  import opened BlockCipher
  import SC = SecureChannel
  import opened Phy
  import opened Packet

  /** Between exchanges: the panel may send any command. A panel whose counter was
      reset starts over without a channel, whatever the device still holds. */
  ghost predicate InSync(cp: Peer, pd: Peer) {
    && !cp.pdMode && pd.pdMode
    && cp.address == pd.address < BROADCAST && !pd.broadcast
    && (cp.skipMark ==> !cp.hasMark)
    && -1 <= cp.seqNumber <= 3 && -1 <= pd.seqNumber <= 3
    && (if cp.seqNumber == -1 then !cp.scActive
        else cp.seqNumber == pd.seqNumber && cp.scActive == pd.scActive)
    && (cp.scActive ==> pd.scCapable && SameSession(cp.keys, pd.keys))
  }

  /** The device has taken the command and owes a reply. */
  ghost predicate InExchange(cp: Peer, pd: Peer) {
    && !cp.pdMode && pd.pdMode
    && cp.address == pd.address < BROADCAST
    && (cp.skipMark ==> !cp.hasMark)
    && 0 <= cp.seqNumber == pd.seqNumber <= 3
    && cp.scActive == pd.scActive
    && (cp.scActive ==> pd.scCapable && SameSession(cp.keys, pd.keys))
  }

  // ----- The header and sequence checks -----

  lemma NextSeqCycle(s: int)
    requires -1 <= s <= 3
    ensures 0 <= NextSeq(s) <= 3 && NextSeq(s) != s && (NextSeq(s) == 0 <==> s == -1)
    ensures NextSeq(NextSeq(s) - 1) == NextSeq(s)
  {
  }

  /** The panel's counter is -1 after a reset or agrees with the device's. */
  ghost predicate Consecutive(cp: Peer, pd: Peer) {
    && -1 <= cp.seqNumber <= 3 && (cp.seqNumber == -1 || cp.seqNumber == pd.seqNumber)
  }

  /** The device's state once it has accepted a command's header. */
  function CommandTaken(cp: Peer, pd: Peer): Peer {
    pd.(seqNumber := NextSeq(cp.seqNumber),
        scActive := pd.scActive && cp.seqNumber != -1,
        broadcast := pd.broadcast || cp.broadcast)
  }

  lemma AddressIn(p: Peer)
    requires p.address < BROADCAST
    ensures AddressOctet(p) % 128 == if p.broadcast then BROADCAST else p.address
  {
  }

  lemma SequenceTaken(p: Peer, s: int)
    requires p.pdMode && 0 <= s <= 3 && NextSeq(p.seqNumber) == s
    ensures CheckSequence(p, s) == (p.(seqNumber := s), Accepted)
  {
    assert s % 4 == s;
  }

  lemma Addressed(pd: Peer, address: nat, s: nat, busy: bool)
    requires pd.pdMode && (address == pd.address || address == BROADCAST)
    ensures CheckHeader(pd, address, s, busy) ==
            CheckSequence(CommandSequence(pd, s).(broadcast := pd.broadcast || address == BROADCAST), s)
  {
  }

  lemma Stepping(pd: Peer, s: int, broadcast: bool)
    requires pd.pdMode
    requires 0 <= s <= 3 && (s == 0 || s == NextSeq(pd.seqNumber) || s == pd.seqNumber)
    ensures CheckSequence(CommandSequence(pd, s).(broadcast := broadcast), s) ==
            (pd.(seqNumber := s, scActive := pd.scActive && s != 0, broadcast := broadcast), Accepted)
  {
    SequenceTaken(CommandSequence(pd, s).(broadcast := broadcast), s);
  }

  lemma CommandHeader(cp: Peer, pd: Peer, busy: bool)
    requires !cp.pdMode && pd.pdMode && cp.address == pd.address < BROADCAST
    requires Consecutive(cp, pd)
    ensures CheckHeader(pd, AddressOctet(cp) % 128, NextSeq(cp.seqNumber), busy) == (CommandTaken(cp, pd), Accepted)
  {
    AddressIn(cp);
    NextSeqCycle(cp.seqNumber);
    Addressed(pd, AddressOctet(cp) % 128, NextSeq(cp.seqNumber), busy);
    Stepping(pd, NextSeq(cp.seqNumber), pd.broadcast || cp.broadcast);
  }

  /** A repeated command keeps its number: the device takes it again and ends with
      the same counter. A repeated 0 restarts it once more. */
  lemma RepeatAccepted(cp: Peer, pd: Peer, busy: bool)
    requires !cp.pdMode && pd.pdMode && cp.address == pd.address < BROADCAST
    requires -1 <= cp.seqNumber <= 3 && pd.seqNumber == NextSeq(cp.seqNumber)
    ensures CheckHeader(pd, AddressOctet(cp) % 128, NextSeq(cp.seqNumber), busy) == (CommandTaken(cp, pd), Accepted)
    ensures CommandTaken(cp, pd).seqNumber == pd.seqNumber
  {
    AddressIn(cp);
    NextSeqCycle(cp.seqNumber);
    Addressed(pd, AddressOctet(cp) % 128, NextSeq(cp.seqNumber), busy);
    Stepping(pd, NextSeq(cp.seqNumber), pd.broadcast || cp.broadcast);
  }

  /** Any other number is refused, unless the check is switched off, with the
      sequence error of the standard. */
  lemma OutOfStepRefused(pd: Peer, sqn: nat, address: nat, busy: bool)
    requires pd.pdMode && address == pd.address && -1 <= pd.seqNumber <= 3 && sqn <= 3
    ensures var (pd', checked) := CheckHeader(pd, address, sqn, busy);
      && (checked == Accepted <==> sqn == 0 || sqn == pd.seqNumber || sqn == NextSeq(pd.seqNumber) || pd.skipSeqCheck)
      && (checked != Accepted ==> checked == WrongSequence && pd'.replyId == REPLY_NAK && pd'.nakCode == NAK_SEQ_NUM)
      && 0 <= pd'.seqNumber <= 3
  {
  }

  lemma ReplyHeader(cp: Peer, pd: Peer)
    requires !cp.pdMode && pd.pdMode && cp.address == pd.address < BROADCAST
    requires 0 <= cp.seqNumber == pd.seqNumber <= 3
    ensures CheckHeader(cp, AddressOctet(pd) % 128, pd.seqNumber, false) == (cp, Accepted)
  {
  }

  /** A busy reply takes the panel's counter back, so the command goes out again
      under the number it had. */
  lemma BusyResendsSameNumber(cp: Peer, address: nat)
    requires !cp.pdMode && -1 <= cp.seqNumber <= 3
    requires address == cp.address || address == BROADCAST
    ensures var (cp', checked) := CheckHeader(AfterInit(cp), address, 0, true);
      checked == Busy && AfterInit(cp').seqNumber == AfterInit(cp).seqNumber
  {
    NextSeqCycle(cp.seqNumber);
  }

  lemma CheckOf(tx: Peer, rx: Peer, f: seq<uint8>, id: uint8)
    requires Checks(f, tx, id) && CheckMatches(f) && (id == REPLY_BUSY ==> rx.pdMode)
    requires 0 <= AfterInit(tx).seqNumber <= 3
    ensures Check(rx, f) == CheckHeader(rx, AddressOctet(tx) % 128, AfterInit(tx).seqNumber, false)
         || (rx.pdMode && Check(rx, f) == CheckHeader(rx, AddressOctet(tx) % 128, AfterInit(tx).seqNumber, true))
  {
    hide CheckHeader, CheckMatches, AddressOctet;
    var busy := BodyLength(f) == 6 && f[5] == REPLY_BUSY;
    assert Check(rx, f) == CheckHeader(rx, AddressOctet(tx) % 128, AfterInit(tx).seqNumber, busy);
  }

  lemma CommandChecked(cp: Peer, pd: Peer, f: seq<uint8>, id: uint8)
    requires !cp.pdMode && pd.pdMode && cp.address == pd.address < BROADCAST
    requires Consecutive(cp, pd) && Checks(f, cp, id) && CheckMatches(f)
    ensures Check(pd, f) == (CommandTaken(cp, pd), Accepted)
  {
    NextSeqCycle(cp.seqNumber);
    CheckOf(cp, pd, f, id);
    CommandHeader(cp, pd, true);
    CommandHeader(cp, pd, false);
  }

  lemma ReplyChecked(cp: Peer, pd: Peer, f: seq<uint8>, id: uint8)
    requires !cp.pdMode && pd.pdMode && cp.address == pd.address < BROADCAST
    requires 0 <= cp.seqNumber == pd.seqNumber <= 3
    requires Checks(f, pd, id) && CheckMatches(f) && id != REPLY_BUSY
    ensures Check(cp, f) == (cp, Accepted)
  {
    CheckOf(pd, cp, f, id);
    ReplyHeader(cp, pd);
  }

  // ----- One command, one reply -----

  /** The receiver's whole handling of one packet body; its scanner has noted
      whether a mark came before it. */
  function Receive(c: Cipher, rx: Peer, mark: bool, body: seq<uint8>): (Peer, Checked, Decoded)
    requires |body| >= 7
  {
    var (p1, checked) := Check(rx.(hasMark := mark), body);
    if checked == Accepted && WellLaidOut(p1, body) then
      var (p2, decoded) := Decode(c, p1, body);
      (p2, Accepted, decoded)
    else
      (p1, checked, Nak(0))
  }

  /** rx can read what tx sends: the same channel state, and the means for a handshake. */
  ghost predicate Reads(tx: Peer, rx: Peer, id: uint8) {
    && tx.scActive == rx.scActive && rx.pdMode == !tx.pdMode
    && (tx.scActive ==> SameSession(tx.keys, rx.keys) && (rx.pdMode ==> rx.scCapable))
    && (!tx.scActive && rx.pdMode && InHandshake(false, id) ==> rx.scCapable)
  }

  lemma Decoding(c: Cipher, tx: Peer, rx: Peer, payload: seq<uint8>, third: uint8)
    requires Invertible(c) && payload != []
    requires Reads(tx, rx, payload[0])
    ensures WellLaidOut(rx, Body(c, tx, payload, third))
    ensures Decode(c, rx, Body(c, tx, payload, third)) == (AfterDecode(c, tx, rx, payload, third), Payload(payload))
  {
    if tx.scActive {
      DecodeSecure(c, tx, rx, payload, third);
    } else {
      DecodePlain(c, tx, rx, payload, third);
    }
  }

  /** The receiver's state once it has read a packet the sender built in state tx. */
  function AfterDecode(c: Cipher, tx: Peer, rx: Peer, payload: seq<uint8>, third: uint8): Peer
    requires payload != []
  {
    if tx.scActive then
      rx.(keys := SC.WithMac(c, rx.keys, rx.pdMode, Authenticated(c, tx, payload)))
    else
      rx.(useScbkd := rx.useScbkd || TakesScbkd(rx, payload[0], third))
  }

  /** The sender's state once it has sent a payload. */
  function AfterSend(c: Cipher, tx: Peer, payload: seq<uint8>): Peer
    requires payload != []
  {
    if tx.scActive then AfterInit(tx).(keys := KeysAfterSend(c, tx, payload)) else AfterInit(tx)
  }

  lemma Sending(c: Cipher, tx: Peer, payload: seq<uint8>, third: uint8)
    requires payload != []
    ensures Send(c, tx, payload, third) ==
            (AfterSend(c, tx, payload), MarkOf(AfterInit(tx)) + Body(c, tx, payload, third))
  {
    if tx.scActive {
      ProtectSecure(c, tx, payload, third);
    } else {
      ProtectPlain(c, tx, payload, third);
    }
  }

  /** A packet whose header is accepted is read whole. */
  lemma Received(c: Cipher, tx: Peer, rx: Peer, p1: Peer, mark: bool, payload: seq<uint8>, third: uint8)
    requires Invertible(c) && payload != []
    requires |Body(c, tx, payload, third)| >= 8
    requires Check(rx.(hasMark := mark), Body(c, tx, payload, third)) == (p1, Accepted)
    requires Reads(tx, p1, payload[0])
    ensures Receive(c, rx, mark, Body(c, tx, payload, third)) ==
            (AfterDecode(c, tx, p1, payload, third), Accepted, Payload(payload))
  {
    Decoding(c, tx, p1, payload, third);
  }

  function DeviceAfter(c: Cipher, cp: Peer, pd: Peer, payload: seq<uint8>, third: uint8, mark: bool): Peer
    requires payload != []
  {
    AfterDecode(c, cp, CommandTaken(cp, pd.(hasMark := mark)), payload, third)
  }

  lemma CommandReads(cp: Peer, pd: Peer, id: uint8)
    requires InSync(cp, pd) && (InHandshake(false, id) ==> pd.scCapable)
    ensures Reads(cp, CommandTaken(cp, pd), id)
  {
  }

  /** A command reaches the device whole: it reads exactly the payload. */
  lemma CommandDelivered(c: Cipher, cp: Peer, pd: Peer, payload: seq<uint8>, third: uint8, mark: bool)
    requires Invertible(c) && InSync(cp, pd) && payload != []
    requires InHandshake(false, payload[0]) ==> pd.scCapable
    ensures |Body(c, cp, payload, third)| >= 8
    ensures Receive(c, pd, mark, Body(c, cp, payload, third)) ==
            (DeviceAfter(c, cp, pd, payload, third, mark), Accepted, Payload(payload))
  {
    var rx := pd.(hasMark := mark);
    BodyChecks(c, cp, payload, third);
    CommandChecked(cp, rx, Body(c, cp, payload, third), payload[0]);
    CommandReads(cp, rx, payload[0]);
    Received(c, cp, pd, CommandTaken(cp, rx), mark, payload, third);
  }

  /** After a command both sides are at the same number and in the same session. */
  lemma CommandKeepsStep(c: Cipher, cp: Peer, pd: Peer, payload: seq<uint8>, third: uint8, mark: bool)
    requires InSync(cp, pd) && payload != []
    ensures var cp' := AfterSend(c, cp, payload);
            var pd' := DeviceAfter(c, cp, pd, payload, third, mark);
      && InExchange(cp', pd') && cp'.seqNumber == NextSeq(cp.seqNumber)
      && cp'.hasMark == !cp.skipMark && pd'.hasMark == mark && pd'.broadcast == cp.broadcast
  {
    NextSeqCycle(cp.seqNumber);
    if cp.scActive {
      MacsAgree(c, cp.keys, pd.keys, true, Authenticated(c, cp, payload));
    }
  }

  function PanelAfter(c: Cipher, cp: Peer, pd: Peer, payload: seq<uint8>, third: uint8, mark: bool): Peer
    requires payload != []
  {
    AfterDecode(c, pd, cp.(hasMark := mark), payload, third)
  }

  /** The reply reaches the panel whole. */
  lemma ReplyDelivered(c: Cipher, cp: Peer, pd: Peer, payload: seq<uint8>, third: uint8, mark: bool)
    requires Invertible(c) && InExchange(cp, pd) && payload != [] && payload[0] != REPLY_BUSY
    ensures |Body(c, pd, payload, third)| >= 8
    ensures Receive(c, cp, mark, Body(c, pd, payload, third)) ==
            (PanelAfter(c, cp, pd, payload, third, mark), Accepted, Payload(payload))
  {
    var rx := cp.(hasMark := mark);
    BodyChecks(c, pd, payload, third);
    ReplyChecked(rx, pd, Body(c, pd, payload, third), payload[0]);
    Received(c, pd, cp, rx, mark, payload, third);
  }

  /** After the reply the two are in step for the next command, unless a panel that
      skips marks has noted one. */
  lemma ReplyKeepsStep(c: Cipher, cp: Peer, pd: Peer, payload: seq<uint8>, third: uint8, mark: bool)
    requires InExchange(cp, pd) && payload != []
    ensures var cp' := PanelAfter(c, cp, pd, payload, third, mark);
      && (InSync(cp', AfterSend(c, pd, payload)) <==> !(cp.skipMark && mark))
      && cp'.hasMark == mark && cp'.seqNumber == cp.seqNumber && cp'.scActive == cp.scActive
      && cp'.skipMark == cp.skipMark
  {
    if cp.scActive {
      MacsAgree(c, cp.keys, pd.keys, false, Authenticated(c, pd, payload));
    }
  }

  /** The two functions of a command's journey together. */
  lemma CommandArrives(c: Cipher, cp: Peer, pd: Peer, payload: seq<uint8>, third: uint8, mark: bool)
    requires Invertible(c) && InSync(cp, pd) && payload != []
    requires InHandshake(false, payload[0]) ==> pd.scCapable
    ensures var (cp1, wire) := Send(c, cp, payload, third);
      && cp1 == AfterSend(c, cp, payload)
      && Receive(c, pd, mark, Unmarked(cp1, wire)) ==
           (DeviceAfter(c, cp, pd, payload, third, mark), Accepted, Payload(payload))
  {
    hide Send, Receive, AfterSend, DeviceAfter, Body;
    SentBody(c, cp, payload, third);
    CommandDelivered(c, cp, pd, payload, third, mark);
  }

  lemma ReplyArrives(c: Cipher, cp: Peer, pd: Peer, payload: seq<uint8>, third: uint8, mark: bool)
    requires Invertible(c) && InExchange(cp, pd) && payload != [] && payload[0] != REPLY_BUSY
    ensures var (pd1, wire) := Send(c, pd, payload, third);
      && pd1 == AfterSend(c, pd, payload)
      && Receive(c, cp, mark, Unmarked(pd1, wire)) ==
           (PanelAfter(c, cp, pd, payload, third, mark), Accepted, Payload(payload))
  {
    hide Send, Receive, AfterSend, PanelAfter, Body;
    SentBody(c, pd, payload, third);
    ReplyDelivered(c, cp, pd, payload, third, mark);
  }

  // ----- Runs -----

  /** One exchange: what each side sends, the third octet of a handshake block,
      and whether the mark reached the other side. */
  datatype Turn = Turn(command: seq<uint8>, commandThird: uint8, commandMark: bool,
                       reply: seq<uint8>, replyThird: uint8, replyMark: bool)

  /** A busy reply ends no exchange, a device without a channel of its own takes no
      handshake, and a mark that arrives was sent. */
  ghost predicate Possible(skipMark: bool, scCapable: bool, t: Turn) {
    && t.command != [] && t.reply != [] && t.reply[0] != REPLY_BUSY
    && (InHandshake(false, t.command[0]) ==> scCapable)
    && (t.commandMark ==> !skipMark) && (t.replyMark ==> t.commandMark)
  }

  /** The packet without its mark. */
  function Unmarked(p: Peer, wire: seq<uint8>): seq<uint8>
    requires |wire| >= |MarkOf(p)|
  {
    wire[|MarkOf(p)|..]
  }

  /** The panel's and the device's state after an exchange, what the device read
      and what the panel read. */
  function Exchange(c: Cipher, cp: Peer, pd: Peer, t: Turn): (Peer, Peer, Decoded, Decoded)
    requires t.command != [] && t.reply != []
  {
    var (cp1, wire) := Send(c, cp, t.command, t.commandThird);
    var (pd1, _, heard) := Receive(c, pd, t.commandMark, Unmarked(cp1, wire));
    var (pd2, wire') := Send(c, pd1, t.reply, t.replyThird);
    var (cp2, _, answered) := Receive(c, cp1, t.replyMark, Unmarked(pd2, wire'));
    (cp2, pd2, heard, answered)
  }

  lemma SentBody(c: Cipher, tx: Peer, payload: seq<uint8>, third: uint8)
    requires payload != []
    ensures var (tx', wire) := Send(c, tx, payload, third);
      tx' == AfterSend(c, tx, payload) && Unmarked(tx', wire) == Body(c, tx, payload, third)
  {
    Sending(c, tx, payload, third);
  }

  /** The two halves put together. */
  function After(c: Cipher, cp: Peer, pd: Peer, t: Turn): (Peer, Peer)
    requires t.command != [] && t.reply != []
  {
    var cp1 := AfterSend(c, cp, t.command);
    var pd1 := DeviceAfter(c, cp, pd, t.command, t.commandThird, t.commandMark);
    (PanelAfter(c, cp1, pd1, t.reply, t.replyThird, t.replyMark), AfterSend(c, pd1, t.reply))
  }

  /** An exchange delivers both payloads and keeps the two in step. */
  lemma ExchangeDelivers(c: Cipher, cp: Peer, pd: Peer, t: Turn)
    requires Invertible(c) && InSync(cp, pd) && Possible(cp.skipMark, pd.scCapable, t)
    ensures var (cp', pd') := After(c, cp, pd, t);
      Exchange(c, cp, pd, t) == (cp', pd', Payload(t.command), Payload(t.reply))
  {
    var cp1 := AfterSend(c, cp, t.command);
    var pd1 := DeviceAfter(c, cp, pd, t.command, t.commandThird, t.commandMark);
    SentBody(c, cp, t.command, t.commandThird);
    CommandDelivered(c, cp, pd, t.command, t.commandThird, t.commandMark);
    CommandKeepsStep(c, cp, pd, t.command, t.commandThird, t.commandMark);
    SentBody(c, pd1, t.reply, t.replyThird);
    ReplyDelivered(c, cp1, pd1, t.reply, t.replyThird, t.replyMark);
  }

  lemma ExchangeKeepsStep(c: Cipher, cp: Peer, pd: Peer, t: Turn)
    requires InSync(cp, pd) && Possible(cp.skipMark, pd.scCapable, t)
    ensures var (cp', pd') := After(c, cp, pd, t);
      && InSync(cp', pd')
      && cp'.seqNumber == NextSeq(cp.seqNumber) && cp'.scActive == cp.scActive
      && cp'.skipMark == cp.skipMark && pd'.scCapable == pd.scCapable
  {
    CommandKeepsStep(c, cp, pd, t.command, t.commandThird, t.commandMark);
    ReplyKeepsStep(c, AfterSend(c, cp, t.command),
                   DeviceAfter(c, cp, pd, t.command, t.commandThird, t.commandMark),
                   t.reply, t.replyThird, t.replyMark);
  }

  /** A turn after which the session goes on as it was. A handshake, a new key and a
      new address change it (module Session has them as steps of their own), and a
      panel that is answered with a NAK goes offline. */
  ghost predicate Ordinary(t: Turn)
    requires t.command != [] && t.reply != []
  {
    && !InHandshake(false, t.command[0])
    && !(t.command[0] == CMD_KEYSET && t.reply[0] == REPLY_ACK)
    && !(t.command[0] == CMD_COMSET && t.reply[0] == REPLY_COM)
    && t.reply[0] != REPLY_NAK
  }

  ghost predicate AllPossible(skipMark: bool, scCapable: bool, turns: seq<Turn>) {
    forall i :: 0 <= i < |turns| ==> Possible(skipMark, scCapable, turns[i]) && Ordinary(turns[i])
  }

  /** What the packet layer never touches: address, base key, flags. */
  ghost predicate SameSettings(p: Peer, q: Peer) {
    && q.address == p.address && q.skipMark == p.skipMark && q.scCapable == p.scCapable
    && q.keys.scbk == p.keys.scbk && q.useScbkd == p.useScbkd && q.installMode == p.installMode
  }

  lemma SendKeepsSettings(c: Cipher, tx: Peer, payload: seq<uint8>)
    requires payload != []
    ensures SameSettings(tx, AfterSend(c, tx, payload))
  {
    hide Authenticated, NextSeq;
  }

  lemma MacKeepsBase(c: Cipher, k: SC.Keys, isCmd: bool, w: seq<uint8>)
    requires w != []
    ensures SC.WithMac(c, k, isCmd, w).scbk == k.scbk
  {
    hide SC.Mac;
  }

  lemma NoScbkd(rx: Peer, id: uint8, third: uint8)
    requires rx.pdMode ==> !InHandshake(false, id)
    ensures (rx.useScbkd || TakesScbkd(rx, id, third)) == rx.useScbkd
  {
  }

  lemma DecodeKeepsSettings(c: Cipher, tx: Peer, rx: Peer, payload: seq<uint8>, third: uint8)
    requires payload != [] && (rx.pdMode ==> !InHandshake(false, payload[0]))
    ensures SameSettings(rx, AfterDecode(c, tx, rx, payload, third))
    ensures AfterDecode(c, tx, rx, payload, third).pdMode == rx.pdMode
  {
    hide InHandshake, Authenticated, SC.WithMac, TakesScbkd;
    if tx.scActive {
      MacKeepsBase(c, rx.keys, rx.pdMode, Authenticated(c, tx, payload));
    } else {
      NoScbkd(rx, payload[0], third);
    }
  }

  lemma TakenKeepsSettings(cp: Peer, pd: Peer, mark: bool)
    ensures SameSettings(pd, CommandTaken(cp, pd.(hasMark := mark))) && SameSettings(cp, cp.(hasMark := mark))
  {
    hide NextSeq;
  }

  lemma SettingsChain(p: Peer, q: Peer, r: Peer)
    requires SameSettings(p, q) && SameSettings(q, r)
    ensures SameSettings(p, r)
  {
  }

  lemma ExchangeKeepsSettings(c: Cipher, cp: Peer, pd: Peer, t: Turn)
    requires t.command != [] && t.reply != [] && !cp.pdMode && !InHandshake(false, t.command[0])
    ensures var (cp', pd') := After(c, cp, pd, t); SameSettings(cp, cp') && SameSettings(pd, pd')
  {
    hide AfterDecode, CommandTaken, InHandshake, SameSettings, NextSeq, KeysAfterSend;
    var cp1 := AfterSend(c, cp, t.command);
    var cp2 := cp1.(hasMark := t.replyMark);
    assert !cp2.pdMode;
    hide AfterSend;
    var pd0 := CommandTaken(cp, pd.(hasMark := t.commandMark));
    var pd1 := DeviceAfter(c, cp, pd, t.command, t.commandThird, t.commandMark);
    TakenKeepsSettings(cp, pd, t.commandMark);
    DecodeKeepsSettings(c, cp, pd0, t.command, t.commandThird);
    SendKeepsSettings(c, pd1, t.reply);
    SettingsChain(pd, pd0, pd1);
    SettingsChain(pd, pd1, AfterSend(c, pd1, t.reply));
    SendKeepsSettings(c, cp, t.command);
    TakenKeepsSettings(cp1, pd, t.replyMark);
    DecodeKeepsSettings(c, pd1, cp2, t.reply, t.replyThird);
    SettingsChain(cp, cp1, cp2);
    SettingsChain(cp, cp2, PanelAfter(c, cp1, pd1, t.reply, t.replyThird, t.replyMark));
  }

  ghost predicate Spoken(turns: seq<Turn>) {
    forall i :: 0 <= i < |turns| ==> turns[i].command != [] && turns[i].reply != []
  }

  datatype Outcome = Outcome(cp: Peer, pd: Peer, heard: seq<Decoded>, answered: seq<Decoded>)

  /** One exchange added to everything that came before it. */
  function Extend(c: Cipher, o: Outcome, t: Turn): Outcome
    requires t.command != [] && t.reply != []
  {
    var e := Exchange(c, o.cp, o.pd, t);
    Outcome(e.0, e.1, o.heard + [e.2], o.answered + [e.3])
  }

  /** A whole run: the final states and everything each side read. */
  ghost function Run(c: Cipher, cp: Peer, pd: Peer, turns: seq<Turn>): Outcome
    requires Spoken(turns)
    decreases |turns|
  {
    if turns == [] then Outcome(cp, pd, [], [])
    else Extend(c, Run(c, cp, pd, turns[..|turns| - 1]), turns[|turns| - 1])
  }

  /** The counter after n more commands. */
  function SeqAfter(s: int, n: nat): int
    decreases n
  {
    if n == 0 then s else NextSeq(SeqAfter(s, n - 1))
  }

  function Commands(turns: seq<Turn>): seq<Decoded> {
    seq(|turns|, i requires 0 <= i < |turns| => Payload(turns[i].command))
  }

  function Replies(turns: seq<Turn>): seq<Decoded> {
    seq(|turns|, i requires 0 <= i < |turns| => Payload(turns[i].reply))
  }

  /** Every payload has arrived and the two are in step. */
  ghost predicate Delivered(cp: Peer, pd: Peer, turns: seq<Turn>, o: Outcome) {
    && o.heard == Commands(turns) && o.answered == Replies(turns)
    && InSync(o.cp, o.pd) && o.cp.scActive == cp.scActive
    && o.cp.seqNumber == SeqAfter(cp.seqNumber, |turns|)
    && SameSettings(cp, o.cp) && SameSettings(pd, o.pd)
  }

  lemma PayloadsAppend(before: seq<Turn>, t: Turn)
    ensures Commands(before + [t]) == Commands(before) + [Payload(t.command)]
    ensures Replies(before + [t]) == Replies(before) + [Payload(t.reply)]
  {
  }

  lemma TurnFacts(c: Cipher, cp: Peer, pd: Peer, t: Turn)
    requires Invertible(c) && InSync(cp, pd) && Possible(cp.skipMark, pd.scCapable, t) && Ordinary(t)
    ensures t.command != [] && t.reply != []
    ensures var e := Exchange(c, cp, pd, t);
      && e.2 == Payload(t.command) && e.3 == Payload(t.reply)
      && InSync(e.0, e.1) && e.0.scActive == cp.scActive && e.0.seqNumber == NextSeq(cp.seqNumber)
      && SameSettings(cp, e.0) && SameSettings(pd, e.1)
  {
    hide Exchange, After;
    ExchangeDelivers(c, cp, pd, t);
    ExchangeKeepsStep(c, cp, pd, t);
    ExchangeKeepsSettings(c, cp, pd, t);
  }

  lemma TurnDelivers(c: Cipher, cp: Peer, pd: Peer, before: seq<Turn>, t: Turn, o: Outcome)
    requires Invertible(c) && Delivered(cp, pd, before, o)
    requires Possible(o.cp.skipMark, o.pd.scCapable, t) && Ordinary(t)
    ensures Delivered(cp, pd, before + [t], Extend(c, o, t))
  {
    hide Exchange, After, InSync, Possible;
    TurnFacts(c, o.cp, o.pd, t);
    PayloadsAppend(before, t);
  }

  /** Over every run, with or without a secure channel, each side reads exactly
      what the other sent, in order; the counters, the session keys and the rolling
      MACs of the two sides agree at the end, and the channel, the base keys and the
      addresses are what they were. */
  lemma {:induction false} RunDelivers(c: Cipher, cp: Peer, pd: Peer, turns: seq<Turn>)
    requires Invertible(c) && InSync(cp, pd) && AllPossible(cp.skipMark, pd.scCapable, turns)
    ensures Delivered(cp, pd, turns, Run(c, cp, pd, turns))
    decreases |turns|
  {
    if turns == [] {
      assert Delivered(cp, pd, [], Outcome(cp, pd, [], []));
    } else {
      var before, t := turns[..|turns| - 1], turns[|turns| - 1];
      assert turns == before + [t];
      RunDelivers(c, cp, pd, before);
      TurnDelivers(c, cp, pd, before, t, Run(c, cp, pd, before));
    }
  }

  /** From a reset the numbers are 0, 1, 2, 3, 1, 2, 3, ... */
  lemma {:induction false} SequenceNumbers(s: int, n: nat)
    requires -1 <= s <= 3
    ensures SeqAfter(s, n) == if s + n <= 3 then s + n else (s + n - 1) % 3 + 1
    decreases n
  {
    if n > 0 {
      SequenceNumbers(s, n - 1);
    }
  }
}
