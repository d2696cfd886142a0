/** Changing the base key: KEYSET, the commit on each side, and the handshake that
    follows (osdp_cp.c and osdp_pd.c). */
module KeyRotation {
  import opened Bytes
  import opened Codes
  import opened Options
  import opened BlockCipher
  import SC = SecureChannel
  import opened Phy
  import opened Packet
  import opened Link
  import opened Handshake

  /** Key type 1 is SCBK, then the length of the key. */
  function KeysetPayload(key: Block): seq<uint8> { [CMD_KEYSET, 1, 16] + key }

  /** The device takes a key only over an open channel and when the application
      accepts it. */
  function DeviceKeyset(pd: Peer, accepts: bool, decoded: Decoded): Option<Block> {
    if !decoded.Payload? || |decoded.bytes| != 19 || decoded.bytes[0] != CMD_KEYSET then None
    else if decoded.bytes[1] != 1 || decoded.bytes[2] != 16 then None
    else if !pd.scActive || !accepts then None
    else Some(decoded.bytes[3..])
  }

  /** The device's commit, after its ACK has gone out. */
  function Commit(pd: Peer, key: Block): Peer {
    pd.(keys := pd.keys.(scbk := key), useScbkd := false, installMode := false, scActive := false)
  }

  /** cp_keyset_complete, and the reset of the counter when the panel was ONLINE.
      A panel that used SCBK-D has just sent its own key and keeps it. */
  function KeysetComplete(cp: Peer, online: bool, key: Block): Peer {
    cp.(keys := cp.keys.(scbk := if cp.useScbkd then cp.keys.scbk else key),
        useScbkd := false, scActive := false,
        seqNumber := if online then -1 else cp.seqNumber)
  }

  /** One change of key: in ONLINE the application names the key, in SET_SCBK the
      panel sends its own. */
  datatype Rotation = Rotation(online: bool, requested: Block, mark1: bool, mark2: bool, env: Env)

  function KeyOf(cp: Peer, r: Rotation): Block { if r.online then r.requested else cp.keys.scbk }

  function Asking(cp: Peer): Peer { cp.(cmdId := CMD_KEYSET) }

  function Acking(pd: Peer): Peer { pd.(cmdId := CMD_KEYSET, replyId := REPLY_ACK) }

  /** The command, the device's answer, and the two commits. */
  function Keyset(c: Cipher, cp: Peer, pd: Peer, r: Rotation): Option<(Peer, Peer)> {
    var key := KeyOf(cp, r);
    var (cp1, wire) := Send(c, Asking(cp), KeysetPayload(key), 0);
    var (pd1, _, heard) := Receive(c, pd, r.mark1, Unmarked(cp1, wire));
    match DeviceKeyset(pd1, true, heard)
    case None => None
    case Some(received) =>
      var (pd2, wire') := Send(c, Acking(pd1), [REPLY_ACK], 0);
      var (cp2, _, answered) := Receive(c, cp1, r.mark2, Unmarked(pd2, wire'));
      if answered == Payload([REPLY_ACK]) then
        Some((KeysetComplete(cp2, r.online, key), Commit(pd2, received)))
      else None
  }

  /** A change of key and the handshake that proves it. */
  function Rotate(c: Cipher, cp: Peer, pd: Peer, r: Rotation): Option<(Peer, Peer)> {
    match Keyset(c, cp, pd, r)
    case None => None
    case Some(s) => Open(c, s.0, s.1, r.env)
  }

  /** The states between KEYSET and its ACK, and after it. */
  function Told(c: Cipher, cp: Peer, pd: Peer, r: Rotation): Peer {
    DeviceAfter(c, Asking(cp), pd, KeysetPayload(KeyOf(cp, r)), 0, r.mark1)
  }

  function Acked(c: Cipher, cp: Peer, pd: Peer, r: Rotation): Peer {
    PanelAfter(c, AfterSend(c, Asking(cp), KeysetPayload(KeyOf(cp, r))), Acking(Told(c, cp, pd, r)), [REPLY_ACK], 0,
        r.mark2)
  }

  lemma KeysetHeard(pd: Peer, key: Block)
    requires pd.scActive
    ensures DeviceKeyset(pd, true, Payload(KeysetPayload(key))) == Some(key)
  {
    assert KeysetPayload(key)[3..] == key;
  }

  /** A key is taken exactly from a payload of 75 01 10 and the key, over an open channel, from an
      application that accepts it. */
  lemma KeysetTaken(pd: Peer, accepts: bool, heard: Decoded, key: Block)
    ensures DeviceKeyset(pd, accepts, heard) == Some(key) <==>
      pd.scActive && accepts && heard == Payload([0x75, 0x01, 0x10] + key)
  {
    if heard.Payload? && |heard.bytes| == 19 {
      assert heard.bytes == heard.bytes[..3] + heard.bytes[3..];
    }
  }

  lemma AskingInSync(cp: Peer, pd: Peer)
    requires InSync(cp, pd)
    ensures InSync(Asking(cp), pd)
  {
  }

  lemma AckingInExchange(cp: Peer, pd: Peer)
    requires InExchange(cp, pd)
    ensures InExchange(cp, Acking(pd))
  {
  }

  lemma KeysetDelivers(c: Cipher, cp: Peer, pd: Peer, r: Rotation)
    requires Invertible(c) && Established(cp, pd)
    ensures Keyset(c, cp, pd, r) ==
            Some((KeysetComplete(Acked(c, cp, pd, r), r.online, KeyOf(cp, r)),
                     Commit(AfterSend(c, Acking(Told(c, cp, pd, r)), [REPLY_ACK]), KeyOf(cp, r))))
  {
    hide Send, Receive, AfterSend, DeviceAfter, PanelAfter, DeviceKeyset, KeysetComplete, Commit;
    var key := KeyOf(cp, r);
    AskingInSync(cp, pd);
    CommandArrives(c, Asking(cp), pd, KeysetPayload(key), 0, r.mark1);
    CommandKeepsStep(c, Asking(cp), pd, KeysetPayload(key), 0, r.mark1);
    var cp1 := AfterSend(c, Asking(cp), KeysetPayload(key));
    var pd1 := Told(c, cp, pd, r);
    KeysetStaysOpen(c, cp, pd, r);
    KeysetHeard(pd1, key);
    AckingInExchange(cp1, pd1);
    ReplyArrives(c, cp1, Acking(pd1), [REPLY_ACK], 0, r.mark2);
  }

  lemma KeysetStaysOpen(c: Cipher, cp: Peer, pd: Peer, r: Rotation)
    requires Established(cp, pd)
    ensures Told(c, cp, pd, r).scActive
  {
    NextSeqCycle(cp.seqNumber);
  }

  /** Both sides hold the new key, neither uses SCBK-D any more, and the old
      session is gone on both. */
  ghost predicate Rekeyed(cp: Peer, pd: Peer, key: Block) {
    && Closed(cp, pd) && cp.keys.scbk == key && pd.keys.scbk == key
    && !cp.useScbkd && !pd.useScbkd && !pd.installMode
  }

  /** A rotation that can happen: marks that arrive were sent, and the panel was
      given a base key (without one it has no channel to begin with). */
  ghost predicate Feasible(skipMark: bool, r: Rotation) {
    && (r.mark1 ==> !skipMark) && (r.mark2 ==> r.mark1)
    && (r.env.mark1 ==> !skipMark) && (r.env.mark2 ==> r.env.mark1)
    && (r.env.mark3 ==> !skipMark) && (r.env.mark4 ==> r.env.mark3)
    && r.env.hasScbk
  }

  lemma TransferState(c: Cipher, cp: Peer, pd: Peer, r: Rotation)
    requires Established(cp, pd) && Feasible(cp.skipMark, r)
    ensures var cp2 := Acked(c, cp, pd, r);
            var pd2 := AfterSend(c, Acking(Told(c, cp, pd, r)), [REPLY_ACK]);
      && InSync(cp2, pd2) && pd2.scCapable
      && cp2.useScbkd == cp.useScbkd && cp2.keys.scbk == cp.keys.scbk && cp2.skipMark == cp.skipMark
  {
    hide InHandshake;
    var key := KeyOf(cp, r);
    AskingInSync(cp, pd);
    CommandKeepsStep(c, Asking(cp), pd, KeysetPayload(key), 0, r.mark1);
    AckingInExchange(AfterSend(c, Asking(cp), KeysetPayload(key)), Told(c, cp, pd, r));
    ReplyKeepsStep(c, AfterSend(c, Asking(cp), KeysetPayload(key)), Acking(Told(c, cp, pd, r)), [REPLY_ACK], 0,
        r.mark2);
  }

  lemma CommitsAgree(cp: Peer, pd: Peer, online: bool, key: Block)
    requires InSync(cp, pd) && pd.scCapable
    requires cp.useScbkd ==> key == cp.keys.scbk
    ensures Rekeyed(KeysetComplete(cp, online, key), Commit(pd, key), key)
    ensures KeysetComplete(cp, online, key).skipMark == cp.skipMark
  {
  }

  /** The panel's next command after a KEYSET from ONLINE restarts the numbers, and nothing of
      the packet layer changes but number, base key and channel. */
  lemma NumbersAfterKeyset(cp: Peer, online: bool, key: Block)
    ensures var p := KeysetComplete(cp, online, key);
      && NextSeq(p.seqNumber) == (if online then 0 else NextSeq(cp.seqNumber))
      && !p.scActive && !p.useScbkd && p.keys.scbk == (if cp.useScbkd then cp.keys.scbk else key)
      && p == cp.(seqNumber := p.seqNumber, scActive := false, useScbkd := false, keys := p.keys)
      && p.keys == cp.keys.(scbk := p.keys.scbk)
  {
  }

  /** An acknowledged KEYSET, requested by the application or sent by a panel that
      used SCBK-D, leaves both sides with the same base key and no session. */
  lemma KeysetRekeys(c: Cipher, cp: Peer, pd: Peer, r: Rotation) returns (cp2: Peer, pd2: Peer)
    requires Invertible(c) && Established(cp, pd) && Feasible(cp.skipMark, r)
    requires cp.useScbkd ==> !r.online
    ensures Keyset(c, cp, pd, r) == Some((cp2, pd2))
    ensures Rekeyed(cp2, pd2, KeyOf(cp, r)) && cp2.skipMark == cp.skipMark
  {
    hide Keyset, Acked, Told, KeysetComplete, Commit, Acking;
    KeysetDelivers(c, cp, pd, r);
    TransferState(c, cp, pd, r);
    cp2 := KeysetComplete(Acked(c, cp, pd, r), r.online, KeyOf(cp, r));
    pd2 := Commit(AfterSend(c, Acking(Told(c, cp, pd, r)), [REPLY_ACK]), KeyOf(cp, r));
    CommitsAgree(Acked(c, cp, pd, r), AfterSend(c, Acking(Told(c, cp, pd, r)), [REPLY_ACK]), r.online, KeyOf(cp, r));
  }

  /** An open channel whose base key is the same on both sides. */
  ghost predicate KeyedSession(cp: Peer, pd: Peer, key: Block) {
    && Established(cp, pd) && cp.keys.scbk == key && pd.keys.scbk == key
    && !cp.useScbkd && !pd.useScbkd && !pd.installMode
  }

  /** The handshake after a rotation succeeds, under the new key. */
  lemma RotateAgrees(c: Cipher, cp: Peer, pd: Peer, r: Rotation) returns (cp2: Peer, pd2: Peer)
    requires Invertible(c) && Established(cp, pd) && Feasible(cp.skipMark, r)
    requires cp.useScbkd ==> !r.online
    ensures Rotate(c, cp, pd, r) == Some((cp2, pd2))
    ensures KeyedSession(cp2, pd2, KeyOf(cp, r)) && cp2.skipMark == cp.skipMark
  {
    hide Keyset, Open, Established, Closed;
    var cp1, pd1 := KeysetRekeys(c, cp, pd, r);
    cp2, pd2 := HandshakeAgrees(c, cp1, pd1, r.env);
  }

  /** Any number of rotations, one after the other; None as soon as one fails. */
  function RotateAll(c: Cipher, cp: Peer, pd: Peer, rs: seq<Rotation>): Option<(Peer, Peer)>
    decreases |rs|
  {
    if rs == [] then Some((cp, pd))
    else
      match Rotate(c, cp, pd, rs[0])
      case None => None
      case Some(s) => RotateAll(c, s.0, s.1, rs[1..])
  }

  ghost predicate AllFeasible(skipMark: bool, rs: seq<Rotation>) {
    forall i :: 0 <= i < |rs| ==> Feasible(skipMark, rs[i]) && rs[i].online
  }

  /** Over every run of rotations requested while ONLINE: none fails, and both ends
      finish with an open channel under the key that was requested last. */
  lemma {:induction false} RotationsAgree(c: Cipher, cp: Peer, pd: Peer, key: Block, rs: seq<Rotation>)
    requires Invertible(c) && KeyedSession(cp, pd, key) && AllFeasible(cp.skipMark, rs)
    ensures var done := RotateAll(c, cp, pd, rs);
      done.Some? && KeyedSession(done.value.0, done.value.1, if rs == [] then key else rs[|rs| - 1].requested)
    decreases |rs|
  {
    hide Rotate, KeyedSession, Feasible;
    if rs != [] {
      assert Feasible(cp.skipMark, rs[0]) && rs[0].online;
      KeyedSessionParts(cp, pd, key);
      var cp1, pd1 := RotateAgrees(c, cp, pd, rs[0]);
      RotationsAgree(c, cp1, pd1, rs[0].requested, rs[1..]);
    }
  }

  lemma KeyedSessionParts(cp: Peer, pd: Peer, key: Block)
    requires KeyedSession(cp, pd, key)
    ensures Established(cp, pd) && !cp.useScbkd
  {
  }

  /** A device in install mode and a panel that falls back on SCBK-D: the handshake
      under SCBK-D, the automatic KEYSET and the second handshake end with the
      panel's own key on both sides. */
  lemma ProvisioningAgrees(c: Cipher, cp: Peer, pd: Peer, env: Env, r: Rotation)
    returns (cp2: Peer, pd2: Peer)
    requires Invertible(c) && Closed(cp, pd) && cp.useScbkd && pd.installMode
    requires !r.online && Feasible(cp.skipMark, r) && env.hasScbk
    requires MarksSent(cp, env.mark1, env.mark2) && MarksSent(cp, env.mark3, env.mark4)
    ensures var first := Open(c, cp, pd, env);
      && first.Some? && first.value.0.useScbkd && first.value.1.useScbkd
      && Rotate(c, first.value.0, first.value.1, r) == Some((cp2, pd2))
    ensures KeyedSession(cp2, pd2, cp.keys.scbk)
  {
    hide Open, Rotate, KeyedSession, Established, Closed;
    var cp1, pd1 := HandshakeAgrees(c, cp, pd, env);
    cp2, pd2 := RotateAgrees(c, cp1, pd1, r);
  }
}
