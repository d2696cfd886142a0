/** Opening a secure channel: CHLNG, CCRYPT, SCRYPT, RMAC_I (Annex D.1 of SIA OSDP
    v2.2), as osdp_cp.c and osdp_pd.c carry it out over the link. */
module Handshake {
  import opened Bytes
  import opened Codes
  import opened Options
  import opened BlockCipher
  import SC = SecureChannel
  import opened Phy
  import opened Packet
  import opened Link

  /** The octet of the security block that names the base key. */
  function KeyOctet(useScbkd: bool): uint8 { if useScbkd then 0 else 1 }

  // ----- Panel -----

  /** Entering SC_CHLNG sets the channel context up again. */
  function Challenge(cp: Peer, hasScbk: bool, random: Half): Peer {
    cp.(keys := SC.AfterSetup(cp.keys, hasScbk, false, random, ZERO_HALF), cmdId := CMD_CHLNG)
  }

  function ChallengePayload(cp: Peer): seq<uint8> { [CMD_CHLNG] + cp.keys.cpRandom }

  /** REPLY_CCRYPT: the session keys follow, and the device's cryptogram must match. */
  function PanelCcrypt(c: Cipher, cp: Peer, data: seq<uint8>): Option<Peer> {
    if cp.scActive || cp.cmdId != CMD_CHLNG || |data| != 32 then None
    else
      var k := cp.keys.(clientUid := data[..8], pdRandom := data[8..16], pdCryptogram := data[16..]);
      var keys := SC.WithSessionKeys(c, k, cp.useScbkd);
      if keys.pdCryptogram != SC.PdCryptogram(c, keys) then None else Some(cp.(keys := keys))
  }

  function Scrypt(c: Cipher, cp: Peer): Peer {
    cp.(keys := cp.keys.(cpCryptogram := SC.CpCryptogram(c, cp.keys)), cmdId := CMD_SCRYPT)
  }

  function ScryptPayload(cp: Peer): seq<uint8> { [CMD_SCRYPT] + cp.keys.cpCryptogram }

  /** REPLY_RMAC_I, and the step out of SC_SCRYPT that switches the channel on. */
  function PanelRMacI(cp: Peer, data: seq<uint8>): Option<Peer> {
    if cp.scActive || cp.cmdId != CMD_SCRYPT || |data| != 16 then None
    else Some(cp.(keys := cp.keys.(rMac := data), scActive := true))
  }

  function PanelReads(c: Cipher, cp: Peer, decoded: Decoded): Option<Peer> {
    if !decoded.Payload? || decoded.bytes == [] then None
    else if decoded.bytes[0] == REPLY_CCRYPT then PanelCcrypt(c, cp, decoded.bytes[1..])
    else if decoded.bytes[0] == REPLY_RMAC_I then PanelRMacI(cp, decoded.bytes[1..])
    else None
  }

  // ----- Device -----

  /** What the device adds of its own: its UID and a random number. */
  datatype Device = Device(uid: Half, random: Half)

  function TakeChallenge(pd: Peer, d: Device, cpRandom: Half): Peer {
    pd.(scActive := false,
        keys := SC.AfterSetup(pd.keys, true, true, ZERO_HALF, d.uid).(cpRandom := cpRandom),
        cmdId := CMD_CHLNG, replyId := REPLY_CCRYPT)
  }

  function Ccrypt(c: Cipher, pd: Peer, d: Device): Peer {
    var keys := SC.WithSessionKeys(c, pd.keys.(pdRandom := d.random), pd.useScbkd);
    pd.(keys := keys.(pdCryptogram := SC.PdCryptogram(c, keys)))
  }

  function CcryptPayload(pd: Peer): seq<uint8> {
    [REPLY_CCRYPT] + pd.keys.clientUid + pd.keys.pdRandom + pd.keys.pdCryptogram
  }

  /** The initial R-MAC; whether the channel opens depends on the panel's cryptogram. */
  function RMacI(c: Cipher, pd: Peer, cpCryptogram: Block): Peer {
    var k := pd.keys.(cpCryptogram := cpCryptogram);
    pd.(keys := k.(rMac := SC.InitialRMac(c, k)), cmdId := CMD_SCRYPT, replyId := REPLY_RMAC_I)
  }

  predicate PanelVerified(c: Cipher, pd: Peer) { pd.keys.cpCryptogram == SC.CpCryptogram(c, pd.keys) }

  function RMacIPayload(pd: Peer): seq<uint8> { [REPLY_RMAC_I] + pd.keys.rMac }

  /** The state the reply is built in, and the reply. */
  datatype Answer = Answer(pd: Peer, payload: seq<uint8>, third: uint8, opens: bool)

  function DeviceReads(c: Cipher, pd: Peer, d: Device, decoded: Decoded): Option<Answer> {
    if !decoded.Payload? || decoded.bytes == [] then None
    else
      var data := decoded.bytes[1..];
      if decoded.bytes[0] == CMD_CHLNG && |data| == 8 then
        var pd1 := Ccrypt(c, TakeChallenge(pd, d, data), d);
        Some(Answer(pd1, CcryptPayload(pd1), KeyOctet(pd1.useScbkd), false))
      else if decoded.bytes[0] == CMD_SCRYPT && |data| == 16 && !pd.scActive then
        var pd1 := RMacI(c, pd, data);
        var ok := PanelVerified(c, pd1);
        Some(Answer(pd1, RMacIPayload(pd1), if ok then 1 else 0, ok))
      else None
  }

  /** The channel opens while the RMAC_I reply is being built, after its header:
      the packet still leaves in the clear, because its block is of type SCS_14. */
  lemma OpensAfterHeader(c: Cipher, pd: Peer, payload: seq<uint8>, third: uint8)
    requires payload != [] && pd.pdMode && !pd.scActive && payload[0] == REPLY_RMAC_I
    ensures var u := Assembled(pd, payload, third);
            var open := AfterInit(pd).(scActive := true);
      && !Secured(true, u)
      && Protect(c, open, u) == (open, Protect(c, AfterInit(pd), u).1)
  {
    assert Assembled(pd, payload, third)[6] == SCS_14;
  }

  // ----- The four packets -----

  /** What the run of one handshake draws from outside. */
  datatype Env = Env(hasScbk: bool, cpRandom: Half, device: Device,
                     mark1: bool, mark2: bool, mark3: bool, mark4: bool)

  /** A command of the panel, and what the device makes of it. */
  function Ask(c: Cipher, cp: Peer, pd: Peer, d: Device, command: seq<uint8>, mark: bool): (Peer, Option<Answer>)
    requires command != []
  {
    var (cp1, wire) := Send(c, cp, command, KeyOctet(cp.useScbkd));
    var (pd1, _, heard) := Receive(c, pd, mark, Unmarked(cp1, wire));
    (cp1, DeviceReads(c, pd1, d, heard))
  }

  /** The device's answer, and what the panel makes of it. */
  function Reply(c: Cipher, cp: Peer, a: Answer, mark: bool): Option<(Peer, Peer)>
    requires a.payload != []
  {
    var (pd1, wire) := Send(c, a.pd, a.payload, a.third);
    var (cp1, _, answered) := Receive(c, cp, mark, Unmarked(pd1, wire));
    match PanelReads(c, cp1, answered)
    case None => None
    case Some(cp2) => Some((cp2, pd1.(scActive := a.opens)))
  }

  function Leg(c: Cipher, cp: Peer, pd: Peer, d: Device, command: seq<uint8>, mark1: bool, mark2: bool)
    : Option<(Peer, Peer)>
    requires command != []
  {
    var (cp1, answer) := Ask(c, cp, pd, d, command, mark1);
    match answer
    case None => None
    case Some(a) => if a.payload == [] then None else Reply(c, cp1, a, mark2)
  }

  function Open(c: Cipher, cp: Peer, pd: Peer, env: Env): Option<(Peer, Peer)> {
    var cp0 := Challenge(cp, env.hasScbk, env.cpRandom);
    match Leg(c, cp0, pd, env.device, ChallengePayload(cp0), env.mark1, env.mark2)
    case None => None
    case Some(s) =>
      var cp1 := Scrypt(c, s.0);
      Leg(c, cp1, s.1, env.device, ScryptPayload(cp1), env.mark3, env.mark4)
  }

  // ----- Agreement -----

  /** The device's flag once it has read the panel's CHLNG or SCRYPT. */
  function TakenScbkd(cp: Peer, pd: Peer): bool { pd.useScbkd || (pd.installMode && cp.useScbkd) }

  /** Both ends are about to derive the session from the same base key. */
  ghost predicate SameBaseKey(cp: Peer, pd: Peer, hasScbk: bool) {
    (if cp.useScbkd then SC.SCBK_DEFAULT else if hasScbk then cp.keys.scbk else ZERO_BLOCK) ==
      SC.ScbkInUse(pd.keys, TakenScbkd(cp, pd))
  }

  /** What the two have in common once CCRYPT has been verified. */
  ghost predicate SameDerivation(a: SC.Keys, b: SC.Keys) {
    && a.sEnc == b.sEnc && a.sMac1 == b.sMac1 && a.sMac2 == b.sMac2 && a.cMac == b.cMac
    && a.cpRandom == b.cpRandom && a.pdRandom == b.pdRandom
  }

  const EIGHT_ZEROS: seq<uint8> := [0, 0, 0, 0, 0, 0, 0, 0]

  /** S-ENC, S-MAC1 and S-MAC2 are 01 82, 01 01 and 01 02, with six octets of the panel's random
      number behind, encrypted under the base key. */
  ghost predicate SessionOf(c: Cipher, base: Block, cpRandom: Half, k: SC.Keys) {
    && k.sEnc == c.enc(base, [0x01, 0x82] + cpRandom[..6] + EIGHT_ZEROS)
    && k.sMac1 == c.enc(base, [0x01, 0x01] + cpRandom[..6] + EIGHT_ZEROS)
    && k.sMac2 == c.enc(base, [0x01, 0x02] + cpRandom[..6] + EIGHT_ZEROS)
  }

  /** The first R-MAC: the device's and the panel's random number under S-ENC, which is the
      panel's cryptogram, then under S-MAC1 and S-MAC2. */
  function FirstRMac(c: Cipher, k: SC.Keys, cpRandom: Half, pdRandom: Half): Block {
    c.enc(k.sMac2, c.enc(k.sMac1, c.enc(k.sEnc, pdRandom + cpRandom)))
  }

  lemma KeysAreSession(c: Cipher, k: SC.Keys, useScbkd: bool)
    ensures var derived := SC.WithSessionKeys(c, k, useScbkd);
      && SessionOf(c, SC.ScbkInUse(k, useScbkd), k.cpRandom, derived)
      && derived.cpRandom == k.cpRandom && derived.pdRandom == k.pdRandom
  {
    assert seq(8, _ => 0) == EIGHT_ZEROS;
  }

  lemma CcryptVerifies(c: Cipher, cp: Peer, pd: Peer, d: Device)
    requires !cp.scActive && cp.cmdId == CMD_CHLNG
    requires cp.keys.cMac == pd.keys.cMac && cp.keys.cpRandom == pd.keys.cpRandom
    requires SC.ScbkInUse(cp.keys, cp.useScbkd) == SC.ScbkInUse(pd.keys, pd.useScbkd)
    ensures var sent := Ccrypt(c, pd, d);
            var read := PanelCcrypt(c, cp, CcryptPayload(sent)[1..]);
      && read.Some? && SameDerivation(read.value.keys, sent.keys)
      && read.value == cp.(keys := read.value.keys) && sent == pd.(keys := sent.keys)
      && read.value.keys.scbk == cp.keys.scbk && sent.keys.scbk == pd.keys.scbk
      && SessionOf(c, SC.ScbkInUse(cp.keys, cp.useScbkd), cp.keys.cpRandom, read.value.keys)
      && read.value.keys.cpRandom == cp.keys.cpRandom && read.value.keys.pdRandom == d.random
  {
    hide SessionOf;
    var sent := Ccrypt(c, pd, d);
    var data := CcryptPayload(sent)[1..];
    var k := cp.keys.(clientUid := data[..8], pdRandom := data[8..16], pdCryptogram := data[16..]);
    KeysAreSession(c, k, cp.useScbkd);
    assert data[..8] == sent.keys.clientUid && data[8..16] == sent.keys.pdRandom &&
        data[16..] == sent.keys.pdCryptogram;
  }

  lemma AskDelivers(c: Cipher, cp: Peer, pd: Peer, d: Device, command: seq<uint8>, mark: bool)
    requires Invertible(c) && InSync(cp, pd) && pd.scCapable && command != []
    ensures var pd1 := DeviceAfter(c, cp, pd, command, KeyOctet(cp.useScbkd), mark);
      Ask(c, cp, pd, d, command, mark) == (AfterSend(c, cp, command), DeviceReads(c, pd1, d, Payload(command)))
  {
    CommandArrives(c, cp, pd, command, KeyOctet(cp.useScbkd), mark);
  }

  lemma ReplyIsRead(c: Cipher, cp: Peer, a: Answer, mark: bool, cp2: Peer)
    requires Invertible(c) && InExchange(cp, a.pd) && a.payload != [] && a.payload[0] != REPLY_BUSY
    requires PanelReads(c, PanelAfter(c, cp, a.pd, a.payload, a.third, mark), Payload(a.payload)) == Some(cp2)
    ensures Reply(c, cp, a, mark) == Some((cp2, AfterSend(c, a.pd, a.payload).(scActive := a.opens)))
  {
    ReplyArrives(c, cp, a.pd, a.payload, a.third, mark);
  }

  /** Neither side has a channel yet. */
  ghost predicate Closed(cp: Peer, pd: Peer) {
    InSync(cp, pd) && !cp.scActive && !pd.scActive && pd.scCapable
  }

  lemma ClosedCapable(cp: Peer, pd: Peer)
    requires Closed(cp, pd)
    ensures pd.scCapable
  {
  }

  ghost predicate MarksSent(cp: Peer, mark1: bool, mark2: bool) {
    (mark1 ==> !cp.skipMark) && (mark2 ==> mark1)
  }

  lemma HeardChallenge(c: Cipher, cp: Peer, pd: Peer, d: Device, mark: bool)
    requires Closed(cp, pd) && cp.cmdId == CMD_CHLNG
    ensures var pd1 := DeviceAfter(c, cp, pd, ChallengePayload(cp), KeyOctet(cp.useScbkd), mark);
            var pd2 := Ccrypt(c, TakeChallenge(pd1, d, cp.keys.cpRandom), d);
      && pd1 == CommandTaken(cp, pd.(hasMark := mark)).(useScbkd := TakenScbkd(cp, pd))
      && DeviceReads(c, pd1, d, Payload(ChallengePayload(cp))) ==
           Some(Answer(pd2, CcryptPayload(pd2), KeyOctet(pd2.useScbkd), false))
  {
    assert ChallengePayload(cp)[1..] == cp.keys.cpRandom;
  }

  /** The device's state when it has built its CCRYPT. */
  function Challenged(c: Cipher, cp: Peer, pd: Peer, d: Device, mark: bool): Peer {
    Ccrypt(c, ChallengeRead(cp, pd, d, mark), d)
  }

  lemma ChallengedInExchange(c: Cipher, cp: Peer, pd: Peer, d: Device, mark: bool)
    requires Closed(cp, pd)
    ensures InExchange(AfterSend(c, cp, ChallengePayload(cp)), Challenged(c, cp, pd, d, mark))
    ensures AfterSend(c, cp, ChallengePayload(cp)) == AfterInit(cp)
    ensures Challenged(c, cp, pd, d, mark).scCapable && !Challenged(c, cp, pd, d, mark).scActive
  {
    NextSeqCycle(cp.seqNumber);
  }

  /** The panel's state when CCRYPT has arrived, before it is read. */
  function Waiting(cp: Peer, mark: bool): Peer { AfterInit(cp).(hasMark := mark) }

  lemma PanelWaits(c: Cipher, cp: Peer, sent: Peer, payload: seq<uint8>, third: uint8, mark: bool)
    requires !cp.pdMode && !sent.scActive && payload != []
    ensures PanelAfter(c, AfterInit(cp), sent, payload, third, mark) == Waiting(cp, mark)
  {
  }

  lemma PanelHearsCcrypt(c: Cipher, cp: Peer, pd: Peer, d: Device)
    requires !cp.scActive && cp.cmdId == CMD_CHLNG
    requires cp.keys.cMac == pd.keys.cMac && cp.keys.cpRandom == pd.keys.cpRandom
    requires SC.ScbkInUse(cp.keys, cp.useScbkd) == SC.ScbkInUse(pd.keys, pd.useScbkd)
    ensures var sent := Ccrypt(c, pd, d);
            var read := PanelReads(c, cp, Payload(CcryptPayload(sent)));
      && read.Some? && SameDerivation(read.value.keys, sent.keys)
      && read.value == cp.(keys := read.value.keys)
      && read.value.keys.scbk == cp.keys.scbk && sent.keys.scbk == pd.keys.scbk
      && SessionOf(c, SC.ScbkInUse(cp.keys, cp.useScbkd), cp.keys.cpRandom, read.value.keys)
      && read.value.keys.cpRandom == cp.keys.cpRandom && read.value.keys.pdRandom == d.random
  {
    hide SessionOf;
    CcryptVerifies(c, cp, pd, d);
  }

  /** After CHLNG and CCRYPT. */
  ghost predicate Derived(cp: Peer, pd: Peer) {
    Closed(cp, pd) && SameDerivation(cp.keys, pd.keys)
  }

  /** The device as CHLNG leaves it, before it draws its random number. */
  function ChallengeRead(cp: Peer, pd: Peer, d: Device, mark: bool): Peer {
    TakeChallenge(CommandTaken(cp, pd.(hasMark := mark)).(useScbkd := TakenScbkd(cp, pd)), d, cp.keys.cpRandom)
  }

  lemma ChallengeKeys(c: Cipher, cp: Peer, pd: Peer, d: Device, mark1: bool, mark2: bool) returns (cp2: Peer)
    requires !cp.pdMode && !cp.scActive && cp.cmdId == CMD_CHLNG && cp.keys.cMac == ZERO_BLOCK
    requires SC.ScbkInUse(cp.keys, cp.useScbkd) == SC.ScbkInUse(pd.keys, TakenScbkd(cp, pd))
    ensures var sent := Challenged(c, cp, pd, d, mark1);
      && PanelReads(c, Waiting(cp, mark2), Payload(CcryptPayload(sent))) == Some(cp2)
      && cp2 == Waiting(cp, mark2).(keys := cp2.keys)
      && SameDerivation(cp2.keys, sent.keys)
      && cp2.keys.scbk == cp.keys.scbk && sent.keys.scbk == pd.keys.scbk
      && SessionOf(c, SC.ScbkInUse(cp.keys, cp.useScbkd), cp.keys.cpRandom, cp2.keys)
      && cp2.keys.cpRandom == cp.keys.cpRandom && cp2.keys.pdRandom == d.random
  {
    hide SessionOf;
    PanelHearsCcrypt(c, Waiting(cp, mark2), ChallengeRead(cp, pd, d, mark1), d);
    cp2 := PanelReads(c, Waiting(cp, mark2), Payload(CcryptPayload(Challenged(c, cp, pd, d, mark1)))).value;
  }

  function CcryptAnswer(c: Cipher, cp: Peer, pd: Peer, d: Device, mark: bool): Answer {
    var sent := Challenged(c, cp, pd, d, mark);
    Answer(sent, CcryptPayload(sent), KeyOctet(sent.useScbkd), false)
  }

  lemma ChallengeAsked(c: Cipher, cp: Peer, pd: Peer, d: Device, mark: bool)
    requires Invertible(c) && Closed(cp, pd) && cp.cmdId == CMD_CHLNG
    ensures Ask(c, cp, pd, d, ChallengePayload(cp), mark) ==
            (AfterInit(cp), Some(CcryptAnswer(c, cp, pd, d, mark)))
  {
    AskDelivers(c, cp, pd, d, ChallengePayload(cp), mark);
    HeardChallenge(c, cp, pd, d, mark);
    ChallengedInExchange(c, cp, pd, d, mark);
  }

  lemma CcryptReplied(c: Cipher, cp: Peer, a: Answer, mark: bool, cp2: Peer)
    requires Invertible(c) && InExchange(AfterInit(cp), a.pd) && !a.pd.scActive && !a.opens
    requires a.payload != [] && a.payload[0] != REPLY_BUSY
    requires PanelReads(c, Waiting(cp, mark), Payload(a.payload)) == Some(cp2)
    ensures Reply(c, AfterInit(cp), a, mark) == Some((cp2, AfterInit(a.pd)))
  {
    PanelWaits(c, cp, a.pd, a.payload, a.third, mark);
    ReplyIsRead(c, AfterInit(cp), a, mark, cp2);
  }

  lemma ChallengeDerives(c: Cipher, cp: Peer, pd: Peer, d: Device, mark1: bool, mark2: bool, cp2: Peer)
    requires Closed(cp, pd) && MarksSent(cp, mark1, mark2)
    requires cp2 == Waiting(cp, mark2).(keys := cp2.keys)
    requires SameDerivation(cp2.keys, Challenged(c, cp, pd, d, mark1).keys)
    ensures var pd2 := AfterInit(Challenged(c, cp, pd, d, mark1));
      && Derived(cp2, pd2) && pd2.useScbkd == TakenScbkd(cp, pd) && pd2.installMode == pd.installMode
  {
    NextSeqCycle(cp.seqNumber);
  }

  lemma ChallengeDelivers(c: Cipher, cp: Peer, pd: Peer, d: Device, mark1: bool, mark2: bool)
    returns (cp2: Peer, pd2: Peer)
    requires Invertible(c) && Closed(cp, pd) && MarksSent(cp, mark1, mark2)
    requires cp.cmdId == CMD_CHLNG && cp.keys.cMac == ZERO_BLOCK
    requires SC.ScbkInUse(cp.keys, cp.useScbkd) == SC.ScbkInUse(pd.keys, TakenScbkd(cp, pd))
    ensures Leg(c, cp, pd, d, ChallengePayload(cp), mark1, mark2) == Some((cp2, pd2))
    ensures Derived(cp2, pd2) && cp2.keys.scbk == cp.keys.scbk && pd2.keys.scbk == pd.keys.scbk
    ensures cp2.useScbkd == cp.useScbkd && pd2.useScbkd == TakenScbkd(cp, pd)
    ensures cp2.skipMark == cp.skipMark && pd2.installMode == pd.installMode
    ensures SessionOf(c, SC.ScbkInUse(cp.keys, cp.useScbkd), cp.keys.cpRandom, cp2.keys)
    ensures cp2.keys.cpRandom == cp.keys.cpRandom && cp2.keys.pdRandom == d.random
  {
    hide Ask, Reply, PanelReads, Challenged, SessionOf;
    cp2 := ChallengeKeys(c, cp, pd, d, mark1, mark2);
    ChallengeAsked(c, cp, pd, d, mark1);
    ChallengedInExchange(c, cp, pd, d, mark1);
    CcryptReplied(c, cp, CcryptAnswer(c, cp, pd, d, mark1), mark2, cp2);
    ChallengeDerives(c, cp, pd, d, mark1, mark2, cp2);
    pd2 := AfterInit(Challenged(c, cp, pd, d, mark1));
  }

  // ----- SCRYPT and RMAC_I -----

  /** The device as SCRYPT leaves it when it has built its answer. */
  function Scrypted(c: Cipher, cp: Peer, pd: Peer, mark: bool): Peer {
    RMacI(c, CommandTaken(cp, pd.(hasMark := mark)).(useScbkd := TakenScbkd(cp, pd)), cp.keys.cpCryptogram)
  }

  function RMacIAnswer(c: Cipher, cp: Peer, pd: Peer, mark: bool): Answer {
    var sent := Scrypted(c, cp, pd, mark);
    Answer(sent, RMacIPayload(sent), if PanelVerified(c, sent) then 1 else 0, PanelVerified(c, sent))
  }

  lemma HeardScrypt(c: Cipher, cp: Peer, pd: Peer, d: Device, mark: bool)
    requires Closed(cp, pd)
    ensures DeviceReads(c, DeviceAfter(c, cp, pd, ScryptPayload(cp), KeyOctet(cp.useScbkd), mark), d,
                        Payload(ScryptPayload(cp))) == Some(RMacIAnswer(c, cp, pd, mark))
  {
    assert ScryptPayload(cp)[1..] == cp.keys.cpCryptogram;
    var pd1 := DeviceAfter(c, cp, pd, ScryptPayload(cp), KeyOctet(cp.useScbkd), mark);
    assert pd1 == CommandTaken(cp, pd.(hasMark := mark)).(useScbkd := TakenScbkd(cp, pd));
  }

  lemma ScryptedInExchange(c: Cipher, cp: Peer, pd: Peer, mark: bool)
    requires Closed(cp, pd)
    ensures InExchange(AfterSend(c, cp, ScryptPayload(cp)), Scrypted(c, cp, pd, mark))
    ensures AfterSend(c, cp, ScryptPayload(cp)) == AfterInit(cp)
    ensures !Scrypted(c, cp, pd, mark).scActive
  {
    NextSeqCycle(cp.seqNumber);
  }

  lemma ScryptAsked(c: Cipher, cp: Peer, pd: Peer, d: Device, mark: bool)
    requires Invertible(c) && Closed(cp, pd)
    ensures Ask(c, cp, pd, d, ScryptPayload(cp), mark) == (AfterInit(cp), Some(RMacIAnswer(c, cp, pd, mark)))
  {
    hide Ask, DeviceReads, RMacIAnswer, DeviceAfter;
    AskDelivers(c, cp, pd, d, ScryptPayload(cp), mark);
    HeardScrypt(c, cp, pd, d, mark);
    ScryptedInExchange(c, cp, pd, mark);
  }

  /** The device verifies the cryptogram of a panel that derived the same keys. */
  lemma PanelIsVerified(c: Cipher, cp: Peer, pd: Peer, mark: bool)
    requires SameDerivation(cp.keys, pd.keys) && cp.keys.cpCryptogram == SC.CpCryptogram(c, cp.keys)
    ensures PanelVerified(c, Scrypted(c, cp, pd, mark))
  {
  }

  function Opened(cp: Peer, rMac: Block, mark: bool): Peer {
    Waiting(cp, mark).(keys := cp.keys.(rMac := rMac), scActive := true)
  }

  lemma PanelHearsRMacI(c: Cipher, cp: Peer, pd: Peer, mark: bool)
    requires !cp.scActive && cp.cmdId == CMD_SCRYPT
    ensures PanelReads(c, Waiting(cp, mark), Payload(RMacIPayload(pd))) == Some(Opened(cp, pd.keys.rMac, mark))
  {
    assert RMacIPayload(pd)[1..] == pd.keys.rMac;
  }

  lemma RMacIReplied(c: Cipher, cp: Peer, a: Answer, mark: bool, cp2: Peer)
    requires Invertible(c) && InExchange(AfterInit(cp), a.pd) && !a.pd.scActive
    requires a.payload != [] && a.payload[0] != REPLY_BUSY
    requires PanelReads(c, Waiting(cp, mark), Payload(a.payload)) == Some(cp2)
    ensures Reply(c, AfterInit(cp), a, mark) == Some((cp2, AfterInit(a.pd).(scActive := a.opens)))
  {
    hide Reply, PanelReads, PanelAfter;
    PanelWaits(c, cp, a.pd, a.payload, a.third, mark);
    ReplyIsRead(c, AfterInit(cp), a, mark, cp2);
  }

  /** After the four packets: the channel is open on both sides, with the same keys,
      the same R-MAC, and no C-MAC yet. */
  ghost predicate Established(cp: Peer, pd: Peer) {
    && InSync(cp, pd) && cp.scActive && pd.scActive
    && cp.keys.cMac == pd.keys.cMac
  }

  lemma OpenedInSync(c: Cipher, cp: Peer, pd: Peer, mark1: bool, mark2: bool)
    requires Closed(cp, pd) && MarksSent(cp, mark1, mark2)
    requires SameDerivation(cp.keys, pd.keys)
    ensures var sent := Scrypted(c, cp, pd, mark1);
      Established(Opened(cp, sent.keys.rMac, mark2), AfterInit(sent).(scActive := true))
  {
    NextSeqCycle(cp.seqNumber);
  }

  lemma FirstRMacSent(c: Cipher, cp: Peer, pd: Peer, mark: bool)
    requires SameDerivation(cp.keys, pd.keys) && cp.keys.cpCryptogram == SC.CpCryptogram(c, cp.keys)
    ensures Scrypted(c, cp, pd, mark).keys.rMac == FirstRMac(c, cp.keys, cp.keys.cpRandom, cp.keys.pdRandom)
  {
  }

  lemma ScryptDelivers(c: Cipher, cp: Peer, pd: Peer, d: Device, mark1: bool, mark2: bool)
    returns (cp2: Peer, pd2: Peer)
    requires Invertible(c) && Derived(cp, pd) && MarksSent(cp, mark1, mark2)
    requires cp.cmdId == CMD_SCRYPT && cp.keys.cpCryptogram == SC.CpCryptogram(c, cp.keys)
    ensures Leg(c, cp, pd, d, ScryptPayload(cp), mark1, mark2) == Some((cp2, pd2))
    ensures Established(cp2, pd2) && cp2.keys.scbk == cp.keys.scbk && pd2.keys.scbk == pd.keys.scbk
    ensures cp2.useScbkd == cp.useScbkd && pd2.useScbkd == TakenScbkd(cp, pd) && pd2.installMode == pd.installMode
    ensures cp2.skipMark == cp.skipMark
    ensures cp2.keys == cp.keys.(rMac := FirstRMac(c, cp.keys, cp.keys.cpRandom, cp.keys.pdRandom))
  {
    hide Ask, Reply, PanelReads, PanelVerified, SC.InitialRMac;
    FirstRMacSent(c, cp, pd, mark1);
    var a := RMacIAnswer(c, cp, pd, mark1);
    cp2 := Opened(cp, a.pd.keys.rMac, mark2);
    pd2 := AfterInit(a.pd).(scActive := true);
    ScryptAsked(c, cp, pd, d, mark1);
    ScryptedInExchange(c, cp, pd, mark1);
    PanelIsVerified(c, cp, pd, mark1);
    PanelHearsRMacI(c, cp, a.pd, mark2);
    RMacIReplied(c, cp, a, mark2, cp2);
    OpenedInSync(c, cp, pd, mark1, mark2);
  }

  lemma ChallengeReady(cp: Peer, pd: Peer, hasScbk: bool, random: Half)
    requires Closed(cp, pd)
    ensures var cp0 := Challenge(cp, hasScbk, random);
      && Closed(cp0, pd) && cp0.cmdId == CMD_CHLNG && cp0.keys.cMac == ZERO_BLOCK
      && cp0.keys.scbk == (if hasScbk then cp.keys.scbk else ZERO_BLOCK) && cp0.keys.cpRandom == random
      && cp0.useScbkd == cp.useScbkd && cp0.skipMark == cp.skipMark && TakenScbkd(cp0, pd) == TakenScbkd(cp, pd)
      && (SameBaseKey(cp, pd, hasScbk) ==>
            SC.ScbkInUse(cp0.keys, cp0.useScbkd) == SC.ScbkInUse(pd.keys, TakenScbkd(cp0, pd)))
  {
  }

  lemma ScryptReady(c: Cipher, cp: Peer, pd: Peer)
    requires Derived(cp, pd)
    ensures Derived(Scrypt(c, cp), pd) && Scrypt(c, cp).cmdId == CMD_SCRYPT
    ensures Scrypt(c, cp) == cp.(keys := Scrypt(c, cp).keys, cmdId := CMD_SCRYPT)
    ensures Scrypt(c, cp).keys.scbk == cp.keys.scbk
    ensures Scrypt(c, cp).keys.cpCryptogram == SC.CpCryptogram(c, Scrypt(c, cp).keys)
    ensures Scrypt(c, cp).keys == cp.keys.(cpCryptogram := Scrypt(c, cp).keys.cpCryptogram)
  {
  }

  /** Whatever random numbers, UID and marks: when both ends start from the same
      base key, the handshake succeeds and leaves both with the same session, which is
      the one of that key and those numbers. */
  lemma HandshakeAgrees(c: Cipher, cp: Peer, pd: Peer, env: Env) returns (cp2: Peer, pd2: Peer)
    requires Invertible(c) && Closed(cp, pd) && SameBaseKey(cp, pd, env.hasScbk)
    requires MarksSent(cp, env.mark1, env.mark2) && MarksSent(cp, env.mark3, env.mark4)
    ensures Open(c, cp, pd, env) == Some((cp2, pd2))
    ensures Established(cp2, pd2)
    ensures cp2.useScbkd == cp.useScbkd && pd2.useScbkd == TakenScbkd(cp, pd) && pd2.installMode == pd.installMode
    ensures cp2.keys.scbk == (if env.hasScbk then cp.keys.scbk else ZERO_BLOCK) && pd2.keys.scbk == pd.keys.scbk
    ensures cp2.skipMark == cp.skipMark
    ensures var base := if cp.useScbkd then SC.SCBK_DEFAULT else if env.hasScbk then cp.keys.scbk else ZERO_BLOCK;
      && SessionOf(c, base, env.cpRandom, cp2.keys)
      && cp2.keys.rMac == FirstRMac(c, cp2.keys, env.cpRandom, env.device.random)
  {
    hide Leg, Challenge, Scrypt, ScryptPayload, ChallengePayload;
    var cp0 := Challenge(cp, env.hasScbk, env.cpRandom);
    ChallengeReady(cp, pd, env.hasScbk, env.cpRandom);
    var cp1, pd1 := ChallengeDelivers(c, cp0, pd, env.device, env.mark1, env.mark2);
    ScryptReady(c, cp1, pd1);
    cp2, pd2 := ScryptDelivers(c, Scrypt(c, cp1), pd1, env.device, env.mark3, env.mark4);
  }

  // ----- What is refused -----

  lemma DefaultKey(i: nat)
    requires i < 16
    ensures SC.SCBK_DEFAULT[i] == 0x30 + i
  {
  }

  /** The panel takes a CCRYPT only in answer to its CHLNG, of 32 octets, and with the
      cryptogram over both random numbers under the S-ENC of its own base key. */
  lemma CcryptAccepted(c: Cipher, cp: Peer, data: seq<uint8>, sEnc: Block)
    requires sEnc == c.enc(if cp.useScbkd then SC.SCBK_DEFAULT else cp.keys.scbk,
                           [0x01, 0x82] + cp.keys.cpRandom[..6] + EIGHT_ZEROS)
    ensures PanelReads(c, cp, Payload([0x76] + data)).Some? <==>
      && !cp.scActive && cp.cmdId == 0x76 && |data| == 32
      && data[16..] == c.enc(sEnc, cp.keys.cpRandom + data[8..16])
  {
    assert ([0x76] + data)[1..] == data;
    if |data| == 32 {
      var k := cp.keys.(clientUid := data[..8], pdRandom := data[8..16], pdCryptogram := data[16..]);
      KeysAreSession(c, k, cp.useScbkd);
    }
  }

  /** The device opens the channel, and says so, exactly when the panel's cryptogram is the one
      over both random numbers under its own S-ENC. */
  lemma ScryptAccepted(c: Cipher, pd: Peer, d: Device, data: seq<uint8>)
    requires !pd.scActive && |data| == 16
    ensures var answer := DeviceReads(c, pd, d, Payload([0x77] + data));
            var opens := data == c.enc(pd.keys.sEnc, pd.keys.pdRandom + pd.keys.cpRandom);
      && answer.Some? && answer.value.opens == opens && answer.value.third == (if opens then 1 else 0)
      && answer.value.payload == [0x78] + c.enc(pd.keys.sMac2, c.enc(pd.keys.sMac1, data))
  {
    assert ([0x77] + data)[1..] == data;
  }

  /** The first command and its answer, octet by octet. */
  lemma ChallengePackets(c: Cipher, cp: Peer, pd: Peer, d: Device)
    ensures ChallengePayload(cp) == [0x76] + cp.keys.cpRandom
    ensures var answer := DeviceReads(c, pd, d, Payload(ChallengePayload(cp)));
      && answer.Some? && !answer.value.opens && answer.value.third == (if pd.useScbkd then 0 else 1)
      && var k := answer.value.pd.keys;
         && SessionOf(c, if pd.useScbkd then SC.SCBK_DEFAULT else pd.keys.scbk, cp.keys.cpRandom, k)
         && answer.value.payload == [0x76] + d.uid + d.random + c.enc(k.sEnc, cp.keys.cpRandom + d.random)
  {
    assert ChallengePayload(cp)[1..] == cp.keys.cpRandom;
    var taken := TakeChallenge(pd, d, cp.keys.cpRandom);
    KeysAreSession(c, taken.keys.(pdRandom := d.random), pd.useScbkd);
  }
}
