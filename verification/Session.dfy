/** The life of a secured link: exchanges, new addresses and new keys in any order, and
    what the panel's automaton does meanwhile. */
module Session {
  import opened Bytes
  import opened Codes
  import opened Options
  import opened BlockCipher
  import opened Phy
  import opened Packet
  import opened Link
  import opened Handshake
  import opened KeyRotation
  import M = CpStateMachine

  /** COMSET: the panel names an address and a baud rate, the device accepts them, and
      both switch once COM has been sent. */
  datatype Moving = Moving(address: uint8, rate: seq<uint8>, mark1: bool, mark2: bool)

  function MoveTurn(m: Moving): Turn {
    Turn([CMD_COMSET, m.address] + m.rate, 0, m.mark1, [REPLY_COM, m.address] + m.rate, 0, m.mark2)
  }

  /** The address in a COMSET or a COM. */
  function AddressNamed(id: uint8, d: Decoded): Option<uint8> {
    if d.Payload? && |d.bytes| == 6 && d.bytes[0] == id then Some(d.bytes[1]) else None
  }

  /** A device refuses 0x7F and above. */
  function Move(c: Cipher, cp: Peer, pd: Peer, m: Moving): Option<(Peer, Peer)> {
    var e := Exchange(c, cp, pd, MoveTurn(m));
    match AddressNamed(CMD_COMSET, e.2)
    case None => None
    case Some(taken) =>
      if taken >= BROADCAST then None
      else
        match AddressNamed(REPLY_COM, e.3)
        case None => None
        case Some(told) => Some((e.0.(address := told), e.1.(address := taken)))
  }

  datatype Step = Talk(turn: Turn) | Readdress(moving: Moving) | Rekey(rotation: Rotation)

  /** One step; None when a payload arrives wrong or a rotation fails. */
  function Do(c: Cipher, cp: Peer, pd: Peer, s: Step): Option<(Peer, Peer)> {
    match s
    case Talk(t) =>
      if t.command == [] || t.reply == [] then None
      else
        var e := Exchange(c, cp, pd, t);
        if e.2 == Payload(t.command) && e.3 == Payload(t.reply) then Some((e.0, e.1)) else None
    case Readdress(m) => Move(c, cp, pd, m)
    case Rekey(r) => Rotate(c, cp, pd, r)
  }

  function DoAll(c: Cipher, cp: Peer, pd: Peer, steps: seq<Step>): Option<(Peer, Peer)>
    decreases |steps|
  {
    if steps == [] then Some((cp, pd))
    else
      match Do(c, cp, pd, steps[0])
      case None => None
      case Some(next) => DoAll(c, next.0, next.1, steps[1..])
  }

  /** A step that can happen while the panel is ONLINE over an open channel. */
  ghost predicate Allowed(skipMark: bool, s: Step) {
    match s
    case Talk(t) => Possible(skipMark, true, t) && Ordinary(t)
    case Readdress(m) =>
      m.address < BROADCAST && |m.rate| == 4 && (m.mark1 ==> !skipMark) && (m.mark2 ==> m.mark1)
    case Rekey(r) => Feasible(skipMark, r) && r.online
  }

  /** The base key after the steps. */
  function KeyAfter(key: Block, steps: seq<Step>): Block
    decreases |steps|
  {
    if steps == [] then key
    else KeyAfter(if steps[0].Rekey? then steps[0].rotation.requested else key, steps[1..])
  }

  lemma TalkAgrees(c: Cipher, cp: Peer, pd: Peer, key: Block, t: Turn) returns (cp2: Peer, pd2: Peer)
    requires Invertible(c) && KeyedSession(cp, pd, key) && Possible(cp.skipMark, true, t) && Ordinary(t)
    ensures Do(c, cp, pd, Talk(t)) == Some((cp2, pd2))
    ensures KeyedSession(cp2, pd2, key) && cp2.skipMark == cp.skipMark
  {
    hide Exchange, Possible, Ordinary;
    OpenAndCapable(cp, pd, key);
    TurnFacts(c, cp, pd, t);
    var e := Exchange(c, cp, pd, t);
    cp2, pd2 := e.0, e.1;
    StaysKeyed(cp, pd, key, cp2, pd2);
  }

  lemma OpenAndCapable(cp: Peer, pd: Peer, key: Block)
    requires KeyedSession(cp, pd, key)
    ensures InSync(cp, pd) && cp.scActive && pd.scCapable && -1 <= cp.seqNumber <= 3
  {
  }

  lemma StaysKeyed(cp: Peer, pd: Peer, key: Block, cp2: Peer, pd2: Peer)
    requires KeyedSession(cp, pd, key) && InSync(cp2, pd2) && cp2.scActive
    requires SameSettings(cp, cp2) && SameSettings(pd, pd2)
    ensures KeyedSession(cp2, pd2, key) && cp2.skipMark == cp.skipMark
  {
  }

  lemma MovePossible(skipMark: bool, m: Moving)
    requires |m.rate| == 4 && (m.mark1 ==> !skipMark) && (m.mark2 ==> m.mark1)
    ensures Possible(skipMark, true, MoveTurn(m)) && !InHandshake(false, MoveTurn(m).command[0])
    ensures AddressNamed(CMD_COMSET, Payload(MoveTurn(m).command)) == Some(m.address)
    ensures AddressNamed(REPLY_COM, Payload(MoveTurn(m).reply)) == Some(m.address)
  {
  }

  lemma MoveAgrees(c: Cipher, cp: Peer, pd: Peer, key: Block, m: Moving) returns (cp2: Peer, pd2: Peer)
    requires Invertible(c) && KeyedSession(cp, pd, key) && Allowed(cp.skipMark, Readdress(m))
    ensures Move(c, cp, pd, m) == Some((cp2, pd2))
    ensures KeyedSession(cp2, pd2, key) && cp2.skipMark == cp.skipMark
    ensures cp2.address == pd2.address == m.address
  {
    hide Exchange, After, Possible, MoveTurn, AddressNamed;
    var t := MoveTurn(m);
    OpenAndCapable(cp, pd, key);
    MovePossible(cp.skipMark, m);
    MoveFacts(c, cp, pd, t);
    var e := Exchange(c, cp, pd, t);
    StaysKeyed(cp, pd, key, e.0, e.1);
    cp2, pd2 := e.0.(address := m.address), e.1.(address := m.address);
    MovedKeyed(e.0, e.1, key, m.address);
  }

  /** A COMSET that arrives is refused exactly for 0x7F and above. */
  lemma MoveExactly(c: Cipher, cp: Peer, pd: Peer, key: Block, m: Moving)
    requires Invertible(c) && KeyedSession(cp, pd, key) && |m.rate| == 4
    requires (m.mark1 ==> !cp.skipMark) && (m.mark2 ==> m.mark1)
    ensures Move(c, cp, pd, m).Some? <==> m.address < 0x7F
  {
    hide Exchange, After, MoveTurn, AddressNamed;
    OpenAndCapable(cp, pd, key);
    MovePossible(cp.skipMark, m);
    MoveFacts(c, cp, pd, MoveTurn(m));
  }

  lemma MoveFacts(c: Cipher, cp: Peer, pd: Peer, t: Turn)
    requires Invertible(c) && InSync(cp, pd) && Possible(cp.skipMark, pd.scCapable, t)
    requires t.command != [] && t.reply != [] && !InHandshake(false, t.command[0])
    ensures var e := Exchange(c, cp, pd, t);
      && e.2 == Payload(t.command) && e.3 == Payload(t.reply)
      && InSync(e.0, e.1) && e.0.scActive == cp.scActive && SameSettings(cp, e.0) && SameSettings(pd, e.1)
  {
    hide Exchange, After;
    ExchangeDelivers(c, cp, pd, t);
    ExchangeKeepsStep(c, cp, pd, t);
    ExchangeKeepsSettings(c, cp, pd, t);
  }

  lemma MovedKeyed(cp: Peer, pd: Peer, key: Block, address: uint8)
    requires KeyedSession(cp, pd, key) && address < BROADCAST
    ensures KeyedSession(cp.(address := address), pd.(address := address), key)
  {
  }

  lemma StepAgrees(c: Cipher, cp: Peer, pd: Peer, key: Block, s: Step) returns (cp2: Peer, pd2: Peer)
    requires Invertible(c) && KeyedSession(cp, pd, key) && Allowed(cp.skipMark, s)
    ensures Do(c, cp, pd, s) == Some((cp2, pd2)) && cp2.skipMark == cp.skipMark
    ensures KeyedSession(cp2, pd2, if s.Rekey? then s.rotation.requested else key)
    ensures s.Readdress? ==> cp2.address == pd2.address == s.moving.address
  {
    hide Exchange, KeyedSession, Feasible, Possible, Ordinary, Move, Rotate;
    match s {
      case Talk(t) => cp2, pd2 := TalkAgrees(c, cp, pd, key, t);
      case Readdress(m) => cp2, pd2 := MoveAgrees(c, cp, pd, key, m);
      case Rekey(r) =>
        KeyedSessionParts(cp, pd, key);
        cp2, pd2 := RotateAgrees(c, cp, pd, r);
    }
  }

  /** Over every run of exchanges, new addresses and new keys, in any order: every
      payload arrives as it was sent, no rotation fails, and both ends finish with an
      open channel, the same address, and the key requested last. */
  lemma {:induction false} LifeAgrees(c: Cipher, cp: Peer, pd: Peer, key: Block, steps: seq<Step>)
    returns (cp2: Peer, pd2: Peer)
    requires Invertible(c) && KeyedSession(cp, pd, key)
    requires forall i :: 0 <= i < |steps| ==> Allowed(cp.skipMark, steps[i])
    ensures DoAll(c, cp, pd, steps) == Some((cp2, pd2))
    ensures KeyedSession(cp2, pd2, KeyAfter(key, steps)) && cp2.skipMark == cp.skipMark
    decreases |steps|
  {
    hide Do, KeyedSession, Allowed;
    if steps == [] {
      cp2, pd2 := cp, pd;
    } else {
      var cp1, pd1 := StepAgrees(c, cp, pd, key, steps[0]);
      cp2, pd2 := LifeAgrees(c, cp1, pd1,
                             if steps[0].Rekey? then steps[0].rotation.requested else key, steps[1..]);
    }
  }

  // ----- The panel's automaton meanwhile -----

  /** The automaton's flags are those of the packet layer. */
  ghost predicate Shows(m: M.Cp, cp: Peer) {
    m.ch.active == cp.scActive && m.ch.useScbkd == cp.useScbkd
  }

  /** KEYSET has been sent and its ACK is there. */
  ghost predicate KeysetAcked(m: M.Cp, env: M.Env) {
    && M.Safe(m) && m.phy == M.ReplyWait && m.cmdId == CMD_KEYSET && (m.state == M.Online || m.state == M.SetScbk)
    && env.arrival.Payload? && env.arrival.id == REPLY_ACK && env.arrival.fits
  }

  /** A reply without an effect of its own ends the exchange. */
  lemma ReplyEnds(m: M.Cp, env: M.Env)
    requires m.phy == M.ReplyWait && env.arrival.Payload? && env.arrival.fits
    requires M.IsKnownReply(env.arrival.id)
    requires env.arrival.id !in {REPLY_BUSY, REPLY_CCRYPT, REPLY_RMAC_I, REPLY_PDCAP}
    ensures var (p, rc) := M.PhyUpdate(m, env);
      && rc == M.Success
      && p == m.(phy := M.Done, retries := 0, replyId := env.arrival.id, req := p.req)
      && p.req.restartSc == m.req.restartSc
      && (env.arrival.id == REPLY_ACK || !env.arrival.resets ==> p.req.offline == m.req.offline)
  {
    hide M.IsEvent, M.IsKnownReply;
  }

  lemma Settled(m: M.Cp, env: M.Env)
    requires m.phy == M.ReplyWait && M.PhyUpdate(m, env).1 == M.Success && M.PhyUpdate(m, env).0.phy == M.Done
    ensures M.Update(m, env).0 == M.Settle(M.PhyUpdate(m, env).0, false, env)
  {
    hide M.PhyUpdate, M.Settle, M.StateCommand;
  }

  lemma SettleKeyset(p: M.Cp, env: M.Env)
    requires p.cmdId == CMD_KEYSET && p.replyId == REPLY_ACK && p.phy == M.Done
    requires !p.req.restartSc && (p.state == M.Online || p.state == M.SetScbk)
    ensures var m' := M.Settle(p, false, env);
      && m'.state == (if p.state == M.Online && p.req.offline then M.Offline else M.ScChlng)
      && m'.phy == M.Idle && !m'.ch.active && !m'.ch.useScbkd
      && (m'.state == M.ScChlng ==> !m'.ch.verified && !m'.ch.rmacTaken)
  {
  }

  /** After an acknowledged KEYSET the panel's next state is SC_CHLNG, unless it was
      asked to go offline; its channel and SCBK-D are gone, as on the packet layer, and
      nothing counts as verified any more. */
  lemma KeysetRestarts(m: M.Cp, env: M.Env, cp: Peer, key: Block)
    requires KeysetAcked(m, env) && Shows(m, cp)
    ensures var m' := M.Update(m, env).0;
      && m'.state == (if m.state == M.Online && m.req.offline then M.Offline else M.ScChlng)
      && m'.phy == M.Idle && (m'.state == M.ScChlng ==> !m'.ch.verified && !m'.ch.rmacTaken)
      && Shows(m', KeysetComplete(cp, m.state == M.Online, key))
  {
    hide M.PhyUpdate, M.Settle, M.Update;
    ReplyEnds(m, env);
    Settled(m, env);
    SettleKeyset(M.PhyUpdate(m, env).0, env);
  }

  lemma SettleOnline(p: M.Cp, env: M.Env)
    requires p.state == M.Online && p.ch.active && p.phy == M.Done && !p.req.restartSc && !p.req.offline
    requires M.CheckOnline(p) == (p, true)
    ensures var m' := M.Settle(p, false, env); m'.state == M.Online && m'.phy == M.Idle && m'.ch == p.ch
  {
    hide M.CheckOnline;
  }

  /** A reply that is the right one for its command leaves the panel ONLINE, with its
      channel, and idle. */
  lemma TurnStaysOnline(m: M.Cp, env: M.Env)
    requires M.Safe(m) && m.phy == M.ReplyWait && m.state == M.Online && m.ch.active && !m.req.offline
    requires env.arrival.Payload? && env.arrival.fits && !env.arrival.resets
    requires M.IsKnownReply(env.arrival.id)
    requires env.arrival.id !in {REPLY_BUSY, REPLY_CCRYPT, REPLY_RMAC_I, REPLY_PDCAP}
    requires M.CheckOnline(m.(replyId := env.arrival.id)).1
    requires !(m.cmdId == CMD_KEYSET && env.arrival.id == REPLY_ACK)
    ensures var m' := M.Update(m, env).0; m'.state == M.Online && m'.phy == M.Idle && m'.ch == m.ch
  {
    hide M.PhyUpdate, M.Settle, M.Update;
    ReplyEnds(m, env);
    Settled(m, env);
    OnlineReply(m, M.PhyUpdate(m, env).0);
    SettleOnline(M.PhyUpdate(m, env).0, env);
  }

  lemma OnlineReply(m: M.Cp, p: M.Cp)
    requires p == m.(phy := p.phy, retries := p.retries, replyId := p.replyId, req := p.req)
    requires M.CheckOnline(m.(replyId := p.replyId)).1 && !(m.cmdId == CMD_KEYSET && p.replyId == REPLY_ACK)
    ensures M.CheckOnline(p) == (p, true)
  {
    hide M.IsEvent;
  }
}
