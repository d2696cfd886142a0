/** Where the panel's automaton goes from each state, whatever arrives: stated of
    state_update as a whole, with the identifiers and limits as numbers. */
module Successors {
  import opened Options
  import opened CpStateMachine
  import opened KeyCommit

  // ----- What becomes of an exchange -----

  /** Nothing whole within the reply timeout and less than eight repetitions, or BUSY. */
  predicate Waits(cp: Cp, env: Env) {
    match env.arrival
    case Silence => !env.timedOut || cp.retries < 8
    case BusyPacket => true
    case Payload(id, fits, _, _, _) => id == 0x79 && fits
    case _ => false
  }

  /** The reply that each state before ONLINE waits for. */
  predicate RightReply(cp: Cp, a: Arrival) {
    && a.Payload? && a.fits
    && match cp.state {
         case Init => a.id == 0x45
         case CapDet => a.id == 0x46
         case ScChlng => a.id == 0x76 && a.verifies
         case ScScrypt => a.id == 0x78
         case SetScbk => a.id == 0x40
         case _ => false
       }
  }

  datatype Fate = Pending | Right | Wrong

  function FateOf(cp: Cp, env: Env): Fate {
    match cp.phy
    case ReplyWait => if Waits(cp, env) then Pending else if RightReply(cp, env.arrival) then Right else Wrong
    case Wait => if !env.waitOver || env.sends then Pending else Wrong
    case _ => if env.sends then Pending else Wrong
  }

  /** The command of a running exchange is the one that belongs to the state. */
  ghost predicate Asked(cp: Cp) {
    Running(cp.phy) ==>
      match cp.state
      case Init => cp.cmdId == 0x61
      case CapDet => cp.cmdId == 0x62
      case ScChlng => cp.cmdId == 0x76
      case ScScrypt => cp.cmdId == 0x77
      case SetScbk => cp.cmdId == 0x75
      case _ => true
  }

  // ----- Phases of one call -----

  lemma ReplyPhase(cp: Cp, env: Env)
    requires Safe(cp) && Asked(cp) && cp.phy == ReplyWait && cp.state != Online
    ensures var (p, rc) := PhyUpdate(cp, env);
            var fate := FateOf(cp, env);
      && (fate == Pending <==> rc == InProg || rc == CanYield)
      && (fate == Right <==> p.phy == Done && CheckReply(p).1)
      && p.state == cp.state && p.cmdId == cp.cmdId && p.conf == cp.conf
  {
    hide Safe, IsEvent;
    WaitingState(cp);
  }

  lemma WaitingState(cp: Cp)
    requires Safe(cp) && Running(cp.phy)
    ensures cp.state != Offline && (cp.state == ScChlng || cp.state == ScScrypt ==> !cp.ch.active)
    ensures !cp.req.restartSc
  {
  }

  lemma SendPhase(cp: Cp, env: Env)
    requires Safe(cp) && (cp.phy == SendCmd || cp.phy == Wait) && cp.state != Online
    ensures var (p, rc) := PhyUpdate(cp, env);
      && FateOf(cp, env) != Right
      && (FateOf(cp, env) == Pending <==> rc == InProg || rc == CanYield)
      && (FateOf(cp, env) == Pending ==> p.ch == cp.ch)
      && (FateOf(cp, env) == Wrong ==> p == cp.(phy := Err))
  {
  }

  /** Before ONLINE the check of a reply changes nothing. */
  lemma CheckAlone(p: Cp)
    ensures p.state != Online ==> CheckReply(p).0 == p
  {
  }

  /** A request to go offline is noted, or comes with this file status. */
  predicate OfflineAsked(cp: Cp, env: Env) {
    cp.req.offline ||
    (cp.phy == ReplyWait && env.arrival.Payload? && env.arrival.id == 0x7A && env.arrival.fits && env.arrival.resets)
  }

  lemma PayloadFlags(cp: Cp, a: Arrival)
    requires a.Payload?
    ensures var (p, rc) := DecodeResponse(cp, a.id, a);
      && p.phy == cp.phy && p.req.restartSc == cp.req.restartSc && p.ch.useScbkd == cp.ch.useScbkd
      && p.ch.active == cp.ch.active && (rc == RetryCmd ==> p.ch == cp.ch)
      && p.req.offline == (cp.req.offline || (a.id == 0x7A && a.fits && a.resets))
      && (rc == Success && a.id == 0x46 ==> p.ch.capable == a.capable)
      && (rc == Success && a.id == 0x76 ==> p.ch.verified)
      && (a.id == 0x76 || a.id == 0x46 ==> rc == Success || rc == Generic)
      && (a.id == 0x79 && a.fits ==> rc == RetryCmd)
  {
    hide IsEvent;
  }

  lemma ReplyFlags(cp: Cp, env: Env)
    requires Safe(cp) && Asked(cp) && cp.phy == ReplyWait && cp.state != Online
    ensures var p := PhyUpdate(cp, env).0;
            var fate := FateOf(cp, env);
      && p.req.restartSc == cp.req.restartSc && p.ch.useScbkd == cp.ch.useScbkd
      && (p.ch.active ==> cp.ch.active) && (fate == Right ==> p.ch.active == cp.ch.active)
      && (fate == Pending ==> p.ch == cp.ch)
      && (fate != Pending ==> p.req.offline == OfflineAsked(cp, env) && (p.phy == Done || p.phy == Err))
      && (fate == Right && cp.state == CapDet ==> p.ch.capable == env.arrival.capable)
      && (fate == Right && cp.state == ScChlng ==> p.ch.verified)
  {
    hide Safe, DecodeResponse;
    WaitingState(cp);
    ReplyPhase(cp, env);
    if env.arrival.Payload? {
      PayloadFlags(cp, env.arrival);
    }
  }

  /** Where a state goes when its reply has come. */
  function RightNext(cp: Cp, capable: bool, online: CpState): CpState {
    match cp.state
    case Init => CapDet
    case CapDet => if capable && !cp.conf.scDisabled then ScChlng else if cp.conf.enforce then Offline else online
    case ScChlng => ScScrypt
    case ScScrypt => if cp.ch.useScbkd then SetScbk else online
    case SetScbk => ScChlng
    case _ => cp.state
  }

  /** Where it goes when anything else has come, or the command could not be sent. */
  function WrongNext(cp: Cp, online: CpState): CpState {
    match cp.state
    case ScChlng => if cp.conf.enforce then Offline else if cp.ch.useScbkd then online else ScChlng
    case ScScrypt => if cp.conf.enforce then Offline else online
    case SetScbk => if cp.conf.enforce || cp.ch.useScbkd then Offline else online
    case _ => Offline
  }

  lemma RightAdvance(p: Cp, env: Env, capable: bool)
    requires p.phy == Idle && p.state != Online && p.state != Offline && !p.req.restartSc
    requires p.state == CapDet ==> p.ch.capable == capable
    ensures var online := if p.req.offline then Offline else Online;
            var q := Advance(p, false, env);
      q.phy == Idle && q.state == RightNext(p, capable, online) && q.conf == p.conf
  {
  }

  lemma OkFlags(p: Cp, env: Env)
    requires p.state != Online && p.state != Offline
    ensures var (r, next) := NextOk(p, env);
      && r.ch.capable == p.ch.capable && r.req == p.req && r.state == p.state && next != p.state
      && (p.state == CapDet && next == ScChlng ==> !r.ch.useScbkd)
      && (p.state == ScChlng ==> r == p && next == ScScrypt)
      && (p.state == ScScrypt ==> r == p.(ch := p.ch.(active := true)) && (next == SetScbk || next == Online))
      && (p.state == SetScbk ==> !r.ch.active && !r.ch.useScbkd && next == ScChlng)
  {
  }

  lemma RightFlags(p: Cp, env: Env)
    requires p.phy == Idle && p.state != Online && p.state != Offline && !p.req.restartSc
    ensures var q := Advance(p, false, env);
      && q.ch.capable == p.ch.capable && (!p.req.offline ==> !q.req.offline)
      && (p.state == CapDet && q.state == ScChlng ==> !q.ch.useScbkd && !q.ch.verified)
      && (p.state == ScChlng ==> q.ch.verified == p.ch.verified && q.ch.useScbkd == p.ch.useScbkd)
      && (p.state == ScScrypt ==> (q.ch.active <==> q.state != Offline) && q.ch.useScbkd == p.ch.useScbkd)
      && (p.state == SetScbk ==> !q.ch.active && !q.ch.useScbkd && !q.ch.verified)
  {
    hide NextOk;
    OkFlags(p, env);
  }

  lemma WrongAdvance(p: Cp, env: Env)
    requires p.phy == Idle && p.state != Online && p.state != Offline && !p.req.restartSc
    requires p.ch.active ==> p.state == SetScbk
    ensures var online := if p.req.offline then Offline else Online;
            var q := Advance(p, true, env);
      && q.phy == Idle && q.state == WrongNext(p, online) && !q.ch.active
      && (p.state == ScChlng ==> q.ch.useScbkd == (if p.conf.enforce then p.ch.useScbkd else q.state == ScChlng))
  {
  }

  /** Every call in every state before ONLINE, whatever arrives. In CAPDET a device that reports
      the channel is challenged with its own key, whether the channel is enforced or not; a
      failed challenge is tried once more with SCBK-D; only the RMAC_I opens the channel. */
  lemma Successor(cp: Cp, env: Env)
    requires Safe(cp) && Asked(cp) && Running(cp.phy) && cp.state != Online
    ensures var q := Update(cp, env).0;
            var online := if OfflineAsked(cp, env) then Offline else Online;
      match FateOf(cp, env) {
        case Pending => q.state == cp.state && Running(q.phy) && q.ch == cp.ch
        case Right =>
          && q.phy == Idle && q.state == RightNext(cp, env.arrival.capable, online)
          && q.conf == cp.conf && (!OfflineAsked(cp, env) ==> !q.req.offline)
          && (cp.state == CapDet ==> q.ch.capable == env.arrival.capable)
          && (cp.state == CapDet && q.state == ScChlng ==> !q.ch.useScbkd && !q.ch.verified)
          && (cp.state == ScChlng ==> q.ch.verified && q.ch.useScbkd == cp.ch.useScbkd)
          && (cp.state == ScScrypt ==> (q.ch.active <==> q.state != Offline) && q.ch.useScbkd == cp.ch.useScbkd)
          && (cp.state == SetScbk ==> !q.ch.active && !q.ch.useScbkd && !q.ch.verified)
        case Wrong =>
          && q.phy == Idle && q.state == WrongNext(cp, online) && !q.ch.active
          && (cp.state == ScChlng && !cp.conf.enforce ==> (q.ch.useScbkd <==> q.state == ScChlng))
      }
  {
    hide PhyUpdate, CheckReply, Advance;
    PhyKeeps(cp, env);
    WaitingState(cp);
    if cp.phy == ReplyWait {
      ReplyPhase(cp, env);
      ReplyFlags(cp, env);
    } else {
      SendPhase(cp, env);
    }
    var p := PhyUpdate(cp, env).0;
    CheckAlone(p);
    if FateOf(cp, env) == Right {
      RightAdvance(p.(phy := Idle), env, env.arrival.capable);
      RightFlags(p.(phy := Idle), env);
    } else if FateOf(cp, env) == Wrong {
      WrongAdvance(p.(phy := Idle), env);
    }
  }

  // ----- ONLINE and OFFLINE -----

  /** Replies that become events: card reads, keys, the four status reports, MFGREP. */
  predicate Event(id: int) { id in {0x48, 0x49, 0x4A, 0x4B, 0x50, 0x53, 0x90} }

  predicate Known(id: int) {
    Event(id) || id in {0x40, 0x41, 0x45, 0x46, 0x51, 0x54, 0x76, 0x78, 0x79, 0x7A}
  }

  /** FILETRANSFER, COMSET, MFG and the four status commands have their own replies. */
  predicate Pair(cmd: int, id: int) {
    (cmd, id) in {(0x7C, 0x7A), (0x6E, 0x54), (0x80, 0x90), (0x64, 0x48), (0x65, 0x49), (0x66, 0x4A), (0x67, 0x4B)}
  }

  /** The replies that keep a device ONLINE: ACK to anything, an event to a poll, its own
      reply to another command; and, where unsolicited replies are ignored, to a poll anything
      that decodes or is unknown, but for NAK and the identifier 0. */
  predicate OnlineRight(cp: Cp, a: Arrival) {
    && a.Payload?
    && if cp.cmdId != 0x60 then a.fits && (a.id == 0x40 || Pair(cp.cmdId, a.id))
       else
         || (a.fits && (a.id == 0x40 || Event(a.id)))
         || (cp.conf.ignUnsolicited && a.id != 0x00 && a.id != 0x41 && a.id != 0x40 &&
             (!Known(a.id) || ((a.fits || a.id == 0x51) && a.id != 0x76 && a.id != 0x78)))
  }

  lemma OnlinePhase(cp: Cp, env: Env)
    requires Safe(cp) && cp.phy == ReplyWait && cp.state == Online
    ensures var (p, rc) := PhyUpdate(cp, env);
      && (Waits(cp, env) <==> rc == InProg || rc == CanYield)
      && p.state == Online && p.cmdId == cp.cmdId && p.conf == cp.conf
      && (Waits(cp, env) ==> p.ch == cp.ch)
      && (!Waits(cp, env) ==>
            && (OnlineRight(cp, env.arrival) <==> p.phy == Done && CheckOnline(p).1)
            && (p.phy == Done || p.phy == Err)
            && (p.replyId == 0x40 ==> (env.arrival.Payload? && env.arrival.id == 0x40) || cp.replyId == 0x40)
            && (env.arrival.Payload? ==> p.replyId == env.arrival.id))
  {
    hide Safe;
    WaitingState(cp);
  }

  lemma OnlineFlags(cp: Cp, env: Env)
    requires Safe(cp) && cp.phy == ReplyWait && cp.state == Online && !Waits(cp, env)
    ensures var p := PhyUpdate(cp, env).0;
      && p.req.offline == OfflineAsked(cp, env) && !p.req.restartSc && (p.ch.active ==> cp.ch.active)
      && (p.phy == Done ==>
            && p.ch.active == cp.ch.active && env.arrival.Payload?
            && p.ch.capable ==
                 if env.arrival.id == 0x46 && env.arrival.fits then env.arrival.capable else cp.ch.capable)
  {
    hide Safe, DecodeResponse, IsKnownReply, IsEvent;
    WaitingState(cp);
    if env.arrival.Payload? {
      PayloadFlags(cp, env.arrival);
      PayloadCapable(cp, env.arrival);
    }
  }

  lemma PayloadCapable(cp: Cp, a: Arrival)
    requires a.Payload?
    ensures DecodeResponse(cp, a.id, a).0.ch.capable == if a.id == 0x46 && a.fits then a.capable else cp.ch.capable
  {
    hide IsEvent;
  }

  lemma OnlineAdvance(p: Cp, err: bool, env: Env)
    requires p.state == Online && p.phy == Idle
    ensures var q := Advance(p, err, env);
      && q.phy == Idle && q.ch.active == (p.ch.active && q.state != Offline)
      && q.state ==
           if p.req.offline then Offline
           else if p.req.restartSc then ScChlng
           else if err then Offline
           else if p.ch.capable && !p.conf.scDisabled && !p.ch.active && env.retryDue then ScChlng
           else Online
  {
  }

  /** A call in ONLINE while a reply is awaited: a wrong reply takes the device OFFLINE, a right
      one keeps it ONLINE; the ACK for a KEYSET, and the time to try for a channel again, take
      it to the challenge; a request to go offline comes before all that. */
  lemma OnlineSuccessor(cp: Cp, env: Env)
    requires Safe(cp) && Cleared(cp) && cp.phy == ReplyWait && cp.state == Online
    ensures var q, a := Update(cp, env).0, env.arrival;
      if Waits(cp, env) then q.state == Online && Running(q.phy) && q.ch == cp.ch
      else
        && q.phy == Idle && q.ch.active == (cp.ch.active && q.state == Online)
        && q.state ==
             if OfflineAsked(cp, env) then Offline
             else if cp.cmdId == 0x75 && a.Payload? && a.id == 0x40 then ScChlng
             else if !OnlineRight(cp, a) then Offline
             else if !cp.ch.active && env.retryDue && !cp.conf.scDisabled &&
                     (if a.id == 0x46 && a.fits then a.capable else cp.ch.capable) then ScChlng
             else Online
  {
    hide PhyUpdate, CheckOnline, Advance, OnlineRight;
    PhyKeeps(cp, env);
    OnlinePhase(cp, env);
    if !Waits(cp, env) {
      OnlineFlags(cp, env);
      var p := PhyUpdate(cp, env).0;
      OnlineChecked(p);
      var (r, ok) := CheckOnline(p);
      OnlineAdvance(r.(phy := Idle), p.phy == Err || !ok, env);
    }
  }

  lemma OnlineChecked(p: Cp)
    requires p.state == Online
    ensures var (r, ok) := CheckOnline(p);
      if p.cmdId == 0x75 && p.replyId == 0x40 then
        r == p.(ch := p.ch.(useScbkd := false, active := false), req := p.req.(restartSc := true))
      else r == p
  {
  }

  /** The command of each state before ONLINE: ID, CAP, CHLNG, SCRYPT, KEYSET. */
  lemma IdleAsks(cp: Cp, env: Env)
    requires cp.phy == Idle && cp.state != Online && cp.state != Offline
    ensures Update(cp, env) ==
      (cp.(phy := SendCmd,
           cmdId := match cp.state
             case Init => 0x61
             case CapDet => 0x62
             case ScChlng => 0x76
             case ScScrypt => 0x77
             case _ => 0x75), CanYield)
  {
  }

  /** ONLINE: the application's queue first, then a file transfer, then a poll when one is due.
      KEYSET is sent only with a key and through an open channel; what is not sent is dropped. */
  lemma OnlineAsks(cp: Cp, env: Env)
    requires Safe(cp) && cp.phy == Idle && cp.state == Online && KnownQueue(env)
    ensures var cmd :=
        match env.queued {
          case Some(Output) => 0x68
          case Some(Led) => 0x69
          case Some(Buzzer) => 0x6A
          case Some(Text) => 0x6B
          case Some(Comset) => 0x6E
          case Some(Mfg) => 0x80
          case Some(Input) => 0x65
          case Some(OutputStatus) => 0x66
          case Some(Local) => 0x64
          case Some(Remote) => 0x67
          case Some(Keyset(named)) => if named && cp.ch.active then 0x75 else -1
          case Some(_) => -1
          case None =>
            match env.file
            case HoldOn => -1
            case SendAbort => 0xA2
            case SendPoll => 0x60
            case SendChunk => 0x7C
            case NothingToSend => if env.pollDue then 0x60 else -1
        };
      var q := Update(cp, env).0;
      if cmd > 0 then q == cp.(cmdId := cmd, phy := SendCmd)
      else
        && q.phy == Idle && q.ch.active == (cp.ch.active && q.state == Online)
        && q.state ==
             if cp.req.offline then Offline
             else if !cp.ch.active && env.retryDue && !cp.conf.scDisabled && cp.ch.capable then ScChlng
             else Online
  {
    hide Advance;
    var (p, cmd) := StateCommand(cp, env);
    OnlineAdvance(p.(cmdId := cmd), false, env);
  }

  /** OFFLINE is left after its time, for INIT, with everything about the last exchange forgotten. */
  lemma OfflineLeft(cp: Cp, env: Env)
    requires Safe(cp) && cp.state == Offline
    ensures var q := Update(cp, env).0;
      && q.phy == Idle && !q.ch.active
      && q.state == (if env.offlineOver then Init else Offline)
      && (env.offlineOver ==> q.retries == 0)
  {
  }

  // ----- Runs -----

  /** A reply that does not come in time: the command goes out again, at most eight times. */
  lemma Repeats(cp: Cp, env: Env)
    requires Safe(cp) && cp.phy == ReplyWait && env.arrival == Silence
    ensures Update(cp, env) ==
      if !env.timedOut then (cp, InProg)
      else if cp.retries < 8 then (cp.(phy := Wait, retries := cp.retries + 1), CanYield)
      else (Update(cp, env).0, CanYield)
    ensures env.timedOut && cp.retries == 8 ==> Update(cp, env).0.phy == Idle
  {
    hide Advance;
    UpdateKeeps(cp, env.(queued := None));
    PhyKeeps(cp, env);
    var p := PhyUpdate(cp, env).0;
    AdvanceEndsIdle(CheckReply(p).0.(phy := Idle), true, env);
  }

  lemma AskedKept(cp: Cp, env: Env)
    requires Safe(cp) && Asked(cp) && KnownQueue(env)
    ensures Asked(Update(cp, env).0)
  {
    hide PhyUpdate, StateCommand, CheckReply, Advance;
    if Running(cp.phy) {
      PhyKeeps(cp, env);
      PhyAsked(cp, env);
      var p := PhyUpdate(cp, env).0;
      AdvanceEndsIdle(CheckReply(p).0.(phy := Idle), p.phy == Err || !CheckReply(p).1, env);
    } else if cp.state != Online && cp.state != Offline {
      IdleAsks(cp, env);
    } else {
      IdleKeeps(cp, env);
      var (q, cmd) := StateCommand(cp, env);
      AdvanceEndsIdle(q.(cmdId := cmd), false, env);
    }
  }

  lemma PhyAsked(cp: Cp, env: Env)
    ensures PhyUpdate(cp, env).0.cmdId == cp.cmdId
  {
    hide IsEvent, IsKnownReply, DecodeResponse;
    if env.arrival.Payload? {
      DecodeAsked(cp, env.arrival.id, env.arrival);
    }
  }

  lemma DecodeAsked(cp: Cp, id: int, a: Arrival)
    requires a.Payload?
    ensures DecodeResponse(cp, id, a).0.cmdId == cp.cmdId
  {
    hide IsEvent, IsKnownReply;
  }

  /** One exchange: the command is chosen, sent, and answered. */
  function Exchange(env: Env, reply: Arrival): seq<Env> {
    [env, env.(sends := true), env.(arrival := reply)]
  }

  lemma RunOfThree(cp: Cp, e1: Env, e2: Env, e3: Env)
    ensures Run(cp, [e1, e2, e3]) == Update(Update(Update(cp, e1).0, e2).0, e3).0
  {
    hide Update;
    var p1 := Update(cp, e1).0;
    var p2 := Update(p1, e2).0;
    assert [e1, e2, e3][1..] == [e2, e3] && [e2, e3][1..] == [e3] && [e3][1..] == [];
    assert Run(p1, [e2, e3]) == Run(p2, [e3]);
  }

  lemma SendNow(cp: Cp, env: Env)
    requires cp.phy == SendCmd && env.sends
    ensures Update(cp, env) == (cp.(phy := ReplyWait, replyId := 0), InProg)
  {
  }

  lemma ExchangeGoes(cp: Cp, env: Env, reply: Arrival)
    requires Safe(cp) && cp.phy == Idle && cp.state in {Init, CapDet, ScChlng, ScScrypt} && !cp.req.offline
    requires RightReply(cp, reply)
    ensures var q := Run(cp, Exchange(env, reply));
      && Safe(q) && q.phy == Idle && q.conf == cp.conf && !q.req.offline
      && q.state == RightNext(cp, reply.capable, Online)
      && (cp.state == CapDet && q.state == ScChlng ==> !q.ch.useScbkd)
      && (cp.state == ScChlng || cp.state == ScScrypt ==> q.ch.useScbkd == cp.ch.useScbkd)
      && (cp.state == ScScrypt ==> q.ch.active)
  {
    hide Update;
    var e2, e3 := env.(sends := true), env.(arrival := reply);
    RunOfThree(cp, env, e2, e3);
    IdleAsks(cp, env);
    var sending := Update(cp, env).0;
    SendNow(sending, e2);
    var waiting := Update(sending, e2).0;
    Successor(waiting, e3);
    QueueUnread(waiting, e3);
    UpdateKeeps(waiting, e3.(queued := None));
  }

  lemma {:induction false} RunOfParts(cp: Cp, a: seq<Env>, b: seq<Env>)
    ensures Run(cp, a + b) == Run(Run(cp, a), b)
    decreases |a|
  {
    hide Update;
    if a == [] {
      assert a + b == b;
    } else {
      assert (a + b)[0] == a[0] && (a + b)[1..] == a[1..] + b;
      RunOfParts(Update(cp, a[0]).0, a[1..], b);
    }
  }

  /** The panel does come online: four exchanges with the right replies from a device that
      reports the channel, and it is ONLINE with the channel open under the device's own key,
      whatever its settings and whatever else the inputs hold. */
  lemma ComesOnline(enforce: bool, ignUnsolicited: bool, env: Env, identity: Arrival, capabilities: Arrival,
                    ccrypt: Arrival, rmac: Arrival)
    requires identity.Payload? && identity.id == 0x45 && identity.fits
    requires capabilities.Payload? && capabilities.id == 0x46 && capabilities.fits && capabilities.capable
    requires ccrypt.Payload? && ccrypt.id == 0x76 && ccrypt.fits && ccrypt.verifies
    requires rmac.Payload? && rmac.id == 0x78 && rmac.fits
    ensures var q := Run(InitialCp(enforce, ignUnsolicited, false),
              Exchange(env, identity) + Exchange(env, capabilities) + Exchange(env, ccrypt) + Exchange(env, rmac));
      q.state == Online && q.ch.active && !q.ch.useScbkd
  {
    hide Run, Exchange, Safe;
    var cp := InitialCp(enforce, ignUnsolicited, false);
    InitialSafe(enforce, ignUnsolicited, false);
    var e1, e2, e3, e4 := Exchange(env, identity), Exchange(env, capabilities), Exchange(env, ccrypt),
        Exchange(env, rmac);
    RunOfParts(cp, e1 + e2 + e3, e4);
    RunOfParts(cp, e1 + e2, e3);
    RunOfParts(cp, e1, e2);
    ExchangeGoes(cp, env, identity);
    ExchangeGoes(Run(cp, e1), env, capabilities);
    ExchangeGoes(Run(Run(cp, e1), e2), env, ccrypt);
    ExchangeGoes(Run(Run(Run(cp, e1), e2), e3), env, rmac);
  }
}
