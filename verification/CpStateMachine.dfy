/** The control panel's two-level automaton for one device: application state and
    packet state (osdp_cp.c, state_update and what it calls). Replies, errors and
    the clock are inputs of each call. */
module CpStateMachine {
  import opened Bytes
  import opened Codes
  import opened Options
  import Config

  datatype CpState = Init | CapDet | ScChlng | ScScrypt | SetScbk | Online | Offline
  datatype PhyState = Idle | SendCmd | ReplyWait | Wait | Done | Err
  datatype Rc = Success | Generic | NoData | RetryCmd | CanYield | InProg | Unknown

  /** What cp_decode_response turns into an event for the application. */
  predicate IsEvent(id: int) {
    id in {REPLY_OSTATR, REPLY_ISTATR, REPLY_LSTATR, REPLY_RSTATR, REPLY_KEYPAD, REPLY_RAW, REPLY_MFGREP}
  }

  predicate IsKnownReply(id: int) {
    IsEvent(id) ||
    id in {REPLY_ACK, REPLY_NAK, REPLY_PDID, REPLY_PDCAP, REPLY_COM, REPLY_FMT, REPLY_BUSY, REPLY_FTSTAT,
           REPLY_CCRYPT, REPLY_RMAC_I}
  }

  /** The part of struct osdp_pd that drives the automaton. The last field records
      whether the code has run into BUG(). */
  datatype Cp = Cp(state: CpState, phy: PhyState, cmdId: int, replyId: int, retries: nat,
                   conf: Settings, ch: Channel, req: Requests, bug: bool)

  datatype Settings = Settings(enforce: bool, ignUnsolicited: bool, scDisabled: bool)

  /** The flags of the secure channel. The last two record history: whether the
      device's cryptogram has been verified since the context was set up, and
      whether an RMAC_I has been taken over since. */
  datatype Channel = Channel(capable: bool, active: bool, useScbkd: bool, verified: bool, rmacTaken: bool)

  datatype Requests = Requests(restartSc: bool, eventSend: bool, offline: bool)

  function InitialCp(enforce: bool, ignUnsolicited: bool, scDisabled: bool): Cp {
    Cp(Init, Idle, 0, 0, 0, Settings(enforce, ignUnsolicited, scDisabled),
       Channel(false, false, false, false, false), Requests(false, false, false), false)
  }

  // ----- Inputs -----

  /** What has arrived by the time the panel looks: nothing whole, a busy packet, a
      packet that fails a check (a decoding failure leaves NAK as the reply and may
      close the channel), or a payload. `fits` says that the payload has the form
      its identifier requires, `verifies` that a CCRYPT's cryptogram matches,
      `capable` what a PDCAP reports about the channel, `resets` that a file status
      asks for a reset. */
  datatype Arrival =
    | Silence
    | BusyPacket
    | Broken
    | Refused(closes: bool)
    | Payload(id: uint8, fits: bool, verifies: bool, capable: bool, resets: bool)

  /** A command in the application's queue. */
  datatype AppCommand = Output | Led | Buzzer | Text | Comset | Mfg | Input | OutputStatus | Local | Remote
    | BadStatus | Keyset(scbk: bool) | FileTx | Other

  /** Everything one call takes from outside: the queue's head, what the file layer
      wants, whether a poll is due, whether the packet could be built and sent, what
      arrived, and the clock's answers. */
  datatype Env = Env(queued: Option<AppCommand>, file: FileWish, pollDue: bool, sends: bool, arrival: Arrival,
                     waitOver: bool, timedOut: bool, retryDue: bool, offlineOver: bool)

  datatype FileWish = NothingToSend | HoldOn | SendAbort | SendPoll | SendChunk

  predicate KnownCommand(c: AppCommand) { c != FileTx && c != Other }

  /** The application may queue every command but a file transfer, which never
      enters the queue, and those no translation exists for. */
  predicate KnownQueue(env: Env) { env.queued.Some? ==> KnownCommand(env.queued.value) }

  // ----- One reply -----

  function ScCapable(cp: Cp): bool { cp.ch.capable && !cp.conf.scDisabled }

  /** cp_decode_response */
  function DecodeResponse(cp: Cp, id: int, a: Arrival): (Cp, Rc)
    requires a.Payload?
  {
    var p := cp.(replyId := id);
    if !IsKnownReply(id) then (p, Unknown)
    else if id == REPLY_CCRYPT then
      if cp.ch.active || cp.cmdId != CMD_CHLNG || !a.fits then (p, Generic)
      else if !a.verifies then (p, Generic)
      else (p.(ch := cp.ch.(verified := true)), Success)
    else if id == REPLY_RMAC_I then
      if cp.ch.active || cp.cmdId != CMD_SCRYPT || !a.fits then (p, Generic)
      else (p.(ch := cp.ch.(rmacTaken := true)), Success)
    else if id == REPLY_FMT then (p, Success)
    else if !a.fits then (p, Generic)
    else if id == REPLY_BUSY then (p, RetryCmd)
    else if id == REPLY_PDCAP then (p.(ch := cp.ch.(capable := a.capable)), Success)
    else if id == REPLY_FTSTAT then (p.(req := cp.req.(offline := cp.req.offline || a.resets)), Success)
    else (p.(req := cp.req.(eventSend := cp.req.eventSend || IsEvent(id))), Success)
  }

  /** cp_process_reply */
  function ProcessReply(cp: Cp, a: Arrival): (Cp, Rc) {
    match a
    case Silence => (cp, NoData)
    case BusyPacket => (cp, RetryCmd)
    case Broken => (cp, Generic)
    case Refused(closes) => (cp.(replyId := REPLY_NAK, ch := cp.ch.(active := cp.ch.active && !closes)), Generic)
    case Payload(id, _, _, _, _) => DecodeResponse(cp, id, a)
  }

  // ----- The packet state -----

  predicate Running(phy: PhyState) { phy == SendCmd || phy == ReplyWait || phy == Wait }

  function SendStep(cp: Cp, env: Env): (Cp, Rc) {
    if env.sends then (cp.(phy := ReplyWait, replyId := REPLY_INVALID), InProg) else (cp.(phy := Err), Generic)
  }

  function ReplyStep(cp: Cp, env: Env): (Cp, Rc) {
    var (p, rc) := ProcessReply(cp, env.arrival);
    AfterReply(p, rc, env.timedOut)
  }

  /** Done, failed, to be repeated, or still waiting. */
  function AfterReply(p: Cp, rc: Rc, timedOut: bool): (Cp, Rc) {
    if rc == Success || (rc == Unknown && p.cmdId == CMD_POLL && p.conf.ignUnsolicited) then
      (p.(phy := Done, retries := 0), Success)
    else if rc == Generic || rc == Unknown then (p.(phy := Err), Generic)
    else if rc == RetryCmd then (p.(phy := Wait), CanYield)
    else if !timedOut then (p, InProg)
    else if p.retries < Config.CMD_MAX_RETRIES then (p.(phy := Wait, retries := p.retries + 1), CanYield)
    else (p.(phy := Err), Generic)
  }

  /** cp_phy_state_update */
  function PhyUpdate(cp: Cp, env: Env): (Cp, Rc) {
    match cp.phy
    case Done => (cp, Success)
    case Idle => (cp, Success)
    case Err => (cp, Generic)
    case Wait => if !env.waitOver then (cp, CanYield) else SendStep(cp.(phy := SendCmd), env)
    case SendCmd => SendStep(cp, env)
    case ReplyWait => ReplyStep(cp, env)
  }

  // ----- The application state -----

  /** cp_translate_cmd: the command identifier, or -1 for one that cannot be sent.
      BUG() for one that has no translation. */
  function Translate(cp: Cp, c: AppCommand): (Cp, int) {
    match c
    case Output => (cp, CMD_OUT)
    case Led => (cp, CMD_LED)
    case Buzzer => (cp, CMD_BUZ)
    case Text => (cp, CMD_TEXT)
    case Comset => (cp, CMD_COMSET)
    case Mfg => (cp, CMD_MFG)
    case Input => (cp, CMD_ISTAT)
    case OutputStatus => (cp, CMD_OSTAT)
    case Local => (cp, CMD_LSTAT)
    case Remote => (cp, CMD_RSTAT)
    case BadStatus => (cp, -1)
    case Keyset(scbk) => (cp, if !scbk || !cp.ch.active then -1 else CMD_KEYSET)
    case FileTx => (cp.(bug := true), -1)
    case Other => (cp.(bug := true), -1)
  }

  /** cp_get_online_command */
  function OnlineCommand(cp: Cp, env: Env): (Cp, int) {
    if env.queued.Some? then Translate(cp, env.queued.value)
    else
      match env.file
      case HoldOn => (cp, -1)
      case SendAbort => (cp, CMD_ABORT)
      case SendPoll => (cp, CMD_POLL)
      case SendChunk => (cp, CMD_FILETRANSFER)
      case NothingToSend => (cp, if env.pollDue then CMD_POLL else -1)
  }

  /** state_get_cmd */
  function StateCommand(cp: Cp, env: Env): (Cp, int) {
    match cp.state
    case Init => (cp, CMD_ID)
    case CapDet => (cp, CMD_CAP)
    case ScChlng => (cp, CMD_CHLNG)
    case ScScrypt => (cp, CMD_SCRYPT)
    case SetScbk => (cp, CMD_KEYSET)
    case Online => OnlineCommand(cp, env)
    case Offline => (cp, -1)
  }

  /** cp_keyset_complete */
  function KeysetComplete(cp: Cp): Cp {
    cp.(ch := cp.ch.(useScbkd := false, active := false),
       req := cp.req.(restartSc := cp.req.restartSc || cp.state == Online))
  }

  /** The reply that belongs to a command other than a poll. */
  function Expected(cmdId: int): int {
    if cmdId == CMD_FILETRANSFER then REPLY_FTSTAT
    else if cmdId == CMD_COMSET then REPLY_COM
    else if cmdId == CMD_MFG then REPLY_MFGREP
    else if cmdId == CMD_LSTAT then REPLY_LSTATR
    else if cmdId == CMD_ISTAT then REPLY_ISTATR
    else if cmdId == CMD_OSTAT then REPLY_OSTATR
    else if cmdId == CMD_RSTAT then REPLY_RSTATR
    else -1
  }

  /** cp_check_online_response */
  function CheckOnline(cp: Cp): (Cp, bool) {
    if cp.replyId == REPLY_ACK then (if cp.cmdId == CMD_KEYSET then KeysetComplete(cp) else cp, true)
    else if cp.replyId == REPLY_NAK || cp.replyId == REPLY_INVALID then (cp, false)
    else if cp.cmdId == CMD_POLL then (cp, IsEvent(cp.replyId) || cp.conf.ignUnsolicited)
    else (cp, cp.replyId == Expected(cp.cmdId))
  }

  /** state_check_reply */
  function CheckReply(cp: Cp): (Cp, bool) {
    match cp.state
    case Init => (cp, cp.replyId == REPLY_PDID)
    case CapDet => (cp, cp.replyId == REPLY_PDCAP)
    case ScChlng => (cp, cp.replyId == REPLY_CCRYPT)
    case ScScrypt => (cp, cp.replyId == REPLY_RMAC_I)
    case SetScbk => (cp, cp.replyId == REPLY_ACK)
    case Online => CheckOnline(cp)
    case Offline => (cp, false)
  }

  /** get_next_ok_state */
  function NextOk(cp: Cp, env: Env): (Cp, CpState) {
    match cp.state
    case Init => (cp, CapDet)
    case CapDet =>
      if ScCapable(cp) then (cp.(ch := cp.ch.(useScbkd := false)), ScChlng)
      else if cp.conf.enforce then (cp, Offline)
      else (cp, Online)
    case ScChlng => (cp, ScScrypt)
    case ScScrypt =>
      var p := cp.(ch := cp.ch.(active := true));
      (p, if cp.ch.useScbkd then SetScbk else Online)
    case SetScbk => (KeysetComplete(cp), ScChlng)
    case Online => (cp, if ScCapable(cp) && !cp.ch.active && env.retryDue then ScChlng else Online)
    case Offline => (cp, if env.offlineOver then Init else Offline)
  }

  /** get_next_err_state */
  function NextErr(cp: Cp): (Cp, CpState) {
    match cp.state
    case Init => (cp, Offline)
    case CapDet => (cp, Offline)
    case ScChlng =>
      if cp.conf.enforce then (cp, Offline)
      else if !cp.ch.useScbkd then (cp.(ch := cp.ch.(useScbkd := true)), ScChlng)
      else (cp.(ch := cp.ch.(useScbkd := false)), Online)
    case ScScrypt => (cp, if cp.conf.enforce then Offline else Online)
    case SetScbk =>
      var p := cp.(ch := cp.ch.(active := false));
      (p, if cp.conf.enforce || cp.ch.useScbkd then Offline else Online)
    case Online => (cp, Offline)
    case Offline => (cp, Offline)
  }

  /** cp_state_change: going offline closes the channel, a challenge sets the
      channel context up again. */
  function StateChange(cp: Cp, next: CpState): Cp {
    cp.(state := next,
        retries := if next == Init then 0 else cp.retries,
        phy := if next == Init then Idle else cp.phy,
        ch := cp.ch.(active := cp.ch.active && next != Offline,
                     verified := cp.ch.verified && next != ScChlng,
                     rmacTaken := cp.ch.rmacTaken && next != ScChlng))
  }

  /** The requests looked at in or on the way to ONLINE. */
  function TakeRequests(cp: Cp, next: CpState): (Cp, CpState) {
    if cp.state != Online && next != Online then (cp, next)
    else
      (cp.(phy := if cp.req.restartSc then Idle else cp.phy,
           retries := if cp.req.restartSc then 0 else cp.retries,
           req := Requests(false, false, false)),
       if cp.req.offline then Offline else if cp.req.restartSc then ScChlng else next)
  }

  /** The second half of state_update: from the outcome to the next state. */
  function Advance(cp: Cp, err: bool, env: Env): Cp {
    var (p, next) := if err then NextErr(cp) else NextOk(cp, env);
    var (q, next') := TakeRequests(p, next);
    if cp.state != next' then StateChange(q, next') else q
  }

  /** state_update */
  function Update(cp: Cp, env: Env): (Cp, Rc) {
    var (p, rc) := if Running(cp.phy) then PhyUpdate(cp, env) else (cp, Success);
    if Running(cp.phy) && (rc == InProg || rc == CanYield) then (p, rc)
    else
      match p.phy
      case Idle =>
        var (q, cmd) := StateCommand(p, env);
        if cmd > 0 then (q.(cmdId := cmd, phy := SendCmd), CanYield)
        else (Advance(q.(cmdId := cmd), false, env), CanYield)
      case Err => (Settle(p, true, env), CanYield)
      case Done => (Settle(p, false, env), CanYield)
      case SendCmd => (p.(bug := true), CanYield)
      case ReplyWait => (p.(bug := true), CanYield)
      case Wait => (p.(bug := true), CanYield)
  }

  /** A finished exchange: the reply is checked, the packet state starts over. */
  function Settle(cp: Cp, err: bool, env: Env): Cp {
    var (p, ok) := CheckReply(cp);
    Advance(p.(phy := Idle), err || !ok, env)
  }

  // ----- What every run keeps -----

  /** The channel is open only where it may be used, and only after a verified
      cryptogram and an RMAC_I. */
  ghost predicate ChannelEarned(cp: Cp) {
    && (cp.ch.active ==> (cp.state == Online || cp.state == SetScbk) && cp.ch.verified && cp.ch.rmacTaken)
    && (cp.state == ScScrypt ==> cp.ch.verified)
    && (cp.ch.active && cp.ch.useScbkd ==> cp.state == SetScbk)
  }

  /** With ENFORCE_SECURE: never SCBK-D, and online only with an open channel. */
  ghost predicate Enforced(cp: Cp) {
    cp.conf.enforce ==> !cp.ch.useScbkd && cp.state != SetScbk && (cp.state == Online ==> cp.ch.active)
  }

  /** Between two calls. */
  ghost predicate Safe(cp: Cp) {
    && (cp.phy == Idle || Running(cp.phy))
    && (cp.state == Offline ==> cp.phy == Idle)
    && !cp.req.restartSc && !cp.bug && cp.retries <= Config.CMD_MAX_RETRIES
    && ChannelEarned(cp) && Enforced(cp)
  }

  /** In the middle of a call, when an exchange has ended: a good CCRYPT has been
      verified, a good RMAC_I taken over, and a channel that is gone was closed by a
      failure. */
  ghost predicate Ended(cp: Cp) {
    && (cp.phy == Done || cp.phy == Err) && cp.state != Offline
    && !cp.req.restartSc && !cp.bug && cp.retries <= Config.CMD_MAX_RETRIES
    && ChannelEarned(cp)
    && (cp.conf.enforce ==> !cp.ch.useScbkd && cp.state != SetScbk)
    && (cp.conf.enforce && cp.state == Online && cp.phy == Done ==> cp.ch.active)
    && (cp.phy == Done && cp.replyId == REPLY_CCRYPT ==> cp.ch.verified)
    && (cp.phy == Done && cp.replyId == REPLY_RMAC_I ==> cp.ch.rmacTaken)
  }

  /** A reply that has been looked at while the panel waits for it. */
  ghost predicate Heard(cp: Cp, p: Cp, rc: Rc) {
    && p.phy == ReplyWait && p.state == cp.state && p.state != Offline
    && !p.req.restartSc && !p.bug && p.retries <= Config.CMD_MAX_RETRIES
    && ChannelEarned(p)
    && (p.conf.enforce ==> !p.ch.useScbkd && p.state != SetScbk)
    && (p.conf.enforce && p.state == Online && rc != Generic ==> p.ch.active)
    && (rc == Success && p.replyId == REPLY_CCRYPT ==> p.ch.verified)
    && (rc == Success && p.replyId == REPLY_RMAC_I ==> p.ch.rmacTaken)
    && (rc == Unknown ==> !IsKnownReply(p.replyId))
  }

  lemma CcryptKeeps(cp: Cp, id: int, a: Arrival)
    requires Safe(cp) && a.Payload? && cp.phy == ReplyWait && id == REPLY_CCRYPT
    ensures var (p, rc) := DecodeResponse(cp, id, a); Heard(cp, p, rc)
  {
  }

  lemma RMacIKeeps(cp: Cp, id: int, a: Arrival)
    requires Safe(cp) && a.Payload? && cp.phy == ReplyWait && id == REPLY_RMAC_I
    ensures var (p, rc) := DecodeResponse(cp, id, a); Heard(cp, p, rc)
  {
  }

  lemma StatusKeeps(cp: Cp, id: int, a: Arrival)
    requires Safe(cp) && a.Payload? && cp.phy == ReplyWait && (id == REPLY_PDCAP || id == REPLY_FTSTAT)
    ensures var (p, rc) := DecodeResponse(cp, id, a); Heard(cp, p, rc)
  {
  }

  lemma OtherKeeps(cp: Cp, id: int, a: Arrival)
    requires Safe(cp) && a.Payload? && cp.phy == ReplyWait && id !in {REPLY_CCRYPT, REPLY_RMAC_I, REPLY_PDCAP,
        REPLY_FTSTAT}
    ensures var (p, rc) := DecodeResponse(cp, id, a); Heard(cp, p, rc)
  {
    hide IsEvent;
  }

  lemma DecodeKeeps(cp: Cp, id: int, a: Arrival)
    requires Safe(cp) && a.Payload? && cp.phy == ReplyWait
    ensures var (p, rc) := DecodeResponse(cp, id, a); Heard(cp, p, rc)
  {
    hide DecodeResponse, Heard, Safe;
    if id == REPLY_CCRYPT {
      CcryptKeeps(cp, id, a);
    } else if id == REPLY_RMAC_I {
      RMacIKeeps(cp, id, a);
    } else if id == REPLY_PDCAP || id == REPLY_FTSTAT {
      StatusKeeps(cp, id, a);
    } else {
      OtherKeeps(cp, id, a);
    }
  }

  lemma ProcessKeeps(cp: Cp, a: Arrival)
    requires Safe(cp) && cp.phy == ReplyWait
    ensures var (p, rc) := ProcessReply(cp, a); Heard(cp, p, rc)
  {
    hide DecodeResponse, IsKnownReply;
    if a.Payload? {
      DecodeKeeps(cp, a.id, a);
    }
  }

  lemma VerdictKeeps(cp: Cp, p: Cp, rc: Rc, timedOut: bool)
    requires Heard(cp, p, rc)
    ensures var (q, verdict) := AfterReply(p, rc, timedOut);
      && q.state == cp.state
      && if verdict == InProg then Safe(q) && q.phy == ReplyWait
         else if verdict == CanYield then Safe(q) && q.phy == Wait
         else Ended(q)
  {
    hide IsEvent;
  }

  lemma ReplyKeeps(cp: Cp, env: Env)
    requires Safe(cp) && cp.phy == ReplyWait
    ensures var (p, rc) := ReplyStep(cp, env);
      && p.state == cp.state
      && if rc == InProg then Safe(p) && p.phy == ReplyWait
         else if rc == CanYield then Safe(p) && p.phy == Wait
         else Ended(p)
  {
    hide ProcessReply, Heard, AfterReply;
    ProcessKeeps(cp, env.arrival);
    var (p, rc) := ProcessReply(cp, env.arrival);
    VerdictKeeps(cp, p, rc, env.timedOut);
  }

  lemma SendKeeps(cp: Cp, env: Env)
    requires Safe(cp) && cp.phy == SendCmd
    ensures var (p, rc) := SendStep(cp, env);
      && p.state == cp.state
      && if rc == InProg then Safe(p) && p.phy == ReplyWait else rc == Generic && Ended(p)
  {
    if env.sends {
      assert Safe(cp.(phy := ReplyWait, replyId := REPLY_INVALID));
    } else {
      assert Ended(cp.(phy := Err));
    }
  }

  lemma PhyKeeps(cp: Cp, env: Env)
    requires Safe(cp) && Running(cp.phy)
    ensures var (p, rc) := PhyUpdate(cp, env);
      && p.state == cp.state
      && if rc == InProg then Safe(p) && p.phy == ReplyWait
         else if rc == CanYield then Safe(p) && p.phy == Wait
         else Ended(p)
  {
    hide ReplyStep, SendStep, Ended;
    if cp.phy == ReplyWait {
      ReplyKeeps(cp, env);
    } else if cp.phy == SendCmd {
      SendKeeps(cp, env);
    } else if env.waitOver {
      SendKeeps(cp.(phy := SendCmd), env);
    }
  }

  /** Before the next state is chosen: either nothing was exchanged, or the exchange
      went wrong, or the reply was the one the state waits for. */
  ghost predicate Choosing(cp: Cp, err: bool) {
    && cp.phy == Idle && !cp.bug && cp.retries <= Config.CMD_MAX_RETRIES
    && ChannelEarned(cp)
    && (cp.req.restartSc ==> cp.state == Online && !cp.ch.active)
    && (cp.conf.enforce ==> !cp.ch.useScbkd && cp.state != SetScbk)
    && (!err && cp.conf.enforce && cp.state == Online ==> cp.ch.active || cp.req.restartSc)
    && (!err && cp.state == ScChlng ==> cp.ch.verified)
    && (!err && cp.state == ScScrypt ==> cp.ch.rmacTaken)
  }

  lemma CheckKeeps(cp: Cp)
    requires Ended(cp)
    ensures var (p, ok) := CheckReply(cp);
      p.state == cp.state && Choosing(p.(phy := Idle), cp.phy == Err || !ok)
  {
  }

  /** A next state that may be entered, requests apart. */
  ghost predicate Chosen(p: Cp, next: CpState) {
    && p.phy == Idle && !p.bug && p.retries <= Config.CMD_MAX_RETRIES
    && (p.req.restartSc ==> p.state == Online && !p.ch.active)
    && (p.ch.active && next != Offline ==> (next == Online || next == SetScbk) && p.ch.verified && p.ch.rmacTaken)
    && (p.ch.active && p.ch.useScbkd ==> next == SetScbk || next == Offline)
    && (next == ScScrypt ==> p.ch.verified)
    && (p.state == Offline ==> !p.ch.active)
    && (p.conf.enforce ==> !p.ch.useScbkd && next != SetScbk)
    && (p.conf.enforce && next == Online ==> p.ch.active || p.req.restartSc)
  }

  lemma SameOk(cp: Cp, env: Env)
    requires Choosing(cp, false) && cp.state in {Init, ScChlng, Online, Offline}
    ensures var (p, next) := NextOk(cp, env); Chosen(p, next) && p.state == cp.state
  {
  }

  lemma CapDetOk(cp: Cp, env: Env)
    requires Choosing(cp, false) && cp.state == CapDet
    ensures var (p, next) := NextOk(cp, env); Chosen(p, next) && p.state == cp.state
  {
  }

  lemma ScScryptOk(cp: Cp, env: Env)
    requires Choosing(cp, false) && cp.state == ScScrypt
    ensures var (p, next) := NextOk(cp, env); Chosen(p, next) && p.state == cp.state
  {
  }

  lemma SetScbkOk(cp: Cp, env: Env)
    requires Choosing(cp, false) && cp.state == SetScbk
    ensures var (p, next) := NextOk(cp, env); Chosen(p, next) && p.state == cp.state
  {
  }

  lemma NextOkKeeps(cp: Cp, env: Env)
    requires Choosing(cp, false)
    ensures var (p, next) := NextOk(cp, env); Chosen(p, next) && p.state == cp.state
  {
    hide NextOk, Chosen, Choosing;
    match cp.state
    case CapDet => CapDetOk(cp, env);
    case ScScrypt => ScScryptOk(cp, env);
    case SetScbk => SetScbkOk(cp, env);
    case _ => SameOk(cp, env);
  }

  lemma SameErr(cp: Cp)
    requires Choosing(cp, true) && cp.state !in {ScChlng, SetScbk}
    ensures var (p, next) := NextErr(cp); Chosen(p, next) && p.state == cp.state
  {
  }

  lemma ScChlngErr(cp: Cp)
    requires Choosing(cp, true) && cp.state == ScChlng
    ensures var (p, next) := NextErr(cp); Chosen(p, next) && p.state == cp.state
  {
  }

  lemma SetScbkErr(cp: Cp)
    requires Choosing(cp, true) && cp.state == SetScbk
    ensures var (p, next) := NextErr(cp); Chosen(p, next) && p.state == cp.state
  {
  }

  lemma NextErrKeeps(cp: Cp)
    requires Choosing(cp, true)
    ensures var (p, next) := NextErr(cp); Chosen(p, next) && p.state == cp.state
  {
    hide NextErr, Chosen, Choosing;
    match cp.state
    case ScChlng => ScChlngErr(cp);
    case SetScbk => SetScbkErr(cp);
    case _ => SameErr(cp);
  }

  lemma RequestsKeep(p: Cp, next: CpState)
    requires Chosen(p, next)
    ensures var (q, next') := TakeRequests(p, next);
      Chosen(q, next') && !q.req.restartSc && q.state == p.state
  {
  }

  lemma ChangeKeeps(q: Cp, next: CpState)
    requires Chosen(q, next) && !q.req.restartSc
    ensures var r := if q.state != next then StateChange(q, next) else q;
      Safe(r) && r.phy == Idle
  {
  }

  lemma AdvanceKeeps(cp: Cp, err: bool, env: Env)
    requires Choosing(cp, err)
    ensures Safe(Advance(cp, err, env)) && Advance(cp, err, env).phy == Idle
  {
    hide NextOk, NextErr, TakeRequests, StateChange, Chosen;
    if err {
      NextErrKeeps(cp);
    } else {
      NextOkKeeps(cp, env);
    }
    var (p, next) := if err then NextErr(cp) else NextOk(cp, env);
    RequestsKeep(p, next);
    var (q, next') := TakeRequests(p, next);
    ChangeKeeps(q, next');
  }

  lemma IdleKeeps(cp: Cp, env: Env)
    requires Safe(cp) && cp.phy == Idle && KnownQueue(env)
    ensures var (q, cmd) := StateCommand(cp, env);
      && q == cp && (cmd > 0 ==> cp.state != Offline)
      && (cmd <= 0 ==> Choosing(q.(cmdId := cmd), false))
  {
  }

  /** One call, with any reply, error or clock: the invariant is kept, BUG() is not
      reached, and the call reports progress exactly while a reply is awaited. */
  lemma UpdateKeeps(cp: Cp, env: Env)
    requires Safe(cp) && KnownQueue(env)
    ensures Safe(Update(cp, env).0)
    ensures Update(cp, env).1 == InProg <==> Update(cp, env).0.phy == ReplyWait
    ensures Update(cp, env).1 == InProg || Update(cp, env).1 == CanYield
  {
    hide PhyUpdate, StateCommand, CheckReply, Advance;
    if Running(cp.phy) {
      PhyKeeps(cp, env);
      var (p, rc) := PhyUpdate(cp, env);
      if rc != InProg && rc != CanYield {
        CheckKeeps(p);
        var (q, ok) := CheckReply(p);
        AdvanceKeeps(q.(phy := Idle), p.phy == Err || !ok, env);
      }
    } else {
      IdleKeeps(cp, env);
      var (q, cmd) := StateCommand(cp, env);
      if cmd <= 0 {
        AdvanceKeeps(q.(cmdId := cmd), false, env);
      }
    }
  }

  lemma InitialSafe(enforce: bool, ignUnsolicited: bool, scDisabled: bool)
    ensures Safe(InitialCp(enforce, ignUnsolicited, scDisabled))
  {
  }

  /** Any number of calls. */
  function Run(cp: Cp, envs: seq<Env>): Cp
    decreases |envs|
  {
    if envs == [] then cp else Run(Update(cp, envs[0]).0, envs[1..])
  }

  /** Over every run with any replies, errors and timeouts: the channel is open only
      in ONLINE and SET_SCBK and only after a verified CCRYPT and an RMAC_I; with
      ENFORCE_SECURE, ONLINE means an open channel that does not use SCBK-D; BUG()
      is never reached. */
  lemma {:induction false} RunSafe(cp: Cp, envs: seq<Env>)
    requires Safe(cp) && forall i :: 0 <= i < |envs| ==> KnownQueue(envs[i])
    ensures Safe(Run(cp, envs))
    decreases |envs|
  {
    hide Safe, Update;
    if envs != [] {
      UpdateKeeps(cp, envs[0]);
      RunSafe(Update(cp, envs[0]).0, envs[1..]);
    }
  }

  /** BUG() is reached in exactly those calls that take a command without a translation
      from the queue. */
  lemma BugExactly(cp: Cp, env: Env)
    requires Safe(cp)
    ensures Update(cp, env).0.bug <==> cp.state == Online && cp.phy == Idle && !KnownQueue(env)
  {
    hide Update, KnownCommand;
    if KnownQueue(env) {
      UpdateKeeps(cp, env);
    } else if cp.state == Online && cp.phy == Idle {
      UnknownCommandHitsBug(cp, env);
    } else {
      QueueUnread(cp, env);
      UpdateKeeps(cp, env.(queued := None));
    }
  }

  lemma UnknownCommandHitsBug(cp: Cp, env: Env)
    requires Safe(cp) && cp.state == Online && cp.phy == Idle && !KnownQueue(env)
    ensures Update(cp, env).0.bug
  {
    hide TakeRequests;
    var (q, cmd) := StateCommand(cp, env);
    assert cmd == -1 && q.bug;
    BugStays(q.(cmdId := cmd), env);
  }

  lemma BugStays(cp: Cp, env: Env)
    requires cp.state == Online && cp.bug
    ensures Advance(cp, false, env).bug
  {
  }

  /** Only an idle panel that is online looks at the queue. */
  lemma QueueUnread(cp: Cp, env: Env)
    requires cp.state != Online || cp.phy != Idle
    ensures Update(cp, env) == Update(cp, env.(queued := None))
  {
    hide PhyUpdate, CheckReply, Advance;
    var env' := env.(queued := None);
    SamePhy(cp, env);
    var (p, rc) := if Running(cp.phy) then PhyUpdate(cp, env) else (cp, Success);
    SameAdvance(CheckReply(p).0.(phy := Idle), p.phy == Err || !CheckReply(p).1, env);
    if !Running(cp.phy) && cp.phy == Idle {
      SameAdvance(StateCommand(cp, env).0.(cmdId := StateCommand(cp, env).1), false, env);
    }
    if p.phy == Idle {
      IdleAgain(cp, env);
    }
  }

  lemma SamePhy(cp: Cp, env: Env)
    ensures PhyUpdate(cp, env) == PhyUpdate(cp, env.(queued := None))
  {
    hide ProcessReply, AfterReply;
  }

  lemma SameAdvance(p: Cp, err: bool, env: Env)
    ensures Advance(p, err, env) == Advance(p, err, env.(queued := None))
  {
    hide NextErr, TakeRequests, StateChange;
  }

  lemma IdleAgain(cp: Cp, env: Env)
    ensures Running(cp.phy) && PhyUpdate(cp, env).0.phy == Idle ==> false
  {
    hide DecodeResponse;
    if cp.phy == ReplyWait && env.arrival.Payload? {
      KeepsPhy(cp, env.arrival.id, env.arrival);
    }
  }

  lemma KeepsPhy(cp: Cp, id: int, a: Arrival)
    requires a.Payload?
    ensures DecodeResponse(cp, id, a).0.phy == cp.phy
  {
    hide IsKnownReply, IsEvent;
  }

  // ----- The same on the fields of struct osdp_pd -----

  class Panel {
    var state: CpState
    var phyState: PhyState
    var cmdId: int
    var replyId: int
    var retryCount: nat
    const enforce: bool
    const ignUnsolicited: bool
    const scDisabled: bool
    var scFlag: bool
    var scActive: bool
    var useScbkd: bool
    var restartSc: bool
    var eventSend: bool
    var goOffline: bool
    ghost var cryptogramVerified: bool
    ghost var rmacTaken: bool
    ghost var bug: bool

    ghost function State(): Cp
      reads this
    {
      Cp(state, phyState, cmdId, replyId, retryCount, Settings(enforce, ignUnsolicited, scDisabled),
         Channel(scFlag, scActive, useScbkd, cryptogramVerified, rmacTaken),
         Requests(restartSc, eventSend, goOffline), bug)
    }

    constructor (enforce: bool, ignUnsolicited: bool, scDisabled: bool)
      ensures State() == InitialCp(enforce, ignUnsolicited, scDisabled)
      ensures Safe(State())
    {
      state, phyState, cmdId, replyId, retryCount := Init, Idle, 0, 0, 0;
      this.enforce, this.ignUnsolicited, this.scDisabled := enforce, ignUnsolicited, scDisabled;
      scFlag, scActive, useScbkd := false, false, false;
      restartSc, eventSend, goOffline := false, false, false;
      cryptogramVerified, rmacTaken, bug := false, false, false;
    }

    /** cp_decode_response */
    method DecodeReply(id: int, a: Arrival) returns (rc: Rc)
      requires a.Payload?
      modifies this
      ensures (State(), rc) == DecodeResponse(old(State()), id, a)
    {
      hide DecodeResponse;
      IdentifierFirst(State(), id, a);
      replyId := id;
      if id == REPLY_CCRYPT {
        rc := DecodeCcrypt(a);
      } else if id == REPLY_RMAC_I {
        rc := DecodeRMacI(a);
      } else {
        rc := DecodeOther(id, a);
      }
    }

    method DecodeCcrypt(a: Arrival) returns (rc: Rc)
      requires a.Payload? && replyId == REPLY_CCRYPT
      modifies this
      ensures (State(), rc) == DecodeResponse(old(State()), REPLY_CCRYPT, a)
    {
      if scActive || cmdId != CMD_CHLNG || !a.fits || !a.verifies {
        return Generic;
      }
      cryptogramVerified := true;
      return Success;
    }

    method DecodeRMacI(a: Arrival) returns (rc: Rc)
      requires a.Payload? && replyId == REPLY_RMAC_I
      modifies this
      ensures (State(), rc) == DecodeResponse(old(State()), REPLY_RMAC_I, a)
    {
      if scActive || cmdId != CMD_SCRYPT || !a.fits {
        return Generic;
      }
      rmacTaken := true;
      return Success;
    }

    method DecodeOther(id: int, a: Arrival) returns (rc: Rc)
      requires a.Payload? && replyId == id && id != REPLY_CCRYPT && id != REPLY_RMAC_I
      modifies this
      ensures (State(), rc) == DecodeResponse(old(State()), id, a)
    {
      hide IsKnownReply, IsEvent;
      if !IsKnownReply(id) {
        return Unknown;
      }
      if id == REPLY_FMT {
        return Success;
      }
      if !a.fits {
        return Generic;
      }
      if id == REPLY_BUSY {
        return RetryCmd;
      }
      if id == REPLY_PDCAP {
        scFlag := a.capable;
      } else if id == REPLY_FTSTAT {
        goOffline := goOffline || a.resets;
      } else if IsEvent(id) {
        eventSend := true;
      }
      return Success;
    }

    /** cp_process_reply */
    method ProcessArrival(a: Arrival) returns (rc: Rc)
      modifies this
      ensures (State(), rc) == ProcessReply(old(State()), a)
    {
      hide DecodeResponse;
      match a
      case Silence => return NoData;
      case BusyPacket => return RetryCmd;
      case Broken => return Generic;
      case Refused(closes) =>
        replyId := REPLY_NAK;
        if closes {
          scActive := false;
        }
        return Generic;
      case Payload(id, _, _, _, _) =>
        rc := DecodeReply(id, a);
    }

    /** cp_phy_state_update */
    method PhyStateUpdate(env: Env) returns (rc: Rc)
      modifies this
      ensures (State(), rc) == PhyUpdate(old(State()), env)
    {
      hide ProcessReply;
      match phyState
      case Done => return Success;
      case Idle => return Success;
      case Err => return Generic;
      case Wait =>
        if !env.waitOver {
          return CanYield;
        }
        phyState := SendCmd;
        rc := SendCommand(env);
      case SendCmd =>
        rc := SendCommand(env);
      case ReplyWait =>
        rc := AwaitReply(env);
    }

    method SendCommand(env: Env) returns (rc: Rc)
      modifies this
      ensures (State(), rc) == SendStep(old(State()), env)
    {
      if !env.sends {
        phyState := Err;
        return Generic;
      }
      replyId := REPLY_INVALID;
      phyState := ReplyWait;
      return InProg;
    }

    method AwaitReply(env: Env) returns (rc: Rc)
      modifies this
      ensures (State(), rc) == ReplyStep(old(State()), env)
    {
      hide ProcessReply;
      rc := ProcessArrival(env.arrival);
      if rc == Success || (rc == Unknown && cmdId == CMD_POLL && ignUnsolicited) {
        retryCount := 0;
        phyState := Done;
        return Success;
      }
      if rc == Generic || rc == Unknown {
        phyState := Err;
        return Generic;
      }
      if rc == RetryCmd {
        phyState := Wait;
        return CanYield;
      }
      if env.timedOut {
        if retryCount < Config.CMD_MAX_RETRIES {
          phyState := Wait;
          retryCount := retryCount + 1;
          return CanYield;
        }
        phyState := Err;
        return Generic;
      }
      return InProg;
    }

    /** cp_keyset_complete */
    method CompleteKeyset()
      modifies this
      ensures State() == KeysetComplete(old(State()))
    {
      useScbkd := false;
      scActive := false;
      if state == Online {
        restartSc := true;
      }
    }

    /** state_check_reply, with cp_check_online_response */
    method CheckStateReply() returns (ok: bool)
      modifies this
      ensures (State(), ok) == CheckReply(old(State()))
    {
      match state
      case Init => return replyId == REPLY_PDID;
      case CapDet => return replyId == REPLY_PDCAP;
      case ScChlng => return replyId == REPLY_CCRYPT;
      case ScScrypt => return replyId == REPLY_RMAC_I;
      case SetScbk => return replyId == REPLY_ACK;
      case Offline => return false;
      case Online =>
        if replyId == REPLY_ACK {
          if cmdId == CMD_KEYSET {
            CompleteKeyset();
          }
          return true;
        }
        if replyId == REPLY_NAK || replyId == REPLY_INVALID {
          return false;
        }
        if cmdId == CMD_POLL {
          return IsEvent(replyId) || ignUnsolicited;
        }
        return replyId == Expected(cmdId);
    }

    /** state_get_cmd, with cp_get_online_command and cp_translate_cmd */
    method GetCommand(env: Env) returns (cmd: int)
      modifies this
      ensures (State(), cmd) == StateCommand(old(State()), env)
    {
      match state
      case Init => return CMD_ID;
      case CapDet => return CMD_CAP;
      case ScChlng => return CMD_CHLNG;
      case ScScrypt => return CMD_SCRYPT;
      case SetScbk => return CMD_KEYSET;
      case Offline => return -1;
      case Online =>
        match env.queued
        case Some(c) =>
          cmd := TranslateCommand(c);
        case None =>
          match env.file
          case HoldOn => return -1;
          case SendAbort => return CMD_ABORT;
          case SendPoll => return CMD_POLL;
          case SendChunk => return CMD_FILETRANSFER;
          case NothingToSend => return if env.pollDue then CMD_POLL else -1;
    }

    method TranslateCommand(c: AppCommand) returns (cmd: int)
      modifies this`bug
      ensures (State(), cmd) == Translate(old(State()), c)
    {
      match c
      case Output => return CMD_OUT;
      case Led => return CMD_LED;
      case Buzzer => return CMD_BUZ;
      case Text => return CMD_TEXT;
      case Comset => return CMD_COMSET;
      case Mfg => return CMD_MFG;
      case Input => return CMD_ISTAT;
      case OutputStatus => return CMD_OSTAT;
      case Local => return CMD_LSTAT;
      case Remote => return CMD_RSTAT;
      case BadStatus => return -1;
      case Keyset(scbk) => return if !scbk || !scActive then -1 else CMD_KEYSET;
      case FileTx => bug := true; return -1;
      case Other => bug := true; return -1;
    }

    /** get_next_state */
    method GetNext(err: bool, env: Env) returns (next: CpState)
      modifies this
      ensures (State(), next) == if err then NextErr(old(State())) else NextOk(old(State()), env)
    {
      if err {
        next := GetNextErr();
      } else {
        next := GetNextOk(env);
      }
    }

    method GetNextOk(env: Env) returns (next: CpState)
      modifies this
      ensures (State(), next) == NextOk(old(State()), env)
    {
      match state
      case Init => return CapDet;
      case CapDet =>
        if scFlag && !scDisabled {
          useScbkd := false;
          return ScChlng;
        }
        return if enforce then Offline else Online;
      case ScChlng => return ScScrypt;
      case ScScrypt =>
        scActive := true;
        return if useScbkd then SetScbk else Online;
      case SetScbk =>
        CompleteKeyset();
        return ScChlng;
      case Online => return if scFlag && !scDisabled && !scActive && env.retryDue then ScChlng else Online;
      case Offline => return if env.offlineOver then Init else Offline;
    }

    method GetNextErr() returns (next: CpState)
      modifies this
      ensures (State(), next) == NextErr(old(State()))
    {
      match state
      case Init => return Offline;
      case CapDet => return Offline;
      case ScChlng =>
        if enforce {
          return Offline;
        }
        if !useScbkd {
          useScbkd := true;
          return ScChlng;
        }
        useScbkd := false;
        return Online;
      case ScScrypt => return if enforce then Offline else Online;
      case SetScbk =>
        scActive := false;
        return if enforce || useScbkd then Offline else Online;
      case Online => return Offline;
      case Offline => return Offline;
    }

    /** cp_state_change */
    method ChangeState(next: CpState)
      modifies this
      ensures State() == StateChange(old(State()), next)
    {
      match next {
        case Init =>
          phyState, retryCount := Idle, 0;
        case Offline =>
          scActive := false;
        case ScChlng =>
          cryptogramVerified, rmacTaken := false, false;
        case _ =>
      }
      state := next;
    }

    /** The requests taken on the way to the next state. */
    method CheckRequests(wanted: CpState) returns (next: CpState)
      modifies this
      ensures (State(), next) == TakeRequests(old(State()), wanted)
    {
      next := wanted;
      if state == Online || next == Online {
        if restartSc {
          restartSc := false;
          phyState, retryCount := Idle, 0;
          next := ScChlng;
        }
        if goOffline {
          goOffline := false;
          next := Offline;
        }
        eventSend := false;
      }
    }

    /** The tail of state_update, from get_next_state on. */
    method AdvanceState(err: bool, env: Env)
      modifies this
      ensures State() == Advance(old(State()), err, env)
    {
      hide NextOk, NextErr, StateChange, TakeRequests;
      var cur := state;
      NextKeepsState(State(), env);
      var next := GetNext(err, env);
      next := CheckRequests(next);
      if cur != next {
        ChangeState(next);
      }
    }

    method TakeStep(env: Env) returns (rc: Rc)
      requires Safe(State()) && KnownQueue(env)
      modifies this
      ensures (State(), rc) == Update(old(State()), env)
    {
      hide Safe, PhyUpdate, StateCommand, Settle, Advance;
      if phyState == SendCmd || phyState == ReplyWait || phyState == Wait {
        PhyKeeps(State(), env);
        rc := PhyStateUpdate(env);
        if rc == InProg || rc == CanYield {
          return;
        }
      }
      match phyState {
        case Idle =>
          cmdId := GetCommand(env);
          if cmdId > 0 {
            phyState := SendCmd;
            return CanYield;
          }
          AdvanceState(false, env);
        case Err =>
          FinishExchange(true, env);
        case Done =>
          FinishExchange(false, env);
        case _ =>
          assert false;
      }
      rc := CanYield;
    }

    /** state_update: after every call the channel is open only where it was earned. */
    method StateUpdate(env: Env) returns (rc: Rc)
      requires Safe(State()) && KnownQueue(env)
      modifies this
      ensures (State(), rc) == Update(old(State()), env)
      ensures Safe(State()) && (rc == InProg <==> phyState == ReplyWait) && !bug
      ensures scActive ==> (state == Online || state == SetScbk) && cryptogramVerified && rmacTaken
      ensures enforce && state == Online ==> scActive && !useScbkd
    {
      ghost var after := Update(State(), env).0;
      UpdateKeeps(State(), env);
      assert !after.bug && ChannelEarned(after) && Enforced(after);
      hide Update;
      rc := TakeStep(env);
    }

    method FinishExchange(failed: bool, env: Env)
      modifies this
      ensures State() == Settle(old(State()), failed, env)
    {
      hide CheckReply, Advance;
      var ok := CheckStateReply();
      phyState := Idle;
      AdvanceState(failed || !ok, env);
    }
  }

  /** The reply identifier is noted before anything else. */
  lemma IdentifierFirst(cp: Cp, id: int, a: Arrival)
    requires a.Payload?
    ensures DecodeResponse(cp, id, a) == DecodeResponse(cp.(replyId := id), id, a)
  {
    hide IsKnownReply, IsEvent;
  }

  lemma NextKeepsState(cp: Cp, env: Env)
    ensures NextOk(cp, env).0.state == cp.state && NextErr(cp).0.state == cp.state
  {
  }
}
