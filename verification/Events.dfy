/** When the application hears of an event: do_event_callback in state_update (osdp_cp.c). */
module Events {
  import opened Bytes
  import opened Options
  import opened CpStateMachine
  import opened Successors

  /** The reply that is awaited is a card read, keys, a status report or MFGREP, in its own form. */
  predicate EventArrives(cp: Cp, env: Env) {
    cp.phy == ReplyWait && env.arrival.Payload? && env.arrival.fits && Event(env.arrival.id)
  }

  /** The state in which state_update looks at the requests, and where it is about to go; None
      when it returns before. */
  function Looked(cp: Cp, env: Env): Option<(Cp, CpState)> {
    var (p, rc) := if Running(cp.phy) then PhyUpdate(cp, env) else (cp, Success);
    if Running(cp.phy) && (rc == InProg || rc == CanYield) then None
    else if p.phy == Idle then
      var (q, cmd) := StateCommand(p, env);
      if cmd > 0 then None else Some(NextOk(q.(cmdId := cmd), env))
    else
      var (q, ok) := CheckReply(p);
      Some(if p.phy == Err || !ok then NextErr(q.(phy := Idle)) else NextOk(q.(phy := Idle), env))
  }

  /** The callback is called. */
  predicate Notifies(cp: Cp, env: Env) {
    match Looked(cp, env)
    case None => false
    case Some(s) => (s.0.state == Online || s.1 == Online) && s.0.req.eventSend
  }

  /** From there the call goes on as state_update does. */
  lemma LookedOnTheWay(cp: Cp, env: Env)
    requires Safe(cp)
    ensures Looked(cp, env).Some? ==>
      var (p, next) := Looked(cp, env).value;
      var (q, next') := TakeRequests(p, next);
      Update(cp, env).0 == if cp.state != next' then StateChange(q, next') else q
  {
    hide Safe, PhyUpdate, StateCommand, CheckReply, NextOk, NextErr, TakeRequests, StateChange;
    if Running(cp.phy) {
      PhyKeeps(cp, env);
      PhyStays(cp, env);
      CheckStays(PhyUpdate(cp, env).0);
    } else {
      CommandStays(cp, env);
      SafeIsIdle(cp);
    }
  }

  lemma SafeIsIdle(cp: Cp)
    requires Safe(cp) && !Running(cp.phy)
    ensures cp.phy == Idle
  {
  }

  lemma PhyStays(cp: Cp, env: Env)
    requires Running(cp.phy)
    ensures var (p, rc) := PhyUpdate(cp, env);
      && p.state == cp.state && (rc == InProg || rc == CanYield || p.phy == Done || p.phy == Err)
      && (rc == InProg || rc == CanYield ==> !EventArrives(cp, env))
      && p.req.eventSend == (cp.req.eventSend || EventArrives(cp, env))
  {
  }

  lemma CheckStays(p: Cp)
    ensures CheckReply(p).0.state == p.state && CheckReply(p).0.req.eventSend == p.req.eventSend
  {
    hide IsEvent;
  }

  lemma CommandStays(cp: Cp, env: Env)
    ensures StateCommand(cp, env).0.state == cp.state && StateCommand(cp, env).0.req == cp.req
  {
  }

  // ----- One call -----

  predicate Pending(cp: Cp) { cp.req.eventSend }

  /** Online, nothing waits to be told between two calls. */
  ghost predicate Told(cp: Cp) { cp.state == Online ==> !Pending(cp) }

  lemma LookedFlags(cp: Cp, env: Env)
    requires Safe(cp)
    ensures match Looked(cp, env)
      case None => !EventArrives(cp, env) && Pending(Update(cp, env).0) == Pending(cp)
      case Some(s) => s.0.state == cp.state && Pending(s.0) == (Pending(cp) || EventArrives(cp, env))
  {
    hide Safe, PhyUpdate, StateCommand, CheckReply, NextOk, NextErr, EventArrives;
    if Running(cp.phy) {
      PhyStays(cp, env);
      CheckStays(PhyUpdate(cp, env).0);
      NextFlags(CheckReply(PhyUpdate(cp, env).0).0.(phy := Idle), env);
    } else {
      SafeIsIdle(cp);
      CommandStays(cp, env);
      NextFlags(StateCommand(cp, env).0.(cmdId := StateCommand(cp, env).1), env);
      NothingAwaited(cp, env);
    }
  }

  lemma NothingAwaited(cp: Cp, env: Env)
    requires cp.phy == Idle
    ensures !EventArrives(cp, env)
  {
  }

  lemma NextFlags(p: Cp, env: Env)
    ensures NextOk(p, env).0.state == p.state && Pending(NextOk(p, env).0) == Pending(p)
    ensures NextErr(p).0.state == p.state && Pending(NextErr(p).0) == Pending(p)
  {
  }

  /** An event is told at once while the device is online, and kept until it is otherwise;
      nothing is told that was not heard. */
  lemma EventTold(cp: Cp, env: Env)
    requires Safe(cp) && Told(cp)
    ensures var q := Update(cp, env).0;
      && Told(q)
      && (cp.state == Online ==> (Notifies(cp, env) <==> EventArrives(cp, env)))
      && (Notifies(cp, env) ==> (Pending(cp) || EventArrives(cp, env)) && !Pending(q))
      && (!Notifies(cp, env) ==> Pending(q) == (Pending(cp) || EventArrives(cp, env)))
  {
    hide Safe, Update, Looked, EventArrives;
    LookedOnTheWay(cp, env);
    LookedFlags(cp, env);
    if Looked(cp, env) == None {
      NotLooked(cp, env);
    }
  }

  lemma NotLooked(cp: Cp, env: Env)
    requires Safe(cp) && Looked(cp, env) == None
    ensures Update(cp, env).0.state == cp.state
  {
    hide Safe, PhyUpdate, StateCommand;
    if Running(cp.phy) {
      PhyStays(cp, env);
    } else {
      SafeIsIdle(cp);
      CommandStays(cp, env);
    }
  }

  // ----- Runs -----

  function Heard(cp: Cp, envs: seq<Env>): nat
    decreases |envs|
  {
    if envs == [] then 0
    else (if EventArrives(cp, envs[0]) then 1 else 0) + Heard(Update(cp, envs[0]).0, envs[1..])
  }

  function Callbacks(cp: Cp, envs: seq<Env>): nat
    decreases |envs|
  {
    if envs == [] then 0
    else (if Notifies(cp, envs[0]) then 1 else 0) + Callbacks(Update(cp, envs[0]).0, envs[1..])
  }

  /** Every call of the run finds the device online. */
  ghost predicate AlwaysOnline(cp: Cp, envs: seq<Env>)
    decreases |envs|
  {
    envs == [] || (cp.state == Online && AlwaysOnline(Update(cp, envs[0]).0, envs[1..]))
  }

  function One(b: bool): nat { if b then 1 else 0 }

  /** Over every run: no more callbacks than events, the waiting ones counted; and as many of
      one as of the other as long as the device stays online. */
  lemma {:induction false} CallbacksMatchEvents(cp: Cp, envs: seq<Env>)
    requires Safe(cp) && Told(cp) && forall i :: 0 <= i < |envs| ==> KnownQueue(envs[i])
    ensures Told(Run(cp, envs))
    ensures Callbacks(cp, envs) + One(Pending(Run(cp, envs))) <= Heard(cp, envs) + One(Pending(cp))
    ensures AlwaysOnline(cp, envs) ==> Callbacks(cp, envs) == Heard(cp, envs)
    decreases |envs|
  {
    hide Safe, Update, Notifies, EventArrives, Told, Pending;
    if envs != [] {
      UpdateKeeps(cp, envs[0]);
      EventTold(cp, envs[0]);
      CallbacksMatchEvents(Update(cp, envs[0]).0, envs[1..]);
    }
  }

  // ----- An event from before -----

  /** A device that answers ID with keys, and later PDID and PDCAP as it should. */
  const ASKED := Cp(Init, ReplyWait, 0x61, 0, 0, Settings(false, false, false),
                    Channel(false, false, false, false, false), Requests(false, false, false), false)

  const QUIET := Env(None, NothingToSend, false, true, Silence, true, false, false, true)

  function Answered(id: uint8): Env { QUIET.(arrival := Payload(id, true, false, false, false)) }

  /** The device with the keys waiting to be told. */
  function Keeping(state: CpState, phy: PhyState, cmdId: int, replyId: int): Cp {
    ASKED.(state := state, phy := phy, cmdId := cmdId, replyId := replyId, req := Requests(false, true, false))
  }

  lemma KeysTakeOffline()
    ensures Safe(ASKED) && Told(ASKED)
    ensures Update(ASKED, Answered(0x53)).0 == Keeping(Offline, Idle, 0x61, 0x53)
  {
  }

  lemma AskedAgain()
    ensures Update(Keeping(Offline, Idle, 0x61, 0x53), QUIET).0 == Keeping(Init, Idle, -1, 0x53)
    ensures Update(Keeping(Init, Idle, -1, 0x53), QUIET).0 == Keeping(Init, SendCmd, 0x61, 0x53)
    ensures Update(Keeping(Init, SendCmd, 0x61, 0x53), QUIET).0 == Keeping(Init, ReplyWait, 0x61, 0)
  {
  }

  lemma Identified()
    ensures Update(Keeping(Init, ReplyWait, 0x61, 0), Answered(0x45)).0 == Keeping(CapDet, Idle, 0x61, 0x45)
    ensures Update(Keeping(CapDet, Idle, 0x61, 0x45), QUIET).0 == Keeping(CapDet, SendCmd, 0x62, 0x45)
    ensures Update(Keeping(CapDet, SendCmd, 0x62, 0x45), QUIET).0 == Keeping(CapDet, ReplyWait, 0x62, 0)
  {
  }

  lemma ComesOnlineWithKeys()
    ensures var p := Keeping(CapDet, ReplyWait, 0x62, 0);
      Notifies(p, Answered(0x46)) && Update(p, Answered(0x46)).0.state == Online
  {
  }

  lemma RunStep(cp: Cp, env: Env, envs: seq<Env>)
    ensures Run(cp, [env] + envs) == Run(Update(cp, env).0, envs)
  {
    assert ([env] + envs)[1..] == envs;
  }

  /** The keys take it OFFLINE; they are told when it has come ONLINE after all. */
  lemma EarlyEventExample() returns (offline: Cp, again: Cp)
    ensures Safe(ASKED) && Told(ASKED)
    ensures offline == Update(ASKED, Answered(0x53)).0 && offline.state == Offline && Pending(offline)
    ensures again == Run(offline, [QUIET] + ([QUIET] + ([QUIET] + ([Answered(0x45)] + ([QUIET] + ([QUIET] + []))))))
    ensures Notifies(again, Answered(0x46)) && Update(again, Answered(0x46)).0.state == Online
  {
    KeysTakeOffline();
    AskedAgain();
    Identified();
    ComesOnlineWithKeys();
    hide Update, Notifies, Run, Safe;
    offline, again := Keeping(Offline, Idle, 0x61, 0x53), Keeping(CapDet, ReplyWait, 0x62, 0);
    RunStep(offline, QUIET, [QUIET] + ([QUIET] + ([Answered(0x45)] + ([QUIET] + ([QUIET] + [])))));
    RunStep(Keeping(Init, Idle, -1, 0x53), QUIET, [QUIET] + ([Answered(0x45)] + ([QUIET] + ([QUIET] + []))));
    RunStep(Keeping(Init, SendCmd, 0x61, 0x53), QUIET, [Answered(0x45)] + ([QUIET] + ([QUIET] + [])));
    RunStep(Keeping(Init, ReplyWait, 0x61, 0), Answered(0x45), [QUIET] + ([QUIET] + []));
    RunStep(Keeping(CapDet, Idle, 0x61, 0x45), QUIET, [QUIET] + []);
    RunStep(Keeping(CapDet, SendCmd, 0x62, 0x45), QUIET, []);
    NoMore(again);
  }

  lemma NoMore(cp: Cp)
    ensures Run(cp, []) == cp
  {
  }
}
