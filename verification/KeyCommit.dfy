/** When the panel takes over the key it sends with KEYSET: after which outcomes of the
    exchange cp_keyset_complete runs while the device is online. */
module KeyCommit {
  import opened Codes
  import opened Options
  import opened CpStateMachine

  /** A reply identifier in a running exchange is that of this exchange: sending has
      cleared it, and only BUSY leads to a repetition. */
  ghost predicate Cleared(cp: Cp) {
    && (cp.phy == ReplyWait ==> cp.replyId == REPLY_INVALID)
    && (cp.phy == Wait ==> cp.replyId == REPLY_INVALID || cp.replyId == REPLY_BUSY)
  }

  /** The call ends an exchange and cp_check_online_response sees KEYSET and ACK. */
  predicate Commits(cp: Cp, env: Env) {
    && cp.state == Online && Running(cp.phy)
    && var (p, rc) := PhyUpdate(cp, env);
       rc != InProg && rc != CanYield && p.cmdId == CMD_KEYSET && p.replyId == REPLY_ACK
  }

  predicate AckArrives(env: Env) { env.arrival.Payload? && env.arrival.id == REPLY_ACK }

  /** The packet could not be built or sent, and the reply to the command before it,
      which is still noted, was an ACK. */
  predicate StaleAck(cp: Cp, env: Env) { cp.phy == SendCmd && !env.sends && cp.replyId == REPLY_ACK }

  lemma PhyClears(cp: Cp, env: Env)
    requires Safe(cp) && Cleared(cp) && Running(cp.phy)
    ensures var (p, rc) := PhyUpdate(cp, env);
      && (rc == InProg || rc == CanYield ==> Cleared(p))
      && p.cmdId == cp.cmdId && p.state == cp.state
      && (rc != InProg && rc != CanYield ==> (p.replyId == REPLY_ACK <==>
            (cp.phy == ReplyWait && AckArrives(env)) || StaleAck(cp, env)))
  {
    hide IsEvent, IsKnownReply, Safe;
  }

  lemma AdvanceEndsIdle(cp: Cp, err: bool, env: Env)
    ensures cp.phy == Idle ==> Advance(cp, err, env).phy == Idle
  {
  }

  lemma UpdateClears(cp: Cp, env: Env)
    requires Safe(cp) && KnownQueue(env) && Cleared(cp)
    ensures Cleared(Update(cp, env).0)
  {
    hide PhyUpdate, StateCommand, CheckReply, Advance;
    UpdateKeeps(cp, env);
    if Running(cp.phy) {
      PhyClears(cp, env);
      PhyKeeps(cp, env);
      var p := PhyUpdate(cp, env).0;
      AdvanceEndsIdle(CheckReply(p).0.(phy := Idle), p.phy == Err || !CheckReply(p).1, env);
    } else {
      IdleKeeps(cp, env);
      var (q, cmd) := StateCommand(cp, env);
      AdvanceEndsIdle(q.(cmdId := cmd), false, env);
    }
  }

  /** Over every run from the start. */
  lemma {:induction false} RunClears(cp: Cp, envs: seq<Env>)
    requires Safe(cp) && Cleared(cp) && forall i :: 0 <= i < |envs| ==> KnownQueue(envs[i])
    ensures Safe(Run(cp, envs)) && Cleared(Run(cp, envs))
    decreases |envs|
  {
    hide Safe, Update, Cleared;
    if envs != [] {
      UpdateKeeps(cp, envs[0]);
      UpdateClears(cp, envs[0]);
      RunClears(Update(cp, envs[0]).0, envs[1..]);
    }
  }

  /** In a call of any run the key is committed exactly when an ACK arrives for the
      KEYSET, well-formed or not, or when KEYSET could not be sent and the reply before
      it was an ACK. */
  lemma CommitsExactly(cp: Cp, env: Env)
    requires Safe(cp) && Cleared(cp)
    ensures Commits(cp, env) <==>
      cp.state == Online && cp.cmdId == CMD_KEYSET && ((cp.phy == ReplyWait && AckArrives(env)) || StaleAck(cp, env))
  {
  }

  /** The commit shows: a device that was online with an open channel goes back to the
      challenge, and does so for no other reason unless it has been told to go offline. */
  lemma CommitShows(cp: Cp, env: Env)
    requires Safe(cp) && cp.state == Online && cp.ch.active && !cp.req.offline && KnownQueue(env)
    ensures Update(cp, env).0.state == ScChlng <==> Commits(cp, env)
    ensures Commits(cp, env) ==> !Update(cp, env).0.ch.active
  {
    hide PhyUpdate, IsEvent;
    if Running(cp.phy) {
      PhyKeeps(cp, env);
      ChannelOrError(cp, env);
    } else {
      IdleKeeps(cp, env);
    }
  }

  /** An exchange that ends well leaves the channel as it was, and no request to go
      offline comes with an ACK. */
  lemma ChannelOrError(cp: Cp, env: Env)
    requires Safe(cp) && Running(cp.phy) && !cp.req.offline
    ensures var (p, rc) := PhyUpdate(cp, env);
      && (p.phy == Done ==> p.ch.active == cp.ch.active)
      && (rc != InProg && rc != CanYield && p.replyId == REPLY_ACK ==> !p.req.offline)
  {
    hide IsEvent, IsKnownReply, Safe;
  }

  /** What is expected of the panel: a key is committed only on a well-formed ACK that
      arrives while the reply to the KEYSET is awaited. */
  ghost predicate CommitsOnlyOnAck(cp: Cp, env: Env) {
    Commits(cp, env) ==> cp.phy == ReplyWait && AckArrives(env) && env.arrival.fits
  }

  /** The code meets this exactly when neither an old ACK is noted where sending the
      KEYSET fails, nor an ACK of the wrong length arrives for it. */
  lemma CommitsOnlyOnAckExactly(cp: Cp, env: Env)
    requires Safe(cp) && Cleared(cp)
    ensures CommitsOnlyOnAck(cp, env) <==>
      !(cp.state == Online && cp.cmdId == CMD_KEYSET &&
        (StaleAck(cp, env) || (cp.phy == ReplyWait && AckArrives(env) && !env.arrival.fits)))
  {
    hide Commits;
    CommitsExactly(cp, env);
  }

  /** The last poll was answered with ACK and the application queues a KEYSET. */
  const POLLED := Cp(Online, Idle, CMD_POLL, REPLY_ACK, 0, Settings(false, false, false),
                     Channel(true, true, false, true, true), Requests(false, false, false), false)

  const QUEUED := Env(Some(Keyset(true)), NothingToSend, false, false, Silence, false, false, false, false)

  /** Then KEYSET cannot be sent: the key is committed all the same and the channel
      closed, although nothing has left the panel. */
  lemma StaleAckExample()
    ensures Safe(POLLED) && Cleared(POLLED)
    ensures var sending := Update(POLLED, QUEUED).0;
      && sending == POLLED.(cmdId := CMD_KEYSET, phy := SendCmd)
      && !CommitsOnlyOnAck(sending, QUEUED)
      && Update(sending, QUEUED).0.state == ScChlng && !Update(sending, QUEUED).0.ch.active
  {
    var sending := POLLED.(cmdId := CMD_KEYSET, phy := SendCmd);
    assert Update(POLLED, QUEUED).0 == sending;
    assert Commits(sending, QUEUED);
    CommitShows(sending, QUEUED);
  }
}
