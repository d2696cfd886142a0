/** From the fields of a command to the same fields on the device, and of a reply back
    to the panel, across the whole stack: codec, packet, secure channel, noisy line. */
module EndToEnd {
  import opened Bytes
  import opened Sequences
  import opened Codes
  import opened Options
  import opened BlockCipher
  import Config
  import SC = SecureChannel
  import P = Phy
  import opened Packet
  import opened Link
  import R = Receiver
  import F = Framing
  import Line
  import C = Commands
  import A = Replies
  import T = TinyAesModes
  import H = Handshake
  import K = KeyRotation
  import S = Session

  // ----- Size -----

  lemma SentSize(c: Cipher, tx: P.Peer, payload: seq<uint8>, third: uint8)
    requires payload != [] && |payload| <= 200
    ensures |Body(c, tx, payload, third)| < Config.PACKET_BUF_SIZE
  {
    hide SC.EncryptData, SC.WithMac, Body;
    if tx.scActive {
      SecureBody(c, tx, payload, third);
      PadSmall(|payload|);
    } else {
      PlainBody(c, tx, payload, third);
    }
  }

  lemma PadSmall(n: nat)
    requires n <= 200
    ensures SC.PadLen(n) <= 208
  {
  }

  lemma CommandSize(cmd: C.Command)
    requires C.Valid(cmd)
    ensures |C.Build(cmd)| <= 200 && !P.InHandshake(false, C.Build(cmd)[0])
  {
  }

  lemma ReplySize(r: A.Reply)
    requires A.Sound(r)
    ensures |A.BuildReply(r)| <= 200 && A.BuildReply(r)[0] != REPLY_BUSY
  {
  }

  // ----- Commands -----

  /** Every valid command, in the clear or over an open channel, with noise before it
      and the line cutting it anyhow: the device's packet layer accepts it, and its
      decoder hands the application exactly this command, if the device takes it. */
  lemma CommandReaches(c: Cipher, cp: P.Peer, pd: P.Peer, d: C.Device, cmd: C.Command,
                       noise: seq<uint8>, rest: seq<uint8>, chunks: seq<seq<uint8>>)
    requires Invertible(c) && InSync(cp, pd) && C.Valid(cmd) && F.Quiet(noise)
    requires Flatten(chunks) == noise + P.Send(c, cp, C.Build(cmd), 0).1 + rest
    ensures var f := F.Feed(R.Rx(true, pd.hasMark, [], 0, []), chunks);
      && f.complete && |f.rx.buf| >= R.MarkLen(f.rx) + 7
      && var (pd', checked, decoded) := Receive(c, pd, f.rx.hasMark, Line.Taken(f.rx));
         && checked == P.Accepted && decoded == P.Payload(C.Build(cmd))
         && InExchange(P.Send(c, cp, C.Build(cmd), 0).0, pd')
         && (C.Takes(d, cmd) ==> C.Handle(d, decoded.bytes).calls == [cmd])
  {
    hide P.Send, F.Feed, Receive, InSync, InExchange, C.Handle, C.Build, C.Valid, Line.Taken;
    CommandSize(cmd);
    SentSize(c, cp, C.Build(cmd), 0);
    Line.CommandCrossesLine(c, cp, pd, C.Build(cmd), 0, noise, rest, chunks);
    C.CommandRoundTrip(d, cmd);
  }

  // ----- Replies -----

  /** And every reply on the way back. */
  lemma ReplyReaches(c: Cipher, cp: P.Peer, pd: P.Peer, r: A.Reply,
                     noise: seq<uint8>, rest: seq<uint8>, chunks: seq<seq<uint8>>)
    requires Invertible(c) && InExchange(cp, pd) && A.Sound(r) && F.Quiet(noise)
    requires Flatten(chunks) == noise + P.Send(c, pd, A.BuildReply(r), 0).1 + rest
    ensures var f := F.Feed(R.Rx(false, cp.hasMark, [], 0, []), chunks);
      && f.complete && |f.rx.buf| >= R.MarkLen(f.rx) + 7
      && var (cp', checked, decoded) := Receive(c, cp, f.rx.hasMark, Line.Taken(f.rx));
         && checked == P.Accepted && decoded == P.Payload(A.BuildReply(r))
         && (InSync(cp', P.Send(c, pd, A.BuildReply(r), 0).0) <==> !(cp.skipMark && cp'.hasMark))
         && A.Decode(decoded.bytes) == Some(r)
  {
    hide P.Send, F.Feed, Receive, InSync, InExchange, A.Decode, A.BuildReply, A.Sound, Line.Taken, P.AfterInit;
    ReplySize(r);
    SentSize(c, pd, A.BuildReply(r), 0);
    Line.ReplyCrossesLine(c, cp, pd, A.BuildReply(r), 0, noise, rest, chunks);
    A.ReplyRoundTrip(r);
  }

  // ----- A session with TinyAES -----

  /** With TinyAES behind osdp_encrypt and osdp_decrypt nothing is left to assume: a
      handshake from the same base key, then any exchanges, delivers everything. */
  lemma TinyAesSession(cp: P.Peer, pd: P.Peer, env: H.Env, turns: seq<Turn>)
    requires H.Closed(cp, pd) && H.SameBaseKey(cp, pd, env.hasScbk)
    requires H.MarksSent(cp, env.mark1, env.mark2) && H.MarksSent(cp, env.mark3, env.mark4)
    requires AllPossible(cp.skipMark, pd.scCapable, turns)
    ensures var s := H.Open(T.BACKEND, cp, pd, env);
      && s.Some? && H.Established(s.value.0, s.value.1)
      && Delivered(s.value.0, s.value.1, turns, Run(T.BACKEND, s.value.0, s.value.1, turns))
  {
    hide H.Open, H.Closed, Run, Delivered, Invertible, H.SameBaseKey;
    T.BackendInvertible();
    H.ClosedCapable(cp, pd);
    var cp2, pd2 := H.HandshakeAgrees(T.BACKEND, cp, pd, env);
    RunDelivers(T.BACKEND, cp2, pd2, turns);
  }

  /** And so does any mixture of exchanges, new addresses and new keys after it. */
  lemma TinyAesLife(cp: P.Peer, pd: P.Peer, env: H.Env, steps: seq<S.Step>) returns (cp2: P.Peer, pd2: P.Peer)
    requires H.Closed(cp, pd) && cp.keys.scbk == pd.keys.scbk && env.hasScbk
    requires !cp.useScbkd && !pd.useScbkd && !pd.installMode
    requires H.MarksSent(cp, env.mark1, env.mark2) && H.MarksSent(cp, env.mark3, env.mark4)
    requires forall i :: 0 <= i < |steps| ==> S.Allowed(cp.skipMark, steps[i])
    ensures var s := H.Open(T.BACKEND, cp, pd, env);
      s.Some? && S.DoAll(T.BACKEND, s.value.0, s.value.1, steps) == Some((cp2, pd2))
    ensures K.KeyedSession(cp2, pd2, S.KeyAfter(cp.keys.scbk, steps))
  {
    hide H.Open, H.Closed, H.Established, S.DoAll, S.Allowed, Invertible;
    T.BackendInvertible();
    var cp1, pd1 := H.HandshakeAgrees(T.BACKEND, cp, pd, env);
    cp2, pd2 := S.LifeAgrees(T.BACKEND, cp1, pd1, cp.keys.scbk, steps);
  }
}
