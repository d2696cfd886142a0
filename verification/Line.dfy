/** Commands and replies across a noisy line that delivers its octets in pieces:
    the receiver and the packet layer put together. */
module Line {
  import opened Bytes
  import opened Sequences
  import opened Codes
  import opened BlockCipher
  import Config
  import P = Phy
  import opened Packet
  import opened Link
  import R = Receiver
  import F = Framing

  /** Every packet a side sends has a header that the other side accepts. */
  lemma BodyWellFramed(c: Cipher, tx: P.Peer, payload: seq<uint8>, third: uint8)
    requires payload != [] && |Body(c, tx, payload, third)| < Config.PACKET_BUF_SIZE
    ensures F.WellFramed(!tx.pdMode, Body(c, tx, payload, third))
  {
    hide Body, Checks, P.CheckMatches;
    BodyChecks(c, tx, payload, third);
    AddressSide(tx);
    ChecksWellFramed(Body(c, tx, payload, third), tx, payload[0]);
  }

  lemma AddressSide(tx: P.Peer)
    ensures R.ForUs(!tx.pdMode, P.AddressOctet(tx))
  {
  }

  lemma ChecksWellFramed(f: seq<uint8>, tx: P.Peer, id: uint8)
    requires Checks(f, tx, id) && |f| < Config.PACKET_BUF_SIZE && R.ForUs(!tx.pdMode, P.AddressOctet(tx))
    ensures F.WellFramed(!tx.pdMode, f)
  {
  }

  /** What the receiver finds in its buffer once a packet is complete. */
  function Taken(rx: R.Rx): seq<uint8>
    requires |rx.buf| >= R.MarkLen(rx)
  {
    rx.buf[R.MarkLen(rx)..]
  }

  /** A packet and its mark, with noise before it, octets after it, cut anyhow: the
      receiver takes exactly the packet, and notes a mark only if one was sent or the
      noise ended in one. */
  lemma PacketTaken(c: Cipher, tx: P.Peer, payload: seq<uint8>, third: uint8, hasMark: bool,
                    noise: seq<uint8>, rest: seq<uint8>, chunks: seq<seq<uint8>>)
    requires payload != [] && |Body(c, tx, payload, third)| < Config.PACKET_BUF_SIZE
    requires F.Quiet(noise)
    requires Flatten(chunks) == noise + P.Send(c, tx, payload, third).1 + rest
    ensures var f := F.Feed(R.Rx(!tx.pdMode, hasMark, [], 0, []), chunks);
      && f.complete && |f.rx.buf| >= R.MarkLen(f.rx) && Taken(f.rx) == Body(c, tx, payload, third)
      && (f.rx.hasMark ==> P.AfterInit(tx).hasMark || (noise != [] && noise[|noise| - 1] == P.MARK))
      && f.rx.ring <= rest
  {
    hide Body, P.Send, P.AfterInit, F.Feed, F.Quiet, F.WellFramed, Taken;
    var body, mark := Body(c, tx, payload, third), P.MarkOf(P.AfterInit(tx));
    BodyWellFramed(c, tx, payload, third);
    Sending(c, tx, payload, third);
    StreamParts(noise, mark, body, rest);
    MarkQuiet(noise, P.AfterInit(tx));
    F.FragmentationIsIrrelevant(!tx.pdMode, hasMark, noise + mark, body, rest, chunks);
    var f := F.Feed(R.Rx(!tx.pdMode, hasMark, [], 0, []), chunks);
    RestInOrder(noise + mark, body, rest, chunks, f.calls);
    BehindMark(f.rx, body);
  }

  lemma RestInOrder(noise: seq<uint8>, body: seq<uint8>, rest: seq<uint8>, chunks: seq<seq<uint8>>, n: nat)
    requires Flatten(chunks) == noise + body + rest
    requires n <= |chunks| && |noise| + |body| <= |Flatten(chunks[..n])|
    ensures Flatten(chunks[..n])[|noise| + |body|..] <= rest
  {
    F.FlattenPrefix(chunks, n);
    LaterOctets(noise, body, rest, Flatten(chunks[..n]));
  }

  lemma BehindMark(rx: R.Rx, body: seq<uint8>)
    requires rx.buf == F.Mark(rx) + body[..|body|]
    ensures |rx.buf| >= R.MarkLen(rx) && Taken(rx) == body
  {
  }

  lemma LaterOctets(noise: seq<uint8>, body: seq<uint8>, rest: seq<uint8>, front: seq<uint8>)
    requires front <= noise + body + rest && |noise| + |body| <= |front|
    ensures front[|noise| + |body|..] <= rest
  {
    var all := noise + body + rest;
    assert front == all[..|front|];
    assert all[|noise| + |body|..] == rest;
  }

  lemma StreamParts(noise: seq<uint8>, mark: seq<uint8>, body: seq<uint8>, rest: seq<uint8>)
    ensures noise + (mark + body) + rest == noise + mark + body + rest
  {
  }

  lemma MarkQuiet(noise: seq<uint8>, p: P.Peer)
    requires F.Quiet(noise)
    ensures F.Quiet(noise + P.MarkOf(p))
    ensures var n := noise + P.MarkOf(p);
      n != [] && n[|n| - 1] == P.MARK ==> p.hasMark || (noise != [] && noise[|noise| - 1] == P.MARK)
  {
  }

  /** From the panel's application to the device's: the same payload, whatever the
      noise before the packet and however the line cuts it. */
  lemma CommandCrossesLine(c: Cipher, cp: P.Peer, pd: P.Peer, payload: seq<uint8>, third: uint8,
                           noise: seq<uint8>, rest: seq<uint8>, chunks: seq<seq<uint8>>)
    requires Invertible(c) && InSync(cp, pd) && payload != []
    requires P.InHandshake(false, payload[0]) ==> pd.scCapable
    requires |Body(c, cp, payload, third)| < Config.PACKET_BUF_SIZE && F.Quiet(noise)
    requires Flatten(chunks) == noise + P.Send(c, cp, payload, third).1 + rest
    ensures var f := F.Feed(R.Rx(true, pd.hasMark, [], 0, []), chunks);
      && f.complete && |f.rx.buf| >= R.MarkLen(f.rx) + 7
      && var (pd', checked, decoded) := Receive(c, pd, f.rx.hasMark, Taken(f.rx));
         && checked == P.Accepted && decoded == P.Payload(payload)
         && InExchange(P.Send(c, cp, payload, third).0, pd')
         && (pd'.hasMark ==> P.AfterInit(cp).hasMark || (noise != [] && noise[|noise| - 1] == P.MARK))
  {
    assert !cp.pdMode;
    hide Body, P.Send, F.Feed, Receive, InSync, InExchange, P.AfterInit;
    PacketTaken(c, cp, payload, third, pd.hasMark, noise, rest, chunks);
    var f := F.Feed(R.Rx(true, pd.hasMark, [], 0, []), chunks);
    CommandDelivered(c, cp, pd, payload, third, f.rx.hasMark);
    CommandKeepsStep(c, cp, pd, payload, third, f.rx.hasMark);
    Sending(c, cp, payload, third);
  }

  /** And back; but a mark seen by a panel that skips marks ends the step. */
  lemma ReplyCrossesLine(c: Cipher, cp: P.Peer, pd: P.Peer, payload: seq<uint8>, third: uint8,
                         noise: seq<uint8>, rest: seq<uint8>, chunks: seq<seq<uint8>>)
    requires Invertible(c) && InExchange(cp, pd) && payload != [] && payload[0] != REPLY_BUSY
    requires |Body(c, pd, payload, third)| < Config.PACKET_BUF_SIZE && F.Quiet(noise)
    requires Flatten(chunks) == noise + P.Send(c, pd, payload, third).1 + rest
    ensures var f := F.Feed(R.Rx(false, cp.hasMark, [], 0, []), chunks);
      && f.complete && |f.rx.buf| >= R.MarkLen(f.rx) + 7
      && var (cp', checked, decoded) := Receive(c, cp, f.rx.hasMark, Taken(f.rx));
         && checked == P.Accepted && decoded == P.Payload(payload)
         && (InSync(cp', P.Send(c, pd, payload, third).0) <==> !(cp.skipMark && cp'.hasMark))
         && (cp'.hasMark ==> P.AfterInit(pd).hasMark || (noise != [] && noise[|noise| - 1] == P.MARK))
         && cp'.scActive == cp.scActive && cp'.skipMark == cp.skipMark
  {
    hide Body, P.Send, F.Feed, Receive, InSync, P.AfterInit;
    PacketTaken(c, pd, payload, third, cp.hasMark, noise, rest, chunks);
    var f := F.Feed(R.Rx(false, cp.hasMark, [], 0, []), chunks);
    ReplyDelivered(c, cp, pd, payload, third, f.rx.hasMark);
    ReplyKeepsStep(c, cp, pd, payload, third, f.rx.hasMark);
    Sending(c, pd, payload, third);
  }
}
