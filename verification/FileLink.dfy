/** A file sent over the link itself: every chunk a packet that may be secured, on a
    line with noise that delivers its octets in pieces. */
module FileLink {
  import opened Bytes
  import opened Sequences
  import opened Codes
  import opened Options
  import opened BlockCipher
  import Config
  import SC = SecureChannel
  import P = Phy
  import opened Packet
  import opened Link
  import R = Receiver
  import F = Framing
  import Line
  import T = FileTransfer
  import B = ChunkBound

  // ----- One packet on the line -----

  /** What surrounds a packet: noise before it, octets after it, and where the stream
      is cut into calls. */
  datatype Journey = Journey(noise: seq<uint8>, rest: seq<uint8>, cuts: seq<nat>)

  function Cut(s: seq<uint8>, cuts: seq<nat>): seq<seq<uint8>>
    decreases |cuts|
  {
    if cuts == [] then [s]
    else
      var n := R.Min(cuts[0], |s|);
      [s[..n]] + Cut(s[n..], cuts[1..])
  }

  lemma {:induction false} CutFlattens(s: seq<uint8>, cuts: seq<nat>)
    ensures Flatten(Cut(s, cuts)) == s
    decreases |cuts|
  {
    if cuts == [] {
      assert Flatten([s]) == s + Flatten([]);
    } else {
      var n := R.Min(cuts[0], |s|);
      CutFlattens(s[n..], cuts[1..]);
      assert Cut(s, cuts)[1..] == Cut(s[n..], cuts[1..]);
      assert s == s[..n] + s[n..];
    }
  }

  function Stream(wire: seq<uint8>, j: Journey): seq<seq<uint8>> { Cut(j.noise + wire + j.rest, j.cuts) }

  /** The receiver assembles a packet from the stream and the packet layer reads it. */
  function Over(c: Cipher, rx: P.Peer, wire: seq<uint8>, j: Journey): Option<(P.Peer, P.Decoded)> {
    var f := F.Feed(R.Rx(rx.pdMode, rx.hasMark, [], 0, []), Stream(wire, j));
    if !f.complete || |f.rx.buf| < R.MarkLen(f.rx) + 7 then None
    else
      var (p, _, decoded) := Receive(c, rx, f.rx.hasMark, Line.Taken(f.rx));
      Some((p, decoded))
  }

  /** Noise that a panel without marks may hear: none of it is taken for one. */
  ghost predicate Harmless(skipMark: bool, j: Journey) {
    F.Quiet(j.noise) && (skipMark ==> j.noise == [] || j.noise[|j.noise| - 1] != P.MARK)
  }

  lemma CommandOver(c: Cipher, cp: P.Peer, pd: P.Peer, payload: seq<uint8>, j: Journey)
    requires Invertible(c) && InSync(cp, pd) && payload != [] && !P.InHandshake(false, payload[0])
    requires |Body(c, cp, payload, 0)| < Config.PACKET_BUF_SIZE && Harmless(cp.skipMark, j)
    ensures var (cp1, wire) := P.Send(c, cp, payload, 0);
      var heard := Over(c, pd, wire, j);
      && heard.Some? && heard.value.1 == P.Payload(payload)
      && InExchange(cp1, heard.value.0)
      && cp1.skipMark == cp.skipMark && cp1.scActive == cp.scActive
      && (cp.skipMark ==> !heard.value.0.hasMark)
  {
    hide P.Send, Receive, F.Feed, InExchange, Body, Line.Taken, Cut, F.Quiet;
    var (cp1, wire) := P.Send(c, cp, payload, 0);
    CutFlattens(j.noise + wire + j.rest, j.cuts);
    Line.CommandCrossesLine(c, cp, pd, payload, 0, j.noise, j.rest, Stream(wire, j));
    SentKeeps(c, cp, payload);
  }

  lemma SentKeeps(c: Cipher, cp: P.Peer, payload: seq<uint8>)
    requires payload != []
    ensures var cp1 := P.Send(c, cp, payload, 0).0; cp1.skipMark == cp.skipMark && cp1.scActive == cp.scActive
  {
    hide P.Send, SC.WithMac;
    Sending(c, cp, payload, 0);
  }

  lemma ReplyOver(c: Cipher, cp: P.Peer, pd: P.Peer, payload: seq<uint8>, j: Journey)
    requires Invertible(c) && InExchange(cp, pd) && payload != [] && payload[0] != REPLY_BUSY
    requires |Body(c, pd, payload, 0)| < Config.PACKET_BUF_SIZE && Harmless(cp.skipMark, j)
    requires cp.skipMark ==> !pd.hasMark
    ensures var (pd1, wire) := P.Send(c, pd, payload, 0);
      var heard := Over(c, cp, wire, j);
      && heard.Some? && heard.value.1 == P.Payload(payload)
      && InSync(heard.value.0, pd1)
      && heard.value.0.skipMark == cp.skipMark && heard.value.0.scActive == cp.scActive
  {
    hide P.Send, Receive, F.Feed, InSync, Body, Line.Taken, Cut, F.Quiet;
    var (pd1, wire) := P.Send(c, pd, payload, 0);
    CutFlattens(j.noise + wire + j.rest, j.cuts);
    Line.ReplyCrossesLine(c, cp, pd, payload, 0, j.noise, j.rest, Stream(wire, j));
  }

  // ----- One chunk -----

  /** The data of a packet, if it is of the kind that is waited for. */
  function DataOf(id: uint8, d: P.Decoded): Option<seq<uint8>> {
    if d.Payload? && d.bytes != [] && d.bytes[0] == id then Some(d.bytes[1..]) else None
  }

  predicate Honest(m: seq<uint8>) {
    |m| > T.HEADER_SIZE ==> Le16(m[9], m[10]) == |m| - T.HEADER_SIZE
  }

  /** Both ends of the link and of the transfer. */
  datatype Ends = Ends(cp: P.Peer, pd: P.Peer, t: T.Transfer)

  /** The status on its way back. */
  function CarryStat(c: Cipher, cp: P.Peer, pd: P.Peer, stat: seq<uint8>, back: Journey)
    : Option<(P.Peer, P.Peer, seq<uint8>)>
  {
    var (pd1, wire) := P.Send(c, pd, [REPLY_FTSTAT] + stat, 0);
    match Over(c, cp, wire, back)
    case None => None
    case Some(heard) =>
      match DataOf(REPLY_FTSTAT, heard.1)
      case None => None
      case Some(data) => Some((heard.0, pd1, data))
  }

  /** The chunk on its way there: what the device has read. */
  function CarryXfer(c: Cipher, cp: P.Peer, pd: P.Peer, message: seq<uint8>, there: Journey)
    : Option<(P.Peer, P.Peer, seq<uint8>)>
  {
    var (cp1, wire) := P.Send(c, cp, [CMD_FILETRANSFER] + message, 0);
    match Over(c, pd, wire, there)
    case None => None
    case Some(heard) =>
      match DataOf(CMD_FILETRANSFER, heard.1)
      case None => None
      case Some(data) => Some((cp1, heard.0, data))
  }

  /** One chunk: built by the panel's file layer, carried, written and answered by the
      device's, and the answer carried back. None when a step fails. */
  function CarryChunk(c: Cipher, e: Ends, room: int, chunk: seq<uint8>, there: Journey, back: Journey): Option<Ends>
    requires e.t.sender.state == T.InProg && 0 < |chunk| < 65536
  {
    var (s, message) := T.TxBuild(e.t.sender, room, Some(chunk));
    if message == None then None
    else
      match CarryXfer(c, e.cp, e.pd, message.value, there)
      case None => None
      case Some(asked) =>
        if !Honest(asked.2) then None
        else
          var (r, stat) := T.Answer(e.t.receiver, e.t.store, asked.2, room);
          if stat == None then None
          else
            match CarryStat(c, asked.0, asked.1, stat.value, back)
            case None => None
            case Some(told) =>
              var (sender, verdict) := T.StatDecode(s, told.2);
              if verdict.ok then Some(Ends(told.0, told.1, T.Transfer(sender, r.file, r.store))) else None
  }

  /** A panel between two exchanges marks its packets unless it never does. */
  lemma MarkIs(cp: P.Peer, pd: P.Peer)
    requires InSync(cp, pd)
    ensures !cp.pdMode && |P.MarkOf(P.AfterInit(cp))| == if cp.skipMark then 0 else 1
  {
    hide P.NextSeq;
  }

  /** How much of a file one packet may take, for the packet buffer as configured. */
  function ChunkLimit(skipMark: bool, active: bool): int {
    B.Available(Config.PACKET_BUF_SIZE, if skipMark then 0 else 1, active)
  }

  lemma ChunkFits(c: Cipher, cp: P.Peer, pd: P.Peer, header: seq<uint8>, chunk: seq<uint8>)
    requires InSync(cp, pd) && |header| == T.HEADER_SIZE && |chunk| <= ChunkLimit(cp.skipMark, cp.scActive)
    ensures |Body(c, cp, B.ChunkPayload(header, chunk), 0)| < Config.PACKET_BUF_SIZE
  {
    hide P.Send, Body, B.WireLength, P.AfterInit, P.MarkOf;
    MarkIs(cp, pd);
    B.SentLength(c, cp, header, chunk);
    SentBody(c, cp, B.ChunkPayload(header, chunk), 0);
    LengthFits(if cp.skipMark then 0 else 1, cp.scActive, |chunk|);
    Sending(c, cp, B.ChunkPayload(header, chunk), 0);
  }

  lemma LengthFits(mark: nat, active: bool, n: nat)
    requires mark <= 1 && n <= B.Available(Config.PACKET_BUF_SIZE, mark, active)
    ensures B.WireLength(mark, active, n) - mark < Config.PACKET_BUF_SIZE
  {
    if active {
      B.Longest(Config.PACKET_BUF_SIZE, mark, n);
      B.LongestLength(16, 0, mark);
    }
  }

  lemma StatFits(c: Cipher, pd: P.Peer, stat: seq<uint8>)
    requires |stat| == T.STAT_SIZE
    ensures |Body(c, pd, [REPLY_FTSTAT] + stat, 0)| < Config.PACKET_BUF_SIZE
  {
    hide Body, SC.EncryptData, SC.WithMac;
    var payload := [REPLY_FTSTAT] + stat;
    if pd.scActive {
      SecureBody(c, pd, payload, 0);
    } else {
      PlainBody(c, pd, payload, 0);
    }
  }

  lemma XferCarried(c: Cipher, cp: P.Peer, pd: P.Peer, header: seq<uint8>, chunk: seq<uint8>, there: Journey)
    requires Invertible(c) && InSync(cp, pd) && |header| == T.HEADER_SIZE
    requires |chunk| <= ChunkLimit(cp.skipMark, cp.scActive) && Harmless(cp.skipMark, there)
    ensures var asked := CarryXfer(c, cp, pd, header + chunk, there);
      && asked.Some? && asked.value.2 == header + chunk
      && InExchange(asked.value.0, asked.value.1) && (cp.skipMark ==> !asked.value.1.hasMark)
      && asked.value.0.skipMark == cp.skipMark && asked.value.0.scActive == cp.scActive
  {
    hide P.Send, Over, InSync, InExchange, Body, Harmless, ChunkLimit;
    var payload := B.ChunkPayload(header, chunk);
    assert [CMD_FILETRANSFER] + (header + chunk) == payload && payload[1..] == header + chunk;
    ChunkFits(c, cp, pd, header, chunk);
    CommandOver(c, cp, pd, payload, there);
  }

  lemma StatCarried(c: Cipher, cp: P.Peer, pd: P.Peer, stat: seq<uint8>, back: Journey)
    requires Invertible(c) && InExchange(cp, pd) && |stat| == T.STAT_SIZE
    requires Harmless(cp.skipMark, back) && (cp.skipMark ==> !pd.hasMark)
    ensures var told := CarryStat(c, cp, pd, stat, back);
      && told.Some? && told.value.2 == stat && InSync(told.value.0, told.value.1)
      && told.value.0.skipMark == cp.skipMark && told.value.0.scActive == cp.scActive
  {
    hide P.Send, Over, InSync, InExchange, Body, Harmless;
    var payload := [REPLY_FTSTAT] + stat;
    assert payload[1..] == stat;
    StatFits(c, pd, stat);
    ReplyOver(c, cp, pd, payload, back);
  }

  /** A chunk that may be read crosses the line: the transfer moves on exactly as if the
      messages had been handed over directly, and the link stays in step. */
  lemma ChunkCarried(c: Cipher, e: Ends, content: seq<uint8>, room: int, n: nat, there: Journey, back: Journey)
    returns (e': Ends)
    requires Invertible(c) && InSync(e.cp, e.pd)
    requires T.InStep(e.t, content) && T.Readable(e.t, content, n, room) && n <= ChunkLimit(e.cp.skipMark,
        e.cp.scActive)
    requires Harmless(e.cp.skipMark, there) && Harmless(e.cp.skipMark, back)
    ensures var chunk := T.ReadAt(content, e.t.sender.offset, n);
      && |chunk| == n && CarryChunk(c, e, room, chunk, there, back) == Some(e')
      && T.Exchange(e.t, room, chunk) == Some(e'.t)
    ensures InSync(e'.cp, e'.pd) && e'.cp.skipMark == e.cp.skipMark && e'.cp.scActive == e.cp.scActive
  {
    hide CarryXfer, CarryStat, InSync, InExchange, Harmless, ChunkLimit, Le16, T.Header, T.WriteStat, T.StatDecode,
        T.Answer;
    var chunk := T.ReadAt(content, e.t.sender.offset, n);
    T.ChunkDelivered(e.t, content, chunk, n, room);
    var s := e.t.sender.(length := n);
    T.ChunkBuilt(e.t.sender, room, chunk);
    XferCarried(c, e.cp, e.pd, T.Header(s), chunk, there);
    T.LengthInHeader(s, chunk);
    var asked := CarryXfer(c, e.cp, e.pd, T.Header(s) + chunk, there).value;
    T.ChunkAnswered(e.t.receiver, e.t.store, content, s, n, room);
    var (r, stat) := T.Answer(e.t.receiver, e.t.store, T.Header(s) + chunk, room);
    StatCarried(c, asked.0, asked.1, stat.value, back);
    e' := CarryChunk(c, e, room, chunk, there, back).value;
  }

  // ----- A whole file -----

  /** A chunk, or any other exchange between two chunks. */
  datatype Step = Carry(length: nat, there: Journey, back: Journey) | Other(turn: Turn)

  function Planned(s: Step): T.Step {
    match s
    case Carry(n, _, _) => T.Chunk(n)
    case Other(_) => T.Between
  }

  function Plan(steps: seq<Step>): seq<T.Step> {
    seq(|steps|, i requires 0 <= i < |steps| => Planned(steps[i]))
  }

  ghost function After(c: Cipher, e: Ends, content: seq<uint8>, room: int, s: Step): Option<Ends> {
    match s
    case Carry(n, there, back) =>
      var chunk := T.ReadAt(content, e.t.sender.offset, n);
      if e.t.sender.state == T.InProg && 0 < |chunk| < 65536 then CarryChunk(c, e, room, chunk, there, back) else None
    case Other(t) =>
      if t.command == [] || t.reply == [] then None
      else
        var x := Exchange(c, e.cp, e.pd, t);
        if x.2 == P.Payload(t.command) && x.3 == P.Payload(t.reply) then Some(Ends(x.0, x.1, e.t)) else None
  }

  ghost function Run(c: Cipher, e: Ends, content: seq<uint8>, room: int, steps: seq<Step>): Option<Ends>
    decreases |steps|
  {
    if steps == [] then Some(e)
    else
      match Run(c, e, content, room, steps[..|steps| - 1])
      case None => None
      case Some(u) => After(c, u, content, room, steps[|steps| - 1])
  }

  /** A step that fits the packet buffer and disturbs nothing. */
  ghost predicate Allowed(skipMark: bool, active: bool, s: Step) {
    match s
    case Carry(n, there, back) =>
      n <= ChunkLimit(skipMark, active) && Harmless(skipMark, there) && Harmless(skipMark, back)
    case Other(t) => Possible(skipMark, true, t) && Ordinary(t)
  }

  /** The link is in step and as it was, and so is the transfer. */
  ghost predicate Standing(e0: Ends, e: Ends, content: seq<uint8>, offset: nat) {
    && InSync(e.cp, e.pd) && e.cp.skipMark == e0.cp.skipMark && e.cp.scActive == e0.cp.scActive
    && T.Reached(e.t, content, offset)
  }

  lemma StepCarried(c: Cipher, e0: Ends, e: Ends, content: seq<uint8>, room: int, offset: nat, s: Step)
    requires Invertible(c) && Standing(e0, e, content, offset) && room > T.HEADER_SIZE
    requires Allowed(e0.cp.skipMark, e0.cp.scActive, s)
    requires s.Carry? ==> 0 < s.length < 65536 && offset + s.length <= |content|
    ensures var e' := After(c, e, content, room, s);
      && e'.Some? && Standing(e0, e'.value, content, offset + if s.Carry? then s.length else 0)
      && T.After(e.t, content, room, Planned(s)) == Some(e'.value.t)
  {
    hide CarryChunk, T.Exchange, Exchange, InSync, Harmless, ChunkLimit, Possible, Ordinary;
    match s {
      case Carry(n, there, back) =>
        var e' := ChunkCarried(c, e, content, room, n, there, back);
        T.StepReaches(e.t, content, room, offset, T.Chunk(n));
      case Other(t) =>
        CapableOrNot(e, t);
        TurnFacts(c, e.cp, e.pd, t);
    }
  }

  /** A turn that needs no handshake asks nothing of the device. */
  lemma CapableOrNot(e: Ends, t: Turn)
    requires Possible(e.cp.skipMark, true, t) && Ordinary(t)
    ensures Possible(e.cp.skipMark, e.pd.scCapable, t)
  {
  }

  lemma PlanParts(steps: seq<Step>)
    requires steps != []
    ensures var n := |steps| - 1; Plan(steps) == Plan(steps[..n]) + [Planned(steps[n])]
    ensures T.Sum(Plan(steps)) ==
            T.Sum(Plan(steps[..|steps| - 1])) + (if steps[|steps| - 1].Carry? then steps[|steps| - 1].length else 0)
  {
    var n := |steps| - 1;
    assert Plan(steps)[..n] == Plan(steps[..n]);
  }

  lemma SensibleParts(content: seq<uint8>, start: nat, steps: seq<Step>)
    requires steps != [] && T.Sensible(content, start, Plan(steps))
    ensures T.Sensible(content, start, Plan(steps[..|steps| - 1]))
    ensures var s := steps[|steps| - 1];
      s.Carry? ==> 0 < s.length < 65536 && start + T.Sum(Plan(steps[..|steps| - 1])) + s.length <= |content|
  {
    var n := |steps| - 1;
    var all, before := Plan(steps), Plan(steps[..n]);
    forall i | 0 <= i < |before| && before[i].Chunk?
      ensures 0 < before[i].length < 65536 && start + T.Sum(before[..i + 1]) <= |content|
    {
      assert all[i] == before[i] && before[..i + 1] == all[..i + 1];
    }
    PlanParts(steps);
    assert all[..n + 1] == all && all[n] == Planned(steps[n]);
  }

  /** Over every run of chunks of any lengths that the reserve allows, with noise on the
      line and the octets cut anyhow, secured or not, and with other exchanges in
      between: no packet is too long, every step succeeds, the copy agrees up to where
      both ends are, and when the chunks add up to the file both are done and hold the
      same file. */
  lemma {:induction false} FileArrives(c: Cipher, e: Ends, content: seq<uint8>, room: int, steps: seq<Step>)
    requires Invertible(c) && InSync(e.cp, e.pd) && T.InStep(e.t, content) && room > T.HEADER_SIZE
    requires T.Sensible(content, e.t.sender.offset, Plan(steps))
    requires forall i :: 0 <= i < |steps| ==> Allowed(e.cp.skipMark, e.cp.scActive, steps[i])
    ensures var u := Run(c, e, content, room, steps);
      u.Some? && Standing(e, u.value, content, e.t.sender.offset + T.Sum(Plan(steps)))
    decreases |steps|
  {
    hide After, Allowed, InSync, T.InStep, T.Sensible, T.Sum, T.Reached;
    if steps == [] {
      T.ReachedStart(e.t, content);
      NothingPlanned();
      assert Standing(e, e, content, e.t.sender.offset);
    } else {
      var n := |steps| - 1;
      SensibleParts(content, e.t.sender.offset, steps);
      PlanParts(steps);
      FileArrives(c, e, content, room, steps[..n]);
      StepCarried(c, e, Run(c, e, content, room, steps[..n]).value, content, room,
                  e.t.sender.offset + T.Sum(Plan(steps[..n])), steps[n]);
    }
  }

  lemma NothingPlanned()
    ensures T.Sum(Plan([])) == 0
  {
  }
}
