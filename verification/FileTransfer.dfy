/** osdp_file.c: a file sent in chunks, with a position kept at each end. */
module FileTransfer {
  import opened Bytes
  import opened Options

  const HEADER_SIZE: nat := 11
  const STAT_SIZE: nat := 7
  const ERROR_RETRY_MAX: nat := 10

  const STATUS_ACK: uint16 := 0
  const STATUS_CONTENTS_PROCESSED: uint16 := 1
  const STATUS_PD_RESET: uint16 := 2
  const STATUS_KEEP_ALIVE: uint16 := 3
  const STATUS_ERR_INVALID: uint16 := 65533

  datatype FileState = Idle | InProg | KeepAlive | Done

  /** struct osdp_file without its operations and its time stamp. */
  datatype File = File(state: FileState, fileId: uint8, length: nat, size: uint32, offset: nat, errors: nat,
                       flags: Flags, cancelReq: bool, waitMs: nat)

  datatype Flags = Flags(exclusive: bool, pollResp: bool)

  /** file_state_reset */
  const RESET: File := File(Idle, 0, 0, 0, 0, 0, Flags(false, false), false, 0)

  // ----- Messages -----

  function U16(x: nat): seq<uint8> { [Byte0(x), Byte1(x)] }

  function U32(x: nat): seq<uint8> { [Byte0(x), Byte1(x), Byte2(x), Byte3(x)] }

  /** write_file_tx_header */
  function Header(f: File): (h: seq<uint8>)
    ensures |h| == HEADER_SIZE
  {
    [f.fileId] + U32(f.size) + U32(f.offset) + U16(f.length)
  }

  datatype Xfer = Xfer(fileType: uint8, size: uint32, offset: uint32, length: uint16, data: seq<uint8>)

  /** The fields of osdp_cmd_file_xfer as the receiver reads them. */
  function ReadXfer(b: seq<uint8>): Xfer
    requires |b| >= HEADER_SIZE
  {
    Xfer(b[0], Le32(b[1], b[2], b[3], b[4]), Le32(b[5], b[6], b[7], b[8]), Le16(b[9], b[10]), b[HEADER_SIZE..])
  }

  datatype Stat = Stat(control: uint8, delay: uint16, status: uint16, rxSize: uint16)

  function WriteStat(s: Stat): (b: seq<uint8>)
    ensures |b| == STAT_SIZE
  {
    [s.control] + U16(s.delay) + U16(s.status) + U16(s.rxSize)
  }

  function ReadStat(b: seq<uint8>): Stat
    requires |b| >= STAT_SIZE
  {
    Stat(b[0], Le16(b[1], b[2]), Le16(b[3], b[4]), Le16(b[5], b[6]))
  }

  lemma XferRoundTrip(f: File, data: seq<uint8>)
    requires f.offset < 4294967296 && f.length < 65536
    ensures ReadXfer(Header(f) + data) == Xfer(f.fileId, f.size, f.offset, f.length, data)
  {
    hide Le32, Le16, Byte0, Byte1, Byte2, Byte3;
    Le32RoundTrip(f.size);
    Le32RoundTrip(f.offset);
    Le16RoundTrip(f.length);
    assert (Header(f) + data)[HEADER_SIZE..] == data;
  }

  lemma StatRoundTrip(s: Stat)
    ensures ReadStat(WriteStat(s)) == s
  {
    hide Le16, Byte0, Byte1;
    Le16RoundTrip(s.delay);
    Le16RoundTrip(s.status);
    Le16RoundTrip(s.rxSize);
  }

  // ----- The sender's side -----

  /** osdp_file_tx_command: None when the request is refused. `found` is the size that
      opening the file reports. */
  function TxCommand(f: File, fileId: uint8, cancel: bool, found: Option<int32>): Option<File> {
    if f.state == InProg then
      if cancel && fileId == f.fileId then Some(f.(cancelReq := true)) else None
    else if cancel || found == None || found.value <= 0 then None
    else Some(RESET.(fileId := fileId, size := found.value, state := InProg))
  }

  datatype Command = Nothing | HoldOn | Abort | Poll | FileChunk

  /** osdp_file_tx_get_command; `waiting` says that the requested delay has not passed. */
  function TxGetCommand(f: File, waiting: bool): (File, Command) {
    if f.state == Idle || f.state == Done then (f, Nothing)
    else if f.errors > ERROR_RETRY_MAX || f.cancelReq then (Aborted(f), Abort)
    else if f.waitMs != 0 && waiting then (f, if f.flags.exclusive then HoldOn else Nothing)
    else if f.flags.pollResp then (f, Poll)
    else (f, FileChunk)
  }

  /** osdp_file_tx_abort */
  function Aborted(f: File): File { if f.state == InProg then RESET else f }

  /** osdp_file_cmd_tx_build: `read` is what the application's read returned, None for
      a failure. A failure aborts the transfer. */
  function TxBuild(f: File, maxLen: int, read: Option<seq<uint8>>): (File, Option<seq<uint8>>)
    requires f.state == InProg || f.state == KeepAlive
  {
    if maxLen <= HEADER_SIZE then (RESET, None)
    else if f.state == KeepAlive then (f, Some(Header(f)))
    else if read == None || read.value == [] then (RESET, None)
    else
      var g := f.(length := |read.value|);
      (g, Some(Header(g) + read.value))
  }

  /** What osdp_file_cmd_stat_decode does besides updating the file. */
  datatype Verdict = Verdict(ok: bool, close: bool, restart: bool)

  /** osdp_file_cmd_stat_decode */
  function StatDecode(f: File, b: seq<uint8>): (File, Verdict) {
    if f.state != InProg || |b| < STAT_SIZE then (f, Verdict(false, false, false))
    else
      var s := ReadStat(b);
      var g := f.(flags := Flags(s.control % 2 == 0, s.control / 4 % 2 == 1),
                  offset := f.offset + f.length, length := 0, errors := 0, waitMs := s.delay);
      var close := f.length != 0 && g.offset == f.size;
      if g.offset != f.size then (g, Verdict(true, false, false))
      else if s.status == STATUS_KEEP_ALIVE then (g.(state := KeepAlive), Verdict(true, close, false))
      else if s.status == STATUS_PD_RESET then (g.(state := Done), Verdict(true, close, true))
      else if s.status == STATUS_CONTENTS_PROCESSED then (g.(state := Done), Verdict(true, close, false))
      else (g.(errors := 1), Verdict(false, close, false))
  }

  /** A status counts the chunk in whatever it says; only the last one ends the transfer: done
      for 1, done with a restart for 2, kept alive for 3, and an error for anything else. */
  lemma StatusHeard(f: File, b: seq<uint8>)
    requires f.state == InProg && |b| >= 7
    ensures var (g, v) := StatDecode(f, b);
            var status, last := b[3] as int + 256 * (b[4] as int), f.offset + f.length == f.size;
      && g.fileId == f.fileId && g.size == f.size && g.offset == f.offset + f.length && g.length == 0
      && g.waitMs == b[1] as int + 256 * (b[2] as int) && g.cancelReq == f.cancelReq
      && g.flags.exclusive == (b[0] % 2 == 0) && g.flags.pollResp == (b[0] / 4 % 2 == 1)
      && g.state == (if !last then InProg
                     else if status == 1 || status == 2 then Done else if status == 3 then KeepAlive else InProg)
      && v.ok == (!last || status == 1 || status == 2 || status == 3)
      && v.close == (last && f.length != 0) && v.restart == (last && status == 2)
      && g.errors == (if v.ok then 0 else 1)
  {
  }

  /** What the panel asks for next: nothing without a transfer; the end after more than ten
      errors or on request; nothing, or nobody else, while the delay runs; a poll when the device
      has something to say; and otherwise the next chunk. */
  lemma NextAsked(f: File, waiting: bool)
    ensures TxGetCommand(f, waiting) ==
      if f.state != InProg && f.state != KeepAlive then (f, Nothing)
      else if f.errors > 10 || f.cancelReq then (if f.state == InProg then RESET else f, Abort)
      else if f.waitMs > 0 && waiting then (f, if f.flags.exclusive then HoldOn else Nothing)
      else (f, if f.flags.pollResp then Poll else FileChunk)
  {
  }

  /** A transfer under way is stopped by its own identifier only, and then the next thing the
      panel does is to end it; no other file can be begun meanwhile. */
  lemma CancelEnds(f: File, fileId: uint8, cancel: bool, found: Option<int32>, waiting: bool)
    requires f.state == InProg && !f.cancelReq
    ensures var r := TxCommand(f, fileId, cancel, found);
      && (r.Some? <==> cancel && fileId == f.fileId)
      && (r.Some? ==> TxGetCommand(r.value, waiting) == (RESET, Abort))
      && (r.Some? ==> r.value.offset == f.offset && r.value.length == f.length && r.value.size == f.size)
  {
  }

  /** Otherwise a file is begun exactly when it is there and not empty, from its first octet;
      there is nothing to cancel. */
  lemma FileBegun(f: File, fileId: uint8, cancel: bool, found: Option<int32>)
    requires f.state != InProg
    ensures TxCommand(f, fileId, cancel, found) ==
      if !cancel && found.Some? && found.value > 0 then
        Some(File(InProg, fileId, 0, found.value, 0, 0, Flags(false, false), false, 0))
      else None
  {
  }

  /** What is sent: the header of eleven octets and behind it exactly what was read; the header
      alone to keep a transfer alive. A read that fails or gives nothing ends the transfer, and
      so does a buffer that holds no more than the header. */
  lemma ChunkSent(f: File, maxLen: int, read: Option<seq<uint8>>)
    requires f.state == InProg || f.state == KeepAlive
    ensures var (g, message) := TxBuild(f, maxLen, read);
            var data := if f.state == InProg && read.Some? then read.value else [];
      && (message == None <==> maxLen < 12 || (f.state == InProg && data == []))
      && (message == None ==> g == RESET)
      && (message.Some? ==>
            && |message.value| == 11 + |data| && message.value[11..] == data && message.value[0] == f.fileId
            && g == (if f.state == InProg then f.(length := |data|) else f)
            && message.value[..11] == Header(g))
  {
    hide U16, U32;
  }

  // ----- The receiver's side -----

  /** A file as far as it has been written. */
  function Write(store: seq<uint8>, offset: nat, data: seq<uint8>): seq<uint8>
    requires offset <= |store|
  {
    store[..offset] + data + (if offset + |data| < |store| then store[offset + |data|..] else [])
  }

  datatype Received = Received(file: File, store: seq<uint8>, ok: bool)

  /** osdp_file_cmd_tx_decode, with an application that accepts the file and writes
      everything it is given unless it would leave a gap; opening starts an empty
      file. The length in the header is that of the data. */
  function TxDecode(f: File, store: seq<uint8>, b: seq<uint8>): Received
    requires |b| > HEADER_SIZE ==> Le16(b[9], b[10]) == |b| - HEADER_SIZE
  {
    if |b| <= HEADER_SIZE then Received(f, store, false)
    else
      var x := ReadXfer(b);
      var begins := f.state == Idle || f.state == Done;
      var g := if begins then RESET.(fileId := x.fileType, size := x.size, state := InProg) else f;
      var found := if begins then [] else store;
      if g.state != InProg then Received(g, found, false)
      else if x.offset > |found| then Received(g.(errors := g.errors + 1), found, false)
      else Received(g.(length := x.length), Write(found, x.offset, x.data), true)
  }

  /** osdp_file_cmd_stat_build; `closes` says whether closing the file succeeds. */
  function StatBuild(f: File, maxLen: int, closes: bool): (File, Option<seq<uint8>>) {
    if f.state != InProg || maxLen < STAT_SIZE then (f, None)
    else
      var g := f.(offset := f.offset + f.length, length := 0);
      var status := if f.length > 0 then STATUS_ACK else STATUS_ERR_INVALID;
      if g.offset != f.size then (g, Some(WriteStat(Stat(1, 0, status, 0))))
      else if !closes then (g, None)
      else (g.(state := Done), Some(WriteStat(Stat(1, 0, STATUS_CONTENTS_PROCESSED, 0))))
  }

  /** Octets as a number, the low octet first. */
  function Number(s: seq<uint8>): nat {
    if s == [] then 0 else s[0] as int + 256 * Number(s[1..])
  }

  lemma NumberOfFour(s: seq<uint8>)
    requires |s| == 4
    ensures Number(s) == Le32(s[0], s[1], s[2], s[3])
  {
    assert s[1..][1..] == s[2..] && s[2..][1..] == s[3..] && s[3..][1..] == [];
    assert Number(s[3..]) == s[3];
    assert Number(s[2..]) == s[2] as int + 256 * (s[3] as int);
    assert Number(s[1..]) == s[1] as int + 256 * (s[2] as int) + 65536 * (s[3] as int);
  }

  /** A chunk for a transfer under way is written where its header says, and the first one opens
      the file with the identifier and size in its header; a chunk that would leave a gap is an
      error. */
  lemma ChunkHeard(f: File, store: seq<uint8>, b: seq<uint8>)
    requires |b| > 11 && b[9] as int + 256 * (b[10] as int) == |b| - 11
    ensures var begins := f.state == Idle || f.state == Done;
            var at, size := Number(b[5..9]), Number(b[1..5]);
            var held := if begins then [] else store;
            var r := TxDecode(f, store, b);
      && r.ok == (f.state != KeepAlive && at <= |held|)
      && (r.ok ==>
            && r.file.state == InProg && r.file.length == |b| - 11 && r.file.offset == (if begins then 0 else f.offset)
            && r.file.fileId == (if begins then b[0] else f.fileId)
            && r.file.size == (if begins then size else f.size)
            && r.store[..at] == held[..at] && at + |b| - 11 <= |r.store| && r.store[at..at + |b| - 11] == b[11..]
            && r.store[at + |b| - 11..] == if at + |b| - 11 < |held| then held[at + |b| - 11..] else [])
      && (!r.ok ==> r.store == held)
      && (!r.ok ==> r.file.errors == (if begins then 0 else f.errors) + (if f.state == KeepAlive then 0 else 1))
  {
    NumberOfFour(b[5..9]);
    NumberOfFour(b[1..5]);
  }

  /** The answer to a chunk: 0 while octets are missing, 1 for the last, -3 for an empty one. */
  lemma StatusSaid(f: File, maxLen: int, closes: bool)
    ensures var (g, b) := StatBuild(f, maxLen, closes);
            var last := f.offset + f.length == f.size;
      if f.state != InProg || maxLen < 7 then g == f && b == None
      else
        && g == f.(offset := f.offset + f.length, length := 0, state := if last && closes then Done else InProg)
        && b == if last && !closes then None
                else if last then Some([1, 0, 0, 1, 0, 0, 0])
                else if f.length > 0 then Some([1, 0, 0, 0, 0, 0, 0]) else Some([1, 0, 0, 0xFD, 0xFF, 0, 0])
  {
    assert WriteStat(Stat(1, 0, STATUS_ERR_INVALID, 0)) == [1, 0, 0, 0xFD, 0xFF, 0, 0];
    assert WriteStat(Stat(1, 0, STATUS_ACK, 0)) == [1, 0, 0, 0, 0, 0, 0];
    assert WriteStat(Stat(1, 0, STATUS_CONTENTS_PROCESSED, 0)) == [1, 0, 0, 1, 0, 0, 0];
  }

  // ----- A transfer -----

  datatype Transfer = Transfer(sender: File, receiver: File, store: seq<uint8>)

  /** The receiver's whole answer to a message: its new state, the file as written,
      and the status to send back. */
  function Answer(f: File, store: seq<uint8>, message: seq<uint8>, maxLen: int): (Received, Option<seq<uint8>>)
    requires |message| > HEADER_SIZE ==> Le16(message[9], message[10]) == |message| - HEADER_SIZE
  {
    var r := TxDecode(f, store, message);
    if !r.ok then (r, None)
    else
      var (g, stat) := StatBuild(r.file, maxLen, true);
      (r.(file := g), stat)
  }

  /** One chunk there and its status back; None when a step fails. */
  function Exchange(t: Transfer, maxLen: int, chunk: seq<uint8>): Option<Transfer>
    requires t.sender.state == InProg && 0 < |chunk| < 65536
  {
    var (s, message) := TxBuild(t.sender, maxLen, Some(chunk));
    if message == None then None
    else
      LengthInHeader(s, chunk);
      var (r, stat) := Answer(t.receiver, t.store, message.value, maxLen);
      if stat == None then None
      else
        var (sender, verdict) := StatDecode(s, stat.value);
        if verdict.ok then Some(Transfer(sender, r.file, r.store)) else None
  }

  lemma LengthInHeader(f: File, data: seq<uint8>)
    requires |data| < 65536 && f.length == |data|
    ensures var b := Header(f) + data; |b| == HEADER_SIZE + |data| && Le16(b[9], b[10]) == |b| - HEADER_SIZE
  {
    hide U32, Le16, Byte0, Byte1;
    Le16RoundTrip(f.length);
  }

  /** Both ends are at the same place and the receiver has the file up to there. */
  ghost predicate InStep(t: Transfer, content: seq<uint8>) {
    && 0 < |content| <= INT_MAX && t.sender.offset < |content|
    && t.sender == Holding(t.sender.fileId, |content|, t.sender.offset)
    && Following(t.receiver, t.store, content, t.sender.fileId, t.sender.offset)
  }

  /** Both ends have finished and hold the same file. */
  ghost predicate Finished(t: Transfer, content: seq<uint8>) {
    t.sender.state == Done && t.receiver.state == Done && t.store == content
    && t.sender.offset == t.receiver.offset == |content|
  }

  /** A chunk as the application's read may return it. */
  ghost predicate Readable(t: Transfer, content: seq<uint8>, n: nat, maxLen: int) {
    0 < n < 65536 && t.sender.offset + n <= |content| && maxLen > HEADER_SIZE
  }

  // ----- One chunk -----

  lemma ChunkBuilt(f: File, maxLen: int, chunk: seq<uint8>)
    requires f.state == InProg && maxLen > HEADER_SIZE && chunk != []
    ensures TxBuild(f, maxLen, Some(chunk)) == (f.(length := |chunk|), Some(Header(f.(length := |chunk|)) + chunk))
  {
    hide Header;
  }

  /** The receiver's state once it holds n octets of a file of size octets. */
  function Holding(fileId: uint8, size: uint32, n: nat): File {
    RESET.(fileId := fileId, size := size, offset := n, state := if n == size then Done else InProg)
  }

  /** The receiver follows a sender that is where it is itself. */
  ghost predicate Following(f: File, store: seq<uint8>, content: seq<uint8>, fileId: uint8, n: nat) {
    && n <= |content| <= INT_MAX
    && if f.state == InProg then f == Holding(fileId, |content|, n) && store == content[..n]
       else (f.state == Idle || f.state == Done) && n == 0
  }

  lemma ChunkAnswered(f: File, store: seq<uint8>, content: seq<uint8>, s: File, n: nat, maxLen: int)
    requires 0 < |content| <= INT_MAX && s.offset + n <= |content| && 0 < n < 65536 && s.offset < |content|
    requires s.size == |content| && s.length == n && maxLen > HEADER_SIZE
    requires Following(f, store, content, s.fileId, s.offset)
    ensures var chunk := content[s.offset..s.offset + n];
            var message := Header(s) + chunk;
      && |message| > HEADER_SIZE && Le16(message[9], message[10]) == |message| - HEADER_SIZE
      && Answer(f, store, message, maxLen) ==
           (Received(Holding(s.fileId, |content|, s.offset + n), content[..s.offset + n], true),
            Some(WriteStat(Stat(1, 0, if s.offset + n == |content| then STATUS_CONTENTS_PROCESSED else STATUS_ACK, 0))))
  {
    hide Header, ReadXfer, Le16, WriteStat, U16, U32;
    var chunk := content[s.offset..s.offset + n];
    LengthInHeader(s, chunk);
    XferRoundTrip(s, chunk);
    assert content[..s.offset] + chunk == content[..s.offset + n];
    var at := if f.state == InProg then store else [];
    assert Write(at, s.offset, chunk) == content[..s.offset + n];
    var g := Holding(s.fileId, |content|, s.offset).(length := n);
    assert TxDecode(f, store, Header(s) + chunk) == Received(g, content[..s.offset + n], true);
  }

  lemma StatusTaken(s: File, status: uint16)
    requires s.state == InProg && s.length > 0
    requires status == if s.offset + s.length == s.size then STATUS_CONTENTS_PROCESSED else STATUS_ACK
    ensures StatDecode(s, WriteStat(Stat(1, 0, status, 0))) ==
            (s.(flags := Flags(false, false), offset := s.offset + s.length, length := 0, errors := 0, waitMs := 0,
                state := if s.offset + s.length == s.size then Done else InProg),
             Verdict(true, s.offset + s.length == s.size, false))
  {
    hide WriteStat, ReadStat;
    StatRoundTrip(Stat(1, 0, status, 0));
  }

  /** One chunk of any readable length: both ends move on by exactly that length, the
      receiver's copy agrees up to there, and the two finish together. */
  lemma ChunkDelivered(t: Transfer, content: seq<uint8>, chunk: seq<uint8>, n: nat, maxLen: int)
    requires InStep(t, content) && Readable(t, content, n, maxLen)
    requires |chunk| == n && chunk == content[t.sender.offset..t.sender.offset + n]
    ensures var o, next := t.sender.offset, Exchange(t, maxLen, chunk);
      && next.Some?
      && next.value == Transfer(Holding(t.sender.fileId, |content|, o + n), Holding(t.sender.fileId, |content|, o + n),
                                content[..o + n])
      && (if o + n == |content| then Finished(next.value, content) else InStep(next.value, content))
  {
    hide Header, WriteStat, Answer, StatDecode, TxBuild;
    var s := t.sender.(length := n);
    ChunkBuilt(t.sender, maxLen, chunk);
    ChunkAnswered(t.receiver, t.store, content, s, n, maxLen);
    StatusTaken(s, if s.offset + n == |content| then STATUS_CONTENTS_PROCESSED else STATUS_ACK);
  }

  // ----- A whole run -----

  /** A chunk that the application's read returned, or some other command between two
      chunks, which touches neither file. */
  datatype Step = Chunk(length: nat) | Between

  function Sum(steps: seq<Step>): nat {
    if steps == [] then 0
    else Sum(steps[..|steps| - 1]) + (if steps[|steps| - 1].Chunk? then steps[|steps| - 1].length else 0)
  }

  /** What the application's reader hands over. */
  function ReadAt(content: seq<uint8>, offset: nat, n: nat): seq<uint8> {
    if offset + n <= |content| then content[offset..offset + n] else []
  }

  ghost function After(t: Transfer, content: seq<uint8>, maxLen: int, step: Step): Option<Transfer> {
    match step
    case Between => Some(t)
    case Chunk(n) =>
      var chunk := ReadAt(content, t.sender.offset, n);
      if t.sender.state == InProg && 0 < |chunk| < 65536 then Exchange(t, maxLen, chunk) else None
  }

  ghost function Run(t: Transfer, content: seq<uint8>, maxLen: int, steps: seq<Step>): Option<Transfer>
    decreases |steps|
  {
    if steps == [] then Some(t)
    else
      match Run(t, content, maxLen, steps[..|steps| - 1])
      case None => None
      case Some(u) => After(u, content, maxLen, steps[|steps| - 1])
  }

  /** Every chunk has something in it and the chunks do not go beyond the file; no
      chunk is sent once everything has been. */
  ghost predicate Sensible(content: seq<uint8>, start: nat, steps: seq<Step>) {
    forall i :: 0 <= i < |steps| && steps[i].Chunk? ==>
      0 < steps[i].length < 65536 && start + Sum(steps[..i + 1]) <= |content|
  }

  /** Where a run has got to. */
  ghost predicate Reached(t: Transfer, content: seq<uint8>, offset: nat) {
    && t.sender.offset == offset <= |content|
    && if offset == |content| then Finished(t, content) else InStep(t, content)
  }

  /** Over every run of chunks of any lengths with any other commands in between: the
      two ends are always at the same place, the copy agrees up to there, and when
      the chunks add up to the file both ends are done and hold the same file. */
  lemma {:induction false} RunDelivers(t: Transfer, content: seq<uint8>, maxLen: int, steps: seq<Step>)
    requires InStep(t, content) && maxLen > HEADER_SIZE && Sensible(content, t.sender.offset, steps)
    ensures var u := Run(t, content, maxLen, steps);
      u.Some? && Reached(u.value, content, t.sender.offset + Sum(steps))
    decreases |steps|
  {
    hide After, Reached, InStep;
    if steps == [] {
      ReachedStart(t, content);
    } else {
      var n := |steps| - 1;
      var before, step := steps[..n], steps[n];
      forall i | 0 <= i < |before| && before[i].Chunk?
        ensures 0 < before[i].length < 65536 && t.sender.offset + Sum(before[..i + 1]) <= |content|
      {
        assert before[..i + 1] == steps[..i + 1];
      }
      RunDelivers(t, content, maxLen, before);
      assert steps[..n + 1] == steps;
      StepReaches(Run(t, content, maxLen, before).value, content, maxLen, t.sender.offset + Sum(before), step);
    }
  }

  lemma ReachedStart(t: Transfer, content: seq<uint8>)
    requires InStep(t, content)
    ensures Reached(t, content, t.sender.offset)
  {
  }

  lemma StepReaches(t: Transfer, content: seq<uint8>, maxLen: int, offset: nat, step: Step)
    requires Reached(t, content, offset) && maxLen > HEADER_SIZE
    requires step.Chunk? ==> 0 < step.length < 65536 && offset + step.length <= |content|
    ensures var u := After(t, content, maxLen, step);
      u.Some? && Reached(u.value, content, offset + if step.Chunk? then step.length else 0)
  {
    hide Exchange;
    if step.Chunk? {
      ChunkDelivered(t, content, ReadAt(content, offset, step.length), step.length, maxLen);
    }
  }

  /** A transfer that has begun keeps asking for chunks until it is done. */
  lemma KeepsGoing(t: Transfer, content: seq<uint8>, waiting: bool)
    requires InStep(t, content)
    ensures TxGetCommand(t.sender, waiting) == (t.sender, FileChunk)
  {
  }

  lemma DoneAsksForNothing(t: Transfer, content: seq<uint8>, waiting: bool)
    requires Finished(t, content)
    ensures TxGetCommand(t.sender, waiting) == (t.sender, Nothing)
  {
  }

  /** A transfer the application has just begun, to a receiver that is not in the
      middle of another. */
  lemma BeginsInStep(f: File, receiver: File, store: seq<uint8>, content: seq<uint8>, fileId: uint8)
    requires f.state != InProg && |content| <= INT_MAX
    requires receiver.state == Idle || receiver.state == Done
    ensures var begun := TxCommand(f, fileId, false, Some(|content|));
      && (begun.Some? <==> content != [])
      && (begun.Some? ==> InStep(Transfer(begun.value, receiver, store), content))
  {
  }

  // ----- The same on the fields of struct osdp_file -----

  class FileEnd {
    var state: FileState
    var fileId: uint8
    var length: nat
    var size: uint32
    var offset: nat
    var errors: nat
    var exclusive: bool
    var pollResp: bool
    var cancelReq: bool
    var waitMs: nat

    ghost function State(): File
      reads this
    {
      File(state, fileId, length, size, offset, errors, Flags(exclusive, pollResp), cancelReq, waitMs)
    }

    constructor ()
      ensures State() == RESET
    {
      state, fileId, length, size, offset, errors := Idle, 0, 0, 0, 0, 0;
      exclusive, pollResp, cancelReq, waitMs := false, false, false, 0;
    }

    /** file_state_reset */
    method Reset()
      modifies this
      ensures State() == RESET
    {
      exclusive, pollResp, offset, length, errors, size := false, false, 0, 0, 0, 0;
      state, fileId, waitMs, cancelReq := Idle, 0, 0, false;
    }

    /** osdp_file_tx_command */
    method BeginTransfer(id: uint8, cancel: bool, found: Option<int32>) returns (ok: bool)
      modifies this
      ensures TxCommand(old(State()), id, cancel, found) == if ok then Some(State()) else None
      ensures !ok ==> State() == old(State())
    {
      if state == InProg {
        if cancel && id == fileId {
          cancelReq := true;
          return true;
        }
        return false;
      }
      if cancel || found == None || found.value <= 0 {
        return false;
      }
      Reset();
      fileId, size, state := id, found.value, InProg;
      return true;
    }

    /** osdp_file_tx_get_command */
    method GetCommand(waiting: bool) returns (cmd: Command)
      modifies this
      ensures (State(), cmd) == TxGetCommand(old(State()), waiting)
    {
      if state == Idle || state == Done {
        return Nothing;
      }
      if errors > ERROR_RETRY_MAX || cancelReq {
        if state == InProg {
          Reset();
        }
        return Abort;
      }
      if waitMs != 0 && waiting {
        return if exclusive then HoldOn else Nothing;
      }
      if pollResp {
        return Poll;
      }
      return FileChunk;
    }

    /** write_file_tx_header */
    function HeaderOctets(): (h: seq<uint8>)
      reads this
      ensures h == Header(State())
    {
      [fileId] + U32(size) + U32(offset) + U16(length)
    }

    /** osdp_file_cmd_tx_build: header and chunk into the packet buffer at pos. */
    method BuildChunk(buf: array<uint8>, pos: nat, maxLen: int, read: Option<seq<uint8>>) returns (ret: int)
      requires state == InProg || state == KeepAlive
      requires pos + HEADER_SIZE + (if read.Some? then |read.value| else 0) <= buf.Length
      modifies this, buf
      ensures var (f, message) := TxBuild(old(State()), maxLen, read);
        && State() == f
        && match message {
             case None => ret == -1
             case Some(bytes) => ret == |bytes| && pos + ret <= buf.Length && buf[pos..pos + ret] == bytes
           }
    {
      hide Header;
      if maxLen <= HEADER_SIZE {
        Reset();
        return -1;
      }
      if state == KeepAlive {
        Store(buf, pos, HeaderOctets());
        return HEADER_SIZE;
      }
      if read == None || read.value == [] {
        Reset();
        return -1;
      }
      length := |read.value|;
      var header := HeaderOctets();
      Store(buf, pos, header + read.value);
      return HEADER_SIZE + length;
    }

    method Store(buf: array<uint8>, pos: nat, bytes: seq<uint8>)
      requires pos + |bytes| <= buf.Length
      modifies buf
      ensures buf[pos..pos + |bytes|] == bytes
    {
      forall i | 0 <= i < |bytes| {
        buf[pos + i] := bytes[i];
      }
    }

    /** osdp_file_cmd_stat_decode */
    method DecodeStat(b: seq<uint8>) returns (v: Verdict)
      modifies this
      ensures (State(), v) == StatDecode(old(State()), b)
    {
      hide ReadStat;
      if state != InProg || |b| < STAT_SIZE {
        return Verdict(false, false, false);
      }
      var stat := ReadStat(b);
      exclusive := stat.control % 2 == 0;
      pollResp := stat.control / 4 % 2 == 1;
      offset := offset + length;
      var doClose := length != 0 && offset == size;
      waitMs := stat.delay;
      length := 0;
      errors := 0;
      if offset != size {
        return Verdict(true, false, false);
      }
      v := Complete(stat.status, doClose);
    }

    /** The end of osdp_file_cmd_stat_decode, at the end of the file. */
    method Complete(status: uint16, doClose: bool) returns (v: Verdict)
      requires errors == 0
      modifies this`state, this`errors
      ensures errors == if v.ok then 0 else 1
      ensures state == if status == STATUS_KEEP_ALIVE then KeepAlive else if v.ok then Done else old(state)
      ensures v == Verdict(
                     status == STATUS_KEEP_ALIVE || status == STATUS_PD_RESET || status == STATUS_CONTENTS_PROCESSED,
                     doClose, status == STATUS_PD_RESET)
    {
      if status == STATUS_KEEP_ALIVE {
        state := KeepAlive;
        return Verdict(true, doClose, false);
      }
      if status == STATUS_PD_RESET || status == STATUS_CONTENTS_PROCESSED {
        state := Done;
        return Verdict(true, doClose, status == STATUS_PD_RESET);
      }
      errors := errors + 1;
      return Verdict(false, doClose, false);
    }

    /** osdp_file_cmd_tx_decode; the file written so far goes in and comes out. */
    method DecodeChunk(b: seq<uint8>, store: seq<uint8>) returns (ok: bool, written: seq<uint8>)
      requires |b| > HEADER_SIZE ==> Le16(b[9], b[10]) == |b| - HEADER_SIZE
      modifies this
      ensures Received(State(), written, ok) == TxDecode(old(State()), store, b)
    {
      hide ReadXfer, Le16;
      if |b| <= HEADER_SIZE {
        return false, store;
      }
      var x := ReadXfer(b);
      written := store;
      if state == Idle || state == Done {
        written := [];
        Reset();
        fileId, size, state := x.fileType, x.size, InProg;
      }
      if state != InProg {
        return false, written;
      }
      if x.offset > |written| {
        errors := errors + 1;
        return false, written;
      }
      written := Write(written, x.offset, x.data);
      length := x.length;
      ok := true;
    }

    /** osdp_file_cmd_stat_build */
    method BuildStat(maxLen: int, closes: bool) returns (stat: Option<seq<uint8>>)
      modifies this
      ensures (State(), stat) == StatBuild(old(State()), maxLen, closes)
    {
      hide WriteStat;
      if state != InProg || maxLen < STAT_SIZE {
        return None;
      }
      var status := STATUS_ACK;
      if length > 0 {
        offset := offset + length;
      } else {
        status := STATUS_ERR_INVALID;
      }
      length := 0;
      if offset == size {
        if !closes {
          return None;
        }
        state := Done;
        status := STATUS_CONTENTS_PROCESSED;
      }
      return Some(WriteStat(Stat(1, 0, status, 0)));
    }
  }

  /** The four steps of one chunk, and where they lead. */
  lemma ChunkTurn(t: Transfer, content: seq<uint8>, chunk: seq<uint8>, maxLen: nat)
    returns (r: Received, stat: seq<uint8>, g: File, s: File)
    requires InStep(t, content) && HEADER_SIZE + |chunk| <= maxLen < 65536
    requires chunk != [] && t.sender.offset + |chunk| <= |content|
    requires chunk == content[t.sender.offset..t.sender.offset + |chunk|]
    ensures var sent := t.sender.(length := |chunk|);
            var message := Header(sent) + chunk;
      && t.sender.state == InProg && TxBuild(t.sender, maxLen, Some(chunk)) == (sent, Some(message))
      && |message| > HEADER_SIZE && Le16(message[9], message[10]) == |message| - HEADER_SIZE
      && TxDecode(t.receiver, t.store, message) == r && StatBuild(r.file, maxLen, true) == (g, Some(stat))
      && StatDecode(sent, stat).0 == s && s.offset == t.sender.offset + |chunk|
      && Reached(Transfer(s, g, r.store), content, s.offset)
  {
    var n := |chunk|;
    var sent := t.sender.(length := n);
    ChunkDelivered(t, content, chunk, n, maxLen);
    ChunkBuilt(t.sender, maxLen, chunk);
    ChunkAnswered(t.receiver, t.store, content, sent, n, maxLen);
    hide TxBuild, TxDecode, StatBuild, StatDecode, Header, WriteStat, Le16, InStep, Finished;
    r := TxDecode(t.receiver, t.store, Header(sent) + chunk);
    g := StatBuild(r.file, maxLen, true).0;
    stat := StatBuild(r.file, maxLen, true).1.value;
    s := StatDecode(sent, stat).0;
  }

  /** One chunk between two ends: there, and its status back. */
  method TransferChunk(sender: FileEnd, receiver: FileEnd, buf: array<uint8>, ghost content: seq<uint8>,
                       written: seq<uint8>, chunk: seq<uint8>)
    returns (written': seq<uint8>)
    requires sender != receiver && HEADER_SIZE + |chunk| <= buf.Length < 65536
    requires InStep(Transfer(sender.State(), receiver.State(), written), content)
    requires chunk != [] && sender.offset + |chunk| <= |content|
    requires chunk == content[sender.offset..sender.offset + |chunk|]
    modifies sender, receiver, buf
    ensures sender.offset == old(sender.offset) + |chunk|
    ensures Reached(Transfer(sender.State(), receiver.State(), written'), content, sender.offset)
  {
    hide TxBuild, TxDecode, StatBuild, StatDecode, Header, WriteStat, Le16, InStep, Finished, Reached;
    ghost var r, stat0, g, s :=
      ChunkTurn(Transfer(sender.State(), receiver.State(), written), content, chunk, buf.Length);
    var ret := sender.BuildChunk(buf, 0, buf.Length, Some(chunk));
    var message := buf[..ret];
    var ok;
    ok, written' := receiver.DecodeChunk(message, written);
    var stat := receiver.BuildStat(buf.Length, true);
    var verdict := sender.DecodeStat(stat.value);
  }

  /** A whole transfer between two ends, with a reader that returns any number of octets
      from one to what is left and fits the buffer: it comes to an end, both ends are
      done, and the receiver has written exactly the file. */
  method TransferFile(sender: FileEnd, receiver: FileEnd, buf: array<uint8>, id: uint8, content: seq<uint8>,
                      wish: nat -> nat)
    returns (written: seq<uint8>)
    requires sender != receiver && sender.state != InProg && receiver.state in {Idle, Done}
    requires 0 < |content| <= INT_MAX && HEADER_SIZE < buf.Length < 65536
    modifies sender, receiver, buf
    ensures written == content && sender.state == receiver.state == Done
    ensures sender.offset == receiver.offset == |content|
  {
    written := [];
    BeginsInStep(sender.State(), receiver.State(), written, content, id);
    var begun := sender.BeginTransfer(id, false, Some(|content|));
    while sender.state == InProg
      invariant Reached(Transfer(sender.State(), receiver.State(), written), content, sender.offset)
      decreases |content| - sender.offset
    {
      var left := |content| - sender.offset;
      var room := buf.Length - HEADER_SIZE;
      var n := 1 + wish(sender.offset) % (if left < room then left else room);
      written := TransferChunk(sender, receiver, buf, content, written, content[sender.offset..sender.offset + n]);
    }
  }
}
