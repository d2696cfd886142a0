/** A packet in a noisy, arbitrarily fragmented stream: what osdp_phy_check_packet
    assembles does not depend on how the octets arrive. */
module Framing {
  import opened Bytes
  import opened Sequences
  import Config
  import P = Phy
  import opened Receiver

  /** Octets that hold no start of message. */
  ghost predicate Quiet(noise: seq<uint8>) {
    forall i :: 0 <= i < |noise| ==> noise[i] != P.SOM
  }

  /** A packet whose header the receiver accepts and that fits behind a mark. The
      least packet with a CRC has eight octets. */
  ghost predicate WellFramed(pdMode: bool, frame: seq<uint8>) {
    && 8 <= |frame| < Config.PACKET_BUF_SIZE
    && frame[0] == P.SOM && ForUs(pdMode, frame[1]) && Le16(frame[2], frame[3]) == |frame|
  }

  function Mark(rx: Rx): seq<uint8> { if rx.hasMark then [P.MARK] else [] }

  /** The mark is a real one: the octet before the packet. */
  ghost predicate MarkReal(rx: Rx, noise: seq<uint8>) {
    rx.hasMark ==> noise != [] && noise[|noise| - 1] == P.MARK
  }

  /** h octets of the packet are in the buffer and the ring is empty. */
  ghost predicate Holds(rx: Rx, noise: seq<uint8>, frame: seq<uint8>, h: nat) {
    && 0 < h <= |frame| && MarkReal(rx, noise)
    && rx.buf == Mark(rx) + frame[..h]
  }

  /** The state when d octets of the stream have been handed over and the packet
      is not complete. */
  ghost predicate Progress(rx: Rx, noise: seq<uint8>, frame: seq<uint8>, d: nat) {
    && rx.ring == []
    && if d <= |noise| then rx.packetLen == 0 && rx.buf == []
       else
         && d < |noise| + |frame|
         && Holds(rx, noise, frame, d - |noise|)
         && rx.packetLen == if |rx.buf| < 5 then 0 else |frame| + MarkLen(rx)
  }

  /** The packet is in the buffer; what came after it is still in the ring. */
  ghost predicate Assembled(rx: Rx, noise: seq<uint8>, frame: seq<uint8>, later: seq<uint8>) {
    && Holds(rx, noise, frame, |frame|) && rx.packetLen == |rx.buf| && rx.ring == later
  }

  // ----- One call -----

  lemma {:induction false} ScanQuiet(ring: seq<uint8>, prev: uint8)
    requires Quiet(ring)
    ensures Scan(ring, prev) == Nothing
    decreases |ring|
  {
    if ring != [] {
      ScanQuiet(ring[1..], ring[0]);
    }
  }

  lemma {:induction false} ScanFinds(ring: seq<uint8>, prev: uint8, n: nat)
    requires n < |ring| && ring[n] == P.SOM && Quiet(ring[..n])
    ensures Scan(ring, prev) == Start((if n == 0 then prev else ring[n - 1]) == P.MARK, ring[n + 1..])
    decreases n
  {
    if n > 0 {
      assert ring[0] == ring[..n][0];
      assert ring[1..][..n - 1] == ring[..n][1..];
      ScanFinds(ring[1..], ring[0], n - 1);
    }
  }

  /** Four more octets at most: never beyond the end of the packet. */
  lemma HeaderGathered(rx: Rx, noise: seq<uint8>, frame: seq<uint8>, h: nat)
    requires WellFramed(rx.pdMode, frame) && h + 4 <= |frame| && 0 < h && MarkReal(rx, noise)
    requires rx.buf == Mark(rx) + frame[..h]
    requires var k := Min(4, |rx.ring|); rx.ring[..k] == frame[h..h + k]
    ensures var t, k := Gather(rx, 4), Min(4, |rx.ring|);
      Holds(t, noise, frame, h + k) && t.ring == rx.ring[k..]
  {
    var k := Min(4, |rx.ring|);
    assert frame[..h] + frame[h..h + k] == frame[..h + k];
  }

  lemma HeaderJudged(t: Rx, noise: seq<uint8>, frame: seq<uint8>, h: nat)
    requires WellFramed(t.pdMode, frame) && Holds(t, noise, frame, h)
    ensures JudgeHeader(t) == if |t.buf| < 5 then (t, Wait) else (t, Length(|frame| + MarkLen(t)))
  {
  }

  /** The rest of the packet, as far as the ring has it. */
  lemma RestCollected(rx: Rx, noise: seq<uint8>, frame: seq<uint8>, h: nat, k: nat)
    requires Holds(rx, noise, frame, h) && rx.packetLen == |frame| + MarkLen(rx)
    requires k == Min(|frame| - h, |rx.ring|) && rx.ring[..k] == frame[h..h + k]
    ensures var (s, polled) := Collect(rx);
      && Holds(s, noise, frame, h + k) && s.ring == rx.ring[k..] && s.packetLen == rx.packetLen
      && s.hasMark == rx.hasMark && s.pdMode == rx.pdMode
      && polled == if h + k == |frame| then Complete else PollWait
  {
    hide Gather;
    Front(frame, h, k);
    assert rx.packetLen - |rx.buf| == |frame| - h;
    if h == |frame| {
      assert rx.ring[0..] == rx.ring;
    } else {
      GatherKeeps(rx, |frame| - h);
      GatherMoves(rx, |frame| - h, k, Mark(rx) + frame[..h], frame[h..h + k]);
      assert Mark(rx) + frame[..h] + frame[h..h + k] == Mark(rx) + (frame[..h] + frame[h..h + k]);
    }
  }

  lemma GatherMoves(rx: Rx, n: nat, k: nat, before: seq<uint8>, more: seq<uint8>)
    requires k == Min(n, |rx.ring|) && rx.buf == before && rx.ring[..k] == more
    ensures Gather(rx, n).buf == before + more && Gather(rx, n).ring == rx.ring[k..]
  {
  }

  lemma Front(s: seq<uint8>, h: nat, k: nat)
    requires h + k <= |s|
    ensures s[..h] + s[h..h + k] == s[..h + k]
  {
  }

  function Stream(noise: seq<uint8>, frame: seq<uint8>, rest: seq<uint8>): (s: seq<uint8>)
    ensures |s| == |noise| + |frame| + |rest|
  {
    noise + frame + rest
  }

  /** The stream seen from the start of the packet. */
  lemma FrameSlice(noise: seq<uint8>, frame: seq<uint8>, rest: seq<uint8>, i: nat, j: nat)
    requires i <= j <= |frame|
    ensures Stream(noise, frame, rest)[|noise| + i..|noise| + j] == frame[i..j]
  {
  }

  /** What is in the ring, cut after k octets. */
  lemma RingSlice(all: seq<uint8>, a: nat, d: nat, k: nat)
    requires a <= d <= |all| && k <= d - a
    ensures all[a..d][..k] == all[a..a + k] && all[a..d][k..] == all[a + k..d]
  {
  }

  /** The outcome of a call after which d octets have been handed over. */
  ghost predicate Outcome(r: (Rx, Polled), noise: seq<uint8>, frame: seq<uint8>, rest: seq<uint8>, d: nat)
    requires d <= |noise| + |frame| + |rest|
  {
    if d < |noise| + |frame| then
      (r.1 == PollNoData || r.1 == PollWait) && Progress(r.0, noise, frame, d)
    else
      r.1 == Complete && Assembled(r.0, noise, frame, Stream(noise, frame, rest)[|noise| + |frame|..d])
  }

  /** The ring holds the stream from place i to place d. */
  ghost predicate Waiting(ring: seq<uint8>, noise: seq<uint8>, frame: seq<uint8>, rest: seq<uint8>, i: nat, d: nat) {
    i <= d <= |noise| + |frame| + |rest| && ring == Stream(noise, frame, rest)[i..d]
  }

  lemma WaitingCut(ring: seq<uint8>, noise: seq<uint8>, frame: seq<uint8>, rest: seq<uint8>, h: nat, d: nat, k: nat)
    requires Waiting(ring, noise, frame, rest, |noise| + h, d) && k <= |ring| && h + k <= |frame|
    ensures |ring| == d - |noise| - h && ring[..k] == frame[h..h + k]
    ensures Waiting(ring[k..], noise, frame, rest, |noise| + h + k, d)
  {
    hide Stream;
    RingSlice(Stream(noise, frame, rest), |noise| + h, d, k);
    FrameSlice(noise, frame, rest, h, h + k);
  }

  /** The packet is complete, or the ring is empty. */
  lemma Collected(s: Rx, noise: seq<uint8>, frame: seq<uint8>, rest: seq<uint8>, h: nat, d: nat)
    requires Holds(s, noise, frame, h) && 5 <= |s.buf| && s.packetLen == |frame| + MarkLen(s)
    requires Waiting(s.ring, noise, frame, rest, |noise| + h, d) && (h == |frame| || s.ring == [])
    ensures Outcome((s, if h == |frame| then Complete else PollWait), noise, frame, rest, d)
  {
    hide Stream;
  }

  lemma CollectStep(rx: Rx, noise: seq<uint8>, frame: seq<uint8>, rest: seq<uint8>, h: nat, d: nat)
    requires Holds(rx, noise, frame, h) && 5 <= |rx.buf| && rx.packetLen == |frame| + MarkLen(rx)
    requires Waiting(rx.ring, noise, frame, rest, |noise| + h, d)
    ensures Outcome(Collect(rx), noise, frame, rest, d)
  {
    hide Collect, Waiting, Outcome;
    var k := Min(|frame| - h, |rx.ring|);
    WaitingCut(rx.ring, noise, frame, rest, h, d, k);
    RestCollected(rx, noise, frame, h, k);
    Collected(Collect(rx).0, noise, frame, rest, h + k, d);
  }

  lemma HeaderStep(rx: Rx, noise: seq<uint8>, frame: seq<uint8>, rest: seq<uint8>, h: nat, d: nat)
    requires WellFramed(rx.pdMode, frame) && Holds(rx, noise, frame, h) && h <= 4 && rx.packetLen == 0
    requires Waiting(rx.ring, noise, frame, rest, |noise| + h, d)
    ensures Outcome(Judged(JudgeHeader(Gather(rx, 4))), noise, frame, rest, d)
  {
    hide Gather, JudgeHeader, Judged, Outcome, Collect, Waiting;
    var k := Min(4, |rx.ring|);
    WaitingCut(rx.ring, noise, frame, rest, h, d, k);
    HeaderGathered(rx, noise, frame, h);
    GatherKeeps(rx, 4);
    var t := Gather(rx, 4);
    HeaderJudged(t, noise, frame, h + k);
    JudgedCases(t);
    if |t.buf| >= 5 {
      CollectStep(t.(packetLen := |frame| + MarkLen(t)), noise, frame, rest, h + k, d);
    } else {
      PartialHeader(t, noise, frame, rest, h + k, d);
    }
  }

  lemma JudgedCases(t: Rx)
    ensures JudgeHeader(t) == (t, Wait) ==> Judged(JudgeHeader(t)) == (t, PollWait)
    ensures JudgeHeader(t).0 == t && JudgeHeader(t).1.Length? ==>
      Judged(JudgeHeader(t)) == Collect(t.(packetLen := JudgeHeader(t).1.n))
  {
    hide JudgeHeader, Collect;
  }

  lemma GatherKeeps(rx: Rx, n: nat)
    ensures Gather(rx, n).packetLen == rx.packetLen && Gather(rx, n).pdMode == rx.pdMode
    ensures Gather(rx, n).hasMark == rx.hasMark
  {
  }

  lemma PartialHeader(t: Rx, noise: seq<uint8>, frame: seq<uint8>, rest: seq<uint8>, h: nat, d: nat)
    requires Holds(t, noise, frame, h) && |t.buf| < 5 && t.packetLen == 0 && h < |frame|
    requires d == |noise| + h && t.ring == []
    ensures Outcome((t, PollWait), noise, frame, rest, d)
  {
  }

  // ----- One call, from every state before the packet is complete -----

  ghost predicate Chunk(chunk: seq<uint8>, noise: seq<uint8>, frame: seq<uint8>, rest: seq<uint8>, d: nat) {
    && d + |chunk| <= |noise| + |frame| + |rest|
    && chunk == Stream(noise, frame, rest)[d..d + |chunk|]
  }

  lemma ChunkWaits(chunk: seq<uint8>, noise: seq<uint8>, frame: seq<uint8>, rest: seq<uint8>, d: nat)
    requires Chunk(chunk, noise, frame, rest, d)
    ensures Waiting(chunk, noise, frame, rest, d, d + |chunk|) && d + |chunk| <= |noise| + |frame| + |rest|
  {
  }

  lemma QuietSlice(noise: seq<uint8>, frame: seq<uint8>, rest: seq<uint8>, d: nat, e: nat)
    requires Quiet(noise) && d <= e <= |noise|
    ensures Stream(noise, frame, rest)[d..e] == noise[d..e] && Quiet(Stream(noise, frame, rest)[d..e])
  {
  }

  /** Still before the packet: the noise is dropped. */
  lemma NoiseStep(rx: Rx, noise: seq<uint8>, frame: seq<uint8>, rest: seq<uint8>, d: nat, chunk: seq<uint8>)
    requires Quiet(noise) && 0 < |frame| && Progress(rx, noise, frame, d) && Chunk(chunk, noise, frame, rest, d)
    requires d + |chunk| <= |noise|
    ensures Outcome(Call(rx, chunk), noise, frame, rest, d + |chunk|)
  {
    QuietSlice(noise, frame, rest, d, d + |chunk|);
    ScanQuiet(chunk, 0);
    assert rx.ring + chunk == chunk;
  }

  /** The start of message is in this chunk. */
  lemma StartStep(rx: Rx, noise: seq<uint8>, frame: seq<uint8>, rest: seq<uint8>, d: nat, chunk: seq<uint8>)
    requires Quiet(noise) && WellFramed(rx.pdMode, frame)
    requires Progress(rx, noise, frame, d) && Chunk(chunk, noise, frame, rest, d)
    requires d <= |noise| < d + |chunk|
    ensures Outcome(Call(rx, chunk), noise, frame, rest, d + |chunk|)
  {
    hide Outcome, Gather, JudgeHeader, Judged, AfterScan, Waiting, Chunk;
    var s := AfterScan(rx.(ring := chunk));
    StartFound(rx, noise, frame, rest, d, chunk);
    assert rx.ring + chunk == chunk;
    HeaderStep(s, noise, frame, rest, 1, d + |chunk|);
  }

  lemma StartFound(rx: Rx, noise: seq<uint8>, frame: seq<uint8>, rest: seq<uint8>, d: nat, chunk: seq<uint8>)
    requires Quiet(noise) && WellFramed(rx.pdMode, frame)
    requires Progress(rx, noise, frame, d) && Chunk(chunk, noise, frame, rest, d)
    requires d <= |noise| < d + |chunk|
    ensures var s := AfterScan(rx.(ring := chunk));
      && Holds(s, noise, frame, 1) && s.packetLen == 0 && s.pdMode == rx.pdMode
      && Waiting(s.ring, noise, frame, rest, |noise| + 1, d + |chunk|)
  {
    hide WellFramed, Scan, Chunk, Quiet, AfterScan, Waiting;
    var n := |noise| - d;
    StartInChunk(noise, frame, rest, d, chunk, rx.pdMode);
    ScanFinds(chunk, 0, n);
    if n > 0 {
      MarkFound(noise, frame, rest, d, chunk, n);
    }
    var mark := (if n == 0 then 0 else chunk[n - 1]) == P.MARK;
    ScanStarts(rx, chunk, mark, chunk[n + 1..]);
    assert Mark(rx.(hasMark := mark)) + frame[..1] == if mark then [P.MARK, P.SOM] else [P.SOM];
  }

  lemma ScanStarts(rx: Rx, ring: seq<uint8>, mark: bool, rest: seq<uint8>)
    requires rx.buf == [] && Scan(ring, 0) == Start(mark, rest)
    ensures AfterScan(rx.(ring := ring)) ==
            rx.(hasMark := mark, buf := if mark then [P.MARK, P.SOM] else [P.SOM], ring := rest)
  {
  }

  lemma StartInChunk(noise: seq<uint8>, frame: seq<uint8>, rest: seq<uint8>, d: nat, chunk: seq<uint8>, pdMode: bool)
    requires Quiet(noise) && WellFramed(pdMode, frame) && Chunk(chunk, noise, frame, rest, d)
    requires d <= |noise| < d + |chunk|
    ensures var n := |noise| - d;
      && chunk[n] == P.SOM && Quiet(chunk[..n]) && frame[..1] == [P.SOM] && |frame| >= 8
      && Waiting(chunk[n + 1..], noise, frame, rest, |noise| + 1, d + |chunk|)
  {
    var all, n := Stream(noise, frame, rest), |noise| - d;
    RingSlice(all, d, d + |chunk|, n);
    QuietSlice(noise, frame, rest, d, |noise|);
    assert chunk[n] == all[|noise|] == P.SOM;
    RingSlice(all, d, d + |chunk|, n + 1);
    assert [P.SOM] == frame[..1];
  }

  lemma MarkFound(noise: seq<uint8>, frame: seq<uint8>, rest: seq<uint8>, d: nat, chunk: seq<uint8>, n: nat)
    requires Chunk(chunk, noise, frame, rest, d) && d + n == |noise| && 0 < n < |chunk|
    ensures chunk[n - 1] == noise[|noise| - 1]
  {
  }

  /** The header is under way. */
  lemma HeaderWaits(rx: Rx, noise: seq<uint8>, frame: seq<uint8>, rest: seq<uint8>, d: nat, chunk: seq<uint8>)
    requires WellFramed(rx.pdMode, frame)
    requires Progress(rx, noise, frame, d) && Chunk(chunk, noise, frame, rest, d)
    requires |noise| < d && |rx.buf| < 5
    ensures Outcome(Call(rx, chunk), noise, frame, rest, d + |chunk|)
  {
    hide Outcome, Gather, JudgeHeader, Judged, Waiting, Chunk;
    ChunkWaits(chunk, noise, frame, rest, d);
    assert rx.ring + chunk == chunk;
    HeaderStep(rx.(ring := chunk), noise, frame, rest, d - |noise|, d + |chunk|);
  }

  /** The length is known. */
  lemma RestWaits(rx: Rx, noise: seq<uint8>, frame: seq<uint8>, rest: seq<uint8>, d: nat, chunk: seq<uint8>)
    requires Progress(rx, noise, frame, d) && Chunk(chunk, noise, frame, rest, d)
    requires |noise| < d && |rx.buf| >= 5 && 0 < |frame|
    ensures Outcome(Call(rx, chunk), noise, frame, rest, d + |chunk|)
  {
    hide Outcome, Collect, Waiting, Chunk;
    ChunkWaits(chunk, noise, frame, rest, d);
    assert rx.ring + chunk == chunk;
    CollectStep(rx.(ring := chunk), noise, frame, rest, d - |noise|, d + |chunk|);
  }

  /** Whatever the state and the chunk: the packet is complete exactly when its last
      octet has been handed over, and nothing after it is lost. */
  lemma CallAdvances(rx: Rx, noise: seq<uint8>, frame: seq<uint8>, rest: seq<uint8>, d: nat, chunk: seq<uint8>)
    requires Quiet(noise) && WellFramed(rx.pdMode, frame)
    requires Progress(rx, noise, frame, d) && Chunk(chunk, noise, frame, rest, d)
    ensures Outcome(Call(rx, chunk), noise, frame, rest, d + |chunk|)
    ensures Call(rx, chunk).0.pdMode == rx.pdMode
  {
    hide Outcome, Call;
    CallKeepsMode(rx, chunk);
    if d + |chunk| <= |noise| {
      NoiseStep(rx, noise, frame, rest, d, chunk);
    } else if d <= |noise| {
      StartStep(rx, noise, frame, rest, d, chunk);
    } else if |rx.buf| < 5 {
      HeaderWaits(rx, noise, frame, rest, d, chunk);
    } else {
      RestWaits(rx, noise, frame, rest, d, chunk);
    }
  }

  lemma CallKeepsMode(rx: Rx, chunk: seq<uint8>)
    ensures Call(rx, chunk).0.pdMode == rx.pdMode
  {
    hide Scan, NextSom, GoodHeader;
  }

  // ----- Any number of calls -----

  datatype Fed = Fed(rx: Rx, calls: nat, complete: bool)

  /** One call after the other until a packet is complete or the octets run out. */
  function Feed(rx: Rx, chunks: seq<seq<uint8>>): Fed
    decreases |chunks|
  {
    if chunks == [] then Fed(rx, 0, false)
    else
      var (s, polled) := Call(rx, chunks[0]);
      if polled == Complete then Fed(s, 1, true)
      else
        var f := Feed(s, chunks[1..]);
        f.(calls := f.calls + 1)
  }

  /** The calls made have handed over the packet, and one call fewer would not have. */
  ghost predicate FirstPossible(calls: nat, chunks: seq<seq<uint8>>, d: nat, end: nat) {
    && 0 < calls <= |chunks|
    && d + |Flatten(chunks[..calls - 1])| < end <= d + |Flatten(chunks[..calls])|
  }

  lemma {:induction false} FeedAssembles(rx: Rx, noise: seq<uint8>, frame: seq<uint8>, rest: seq<uint8>, d: nat,
                                         chunks: seq<seq<uint8>>)
    requires Quiet(noise) && WellFramed(rx.pdMode, frame) && Progress(rx, noise, frame, d)
    requires d < |noise| + |frame| <= d + |Flatten(chunks)| && Chunk(Flatten(chunks), noise, frame, rest, d)
    ensures var f := Feed(rx, chunks);
      && f.complete && FirstPossible(f.calls, chunks, d, |noise| + |frame|)
      && d + |Flatten(chunks[..f.calls])| <= |Stream(noise, frame, rest)|
      && Assembled(f.rx, noise, frame, Stream(noise, frame, rest)[|noise| + |frame|..d + |Flatten(chunks[..f.calls])|])
    decreases |chunks|
  {
    hide Call, Assembled, Progress, Stream;
    var c := chunks[0];
    FirstChunk(chunks, noise, frame, rest, d);
    CallAdvances(rx, noise, frame, rest, d, c);
    var s := Call(rx, c).0;
    if Call(rx, c).1 == Complete {
      assert chunks[..1] == [c] && chunks[..0] == [];
      assert Flatten([c]) == c + Flatten([][..]);
    } else {
      FeedAssembles(s, noise, frame, rest, d + |c|, chunks[1..]);
      var n := Feed(s, chunks[1..]).calls;
      FlattenFront(chunks, n);
      FlattenFront(chunks, n + 1);
    }
  }

  lemma FirstChunk(chunks: seq<seq<uint8>>, noise: seq<uint8>, frame: seq<uint8>, rest: seq<uint8>, d: nat)
    requires chunks != [] && Chunk(Flatten(chunks), noise, frame, rest, d)
    ensures Chunk(chunks[0], noise, frame, rest, d)
    ensures Chunk(Flatten(chunks[1..]), noise, frame, rest, d + |chunks[0]|)
  {
    var all, c, later := Stream(noise, frame, rest), chunks[0], Flatten(chunks[1..]);
    RingSlice(all, d, d + |c + later|, |c|);
    assert (c + later)[..|c|] == c && (c + later)[|c|..] == later;
  }

  lemma FlattenFront(chunks: seq<seq<uint8>>, n: nat)
    requires 0 < n <= |chunks|
    ensures Flatten(chunks[..n]) == chunks[0] + Flatten(chunks[1..][..n - 1])
  {
    assert chunks[..n][1..] == chunks[1..][..n - 1];
  }

  /** For every noise, packet and continuation, and every way to cut the stream into
      calls: the first call that could have it assembles exactly the packet, with or
      without its mark, and every later octet waits in the ring. */
  lemma FragmentationIsIrrelevant(pdMode: bool, hasMark: bool, noise: seq<uint8>, frame: seq<uint8>, rest: seq<uint8>,
                                  chunks: seq<seq<uint8>>)
    requires Quiet(noise) && WellFramed(pdMode, frame) && Flatten(chunks) == noise + frame + rest
    ensures var f := Feed(Rx(pdMode, hasMark, [], 0, []), chunks);
      && f.complete && FirstPossible(f.calls, chunks, 0, |noise| + |frame|)
      && Assembled(f.rx, noise, frame, Flatten(chunks[..f.calls])[|noise| + |frame|..])
  {
    hide Feed, Assembled;
    var rx := Rx(pdMode, hasMark, [], 0, []);
    var all := noise + frame + rest;
    assert all[0..|all|] == all;
    FeedAssembles(rx, noise, frame, rest, 0, chunks);
    var f := Feed(rx, chunks);
    FlattenPrefix(chunks, f.calls);
    assert Flatten(chunks[..f.calls]) == all[..|Flatten(chunks[..f.calls])|];
  }

  lemma {:induction false} FlattenPrefix(chunks: seq<seq<uint8>>, n: nat)
    requires n <= |chunks|
    ensures Flatten(chunks[..n]) <= Flatten(chunks)
    decreases n
  {
    if n > 0 {
      FlattenFront(chunks, n);
      FlattenPrefix(chunks[1..], n - 1);
    }
  }

  // ----- The ring of the original -----

  /** One slot of the ring always stays free. */
  const RING_ROOM: nat := Config.RX_RB_SIZE - 1

  /** The same calls with a ring that takes only what it has room for. */
  function RingFeed(rx: Rx, chunks: seq<seq<uint8>>): Fed
    decreases |chunks|
  {
    if chunks == [] then Fed(rx, 0, false)
    else
      var room := if |rx.ring| < RING_ROOM then RING_ROOM - |rx.ring| else 0;
      var (s, polled) := Call(rx, Fitting(chunks[0], room));
      if polled == Complete then Fed(s, 1, true)
      else
        var f := RingFeed(s, chunks[1..]);
        f.(calls := f.calls + 1)
  }

  /** Until the packet is complete every call empties the ring, so that it never
      overflows while no call brings more than 511 octets. */
  lemma {:induction false} RingFollows(rx: Rx, noise: seq<uint8>, frame: seq<uint8>, rest: seq<uint8>, d: nat,
                                       chunks: seq<seq<uint8>>)
    requires Quiet(noise) && WellFramed(rx.pdMode, frame) && Progress(rx, noise, frame, d)
    requires d < |noise| + |frame| <= d + |Flatten(chunks)| && Chunk(Flatten(chunks), noise, frame, rest, d)
    requires forall i :: 0 <= i < |chunks| ==> |chunks[i]| <= RING_ROOM
    ensures RingFeed(rx, chunks) == Feed(rx, chunks)
    decreases |chunks|
  {
    hide Call, Assembled, Stream;
    var c := chunks[0];
    assert Fitting(c, RING_ROOM) == c;
    FirstChunk(chunks, noise, frame, rest, d);
    CallAdvances(rx, noise, frame, rest, d, c);
    if Call(rx, c).1 != Complete {
      RingFollows(Call(rx, c).0, noise, frame, rest, d + |c|, chunks[1..]);
    }
  }

  lemma RingSuffices(pdMode: bool, hasMark: bool, noise: seq<uint8>, frame: seq<uint8>, rest: seq<uint8>,
                     chunks: seq<seq<uint8>>)
    requires Quiet(noise) && WellFramed(pdMode, frame) && Flatten(chunks) == noise + frame + rest
    requires forall i :: 0 <= i < |chunks| ==> |chunks[i]| <= RING_ROOM
    ensures var f := RingFeed(Rx(pdMode, hasMark, [], 0, []), chunks);
      && f.complete && FirstPossible(f.calls, chunks, 0, |noise| + |frame|)
      && Assembled(f.rx, noise, frame, Flatten(chunks[..f.calls])[|noise| + |frame|..])
  {
    hide Feed, RingFeed, Assembled;
    var all := noise + frame + rest;
    assert all[0..|all|] == all;
    RingFollows(Rx(pdMode, hasMark, [], 0, []), noise, frame, rest, 0, chunks);
    FragmentationIsIrrelevant(pdMode, hasMark, noise, frame, rest, chunks);
  }

  // ----- Why eight octets -----

  /** A buffer that has run past its packet stays there, whatever arrives. */
  lemma {:induction false} OverrunStalls(rx: Rx, chunks: seq<seq<uint8>>)
    requires 0 < rx.packetLen < |rx.buf|
    ensures !Feed(rx, chunks).complete
    decreases |chunks|
  {
    if chunks != [] {
      var s := rx.(ring := rx.ring + chunks[0]);
      assert Call(rx, chunks[0]) == (s, PollWait);
      OverrunStalls(s, chunks[1..]);
    }
  }

  /** A packet of six or seven octets, which needs a checksum instead of a CRC: when
      four octets come first and more than eight in all with the next call, the
      header takes octets of what follows and the packet is never complete. */
  lemma ShortPacketStalls(pdMode: bool, frame: seq<uint8>, rest: seq<uint8>, later: seq<seq<uint8>>)
    requires 6 <= |frame| <= 7 && frame[0] == P.SOM && ForUs(pdMode, frame[1])
    requires Le16(frame[2], frame[3]) == |frame| && |frame| + |rest| >= 8
    ensures !Feed(Rx(pdMode, false, [], 0, []), [frame[..4], frame[4..] + rest] + later).complete
  {
    hide Call;
    var rx := Rx(pdMode, false, [], 0, []);
    var s := Rx(pdMode, false, frame[..4], 0, []);
    var second := frame[4..] + rest;
    var chunks := [frame[..4], second] + later;
    FirstFour(rx, frame[..4]);
    assert chunks[0] == frame[..4] && chunks[1..][0] == second && chunks[1..][1..] == later;
    NextFour(s, frame, second);
    OverrunStalls(Rx(pdMode, false, frame[..4] + second[..4], |frame|, second[4..]), later);
  }

  lemma NextFour(s: Rx, frame: seq<uint8>, second: seq<uint8>)
    requires 6 <= |frame| <= 7 && frame[0] == P.SOM && ForUs(s.pdMode, frame[1])
    requires Le16(frame[2], frame[3]) == |frame| && |second| >= 4
    requires s == Rx(s.pdMode, false, frame[..4], 0, [])
    ensures Call(s, second) == (Rx(s.pdMode, false, frame[..4] + second[..4], |frame|, second[4..]), PollWait)
  {
    var t := Rx(s.pdMode, false, frame[..4] + second[..4], 0, second[4..]);
    assert s.(ring := s.ring + second) == Rx(s.pdMode, false, frame[..4], 0, second);
    assert Gather(Rx(s.pdMode, false, frame[..4], 0, second), 4) == t;
    assert JudgeHeader(t) == (t, Length(|frame|));
  }

  lemma FirstFour(rx: Rx, four: seq<uint8>)
    requires rx.buf == [] && rx.packetLen == 0 && rx.ring == [] && |four| == 4 && four[0] == P.SOM
    ensures Call(rx, four) == (Rx(rx.pdMode, false, four, 0, []), PollWait)
  {
    assert rx.ring + four == four;
    assert [P.SOM] + four[1..] == four;
    var s := rx.(hasMark := false, buf := [P.SOM], ring := four[1..]);
    assert AfterScan(rx.(ring := four)) == s;
    assert Gather(s, 4) == Rx(rx.pdMode, false, four, 0, []);
  }

  /** The stream is irrelevant to what is assembled: for every noise, continuation and cut. */
  ghost predicate AnyCutAssembles(pdMode: bool, frame: seq<uint8>) {
    forall hasMark: bool, noise: seq<uint8>, rest: seq<uint8>, chunks: seq<seq<uint8>> ::
      Quiet(noise) && Flatten(chunks) == noise + frame + rest ==> Assembles(pdMode, hasMark, noise, frame, chunks)
  }

  ghost predicate Assembles(pdMode: bool, hasMark: bool, noise: seq<uint8>, frame: seq<uint8>,
                            chunks: seq<seq<uint8>>) {
    var f := Feed(Rx(pdMode, hasMark, [], 0, []), chunks);
    && f.complete && FirstPossible(f.calls, chunks, 0, |noise| + |frame|)
    && |noise| + |frame| <= |Flatten(chunks[..f.calls])|
    && Assembled(f.rx, noise, frame, Flatten(chunks[..f.calls])[|noise| + |frame|..])
  }

  /** Eight octets are not only enough but needed. */
  lemma EightOctetsExactly(pdMode: bool, frame: seq<uint8>)
    requires 6 <= |frame| < Config.PACKET_BUF_SIZE
    requires frame[0] == P.SOM && ForUs(pdMode, frame[1]) && Le16(frame[2], frame[3]) == |frame|
    ensures AnyCutAssembles(pdMode, frame) <==> |frame| >= 8
  {
    hide Feed, Assembled;
    if |frame| >= 8 {
      forall hasMark: bool, noise: seq<uint8>, rest: seq<uint8>, chunks: seq<seq<uint8>> |
          Quiet(noise) && Flatten(chunks) == noise + frame + rest
        ensures Assembles(pdMode, hasMark, noise, frame, chunks)
      {
        FragmentationIsIrrelevant(pdMode, hasMark, noise, frame, rest, chunks);
      }
    } else {
      var rest := [0, 0];
      var chunks := [frame[..4], frame[4..] + rest];
      ShortPacketStalls(pdMode, frame, rest, []);
      assert chunks + [] == chunks;
      TwoParts(frame, rest);
      assert !Assembles(pdMode, false, [], frame, chunks);
    }
  }

  lemma TwoParts(frame: seq<uint8>, rest: seq<uint8>)
    requires |frame| >= 4
    ensures Flatten([frame[..4], frame[4..] + rest]) == [] + frame + rest
  {
    var chunks := [frame[..4], frame[4..] + rest];
    var more: seq<seq<uint8>> := [];
    assert chunks[1..] == [chunks[1]] && chunks[1..][1..] == more;
    assert Flatten(chunks[1..]) == chunks[1] + Flatten(chunks[1..][1..]);
    assert frame == frame[..4] + frame[4..];
  }

  // ----- The room in the packet buffer -----

  const MARKED_FULL: nat := Config.PACKET_BUF_SIZE + 1

  ghost predicate Bounded(rx: Rx) {
    |rx.buf| <= Config.PACKET_BUF_SIZE && rx.packetLen <= MARKED_FULL
  }

  /** The two ways past the end: a header that is looked for in a buffer left full by
      rejected ones, and a packet as long as the buffer that comes behind a mark. */
  ghost predicate Overruns(rx: Rx) {
    if rx.packetLen != 0 then rx.packetLen == MARKED_FULL <= |rx.buf| + |rx.ring|
    else
      || (rx.buf != [] && |rx.buf| + Min(4, |rx.ring|) > Config.PACKET_BUF_SIZE)
      || (var (s, h) := CheckHeader(rx); h == Length(MARKED_FULL) && MARKED_FULL <= |s.buf| + |s.ring|)
  }

  /** A call leaves the packet buffer exactly then, and otherwise the next one starts
      within the same bounds. */
  lemma ExtentLimit(rx: Rx)
    requires Bounded(rx)
    ensures Extent(rx) > Config.PACKET_BUF_SIZE <==> Overruns(rx)
    ensures !Overruns(rx) ==> Bounded(Poll(rx).0)
  {
    hide Scan, NextSom;
    ExtentParts(rx);
    if rx.packetLen == 0 {
      HeaderLimit(rx);
    }
  }

  /** Only a mark before a length field of 256 makes the length 257. */
  lemma HeaderLimit(rx: Rx)
    ensures var (s, h) := CheckHeader(rx);
      && |s.buf| <= (if rx.buf == [] then 6 else |rx.buf| + Min(4, |rx.ring|))
      && (h.Length? ==> 6 <= h.n <= MARKED_FULL)
      && (h == Length(MARKED_FULL) <==>
            h.Length? && s.hasMark && Le16(s.buf[3], s.buf[4]) == Config.PACKET_BUF_SIZE)
  {
    hide Scan, Rescan, NextSom;
    var t := Gather(AfterScan(rx), 4);
    if |t.buf| > MarkLen(t) {
      RescanShrinks(t);
    }
  }

  lemma RescanShrinks(rx: Rx)
    requires |rx.buf| > MarkLen(rx)
    ensures |Rescan(rx).buf| <= |rx.buf|
  {
  }

  /** n octets that all look like the start of a packet. */
  function Starts(n: nat): (r: seq<uint8>)
    ensures |r| == n
  {
    seq(n, _ => P.SOM)
  }

  /** k calls with four of them each. */
  function Fours(k: nat): seq<seq<uint8>> {
    if k == 0 then [] else [Starts(4)] + Fours(k - 1)
  }

  /** Each call that rejects a header may leave three octets more than the one before:
      after k such calls the buffer holds 3 * k more. */
  lemma {:induction false} RejectedHeadersPile(pdMode: bool, n: nat, k: nat)
    requires n >= 4
    ensures Feed(Rx(pdMode, false, Starts(n), 0, []), Fours(k)).rx == Rx(pdMode, false, Starts(n + 3 * k), 0, [])
    decreases k
  {
    hide Call, Starts;
    if k > 0 {
      assert Fours(k)[0] == Starts(4) && Fours(k)[1..] == Fours(k - 1);
      OneRejected(pdMode, n);
      RejectedHeadersPile(pdMode, n + 3, k - 1);
      assert n + 3 + 3 * (k - 1) == n + 3 * k;
    }
  }

  lemma OneRejected(pdMode: bool, n: nat)
    requires n >= 4
    ensures Call(Rx(pdMode, false, Starts(n), 0, []), Starts(4)) ==
            (Rx(pdMode, false, Starts(n + 3), 0, []), PollWait)
  {
    var rx := Rx(pdMode, false, Starts(n), 0, Starts(4));
    assert [] + Starts(4) == Starts(4);
    var t := Rx(pdMode, false, Starts(n + 4), 0, []);
    assert Gather(rx, 4) == t;
    assert Rescan(t) == t.(buf := Starts(n + 3));
  }
}
