/** Finding packets in the byte stream: the ring buffer of osdp_common.c and
    osdp_phy_check_packet of osdp_phy.c up to the first look at a whole packet. */
module Receiver {
  import opened Bytes
  import Config
  import P = Phy

  // ----- The ring buffer -----

  function Min(a: nat, b: nat): nat { if a < b then a else b }

  /** The octets for which the ring has room. */
  function Fitting(input: seq<uint8>, room: nat): seq<uint8> { input[..Min(|input|, room)] }

  lemma MinIs(a: nat, b: nat)
    ensures Min(a, b) == if a < b then a else b
  {
  }

  lemma PushedPart(all: seq<uint8>, input: seq<uint8>, read: nat, recv: nat, pushed: nat)
    requires read + recv <= |input| && pushed <= recv
    ensures all + input[..read] + input[read..read + recv][..pushed] == all + input[..read + pushed]
  {
    assert input[read..read + recv][..pushed] == input[read..read + pushed];
    assert input[..read] + input[read..read + pushed] == input[..read + pushed];
  }

  lemma LastChunk(read: nat, room: nat, n: nat, recv: nat)
    requires read <= n && read % 64 == 0 && read <= room < read + recv && recv == Min(64, n - read)
    ensures room < n && read + recv == Min(n, (room / 64 + 1) * 64)
  {
    assert room / 64 == read / 64;
  }

  /** struct osdp_rb: one slot always stays free. */
  class RingBuffer {
    const buffer: array<uint8>
    var head: nat
    var tail: nat

    ghost predicate Valid()
      reads this
    {
      head < buffer.Length && tail < buffer.Length
    }

    /** The octets pushed and not yet popped, oldest first. */
    ghost function Contents(): seq<uint8>
      requires Valid()
      reads this, buffer
    {
      if tail <= head then buffer[tail..head] else buffer[tail..] + buffer[..head]
    }

    ghost function Room(): nat
      requires Valid()
      reads this, buffer
    {
      buffer.Length - 1 - |Contents()|
    }

    constructor (size: nat)
      requires size > 0
      ensures Valid() && fresh(buffer) && buffer.Length == size && Contents() == []
    {
      buffer := new uint8[size](i => 0);
      head, tail := 0, 0;
    }

    /** osdp_rb_push */
    method Push(data: uint8) returns (ok: bool)
      requires Valid()
      modifies this`head, buffer
      ensures Valid() && ok == (old(Room()) > 0)
      ensures Contents() == if ok then old(Contents()) + [data] else old(Contents())
    {
      var next := head + 1;
      if next >= buffer.Length {
        next := 0;
      }
      if next == tail {
        return false;
      }
      buffer[head] := data;
      head := next;
      return true;
    }

    /** osdp_rb_push_buf */
    method PushBuf(buf: seq<uint8>) returns (i: nat)
      requires Valid()
      modifies this`head, buffer
      ensures Valid() && i == Min(|buf|, old(Room()))
      ensures Contents() == old(Contents()) + buf[..i]
    {
      hide Contents;
      i := 0;
      assert buf[..0] == [];
      while i < |buf|
        invariant Valid() && i <= Min(|buf|, old(Room()))
        invariant Contents() == old(Contents()) + buf[..i]
      {
        var ok := Push(buf[i]);
        if !ok {
          return;
        }
        assert buf[..i] + [buf[i]] == buf[..i + 1];
        i := i + 1;
      }
    }

    /** The loop of osdp_channel_receive: the channel hands out at most 64 octets at a time.
        What does not fit is lost together with the rest of its 64; nothing is read after that. */
    method PushAll(input: seq<uint8>) returns (read: nat)
      requires Valid()
      modifies this`head, buffer
      ensures Valid() && Contents() == old(Contents()) + Fitting(input, old(Room()))
      ensures read == if |input| <= old(Room()) then |input| else Min(|input|, (old(Room()) / 64 + 1) * 64)
    {
      hide Contents, Min;
      ghost var all, room := Contents(), Room();
      MinIs(|input|, room);
      read := 0;
      var more := true;
      assert input[..0] == [];
      while more
        invariant Valid() && read <= |input| && read <= room && Contents() == all + input[..read]
        invariant if more then read % 64 == 0 else read == |input|
        decreases more, |input| - read
      {
        var recv := Min(64, |input| - read);
        MinIs(64, |input| - read);
        MinIs(recv, room - read);
        var pushed := PushBuf(input[read..read + recv]);
        PushedPart(all, input, read, recv, pushed);
        if pushed != recv {
          LastChunk(read, room, |input|, recv);
          return read + recv;
        }
        read := read + recv;
        more := recv == 64;
      }
      assert input[..read] == input;
    }

    /** osdp_rb_pop */
    method Pop() returns (ok: bool, data: uint8)
      requires Valid()
      modifies this`tail
      ensures Valid() && ok == (old(Contents()) != [])
      ensures ok ==> data == old(Contents())[0] && Contents() == old(Contents())[1..]
      ensures !ok ==> Contents() == []
    {
      if head == tail {
        return false, 0;
      }
      var next := tail + 1;
      if next >= buffer.Length {
        next := 0;
      }
      data := buffer[tail];
      tail := next;
      return true, data;
    }

    /** osdp_rb_pop_buf */
    method PopBuf(buf: array<uint8>, off: nat, maxLen: int) returns (i: nat)
      requires Valid() && buf != buffer
      requires maxLen > 0 ==> off + Min(maxLen, |Contents()|) <= buf.Length
      modifies this`tail, buf
      ensures Valid() && i == if maxLen <= 0 then 0 else Min(maxLen, |old(Contents())|)
      ensures Contents() == old(Contents())[i..]
      ensures off <= buf.Length ==> buf[..off] == old(buf[..off])
      ensures off + i <= buf.Length ==> buf[off..off + i] == old(Contents())[..i]
    {
      hide Contents;
      i := 0;
      while i < maxLen
        invariant Valid() && i <= |old(Contents())| && (maxLen <= 0 ==> i == 0) && (maxLen > 0 ==> i <= maxLen)
        invariant Contents() == old(Contents())[i..]
        invariant off <= buf.Length ==> buf[..off] == old(buf[..off])
        invariant off + i <= buf.Length ==> buf[off..off + i] == old(Contents())[..i]
      {
        var ok, data := Pop();
        if !ok {
          return;
        }
        buf[off + i] := data;
        assert old(Contents())[..i + 1] == old(Contents())[..i] + [data];
        i := i + 1;
      }
    }
  }

  // ----- What one call finds -----

  /** The receive state: what the packet buffer holds so far, the length of the
      packet being collected (0 while there is none), and the ring. */
  datatype Rx = Rx(pdMode: bool, hasMark: bool, buf: seq<uint8>, packetLen: nat, ring: seq<uint8>)

  datatype Start = Nothing | Start(mark: bool, rest: seq<uint8>)

  /** The first start-of-message octet, and whether a mark came right before it in
      the same call. */
  function Scan(ring: seq<uint8>, prev: uint8): Start {
    if ring == [] then Nothing
    else if ring[0] == P.SOM then Start(prev == P.MARK, ring[1..])
    else Scan(ring[1..], ring[0])
  }

  /** Scanning is over as soon as the buffer holds a start of message. */
  function AfterScan(rx: Rx): Rx {
    if rx.buf != [] then rx
    else
      match Scan(rx.ring, 0)
      case Nothing => rx.(ring := [])
      case Start(mark, rest) => rx.(hasMark := mark, buf := if mark then [P.MARK, P.SOM] else [P.SOM], ring := rest)
  }

  function MarkLen(rx: Rx): nat { if rx.hasMark then 1 else 0 }

  function NextSom(buf: seq<uint8>, i: nat): (r: nat)
    requires i <= |buf|
    ensures i <= r <= |buf|
    decreases |buf| - i
  {
    if i == |buf| || buf[i] == P.SOM then i else NextSom(buf, i + 1)
  }

  /** phy_rescan_packet_buf: start again at the next start of message in the buffer. */
  function Rescan(rx: Rx): Rx
    requires |rx.buf| > MarkLen(rx)
  {
    var i := NextSom(rx.buf, MarkLen(rx) + 1);
    if i == |rx.buf| then rx.(buf := [])
    else if rx.buf[i - 1] == P.MARK then rx.(hasMark := true, buf := [P.MARK] + rx.buf[i..])
    else rx.(hasMark := false, buf := rx.buf[i..])
  }

  datatype Header = NoData | Wait | BadFormat | Length(n: nat)

  predicate ForUs(pdMode: bool, address: uint8) { pdMode == (address < 128) }

  /** The length of a header that osdp_phy.c accepts. */
  predicate GoodHeader(pdMode: bool, address: uint8, len: nat) {
    6 <= len <= Config.PACKET_BUF_SIZE && ForUs(pdMode, address)
  }

  /** Up to four more octets move from the ring into the buffer. */
  function Gather(rx: Rx, n: nat): Rx {
    var k := Min(n, |rx.ring|);
    rx.(buf := rx.buf + rx.ring[..k], ring := rx.ring[k..])
  }

  /** phy_check_header */
  function CheckHeader(rx: Rx): (Rx, Header) {
    var s := AfterScan(rx);
    if s.buf == [] then (s, NoData)
    else JudgeHeader(Gather(s, 4))
  }

  function JudgeHeader(t: Rx): (Rx, Header) {
    var m := MarkLen(t);
    if |t.buf| < 5 then (t, Wait)
    else if t.buf[m] != P.SOM then (t, BadFormat)
    else
      var len := Le16(t.buf[m + 2], t.buf[m + 3]);
      if GoodHeader(t.pdMode, t.buf[m + 1], len) then (t, Length(len + m)) else (Rescan(t), Wait)
  }

  datatype Polled = PollNoData | PollWait | PollBadFormat | Complete

  /** osdp_phy_check_packet up to the point where the whole packet is in the buffer. */
  function Poll(rx: Rx): (Rx, Polled) {
    if rx.packetLen != 0 then Collect(rx) else Judged(CheckHeader(rx))
  }

  /** With a length the rest of the packet is collected in the same call. */
  function Judged(r: (Rx, Header)): (Rx, Polled) {
    match r.1
    case NoData => (r.0, PollNoData)
    case Wait => (r.0, PollWait)
    case BadFormat => (r.0, PollBadFormat)
    case Length(n) => Collect(r.0.(packetLen := n))
  }

  function Collect(rx: Rx): (Rx, Polled) {
    var s := if rx.packetLen > |rx.buf| then Gather(rx, rx.packetLen - |rx.buf|) else rx;
    (s, if |s.buf| == rx.packetLen then Complete else PollWait)
  }

  /** How many octets of the packet buffer a call fills. */
  function Extent(rx: Rx): nat {
    if rx.packetLen != 0 then |Collect(rx).0.buf|
    else if AfterScan(rx).buf == [] then 0
    else
      match CheckHeader(rx)
      case (s, Length(n)) => |Collect(s.(packetLen := n)).0.buf|
      case _ => |Gather(AfterScan(rx), 4).buf|
  }

  lemma ExtentParts(rx: Rx)
    ensures rx.packetLen != 0 ==> |Collect(rx).0.buf| == Extent(rx)
    ensures rx.packetLen == 0 && AfterScan(rx).buf != [] ==> |Gather(AfterScan(rx), 4).buf| <= Extent(rx)
    ensures rx.packetLen == 0 ==>
      match CheckHeader(rx)
      case (s, Length(n)) => |Collect(s.(packetLen := n)).0.buf| == Extent(rx)
      case _ => true
  {
    hide Scan, Rescan;
  }

  /** One call: the new octets go into the ring first. */
  function Call(rx: Rx, chunk: seq<uint8>): (Rx, Polled) {
    Poll(rx.(ring := rx.ring + chunk))
  }

  // ----- What is found, on the octets -----

  /** A packet starts at the first 0x53; the mark counts exactly when 0xFF is right before it. */
  lemma {:induction false} StartExactly(ring: seq<uint8>, prev: uint8, i: nat)
    requires i < |ring| && ring[i] == 0x53 && forall k :: 0 <= k < i ==> ring[k] != 0x53
    ensures Scan(ring, prev) == Start((if i == 0 then prev else ring[i - 1]) == 0xFF, ring[i + 1..])
    decreases i
  {
    if i > 0 {
      assert ring[1..][i - 1] == ring[i] && ring[1..][i..] == ring[i + 1..];
      forall k | 0 <= k < i - 1 ensures ring[1..][k] != 0x53 {
        assert ring[1..][k] == ring[k + 1];
      }
      StartExactly(ring[1..], ring[0], i - 1);
    }
  }

  /** A header is taken exactly when it starts with 0x53, its length is between 6 and 256, and
      the high bit of the address says that it goes in this direction. */
  lemma HeaderExactly(t: Rx)
    ensures var m := if t.hasMark then 1 else 0;
      if |t.buf| < 5 then JudgeHeader(t) == (t, Wait)
      else if t.buf[m] != 0x53 then JudgeHeader(t) == (t, BadFormat)
      else
        var len := t.buf[m + 2] as int + 256 * (t.buf[m + 3] as int);
        var taken := 6 <= len <= 256 && (t.buf[m + 1] < 128 <==> t.pdMode);
        JudgeHeader(t) == if taken then (t, Length(len + m)) else (Rescan(t), Wait)
  {
    hide Rescan;
  }

  lemma HeaderTaken(pdMode: bool, address: uint8, len: nat)
    ensures GoodHeader(pdMode, address, len) <==> 6 <= len <= 256 && (address < 128 <==> pdMode)
  {
  }

  lemma {:induction false} NextSomLeast(buf: seq<uint8>, i: nat)
    requires i <= |buf|
    ensures var r := NextSom(buf, i);
      (forall k :: i <= k < r ==> buf[k] != 0x53) && (r < |buf| ==> buf[r] == 0x53)
    decreases |buf| - i
  {
    if i < |buf| && buf[i] != 0x53 {
      NextSomLeast(buf, i + 1);
    }
  }

  /** After a header that was not taken nothing is lost from the next 0x53 on: the buffer holds
      it and everything behind it, with its mark; without another 0x53 it is empty. */
  lemma RescanExactly(rx: Rx, i: nat)
    requires |rx.buf| > MarkLen(rx) && MarkLen(rx) < i <= |rx.buf|
    requires (forall k :: MarkLen(rx) < k < i ==> rx.buf[k] != 0x53) && (i < |rx.buf| ==> rx.buf[i] == 0x53)
    ensures Rescan(rx) ==
      if i == |rx.buf| then rx.(buf := [])
      else if rx.buf[i - 1] == 0xFF then rx.(hasMark := true, buf := [0xFF] + rx.buf[i..])
      else rx.(hasMark := false, buf := rx.buf[i..])
  {
    NextSomLeast(rx.buf, MarkLen(rx) + 1);
  }

  // ----- The same in place -----

  class Scanner {
    const ring: RingBuffer
    const packetBuf: array<uint8>
    const pdMode: bool
    var hasMark: bool
    var packetBufLen: nat
    var packetLen: nat

    ghost predicate Valid()
      reads this, ring
    {
      && ring.Valid() && ring.buffer != packetBuf
      && packetBufLen <= packetBuf.Length && packetBuf.Length >= Config.PACKET_BUF_SIZE
    }

    ghost function State(): Rx
      requires Valid()
      reads this, ring, ring.buffer, packetBuf
    {
      Rx(pdMode, hasMark, packetBuf[..packetBufLen], packetLen, ring.Contents())
    }

    constructor (pdMode: bool)
      ensures Valid() && fresh(ring) && fresh(ring.buffer) && fresh(packetBuf)
      ensures State() == Rx(pdMode, false, [], 0, [])
    {
      var rb := new RingBuffer(Config.RX_RB_SIZE);
      ring := rb;
      packetBuf := new uint8[Config.PACKET_BUF_SIZE](i => 0);
      this.pdMode := pdMode;
      hasMark, packetBufLen, packetLen := false, 0, 0;
    }

    /** phy_rescan_packet_buf */
    method RescanInPlace() returns (found: bool)
      requires Valid() && packetBufLen > MarkLen(State())
      modifies this`hasMark, this`packetBufLen, packetBuf
      ensures Valid() && State() == Rescan(old(State())) && found == (packetBufLen != 0)
    {
      hide NextSom, RingBuffer.Contents;
      ghost var b := packetBuf[..packetBufLen];
      var j := if hasMark then 1 else 0;
      var i := FindSom(j + 1);
      if i == packetBufLen {
        packetBufLen := 0;
        return false;
      }
      if packetBuf[i - 1] == P.MARK {
        packetBuf[0] := P.MARK;
        j := 1;
        hasMark := true;
      } else {
        j := 0;
        hasMark := false;
      }
      assert packetBuf[i..packetBufLen] == b[i..];
      assert packetBuf[..j] == if j == 1 then [P.MARK] else [];
      MoveDown(j, i);
      return true;
    }

    /** The first loop of phy_rescan_packet_buf. */
    method FindSom(from: nat) returns (i: nat)
      requires from <= packetBufLen <= packetBuf.Length
      ensures i == NextSom(packetBuf[..packetBufLen], from)
    {
      i := from;
      while i < packetBufLen && packetBuf[i] != P.SOM
        invariant from <= i <= packetBufLen
        invariant NextSom(packetBuf[..packetBufLen], i) == NextSom(packetBuf[..packetBufLen], from)
      {
        i := i + 1;
      }
    }

    /** The second loop of phy_rescan_packet_buf. */
    method MoveDown(to: nat, from: nat)
      requires to <= from <= packetBufLen <= packetBuf.Length
      modifies this`packetBufLen, packetBuf
      ensures packetBufLen == to + (old(packetBufLen) - from)
      ensures packetBuf[..packetBufLen] == old(packetBuf[..to]) + old(packetBuf[from..packetBufLen])
    {
      var i, j := from, to;
      while i < packetBufLen
        invariant packetBufLen == old(packetBufLen)
        invariant from <= i <= packetBufLen && to <= j && j - to == i - from
        invariant packetBuf[..j] == old(packetBuf[..to]) + old(packetBuf[from..i])
        invariant packetBuf[i..] == old(packetBuf[i..])
      {
        packetBuf[j] := packetBuf[i];
        i := i + 1;
        j := j + 1;
      }
      packetBufLen := j;
    }

    /** The loop of phy_check_header that looks for the start of a packet. */
    method ScanInPlace() returns (found: bool)
      requires Valid()
      modifies this`hasMark, this`packetBufLen, packetBuf, ring`tail
      ensures Valid() && State() == AfterScan(old(State())) && found == (packetBufLen != 0)
    {
      hide RingBuffer.Contents;
      var prev: uint8 := 0;
      while packetBufLen == 0
        invariant Valid() && (packetBufLen == 0 ==> hasMark == old(hasMark))
        invariant packetBufLen == 0 ==> old(packetBufLen) == 0
        invariant packetBufLen == 0 ==> Scan(ring.Contents(), prev) == Scan(old(ring.Contents()), 0)
        invariant packetBufLen != 0 ==> State() == AfterScan(old(State()))
        decreases packetBufLen == 0, |ring.Contents()|
      {
        var ok, cur := ring.Pop();
        if !ok {
          return false;
        }
        if cur == P.SOM {
          if prev == P.MARK {
            packetBuf[0], packetBuf[1] := P.MARK, P.SOM;
            packetBufLen := 2;
            hasMark := true;
          } else {
            packetBuf[0] := P.SOM;
            packetBufLen := 1;
            hasMark := false;
          }
          break;
        }
        prev := cur;
      }
      return true;
    }

    /** osdp_rb_pop_buf behind what the buffer already holds. */
    method GatherInPlace(n: nat)
      requires Valid() && |Gather(State(), n).buf| <= packetBuf.Length
      modifies this`packetBufLen, packetBuf, ring`tail
      ensures Valid() && State() == Gather(old(State()), n)
    {
      hide RingBuffer.Contents;
      ghost var b := packetBuf[..packetBufLen];
      var k := ring.PopBuf(packetBuf, packetBufLen, n);
      assert packetBuf[..packetBufLen + k] == packetBuf[..packetBufLen] + packetBuf[packetBufLen..packetBufLen + k];
      packetBufLen := packetBufLen + k;
    }

    /** phy_check_header */
    method CheckHeaderInPlace() returns (h: Header)
      requires Valid() && var s := AfterScan(State()); s.buf == [] || |Gather(s, 4).buf| <= packetBuf.Length
      modifies this`hasMark, this`packetBufLen, packetBuf, ring`tail
      ensures Valid() && (State(), h) == CheckHeader(old(State()))
    {
      hide Scan, Gather, Rescan;
      var found := ScanInPlace();
      if !found {
        return NoData;
      }
      GatherInPlace(4);
      h := JudgeInPlace();
    }

    method JudgeInPlace() returns (h: Header)
      requires Valid()
      modifies this`hasMark, this`packetBufLen, packetBuf
      ensures Valid() && (State(), h) == JudgeHeader(old(State()))
    {
      hide Rescan, RingBuffer.Contents, GoodHeader, JudgeHeader;
      HeaderExactly(State());
      if packetBufLen < 5 {
        return Wait;
      }
      var m := if hasMark then 1 else 0;
      if packetBuf[m] != P.SOM {
        return BadFormat;
      }
      var len := Le16(packetBuf[m + 2], packetBuf[m + 3]);
      HeaderTaken(pdMode, packetBuf[m + 1], len);
      if !GoodHeader(pdMode, packetBuf[m + 1], len) {
        var _ := RescanInPlace();
        return Wait;
      }
      return Length(len + m);
    }

    /** osdp_channel_receive */
    method ChannelReceive(input: seq<uint8>) returns (read: nat)
      requires Valid()
      modifies ring`head, ring.buffer
      ensures Valid() && State() == old(State()).(ring := old(State()).ring + Fitting(input, old(ring.Room())))
      ensures read == if |input| <= old(ring.Room()) then |input| else Min(|input|, (old(ring.Room()) / 64 + 1) * 64)
    {
      hide RingBuffer.Contents;
      read := ring.PushAll(input);
    }

    /** osdp_phy_check_packet up to the first look at a whole packet; the call stays inside
        the packet buffer. */
    method CheckPacket(input: seq<uint8>) returns (polled: Polled)
      requires Valid()
      requires Extent(State().(ring := State().ring + Fitting(input, ring.Room()))) <= packetBuf.Length
      modifies this`hasMark, this`packetBufLen, this`packetLen, packetBuf, ring`tail, ring`head, ring.buffer
      ensures Valid() && (State(), polled) == Call(old(State()), Fitting(input, old(ring.Room())))
    {
      hide CheckHeader, Extent, Collect, AfterScan, Gather;
      ExtentParts(State().(ring := State().ring + Fitting(input, ring.Room())));
      var _ := ChannelReceive(input);
      if packetLen == 0 {
        var h := CheckHeaderInPlace();
        match h
        case NoData => return PollNoData;
        case Wait => return PollWait;
        case BadFormat => return PollBadFormat;
        case Length(n) => packetLen := n;
      }
      polled := CollectInPlace();
    }

    method CollectInPlace() returns (polled: Polled)
      requires Valid() && |Collect(State()).0.buf| <= packetBuf.Length
      modifies this`packetBufLen, packetBuf, ring`tail
      ensures Valid() && (State(), polled) == Collect(old(State()))
    {
      hide RingBuffer.Contents, Gather;
      if packetLen > packetBufLen {
        GatherInPlace(packetLen - packetBufLen);
      }
      polled := if packetBufLen == packetLen then Complete else PollWait;
    }
  }
}
