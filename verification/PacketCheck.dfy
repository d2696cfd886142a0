/** What phy_check_packet refuses, octet by octet: damaged packets, packets for others,
    packets out of order. */
module PacketCheck {
  import opened Bytes
  import opened BlockCipher
  import Crc16
  import L = LinearMaps
  import opened Phy
  import opened Packet

  // ----- Damage -----

  /** The message, followed by sixteen zero bits, divided by x^16 + x^12 + x^5 + 1 with the
      register preset to ones. */
  function Remainder(msg: seq<uint8>): bv16 {
    L.Divide(Crc16.Double, Crc16.Plus, 0xFFFF, L.AllBits(Crc16.OctetBits, Crc16.Widened(msg)) + Crc16.SIXTEEN_ZEROS)
  }

  /** The last two octets are the remainder for everything before them, low octet first. */
  ghost predicate EndsInRemainder(u: seq<uint8>) {
    && |u| >= 2
    && var r := Remainder(u[..|u| - 2]);
       u[|u| - 2] == FromBits((r & 0xFF) as bv8) && u[|u| - 1] == FromBits((r >> 8) as bv8)
  }

  function Total(s: seq<uint8>): nat {
    if s == [] then 0 else s[0] + Total(s[1..])
  }

  /** With the CRC flag the CRC is right; without it all octets add up to zero. */
  ghost predicate Intact(u: seq<uint8>)
    requires |u| >= 6
  {
    if u[4] / 4 % 2 == 1 then EndsInRemainder(u) else Total(u) % 256 == 0
  }

  lemma OctetsOfCheck(msg: seq<uint8>, low: uint8, high: uint8)
    ensures Le16(low, high) == Crc16.Compute(msg) <==>
      low == FromBits((Remainder(msg) & 0xFF) as bv8) && high == FromBits((Remainder(msg) >> 8) as bv8)
  {
    hide L.Divide, L.AllBits;
    Crc16.ComputeIsLongDivision(msg);
    var r := Remainder(msg);
    if Le16(low, high) == Crc16.Compute(msg) {
      Crc16.Le16Injective(low, high, FromBits(Crc16.LowOctet(r)), FromBits(Crc16.HighOctet(r)));
    }
  }

  lemma {:induction false} TotalOfParts(s: seq<uint8>, x: uint8)
    ensures Total(s + [x]) == Total(s) + x
    decreases |s|
  {
    if s == [] {
      assert [x][1..] == [];
    } else {
      assert (s + [x])[1..] == s[1..] + [x];
      TotalOfParts(s[1..], x);
    }
  }

  lemma {:induction false} TotalIsSum(s: seq<uint8>)
    ensures Total(s) == Sum(s)
    decreases |s|
  {
    if s != [] {
      var front, x := s[..|s| - 1], s[|s| - 1];
      assert s == front + [x];
      TotalIsSum(front);
      TotalOfParts(front, x);
    }
  }

  lemma SumOfRest(t: nat, x: nat)
    ensures (t + x) % 256 == (t % 256 + x) % 256
  {
    assert t == 256 * (t / 256) + t % 256;
  }

  lemma ComplementOf(r: nat, x: uint8)
    requires r < 256
    ensures x == (256 - r) % 256 <==> (r + x) % 256 == 0
  {
    if r == 0 {
      assert (256 - r) % 256 == 0;
    } else {
      assert (256 - r) % 256 == 256 - r;
    }
  }

  lemma ChecksumMatches(msg: seq<uint8>, x: uint8)
    ensures x == Checksum(msg) <==> Total(msg + [x]) % 256 == 0
  {
    hide Total, Sum;
    TotalIsSum(msg);
    TotalOfParts(msg, x);
    SumOfRest(Sum(msg), x);
    ComplementOf(Sum(msg) % 256, x);
  }

  lemma CheckMatchesIntact(u: seq<uint8>)
    requires |u| >= 6
    ensures CheckMatches(u) <==> Intact(u)
  {
    hide Crc16.Compute, Remainder, Checksum, Total;
    var n := BodyLength(u);
    if HasCrc(u[4]) {
      OctetsOfCheck(u[..n], u[n], u[n + 1]);
    } else {
      ChecksumMatches(u[..n], u[n]);
      assert u == u[..n] + [u[n]];
    }
  }

  lemma HeaderNeverMalformed(p: Peer, address: nat, sqn: nat, busy: bool)
    ensures CheckHeader(p, address, sqn, busy).1 != Malformed
  {
  }

  /** A packet whose CRC or checksum is wrong is refused and changes nothing, and no other
      packet is refused for that. */
  lemma DamageRefused(p: Peer, u: seq<uint8>)
    requires |u| >= 6
    ensures Check(p, u) == (p, Malformed) <==> !Intact(u)
    ensures Check(p, u).1 == Malformed <==> !Intact(u)
  {
    hide CheckMatches, Intact, CheckHeader;
    CheckMatchesIntact(u);
    HeaderNeverMalformed(p, u[1] % 128, Sqn(u[4]), BodyLength(u) == 6 && u[5] == 0x79);
  }

  lemma BodyEnds(c: Cipher, tx: Peer, payload: seq<uint8>, third: uint8)
    requires payload != []
    ensures var f := Body(c, tx, payload, third);
      |f| >= 8 && f == WithCrc(f[..|f| - 2])
  {
    hide Crc16.Compute;
    var v := Protect(c, AfterInit(tx), Assembled(tx, payload, third)).1;
    assert WithCrc(v)[..|v|] == v;
  }

  /** g is f changed within the two octets from i on, somewhere before the CRC; it still says
      that it has one. */
  ghost predicate DamagedAt(f: seq<uint8>, g: seq<uint8>, i: nat) {
    && 8 <= |f| == |g| && i + 4 <= |f| && f != g && g[4] / 4 % 2 == 1
    && f[..i] == g[..i] && f[i + 2..] == g[i + 2..]
  }

  /** A packet as it was sent, changed within two adjacent octets before its CRC, is refused
      by whoever receives it. */
  lemma DamagedPacketRefused(c: Cipher, tx: Peer, rx: Peer, payload: seq<uint8>, third: uint8, g: seq<uint8>, i: nat)
    requires payload != [] && DamagedAt(Body(c, tx, payload, third), g, i)
    ensures Check(rx, g) == (rx, Malformed)
  {
    hide Body;
    BodyEnds(c, tx, payload, third);
    DamageSeen(Body(c, tx, payload, third), g, i, rx);
  }

  lemma DamageSeen(f: seq<uint8>, g: seq<uint8>, i: nat, rx: Peer)
    requires DamagedAt(f, g, i) && f == WithCrc(f[..|f| - 2])
    ensures Check(rx, g) == (rx, Malformed)
  {
    hide Crc16.Compute, CheckHeader;
    var n := |f| - 2;
    var v, w, prefix, suffix := f[..n], g[..n], f[..i], f[i + 2..n];
    assert g[..i] == prefix && g[i + 2..n] == suffix by {
      assert g[i + 2..][..n - i - 2] == f[i + 2..][..n - i - 2];
    }
    assert v == prefix + [f[i], f[i + 1]] + suffix && w == prefix + [g[i], g[i + 1]] + suffix;
    if f[i] == g[i] && f[i + 1] == g[i + 1] {
      SameParts(f, g, i);
    }
    Crc16.AdjacentErrorsDetected(prefix, f[i], f[i + 1], g[i], g[i + 1], suffix);
    Le16RoundTrip(Crc16.Compute(v));
    assert g[n] == f[i + 2..][n - i - 2] == Byte0(Crc16.Compute(v));
    assert g[n + 1] == f[i + 2..][n - i - 1] == Byte1(Crc16.Compute(v));
  }

  lemma SameParts(f: seq<uint8>, g: seq<uint8>, i: nat)
    requires |f| == |g| && i + 2 <= |f| && f[i] == g[i] && f[i + 1] == g[i + 1]
    requires f[..i] == g[..i] && f[i + 2..] == g[i + 2..]
    ensures f == g
  {
    assert f == f[..i] + [f[i], f[i + 1]] + f[i + 2..];
    assert g == g[..i] + [g[i], g[i + 1]] + g[i + 2..];
  }

  // ----- Packets for others, and packets out of order -----

  lemma HeaderForOthers(p: Peer, address: nat, sqn: nat, busy: bool)
    ensures var others := address != p.address && address != 0x7F;
            var (p', verdict) := CheckHeader(p, address, sqn, busy);
      && (verdict == NotOurs || verdict == Foreign <==> others)
      && (others ==> p' == p && verdict == if p.pdMode then NotOurs else Foreign)
  {
  }

  /** An intact packet that carries neither this address nor 0x7F is left to others, and
      nothing changes; no other packet is. */
  lemma OthersLeft(p: Peer, u: seq<uint8>)
    requires |u| >= 6
    ensures var verdict := if p.pdMode then NotOurs else Foreign;
            var others := Intact(u) && u[1] % 128 != p.address && u[1] % 128 != 0x7F;
      && (Check(p, u) == (p, verdict) <==> others)
      && (Check(p, u).1 == NotOurs || Check(p, u).1 == Foreign <==> others)
  {
    hide CheckMatches, Intact, CheckHeader;
    CheckMatchesIntact(u);
    HeaderForOthers(p, u[1] % 128, Sqn(u[4]), BodyLength(u) == 6 && u[5] == 0x79);
  }

  ghost predicate CommandFor(p: Peer, address: nat, s: nat) {
    p.pdMode && -1 <= p.seqNumber <= 3 && s <= 3 && (address == p.address || address == 0x7F)
  }

  lemma RestartHeader(p: Peer, address: nat, busy: bool)
    requires CommandFor(p, address, 0)
    ensures CheckHeader(p, address, 0, busy) ==
            (p.(broadcast := p.broadcast || address == 0x7F, seqNumber := 0, scActive := false), Accepted)
  {
  }

  lemma RepeatHeader(p: Peer, address: nat, s: nat, busy: bool)
    requires CommandFor(p, address, s) && s == p.seqNumber && s != 0
    ensures CheckHeader(p, address, s, busy) == (p.(broadcast := p.broadcast || address == 0x7F), Accepted)
  {
  }

  lemma OtherHeader(p: Peer, address: nat, s: nat, busy: bool)
    requires CommandFor(p, address, s) && s != p.seqNumber && s != 0
    ensures var next := if p.seqNumber == 3 then 1 else p.seqNumber + 1;
            var p1 := p.(broadcast := p.broadcast || address == 0x7F, seqNumber := next);
      CheckHeader(p, address, s, busy) ==
        if s == next || p.skipSeqCheck then (p1, Accepted)
        else (p1.(replyId := 0x41, nakCode := 4), WrongSequence)
  {
  }

  lemma CommandHeader(p: Peer, address: nat, s: nat, busy: bool)
    requires CommandFor(p, address, s)
    ensures var next := if p.seqNumber == 3 then 1 else p.seqNumber + 1;
            var p1 := p.(broadcast := p.broadcast || address == 0x7F);
      CheckHeader(p, address, s, busy) ==
        if s == 0 then (p1.(seqNumber := 0, scActive := false), Accepted)
        else if s == p.seqNumber then (p1, Accepted)
        else if s == next || p.skipSeqCheck then (p1.(seqNumber := next), Accepted)
        else (p1.(seqNumber := next, replyId := 0x41, nakCode := 4), WrongSequence)
  {
    if s == 0 {
      RestartHeader(p, address, busy);
    } else if s == p.seqNumber {
      RepeatHeader(p, address, s, busy);
    } else {
      OtherHeader(p, address, s, busy);
    }
    hide CheckHeader, CommandFor;
  }

  lemma IntactChecked(p: Peer, u: seq<uint8>)
    requires |u| >= 6 && Intact(u)
    ensures Check(p, u) == CheckHeader(p, u[1] % 128, u[4] % 4, BodyLength(u) == 6 && u[5] == 0x79)
  {
    hide CheckMatches, Intact, CheckHeader;
    CheckMatchesIntact(u);
  }

  /** An intact packet for this device: 0 restarts the counter and closes the channel, the
      number of the last packet is taken again, the next number advances the counter; any
      other number is NAK 4 unless the check is off. */
  lemma CommandChecked(p: Peer, u: seq<uint8>)
    requires |u| >= 6 && Intact(u) && p.pdMode && -1 <= p.seqNumber <= 3
    requires u[1] % 128 == p.address || u[1] % 128 == 0x7F
    ensures var s := u[4] % 4;
            var next := if p.seqNumber == 3 then 1 else p.seqNumber + 1;
            var p1 := p.(broadcast := p.broadcast || u[1] % 128 == 0x7F);
      Check(p, u) ==
        if s == 0 then (p1.(seqNumber := 0, scActive := false), Accepted)
        else if s == p.seqNumber then (p1, Accepted)
        else if s == next || p.skipSeqCheck then (p1.(seqNumber := next), Accepted)
        else (p1.(seqNumber := next, replyId := 0x41, nakCode := 4), WrongSequence)
  {
    hide Check, Intact, CheckHeader;
    IntactChecked(p, u);
    CommandHeader(p, u[1] % 128, u[4] % 4, BodyLength(u) == 6 && u[5] == 0x79);
  }

  /** An intact reply: BUSY in the shortest packet with number 0 steps the counter back;
      otherwise it must carry the number of the command. */
  lemma ReplyChecked(p: Peer, u: seq<uint8>)
    requires |u| >= 6 && Intact(u) && !p.pdMode
    requires u[1] % 128 == p.address || u[1] % 128 == 0x7F
    ensures var s := u[4] % 4;
            var n := if u[4] / 4 % 2 == 1 then |u| - 2 else |u| - 1;
      Check(p, u) ==
        if s == 0 && n == 6 && u[5] == 0x79 then (p.(seqNumber := p.seqNumber - 1), Busy)
        else if s == p.seqNumber % 4 || p.skipSeqCheck then (p, Accepted)
        else (p.(replyId := 0x41, nakCode := 4), WrongSequence)
  {
    hide CheckMatches, Intact;
    CheckMatchesIntact(u);
  }
}
