/** Replies with data: pd_build_reply of osdp_pd.c and cp_decode_response of
    osdp_cp.c. */
module Replies {
  import opened Bytes
  import opened Codes
  import opened Options
  import opened Commands

  const CAP_SENTINEL: nat := 17
  const MFGREP_MAX_DATALEN: nat := 128
  const EVENT_MAX_DATALEN: nat := 64

  datatype Capability = Capability(code: uint8, level: uint8, items: uint8)

  datatype Reply =
    | Identity(vendor: nat, model: uint8, version: uint8, serial: uint32, firmware: nat)
    | Capabilities(caps: seq<Capability>)
    | CardRead(reader: uint8, format: uint8, bits: uint16, data: seq<uint8>)
    | Keypress(reader: uint8, keys: seq<uint8>)
    | ComReply(address: uint8, baudRate: uint32)
    | MfgReply(vendor: nat, code: uint8, data: seq<uint8>)

  function BitsToOctets(bits: nat): nat { (bits + 7) / 8 }

  /** What the fields hold on the device's side. Its table of capabilities has at most
      one entry for each code, in the order of the codes. */
  ghost predicate Sound(r: Reply) {
    match r
    case Identity(vendor, _, _, _, firmware) => vendor < 16777216 && firmware < 16777216
    case Capabilities(caps) => |caps| < CAP_SENTINEL && forall i :: 0 <= i < |caps| ==> caps[i].code < CAP_SENTINEL
    case CardRead(_, _, bits, data) => |data| == BitsToOctets(bits) && |data| <= EVENT_MAX_DATALEN
    case Keypress(_, keys) => |keys| <= EVENT_MAX_DATALEN
    case ComReply(_, _) => true
    case MfgReply(vendor, _, data) => vendor < 16777216 && |data| <= MFGREP_MAX_DATALEN
  }

  // ----- Building -----

  function ReplyId(r: Reply): uint8 {
    match r
    case Identity(_, _, _, _, _) => REPLY_PDID
    case Capabilities(_) => REPLY_PDCAP
    case CardRead(_, _, _, _) => REPLY_RAW
    case Keypress(_, _) => REPLY_KEYPAD
    case ComReply(_, _) => REPLY_COM
    case MfgReply(_, _, _) => REPLY_MFGREP
  }

  function Be24Octets(x: nat): seq<uint8> { [Byte2(x), Byte1(x), Byte0(x)] }

  function CapOctets(caps: seq<Capability>): (s: seq<uint8>)
    ensures |s| == 3 * |caps|
  {
    if caps == [] then [] else [caps[0].code, caps[0].level, caps[0].items] + CapOctets(caps[1..])
  }

  function ReplyData(r: Reply): seq<uint8> {
    match r
    case Identity(vendor, model, version, serial, firmware) =>
      Le24Octets(vendor) + [model, version] + Le32Octets(serial) + Be24Octets(firmware)
    case Capabilities(caps) => CapOctets(caps)
    case CardRead(reader, format, bits, data) => [reader, format] + Le16Octets(bits) + data
    case Keypress(reader, keys) => [reader, Byte0(|keys|)] + keys
    case ComReply(address, baudRate) => [address] + Le32Octets(baudRate)
    case MfgReply(vendor, code, data) => Le24Octets(vendor) + [code] + data
  }

  function BuildReply(r: Reply): (p: seq<uint8>)
    ensures p != [] && p[0] == ReplyId(r)
  {
    [ReplyId(r)] + ReplyData(r)
  }

  // ----- Decoding -----

  /** The loop of REPLY_PDCAP: entries up to the first code outside the table. */
  function ReadCaps(data: seq<uint8>): seq<Capability>
    decreases |data|
  {
    if |data| < 3 || data[0] as nat >= CAP_SENTINEL then []
    else [Capability(data[0], data[1], data[2])] + ReadCaps(data[3..])
  }

  /** cp_decode_response for these replies; None for a reply of the wrong form. */
  function Decode(p: seq<uint8>): Option<Reply>
    requires p != []
  {
    var d := p[1..];
    if p[0] == REPLY_PDID then
      if |d| != 12 then None
      else Some(Identity(Le24(d[0], d[1], d[2]), d[3], d[4], Le32(d[5], d[6], d[7], d[8]), Le24(d[11], d[10], d[9])))
    else if p[0] == REPLY_PDCAP then
      if |d| % 3 != 0 then None else Some(Capabilities(ReadCaps(d)))
    else if p[0] == REPLY_RAW then
      if |d| < 4 || |d| - 4 != BitsToOctets(Le16(d[2], d[3])) then None
      else Some(CardRead(d[0], d[1], Le16(d[2], d[3]), d[4..]))
    else if p[0] == REPLY_KEYPAD then
      if |d| < 2 || |d| - 2 != d[1] then None else Some(Keypress(d[0], d[2..]))
    else if p[0] == REPLY_COM then
      if |d| != 5 then None else Some(ComReply(d[0], Le32(d[1], d[2], d[3], d[4])))
    else if p[0] == REPLY_MFGREP then
      if |d| < 4 || |d| - 4 > MFGREP_MAX_DATALEN then None else Some(MfgReply(Le24(d[0], d[1], d[2]), d[3], d[4..]))
    else None
  }

  // ----- What was built is what is read -----

  lemma {:induction false} CapsRead(caps: seq<Capability>)
    requires forall i :: 0 <= i < |caps| ==> caps[i].code < CAP_SENTINEL
    ensures ReadCaps(CapOctets(caps)) == caps
    decreases |caps|
  {
    if caps != [] {
      var s := CapOctets(caps);
      assert s[3..] == CapOctets(caps[1..]);
      CapsRead(caps[1..]);
    }
  }

  lemma IdentityRead(r: Reply)
    requires r.Identity? && Sound(r)
    ensures Decode(BuildReply(r)) == Some(r)
  {
    hide Le24, Le32, Byte0, Byte1, Byte2, Byte3;
    Le24RoundTrip(r.vendor);
    Le32RoundTrip(r.serial);
    Le24RoundTrip(r.firmware);
    var d := BuildReply(r)[1..];
    assert d == ReplyData(r);
    assert d[0..3] == Le24Octets(r.vendor) && d[5..9] == Le32Octets(r.serial) && d[9..12] == Be24Octets(r.firmware);
  }

  lemma CardReadRead(r: Reply)
    requires r.CardRead? && Sound(r)
    ensures Decode(BuildReply(r)) == Some(r)
  {
    hide Le16, Byte0, Byte1, BitsToOctets;
    Le16RoundTrip(r.bits);
    var d := BuildReply(r)[1..];
    assert d == ReplyData(r);
    assert d[4..] == r.data;
  }

  lemma KeypressRead(r: Reply)
    requires r.Keypress? && Sound(r)
    ensures Decode(BuildReply(r)) == Some(r)
  {
    var d := BuildReply(r)[1..];
    assert d == ReplyData(r);
    assert d[2..] == r.keys;
  }

  lemma ComRead(r: Reply)
    requires r.ComReply?
    ensures Decode(BuildReply(r)) == Some(r)
  {
    hide Le32, Byte0, Byte1, Byte2, Byte3;
    Le32RoundTrip(r.baudRate);
    assert BuildReply(r)[1..] == ReplyData(r);
  }

  lemma MfgReplyRead(r: Reply)
    requires r.MfgReply? && Sound(r)
    ensures Decode(BuildReply(r)) == Some(r)
  {
    hide Le24, Byte0, Byte1, Byte2;
    Le24RoundTrip(r.vendor);
    var d := BuildReply(r)[1..];
    assert d == ReplyData(r);
    assert d[4..] == r.data;
  }

  lemma CapabilitiesRead(r: Reply)
    requires r.Capabilities? && Sound(r)
    ensures Decode(BuildReply(r)) == Some(r)
  {
    CapsRead(r.caps);
    assert BuildReply(r)[1..] == CapOctets(r.caps);
  }

  /** Every reply a device builds reads back as it was. */
  lemma ReplyRoundTrip(r: Reply)
    requires Sound(r)
    ensures Decode(BuildReply(r)) == Some(r)
  {
    hide Decode, BuildReply;
    match r
    case Identity(_, _, _, _, _) => IdentityRead(r);
    case Capabilities(_) => CapabilitiesRead(r);
    case CardRead(_, _, _, _) => CardReadRead(r);
    case Keypress(_, _) => KeypressRead(r);
    case ComReply(_, _) => ComRead(r);
    case MfgReply(_, _, _) => MfgReplyRead(r);
  }

  // ----- Nothing else is read -----

  lemma IdentityOnly(p: seq<uint8>, r: Reply)
    requires p != [] && Decode(p) == Some(r) && (r.Identity? || r.ComReply?)
    ensures p == BuildReply(r)
  {
    hide Le24, Le32, Byte0, Byte1, Byte2, Byte3;
    var d := p[1..];
    assert p == [p[0]] + d;
    if r.Identity? {
      OctetsOfLe24(d[0], d[1], d[2]);
      OctetsOfLe32(d[5], d[6], d[7], d[8]);
      OctetsOfLe24(d[11], d[10], d[9]);
    } else {
      OctetsOfLe32(d[1], d[2], d[3], d[4]);
    }
  }

  lemma DataOnly(p: seq<uint8>, r: Reply)
    requires p != [] && Decode(p) == Some(r) && (r.CardRead? || r.Keypress? || r.MfgReply?)
    ensures p == BuildReply(r)
  {
    hide Le16, Le24, Byte1, Byte2, BitsToOctets;
    var d := p[1..];
    assert p == [p[0]] + d;
    if r.CardRead? {
      OctetsOfLe16(d[2], d[3]);
      assert d == d[..4] + d[4..];
    } else if r.Keypress? {
      assert d == d[..2] + d[2..];
    } else {
      OctetsOfLe24(d[0], d[1], d[2]);
      assert d == d[..4] + d[4..];
    }
  }

  lemma CapabilitiesOnly(p: seq<uint8>, r: Reply)
    requires p != [] && Decode(p) == Some(r) && r.Capabilities?
    ensures BuildReply(r) <= p
  {
    CapsBuilt(p[1..]);
    assert p == [p[0]] + p[1..];
  }

  /** What reads as a reply is what a device builds for it, octet by octet; of the
      capabilities only those are read that come before the first unknown code. */
  lemma OnlyRepliesRead(p: seq<uint8>, r: Reply)
    requires p != [] && Decode(p) == Some(r)
    ensures if r.Capabilities? then BuildReply(r) <= p else p == BuildReply(r)
  {
    hide Decode, BuildReply;
    match r
    case Identity(_, _, _, _, _) => IdentityOnly(p, r);
    case Capabilities(_) => CapabilitiesOnly(p, r);
    case CardRead(_, _, _, _) => DataOnly(p, r);
    case Keypress(_, _) => DataOnly(p, r);
    case ComReply(_, _) => IdentityOnly(p, r);
    case MfgReply(_, _, _) => DataOnly(p, r);
  }

  lemma {:induction false} CapsBuilt(d: seq<uint8>)
    ensures CapOctets(ReadCaps(d)) <= d
    decreases |d|
  {
    if |d| >= 3 && d[0] as nat < CAP_SENTINEL {
      CapsBuilt(d[3..]);
      assert d == [d[0], d[1], d[2]] + d[3..];
    }
  }
}
