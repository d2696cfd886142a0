/** The messages octet by octet: what the builders and readers of the other modules agree
    on, written out with the numbers of SIA OSDP v2.2. */
module WireLayout {
  import opened Bytes
  import opened Commands
  import opened Replies
  import F = FileTransfer
  import K = KeyRotation

  // ----- Commands -----

  lemma CommandOctets(c: Command)
    requires Valid(c)
    ensures Build(c) ==
      match c
      case Output(no, control, timer) => [0x68, no, control, timer % 256, timer / 256]
      case Led(reader, number, t, timer, p) =>
        [0x69, reader, number, t.control, t.onCount, t.offCount, t.onColor, t.offColor, timer % 256, timer / 256,
         p.control, p.onCount, p.offCount, p.onColor, p.offColor]
      case Buzzer(reader, control, on, off, rep) => [0x6A, reader, control, on, off, rep]
      case Text(reader, control, time, row, column, text) =>
        [0x6B, reader, control, time, row, column, |text|] + text
      case Comset(address, rate) =>
        [0x6E, address, rate % 256, rate / 256 % 256, rate / 65536 % 256, rate / 16777216 % 256]
      case Mfg(vendor, code, data) => [0x80, vendor % 256, vendor / 256 % 256, vendor / 65536, code] + data
      case Keyset(key) => [0x75, 1, 16] + key
  {
  }

  /** The panel's own KEYSET is the same. */
  lemma KeysetOctets(key: Block)
    ensures K.KeysetPayload(key) == [0x75, 1, 16] + key == Build(Keyset(key))
  {
  }

  // ----- Replies -----

  lemma ThreeOctets(x: nat)
    requires x < 16777216
    ensures Le24Octets(x) == [x % 256, x / 256 % 256, x / 65536]
    ensures Be24Octets(x) == [x / 65536, x / 256 % 256, x % 256]
  {
  }

  lemma IdentityOctets(r: Reply)
    requires Sound(r) && r.Identity?
    ensures BuildReply(r) ==
      [0x45, r.vendor % 256, r.vendor / 256 % 256, r.vendor / 65536, r.model, r.version,
       r.serial % 256, r.serial / 256 % 256, r.serial / 65536 % 256, r.serial / 16777216 % 256,
       r.firmware / 65536, r.firmware / 256 % 256, r.firmware % 256]
  {
    ThreeOctets(r.vendor);
    ThreeOctets(r.firmware);
    hide Le24Octets, Be24Octets;
  }

  lemma ReplyOctets(r: Reply)
    requires Sound(r) && !r.Capabilities? && !r.Identity?
    ensures BuildReply(r) ==
      match r
      case CardRead(reader, format, bits, data) => [0x50, reader, format, bits % 256, bits / 256] + data
      case Keypress(reader, keys) => [0x53, reader, |keys|] + keys
      case ComReply(address, rate) =>
        [0x54, address, rate % 256, rate / 256 % 256, rate / 65536 % 256, rate / 16777216 % 256]
      case MfgReply(vendor, code, data) => [0x90, vendor % 256, vendor / 256 % 256, vendor / 65536, code] + data
      case _ => []
  {
  }

  /** Three octets for each capability, in order. */
  lemma {:induction false} CapabilityOctets(caps: seq<Capability>, i: nat)
    requires i < |caps|
    ensures CapOctets(caps)[3 * i..3 * i + 3] == [caps[i].code, caps[i].level, caps[i].items]
    decreases i
  {
    var first, rest := [caps[0].code, caps[0].level, caps[0].items], CapOctets(caps[1..]);
    assert CapOctets(caps) == first + rest;
    if i > 0 {
      CapabilityOctets(caps[1..], i - 1);
      assert (first + rest)[3 * i..3 * i + 3] == rest[3 * (i - 1)..3 * (i - 1) + 3];
    }
  }

  // ----- File transfer -----

  lemma FileOctets(f: F.File)
    requires f.offset < 4294967296 && f.length < 65536
    ensures F.Header(f) ==
      [f.fileId, f.size % 256, f.size / 256 % 256, f.size / 65536 % 256, f.size / 16777216 % 256,
       f.offset % 256, f.offset / 256 % 256, f.offset / 65536 % 256, f.offset / 16777216 % 256,
       f.length % 256, f.length / 256]
  {
  }

  lemma StatOctets(s: F.Stat)
    ensures F.WriteStat(s) ==
      [s.control, s.delay % 256, s.delay / 256, s.status % 256, s.status / 256, s.rxSize % 256, s.rxSize / 256]
  {
  }
}
