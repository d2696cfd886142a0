/** Commands with data: cp_build_command of osdp_cp.c and pd_decode_command of
    osdp_pd.c. */
module Commands {
  import opened Bytes
  import opened Codes

  const TEXT_MAX_LEN: nat := 32
  const MFG_MAX_DATALEN: nat := 64

  datatype Blink = Blink(control: uint8, onCount: uint8, offCount: uint8, onColor: uint8, offColor: uint8)

  /** struct osdp_cmd; the timer of an LED's permanent state is not transmitted. */
  datatype Command =
    | Output(outputNo: uint8, control: uint8, timer: uint16)
    | Led(reader: uint8, number: uint8, temporary: Blink, timer: uint16, permanent: Blink)
    | Buzzer(reader: uint8, control: uint8, onCount: uint8, offCount: uint8, repCount: uint8)
    | Text(reader: uint8, control: uint8, tempTime: uint8, row: uint8, column: uint8, text: seq<uint8>)
    | Comset(address: uint8, baudRate: uint32)
    | Mfg(vendor: nat, code: uint8, data: seq<uint8>)
    | Keyset(key: Block)

  /** What the fields of the structures can hold and the standard transmits. */
  ghost predicate Valid(c: Command) {
    match c
    case Text(_, _, _, _, _, text) => |text| <= TEXT_MAX_LEN
    case Comset(address, _) => address < 0x7F
    case Mfg(vendor, _, data) => vendor < 16777216 && |data| <= MFG_MAX_DATALEN
    case _ => true
  }

  // ----- Building -----

  function BlinkOctets(b: Blink): seq<uint8> { [b.control, b.onCount, b.offCount, b.onColor, b.offColor] }

  function Le16Octets(x: nat): seq<uint8> { [Byte0(x), Byte1(x)] }

  function Le24Octets(x: nat): seq<uint8> { [Byte0(x), Byte1(x), Byte2(x)] }

  function Le32Octets(x: nat): seq<uint8> { [Byte0(x), Byte1(x), Byte2(x), Byte3(x)] }

  function Id(c: Command): uint8 {
    match c
    case Output(_, _, _) => CMD_OUT
    case Led(_, _, _, _, _) => CMD_LED
    case Buzzer(_, _, _, _, _) => CMD_BUZ
    case Text(_, _, _, _, _, _) => CMD_TEXT
    case Comset(_, _) => CMD_COMSET
    case Mfg(_, _, _) => CMD_MFG
    case Keyset(_) => CMD_KEYSET
  }

  /** The data of a command, without the identifier. */
  function Data(c: Command): seq<uint8> {
    match c
    case Output(no, control, timer) => [no, control] + Le16Octets(timer)
    case Led(reader, number, temporary, timer, permanent) =>
      [reader, number] + BlinkOctets(temporary) + Le16Octets(timer) + BlinkOctets(permanent)
    case Buzzer(reader, control, on, off, rep) => [reader, control, on, off, rep]
    case Text(reader, control, time, row, column, text) =>
      [reader, control, time, row, column, Byte0(|text|)] + text
    case Comset(address, baudRate) => [address] + Le32Octets(baudRate)
    case Mfg(vendor, code, data) => Le24Octets(vendor) + [code] + data
    case Keyset(key) => [1, 16] + key
  }

  function Build(c: Command): (p: seq<uint8>)
    ensures p != [] && p[0] == Id(c)
  {
    [Id(c)] + Data(c)
  }

  // ----- Decoding -----

  /** What the device brings along: the state of the channel, whether a callback is
      set, and its answers about a command. */
  datatype Device = Device(scActive: bool, hasCallback: bool, capable: Command -> bool, accepts: Command -> bool)

  datatype Answer = Ack | Nak(code: uint8) | Com(address: uint8, baudRate: uint32)

  /** The commands handed to the application, in order, and the reply. */
  datatype Handled = Handled(calls: seq<Command>, answer: Answer)

  /** do_command_callback; without a callback every command fails. */
  predicate Accepted(d: Device, c: Command) { d.hasCallback && d.accepts(c) }

  function ReadOutput(b: seq<uint8>): Command
    requires |b| == 4
  {
    Output(b[0], b[1], Le16(b[2], b[3]))
  }

  function ReadBlink(b: seq<uint8>): Blink
    requires |b| == 5
  {
    Blink(b[0], b[1], b[2], b[3], b[4])
  }

  function ReadLed(b: seq<uint8>): Command
    requires |b| == 14
  {
    Led(b[0], b[1], ReadBlink(b[2..7]), Le16(b[7], b[8]), ReadBlink(b[9..14]))
  }

  function ReadBuzzer(b: seq<uint8>): Command
    requires |b| == 5
  {
    Buzzer(b[0], b[1], b[2], b[3], b[4])
  }

  /** The records of a command that may hold several: handed over one by one until the
      device cannot carry one out or the application refuses it. */
  function Records(d: Device, data: seq<uint8>, size: nat, read: seq<uint8> --> Command): seq<Command>
    requires size > 0 && forall b: seq<uint8> :: |b| == size ==> read.requires(b)
    decreases |data|
  {
    if |data| < size then []
    else
      var c := read(data[..size]);
      if !d.capable(c) then []
      else if !Accepted(d, c) then Called(d, c)
      else [c] + Records(d, data[size..], size, read)
  }

  /** What the application sees of a command. */
  function Called(d: Device, c: Command): seq<Command> { if d.hasCallback then [c] else [] }

  /** A command of several records is acknowledged whatever becomes of them. */
  function HandleRecords(d: Device, data: seq<uint8>, size: nat, read: seq<uint8> --> Command): Handled
    requires size > 0 && forall b: seq<uint8> :: |b| == size ==> read.requires(b)
  {
    if |data| % size != 0 then Handled([], Nak(NAK_CMD_LEN)) else Handled(Records(d, data, size, read), Ack)
  }

  function HandleText(d: Device, data: seq<uint8>): Handled {
    if |data| < 6 then Handled([], Nak(NAK_CMD_LEN))
    else
      var n: nat := data[5];
      if n > TEXT_MAX_LEN || |data| - 6 < n then Handled([], Nak(NAK_CMD_LEN))
      else
        var c := Text(data[0], data[1], data[2], data[3], data[4], data[6..6 + n]);
        if !d.capable(c) then Handled([], Nak(NAK_CMD_UNKNOWN))
        else Handled(Called(d, c), if Accepted(d, c) then Ack else Nak(NAK_RECORD))
  }

  function HandleComset(d: Device, data: seq<uint8>): Handled {
    if |data| != 5 || data[0] >= 0x7F then Handled([], Nak(NAK_CMD_LEN))
    else
      var c := Comset(data[0], Le32(data[1], data[2], data[3], data[4]));
      Handled(Called(d, c), if Accepted(d, c) then Com(c.address, c.baudRate) else Nak(NAK_RECORD))
  }

  function HandleMfg(d: Device, data: seq<uint8>): Handled {
    if |data| < 4 || |data| - 4 > MFG_MAX_DATALEN then Handled([], Nak(NAK_CMD_LEN))
    else
      var c := Mfg(Le24(data[0], data[1], data[2]), data[3], data[4..]);
      Handled(Called(d, c), if Accepted(d, c) then Ack else Nak(NAK_RECORD))
  }

  function HandleKeyset(d: Device, data: seq<uint8>): Handled {
    if |data| != 18 || data[0] != 1 || data[1] != 16 then Handled([], Nak(NAK_CMD_LEN))
    else
      var c := Keyset(data[2..]);
      if !d.capable(c) then Handled([], Nak(NAK_SC_UNSUP))
      else if !d.scActive || !d.hasCallback then Handled([], Nak(NAK_SC_COND))
      else Handled([c], if Accepted(d, c) then Ack else Nak(NAK_SC_COND))
  }

  /** pd_decode_command for these commands, once ENFORCE_SECURE lets them pass. */
  function Handle(d: Device, p: seq<uint8>): Handled
    requires p != []
  {
    var data := p[1..];
    if p[0] == CMD_OUT then HandleRecords(d, data, 4, ReadOutput)
    else if p[0] == CMD_LED then HandleRecords(d, data, 14, ReadLed)
    else if p[0] == CMD_BUZ then HandleRecords(d, data, 5, ReadBuzzer)
    else if p[0] == CMD_TEXT then HandleText(d, data)
    else if p[0] == CMD_COMSET then HandleComset(d, data)
    else if p[0] == CMD_MFG then HandleMfg(d, data)
    else if p[0] == CMD_KEYSET then HandleKeyset(d, data)
    else Handled([], Nak(NAK_CMD_UNKNOWN))
  }

  // ----- What was built is what is handed over -----

  lemma OutputRead(c: Command)
    requires c.Output?
    ensures |Data(c)| == 4 && ReadOutput(Data(c)) == c
  {
    hide Le16, Byte0, Byte1;
    Le16RoundTrip(c.timer);
  }

  lemma LedRead(c: Command)
    requires c.Led?
    ensures |Data(c)| == 14 && ReadLed(Data(c)) == c
  {
    hide Le16, Byte0, Byte1;
    Le16RoundTrip(c.timer);
    var b := Data(c);
    assert b[2..7] == BlinkOctets(c.temporary) && b[7..9] == Le16Octets(c.timer) &&
        b[9..14] == BlinkOctets(c.permanent);
    assert b[7] == b[7..9][0] && b[8] == b[7..9][1];
  }

  lemma BuzzerRead(c: Command)
    requires c.Buzzer?
    ensures |Data(c)| == 5 && ReadBuzzer(Data(c)) == c
  {
  }

  /** One record on its own. */
  function One(d: Device, c: Command): seq<Command> {
    if !d.capable(c) then [] else Called(d, c)
  }

  lemma OneRecord(d: Device, c: Command, data: seq<uint8>, size: nat, read: seq<uint8> --> Command)
    requires size > 0 && forall b: seq<uint8> :: |b| == size ==> read.requires(b)
    requires |data| == size && read(data) == c
    ensures HandleRecords(d, data, size, read) == Handled(One(d, c), Ack)
  {
    assert |data| % size == 0;
    assert data[..size] == data && data[size..] == [];
    assert Records(d, [], size, read) == [];
  }

  lemma TextHandled(d: Device, c: Command)
    requires c.Text? && Valid(c)
    ensures HandleText(d, Data(c)) ==
            if !d.capable(c) then Handled([], Nak(NAK_CMD_UNKNOWN))
            else Handled(Called(d, c), if Accepted(d, c) then Ack else Nak(NAK_RECORD))
  {
    assert Data(c)[6..] == c.text;
    assert Data(c)[5] == |c.text|;
    assert Data(c)[6..6 + |c.text|] == c.text;
  }

  lemma ComsetHandled(d: Device, c: Command)
    requires c.Comset? && Valid(c)
    ensures HandleComset(d, Data(c)) ==
            Handled(Called(d, c), if Accepted(d, c) then Com(c.address, c.baudRate) else Nak(NAK_RECORD))
  {
    hide Le32, Byte0, Byte1, Byte2, Byte3;
    Le32RoundTrip(c.baudRate);
  }

  lemma MfgHandled(d: Device, c: Command)
    requires c.Mfg? && Valid(c)
    ensures HandleMfg(d, Data(c)) == Handled(Called(d, c), if Accepted(d, c) then Ack else Nak(NAK_RECORD))
  {
    hide Le24, Byte0, Byte1, Byte2;
    Le24RoundTrip(c.vendor);
    assert Data(c)[4..] == c.data;
  }

  lemma KeysetHandled(d: Device, c: Command)
    requires c.Keyset?
    ensures HandleKeyset(d, Data(c)) ==
            if !d.capable(c) then Handled([], Nak(NAK_SC_UNSUP))
            else if !d.scActive || !d.hasCallback then Handled([], Nak(NAK_SC_COND))
            else Handled([c], if Accepted(d, c) then Ack else Nak(NAK_SC_COND))
  {
    assert Data(c)[2..] == c.key;
  }

  /** Whether the device, as it is, takes the command at all. */
  predicate Takes(d: Device, c: Command) {
    d.capable(c) && (c.Keyset? ==> d.scActive) && d.hasCallback
  }

  predicate ChecksCapability(c: Command) { !c.Comset? && !c.Mfg? }

  /** A valid command reaches the device's application as it left the panel's, once,
      and nothing else does; COMSET and MFG reach it whatever the capabilities. */
  lemma CommandRoundTrip(d: Device, c: Command)
    requires Valid(c)
    ensures Handle(d, Build(c)).calls ==
            if d.hasCallback && (ChecksCapability(c) ==> d.capable(c)) && (c.Keyset? ==> d.scActive) then [c] else []
  {
    hide HandleRecords, HandleText, HandleComset, HandleMfg, HandleKeyset, Data;
    assert Build(c)[1..] == Data(c);
    match c
    case Output(_, _, _) => OutputRead(c); OneRecord(d, c, Data(c), 4, ReadOutput);
    case Led(_, _, _, _, _) => LedRead(c); OneRecord(d, c, Data(c), 14, ReadLed);
    case Buzzer(_, _, _, _, _) => BuzzerRead(c); OneRecord(d, c, Data(c), 5, ReadBuzzer);
    case Text(_, _, _, _, _, _) => TextHandled(d, c);
    case Comset(_, _) => ComsetHandled(d, c);
    case Mfg(_, _, _) => MfgHandled(d, c);
    case Keyset(_) => KeysetHandled(d, c);
  }

  /** Whether the reply is a refusal is up to the application for all commands but the
      three that may hold several records, which are always acknowledged. */
  lemma CommandAnswered(d: Device, c: Command)
    requires Valid(c) && Takes(d, c)
    ensures var a := Handle(d, Build(c)).answer;
      && (c.Output? || c.Led? || c.Buzzer? ==> a == Ack)
      && (c.Text? || c.Mfg? ==> a == if d.accepts(c) then Ack else Nak(NAK_RECORD))
      && (c.Comset? ==> a == if d.accepts(c) then Com(c.address, c.baudRate) else Nak(NAK_RECORD))
      && (c.Keyset? ==> a == if d.accepts(c) then Ack else Nak(NAK_SC_COND))
  {
    hide HandleRecords, HandleText, HandleComset, HandleMfg, HandleKeyset, Data;
    assert Build(c)[1..] == Data(c);
    match c
    case Output(_, _, _) => OutputRead(c); OneRecord(d, c, Data(c), 4, ReadOutput);
    case Led(_, _, _, _, _) => LedRead(c); OneRecord(d, c, Data(c), 14, ReadLed);
    case Buzzer(_, _, _, _, _) => BuzzerRead(c); OneRecord(d, c, Data(c), 5, ReadBuzzer);
    case Text(_, _, _, _, _, _) => TextHandled(d, c);
    case Comset(_, _) => ComsetHandled(d, c);
    case Mfg(_, _, _) => MfgHandled(d, c);
    case Keyset(_) => KeysetHandled(d, c);
  }

  // ----- Nothing else is handed over -----

  predicate Single(id: uint8) { id == 0x6E || id == 0x75 || id == 0x80 }

  lemma ComsetTaken(d: Device, p: seq<uint8>)
    requires p != [] && p[0] == 0x6E
    ensures var h := HandleComset(d, p[1..]);
      (h.answer == Nak(2) <==> |p| != 6 || p[1] >= 0x7F) &&
      (h.answer != Nak(2) ==> var c := Comset(p[1], Le32(p[2], p[3], p[4], p[5]));
        p == Build(c) && forall x :: x in h.calls ==> x == c)
  {
    if |p| == 6 {
      hide Le32, Byte0, Byte1, Byte2, Byte3;
      OctetsOfLe32(p[2], p[3], p[4], p[5]);
    }
  }

  lemma MfgTaken(d: Device, p: seq<uint8>)
    requires p != [] && p[0] == 0x80
    ensures var h := HandleMfg(d, p[1..]);
      (h.answer == Nak(2) <==> |p| < 5 || |p| > 69) &&
      (h.answer != Nak(2) ==> var c := Mfg(Le24(p[1], p[2], p[3]), p[4], p[5..]);
        p == Build(c) && forall x :: x in h.calls ==> x == c)
  {
    if |p| >= 5 {
      hide Le24, Byte0, Byte1, Byte2;
      OctetsOfLe24(p[1], p[2], p[3]);
      assert p[1..][4..] == p[5..];
    }
  }

  lemma KeysetTaken(d: Device, p: seq<uint8>)
    requires p != [] && p[0] == 0x75
    ensures var h := HandleKeyset(d, p[1..]);
      (h.answer == Nak(2) <==> |p| != 19 || p[1] != 1 || p[2] != 16) &&
      (h.answer != Nak(2) ==> var c := Keyset(p[3..]);
        p == Build(c) && forall x :: x in h.calls ==> x == c)
  {
    if |p| == 19 {
      assert p[1..][2..] == p[3..];
    }
  }

  lemma BuiltSingly(c: Command)
    requires Valid(c)
    ensures var p := Build(c);
      && (p[0] == 0x6E ==> |p| == 6 && p[1] < 0x7F)
      && (p[0] == 0x80 ==> 5 <= |p| <= 69)
      && (p[0] == 0x75 ==> |p| == 19 && p[1] == 1 && p[2] == 16)
  {
  }

  lemma Unmade(p: seq<uint8>)
    requires p != [] && Single(p[0])
    requires if p[0] == 0x6E then |p| != 6 || p[1] >= 0x7F
             else if p[0] == 0x80 then |p| < 5 || |p| > 69
             else |p| != 19 || p[1] != 1 || p[2] != 16
    ensures forall c :: Valid(c) ==> p != Build(c)
  {
    forall c | Valid(c) ensures p != Build(c) {
      BuiltSingly(c);
    }
  }

  /** Of the octets behind COMSET, MFG and KEYSET exactly those are taken that some valid
      command consists of, and it is that command which is handed over; all others are NAK 2. */
  lemma OnlyCommandsTaken(d: Device, p: seq<uint8>)
    requires p != [] && Single(p[0])
    ensures Handle(d, p).answer != Nak(2) <==> exists c :: Valid(c) && p == Build(c)
    ensures forall c :: c in Handle(d, p).calls ==> p == Build(c)
  {
    hide HandleComset, HandleMfg, HandleKeyset, Build, Valid;
    var h := Handle(d, p);
    if p[0] == 0x6E {
      ComsetTaken(d, p);
      if h.answer != Nak(2) { ValidComset(p[1], Le32(p[2], p[3], p[4], p[5])); } else { Unmade(p); NoCalls(d, p); }
    } else if p[0] == 0x80 {
      MfgTaken(d, p);
      if h.answer != Nak(2) { ValidMfg(Le24(p[1], p[2], p[3]), p[4], p[5..]); } else { Unmade(p); NoCalls(d, p); }
    } else {
      KeysetTaken(d, p);
      if h.answer != Nak(2) { ValidKeyset(p[3..]); } else { Unmade(p); NoCalls(d, p); }
    }
  }

  lemma ValidComset(address: uint8, rate: uint32)
    ensures Valid(Comset(address, rate)) <==> address < 0x7F
  {
  }

  lemma ValidMfg(vendor: nat, code: uint8, data: seq<uint8>)
    ensures Valid(Mfg(vendor, code, data)) <==> vendor < 16777216 && |data| <= 64
  {
  }

  lemma ValidKeyset(key: Block)
    ensures Valid(Keyset(key))
  {
  }

  lemma NoCalls(d: Device, p: seq<uint8>)
    requires p != [] && Single(p[0]) && Handle(d, p).answer == Nak(2)
    ensures Handle(d, p).calls == []
  {
  }

  /** TEXT is taken exactly when up to 32 octets of text, as many as it says, are there; what
      follows them is ignored. */
  lemma TextTaken(d: Device, p: seq<uint8>)
    requires p != [] && p[0] == 0x6B
    ensures var n: nat := if |p| >= 7 then p[6] else 0;
      && (Handle(d, p).answer != Nak(2) <==> |p| >= 7 + n && n <= 32)
      && forall c :: c in Handle(d, p).calls ==> Build(c) == p[..7 + n]
  {
    hide Handle;
    TextHandledOnly(d, p);
    if |p| >= 7 {
      var n: nat := p[6];
      if |p| >= 7 + n {
        TextBuilt(p, n);
      }
    }
  }

  lemma TextHandledOnly(d: Device, p: seq<uint8>)
    requires p != [] && p[0] == 0x6B
    ensures var n: nat, h := if |p| >= 7 then p[6] else 0, Handle(d, p);
      if |p| >= 7 + n && n <= 32 then
        h.answer != Nak(2) && forall c :: c in h.calls ==> c == Text(p[1], p[2], p[3], p[4], p[5], p[7..7 + n])
      else h == Handled([], Nak(2))
  {
    if |p| >= 7 {
      var n: nat := p[6];
      if |p| >= 7 + n {
        assert p[1..][6..6 + n] == p[7..7 + n];
      }
    }
  }

  lemma TextBuilt(p: seq<uint8>, n: nat)
    requires |p| >= 7 + n && p[0] == 0x6B && p[6] == n
    ensures Build(Text(p[1], p[2], p[3], p[4], p[5], p[7..7 + n])) == p[..7 + n]
  {
    FrontAndText(p, n);
    hide Build;
    TextOctets(p[1], p[2], p[3], p[4], p[5], p[7..7 + n]);
  }

  lemma FrontAndText(p: seq<uint8>, n: nat)
    requires |p| >= 7 + n
    ensures p[..7 + n] == [p[0], p[1], p[2], p[3], p[4], p[5], p[6]] + p[7..7 + n]
  {
  }

  lemma TextOctets(reader: uint8, control: uint8, time: uint8, row: uint8, column: uint8, text: seq<uint8>)
    requires |text| < 256
    ensures Build(Text(reader, control, time, row, column, text)) ==
            [0x6B, reader, control, time, row, column, |text|] + text
  {
    assert [0x6B] + ([reader, control, time, row, column, |text|] + text) ==
        [0x6B, reader, control, time, row, column, |text|] + text;
  }

  /** OUT, LED and BUZ are refused exactly when their data is not a whole number of records of
      4, 14 and 5 octets; a command with none of these identifiers is NAK 3. */
  lemma RecordsTaken(d: Device, p: seq<uint8>)
    requires p != []
    ensures var n := |p| - 1;
            var refused := Handle(d, p).answer == Nak(2);
      && (p[0] == 0x68 ==> (refused <==> n % 4 != 0))
      && (p[0] == 0x69 ==> (refused <==> n % 14 != 0))
      && (p[0] == 0x6A ==> (refused <==> n % 5 != 0))
      && (!Single(p[0]) && p[0] !in {0x68, 0x69, 0x6A, 0x6B} ==> Handle(d, p) == Handled([], Nak(3)))
  {
    hide Records, HandleText, HandleComset, HandleMfg, HandleKeyset;
  }

  // ----- Several records in one command -----

  function AllData(cs: seq<Command>): seq<uint8> {
    if cs == [] then [] else Data(cs[0]) + AllData(cs[1..])
  }

  /** The commands up to the first that the device cannot carry out, which is not
      handed over, or the first that the application refuses, which is. */
  function Performed(d: Device, cs: seq<Command>): seq<Command> {
    if cs == [] || !d.capable(cs[0]) then []
    else if !Accepted(d, cs[0]) then Called(d, cs[0])
    else [cs[0]] + Performed(d, cs[1..])
  }

  lemma {:induction false} RecordsInOrder(d: Device, cs: seq<Command>, size: nat, read: seq<uint8> --> Command)
    requires size > 0 && forall b: seq<uint8> :: |b| == size ==> read.requires(b)
    requires forall i :: 0 <= i < |cs| ==> |Data(cs[i])| == size && read(Data(cs[i])) == cs[i]
    ensures Records(d, AllData(cs), size, read) == Performed(d, cs)
    decreases |cs|
  {
    hide Data;
    if cs != [] {
      var data, rest := AllData(cs), AllData(cs[1..]);
      assert data[..size] == Data(cs[0]) && data[size..] == rest;
      RecordsInOrder(d, cs[1..], size, read);
    }
  }

  /** The loops of CMD_OUT, CMD_LED and CMD_BUZ. */
  method RecordLoop(d: Device, data: seq<uint8>, size: nat, read: seq<uint8> --> Command) returns (calls: seq<Command>)
    requires size > 0 && forall b: seq<uint8> :: |b| == size ==> read.requires(b)
    ensures calls == Records(d, data, size, read)
  {
    calls := [];
    var pos: nat := 0;
    assert data[0..] == data;
    while pos + size <= |data|
      invariant pos <= |data| && calls + Records(d, data[pos..], size, read) == Records(d, data, size, read)
      decreases |data| - pos
    {
      ghost var rest := data[pos..];
      var c := read(data[pos..pos + size]);
      assert rest[..size] == data[pos..pos + size] && rest[size..] == data[pos + size..];
      pos := pos + size;
      if !d.capable(c) {
        return;
      }
      if d.hasCallback {
        calls := calls + [c];
      }
      if !Accepted(d, c) {
        return;
      }
    }
  }
}
