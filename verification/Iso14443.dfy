/** pn5180_iso14443_apdu of pn5180_iso14443.c against a card that follows section 7.5
    of ISO/IEC 14443-4: chaining both ways, waiting-time extensions, block numbers. The
    reader's R(ACK) is not the standard's, and its blocks leave no room for the EDC, so
    chaining works only with a card that uses the reader's octet and takes longer blocks
    than the reader sends. */
module Iso14443 {
  import opened Bytes
  import opened Options
  import opened Sequences

  const PCB_I_BLOCK: uint8 := 0x02
  const PCB_CHAINING: uint8 := 0x10
  const PCB_WTX: uint8 := 0xF2

  /** The R(ACK) octet of pn5180_internal.h, block number 0. */
  const READER_ACK: uint8 := 0x82

  /** The R(ACK) octet of section 7.1 of ISO/IEC 14443-4, block number 0. */
  const STANDARD_ACK: uint8 := 0xA2

  // ----- Protocol control octet -----

  predicate IsI(pcb: uint8) { pcb / 64 == 0 }
  predicate IsR(pcb: uint8) { pcb / 64 == 2 }
  predicate IsWtx(pcb: uint8) { pcb / 64 == 3 && pcb / 16 % 4 == 3 }
  predicate Chaining(pcb: uint8) { pcb / 16 % 2 == 1 }
  predicate IsNak(pcb: uint8) { pcb / 32 % 2 == 1 }

  type Bit = x: nat | x < 2

  function Flip(b: Bit): Bit { 1 - b }

  function IPcb(block: Bit, chaining: bool): uint8 { PCB_I_BLOCK + block + (if chaining then PCB_CHAINING else 0) }

  /** The octets on the air: I-blocks 02, 03 and, chained, 12, 13; the reader's R(ACK) 82, 83. */
  lemma PcbOctets(block: Bit, chaining: bool)
    ensures IPcb(block, chaining) == 0x02 + block + (if chaining then 0x10 else 0)
    ensures AckOctet(READER_ACK, block) == 0x82 + block && AckOctet(STANDARD_ACK, block) == 0xA2 + block
    ensures PCB_WTX == 0xF2
  {
  }

  // ----- The card -----

  /** The two octets of EDC that end every block on the air (section 5.2 of ISO/IEC
      14443-4). The reader's hardware adds and removes them; FSC counts them. */
  const EDC: nat := 2

  /** No card has a smaller FSC (table 1 of ISO/IEC 14443-4). */
  const MIN_FSC: nat := 16

  /** The reader's `resp`: a longer answer makes pn5180_read_data fail. */
  const RESP_SIZE: nat := 260

  /** A card between two blocks. `ack` is the octet it uses for R(ACK), `fsc` the
      longest block it takes, EDC included; `plan` says how many extensions it asks for before each
      of its next answers, `held` is the answer it will give when they are granted. */
  datatype Card = Card(
    ack: uint8, fsc: nat, wtxm: uint8,
    block: Bit, received: seq<uint8>, segments: seq<seq<uint8>>, heard: seq<seq<uint8>>,
    plan: seq<nat>, waits: nat, held: seq<uint8>)

  /** An answer goes out at once or after some extensions. */
  function Deliver(c: Card, frame: seq<uint8>): (Card, seq<uint8>) {
    if c.plan == [] then (c, frame)
    else if c.plan[0] == 0 then (c.(plan := c.plan[1..]), frame)
    else (c.(plan := c.plan[1..], waits := c.plan[0], held := frame), [PCB_WTX, c.wtxm])
  }

  function NextSegment(c: Card): (Card, seq<uint8>)
    requires c.segments != []
  {
    (c.(segments := c.segments[1..]), [IPcb(c.block, |c.segments| > 1)] + c.segments[0])
  }

  /** What the card does with a frame: rules C to E and 9 to 13 of section 7.5.
      `respond` cuts the answer to a whole APDU into segments. */
  function Answer(c: Card, respond: seq<uint8> -> seq<seq<uint8>>, frame: seq<uint8>): (Card, Option<seq<uint8>>) {
    if frame == [] || |frame| + EDC > c.fsc then (c, None)
    else if c.waits > 0 then
      if frame != [PCB_WTX, c.wtxm] then (c, None)
      else if c.waits > 1 then (c.(waits := c.waits - 1), Some(frame))
      else (c.(waits := 0, held := []), Some(c.held))
    else if IsI(frame[0]) then
      var d := c.(block := Flip(c.block), received := c.received + frame[1..]);
      if Chaining(frame[0]) then
        var (e, reply) := Deliver(d, [AckOctet(c.ack, d.block)]);
        (e, Some(reply))
      else
        var whole := d.(received := [], heard := c.heard + [d.received], segments := respond(d.received));
        if whole.segments == [] then (whole, None)
        else
          var (e, frame') := NextSegment(whole);
          var (f, reply) := Deliver(e, frame');
          (f, Some(reply))
    else if frame == [AckOctet(c.ack, Flip(c.block))] && c.segments != [] then
      var d := c.(block := Flip(c.block));
      var (e, frame') := NextSegment(d);
      var (f, reply) := Deliver(e, frame');
      (f, Some(reply))
    else (c, None)
  }

  function AckOctet(base: uint8, block: Bit): uint8 { (base + block) % 256 }

  // ----- The reader -----

  datatype Status = Ok | Fail | NoMem | InvalidState

  /** A frame out, an answer back, extensions granted on the way. */
  method Transceive(card: Card, respond: seq<uint8> -> seq<seq<uint8>>, frame: seq<uint8>)
    returns (card': Card, resp: Option<seq<uint8>>)
    requires card.waits == 0 && MIN_FSC <= card.fsc
    requires var (c, reply) := Answer(card, respond, frame); reply.Some? ==> Grantable(c, reply.value)
    ensures (card', resp) == Settled(card, respond, frame)
  {
    var c, reply := Answer(card, respond, frame).0, Answer(card, respond, frame).1;
    card', resp := c, reply;
    while resp.Some? && resp.value != [] && IsWtx(resp.value[0])
      invariant Waiting(c, reply, card', resp) || Granted(c, reply, card', resp)
      decreases card'.waits
    {
      var grant := [resp.value[0], if |resp.value| > 1 then resp.value[1] else 1];
      card', resp := Answer(card', respond, grant).0, Answer(card', respond, grant).1;
    }
  }

  /** A pending extension carries the card's own multiplier, and the answer behind it
      is an I- or R-block. */
  ghost predicate Grantable(c: Card, reply: seq<uint8>) {
    && MIN_FSC <= c.fsc && reply != []
    && if c.waits > 0 then reply == [PCB_WTX, c.wtxm] && c.held != [] && !IsWtx(c.held[0]) else !IsWtx(reply[0])
  }

  /** Some extensions have been granted, others are still open. */
  ghost predicate Waiting(c: Card, reply: Option<seq<uint8>>, c': Card, resp: Option<seq<uint8>>) {
    resp == reply && (c.waits > 0 ==> 0 < c'.waits <= c.waits) && c' == c.(waits := if c.waits > 0 then c'.waits else 0)
  }

  ghost predicate Granted(c: Card, reply: Option<seq<uint8>>, c': Card, resp: Option<seq<uint8>>) {
    reply.Some? && c.waits > 0 && c' == c.(waits := 0, held := []) && resp == Some(c.held)
  }

  /** The answer behind the extensions. */
  function Final(c: Card, reply: seq<uint8>): seq<uint8> { if c.waits > 0 then c.held else reply }

  function Settled(c: Card, respond: seq<uint8> -> seq<seq<uint8>>, frame: seq<uint8>): (Card, Option<seq<uint8>>) {
    var (d, reply) := Answer(c, respond, frame);
    match reply
    case None => (d, None)
    case Some(r) => (d.(waits := 0, held := if d.waits > 0 then [] else d.held), Some(Final(d, r)))
  }

  // ----- What a conforming card answers -----

  function Later(plan: seq<nat>): seq<nat> { if plan == [] then [] else plan[1..] }

  lemma Pcbs(block: Bit, chaining: bool)
    ensures var pcb := IPcb(block, chaining); IsI(pcb) && !IsWtx(pcb) && !IsR(pcb) && Chaining(pcb) == chaining
  {
  }

  ghost predicate KnownAck(ack: uint8) { ack == READER_ACK || ack == STANDARD_ACK }

  lemma Acks(ack: uint8, block: Bit)
    requires KnownAck(ack)
    ensures var pcb := AckOctet(ack, block); IsR(pcb) && !IsWtx(pcb) && (IsNak(pcb) <==> ack == STANDARD_ACK)
    ensures AckOctet(ack, block) == AckOctet(READER_ACK, block) <==> ack == READER_ACK
  {
  }

  /** Nothing is pending. */
  ghost predicate Quiet(c: Card) { c.waits == 0 && c.held == [] && MIN_FSC <= c.fsc && KnownAck(c.ack) }

  lemma Delivered(c: Card, frame: seq<uint8>)
    requires Quiet(c) && frame != [] && !IsWtx(frame[0])
    ensures var (d, reply) := Deliver(c, frame);
      && Grantable(d, reply) && Final(d, reply) == frame
      && d.(waits := 0, held := if d.waits > 0 then [] else d.held) == c.(plan := Later(c.plan))
  {
  }

  lemma QuietAck(c: Card)
    requires Quiet(c)
    ensures KnownAck(c.ack) && MIN_FSC <= c.fsc
  {
  }

  /** The frame of one segment. */
  function SegmentFrame(block: Bit, segments: seq<seq<uint8>>): seq<uint8>
    requires segments != []
  {
    [IPcb(block, |segments| > 1)] + segments[0]
  }

  /** A block that is not the last: an acknowledgement. */
  lemma ChainedBlockAnswered(c: Card, respond: seq<uint8> -> seq<seq<uint8>>, block: Bit, chunk: seq<uint8>)
    requires Quiet(c) && 1 + |chunk| + EDC <= c.fsc
    ensures var frame := [IPcb(block, true)] + chunk;
            var (d, reply) := Answer(c, respond, frame);
      && reply.Some? && Grantable(d, reply.value)
      && Settled(c, respond, frame) ==
           (c.(block := Flip(c.block), received := c.received + chunk, plan := Later(c.plan)),
            Some([AckOctet(c.ack, Flip(c.block))]))
  {
    hide Deliver;
    Pcbs(block, true);
    var frame := [IPcb(block, true)] + chunk;
    assert frame[1..] == chunk;
    var d := c.(block := Flip(c.block), received := c.received + chunk);
    Acks(c.ack, d.block);
    Delivered(d, [AckOctet(c.ack, d.block)]);
  }

  /** A block that is too long for the card: silence. */
  lemma LongBlockIgnored(c: Card, respond: seq<uint8> -> seq<seq<uint8>>, frame: seq<uint8>)
    requires |frame| + EDC > c.fsc
    ensures Answer(c, respond, frame) == (c, None) && Settled(c, respond, frame) == (c, None)
  {
  }

  /** The last block: the first segment of the answer. */
  lemma LastBlockAnswered(c: Card, respond: seq<uint8> -> seq<seq<uint8>>, block: Bit, chunk: seq<uint8>)
    requires Quiet(c) && 1 + |chunk| + EDC <= c.fsc && respond(c.received + chunk) != []
    ensures var frame := [IPcb(block, false)] + chunk;
            var segments := respond(c.received + chunk);
            var (d, reply) := Answer(c, respond, frame);
      && reply.Some? && Grantable(d, reply.value)
      && Settled(c, respond, frame) ==
           (c.(block := Flip(c.block), received := [], heard := c.heard + [c.received + chunk],
               segments := segments[1..], plan := Later(c.plan)),
            Some(SegmentFrame(Flip(c.block), segments)))
  {
    hide Deliver;
    Pcbs(block, false);
    var frame := [IPcb(block, false)] + chunk;
    assert frame[1..] == chunk;
    var segments := respond(c.received + chunk);
    var d := c.(block := Flip(c.block), received := [], heard := c.heard + [c.received + chunk],
        segments := segments[1..]);
    Pcbs(d.block, |segments| > 1);
    Delivered(d, SegmentFrame(d.block, segments));
  }

  /** An acknowledgement the card understands: the next segment. Any other octet: no
      answer. */
  lemma AckAnswered(c: Card, respond: seq<uint8> -> seq<seq<uint8>>, block: Bit)
    requires Quiet(c) && c.segments != [] && block == Flip(c.block)
    ensures var frame := [AckOctet(READER_ACK, block)];
            var (d, reply) := Answer(c, respond, frame);
      if c.ack == READER_ACK then
        && reply.Some? && Grantable(d, reply.value)
        && Settled(c, respond, frame) ==
             (c.(block := block, segments := c.segments[1..], plan := Later(c.plan)),
              Some(SegmentFrame(block, c.segments)))
      else Settled(c, respond, frame) == (c, None)
  {
    hide Deliver;
    Acks(c.ack, block);
    Acks(READER_ACK, block);
    var d := c.(block := block, segments := c.segments[1..]);
    Pcbs(block, |c.segments| > 1);
    Delivered(d, SegmentFrame(block, c.segments));
  }

  // ----- One APDU -----

  /** Reader and card are where they are between two APDUs: the block numbers differ,
      as sections 7.5.3 and 7.5.4 leave them. The reader's limit may be any. */
  ghost predicate Aligned(c: Card, blockNumber: Bit, fscMax: nat) {
    Quiet(c) && c.block == Flip(blockNumber) && c.received == [] && c.segments == [] && MIN_FSC <= fscMax
  }

  /** The exchange needs no acknowledgement, or the card understands the reader's. */
  ghost predicate AcksAgree(c: Card, fscMax: nat, tx: seq<uint8>, segments: seq<seq<uint8>>) {
    c.ack == READER_ACK || (|tx| < fscMax && |segments| == 1)
  }

  /** Every block of an APDU of n octets is short enough for the card: the only one, or
      the full ones. */
  predicate BlocksFit(fsc: nat, fscMax: nat, n: nat) {
    if n < fscMax then 1 + n + EDC <= fsc else fscMax + EDC <= fsc
  }

  /** Every answer fits the reader's `resp`. */
  ghost predicate AnswersFit(segments: seq<seq<uint8>>) {
    forall i :: 0 <= i < |segments| ==> 1 + |segments[i]| <= RESP_SIZE
  }

  /** When an exchange succeeds. */
  ghost predicate Works(c: Card, fscMax: nat, tx: seq<uint8>, segments: seq<seq<uint8>>, rxBuf: nat) {
    && BlocksFit(c.fsc, fscMax, |tx|) && AcksAgree(c, fscMax, tx, segments)
    && AnswersFit(segments) && |Flatten(segments)| <= rxBuf
  }

  /** In the middle of sending: everything sent so far is with the card. */
  ghost predicate Sending(c: Card, c0: Card, fscMax: nat, tx: seq<uint8>, sent: nat) {
    && sent <= |tx| && c.received == tx[..sent] && c.segments == [] && c.heard == c0.heard
    && (sent > 0 ==> c.ack == READER_ACK && |tx| >= fscMax && fscMax + EDC <= c.fsc)
  }

  /** In the middle of receiving: what has come and what is still with the card make
      up the answer. */
  ghost predicate Receiving(c: Card, c0: Card, tx: seq<uint8>, rx: seq<uint8>, segments: seq<seq<uint8>>) {
    && c.received == [] && c.heard == c0.heard + [tx]
    && rx + Flatten(c.segments) == Flatten(segments)
  }

  lemma {:induction false} FlattenFirst(s: seq<seq<uint8>>)
    requires s != []
    ensures Flatten(s) == s[0] + Flatten(s[1..]) && |Flatten(s)| >= |s[0]|
  {
  }

  /** What the reader does about an answer: the second half of the loop body. */
  datatype Action = Abort | NextBlock | Overflow | Segment(payload: seq<uint8>, more: bool)

  function Classify(resp: Option<seq<uint8>>, lastChained: bool, room: int): Action {
    if resp == None || resp.value == [] || |resp.value| > RESP_SIZE then Abort
    else
      var pcb := resp.value[0];
      if IsR(pcb) then (if IsNak(pcb) || !lastChained then Abort else NextBlock)
      else if !IsI(pcb) then Abort
      else if |resp.value| - 1 > room then Overflow
      else Segment(resp.value[1..], Chaining(pcb))
  }

  /** What a segment means for the reader. */
  function Told(segments: seq<seq<uint8>>, room: int): Action
    requires segments != []
  {
    if 1 + |segments[0]| > RESP_SIZE then Abort
    else if |segments[0]| > room then Overflow
    else Segment(segments[0], |segments| > 1)
  }

  lemma AckClassified(ack: uint8, block: Bit, lastChained: bool, room: int)
    requires KnownAck(ack)
    ensures Classify(Some([AckOctet(ack, block)]), lastChained, room) ==
            if ack == READER_ACK && lastChained then NextBlock else Abort
  {
    Acks(ack, block);
  }

  lemma SegmentClassified(block: Bit, segments: seq<seq<uint8>>, lastChained: bool, room: int)
    requires segments != []
    ensures Classify(Some(SegmentFrame(block, segments)), lastChained, room) == Told(segments, room)
  {
    Pcbs(block, |segments| > 1);
    assert SegmentFrame(block, segments)[1..] == segments[0];
  }

  /** The answer as far as it has come. */
  lemma SegmentTaken(block: Bit, segments: seq<seq<uint8>>, rx: seq<uint8>, all: seq<seq<uint8>>)
    requires segments != [] && rx + Flatten(segments) == Flatten(all)
    ensures rx + segments[0] + Flatten(segments[1..]) == Flatten(all)
    ensures |rx| + |segments[0]| <= |Flatten(all)|
    ensures |segments| == 1 ==> rx + segments[0] == Flatten(all)
  {
    FlattenFirst(segments);
    assert rx + (segments[0] + Flatten(segments[1..])) == rx + segments[0] + Flatten(segments[1..]);
  }

  lemma OneMoreFits(segments: seq<seq<uint8>>, got: nat)
    requires got < |segments|
    ensures AnswersFit(segments[..got]) ==>
      (1 + |segments[got]| <= RESP_SIZE <==> AnswersFit(segments[..got + 1]))
    ensures AnswersFit(segments) ==> 1 + |segments[got]| <= RESP_SIZE
    ensures segments[got..][1..] == segments[got + 1..] && segments[got..][0] == segments[got]
    ensures got + 1 == |segments| ==> segments[..got + 1] == segments
  {
  }

  class Reader {
    var active: bool
    var blockNumber: Bit
    var fscMax: nat

    constructor (fscMax: nat)
      ensures active && blockNumber == 0 && this.fscMax == fscMax
    {
      active, blockNumber, this.fscMax := true, 0, fscMax;
    }

    /** The next I-block of the APDU, chained unless it is the last. */
    method SendBlock(tx: seq<uint8>, sent: nat, card: Card, respond: seq<uint8> -> seq<seq<uint8>>)
      returns (card': Card, resp: Option<seq<uint8>>, sent': nat, chained: bool)
      requires Quiet(card) && MIN_FSC <= fscMax && sent < |tx| && card.received == tx[..sent] && respond(tx) != []
      ensures sent < sent' <= |tx| && chained == (sent' < |tx|) && (chained <==> |tx| - sent >= fscMax)
      ensures Quiet(card') && card'.ack == card.ack && card'.fsc == card.fsc
      ensures 1 + (sent' - sent) <= fscMax && (chained ==> 1 + (sent' - sent) == fscMax)
      ensures 1 + (sent' - sent) + EDC > card.fsc ==> resp == None && card' == card
      ensures 1 + (sent' - sent) + EDC <= card.fsc && chained ==>
        && resp == Some([AckOctet(card.ack, Flip(card.block))])
        && card' == card.(block := Flip(card.block), received := tx[..sent'], plan := Later(card.plan))
      ensures 1 + (sent' - sent) + EDC <= card.fsc && !chained ==>
        && resp == Some(SegmentFrame(Flip(card.block), respond(tx)))
        && card' == card.(block := Flip(card.block), received := [], heard := card.heard + [tx],
                          segments := respond(tx)[1..], plan := Later(card.plan))
    {
      hide Answer, Settled, SegmentFrame, IPcb, AckOctet;
      var chunk := |tx| - sent;
      if chunk + 1 > fscMax {
        chunk := fscMax - 1;
      }
      sent' := sent + chunk;
      chained := sent' < |tx|;
      var data := tx[sent..sent'];
      assert tx[..sent] + data == tx[..sent'];
      if 1 + chunk + EDC > card.fsc {
        QuietAck(card);
        LongBlockIgnored(card, respond, [IPcb(blockNumber, chained)] + data);
      } else if chained {
        ChainedBlockAnswered(card, respond, blockNumber, data);
      } else {
        assert tx[..sent'] == tx;
        LastBlockAnswered(card, respond, blockNumber, data);
      }
      card', resp := Transceive(card, respond, [IPcb(blockNumber, chained)] + data);
    }

    /** R(ACK) for a segment of the card's answer. */
    method Acknowledge(card: Card, respond: seq<uint8> -> seq<seq<uint8>>)
      returns (card': Card, resp: Option<seq<uint8>>)
      requires Quiet(card) && card.segments != [] && card.block == Flip(blockNumber)
      ensures Quiet(card') && card'.ack == card.ack && card'.fsc == card.fsc
      ensures if card.ack == READER_ACK then
          && resp == Some(SegmentFrame(blockNumber, card.segments))
          && card' == card.(block := blockNumber, segments := card.segments[1..], plan := Later(card.plan))
        else resp == None && card' == card
    {
      hide Settled, SegmentFrame;
      AckAnswered(card, respond, blockNumber);
      card', resp := Transceive(card, respond, [AckOctet(READER_ACK, blockNumber)]);
    }

    /** The loop body while the APDU is being sent. */
    method WriteBlock(tx: seq<uint8>, sent: nat, card: Card, respond: seq<uint8> -> seq<seq<uint8>>, room: int)
      returns (card': Card, action: Action, sent': nat, chained: bool)
      requires Quiet(card) && MIN_FSC <= fscMax && sent < |tx| && card.received == tx[..sent] && respond(tx) != []
      ensures Quiet(card') && card'.ack == card.ack && card'.fsc == card.fsc
      ensures sent < sent' <= |tx| && chained == (sent' < |tx|) && (chained <==> |tx| - sent >= fscMax)
      ensures var fits := 1 + (sent' - sent) + EDC <= card.fsc;
        && 1 + (sent' - sent) <= fscMax && (chained ==> 1 + (sent' - sent) == fscMax)
        && (!fits ==> action == Abort)
        && (fits ==> card'.block == Flip(card.block))
        && (fits && chained ==>
              && card'.received == tx[..sent'] && card'.segments == card.segments && card'.heard == card.heard
              && action == if card.ack == READER_ACK then NextBlock else Abort)
        && (fits && !chained ==>
              && card'.received == [] && card'.segments == respond(tx)[1..] && card'.heard == card.heard + [tx]
              && action == Told(respond(tx), room))
    {
      hide Quiet, Classify, SegmentFrame, Told;
      QuietAck(card);
      var resp;
      card', resp, sent', chained := SendBlock(tx, sent, card, respond);
      if resp == None {
        action := Abort;
        return;
      }
      AckClassified(card.ack, Flip(card.block), chained, room);
      SegmentClassified(Flip(card.block), respond(tx), chained, room);
      action := Classify(resp, chained, room);
    }

    /** The loop body while the card's answer is being read. */
    method ReadSegment(card: Card, respond: seq<uint8> -> seq<seq<uint8>>, room: int, lastChained: bool)
      returns (card': Card, action: Action)
      requires Quiet(card) && card.segments != [] && card.block == Flip(blockNumber)
      ensures Quiet(card') && card'.ack == card.ack && card'.fsc == card.fsc
      ensures card'.received == card.received && card'.heard == card.heard
      ensures card.ack != READER_ACK ==> action == Abort
      ensures card.ack == READER_ACK ==> card'.block == blockNumber && card'.segments == card.segments[1..]
      ensures card.ack == READER_ACK ==> action == Told(card.segments, room)
    {
      hide Quiet, SegmentFrame, Told;
      var resp;
      card', resp := Acknowledge(card, respond);
      SegmentClassified(blockNumber, card.segments, lastChained, room);
      action := Classify(resp, lastChained, room);
    }

    /** pn5180_iso14443_apdu. The card's answer comes back exactly when every block fits
        its receiver, the answer fits the caller's buffer, and the two agree on R(ACK)
        where one is needed. Where the reader's limit is the card's FSC, as activation
        leaves it up to 256, a chained APDU never works. */
    method Apdu(tx: seq<uint8>, rxBuf: nat, card: Card, respond: seq<uint8> -> seq<seq<uint8>>)
      returns (status: Status, rx: seq<uint8>, card': Card)
      requires Aligned(card, blockNumber, fscMax) && tx != [] && respond(tx) != []
      modifies this`blockNumber
      ensures !active ==> status == InvalidState && card' == card && blockNumber == old(blockNumber)
      ensures active ==>
        (status == Ok <==> Works(card, fscMax, tx, respond(tx), rxBuf))
      ensures active && fscMax == card.fsc && status == Ok ==> 1 + |tx| + EDC <= card.fsc
      ensures status == Ok ==>
        rx == Flatten(respond(tx)) && card'.heard == card.heard + [tx] && Aligned(card', blockNumber, fscMax)
    {
      hide Quiet;
      QuietAck(card);
      rx, card' := [], card;
      if !active {
        return InvalidState, rx, card';
      }
      ghost var segments := respond(tx);
      var sent: nat := 0;
      var piccChaining := false;
      var lastChained := false;
      ghost var got: nat := 0;
      while sent < |tx| || piccChaining
        invariant Quiet(card') && card'.block == Flip(blockNumber)
        invariant card'.ack == card.ack && card'.fsc == card.fsc
        invariant !piccChaining ==> Sending(card', card, fscMax, tx, sent) && rx == [] && sent < |tx|
        invariant piccChaining ==> sent == |tx| && Receiving(card', card, tx, rx, segments) && card'.segments != []
        invariant piccChaining ==> |rx| <= rxBuf && |segments| > 1 && !lastChained
        invariant !piccChaining ==> got == 0
        invariant piccChaining ==> BlocksFit(card.fsc, fscMax, |tx|) && (|tx| < fscMax || card.ack == READER_ACK)
        invariant piccChaining ==> got <= |segments| && card'.segments == segments[got..] && AnswersFit(segments[..got])
        decreases |tx| - sent, |card'.segments|
      {
        hide Answer, Settled, Deliver, Flatten, SegmentFrame, IPcb, AckOctet, Classify;
        ghost var waiting := if piccChaining then card'.segments else segments;
        assert waiting == segments[got..];
        SegmentTaken(blockNumber, waiting, rx, segments);
        OneMoreFits(segments, got);
        var action;
        if piccChaining {
          card', action := ReadSegment(card', respond, rxBuf - |rx|, lastChained);
        } else {
          card', action, sent, lastChained := WriteBlock(tx, sent, card', respond, rxBuf - |rx|);
        }
        match action
        case Abort =>
          return Fail, rx, card';
        case Overflow =>
          blockNumber := Flip(blockNumber);
          return NoMem, rx, card';
        case NextBlock =>
          blockNumber := Flip(blockNumber);
        case Segment(payload, more) =>
          blockNumber := Flip(blockNumber);
          rx := rx + payload;
          got := got + 1;
          if !more {
            return Ok, rx, card';
          }
          piccChaining := true;
      }
      status := Ok;
    }
  }

  // ----- What activation leaves -----

  /** FSCI to FSC (table 1 of ISO/IEC 14443-4). */
  function Fsc(fsci: nat): nat
    requires fsci <= 12
  {
    [16, 24, 32, 40, 48, 64, 96, 128, 256, 512, 1024, 2048, 4096][fsci]
  }

  /** fsc_max in pn5180_iso14443_activate: its table ends at 256. */
  function FscMax(fsci: nat): nat {
    if fsci <= 8 then [16, 24, 32, 40, 48, 64, 96, 128, 256][fsci] else 256
  }

  /** The limit leaves no room for the EDC unless the card's FSC is above the table: up to
      FSCI 8 an APDU works only in one block of FSC - 3 octets at most, and never chained;
      above, every block fits. */
  lemma ActivatedBlocksFit(fsci: nat, n: nat)
    requires fsci <= 12
    ensures BlocksFit(Fsc(fsci), FscMax(fsci), n) <==> fsci >= 9 || 1 + n + EDC <= Fsc(fsci)
  {
  }

  // ----- A card with the standard's R(ACK) -----

  lemma SingleSegment(segments: seq<seq<uint8>>)
    requires |segments| == 1
    ensures Flatten(segments) == segments[0] && (AnswersFit(segments) <==> 1 + |segments[0]| <= RESP_SIZE)
  {
    FlattenFirst(segments);
    assert Flatten(segments[1..]) == [];
  }

  /** An APDU and its answer that such a card, activated by the reader, can exchange. */
  ghost predicate StandardWorks(fsci: nat, tx: seq<uint8>, segments: seq<seq<uint8>>, rxBuf: nat)
    requires fsci <= 12
  {
    && |tx| < FscMax(fsci) && 1 + |tx| + EDC <= Fsc(fsci)
    && |segments| == 1 && 1 + |segments[0]| <= RESP_SIZE && |segments[0]| <= rxBuf
  }

  /** It works with the reader exactly when nothing is chained and both blocks fit. */
  lemma StandardCardWorks(c: Card, fsci: nat, tx: seq<uint8>, segments: seq<seq<uint8>>, rxBuf: nat)
    requires c.ack == STANDARD_ACK && fsci <= 12 && c.fsc == Fsc(fsci)
    ensures Works(c, FscMax(fsci), tx, segments, rxBuf) <==> StandardWorks(fsci, tx, segments, rxBuf)
  {
    hide Flatten;
    if |segments| == 1 {
      SingleSegment(segments);
    }
    ActivatedBlocksFit(fsci, |tx|);
  }

  /** So says the status that the reader returns. */
  method StandardCardLimits(reader: Reader, fsci: nat, tx: seq<uint8>, rxBuf: nat, card: Card,
                            respond: seq<uint8> -> seq<seq<uint8>>)
    returns (status: Status, rx: seq<uint8>)
    requires fsci <= 12 && card.fsc == Fsc(fsci) && reader.fscMax == FscMax(fsci) && reader.active
    requires card.ack == STANDARD_ACK && Aligned(card, reader.blockNumber, reader.fscMax)
    requires tx != [] && respond(tx) != []
    modifies reader
    ensures status == Ok <==> StandardWorks(fsci, tx, respond(tx), rxBuf)
    ensures status == Ok ==> rx == respond(tx)[0]
  {
    StandardCardWorks(card, fsci, tx, respond(tx), rxBuf);
    if |respond(tx)| == 1 {
      SingleSegment(respond(tx));
    }
    hide Works, Flatten;
    var card';
    status, rx, card' := reader.Apdu(tx, rxBuf, card, respond);
  }

  /** A fresh card with the given R(ACK) and FSC. */
  function Fresh(ack: uint8, fsc: nat): Card { Card(ack, fsc, 1, 1, [], [], [], [], 0, []) }

  function StatusWord(tx: seq<uint8>): seq<seq<uint8>> { [[0x90, 0x00]] }

  /** A standard card with FSC 32: 40 octets have to be chained and fail; so do 31, in one
      block of 34 octets on the air; 29 are the most that work. */
  method StandardCardExamples() returns (chained: Status, full: Status, fitting: Status)
    ensures chained != Ok && full != Ok && fitting == Ok
  {
    ShortAnswer();
    hide Flatten;
    var reader := new Reader(32);
    var rx, card;
    chained, rx, card := reader.Apdu(Repeated(40), 260, Fresh(STANDARD_ACK, 32), StatusWord);
    reader := new Reader(32);
    full, rx, card := reader.Apdu(Repeated(31), 260, Fresh(STANDARD_ACK, 32), StatusWord);
    reader := new Reader(32);
    fitting, rx, card := reader.Apdu(Repeated(29), 260, Fresh(STANDARD_ACK, 32), StatusWord);
  }

  /** A card that shares the reader's R(ACK): with FSC 32 the first full block is already
      too long; with FSC 512, for which the reader keeps 256, chaining works. */
  method SharedAckExamples() returns (small: Status, large: Status)
    ensures small != Ok && large == Ok
  {
    ShortAnswer();
    hide Flatten;
    var reader := new Reader(32);
    var rx, card;
    small, rx, card := reader.Apdu(Repeated(40), 260, Fresh(READER_ACK, 32), StatusWord);
    reader := new Reader(256);
    large, rx, card := reader.Apdu(Repeated(300), 260, Fresh(READER_ACK, 512), StatusWord);
  }

  lemma ShortAnswer()
    ensures Flatten<uint8>([[0x90, 0x00]]) == [0x90, 0x00]
  {
    SingleSegment([[0x90, 0x00]]);
  }
}
