/** How much of a file one packet takes: the reserve in osdp_file_cmd_tx_build against
    what osdp_phy_packet_finalize adds. */
module ChunkBound {
  import opened Bytes
  import opened Codes
  import opened BlockCipher
  import SC = SecureChannel
  import Config
  import F = FileTransfer
  import opened Phy
  import opened Packet
  import L = Link

  const RESERVE: nat := 16

  /** Where the data of a command starts: after mark, header and security block. */
  function DataStart(mark: nat, active: bool): nat { mark + 5 + (if active then 2 else 0) }

  /** The most that osdp_file_cmd_tx_build asks the application to read, for a packet
      buffer of the given size. */
  function Available(size: nat, mark: nat, active: bool): int {
    size - DataStart(mark, active) - F.HEADER_SIZE - RESERVE
  }

  function ChunkPayload(header: seq<uint8>, chunk: seq<uint8>): seq<uint8> { [CMD_FILETRANSFER] + header + chunk }

  /** The length of the finished packet for n octets of the file. */
  function WireLength(mark: nat, active: bool, n: nat): nat {
    if active then mark + 14 + SC.PadLen(1 + F.HEADER_SIZE + n) else mark + 7 + 1 + F.HEADER_SIZE + n
  }

  /** The packet has that length. */
  lemma SentLength(c: Cipher, p: Peer, header: seq<uint8>, chunk: seq<uint8>)
    requires !p.pdMode && |header| == F.HEADER_SIZE
    ensures |Send(c, p, ChunkPayload(header, chunk), 0).1| ==
            WireLength(|MarkOf(AfterInit(p))|, p.scActive, |chunk|)
  {
    hide Send, SC.EncryptData, SC.WithMac;
    var payload := ChunkPayload(header, chunk);
    L.Sending(c, p, payload, 0);
    if p.scActive {
      SecureBody(c, p, payload, 0);
    } else {
      PlainBody(c, p, payload, 0);
    }
  }

  /** Every chunk that may be read still fits. */
  ghost predicate AllFit(size: nat, mark: nat, active: bool) {
    forall n: nat :: n <= Available(size, mark, active) ==> WireLength(mark, active, n) <= size
  }

  lemma Longest(size: nat, mark: nat, n: nat)
    requires n <= Available(size, mark, true)
    ensures WireLength(mark, true, n) <= WireLength(mark, true, Available(size, mark, true))
  {
    PadMonotone(1 + F.HEADER_SIZE + n, 1 + F.HEADER_SIZE + Available(size, mark, true));
  }

  lemma PadMonotone(a: nat, b: nat)
    requires a <= b
    ensures SC.PadLen(a) <= SC.PadLen(b)
  {
  }

  /** The longest packet for a buffer of 16 q + r octets. */
  lemma LongestLength(q: nat, r: nat, mark: nat)
    requires r < 16 && mark <= 1 && Available(16 * q + r, mark, true) >= 0
    ensures WireLength(mark, true, Available(16 * q + r, mark, true)) ==
            mark + 14 + (if r <= 6 + mark then 16 * q - 16 else 16 * q)
  {
    hide SC.PadLen;
    var n := 1 + F.HEADER_SIZE + Available(16 * q + r, mark, true);
    assert n == 16 * (q - 2) + (r + 10 - mark);
    PadAt(n, if r <= 6 + mark then q - 1 else q);
  }

  lemma PadAt(n: nat, k: nat)
    requires 16 * (k - 1) < n <= 16 * k
    ensures SC.PadLen(n) == 16 * k
  {
    assert (n + 15) / 16 == k;
  }

  /** The reserve of 16 is enough in an open channel exactly for these buffer sizes;
      every multiple of 16 is among them. */
  lemma SecureChunksFit(size: nat, mark: nat)
    requires mark <= 1 && Available(size, mark, true) > 0
    ensures AllFit(size, mark, true) <==> size % 16 <= 6 + mark || size % 16 >= 14 + mark
  {
    var q, r := size / 16, size % 16;
    LongestLength(q, r, mark);
    forall n: nat | n <= Available(size, mark, true)
      ensures WireLength(mark, true, n) <= WireLength(mark, true, Available(size, mark, true))
    {
      Longest(size, mark, n);
    }
  }

  /** A device that reports a receive buffer of 200 octets (PDCAP, osdp_common.h:499):
      in an open channel the application may return 165 octets, and the packet would
      take 207. */
  lemma ReportedSizeOverruns()
    ensures 165 == Available(200, 1, true) && WireLength(1, true, 165) == 207
    ensures !AllFit(200, 1, true)
  {
    assert WireLength(1, true, 165) > 200;
  }

  /** Without a channel it is always enough. */
  lemma PlainChunksFit(size: nat, mark: nat)
    ensures AllFit(size, mark, false)
  {
  }

  /** For the packet buffer as configured, whatever the channel and the mark: any
      chunk the application may return leaves in one packet. */
  lemma ConfiguredChunkFits(c: Cipher, p: Peer, header: seq<uint8>, chunk: seq<uint8>)
    requires !p.pdMode && |header| == F.HEADER_SIZE
    requires |chunk| <= Available(Config.PACKET_BUF_SIZE, |MarkOf(AfterInit(p))|, p.scActive)
    ensures |Send(c, p, ChunkPayload(header, chunk), 0).1| <= Config.PACKET_BUF_SIZE
  {
    hide Send, WireLength;
    SentLength(c, p, header, chunk);
    if p.scActive {
      SecureChunksFit(Config.PACKET_BUF_SIZE, |MarkOf(AfterInit(p))|);
    } else {
      PlainChunksFit(Config.PACKET_BUF_SIZE, |MarkOf(AfterInit(p))|);
    }
  }
}
