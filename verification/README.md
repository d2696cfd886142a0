# OSDP link

A model of the OSDP stack of this firmware and of the containers and ciphers under it,
with proofs of what the two ends of a link keep over whole runs.

* **Packets and channel** (`Phy`, `Packet`, `SecureChannel`, `BlockCipher`): what a packet
  is, from header to packet check, and what encryption, padding and the rolling MACs do to
  it. `PhyDevice.Device` and `SecureChannel.Session` do the same inside the packet buffer and
  the fields of the session, and every method is proved against the functions. What those
  packets hold and which are refused is stated once more without the functions, octet by octet
  (`Authenticity`, `PacketCheck`, `WireLayout`).
* **The link** (`Link`, `Handshake`, `KeyRotation`, `Session`): a panel and a device joined by
  a byte stream; runs of exchanges, the handshake, new keys, new addresses, in any order.
* **The line** (`Receiver`, `Framing`, `Line`, `EndToEnd`, `FileLink`): the ring buffer and
  the packet scanner, a stream with noise that arrives cut anyhow, and the whole way from the
  fields of a command to the same fields at the other end.
* **Application layers** (`Commands`, `Replies`, `FileTransfer`, `ChunkBound`,
  `CpStateMachine`, `Successors`, `KeyCommit`, `Events`, `Bus`): codecs, file transfer, the
  panel's two-level automaton, where it goes from every state, when it takes over a new key and
  when the application hears of an event, and the channel locks that many devices share.
* **Below and beside** (`Crc16`, `AesTables`, `SboxField`, `AesColumns`, `TinyAes`, `AesKeys`,
  `Fips197`, `TinyAesModes`, `DisjointSet`, `Topology`, `Pools`, `HashMap`, `Cmac`, `Iso14443`).

`Bytes`, `Sequences`, `Codes`, `Config`, `Options` and `LinearMaps` hold what the others share. Octets are
integers below 256; `Crc16` and the AES modules work on bit vectors. A cipher is a pair of
functions (`BlockCipher.Cipher`); where decryption has to undo encryption, the theorems ask
for `Invertible`, and `TinyAesModes.BackendInvertible` proves it of TinyAES. Randomness, the
clock, the application's callbacks and what arrives on the wire are parameters.

## Findings

What the code does not do, with an input, and when it does:

* **A new key committed without an ACK for it.** After a failed send `reply_id` still holds the
  reply to the command before (`osdp_cp.c:849-857`), and `cp_check_online_response` looks at it
  (`osdp_cp.c:1005-1019`). `KeyCommit.StaleAckExample`: a poll was answered with ACK, the
  application queues a KEYSET, sending it fails; the panel commits the key and closes the
  channel although nothing was sent. `KeyCommit.CommitsOnlyOnAckExactly`: a key is committed
  only on a well-formed ACK for its KEYSET exactly when neither this happens nor an ACK of the
  wrong length arrives.
* **An event from before the device was online.** A reply that becomes an event is noted in any
  state (`osdp_cp.c:479-628`), and the note is looked at only in or on the way to ONLINE
  (`osdp_cp.c:1307-1319`). `Events.EarlyEventExample`: keys in place of PDID take the device
  OFFLINE, and the application hears of them when it has come ONLINE after all.
  `Events.CallbacksMatchEvents`: while a device stays ONLINE there are exactly as many callbacks
  as events, and over no run more.
* **ISO 14443-4: blocks two octets too long.** Sections 5.2 and 7.1 of ISO/IEC 14443-4 bound a
  whole block by FSC, EDC included; `pn5180_iso14443.c:196-203` and `263-265` bound the block
  without the two EDC octets that the hardware appends (`pn5180_iso14443.c:246`).
  `Iso14443.ActivatedBlocksFit`: after activation every block fits exactly when FSCI is above 8,
  where the reader's table ends, or the APDU has at most FSC - 3 octets.
  `Iso14443.StandardCardExamples`: with FSC 32, 31 octets fail and 29 work.
* **ISO 14443-4 chaining against a standard card.** `pn5180_internal.h:105` names 0x82 as
  R(ACK) and treats 0x20 as NAK; section 7.1 of ISO/IEC 14443-4 has R(ACK) as 0xA2.
  `Iso14443.StandardCardExamples`: 40 octets to a standard card with FSC 32 fail.
  `Iso14443.Reader.Apdu` and `Iso14443.StandardCardLimits` give the condition on the status: such
  a card works exactly when neither the APDU nor its answer is chained and both fit.
* **A panel that skips marks falls silent once it has noted one.** `packet_init` writes no mark
  and `packet_finalize` looks for it (`osdp_phy.c:155-213`). `PhyDevice.SkippingPanelExample`
  fails to send a poll; `PhyDevice.Device.SendPacket` says that without its mark no packet
  passes, `PhyDevice.MarkStaysMissing` that no number of attempts changes that, and
  `Line.ReplyCrossesLine` that panel and device stay in step exactly while no mark is noted,
  which takes a marked reply or noise that ends in 0xFF.
* **Padding past the packet buffer.** `osdp_phy.c:268` compares the padded data alone with the
  room for the whole packet. `PhyDevice.PaddingLimit`: the padding stays in the buffer of 256
  exactly when the packet has a mark, the limit is below 256, or there are fewer than 240 octets
  of data; 240 octets without a mark end at 264.
* **Receiving past the packet buffer.** `Framing.ExtentLimit`: a call fills no more than the 256
  octets of `packet_buf` exactly when no packet of length 256 is collected behind a mark
  (`osdp_phy.c:412-429`) and no header is looked for in a buffer left nearly full by rejected
  ones. For the second, `Framing.RejectedHeadersPile`: each four start octets in a row leave
  three octets more in the buffer (`osdp_phy.c:395-426`).
* **Encrypted data of no length**, when it is not allowed, is looked for before the data:
  `data[-1]` (`osdp_sc.c:151-156`). `SecureChannel.Session.DecryptInPlace`: exactly then
  octets before the data may change; an identifier of 0x80 does (`SecureChannel.IdentifierUnmarked`).
* **The reserve of 16 for file chunks.** It suffices for a packet buffer of `size` octets in an
  open channel exactly when `size % 16 <= 6 + mark` or `size % 16 >= 14 + mark`
  (`ChunkBound.SecureChunksFit`). The buffer as configured (256) is fine. A device that reports
  a smaller receive buffer in PDCAP (`osdp_common.h:499`) may not be: for 200 with a mark,
  165 octets may be read and the packet would take 207 (`ChunkBound.ReportedSizeOverruns`).
* **Packets of six or seven octets**, which can only come without a CRC, may keep the receiver
  waiting for ever (`osdp_phy.c:395`, `Framing.ShortPacketStalls`): how the stream is cut is
  irrelevant exactly from eight octets on (`Framing.EightOctetsExactly`).
* **REPLY_MFGREP is never the answer to CMD_MFG**: `ret > 0` at `osdp_pd.c:552` compares a
  variable that holds an error code there (`Commands.CommandAnswered`).
* **A command without a translation reaches BUG()** at `osdp_cp.c:794` when the panel takes it
  from the queue, and nothing else does (`CpStateMachine.BugExactly`).

## Model

| member | source | states |
|---|---|---|
| `Session.LifeAgrees` | components/libosdp/src/osdp_cp.c:987-1325 | Over every run of exchanges, accepted COMSETs and requested KEYSETs with the handshake after each, in any order and number, from an open channel: every payload arrives as it was sent, no rotation fails, and both ends finish in step with an open channel, one address and the key requested last. |
| `Session.KeysetRestarts` | components/libosdp/src/osdp_cp.c:987-1019 | When the ACK of a KEYSET is there, in ONLINE or SET_SCBK, the automaton's next state is SC_CHLNG (OFFLINE if that was requested in ONLINE), the channel and SCBK-D are off as the packet layer has them, and nothing counts as verified. |
| `Session.TurnStaysOnline` | components/libosdp/src/osdp_cp.c:1005-1055 | A reply that is the right one for its command leaves the panel ONLINE, idle, with its channel as it was. |
| `Session.MoveAgrees` | components/libosdp/src/osdp_pd.c:1040-1070 | A COMSET for an address below 0x7F that the device accepts leaves both ends with that address and the session untouched. |
| `Session.MoveExactly` | components/libosdp/src/osdp_pd.c:507-530 | A COMSET that arrives is refused if and only if it names 0x7F or above. |
| `EndToEnd.TinyAesSession` | components/libosdp/src/crypto/tinyaes.c:17-47 | With TinyAES as the cipher nothing is assumed of it: from the same base key the handshake succeeds and any run of ordinary exchanges delivers everything. |
| `EndToEnd.TinyAesLife` | components/libosdp/src/crypto/tinyaes.c:17-47 | The same for any mixture of exchanges, new addresses and new keys after the handshake. |
| `EndToEnd.CommandReaches` | components/libosdp/src/osdp_cp.c:184-397 | Every valid OUT, LED, BUZ, TEXT, COMSET, MFG and KEYSET, plain or secured, with or without mark, behind noise and cut anyhow: the device's packet layer accepts it and its decoder calls the application once, with exactly these fields. |
| `EndToEnd.ReplyReaches` | components/libosdp/src/osdp_pd.c:698-932 | Every PDID, PDCAP, RAW, KEYPAD, COM and MFGREP comes back to the panel with exactly its fields, over the same line. |
| `Link.RunDelivers` | components/libosdp/src/osdp_phy.c:141-745 | Over every run of exchanges that leave the session as it is (no handshake, no acknowledged KEYSET, no COM after COMSET, no NAK), for packets that have been built: each side reads exactly what the other sent, in order; counters, session keys and rolling MACs agree at the end; channel, base keys and addresses are unchanged. |
| `Link.CommandDelivered` | components/libosdp/src/osdp_phy.c:432-745 | A command from a panel in step with the device is accepted and read as exactly the payload that was sent. |
| `Link.ReplyDelivered` | components/libosdp/src/osdp_phy.c:432-745 | So is every reply other than BUSY on its way back. |
| `Link.CommandKeepsStep` | components/libosdp/src/osdp_sc.c:185-217 | After a command both ends have the same number, the same keys and the same two MACs, although one encrypted before its MAC and the other decrypts after it. |
| `Link.ReplyKeepsStep` | components/libosdp/src/osdp_sc.c:185-217 | After the reply the two are in step for the next command, if and only if the panel has not noted a mark that it skips. |
| `Link.SequenceNumbers` | components/libosdp/src/osdp_phy.c:95-105 | After n commands from a counter s in -1..3 the number is s + n up to 3 and then 1, 2, 3, 1, ...; it never leaves -1..3. |
| `Link.RepeatAccepted` | components/libosdp/src/osdp_phy.c:474-531 | A repeated command with the number the device has just had is accepted, and the device ends with the same counter. |
| `Link.OutOfStepRefused` | components/libosdp/src/osdp_phy.c:474-531 | A command's number is accepted if and only if it is 0, the last one or the next one, or the check is switched off; otherwise the answer is NAK 4. |
| `Link.BusyResendsSameNumber` | components/libosdp/src/osdp_phy.c:474-531 | After a BUSY the panel sends the command again under the number it had. |
| `Handshake.HandshakeAgrees` | components/libosdp/src/osdp_sc.c:28-131 | CHLNG, CCRYPT, SCRYPT, RMAC_I from the same base key, with any random numbers, UID and marks: both cryptograms verify and both ends are active with equal keys, which are 01 82, 01 01 and 01 02 with the panel's random number under the base key, and the first R-MAC of Annex D. |
| `Handshake.CcryptVerifies` | components/libosdp/src/osdp_sc.c:110-123 | The panel derives the device's session keys from CCRYPT and accepts its cryptogram when the base keys are equal. |
| `Handshake.CcryptAccepted` | components/libosdp/src/osdp_cp.c:629-647 | A panel accepts CCRYPT if and only if it asked for it outside a channel, 32 octets came, and the last 16 are the panel's and the device's random number encrypted under the S-ENC that follows from the base key. |
| `Handshake.ScryptAccepted` | components/libosdp/src/osdp_pd.c:887-911 | What a device makes of SCRYPT: the R-MAC is the cryptogram encrypted under S-MAC1 and then S-MAC2, and the channel opens if and only if the cryptogram is the device's and the panel's random number under S-ENC. |
| `Handshake.ChallengePackets` | components/libosdp/src/osdp_cp.c:353-379 | CHLNG and CCRYPT octet by octet, the keys and the cryptogram in them, and the octet of the security block that names the base key. |
| `Handshake.OpensAfterHeader` | components/libosdp/src/osdp_pd.c:698-959 | RMAC_I still leaves in the clear although the channel is switched on while it is built. |
| `KeyRotation.KeysetRekeys` | components/libosdp/src/osdp_pd.c:1040-1046 | An acknowledged KEYSET leaves both ends with the same base key, no session and SCBK-D off, whether the application named the key or a panel on SCBK-D sent its own. |
| `KeyRotation.KeysetTaken` | components/libosdp/src/osdp_pd.c:593-630 | A device takes a key if and only if 75 01 10 and the key arrive over an open channel and the application accepts it. |
| `KeyRotation.NumbersAfterKeyset` | components/libosdp/src/osdp_cp.c:987-1003 | After a KEYSET from ONLINE the panel's next command carries number 0; nothing of the packet layer changes but number, base key, channel and SCBK-D. |
| `KeyRotation.RotateAgrees` | components/libosdp/src/osdp_cp.c:987-1003 | The handshake after it succeeds under the new key. |
| `KeyRotation.RotationsAgree` | components/libosdp/src/osdp_cp.c:987-1019 | Any number of rotations one after the other: none fails and the key requested last is on both ends. |
| `KeyRotation.ProvisioningAgrees` | components/libosdp/src/osdp_cp.c:1107-1118 | A device in install mode and a panel on SCBK-D: first handshake, automatic KEYSET and second handshake end with the panel's own key on both sides. |
| `SecureChannel.DecryptEncrypt` | components/libosdp/src/osdp_sc.c:133-183 | Decrypting what the other end encrypted under the same S-ENC and MAC gives back the data of any length, marker and zero padding stripped. |
| `SecureChannel.UnpadExactly` | components/libosdp/src/osdp_sc.c:133-163 | Data is read from a decrypted portion if and only if the portion is that data, the marker and zeros. |
| `SecureChannel.DecryptsTo` | components/libosdp/src/osdp_sc.c:133-163 | For any octets, whoever made them: they read as data if and only if CBC decryption under S-ENC, from the inverted MAC of the other side, gives that data, the marker and zeros. |
| `SecureChannel.SetupForgets` | components/libosdp/src/osdp_sc.c:219-245 | Setting up leaves nothing of an old session but the base key, where that is to stay. |
| `SecureChannel.MacOverIsChain` | components/libosdp/src/osdp_sc.c:185-217 | The two calls of compute_mac are the block-by-block chain of Annex D: S-MAC1 for all blocks but the last, S-MAC2 for the last. |
| `SecureChannel.Session.ComputeSessionKeys` | components/libosdp/src/osdp_sc.c:28-59 | Decrypted under the base key in use, the three keys in the session are 01 82, 01 01 and 01 02, each with six octets of the panel's random number and eight zeros. |
| `SecureChannel.Session.ComputeCpCryptogram` | components/libosdp/src/osdp_sc.c:61-73 | Under S-ENC it is the device's random number, then the panel's. |
| `SecureChannel.Session.ComputePdCryptogram` | components/libosdp/src/osdp_sc.c:102-108 | Under S-ENC it is the panel's random number, then the device's. |
| `SecureChannel.Session.VerifyPdCryptogram` | components/libosdp/src/osdp_sc.c:110-123 | Succeeds exactly when the cryptogram is the one expected; the constant-time comparison is equality. |
| `SecureChannel.Session.ComputeRMacI` | components/libosdp/src/osdp_sc.c:125-131 | Decrypted under S-MAC2 and then under S-MAC1 the R-MAC is the panel's cryptogram; nothing else changes. |
| `SecureChannel.Session.EncryptInPlace` | components/libosdp/src/osdp_sc.c:165-183 | The buffer holds the encryption of the padded data, what lies beside it is untouched. |
| `SecureChannel.Session.DecryptInPlace` | components/libosdp/src/osdp_sc.c:133-163 | The buffer holds the data again and the length without padding is returned, negative exactly when the specified decryption fails; what lies beside it is untouched, except that for no data that is not allowed a marker before it is taken away. |
| `SecureChannel.Session.ComputeMac` | components/libosdp/src/osdp_sc.c:185-217 | The rolling MAC of the direction becomes the specified one, the other stays. |
| `BlockCipher.CbcRoundTrip` | components/libosdp/src/crypto/tinyaes_src.c:501-529 | CBC decryption undoes CBC encryption for every block-multiple message and every cipher that inverts. |
| `BlockCipher.CbcEncryptAppend` | components/libosdp/src/crypto/tinyaes_src.c:501-514 | Encrypting a and then b with the carried vector is encrypting a + b at once. |
| `BlockCipher.CbcDecryptAppend` | components/libosdp/src/crypto/tinyaes_src.c:516-529 | The same for decryption. |
| `BlockCipher.CbcEncryptBlocks` | components/libosdp/src/crypto/tinyaes_src.c:501-514 | Block i is the encryption of the i-th block of the message added to the block before it, the vector for the first. |
| `BlockCipher.CbcDecryptBlocks` | components/libosdp/src/crypto/tinyaes_src.c:516-529 | Block i is the decryption of the i-th block added to the cipher block before it. |
| `Packet.DecodeSecure` | components/libosdp/src/osdp_phy.c:577-745 | A secured packet from a peer in the same session is authenticated, decrypted and stripped to the payload, and the MACs of the two stay equal. |
| `Packet.BodyChecks` | components/libosdp/src/osdp_phy.c:194-304 | Every finished packet has the header, length and CRC that the other end checks. |
| `Authenticity.SecuredPacket` | components/libosdp/src/osdp_phy.c:141-304 | Every secured packet: start, address, length, number, block type and identifier octet by octet, and before the CRC the first four octets of the MAC chain over all that comes before, from the MAC of the other side; the sender keeps that MAC. |
| `Authenticity.SecuredData` | components/libosdp/src/osdp_phy.c:248-276 | Its data portion is empty for a lone identifier and otherwise the padded data, each block encrypted under S-ENC after the one before, from the inverted MAC of the other side on. |
| `Authenticity.PlainPacket` | components/libosdp/src/osdp_phy.c:141-304 | Every packet outside an open channel, octet by octet, with the block types 11 to 14 of the handshake. |
| `Authenticity.OnlyAuthenticRead` | components/libosdp/src/osdp_phy.c:660-674 | In an open channel a packet of type SCS_15 or above is read only if its four octets are those of the MAC over everything before them; otherwise the answer is NAK 6 and the channel is closed. |
| `Authenticity.EncryptedRead` | components/libosdp/src/osdp_phy.c:676-707 | Of an authentic packet with data exactly what its data portion decrypts to is read, and where it decrypts to nothing the answer is NAK 6. |
| `Authenticity.PlainRead` | components/libosdp/src/osdp_phy.c:627-658 | Without a security block: in an open channel only a panel reads it, and only ACK for its KEYSET or NAK. |
| `Authenticity.BlockRead` | components/libosdp/src/osdp_phy.c:594-626 | With a block and no MAC: NAK 5 for a device that cannot have a channel, NAK 6 for types without their channel, and SCBK-D only in install mode. |
| `PacketCheck.DamageRefused` | components/libosdp/src/osdp_phy.c:432-463 | For every receiver and every octets: refused as malformed, with nothing changed, if and only if the CRC is not the remainder of the long division, or the checksum does not bring the sum to a multiple of 256. |
| `PacketCheck.DamagedPacketRefused` | components/libosdp/src/osdp_phy.c:432-463 | Any packet as it was sent, changed within two adjacent octets before its CRC, is refused by whoever receives it. |
| `PacketCheck.OthersLeft` | components/libosdp/src/osdp_phy.c:465-472 | An intact packet is left to others, with nothing changed, if and only if it carries neither this address nor 0x7F. |
| `PacketCheck.CommandChecked` | components/libosdp/src/osdp_phy.c:474-531 | What a device makes of the number of any intact command for it: restart, repeat, next, or NAK 4. |
| `PacketCheck.ReplyChecked` | components/libosdp/src/osdp_phy.c:474-531 | What a panel makes of any intact reply: BUSY in six octets steps the counter back, another number is NAK 4. |
| `PhyDevice.Device.PacketInit` | components/libosdp/src/osdp_phy.c:141-192 | Header and empty security block lie in the buffer as specified, one octet early where a mark was noted but is skipped, or the format error is returned and nothing changes. |
| `PhyDevice.Device.Finalize` | components/libosdp/src/osdp_phy.c:194-304 | Length, encryption, MAC and CRC are put in place as specified; the error is returned exactly when the header is not in place or the packet does not fit. |
| `PhyDevice.PaddingLimit` | components/libosdp/src/osdp_phy.c:254-272 | A packet that passes the test on the room has its padding inside the buffer if and only if it has a mark, the limit is below 256, or there are fewer than 240 octets of data. |
| `PhyDevice.Device.SendPacket` | components/libosdp/src/osdp_phy.c:306-329 | The octets handed to the channel are the specified packet, mark included; a panel that skips marks and has noted one gets the error for every packet. |
| `PhyDevice.MarkStaysMissing` | components/libosdp/src/osdp_phy.c:154-160 | No number of attempts to send takes the note away. |
| `PhyDevice.SkippingPanelExample` | components/libosdp/src/osdp_phy.c:154-213 | A poll of such a panel fails, and goes out in eight octets without the note. |
| `PhyDevice.Device.CheckPacket` | components/libosdp/src/osdp_phy.c:432-532 | Result and new state are those the link theorems are about, for every buffer. |
| `PhyDevice.Device.DecodePacket` | components/libosdp/src/osdp_phy.c:577-745 | The payload is found in place, or the specified NAK, for packets with a CRC or a checksum. |
| `Receiver.RingBuffer.Push` | components/libosdp/src/osdp_common.c:119-133 | Appends exactly when there is room. |
| `Receiver.RingBuffer.PushBuf` | components/libosdp/src/osdp_common.c:135-146 | Appends the longest prefix that fits. |
| `Receiver.RingBuffer.Pop` | components/libosdp/src/osdp_common.c:148-162 | Takes the oldest octet. |
| `Receiver.RingBuffer.PopBuf` | components/libosdp/src/osdp_common.c:164-175 | Moves the oldest octets, in order, and leaves the rest. |
| `Receiver.Scanner.RescanInPlace` | components/libosdp/src/osdp_phy.c:331-360 | The buffer is moved down to its next start of a packet, if there is one. |
| `Receiver.Scanner.ChannelReceive` | components/libosdp/src/osdp_phy.c:52-80 | The ring takes the longest prefix of the input it has room for; nothing is lost exactly when all fits, and otherwise reading stops with the 64 octets that did not. |
| `Receiver.Scanner.CheckPacket` | components/libosdp/src/osdp_phy.c:534-575 | One call in place does to buffer and ring what the stream theorem says a call does, for every input, as long as it stays in the packet buffer. |
| `Receiver.StartExactly` | components/libosdp/src/osdp_phy.c:362-393 | A packet starts at the first 0x53 of the stream, with its mark if and only if 0xFF is right before it. |
| `Receiver.HeaderExactly` | components/libosdp/src/osdp_phy.c:395-430 | A header is taken if and only if its length is from 6 to 256 and the high bit of the address is that of the direction. |
| `Receiver.RescanExactly` | components/libosdp/src/osdp_phy.c:331-360 | After a header that is not taken nothing is lost from the next 0x53 on. |
| `Framing.FragmentationIsIrrelevant` | components/libosdp/src/osdp_phy.c:362-575 | For any noise without a start octet, any packet with a good header, anything after it, and every way to cut the stream into calls: the first call that could have the packet assembles exactly its octets, with or without the mark, and every later octet waits in the ring. |
| `Framing.CallAdvances` | components/libosdp/src/osdp_phy.c:534-575 | One call with any further piece of the stream keeps the receiver where the stream says it is. |
| `Framing.RingSuffices` | components/libosdp/src/osdp_phy.c:52-80 | With the ring of 512 the same packet comes out of the same call, if no call brings more than 511 octets. |
| `Framing.ShortPacketStalls` | components/libosdp/src/osdp_phy.c:362-430 | A packet of six or seven octets, cut after four and followed by more, is never complete. |
| `Framing.EightOctetsExactly` | components/libosdp/src/osdp_phy.c:362-430 | For every packet of 6 to 255 octets with a good header: it is assembled out of every noise, continuation and cut if and only if it has at least eight octets. |
| `Framing.ExtentLimit` | components/libosdp/src/osdp_phy.c:395-429 | From any state within the bounds a call leaves the packet buffer if and only if a header is looked for in a full buffer or a packet of length 256 is collected behind a mark; otherwise the next state is within the bounds. |
| `Framing.RejectedHeadersPile` | components/libosdp/src/osdp_phy.c:331-426 | k calls with four start octets each leave 3 * k octets more in the packet buffer, for every k. |
| `Line.CommandCrossesLine` | components/libosdp/src/osdp_phy.c:362-745 | A command's packet behind noise and cut anyhow is received and read as its payload; a mark is noted only if one was sent or the noise ended in one. |
| `Line.ReplyCrossesLine` | components/libosdp/src/osdp_phy.c:362-745 | The same for a reply, whatever the noise; the two ends are in step again if and only if the panel has not noted a mark that it skips. |
| `Commands.CommandRoundTrip` | components/libosdp/src/osdp_pd.c:274-685 | A built command is handed to the application once with its own fields, if there is one, the capability is there and KEYSET is secured; otherwise not at all. |
| `Commands.CommandAnswered` | components/libosdp/src/osdp_pd.c:274-685 | What the device answers to each command it takes, accepted or not. |
| `Commands.RecordsInOrder` | components/libosdp/src/osdp_pd.c:404-479 | A packet with several records calls the application once for each, in order. |
| `Commands.OnlyCommandsTaken` | components/libosdp/src/osdp_pd.c:507-630 | Of all octets behind COMSET, MFG and KEYSET those are taken, and not NAK 2, that a valid command consists of, and only that command is handed over. |
| `Commands.TextTaken` | components/libosdp/src/osdp_pd.c:480-506 | TEXT is taken if and only if at most 32 octets of text, as many as it says, are there; what is handed over are those. |
| `Commands.RecordsTaken` | components/libosdp/src/osdp_pd.c:404-479 | OUT, LED and BUZ are NAK 2 if and only if their data is no whole number of records; unknown identifiers are NAK 3. |
| `WireLayout.CommandOctets` | components/libosdp/src/osdp_cp.c:184-397 | The octets of every valid command. |
| `WireLayout.IdentityOctets` | components/libosdp/src/osdp_pd.c:698-755 | The octets of PDID, the firmware version with its high octet first. |
| `Replies.ReplyRoundTrip` | components/libosdp/src/osdp_cp.c:399-679 | Decoding a built reply gives the reply. |
| `Replies.OnlyRepliesRead` | components/libosdp/src/osdp_cp.c:399-679 | What reads as a reply is what a device builds for that reply, octet by octet. |
| `WireLayout.ReplyOctets` | components/libosdp/src/osdp_pd.c:698-932 | The octets of the replies. |
| `CpStateMachine.RunSafe` | components/libosdp/src/osdp_cp.c:1057-1325 | Over every run of state_update with any replies, errors and timeouts: the channel is open only in ONLINE and SET_SCBK and only after a verified CCRYPT and an RMAC_I; under ENFORCE_SECURE, ONLINE means an open channel without SCBK-D; BUG() is not reached. |
| `CpStateMachine.UpdateKeeps` | components/libosdp/src/osdp_cp.c:1269-1325 | One call keeps that invariant, and reports progress exactly while a reply is awaited. |
| `CpStateMachine.BugExactly` | components/libosdp/src/osdp_cp.c:760-798 | From a state that keeps the invariant, one call reaches BUG() if and only if the device is online and idle and the queue's head is a command without translation. |
| `Successors.Successor` | components/libosdp/src/osdp_cp.c:1072-1325 | One call in any state before ONLINE, whatever arrives: still waiting, or the next state by the right reply or its absence, with the flags of the channel; CAPDET challenges a device that reports the channel, enforced or not; a failed challenge is repeated once with SCBK-D. |
| `Successors.OnlineSuccessor` | components/libosdp/src/osdp_cp.c:1005-1055 | One call in ONLINE while a reply is awaited: which replies keep the device ONLINE, and when it goes OFFLINE or to the challenge. |
| `Successors.OnlineAsks` | components/libosdp/src/osdp_cp.c:927-952 | What is sent from ONLINE: the queue, then the file, then a poll; KEYSET only with a key over an open channel. |
| `Successors.IdleAsks` | components/libosdp/src/osdp_cp.c:1057-1070 | Each state before ONLINE sends its own command. |
| `Successors.OfflineLeft` | components/libosdp/src/osdp_cp.c:1087-1133 | OFFLINE is left for INIT, when its time is over. |
| `Successors.Repeats` | components/libosdp/src/osdp_cp.c:880-906 | A reply that does not come in time repeats the command at most eight times. |
| `Successors.AskedKept` | components/libosdp/src/osdp_cp.c:1057-1070 | In every call the command under way before ONLINE stays that of the state. |
| `Successors.ComesOnline` | components/libosdp/src/osdp_cp.c:1057-1325 | From the start, PDID, a PDCAP with the channel, a verified CCRYPT and RMAC_I bring the panel ONLINE with an open channel under the device's own key, whatever the settings. |
| `Events.EventTold` | components/libosdp/src/osdp_cp.c:1307-1319 | Online the callback is called if and only if the awaited reply is an event; otherwise the event is kept, and nothing is told that was not heard. |
| `Events.CallbacksMatchEvents` | components/libosdp/src/osdp_cp.c:1307-1319 | Over every run no more callbacks than events, the kept one counted, and equally many while the device stays online. |
| `Events.EarlyEventExample` | components/libosdp/src/osdp_cp.c:479-628 | The run in which keys heard instead of PDID are told after the device has come online. |
| `KeyCommit.CommitsExactly` | components/libosdp/src/osdp_cp.c:838-906 | Online, an exchange ends with the key committed if and only if the command was KEYSET and either an ACK, well-formed or not, arrived while its reply was awaited, or sending failed with an ACK noted from the exchange before. |
| `KeyCommit.CommitsOnlyOnAckExactly` | components/libosdp/src/osdp_cp.c:1005-1019 | That a key is committed only on a well-formed ACK for its KEYSET holds exactly when neither the noted ACK nor an ACK of the wrong length gets in. |
| `KeyCommit.CommitShows` | components/libosdp/src/osdp_cp.c:987-1003 | From ONLINE with an open channel the panel goes to SC_CHLNG exactly when it commits, and the channel is closed then. |
| `KeyCommit.RunClears` | components/libosdp/src/osdp_cp.c:849-857 | Over every run, while a reply is awaited or a repetition is due, the noted reply is none or BUSY. |
| `KeyCommit.StaleAckExample` | components/libosdp/src/osdp_cp.c:849-857 | The run of two calls in which a KEYSET that was never sent is committed. |
| `CpStateMachine.Panel.StateUpdate` | components/libosdp/src/osdp_cp.c:1269-1325 | The method on the fields of struct osdp_pd follows the automaton, and says of its fields when the channel may be open. |
| `Bus.MutualExclusion` | components/libosdp/src/osdp_cp.c:116-150 | In every state between calls a device on a shared channel holds the lock exactly while its panel side awaits a reply, so at most one per channel does. |
| `Bus.RefreshKeeps` | components/libosdp/src/osdp_cp.c:1327-1353 | One cp_refresh with any outcome keeps this, and no device releases or takes another's lock entry. |
| `Bus.EntryFreeOrOwn` | components/libosdp/src/osdp_cp.c:116-137 | A device's own lock entry is free or names its own channel, so the assertion in cp_channel_acquire never fires. |
| `Bus.TurnTaken` | components/libosdp/src/osdp_cp.c:1327-1353 | A device has its turn if and only if no other on its channel awaits a reply; the round stops if and only if it then awaits its own on the only channel. |
| `Bus.WaitingNotBlocked` | components/libosdp/src/osdp_cp.c:1327-1353 | A device that awaits its reply is never kept from its turn. |
| `Bus.RoundOrder` | components/libosdp/src/osdp_cp.c:1589-1608 | Where the round cannot stop, every device has exactly one turn, in order from the current one. |
| `Bus.Controller.RefreshAllPorts` | components/libosdp/src/osdp_cp.c:1589-1608 | The round over all devices, on the array of locks. |
| `DisjointSet.Nodes.Find` | components/libosdp/utils/src/disjoint_set.c:26-42 | Returns the representative, keeps the partition under path compression, and needs at most log2 n steps. |
| `DisjointSet.Nodes.Union` | components/libosdp/utils/src/disjoint_set.c:44-62 | Joins exactly the two classes. |
| `DisjointSet.Nodes.NumRoots` | components/libosdp/utils/src/disjoint_set.c:64-74 | Counts the classes. |
| `DisjointSet.DepthIsLogarithmic` | components/libosdp/utils/src/disjoint_set.c:26-42 | Two to the depth of a node is at most the number of nodes. |
| `DisjointSet.LinkPopulates` | components/libosdp/utils/src/disjoint_set.c:44-62 | Linking by rank keeps two to the rank at most the size of the class. |
| `Topology.Detect` | components/libosdp/src/osdp_cp.c:1404-1440 | Marks exactly the devices that share their channel with another, and counts the distinct channels. |
| `Topology.DetectedWiring` | components/libosdp/src/osdp_cp.c:1404-1440 | What it marks is the wiring that mutual exclusion asks for, when shared channel ids are not zero. |
| `FileTransfer.RunDelivers` | components/libosdp/src/osdp_file.c:58-319 | Over every run of chunks of any lengths with other commands in between, both offsets are equal, the copy agrees up to there, and both ends are done together with the same file. |
| `FileTransfer.ChunkDelivered` | components/libosdp/src/osdp_file.c:58-319 | One chunk of any readable length moves both ends on by exactly that length. |
| `FileTransfer.TransferFile` | components/libosdp/src/osdp_file.c:58-416 | On the fields of the two struct osdp_file: a transfer with any reader comes to an end, with both ends done and the receiver's octets those of the file. |
| `FileTransfer.FileEnd.BuildChunk` | components/libosdp/src/osdp_file.c:58-118 | Header and chunk are in the packet buffer, or the transfer is reset. |
| `FileTransfer.FileEnd.DecodeStat` | components/libosdp/src/osdp_file.c:120-192 | The sender's fields after a status, and what has to be closed or restarted. |
| `FileTransfer.FileEnd.DecodeChunk` | components/libosdp/src/osdp_file.c:196-265 | The receiver's fields and file after a chunk. |
| `FileTransfer.FileEnd.BuildStat` | components/libosdp/src/osdp_file.c:267-319 | The status and the receiver's fields after it. |
| `FileTransfer.StatusHeard` | components/libosdp/src/osdp_file.c:120-192 | The sender after any status: every chunk counts, and the last status ends, restarts or keeps alive by its number. |
| `FileTransfer.NextAsked` | components/libosdp/src/osdp_file.c:341-368 | What the panel asks for next, from errors, cancelling, delay and flags. |
| `FileTransfer.ChunkHeard` | components/libosdp/src/osdp_file.c:196-265 | A chunk is written where its header says, the first one opens the file, and one that would leave a gap is an error. |
| `FileTransfer.StatusSaid` | components/libosdp/src/osdp_file.c:267-319 | The octets of the answer: 0 while octets are missing, 1 for the last, -3 for an empty chunk. |
| `FileTransfer.ChunkSent` | components/libosdp/src/osdp_file.c:58-118 | What is sent is the header and exactly what was read; a read that fails or gives nothing ends the transfer. |
| `FileTransfer.CancelEnds` | components/libosdp/src/osdp_file.c:370-416 | A transfer under way is cancelled by its own identifier only, and the next thing is its end. |
| `WireLayout.FileOctets` | components/libosdp/src/osdp_file.c:47-56 | The header octet by octet. |
| `FileTransfer.BeginsInStep` | components/libosdp/src/osdp_file.c:370-416 | For every file whose size an int holds: the transfer begins exactly when the file is not empty, and then in step. |
| `FileTransfer.FileBegun` | components/libosdp/src/osdp_file.c:370-416 | Without a transfer a file is begun from its first octet if and only if it can be opened, is not empty, and nothing is to be cancelled. |
| `FileTransfer.KeepsGoing` | components/libosdp/src/osdp_file.c:341-365 | A transfer in step asks for the next chunk until it is done. |
| `FileLink.FileArrives` | components/libosdp/src/osdp_file.c:58-319 | The same file over the link itself: secured or not, with noise, cut anyhow, with other exchanges in between, every chunk the reserve allows fits its packet, every step succeeds, and the file arrives. |
| `ChunkBound.SecureChunksFit` | components/libosdp/src/osdp_file.c:87-98 | For every buffer size, in an open channel, all chunks that may be read fit if and only if the size's remainder by 16 is at most 6 + mark or at least 14 + mark. |
| `ChunkBound.ConfiguredChunkFits` | components/libosdp/src/osdp_phy.c:248-297 | For the buffer as configured the finished packet always fits. |
| `ChunkBound.ReportedSizeOverruns` | components/libosdp/src/osdp_common.h:499-508 | For a reported size of 200 it does not: 165 octets make 207. |
| `Crc16.Crc16ItuT` | components/libosdp/utils/src/crc16.c:11-21 | For every seed and message the loop leaves the remainder on division by x^16 + x^12 + x^5 + 1 of the message followed by sixteen zero bits, with the register preset to the one value that leads to the seed. |
| `Crc16.FoldIsLongDivision` | components/libosdp/utils/src/crc16.c:11-21 | The same from the preset: for every preset and message. |
| `Crc16.EverySeedDivides` | components/libosdp/utils/src/crc16.c:11-21 | Every seed comes from such a preset. |
| `Crc16.AdjacentErrorsSeen` | components/libosdp/utils/src/crc16.c:11-21 | For every seed, two messages of one length that differ only within two adjacent octets never leave the same register. |
| `Crc16.ComputeIsLongDivision` | components/libosdp/src/osdp_common.c:20-23 | The packet check, seed 0x1D0F, is the division with the register preset to ones. |
| `Crc16.AdjacentErrorsDetected` | components/libosdp/src/osdp_phy.c:444-452 | Nor do two such packets have the same check octets. |
| `TinyAes.CipherInverse` | components/libosdp/src/crypto/tinyaes_src.c:413-461 | InvCipher undoes Cipher for every state and round keys. |
| `Fips197.CipherIsEncryption` | components/libosdp/src/crypto/tinyaes_src.c:413-436 | Cipher is the encryption of FIPS 197, written out by column and row: substitution, row r from r columns on, the matrix 2 3 1 1, and the round keys, the last round without the matrix. |
| `Fips197.BackendIsAes` | components/libosdp/src/crypto/tinyaes.c:17-47 | So is what the backend computes, under the expanded key. |
| `TinyAes.CipherInPlace` | components/libosdp/src/crypto/tinyaes_src.c:413-436 | The rounds on the buffer compute Cipher and leave the rest of the buffer. |
| `TinyAes.InvCipherInPlace` | components/libosdp/src/crypto/tinyaes_src.c:439-461 | The same for InvCipher. |
| `AesTables.SboxInverse` | components/libosdp/src/crypto/tinyaes_src.c:138-141 | The two tables undo each other on all 256 octets. |
| `SboxField.SboxIsAffineOfInverse` | components/libosdp/src/crypto/tinyaes_src.c:79-137 | Every entry of the S-box is the affine map of FIPS 197 applied to the inverse in GF(2^8). |
| `AesColumns.MixColumnInverse` | components/libosdp/src/crypto/tinyaes_src.c:300-366 | InvMixColumns undoes MixColumns over GF(2^8), from the xtime forms the code has. |
| `AesKeys.KeyExpansion` | components/libosdp/src/crypto/tinyaes_src.c:146-217 | The 176 octets: first the key; in each round key the first word is the one above added to the turned and substituted last word and to a power of x, every other word is the one above added to the one before. |
| `TinyAesModes.BackendInvertible` | components/libosdp/src/crypto/tinyaes.c:17-47 | TinyAES decryption undoes its encryption, for every key and block. |
| `TinyAesModes.AesCtx.CbcEncryptBuffer` | components/libosdp/src/crypto/tinyaes_src.c:501-514 | In place over any block multiple: the CBC encryption under the context's key and vector, which becomes the last block. |
| `TinyAesModes.AesCtx.CbcDecryptBuffer` | components/libosdp/src/crypto/tinyaes_src.c:516-529 | In place: the CBC decryption, the vector becoming the last cipher block. |
| `TinyAesModes.CbcBuffersRoundTrip` | components/libosdp/src/crypto/tinyaes_src.c:501-529 | The two undo each other for every key, vector and length. |
| `Iso14443.Reader.Apdu` | components/pn5180/pn5180_iso14443.c:237-346 | Against a card with any FSC, chunking and finite number of extensions: the result is OK if and only if every block fits the card's FSC with its EDC, every answer fits the reader's 260 octets, the whole answer fits the caller's buffer, and the two agree on R(ACK) where one is needed; then the card has exactly the APDU, the reader exactly the answer, and the block numbers are aligned for the next one. |
| `Iso14443.Reader.SendBlock` | components/pn5180/pn5180_iso14443.c:237-346 | Each I-block carries the next stretch of the APDU, at most fsc_max octets with its PCB, chained unless it is the last. |
| `Iso14443.PcbOctets` | components/pn5180/pn5180_internal.h:95-120 | The control octets on the air: I-blocks 02, 03, chained 12, 13, the reader's R(ACK) 82, 83, extensions F2. |
| `Iso14443.ActivatedBlocksFit` | components/pn5180/pn5180_iso14443.c:187-205 | With the limit that activation derives from FSCI, every block of an APDU fits the card's FSC if and only if FSCI is above 8 or PCB, APDU and EDC fit one block. |
| `Iso14443.StandardCardLimits` | components/pn5180/pn5180_internal.h:95-120 | With a card that uses the standard's R(ACK), as activated, the returned status is OK if and only if neither the APDU nor its answer is chained and both fit. |
| `Iso14443.StandardCardExamples` | components/pn5180/pn5180_iso14443.c:257-270 | With such a card and FSC 32, 40 and 31 octets fail and 29 work. |
| `Iso14443.SharedAckExamples` | components/pn5180/pn5180_iso14443.c:257-270 | With a card that shares the reader's R(ACK), 40 octets fail with FSC 32 and 300 work with FSC 512. |
| `Pools.List.Append` | components/libosdp/utils/src/list.c:17-28 | The chain grows at its end and all links stay right. |
| `Pools.List.AppendLeft` | components/libosdp/utils/src/list.c:30-41 | It grows at its front. |
| `Pools.List.Pop` | components/libosdp/utils/src/list.c:43-57 | The last node leaves. |
| `Pools.List.PopLeft` | components/libosdp/utils/src/list.c:59-73 | The first node leaves. |
| `Pools.List.RemoveNode` | components/libosdp/utils/src/list.c:75-98 | Any node leaves and its neighbours point at each other. |
| `Pools.Slab.constructor` | components/libosdp/utils/src/slab.c:19-33 | As many free units as the blob holds. |
| `Pools.Slab.Alloc` | components/libosdp/utils/src/slab.c:35-51 | Within the octets of the blob: the first free unit is marked and no other octet changes; fails only when every unit is leased. |
| `Pools.Slab.Free` | components/libosdp/utils/src/slab.c:53-64 | The unit is free again exactly when its canary is intact; no other unit changes. |
| `Pools.UnitsApart` | components/libosdp/utils/src/slab.c:35-51 | Different units share no octet. |
| `Pools.Pool.Submit` | components/libosdp/src/osdp_cp.c:1394-1401 | The item is last in the queue, or the pool is full. |
| `Pools.Pool.Dequeue` | components/libosdp/src/osdp_cp.c:103-114 | The oldest item, octet by octet, and its unit free. |
| `Pools.Pool.Flush` | components/libosdp/src/osdp_cp.c:1634-1646 | Everything leaves, the count is what was queued, and no unit stays leased. |
| `Pools.FirstInFirstOut` | components/libosdp/src/osdp_pd.c:100-138 | After any run, what left, then what waits, is what was accepted, in order. |
| `Pools.Perform` | components/libosdp/src/osdp_pd.c:1237-1271 | Any run on the pool itself ends with that queue and with exactly its units leased; without a flush the items handed out, then those queued, are the accepted submissions. |
| `HashMap.Table.Insert` | components/libosdp/utils/src/hashmap.c:122-159 | The finite map is updated at the key, whether the pool was doubled first or not. |
| `HashMap.Table.Get` | components/libosdp/utils/src/hashmap.c:161-180 | The map's value, or NULL. |
| `HashMap.Table.Delete` | components/libosdp/utils/src/hashmap.c:182-213 | The key leaves the map and its value is returned. |
| `HashMap.Table.Rehash` | components/libosdp/utils/src/hashmap.c:52-88 | In place, twice the capacity, the same items, the same map; the assertion on the count holds. |
| `HashMap.SpreadRepresents` | components/libosdp/utils/src/hashmap.c:52-88 | Every item ends in the chain of its hash: where it was, or the old capacity further. |
| `HashMap.PositionIsRemainder` | components/libosdp/utils/src/hashmap.c:16-17 | The mask of a power-of-two capacity takes the remainder. |
| `HashMap.HashIsNumber` | components/libosdp/utils/src/strutils.c:208-217 | The hash is the key as a number to the base 33 with 5381 in front, in 32 bits. |
| `HashMap.Table.Count` | components/libosdp/utils/src/hashmap.c:28-50 | Walking all chains counts the bindings. |
| `HashMap.Iterator.Next` | components/libosdp/utils/src/hashmap.c:222-243 | Gives the next of what is left to give, and ends exactly when nothing is. |
| `HashMap.ForEach` | components/libosdp/utils/include/utils/hashmap.h:52-55 | Every binding of the map is met, and none twice. |
| `Cmac.DesfireCmac` | components/desfire/desfire_crypto.c:67-99 | For every length, empty and partial last blocks included: the CMAC of section 6.2 of NIST SP 800-38B, and equally the last block of the CBC chain over the prepared message. |
| `Cmac.TagExactly` | components/desfire/desfire_crypto.c:67-99 | Block by block and octet by octet, with the subkeys as shifts: the tag for every message and key. |
| `Cmac.CmacSubkeys` | components/desfire/desfire_crypto.c:53-65 | The two subkeys of the standard. |
| `Cmac.DoubleValue` | components/desfire/desfire_crypto.c:44-65 | The shift by one with 0x87 is doubling in GF(2^128), on the 128-bit number. |

## Left out

- Transport: UART, SPI, GPIO and the PN5180's registers; the transport is a sequence of octets.
- Time: timeouts, retries and delays are inputs of each call.
- Loss: a resend after a timeout advances the sequence number, so recovery is not claimed; runs are of packets that arrive.
- Link.RunDelivers: a packet too long for the buffer is never sent; the error of packet_finalize is in PhyDevice.Device.Finalize, and the run is about packets that were built.
- BlockCipher.CbcRoundTrip: the chain alone; padding, marker and the inverted MAC as vector are in SecureChannel.DecryptEncrypt.
- Framing.FragmentationIsIrrelevant: the ring is unbounded in it; Framing.RingSuffices has the ring of the original and asks for at most 511 octets a call.
- Receiver.Scanner.CheckPacket: what a call does beyond the packet buffer; Framing.ExtentLimit says when it stays inside.
- PhyDevice.Device.Finalize: the one case in which padding leaves the packet buffer; PhyDevice.PaddingLimit says which.
- PhyDevice.Device.DecodePacket: packets whose security block or MAC lie outside the packet.
- Session.MoveAgrees: the application's own change of the values between COMSET and COM, and the baud rate, which only the UART sees.
- Handshake.HandshakeAgrees: the capability and activity checks a device makes before CHLNG and SCRYPT are its `scCapable`; a device without a channel is not covered.
- KeyRotation.KeysetRekeys: keys of type 0 (master key), which the device refuses.
- Commands.CommandRoundTrip: status requests, file transfer and abort, which carry no fields.
- Replies.ReplyRoundTrip: status replies, formatted card data and the event queue behind POLL.
- CpStateMachine.RunSafe: flags changed at run time, devices added later, notifications and log messages.
- Bus.MutualExclusion: all devices added in one call, shared channel ids not zero.
- FileTransfer.RunDelivers: failing reads, KEEP_ALIVE and delays between chunks.
- Pools.Pool.Submit: the links of a queued item lie beside the unit, not in it.
- HashMap.Table.Get: NULL as the key with only a hash, where the code would compare with NULL.
- HashMap.Table.Delete: the same; freed memory is not given out again.
- Iso14443.Reader.Apdu: anticollision, deselection, the empty APDU and the driver's registers; Iso14443.ActivatedBlocksFit takes FSCI from an ATS that can be parsed, where the code otherwise assumes 32.
- Cipher wrappers for mbedTLS and OpenSSL: calls into code outside the repository.
- AES in counter and ECB modes, crc32, the singly linked list, inserting into and cutting ranges out of the doubly linked list: easy or unused.
