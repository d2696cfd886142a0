/** The command, reply and NAK codes of osdp_common.h (Annexes A and B of SIA OSDP v2.2). */
module Codes {
  import opened Bytes

  const CMD_POLL: uint8 := 0x60
  const CMD_ID: uint8 := 0x61
  const CMD_CAP: uint8 := 0x62
  const CMD_LSTAT: uint8 := 0x64
  const CMD_ISTAT: uint8 := 0x65
  const CMD_OSTAT: uint8 := 0x66
  const CMD_RSTAT: uint8 := 0x67
  const CMD_OUT: uint8 := 0x68
  const CMD_LED: uint8 := 0x69
  const CMD_BUZ: uint8 := 0x6A
  const CMD_TEXT: uint8 := 0x6B
  const CMD_COMSET: uint8 := 0x6E
  const CMD_KEYSET: uint8 := 0x75
  const CMD_CHLNG: uint8 := 0x76
  const CMD_SCRYPT: uint8 := 0x77
  const CMD_FILETRANSFER: uint8 := 0x7C
  const CMD_MFG: uint8 := 0x80
  const CMD_ABORT: uint8 := 0xA2

  const REPLY_INVALID: uint8 := 0x00
  const REPLY_ACK: uint8 := 0x40
  const REPLY_NAK: uint8 := 0x41
  const REPLY_PDID: uint8 := 0x45
  const REPLY_PDCAP: uint8 := 0x46
  const REPLY_LSTATR: uint8 := 0x48
  const REPLY_ISTATR: uint8 := 0x49
  const REPLY_OSTATR: uint8 := 0x4A
  const REPLY_RSTATR: uint8 := 0x4B
  const REPLY_RAW: uint8 := 0x50
  const REPLY_FMT: uint8 := 0x51
  const REPLY_KEYPAD: uint8 := 0x53
  const REPLY_COM: uint8 := 0x54
  const REPLY_CCRYPT: uint8 := 0x76
  const REPLY_RMAC_I: uint8 := 0x78
  const REPLY_BUSY: uint8 := 0x79
  const REPLY_FTSTAT: uint8 := 0x7A
  const REPLY_MFGREP: uint8 := 0x90

  const NAK_CMD_LEN: uint8 := 2
  const NAK_CMD_UNKNOWN: uint8 := 3
  const NAK_SEQ_NUM: uint8 := 4
  const NAK_SC_UNSUP: uint8 := 5
  const NAK_SC_COND: uint8 := 6
  const NAK_RECORD: uint8 := 9
}
