/** The sizes of osdp_config.h.in. */
module Config {
  const PACKET_BUF_SIZE: nat := 256
  const RX_RB_SIZE: nat := 512
  const MINIMUM_PACKET_SIZE: nat := 128
  const CMD_MAX_RETRIES: nat := 8
}
