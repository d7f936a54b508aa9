/** Limits both ends of the wire agree on (include/network/protocol.hpp:68-97). */
module Protocol {
  const MAX_SIZE := 0x0200_0000
  const MAX_LOCATOR_SZ := 101
  const MAX_INV_SIZE := 50000
  const MAX_HEADERS_SIZE := 2000
  const MAX_ADDR_SIZE := 1000
  const MAX_SUBVERSION_LENGTH := 256
  const MESSAGE_HEADER_SIZE := 24
  const COMMAND_SIZE := 12
  const MAX_PROTOCOL_MESSAGE_LENGTH := 4_000_000
  const RECV_FLOOD_SIZE := 5_000_000
}
