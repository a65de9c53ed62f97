/** The bytes of the line protocol as the host library defines them, apart from the supervisor's. */
module HostWire {
  import opened Words

  const SOH: Byte := 0x01
  const STX: Byte := 0x02
  const EOT: Byte := 0x04
  const ENQ: Byte := 0x05
  const ACK: Byte := 0x06
  const NAK: Byte := 0x15
  const SYN: Byte := 0x16
}
