/** The framing bytes, command codes and timer periods of the telemetry protocol. */
module Constants {
  import opened Bytes

  /** Start of a frame. */
  const STX: byte := 0x02
  /** End of a frame. */
  const ETX: byte := 0x03
  /** Marker required right after a record's name. */
  const DNE: byte := 0x04
  /** Marker required right after a record's value. */
  const DVE: byte := 0x05

  const CMD_STOP: byte := 1
  const CMD_CONN: byte := 2
  const CMD_PING: byte := 3

  /** Milliseconds between pings while connected. */
  const PING_TIMEOUT: int := 1000
  /** Milliseconds of silence after which the device counts as disconnected. */
  const PACKET_TIMEOUT: int := 2500
}
