/** A CRTP packet: a 4-bit port, a 2-bit channel, a payload length and the payload bytes.
    Packets are values: the stack copies them in and out of its queues. */
module CrtpPacket {

  import opened Uint

  const NbrOfPorts: nat := 16
  /** CRTP_MAX_DATA_SIZE, the largest payload a packet may carry. */
  const MaxDataSize: nat := 30

  /** The 4-bit port field of the header. */
  type PortId = x: int | 0 <= x < 16
  /** The 2-bit channel field of the header. */
  type Channel = x: int | 0 <= x < 4

  datatype Packet = Packet(port: PortId, channel: Channel, size: u8, data: seq<u8>)

  /** What crtpSendPacket asserts of every packet handed to it. */
  predicate WellSized(p: Packet) {
    p.size <= MaxDataSize
  }
}
