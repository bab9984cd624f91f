/** The values that travel between the components: endpoints, packets and received packets. */
module Types {
  import opened Words

  datatype Option<+T> = None | Some(value: T)

  datatype Endpoint = Endpoint(address: string, port: uint16)

  datatype MessageType = Imu | Gnss | CameraMeta

  datatype PacketHeader = PacketHeader(
    magic: uint32,
    version: uint16,
    messageType: MessageType,
    sequenceNumber: uint64,
    sourceTimestamp: uint64,
    payloadLength: uint32,
    crc: uint32)

  datatype Packet = Packet(header: PacketHeader, payload: seq<byte>)

  datatype ReceivedPacket = ReceivedPacket(
    packet: Packet,
    source: Endpoint,
    listener: Endpoint,
    receiveTimestamp: uint64)

  /** `kMaxPayloadSize`: what fits a datagram besides the packet header. */
  const MAX_PAYLOAD := 65_475

  /** The answers of a stop predicate that stay true once they were true, as with a flag that a signal
      handler sets. */
  ghost predicate Sticky(answers: nat -> bool) {
    forall i: nat, j: nat :: i <= j && answers(i) ==> answers(j)
  }
}
