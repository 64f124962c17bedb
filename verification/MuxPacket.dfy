/** The packets the input pins hand to the interleaver and the interleaver hands to the writer. */
module MuxPacket {
  import opened BigEndian

  /** A CMuxInterPacket: times in units of 100 ns. */
  datatype Packet = Packet(
    streamNo: int,
    rtStart: int,
    rtStop: int,
    timestampEx: bool,
    pts: int,
    dts: int,
    syncPoint: bool,
    isEos: bool,
    data: Bytes)
}
