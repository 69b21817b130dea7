/** Packet types of the private framing (core/ipc_packet/IpcPktType.h). */
module IpcPktType {
  // The low byte says what a packet is, the 0x000f0000 bits where it comes from.
  const IPC_PKT_TYPE_HEARTBEAT := 0x1
  const IPC_PKT_TYPE_SUBSCRIBE_DEVICE_ID := 0x2
  const IPC_PKT_TYPE_UNSUBSCRIBE_DEVICE_ID := 0x3
  const IPC_PKT_TYPE_JT1078_PACKET := 0x4
  const IPC_PKT_FROM_JT1078_SERVER := 0x1_0000
  const IPC_PKT_FROM_WEB_SERVER := 0x2_0000
  const IPC_PKT_FROM_PC_SERVER := 0x3_0000

  /** One request written to an upstream server: its type and the device it names. */
  datatype Request = Request(pktType: nat, data: string)

  function TypeOf(pktType: nat): nat { pktType % 0x100 }
  function FromOf(pktType: nat): nat { pktType / 0x1_0000 % 0x10 * 0x1_0000 }
}
