/** The HCI transport glue of port/nrf5-zephyr/main.c ("hci_transport_zephyr.c"):
    outbound packets from the host stack are copied into a buffer of one of two
    finite Zephyr pools and handed to the controller; inbound controller buffers
    are classified by type and passed to the one registered packet handler.
    The controller, the pools' internals and the handler are outside the model:
    the pools are counters of free buffers, and what reaches the controller, the
    handler and the error log is recorded in ghost logs. */
module HciTransport {

  /** uint8_t */
  newtype uint8 = x: int | 0 <= x < 0x100

  datatype Option<T> = None | Some(value: T)

  // HCI packet indicators of the UART transport layer (Bluetooth Core
  // Specification, Volume 4, Part A, section 2), as btstack names them.
  const HCI_COMMAND_DATA_PACKET: uint8 := 0x01
  const HCI_ACL_DATA_PACKET: uint8 := 0x02
  const HCI_EVENT_PACKET: uint8 := 0x04

  /** acl_tx_pool's size when CONFIG_BT_CTLR_TX_BUFFERS is not set. */
  const TX_BUF_COUNT: nat := 6

  /** The code main.c passes to send_hardware_error for a packet type it cannot send. */
  const INVALID_HCI_PACKET: uint8 := 0x01

  /** Zephyr's bt_buf_type: the type tag a net_buf carries. */
  datatype BufType = BufCmd | BufEvt | BufAclOut | BufAclIn

  /** A net_buf: its type tag and its bytes (`data`, `len`). */
  datatype NetBuf = NetBuf(kind: BufType, data: seq<uint8>)

  /** The function pointer registered as transport_packet_handler. */
  type HandlerId = nat

  /** One call transport_packet_handler(packet_type, packet, size); size is |packet|. */
  datatype HandlerCall = HandlerCall(handler: HandlerId, packetType: uint8, packet: seq<uint8>)

  /** The log_error calls of the transport. */
  datatype LogEntry = NoCommandBuffers | NoAclBuffers | UnknownType(kind: BufType)

  /** The HCI packet type under which an inbound buffer reaches the handler:
      ACL data in as ACL data, events as events, nothing else. */
  function InboundPacketType(kind: BufType): (t: Option<uint8>)
    ensures t.Some? <==> kind == BufAclIn || kind == BufEvt
    ensures t == Some(HCI_ACL_DATA_PACKET) <==> kind == BufAclIn
    ensures t == Some(HCI_EVENT_PACKET) <==> kind == BufEvt
  {
    match kind
    case BufAclIn => Some(HCI_ACL_DATA_PACKET)
    case BufEvt => Some(HCI_EVENT_PACKET)
    case _ => None
  }

  /** The handler calls that delivering `buf` makes: one for a known type, none otherwise. */
  function HandlerCallsFor(handler: Option<HandlerId>, buf: NetBuf): (calls: seq<HandlerCall>)
    requires InboundPacketType(buf.kind).Some? ==> handler.Some?
    ensures |calls| <= 1
    ensures |calls| == 1 <==> buf.kind == BufAclIn || buf.kind == BufEvt
    ensures forall c :: c in calls ==> c.handler == handler.value && c.packet == buf.data
                                       && Some(c.packetType) == InboundPacketType(buf.kind)
  {
    match InboundPacketType(buf.kind)
    case Some(t) => [HandlerCall(handler.value, t, buf.data)]
    case None => []
  }

  /** How many times main.c's transport_deliver_controller_packet calls
      net_buf_unref on `buf`, as written: once after the switch, and once more
      in its `default` branch. */
  function UnrefCountAsWritten(kind: BufType): nat
  {
    var inDefault := if InboundPacketType(kind).None? then 1 else 0;
    inDefault + 1
  }

  /** As written, `net_buf_unref` is called twice on a delivered buffer of a
      type other than ACL-in or event (lines 176 and 179), and once on the
      others. */
  lemma UnknownInboundTypeUnrefdTwice()
    ensures UnrefCountAsWritten(BufCmd) == 2 && UnrefCountAsWritten(BufAclOut) == 2
    ensures UnrefCountAsWritten(BufEvt) == 1 && UnrefCountAsWritten(BufAclIn) == 1
  {
  }

  /** The transport's global state: the registered handler and the two
      outbound pools cmd_tx_pool and acl_tx_pool. */
  class Transport {
    /** CONFIG_BT_HCI_CMD_COUNT buffers in cmd_tx_pool. */
    const cmdCapacity: nat
    /** TX_BUF_COUNT buffers in acl_tx_pool. */
    const aclCapacity: nat
    var cmdFree: nat
    var aclFree: nat
    /** transport_packet_handler; a static pointer, so initially null. */
    var handler: Option<HandlerId>

    /** Buffer types held by the controller, not yet given back to their pool. */
    ghost var inFlight: multiset<BufType>
    /** Every buffer handed to bt_send, in order. */
    ghost var sent: seq<NetBuf>
    /** Every call of send_hardware_error, with its error code. */
    ghost var hardwareErrors: seq<uint8>
    /** Every call of the registered packet handler, in order. */
    ghost var handlerCalls: seq<HandlerCall>
    /** Every inbound buffer given back with net_buf_unref, in order. */
    ghost var released: seq<NetBuf>
    /** Every log_error, in order. */
    ghost var log: seq<LogEntry>

    /** A buffer is either free in its pool or held by the controller, and only
        outbound buffers come from these pools. */
    ghost predicate Valid()
      reads this
    {
      && cmdFree + inFlight[BufCmd] == cmdCapacity
      && aclFree + inFlight[BufAclOut] == aclCapacity
      && inFlight[BufEvt] == 0 && inFlight[BufAclIn] == 0
    }

    /** Static initialisation: full pools, no handler, nothing sent yet. */
    constructor (cmdCount: nat, aclCount: nat)
      ensures Valid()
      ensures cmdCapacity == cmdCount && aclCapacity == aclCount
      ensures cmdFree == cmdCount && aclFree == aclCount && handler == None
      ensures inFlight == multiset{} && sent == [] && hardwareErrors == []
      ensures handlerCalls == [] && released == [] && log == []
    {
      cmdCapacity, aclCapacity := cmdCount, aclCount;
      cmdFree, aclFree := cmdCount, aclCount;
      handler := None;
      inFlight, sent, hardwareErrors := multiset{}, [], [];
      handlerCalls, released, log := [], [], [];
    }

    /** transport_register_packet_handler: the new handler replaces the old one. */
    method RegisterPacketHandler(h: HandlerId)
      requires Valid()
      modifies this
      ensures Valid()
      ensures handler == Some(h)
      ensures cmdFree == old(cmdFree) && aclFree == old(aclFree) && inFlight == old(inFlight)
      ensures sent == old(sent) && hardwareErrors == old(hardwareErrors)
      ensures handlerCalls == old(handlerCalls) && released == old(released) && log == old(log)
    {
      handler := Some(h);
    }

    /** transport_send_packet: commands take a cmd_tx_pool buffer, ACL data an
        acl_tx_pool buffer; the payload goes to the controller only if a buffer
        was free, otherwise the error is only logged. Any other type goes to
        send_hardware_error(0x01). The result is always 0. */
    method SendPacket(packetType: uint8, packet: seq<uint8>) returns (r: int)
      requires Valid()
      modifies this
      ensures Valid() && r == 0
      ensures handler == old(handler) && handlerCalls == old(handlerCalls) && released == old(released)
      ensures packetType == HCI_COMMAND_DATA_PACKET ==>
        && aclFree == old(aclFree) && hardwareErrors == old(hardwareErrors)
        && if old(cmdFree) > 0 then
             && cmdFree == old(cmdFree) - 1 && inFlight == old(inFlight) + multiset{BufCmd}
             && sent == old(sent) + [NetBuf(BufCmd, packet)] && log == old(log)
           else
             && cmdFree == 0 && inFlight == old(inFlight)
             && sent == old(sent) && log == old(log) + [NoCommandBuffers]
      ensures packetType == HCI_ACL_DATA_PACKET ==>
        && cmdFree == old(cmdFree) && hardwareErrors == old(hardwareErrors)
        && if old(aclFree) > 0 then
             && aclFree == old(aclFree) - 1 && inFlight == old(inFlight) + multiset{BufAclOut}
             && sent == old(sent) + [NetBuf(BufAclOut, packet)] && log == old(log)
           else
             && aclFree == 0 && inFlight == old(inFlight)
             && sent == old(sent) && log == old(log) + [NoAclBuffers]
      ensures packetType != HCI_COMMAND_DATA_PACKET && packetType != HCI_ACL_DATA_PACKET ==>
        && cmdFree == old(cmdFree) && aclFree == old(aclFree) && inFlight == old(inFlight)
        && sent == old(sent) && log == old(log)
        && hardwareErrors == old(hardwareErrors) + [INVALID_HCI_PACKET]
    {
      if packetType == HCI_COMMAND_DATA_PACKET {
        if cmdFree > 0 {
          cmdFree := cmdFree - 1;
          inFlight := inFlight + multiset{BufCmd};
          sent := sent + [NetBuf(BufCmd, packet)];
        } else {
          log := log + [NoCommandBuffers];
        }
      } else if packetType == HCI_ACL_DATA_PACKET {
        if aclFree > 0 {
          aclFree := aclFree - 1;
          inFlight := inFlight + multiset{BufAclOut};
          sent := sent + [NetBuf(BufAclOut, packet)];
        } else {
          log := log + [NoAclBuffers];
        }
      } else {
        // send_hardware_error's body is commented out in main.c: the call has no effect
        hardwareErrors := hardwareErrors + [INVALID_HCI_PACKET];
      }
      r := 0;
    }

    /** The controller has finished with an outbound buffer and it returns to
        its pool (net_buf_unref inside Zephyr). */
    method ControllerFreed(kind: BufType)
      requires Valid() && kind in inFlight
      modifies this
      ensures Valid()
      ensures inFlight == old(inFlight) - multiset{kind}
      ensures cmdFree == old(cmdFree) + (if kind == BufCmd then 1 else 0)
      ensures aclFree == old(aclFree) + (if kind == BufAclOut then 1 else 0)
      ensures handler == old(handler) && sent == old(sent) && hardwareErrors == old(hardwareErrors)
      ensures handlerCalls == old(handlerCalls) && released == old(released) && log == old(log)
    {
      inFlight := inFlight - multiset{kind};
      if kind == BufCmd {
        cmdFree := cmdFree + 1;
      } else {
        aclFree := aclFree + 1;
      }
    }

    /** transport_deliver_controller_packet: ACL data and events go to the
        registered handler exactly once, tagged with their HCI packet type;
        any other type is logged and never reaches the handler. The buffer is
        released once. (main.c releases a buffer of unknown type twice; see
        UnrefCountAsWritten.) */
    method DeliverControllerPacket(buf: NetBuf)
      requires Valid()
      requires InboundPacketType(buf.kind).Some? ==> handler.Some?
      modifies this
      ensures Valid()
      ensures handlerCalls == old(handlerCalls) + HandlerCallsFor(old(handler), buf)
      ensures released == old(released) + [buf]
      ensures log == old(log) + (if InboundPacketType(buf.kind).None? then [UnknownType(buf.kind)] else [])
      ensures handler == old(handler) && cmdFree == old(cmdFree) && aclFree == old(aclFree)
      ensures inFlight == old(inFlight) && sent == old(sent) && hardwareErrors == old(hardwareErrors)
    {
      match buf.kind {
        case BufAclIn =>
          handlerCalls := handlerCalls + [HandlerCall(handler.value, HCI_ACL_DATA_PACKET, buf.data)];
        case BufEvt =>
          handlerCalls := handlerCalls + [HandlerCall(handler.value, HCI_EVENT_PACKET, buf.data)];
        case _ =>
          log := log + [UnknownType(buf.kind)];
      }
      released := released + [buf];
    }
  }

  /** With N free command buffers, N command sends all reach the controller,
      the next one is only logged, and the ACL pool is untouched throughout. */
  method PoolExhaustion(cmdCount: nat, payload: seq<uint8>) returns (t: Transport)
    ensures t.Valid() && t.cmdFree == 0 && t.aclFree == TX_BUF_COUNT
    ensures |t.sent| == cmdCount && t.log == [NoCommandBuffers]
  {
    t := new Transport(cmdCount, TX_BUF_COUNT);
    var i := 0;
    while i < cmdCount
      invariant 0 <= i <= cmdCount
      invariant t.Valid() && t.cmdFree == cmdCount - i && t.aclFree == TX_BUF_COUNT
      invariant |t.sent| == i && t.log == []
    {
      var _ := t.SendPacket(HCI_COMMAND_DATA_PACKET, payload);
      i := i + 1;
    }
    var _ := t.SendPacket(HCI_COMMAND_DATA_PACKET, payload);
  }
}
