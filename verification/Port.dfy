/** A port of the agent: the two machines, the neighbour cache, and the frame buffers, updated in place.
    Every method is tied to the step functions of `RxSpec` and `TxSpec`. */
module Port {
  import opened Bytes
  import LinkedList
  import opened TlvFormat
  import opened TlvBuild
  import Parser
  import opened Neighbours
  import opened MsapCache
  import opened RxSpec
  import opened TxSpec

  /** The static address array: its first three bytes never change, the last is the cursor. */
  class AddressPool {
    var last: byte

    constructor ()
      ensures last == 30
    {
      last := 30;
    }

    method Advance()
      modifies this
      ensures last == NextCursor(old(last))
    {
      last := (last + 1) % 256;
      if last == 255 || last == 0 {
        last := (last + 1) % 256;
      }
    }
  }

  /** What a port has put on the wire, and the fields that its next frames depend on. */
  datatype Outbox = Outbox(sent: seq<seq<byte>>, sendsize: nat, slaveip: Ipv4, slavemac: Mac)

  /** The outbox after a transmit run with this emission. */
  function Emitted(p: PortIdentity, ws: seq<WifiPort>, b: Outbox, emission: Emission): Outbox
    requires p.Encodable()
  {
    match emission
    case Silent => b
    case SendInfo(ttl) =>
      var f := InfoFrame(p, ttl, ws);
      b.(sent := b.sent + [f], sendsize := |f|)
    case SendShutdown => b.(sent := b.sent + [Zeros(b.sendsize)])
  }

  /** The outbox after a receive run that assigned `a`: the address has gone to its neighbour's MAC. */
  function Assigned(p: PortIdentity, ttl: u16, ws: seq<WifiPort>, b: Outbox, a: Option<Assignment>): Outbox
    requires p.Encodable()
  {
    if a.Some? && |a.value.id| >= 6 then
      var f := SetIpFrame(p, ttl, ws, a.value.id[..6], a.value.ip);
      Outbox(b.sent + [f], |f|, a.value.ip, a.value.id[..6])
    else b
  }

  /** A transmit buffer of `room` bytes holds an information frame. */
  predicate InfoFits(p: PortIdentity, ws: seq<WifiPort>, room: nat) {
    89 + 2 * |p.ifName| + |p.sysName| + |p.sysDesc| + 13 * |ws| <= room
  }

  /** It holds a set-IP frame, with its padding. */
  predicate SetIpFits(p: PortIdentity, ws: seq<WifiPort>, room: nat) {
    Max(MIN_FRAME_SIZE, 42 + |p.ifName| + 13 * |ws|) <= room
  }

  /** Sending the assigned address reads the MAC, six bytes of the id, and fills the transmit buffer. */
  predicate Sendable(p: PortIdentity, ws: seq<WifiPort>, room: nat, a: Option<Assignment>) {
    a.Some? ==> |a.value.id| >= 6 && SetIpFits(p, ws, room)
  }

  /** The receive buffer after a run that ends in `state`: RX_FRAME clears the bytes received. */
  function Cleared(state: RxState, buffer: seq<byte>, recvsize: nat): (buffer': seq<byte>)
    requires recvsize <= |buffer|
    ensures |buffer'| == |buffer|
  {
    if state == RxFrame then Zeros(recvsize) + buffer[recvsize..] else buffer
  }

  /** What a read of the socket returns: the bytes of a frame, possibly none, or -1. */
  datatype Read = Got(bytes: seq<byte>) | Failed

  class LldpPort {
    const identity: PortIdentity
    const devRole: int
    const rxFrame: array<byte>
    const txFrame: array<byte>
    const msapCache: MsapList

    var portEnabled: bool
    var adminStatus: AdminStatus
    var slaveip: Ipv4
    var slavemac: Mac

    var rxState: RxState
    var rcvFrame: bool
    var rxInfoAge: bool
    var changedRemote: bool
    var rxTTL: nat
    var rxChanges: bool
    var recvsize: int

    var txState: TxState
    var changedLocal: bool
    var txTTL: u16
    var reinitDelay: u16
    var msgTxHold: u16
    var msgTxInterval: u16
    var txDelay: u16
    var txTTR: u16
    var txShutdownWhile: u16
    var txDelayWhile: u16
    var sendsize: nat

    /** Every frame handed to the socket, in order. */
    ghost var sent: seq<seq<byte>>

    ghost function RxView(): ListRx
      reads this`rxState, this`rcvFrame, this`rxInfoAge, this`changedRemote, this`rxTTL, this`rxChanges
      reads msapCache`contents
    {
      Rx(rxState, rcvFrame, rxInfoAge, changedRemote, rxTTL, rxChanges, msapCache.contents)
    }

    ghost function TxView(): Tx
      reads this`txState, this`changedLocal, this`txTTL, this`reinitDelay, this`msgTxHold, this`msgTxInterval
      reads this`txDelay, this`txTTR, this`txShutdownWhile, this`txDelayWhile
    {
      Tx(txState, changedLocal, txTTL, reinitDelay, msgTxHold, msgTxInterval, txDelay, txTTR, txShutdownWhile,
         txDelayWhile)
    }

    ghost function Wire(): Outbox
      reads this`sent, this`sendsize, this`slaveip, this`slavemac
    {
      Outbox(sent, sendsize, slaveip, slavemac)
    }

    /** Between sends the transmit buffer is all zero. */
    ghost predicate Valid()
      reads this`recvsize, this`sendsize, msapCache, msapCache.repr, txFrame
    {
      && msapCache.Valid()
      && rxFrame != txFrame && rxFrame.Length < 0x1_0000 && -1 <= recvsize <= rxFrame.Length
      && identity.Encodable() && sendsize <= txFrame.Length && txFrame[..] == Zeros(txFrame.Length)
    }

    /** A port as `initialize_lldp` sets it up, before its first frame. */
    constructor (identity: PortIdentity, devRole: int, mtu: nat)
      requires identity.Encodable() && 4 <= mtu < 0x1_0000
      ensures Valid() && fresh(msapCache) && msapCache.repr == {} && fresh(rxFrame) && fresh(txFrame) && sent == []
      ensures this.identity == identity && this.devRole == devRole
      ensures rxFrame.Length == mtu - 4 && txFrame.Length == mtu - 2
      ensures RxView() == Rx(WaitPortOperational, false, false, false, 0, false, [])
      ensures !portEnabled && adminStatus == EnabledRxTx
      ensures TxView() == TX_BOOT
      ensures rxFrame[..] == Zeros(mtu - 4) && recvsize == 0
      ensures Wire() == Outbox([], 0, [0, 0, 0, 0], [0, 0, 0, 0, 0, 0])
    {
      this.identity, this.devRole := identity, devRole;
      rxFrame := new byte[mtu - 4](_ => 0);
      txFrame := new byte[mtu - 2](_ => 0);
      msapCache := new LinkedList.List();
      portEnabled, adminStatus := false, EnabledRxTx;
      slaveip, slavemac := [0, 0, 0, 0], [0, 0, 0, 0, 0, 0];
      rxState, rcvFrame, rxInfoAge, changedRemote := WaitPortOperational, false, false, false;
      rxTTL, rxChanges, recvsize := 0, false, 0;
      txState, changedLocal, txTTL := TxInitialize, false, 0;
      reinitDelay, msgTxHold, msgTxInterval, txDelay := 2, 4, 5, 2;
      txTTR, txShutdownWhile, txDelayWhile, sendsize := 0, 0, 0, 0;
      sent := [];
      new;
      assert txFrame[..] == Zeros(txFrame.Length) && rxFrame[..] == Zeros(rxFrame.Length);
    }

    // -------- building and sending frames --------

    method AddMandatoryTlvs(list: TlvList)
      requires list.Valid()
      modifies list, list.repr
      ensures list.Valid() && fresh(list.repr - old(list.repr))
      ensures list.contents == old(list.contents) + MandatoryTlvs(identity, txTTL)
    {
      var t := CreateChassisIdTlv(identity);
      AddTlv(Some(t), list);
      t := CreatePortIdTlv(identity);
      AddTlv(Some(t), list);
      t := CreateTtlTlv(txTTL);
      AddTlv(Some(t), list);
    }

    method AddDescriptionTlvs(list: TlvList)
      requires list.Valid()
      modifies list, list.repr
      ensures list.Valid() && fresh(list.repr - old(list.repr))
      ensures list.contents == old(list.contents) +
        [PortDescriptionTlv(identity), SystemNameTlv(identity), SystemDescriptionTlv(identity)]
    {
      var t := CreatePortDescriptionTlv(identity);
      AddTlv(Some(t), list);
      t := CreateSystemNameTlv(identity);
      AddTlv(Some(t), list);
      t := CreateSystemDescriptionTlv(identity);
      AddTlv(Some(t), list);
    }

    method AddSystemTlvs(list: TlvList)
      requires list.Valid()
      modifies list, list.repr
      ensures list.Valid() && fresh(list.repr - old(list.repr))
      ensures list.contents == old(list.contents) + SystemTlvs(identity)
    {
      AddDescriptionTlvs(list);
      var t := CreateSystemCapabilitiesTlv();
      AddTlv(Some(t), list);
      t := CreateManagementAddressTlv(identity);
      AddTlv(Some(t), list);
    }

    method AddVendorTlvs(list: TlvList)
      requires list.Valid()
      modifies list, list.repr
      ensures list.Valid() && fresh(list.repr - old(list.repr))
      ensures list.contents == old(list.contents) + VendorTlvs(identity)
    {
      var t := CreateDunchongTlv();
      AddTlv(Some(t), list);
      t := CreateDunchongIpaddrTlv(identity);
      AddTlv(Some(t), list);
      t := CreateRoleTlv(identity);
      AddTlv(Some(t), list);
    }

    method AddOptionalTlvs(list: TlvList)
      requires list.Valid()
      modifies list, list.repr
      ensures list.Valid() && fresh(list.repr - old(list.repr))
      ensures list.contents == old(list.contents) + SystemTlvs(identity) + VendorTlvs(identity)
    {
      AddSystemTlvs(list);
      AddVendorTlvs(list);
    }

    method InfoTlvList(ws: seq<WifiPort>) returns (list: TlvList)
      ensures fresh(list) && list.Valid() && list.contents == InfoTlvs(identity, txTTL, ws) + [END_TLV]
    {
      list := new LinkedList.List();
      AddMandatoryTlvs(list);
      assert list.contents == MandatoryTlvs(identity, txTTL);
      AddOptionalTlvs(list);
      AddWifiTlvs(ws, list);
      var t := CreateEndOfLldpPduTlv();
      AddTlv(Some(t), list);
    }

    method SetIpTlvList(ws: seq<WifiPort>) returns (list: TlvList)
      ensures fresh(list) && list.Valid() && list.contents == SetIpTlvs(identity, txTTL, ws, slaveip) + [END_TLV]
    {
      list := new LinkedList.List();
      AddMandatoryTlvs(list);
      assert list.contents == MandatoryTlvs(identity, txTTL);
      AddWifiTlvs(ws, list);
      var t := CreateSlaveIpaddrTlv(slaveip);
      AddTlv(Some(t), list);
      t := CreateEndOfLldpPduTlv();
      AddTlv(Some(t), list);
    }

    /** Header and flattened TLVs, one behind the other. Returns false when that leaves the buffer. */
    method WriteBody(dst: Mac, list: TlvList) returns (ok: bool, frameOffset: nat)
      requires list.Valid() && AllFit(list.contents) && txFrame[..] == Zeros(txFrame.Length)
      modifies txFrame
      ensures var body := EthHeader(dst, identity.mac) + FlattenAll(list.contents);
        && (ok <==> |body| <= txFrame.Length)
        && (ok ==> frameOffset == |body| && txFrame[..] == body + Zeros(txFrame.Length - |body|))
    {
      if txFrame.Length < ETH_HEADER_SIZE {
        return false, 0;
      }
      var header := dst + identity.mac + ETHERTYPE_LLDP;
      Memcpy(txFrame, 0, header);
      ghost var was := txFrame[..];
      assert was == header + Zeros(txFrame.Length - ETH_HEADER_SIZE);
      ok, frameOffset := WriteTlvs(list, txFrame, ETH_HEADER_SIZE);
      assert ok ==> was[frameOffset..] == Zeros(txFrame.Length - frameOffset);
    }

    /** A whole frame and the size handed to the socket, padding included. Returns false when it leaves the
        buffer. */
    method BuildFrame(dst: Mac, list: TlvList, ghost ts: seq<Tlv>) returns (ok: bool)
      requires list.Valid() && list.contents == ts + [END_TLV] && AllFit(ts)
      requires txFrame[..] == Zeros(txFrame.Length)
      modifies txFrame, this`sendsize
      ensures var frame := Padded(FrameBody(dst, identity.mac, ts));
        && (ok <==> |frame| <= txFrame.Length)
        && (ok ==> sendsize == |frame| && txFrame[..] == frame + Zeros(txFrame.Length - sendsize))
    {
      var frameOffset: nat;
      ok, frameOffset := WriteBody(dst, list);
      if ok {
        sendsize := if frameOffset < MIN_FRAME_SIZE then MIN_FRAME_SIZE else frameOffset;
        ok := sendsize <= txFrame.Length;
      }
    }

    /** `mibConstrInfoLLDPDU`: an information frame in a clean buffer, if it fits. */
    method ConstrInfoLldpdu(ws: seq<WifiPort>) returns (ok: bool)
      requires Valid()
      modifies txFrame, this`sendsize
      ensures ok <==> InfoFits(identity, ws, txFrame.Length)
      ensures ok ==> sendsize == |InfoFrame(identity, txTTL, ws)| <= txFrame.Length
      ensures ok ==> txFrame[..] == InfoFrame(identity, txTTL, ws) + Zeros(txFrame.Length - sendsize)
    {
      BuiltTlvsFit(identity, txTTL, ws, slaveip);
      InfoFrameSize(identity, txTTL, ws);
      var list := InfoTlvList(ws);
      ok := BuildFrame(BROADCAST, list, InfoTlvs(identity, txTTL, ws));
    }

    /** `config_ip_for_slave`: a set-IP frame in a clean buffer, if it fits. */
    method ConfigIpForSlave(ws: seq<WifiPort>) returns (ok: bool)
      requires Valid()
      modifies txFrame, this`sendsize
      ensures ok <==> SetIpFits(identity, ws, txFrame.Length)
      ensures ok ==> sendsize == |SetIpFrame(identity, txTTL, ws, slavemac, slaveip)| <= txFrame.Length
      ensures ok ==>
        txFrame[..] == SetIpFrame(identity, txTTL, ws, slavemac, slaveip) + Zeros(txFrame.Length - sendsize)
    {
      BuiltTlvsFit(identity, txTTL, ws, slaveip);
      SetIpFrameSize(identity, txTTL, ws, slavemac, slaveip);
      var list := SetIpTlvList(ws);
      ok := BuildFrame(slavemac, list, SetIpTlvs(identity, txTTL, ws, slaveip));
    }

    /** Hands the frame to the socket and clears the bytes sent. */
    method SendFrame(ghost frame: seq<byte>)
      requires sendsize == |frame| <= txFrame.Length && txFrame[..] == frame + Zeros(txFrame.Length - sendsize)
      modifies txFrame, this`sent
      ensures sent == old(sent) + [frame] && txFrame[..] == Zeros(txFrame.Length)
    {
      assert txFrame[..sendsize] == frame;
      sent := sent + [txFrame[..sendsize]];
      MemsetZero(txFrame, sendsize);
    }

    // -------- the transmit machine --------

    method TxChangeToState(state: TxState)
      modifies this`txState, this`txTTL, this`txTTR, this`changedLocal, this`txDelayWhile
      ensures TxView() == Enter(old(TxView()), state)
    {
      if state == TxIdle {
        txTTL := Min(65535, (msgTxInterval * msgTxHold) % 0x1_0000);
        txTTR := msgTxInterval;
        changedLocal := false;
        txDelayWhile := txDelay;
      }
      txState := state;
    }

    method TxGlobalStatemachineRun()
      modifies this`txState, this`txTTL, this`txTTR, this`changedLocal, this`txDelayWhile, this`portEnabled
      ensures portEnabled
      ensures TxView() == TransitTx(old(TxView()), old(portEnabled), adminStatus)
    {
      if !portEnabled {
        portEnabled := true;
        TxChangeToState(TxInitialize);
      }
      match txState {
        case TxInitialize =>
          if adminStatus == EnabledRxTx || adminStatus == EnabledTxOnly {
            TxChangeToState(TxIdle);
          }
        case TxIdle =>
          if adminStatus == Disabled || adminStatus == EnabledRxOnly {
            TxChangeToState(TxShutdownFrame);
          } else if txDelayWhile == 0 && (txTTR == 0 || changedLocal) {
            TxChangeToState(TxInfoFrame);
          }
        case TxShutdownFrame =>
          if txShutdownWhile == 0 {
            TxChangeToState(TxInitialize);
          }
        case TxInfoFrame =>
          TxChangeToState(TxIdle);
      }
    }

    method TxInitializeLldp()
      modifies this`changedLocal, this`reinitDelay, this`msgTxHold, this`msgTxInterval, this`txDelay,
               this`txShutdownWhile
      ensures TxView() == old(TxView()).(changedLocal := false, reinitDelay := 2, msgTxHold := 4, msgTxInterval := 5,
                                         txDelay := 2, txShutdownWhile := 0)
    {
      changedLocal := false;
      reinitDelay, msgTxHold, msgTxInterval, txDelay := 2, 4, 5, 2;
      txShutdownWhile := 0;
    }

    method DoTxInfoFrame(ws: seq<WifiPort>) returns (alive: bool)
      requires Valid()
      modifies txFrame, this`sendsize, this`sent
      ensures alive <==> InfoFits(identity, ws, txFrame.Length)
      ensures alive ==> Valid() && Wire() == Emitted(identity, ws, old(Wire()), SendInfo(txTTL))
    {
      alive := ConstrInfoLldpdu(ws);
      if alive {
        SendFrame(InfoFrame(identity, txTTL, ws));
      }
    }

    method DoTxSetIpFrame(ws: seq<WifiPort>) returns (alive: bool)
      requires Valid()
      modifies txFrame, this`sendsize, this`sent
      ensures alive <==> SetIpFits(identity, ws, txFrame.Length)
      ensures alive ==> Valid() && sent == old(sent) + [SetIpFrame(identity, txTTL, ws, slavemac, slaveip)]
      ensures alive ==> sendsize == |SetIpFrame(identity, txTTL, ws, slavemac, slaveip)|
    {
      alive := ConfigIpForSlave(ws);
      if alive {
        SendFrame(SetIpFrame(identity, txTTL, ws, slavemac, slaveip));
      }
    }

    /** `validate_end_of_lldp_pdu_tlv`: zero means valid. */
    function ValidateEndOfLldpPduTlv(t: Tlv): int {
      if ValidLength(t) then 0 else -1
    }

    /** The shutdown action. Its validity test is inverted, so the End TLV is never copied: what goes out is as
        many zero bytes as the previous frame had. The timer is reloaded on every run. */
    method DoTxShutdownFrame()
      requires Valid()
      modifies txFrame, this`sent, this`txShutdownWhile
      ensures Valid() && Wire() == Emitted(identity, [], old(Wire()), SendShutdown)
      ensures TxView() == old(TxView()).(txShutdownWhile := reinitDelay)
    {
      var endTlv := CreateEndOfLldpPduTlv();
      assert ValidateEndOfLldpPduTlv(endTlv) == 0;  // so the branch that copies the TLV is not taken
      assert txFrame[..] == Zeros(sendsize) + Zeros(txFrame.Length - sendsize);
      SendFrame(Zeros(sendsize));
      txShutdownWhile := reinitDelay;
    }

    method TxUpdateTimers()
      modifies this`txShutdownWhile, this`txDelayWhile, this`txTTR
      ensures TxView() == TickTx(old(TxView()))
    {
      if txShutdownWhile > 0 {
        txShutdownWhile := txShutdownWhile - 1;
      }
      if txDelayWhile > 0 {
        txDelayWhile := txDelayWhile - 1;
      }
      if txTTR > 0 {
        txTTR := txTTR - 1;
      }
    }

    method TxAction(ws: seq<WifiPort>) returns (alive: bool)
      requires Valid()
      modifies this`changedLocal, this`reinitDelay, this`msgTxHold, this`msgTxInterval, this`txDelay,
               this`txShutdownWhile, this`sendsize, this`sent, txFrame
      ensures alive <==> (txState == TxInfoFrame ==> InfoFits(identity, ws, txFrame.Length))
      ensures alive ==>
        && Valid() && TxView() == ActTx(old(TxView())).0
        && Wire() == Emitted(identity, ws, old(Wire()), ActTx(old(TxView())).1)
    {
      alive := true;
      match txState {
        case TxInitialize => TxInitializeLldp();
        case TxIdle =>
        case TxShutdownFrame => DoTxShutdownFrame();
        case TxInfoFrame => alive := DoTxInfoFrame(ws);
      }
    }

    method TxActAndTick(ws: seq<WifiPort>) returns (alive: bool)
      requires Valid()
      modifies this`changedLocal, this`reinitDelay, this`msgTxHold, this`msgTxInterval, this`txDelay, this`txTTR,
               this`txShutdownWhile, this`txDelayWhile, this`sendsize, this`sent, txFrame
      ensures var o := ActAndTickTx(old(TxView()));
        && (alive <==> (o.emission.SendInfo? ==> InfoFits(identity, ws, txFrame.Length)))
        && (alive ==> Valid() && TxView() == o.tx && Wire() == Emitted(identity, ws, old(Wire()), o.emission))
    {
      alive := TxAction(ws);
      if alive {
        TxUpdateTimers();
      }
    }

    /** One run of the transmit machine. It goes wrong exactly when it sends an information frame longer than the
        buffer. Otherwise the state is the specification's, exactly the frames of its emission are sent, and the
        buffer is clean again, as `Valid` says. The receive side is outside its frame. */
    method TxStatemachineRun(ws: seq<WifiPort>) returns (alive: bool)
      requires Valid()
      modifies this`txState, this`changedLocal, this`txTTL, this`reinitDelay, this`msgTxHold, this`msgTxInterval,
               this`txDelay, this`txTTR, this`txShutdownWhile, this`txDelayWhile, this`portEnabled, this`sendsize,
               this`sent, txFrame
      ensures portEnabled
      ensures var o := RunTx(old(TxView()), old(portEnabled), adminStatus);
        && (alive <==> (o.emission.SendInfo? ==> InfoFits(identity, ws, txFrame.Length)))
        && (alive ==> Valid() && TxView() == o.tx && Wire() == Emitted(identity, ws, old(Wire()), o.emission))
    {
      TxGlobalStatemachineRun();
      alive := TxActAndTick(ws);
    }

    /** The first frame goes out before the machines start. */
    method Announce(ws: seq<WifiPort>) returns (alive: bool)
      requires Valid()
      modifies this, txFrame
      ensures alive <==> InfoFits(identity, ws, txFrame.Length)
      ensures RxView() == old(RxView()) && portEnabled == old(portEnabled) && recvsize == old(recvsize)
      ensures TxView() == Enter(old(TxView()), TxIdle)
      ensures alive ==>
        && Valid()
        && Wire() == Emitted(identity, ws, old(Wire()), SendInfo(Advertised(old(msgTxInterval), old(msgTxHold))))
    {
      TxChangeToState(TxIdle);
      alive := DoTxInfoFrame(ws);
    }

    // -------- the receive machine --------

    /** `lldp_read`: the bytes overwrite the front of the buffer, and recvsize is their number, or -1. The socket
        hands over up to `mtu` bytes and the buffer has four fewer; returns false, with nothing written here, when
        there are more than that. */
    method ReadSocket(read: Read) returns (ok: bool)
      requires Valid()
      modifies rxFrame, this`recvsize
      ensures Valid()
      ensures ok <==> read.Got? ==> |read.bytes| <= rxFrame.Length
      ensures rxFrame[..] == if ok && read.Got? then read.bytes + old(rxFrame[|read.bytes|..]) else old(rxFrame[..])
      ensures recvsize == if !ok then old(recvsize) else if read.Got? then |read.bytes| else -1
    {
      match read
      case Failed =>
        ok, recvsize := true, -1;
      case Got(frame) =>
        ok := |frame| <= rxFrame.Length;
        if ok {
          Memcpy(rxFrame, 0, frame);
          recvsize := |frame|;
        }
    }

    /** The transition. It dumps the received bytes on the way, and the dump copies `recvsize % 16` of them at its
        end: after a failed read that is -1, as a size the largest there is, which leaves every buffer. */
    method RxGlobalStatemachineRun() returns (alive: bool)
      modifies this`rxState
      ensures alive <==> recvsize >= 0
      ensures alive ==>
        RxView() == old(RxView()).(state := Transition(old(RxView()), portEnabled, adminStatus))
    {
      if !rxInfoAge && !portEnabled {
        rxState := WaitPortOperational;
      }
      alive := recvsize >= 0;
      if !alive {
        return;
      }
      match rxState {
        case WaitPortOperational =>
          if rxInfoAge {
            rxState := DeleteAgedInfo;
          } else if portEnabled {
            rxState := RxInitialize;
          }
        case DeleteAgedInfo => rxState := WaitPortOperational;
        case RxInitialize =>
          if adminStatus == EnabledRxTx || adminStatus == EnabledRxOnly {
            rxState := WaitForFrame;
          }
        case WaitForFrame =>
          if rxInfoAge {
            rxState := DeleteInfo;
          } else if rcvFrame {
            rxState := RxFrame;
          }
        case DeleteInfo => rxState := WaitForFrame;
        case RxFrame =>
          if rxTTL == 0 {
            rxState := DeleteInfo;
          } else if rxTTL != 0 && rxChanges {
            rxState := UpdateInfo;
          } else {
            rxState := WaitForFrame;
          }
        case UpdateInfo => rxState := WaitForFrame;
      }
    }

    /** Writes the address into the neighbour's entry, and address and MAC into the port for the next frame. */
    method NoteAddress(ip: Ipv4, msap: MsapNode, ghost i: nat)
      requires Valid()
      requires i < |msapCache.nodes| && msap == msapCache.nodes[i] && |msap.data.id| >= 6
      modifies this`slaveip, this`slavemac, msapCache`contents, msap`data
      ensures var e := old(msapCache.contents)[i];
        && Valid() && msapCache.contents == old(msapCache.contents)[i := e.(ip := ip, hasIp := true)]
        && slaveip == ip && |e.id| >= 6 && slavemac == e.id[..6]
    {
      slaveip := ip;
      slavemac := msap.data.id[..6];
      msapCache.Store(msap, msap.data.(ip := ip, hasIp := true), i);
    }

    /** Assigns the pool's next address to a neighbour without one, and sends it the address. Returns false when
        the frame leaves the buffer. */
    method AssignAddress(pool: AddressPool, msap: MsapNode, ghost i: nat, ws: seq<WifiPort>) returns (alive: bool)
      requires Valid()
      requires i < |msapCache.nodes| && msap == msapCache.nodes[i] && |msap.data.id| >= 6
      modifies this`slaveip, this`slavemac, this`sendsize, this`sent, txFrame, pool, msapCache, msapCache.repr
      ensures alive <==> SetIpFits(identity, ws, txFrame.Length)
      ensures var e, ip := old(msapCache.contents)[i], AddressAt(old(pool.last));
        alive ==>
          && Valid() && pool.last == NextCursor(old(pool.last)) && msapCache.repr == old(msapCache.repr)
          && msapCache.contents == old(msapCache.contents)[i := e.(ip := ip, hasIp := true)]
          && |e.id| >= 6 && Wire() == Assigned(identity, txTTL, ws, old(Wire()), Some(Assignment(e.id, ip)))
    {
      NoteAddress(AddressAt(pool.last), msap, i);
      alive := DoTxSetIpFrame(ws);
      if alive {
        pool.Advance();
      }
    }

    /** On a master, a slave's entry without an address is given one. Returns false when the entry's id is too
        short for its MAC to be read, or the frame leaves the buffer. */
    method AllocateIfNew(pool: AddressPool, msap: MsapNode, ghost i: nat, role: int, ws: seq<WifiPort>)
      returns (alive: bool)
      requires Valid() && i < |msapCache.nodes| && msap == msapCache.nodes[i]
      modifies this`slaveip, this`slavemac, this`sendsize, this`sent, txFrame, pool, msapCache, msapCache.repr
      ensures var e, ip := old(msapCache.contents)[i], AddressAt(old(pool.last));
        var allocates := Allocates(devRole, role, e);
        var a := if allocates then Some(Assignment(e.id, ip)) else None;
        && (alive <==> Sendable(identity, ws, txFrame.Length, a))
        && (alive ==>
              && Valid() && msapCache.repr == old(msapCache.repr)
              && (var c := old(msapCache.contents);
                  msapCache.contents == if allocates then c[i := e.(ip := ip, hasIp := true)] else c)
              && pool.last == (if allocates then NextCursor(old(pool.last)) else old(pool.last))
              && Wire() == Assigned(identity, txTTL, ws, old(Wire()), a))
    {
      alive := true;
      assert msap.data == msapCache.contents[i];
      if devRole == ROLE_MASTER && role == ROLE_SLAVE {
        if !msap.data.hasIp {
          if |msap.data.id| < 6 {
            return false;
          }
          alive := AssignAddress(pool, msap, i, ws);
        }
      }
    }

    /** What the receive buffer parses to. */
    ghost function Pending(residue: Ipv4): Parser.Verdict
      reads rxFrame, this`recvsize
    {
      Parser.Parse(rxFrame[..], recvsize, devRole, residue)
    }

    /** What a receive run with outcome `o` leaves: the port's receive state, the pool, and the frame sent to the
        neighbour that was assigned an address. */
    ghost predicate Reached(o: Out<seq<Entry>>, pool: AddressPool, ws: seq<WifiPort>, wire: Outbox)
      reads this, msapCache, msapCache.repr, txFrame, pool
    {
      && Valid() && RxView() == o.rx && pool.last == o.cursor
      && Wire() == Assigned(identity, txTTL, ws, wire, o.assignment)
    }

    /** Refreshes or inserts the neighbour `n`; on a master a neighbour without an address gets one. Returns false
        when the address cannot be sent. */
    method LearnNeighbour(pool: AddressPool, ws: seq<WifiPort>, n: Sender, ghost d: Digest) returns (alive: bool)
      requires Valid() && rxState == RxFrame && rxChanges && !rcvFrame
      requires d.sender == Some(n) && d.ttl.GetOr(rxTTL) == rxTTL
      modifies this`slaveip, this`slavemac, this`sendsize, this`sent, txFrame, pool, msapCache, msapCache.repr
      ensures var o := Process(devRole, old(RxView()), old(pool.last), d);
        && (alive <==> Sendable(identity, ws, txFrame.Length, o.assignment))
        && (alive ==> fresh(msapCache.repr - old(msapCache.repr)) && Reached(o, pool, ws, old(Wire())))
    {
      ghost var e := Entry(n.id, rxTTL, n.role, false, n.ip, n.wifi);
      UpsertFind(msapCache.contents, e, KeyOf(n.id));
      var msap := UpdateMsapCache(msapCache, Entry(n.id, rxTTL, n.role, false, n.ip, n.wifi));
      alive := AllocateIfNew(pool, msap, Find(msapCache.contents, KeyOf(n.id)), n.role, ws);
    }

    /** What `rxProcessFrame` does once the frame is parsed. */
    method ApplyDigest(pool: AddressPool, ws: seq<WifiPort>, d: Digest) returns (alive: bool)
      requires Valid() && rxState == RxFrame && !rxChanges && !rcvFrame
      modifies this`rxTTL, this`rxChanges, this`slaveip, this`slavemac, this`sendsize, this`sent, txFrame, pool,
               msapCache, msapCache.repr
      ensures var o := Process(devRole, old(RxView()), old(pool.last), d);
        && (alive <==> Sendable(identity, ws, txFrame.Length, o.assignment))
        && (alive ==> fresh(msapCache.repr - old(msapCache.repr)) && Reached(o, pool, ws, old(Wire())))
    {
      ProcessOverwrites(devRole, RxView(), pool.last, d, d.sender.Some?, d.ttl.GetOr(rxTTL));
      ghost var o := Process(devRole, RxView(), pool.last, d);
      if d.ttl.Some? {
        rxTTL := d.ttl.value;
      }
      alive := true;
      if d.sender.Some? {
        rxChanges := true;
        assert Process(devRole, RxView(), pool.last, d) == o;
        alive := LearnNeighbour(pool, ws, d.sender.value, d);
      }
    }

    /** `rxProcessFrame`: parses the buffer, refreshes or inserts the neighbour it names, and on a master gives a
        new neighbour an address. Returns false when the source would loop forever or leave a buffer. */
    method ProcessFrame(pool: AddressPool, ws: seq<WifiPort>, residue: Ipv4) returns (alive: bool)
      requires Valid() && rxState == RxFrame && !rxChanges && !rcvFrame
      modifies this`rxTTL, this`rxChanges, this`slaveip, this`slavemac, this`sendsize, this`sent, txFrame, pool,
               msapCache, msapCache.repr
      ensures var v := Pending(residue);
        var o := Process(devRole, old(RxView()), old(pool.last), DigestOf(v));
        && (alive <==> v.Done? && Sendable(identity, ws, txFrame.Length, o.assignment))
        && (alive ==> fresh(msapCache.repr - old(msapCache.repr)) && Reached(o, pool, ws, old(Wire())))
    {
      var v := Parser.ScanFrame(rxFrame, recvsize, devRole, residue);
      alive := v.Done?;
      if alive {
        alive := ApplyDigest(pool, ws, DigestOf(v));
      }
    }

    method DoDeleteAgedInfo()
      requires Valid()
      modifies this`rxInfoAge, this`changedRemote, msapCache, msapCache.repr
      ensures Valid() && msapCache.repr == old(msapCache.repr)
      ensures RxView() == old(RxView()).(cache := Live(old(RxView()).cache), rxInfoAge := false, changedRemote := true)
    {
      changedRemote := false;
      DeleteObjects(msapCache);
      rxInfoAge := false;
      changedRemote := true;
    }

    method DoRxInitialize()
      requires Valid()
      modifies this`rxInfoAge, this`rcvFrame, msapCache, msapCache.repr
      ensures Valid() && msapCache.repr == old(msapCache.repr)
      ensures RxView() == old(RxView()).(rcvFrame := false, rxInfoAge := false, cache := Live(old(RxView()).cache))
    {
      rcvFrame := false;
      rxInfoAge := false;
      DeleteObjects(msapCache);
    }

    method DoDeleteInfo()
      requires Valid()
      modifies this`changedRemote, msapCache, msapCache.repr
      ensures Valid() && msapCache.repr == old(msapCache.repr)
      ensures RxView() == old(RxView()).(cache := Live(old(RxView()).cache), changedRemote := true)
    {
      DeleteObjects(msapCache);
      changedRemote := true;
    }

    method ProcessAndClear(pool: AddressPool, ws: seq<WifiPort>, residue: Ipv4, ghost v: Parser.Verdict,
                           ghost o: Out<seq<Entry>>)
      returns (alive: bool)
      requires Valid() && recvsize >= 0 && v == Pending(residue) && rxState == RxFrame && !rxChanges && !rcvFrame
      requires o == Process(devRole, RxView(), pool.last, DigestOf(v))
      modifies this`rxTTL, this`rxChanges, this`slaveip, this`slavemac, this`sendsize, this`sent, txFrame, rxFrame,
               pool, msapCache, msapCache.repr
      ensures alive <==> v.Done? && Sendable(identity, ws, txFrame.Length, o.assignment)
      ensures alive ==> fresh(msapCache.repr - old(msapCache.repr)) && Reached(o, pool, ws, old(Wire()))
      ensures alive ==> rxFrame[..] == Cleared(rxState, old(rxFrame[..]), recvsize)
    {
      alive := ProcessFrame(pool, ws, residue);
      if alive {
        MemsetZero(rxFrame, recvsize);
      }
    }

    /** The RX_FRAME action: processes the frame and clears the bytes received. */
    method DoRxFrame(pool: AddressPool, ws: seq<WifiPort>, residue: Ipv4, ghost v: Parser.Verdict)
      returns (alive: bool)
      requires Valid() && recvsize >= 0 && v == Pending(residue) && rxState == RxFrame
      modifies this`rxTTL, this`rxChanges, this`rcvFrame, this`slaveip, this`slavemac, this`sendsize, this`sent,
               txFrame, rxFrame, pool, msapCache, msapCache.repr
      ensures var o := Act(devRole, old(RxView()), old(pool.last), DigestOf(v));
        && (alive <==> v.Done? && Sendable(identity, ws, txFrame.Length, o.assignment))
        && (alive ==> fresh(msapCache.repr - old(msapCache.repr)) && Reached(o, pool, ws, old(Wire())))
      ensures alive ==> rxFrame[..] == Cleared(rxState, old(rxFrame[..]), recvsize)
    {
      ProcessOverwrites(devRole, RxView(), pool.last, DigestOf(v), false, rxTTL);
      ghost var o := Process(devRole, RxView(), pool.last, DigestOf(v));
      rxChanges := false;
      rcvFrame := false;
      alive := ProcessAndClear(pool, ws, residue, v, o);
    }

    /** The actions of all states but RX_FRAME; the frame buffer and the pool play no part. */
    method RxQuietAction(ghost cursor: byte, ghost d: Digest)
      requires Valid() && rxState != RxFrame
      modifies this`rcvFrame, this`rxInfoAge, this`changedRemote, msapCache, msapCache.repr
      ensures Valid() && msapCache.repr == old(msapCache.repr)
      ensures Act(devRole, old(RxView()), cursor, d) == Out(RxView(), cursor, None)
    {
      match rxState {
        case WaitPortOperational =>
        case DeleteAgedInfo => DoDeleteAgedInfo();
        case RxInitialize => DoRxInitialize();
        case WaitForFrame =>
          rxInfoAge := false;
          changedRemote := false;
        case DeleteInfo => DoDeleteInfo();
        case UpdateInfo => changedRemote := true;
      }
    }

    method RxAction(pool: AddressPool, ws: seq<WifiPort>, residue: Ipv4, ghost v: Parser.Verdict)
      returns (alive: bool)
      requires Valid() && recvsize >= 0 && v == Pending(residue)
      modifies this`rxTTL, this`rxChanges, this`rcvFrame, this`slaveip, this`slavemac, this`sendsize, this`sent,
               this`rxInfoAge, this`changedRemote, txFrame, rxFrame, pool, msapCache, msapCache.repr
      ensures var o := Act(devRole, old(RxView()), old(pool.last), DigestOf(v));
        && (alive <==> (rxState == RxFrame ==> v.Done? && Sendable(identity, ws, txFrame.Length, o.assignment)))
        && (alive ==> fresh(msapCache.repr - old(msapCache.repr)) && Reached(o, pool, ws, old(Wire())))
      ensures alive ==> rxFrame[..] == Cleared(rxState, old(rxFrame[..]), recvsize)
    {
      alive := true;
      if rxState == RxFrame {
        alive := DoRxFrame(pool, ws, residue, v);
      } else {
        RxQuietAction(pool.last, DigestOf(v));
      }
    }

    method RxUpdateTimers()
      requires Valid()
      modifies this`rxInfoAge, msapCache, msapCache.repr
      ensures Valid() && msapCache.repr == old(msapCache.repr) && RxView() == Tick(old(RxView()))
    {
      var expired := UpdateTimers(msapCache);
      if expired {
        rxInfoAge := true;
      }
    }

    method RxActAndTick(pool: AddressPool, ws: seq<WifiPort>, residue: Ipv4, ghost v: Parser.Verdict,
                        ghost o: Out<seq<Entry>>)
      returns (alive: bool)
      requires Valid() && recvsize >= 0 && v == Pending(residue)
      requires o == ActAndTick(devRole, RxView(), pool.last, DigestOf(v))
      modifies this`rxTTL, this`rxChanges, this`rcvFrame, this`slaveip, this`slavemac, this`sendsize, this`sent,
               this`rxInfoAge, this`changedRemote, txFrame, rxFrame, pool, msapCache, msapCache.repr
      ensures alive <==> (rxState == RxFrame ==> v.Done? && Sendable(identity, ws, txFrame.Length, o.assignment))
      ensures alive ==> fresh(msapCache.repr - old(msapCache.repr)) && Reached(o, pool, ws, old(Wire()))
      ensures alive ==> rxFrame[..] == Cleared(rxState, old(rxFrame[..]), recvsize)
    {
      alive := RxAction(pool, ws, residue, v);
      if alive {
        RxUpdateTimers();
      }
    }

    /** One run of the receive machine. As long as the agent survives the run, the port's receive state, the
        address pool, the frames sent and the receive buffer are the specification's; the transmit machine's fields
        are outside its frame. It does not survive exactly when the last read failed, or it processes a frame on
        which the parser spins or leaves a buffer, or whose sender must be given an address that cannot be sent: its
        id is too short to hold a MAC, or the set-IP frame is longer than the transmit buffer. */
    method RxStatemachineRun(pool: AddressPool, ws: seq<WifiPort>, residue: Ipv4) returns (alive: bool)
      requires Valid()
      modifies this`rxState, this`rxTTL, this`rxChanges, this`rcvFrame, this`rxInfoAge, this`changedRemote,
               this`slaveip, this`slavemac, this`sendsize, this`sent, txFrame, rxFrame, pool, msapCache, msapCache.repr
      ensures var v := old(Pending(residue));
        var o := Run(devRole, old(RxView()), old(portEnabled), old(adminStatus), old(pool.last), DigestOf(v));
        && (alive <==>
              && recvsize >= 0
              && (o.rx.state == RxFrame ==> v.Done? && Sendable(identity, ws, txFrame.Length, o.assignment)))
        && (alive ==> fresh(msapCache.repr - old(msapCache.repr)) && Reached(o, pool, ws, old(Wire())))
      ensures alive ==> rxFrame[..] == Cleared(rxState, old(rxFrame[..]), recvsize)
    {
      ghost var v := Pending(residue);
      ghost var o := Run(devRole, RxView(), portEnabled, adminStatus, pool.last, DigestOf(v));
      alive := RxGlobalStatemachineRun();
      if alive {
        alive := RxActAndTick(pool, ws, residue, v, o);
      }
    }
  }
}
