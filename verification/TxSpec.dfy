/** The transmit state machine (section 10.5.4.3 of IEEE 802.1AB) as a function of one run. */
module TxSpec {
  import opened Bytes
  import RxSpec

  datatype TxState = TxInitialize | TxIdle | TxShutdownFrame | TxInfoFrame

  datatype Tx = Tx(
    state: TxState, changedLocal: bool, txTTL: u16,
    reinitDelay: u16, msgTxHold: u16, msgTxInterval: u16, txDelay: u16,
    txTTR: u16, txShutdownWhile: u16, txDelayWhile: u16)

  datatype Emission = Silent | SendInfo(ttl: u16) | SendShutdown

  function Min(value1: u16, value2: u16): (m: u16)
    ensures m <= value1 && m <= value2 && (m == value1 || m == value2)
  {
    if value1 < value2 then value1 else value2
  }

  /** The advertised TTL. The product is cut to 16 bits when it is passed to `Min`, before the comparison. */
  function Advertised(interval: u16, hold: u16): u16 {
    Min(65535, (interval * hold) % 0x1_0000)
  }

  lemma LowBits(product: nat)
    ensures Min(65535, product % 0x1_0000) == (if product < 65535 then product else 65535)
       <==> product < 0x1_0000 || product % 0x1_0000 == 65535
  {
  }

  /** The saturation that the standard asks for happens exactly when the product fits 16 bits, or its low 16
      bits happen to be all ones. */
  lemma AdvertisedSaturatesIff(interval: u16, hold: u16)
    ensures Advertised(interval, hold) == (if interval * hold < 65535 then interval * hold else 65535)
       <==> interval * hold < 0x1_0000 || (interval * hold) % 0x1_0000 == 65535
  {
    assert interval * hold >= 0;
    LowBits(interval * hold);
  }

  /** With an interval of 256 and a hold of 256 neighbours are told to forget the sender at once. */
  lemma AdvertisedCanVanish()
    ensures Advertised(256, 256) == 0
  {
    assert 256 * 256 == 0x1_0000;
  }

  /** The transmit machine as it is initialised, before the first frame. */
  const TX_BOOT := Tx(TxInitialize, false, 0, 2, 4, 5, 2, 0, 0, 0)

  function Enter(s: Tx, state: TxState): Tx {
    if state == TxIdle then
      s.(state := TxIdle, txTTL := Advertised(s.msgTxInterval, s.msgTxHold), txTTR := s.msgTxInterval,
         changedLocal := false, txDelayWhile := s.txDelay)
    else
      s.(state := state)
  }

  predicate InfoDue(s: Tx) {
    s.txDelayWhile == 0 && (s.txTTR == 0 || s.changedLocal)
  }

  /** The state an enabled port changes to in this run, if any. */
  function Target(s: Tx, admin: RxSpec.AdminStatus): Option<TxState> {
    match s.state
    case TxInitialize => if RxSpec.TxEnabled(admin) then Some(TxIdle) else None
    case TxIdle =>
      if !RxSpec.TxEnabled(admin) then Some(TxShutdownFrame) else if InfoDue(s) then Some(TxInfoFrame) else None
    case TxShutdownFrame => if s.txShutdownWhile == 0 then Some(TxInitialize) else None
    case TxInfoFrame => Some(TxIdle)
  }

  /** A port found disabled is enabled and reinitialised first. */
  function Reenabled(s: Tx, portEnabled: bool): Tx {
    if portEnabled then s else Enter(s, TxInitialize)
  }

  function TransitTx(s: Tx, portEnabled: bool, admin: RxSpec.AdminStatus): Tx {
    var s0 := Reenabled(s, portEnabled);
    match Target(s0, admin)
    case None => s0
    case Some(t) => Enter(s0, t)
  }

  function ActTx(s: Tx): (Tx, Emission) {
    match s.state
    case TxInitialize =>
      (s.(changedLocal := false, reinitDelay := 2, msgTxHold := 4, msgTxInterval := 5, txDelay := 2,
          txShutdownWhile := 0), Silent)
    case TxIdle => (s, Silent)
    case TxShutdownFrame => (s.(txShutdownWhile := s.reinitDelay), SendShutdown)
    case TxInfoFrame => (s, SendInfo(s.txTTL))
  }

  function Dec(timer: u16): u16 {
    if timer > 0 then timer - 1 else 0
  }

  function TickTx(s: Tx): Tx {
    s.(txShutdownWhile := Dec(s.txShutdownWhile), txDelayWhile := Dec(s.txDelayWhile), txTTR := Dec(s.txTTR))
  }

  datatype TxOut = TxOut(tx: Tx, emission: Emission)

  /** A run after its state changes: the action, then the timers. */
  function ActAndTickTx(s: Tx): TxOut {
    TxOut(TickTx(ActTx(s).0), ActTx(s).1)
  }

  /** One run of the transmit machine. The port is enabled when it returns. */
  function RunTx(s: Tx, portEnabled: bool, admin: RxSpec.AdminStatus): TxOut {
    ActAndTickTx(TransitTx(s, portEnabled, admin))
  }

  // -------- the guards of the state changes --------

  /** The condition `txChangeToState` tests for, with the port status it sees at the call. */
  predicate TxChangeAllowed(from: TxState, to: TxState, portEnabled: bool) {
    match to
    case TxInitialize => from == TxShutdownFrame || !portEnabled
    case TxIdle => from == TxInitialize || from == TxInfoFrame
    case TxShutdownFrame => from == TxIdle
    case TxInfoFrame => true
  }

  /** Every state change of the run passes the guard. */
  predicate GuardsHold(s: Tx, portEnabled: bool, admin: RxSpec.AdminStatus) {
    var s0 := Reenabled(s, portEnabled);
    && (portEnabled || TxChangeAllowed(s.state, TxInitialize, true))
    && (Target(s0, admin).Some? ==> TxChangeAllowed(s0.state, Target(s0, admin).value, true))
  }

  /** By the time any change is made the port has been marked enabled, so the guard that would admit a
      reinitialisation of a disabled port never sees one: a run keeps to the guards iff the port was enabled or
      the machine was in TX_SHUTDOWN_FRAME. */
  lemma TxGuardsHoldIff(s: Tx, portEnabled: bool, admin: RxSpec.AdminStatus)
    ensures GuardsHold(s, portEnabled, admin) <==> portEnabled || s.state == TxShutdownFrame
  {
  }

  /** The first transmit run of a port whose first frame has been sent, if it finds the port as that left it, is one
      that does not keep to the guards. */
  lemma FirstRunBreaksGuard(admin: RxSpec.AdminStatus)
    ensures !GuardsHold(Enter(TX_BOOT, TxIdle), false, admin)
  {
    TxGuardsHoldIff(Enter(TX_BOOT, TxIdle), false, admin);
  }
}
