/** The receive state machine (section 10.5.5.3 of IEEE 802.1AB) as a function of one run.
    A run makes one transition, performs the new state's action, and ages every cached entry, in that order. */
module RxSpec {
  import opened Bytes
  import TlvFormat
  import Parser
  import opened Neighbours

  datatype RxState =
    | WaitPortOperational | DeleteAgedInfo | RxInitialize | WaitForFrame | RxFrame | DeleteInfo | UpdateInfo

  datatype AdminStatus = Disabled | EnabledTxOnly | EnabledRxOnly | EnabledRxTx

  predicate RxEnabled(admin: AdminStatus) {
    admin == EnabledRxTx || admin == EnabledRxOnly
  }

  predicate TxEnabled(admin: AdminStatus) {
    admin == EnabledRxTx || admin == EnabledTxOnly
  }

  /** The receive variables of a port, over either form of the neighbour cache. */
  datatype Rx<+C> = Rx(
    state: RxState, rcvFrame: bool, rxInfoAge: bool, changedRemote: bool, rxTTL: nat, rxChanges: bool, cache: C)

  type ListRx = Rx<seq<Entry>>
  type TableRx = Rx<Table>

  // -------- what a frame says --------

  datatype Sender = Sender(id: seq<byte>, role: int, ip: Ipv4, wifi: seq<Parser.WifiMod>)

  /** All the state machine takes from a frame: a TTL, and a neighbour if the frame names one. */
  datatype Digest = Digest(ttl: Option<nat>, sender: Option<Sender>)

  const NO_WIFI := Parser.WifiMod([0, 0, 0, 0, 0, 0], 0)

  /** The cache has room for two modules; unused slots are zero. */
  function TwoSlots(ws: seq<Parser.WifiMod>): seq<Parser.WifiMod> {
    if |ws| == 0 then [NO_WIFI, NO_WIFI] else if |ws| == 1 then ws + [NO_WIFI] else ws
  }

  function DigestOf(v: Parser.Verdict): Digest {
    if !v.Done? then Digest(None, None)
    else
      var sc := v.scan;
      Digest(sc.ttl,
             if sc.msap.Some? && sc.haveDc
             then Some(Sender(sc.msap.value, sc.role, sc.ip, TwoSlots(sc.wifi)))
             else None)
  }

  // -------- the address allocator --------

  function AddressAt(last: byte): Ipv4 {
    [169, 254, 30, last]
  }

  /** One 8-bit increment, and one more when it lands on 255 or 0. */
  function NextCursor(last: byte): byte {
    var next := (last + 1) % 256;
    if next == 255 || next == 0 then (next + 1) % 256 else next
  }

  /** A neighbour's id and the address it was given. */
  datatype Assignment = Assignment(id: seq<byte>, ip: Ipv4)

  // -------- transitions --------

  /** The state that the global machine leaves the port in. */
  function Transition<C>(s: Rx<C>, portEnabled: bool, admin: AdminStatus): RxState {
    var state := if !s.rxInfoAge && !portEnabled then WaitPortOperational else s.state;
    match state
    case WaitPortOperational =>
      if s.rxInfoAge then DeleteAgedInfo else if portEnabled then RxInitialize else WaitPortOperational
    case DeleteAgedInfo => WaitPortOperational
    case RxInitialize => if RxEnabled(admin) then WaitForFrame else RxInitialize
    case WaitForFrame => if s.rxInfoAge then DeleteInfo else if s.rcvFrame then RxFrame else WaitForFrame
    case DeleteInfo => WaitForFrame
    case RxFrame => if s.rxTTL == 0 then DeleteInfo else if s.rxChanges then UpdateInfo else WaitForFrame
    case UpdateInfo => WaitForFrame
  }

  // -------- actions on the list --------

  /** The result of a run: the port, the allocator's cursor, and the address assigned, if any. */
  datatype Out<+C> = Out(rx: Rx<C>, cursor: byte, assignment: Option<Assignment>)

  predicate Allocates(dev: int, role: int, e: Entry) {
    dev == TlvFormat.ROLE_MASTER && role == TlvFormat.ROLE_SLAVE && !e.hasIp
  }

  function Process(dev: int, s: ListRx, cursor: byte, d: Digest): Out<seq<Entry>> {
    var ttl := d.ttl.GetOr(s.rxTTL);
    var s1 := s.(rxChanges := d.sender.Some?, rcvFrame := false, rxTTL := ttl);
    match d.sender
    case None => Out(s1, cursor, None)
    case Some(n) =>
      var c := Upsert(s.cache, Entry(n.id, ttl, n.role, false, n.ip, n.wifi));
      var i := Find(c, KeyOf(n.id));
      UpsertFind(s.cache, Entry(n.id, ttl, n.role, false, n.ip, n.wifi), KeyOf(n.id));
      if Allocates(dev, n.role, c[i]) then
        Out(s1.(cache := c[i := c[i].(ip := AddressAt(cursor), hasIp := true)]), NextCursor(cursor),
            Some(Assignment(c[i].id, AddressAt(cursor))))
      else
        Out(s1.(cache := c), cursor, None)
  }

  /** Processing overwrites the frame flags, and the TTL if the frame carries one. */
  lemma ProcessOverwrites(dev: int, s: ListRx, cursor: byte, d: Digest, rxChanges: bool, rxTTL: nat)
    requires d.ttl.GetOr(rxTTL) == d.ttl.GetOr(s.rxTTL)
    ensures Process(dev, s.(rcvFrame := false, rxChanges := rxChanges, rxTTL := rxTTL), cursor, d)
         == Process(dev, s, cursor, d)
  {
  }

  function Act(dev: int, s: ListRx, cursor: byte, d: Digest): Out<seq<Entry>> {
    match s.state
    case WaitPortOperational => Out(s, cursor, None)
    case DeleteAgedInfo => Out(s.(cache := Live(s.cache), rxInfoAge := false, changedRemote := true), cursor, None)
    case RxInitialize => Out(s.(rcvFrame := false, rxInfoAge := false, cache := Live(s.cache)), cursor, None)
    case WaitForFrame => Out(s.(rxInfoAge := false, changedRemote := false), cursor, None)
    case RxFrame => Process(dev, s, cursor, d)
    case DeleteInfo => Out(s.(cache := Live(s.cache), changedRemote := true), cursor, None)
    case UpdateInfo => Out(s.(changedRemote := true), cursor, None)
  }

  function Tick(s: ListRx): ListRx {
    var c := AgeAll(s.cache);
    s.(cache := c, rxInfoAge := s.rxInfoAge || AnyExpired(c))
  }

  /** A run after its transition: the action, then the timers. */
  function ActAndTick(dev: int, s: ListRx, cursor: byte, d: Digest): Out<seq<Entry>> {
    var o := Act(dev, s, cursor, d);
    o.(rx := Tick(o.rx))
  }

  /** One run of the receive machine; `d` is what the frame buffer would parse to. */
  function Run(dev: int, s: ListRx, portEnabled: bool, admin: AdminStatus, cursor: byte, d: Digest): Out<seq<Entry>> {
    ActAndTick(dev, s.(state := Transition(s, portEnabled, admin)), cursor, d)
  }

  // -------- the same machine over the table --------

  function ProcessTable(dev: int, s: TableRx, cursor: byte, d: Digest): Out<Table> {
    var ttl := d.ttl.GetOr(s.rxTTL);
    var s1 := s.(rxChanges := d.sender.Some?, rcvFrame := false, rxTTL := ttl);
    match d.sender
    case None => Out(s1, cursor, None)
    case Some(n) =>
      var k := KeyOf(n.id);
      var m := UpsertTable(s.cache, Entry(n.id, ttl, n.role, false, n.ip, n.wifi));
      if Allocates(dev, n.role, m[k]) then
        Out(s1.(cache := m[k := m[k].(ip := AddressAt(cursor), hasIp := true)]), NextCursor(cursor),
            Some(Assignment(m[k].id, AddressAt(cursor))))
      else
        Out(s1.(cache := m), cursor, None)
  }

  function ActTable(dev: int, s: TableRx, cursor: byte, d: Digest): Out<Table> {
    match s.state
    case WaitPortOperational => Out(s, cursor, None)
    case DeleteAgedInfo => Out(s.(cache := LiveTable(s.cache), rxInfoAge := false, changedRemote := true), cursor, None)
    case RxInitialize => Out(s.(rcvFrame := false, rxInfoAge := false, cache := LiveTable(s.cache)), cursor, None)
    case WaitForFrame => Out(s.(rxInfoAge := false, changedRemote := false), cursor, None)
    case RxFrame => ProcessTable(dev, s, cursor, d)
    case DeleteInfo => Out(s.(cache := LiveTable(s.cache), changedRemote := true), cursor, None)
    case UpdateInfo => Out(s.(changedRemote := true), cursor, None)
  }

  function TickTable(s: TableRx): TableRx {
    var m := AgeTable(s.cache);
    s.(cache := m, rxInfoAge := s.rxInfoAge || ExpiredIn(m))
  }

  function RunTable(dev: int, s: TableRx, portEnabled: bool, admin: AdminStatus, cursor: byte, d: Digest): Out<Table> {
    var o := ActTable(dev, s.(state := Transition(s, portEnabled, admin)), cursor, d);
    o.(rx := TickTable(o.rx))
  }

  function Abstract(s: ListRx): TableRx {
    Rx(s.state, s.rcvFrame, s.rxInfoAge, s.changedRemote, s.rxTTL, s.rxChanges, TableOf(s.cache))
  }

  function AbstractOut(o: Out<seq<Entry>>): Out<Table> {
    Out(Abstract(o.rx), o.cursor, o.assignment)
  }

  // -------- refinement --------

  lemma UpdateRefines(c: seq<Entry>, i: nat, e: Entry)
    requires DistinctKeys(c) && i < |c| && KeyOf(e.id) == KeyOf(c[i].id)
    ensures DistinctKeys(c[i := e])
    ensures TableOf(c[i := e]) == TableOf(c)[KeyOf(e.id) := e]
  {
    var c' := c[i := e];
    FindDistinct(c, i);
    forall k
      ensures k in TableOf(c') <==> k in TableOf(c)[KeyOf(e.id) := e]
      ensures k in TableOf(c') ==> TableOf(c')[k] == TableOf(c)[KeyOf(e.id) := e][k]
    {
      TableAt(c, k);
      TableAt(c', k);
      FindIs(c', k, Find(c, k));
    }
  }

  lemma ProcessRefines(dev: int, s: ListRx, cursor: byte, d: Digest)
    requires DistinctKeys(s.cache)
    ensures DistinctKeys(Process(dev, s, cursor, d).rx.cache)
    ensures AbstractOut(Process(dev, s, cursor, d)) == ProcessTable(dev, Abstract(s), cursor, d)
  {
    if d.sender.Some? {
      var n := d.sender.value;
      var e := Entry(n.id, d.ttl.GetOr(s.rxTTL), n.role, false, n.ip, n.wifi);
      var c := Upsert(s.cache, e);
      var k := KeyOf(n.id);
      UpsertRefines(s.cache, e);
      UpsertFind(s.cache, e, k);
      var i := Find(c, k);
      TableAt(c, k);
      UpdateRefines(c, i, c[i].(ip := AddressAt(cursor), hasIp := true));
    }
  }

  lemma ActRefines(dev: int, s: ListRx, cursor: byte, d: Digest)
    requires DistinctKeys(s.cache)
    ensures DistinctKeys(Act(dev, s, cursor, d).rx.cache)
    ensures AbstractOut(Act(dev, s, cursor, d)) == ActTable(dev, Abstract(s), cursor, d)
  {
    if s.state == RxFrame {
      ProcessRefines(dev, s, cursor, d);
    } else {
      LiveRefines(s.cache);
    }
  }

  lemma TickRefines(s: ListRx)
    requires DistinctKeys(s.cache)
    ensures DistinctKeys(Tick(s).cache)
    ensures Abstract(Tick(s)) == TickTable(Abstract(s))
  {
    AgeRefines(s.cache);
    ExpiredRefines(AgeAll(s.cache));
  }

  /** Every run over the list is the corresponding run over the finite map, and keys stay distinct. */
  lemma RunRefines(dev: int, s: ListRx, portEnabled: bool, admin: AdminStatus, cursor: byte, d: Digest)
    requires DistinctKeys(s.cache)
    ensures DistinctKeys(Run(dev, s, portEnabled, admin, cursor, d).rx.cache)
    ensures AbstractOut(Run(dev, s, portEnabled, admin, cursor, d))
         == RunTable(dev, Abstract(s), portEnabled, admin, cursor, d)
  {
    var t := s.(state := Transition(s, portEnabled, admin));
    ActRefines(dev, t, cursor, d);
    TickRefines(Act(dev, t, cursor, d).rx);
  }

  // -------- the guards of the state changes --------

  /** What `rxChangeToState` accepts without complaint. */
  predicate ChangeAllowed(from: RxState, to: RxState) {
    match to
    case WaitPortOperational => true
    case RxInitialize => from == WaitPortOperational
    case DeleteAgedInfo => from == WaitPortOperational
    case WaitForFrame => from == RxInitialize || from == DeleteInfo || from == UpdateInfo || from == RxFrame
    case RxFrame => from == WaitForFrame
    case DeleteInfo => from == WaitForFrame || from == RxFrame
    case UpdateInfo => from == RxFrame
  }

  /** A run changes state once, twice, or not at all; every change is one the guards accept. */
  lemma TransitionAllowed<C>(s: Rx<C>, portEnabled: bool, admin: AdminStatus)
    ensures var t := Transition(s, portEnabled, admin);
      || t == s.state
      || ChangeAllowed(s.state, t)
      || (!portEnabled && ChangeAllowed(s.state, WaitPortOperational) && ChangeAllowed(WaitPortOperational, t))
    ensures var t := Transition(s, portEnabled, admin);
      t == s.state ==> t in {WaitPortOperational, RxInitialize, WaitForFrame}
  {
  }
}
