/** What a port has really put on the wire, read back with the parser, event by event. */
module Wire {
  import opened Bytes
  import opened TlvFormat
  import opened Parser
  import RoundTrip
  import opened Neighbours
  import opened RxSpec
  import opened TxSpec
  import opened RxRuns
  import TxRuns
  import opened Allocation
  import EndToEnd
  import Delivery
  import opened Threads
  import opened ThreadRuns

  function SentBy(a: State, p: nat): seq<seq<byte>>
    requires p < |a.lanes|
  {
    a.lanes[p].wire.sent
  }

  /** One more frame than before, and nothing else changed. */
  predicate OneMore(sent: seq<seq<byte>>, sent': seq<seq<byte>>) {
    |sent'| == |sent| + 1 && sent'[..|sent|] == sent
  }

  // -------- information frames --------

  /** The modules that a receiver keeps: the first two, with the low byte of their modes. */
  predicate AreFirstModules(ms: seq<WifiMod>, ws: seq<WifiPort>) {
    && |ms| == (if |ws| < 2 then |ws| else 2)
    && forall i :: 0 <= i < |ms| ==> ms[i] == WifiMod(ws[i].mac, ws[i].mode % 256)
  }

  /** What the receiver of a frame has learnt is this port's own information. */
  predicate Tells(v: Verdict, p: PortIdentity, ttl: nat, ws: seq<WifiPort>) {
    && v.Done?
    && v.scan.msap == Some(p.mac + p.ifName) && v.scan.ttl == Some(ttl)
    && v.scan.role == p.role % 256 && v.scan.ip == p.ip && AreFirstModules(v.scan.wifi, ws)
    && v.scan.configured == []
  }

  /** Broadcast by this MAC, with the LLDP type. */
  predicate IsAddressed(g: seq<byte>, dst: seq<byte>, src: Mac) {
    |g| >= 64 && g[..6] == dst && g[6..12] == src && g[12..14] == [0x88, 0xcc]
  }

  lemma HeaderAddressed(g: seq<byte>, dst: Mac, src: Mac)
    requires |g| >= 64 && g[..14] == EthHeader(dst, src)
    ensures IsAddressed(g, dst, src)
  {
    assert g[..6] == g[..14][..6] && g[6..12] == g[..14][6..12] && g[12..14] == g[..14][12..14];
  }

  lemma KeepsFirstModules(ws: seq<WifiPort>)
    ensures AreFirstModules(FirstTwo(RoundTrip.Modules(ws)), ws)
  {
  }

  lemma InfoTells(p: PortIdentity, ttl: u16, ws: seq<WifiPort>, dev: int, residue: Ipv4, tail: seq<byte>)
    requires p.Encodable()
    ensures var g := InfoFrame(p, ttl, ws);
      && IsAddressed(g, [0xff, 0xff, 0xff, 0xff, 0xff, 0xff], p.mac)
      && Tells(Parse(g + tail, |g|, dev, residue), p, ttl, ws)
  {
    RoundTrip.InfoRoundTrip(p, ttl, ws, dev, residue, tail);
    KeepsFirstModules(ws);
    BuiltTlvsFit(p, ttl, ws, [0, 0, 0, 0]);
    var g := InfoFrame(p, ttl, ws);
    assert g[..14] == EthHeader(BROADCAST, p.mac);
    HeaderAddressed(g, BROADCAST, p.mac);
  }

  /** So a master is heard as a master, a slave as a slave, and a module with its own mode. */
  lemma RoleAndModesCarried(p: PortIdentity, ttl: u16, ws: seq<WifiPort>, dev: int, residue: Ipv4, tail: seq<byte>)
    requires p.Encodable() && (p.role == ROLE_MASTER || p.role == ROLE_SLAVE)
    requires forall i :: 0 <= i < |ws| ==> 0 <= ws[i].mode < 256
    ensures var g := InfoFrame(p, ttl, ws);
      var v := Parse(g + tail, |g|, dev, residue);
      && v.Done? && v.scan.role == p.role && (v.scan.haveDc <==> Opposite(dev, p.role))
      && |v.scan.wifi| == (if |ws| < 2 then |ws| else 2)
      && forall i :: 0 <= i < |v.scan.wifi| ==> v.scan.wifi[i] == WifiMod(ws[i].mac, ws[i].mode)
  {
    RoundTrip.InfoRoundTrip(p, ttl, ws, dev, residue, tail);
    KeepsFirstModules(ws);
  }

  lemma EmissionTells(p: PortIdentity, ttl: u16, ws: seq<WifiPort>, b: Port.Outbox, dev: int, residue: Ipv4,
                      tail: seq<byte>)
    requires p.Encodable()
    ensures var sent' := Port.Emitted(p, ws, b, SendInfo(ttl)).sent;
      && OneMore(b.sent, sent')
      && IsAddressed(Last(sent'), [0xff, 0xff, 0xff, 0xff, 0xff, 0xff], p.mac)
      && Tells(Parse(Last(sent') + tail, |Last(sent')|, dev, residue), p, ttl, ws)
  {
    InfoTells(p, ttl, ws, dev, residue, tail);
  }

  lemma EmissionOf(a: State, e: Event)
    requires e.Transmit? && e.port < |a.lanes|
    ensures TxOutOf(a, e).tx.state == TxInfoFrame ==> TxOutOf(a, e).emission == SendInfo(TxOutOf(a, e).tx.txTTL)
  {
  }

  /** A transmit run that ends in TX_INFO_FRAME puts exactly one frame on the wire of its port. It is broadcast, and
      whoever parses it learns this port's MAC and interface name, the machine's TTL, its role, its address and its
      first two wifi modules. */
  lemma InfoOnWire(site: Site, a: State, e: Event, dev: int, residue: Ipv4, tail: seq<byte>)
    requires a.On(site) && e.port < |a.lanes| && e.Transmit?
    requires Next(site, a, e).lanes[e.port].tx.state == TxInfoFrame
    ensures var p, sent, sent' := site.ports[e.port].identity, SentBy(a, e.port), SentBy(Next(site, a, e), e.port);
      && OneMore(sent, sent')
      && IsAddressed(Last(sent'), [0xff, 0xff, 0xff, 0xff, 0xff, 0xff], p.mac)
      && Tells(Parse(Last(sent') + tail, |Last(sent')|, dev, residue), p, Next(site, a, e).lanes[e.port].tx.txTTL,
               site.ws)
  {
    EmissionTells(site.ports[e.port].identity, TxOutOf(a, e).tx.txTTL, site.ws, a.lanes[e.port].wire, dev, residue,
                  tail);
    EmissionOf(a, e);
  }

  /** In TX_IDLE and TX_LLDP_INITIALIZE nothing goes out. */
  lemma SilentOnWire(site: Site, a: State, e: Event)
    requires a.On(site) && e.port < |a.lanes| && e.Transmit?
    requires Next(site, a, e).lanes[e.port].tx.state in {TxIdle, TxInitialize}
    ensures SentBy(Next(site, a, e), e.port) == SentBy(a, e.port)
  {
  }

  // -------- shutdown frames --------

  /** The size that the port has noted is that of the last frame. */
  ghost predicate Sized(a: State) {
    forall p :: 0 <= p < |a.lanes| && SentBy(a, p) != [] ==> a.lanes[p].wire.sendsize == |Last(SentBy(a, p))|
  }

  lemma SizedStep(site: Site, a: State, e: Event)
    requires a.On(site) && e.port < |a.lanes| && Sized(a)
    ensures Sized(Next(site, a, e))
  {
  }

  lemma {:induction false} AlwaysSized(site: Site, a: State, es: seq<Event>)
    requires a.On(site) && OnPorts(site, es) && Sized(a)
    ensures Sized(After(site, a, es))
    decreases |es|
  {
    if es == [] {
    } else {
      AlwaysSized(site, a, Front(es));
      SizedStep(site, After(site, a, Front(es)), Last(es));
    }
  }

  /** A transmit run that ends in TX_SHUTDOWN_FRAME puts one frame on the wire: as many zero bytes as the frame
      before it had. */
  lemma ShutdownOnWire(site: Site, a: State, e: Event)
    requires a.On(site) && e.port < |a.lanes| && e.Transmit? && Sized(a) && SentBy(a, e.port) != []
    requires Next(site, a, e).lanes[e.port].tx.state == TxShutdownFrame
    ensures var sent, sent' := SentBy(a, e.port), SentBy(Next(site, a, e), e.port);
      && OneMore(sent, sent') && |Last(sent')| == |Last(sent)|
      && forall i :: 0 <= i < |Last(sent')| ==> Last(sent')[i] == 0
  {
  }

  // -------- set-IP frames --------

  ghost predicate Listed(a: State, p: nat, k: Key)
    requires p < |a.lanes|
  {
    k in TableOf(a.lanes[p].rx.cache)
  }

  ghost function Listing(a: State, p: nat, k: Key): Entry
    requires p < |a.lanes| && Listed(a, p, k)
  {
    TableOf(a.lanes[p].rx.cache)[k]
  }

  /** The run inserts a neighbour exactly when it assigns an address, and then to that neighbour. */
  ghost predicate InsertsAssigned(m: Table, m': Table, cursor: byte, a: Option<Assignment>) {
    && (forall k :: k in m' && k !in m ==>
          a == Some(Assignment(m'[k].id, m'[k].ip)) && m'[k].ip == [169, 254, 30, cursor])
    && (a.Some? ==> KeyOf(a.value.id) !in m && KeyOf(a.value.id) in m')
  }

  lemma ProcessInserts(s: TableRx, cursor: byte, d: Digest)
    requires AllHaveIp(s.cache) && Parsed(ROLE_MASTER, d)
    ensures var o := ProcessTable(ROLE_MASTER, s, cursor, d);
      InsertsAssigned(s.cache, o.rx.cache, cursor, o.assignment)
  {
  }

  lemma ActInserts(s: TableRx, cursor: byte, d: Digest)
    requires AllHaveIp(s.cache) && Parsed(ROLE_MASTER, d)
    ensures var o := ActTable(ROLE_MASTER, s, cursor, d);
      InsertsAssigned(s.cache, o.rx.cache, cursor, o.assignment)
  {
    if s.state == RxFrame {
      ProcessInserts(s, cursor, d);
    }
  }

  lemma AgeingKeepsInserts(m: Table, m': Table, cursor: byte, a: Option<Assignment>)
    requires InsertsAssigned(m, m', cursor, a)
    ensures InsertsAssigned(m, AgeTable(m'), cursor, a)
  {
    assert AgeTable(m').Keys == m'.Keys;
  }

  lemma RunInserts(s: TableRx, inp: RxInput)
    requires AllHaveIp(s.cache) && Parsed(ROLE_MASTER, inp.content)
    ensures var s1 := Deliver(s, inp.arrives);
      var o := RunTable(ROLE_MASTER, s1, inp.portEnabled, inp.admin, inp.cursor, inp.content);
      InsertsAssigned(s.cache, o.rx.cache, inp.cursor, o.assignment)
  {
    var s1 := Deliver(s, inp.arrives);
    var t := s1.(state := Transition(s1, inp.portEnabled, inp.admin));
    ActInserts(t, inp.cursor, inp.content);
    var o := ActTable(ROLE_MASTER, t, inp.cursor, inp.content);
    AgeingKeepsInserts(s.cache, o.rx.cache, inp.cursor, o.assignment);
  }

  lemma MasterInserts(s: ListRx, inp: RxInput)
    requires Good(s) && AllHaveIp(TableOf(s.cache)) && Parsed(ROLE_MASTER, inp.content)
    ensures var o := StepOut(ROLE_MASTER, s, inp);
      InsertsAssigned(TableOf(s.cache), TableOf(o.rx.cache), inp.cursor, o.assignment)
  {
    RunRefines(ROLE_MASTER, Deliver(s, inp.arrives), inp.portEnabled, inp.admin, inp.cursor, inp.content);
    RunInserts(Abstract(s), inp);
    var o := StepOut(ROLE_MASTER, s, inp);
    assert AbstractOut(o) == Out(Abstract(o.rx), o.cursor, o.assignment);
  }

  lemma SetIpTells(p: PortIdentity, ttl: u16, ws: seq<WifiPort>, mac: Mac, ip: Ipv4, residue: Ipv4, tail: seq<byte>)
    requires p.Encodable()
    ensures var g := SetIpFrame(p, ttl, ws, mac, ip);
      var v := Parse(g + tail, |g|, ROLE_SLAVE, residue);
      && IsAddressed(g, mac, p.mac)
      && v.Done? && v.scan.configured == [ip] && v.scan.msap == Some(p.mac + p.ifName)
  {
    RoundTrip.SetIpRoundTrip(p, ttl, ws, mac, ip, ROLE_SLAVE, residue, tail);
    BuiltTlvsFit(p, ttl, ws, ip);
    var g := SetIpFrame(p, ttl, ws, mac, ip);
    assert g[..14] == EthHeader(mac, p.mac);
    HeaderAddressed(g, mac, p.mac);
  }

  lemma AssignedTells(p: PortIdentity, ttl: u16, ws: seq<WifiPort>, b: Port.Outbox, a: Assignment, residue: Ipv4,
                      tail: seq<byte>)
    requires p.Encodable() && |a.id| >= 6
    ensures var sent' := Port.Assigned(p, ttl, ws, b, Some(a)).sent;
      && OneMore(b.sent, sent') && IsAddressed(Last(sent'), a.id[..6], p.mac)
      && var v := Parse(Last(sent') + tail, |Last(sent')|, ROLE_SLAVE, residue);
      && v.Done? && v.scan.configured == [a.ip]
  {
    SetIpTells(p, ttl, ws, a.id[..6], a.ip, residue, tail);
  }

  lemma RanIsStep(site: Site, a: State, e: Event)
    requires a.On(site) && e.port < |a.lanes| && !e.Transmit?
    ensures var l, l' := a.lanes[e.port], Next(site, a, e).lanes[e.port];
      if Receives(a, e) then
        && RxOutOf(site, a, e) == StepOut(site.dev, l.rx, RunInput(site, a, e)) && l'.rx == RxOutOf(site, a, e).rx
        && l'.wire == Port.Assigned(site.ports[e.port].identity, l.tx.txTTL, site.ws, l.wire,
                                    RxOutOf(site, a, e).assignment)
      else l'.rx == l.rx && l'.wire == l.wire
    ensures RunInput(site, a, e).cursor == a.cursor && Parsed(site.dev, RunInput(site, a, e).content)
  {
    var l := Fed(a, e);
    DigestsAreParsed(l.buffer, l.recvsize, site.dev, e.env.residue);
  }

  /** Every entry of the port has its address, as on a master it always does. */
  ghost predicate Settled(a: State, p: nat)
    requires p < |a.lanes|
  {
    Good(a.lanes[p].rx) && AllHaveIp(TableOf(a.lanes[p].rx.cache))
  }

  /** On a master, an event of the receive thread that lists a new neighbour puts exactly one frame on the wire of its
      port. It goes to the first six bytes of that neighbour's id, and a slave that parses it configures exactly the
      address under which the neighbour is listed: the pool's next one. */
  lemma AddressOnWire(site: Site, a: State, e: Event, k: Key, residue: Ipv4, tail: seq<byte>)
    requires a.On(site) && site.dev == ROLE_MASTER && e.port < |a.lanes| && !e.Transmit? && Settled(a, e.port)
    requires Survives(site, a, e) && !Listed(a, e.port, k) && Listed(Next(site, a, e), e.port, k)
    ensures var sent, sent' := SentBy(a, e.port), SentBy(Next(site, a, e), e.port);
      var entry := Listing(Next(site, a, e), e.port, k);
      && OneMore(sent, sent') && |entry.id| >= 6
      && IsAddressed(Last(sent'), entry.id[..6], site.ports[e.port].identity.mac)
      && var v := Parse(Last(sent') + tail, |Last(sent')|, ROLE_SLAVE, residue);
      && v.Done? && v.scan.configured == [entry.ip] && entry.ip == [169, 254, 30, a.cursor]
  {
    var p, l := site.ports[e.port].identity, a.lanes[e.port];
    RanIsStep(site, a, e);
    MasterInserts(l.rx, RunInput(site, a, e));
    var entry := Listing(Next(site, a, e), e.port, k);
    assert RxOutOf(site, a, e).assignment == Some(Assignment(entry.id, entry.ip)) && |entry.id| >= 6 by {
      assert InsertsAssigned(TableOf(l.rx.cache), TableOf(RxOutOf(site, a, e).rx.cache), a.cursor,
                             RxOutOf(site, a, e).assignment);
    }
    AssignedTells(p, l.tx.txTTL, site.ws, l.wire, Assignment(entry.id, entry.ip), residue, tail);
  }

  /** And one that lists nobody new sends nothing and leaves the pool as it is. */
  lemma NothingElseOnWire(site: Site, a: State, e: Event)
    requires a.On(site) && site.dev == ROLE_MASTER && e.port < |a.lanes| && !e.Transmit? && Settled(a, e.port)
    requires forall k :: Listed(Next(site, a, e), e.port, k) ==> Listed(a, e.port, k)
    ensures SentBy(Next(site, a, e), e.port) == SentBy(a, e.port) && Next(site, a, e).cursor == a.cursor
  {
    var l := a.lanes[e.port];
    RanIsStep(site, a, e);
    MasterRun(l.rx, RunInput(site, a, e));
    var o := RxOutOf(site, a, e);
    if Receives(a, e) && o.assignment.Some? {
      MasterInserts(l.rx, RunInput(site, a, e));
      assert Listed(Next(site, a, e), e.port, KeyOf(o.assignment.value.id));
    }
  }

  lemma SlaveAssignsNothing(dev: int, s: ListRx, inp: RxInput)
    requires dev != ROLE_MASTER
    ensures StepOut(dev, s, inp).assignment == None
  {
  }

  /** A slave's receive thread never sends. */
  lemma SlaveOnlyListens(site: Site, a: State, e: Event)
    requires a.On(site) && site.dev != ROLE_MASTER && e.port < |a.lanes| && !e.Transmit?
    ensures SentBy(Next(site, a, e), e.port) == SentBy(a, e.port)
  {
    RanIsStep(site, a, e);
    SlaveAssignsNothing(site.dev, a.lanes[e.port].rx, RunInput(site, a, e));
  }

  /** From a cold start every port of a master is settled at any time. */
  lemma AlwaysSettled(site: Site, a: State, es: seq<Event>, p: nat)
    requires a.On(site) && site.dev == ROLE_MASTER && OnPorts(site, es) && p < |a.lanes| && Cold(a)
    ensures Settled(After(site, a, es), p)
  {
    EventsAreAccounted(site, a, es);
    var b := After(site, a, es);
    var d, l := DeviceOf(b), LogAt(ROLE_MASTER, Devices(site, a, es), DeviceInputs(site, a, es),
                                   |DeviceInputs(site, a, es)|);
    assert d.ports[p] == b.lanes[p].rx;
    forall k | k in TableOf(b.lanes[p].rx.cache)
      ensures TableOf(b.lanes[p].rx.cache)[k].hasIp
    {
      assert SlotOk(d, l, (p, k));
    }
  }

  /** Address assignment on the wire, over all events: whenever a master lists a new neighbour, the frame that goes out
      is for that neighbour's own MAC, and makes it configure exactly the address it is listed under. */
  lemma EveryAddressOnWire(site: Site, a: State, es: seq<Event>, e: Event, k: Key, residue: Ipv4, tail: seq<byte>)
    requires a.On(site) && site.dev == ROLE_MASTER && OnPorts(site, es) && e.port < |a.lanes| && Cold(a)
    requires !e.Transmit? && AllSurvive(site, a, es) && Survives(site, After(site, a, es), e)
    requires var b := After(site, a, es); !Listed(b, e.port, k) && Listed(Next(site, b, e), e.port, k)
    ensures var b := After(site, a, es);
      var sent, sent' := SentBy(b, e.port), SentBy(Next(site, b, e), e.port);
      var entry := Listing(Next(site, b, e), e.port, k);
      && OneMore(sent, sent') && |entry.id| >= 6
      && IsAddressed(Last(sent'), entry.id[..6], site.ports[e.port].identity.mac)
      && var v := Parse(Last(sent') + tail, |Last(sent')|, ROLE_SLAVE, residue);
      && v.Done? && v.scan.configured == [entry.ip] && entry.ip == [169, 254, 30, b.cursor]
  {
    AlwaysSettled(site, a, es, e.port);
    AddressOnWire(site, After(site, a, es), e, k, residue, tail);
  }

  // -------- what a new neighbour is listed as --------

  /** The cache keeps two modules; a slot that was not announced is all zero. */
  predicate AreSlots(ms: seq<WifiMod>, ws: seq<WifiPort>) {
    && |ms| == 2
    && forall i :: 0 <= i < 2 ==>
         ms[i] == if i < |ws| then WifiMod(ws[i].mac, ws[i].mode % 256) else WifiMod([0, 0, 0, 0, 0, 0], 0)
  }

  lemma SlotsAreFirst(ws: seq<WifiPort>)
    ensures AreSlots(TwoSlots(FirstTwo(RoundTrip.Modules(ws))), ws)
  {
  }

  lemma EntersAs(dev: int, s: TableRx, inp: RxInput, k: Key, ttl: nat, n: Sender)
    requires Refreshes(StepTable(dev, s, inp), inp, k) && s.state == WaitForFrame && k !in s.cache
    requires inp.content == Digest(Some(ttl), Some(n))
    ensures var m, given := StepTable(dev, s, inp).cache, dev == ROLE_MASTER && n.role == ROLE_SLAVE;
      && k in m
      && m[k] == Entry(n.id, if ttl > 0 then ttl - 1 else 0, n.role, given,
                       if given then [169, 254, 30, inp.cursor] else n.ip, n.wifi)
  {
    RefreshStep(dev, s, inp, k);
  }

  lemma OnlyFromWaiting(dev: int, s: TableRx, inp: RxInput)
    requires StepTable(dev, s, inp).state == RxFrame
    ensures s.state == WaitForFrame
  {
  }

  lemma InfoNames(dev: int, p: PortIdentity, ttl: u16, ws: seq<WifiPort>, tail: seq<byte>, residue: Ipv4, n: Sender)
    requires p.Encodable() && Opposite(dev, p.role)
    requires n == Sender(p.mac + p.ifName, p.role, p.ip, TwoSlots(FirstTwo(RoundTrip.Modules(ws))))
    ensures var f := InfoFrame(p, ttl, ws);
      DigestOf(Parse(f + tail, |f|, dev, residue)) == Digest(Some(ttl), Some(n))
  {
    EndToEnd.InfoFrameDigest(p, ttl, ws, dev, residue, tail);
  }

  /** A run that processes the information frame of an unknown neighbour with the opposite role enters it as its
      frame describes it; a master gives it the pool's next address. */
  lemma NewNeighbour(dev: int, s: ListRx, inp: RxInput, p: PortIdentity, ttl: u16, ws: seq<WifiPort>, tail: seq<byte>,
                     residue: Ipv4)
    requires Good(s) && p.Encodable() && |p.ifName| < 250 && Opposite(dev, p.role)
    requires Step(dev, s, inp).state == RxFrame && (p.mac + p.ifName) !in TableOf(s.cache)
    requires var f := InfoFrame(p, ttl, ws); inp.content == DigestOf(Parse(f + tail, |f|, dev, residue))
    ensures var k, m := p.mac + p.ifName, TableOf(Step(dev, s, inp).cache);
      && k in m && m[k].id == k && m[k].ttl == (if ttl > 0 then ttl - 1 else 0) && m[k].role == p.role
      && m[k].hasIp == (dev == ROLE_MASTER)
      && m[k].ip == (if dev == ROLE_MASTER then [169, 254, 30, inp.cursor] else p.ip)
      && AreSlots(m[k].wifi, ws)
  {
    var k, slots := p.mac + p.ifName, TwoSlots(FirstTwo(RoundTrip.Modules(ws)));
    var n := Sender(k, p.role, p.ip, slots);
    InfoNames(dev, p, ttl, ws, tail, residue, n);
    SlotsAreFirst(ws);
    KeyIsId(k);
    StepGood(dev, s, inp);
    OnlyFromWaiting(dev, Abstract(s), inp);
    assert Refreshes(StepTable(dev, Abstract(s), inp), inp, k);
    EntersAs(dev, Abstract(s), inp, k, ttl, n);
  }

  /** The bytes in the buffer of this event's port, when it runs the machine, are the slave's information frame. */
  ghost predicate HearsSlave(site: Site, a: State, e: Event, slave: PortIdentity, ttl: u16, ws: seq<WifiPort>,
                             tail: seq<byte>)
    requires a.On(site) && e.port < |a.lanes|
  {
    && slave.Encodable() && |slave.ifName| < 250 && slave.role == ROLE_SLAVE
    && Receives(a, e) && RxOutOf(site, a, e).rx.state == RxFrame
    && Fed(a, e).buffer == InfoFrame(slave, ttl, ws) + tail && Fed(a, e).recvsize == |InfoFrame(slave, ttl, ws)|
  }

  lemma SlaveIsListed(site: Site, a: State, e: Event, slave: PortIdentity, ttl: u16, ws: seq<WifiPort>, tail: seq<byte>)
    requires a.On(site) && site.dev == ROLE_MASTER && e.port < |a.lanes| && Settled(a, e.port)
    requires HearsSlave(site, a, e, slave, ttl, ws, tail) && !Listed(a, e.port, slave.mac + slave.ifName)
    ensures var k := slave.mac + slave.ifName;
      && Listed(Next(site, a, e), e.port, k) && Listing(Next(site, a, e), e.port, k).id == k
      && RxOutOf(site, a, e).assignment == Some(Assignment(k, [169, 254, 30, a.cursor]))
      && VerdictOf(site.dev, Fed(a, e), e.env).Done?
  {
    var l, inp, k := a.lanes[e.port], RunInput(site, a, e), slave.mac + slave.ifName;
    RanIsStep(site, a, e);
    RoundTrip.InfoRoundTrip(slave, ttl, ws, site.dev, e.env.residue, tail);
    NewNeighbour(site.dev, l.rx, inp, slave, ttl, ws, tail, e.env.residue);
    MasterInserts(l.rx, inp);
    assert InsertsAssigned(TableOf(l.rx.cache), TableOf(RxOutOf(site, a, e).rx.cache), a.cursor,
                           RxOutOf(site, a, e).assignment);
  }

  /** From bytes to bytes: a master that processes the information frame of an unlisted slave survives that iff the
      set-IP frame fits its buffer. Then that frame goes out to the slave's MAC, and when the slave parses it, it
      configures exactly the address it is listed under. */
  lemma SlaveIsAnswered(site: Site, a: State, e: Event, slave: PortIdentity, ttl: u16, ws: seq<WifiPort>,
                        tail: seq<byte>, residue: Ipv4, tail': seq<byte>)
    requires a.On(site) && site.dev == ROLE_MASTER && e.port < |a.lanes| && Settled(a, e.port)
    requires HearsSlave(site, a, e, slave, ttl, ws, tail) && !Listed(a, e.port, slave.mac + slave.ifName)
    requires e.Readable? ==> ReadFits(a.lanes[e.port], e.read)
    ensures var p, l := site.ports[e.port], a.lanes[e.port];
      Survives(site, a, e) <==>
      |SetIpFrame(p.identity, l.tx.txTTL, site.ws, slave.mac, [169, 254, 30, a.cursor])| <= p.room
    ensures Survives(site, a, e) ==>
      var sent, sent' := SentBy(a, e.port), SentBy(Next(site, a, e), e.port);
      && OneMore(sent, sent') && IsAddressed(Last(sent'), slave.mac, site.ports[e.port].identity.mac)
      && Listed(Next(site, a, e), e.port, slave.mac + slave.ifName)
      && var v := Parse(Last(sent') + tail', |Last(sent')|, ROLE_SLAVE, residue);
      && v.Done? && v.scan.configured == [Listing(Next(site, a, e), e.port, slave.mac + slave.ifName).ip]
  {
    var k, p, l := slave.mac + slave.ifName, site.ports[e.port], a.lanes[e.port];
    SlaveIsListed(site, a, e, slave, ttl, ws, tail);
    SetIpFrameSize(p.identity, l.tx.txTTL, site.ws, slave.mac, [169, 254, 30, a.cursor]);
    assert k[..6] == slave.mac;
    if Survives(site, a, e) {
      AddressOnWire(site, a, e, k, residue, tail');
    }
  }
}
