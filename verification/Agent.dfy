/** The two threads on the heap: all ports of the device, each with its own objects, and the pool they share. */
module Agent {
  import opened Bytes
  import opened TlvFormat
  import opened Parser
  import TxSpec
  import RxRuns
  import TxRuns
  import opened Port
  import opened Threads
  import ThreadRuns

  ghost function FixtureOf(port: LldpPort): Fixture {
    Fixture(port.identity, port.txFrame.Length)
  }

  ghost function LaneOf(port: LldpPort): Lane
    reads port, port.msapCache`contents, port.rxFrame
  {
    Lane(port.RxView(), port.TxView(), port.rxFrame[..], port.recvsize, port.Wire())
  }

  // -------- one port --------

  /** The receive run of a port on which the event has been noted. */
  method RunMachine(port: LldpPort, pool: AddressPool, ws: seq<WifiPort>, arrives: bool, env: Env, ghost l: Lane)
    returns (alive: bool)
    requires port.Valid() && l == LaneOf(port).(rx := l.rx)
    requires port.RxView() == RxRuns.Deliver(l.rx, arrives)
    requires port.portEnabled == env.portEnabled && port.adminStatus == env.admin
    modifies port, port.txFrame, port.rxFrame, pool, port.msapCache, port.msapCache.repr
    ensures l.Valid() && port.identity.Encodable() && port.TxView() == l.tx && port.recvsize == l.recvsize
    ensures var o := RunOf(port.devRole, l, old(pool.last), arrives, env);
      && (alive <==> RunSurvives(FixtureOf(port), ws, l, VerdictOf(port.devRole, l, env), o))
      && (alive ==>
            && port.Valid() && fresh(port.msapCache.repr - old(port.msapCache.repr))
            && port.RxView() == o.rx && pool.last == o.cursor && l.recvsize >= 0
            && port.rxFrame[..] == Cleared(o.rx.state, l.buffer, l.recvsize)
            && port.Wire() == Assigned(port.identity, l.tx.txTTL, ws, l.wire, o.assignment))
  {
    alive := port.RxStatemachineRun(pool, ws, env.residue);
  }

  /** Sets what the step finds, and raises rcvFrame for a frame that is in the buffer. */
  method NoteEvent(port: LldpPort, arrives: bool, env: Env)
    requires port.Valid()
    modifies port`portEnabled, port`adminStatus, port`rcvFrame
    ensures port.Valid() && port.portEnabled == env.portEnabled && port.adminStatus == env.admin
    ensures port.RxView() == RxRuns.Deliver(old(port.RxView()), arrives)
    ensures LaneOf(port) == old(LaneOf(port)).(rx := port.RxView())
  {
    port.portEnabled, port.adminStatus := env.portEnabled, env.admin;
    if arrives {
      port.rcvFrame := true;
    }
  }

  method ServePort(port: LldpPort, pool: AddressPool, ws: seq<WifiPort>, arrives: bool, env: Env)
    returns (alive: bool)
    requires port.Valid()
    modifies port, port.txFrame, port.rxFrame, pool, port.msapCache, port.msapCache.repr
    ensures old(LaneOf(port)).Valid() && port.identity.Encodable()
    ensures var l := old(LaneOf(port));
      var o := RunOf(port.devRole, l, old(pool.last), arrives, env);
      && (alive <==> RunSurvives(FixtureOf(port), ws, l, VerdictOf(port.devRole, l, env), o))
      && (alive ==>
            && port.Valid() && fresh(port.msapCache.repr - old(port.msapCache.repr))
            && LaneOf(port) == Ran(FixtureOf(port), ws, l, o) && pool.last == o.cursor)
  {
    ghost var l := LaneOf(port);
    NoteEvent(port, arrives, env);
    alive := RunMachine(port, pool, ws, arrives, env, l);
  }

  /** One read of a port's socket, and whether the buffer then shows the LLDP type. */
  method ReadPort(port: LldpPort, read: Read) returns (alive: bool, shows: bool)
    requires port.Valid()
    modifies port.rxFrame, port`recvsize
    ensures port.Valid() && old(LaneOf(port)).Valid()
    ensures alive <==> ReadFits(old(LaneOf(port)), read)
    ensures alive ==> LaneOf(port) == Loaded(old(LaneOf(port)), read) && (shows <==> Shows(LaneOf(port)))
  {
    alive := port.ReadSocket(read);
    shows := false;
    if !alive || port.rxFrame.Length < ETH_HEADER_SIZE {
      return false, false;
    }
    assert port.rxFrame[12..14] == port.rxFrame[..][12..14];
    shows := port.rxFrame[12..14] == ETHERTYPE_LLDP;
  }

  /** Sets what the step finds, and whether something has changed locally. */
  method NoteChange(port: LldpPort, changed: bool, env: Env)
    requires port.Valid()
    modifies port`portEnabled, port`adminStatus, port`changedLocal
    ensures port.Valid() && port.portEnabled == env.portEnabled && port.adminStatus == env.admin
    ensures port.TxView() == old(port.TxView()).(changedLocal := old(port.changedLocal) || changed)
    ensures LaneOf(port) == old(LaneOf(port)).(tx := port.TxView())
  {
    port.portEnabled, port.adminStatus := env.portEnabled, env.admin;
    port.changedLocal := port.changedLocal || changed;
  }

  /** The transmit run of a port on which the event has been noted. */
  method RunTransmit(port: LldpPort, ws: seq<WifiPort>, changed: bool, env: Env, ghost l: Lane) returns (alive: bool)
    requires port.Valid() && l == LaneOf(port).(tx := l.tx)
    requires port.TxView() == l.tx.(changedLocal := l.tx.changedLocal || changed)
    requires port.portEnabled == env.portEnabled && port.adminStatus == env.admin
    modifies port, port.txFrame
    ensures l.Valid() && port.identity.Encodable()
    ensures port.RxView() == l.rx && port.rxFrame[..] == l.buffer && port.recvsize == l.recvsize
    ensures var o := TxRuns.StepTxOut(l.tx, TxRuns.TxInput(changed, env.portEnabled, env.admin));
      && (alive <==> (o.emission.SendInfo? ==> InfoFits(port.identity, ws, port.txFrame.Length)))
      && (alive ==>
            port.Valid() && port.TxView() == o.tx && port.Wire() == Emitted(port.identity, ws, l.wire, o.emission))
  {
    alive := port.TxStatemachineRun(ws);
  }

  method TransmitPort(port: LldpPort, ws: seq<WifiPort>, changed: bool, env: Env) returns (alive: bool)
    requires port.Valid()
    modifies port, port.txFrame
    ensures old(LaneOf(port)).Valid() && port.identity.Encodable()
    ensures var l := old(LaneOf(port));
      var o := TxRuns.StepTxOut(l.tx, TxRuns.TxInput(changed, env.portEnabled, env.admin));
      && (alive <==> (o.emission.SendInfo? ==> InfoFits(port.identity, ws, port.txFrame.Length)))
      && (alive ==> port.Valid() && LaneOf(port) == Sent(FixtureOf(port), ws, l, o))
  {
    ghost var l := LaneOf(port);
    NoteChange(port, changed, env);
    alive := RunTransmit(port, ws, changed, env, l);
  }

  /** The objects of a port hold lane `l`. */
  ghost predicate PortIs(port: LldpPort, dev: int, fixture: Fixture, l: Lane)
    reads port, port.msapCache, port.msapCache.repr, port.rxFrame, port.txFrame
  {
    port.Valid() && port.devRole == dev && FixtureOf(port) == fixture && LaneOf(port) == l
  }

  /** What an event does at its port: a read and the run it may call for. */
  method StepRead(port: LldpPort, pool: AddressPool, ws: seq<WifiPort>, e: Event, reading: Option<nat>,
                  ghost site: Site, ghost a: State) returns (alive: bool, reading': Option<nat>)
    requires a.On(site) && e.port < |a.lanes| && ws == site.ws && pool.last == a.cursor && reading == a.reading
    requires PortIs(port, site.dev, site.ports[e.port], a.lanes[e.port]) && e.Readable? && Attends(a, e)
    modifies port, port.txFrame, port.rxFrame, pool, port.msapCache, port.msapCache.repr
    ensures alive <==> Survives(site, a, e)
    ensures alive ==>
      && fresh(port.msapCache.repr - old(port.msapCache.repr))
      && PortIs(port, site.dev, site.ports[e.port], Next(site, a, e).lanes[e.port])
      && pool.last == Next(site, a, e).cursor && reading' == Next(site, a, e).reading
  {
    var shows;
    reading' := reading;
    alive, shows := ReadPort(port, e.read);
    if alive {
      reading' := if shows then None else Some(e.port);
      if shows && port.recvsize > 0 {
        alive := ServePort(port, pool, ws, true, e.env);
      }
    }
  }

  /** A run that is due because a second has passed, or on the transmit side. */
  method StepDue(port: LldpPort, pool: AddressPool, ws: seq<WifiPort>, e: Event, reading: Option<nat>,
                 ghost site: Site, ghost a: State) returns (alive: bool)
    requires a.On(site) && e.port < |a.lanes| && ws == site.ws && pool.last == a.cursor && reading == a.reading
    requires PortIs(port, site.dev, site.ports[e.port], a.lanes[e.port]) && !e.Readable?
    modifies port, port.txFrame, port.rxFrame, pool, port.msapCache, port.msapCache.repr
    ensures alive <==> Survives(site, a, e)
    ensures alive ==>
      && fresh(port.msapCache.repr - old(port.msapCache.repr))
      && PortIs(port, site.dev, site.ports[e.port], Next(site, a, e).lanes[e.port])
      && pool.last == Next(site, a, e).cursor && reading == Next(site, a, e).reading
  {
    alive := true;
    if e.Transmit? {
      alive := TransmitPort(port, ws, e.changed, e.env);
    } else if reading == None {
      alive := ServePort(port, pool, ws, false, e.env);
    }
  }

  method StepPort(port: LldpPort, pool: AddressPool, ws: seq<WifiPort>, e: Event, reading: Option<nat>,
                  ghost site: Site, ghost a: State) returns (alive: bool, reading': Option<nat>)
    requires a.On(site) && e.port < |a.lanes| && ws == site.ws && pool.last == a.cursor && reading == a.reading
    requires PortIs(port, site.dev, site.ports[e.port], a.lanes[e.port])
    modifies port, port.txFrame, port.rxFrame, pool, port.msapCache, port.msapCache.repr
    ensures alive <==> Survives(site, a, e)
    ensures alive ==>
      && fresh(port.msapCache.repr - old(port.msapCache.repr))
      && PortIs(port, site.dev, site.ports[e.port], Next(site, a, e).lanes[e.port])
      && pool.last == Next(site, a, e).cursor && reading' == Next(site, a, e).reading
  {
    alive, reading' := true, reading;
    if !e.Readable? {
      alive := StepDue(port, pool, ws, e, reading, site, a);
    } else if reading == None || reading == Some(e.port) {
      alive, reading' := StepRead(port, pool, ws, e, reading, site, a);
    }
  }

  // -------- all ports --------

  ghost function Footprint(port: LldpPort): set<object>
    reads port.msapCache`repr
  {
    {port, port.txFrame, port.rxFrame, port.msapCache} + port.msapCache.repr
  }

  /** The ports share nothing. */
  ghost predicate Apart(ports: seq<LldpPort>)
    reads set port | port in ports :: port.msapCache`repr
  {
    forall p, q :: 0 <= p < q < |ports| ==> Footprint(ports[p]) !! Footprint(ports[q])
  }

  /** All ports but `p` are in state `a`. */
  ghost predicate OthersAre(ports: seq<LldpPort>, p: nat, site: Site, a: State)
    requires |ports| == |a.lanes| == |site.ports|
    reads *
  {
    forall q :: 0 <= q < |ports| && q != p ==> PortIs(ports[q], site.dev, site.ports[q], a.lanes[q])
  }

  /** The objects are in state `a` of the device `site`. */
  ghost predicate Represents(ports: seq<LldpPort>, pool: AddressPool, reading: Option<nat>, site: Site, a: State)
    reads *
  {
    && a.On(site) && |ports| == |a.lanes| && Apart(ports)
    && (forall p :: 0 <= p < |ports| ==> PortIs(ports[p], site.dev, site.ports[p], a.lanes[p]))
    && pool.last == a.cursor && reading == a.reading
  }

  /** Every port but `p` is as it was. */
  twostate predicate OthersKept(ports: seq<LldpPort>, p: nat)
    reads *
  {
    forall q :: 0 <= q < |ports| && q != p ==>
      && Footprint(ports[q]) == old(Footprint(ports[q]))
      && LaneOf(ports[q]) == old(LaneOf(ports[q])) && (old(ports[q].Valid()) ==> ports[q].Valid())
  }

  /** `StepPort` on one port of the device does not touch the others. */
  method StepOne(ports: seq<LldpPort>, pool: AddressPool, ws: seq<WifiPort>, e: Event, reading: Option<nat>,
                 ghost site: Site, ghost a: State) returns (alive: bool, reading': Option<nat>)
    requires a.On(site) && e.port < |ports| == |a.lanes| && ws == site.ws && Apart(ports)
    requires PortIs(ports[e.port], site.dev, site.ports[e.port], a.lanes[e.port])
    requires pool.last == a.cursor && reading == a.reading
    modifies Footprint(ports[e.port]), pool
    ensures OthersKept(ports, e.port)
    ensures alive <==> Survives(site, a, e)
    ensures alive ==>
      && fresh(Footprint(ports[e.port]) - old(Footprint(ports[e.port])))
      && PortIs(ports[e.port], site.dev, site.ports[e.port], Next(site, a, e).lanes[e.port])
      && pool.last == Next(site, a, e).cursor && reading' == Next(site, a, e).reading
  {
    alive, reading' := StepPort(ports[e.port], pool, ws, e, reading, site, a);
  }

  method StepAmong(ports: seq<LldpPort>, pool: AddressPool, ws: seq<WifiPort>, e: Event, reading: Option<nat>,
                   ghost site: Site, ghost a: State) returns (alive: bool, reading': Option<nat>)
    requires a.On(site) && e.port < |ports| == |a.lanes| && ws == site.ws && Apart(ports)
    requires PortIs(ports[e.port], site.dev, site.ports[e.port], a.lanes[e.port]) && OthersAre(ports, e.port, site, a)
    requires pool.last == a.cursor && reading == a.reading
    modifies Footprint(ports[e.port]), pool
    ensures OthersAre(ports, e.port, site, a)
    ensures forall q :: 0 <= q < |ports| && q != e.port ==> Footprint(ports[q]) == old(Footprint(ports[q]))
    ensures alive <==> Survives(site, a, e)
    ensures alive ==>
      && Apart(ports) && fresh(Footprint(ports[e.port]) - old(Footprint(ports[e.port])))
      && PortIs(ports[e.port], site.dev, site.ports[e.port], Next(site, a, e).lanes[e.port])
      && pool.last == Next(site, a, e).cursor && reading' == Next(site, a, e).reading
  {
    alive, reading' := StepOne(ports, pool, ws, e, reading, site, a);
    forall q | 0 <= q < |ports| && q != e.port
      ensures PortIs(ports[q], site.dev, site.ports[q], a.lanes[q])
    {
    }
    if alive {
      forall q | 0 <= q < |ports| && q != e.port
        ensures Footprint(ports[q]) !! Footprint(ports[e.port])
      {
      }
    }
  }

  /** When only port `p` has changed, the objects represent the state with its lane replaced. */
  lemma Replaced(ports: seq<LldpPort>, pool: AddressPool, p: nat, reading: Option<nat>, site: Site, a: State, a': State)
    requires |ports| == |a.lanes| == |site.ports| && p < |ports| && Apart(ports) && OthersAre(ports, p, site, a)
    requires a'.On(site) && a'.lanes == a.lanes[p := a'.lanes[p]]
    requires PortIs(ports[p], site.dev, site.ports[p], a'.lanes[p]) && pool.last == a'.cursor && reading == a'.reading
    ensures Represents(ports, pool, reading, site, a')
  {
    forall q | 0 <= q < |ports|
      ensures PortIs(ports[q], site.dev, site.ports[q], a'.lanes[q])
    {
      assert q != p ==> PortIs(ports[q], site.dev, site.ports[q], a.lanes[q]);
    }
  }

  lemma NextReplaces(site: Site, a: State, e: Event)
    requires a.On(site) && e.port < |a.lanes|
    ensures Next(site, a, e).lanes == a.lanes[e.port := Next(site, a, e).lanes[e.port]]
  {
  }

  /** One event at any port of the device: the agent survives it exactly as the specification says, and then the
      objects are in the specification's next state. */
  method RunEvent(ports: seq<LldpPort>, pool: AddressPool, ws: seq<WifiPort>, e: Event, reading: Option<nat>,
                  ghost site: Site, ghost a: State) returns (alive: bool, reading': Option<nat>)
    requires Represents(ports, pool, reading, site, a) && e.port < |ports| && ws == site.ws
    modifies Footprint(ports[e.port]), pool
    ensures forall q :: 0 <= q < |ports| && q != e.port ==> Footprint(ports[q]) == old(Footprint(ports[q]))
    ensures alive <==> Survives(site, a, e)
    ensures alive ==> Represents(ports, pool, reading', site, Next(site, a, e))
    ensures alive ==> fresh(Footprint(ports[e.port]) - old(Footprint(ports[e.port])))
  {
    assert PortIs(ports[e.port], site.dev, site.ports[e.port], a.lanes[e.port]);
    alive, reading' := StepAmong(ports, pool, ws, e, reading, site, a);
    if alive {
      NextReplaces(site, a, e);
      Replaced(ports, pool, e.port, reading', site, a, Next(site, a, e));
    }
  }

  /** Everything the ports own is in `repr`. */
  ghost predicate Within(ports: seq<LldpPort>, repr: set<object>)
    reads set port | port in ports :: port.msapCache`repr
  {
    forall p :: 0 <= p < |ports| ==> Footprint(ports[p]) <= repr
  }

  /** `RunEvent` on objects within `repr`. */
  method RunWithin(ports: seq<LldpPort>, pool: AddressPool, ws: seq<WifiPort>, e: Event, reading: Option<nat>,
                   ghost site: Site, ghost a: State, ghost repr: set<object>)
    returns (alive: bool, reading': Option<nat>, ghost repr': set<object>)
    requires Represents(ports, pool, reading, site, a) && e.port < |ports| && ws == site.ws && Within(ports, repr)
    modifies repr, pool
    ensures alive <==> Survives(site, a, e)
    ensures alive ==>
      && Represents(ports, pool, reading', site, Next(site, a, e))
      && Within(ports, repr') && repr <= repr' && fresh(repr' - repr)
  {
    alive, reading' := RunEvent(ports, pool, ws, e, reading, site, a);
    repr' := repr + Footprint(ports[e.port]);
  }

  /** Any number of events, at any ports and of both threads, from any state: the agent survives exactly the
      sequences that the specification survives, and then its objects are in the state the specification leads to. */
  method RunEvents(ports: seq<LldpPort>, pool: AddressPool, ws: seq<WifiPort>, es: seq<Event>, reading: Option<nat>,
                   ghost site: Site, ghost a: State, ghost repr: set<object>)
    returns (alive: bool, reading': Option<nat>)
    requires Represents(ports, pool, reading, site, a) && OnPorts(site, es) && ws == site.ws && Within(ports, repr)
    modifies repr, pool
    ensures alive <==> AllSurvive(site, a, es)
    ensures alive ==> Represents(ports, pool, reading', site, After(site, a, es))
  {
    alive, reading' := true, reading;
    ghost var repr' := repr;
    for n := 0 to |es|
      invariant alive && AllSurvive(site, a, es[..n])
      invariant Represents(ports, pool, reading', site, After(site, a, es[..n]))
      invariant Within(ports, repr') && repr <= repr' && fresh(repr' - repr)
    {
      AfterNext(site, a, es, n);
      alive, reading', repr' := RunWithin(ports, pool, ws, es[n], reading', site, After(site, a, es[..n]), repr');
      if !alive {
        return;
      }
    }
    assert es[..|es|] == es;
  }

  lemma AfterNext(site: Site, a: State, es: seq<Event>, n: nat)
    requires a.On(site) && OnPorts(site, es) && n < |es|
    ensures After(site, a, es[..n + 1]) == Next(site, After(site, a, es[..n]), es[n])
    ensures AllSurvive(site, a, es[..n + 1]) <==>
            AllSurvive(site, a, es[..n]) && Survives(site, After(site, a, es[..n]), es[n])
    ensures AllSurvive(site, a, es) ==> AllSurvive(site, a, es[..n + 1])
  {
    assert Front(es[..n + 1]) == es[..n] && Last(es[..n + 1]) == es[n];
    if AllSurvive(site, a, es) {
      PrefixSurvives(site, a, es, n + 1);
    }
  }

  // -------- the start --------

  /** An interface that the agent finds. */
  datatype Interface = Interface(identity: PortIdentity, mtu: nat)
  {
    predicate Valid() {
      identity.Encodable() && 4 <= mtu < 0x1_0000
    }

    function Fixture(): Fixture
      requires Valid()
    {
      Threads.Fixture(identity, mtu - 2)
    }

    /** Its port when the first frame is out: with a TTL of 20, and the transmit machine in TX_IDLE. */
    function Lane(ws: seq<WifiPort>): Lane
      requires Valid()
    {
      var boot := Outbox([], 0, [0, 0, 0, 0], [0, 0, 0, 0, 0, 0]);
      Threads.Lane(RxRuns.RX_START, TxSpec.Enter(TxSpec.TX_BOOT, TxSpec.TxIdle), Zeros(mtu - 4), 0,
                   Emitted(identity, ws, boot, TxSpec.SendInfo(20)))
    }
  }

  method BootPort(i: Interface, devRole: int, ws: seq<WifiPort>) returns (alive: bool, port: LldpPort)
    requires i.Valid()
    ensures alive <==> InfoFits(i.identity, ws, i.mtu - 2)
    ensures alive ==> fresh(Footprint(port)) && !port.portEnabled && PortIs(port, devRole, i.Fixture(), i.Lane(ws))
  {
    port := new LldpPort(i.identity, devRole, i.mtu);
    alive := port.Announce(ws);
  }

  ghost predicate AllValid(nics: seq<Interface>) {
    forall i :: 0 <= i < |nics| ==> nics[i].Valid()
  }

  function FixturesOf(nics: seq<Interface>): seq<Fixture>
    requires AllValid(nics)
  {
    if nics == [] then [] else [Last(nics).Fixture()] + FixturesOf(Front(nics))
  }

  /** The device with a port for each interface, the last one found in front. */
  function SiteOf(nics: seq<Interface>, devRole: int, ws: seq<WifiPort>): Site
    requires AllValid(nics)
  {
    Site(devRole, ws, FixturesOf(nics))
  }

  function LanesOf(nics: seq<Interface>, ws: seq<WifiPort>): seq<Lane>
    requires AllValid(nics)
  {
    if nics == [] then [] else [Last(nics).Lane(ws)] + LanesOf(Front(nics), ws)
  }

  function StartOf(nics: seq<Interface>, ws: seq<WifiPort>): State
    requires AllValid(nics)
  {
    State(LanesOf(nics, ws), 30, None)
  }

  lemma BootedLane(nic: Interface, ws: seq<WifiPort>)
    requires nic.Valid()
    ensures var l := nic.Lane(ws);
      && l.Valid() && l.rx == RxRuns.RX_START
      && |l.wire.sent| == 1 && OwnFrame(nic.Fixture(), ws, l.wire.sent[0])
  {
    assert nic.Lane(ws).wire.sent == [InfoFrame(nic.identity, 20, ws)];
  }

  /** At the start nothing is cached. */
  lemma {:induction false} StartIsCold(nics: seq<Interface>, devRole: int, ws: seq<WifiPort>)
    requires AllValid(nics)
    ensures StartOf(nics, ws).On(SiteOf(nics, devRole, ws)) && ThreadRuns.Cold(StartOf(nics, ws))
    decreases |nics|
  {
    if nics == [] {
    } else {
      StartIsCold(Front(nics), devRole, ws);
      BootedLane(Last(nics), ws);
    }
  }

  /** And only own frames are on the wire. */
  lemma {:induction false} StartSendsOwn(nics: seq<Interface>, devRole: int, ws: seq<WifiPort>)
    requires AllValid(nics)
    ensures StartOf(nics, ws).On(SiteOf(nics, devRole, ws))
    ensures OwnFramesOnly(SiteOf(nics, devRole, ws), StartOf(nics, ws))
    decreases |nics|
  {
    StartIsCold(nics, devRole, ws);
    if nics == [] {
    } else {
      StartSendsOwn(Front(nics), devRole, ws);
      BootedLane(Last(nics), ws);
    }
  }

  /** A new port beside the others. */
  method BootAmong(ports: seq<LldpPort>, nic: Interface, devRole: int, ws: seq<WifiPort>,
                   ghost site: Site, ghost a: State) returns (alive: bool, port: LldpPort)
    requires |ports| == |a.lanes| == |site.ports| && Apart(ports) && nic.Valid()
    requires forall q :: 0 <= q < |ports| ==> PortIs(ports[q], devRole, site.ports[q], a.lanes[q])
    ensures alive <==> InfoFits(nic.identity, ws, nic.mtu - 2)
    ensures Apart(ports)
    ensures forall q :: 0 <= q < |ports| ==> Footprint(ports[q]) == old(Footprint(ports[q]))
    ensures forall q :: 0 <= q < |ports| ==> PortIs(ports[q], devRole, site.ports[q], a.lanes[q])
    ensures alive ==>
      && fresh(Footprint(port)) && PortIs(port, devRole, nic.Fixture(), nic.Lane(ws))
      && forall q :: 0 <= q < |ports| ==> Footprint(port) !! Footprint(ports[q])
  {
    alive, port := BootPort(nic, devRole, ws);
    assert forall q :: 0 <= q < |ports| ==> Footprint(ports[q]) == old(Footprint(ports[q]));
  }

  lemma PrependedApart(port: LldpPort, ports: seq<LldpPort>)
    requires Apart(ports) && forall q :: 0 <= q < |ports| ==> Footprint(port) !! Footprint(ports[q])
    ensures Apart([port] + ports)
  {
  }

  lemma Prepended(port: LldpPort, ports: seq<LldpPort>, pool: AddressPool, nic: Interface, ws: seq<WifiPort>,
                  site: Site, a: State)
    requires a.On(site) && |ports| == |a.lanes| && Apart(ports) && nic.Valid()
    requires forall q :: 0 <= q < |ports| ==> PortIs(ports[q], site.dev, site.ports[q], a.lanes[q])
    requires PortIs(port, site.dev, nic.Fixture(), nic.Lane(ws)) && pool.last == a.cursor && a.reading == None
    requires forall q :: 0 <= q < |ports| ==> Footprint(port) !! Footprint(ports[q])
    ensures Represents([port] + ports, pool, None, site.(ports := [nic.Fixture()] + site.ports),
                       a.(lanes := [nic.Lane(ws)] + a.lanes))
  {
    var ports', site' := [port] + ports, site.(ports := [nic.Fixture()] + site.ports);
    var a' := a.(lanes := [nic.Lane(ws)] + a.lanes);
    BootedLane(nic, ws);
    PrependedApart(port, ports);
    forall q | 0 <= q < |ports'|
      ensures PortIs(ports'[q], site'.dev, site'.ports[q], a'.lanes[q]) && a'.lanes[q].Valid()
      ensures site'.ports[q].identity.Encodable()
    {
      if q > 0 {
        assert PortIs(ports[q - 1], site.dev, site.ports[q - 1], a.lanes[q - 1]);
      }
    }
  }

  /** A new port in front of the others. */
  method AddPort(ports: seq<LldpPort>, pool: AddressPool, nic: Interface, devRole: int, ws: seq<WifiPort>,
                 ghost site: Site, ghost a: State) returns (alive: bool, port: LldpPort)
    requires Represents(ports, pool, None, site, a) && nic.Valid() && site.dev == devRole
    ensures alive <==> InfoFits(nic.identity, ws, nic.mtu - 2)
    ensures forall q :: 0 <= q < |ports| ==> Footprint(ports[q]) == old(Footprint(ports[q]))
    ensures alive ==> fresh(Footprint(port))
    ensures alive ==>
      Represents([port] + ports, pool, None, site.(ports := [nic.Fixture()] + site.ports),
                 a.(lanes := [nic.Lane(ws)] + a.lanes))
  {
    alive, port := BootAmong(ports, nic, devRole, ws, site, a);
    if alive {
      Prepended(port, ports, pool, nic, ws, site, a);
    }
  }

  lemma StartSnoc(nics: seq<Interface>, devRole: int, ws: seq<WifiPort>, n: nat)
    requires AllValid(nics) && n < |nics|
    ensures AllValid(nics[..n]) && AllValid(nics[..n + 1])
    ensures var site, a := SiteOf(nics[..n], devRole, ws), StartOf(nics[..n], ws);
      && SiteOf(nics[..n + 1], devRole, ws) == site.(ports := [nics[n].Fixture()] + site.ports)
      && StartOf(nics[..n + 1], ws) == a.(lanes := [nics[n].Lane(ws)] + a.lanes)
  {
    assert Front(nics[..n + 1]) == nics[..n] && Last(nics[..n + 1]) == nics[n];
  }

  /** The device in its start state, as far as these interfaces go; all its objects are in `repr`. */
  ghost predicate Started(ports: seq<LldpPort>, pool: AddressPool, nics: seq<Interface>, devRole: int,
                          ws: seq<WifiPort>, repr: set<object>)
    requires AllValid(nics)
    reads *
  {
    Represents(ports, pool, None, SiteOf(nics, devRole, ws), StartOf(nics, ws)) && Within(ports, repr)
  }

  lemma WithinPrepended(port: LldpPort, ports: seq<LldpPort>, repr: set<object>)
    requires Within(ports, repr)
    ensures Within([port] + ports, repr + Footprint(port))
  {
    var ports' := [port] + ports;
    forall p | 0 <= p < |ports'|
      ensures Footprint(ports'[p]) <= repr + Footprint(port)
    {
      assert p > 0 ==> ports'[p] == ports[p - 1];
    }
  }

  /** The port for interface `n`, in front of those for the interfaces before it. */
  method AddNth(ports: seq<LldpPort>, pool: AddressPool, nics: seq<Interface>, n: nat, devRole: int,
                ws: seq<WifiPort>, ghost repr: set<object>)
    returns (alive: bool, ports': seq<LldpPort>, ghost repr': set<object>)
    requires AllValid(nics) && n < |nics| && Started(ports, pool, nics[..n], devRole, ws, repr)
    ensures alive <==> InfoFits(nics[n].identity, ws, nics[n].mtu - 2)
    ensures fresh(repr' - repr)
    ensures alive ==> Started(ports', pool, nics[..n + 1], devRole, ws, repr')
  {
    StartSnoc(nics, devRole, ws, n);
    var port;
    alive, port := AddPort(ports, pool, nics[n], devRole, ws, SiteOf(nics[..n], devRole, ws),
                           StartOf(nics[..n], ws));
    ports', repr' := ports, repr;
    if alive {
      ports', repr' := [port] + ports, repr + Footprint(port);
      WithinPrepended(port, ports, repr);
    }
  }

  /** The first frame of every interface fits its buffer. */
  predicate FirstFramesFit(nics: seq<Interface>, ws: seq<WifiPort>)
    requires AllValid(nics)
  {
    forall i :: 0 <= i < |nics| ==> InfoFits(nics[i].identity, ws, nics[i].mtu - 2)
  }

  lemma FitSnoc(nics: seq<Interface>, ws: seq<WifiPort>, n: nat)
    requires AllValid(nics) && n < |nics| && FirstFramesFit(nics[..n], ws)
    ensures FirstFramesFit(nics[..n + 1], ws) <==> InfoFits(nics[n].identity, ws, nics[n].mtu - 2)
    ensures FirstFramesFit(nics, ws) ==> FirstFramesFit(nics[..n + 1], ws)
  {
    assert nics[..n + 1] == nics[..n] + [nics[n]];
  }

  lemma NoPorts(pool: AddressPool, devRole: int, ws: seq<WifiPort>)
    requires pool.last == 30
    ensures Started([], pool, [], devRole, ws, {})
  {
  }

  /** The loop of `initialize_lldp`: a port for each interface, put in front of those found before, with its first
      frame sent. It goes wrong exactly when such a frame does not fit, and else leaves the device in its start
      state. */
  method AddPorts(pool: AddressPool, nics: seq<Interface>, devRole: int, ws: seq<WifiPort>)
    returns (alive: bool, ports: seq<LldpPort>, ghost repr: set<object>)
    requires AllValid(nics) && pool.last == 30
    ensures alive <==> FirstFramesFit(nics, ws)
    ensures fresh(repr)
    ensures alive ==> Started(ports, pool, nics, devRole, ws, repr)
  {
    alive, ports, repr := true, [], {};
    NoPorts(pool, devRole, ws);
    assert nics[..0] == [];
    for n := 0 to |nics|
      invariant alive && Started(ports, pool, nics[..n], devRole, ws, repr) && fresh(repr)
      invariant FirstFramesFit(nics[..n], ws)
    {
      FitSnoc(nics, ws, n);
      ghost var repr': set<object>;
      alive, ports, repr' := AddNth(ports, pool, nics, n, devRole, ws, repr);
      repr := repr';
      if !alive {
        return;
      }
    }
    assert nics[..|nics|] == nics;
  }

  /** The agent from its start: it survives exactly when every first frame fits and the specification, started where
      nothing is cached, survives the events. */
  method RunAgent(nics: seq<Interface>, devRole: int, ws: seq<WifiPort>, es: seq<Event>) returns (alive: bool)
    requires AllValid(nics) && OnPorts(SiteOf(nics, devRole, ws), es)
    ensures StartOf(nics, ws).On(SiteOf(nics, devRole, ws))
    ensures alive <==> FirstFramesFit(nics, ws) && AllSurvive(SiteOf(nics, devRole, ws), StartOf(nics, ws), es)
  {
    StartIsCold(nics, devRole, ws);
    var pool := new AddressPool();
    var ports;
    ghost var repr: set<object>;
    alive, ports, repr := AddPorts(pool, nics, devRole, ws);
    if alive {
      var reading;
      alive, reading := RunEvents(ports, pool, ws, es, None, SiteOf(nics, devRole, ws), StartOf(nics, ws), repr);
    }
  }
}
