/** The agent's two threads over all its ports, as a state machine on bytes. The receive thread reads the sockets and
    runs the receive machines; the transmit thread runs the transmit machines. A run of either is one step. */
module Threads {
  import opened Bytes
  import opened TlvFormat
  import opened Parser
  import Neighbours
  import opened RxSpec
  import TxSpec
  import RxRuns
  import TxRuns
  import opened Port

  /** What a step finds: the port and admin status, and what the stack holds. */
  datatype Env = Env(portEnabled: bool, admin: AdminStatus, residue: Ipv4)

  /** What can happen: the socket of a port has something to read; a second has passed, so the receive machine of a
      port is due; or its transmit machine is due, with or without a local change. */
  datatype Event =
    | Readable(port: nat, read: Read, env: Env)
    | Second(port: nat, env: Env)
    | Transmit(port: nat, changed: bool, env: Env)

  /** What never changes on a port; `room` is the size of its transmit buffer. */
  datatype Fixture = Fixture(identity: PortIdentity, room: nat)

  /** What never changes on a device. */
  datatype Site = Site(dev: int, ws: seq<WifiPort>, ports: seq<Fixture>)
  {
    predicate Valid() {
      forall p :: 0 <= p < |ports| ==> ports[p].identity.Encodable()
    }
  }

  /** All that changes on a port. */
  datatype Lane = Lane(rx: ListRx, tx: TxSpec.Tx, buffer: seq<byte>, recvsize: int, wire: Outbox)
  {
    predicate Valid() {
      -1 <= recvsize <= |buffer|
    }
  }

  /** The ports, the allocator's cursor, and the port at which the receive thread is kept reading, if any. */
  datatype State = State(lanes: seq<Lane>, cursor: byte, reading: Option<nat>)
  {
    predicate On(site: Site) {
      site.Valid() && |lanes| == |site.ports| && forall p :: 0 <= p < |lanes| ==> lanes[p].Valid()
    }
  }

  // -------- one port --------

  /** The port after a read. What is read stays in the buffer, whatever it is. */
  function Loaded(l: Lane, read: Read): (l': Lane)
    requires l.Valid()
    ensures l'.Valid()
  {
    match read
    case Failed => l.(recvsize := -1)
    case Got(f) => if |f| <= |l.buffer| then l.(buffer := f + l.buffer[|f|..], recvsize := |f|) else l
  }

  /** The buffer has the LLDP type where a frame has its type. */
  predicate Shows(l: Lane) {
    |l.buffer| >= ETH_HEADER_SIZE && l.buffer[12..14] == ETHERTYPE_LLDP
  }

  predicate ReadFits(l: Lane, read: Read) {
    ETH_HEADER_SIZE <= |l.buffer| && (read.Got? ==> |read.bytes| <= |l.buffer|)
  }

  function VerdictOf(dev: int, l: Lane, env: Env): Verdict {
    Parse(l.buffer, l.recvsize, dev, env.residue)
  }

  /** The run as `RxRuns` sees it: its content is what the bytes in the buffer parse to. */
  function InputOf(dev: int, l: Lane, cursor: byte, arrives: bool, env: Env): RxRuns.RxInput {
    RxRuns.RxInput(arrives, env.portEnabled, env.admin, DigestOf(VerdictOf(dev, l, env)), cursor)
  }

  function RunOf(dev: int, l: Lane, cursor: byte, arrives: bool, env: Env): Out<seq<Neighbours.Entry>> {
    RxRuns.StepOut(dev, l.rx, InputOf(dev, l, cursor, arrives, env))
  }

  /** The port after a receive run with outcome `o`. */
  function Ran(port: Fixture, ws: seq<WifiPort>, l: Lane, o: Out<seq<Neighbours.Entry>>): (l': Lane)
    requires port.identity.Encodable() && l.Valid()
    ensures l'.Valid()
  {
    l.(rx := o.rx,
       buffer := if l.recvsize >= 0 then Cleared(o.rx.state, l.buffer, l.recvsize) else l.buffer,
       wire := Assigned(port.identity, l.tx.txTTL, ws, l.wire, o.assignment))
  }

  /** The last read did not fail; and if the run processes a frame, the parser gets through it, and the address it
      calls for, if any, can be sent. */
  predicate RunSurvives(port: Fixture, ws: seq<WifiPort>, l: Lane, v: Verdict, o: Out<seq<Neighbours.Entry>>) {
    && l.recvsize >= 0
    && (o.rx.state == RxFrame ==> v.Done? && Sendable(port.identity, ws, port.room, o.assignment))
  }

  /** The port after a transmit run with outcome `o`. */
  function Sent(port: Fixture, ws: seq<WifiPort>, l: Lane, o: TxSpec.TxOut): (l': Lane)
    requires port.identity.Encodable() && l.Valid()
    ensures l'.Valid()
  {
    l.(tx := o.tx, wire := Emitted(port.identity, ws, l.wire, o.emission))
  }

  // -------- one event --------

  /** The receive thread comes to the event. While a port's buffer shows another type, it does nothing but read that
      port again. */
  predicate Attends(a: State, e: Event) {
    match e
    case Readable(p, _, _) => a.reading == None || a.reading == Some(p)
    case Second(_, _) => a.reading == None
    case Transmit(_, _, _) => false
  }

  /** The port of the event when its read, if it has one, is done. */
  function Fed(a: State, e: Event): (l: Lane)
    requires e.port < |a.lanes| && a.lanes[e.port].Valid()
    ensures l.Valid()
  {
    if e.Readable? then Loaded(a.lanes[e.port], e.read) else a.lanes[e.port]
  }

  /** The event makes the receive machine of its port run: always when a second has passed, and after a read when
      the buffer shows the LLDP type and there was something to read. */
  predicate Receives(a: State, e: Event)
    requires e.port < |a.lanes| && a.lanes[e.port].Valid()
  {
    Attends(a, e) && (e.Second? || (Shows(Fed(a, e)) && Fed(a, e).recvsize > 0))
  }

  function RxOutOf(site: Site, a: State, e: Event): Out<seq<Neighbours.Entry>>
    requires e.port < |a.lanes| && a.lanes[e.port].Valid()
  {
    RunOf(site.dev, Fed(a, e), a.cursor, e.Readable?, e.env)
  }

  function TxInputOf(e: Event): TxRuns.TxInput
    requires e.Transmit?
  {
    TxRuns.TxInput(e.changed, e.env.portEnabled, e.env.admin)
  }

  function TxOutOf(a: State, e: Event): TxSpec.TxOut
    requires e.Transmit? && e.port < |a.lanes|
  {
    TxRuns.StepTxOut(a.lanes[e.port].tx, TxInputOf(e))
  }

  function Next(site: Site, a: State, e: Event): (a': State)
    requires a.On(site) && e.port < |a.lanes|
    ensures a'.On(site)
  {
    var p := e.port;
    if e.Transmit? then
      a.(lanes := a.lanes[p := Sent(site.ports[p], site.ws, a.lanes[p], TxOutOf(a, e))])
    else if !Attends(a, e) then
      a
    else if Receives(a, e) then
      var o := RxOutOf(site, a, e);
      State(a.lanes[p := Ran(site.ports[p], site.ws, Fed(a, e), o)], o.cursor, None)
    else
      State(a.lanes[p := Fed(a, e)], a.cursor, if Shows(Fed(a, e)) then None else Some(p))
  }

  /** The agent gets through the event: no buffer is left, and no frame is parsed on which the parser spins. */
  predicate Survives(site: Site, a: State, e: Event)
    requires a.On(site) && e.port < |a.lanes|
  {
    var port := site.ports[e.port];
    if e.Transmit? then
      TxOutOf(a, e).emission.SendInfo? ==> InfoFits(port.identity, site.ws, port.room)
    else
      Attends(a, e) ==>
        && (e.Readable? ==> ReadFits(a.lanes[e.port], e.read))
        && (Receives(a, e) ==>
              RunSurvives(port, site.ws, Fed(a, e), VerdictOf(site.dev, Fed(a, e), e.env), RxOutOf(site, a, e)))
  }

  // -------- many events --------

  predicate OnPorts(site: Site, es: seq<Event>) {
    forall i :: 0 <= i < |es| ==> es[i].port < |site.ports|
  }

  function After(site: Site, a: State, es: seq<Event>): (a': State)
    requires a.On(site) && OnPorts(site, es)
    ensures a'.On(site)
  {
    if es == [] then a else Next(site, After(site, a, Front(es)), Last(es))
  }

  predicate AllSurvive(site: Site, a: State, es: seq<Event>)
    requires a.On(site) && OnPorts(site, es)
  {
    es == [] || (AllSurvive(site, a, Front(es)) && Survives(site, After(site, a, Front(es)), Last(es)))
  }

  lemma {:induction false} PrefixSurvives(site: Site, a: State, es: seq<Event>, n: nat)
    requires a.On(site) && OnPorts(site, es) && n <= |es| && AllSurvive(site, a, es)
    ensures AllSurvive(site, a, es[..n])
    decreases |es|
  {
    if n == |es| {
      assert es[..n] == es;
    } else {
      assert Front(es)[..n] == es[..n];
      PrefixSurvives(site, a, Front(es), n);
    }
  }

  // -------- a port that shows another type --------

  /** A read that cannot bring the LLDP type into a buffer that does not show it. */
  predicate Foreign(read: Read) {
    || read.Failed?
    || |read.bytes| <= 12
    || (|read.bytes| >= ETH_HEADER_SIZE && read.bytes[12..14] != ETHERTYPE_LLDP)
  }

  /** A whole frame that fits the buffer keeps the thread reading its port iff it is of another type. */
  lemma FrameKeepsReadingIff(site: Site, a: State, p: nat, f: seq<byte>, env: Env)
    requires a.On(site) && p < |a.lanes| && a.reading == None && ETH_HEADER_SIZE <= |f| <= |a.lanes[p].buffer|
    ensures Next(site, a, Readable(p, Got(f), env)).reading == Some(p) <==> f[12..14] != ETHERTYPE_LLDP
  {
    var l := Loaded(a.lanes[p], Got(f));
    assert l.buffer[12..14] == f[12..14];
  }

  /** A failed read is fatal to the next second iff the buffer shows the LLDP type, as it does while a frame is
      pending in it: then the machine runs with a recvsize of -1. Else the thread just reads on. */
  lemma FailedReadFatalIff(site: Site, a: State, p: nat, env: Env, env': Env)
    requires a.On(site) && p < |a.lanes| && a.reading == None
    ensures Survives(site, Next(site, a, Readable(p, Failed, env)), Second(p, env')) <==> !Shows(a.lanes[p])
  {
    var b := Next(site, a, Readable(p, Failed, env));
    assert b.lanes[p].recvsize == -1 && b.lanes[p].buffer == a.lanes[p].buffer;
  }

  ghost predicate Stuck(a: State, p: nat) {
    p < |a.lanes| && a.reading == Some(p) && !Shows(a.lanes[p])
  }

  lemma ForeignHides(l: Lane, read: Read)
    requires l.Valid() && !Shows(l) && Foreign(read)
    ensures !Shows(Loaded(l, read))
  {
    var l' := Loaded(l, read);
    if read.Got? && ETH_HEADER_SIZE <= |l.buffer| && |read.bytes| <= |l.buffer| {
      var f := read.bytes;
      if |f| <= 12 {
        assert l'.buffer[12..14] == l.buffer[12..14];
      } else {
        assert l'.buffer[12..14] == f[12..14];
      }
    }
  }

  lemma StuckStep(site: Site, a: State, e: Event, p: nat)
    requires a.On(site) && e.port < |a.lanes| && Stuck(a, p)
    requires e.Readable? && e.port == p ==> Foreign(e.read)
    ensures Stuck(Next(site, a, e), p)
    ensures forall q :: 0 <= q < |a.lanes| ==> Next(site, a, e).lanes[q].rx == a.lanes[q].rx
  {
    if e.Readable? && e.port == p {
      ForeignHides(a.lanes[p], e.read);
    }
  }

  /** Once a port shows another type, and for as long as only such reads come in on it, no receive machine of any
      port runs, however many seconds pass and whatever the other sockets have to read: no entry ages. */
  lemma {:induction false} ForeignStallsAll(site: Site, a: State, es: seq<Event>, p: nat)
    requires a.On(site) && OnPorts(site, es) && Stuck(a, p)
    requires forall i :: 0 <= i < |es| && es[i].Readable? && es[i].port == p ==> Foreign(es[i].read)
    ensures Stuck(After(site, a, es), p)
    ensures forall q :: 0 <= q < |a.lanes| ==> After(site, a, es).lanes[q].rx == a.lanes[q].rx
    decreases |es|
  {
    if es == [] {
    } else {
      ForeignStallsAll(site, a, Front(es), p);
      StuckStep(site, After(site, a, Front(es)), Last(es), p);
    }
  }

  // -------- the threads do not interfere --------

  function ReceiveOnly(es: seq<Event>): seq<Event> {
    if es == [] then [] else ReceiveOnly(Front(es)) + if Last(es).Transmit? then [] else [Last(es)]
  }

  function TransmitOnly(es: seq<Event>): seq<Event> {
    if es == [] then [] else TransmitOnly(Front(es)) + if Last(es).Transmit? then [Last(es)] else []
  }

  /** Equal in all that the receive thread writes, except for the wire. */
  ghost predicate SameReceive(a: State, b: State) {
    && |a.lanes| == |b.lanes| && a.cursor == b.cursor && a.reading == b.reading
    && forall p :: 0 <= p < |a.lanes| ==>
         && a.lanes[p].rx == b.lanes[p].rx && a.lanes[p].buffer == b.lanes[p].buffer
         && a.lanes[p].recvsize == b.lanes[p].recvsize
  }

  /** Equal in all that the transmit thread writes, except for the wire. */
  ghost predicate SameTransmit(a: State, b: State) {
    |a.lanes| == |b.lanes| && forall p :: 0 <= p < |a.lanes| ==> a.lanes[p].tx == b.lanes[p].tx
  }

  lemma SameRun(site: Site, a: State, b: State, e: Event)
    requires a.On(site) && b.On(site) && SameReceive(a, b) && e.port < |a.lanes|
    ensures var l, m := Fed(a, e), Fed(b, e);
      && l.rx == m.rx && l.buffer == m.buffer && l.recvsize == m.recvsize
      && RxOutOf(site, a, e) == RxOutOf(site, b, e)
    ensures Receives(a, e) <==> Receives(b, e)
  {
    var l, m := a.lanes[e.port], b.lanes[e.port];
    assert l.rx == m.rx && l.buffer == m.buffer && l.recvsize == m.recvsize;
  }

  lemma ReceiveStep(site: Site, a: State, b: State, e: Event)
    requires a.On(site) && b.On(site) && SameReceive(a, b) && e.port < |a.lanes|
    ensures if e.Transmit? then SameReceive(Next(site, a, e), b)
            else SameReceive(Next(site, a, e), Next(site, b, e)) && (Survives(site, a, e) <==> Survives(site, b, e))
  {
    var l, m := a.lanes[e.port], b.lanes[e.port];
    assert l.rx == m.rx && l.buffer == m.buffer && l.recvsize == m.recvsize;
    if !e.Transmit? {
      SameRun(site, a, b, e);
      assert VerdictOf(site.dev, Fed(a, e), e.env) == VerdictOf(site.dev, Fed(b, e), e.env);
    }
  }

  lemma TransmitStep(site: Site, a: State, b: State, e: Event)
    requires a.On(site) && b.On(site) && SameTransmit(a, b) && e.port < |a.lanes|
    ensures if e.Transmit? then SameTransmit(Next(site, a, e), Next(site, b, e)) &&
                                (Survives(site, a, e) <==> Survives(site, b, e))
            else SameTransmit(Next(site, a, e), b)
  {
    assert a.lanes[e.port].tx == b.lanes[e.port].tx;
  }

  lemma {:induction false} OnlyOnPorts(site: Site, es: seq<Event>)
    requires OnPorts(site, es)
    ensures OnPorts(site, ReceiveOnly(es)) && OnPorts(site, TransmitOnly(es))
    decreases |es|
  {
    if es == [] {
    } else {
      OnlyOnPorts(site, Front(es));
    }
  }

  lemma AfterSnoc(site: Site, a: State, es: seq<Event>, e: Event)
    requires a.On(site) && OnPorts(site, es) && e.port < |site.ports|
    ensures OnPorts(site, es + [e]) && Front(es + [e]) == es && Last(es + [e]) == e
    ensures After(site, a, es + [e]) == Next(site, After(site, a, es), e)
    ensures AllSurvive(site, a, es + [e]) <==> AllSurvive(site, a, es) && Survives(site, After(site, a, es), e)
  {
    assert Front(es + [e]) == es;
  }

  /** However runs of the two threads interleave, on the same ports and the same buffers: the receive side is what
      the receive thread's events alone lead to, the transmit machines are what the transmit thread's events alone
      lead to, and the agent survives iff it survives either alone. */
  lemma {:induction false} ThreadsIndependent(site: Site, a: State, es: seq<Event>)
    requires a.On(site) && OnPorts(site, es)
    ensures OnPorts(site, ReceiveOnly(es)) && OnPorts(site, TransmitOnly(es))
    ensures SameReceive(After(site, a, es), After(site, a, ReceiveOnly(es)))
    ensures SameTransmit(After(site, a, es), After(site, a, TransmitOnly(es)))
    ensures AllSurvive(site, a, es) <==>
            AllSurvive(site, a, ReceiveOnly(es)) && AllSurvive(site, a, TransmitOnly(es))
    decreases |es|
  {
    OnlyOnPorts(site, es);
    if es == [] {
    } else {
      var before, e := Front(es), Last(es);
      ThreadsIndependent(site, a, before);
      ReceiveStep(site, After(site, a, before), After(site, a, ReceiveOnly(before)), e);
      TransmitStep(site, After(site, a, before), After(site, a, TransmitOnly(before)), e);
      if e.Transmit? {
        assert ReceiveOnly(es) == ReceiveOnly(before);
        AfterSnoc(site, a, TransmitOnly(before), e);
      } else {
        assert TransmitOnly(es) == TransmitOnly(before);
        AfterSnoc(site, a, ReceiveOnly(before), e);
      }
    }
  }

  // -------- what is on the wire --------

  /** A frame that the port may send: its own information, an address for a neighbour, or zeros. */
  ghost predicate OwnFrame(port: Fixture, ws: seq<WifiPort>, f: seq<byte>)
    requires port.identity.Encodable()
  {
    || (exists ttl: u16 :: f == InfoFrame(port.identity, ttl, ws))
    || (exists ttl: u16, mac: Mac, last: byte :: f == SetIpFrame(port.identity, ttl, ws, mac, AddressAt(last)))
    || (exists n: nat :: f == Zeros(n))
  }

  ghost predicate OwnFramesOnly(site: Site, a: State)
    requires a.On(site)
  {
    forall p, i :: 0 <= p < |a.lanes| && 0 <= i < |a.lanes[p].wire.sent| ==>
      OwnFrame(site.ports[p], site.ws, a.lanes[p].wire.sent[i])
  }

  lemma AssignsOwnRange(dev: int, l: Lane, cursor: byte, arrives: bool, env: Env)
    ensures var o := RunOf(dev, l, cursor, arrives, env);
      o.assignment.Some? ==> o.assignment.value.ip == AddressAt(cursor)
  {
  }

  ghost predicate Grows(port: Fixture, ws: seq<WifiPort>, sent: seq<seq<byte>>, sent': seq<seq<byte>>)
    requires port.identity.Encodable()
  {
    sent' == sent || (sent' != [] && Front(sent') == sent && OwnFrame(port, ws, Last(sent')))
  }

  lemma EmittedGrows(port: Fixture, ws: seq<WifiPort>, b: Outbox, emission: TxSpec.Emission)
    requires port.identity.Encodable()
    ensures Grows(port, ws, b.sent, Emitted(port.identity, ws, b, emission).sent)
  {
  }

  lemma AssignedGrows(port: Fixture, ttl: u16, ws: seq<WifiPort>, b: Outbox, a: Option<Assignment>, last: byte)
    requires port.identity.Encodable() && (a.Some? ==> a.value.ip == AddressAt(last))
    ensures Grows(port, ws, b.sent, Assigned(port.identity, ttl, ws, b, a).sent)
  {
  }

  /** An event appends at most one frame to the wire of its port, and that is one of its own. */
  lemma SentStep(site: Site, a: State, e: Event)
    requires a.On(site) && e.port < |a.lanes|
    ensures Grows(site.ports[e.port], site.ws, a.lanes[e.port].wire.sent, Next(site, a, e).lanes[e.port].wire.sent)
  {
    var port, l := site.ports[e.port], a.lanes[e.port];
    if e.Transmit? {
      EmittedGrows(port, site.ws, l.wire, TxOutOf(a, e).emission);
    } else {
      var o := RxOutOf(site, a, e);
      AssignsOwnRange(site.dev, Fed(a, e), a.cursor, e.Readable?, e.env);
      AssignedGrows(port, l.tx.txTTL, site.ws, l.wire, o.assignment, a.cursor);
    }
  }

  lemma OwnFramesStep(site: Site, a: State, e: Event)
    requires a.On(site) && e.port < |a.lanes| && OwnFramesOnly(site, a)
    ensures OwnFramesOnly(site, Next(site, a, e))
  {
    var a', p := Next(site, a, e), e.port;
    SentStep(site, a, e);
    forall q, i | 0 <= q < |a'.lanes| && 0 <= i < |a'.lanes[q].wire.sent|
      ensures OwnFrame(site.ports[q], site.ws, a'.lanes[q].wire.sent[i])
    {
      if q != p || i < |a.lanes[p].wire.sent| {
        assert a'.lanes[q].wire.sent[i] == a.lanes[q].wire.sent[i];
      }
    }
  }

  /** Whatever comes in, nothing else ever goes out: every frame of every port is one that its own builders make, an
      address in it is one of the pool's, or it is all zero. */
  lemma {:induction false} OnlyOwnFrames(site: Site, a: State, es: seq<Event>)
    requires a.On(site) && OnPorts(site, es) && OwnFramesOnly(site, a)
    ensures OwnFramesOnly(site, After(site, a, es))
    decreases |es|
  {
    if es == [] {
    } else {
      OnlyOwnFrames(site, a, Front(es));
      OwnFramesStep(site, After(site, a, Front(es)), Last(es));
    }
  }
}
