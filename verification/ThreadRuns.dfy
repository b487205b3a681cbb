/** The events of `Threads` as the runs that `RxRuns`, `TxRuns` and `Allocation` are about. */
module ThreadRuns {
  import opened Bytes
  import TlvFormat
  import opened Parser
  import RxSpec
  import TxSpec
  import opened RxRuns
  import TxRuns
  import opened Allocation
  import opened Threads

  /** Ports and pool as the agent starts: waiting, with nothing cached. */
  ghost predicate Cold(a: State) {
    a.cursor == FIRST_LAST_BYTE && a.reading == None && forall p :: 0 <= p < |a.lanes| ==> a.lanes[p].rx == RX_START
  }

  // -------- the whole device --------

  function DeviceOf(a: State): (d: Device)
    ensures |d.ports| == |a.lanes|
  {
    Device(seq(|a.lanes|, p requires 0 <= p < |a.lanes| => a.lanes[p].rx), a.cursor)
  }

  function RunInput(site: Site, a: State, e: Event): RxInput
    requires e.port < |a.lanes| && a.lanes[e.port].Valid()
  {
    InputOf(site.dev, Fed(a, e), a.cursor, e.Readable?, e.env)
  }

  /** The receive runs among the events. */
  function DeviceInputs(site: Site, a: State, es: seq<Event>): seq<DeviceInput>
    requires a.On(site) && OnPorts(site, es)
  {
    if es == [] then []
    else
      var b, e := After(site, a, Front(es)), Last(es);
      DeviceInputs(site, a, Front(es)) + if Receives(b, e) then [DeviceInput(e.port, RunInput(site, b, e))] else []
  }

  /** The ports before the first of these runs and after each. */
  function Devices(site: Site, a: State, es: seq<Event>): seq<Device>
    requires a.On(site) && OnPorts(site, es)
  {
    if es == [] then [DeviceOf(a)]
    else
      var b, e := After(site, a, Front(es)), Last(es);
      Devices(site, a, Front(es)) + if Receives(b, e) then [DeviceOf(Next(site, b, e))] else []
  }

  ghost predicate ServedAt(dev: int, ds: seq<Device>, ins: seq<DeviceInput>, i: nat)
    requires i < |ins| && i + 1 < |ds|
  {
    && ins[i].port < |ds[i].ports| && Parsed(dev, ins[i].inp.content)
    && ds[i + 1] == StepDevice(dev, ds[i], ins[i])
  }

  ghost predicate Served(dev: int, ds: seq<Device>, ins: seq<DeviceInput>) {
    |ds| == |ins| + 1 && forall i :: 0 <= i < |ins| ==> ServedAt(dev, ds, ins, i)
  }

  lemma DeviceStep(site: Site, a: State, e: Event)
    requires a.On(site) && e.port < |a.lanes|
    ensures if Receives(a, e) then
              var di := DeviceInput(e.port, RunInput(site, a, e));
              DeviceOf(Next(site, a, e)) == StepDevice(site.dev, DeviceOf(a), di) && Parsed(site.dev, di.inp.content)
            else DeviceOf(Next(site, a, e)) == DeviceOf(a)
  {
    var l := Fed(a, e);
    DigestsAreParsed(l.buffer, l.recvsize, site.dev, e.env.residue);
    var d, d' := DeviceOf(a), DeviceOf(Next(site, a, e));
    assert d.ports[e.port] == l.rx;
    if Receives(a, e) {
      assert d'.ports == d.ports[e.port := RxOutOf(site, a, e).rx];
    } else {
      assert d'.ports == d.ports;
    }
  }

  lemma ServedSnoc(dev: int, ds: seq<Device>, ins: seq<DeviceInput>, di: DeviceInput)
    requires Served(dev, ds, ins) && di.port < |ds[|ins|].ports| && Parsed(dev, di.inp.content)
    ensures Served(dev, ds + [StepDevice(dev, ds[|ins|], di)], ins + [di])
  {
    var ds', ins' := ds + [StepDevice(dev, ds[|ins|], di)], ins + [di];
    forall i | 0 <= i < |ins'|
      ensures ServedAt(dev, ds', ins', i)
    {
      assert i < |ins| ==> ServedAt(dev, ds, ins, i);
    }
  }

  lemma {:induction false} EventsAreServed(site: Site, a: State, es: seq<Event>)
    requires a.On(site) && OnPorts(site, es)
    ensures var ds, ins := Devices(site, a, es), DeviceInputs(site, a, es);
      Served(site.dev, ds, ins) && ds[0] == DeviceOf(a) && ds[|ins|] == DeviceOf(After(site, a, es))
    decreases |es|
  {
    if es == [] {
    } else {
      EventsAreServed(site, a, Front(es));
      var b, e := After(site, a, Front(es)), Last(es);
      var ds, ins := Devices(site, a, Front(es)), DeviceInputs(site, a, Front(es));
      DeviceStep(site, b, e);
      if Receives(b, e) {
        ServedSnoc(site.dev, ds, ins, DeviceInput(e.port, RunInput(site, b, e)));
      } else {
        assert ds + [] == ds && ins + [] == ins;
      }
    }
  }

  /** From a cold start the receive runs among the events, on all ports, are a run of the device; so on a master
      every address handed out over them is accounted for. */
  lemma EventsAreAccounted(site: Site, a: State, es: seq<Event>)
    requires a.On(site) && OnPorts(site, es) && Cold(a)
    ensures var ds, ins := Devices(site, a, es), DeviceInputs(site, a, es);
      && DeviceTrace(site.dev, ds, ins) && ds[|ins|] == DeviceOf(After(site, a, es))
      && (site.dev == TlvFormat.ROLE_MASTER ==> Accounted(ds[|ins|], LogAt(TlvFormat.ROLE_MASTER, ds, ins, |ins|)))
  {
    EventsAreServed(site, a, es);
    var ds, ins := Devices(site, a, es), DeviceInputs(site, a, es);
    forall i | 0 <= i < |ins|
      ensures ins[i].port < |ds[i].ports| && Parsed(site.dev, ins[i].inp.content)
      ensures ds[i + 1] == StepDevice(site.dev, ds[i], ins[i])
    {
      assert ServedAt(site.dev, ds, ins, i);
    }
    if site.dev == TlvFormat.ROLE_MASTER {
      AllocationsAccounted(ds, ins, |ins|);
    }
  }

  // -------- one port --------

  predicate RunsOn(a: State, e: Event, p: nat)
    requires e.port < |a.lanes| && a.lanes[e.port].Valid()
  {
    e.port == p && Receives(a, e)
  }

  function PortInputs(site: Site, a: State, es: seq<Event>, p: nat): seq<RxInput>
    requires a.On(site) && OnPorts(site, es)
  {
    if es == [] then []
    else
      var b, e := After(site, a, Front(es)), Last(es);
      PortInputs(site, a, Front(es), p) + if RunsOn(b, e, p) then [RunInput(site, b, e)] else []
  }

  function PortStates(site: Site, a: State, es: seq<Event>, p: nat): seq<RxSpec.ListRx>
    requires a.On(site) && OnPorts(site, es) && p < |a.lanes|
  {
    if es == [] then [a.lanes[p].rx]
    else
      var b, e := After(site, a, Front(es)), Last(es);
      PortStates(site, a, Front(es), p) + if RunsOn(b, e, p) then [Next(site, b, e).lanes[p].rx] else []
  }

  lemma PortStep(site: Site, a: State, e: Event, p: nat)
    requires a.On(site) && e.port < |a.lanes| && p < |a.lanes|
    ensures Next(site, a, e).lanes[p].rx ==
      if RunsOn(a, e, p) then Step(site.dev, a.lanes[p].rx, RunInput(site, a, e)) else a.lanes[p].rx
  {
  }

  /** From a cold start the runs of each port are a trace of the receive machine, in which the content of every run
      is what the bytes then in that port's buffer parse to: all that `RxRuns` proves of traces holds of it. */
  lemma {:induction false} EventsAreTrace(site: Site, a: State, es: seq<Event>, p: nat)
    requires a.On(site) && OnPorts(site, es) && p < |a.lanes| && a.lanes[p].rx == RX_START
    ensures var tr, ins := PortStates(site, a, es, p), PortInputs(site, a, es, p);
      Trace(site.dev, tr, ins) && tr[|ins|] == After(site, a, es).lanes[p].rx
    decreases |es|
  {
    if es == [] {
    } else {
      EventsAreTrace(site, a, Front(es), p);
      var b, e := After(site, a, Front(es)), Last(es);
      var tr, ins := PortStates(site, a, Front(es), p), PortInputs(site, a, Front(es), p);
      PortStep(site, b, e, p);
      var tr', ins' := PortStates(site, a, es, p), PortInputs(site, a, es, p);
      forall i | 0 <= i < |ins'|
        ensures StepAt(site.dev, tr', ins', i)
      {
        assert i < |ins| ==> StepAt(site.dev, tr, ins, i);
      }
    }
  }

  /** So at every moment the keys of every port's cache are distinct and its ageing flag is exact. */
  lemma EventsKeepGood(site: Site, a: State, es: seq<Event>, p: nat)
    requires a.On(site) && OnPorts(site, es) && p < |a.lanes| && a.lanes[p].rx == RX_START
    ensures Good(After(site, a, es).lanes[p].rx)
  {
    EventsAreTrace(site, a, es, p);
    AlwaysGood(site.dev, PortStates(site, a, es, p), PortInputs(site, a, es, p), |PortInputs(site, a, es, p)|);
  }

  function TxInputs(es: seq<Event>, p: nat): seq<TxRuns.TxInput> {
    if es == [] then []
    else
      var e := Last(es);
      TxInputs(Front(es), p) + if e.Transmit? && e.port == p then [TxInputOf(e)] else []
  }

  function TxStates(site: Site, a: State, es: seq<Event>, p: nat): seq<TxSpec.Tx>
    requires a.On(site) && OnPorts(site, es) && p < |a.lanes|
  {
    if es == [] then [a.lanes[p].tx]
    else
      var e := Last(es);
      TxStates(site, a, Front(es), p) +
      if e.Transmit? && e.port == p then [After(site, a, es).lanes[p].tx] else []
  }

  lemma TxSnoc(tr: seq<TxSpec.Tx>, ins: seq<TxRuns.TxInput>, inp: TxRuns.TxInput)
    requires TxRuns.TxTrace(tr, ins)
    ensures TxRuns.TxTrace(tr + [TxRuns.StepTx(tr[|ins|], inp)], ins + [inp])
  {
  }

  lemma TxStep(site: Site, a: State, e: Event, p: nat)
    requires a.On(site) && e.port < |a.lanes| && p < |a.lanes|
    ensures Next(site, a, e).lanes[p].tx ==
      if e.Transmit? && e.port == p then TxRuns.StepTx(a.lanes[p].tx, TxInputOf(e)) else a.lanes[p].tx
  {
  }

  /** And the transmit runs of each port, from any state, are a trace of the transmit machine. */
  lemma {:induction false} EventsAreTxTrace(site: Site, a: State, es: seq<Event>, p: nat)
    requires a.On(site) && OnPorts(site, es) && p < |a.lanes|
    ensures var tr, ins := TxStates(site, a, es, p), TxInputs(es, p);
      TxRuns.TxTrace(tr, ins) && tr[|ins|] == After(site, a, es).lanes[p].tx
    decreases |es|
  {
    if es == [] {
    } else {
      EventsAreTxTrace(site, a, Front(es), p);
      var e := Last(es);
      TxStep(site, After(site, a, Front(es)), e, p);
      if e.Transmit? && e.port == p {
        TxSnoc(TxStates(site, a, Front(es), p), TxInputs(Front(es), p), TxInputOf(e));
      } else {
        assert TxStates(site, a, es, p) == TxStates(site, a, Front(es), p);
        assert TxInputs(es, p) == TxInputs(Front(es), p);
      }
    }
  }

  lemma {:induction false} TxStatesStart(site: Site, a: State, es: seq<Event>, p: nat)
    requires a.On(site) && OnPorts(site, es) && p < |a.lanes|
    ensures |TxStates(site, a, es, p)| > 0 && TxStates(site, a, es, p)[0] == a.lanes[p].tx
    decreases |es|
  {
    if es == [] {
    } else {
      TxStatesStart(site, a, Front(es), p);
    }
  }
}
