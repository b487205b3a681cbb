/** The state that initialisation leaves, and what its timer settings mean for what goes out. */
module Start {
  import opened Bytes
  import opened TlvFormat
  import opened Parser
  import RxSpec
  import opened RxRuns
  import opened TxSpec
  import opened TxRuns
  import opened KeepAlive
  import Port
  import opened Threads
  import ThreadRuns
  import opened Wire
  import opened Agent

  /** A receive machine that has not run yet. */
  predicate NotRun(s: RxSpec.ListRx) {
    && s.state == RxSpec.WaitPortOperational && s.cache == [] && s.rxTTL == 0
    && !s.rcvFrame && !s.rxInfoAge && !s.changedRemote && !s.rxChanges
  }

  /** The recommended settings: frames every 5 seconds, a delay of 2, a TTL of 4 intervals, 2 before a restart. */
  predicate Recommended(s: Tx) {
    s.msgTxInterval == 5 && s.msgTxHold == 4 && s.txDelay == 2 && s.reinitDelay == 2
  }

  /** With them the TTL is 20, information frames are 3 to 6 runs apart, and keep the port alive. */
  lemma RecommendedMeans(s: Tx)
    requires Recommended(s)
    ensures Ttl(s) == 20 && MinGap(s) == 3 && Period(s) == 6 && Outlasts(s)
  {
  }

  lemma {:induction false} StartLane(nics: seq<Interface>, ws: seq<WifiPort>, p: nat)
    requires AllValid(nics) && p < |nics|
    ensures |LanesOf(nics, ws)| == |nics| && LanesOf(nics, ws)[p] == nics[|nics| - 1 - p].Lane(ws)
    decreases |nics|
  {
    var before := Front(nics);
    if before == [] {
    } else if p == 0 {
      StartLane(before, ws, 0);
    } else {
      StartLane(before, ws, p - 1);
      assert before[|nics| - 1 - p] == nics[|nics| - 1 - p];
    }
  }

  lemma {:induction false} StartFixture(nics: seq<Interface>, p: nat)
    requires AllValid(nics) && p < |nics|
    ensures |FixturesOf(nics)| == |nics| && FixturesOf(nics)[p] == nics[|nics| - 1 - p].Fixture()
    decreases |nics|
  {
    if |nics| == 1 {
    } else {
      StartFixture(Front(nics), if p == 0 then 0 else p - 1);
    }
  }

  lemma BootedTx()
    ensures var s := Enter(TX_BOOT, TxIdle);
      s.state == TxIdle && !s.changedLocal && Recommended(s) && TxReady(s) && s.txTTL == 20
  {
  }

  /** The port that an interface starts with: a buffer of mtu - 4 zero bytes, a receive machine that has not run, and a
      transmit machine in TX_IDLE with the recommended settings. One frame has been sent, and whoever parses it learns
      the port's own information with a TTL of 20. */
  lemma BootedPort(nic: Interface, ws: seq<WifiPort>, dev: int, residue: Ipv4, tail: seq<byte>)
    requires nic.Valid()
    ensures var l := nic.Lane(ws);
      && NotRun(l.rx) && l.buffer == Zeros(nic.mtu - 4) && l.recvsize == 0
      && l.tx.state == TxIdle && !l.tx.changedLocal && Recommended(l.tx) && TxReady(l.tx) && l.tx.txTTL == 20
      && |l.wire.sent| == 1
      && IsAddressed(l.wire.sent[0], [0xff, 0xff, 0xff, 0xff, 0xff, 0xff], nic.identity.mac)
      && Tells(Parse(l.wire.sent[0] + tail, |l.wire.sent[0]|, dev, residue), nic.identity, 20, ws)
  {
    BootedTx();
    assert nic.Lane(ws).tx == Enter(TX_BOOT, TxIdle) && nic.Lane(ws).rx == RX_START;
    EmissionTells(nic.identity, 20, ws, Port.Outbox([], 0, [0, 0, 0, 0], [0, 0, 0, 0, 0, 0]), dev, residue, tail);
  }

  /** So does every port of the device, the last interface found in front; it can send up to mtu - 2 bytes. */
  lemma StartPort(nics: seq<Interface>, devRole: int, ws: seq<WifiPort>, p: nat, dev: int, residue: Ipv4,
                  tail: seq<byte>)
    requires AllValid(nics) && p < |nics|
    ensures var nic, site := nics[|nics| - 1 - p], SiteOf(nics, devRole, ws);
      && site.dev == devRole && site.ws == ws && |site.ports| == |nics|
      && site.ports[p].identity == nic.identity && site.ports[p].room == nic.mtu - 2
    ensures |StartOf(nics, ws).lanes| == |nics| && StartOf(nics, ws).reading == None && StartOf(nics, ws).cursor == 30
    ensures var nic, l := nics[|nics| - 1 - p], StartOf(nics, ws).lanes[p];
      && NotRun(l.rx) && l.buffer == Zeros(nic.mtu - 4) && l.recvsize == 0
      && l.tx.state == TxIdle && !l.tx.changedLocal && Recommended(l.tx) && TxReady(l.tx) && l.tx.txTTL == 20
      && |l.wire.sent| == 1
      && IsAddressed(l.wire.sent[0], [0xff, 0xff, 0xff, 0xff, 0xff, 0xff], nic.identity.mac)
      && Tells(Parse(l.wire.sent[0] + tail, |l.wire.sent[0]|, dev, residue), nic.identity, 20, ws)
  {
    StartLane(nics, ws, p);
    StartFixture(nics, p);
    BootedPort(nics[|nics| - 1 - p], ws, dev, residue, tail);
    StartIsCold(nics, devRole, ws);
  }

  // -------- transmit timing from the start --------

  lemma {:induction false} SendingKeeps(tr: seq<Tx>, ins: seq<TxInput>, i: nat)
    requires TxTrace(tr, ins) && i < |tr| && TxReady(tr[0]) && forall n :: 0 <= n < |ins| ==> Sending(ins[n])
    ensures TxReady(tr[i]) && SameConfig(tr[0], tr[i])
  {
    if i == 0 {
    } else {
      SendingKeeps(tr, ins, i - 1);
      TxRound(tr[i - 1], ins[i - 1]);
      assert tr[i] == StepTx(tr[i - 1], ins[i - 1]);
    }
  }

  /** No transmit run of port `p` finds the port down or transmission disabled. */
  ghost predicate SendsOn(es: seq<Event>, p: nat) {
    forall i :: 0 <= i < |es| && es[i].Transmit? && es[i].port == p ==>
      es[i].env.portEnabled && (es[i].env.admin == RxSpec.EnabledRxTx || es[i].env.admin == RxSpec.EnabledTxOnly)
  }

  lemma {:induction false} InputsSend(es: seq<Event>, p: nat)
    requires SendsOn(es, p)
    ensures forall n :: 0 <= n < |ThreadRuns.TxInputs(es, p)| ==> Sending(ThreadRuns.TxInputs(es, p)[n])
    decreases |es|
  {
    if es == [] {
    } else {
      InputsSend(Front(es), p);
    }
  }

  /** From the start, with transmission enabled, consecutive information frames of each port are 3 to 6 of its transmit
      runs apart, whatever changes locally and whatever the receive thread does. */
  lemma StartSpacing(nics: seq<Interface>, devRole: int, ws: seq<WifiPort>, es: seq<Event>, p: nat, i: nat, j: nat)
    requires AllValid(nics) && p < |nics| && OnPorts(SiteOf(nics, devRole, ws), es) && SendsOn(es, p)
    requires StartOf(nics, ws).On(SiteOf(nics, devRole, ws)) && |StartOf(nics, ws).lanes| == |nics|
    requires var tr := ThreadRuns.TxStates(SiteOf(nics, devRole, ws), StartOf(nics, ws), es, p);
      && i < j < |tr| && tr[i].state == TxInfoFrame && tr[j].state == TxInfoFrame
      && forall n :: i < n < j ==> tr[n].state != TxInfoFrame
    ensures 3 <= j - i <= 6
  {
    var site, a := SiteOf(nics, devRole, ws), StartOf(nics, ws);
    var tr, ins := ThreadRuns.TxStates(site, a, es, p), ThreadRuns.TxInputs(es, p);
    StartPort(nics, devRole, ws, p, 0, [0, 0, 0, 0], []);
    ThreadRuns.EventsAreTxTrace(site, a, es, p);
    ThreadRuns.TxStatesStart(site, a, es, p);
    InputsSend(es, p);
    SendingKeeps(tr, ins, i);
    TransmitSpacing(tr, ins, i, j);
    RecommendedMeans(a.lanes[p].tx);
  }

  // -------- frames keep coming --------

  /** The transmit runs of port `p` among the events. */
  function TransmitsOn(es: seq<Event>, p: nat): nat {
    if es == [] then 0 else TransmitsOn(Front(es), p) + if Last(es).Transmit? && Last(es).port == p then 1 else 0
  }

  /** The event makes port `p` send an information frame. */
  predicate SendsInfo(site: Site, a: State, e: Event, p: nat)
    requires a.On(site) && e.port < |a.lanes|
  {
    e.Transmit? && e.port == p && Next(site, a, e).lanes[p].tx.state == TxInfoFrame
  }

  function InfoCount(site: Site, a: State, es: seq<Event>, p: nat): nat
    requires a.On(site) && OnPorts(site, es)
  {
    if es == [] then 0
    else InfoCount(site, a, Front(es), p) + if SendsInfo(site, After(site, a, Front(es)), Last(es), p) then 1 else 0
  }

  lemma TransmitEvent(site: Site, a: State, e: Event, p: nat)
    requires a.On(site) && e.port < |a.lanes| && p < |a.lanes| && TxReady(a.lanes[p].tx) && SendsOn([e], p)
    ensures var s, s' := a.lanes[p].tx, Next(site, a, e).lanes[p].tx;
      && TxReady(s') && SameConfig(s, s')
      && (SendsInfo(site, a, e, p) ||
          TxWait(s') <= TxWait(s) - if e.Transmit? && e.port == p then 1 else 0)
  {
    if e.Transmit? && e.port == p {
      assert [e][0] == e;
      TxRound(a.lanes[p].tx, TxInputOf(e));
    }
  }

  lemma {:induction false} WaitsToSend(site: Site, a: State, es: seq<Event>, p: nat)
    requires a.On(site) && OnPorts(site, es) && p < |a.lanes| && TxReady(a.lanes[p].tx) && SendsOn(es, p)
    ensures var s := After(site, a, es).lanes[p].tx;
      && TxReady(s) && SameConfig(a.lanes[p].tx, s)
      && (InfoCount(site, a, es, p) == 0 ==> TxWait(s) + TransmitsOn(es, p) <= TxWait(a.lanes[p].tx))
    decreases |es|
  {
    if es == [] {
    } else {
      WaitsToSend(site, a, Front(es), p);
      TransmitEvent(site, After(site, a, Front(es)), Last(es), p);
    }
  }

  lemma {:induction false} FirstInfo(site: Site, a: State, es: seq<Event>, p: nat) returns (m: nat)
    requires a.On(site) && OnPorts(site, es) && InfoCount(site, a, es, p) > 0
    ensures m < |es| && SendsInfo(site, After(site, a, es[..m]), es[m], p)
    decreases |es|
  {
    if InfoCount(site, a, Front(es), p) == 0 {
      m := |es| - 1;
    } else {
      m := FirstInfo(site, a, Front(es), p);
      assert Front(es)[..m] == es[..m];
    }
  }

  lemma WaitIsBounded(s: Tx)
    requires TxReady(s)
    ensures 1 <= TxWait(s) <= Period(s)
  {
  }

  /** With transmission enabled, among any P transmit runs of a port, P being its period, one puts an information frame
      with the port's own information on the wire: every 6 runs, with a TTL of 20, with the recommended settings. */
  lemma InfoKeepsComing(site: Site, a: State, es: seq<Event>, p: nat, dev: int, residue: Ipv4, tail: seq<byte>)
    returns (m: nat)
    requires a.On(site) && OnPorts(site, es) && p < |a.lanes| && TxReady(a.lanes[p].tx) && SendsOn(es, p)
    requires TransmitsOn(es, p) >= Period(a.lanes[p].tx)
    ensures m < |es| && es[m].Transmit? && es[m].port == p
    ensures var b := After(site, a, es[..m]);
      var sent, sent' := SentBy(b, p), SentBy(Next(site, b, es[m]), p);
      && OneMore(sent, sent')
      && Tells(Parse(Last(sent') + tail, |Last(sent')|, dev, residue), site.ports[p].identity, Ttl(a.lanes[p].tx),
               site.ws)
  {
    WaitIsBounded(a.lanes[p].tx);
    if InfoCount(site, a, es, p) == 0 {
      WaitsToSend(site, a, es, p);
      WaitIsBounded(After(site, a, es).lanes[p].tx);
      assert false;
    }
    m := FirstInfo(site, a, es, p);
    var b := After(site, a, es[..m]);
    WaitsToSend(site, a, es[..m], p);
    TransmitEvent(site, b, es[m], p);
    InfoOnWire(site, b, es[m], dev, residue, tail);
  }
}
