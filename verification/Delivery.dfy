/** What is processed is what was read: frames followed from the socket, through the buffer, to the cache. */
module Delivery {
  import opened Bytes
  import TlvFormat
  import opened Parser
  import Neighbours
  import opened RxSpec
  import opened RxRuns
  import opened EndToEnd
  import opened Port
  import opened Threads
  import opened ThreadRuns

  // -------- what is processed --------

  /** What was read on a port: the last frame that made its machine run, and the last read of all. A history kept
      beside the agent: it looks at reads only, never at the buffer's later content or at rcvFrame. */
  datatype History = History(heard: Option<seq<byte>>, last: Option<Read>)

  function Recorded(h: History, a: State, e: Event, p: nat): History
    requires e.port < |a.lanes| && a.lanes[e.port].Valid()
  {
    if e.Readable? && e.port == p && Attends(a, e) then
      History(if Receives(a, e) && e.read.Got? then Some(e.read.bytes) else h.heard, Some(e.read))
    else h
  }

  function HistoryOf(site: Site, a: State, es: seq<Event>, p: nat): History
    requires a.On(site) && OnPorts(site, es)
  {
    if es == [] then History(None, None)
    else Recorded(HistoryOf(site, a, Front(es), p), After(site, a, Front(es)), Last(es), p)
  }

  predicate StartsWith(buffer: seq<byte>, f: seq<byte>) {
    |f| <= |buffer| && buffer[..|f|] == f
  }

  /** The number of bytes that a read reports. */
  function SizeOf(read: Read): int {
    if read.Got? then |read.bytes| else -1
  }

  /** Unless the thread is reading this port, a pending frame is whole in the buffer; recvsize is its size if it was
      the last read, else what a later read reported, which had no bytes. */
  ghost predicate Tracked(a: State, p: nat, h: History)
    requires p < |a.lanes|
  {
    var l := a.lanes[p];
    && (h.heard.Some? ==> h.heard.value != [])
    && (h.last.Some? ==> l.recvsize == SizeOf(h.last.value))
    && (l.rx.rcvFrame ==> h.heard.Some?)
    && (if a.reading == Some(p) then !Shows(l)
        else l.rx.rcvFrame ==>
               && StartsWith(l.buffer, h.heard.value) && h.last.Some?
               && (l.recvsize > 0 ==> h.last == Some(Got(h.heard.value))))
  }

  lemma LoadedHolds(l: Lane, f: seq<byte>)
    requires |f| <= |l.buffer|
    ensures StartsWith((f + l.buffer[|f|..]), f)
  {
  }

  lemma EmptyReadKeeps(l: Lane, read: Read)
    requires l.Valid() && SizeOf(read) <= 0
    ensures Loaded(l, read).buffer == l.buffer
  {
    assert [] + l.buffer[0..] == l.buffer;
  }

  /** What the buffer holds when a run that starts with a frame pending looks at it. */
  ghost predicate Held(l: Lane, h: History) {
    && h.heard.Some? && StartsWith(l.buffer, h.heard.value) && h.last.Some? && l.recvsize == SizeOf(h.last.value)
    && (l.recvsize > 0 ==> h.last == Some(Got(h.heard.value)))
  }

  lemma HeldWhenRun(site: Site, a: State, e: Event, h: History)
    requires a.On(site) && e.port < |a.lanes| && Tracked(a, e.port, h)
    requires Survives(site, a, e) && Receives(a, e) && (e.Readable? || a.lanes[e.port].rx.rcvFrame)
    ensures Held(Fed(a, e), Recorded(h, a, e, e.port))
  {
    if e.Readable? {
      LoadedHolds(a.lanes[e.port], e.read.bytes);
    }
  }

  /** A run leaves a frame pending only if it was, and then the buffer as it was. */
  lemma RunKeepsPending(dev: int, l: Lane, cursor: byte, arrives: bool, env: Env)
    ensures var o := RunOf(dev, l, cursor, arrives, env);
      && (o.rx.rcvFrame ==> (l.rx.rcvFrame || arrives) && o.rx.state != RxFrame)
      && (o.rx.state == RxFrame ==> l.rx.rcvFrame || arrives)
  {
  }

  lemma TrackedRun(site: Site, a: State, e: Event, h: History)
    requires a.On(site) && e.port < |a.lanes| && Tracked(a, e.port, h) && Survives(site, a, e) && Receives(a, e)
    ensures Tracked(Next(site, a, e), e.port, Recorded(h, a, e, e.port))
  {
    var l := Fed(a, e);
    RunKeepsPending(site.dev, l, a.cursor, e.Readable?, e.env);
    if e.Readable? || l.rx.rcvFrame {
      HeldWhenRun(site, a, e, h);
    }
  }

  lemma TrackedRead(site: Site, a: State, e: Event, h: History)
    requires a.On(site) && e.port < |a.lanes| && Tracked(a, e.port, h) && Survives(site, a, e)
    requires e.Readable? && Attends(a, e) && !Receives(a, e)
    ensures Tracked(Next(site, a, e), e.port, Recorded(h, a, e, e.port))
  {
    if SizeOf(e.read) <= 0 {
      EmptyReadKeeps(a.lanes[e.port], e.read);
    }
  }

  lemma TrackedStep(site: Site, a: State, e: Event, p: nat, h: History)
    requires a.On(site) && e.port < |a.lanes| && p < |a.lanes| && Tracked(a, p, h) && Survives(site, a, e)
    ensures Tracked(Next(site, a, e), p, Recorded(h, a, e, p))
  {
    if e.port == p && Receives(a, e) {
      TrackedRun(site, a, e, h);
    } else if e.port == p && Attends(a, e) {
      TrackedRead(site, a, e, h);
    } else {
      var l, l' := a.lanes[p], Next(site, a, e).lanes[p];
      assert l'.rx == l.rx && l'.buffer == l.buffer && l'.recvsize == l.recvsize;
    }
  }

  lemma {:induction false} AlwaysTracked(site: Site, a: State, es: seq<Event>, p: nat)
    requires a.On(site) && OnPorts(site, es) && AllSurvive(site, a, es) && p < |a.lanes| && Cold(a)
    ensures Tracked(After(site, a, es), p, HistoryOf(site, a, es, p))
    decreases |es|
  {
    if es == [] {
    } else {
      AlwaysTracked(site, a, Front(es), p);
      TrackedStep(site, After(site, a, Front(es)), Last(es), p, HistoryOf(site, a, Front(es), p));
    }
  }

  /** Whenever, from a cold start, a run processes a frame, the buffer starts with the last frame heard on that port,
      and what the machine is given is what these bytes parse to, followed by what earlier reads left there. The
      whole frame is parsed iff it was also the last read: an empty read in between makes it as if no byte had been
      received. */
  lemma ProcessedIsHeard(site: Site, a: State, es: seq<Event>, e: Event)
    requires a.On(site) && OnPorts(site, es) && e.port < |site.ports| && Cold(a)
    requires AllSurvive(site, a, es + [e])
    requires var b := After(site, a, es); Receives(b, e) && RxOutOf(site, b, e).rx.state == RxFrame
    ensures var b, h := After(site, a, es), HistoryOf(site, a, es + [e], e.port);
      var l := Fed(b, e);
      && h.heard.Some? && h.last.Some? && StartsWith(l.buffer, h.heard.value)
      && RunInput(site, b, e).content == DigestOf(Parse(l.buffer, l.recvsize, site.dev, e.env.residue))
      && (l.recvsize == |h.heard.value| <==> h.last.value == Got(h.heard.value))
      && (l.recvsize != |h.heard.value| ==> l.recvsize == 0 && h.last.value == Got([]))
  {
    AfterSnoc(site, a, es, e);
    var b := After(site, a, es);
    AlwaysTracked(site, a, es, e.port);
    RunKeepsPending(site.dev, Fed(b, e), b.cursor, e.Readable?, e.env);
    HeldWhenRun(site, b, e, HistoryOf(site, a, es, e.port));
  }

  // -------- when it is processed --------

  predicate ProcessesOn(site: Site, a: State, e: Event, p: nat)
    requires e.port < |a.lanes| && a.lanes[e.port].Valid()
  {
    RunsOn(a, e, p) && RxOutOf(site, a, e).rx.state == RxFrame
  }

  /** How many runs of the receive machine of port `p` are among the events. */
  function RunCount(site: Site, a: State, es: seq<Event>, p: nat): nat
    requires a.On(site) && OnPorts(site, es)
  {
    if es == [] then 0
    else RunCount(site, a, Front(es), p) + if RunsOn(After(site, a, Front(es)), Last(es), p) then 1 else 0
  }

  function ProcessCount(site: Site, a: State, es: seq<Event>, p: nat): nat
    requires a.On(site) && OnPorts(site, es)
  {
    if es == [] then 0
    else
      ProcessCount(site, a, Front(es), p) +
      if ProcessesOn(site, After(site, a, Front(es)), Last(es), p) then 1 else 0
  }

  /** The first event hears the frame; after it nothing is read on the port, and the port is enabled in every run. */
  ghost predicate HearsOnly(es: seq<Event>, p: nat, f: seq<byte>) {
    && es != [] && es[0].Readable? && es[0].port == p && es[0].read == Got(f)
    && (forall i :: 1 <= i < |es| && es[i].Readable? ==> es[i].port != p)
    && (forall i :: 0 <= i < |es| && es[i].port == p && !es[i].Transmit? ==> es[i].env.portEnabled)
  }

  /** The port can hear the frame, and its machine is past its own initialisation. */
  ghost predicate CanHear(a: State, p: nat, f: seq<byte>)
    requires p < |a.lanes| && a.lanes[p].Valid()
  {
    && (a.reading == None || a.reading == Some(p))
    && Good(a.lanes[p].rx) && Serving(a.lanes[p].rx.state)
    && 0 < |f| <= |a.lanes[p].buffer| && Shows(Loaded(a.lanes[p], Got(f)))
  }

  /** The frame that `l` holds is still pending on port `p`, and will be processed within `patience` runs. */
  ghost predicate Waits(a: State, p: nat, l: Lane, patience: int)
    requires p < |a.lanes|
  {
    var m := a.lanes[p];
    && m.rx.rcvFrame && Serving(m.rx.state) && Good(m.rx) && Patience(m.rx) <= patience
    && m.buffer == l.buffer && m.recvsize == l.recvsize && a.reading != Some(p)
  }

  lemma WaitsOneRun(dev: int, l: Lane, cursor: byte, arrives: bool, env: Env)
    requires Good(l.rx) && Serving(l.rx.state) && (l.rx.rcvFrame || arrives) && env.portEnabled
    ensures var s := RunOf(dev, l, cursor, arrives, env).rx;
      s.state == RxFrame || (s.rcvFrame && Serving(s.state) && Good(s) && Patience(s) < Patience(l.rx))
  {
    var s, inp := Deliver(l.rx, arrives), InputOf(dev, l, cursor, arrives, env);
    assert Good(s) && Step(dev, l.rx, inp) == Step(dev, s, inp);
    PendingStep(dev, s, inp);
    StepGood(dev, s, inp);
  }

  lemma HearStep(site: Site, a: State, e: Event, p: nat, f: seq<byte>)
    requires a.On(site) && e.port == p < |a.lanes| && CanHear(a, p, f)
    requires e.Readable? && e.read == Got(f) && e.env.portEnabled
    ensures RunsOn(a, e, p)
    ensures ProcessesOn(site, a, e, p) ||
            Waits(Next(site, a, e), p, Loaded(a.lanes[p], Got(f)), Patience(a.lanes[p].rx) - 1)
  {
    WaitsOneRun(site.dev, Fed(a, e), a.cursor, true, e.env);
  }

  lemma WaitStep(site: Site, a: State, e: Event, p: nat, l: Lane, patience: int)
    requires a.On(site) && e.port < |a.lanes| && p < |a.lanes| && Waits(a, p, l, patience)
    requires e.port == p ==> e.Transmit? || (e.Second? && e.env.portEnabled)
    ensures ProcessesOn(site, a, e, p) ||
            Waits(Next(site, a, e), p, l, if RunsOn(a, e, p) then patience - 1 else patience)
  {
    if RunsOn(a, e, p) {
      WaitsOneRun(site.dev, Fed(a, e), a.cursor, false, e.env);
    }
  }

  lemma {:induction false} WaitsThrough(site: Site, a: State, es: seq<Event>, p: nat, f: seq<byte>)
    requires a.On(site) && OnPorts(site, es) && p < |a.lanes| && CanHear(a, p, f) && HearsOnly(es, p, f)
    requires ProcessCount(site, a, es, p) == 0
    ensures Waits(After(site, a, es), p, Loaded(a.lanes[p], Got(f)),
                  Patience(a.lanes[p].rx) - RunCount(site, a, es, p))
    decreases |es|
  {
    var before, e := Front(es), Last(es);
    if before == [] {
      assert After(site, a, before) == a;
      HearStep(site, a, e, p, f);
    } else {
      WaitsThrough(site, a, before, p, f);
      WaitStep(site, After(site, a, before), e, p, Loaded(a.lanes[p], Got(f)),
               Patience(a.lanes[p].rx) - RunCount(site, a, before, p));
    }
  }

  lemma {:induction false} FirstProcessed(site: Site, a: State, es: seq<Event>, p: nat) returns (m: nat)
    requires a.On(site) && OnPorts(site, es) && ProcessCount(site, a, es, p) > 0
    ensures m < |es| && ProcessesOn(site, After(site, a, es[..m]), es[m], p)
    ensures ProcessCount(site, a, es[..m], p) == 0
    decreases |es|
  {
    if ProcessCount(site, a, Front(es), p) == 0 {
      m := |es| - 1;
    } else {
      m := FirstProcessed(site, a, Front(es), p);
      assert Front(es)[..m] == es[..m];
    }
  }

  lemma PatienceIsPositive(s: ListRx)
    ensures 1 <= Patience(s) <= 2 * |s.cache| + 3
  {
  }

  /** A frame heard while the machine of its port is busy is processed within 2n+3 of its runs, the one that hears it
      included, `n` entries being cached; and what is processed is that frame, whole. Other ports and the transmit
      thread may do in between what they like. */
  lemma HeardIsProcessed(site: Site, a: State, es: seq<Event>, p: nat, f: seq<byte>) returns (m: nat)
    requires a.On(site) && OnPorts(site, es) && p < |a.lanes| && CanHear(a, p, f) && HearsOnly(es, p, f)
    requires RunCount(site, a, es, p) >= Patience(a.lanes[p].rx)
    ensures m < |es| && RunCount(site, a, es[..m], p) < Patience(a.lanes[p].rx) <= 2 * |a.lanes[p].rx.cache| + 3
    ensures var b := After(site, a, es[..m]);
      && ProcessesOn(site, b, es[m], p) && Good(Fed(b, es[m]).rx)
      && Fed(b, es[m]).buffer == f + a.lanes[p].buffer[|f|..] && Fed(b, es[m]).recvsize == |f|
  {
    PatienceIsPositive(a.lanes[p].rx);
    if ProcessCount(site, a, es, p) == 0 {
      WaitsThrough(site, a, es, p, f);
      PatienceIsPositive(After(site, a, es).lanes[p].rx);
      assert false;
    }
    m := FirstProcessed(site, a, es, p);
    if m > 0 {
      assert HearsOnly(es[..m], p, f);
      WaitsThrough(site, a, es[..m], p, f);
      PatienceIsPositive(After(site, a, es[..m]).lanes[p].rx);
    }
  }

  lemma BuiltShowsType(b: Built, tail: seq<byte>)
    requires b.Valid()
    ensures |b.Frame()| >= TlvFormat.ETH_HEADER_SIZE && (b.Frame() + tail)[12..14] == TlvFormat.ETHERTYPE_LLDP
  {
    match b
    case Info(p, ttl, ws) =>
      TlvFormat.BuiltTlvsFit(p, ttl, ws, [0, 0, 0, 0]);
      assert b.Frame()[..14] == TlvFormat.EthHeader(TlvFormat.BROADCAST, p.mac);
    case SetIp(p, ttl, ws, mac, ip) =>
      TlvFormat.BuiltTlvsFit(p, ttl, ws, ip);
      assert b.Frame()[..14] == TlvFormat.EthHeader(mac, p.mac);
  }

  lemma BuiltRun(dev: int, l: Lane, cursor: byte, arrives: bool, env: Env, b: Built, tail: seq<byte>)
    requires b.Valid() && l.buffer == b.Frame() + tail && l.recvsize == |b.Frame()|
    requires Neighbours.DistinctKeys(l.rx.cache)
    requires RunOf(dev, l, cursor, arrives, env).rx.state == RxFrame
    ensures VerdictOf(dev, l, env).Done?
    ensures Neighbours.TableOf(RunOf(dev, l, cursor, arrives, env).rx.cache).Keys
         == Neighbours.TableOf(l.rx.cache).Keys + if Opposite(dev, b.Role()) then {b.Sender()} else {}
  {
    BuiltNames(dev, b, env.residue, tail);
    var s, h := Deliver(l.rx, arrives), Hearing(env.portEnabled, env.admin, cursor, tail, env.residue);
    var d := DigestOf(Parse(b.Frame() + tail, |b.Frame()|, dev, env.residue));
    assert Transition(s, env.portEnabled, env.admin) == RxFrame;
    HearingCaches(dev, s, b, h);
    assert Hear(dev, s, b, h) == Run(dev, s, env.portEnabled, env.admin, cursor, d).rx;
  }

  /** The event processes frame `b` on port `p`: the parser gets through it, and its sender's key, and no other, is
      added to the cache iff the roles are opposite. */
  ghost predicate CachesBuilt(site: Site, a: State, e: Event, p: nat, b: Built)
    requires a.On(site) && e.port < |a.lanes| && p < |a.lanes|
  {
    && ProcessesOn(site, a, e, p) && VerdictOf(site.dev, Fed(a, e), e.env).Done?
    && Neighbours.TableOf(Next(site, a, e).lanes[p].rx.cache).Keys
    == Neighbours.TableOf(a.lanes[p].rx.cache).Keys + if Opposite(site.dev, b.Role()) then {b.Sender()} else {}
  }

  lemma BuiltEvent(site: Site, a: State, e: Event, p: nat, b: Built, tail: seq<byte>)
    requires a.On(site) && e.port == p < |a.lanes| && ProcessesOn(site, a, e, p) && b.Valid()
    requires Good(Fed(a, e).rx) && Fed(a, e).buffer == b.Frame() + tail && Fed(a, e).recvsize == |b.Frame()|
    ensures CachesBuilt(site, a, e, p, b)
  {
    BuiltRun(site.dev, Fed(a, e), a.cursor, e.Readable?, e.env, b, tail);
    assert Fed(a, e).rx == a.lanes[p].rx;
    assert Next(site, a, e).lanes[p].rx == RxOutOf(site, a, e).rx;
  }

  /** A frame of either builder that comes in while the machine of its port is busy, or not: the thread runs the
      machine on it, and within 2n+3 runs its sender is cached, if the roles are opposite. */
  lemma BuiltFrameIsCached(site: Site, a: State, es: seq<Event>, p: nat, b: Built) returns (m: nat)
    requires a.On(site) && OnPorts(site, es) && p < |a.lanes| && (a.reading == None || a.reading == Some(p))
    requires b.Valid() && |b.Frame()| <= |a.lanes[p].buffer| && HearsOnly(es, p, b.Frame())
    requires Good(a.lanes[p].rx) && Serving(a.lanes[p].rx.state)
    requires RunCount(site, a, es, p) >= Patience(a.lanes[p].rx)
    ensures m < |es| && RunCount(site, a, es[..m], p) < Patience(a.lanes[p].rx) <= 2 * |a.lanes[p].rx.cache| + 3
    ensures CachesBuilt(site, After(site, a, es[..m]), es[m], p, b)
  {
    var f := b.Frame();
    var tail := a.lanes[p].buffer[|f|..];
    BuiltShowsType(b, tail);
    m := HeardIsProcessed(site, a, es, p, f);
    BuiltEvent(site, After(site, a, es[..m]), es[m], p, b, tail);
  }
}
