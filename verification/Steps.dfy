/** What each kind of event does, in terms of the machines' steps and of the bytes alone: an account of the threads
    that does without the notions `Threads` is built from. */
module Steps {
  import opened Bytes
  import opened TlvFormat
  import opened Parser
  import opened Neighbours
  import opened RxSpec
  import TxSpec
  import opened RxRuns
  import TxRuns
  import Port
  import opened Threads

  /** The receive step of port `p` on these bytes. */
  function StepOn(site: Site, a: State, p: nat, arrives: bool, buffer: seq<byte>, n: int, env: Env): Out<seq<Entry>>
    requires p < |a.lanes|
  {
    StepOut(site.dev, a.lanes[p].rx,
            RxInput(arrives, env.portEnabled, env.admin, DigestOf(Parse(buffer, n, site.dev, env.residue)), a.cursor))
  }

  /** Only port `p` differs, and there not the transmit machine. */
  ghost predicate OnlyReceives(a: State, a': State, p: nat)
    requires p < |a.lanes|
  {
    && |a'.lanes| == |a.lanes| && a'.lanes[p].tx == a.lanes[p].tx
    && forall q :: 0 <= q < |a.lanes| && q != p ==> a'.lanes[q] == a.lanes[q]
  }

  // -------- a second --------

  /** When no port keeps the thread reading, a second that has passed is one step of its port's receive machine, with
      nothing arriving, on whatever the buffer holds. */
  lemma SecondRuns(site: Site, a: State, p: nat, env: Env)
    requires a.On(site) && p < |a.lanes| && a.reading == None
    ensures var a', l := Next(site, a, Second(p, env)), a.lanes[p];
      var o := StepOn(site, a, p, false, l.buffer, l.recvsize, env);
      OnlyReceives(a, a', p) && a'.lanes[p].rx == o.rx && a'.cursor == o.cursor && a'.reading == None
  {
  }

  /** When one does, it is lost, as are frames at other ports for the time being. */
  lemma KeptReading(site: Site, a: State, e: Event, q: nat)
    requires a.On(site) && e.port < |a.lanes| && a.reading == Some(q) && !e.Transmit?
    requires e.Second? || e.port != q
    ensures Next(site, a, e) == a && Survives(site, a, e)
  {
  }

  // -------- a read --------

  predicate CanRead(a: State, p: nat) {
    a.reading == None || a.reading == Some(p)
  }

  predicate IsLldp(f: seq<byte>) {
    |f| >= 14 && f[12..14] == [0x88, 0xcc]
  }

  lemma LoadedShows(l: Lane, f: seq<byte>)
    requires l.Valid() && 14 <= |f| <= |l.buffer|
    ensures Loaded(l, Port.Got(f)) == l.(buffer := f + l.buffer[|f|..], recvsize := |f|)
    ensures Shows(Loaded(l, Port.Got(f))) <==> IsLldp(f)
  {
    assert (f + l.buffer[|f|..])[12..14] == f[12..14];
  }

  /** An LLDP frame is one step of its port's receive machine, the frame arriving, on its bytes followed by what the
      buffer held behind them. */
  lemma FrameRuns(site: Site, a: State, p: nat, f: seq<byte>, env: Env)
    requires a.On(site) && p < |a.lanes| && CanRead(a, p) && IsLldp(f) && |f| <= |a.lanes[p].buffer|
    ensures var a', l := Next(site, a, Readable(p, Port.Got(f), env)), a.lanes[p];
      var o := StepOn(site, a, p, true, f + l.buffer[|f|..], |f|, env);
      OnlyReceives(a, a', p) && a'.lanes[p].rx == o.rx && a'.cursor == o.cursor && a'.reading == None
  {
    LoadedShows(a.lanes[p], f);
  }

  /** A whole frame of another type runs nothing; it stays in the buffer, and keeps the thread reading. */
  lemma ForeignHeld(site: Site, a: State, p: nat, f: seq<byte>, env: Env)
    requires a.On(site) && p < |a.lanes| && CanRead(a, p) && 14 <= |f| <= |a.lanes[p].buffer| && !IsLldp(f)
    ensures var a', l := Next(site, a, Readable(p, Port.Got(f), env)), a.lanes[p];
      && OnlyReceives(a, a', p) && a'.lanes[p].rx == l.rx && a'.lanes[p].wire == l.wire && a'.cursor == a.cursor
      && a'.lanes[p].buffer == f + l.buffer[|f|..] && a'.reading == Some(p)
  {
    LoadedShows(a.lanes[p], f);
  }

  // -------- a transmit run --------

  /** A transmit event is one step of its port's transmit machine, and nothing on the receive side. */
  lemma TransmitRuns(site: Site, a: State, p: nat, changed: bool, env: Env)
    requires a.On(site) && p < |a.lanes|
    ensures var a', l := Next(site, a, Transmit(p, changed, env)), a.lanes[p];
      && |a'.lanes| == |a.lanes| && a'.cursor == a.cursor && a'.reading == a.reading
      && a'.lanes[p].tx == TxRuns.StepTx(l.tx, TxRuns.TxInput(changed, env.portEnabled, env.admin))
      && a'.lanes[p].rx == l.rx && a'.lanes[p].buffer == l.buffer && a'.lanes[p].recvsize == l.recvsize
      && forall q :: 0 <= q < |a.lanes| && q != p ==> a'.lanes[q] == a.lanes[q]
  {
  }

  // -------- the buffer after a run --------

  ghost predicate ZeroedUpTo(buffer: seq<byte>, buffer': seq<byte>, n: nat) {
    && |buffer'| == |buffer| && n <= |buffer|
    && (forall i :: 0 <= i < n ==> buffer'[i] == 0) && (forall i :: n <= i < |buffer| ==> buffer'[i] == buffer[i])
  }

  lemma ClearedIs(state: RxState, buffer: seq<byte>, n: nat)
    requires n <= |buffer|
    ensures if state == RxFrame then ZeroedUpTo(buffer, Port.Cleared(state, buffer, n), n)
            else Port.Cleared(state, buffer, n) == buffer
  {
  }

  /** A second that processes the pending frame clears the bytes received and no others; any other leaves the buffer
      as it is. */
  lemma SecondClears(site: Site, a: State, p: nat, env: Env)
    requires a.On(site) && p < |a.lanes| && a.reading == None && a.lanes[p].recvsize >= 0
    ensures var l, l' := a.lanes[p], Next(site, a, Second(p, env)).lanes[p];
      if l'.rx.state == RxFrame then ZeroedUpTo(l.buffer, l'.buffer, l.recvsize) else l'.buffer == l.buffer
  {
    var l, e := a.lanes[p], Second(p, env);
    ClearedIs(RxOutOf(site, a, e).rx.state, l.buffer, l.recvsize);
  }

  /** So does the arrival of a frame that is processed at once. */
  lemma FrameClears(site: Site, a: State, p: nat, f: seq<byte>, env: Env)
    requires a.On(site) && p < |a.lanes| && CanRead(a, p) && IsLldp(f) && |f| <= |a.lanes[p].buffer|
    ensures var l, l' := a.lanes[p], Next(site, a, Readable(p, Port.Got(f), env)).lanes[p];
      if l'.rx.state == RxFrame then ZeroedUpTo(f + l.buffer[|f|..], l'.buffer, |f|)
      else l'.buffer == f + l.buffer[|f|..]
  {
    LoadedShows(a.lanes[p], f);
  }

  // -------- what is survived --------

  /** The frame that assigns `x`, if any, reaches a MAC and fits the transmit buffer. */
  predicate CanAnswer(site: Site, a: State, p: nat, x: Option<Assignment>)
    requires site.Valid() && p < |a.lanes| == |site.ports|
  {
    x.Some? ==>
      && |x.value.id| >= 6
      && |SetIpFrame(site.ports[p].identity, a.lanes[p].tx.txTTL, site.ws, x.value.id[..6], x.value.ip)|
         <= site.ports[p].room
  }

  lemma SendableIff(site: Site, a: State, p: nat, x: Option<Assignment>)
    requires a.On(site) && p < |a.lanes|
    ensures CanAnswer(site, a, p, x) <==> Port.Sendable(site.ports[p].identity, site.ws, site.ports[p].room, x)
  {
    if x.Some? && |x.value.id| >= 6 {
      SetIpFrameSize(site.ports[p].identity, a.lanes[p].tx.txTTL, site.ws, x.value.id[..6], x.value.ip);
    }
  }

  /** The agent gets through a second iff the last read did not fail and, should the step process a frame, the parser
      gets through the buffer and the address it calls for can be sent. */
  lemma SecondSurvivedIff(site: Site, a: State, p: nat, env: Env)
    requires a.On(site) && p < |a.lanes| && a.reading == None
    ensures var l := a.lanes[p];
      var o := StepOn(site, a, p, false, l.buffer, l.recvsize, env);
      Survives(site, a, Second(p, env)) <==>
      && l.recvsize >= 0
      && (o.rx.state == RxFrame ==>
            Parse(l.buffer, l.recvsize, site.dev, env.residue).Done? && CanAnswer(site, a, p, o.assignment))
  {
    var l := a.lanes[p];
    SendableIff(site, a, p, StepOn(site, a, p, false, l.buffer, l.recvsize, env).assignment);
  }

  /** It gets through an LLDP frame iff the frame fits the buffer and, should the step process it, the same holds. */
  lemma FrameSurvivedIff(site: Site, a: State, p: nat, f: seq<byte>, env: Env)
    requires a.On(site) && p < |a.lanes| && CanRead(a, p) && IsLldp(f)
    ensures Survives(site, a, Readable(p, Port.Got(f), env)) <==>
      && |f| <= |a.lanes[p].buffer|
      && var buffer := f + a.lanes[p].buffer[|f|..];
         var o := StepOn(site, a, p, true, buffer, |f|, env);
         (o.rx.state == RxFrame ==>
            Parse(buffer, |f|, site.dev, env.residue).Done? && CanAnswer(site, a, p, o.assignment))
  {
    if |f| <= |a.lanes[p].buffer| {
      var buffer := f + a.lanes[p].buffer[|f|..];
      LoadedShows(a.lanes[p], f);
      SendableIff(site, a, p, StepOn(site, a, p, true, buffer, |f|, env).assignment);
    }
  }

  /** And through a frame of another type iff it fits. */
  lemma ForeignSurvivedIff(site: Site, a: State, p: nat, f: seq<byte>, env: Env)
    requires a.On(site) && p < |a.lanes| && CanRead(a, p) && |f| >= 14 && !IsLldp(f)
    ensures Survives(site, a, Readable(p, Port.Got(f), env)) <==> |f| <= |a.lanes[p].buffer|
  {
    if |f| <= |a.lanes[p].buffer| {
      LoadedShows(a.lanes[p], f);
    }
  }

  /** A transmit run is survived iff the information frame it sends, if any, fits the transmit buffer. */
  lemma TransmitSurvivedIff(site: Site, a: State, p: nat, changed: bool, env: Env)
    requires a.On(site) && p < |a.lanes|
    ensures var tx := TxRuns.StepTx(a.lanes[p].tx, TxRuns.TxInput(changed, env.portEnabled, env.admin));
      Survives(site, a, Transmit(p, changed, env)) <==>
      (tx.state == TxSpec.TxInfoFrame ==>
         |InfoFrame(site.ports[p].identity, tx.txTTL, site.ws)| <= site.ports[p].room)
  {
    var tx := TxRuns.StepTx(a.lanes[p].tx, TxRuns.TxInput(changed, env.portEnabled, env.admin));
    InfoFrameSize(site.ports[p].identity, tx.txTTL, site.ws);
  }

  // -------- ageing in seconds --------

  /** The seconds that pass for port `p`. */
  function SecondsOn(es: seq<Event>, p: nat): nat {
    if es == [] then 0 else SecondsOn(Front(es), p) + if Last(es).Second? && Last(es).port == p then 1 else 0
  }

  /** Nothing is read on port `p`, and no port keeps the thread reading. */
  ghost predicate Quiet(site: Site, a: State, es: seq<Event>, p: nat)
    requires a.On(site) && OnPorts(site, es)
  {
    && (forall i :: 0 <= i < |es| && es[i].Readable? ==> es[i].port != p)
    && (forall i :: 0 <= i <= |es| ==> After(site, a, es[..i]).reading == None)
  }

  /** Seconds that an entry can still be listed. */
  function Lease(s: TableRx, k: Key): nat {
    if k !in s.cache then 0 else if s.cache[k].ttl > 0 then s.cache[k].ttl + 3 else Grace(s.state)
  }

  lemma LeaseStep(dev: int, s: TableRx, inp: RxInput, k: Key)
    requires FlagExact(s) && !s.rcvFrame && !inp.arrives
    ensures var s' := StepTable(dev, s, inp);
      && !s'.rcvFrame && Lease(s', k) <= Max(0, Lease(s, k) - 1)
      && (k in s.cache && s.cache[k].ttl > 0 ==> k in s'.cache && s'.cache[k].ttl == s.cache[k].ttl - 1)
  {
    if k in s.cache {
      EntryStep(dev, s, inp, k);
      if s.cache[k].ttl == 0 {
        ExpiredStep(dev, s, inp, k);
      }
    }
  }

  /** How the port stands when `n` seconds have passed for it since its table was `m`. */
  ghost predicate AgedBy(l: Lane, l0: Lane, k: Key, n: nat) {
    var s, s0 := Abstract(l.rx), Abstract(l0.rx);
    && Good(l.rx) && !l.rx.rcvFrame && Lease(s, k) <= Max(0, Lease(s0, k) - n)
    && (k in s0.cache && n <= s0.cache[k].ttl ==> k in s.cache && s.cache[k].ttl == s0.cache[k].ttl - n)
  }

  lemma AgesStep(site: Site, a: State, e: Event, p: nat, l0: Lane, k: Key, n: nat)
    requires a.On(site) && e.port < |a.lanes| && p < |a.lanes| && AgedBy(a.lanes[p], l0, k, n)
    requires a.reading == None && (e.Readable? ==> e.port != p)
    ensures AgedBy(Next(site, a, e).lanes[p], l0, k, if e.Second? && e.port == p then n + 1 else n)
  {
    var l := a.lanes[p];
    if e.Second? && e.port == p {
      SecondRuns(site, a, p, e.env);
      var inp := RxInput(false, e.env.portEnabled, e.env.admin,
                         DigestOf(Parse(l.buffer, l.recvsize, site.dev, e.env.residue)), a.cursor);
      StepGood(site.dev, l.rx, inp);
      LeaseStep(site.dev, Abstract(l.rx), inp, k);
    } else {
      assert Next(site, a, e).lanes[p].rx == l.rx;
    }
  }

  lemma {:induction false} Ages(site: Site, a: State, es: seq<Event>, p: nat, k: Key)
    requires a.On(site) && OnPorts(site, es) && p < |a.lanes| && Quiet(site, a, es, p)
    requires Good(a.lanes[p].rx) && !a.lanes[p].rx.rcvFrame
    ensures AgedBy(After(site, a, es).lanes[p], a.lanes[p], k, SecondsOn(es, p))
    decreases |es|
  {
    if es == [] {
    } else {
      var before := Front(es);
      assert forall i :: 0 <= i <= |before| ==> before[..i] == es[..i];
      assert es[..|es| - 1] == before;
      Ages(site, a, before, p, k);
      AgesStep(site, After(site, a, before), Last(es), p, a.lanes[p], k, SecondsOn(before, p));
    }
  }

  lemma ListedHasLease(s: TableRx, k: Key)
    ensures k in s.cache <==> Lease(s, k) > 0
  {
  }

  /** Ageing in seconds: with nothing pending and nothing read on its port, an entry with TTL t counts down by one with
      every second that passes for the port, whatever happens to it otherwise and on other ports, and is gone when
      t + 3 have passed. */
  lemma AgesOut(site: Site, a: State, es: seq<Event>, p: nat, k: Key)
    requires a.On(site) && OnPorts(site, es) && p < |a.lanes| && Quiet(site, a, es, p)
    requires Good(a.lanes[p].rx) && !a.lanes[p].rx.rcvFrame && Cached(a.lanes[p].rx, k)
    ensures var t, n, s := TtlOf(a.lanes[p].rx, k), SecondsOn(es, p), After(site, a, es).lanes[p].rx;
      && (n <= t ==> Cached(s, k) && TtlOf(s, k) == t - n)
      && (n >= t + 3 ==> !Cached(s, k))
  {
    Ages(site, a, es, p, k);
    ListedHasLease(Abstract(After(site, a, es).lanes[p].rx), k);
  }
}
