/** One sender and one receiver in lock-step over a lossless link, frames carried as bytes. */
module KeepAlive {
  import opened Bytes
  import TlvFormat
  import Parser
  import RoundTrip
  import opened Neighbours
  import opened RxSpec
  import opened RxRuns
  import opened TxSpec
  import opened TxRuns

  /** The sender's machine, the receiver's machine, and the receiver's frame buffer. */
  datatype Link = Link(tx: Tx, rx: ListRx, buffer: seq<byte>, recvsize: nat)

  /** The two ends: who sends, the sender's wifi modules, and the receiver's role. */
  datatype Ends = Ends(sender: TlvFormat.PortIdentity, wifi: seq<TlvFormat.WifiPort>, dev: int)
  {
    predicate Valid() {
      sender.Encodable() && Parser.Opposite(dev, sender.role)
    }

    function Neighbour(): Key {
      KeyOf(RoundTrip.MsapOf(sender))
    }
  }

  /** The environment of one round: local changes at the sender, both admin statuses, and at the receiver the
      bytes left in the buffer behind the frame, the stack residue, and the allocator's cursor. */
  datatype RoundInput = RoundInput(
    changed: bool, adminTx: AdminStatus, adminRx: AdminStatus, tail: seq<byte>, residue: Ipv4, cursor: byte)
  {
    predicate Enabled() {
      TxEnabled(adminTx) && RxEnabled(adminRx)
    }
  }

  function TxPart(inp: RoundInput): TxInput {
    TxInput(inp.changed, true, inp.adminTx)
  }

  function RxPart(e: Ends, buffer: seq<byte>, recvsize: nat, arrives: bool, inp: RoundInput): RxInput {
    RxInput(arrives, true, inp.adminRx, DigestOf(Parser.Parse(buffer, recvsize, e.dev, inp.residue)), inp.cursor)
  }

  /** The sender runs; what it sends lands in the receiver's buffer; the receiver runs. */
  function Round(e: Ends, l: Link, inp: RoundInput): Link
    requires e.Valid()
  {
    var o := StepTxOut(l.tx, TxPart(inp));
    var sent := o.emission.SendInfo?;
    var f := if sent then TlvFormat.InfoFrame(e.sender, o.emission.ttl, e.wifi) else [];
    var buffer := if sent then f + inp.tail else l.buffer;
    var recvsize := if sent then |f| else l.recvsize;
    Link(o.tx, Step(e.dev, l.rx, RxPart(e, buffer, recvsize, sent, inp)), buffer, recvsize)
  }

  ghost predicate LinkTrace(e: Ends, ls: seq<Link>, ins: seq<RoundInput>)
    requires e.Valid()
  {
    && |ls| == |ins| + 1
    && TxReady(ls[0].tx) && ls[0].rx == RX_START
    && (forall i :: 0 <= i < |ins| ==> ins[i].Enabled())
    && (forall i {:trigger ins[i]} :: 0 <= i < |ins| ==> ls[i + 1] == Round(e, ls[i], ins[i]))
  }

  /** A transmit machine that is initialising, or past it with timers in range. */
  predicate TxReady(s: Tx) {
    || s.state == TxInitialize
    || (s.state in {TxIdle, TxInfoFrame} && s.txTTL == Ttl(s) &&
        s.txTTR <= s.msgTxInterval && s.txDelayWhile <= s.txDelay)
  }

  function Ttl(s: Tx): u16 {
    Advertised(s.msgTxInterval, s.msgTxHold)
  }

  // -------- the sender's side of a round --------

  /** Rounds until the next information frame, at most. */
  function TxWait(s: Tx): nat {
    if s.state == TxIdle then Max(s.txTTR, s.txDelayWhile) + 1 else Period(s)
  }

  lemma TxRound(s: Tx, inp: TxInput)
    requires TxReady(s) && Sending(inp)
    ensures var o := StepTxOut(s, inp);
      && TxReady(o.tx) && SameConfig(s, o.tx) && TxWait(o.tx) <= Period(s)
      && (if o.emission.SendInfo? then o.emission.ttl == Ttl(s) && o.tx.state == TxInfoFrame
          else o.tx.state == TxIdle && TxWait(o.tx) < TxWait(s) &&
               (!inp.changed && !s.changedLocal ==> TxWait(o.tx) == TxWait(s) - 1))
      && (!inp.changed && !s.changedLocal ==> !o.tx.changedLocal)
      && (o.emission.SendInfo? && !inp.changed && !s.changedLocal ==> TxWait(s) == 1)
  {
    SendingStep(s, inp);
  }

  // -------- the receiver's side of a round --------

  /** Rounds until the receiver can take the next pending frame. */
  function RxWait(state: RxState): nat {
    match state { case WaitForFrame => 1 case UpdateInfo => 2 case _ => 3 }
  }

  /** Rounds until the next frame is processed, at most. */
  function Remaining(l: Link): nat {
    if l.rx.rcvFrame then RxWait(l.rx.state) else Max(TxWait(l.tx), RxWait(l.rx.state))
  }

  predicate OnlyNeighbour(c: seq<Entry>, key: Key) {
    |c| == 1 && KeyOf(c[0].id) == key
  }

  predicate FromSender(e: Ends, d: Digest, ttl: nat) {
    d.ttl == Some(ttl) && d.sender.Some? && KeyOf(d.sender.value.id) == e.Neighbour()
  }

  lemma ProcessOnly(e: Ends, s: ListRx, cursor: byte, d: Digest, ttl: nat)
    requires s.cache == [] || OnlyNeighbour(s.cache, e.Neighbour())
    requires FromSender(e, d, ttl)
    ensures var s' := Process(e.dev, s, cursor, d).rx;
      OnlyNeighbour(s'.cache, e.Neighbour()) && s'.cache[0].ttl == ttl && s'.rxTTL == ttl && !s'.rcvFrame &&
      s'.state == s.state
  {
  }

  /** A run of a receiver that knows at most the sender, in a state that serves frames, nothing being expired. */
  lemma RxRound(e: Ends, s: ListRx, inp: RxInput, ttl: nat)
    requires s.cache == [] || OnlyNeighbour(s.cache, e.Neighbour())
    requires s.cache != [] ==> s.cache[0].ttl > 0
    requires !s.rxInfoAge && s.state in {WaitForFrame, UpdateInfo, RxFrame}
    requires s.state == RxFrame ==> s.rxTTL > 0
    requires inp.portEnabled && ttl > 1
    requires s.rcvFrame || inp.arrives ==> FromSender(e, inp.content, ttl)
    ensures var s', pending := Step(e.dev, s, inp), s.rcvFrame || inp.arrives;
      if s.state == WaitForFrame && pending then
        s'.state == RxFrame && !s'.rcvFrame && OnlyNeighbour(s'.cache, e.Neighbour()) && s'.cache[0].ttl == ttl - 1 &&
        s'.rxTTL == ttl
      else
        s'.state in {WaitForFrame, UpdateInfo} && s'.rcvFrame == pending && s'.cache == AgeAll(s.cache) &&
        RxWait(s'.state) <= Max(RxWait(s.state) - 1, 1)
    ensures s.state == WaitForFrame && !(s.rcvFrame || inp.arrives) ==> Step(e.dev, s, inp).state == WaitForFrame
  {
    var s1 := Deliver(s, inp.arrives);
    var t := s1.(state := Transition(s1, inp.portEnabled, inp.admin));
    if t.state == RxFrame {
      ProcessOnly(e, t, inp.cursor, inp.content, ttl);
    }
  }

  // -------- the invariant --------

  /** The frame in the buffer, if one is pending, is the sender's. */
  ghost predicate BufferHolds(e: Ends, l: Link)
    requires e.Valid()
  {
    l.rx.rcvFrame ==>
      var f := TlvFormat.InfoFrame(e.sender, Ttl(l.tx), e.wifi);
      l.recvsize == |f| && |f| <= |l.buffer| && l.buffer[..|f|] == f
  }

  ghost predicate Alive(e: Ends, l: Link)
    requires e.Valid()
  {
    && OnlyNeighbour(l.rx.cache, e.Neighbour())
    && l.rx.cache[0].ttl >= Remaining(l)
    && l.rx.state in {WaitForFrame, UpdateInfo, RxFrame}
    && (l.rx.state == RxFrame ==> l.rx.rxTTL == Ttl(l.tx))
  }

  ghost predicate Healthy(e: Ends, l: Link)
    requires e.Valid()
  {
    TxReady(l.tx) && BufferHolds(e, l) && Good(l.rx) && (l.rx.cache == [] || Alive(e, l)) &&
    (l.rx.cache == [] ==> l.rx.state != RxFrame && l.rx.state != DeleteInfo)
  }

  /** The advertised TTL outlasts both the transmit period and the receiver's three-run frame cycle. */
  predicate Outlasts(s: Tx) {
    Ttl(s) > Max(Period(s), 3)
  }

  /** A buffer that starts with the sender's frame parses to it. */
  lemma BufferParses(e: Ends, buffer: seq<byte>, n: nat, ttl: u16, residue: Ipv4)
    requires e.Valid()
    requires var f := TlvFormat.InfoFrame(e.sender, ttl, e.wifi); n == |f| <= |buffer| && buffer[..n] == f
    ensures FromSender(e, DigestOf(Parser.Parse(buffer, n, e.dev, residue)), ttl)
  {
    assert buffer == buffer[..n] + buffer[n..];
    RoundTrip.InfoRoundTrip(e.sender, ttl, e.wifi, e.dev, residue, buffer[n..]);
  }

  lemma BufferRound(e: Ends, l: Link, inp: RoundInput)
    requires e.Valid() && inp.Enabled() && TxReady(l.tx) && BufferHolds(e, l)
    ensures var l' := Round(e, l, inp);
      var sent := StepTxOut(l.tx, TxPart(inp)).emission.SendInfo?;
      var content := RxPart(e, l'.buffer, l'.recvsize, sent, inp).content;
      && (l.rx.rcvFrame || sent ==> FromSender(e, content, Ttl(l.tx)))
      && (l'.rx.rcvFrame ==> l.rx.rcvFrame || sent) && BufferHolds(e, l')
  {
    var l' := Round(e, l, inp);
    var sent := StepTxOut(l.tx, TxPart(inp)).emission.SendInfo?;
    TxRound(l.tx, TxPart(inp));
    if l.rx.rcvFrame || sent {
      BufferParses(e, l'.buffer, l'.recvsize, Ttl(l.tx), inp.residue);
    }
  }

  lemma OnlyAges(c: seq<Entry>, key: Key)
    requires OnlyNeighbour(c, key) && c[0].ttl > 0
    ensures OnlyNeighbour(AgeAll(c), key) && AgeAll(c)[0].ttl == c[0].ttl - 1
  {
  }

  lemma AliveIsFresh(e: Ends, l: Link)
    requires e.Valid() && Good(l.rx) && Alive(e, l)
    ensures !l.rx.rxInfoAge && l.rx.cache[0].ttl > 0
  {
    assert !AnyExpired(l.rx.cache);
    ExpiredRefines(l.rx.cache);
  }

  lemma AliveRound(e: Ends, l: Link, inp: RoundInput)
    requires e.Valid() && inp.Enabled() && Healthy(e, l) && Alive(e, l) && Outlasts(l.tx)
    ensures Alive(e, Round(e, l, inp))
  {
    var l' := Round(e, l, inp);
    var sent := StepTxOut(l.tx, TxPart(inp)).emission.SendInfo?;
    TxRound(l.tx, TxPart(inp));
    BufferRound(e, l, inp);
    AliveIsFresh(e, l);
    OnlyAges(l.rx.cache, e.Neighbour());
    RxRound(e, l.rx, RxPart(e, l'.buffer, l'.recvsize, sent, inp), Ttl(l.tx));
  }

  /** A receiver that knows nobody stays so until it processes a frame, which makes the sender alive. */
  lemma EmptyRound(e: Ends, l: Link, inp: RoundInput)
    requires e.Valid() && inp.Enabled() && Healthy(e, l) && l.rx.cache == [] && Outlasts(l.tx)
    ensures var l' := Round(e, l, inp);
      if l'.rx.cache == [] then l'.rx.state != RxFrame && l'.rx.state != DeleteInfo else Alive(e, l')
    ensures var l' := Round(e, l, inp);
      l.rx.state == WaitForFrame ==> Alive(e, l') || (l'.rx.state == WaitForFrame && Remaining(l') < Remaining(l))
  {
    var l' := Round(e, l, inp);
    var sent := StepTxOut(l.tx, TxPart(inp)).emission.SendInfo?;
    TxRound(l.tx, TxPart(inp));
    BufferRound(e, l, inp);
    ExpiredRefines(l.rx.cache);
    var rin := RxPart(e, l'.buffer, l'.recvsize, sent, inp);
    if l.rx.state == WaitForFrame {
      RxRound(e, l.rx, rin, Ttl(l.tx));
    } else {
      assert l'.rx.cache == [];
    }
  }

  lemma {:induction false} AlwaysHealthy(e: Ends, ls: seq<Link>, ins: seq<RoundInput>, i: nat)
    requires e.Valid() && LinkTrace(e, ls, ins) && i < |ls| && Outlasts(ls[0].tx)
    ensures Healthy(e, ls[i]) && SameConfig(ls[0].tx, ls[i].tx)
  {
    if i == 0 {
    } else {
      AlwaysHealthy(e, ls, ins, i - 1);
      var l, inp := ls[i - 1], ins[i - 1];
      TxRound(l.tx, TxPart(inp));
      BufferRound(e, l, inp);
      var sent := StepTxOut(l.tx, TxPart(inp)).emission.SendInfo?;
      StepGood(e.dev, l.rx, RxPart(e, ls[i].buffer, ls[i].recvsize, sent, inp));
      if l.rx.cache == [] {
        EmptyRound(e, l, inp);
      } else {
        AliveRound(e, l, inp);
      }
    }
  }

  lemma AliveNext(e: Ends, ls: seq<Link>, ins: seq<RoundInput>, i: nat)
    requires e.Valid() && LinkTrace(e, ls, ins) && Outlasts(ls[0].tx) && i < |ins|
    requires ls[i].rx.cache != []
    ensures ls[i + 1].rx.cache != []
  {
    AlwaysHealthy(e, ls, ins, i);
    AliveRound(e, ls[i], ins[i]);
  }

  lemma {:induction false} AliveStays(e: Ends, ls: seq<Link>, ins: seq<RoundInput>, i: nat, j: nat)
    requires e.Valid() && LinkTrace(e, ls, ins) && Outlasts(ls[0].tx) && i <= j < |ls|
    requires ls[i].rx.cache != []
    ensures ls[j].rx.cache != []
    decreases j
  {
    if i == j {
    } else {
      AliveStays(e, ls, ins, i, j - 1);
      AliveNext(e, ls, ins, j - 1);
    }
  }

  lemma HealthyCached(e: Ends, l: Link)
    requires e.Valid() && Healthy(e, l)
    ensures l.rx.cache != [] <==> Cached(l.rx, e.Neighbour())
    ensures l.rx.cache != [] ==> TtlOf(l.rx, e.Neighbour()) > 0
  {
    if l.rx.cache != [] {
      AliveIsFresh(e, l);
      FindDistinct(l.rx.cache, 0);
    }
  }

  /** Keep-alive: if the advertised TTL exceeds max(P, 3), P being the transmit period, then once the sender's
      entry is cached it is there at the end of every later round, with time left, under any local changes. */
  lemma KeepAlive(e: Ends, ls: seq<Link>, ins: seq<RoundInput>, i: nat, j: nat)
    requires e.Valid() && LinkTrace(e, ls, ins) && i <= j < |ls|
    requires Outlasts(ls[0].tx)
    requires Cached(ls[i].rx, e.Neighbour())
    ensures Cached(ls[j].rx, e.Neighbour()) && TtlOf(ls[j].rx, e.Neighbour()) > 0
  {
    AlwaysHealthy(e, ls, ins, i);
    HealthyCached(e, ls[i]);
    AliveStays(e, ls, ins, i, j);
    AlwaysHealthy(e, ls, ins, j);
    HealthyCached(e, ls[j]);
  }

  /** The timer settings that initialisation leaves are the recommended ones, and meet the condition: a TTL of 20
      against a period of 6. */
  lemma DefaultsOutlast(s: Tx, inp: TxInput)
    requires StepTx(s, inp).state == TxInitialize
    ensures var t := StepTx(s, inp);
      && t.msgTxInterval == 5 && t.msgTxHold == 4 && t.txDelay == 2 && t.reinitDelay == 2 && t.txShutdownWhile == 0
      && Ttl(t) == 20 && Period(t) == 6 && MinGap(t) == 3 && Outlasts(t) && TxReady(t)
  {
  }

  lemma HeardStep(e: Ends, ls: seq<Link>, ins: seq<RoundInput>, i: nat)
    requires e.Valid() && LinkTrace(e, ls, ins) && Outlasts(ls[0].tx) && i < |ins|
    requires ls[i].rx.cache == [] && ls[i].rx.state == WaitForFrame
    ensures ls[i + 1].rx.cache != [] ||
            (ls[i + 1].rx.state == WaitForFrame && Remaining(ls[i + 1]) < Remaining(ls[i]))
  {
    AlwaysHealthy(e, ls, ins, i);
    EmptyRound(e, ls[i], ins[i]);
  }

  lemma {:induction false} HeardFrom(e: Ends, ls: seq<Link>, ins: seq<RoundInput>, i: nat, n: nat)
    requires e.Valid() && LinkTrace(e, ls, ins) && Outlasts(ls[0].tx)
    requires i + n < |ls| && (ls[i].rx.cache == [] ==> Remaining(ls[i]) <= n)
    requires ls[i].rx.cache != [] || ls[i].rx.state == WaitForFrame
    ensures ls[i + n].rx.cache != []
    decreases n
  {
    if ls[i].rx.cache != [] {
      AliveStays(e, ls, ins, i, i + n);
    } else {
      HeardStep(e, ls, ins, i);
      HeardFrom(e, ls, ins, i + 1, n - 1);
    }
  }

  /** Discovery: from a cold start the sender is cached by the end of round P+2, and so for good. */
  lemma Discovery(e: Ends, ls: seq<Link>, ins: seq<RoundInput>, j: nat)
    requires e.Valid() && LinkTrace(e, ls, ins) && Outlasts(ls[0].tx)
    requires Period(ls[0].tx) + 2 <= j < |ls|
    ensures Cached(ls[j].rx, e.Neighbour()) && TtlOf(ls[j].rx, e.Neighbour()) > 0
  {
    AlwaysHealthy(e, ls, ins, 0);
    AlwaysHealthy(e, ls, ins, 1);
    AlwaysHealthy(e, ls, ins, 2);
    TxRound(ls[1].tx, TxPart(ins[1]));
    assert ls[1] == Round(e, ls[0], ins[0]) && ls[1].rx.state == RxInitialize && ls[1].rx.cache == [];
    assert ls[2] == Round(e, ls[1], ins[1]) && ls[2].rx.state == WaitForFrame && ls[2].rx.cache == [];
    HeardFrom(e, ls, ins, 2, Period(ls[0].tx));
    AliveStays(e, ls, ins, 2 + Period(ls[0].tx), j);
    AlwaysHealthy(e, ls, ins, j);
    HealthyCached(e, ls[j]);
  }

  // -------- the bound is needed --------

  /** The receiver has just processed a frame of a sender to which nothing has happened. With a period of at
      least 3 the frame was sent in the same round. */
  ghost predicate JustHeard(e: Ends, l: Link)
    requires e.Valid()
  {
    && TxReady(l.tx) && l.tx.state != TxInitialize && !l.tx.changedLocal
    && (Period(l.tx) >= 3 ==> l.tx.state == TxInfoFrame && !l.rx.rcvFrame)
    && l.rx.state == RxFrame && l.rx.rxChanges && l.rx.rxTTL == Ttl(l.tx)
    && OnlyNeighbour(l.rx.cache, e.Neighbour()) && l.rx.cache[0].ttl == Max(0, Ttl(l.tx) - 1)
    && (l.rx.rxInfoAge <==> l.rx.cache[0].ttl == 0)
  }

  /** `j` quiet rounds after a frame was heard. */
  ghost predicate Fading(e: Ends, l0: Link, l: Link, j: nat)
    requires e.Valid()
  {
    && (Period(l0.tx) >= 3 && j < Period(l0.tx) ==> !l.rx.rcvFrame && TxWait(l.tx) == Period(l0.tx) - j)
    && TxReady(l.tx) && !l.tx.changedLocal && SameConfig(l0.tx, l.tx)
    && l.rx.state == (if j == 0 then RxFrame else if j == 1 then UpdateInfo else WaitForFrame)
    && (j == 0 ==> l.rx.rxChanges && l.rx.rxTTL == Ttl(l0.tx))
    && OnlyNeighbour(l.rx.cache, e.Neighbour()) && l.rx.cache[0].ttl == Ttl(l0.tx) - 1 - j
    && (l.rx.rxInfoAge <==> l.rx.cache[0].ttl == 0)
  }

  lemma FadingRound(e: Ends, l0: Link, l: Link, inp: RoundInput, j: nat)
    requires e.Valid() && inp.Enabled() && !inp.changed && Fading(e, l0, l, j)
    requires j + 1 < Ttl(l0.tx) && j + 1 < Max(Period(l0.tx), 3)
    ensures Fading(e, l0, Round(e, l, inp), j + 1)
  {
    TxRound(l.tx, TxPart(inp));
    var l' := Round(e, l, inp);
    assert l'.rx.cache == AgeAll(l.rx.cache);
    assert AnyExpired(l'.rx.cache) <==> l'.rx.cache[0].ttl == 0;
  }

  ghost predicate QuietFrom(ins: seq<RoundInput>, i: nat) {
    forall k :: i <= k < |ins| ==> ins[k].Enabled() && !ins[k].changed
  }

  lemma FadesOnce(e: Ends, ls: seq<Link>, ins: seq<RoundInput>, h: nat, j: nat)
    requires e.Valid() && LinkTrace(e, ls, ins) && h + j < |ins| && QuietFrom(ins, h)
    requires Fading(e, ls[h], ls[h + j], j)
    requires j + 1 < Ttl(ls[h].tx) <= Max(Period(ls[h].tx), 3)
    ensures Fading(e, ls[h], ls[h + j + 1], j + 1)
  {
    var i := h + j;
    FadingRound(e, ls[h], ls[i], ins[i], j);
    assert ls[i + 1] == Round(e, ls[i], ins[i]);
  }

  /** After a frame with a TTL of at most max(P, 3) is heard, with nothing changing at the sender, the entry fades
      round by round and runs out before the next frame is processed. */
  lemma {:induction false} HeardFades(e: Ends, ls: seq<Link>, ins: seq<RoundInput>, h: nat, j: nat)
    requires e.Valid() && LinkTrace(e, ls, ins) && h + j < |ls| && JustHeard(e, ls[h]) && QuietFrom(ins, h)
    requires 1 <= Ttl(ls[h].tx) <= Max(Period(ls[h].tx), 3) && j < Ttl(ls[h].tx)
    ensures Fading(e, ls[h], ls[h + j], j)
  {
    if j == 0 {
    } else {
      HeardFades(e, ls, ins, h, j - 1);
      FadesOnce(e, ls, ins, h, j - 1);
    }
  }

  // -------- the first frame of a quiet cold start --------

  /** The first round of an initialising sender starts its timers. */
  lemma TxColdRound(s: Tx, inp: TxInput)
    requires s.state == TxInitialize && Sending(inp)
    ensures var o := StepTxOut(s, inp);
      && o.emission == Silent && o.tx.state == TxIdle && TxReady(o.tx) && SameConfig(s, o.tx)
      && !o.tx.changedLocal && TxWait(o.tx) == Period(s) - 1
  {
    SendingStep(s, inp);
  }

  /** A sender to which nothing happens sends exactly when its wait is over. */
  lemma TxQuietRound(s: Tx, inp: TxInput)
    requires TxReady(s) && s.state == TxIdle && Sending(inp) && !inp.changed && !s.changedLocal
    ensures var o := StepTxOut(s, inp);
      && TxReady(o.tx) && SameConfig(s, o.tx) && !o.tx.changedLocal
      && (if TxWait(s) == 1 then o.emission == SendInfo(Ttl(s)) && o.tx.state == TxInfoFrame
          else o.emission == Silent && o.tx.state == TxIdle && TxWait(o.tx) == TxWait(s) - 1)
  {
    SendingStep(s, inp);
  }

  /** A receiver past its own initialisation that has heard nothing. */
  predicate Listening(s: ListRx) {
    s.state == WaitForFrame && s.cache == [] && !s.rxInfoAge
  }

  /** Round `i` of a quiet cold start, before the first frame is sent. */
  ghost predicate Starting(l0: Link, l: Link, i: nat) {
    && l.tx.state == TxIdle && TxReady(l.tx) && SameConfig(l0.tx, l.tx) && !l.tx.changedLocal
    && TxWait(l.tx) == Period(l0.tx) - i && !l.rx.rcvFrame
    && (if i == 1 then l.rx == RX_START.(state := RxInitialize) else Listening(l.rx))
  }

  lemma {:induction false} ColdStart(e: Ends, ls: seq<Link>, ins: seq<RoundInput>, i: nat)
    requires e.Valid() && LinkTrace(e, ls, ins) && QuietFrom(ins, 0) && ls[0].tx.state == TxInitialize
    requires 1 <= i < |ls| && i < Period(ls[0].tx)
    ensures Starting(ls[0], ls[i], i)
  {
    if i == 1 {
      TxColdRound(ls[0].tx, TxPart(ins[0]));
      assert ls[1] == Round(e, ls[0], ins[0]);
    } else {
      ColdStart(e, ls, ins, i - 1);
      TxQuietRound(ls[i - 1].tx, TxPart(ins[i - 1]));
      assert ls[i] == Round(e, ls[i - 1], ins[i - 1]);
    }
  }

  lemma HearFirst(e: Ends, s: ListRx, inp: RxInput, ttl: nat)
    requires Listening(s) && inp.portEnabled && (s.rcvFrame || inp.arrives) && FromSender(e, inp.content, ttl)
    ensures var s' := Step(e.dev, s, inp);
      && s'.state == RxFrame && !s'.rcvFrame && s'.rxChanges && s'.rxTTL == ttl
      && OnlyNeighbour(s'.cache, e.Neighbour()) && s'.cache[0].ttl == Max(0, ttl - 1)
      && (s'.rxInfoAge <==> s'.cache[0].ttl == 0)
  {
    var s1 := Deliver(s, inp.arrives);
    var t := s1.(state := Transition(s1, inp.portEnabled, inp.admin));
    ProcessOnly(e, t, inp.cursor, inp.content, ttl);
    var c := Step(e.dev, s, inp).cache;
    assert AnyExpired(c) <==> c[0].ttl == 0;
  }

  /** The first frame is sent in this round; or, with a period of 2, it is pending already. */
  ghost predicate AboutToHear(e: Ends, l: Link)
    requires e.Valid()
  {
    && BufferHolds(e, l) && Listening(l.rx)
    && TxReady(l.tx) && l.tx.state != TxInitialize && !l.tx.changedLocal
    && if Period(l.tx) >= 3 then l.tx.state == TxIdle && TxWait(l.tx) == 1 else l.rx.rcvFrame
  }

  lemma HearRound(e: Ends, l: Link, inp: RoundInput)
    requires e.Valid() && inp.Enabled() && !inp.changed && AboutToHear(e, l)
    ensures SameConfig(l.tx, Round(e, l, inp).tx) && JustHeard(e, Round(e, l, inp))
  {
    var l' := Round(e, l, inp);
    var sent := StepTxOut(l.tx, TxPart(inp)).emission.SendInfo?;
    if Period(l.tx) >= 3 {
      TxQuietRound(l.tx, TxPart(inp));
    } else {
      TxRound(l.tx, TxPart(inp));
    }
    BufferRound(e, l, inp);
    HearFirst(e, l.rx, RxPart(e, l'.buffer, l'.recvsize, sent, inp), Ttl(l.tx));
  }

  lemma RxColdRound(dev: int, inp: RxInput)
    requires inp.portEnabled && RxEnabled(inp.admin)
    ensures Step(dev, RX_START.(state := RxInitialize), inp)
         == RX_START.(state := WaitForFrame, rcvFrame := inp.arrives)
  {
  }

  /** With a period of 2 the first frame is sent while the receiver is still initialising, and stays pending. */
  lemma EarlyFrame(e: Ends, l0: Link, l: Link, inp: RoundInput)
    requires e.Valid() && inp.Enabled() && !inp.changed && Starting(l0, l, 1) && Period(l0.tx) == 2
    ensures SameConfig(l0.tx, Round(e, l, inp).tx) && AboutToHear(e, Round(e, l, inp))
  {
    TxQuietRound(l.tx, TxPart(inp));
    BufferRound(e, l, inp);
    var l' := Round(e, l, inp);
    RxColdRound(e.dev, RxPart(e, l'.buffer, l'.recvsize, true, inp));
  }

  lemma BeforeHearing(e: Ends, ls: seq<Link>, ins: seq<RoundInput>)
    requires e.Valid() && LinkTrace(e, ls, ins) && QuietFrom(ins, 0) && ls[0].tx.state == TxInitialize
    requires Max(Period(ls[0].tx), 3) < |ls|
    ensures var l := ls[Max(Period(ls[0].tx), 3) - 1];
      SameConfig(ls[0].tx, l.tx) && AboutToHear(e, l)
  {
    if Period(ls[0].tx) >= 3 {
      ColdStart(e, ls, ins, Period(ls[0].tx) - 1);
    } else {
      ColdStart(e, ls, ins, 1);
      EarlyFrame(e, ls[0], ls[1], ins[1]);
      assert ls[2] == Round(e, ls[1], ins[1]);
    }
  }

  /** From a quiet cold start the first frame has just been heard at the end of round max(P, 3). */
  lemma FirstHeard(e: Ends, ls: seq<Link>, ins: seq<RoundInput>)
    requires e.Valid() && LinkTrace(e, ls, ins) && QuietFrom(ins, 0) && ls[0].tx.state == TxInitialize
    requires Max(Period(ls[0].tx), 3) < |ls|
    ensures var h := Max(Period(ls[0].tx), 3);
      JustHeard(e, ls[h]) && SameConfig(ls[0].tx, ls[h].tx)
  {
    var i := Max(Period(ls[0].tx), 3) - 1;
    BeforeHearing(e, ls, ins);
    HearRound(e, ls[i], ins[i]);
    assert ls[i + 1] == Round(e, ls[i], ins[i]);
  }

  /** So the bound of `KeepAlive` cannot be lowered: if the TTL is at most max(P, 3), then every run from a cold start
      with nothing changing at the sender comes to a round at whose end the sender's entry has no time left. */
  lemma KeepAliveBoundIsNeeded(e: Ends, ls: seq<Link>, ins: seq<RoundInput>)
    requires e.Valid() && LinkTrace(e, ls, ins) && QuietFrom(ins, 0) && ls[0].tx.state == TxInitialize
    requires !Outlasts(ls[0].tx) && Max(Period(ls[0].tx), 3) + Max(0, Ttl(ls[0].tx) - 1) < |ls|
    ensures var l := ls[Max(Period(ls[0].tx), 3) + Max(0, Ttl(ls[0].tx) - 1)];
      Cached(l.rx, e.Neighbour()) && TtlOf(l.rx, e.Neighbour()) == 0
  {
    var h, j := Max(Period(ls[0].tx), 3), Max(0, Ttl(ls[0].tx) - 1);
    FirstHeard(e, ls, ins);
    if j > 0 {
      HeardFades(e, ls, ins, h, j);
    }
    FindDistinct(ls[h + j].rx.cache, 0);
  }

  const QUIET := RoundInput(false, EnabledRxTx, EnabledRxTx, [], [0, 0, 0, 0], 0)

  /** `n` rounds in which nothing changes. */
  function QuietLinks(e: Ends, l: Link, n: nat): (ls: seq<Link>)
    requires e.Valid()
    ensures |ls| == n + 1 && ls[0] == l
    ensures forall i :: 0 <= i < n ==> ls[i + 1] == Round(e, ls[i], QUIET)
  {
    if n == 0 then [l]
    else
      var before := QuietLinks(e, l, n - 1);
      before + [Round(e, before[n - 1], QUIET)]
  }

  /** Once the sender is cached, it is cached with time left at the end of every later round. */
  ghost predicate StaysCached(e: Ends, ls: seq<Link>) {
    forall i, j :: 0 <= i <= j < |ls| && Cached(ls[i].rx, e.Neighbour()) ==>
      Cached(ls[j].rx, e.Neighbour()) && TtlOf(ls[j].rx, e.Neighbour()) > 0
  }

  /** The sender's timer settings keep it alive at the receiver iff the advertised TTL exceeds max(P, 3), over all
      runs from a cold start. */
  lemma KeepAliveIff(e: Ends, tx: Tx)
    requires e.Valid() && tx.state == TxInitialize
    ensures Outlasts(tx) <==>
            forall ls: seq<Link>, ins: seq<RoundInput> :: LinkTrace(e, ls, ins) && ls[0].tx == tx ==> StaysCached(e, ls)
  {
    if Outlasts(tx) {
      forall ls: seq<Link>, ins: seq<RoundInput> | LinkTrace(e, ls, ins) && ls[0].tx == tx
        ensures StaysCached(e, ls)
      {
        forall i, j | 0 <= i <= j < |ls| && Cached(ls[i].rx, e.Neighbour())
          ensures Cached(ls[j].rx, e.Neighbour()) && TtlOf(ls[j].rx, e.Neighbour()) > 0
        {
          KeepAlive(e, ls, ins, i, j);
        }
      }
    } else {
      var n := Max(Period(tx), 3) + Max(0, Ttl(tx) - 1);
      var ls, ins := QuietLinks(e, Link(tx, RX_START, [], 0), n), seq(n, _ => QUIET);
      assert LinkTrace(e, ls, ins);
      KeepAliveBoundIsNeeded(e, ls, ins);
      assert !StaysCached(e, ls);
    }
  }
}
