/** Safety and progress of the receive machine over whole runs. Time is counted in runs: `tr[i]` is the port
    before run `i` and `tr[i + 1]` the port at its end. */
module RxRuns {
  import opened Bytes
  import TlvFormat
  import opened Neighbours
  import opened RxSpec

  /** What the environment does around one run: whether a frame arrived before it, the port and admin status,
      what the frame buffer parses to, and the allocator's cursor (other ports move it too). */
  datatype RxInput = RxInput(arrives: bool, portEnabled: bool, admin: AdminStatus, content: Digest, cursor: byte)

  function Deliver<C>(s: Rx<C>, arrives: bool): Rx<C> {
    s.(rcvFrame := s.rcvFrame || arrives)
  }

  function StepOut(dev: int, s: ListRx, inp: RxInput): Out<seq<Entry>> {
    Run(dev, Deliver(s, inp.arrives), inp.portEnabled, inp.admin, inp.cursor, inp.content)
  }

  function Step(dev: int, s: ListRx, inp: RxInput): ListRx {
    StepOut(dev, s, inp).rx
  }

  function StepTable(dev: int, s: TableRx, inp: RxInput): TableRx {
    RunTable(dev, Deliver(s, inp.arrives), inp.portEnabled, inp.admin, inp.cursor, inp.content).rx
  }

  const RX_START: ListRx := Rx(WaitPortOperational, false, false, false, 0, false, [])

  ghost predicate StepAt(dev: int, tr: seq<ListRx>, ins: seq<RxInput>, i: nat)
    requires i < |ins| && i + 1 < |tr|
  {
    tr[i + 1] == Step(dev, tr[i], ins[i])
  }

  ghost predicate Trace(dev: int, tr: seq<ListRx>, ins: seq<RxInput>) {
    && |tr| == |ins| + 1
    && tr[0] == RX_START
    && forall i :: 0 <= i < |ins| ==> StepAt(dev, tr, ins, i)
  }

  ghost predicate Cached(s: ListRx, k: Key) {
    k in TableOf(s.cache)
  }

  ghost function TtlOf(s: ListRx, k: Key): nat
    requires Cached(s, k)
  {
    TableOf(s.cache)[k].ttl
  }

  // -------- the ageing flag --------

  /** The flag says whether an expired entry is cached; right after DELETE_INFO it may also be stale. */
  predicate FlagExact(s: TableRx) {
    && (ExpiredIn(s.cache) ==> s.rxInfoAge)
    && (s.state != DeleteInfo && s.rxInfoAge ==> ExpiredIn(s.cache))
  }

  ghost predicate Good(s: ListRx) {
    DistinctKeys(s.cache) && FlagExact(Abstract(s))
  }

  lemma ExpiredStays(m: Table)
    requires ExpiredIn(m)
    ensures ExpiredIn(AgeTable(m))
  {
    var k :| k in m && m[k].ttl == 0;
    assert k in AgeTable(m) && AgeTable(m)[k].ttl == 0;
  }

  lemma FlagStep(dev: int, s: TableRx, inp: RxInput)
    requires FlagExact(s)
    ensures FlagExact(StepTable(dev, s, inp))
  {
    if ExpiredIn(s.cache) {
      ExpiredStays(s.cache);
    }
  }

  /** Over every run, with any interleaving of arrivals, port and admin changes: keys stay distinct, and the
      flag is exact. */
  lemma {:induction false} AlwaysGood(dev: int, tr: seq<ListRx>, ins: seq<RxInput>, i: nat)
    requires Trace(dev, tr, ins) && i < |tr|
    ensures Good(tr[i])
  {
    if i == 0 {
    } else {
      AlwaysGood(dev, tr, ins, i - 1);
      assert StepAt(dev, tr, ins, i - 1);
      StepGood(dev, tr[i - 1], ins[i - 1]);
    }
  }

  lemma StepGood(dev: int, s: ListRx, inp: RxInput)
    requires Good(s)
    ensures Good(Step(dev, s, inp))
    ensures Abstract(Step(dev, s, inp)) == StepTable(dev, Abstract(s), inp)
  {
    RunRefines(dev, Deliver(s, inp.arrives), inp.portEnabled, inp.admin, inp.cursor, inp.content);
    FlagStep(dev, Abstract(s), inp);
  }

  /** A frame is only ever processed with no expired entry in the cache, so none is revived. */
  lemma NoExpiredInRxFrame(dev: int, tr: seq<ListRx>, ins: seq<RxInput>, i: nat)
    requires Trace(dev, tr, ins) && i < |ins|
    requires tr[i + 1].state == RxFrame
    ensures tr[i].state == WaitForFrame && !AnyExpired(tr[i].cache)
  {
    assert StepAt(dev, tr, ins, i);
    AlwaysGood(dev, tr, ins, i);
    ExpiredRefines(tr[i].cache);
    TransitionAllowed(Deliver(tr[i], ins[i].arrives), ins[i].portEnabled, ins[i].admin);
  }

  /** No action state lasts two consecutive runs, and every state change is one the guards accept. */
  lemma TransitionsLegal(dev: int, tr: seq<ListRx>, ins: seq<RxInput>, i: nat)
    requires Trace(dev, tr, ins) && i < |ins|
    ensures tr[i + 1].state == tr[i].state ==> tr[i].state in {WaitPortOperational, RxInitialize, WaitForFrame}
    ensures tr[i + 1].state == tr[i].state || ChangeAllowed(tr[i].state, tr[i + 1].state)
  {
    assert StepAt(dev, tr, ins, i);
    TransitionAllowed(Deliver(tr[i], ins[i].arrives), ins[i].portEnabled, ins[i].admin);
  }

  lemma RxFrameRecords(dev: int, s: ListRx, inp: RxInput)
    requires Step(dev, s, inp).state == RxFrame
    ensures Step(dev, s, inp).rxTTL == inp.content.ttl.GetOr(s.rxTTL)
    ensures Step(dev, s, inp).rxChanges == inp.content.sender.Some?
  {
  }

  lemma LeavingRxFrame(dev: int, s: ListRx, inp: RxInput)
    requires s.state == RxFrame
    ensures Step(dev, s, inp).state ==
      (if !inp.portEnabled && !s.rxInfoAge then WaitPortOperational
       else if s.rxTTL == 0 then DeleteInfo
       else if s.rxChanges then UpdateInfo
       else WaitForFrame)
  {
  }

  /** What follows RX_FRAME: WAIT_PORT_OPERATIONAL if the port has gone down and nothing is expired, else
      DELETE_INFO for a TTL of 0, UPDATE_INFO if the frame named a neighbour, else back to waiting. The TTL is the
      frame's, or that of an earlier frame if it carries none. */
  lemma AfterRxFrame(dev: int, tr: seq<ListRx>, ins: seq<RxInput>, i: nat)
    requires Trace(dev, tr, ins) && i + 1 < |ins| && tr[i + 1].state == RxFrame
    ensures tr[i + 2].state ==
      (if !ins[i + 1].portEnabled && !AnyExpired(tr[i + 1].cache) then WaitPortOperational
       else if ins[i].content.ttl.GetOr(tr[i].rxTTL) == 0 then DeleteInfo
       else if ins[i].content.sender.Some? then UpdateInfo
       else WaitForFrame)
  {
    assert StepAt(dev, tr, ins, i) && StepAt(dev, tr, ins, i + 1);
    RxFrameRecords(dev, tr[i], ins[i]);
    AlwaysGood(dev, tr, ins, i + 1);
    ExpiredRefines(tr[i + 1].cache);
    LeavingRxFrame(dev, tr[i + 1], ins[i + 1]);
  }

  /** The remote-change flag is up right after entries were deleted or updated, and down again, in every run,
      while the machine waits for or processes a frame. */
  lemma {:induction false} RemoteChangeNotified(dev: int, tr: seq<ListRx>, ins: seq<RxInput>, i: nat)
    requires Trace(dev, tr, ins) && i < |tr|
    ensures tr[i].state in {DeleteAgedInfo, DeleteInfo, UpdateInfo} ==> tr[i].changedRemote
    ensures tr[i].state in {WaitForFrame, RxFrame} ==> !tr[i].changedRemote
  {
    if i == 0 {
    } else {
      RemoteChangeNotified(dev, tr, ins, i - 1);
      assert StepAt(dev, tr, ins, i - 1);
    }
  }

  /** RX_LLDP_INITIALIZE of an enabled port is left, for RX_WAIT_FOR_FRAME, iff reception is enabled. */
  lemma ListensIff(dev: int, s: ListRx, inp: RxInput)
    requires s.state == RxInitialize && inp.portEnabled
    ensures Step(dev, s, inp).state ==
      if inp.admin == EnabledRxTx || inp.admin == EnabledRxOnly then WaitForFrame else RxInitialize
  {
  }

  /** A port that is never enabled to receive never processes a frame, and never caches anybody. */
  lemma {:induction false} NeverListens(dev: int, tr: seq<ListRx>, ins: seq<RxInput>, i: nat)
    requires Trace(dev, tr, ins) && i < |tr|
    requires forall j :: 0 <= j < |ins| ==> ins[j].admin == Disabled || ins[j].admin == EnabledTxOnly
    ensures tr[i].state in {WaitPortOperational, RxInitialize} && tr[i].cache == [] && !tr[i].rxInfoAge
  {
    if i == 0 {
    } else {
      NeverListens(dev, tr, ins, i - 1);
      assert StepAt(dev, tr, ins, i - 1);
    }
  }

  // -------- bounded ageing --------

  /** A run that ends in RX_FRAME on a frame naming `k` sets that neighbour's TTL. */
  predicate Refreshes<C>(s': Rx<C>, inp: RxInput, k: Key) {
    s'.state == RxFrame && inp.content.sender.Some? && KeyOf(inp.content.sender.value.id) == k
  }

  lemma ActKeepsEntry(dev: int, s: TableRx, cursor: byte, d: Digest, k: Key)
    requires k in s.cache && !(s.state == RxFrame && d.sender.Some? && KeyOf(d.sender.value.id) == k)
    ensures var m := ActTable(dev, s, cursor, d).rx.cache;
      (k in m ==> m[k] == s.cache[k]) && (s.cache[k].ttl > 0 ==> k in m)
  {
  }

  /** Unless refreshed, an entry with time left stays and ages by one, with everything else unchanged;
      an expired one cannot be refreshed, and stays expired or goes. */
  lemma EntryStep(dev: int, s: TableRx, inp: RxInput, k: Key)
    requires FlagExact(s) && k in s.cache
    ensures var s' := StepTable(dev, s, inp);
      if s.cache[k].ttl > 0 then
        Refreshes(s', inp, k) || (k in s'.cache && s'.cache[k] == Aged(s.cache[k]))
      else
        !Refreshes(s', inp, k) && (k in s'.cache ==> s'.cache[k] == s.cache[k])
  {
    if s.cache[k].ttl == 0 {
      assert ExpiredIn(s.cache);
    }
    var s1 := Deliver(s, inp.arrives);
    var t := s1.(state := Transition(s1, inp.portEnabled, inp.admin));
    if !Refreshes(t, inp, k) {
      ActKeepsEntry(dev, t, inp.cursor, inp.content, k);
    }
  }

  /** A refresh sets the TTL, less the tick of the same run. A cached neighbour keeps its id, role, wifi modules
      and assigned address; a new one is entered as the frame describes it, except for an address just assigned. */
  lemma RefreshStep(dev: int, s: TableRx, inp: RxInput, k: Key)
    requires Refreshes(StepTable(dev, s, inp), inp, k)
    requires s.state == WaitForFrame
    ensures var s' := StepTable(dev, s, inp);
      && k in s'.cache
      && s'.cache[k].ttl == Max(0, inp.content.ttl.GetOr(s.rxTTL) - 1)
      && (k in s.cache && s.cache[k].hasIp ==> s'.cache[k] == s.cache[k].(ttl := s'.cache[k].ttl))
      && (k in s.cache ==>
            s'.cache[k] == s.cache[k].(ttl := s'.cache[k].ttl, ip := s'.cache[k].ip, hasIp := s'.cache[k].hasIp))
      && (k !in s.cache ==>
            var n := inp.content.sender.value;
            var given := dev == TlvFormat.ROLE_MASTER && n.role == TlvFormat.ROLE_SLAVE;
            var ip := if given then AddressAt(inp.cursor) else n.ip;
            s'.cache[k] == Entry(n.id, s'.cache[k].ttl, n.role, given, ip, n.wifi))
  {
  }

  /** How many runs an expired entry can outlast from this state. */
  function Grace(state: RxState): nat {
    match state
    case WaitPortOperational => 1
    case WaitForFrame => 1
    case DeleteAgedInfo => 2
    case RxInitialize => 2
    case DeleteInfo => 2
    case UpdateInfo => 2
    case RxFrame => 3
  }

  lemma ExpiredStep(dev: int, s: TableRx, inp: RxInput, k: Key)
    requires FlagExact(s) && k in s.cache && s.cache[k].ttl == 0
    ensures var s' := StepTable(dev, s, inp);
      k in s'.cache ==> s'.cache[k].ttl == 0 && Grace(s'.state) < Grace(s.state)
  {
    assert ExpiredIn(s.cache);
    EntryStep(dev, s, inp, k);
  }

  lemma {:induction false} ExpiredGoes(dev: int, tr: seq<ListRx>, ins: seq<RxInput>, i: nat, k: Key) returns (j: nat)
    requires Trace(dev, tr, ins) && i < |tr| && i + Grace(tr[i].state) <= |ins|
    requires Cached(tr[i], k) && TtlOf(tr[i], k) == 0
    ensures i < j <= i + Grace(tr[i].state) && !Cached(tr[j], k)
    decreases Grace(tr[i].state)
  {
    assert StepAt(dev, tr, ins, i);
    AlwaysGood(dev, tr, ins, i);
    StepGood(dev, tr[i], ins[i]);
    ExpiredStep(dev, Abstract(tr[i]), ins[i], k);
    j := i + 1;
    if Cached(tr[j], k) {
      j := ExpiredGoes(dev, tr, ins, j, k);
    }
  }

  lemma SetTtl(dev: int, tr: seq<ListRx>, ins: seq<RxInput>, k: nat, key: Key)
    requires Trace(dev, tr, ins) && k < |ins| && Refreshes(tr[k + 1], ins[k], key)
    ensures Cached(tr[k + 1], key) && TtlOf(tr[k + 1], key) == Max(0, ins[k].content.ttl.GetOr(tr[k].rxTTL) - 1)
    ensures tr[k + 1].rxTTL == ins[k].content.ttl.GetOr(tr[k].rxTTL)
  {
    assert StepAt(dev, tr, ins, k);
    AlwaysGood(dev, tr, ins, k);
    StepGood(dev, tr[k], ins[k]);
    NoExpiredInRxFrame(dev, tr, ins, k);
    RefreshStep(dev, Abstract(tr[k]), ins[k], key);
  }

  lemma TickTtl(dev: int, tr: seq<ListRx>, ins: seq<RxInput>, i: nat, key: Key)
    requires Trace(dev, tr, ins) && i < |ins| && !Refreshes(tr[i + 1], ins[i], key)
    requires Cached(tr[i], key) && TtlOf(tr[i], key) > 0
    ensures Cached(tr[i + 1], key) && TtlOf(tr[i + 1], key) == TtlOf(tr[i], key) - 1
  {
    assert StepAt(dev, tr, ins, i);
    AlwaysGood(dev, tr, ins, i);
    StepGood(dev, tr[i], ins[i]);
    EntryStep(dev, Abstract(tr[i]), ins[i], key);
  }

  lemma {:induction false} CountsDown(dev: int, tr: seq<ListRx>, ins: seq<RxInput>, k: nat, key: Key, t: nat, i: nat)
    requires Trace(dev, tr, ins) && k < i <= |ins| && i <= k + t
    requires Refreshes(tr[k + 1], ins[k], key) && t == ins[k].content.ttl.GetOr(tr[k].rxTTL)
    requires forall j {:trigger ins[j]} :: k < j < i ==> !Refreshes(tr[j + 1], ins[j], key)
    ensures Cached(tr[i], key) && TtlOf(tr[i], key) == t - (i - k)
    decreases i
  {
    if i == k + 1 {
      SetTtl(dev, tr, ins, k, key);
    } else {
      var last := i - 1;
      assert !Refreshes(tr[last + 1], ins[last], key);
      CountsDown(dev, tr, ins, k, key, t, last);
      TickTtl(dev, tr, ins, last, key);
    }
  }

  /** Bounded ageing: an entry set to TTL `t` in run `k` and not refreshed while live counts down by one a run,
      is still cached with TTL 0 at the end of run k+t-1, and is gone by the end of run k+t+2, whatever the port
      and admin status do meanwhile. */
  lemma BoundedAgeing(dev: int, tr: seq<ListRx>, ins: seq<RxInput>, k: nat, key: Key, t: nat)
    requires Trace(dev, tr, ins) && t >= 1 && k + t + 2 < |ins|
    requires Refreshes(tr[k + 1], ins[k], key) && t == ins[k].content.ttl.GetOr(tr[k].rxTTL)
    requires forall j {:trigger ins[j]} :: k < j < k + t ==> !Refreshes(tr[j + 1], ins[j], key)
    ensures forall i :: k < i <= k + t ==> Cached(tr[i], key) && TtlOf(tr[i], key) == t - (i - k)
    ensures exists j :: k + t < j <= k + t + 3 && !Cached(tr[j], key)
  {
    forall i | k < i <= k + t
      ensures Cached(tr[i], key) && TtlOf(tr[i], key) == t - (i - k)
    {
      CountsDown(dev, tr, ins, k, key, t, i);
    }
    var j := ExpiredGoes(dev, tr, ins, k + t, key);
  }

  lemma ZeroTtlStep(dev: int, s: TableRx, inp: RxInput, key: Key)
    requires FlagExact(s) && s.state == RxFrame && s.rxTTL == 0 && key in s.cache && s.cache[key].ttl == 0
    ensures var s' := StepTable(dev, s, inp);
      && s'.state == DeleteInfo && key !in s'.cache
      && forall other :: other in s.cache && s.cache[other].ttl > 0 ==>
           other in s'.cache && s'.cache[other] == Aged(s.cache[other])
  {
    assert ExpiredIn(s.cache);
  }

  /** A frame with TTL 0 removes its neighbour on the very next run; every entry with time left survives that
      run, one tick older. */
  lemma ZeroTtlRemoves(dev: int, tr: seq<ListRx>, ins: seq<RxInput>, k: nat, key: Key)
    requires Trace(dev, tr, ins) && k + 1 < |ins|
    requires Refreshes(tr[k + 1], ins[k], key) && ins[k].content.ttl == Some(0)
    ensures Cached(tr[k + 1], key) && tr[k + 2].state == DeleteInfo
    ensures !Cached(tr[k + 2], key)
    ensures var m, m' := TableOf(tr[k + 1].cache), TableOf(tr[k + 2].cache);
      forall other :: other in m && m[other].ttl > 0 ==> other in m' && m'[other] == Aged(m[other])
  {
    SetTtl(dev, tr, ins, k, key);
    assert StepAt(dev, tr, ins, k + 1);
    AlwaysGood(dev, tr, ins, k + 1);
    StepGood(dev, tr[k + 1], ins[k + 1]);
    ZeroTtlStep(dev, Abstract(tr[k + 1]), ins[k + 1], key);
  }

  // -------- bounded latency --------

  predicate Serving(state: RxState) {
    state == WaitForFrame || state == DeleteInfo || state == UpdateInfo || state == RxFrame
  }

  /** Runs until a pending frame is processed: each expired entry can cost a DELETE_INFO and a return. */
  function Patience(s: ListRx): nat {
    2 * |s.cache| + match s.state { case RxFrame => 3 case WaitForFrame => 1 case _ => 2 }
  }

  lemma PendingStep(dev: int, s: ListRx, inp: RxInput)
    requires Good(s) && s.rcvFrame && Serving(s.state) && inp.portEnabled
    ensures var s' := Step(dev, s, inp);
      if s.state == WaitForFrame && !s.rxInfoAge then s'.state == RxFrame && !s'.rcvFrame
      else s'.rcvFrame && Serving(s'.state) && s'.state != RxFrame && Patience(s') < Patience(s)
  {
    LiveSize(s.cache);
    ExpiredRefines(s.cache);
  }

  /** Bounded latency: with the port enabled, a frame pending in a serving state with `n` cached entries is
      processed within 2n+3 runs. */
  lemma {:induction false} BoundedLatency(dev: int, tr: seq<ListRx>, ins: seq<RxInput>, i: nat) returns (j: nat)
    requires Trace(dev, tr, ins) && i < |tr| && i + Patience(tr[i]) <= |ins|
    requires tr[i].rcvFrame && Serving(tr[i].state)
    requires forall j :: i <= j < i + Patience(tr[i]) ==> ins[j].portEnabled
    ensures i <= j < i + Patience(tr[i]) <= i + 2 * |tr[i].cache| + 3
    ensures tr[j].state == WaitForFrame && tr[j + 1].state == RxFrame
    decreases Patience(tr[i])
  {
    assert StepAt(dev, tr, ins, i);
    AlwaysGood(dev, tr, ins, i);
    PendingStep(dev, tr[i], ins[i]);
    j := i;
    if tr[i + 1].state != RxFrame {
      j := BoundedLatency(dev, tr, ins, i + 1);
    }
  }

  // -------- frame conservation --------

  /** What became of the frames, numbered in order of arrival. A history kept beside the machine: it looks at
      arrivals and at the states entered, never at rcvFrame. */
  datatype Ledger = Ledger(
    arrived: nat, pending: Option<nat>, processed: seq<nat>, coalesced: set<nat>, dropped: set<nat>)

  function AfterArrival(l: Ledger): Ledger {
    l.(arrived := l.arrived + 1, pending := Some(l.arrived),
       coalesced := if l.pending.Some? then l.coalesced + {l.pending.value} else l.coalesced)
  }

  function AfterEntering(l: Ledger, state: RxState): Ledger {
    if state == RxFrame && l.pending.Some? then l.(pending := None, processed := l.processed + [l.pending.value])
    else if state == RxInitialize && l.pending.Some? then l.(pending := None, dropped := l.dropped + {l.pending.value})
    else l
  }

  ghost function LedgerAt(tr: seq<ListRx>, ins: seq<RxInput>, i: nat): Ledger
    requires |tr| == |ins| + 1 && i <= |ins|
  {
    if i == 0 then Ledger(0, None, [], {}, {})
    else
      var l := LedgerAt(tr, ins, i - 1);
      AfterEntering(if ins[i - 1].arrives then AfterArrival(l) else l, tr[i].state)
  }

  ghost predicate Increasing(s: seq<nat>, bound: nat) {
    (forall i, j :: 0 <= i < j < |s| ==> s[i] < s[j]) && (forall i :: 0 <= i < |s| ==> s[i] < bound)
  }

  function Pending(l: Ledger): set<nat> {
    if l.pending.Some? then {l.pending.value} else {}
  }

  ghost predicate Conserved(l: Ledger) {
    && Increasing(l.processed, if l.pending.Some? then l.pending.value else l.arrived)
    && (l.pending.Some? ==> l.pending.value == l.arrived - 1)
    && (set n | n in l.processed) !! l.coalesced !! l.dropped !! Pending(l)
    && (forall n :: 0 <= n < l.arrived <==> n in l.processed || n in l.coalesced || n in l.dropped || n in Pending(l))
  }

  predicate CountsAddUp(l: Ledger) {
    l.arrived == |l.processed| + |l.coalesced| + |l.dropped| + if l.pending.Some? then 1 else 0
  }

  lemma ArriveConserves(l: Ledger)
    requires Conserved(l)
    ensures Conserved(AfterArrival(l))
  {
  }

  lemma EnterConserves(l: Ledger, state: RxState)
    requires Conserved(l)
    ensures Conserved(AfterEntering(l, state))
  {
    var l' := AfterEntering(l, state);
    if state == RxFrame && l.pending.Some? {
      assert forall n :: n in l'.processed <==> n in l.processed || n == l.pending.value;
    }
  }

  lemma LedgerTracksFlag(dev: int, s: ListRx, inp: RxInput, l: Ledger)
    requires l.pending.Some? <==> s.rcvFrame
    ensures AfterEntering(if inp.arrives then AfterArrival(l) else l, Step(dev, s, inp).state).pending.Some?
       <==> Step(dev, s, inp).rcvFrame
  {
  }

  /** Conservation: at the end of every run, every frame that ever arrived is exactly one of processed,
      coalesced into a later one, dropped by RX_LLDP_INITIALIZE, or pending. A frame is pending iff rcvFrame
      is set, and frames are processed in order of arrival, none twice. */
  lemma {:induction false} FramesConserved(dev: int, tr: seq<ListRx>, ins: seq<RxInput>, i: nat)
    requires Trace(dev, tr, ins) && i <= |ins|
    ensures Conserved(LedgerAt(tr, ins, i))
    ensures LedgerAt(tr, ins, i).pending.Some? <==> tr[i].rcvFrame
  {
    if i == 0 {
    } else {
      FramesConserved(dev, tr, ins, i - 1);
      var l := LedgerAt(tr, ins, i - 1);
      ArriveConserves(l);
      EnterConserves(if ins[i - 1].arrives then AfterArrival(l) else l, tr[i].state);
      assert StepAt(dev, tr, ins, i - 1);
      LedgerTracksFlag(dev, tr[i - 1], ins[i - 1], l);
    }
  }

  lemma ArriveCounts(l: Ledger)
    requires Conserved(l) && CountsAddUp(l)
    ensures CountsAddUp(AfterArrival(l))
  {
    if l.pending.Some? {
      assert l.pending.value in Pending(l) && l.pending.value !in l.coalesced;
    }
  }

  lemma EnterCounts(l: Ledger, state: RxState)
    requires Conserved(l) && CountsAddUp(l)
    ensures CountsAddUp(AfterEntering(l, state))
  {
    if state == RxInitialize && l.pending.Some? {
      var p := l.pending.value;
      assert p in Pending(l) && p !in l.dropped;
      assert |l.dropped + {p}| == |l.dropped| + 1;
    }
  }

  /** So the numbers add up: arrived = processed + coalesced + dropped + (1 if rcvFrame is set). */
  lemma {:induction false} FrameCountsAddUp(dev: int, tr: seq<ListRx>, ins: seq<RxInput>, i: nat)
    requires Trace(dev, tr, ins) && i <= |ins|
    ensures CountsAddUp(LedgerAt(tr, ins, i))
  {
    if i == 0 {
    } else {
      FrameCountsAddUp(dev, tr, ins, i - 1);
      FramesConserved(dev, tr, ins, i - 1);
      var l := LedgerAt(tr, ins, i - 1);
      ArriveConserves(l);
      ArriveCounts(l);
      EnterCounts(if ins[i - 1].arrives then AfterArrival(l) else l, tr[i].state);
    }
  }

  /** Every run that ends in RX_FRAME processes a frame. */
  lemma RxFrameProcesses(dev: int, tr: seq<ListRx>, ins: seq<RxInput>, i: nat)
    requires Trace(dev, tr, ins) && i < |ins| && tr[i + 1].state == RxFrame
    ensures |LedgerAt(tr, ins, i + 1).processed| == |LedgerAt(tr, ins, i).processed| + 1
  {
    assert StepAt(dev, tr, ins, i);
    FramesConserved(dev, tr, ins, i);
    NoExpiredInRxFrame(dev, tr, ins, i);
  }

  // -------- the cache is a table --------

  /** Over every run the list is the table machine's map, entry for entry and in size. */
  lemma CacheIsTable(dev: int, tr: seq<ListRx>, ins: seq<RxInput>, i: nat)
    requires Trace(dev, tr, ins) && i < |ins|
    ensures Abstract(tr[i + 1]) == StepTable(dev, Abstract(tr[i]), ins[i])
    ensures |TableOf(tr[i + 1].cache)| == |tr[i + 1].cache|
  {
    assert StepAt(dev, tr, ins, i);
    AlwaysGood(dev, tr, ins, i);
    StepGood(dev, tr[i], ins[i]);
    TableSize(tr[i + 1].cache);
  }
}
