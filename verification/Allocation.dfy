/** Address assignment on a master: one allocator shared by every port of the device, over whole runs. */
module Allocation {
  import opened Bytes
  import opened TlvFormat
  import Parser
  import opened Neighbours
  import opened RxSpec
  import opened RxRuns

  /** The ports of a device and the last byte of the next address. */
  datatype Device = Device(ports: seq<ListRx>, cursor: byte)

  /** One run of one port; the cursor it sees is the device's. */
  datatype DeviceInput = DeviceInput(port: nat, inp: RxInput)

  const FIRST_LAST_BYTE := 30

  function PortRun(dev: int, d: Device, di: DeviceInput): Out<seq<Entry>>
    requires di.port < |d.ports|
  {
    StepOut(dev, d.ports[di.port], di.inp.(cursor := d.cursor))
  }

  function StepDevice(dev: int, d: Device, di: DeviceInput): Device
    requires di.port < |d.ports|
  {
    var o := PortRun(dev, d, di);
    Device(d.ports[di.port := o.rx], o.cursor)
  }

  /** Whatever the parser of a device with role `dev` reports as a neighbour plays the opposite role. */
  predicate Parsed(dev: int, d: Digest) {
    d.sender.Some? ==> Parser.Opposite(dev, d.sender.value.role)
  }

  lemma DigestsAreParsed(f: seq<byte>, n: int, dev: int, residue: Ipv4)
    ensures Parsed(dev, DigestOf(Parser.Parse(f, n, dev, residue)))
  {
    if |f| >= ETH_HEADER_SIZE {
      Parser.ParseMeaning(f, n, dev, residue);
    }
  }

  ghost predicate DeviceTrace(dev: int, tr: seq<Device>, ins: seq<DeviceInput>) {
    && |tr| == |ins| + 1
    && (forall p :: 0 <= p < |tr[0].ports| ==> tr[0].ports[p] == RX_START) && tr[0].cursor == FIRST_LAST_BYTE
    && (forall i :: 0 <= i < |ins| ==> ins[i].port < |tr[i].ports| && Parsed(dev, ins[i].inp.content))
    && (forall i :: 0 <= i < |ins| ==> tr[i + 1] == StepDevice(dev, tr[i], ins[i]))
  }

  // -------- the cursor --------

  /** The last byte of the address that allocation number `n` hands out. */
  function NthLastByte(n: nat): byte {
    (FIRST_LAST_BYTE + n) % 255
  }

  lemma CursorLaw(n: nat)
    ensures NextCursor(NthLastByte(n)) == NthLastByte(n + 1)
    ensures NthLastByte(n) != 255
    ensures NthLastByte(n) == 0 <==> n % 255 == 225
  {
  }

  /** Two allocations hand out the same address iff they are a multiple of 255 apart. */
  lemma SameAddressIff(m: nat, n: nat)
    ensures AddressAt(NthLastByte(m)) == AddressAt(NthLastByte(n)) <==> (m as int - n) % 255 == 0
  {
    assert AddressAt(NthLastByte(m))[3] == NthLastByte(m) && AddressAt(NthLastByte(n))[3] == NthLastByte(n);
  }

  lemma NearAddressesDiffer(m: nat, n: nat)
    requires m != n && -255 < m as int - n < 255
    ensures AddressAt(NthLastByte(m)) != AddressAt(NthLastByte(n))
  {
    SameAddressIff(m, n);
    if m < n {
      assert (n - m) % 255 != 0;
    }
  }

  // -------- the history of allocations --------

  type Slot = (nat, Key)

  /** Kept beside the device: how many addresses were handed out, which allocation each live entry got, and how
      many entries were inserted and removed. */
  datatype Log = Log(total: nat, serial: map<Slot, nat>, inserted: nat, agedOut: nat)

  function KeysAt(d: Device, p: nat): set<Key>
    requires p < |d.ports|
  {
    TableOf(d.ports[p].cache).Keys
  }

  /** The log after port `p` went from keys `before` to keys `after`, assigning `a`. */
  function LogNext(l: Log, p: nat, before: set<Key>, after: set<Key>, a: Option<Assignment>): Log {
    var kept := map s | s in l.serial && (s.0 == p ==> s.1 in after) :: l.serial[s];
    Log(if a.Some? then l.total + 1 else l.total,
        if a.Some? then kept[(p, KeyOf(a.value.id)) := l.total] else kept,
        l.inserted + |after - before|,
        l.agedOut + |before - after|)
  }

  function LogStep(dev: int, l: Log, d: Device, di: DeviceInput): Log
    requires di.port < |d.ports|
  {
    var o := PortRun(dev, d, di);
    LogNext(l, di.port, KeysAt(d, di.port), TableOf(o.rx.cache).Keys, o.assignment)
  }

  ghost function LogAt(dev: int, tr: seq<Device>, ins: seq<DeviceInput>, i: nat): Log
    requires DeviceTrace(dev, tr, ins) && i <= |ins|
  {
    if i == 0 then Log(0, map[], 0, 0) else LogStep(dev, LogAt(dev, tr, ins, i - 1), tr[i - 1], ins[i - 1])
  }

  function LiveCount(ports: seq<ListRx>): nat {
    if ports == [] then 0 else |ports[0].cache| + LiveCount(ports[1..])
  }

  ghost predicate HasLive(d: Device, s: Slot) {
    s.0 < |d.ports| && s.1 in TableOf(d.ports[s.0].cache)
  }

  ghost function EntryAt(d: Device, s: Slot): Entry
    requires HasLive(d, s)
  {
    TableOf(d.ports[s.0].cache)[s.1]
  }

  /** A slot is in the log iff it is live, and then its entry carries the address of its own allocation. */
  ghost predicate SlotOk(d: Device, l: Log, s: Slot) {
    && (s in l.serial <==> HasLive(d, s))
    && (s in l.serial ==>
          && l.serial[s] < l.total
          && EntryAt(d, s).hasIp && EntryAt(d, s).ip == AddressAt(NthLastByte(l.serial[s])))
  }

  ghost predicate Unshared(serial: map<Slot, nat>) {
    forall s, t :: s in serial && t in serial && s != t ==> serial[s] != serial[t]
  }

  ghost predicate AllGood(ports: seq<ListRx>) {
    forall p :: 0 <= p < |ports| ==> Good(ports[p])
  }

  ghost predicate Accounted(d: Device, l: Log) {
    && AllGood(d.ports)
    && d.cursor == NthLastByte(l.total)
    && (forall s :: SlotOk(d, l, s))
    && Unshared(l.serial)
    && l.total == l.inserted == LiveCount(d.ports) + l.agedOut
  }

  // -------- one step --------

  ghost predicate AllHaveIp(m: Table) {
    forall k :: k in m ==> m[k].hasIp
  }

  /** A run of a port inserts a neighbour exactly when it assigns an address; every other entry keeps its
      address and is at most removed. */
  ghost predicate CacheStep(m: Table, m': Table, cursor: byte, cursor': byte, a: Option<Assignment>) {
    && (forall k :: k in m && k in m' ==> m'[k].hasIp && m'[k].ip == m[k].ip)
    && (match a
        case None => m'.Keys <= m.Keys && cursor' == cursor
        case Some(a) =>
          && KeyOf(a.id) !in m && m'.Keys == m.Keys + {KeyOf(a.id)}
          && m'[KeyOf(a.id)].hasIp && m'[KeyOf(a.id)].ip == AddressAt(cursor)
          && cursor' == NextCursor(cursor))
  }

  lemma ProcessOnMaster(s: TableRx, cursor: byte, d: Digest)
    requires Parsed(ROLE_MASTER, d) && AllHaveIp(s.cache)
    ensures var o := ProcessTable(ROLE_MASTER, s, cursor, d);
      CacheStep(s.cache, o.rx.cache, cursor, o.cursor, o.assignment)
  {
  }

  lemma ActOnMaster(s: TableRx, cursor: byte, d: Digest)
    requires Parsed(ROLE_MASTER, d) && AllHaveIp(s.cache)
    ensures var o := ActTable(ROLE_MASTER, s, cursor, d);
      CacheStep(s.cache, o.rx.cache, cursor, o.cursor, o.assignment)
  {
    if s.state == RxFrame {
      ProcessOnMaster(s, cursor, d);
    }
  }

  lemma AgeingKeepsStep(m: Table, m': Table, cursor: byte, cursor': byte, a: Option<Assignment>)
    requires CacheStep(m, m', cursor, cursor', a)
    ensures CacheStep(m, AgeTable(m'), cursor, cursor', a)
  {
    assert AgeTable(m').Keys == m'.Keys;
  }

  lemma MasterStep(s: TableRx, inp: RxInput)
    requires Parsed(ROLE_MASTER, inp.content) && AllHaveIp(s.cache)
    ensures
      var s1 := Deliver(s, inp.arrives);
      var o := RunTable(ROLE_MASTER, s1, inp.portEnabled, inp.admin, inp.cursor, inp.content);
      CacheStep(s.cache, o.rx.cache, inp.cursor, o.cursor, o.assignment)
  {
    var s1 := Deliver(s, inp.arrives);
    var t := s1.(state := Transition(s1, inp.portEnabled, inp.admin));
    ActOnMaster(t, inp.cursor, inp.content);
    var o := ActTable(ROLE_MASTER, t, inp.cursor, inp.content);
    AgeingKeepsStep(s.cache, o.rx.cache, inp.cursor, o.cursor, o.assignment);
  }

  lemma {:induction false} LiveCountUpdate(ports: seq<ListRx>, p: nat, rx: ListRx)
    requires p < |ports|
    ensures LiveCount(ports[p := rx]) == LiveCount(ports) - |ports[p].cache| + |rx.cache|
  {
    var ports' := ports[p := rx];
    if p == 0 {
      assert ports'[1..] == ports[1..];
    } else {
      assert ports'[1..] == ports[1..][p - 1 := rx];
      LiveCountUpdate(ports[1..], p - 1, rx);
    }
  }

  lemma Differences<T>(a: set<T>, b: set<T>)
    ensures |a| + |b - a| == |b| + |a - b|
  {
    assert a + b == a + (b - a) == b + (a - b);
    assert |a + (b - a)| == |a| + |b - a|;
    assert |b + (a - b)| == |b| + |a - b|;
  }

  /** A run of one master port, given that all its entries have addresses: what it does to the table, and to the
      number of entries. */
  lemma MasterRun(s: ListRx, inp: RxInput)
    requires Good(s) && AllHaveIp(TableOf(s.cache)) && Parsed(ROLE_MASTER, inp.content)
    ensures var o := StepOut(ROLE_MASTER, s, inp);
      Good(o.rx) && CacheStep(TableOf(s.cache), TableOf(o.rx.cache), inp.cursor, o.cursor, o.assignment)
  {
    RunRefines(ROLE_MASTER, Deliver(s, inp.arrives), inp.portEnabled, inp.admin, inp.cursor, inp.content);
    StepGood(ROLE_MASTER, s, inp);
    MasterStep(Abstract(s), inp);
  }

  lemma CountsMove(c: seq<Entry>, c': seq<Entry>)
    requires DistinctKeys(c) && DistinctKeys(c')
    ensures var m, m' := TableOf(c), TableOf(c');
      |c'| + |m.Keys - m'.Keys| == |c| + |m'.Keys - m.Keys|
  {
    TableSize(c);
    TableSize(c');
    Differences(TableOf(c).Keys, TableOf(c').Keys);
  }

  lemma PortStep(d: Device, l: Log, di: DeviceInput)
    requires Accounted(d, l) && di.port < |d.ports| && Parsed(ROLE_MASTER, di.inp.content)
    ensures var p, o := di.port, PortRun(ROLE_MASTER, d, di);
      var m, m' := TableOf(d.ports[p].cache), TableOf(o.rx.cache);
      && Good(o.rx)
      && CacheStep(m, m', d.cursor, o.cursor, o.assignment)
      && |o.rx.cache| + |m.Keys - m'.Keys| == |d.ports[p].cache| + |m'.Keys - m.Keys|
  {
    var p, inp := di.port, di.inp.(cursor := d.cursor);
    var s := d.ports[p];
    forall k | k in TableOf(s.cache)
      ensures TableOf(s.cache)[k].hasIp
    {
      assert SlotOk(d, l, (p, k));
    }
    MasterRun(s, inp);
    CountsMove(s.cache, StepOut(ROLE_MASTER, s, inp).rx.cache);
  }

  lemma SlotStep(d: Device, l: Log, di: DeviceInput, s: Slot)
    requires Accounted(d, l) && di.port < |d.ports| && Parsed(ROLE_MASTER, di.inp.content)
    ensures SlotOk(StepDevice(ROLE_MASTER, d, di), LogStep(ROLE_MASTER, l, d, di), s)
  {
    PortStep(d, l, di);
    assert SlotOk(d, l, s);
  }

  lemma UnsharedNext(l: Log, p: nat, before: set<Key>, after: set<Key>, a: Option<Assignment>)
    requires Unshared(l.serial) && forall s :: s in l.serial ==> l.serial[s] < l.total
    ensures Unshared(LogNext(l, p, before, after, a).serial)
  {
  }

  lemma SerialStep(d: Device, l: Log, di: DeviceInput)
    requires Accounted(d, l) && di.port < |d.ports| && Parsed(ROLE_MASTER, di.inp.content)
    ensures Unshared(LogStep(ROLE_MASTER, l, d, di).serial)
  {
    forall s | s in l.serial
      ensures l.serial[s] < l.total
    {
      assert SlotOk(d, l, s);
    }
    var o := PortRun(ROLE_MASTER, d, di);
    UnsharedNext(l, di.port, KeysAt(d, di.port), TableOf(o.rx.cache).Keys, o.assignment);
  }

  lemma CountStep(d: Device, l: Log, di: DeviceInput)
    requires Accounted(d, l) && di.port < |d.ports| && Parsed(ROLE_MASTER, di.inp.content)
    ensures var d', l' := StepDevice(ROLE_MASTER, d, di), LogStep(ROLE_MASTER, l, d, di);
      l'.total == l'.inserted == LiveCount(d'.ports) + l'.agedOut
  {
    var p, o := di.port, PortRun(ROLE_MASTER, d, di);
    PortStep(d, l, di);
    LiveCountUpdate(d.ports, p, o.rx);
    var before, after := TableOf(d.ports[p].cache).Keys, TableOf(o.rx.cache).Keys;
    if o.assignment.Some? {
      assert after - before == {KeyOf(o.assignment.value.id)};
    } else {
      assert after - before == {};
    }
  }

  lemma GoodStep(d: Device, l: Log, di: DeviceInput)
    requires Accounted(d, l) && di.port < |d.ports| && Parsed(ROLE_MASTER, di.inp.content)
    ensures AllGood(StepDevice(ROLE_MASTER, d, di).ports)
  {
    PortStep(d, l, di);
  }

  lemma CursorNext(l: Log, p: nat, before: set<Key>, after: set<Key>, a: Option<Assignment>, c: byte, c': byte)
    requires c == NthLastByte(l.total) && c' == (if a.Some? then NextCursor(c) else c)
    ensures c' == NthLastByte(LogNext(l, p, before, after, a).total)
  {
    CursorLaw(l.total);
  }

  lemma CursorStep(d: Device, l: Log, di: DeviceInput)
    requires Accounted(d, l) && di.port < |d.ports| && Parsed(ROLE_MASTER, di.inp.content)
    ensures StepDevice(ROLE_MASTER, d, di).cursor == NthLastByte(LogStep(ROLE_MASTER, l, d, di).total)
  {
    var o := PortRun(ROLE_MASTER, d, di);
    PortStep(d, l, di);
    CursorNext(l, di.port, KeysAt(d, di.port), TableOf(o.rx.cache).Keys, o.assignment, d.cursor, o.cursor);
  }

  lemma AccountedStep(d: Device, l: Log, di: DeviceInput)
    requires Accounted(d, l) && di.port < |d.ports| && Parsed(ROLE_MASTER, di.inp.content)
    ensures Accounted(StepDevice(ROLE_MASTER, d, di), LogStep(ROLE_MASTER, l, d, di))
  {
    GoodStep(d, l, di);
    CursorStep(d, l, di);
    SerialStep(d, l, di);
    CountStep(d, l, di);
    var d', l' := StepDevice(ROLE_MASTER, d, di), LogStep(ROLE_MASTER, l, d, di);
    forall s
      ensures SlotOk(d', l', s)
    {
      SlotStep(d, l, di, s);
    }
  }

  lemma {:induction false} StartCount(ports: seq<ListRx>)
    requires forall p :: 0 <= p < |ports| ==> ports[p] == RX_START
    ensures LiveCount(ports) == 0
  {
    if ports == [] {
    } else {
      StartCount(ports[1..]);
    }
  }

  // -------- whole runs --------

  /** On a master, at the end of every run of any port: the cursor is (30 + allocations) mod 255; every cached
      entry has an address, the one of its own allocation; no two entries share an allocation; and
      allocations = insertions = live entries + removed entries. */
  lemma {:induction false} AllocationsAccounted(tr: seq<Device>, ins: seq<DeviceInput>, i: nat)
    requires DeviceTrace(ROLE_MASTER, tr, ins) && i <= |ins|
    ensures Accounted(tr[i], LogAt(ROLE_MASTER, tr, ins, i))
  {
    if i == 0 {
      StartCount(tr[0].ports);
    } else {
      AllocationsAccounted(tr, ins, i - 1);
      AccountedStep(tr[i - 1], LogAt(ROLE_MASTER, tr, ins, i - 1), ins[i - 1]);
    }
  }

  /** Two live entries, on any ports, share an address iff their allocations are a multiple of 255 apart; they
      never stem from the same allocation. Every state that a run of a master reaches is accounted for. */
  lemma SharedAddressIff(d: Device, l: Log, s: Slot, t: Slot)
    requires Accounted(d, l) && HasLive(d, s) && HasLive(d, t)
    ensures s in l.serial && t in l.serial && (s != t ==> l.serial[s] != l.serial[t])
    ensures EntryAt(d, s).ip == EntryAt(d, t).ip <==> (l.serial[s] as int - l.serial[t]) % 255 == 0
  {
    assert SlotOk(d, l, s) && SlotOk(d, l, t);
    SameAddressIff(l.serial[s], l.serial[t]);
  }

  /** Entries allocated within any 255 consecutive allocations have distinct addresses. */
  lemma RecentAddressesDistinct(d: Device, l: Log, s: Slot, t: Slot)
    requires Accounted(d, l) && HasLive(d, s) && HasLive(d, t) && s != t
    requires s in l.serial && t in l.serial && -255 < l.serial[s] as int - l.serial[t] < 255
    ensures EntryAt(d, s).ip != EntryAt(d, t).ip
  {
    assert SlotOk(d, l, s) && SlotOk(d, l, t);
    NearAddressesDiffer(l.serial[s], l.serial[t]);
  }

  lemma AddressKept(tr: seq<Device>, ins: seq<DeviceInput>, i: nat, s: Slot)
    requires DeviceTrace(ROLE_MASTER, tr, ins) && i < |ins|
    requires HasLive(tr[i], s) && HasLive(tr[i + 1], s)
    ensures EntryAt(tr[i + 1], s).ip == EntryAt(tr[i], s).ip
  {
    AllocationsAccounted(tr, ins, i);
    PortStep(tr[i], LogAt(ROLE_MASTER, tr, ins, i), ins[i]);
  }

  /** An address stays with its neighbour for as long as the entry is cached: through refreshes, and through
      anything the other ports do. */
  lemma {:induction false} AddressStable(tr: seq<Device>, ins: seq<DeviceInput>, i: nat, j: nat, s: Slot)
    requires DeviceTrace(ROLE_MASTER, tr, ins) && i <= j <= |ins|
    requires forall k :: i <= k <= j ==> HasLive(tr[k], s)
    ensures EntryAt(tr[j], s).ip == EntryAt(tr[i], s).ip
  {
    if i == j {
    } else {
      AddressStable(tr, ins, i, j - 1, s);
      AddressKept(tr, ins, j - 1, s);
    }
  }
}
