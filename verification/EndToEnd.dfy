/** Facts that need both ends: the address a master assigns reaches the slave, and ids identify senders. */
module EndToEnd {
  import opened Bytes
  import opened TlvFormat
  import opened Parser
  import opened RoundTrip
  import opened Neighbours
  import opened RxSpec
  import opened RxRuns

  /** The destination of a set-IP frame: the first six bytes of the neighbour's id. */
  function SlaveMac(id: seq<byte>): Mac
    requires |id| >= 6
  {
    id[..6]
  }

  /** What a device with role `dev` takes from an information frame. */
  function InfoDigest(p: PortIdentity, ttl: u16, ws: seq<WifiPort>, dev: int): Digest {
    Digest(Some(ttl),
           if Opposite(dev, p.role % 256)
           then Some(Sender(MsapOf(p), p.role % 256, p.ip, TwoSlots(FirstTwo(Modules(ws)))))
           else None)
  }

  lemma InfoFrameDigest(p: PortIdentity, ttl: u16, ws: seq<WifiPort>, dev: int, residue: Ipv4, tail: seq<byte>)
    requires p.Encodable()
    ensures var f := InfoFrame(p, ttl, ws);
      DigestOf(Parse(f + tail, |f|, dev, residue)) == InfoDigest(p, ttl, ws, dev)
  {
    InfoRoundTrip(p, ttl, ws, dev, residue, tail);
  }

  lemma NewSlaveGetsAddress(s: TableRx, portEnabled: bool, admin: AdminStatus, cursor: byte, d: Digest)
    requires d.sender.Some? && d.sender.value.role == ROLE_SLAVE && KeyOf(d.sender.value.id) !in s.cache
    requires Transition(s, portEnabled, admin) == RxFrame
    ensures var o, k := RunTable(ROLE_MASTER, s, portEnabled, admin, cursor, d), KeyOf(d.sender.value.id);
      && o.assignment == Some(Assignment(d.sender.value.id, AddressAt(cursor))) && o.cursor == NextCursor(cursor)
      && k in o.rx.cache && o.rx.cache[k].ip == AddressAt(cursor)
  {
  }

  lemma NewSlaveIsListed(s: ListRx, portEnabled: bool, admin: AdminStatus, cursor: byte, d: Digest)
    requires DistinctKeys(s.cache) && Transition(s, portEnabled, admin) == RxFrame
    requires d.sender.Some? && d.sender.value.role == ROLE_SLAVE && KeyOf(d.sender.value.id) !in TableOf(s.cache)
    ensures var o, k := Run(ROLE_MASTER, s, portEnabled, admin, cursor, d), KeyOf(d.sender.value.id);
      && o.assignment == Some(Assignment(d.sender.value.id, AddressAt(cursor))) && o.cursor == NextCursor(cursor)
      && k in TableOf(o.rx.cache) && TableOf(o.rx.cache)[k].ip == AddressAt(cursor)
  {
    RunRefines(ROLE_MASTER, s, portEnabled, admin, cursor, d);
    NewSlaveGetsAddress(Abstract(s), portEnabled, admin, cursor, d);
    var o := Run(ROLE_MASTER, s, portEnabled, admin, cursor, d);
    assert AbstractOut(o) == Out(Abstract(o.rx), o.cursor, o.assignment);
  }

  /** The run in which a device with role `dev` processes frame `f`. */
  function Receive(dev: int, s: ListRx, portEnabled: bool, admin: AdminStatus, cursor: byte,
                   f: seq<byte>, tail: seq<byte>, residue: Ipv4): Out<seq<Entry>> {
    Run(dev, s, portEnabled, admin, cursor, DigestOf(Parse(f + tail, |f|, dev, residue)))
  }

  /** A master that hears an uncached slave assigns it the cursor's address and caches it under that address. */
  lemma MasterAssigns(slave: PortIdentity, ttl: u16, ws: seq<WifiPort>, s: ListRx, portEnabled: bool,
                      admin: AdminStatus, cursor: byte, tail: seq<byte>, residue: Ipv4)
    requires slave.Encodable() && slave.role == ROLE_SLAVE
    requires DistinctKeys(s.cache) && KeyOf(MsapOf(slave)) !in TableOf(s.cache)
    requires Transition(s, portEnabled, admin) == RxFrame
    ensures var o := Receive(ROLE_MASTER, s, portEnabled, admin, cursor, InfoFrame(slave, ttl, ws), tail, residue);
      && o.assignment == Some(Assignment(MsapOf(slave), AddressAt(cursor))) && o.cursor == NextCursor(cursor)
      && KeyOf(MsapOf(slave)) in TableOf(o.rx.cache)
      && TableOf(o.rx.cache)[KeyOf(MsapOf(slave))].ip == AddressAt(cursor)
  {
    InfoFrameDigest(slave, ttl, ws, ROLE_MASTER, residue, tail);
    NewSlaveIsListed(s, portEnabled, admin, cursor, InfoDigest(slave, ttl, ws, ROLE_MASTER));
  }

  /** A set-IP frame is addressed to the MAC it was built for; the slave that parses it configures exactly the
      address it carries and takes its sender for a master. */
  lemma SlaveObeys(master: PortIdentity, ttl: u16, ws: seq<WifiPort>, mac: Mac, ip: Ipv4, residue: Ipv4,
                   tail: seq<byte>)
    requires master.Encodable()
    ensures var g := SetIpFrame(master, ttl, ws, mac, ip);
      var v := Parse(g + tail, |g|, ROLE_SLAVE, residue);
      && g[..6] == mac && v.Done? && v.scan.configured == [ip]
      && DigestOf(v).sender.Some? && DigestOf(v).sender.value.id == MsapOf(master)
  {
    SetIpRoundTrip(master, ttl, ws, mac, ip, ROLE_SLAVE, residue, tail);
  }

  /** Address assignment, over bytes: the set-IP frame that a master builds from the assignment it makes on
      hearing an uncached slave goes to that slave's own MAC, and the slave, parsing it, configures exactly the
      address under which the master has cached it. */
  lemma AssignmentEndToEnd(slave: PortIdentity, ttl: u16, ws: seq<WifiPort>, s: ListRx, portEnabled: bool,
                           admin: AdminStatus, cursor: byte, tail: seq<byte>, residue: Ipv4,
                           master: PortIdentity, ttl': u16, ws': seq<WifiPort>, tail': seq<byte>, residue': Ipv4)
    requires slave.Encodable() && master.Encodable() && slave.role == ROLE_SLAVE
    requires DistinctKeys(s.cache) && KeyOf(MsapOf(slave)) !in TableOf(s.cache)
    requires Transition(s, portEnabled, admin) == RxFrame
    ensures
      var o := Receive(ROLE_MASTER, s, portEnabled, admin, cursor, InfoFrame(slave, ttl, ws), tail, residue);
      && o.assignment.Some? && |o.assignment.value.id| >= 6
      && var g := SetIpFrame(master, ttl', ws', SlaveMac(o.assignment.value.id), o.assignment.value.ip);
         var v := Parse(g + tail', |g|, ROLE_SLAVE, residue');
      && g[..6] == slave.mac
      && KeyOf(MsapOf(slave)) in TableOf(o.rx.cache)
      && v.Done? && v.scan.configured == [TableOf(o.rx.cache)[KeyOf(MsapOf(slave))].ip]
  {
    MasterAssigns(slave, ttl, ws, s, portEnabled, admin, cursor, tail, residue);
    assert SlaveMac(MsapOf(slave)) == slave.mac;
    SlaveObeys(master, ttl', ws', slave.mac, AddressAt(cursor), residue', tail');
  }

  // -------- ids --------

  /** Interface names in this agent have at most 31 bytes; up to 249, two senders share a cache key iff their
      MAC and interface name are equal. */
  lemma KeysIdentifySenders(p: PortIdentity, q: PortIdentity)
    requires |p.ifName| < 250 && |q.ifName| < 250
    ensures KeyOf(MsapOf(p)) == KeyOf(MsapOf(q)) <==> p.mac == q.mac && p.ifName == q.ifName
  {
    KeyIsId(MsapOf(p));
    KeyIsId(MsapOf(q));
    assert MsapOf(p)[..6] == p.mac && MsapOf(p)[6..] == p.ifName;
    assert MsapOf(q)[..6] == q.mac && MsapOf(q)[6..] == q.ifName;
  }

  /** Beyond that the 8-bit length betrays them: all senders whose name has 250 bytes share one key. */
  lemma LongNamesCollide(p: PortIdentity, q: PortIdentity)
    requires |p.ifName| == 250 && |q.ifName| == 250
    ensures KeyOf(MsapOf(p)) == KeyOf(MsapOf(q))
  {
    assert |MsapOf(p)| % 256 == 0 && |MsapOf(q)| % 256 == 0;
  }

  /** A frame of either builder. */
  datatype Built =
    | Info(p: PortIdentity, ttl: u16, ws: seq<WifiPort>)
    | SetIp(p: PortIdentity, ttl: u16, ws: seq<WifiPort>, slavemac: Mac, slaveip: Ipv4)
  {
    predicate Valid() {
      p.Encodable() && |p.ifName| < 250
    }

    function Frame(): seq<byte>
      requires Valid()
    {
      match this
      case Info(p, ttl, ws) => InfoFrame(p, ttl, ws)
      case SetIp(p, ttl, ws, mac, ip) => SetIpFrame(p, ttl, ws, mac, ip)
    }

    /** The role it speaks for: a set-IP frame carries none, which the parser takes for a master. */
    function Role(): int {
      if Info? then p.role % 256 else ROLE_MASTER
    }

    function Sender(): Key {
      KeyOf(MsapOf(p))
    }
  }

  /** The circumstances of one run that processes a frame. */
  datatype Hearing = Hearing(portEnabled: bool, admin: AdminStatus, cursor: byte, tail: seq<byte>, residue: Ipv4)

  function Hear(dev: int, s: ListRx, b: Built, h: Hearing): ListRx
    requires b.Valid()
  {
    Receive(dev, s, h.portEnabled, h.admin, h.cursor, b.Frame(), h.tail, h.residue).rx
  }

  /** A device takes a built frame for a neighbour's iff the frame speaks for the opposite role, and then for the
      neighbour that built it. */
  lemma BuiltNames(dev: int, b: Built, residue: Ipv4, tail: seq<byte>)
    requires b.Valid()
    ensures var f := b.Frame();
      var d := DigestOf(Parse(f + tail, |f|, dev, residue));
      && d.ttl == Some(b.ttl)
      && (d.sender.Some? <==> Opposite(dev, b.Role()))
      && (d.sender.Some? ==> d.sender.value.id == MsapOf(b.p))
  {
    match b
    case Info(p, ttl, ws) => InfoRoundTrip(p, ttl, ws, dev, residue, tail);
    case SetIp(p, ttl, ws, mac, ip) => SetIpRoundTrip(p, ttl, ws, mac, ip, dev, residue, tail);
  }

  lemma ProcessingAddsKey(dev: int, s: TableRx, h: Hearing, d: Digest)
    requires Transition(s, h.portEnabled, h.admin) == RxFrame
    ensures RunTable(dev, s, h.portEnabled, h.admin, h.cursor, d).rx.cache.Keys
         == s.cache.Keys + if d.sender.Some? then {KeyOf(d.sender.value.id)} else {}
  {
  }

  lemma ListedAddsKey(dev: int, s: ListRx, h: Hearing, d: Digest)
    requires DistinctKeys(s.cache) && Transition(s, h.portEnabled, h.admin) == RxFrame
    ensures var o := Run(dev, s, h.portEnabled, h.admin, h.cursor, d);
      && DistinctKeys(o.rx.cache)
      && TableOf(o.rx.cache).Keys
      == TableOf(s.cache).Keys + if d.sender.Some? then {KeyOf(d.sender.value.id)} else {}
  {
    RunRefines(dev, s, h.portEnabled, h.admin, h.cursor, d);
    ProcessingAddsKey(dev, Abstract(s), h, d);
    var o, o' := Run(dev, s, h.portEnabled, h.admin, h.cursor, d),
                 RunTable(dev, Abstract(s), h.portEnabled, h.admin, h.cursor, d);
    assert TableOf(o.rx.cache) == o'.rx.cache;
  }

  /** Hearing a frame adds its builder's key to the cache, if the roles are opposite, and no other. */
  lemma HearingCaches(dev: int, s: ListRx, b: Built, h: Hearing)
    requires b.Valid() && DistinctKeys(s.cache) && Transition(s, h.portEnabled, h.admin) == RxFrame
    ensures DistinctKeys(Hear(dev, s, b, h).cache)
    ensures TableOf(Hear(dev, s, b, h).cache).Keys
         == TableOf(s.cache).Keys + if Opposite(dev, b.Role()) then {b.Sender()} else {}
  {
    var f := b.Frame();
    var d := DigestOf(Parse(f + h.tail, |f|, dev, h.residue));
    BuiltNames(dev, b, h.residue, h.tail);
    ListedAddsKey(dev, s, h, d);
  }

  /** Run `i` processes frame `b`, with `tail` behind it in the buffer. */
  ghost predicate Processes(dev: int, tr: seq<ListRx>, ins: seq<RxInput>, i: nat, b: Built, tail: seq<byte>,
                            residue: Ipv4)
    requires Trace(dev, tr, ins) && i < |ins|
  {
    && b.Valid() && tr[i + 1].state == RxFrame
    && ins[i].content == DigestOf(Parse(b.Frame() + tail, |b.Frame()|, dev, residue))
  }

  /** Then the sender's key joins the cache, if the roles are opposite. */
  lemma TraceCaches(dev: int, tr: seq<ListRx>, ins: seq<RxInput>, i: nat, b: Built, tail: seq<byte>, residue: Ipv4)
    requires Trace(dev, tr, ins) && i < |ins| && Processes(dev, tr, ins, i, b, tail, residue)
    ensures TableOf(tr[i + 1].cache).Keys
         == TableOf(tr[i].cache).Keys + if Opposite(dev, b.Role()) then {b.Sender()} else {}
  {
    assert StepAt(dev, tr, ins, i);
    AlwaysGood(dev, tr, ins, i);
    BuiltNames(dev, b, residue, tail);
    var s := Deliver(tr[i], ins[i].arrives);
    var h := Hearing(ins[i].portEnabled, ins[i].admin, ins[i].cursor, tail, residue);
    assert Transition(s, h.portEnabled, h.admin) == RxFrame;
    ListedAddsKey(dev, s, h, ins[i].content);
  }

  /** No run between `i` and `j` deletes the entry. */
  ghost predicate NotDeleted(tr: seq<ListRx>, i: nat, j: nat, k: Key)
    requires j < |tr|
  {
    forall n {:trigger tr[n]} :: i < n < j && Cached(tr[n], k) ==> Cached(tr[n + 1], k)
  }

  lemma {:induction false} StaysListed(tr: seq<ListRx>, i: nat, j: nat, k: Key)
    requires i < j < |tr| && Cached(tr[i + 1], k) && NotDeleted(tr, i, j, k)
    ensures Cached(tr[j], k)
  {
    if j == i + 1 {
    } else {
      StaysListed(tr, i, j - 1, k);
      assert Cached(tr[j - 1], k);
    }
  }

  lemma ListedApart(c: seq<Entry>, b: Built, b': Built)
    requires b.Valid() && b'.Valid() && b.Sender() in TableOf(c) && b'.Sender() in TableOf(c)
    ensures var m, n := Find(c, b.Sender()), Find(c, b'.Sender());
      m < |c| && n < |c| && (m == n <==> b.p.mac == b'.p.mac && b.p.ifName == b'.p.ifName)
  {
    TableAt(c, b.Sender());
    TableAt(c, b'.Sender());
    KeysIdentifySenders(b.p, b'.p);
  }

  /** Over a whole run of a device of either role: when two frames of either builder, from neighbours, have been
      processed in runs `i` and `j`, and the first sender's entry has not been deleted in between, both senders are
      listed, and under the same entry iff the frames come from the same port. */
  lemma FramesIdentifySenders(dev: int, tr: seq<ListRx>, ins: seq<RxInput>, i: nat, j: nat, b: Built, b': Built,
                              tail: seq<byte>, residue: Ipv4, tail': seq<byte>, residue': Ipv4)
    requires Trace(dev, tr, ins) && i < j < |ins|
    requires Processes(dev, tr, ins, i, b, tail, residue) && Processes(dev, tr, ins, j, b', tail', residue')
    requires Opposite(dev, b.Role()) && Opposite(dev, b'.Role()) && NotDeleted(tr, i, j, b.Sender())
    ensures var c := tr[j + 1].cache;
      var m, n := Find(c, b.Sender()), Find(c, b'.Sender());
      m < |c| && n < |c| && (m == n <==> b.p.mac == b'.p.mac && b.p.ifName == b'.p.ifName)
  {
    TraceCaches(dev, tr, ins, i, b, tail, residue);
    StaysListed(tr, i, j, b.Sender());
    TraceCaches(dev, tr, ins, j, b', tail', residue');
    ListedApart(tr[j + 1].cache, b, b');
  }
}
