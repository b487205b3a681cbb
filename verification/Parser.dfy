/** The receive parser: one pass over the TLVs of a frame, and what that pass means. */
module Parser {
  import opened Bytes
  import opened TlvFormat

  const WIFI_MODULES := 2

  datatype WifiMod = WifiMod(mac: Mac, mode: int)

  /** The parser's local variables. `ttl` is the value written to the port's rxTTL, if any;
      `configured` lists the addresses handed to ifconfig; `ip` starts as whatever the stack held. */
  datatype Scan = Scan(
    chassis: Option<seq<byte>>,
    msap: Option<seq<byte>>,
    ttl: Option<nat>,
    role: int,
    ip: Ipv4,
    wifi: seq<WifiMod>,
    configured: seq<Ipv4>,
    haveDc: bool,
    bad: nat)

  function Start(residue: Ipv4, bad: nat): Scan {
    Scan(None, None, None, ROLE_MASTER, residue, [], [], false, bad)
  }

  /** `Spin`: the loop repeats the same pass forever. `Crash`: it dereferences NULL or leaves a buffer. */
  datatype Verdict = Done(scan: Scan) | Spin | Crash

  datatype OuiTest = Own | Foreign | Overread

  /** The vendor test compares byte by byte and stops at the first difference. */
  function Oui(v: seq<byte>): OuiTest {
    if |v| == 0 then Overread
    else if v[0] != DC_OUI[0] then Foreign
    else if |v| == 1 then Overread
    else if v[1] != DC_OUI[1] then Foreign
    else if |v| == 2 then Overread
    else if v[2] != DC_OUI[2] then Foreign
    else Own
  }

  /** A vendor TLV is the agent's own iff it starts with the three bytes of its OUI, and foreign iff it differs from
      them in a byte that it has. */
  lemma OuiMeans(v: seq<byte>)
    ensures Oui(v) == Own <==> |v| >= 3 && v[..3] == [0xa4, 0xfb, 0x8d]
    ensures Oui(v) == Foreign <==> exists i :: 0 <= i < |v| && i < 3 && v[i] != [0xa4, 0xfb, 0x8d][i]
  {
    if |v| >= 3 {
      assert v[..3] == [v[0], v[1], v[2]];
    }
    if Oui(v) == Foreign {
      var i := if v[0] != 0xa4 then 0 else if v[1] != 0xfb then 1 else 2;
      assert v[i] != [0xa4, 0xfb, 0x8d][i];
    }
  }

  predicate IsOwn(t: Tlv) {
    t.typ == ORG_SPECIFIC && Oui(t.value) == Own
  }

  predicate Opposite(dev: int, role: int) {
    || (dev == ROLE_MASTER && role == ROLE_SLAVE)
    || (dev == ROLE_SLAVE && role == ROLE_MASTER)
  }

  /** Bytes an own TLV of this subtype must carry for the parser to stay inside it. */
  function NeededLength(subtype: byte, wifinum: nat): nat {
    if subtype == SUBTYPE_IPADDR || subtype == SUBTYPE_SET_IP then 8
    else if subtype == SUBTYPE_ROLE then 5
    else if subtype == SUBTYPE_WIFI && wifinum < WIFI_MODULES then 11
    else 4
  }

  function AbsorbOwn(dev: int, st: Scan, v: seq<byte>): Verdict
    requires Oui(v) == Own
  {
    if |v| < 4 || |v| < NeededLength(v[3], |st.wifi|) then Crash
    else
      var subtype := v[3];
      var st' :=
        if subtype == SUBTYPE_IPADDR then st.(ip := v[4..8])
        else if subtype == SUBTYPE_SET_IP then
          st.(ip := v[4..8], configured := if dev == ROLE_SLAVE then st.configured + [v[4..8]] else st.configured)
        else if subtype == SUBTYPE_ROLE then st.(role := v[4])
        else if subtype == SUBTYPE_WIFI && |st.wifi| < WIFI_MODULES then
          st.(wifi := st.wifi + [WifiMod(v[4..10], v[10])])
        else st;
      Done(st'.(haveDc := Opposite(dev, st'.role)))
  }

  /** The body of the receive loop for one TLV whose bytes are all inside the buffer. */
  function Absorb(dev: int, st: Scan, t: Tlv): Verdict {
    if t.typ == TIME_TO_LIVE then
      Done(if |t.value| == 2 then st.(ttl := Some(U16(t.value[0], t.value[1]))) else st)
    else if t.typ == CHASSIS_ID then
      Done(st.(chassis := Some(t.value)))
    else if t.typ == PORT_ID then
      if st.chassis.None? || |st.chassis.value| == 0 || |t.value| == 0 then Crash
      else Done(st.(msap := Some(st.chassis.value[1..] + t.value[1..]), chassis := None))
    else if t.typ == ORG_SPECIFIC then
      match Oui(t.value)
      case Overread => Crash
      case Foreign => Spin
      case Own => AbsorbOwn(dev, st, t.value)
    else Done(st)
  }

  // -------- the loop, pass by pass --------

  datatype Pass = Again(off: nat, st: Scan) | Halt(v: Verdict)

  /** One pass of the do-while body over frame `f` of `n` received bytes. A foreign vendor TLV takes the
      `continue` that skips the offset advance, so the next pass starts where this one did. */
  function OnePass(f: seq<byte>, n: int, dev: int, off: nat, st: Scan): Pass {
    if off > n then Halt(Done(st.(bad := st.bad + 1)))
    else if |f| < ETH_HEADER_SIZE + off + 2 then Halt(Crash)
    else
      var at := ETH_HEADER_SIZE + off;
      var len := HeaderLength(f[at], f[at + 1]);
      var typ := HeaderType(f[at], f[at + 1]);
      if typ == END_OF_LLDPDU then Halt(Done(st))
      else if |f| < at + 2 + len then Halt(Crash)
      else
        match Absorb(dev, st, Tlv(typ, f[at + 2..at + 2 + len]))
        case Done(st') => Again(off + 2 + len, st')
        case Spin => Again(off, st)
        case Crash => Halt(Crash)
  }

  /** A pass ends the loop well iff it starts beyond the received size, or at a TLV of type 0. */
  lemma PassEndsIff(f: seq<byte>, n: int, dev: int, off: nat, st: Scan)
    ensures (OnePass(f, n, dev, off, st).Halt? && OnePass(f, n, dev, off, st).v.Done?) <==>
            off > n || (off + 16 <= |f| && f[off + 14] < 2)
  {
  }

  /** Runs the loop to its end, or reports that it has none. */
  function ParseFrom(f: seq<byte>, n: int, dev: int, off: nat, st: Scan): Verdict
    decreases |f| - off
  {
    match OnePass(f, n, dev, off, st)
    case Halt(v) => v
    case Again(off', st') => if off' == off then Spin else ParseFrom(f, n, dev, off', st')
  }

  function HeaderErrors(f: seq<byte>): nat
    requires |f| >= ETH_HEADER_SIZE
  {
    if f[12..14] == ETHERTYPE_LLDP then 0 else 1
  }

  function Parse(f: seq<byte>, n: int, dev: int, residue: Ipv4): Verdict {
    if |f| < ETH_HEADER_SIZE then Crash
    else ParseFrom(f, n, dev, 0, Start(residue, HeaderErrors(f)))
  }

  /** The state of the loop after `k` passes. */
  function Iterate(f: seq<byte>, n: int, dev: int, off: nat, st: Scan, k: nat): Pass
    decreases k
  {
    if k == 0 then Again(off, st)
    else
      match OnePass(f, n, dev, off, st)
      case Halt(v) => Halt(v)
      case Again(off', st') => Iterate(f, n, dev, off', st', k - 1)
  }

  /** A pass that neither halts nor repeats itself moves forward by at least a header. */
  lemma PassAdvances(f: seq<byte>, n: int, dev: int, off: nat, st: Scan)
    ensures var p := OnePass(f, n, dev, off, st);
      p.Again? ==> p == Again(off, st) || (off + 2 <= p.off && ETH_HEADER_SIZE + p.off <= |f|)
  {
  }

  lemma {:induction false} IterateSound(f: seq<byte>, n: int, dev: int, off: nat, st: Scan, k: nat)
    requires Iterate(f, n, dev, off, st, k).Halt?
    ensures ParseFrom(f, n, dev, off, st) == Iterate(f, n, dev, off, st, k).v
    ensures !ParseFrom(f, n, dev, off, st).Spin?
    decreases k
  {
    var p := OnePass(f, n, dev, off, st);
    if p.Again? {
      PassAdvances(f, n, dev, off, st);
      IterateSound(f, n, dev, p.off, p.st, k - 1);
    }
  }

  lemma {:induction false} IterateComplete(f: seq<byte>, n: int, dev: int, off: nat, st: Scan) returns (k: nat)
    requires !ParseFrom(f, n, dev, off, st).Spin?
    ensures Iterate(f, n, dev, off, st, k).Halt?
    decreases |f| - off
  {
    var p := OnePass(f, n, dev, off, st);
    if p.Halt? {
      k := 1;
    } else {
      PassAdvances(f, n, dev, off, st);
      var k' := IterateComplete(f, n, dev, p.off, p.st);
      k := k' + 1;
    }
  }

  /** The loop of the source halts exactly when the verdict is not `Spin`, and then with that verdict. */
  lemma LoopHaltsIff(f: seq<byte>, n: int, dev: int, off: nat, st: Scan)
    ensures (exists k: nat :: Iterate(f, n, dev, off, st, k).Halt?) <==> !ParseFrom(f, n, dev, off, st).Spin?
    ensures forall k: nat :: Iterate(f, n, dev, off, st, k).Halt? ==>
      Iterate(f, n, dev, off, st, k).v == ParseFrom(f, n, dev, off, st)
  {
    forall k: nat | Iterate(f, n, dev, off, st, k).Halt?
      ensures Iterate(f, n, dev, off, st, k).v == ParseFrom(f, n, dev, off, st)
      ensures !ParseFrom(f, n, dev, off, st).Spin?
    {
      IterateSound(f, n, dev, off, st, k);
    }
    if !ParseFrom(f, n, dev, off, st).Spin? {
      var k := IterateComplete(f, n, dev, off, st);
    }
  }

  // -------- the fold over decoded TLVs --------

  datatype Ending = Ended | Truncated | Overrun

  datatype Decoded = Decoded(tlvs: seq<Tlv>, ending: Ending)

  /** Cuts a frame into TLVs, looking at headers only. */
  function Decode(f: seq<byte>, n: int, off: nat): Decoded
    decreases |f| - off
  {
    if off > n then Decoded([], Truncated)
    else if |f| < ETH_HEADER_SIZE + off + 2 then Decoded([], Overrun)
    else
      var at := ETH_HEADER_SIZE + off;
      var len := HeaderLength(f[at], f[at + 1]);
      var typ := HeaderType(f[at], f[at + 1]);
      if typ == END_OF_LLDPDU then Decoded([], Ended)
      else if |f| < at + 2 + len then Decoded([], Overrun)
      else
        var rest := Decode(f, n, off + 2 + len);
        Decoded([Tlv(typ, f[at + 2..at + 2 + len])] + rest.tlvs, rest.ending)
  }

  function Bind(dev: int, v: Verdict, t: Tlv): Verdict {
    if v.Done? then Absorb(dev, v.scan, t) else v
  }

  function Fold(dev: int, v: Verdict, ts: seq<Tlv>): Verdict
    decreases ts
  {
    if ts == [] then v else Fold(dev, Bind(dev, v, ts[0]), ts[1..])
  }

  function Finish(v: Verdict, ending: Ending): Verdict {
    if !v.Done? then v
    else
      match ending
      case Ended => v
      case Truncated => Done(v.scan.(bad := v.scan.bad + 1))
      case Overrun => Crash
  }

  lemma {:induction false} FoldStuck(dev: int, v: Verdict, ts: seq<Tlv>)
    requires !v.Done?
    ensures Fold(dev, v, ts) == v
  {
    if ts == [] {
    } else {
      FoldStuck(dev, v, ts[1..]);
    }
  }

  lemma {:induction false} FoldAppend(dev: int, v: Verdict, a: seq<Tlv>, b: seq<Tlv>)
    ensures Fold(dev, v, a + b) == Fold(dev, Fold(dev, v, a), b)
    decreases a
  {
    if a == [] {
      assert a + b == b;
    } else {
      assert (a + b)[1..] == a[1..] + b;
      FoldAppend(dev, Bind(dev, v, a[0]), a[1..], b);
    }
  }

  /** Parsing interleaves decoding and absorbing; the result is that of decoding first and folding after,
      for every buffer, well formed or not. */
  lemma {:induction false} ParseIsFold(f: seq<byte>, n: int, dev: int, off: nat, st: Scan)
    ensures var d := Decode(f, n, off);
      ParseFrom(f, n, dev, off, st) == Finish(Fold(dev, Done(st), d.tlvs), d.ending)
    decreases |f| - off
  {
    var d := Decode(f, n, off);
    if d.tlvs == [] {
    } else {
      var t := d.tlvs[0];
      var rest := Decode(f, n, off + 2 + |t.value|);
      assert d.tlvs[1..] == rest.tlvs;
      var v := Absorb(dev, st, t);
      if v.Done? {
        ParseIsFold(f, n, dev, off + 2 + |t.value|, v.scan);
      } else {
        FoldStuck(dev, v, rest.tlvs);
      }
    }
  }

  // -------- what the fold means, stated on the list --------

  function Last<T>(ts: seq<T>): T
    requires ts != []
  {
    ts[|ts| - 1]
  }

  function Front<T>(ts: seq<T>): seq<T>
    requires ts != []
  {
    ts[..|ts| - 1]
  }

  predicate OwnOf(t: Tlv, subtype: byte) {
    IsOwn(t) && |t.value| >= 4 && t.value[3] == subtype
  }

  /** The value of the last well-sized time-to-live TLV. */
  function LastTtl(ts: seq<Tlv>): Option<nat> {
    if ts == [] then None
    else if Last(ts).typ == TIME_TO_LIVE && |Last(ts).value| == 2 then Some(U16(Last(ts).value[0], Last(ts).value[1]))
    else LastTtl(Front(ts))
  }

  /** The role in the last role TLV; a frame that names none speaks for a master. */
  function LastRole(ts: seq<Tlv>): int {
    if ts == [] then ROLE_MASTER
    else if OwnOf(Last(ts), SUBTYPE_ROLE) && |Last(ts).value| >= 5 then Last(ts).value[4]
    else LastRole(Front(ts))
  }

  predicate CarriesIp(t: Tlv) {
    (OwnOf(t, SUBTYPE_IPADDR) || OwnOf(t, SUBTYPE_SET_IP)) && |t.value| >= 8
  }

  function LastIp(ts: seq<Tlv>, residue: Ipv4): Ipv4 {
    if ts == [] then residue
    else if CarriesIp(Last(ts)) then Last(ts).value[4..8]
    else LastIp(Front(ts), residue)
  }

  /** All wifi modules announced, in order; the parser keeps the first two. */
  function WifiSeen(ts: seq<Tlv>): seq<WifiMod> {
    if ts == [] then []
    else if OwnOf(Last(ts), SUBTYPE_WIFI) && |Last(ts).value| >= 11 then
      WifiSeen(Front(ts)) + [WifiMod(Last(ts).value[4..10], Last(ts).value[10])]
    else WifiSeen(Front(ts))
  }

  function FirstTwo(ws: seq<WifiMod>): seq<WifiMod> {
    if |ws| <= WIFI_MODULES then ws else ws[..WIFI_MODULES]
  }

  function SetIpSeen(ts: seq<Tlv>): seq<Ipv4> {
    if ts == [] then []
    else if OwnOf(Last(ts), SUBTYPE_SET_IP) && |Last(ts).value| >= 8 then SetIpSeen(Front(ts)) + [Last(ts).value[4..8]]
    else SetIpSeen(Front(ts))
  }

  /** The chassis id waiting for its port id. */
  function OpenChassis(ts: seq<Tlv>): Option<seq<byte>> {
    if ts == [] then None
    else if Last(ts).typ == CHASSIS_ID then Some(Last(ts).value)
    else if Last(ts).typ == PORT_ID then None
    else OpenChassis(Front(ts))
  }

  function LastMsap(ts: seq<Tlv>): Option<seq<byte>> {
    if ts == [] then None
    else if Last(ts).typ == PORT_ID && |Last(ts).value| > 0 &&
            OpenChassis(Front(ts)).Some? && |OpenChassis(Front(ts)).value| > 0 then
      Some(OpenChassis(Front(ts)).value[1..] + Last(ts).value[1..])
    else LastMsap(Front(ts))
  }

  predicate AnyOwn(ts: seq<Tlv>) {
    exists i :: 0 <= i < |ts| && IsOwn(ts[i])
  }

  function Meaning(dev: int, ts: seq<Tlv>, residue: Ipv4, bad: nat): Scan {
    Scan(OpenChassis(ts), LastMsap(ts), LastTtl(ts), LastRole(ts), LastIp(ts, residue), FirstTwo(WifiSeen(ts)),
         if dev == ROLE_SLAVE then SetIpSeen(ts) else [],
         AnyOwn(ts) && Opposite(dev, LastRole(ts)),
         bad)
  }

  /** TLV `i` neither loops nor leaves a buffer when the TLVs before it have been read. */
  predicate Harmless(ts: seq<Tlv>, i: nat)
    requires i < |ts|
  {
    var t := ts[i];
    if t.typ == PORT_ID then
      |t.value| > 0 && OpenChassis(ts[..i]).Some? && |OpenChassis(ts[..i]).value| > 0
    else if t.typ == ORG_SPECIFIC then
      Oui(t.value) == Own && |t.value| >= 4 && |t.value| >= NeededLength(t.value[3], |FirstTwo(WifiSeen(ts[..i]))|)
    else true
  }

  ghost predicate AllHarmless(ts: seq<Tlv>) {
    forall i :: 0 <= i < |ts| ==> Harmless(ts, i)
  }

  lemma HarmlessFront(ts: seq<Tlv>)
    requires ts != []
    ensures AllHarmless(ts) <==> AllHarmless(Front(ts)) && Harmless(ts, |ts| - 1)
  {
    var a := Front(ts);
    forall i | 0 <= i < |a|
      ensures Harmless(ts, i) <==> Harmless(a, i)
    {
      assert ts[..i] == a[..i];
    }
  }

  lemma AnyOwnFront(ts: seq<Tlv>)
    requires ts != []
    ensures AnyOwn(ts) <==> AnyOwn(Front(ts)) || IsOwn(Last(ts))
  {
    var a := Front(ts);
    if AnyOwn(a) {
      var i :| 0 <= i < |a| && IsOwn(a[i]);
      assert IsOwn(ts[i]);
    }
    if AnyOwn(ts) && !IsOwn(Last(ts)) {
      var i :| 0 <= i < |ts| && IsOwn(ts[i]);
      assert IsOwn(a[i]);
    }
  }

  lemma FoldFront(dev: int, v: Verdict, ts: seq<Tlv>)
    requires ts != []
    ensures Fold(dev, v, ts) == Bind(dev, Fold(dev, v, Front(ts)), Last(ts))
  {
    assert ts == Front(ts) + [Last(ts)];
    FoldAppend(dev, v, Front(ts), [Last(ts)]);
    assert [Last(ts)][1..] == [];
  }

  /** The pass ends well exactly when every TLV is harmless, and then every variable is the one the list
      determines: last TTL, last role, last address, first two wifi modules, and the neighbour flag set iff
      some own TLV occurred and the two roles are opposite. */
  lemma {:induction false} FoldMeaning(dev: int, ts: seq<Tlv>, residue: Ipv4, bad: nat)
    ensures var v := Fold(dev, Done(Start(residue, bad)), ts);
      if AllHarmless(ts) then v == Done(Meaning(dev, ts, residue, bad)) else !v.Done?
  {
    if ts == [] {
    } else {
      FoldMeaning(dev, Front(ts), residue, bad);
      FoldFront(dev, Done(Start(residue, bad)), ts);
      HarmlessFront(ts);
      if AllHarmless(Front(ts)) {
        AbsorbMeaning(dev, ts, residue, bad);
      }
    }
  }

  lemma AbsorbMeaning(dev: int, ts: seq<Tlv>, residue: Ipv4, bad: nat)
    requires ts != [] && AllHarmless(Front(ts))
    ensures var v := Absorb(dev, Meaning(dev, Front(ts), residue, bad), Last(ts));
      if Harmless(ts, |ts| - 1) then v == Done(Meaning(dev, ts, residue, bad)) else !v.Done?
  {
    var t := Last(ts);
    AnyOwnFront(ts);
    if Harmless(ts, |ts| - 1) {
      assert t.typ != ORG_SPECIFIC ==> !IsOwn(t);
    }
  }

  predicate IsForeign(t: Tlv) {
    t.typ == ORG_SPECIFIC && Oui(t.value) == Foreign
  }

  /** TLV `i` is a foreign vendor TLV that is reached: only harmless TLVs come before it. */
  ghost predicate CaughtAt(ts: seq<Tlv>, i: nat)
    requires i < |ts|
  {
    IsForeign(ts[i]) && AllHarmless(ts[..i])
  }

  ghost predicate Caught(ts: seq<Tlv>) {
    exists i :: 0 <= i < |ts| && CaughtAt(ts, i)
  }

  lemma CaughtFront(ts: seq<Tlv>)
    requires ts != []
    ensures Caught(ts) <==> Caught(Front(ts)) || CaughtAt(ts, |ts| - 1)
  {
    var a := Front(ts);
    forall i | 0 <= i < |a|
      ensures CaughtAt(a, i) <==> CaughtAt(ts, i)
    {
      assert a[..i] == ts[..i];
    }
    if Caught(a) {
      var i :| 0 <= i < |a| && CaughtAt(a, i);
      assert CaughtAt(ts, i);
    }
  }

  lemma HarmlessNotCaught(ts: seq<Tlv>)
    requires AllHarmless(ts)
    ensures !Caught(ts)
  {
    forall i | 0 <= i < |ts|
      ensures !CaughtAt(ts, i)
    {
      assert Harmless(ts, i);
    }
  }

  /** The loop is caught exactly when a foreign vendor TLV follows harmless TLVs only. */
  lemma {:induction false} FoldSpinsIff(dev: int, ts: seq<Tlv>, residue: Ipv4, bad: nat)
    ensures Fold(dev, Done(Start(residue, bad)), ts).Spin? <==> Caught(ts)
  {
    if ts == [] {
    } else {
      var a := Front(ts);
      FoldSpinsIff(dev, a, residue, bad);
      FoldMeaning(dev, a, residue, bad);
      FoldFront(dev, Done(Start(residue, bad)), ts);
      CaughtFront(ts);
      assert ts[..|ts| - 1] == a;
      if AllHarmless(a) {
        AbsorbMeaning(dev, ts, residue, bad);
        HarmlessNotCaught(a);
      }
    }
  }

  /** The receive loop of the source runs forever on a frame exactly when the decoded TLVs contain a foreign
      vendor TLV that is reached, that is, with only harmless TLVs before it. */
  lemma ReceiveLoopHaltsIff(f: seq<byte>, n: int, dev: int, residue: Ipv4)
    requires |f| >= ETH_HEADER_SIZE
    ensures (exists k: nat :: Iterate(f, n, dev, 0, Start(residue, HeaderErrors(f)), k).Halt?) <==>
            !Caught(Decode(f, n, 0).tlvs)
  {
    var st := Start(residue, HeaderErrors(f));
    LoopHaltsIff(f, n, dev, 0, st);
    ParseIsFold(f, n, dev, 0, st);
    FoldSpinsIff(dev, Decode(f, n, 0).tlvs, residue, HeaderErrors(f));
  }

  /** A frame with nothing but an IEEE 802.1 vendor TLV and the End TLV. */
  function ForeignFrame(): seq<byte> {
    Zeros(12) + ETHERTYPE_LLDP + [0xfe, 0x04, 0x00, 0x80, 0xc2, 0x01] + [0x00, 0x00]
  }

  /** The loop never comes out of this well-formed frame, on either device. */
  lemma ForeignFrameSpins(dev: int, residue: Ipv4)
    ensures var f := ForeignFrame();
      !exists k: nat :: Iterate(f, |f|, dev, 0, Start(residue, HeaderErrors(f)), k).Halt?
  {
    var f := ForeignFrame();
    var st := Start(residue, HeaderErrors(f));
    assert f[14] == 0xfe && f[15] == 0x04 && f[16] == 0x00;
    assert HeaderType(0xfe, 0x04) == ORG_SPECIFIC && HeaderLength(0xfe, 0x04) == 4;
    assert OnePass(f, |f|, dev, 0, st) == Again(0, st);
    LoopHaltsIff(f, |f|, dev, 0, st);
  }

  /** A frame whose first TLV is a port id makes the parser dereference NULL: there is no chassis id to join. */
  lemma PortIdFirstCrashes(f: seq<byte>, n: nat, dev: int, residue: Ipv4)
    requires |f| >= ETH_HEADER_SIZE + 2 && HeaderType(f[14], f[15]) == PORT_ID
    ensures Parse(f, n, dev, residue) == Crash
  {
    assert OnePass(f, n, dev, 0, Start(residue, HeaderErrors(f))) == Halt(Crash);
  }

  /** Such as a frame with a two-byte port id and the End TLV. */
  lemma NoChassisFrameCrashes(dev: int, residue: Ipv4)
    ensures var f := Zeros(12) + ETHERTYPE_LLDP + [0x04, 0x02, 0x05, 0x61, 0x00, 0x00];
      Parse(f, |f|, dev, residue) == Crash
  {
    var f := Zeros(12) + ETHERTYPE_LLDP + [0x04, 0x02, 0x05, 0x61, 0x00, 0x00];
    assert f[14] == 0x04 && f[15] == 0x02;
    PortIdFirstCrashes(f, |f|, dev, residue);
  }

  /** What a whole frame parses to, for every buffer: its decoded TLVs alone decide. */
  lemma ParseMeaning(f: seq<byte>, n: int, dev: int, residue: Ipv4)
    requires |f| >= ETH_HEADER_SIZE
    ensures var d := Decode(f, n, 0);
      if AllHarmless(d.tlvs) && d.ending != Overrun then
        Parse(f, n, dev, residue) ==
        Done(Meaning(dev, d.tlvs, residue, HeaderErrors(f) + if d.ending == Truncated then 1 else 0))
      else !Parse(f, n, dev, residue).Done?
  {
    ParseIsFold(f, n, dev, 0, Start(residue, HeaderErrors(f)));
    FoldMeaning(dev, Decode(f, n, 0).tlvs, residue, HeaderErrors(f));
  }

  /** The vendor branch of the loop: the switch over the subtype, then the neighbour flag. */
  method ScanOwn(value: seq<byte>, devRole: int, before: Scan) returns (v: Verdict)
    requires Oui(value) == Own
    ensures v == AbsorbOwn(devRole, before, value)
  {
    if |value| < 4 {
      return Crash;
    }
    var subtype, st := value[3], before;
    if |value| < NeededLength(subtype, |st.wifi|) {
      return Crash;
    }
    if subtype == SUBTYPE_IPADDR {
      st := st.(ip := value[4..8]);
    } else if subtype == SUBTYPE_SET_IP {
      st := st.(ip := value[4..8]);
      if devRole == ROLE_SLAVE {
        st := st.(configured := st.configured + [value[4..8]]);
      }
    } else if subtype == SUBTYPE_ROLE {
      st := st.(role := value[4]);
    } else if subtype == SUBTYPE_WIFI && |st.wifi| < WIFI_MODULES {
      st := st.(wifi := st.wifi + [WifiMod(value[4..10], value[10])]);
    }
    st := st.(haveDc := Opposite(devRole, st.role));
    return Done(st);
  }

  /** The branches of the loop over the TLV type. */
  method ScanTlv(typ: nat, value: seq<byte>, devRole: int, before: Scan) returns (v: Verdict)
    ensures v == Absorb(devRole, before, Tlv(typ, value))
  {
    var st := before;
    if typ == TIME_TO_LIVE {
      if |value| == 2 {
        st := st.(ttl := Some(U16(value[0], value[1])));
      }
    } else if typ == CHASSIS_ID {
      st := st.(chassis := Some(value));
    } else if typ == PORT_ID {
      if st.chassis.None? || |st.chassis.value| == 0 || |value| == 0 {
        return Crash;
      }
      st := st.(msap := Some(st.chassis.value[1..] + value[1..]), chassis := None);
    } else if typ == ORG_SPECIFIC {
      var oui := Oui(value);
      if oui == Overread {
        return Crash;
      }
      if oui == Foreign {
        return Spin;
      }
      v := ScanOwn(value, devRole, st);
      return;
    }
    return Done(st);
  }

  /** The body of the do-while loop, once. */
  method ScanPass(frame: array<byte>, recvsize: int, devRole: int, tlvOffset: nat, st: Scan) returns (p: Pass)
    ensures p == OnePass(frame[..], recvsize, devRole, tlvOffset, st)
  {
    if tlvOffset > recvsize {
      return Halt(Done(st.(bad := st.bad + 1)));
    }
    var at := ETH_HEADER_SIZE + tlvOffset;
    if frame.Length < at + 2 {
      return Halt(Crash);
    }
    ghost var f := frame[..];
    assert frame[at] == f[at] && frame[at + 1] == f[at + 1];
    var len := HeaderLength(frame[at], frame[at + 1]);
    var typ := HeaderType(frame[at], frame[at + 1]);
    if typ == END_OF_LLDPDU {
      return Halt(Done(st));
    }
    if frame.Length < at + 2 + len {
      return Halt(Crash);
    }
    var value := frame[at + 2..at + 2 + len];
    assert value == f[at + 2..at + 2 + len];
    var v := ScanTlv(typ, value, devRole, st);
    p := if v.Done? then Again(tlvOffset + 2 + len, v.scan) else if v.Spin? then Again(tlvOffset, st) else Halt(Crash);
  }

  /** The receive loop over the port's frame buffer. The 16-bit offset cannot wrap: it stays inside the buffer.
      The one departure from the source is that a pass which would repeat forever is reported as `Spin`. */
  method ScanFrame(frame: array<byte>, recvsize: int, devRole: int, residue: Ipv4) returns (v: Verdict)
    requires frame.Length < 0x1_0000
    ensures v == Parse(frame[..], recvsize, devRole, residue)
  {
    if frame.Length < ETH_HEADER_SIZE {
      return Crash;
    }
    ghost var f := frame[..];
    var bad := 0;
    if frame[12] != ETHERTYPE_LLDP[0] || frame[13] != ETHERTYPE_LLDP[1] {
      bad := 1;
    }
    assert f[12..14] == [f[12], f[13]];
    var tlvOffset, st := 0, Start(residue, bad);
    while true
      invariant 0 <= tlvOffset < 0x1_0000
      invariant ParseFrom(f, recvsize, devRole, tlvOffset, st) == Parse(f, recvsize, devRole, residue)
      decreases frame.Length - tlvOffset
    {
      PassAdvances(f, recvsize, devRole, tlvOffset, st);
      var p := ScanPass(frame, recvsize, devRole, tlvOffset, st);
      if p.Halt? {
        return p.v;
      }
      if p.off == tlvOffset {
        return Spin;
      }
      tlvOffset, st := p.off, p.st;
    }
  }
}
