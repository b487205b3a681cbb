/** Frames built by the transmit side, read back by the receive side. */
module RoundTrip {
  import opened Bytes
  import opened TlvFormat
  import opened Parser

  function Modules(ws: seq<WifiPort>): (ms: seq<WifiMod>)
    ensures |ms| == |ws|
  {
    seq(|ws|, i requires 0 <= i < |ws| => WifiMod(ws[i].mac, ws[i].mode % 256))
  }

  /** The MSAP id a port announces: its MAC followed by its interface name. */
  function MsapOf(p: PortIdentity): seq<byte> {
    p.mac + p.ifName
  }

  // -------- decoding undoes flattening --------

  ghost predicate NoEnd(ts: seq<Tlv>) {
    forall i :: 0 <= i < |ts| ==> ts[i].typ != END_OF_LLDPDU
  }

  lemma SliceAt(f: seq<byte>, at: nat, h: seq<byte>, value: seq<byte>, more: seq<byte>)
    requires at <= |f| && |h| == 2 && f[at..] == h + value + more
    ensures at + 2 + |value| <= |f|
    ensures f[at] == h[0] && f[at + 1] == h[1]
    ensures f[at + 2..at + 2 + |value|] == value
    ensures f[at + 2 + |value|..] == more
  {
    var rest := f[at..];
    assert f[at] == rest[0] && f[at + 1] == rest[1];
    assert f[at + 2..at + 2 + |value|] == rest[2..2 + |value|];
    assert f[at + 2 + |value|..] == rest[2 + |value|..];
  }

  lemma DecodeStep(f: seq<byte>, n: int, off: nat, t: Tlv, more: seq<byte>)
    requires Fits(t) && t.typ != END_OF_LLDPDU && off <= n
    requires ETH_HEADER_SIZE + off <= |f| && f[ETH_HEADER_SIZE + off..] == Header(t) + t.value + more
    ensures ETH_HEADER_SIZE + off + 2 + |t.value| <= |f|
    ensures f[ETH_HEADER_SIZE + off + 2 + |t.value|..] == more
    ensures var rest := Decode(f, n, off + 2 + |t.value|);
      Decode(f, n, off) == Decoded([t] + rest.tlvs, rest.ending)
  {
    SliceAt(f, ETH_HEADER_SIZE + off, Header(t), t.value, more);
    HeaderRoundTripIff(t);
  }

  lemma TailFits(ts: seq<Tlv>)
    requires AllFit(ts) && NoEnd(ts) && ts != []
    ensures AllFit(ts[1..]) && NoEnd(ts[1..])
    ensures FlattenAll(ts) == Header(ts[0]) + ts[0].value + FlattenAll(ts[1..])
  {
  }

  lemma PeelOne(f: seq<byte>, at: nat, ts: seq<Tlv>, rest: seq<byte>) returns (more: seq<byte>)
    requires AllFit(ts) && NoEnd(ts) && ts != []
    requires at <= |f| && f[at..] == FlattenAll(ts) + rest
    ensures AllFit(ts[1..]) && NoEnd(ts[1..])
    ensures f[at..] == Header(ts[0]) + ts[0].value + more
    ensures |FlattenAll(ts)| == 2 + |ts[0].value| + |FlattenAll(ts[1..])|
    ensures at + 2 + |ts[0].value| <= |f|
    ensures more == f[at + 2 + |ts[0].value|..] == FlattenAll(ts[1..]) + rest
  {
    TailFits(ts);
    var h, v, flat := Header(ts[0]), ts[0].value, FlattenAll(ts[1..]);
    more := flat + rest;
    assert h + v + flat + rest == h + v + more;
    SliceAt(f, at, h, v, more);
  }

  /** Cutting a flattened TLV list gives the list back, whatever follows the End TLV's two zero bytes. */
  lemma {:induction false} DecodeFlattened(f: seq<byte>, n: int, off: nat, ts: seq<Tlv>, rest: seq<byte>)
    requires AllFit(ts) && NoEnd(ts)
    requires |rest| >= 2 && rest[0] == rest[1] == 0
    requires ETH_HEADER_SIZE + off <= |f| && f[ETH_HEADER_SIZE + off..] == FlattenAll(ts) + rest
    requires off + |FlattenAll(ts)| <= n
    ensures Decode(f, n, off) == Decoded(ts, Ended)
    decreases |ts|
  {
    var at := ETH_HEADER_SIZE + off;
    if ts == [] {
      assert f[at] == f[at..][0] && f[at + 1] == f[at..][1];
    } else {
      var more := PeelOne(f, at, ts, rest);
      var next := off + 2 + |ts[0].value|;
      DecodeFlattened(f, n, next, ts[1..], rest);
      DecodeStep(f, n, off, ts[0], more);
    }
  }

  lemma DecodeFrame(dst: Mac, src: Mac, ts: seq<Tlv>, tail: seq<byte>)
    requires AllFit(ts) && NoEnd(ts)
    ensures var f := Padded(FrameBody(dst, src, ts));
      Decode(f + tail, |f|, 0) == Decoded(ts, Ended) && HeaderErrors(f + tail) == 0
  {
    var body := FrameBody(dst, src, ts);
    var f := Padded(body);
    var more := [0, 0] + Zeros(Max(0, MIN_FRAME_SIZE - |body|)) + tail;
    FlattenAllAppend(ts, [END_TLV]);
    assert FlattenAll([END_TLV]) == [0, 0];
    assert f + tail == EthHeader(dst, src) + (FlattenAll(ts) + more);
    assert (f + tail)[ETH_HEADER_SIZE..] == FlattenAll(ts) + more;
    assert (f + tail)[12..14] == ETHERTYPE_LLDP;
    DecodeFlattened(f + tail, |f|, 0, ts, more);
  }

  // -------- folding the builders' lists --------

  lemma Fold3(dev: int, v: Verdict, a: Tlv, b: Tlv, c: Tlv)
    ensures Fold(dev, v, [a, b, c]) == Bind(dev, Bind(dev, Bind(dev, v, a), b), c)
  {
    FoldFront(dev, v, [a, b, c]);
    FoldFront(dev, v, [a, b]);
    FoldFront(dev, v, [a]);
    assert Front([a, b, c]) == [a, b] && Front([a, b]) == [a] && Front([a]) == [];
  }

  lemma FoldMandatory(dev: int, st: Scan, p: PortIdentity, ttl: u16)
    ensures Fold(dev, Done(st), MandatoryTlvs(p, ttl))
         == Done(st.(chassis := None, msap := Some(MsapOf(p)), ttl := Some(ttl)))
  {
    var ts := MandatoryTlvs(p, ttl);
    Fold3(dev, Done(st), ts[0], ts[1], ts[2]);
    assert ts[0].value[1..] == p.mac && ts[1].value[1..] == p.ifName;
    assert ttl == (ttl / 256) * 256 + ttl % 256;
  }

  lemma {:induction false} FoldIgnored(dev: int, st: Scan, ts: seq<Tlv>)
    requires forall i :: 0 <= i < |ts| ==> TIME_TO_LIVE < ts[i].typ < ORG_SPECIFIC
    ensures Fold(dev, Done(st), ts) == Done(st)
  {
    if ts == [] {
    } else {
      FoldIgnored(dev, st, ts[1..]);
    }
  }

  lemma FoldVendor(dev: int, st: Scan, p: PortIdentity)
    ensures Fold(dev, Done(st), VendorTlvs(p))
         == Done(st.(ip := p.ip, role := p.role % 256, haveDc := Opposite(dev, p.role % 256)))
  {
    var ts := VendorTlvs(p);
    Fold3(dev, Done(st), ts[0], ts[1], ts[2]);
    assert ts[1].value[4..8] == p.ip;
  }

  lemma {:induction false} FoldWifi(dev: int, st: Scan, ws: seq<WifiPort>)
    requires |st.wifi| <= WIFI_MODULES
    ensures Fold(dev, Done(st), WifiTlvs(ws))
         == Done(st.(wifi := FirstTwo(st.wifi + Modules(ws)),
                     haveDc := if ws == [] then st.haveDc else Opposite(dev, st.role)))
    decreases ws
  {
    if ws == [] {
      assert st.wifi + Modules(ws) == st.wifi;
    } else {
      var t := WifiTlv(ws[0]);
      assert t.value[4..10] == ws[0].mac;
      assert WifiTlvs(ws)[1..] == WifiTlvs(ws[1..]);
      var v := Absorb(dev, st, t);
      assert st.wifi + Modules(ws) == (st.wifi + [Modules(ws)[0]]) + Modules(ws[1..]);
      FoldWifi(dev, v.scan, ws[1..]);
    }
  }

  // -------- round trips --------

  lemma FoldInfo(dev: int, p: PortIdentity, ttl: u16, ws: seq<WifiPort>, residue: Ipv4)
    ensures Fold(dev, Done(Start(residue, 0)), InfoTlvs(p, ttl, ws))
         == Done(Scan(None, Some(MsapOf(p)), Some(ttl), p.role % 256, p.ip, FirstTwo(Modules(ws)), [],
                      Opposite(dev, p.role % 256), 0))
  {
    var m, s, v, w := MandatoryTlvs(p, ttl), SystemTlvs(p), VendorTlvs(p), WifiTlvs(ws);
    var st0 := Start(residue, 0);
    FoldAppend(dev, Done(st0), m + s + v, w);
    FoldAppend(dev, Done(st0), m + s, v);
    FoldAppend(dev, Done(st0), m, s);
    FoldMandatory(dev, st0, p, ttl);
    var st1 := st0.(msap := Some(MsapOf(p)), ttl := Some(ttl));
    FoldIgnored(dev, st1, s);
    FoldVendor(dev, st1, p);
    var st2 := st1.(ip := p.ip, role := p.role % 256, haveDc := Opposite(dev, p.role % 256));
    FoldWifi(dev, st2, ws);
    assert st2.wifi + Modules(ws) == Modules(ws);
  }

  /** Parsing an information frame, in a receive buffer with anything after it, recovers what the sender put
      in: MSAP id, TTL, role, address and the first two wifi modules in order. */
  lemma InfoRoundTrip(p: PortIdentity, ttl: u16, ws: seq<WifiPort>, dev: int, residue: Ipv4, tail: seq<byte>)
    requires p.Encodable()
    ensures var f := InfoFrame(p, ttl, ws);
      Parse(f + tail, |f|, dev, residue)
      == Done(Scan(None, Some(MsapOf(p)), Some(ttl), p.role % 256, p.ip, FirstTwo(Modules(ws)), [],
                   Opposite(dev, p.role % 256), 0))
  {
    BuiltTlvsFit(p, ttl, ws, residue);
    var f := InfoFrame(p, ttl, ws);
    DecodeFrame(BROADCAST, p.mac, InfoTlvs(p, ttl, ws), tail);
    ParseIsFold(f + tail, |f|, dev, 0, Start(residue, 0));
    FoldInfo(dev, p, ttl, ws, residue);
  }

  lemma FoldSetIp(dev: int, p: PortIdentity, ttl: u16, ws: seq<WifiPort>, slaveip: Ipv4, residue: Ipv4)
    ensures Fold(dev, Done(Start(residue, 0)), SetIpTlvs(p, ttl, ws, slaveip))
         == Done(Scan(None, Some(MsapOf(p)), Some(ttl), ROLE_MASTER, slaveip, FirstTwo(Modules(ws)),
                      if dev == ROLE_SLAVE then [slaveip] else [], Opposite(dev, ROLE_MASTER), 0))
  {
    var m, w, last := MandatoryTlvs(p, ttl), WifiTlvs(ws), SlaveIpaddrTlv(slaveip);
    var st0 := Start(residue, 0);
    FoldAppend(dev, Done(st0), m + w, [last]);
    FoldAppend(dev, Done(st0), m, w);
    FoldMandatory(dev, st0, p, ttl);
    var st1 := st0.(msap := Some(MsapOf(p)), ttl := Some(ttl));
    FoldWifi(dev, st1, ws);
    assert st1.wifi + Modules(ws) == Modules(ws);
    var st2 := Fold(dev, Done(st1), w).scan;
    assert last.value[4..8] == slaveip;
    assert st2.configured == [];
    assert [last][1..] == [] && [] + [slaveip] == [slaveip];
  }

  /** Parsing a set-IP frame: no role TLV, so it speaks for a master; a slave configures exactly the address
      it carries. */
  lemma SetIpRoundTrip(p: PortIdentity, ttl: u16, ws: seq<WifiPort>, slavemac: Mac, slaveip: Ipv4, dev: int,
                       residue: Ipv4, tail: seq<byte>)
    requires p.Encodable()
    ensures var f := SetIpFrame(p, ttl, ws, slavemac, slaveip);
      Parse(f + tail, |f|, dev, residue)
      == Done(Scan(None, Some(MsapOf(p)), Some(ttl), ROLE_MASTER, slaveip, FirstTwo(Modules(ws)),
                   if dev == ROLE_SLAVE then [slaveip] else [], Opposite(dev, ROLE_MASTER), 0))
  {
    BuiltTlvsFit(p, ttl, ws, slaveip);
    var f := SetIpFrame(p, ttl, ws, slavemac, slaveip);
    DecodeFrame(slavemac, p.mac, SetIpTlvs(p, ttl, ws, slaveip), tail);
    ParseIsFold(f + tail, |f|, dev, 0, Start(residue, 0));
    FoldSetIp(dev, p, ttl, ws, slaveip, residue);
  }
}
