/** The two frames byte for byte, written out independently of the TLV constructors and of their constants. */
module Layout {
  import opened Bytes
  import opened TlvFormat

  /** The two header bytes of a TLV, for a type below 128 and a length below 512. */
  function Head(typ: nat, length: nat): (h: seq<byte>)
    requires typ < 128 && length < 512
  {
    [typ * 2 + length / 256, length % 256]
  }

  function MandatoryBytes(p: PortIdentity, ttl: u16): seq<byte>
    requires p.Encodable()
  {
    ([2, 7, 4] + p.mac) + (Head(2, 1 + |p.ifName|) + [5] + p.ifName) + [6, 2, ttl / 256, ttl % 256]
  }

  function SystemBytes(p: PortIdentity): seq<byte>
    requires p.Encodable()
  {
    (Head(4, |p.ifName|) + p.ifName) + (Head(5, |p.sysName|) + p.sysName) + (Head(6, |p.sysDesc|) + p.sysDesc) +
    ([14, 4] + [0x00, 0x1c, 0x00, 0x08] + ([16, 12] + ([5, 1] + p.ip + [3] + p.ifIndex + [0])))
  }

  /** The vendor's name is "dunchong" in ASCII. */
  function VendorBytes(p: PortIdentity): seq<byte> {
    [254, 12, 0xa4, 0xfb, 0x8d, 0] + [100, 117, 110, 99, 104, 111, 110, 103] +
    [254, 8, 0xa4, 0xfb, 0x8d, 3] + p.ip + [254, 5, 0xa4, 0xfb, 0x8d, 5] + [p.role % 256]
  }

  function WifiBytes(ws: seq<WifiPort>): seq<byte> {
    if ws == [] then []
    else [254, 11, 0xa4, 0xfb, 0x8d, 7] + (ws[0].mac + [ws[0].mode % 256]) + WifiBytes(ws[1..])
  }

  lemma FlattenIs(t: Tlv)
    requires Fits(t)
    ensures Flatten(t) == Head(t.typ, |t.value|) + t.value
  {
    var h := t.typ * 512 + |t.value|;
    assert h / 256 == t.typ * 2 + |t.value| / 256 && h % 256 == |t.value| % 256;
  }

  lemma FlattenAs(t: Tlv, head: seq<byte>)
    requires Fits(t) && |head| == 2
    requires head[0] == t.typ * 2 + |t.value| / 256 && head[1] == |t.value| % 256
    ensures Flatten(t) == head + t.value
  {
    FlattenIs(t);
    assert Head(t.typ, |t.value|) == head;
  }

  lemma Regroup2(a: seq<byte>, b: seq<byte>, c: seq<byte>)
    ensures a + (b + c) == (a + b) + c
  {
  }

  lemma OwnIs(subtype: byte, payload: seq<byte>)
    requires |payload| < 252
    ensures Flatten(OwnTlv(subtype, payload)) == [254, 4 + |payload|, 0xa4, 0xfb, 0x8d, subtype] + payload
  {
    var head, own := [254, 4 + |payload|], [0xa4, 0xfb, 0x8d, subtype];
    assert DC_OUI + [subtype] == own;
    FlattenAs(OwnTlv(subtype, payload), head);
    Regroup2(head, own, payload);
    assert head + own == [254, 4 + |payload|, 0xa4, 0xfb, 0x8d, subtype];
  }

  lemma FlattenPair(a: Tlv, b: Tlv)
    requires Fits(a) && Fits(b)
    ensures FlattenAll([a, b]) == Flatten(a) + Flatten(b)
  {
    assert [a, b][1..] == [b] && [b][1..] == [];
    assert FlattenAll([b]) == Flatten(b) + [];
  }

  lemma FlattenTriple(a: Tlv, b: Tlv, c: Tlv)
    requires Fits(a) && Fits(b) && Fits(c)
    ensures FlattenAll([a, b, c]) == Flatten(a) + Flatten(b) + Flatten(c)
  {
    assert [a, b, c][1..] == [b, c];
    FlattenPair(b, c);
    assert Flatten(a) + (Flatten(b) + Flatten(c)) == Flatten(a) + Flatten(b) + Flatten(c);
  }

  lemma ChassisIs(p: PortIdentity)
    ensures Flatten(ChassisIdTlv(p)) == [2, 7, 4] + p.mac
  {
    FlattenAs(ChassisIdTlv(p), [2, 7]);
    Regroup2([2, 7], [4], p.mac);
    assert [2, 7] + [4] == [2, 7, 4];
  }

  lemma PortIdIs(p: PortIdentity)
    requires p.Encodable()
    ensures Flatten(PortIdTlv(p)) == Head(2, 1 + |p.ifName|) + [5] + p.ifName
  {
    FlattenIs(PortIdTlv(p));
    Regroup2(Head(2, 1 + |p.ifName|), [5], p.ifName);
  }

  lemma TtlIs(ttl: u16)
    ensures Flatten(TtlTlv(ttl)) == [6, 2, ttl / 256, ttl % 256]
  {
    FlattenAs(TtlTlv(ttl), [6, 2]);
    assert [6, 2] + [ttl / 256, ttl % 256] == [6, 2, ttl / 256, ttl % 256];
  }

  lemma MandatoryIs(p: PortIdentity, ttl: u16)
    requires p.Encodable()
    ensures AllFit(MandatoryTlvs(p, ttl)) && FlattenAll(MandatoryTlvs(p, ttl)) == MandatoryBytes(p, ttl)
  {
    ChassisIs(p);
    PortIdIs(p);
    TtlIs(ttl);
    FlattenTriple(ChassisIdTlv(p), PortIdTlv(p), TtlTlv(ttl));
  }

  lemma NamesAre(p: PortIdentity)
    requires p.Encodable()
    ensures var ts := [PortDescriptionTlv(p), SystemNameTlv(p), SystemDescriptionTlv(p)];
      && AllFit(ts)
      && FlattenAll(ts) == (Head(4, |p.ifName|) + p.ifName) + (Head(5, |p.sysName|) + p.sysName) +
                           (Head(6, |p.sysDesc|) + p.sysDesc)
  {
    var a, b, c := PortDescriptionTlv(p), SystemNameTlv(p), SystemDescriptionTlv(p);
    FlattenTriple(a, b, c);
    FlattenIs(a);
    FlattenIs(b);
    FlattenIs(c);
  }

  lemma CapabilitiesIs(t: Tlv)
    requires t == SystemCapabilitiesTlv()
    ensures Fits(t) && Flatten(t) == [14, 4] + [0x00, 0x1c, 0x00, 0x08]
  {
    FlattenAs(t, [14, 4]);
  }

  lemma ManagementIs(p: PortIdentity, t: Tlv)
    requires t == ManagementAddressTlv(p)
    ensures Fits(t) && Flatten(t) == [16, 12] + ([5, 1] + p.ip + [3] + p.ifIndex + [0])
  {
    FlattenAs(t, [16, 12]);
  }

  lemma CapabilitiesAre(p: PortIdentity, a: Tlv, b: Tlv)
    requires a == SystemCapabilitiesTlv() && b == ManagementAddressTlv(p)
    ensures Fits(a) && Fits(b)
    ensures FlattenAll([a, b])
         == [14, 4] + [0x00, 0x1c, 0x00, 0x08] + ([16, 12] + ([5, 1] + p.ip + [3] + p.ifIndex + [0]))
  {
    CapabilitiesIs(a);
    ManagementIs(p, b);
    FlattenPair(a, b);
  }

  lemma SystemIs(p: PortIdentity)
    requires p.Encodable()
    ensures AllFit(SystemTlvs(p)) && FlattenAll(SystemTlvs(p)) == SystemBytes(p)
  {
    var a := [PortDescriptionTlv(p), SystemNameTlv(p), SystemDescriptionTlv(p)];
    var b := [SystemCapabilitiesTlv(), ManagementAddressTlv(p)];
    NamesAre(p);
    CapabilitiesAre(p, b[0], b[1]);
    FlattenAllAppend(a, b);
    assert SystemTlvs(p) == a + b;
    assert FlattenAll(a) + FlattenAll(b) == SystemBytes(p);
  }

  lemma VendorIs(p: PortIdentity)
    ensures AllFit(VendorTlvs(p)) && FlattenAll(VendorTlvs(p)) == VendorBytes(p)
  {
    var a, b, c := VendorTlv(), IpaddrTlv(p), RoleTlv(p);
    FlattenTriple(a, b, c);
    OwnIs(SUBTYPE_VENDOR, VENDOR_NAME);
    OwnIs(SUBTYPE_IPADDR, p.ip);
    OwnIs(SUBTYPE_ROLE, [p.role % 256]);
  }

  lemma {:induction false} WifiIs(ws: seq<WifiPort>)
    ensures AllFit(WifiTlvs(ws)) && FlattenAll(WifiTlvs(ws)) == WifiBytes(ws)
  {
    if ws == [] {
    } else {
      assert WifiTlvs(ws)[1..] == WifiTlvs(ws[1..]);
      WifiIs(ws[1..]);
      OwnIs(SUBTYPE_WIFI, ws[0].mac + [ws[0].mode % 256]);
    }
  }

  lemma EndIs()
    ensures FlattenAll([END_TLV]) == [0, 0]
  {
  }

  lemma HeaderIs(dst: Mac, src: Mac)
    ensures EthHeader(dst, src) == dst + src + [0x88, 0xcc]
  {
  }

  lemma Regroup(h: seq<byte>, a: seq<byte>, b: seq<byte>, c: seq<byte>, d: seq<byte>, e: seq<byte>)
    ensures h + (a + b + c + d + e) == h + a + b + c + d + e
  {
  }

  lemma InfoTlvsAre(p: PortIdentity, ttl: u16, ws: seq<WifiPort>)
    requires p.Encodable()
    ensures AllFit(InfoTlvs(p, ttl, ws))
    ensures FlattenAll(InfoTlvs(p, ttl, ws) + [END_TLV])
         == MandatoryBytes(p, ttl) + SystemBytes(p) + VendorBytes(p) + WifiBytes(ws) + [0, 0]
  {
    var m, s, v, w := MandatoryTlvs(p, ttl), SystemTlvs(p), VendorTlvs(p), WifiTlvs(ws);
    MandatoryIs(p, ttl);
    SystemIs(p);
    VendorIs(p);
    WifiIs(ws);
    EndIs();
    FlattenAllAppend(m, s);
    FlattenAllAppend(m + s, v);
    FlattenAllAppend(m + s + v, w);
    FlattenAllAppend(m + s + v + w, [END_TLV]);
  }

  lemma PaddedIs(body: seq<byte>)
    ensures Padded(body) == body + Zeros(Max(0, 64 - |body|))
    ensures |body| >= 64 ==> Padded(body) == body
  {
  }

  /** An information frame, byte for byte: broadcast, with the sender's MAC, and its TLVs in order. */
  lemma InfoLayout(p: PortIdentity, ttl: u16, ws: seq<WifiPort>)
    requires p.Encodable()
    ensures InfoFrame(p, ttl, ws) ==
      ([0xff, 0xff, 0xff, 0xff, 0xff, 0xff] + p.mac + [0x88, 0xcc]) +
      MandatoryBytes(p, ttl) + SystemBytes(p) + VendorBytes(p) + WifiBytes(ws) + [0, 0]
  {
    InfoTlvsAre(p, ttl, ws);
    HeaderIs(BROADCAST, p.mac);
    Regroup(EthHeader(BROADCAST, p.mac), MandatoryBytes(p, ttl), SystemBytes(p), VendorBytes(p), WifiBytes(ws), [0, 0]);
    InfoFrameSize(p, ttl, ws);
    PaddedIs(FrameBody(BROADCAST, p.mac, InfoTlvs(p, ttl, ws)));
  }

  lemma FlattenOne(t: Tlv)
    requires Fits(t)
    ensures FlattenAll([t]) == Flatten(t)
  {
    assert [t][1..] == [];
    assert FlattenAll([t]) == Flatten(t) + [];
  }

  lemma SetIpTlvsAre(p: PortIdentity, ttl: u16, ws: seq<WifiPort>, slaveip: Ipv4)
    requires p.Encodable()
    ensures AllFit(SetIpTlvs(p, ttl, ws, slaveip))
    ensures FlattenAll(SetIpTlvs(p, ttl, ws, slaveip) + [END_TLV])
         == MandatoryBytes(p, ttl) + WifiBytes(ws) + ([254, 8, 0xa4, 0xfb, 0x8d, 6] + slaveip) + [0, 0]
  {
    var m, w, last := MandatoryTlvs(p, ttl), WifiTlvs(ws), SlaveIpaddrTlv(slaveip);
    MandatoryIs(p, ttl);
    WifiIs(ws);
    EndIs();
    OwnIs(SUBTYPE_SET_IP, slaveip);
    FlattenOne(last);
    FlattenAllAppend(m, w);
    FlattenAllAppend(m + w, [last]);
    FlattenAllAppend(m + w + [last], [END_TLV]);
  }

  /** A set-IP frame, byte for byte: to the slave's MAC, and filled up with zeros to 64 bytes. */
  lemma SetIpLayout(p: PortIdentity, ttl: u16, ws: seq<WifiPort>, slavemac: Mac, slaveip: Ipv4)
    requires p.Encodable()
    ensures var body := (slavemac + p.mac + [0x88, 0xcc]) +
        (MandatoryBytes(p, ttl) + WifiBytes(ws) + ([254, 8, 0xa4, 0xfb, 0x8d, 6] + slaveip) + [0, 0]);
      SetIpFrame(p, ttl, ws, slavemac, slaveip) == body + Zeros(Max(0, 64 - |body|))
  {
    SetIpTlvsAre(p, ttl, ws, slaveip);
    HeaderIs(slavemac, p.mac);
    PaddedIs(FrameBody(slavemac, p.mac, SetIpTlvs(p, ttl, ws, slaveip)));
  }
}
