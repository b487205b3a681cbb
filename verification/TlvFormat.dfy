/** TLVs of section 9.4.1 of IEEE 802.1AB: their wire form, and the values the agent puts in them. */
module TlvFormat {
  import opened Bytes

  const END_OF_LLDPDU := 0
  const CHASSIS_ID := 1
  const PORT_ID := 2
  const TIME_TO_LIVE := 3
  const PORT_DESCRIPTION := 4
  const SYSTEM_NAME := 5
  const SYSTEM_DESCRIPTION := 6
  const SYSTEM_CAPABILITIES := 7
  const MANAGEMENT_ADDRESS := 8
  const ORG_SPECIFIC := 127

  const CHASSIS_ID_MAC_ADDRESS: byte := 4
  const PORT_ID_INTERFACE_NAME: byte := 5

  const SUBTYPE_VENDOR: byte := 0
  const SUBTYPE_IPADDR: byte := 3
  const SUBTYPE_ROLE: byte := 5
  const SUBTYPE_SET_IP: byte := 6
  const SUBTYPE_WIFI: byte := 7

  const ROLE_MASTER := 0
  const ROLE_SLAVE := 1

  const DC_OUI: seq<byte> := [0xA4, 0xFB, 0x8D]
  /** The ASCII codes of "dunchong". */
  const VENDOR_NAME: seq<byte> := [100, 117, 110, 99, 104, 111, 110, 103]

  const ETH_HEADER_SIZE := 14
  const MIN_FRAME_SIZE := 64
  const BROADCAST: Mac := [0xff, 0xff, 0xff, 0xff, 0xff, 0xff]
  const ETHERTYPE_LLDP: seq<byte> := [0x88, 0xcc]

  datatype Tlv = Tlv(typ: nat, value: seq<byte>)

  const END_TLV := Tlv(END_OF_LLDPDU, [])

  /** The 7-bit type and 9-bit length that the header has room for. */
  predicate Fits(t: Tlv) {
    t.typ < 128 && |t.value| < 512
  }

  ghost predicate AllFit(ts: seq<Tlv>) {
    forall i :: 0 <= i < |ts| ==> Fits(ts[i])
  }

  // -------- wire form --------

  function Pow2(bits: nat): (p: nat)
    ensures p > 0
  {
    if bits == 0 then 1 else 2 * Pow2(bits - 1)
  }

  /** Bitwise or of two numbers of `bits` bits. */
  function Or(a: nat, b: nat, bits: nat): (r: nat)
    requires a < Pow2(bits) && b < Pow2(bits)
    ensures r < Pow2(bits)
    ensures b == 0 ==> r == a
  {
    if bits == 0 then 0 else 2 * Or(a / 2, b / 2, bits - 1) + if a % 2 == 1 || b % 2 == 1 then 1 else 0
  }

  /** What the 8-bit type and the 16-bit length and size of the C structs can hold. */
  predicate Storable(t: Tlv) {
    t.typ < 0x100 && |t.value| + 2 < 0x1_0000
  }

  /** The 16-bit header word: the type shifted to the upper 7 bits, or-ed with the whole length. */
  function HeaderWord(t: Tlv): (h: nat)
    requires Storable(t)
    ensures h < 0x1_0000
    ensures Fits(t) ==> h == t.typ * 512 + |t.value|
  {
    assert Pow2(7) == 128;
    Or(t.typ % 128, |t.value| / 512, 7) * 512 + |t.value| % 512
  }

  function Header(t: Tlv): (h: seq<byte>)
    requires Storable(t)
    ensures |h| == 2
  {
    [HeaderWord(t) / 256, HeaderWord(t) % 256]
  }

  function Flatten(t: Tlv): seq<byte>
    requires Storable(t)
  {
    Header(t) + t.value
  }

  function FlattenAll(ts: seq<Tlv>): seq<byte>
    requires AllFit(ts)
  {
    if ts == [] then [] else Flatten(ts[0]) + FlattenAll(ts[1..])
  }

  /** The decoding of the receive loop: the upper 7 bits of the big-endian header word. */
  function HeaderType(hi: byte, lo: byte): nat {
    (hi * 256 + lo) / 512
  }

  /** The lower 9 bits of the header word. */
  function HeaderLength(hi: byte, lo: byte): nat {
    (hi * 256 + lo) % 512
  }

  function U16(hi: byte, lo: byte): nat {
    hi * 256 + lo
  }

  /** The receive loop's decoding recovers type and length exactly when both fit; beyond that the length runs
      into the type bits, or the type loses its top bit. */
  lemma HeaderRoundTripIff(t: Tlv)
    requires Storable(t)
    ensures var h := Header(t);
      HeaderType(h[0], h[1]) == t.typ && HeaderLength(h[0], h[1]) == |t.value| <==> Fits(t)
  {
    var h := HeaderWord(t);
    assert h == (h / 256) * 256 + h % 256;
    assert Pow2(7) == 128;
    assert h % 512 == |t.value| % 512 && h / 512 == Or(t.typ % 128, |t.value| / 512, 7);
  }

  lemma {:induction false} FlattenAllAppend(a: seq<Tlv>, b: seq<Tlv>)
    requires AllFit(a) && AllFit(b)
    ensures AllFit(a + b)
    ensures FlattenAll(a + b) == FlattenAll(a) + FlattenAll(b)
  {
    if a == [] {
      assert a + b == b;
    } else {
      FlattenAllAppend(a[1..], b);
      assert (a + b)[1..] == a[1..] + b && (a + b)[0] == a[0];
      var h, x, y := Flatten(a[0]), FlattenAll(a[1..]), FlattenAll(b);
      assert h + (x + y) == h + x + y;
    }
  }

  // -------- constructors --------

  /** What a port knows about itself; `ifIndex` is the index in host byte order. */
  datatype PortIdentity = PortIdentity(
    mac: Mac, ip: Ipv4, ifName: seq<byte>, ifIndex: Word32, role: int, sysName: seq<byte>, sysDesc: seq<byte>)
  {
    /** Field lengths that the 9-bit TLV length can carry (the port id adds a subtype byte). */
    predicate Encodable() {
      |ifName| < 511 && |sysName| < 512 && |sysDesc| < 512
    }
  }

  /** A local wifi interface: its MAC and its 32-bit working mode. */
  datatype WifiPort = WifiPort(mac: Mac, mode: int)

  /** The low eight bits, as C stores an `int` in a byte. */
  function ToByte(x: int): (b: byte)
    ensures (x - b) % 256 == 0
    ensures 0 <= x < 256 ==> b == x
  {
    x % 256
  }

  function ChassisIdTlv(p: PortIdentity): Tlv {
    Tlv(CHASSIS_ID, [CHASSIS_ID_MAC_ADDRESS] + p.mac)
  }

  function PortIdTlv(p: PortIdentity): Tlv {
    Tlv(PORT_ID, [PORT_ID_INTERFACE_NAME] + p.ifName)
  }

  function TtlTlv(ttl: u16): Tlv
  {
    Tlv(TIME_TO_LIVE, [ttl / 256, ttl % 256])
  }

  function PortDescriptionTlv(p: PortIdentity): Tlv {
    Tlv(PORT_DESCRIPTION, p.ifName)
  }

  function SystemNameTlv(p: PortIdentity): Tlv {
    Tlv(SYSTEM_NAME, p.sysName)
  }

  function SystemDescriptionTlv(p: PortIdentity): Tlv {
    Tlv(SYSTEM_DESCRIPTION, p.sysDesc)
  }

  function SystemCapabilitiesTlv(): Tlv {
    Tlv(SYSTEM_CAPABILITIES, [0x00, 0x1c, 0x00, 0x08])
  }

  function ManagementAddressTlv(p: PortIdentity): Tlv {
    Tlv(MANAGEMENT_ADDRESS, [5, 1] + p.ip + [3] + p.ifIndex + [0])
  }

  /** A vendor TLV: the vendor's OUI, a subtype, and a payload. */
  function OwnTlv(subtype: byte, payload: seq<byte>): Tlv {
    Tlv(ORG_SPECIFIC, DC_OUI + [subtype] + payload)
  }

  function VendorTlv(): Tlv {
    OwnTlv(SUBTYPE_VENDOR, VENDOR_NAME)
  }

  function IpaddrTlv(p: PortIdentity): Tlv {
    OwnTlv(SUBTYPE_IPADDR, p.ip)
  }

  function RoleTlv(p: PortIdentity): Tlv {
    OwnTlv(SUBTYPE_ROLE, [ToByte(p.role)])
  }

  function WifiTlv(w: WifiPort): Tlv {
    OwnTlv(SUBTYPE_WIFI, w.mac + [ToByte(w.mode)])
  }

  function SlaveIpaddrTlv(slaveip: Ipv4): Tlv {
    OwnTlv(SUBTYPE_SET_IP, slaveip)
  }

  function WifiTlvs(ws: seq<WifiPort>): (ts: seq<Tlv>)
    ensures |ts| == |ws|
  {
    seq(|ws|, i requires 0 <= i < |ws| => WifiTlv(ws[i]))
  }

  // -------- the two frames --------

  function MandatoryTlvs(p: PortIdentity, ttl: u16): seq<Tlv>
  {
    [ChassisIdTlv(p), PortIdTlv(p), TtlTlv(ttl)]
  }

  function SystemTlvs(p: PortIdentity): seq<Tlv> {
    [PortDescriptionTlv(p), SystemNameTlv(p), SystemDescriptionTlv(p), SystemCapabilitiesTlv(), ManagementAddressTlv(p)]
  }

  function VendorTlvs(p: PortIdentity): seq<Tlv> {
    [VendorTlv(), IpaddrTlv(p), RoleTlv(p)]
  }

  /** The TLVs of an information frame, without the final End TLV. */
  function InfoTlvs(p: PortIdentity, ttl: u16, ws: seq<WifiPort>): seq<Tlv>
  {
    MandatoryTlvs(p, ttl) + SystemTlvs(p) + VendorTlvs(p) + WifiTlvs(ws)
  }

  /** The TLVs of a set-IP frame, without the final End TLV. */
  function SetIpTlvs(p: PortIdentity, ttl: u16, ws: seq<WifiPort>, slaveip: Ipv4): seq<Tlv>
  {
    MandatoryTlvs(p, ttl) + WifiTlvs(ws) + [SlaveIpaddrTlv(slaveip)]
  }

  /** Every TLV either builder makes fits its header. */
  lemma BuiltTlvsFit(p: PortIdentity, ttl: u16, ws: seq<WifiPort>, slaveip: Ipv4)
    requires p.Encodable()
    ensures AllFit(InfoTlvs(p, ttl, ws)) && AllFit(SetIpTlvs(p, ttl, ws, slaveip))
  {
  }

  /** The length rules of the per-type validators. */
  predicate ValidLength(t: Tlv) {
    if t.typ == END_OF_LLDPDU then |t.value| == 0
    else if t.typ == CHASSIS_ID || t.typ == PORT_ID then 2 <= |t.value| <= 256
    else if t.typ == TIME_TO_LIVE then |t.value| == 2
    else if t.typ == PORT_DESCRIPTION || t.typ == SYSTEM_NAME || t.typ == SYSTEM_DESCRIPTION then |t.value| <= 255
    else if t.typ == SYSTEM_CAPABILITIES then |t.value| == 4
    else if t.typ == MANAGEMENT_ADDRESS then true
    else if t.typ == ORG_SPECIFIC then 4 <= |t.value| <= 511
    else |t.value| <= 511
  }

  /** The builders consult no validator. What they build passes all of them iff the interface name has 1 to 255
      bytes and the system name and description at most 255: less than the 9-bit length can carry. */
  lemma BuiltTlvsValidIff(p: PortIdentity, ttl: u16, ws: seq<WifiPort>)
    ensures (forall t :: t in InfoTlvs(p, ttl, ws) + [END_TLV] ==> ValidLength(t))
       <==> 1 <= |p.ifName| <= 255 && |p.sysName| <= 255 && |p.sysDesc| <= 255
  {
    var fixed := MandatoryTlvs(p, ttl) + SystemTlvs(p) + VendorTlvs(p);
    var ts := InfoTlvs(p, ttl, ws) + [END_TLV];
    assert ts == fixed + WifiTlvs(ws) + [END_TLV];
    forall t | t in WifiTlvs(ws)
      ensures ValidLength(t)
    {
      var i :| 0 <= i < |ws| && t == WifiTlvs(ws)[i];
    }
    var names := [PortIdTlv(p), PortDescriptionTlv(p), SystemNameTlv(p), SystemDescriptionTlv(p)];
    assert names == [fixed[1], fixed[3], fixed[4], fixed[5]];
    assert fixed[0] == ChassisIdTlv(p) && fixed[2] == TtlTlv(ttl);
    assert fixed[6] == SystemCapabilitiesTlv() && fixed[7] == ManagementAddressTlv(p);
    assert fixed[8] == VendorTlv() && fixed[9] == IpaddrTlv(p) && fixed[10] == RoleTlv(p);
    if forall t :: t in ts ==> ValidLength(t) {
      assert names[0] in ts && names[1] in ts && names[2] in ts && names[3] in ts;
    }
    if 1 <= |p.ifName| <= 255 && |p.sysName| <= 255 && |p.sysDesc| <= 255 {
      forall t | t in ts
        ensures ValidLength(t)
      {
        if t in fixed {
          var i :| 0 <= i < 11 && t == fixed[i];
        }
      }
    }
  }

  function EthHeader(dst: Mac, src: Mac): (h: seq<byte>)
    ensures |h| == ETH_HEADER_SIZE
  {
    dst + src + ETHERTYPE_LLDP
  }

  /** Header, TLVs and End TLV, before padding. */
  function FrameBody(dst: Mac, src: Mac, ts: seq<Tlv>): seq<byte>
    requires AllFit(ts)
  {
    EthHeader(dst, src) + FlattenAll(ts + [END_TLV])
  }

  function Padded(body: seq<byte>): (f: seq<byte>)
    ensures |f| == Max(|body|, MIN_FRAME_SIZE)
  {
    body + Zeros(Max(0, MIN_FRAME_SIZE - |body|))
  }

  function InfoFrame(p: PortIdentity, ttl: u16, ws: seq<WifiPort>): seq<byte>
    requires p.Encodable()
  {
    BuiltTlvsFit(p, ttl, ws, [0, 0, 0, 0]);
    Padded(FrameBody(BROADCAST, p.mac, InfoTlvs(p, ttl, ws)))
  }

  function SetIpFrame(p: PortIdentity, ttl: u16, ws: seq<WifiPort>, slavemac: Mac, slaveip: Ipv4): seq<byte>
    requires p.Encodable()
  {
    BuiltTlvsFit(p, ttl, ws, slaveip);
    Padded(FrameBody(slavemac, p.mac, SetIpTlvs(p, ttl, ws, slaveip)))
  }

  lemma {:induction false} WifiTlvsLength(ws: seq<WifiPort>)
    requires AllFit(WifiTlvs(ws))
    ensures |FlattenAll(WifiTlvs(ws))| == 13 * |ws|
  {
    if ws == [] {
    } else {
      assert WifiTlvs(ws)[1..] == WifiTlvs(ws[1..]);
      WifiTlvsLength(ws[1..]);
    }
  }

  lemma FlattenLength2(a: Tlv, b: Tlv)
    requires Fits(a) && Fits(b)
    ensures |FlattenAll([a, b])| == 4 + |a.value| + |b.value|
  {
    assert [a, b][1..] == [b];
    assert FlattenAll([b]) == Flatten(b);
  }

  lemma FlattenLength3(a: Tlv, b: Tlv, c: Tlv)
    requires Fits(a) && Fits(b) && Fits(c)
    ensures |FlattenAll([a, b, c])| == 6 + |a.value| + |b.value| + |c.value|
  {
    FlattenLength2(b, c);
    assert [a, b, c][1..] == [b, c];
  }

  lemma MandatoryLength(p: PortIdentity, ttl: u16)
    requires p.Encodable()
    ensures AllFit(MandatoryTlvs(p, ttl)) && |FlattenAll(MandatoryTlvs(p, ttl))| == 16 + |p.ifName|
  {
    FlattenLength3(ChassisIdTlv(p), PortIdTlv(p), TtlTlv(ttl));
  }

  lemma SystemLength(p: PortIdentity)
    requires p.Encodable()
    ensures AllFit(SystemTlvs(p))
    ensures |FlattenAll(SystemTlvs(p))| == 26 + |p.ifName| + |p.sysName| + |p.sysDesc|
  {
    var ts := SystemTlvs(p);
    FlattenLength3(ts[0], ts[1], ts[2]);
    FlattenLength2(ts[3], ts[4]);
    FlattenAllAppend([ts[0], ts[1], ts[2]], [ts[3], ts[4]]);
    assert ts == [ts[0], ts[1], ts[2]] + [ts[3], ts[4]];
  }

  lemma VendorLength(p: PortIdentity)
    ensures AllFit(VendorTlvs(p)) && |FlattenAll(VendorTlvs(p))| == 31
  {
    FlattenLength3(VendorTlv(), IpaddrTlv(p), RoleTlv(p));
  }

  lemma FrameBodyLength(dst: Mac, src: Mac, a: seq<Tlv>, b: seq<Tlv>, c: seq<Tlv>)
    requires AllFit(a) && AllFit(b) && AllFit(c)
    ensures AllFit(a + b + c)
    ensures |FrameBody(dst, src, a + b + c)| == 16 + |FlattenAll(a)| + |FlattenAll(b)| + |FlattenAll(c)|
  {
    FlattenAllAppend(a, b);
    FlattenAllAppend(a + b, c);
    FlattenAllAppend(a + b + c, [END_TLV]);
  }

  /** An information frame never needs padding. */
  lemma InfoFrameSize(p: PortIdentity, ttl: u16, ws: seq<WifiPort>)
    requires p.Encodable()
    ensures |InfoFrame(p, ttl, ws)| == 89 + 2 * |p.ifName| + |p.sysName| + |p.sysDesc| + 13 * |ws|
  {
    BuiltTlvsFit(p, ttl, ws, [0, 0, 0, 0]);
    var m, s := MandatoryTlvs(p, ttl), SystemTlvs(p);
    MandatoryLength(p, ttl);
    SystemLength(p);
    VendorLength(p);
    WifiTlvsLength(ws);
    FlattenAllAppend(m, s);
    FrameBodyLength(BROADCAST, p.mac, m + s, VendorTlvs(p), WifiTlvs(ws));
  }

  /** A set-IP frame is padded to 64 bytes when names are short and wifi modules few. */
  lemma SetIpFrameSize(p: PortIdentity, ttl: u16, ws: seq<WifiPort>, slavemac: Mac, slaveip: Ipv4)
    requires p.Encodable()
    ensures |SetIpFrame(p, ttl, ws, slavemac, slaveip)| == Max(MIN_FRAME_SIZE, 42 + |p.ifName| + 13 * |ws|)
  {
    BuiltTlvsFit(p, ttl, ws, slaveip);
    var m, w, last := MandatoryTlvs(p, ttl), WifiTlvs(ws), SlaveIpaddrTlv(slaveip);
    MandatoryLength(p, ttl);
    WifiTlvsLength(ws);
    assert FlattenAll([last]) == Flatten(last);
    FrameBodyLength(slavemac, p.mac, m, w, [last]);
  }
}
