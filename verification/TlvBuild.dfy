/** Building TLVs step by step: value buffers are allocated zeroed and filled, TLVs are hung on a list, and the
    list is flattened into a frame. */
module TlvBuild {
  import opened Bytes
  import LinkedList
  import opened TlvFormat

  type TlvList = LinkedList.List<Tlv>

  method Calloc(n: nat) returns (value: array<byte>)
    ensures fresh(value) && value[..] == Zeros(n)
  {
    value := new byte[n](_ => 0);
    assert value[..] == Zeros(n);
  }

  method CreateEndOfLldpPduTlv() returns (t: Tlv)
    ensures t == END_TLV
  {
    t := Tlv(END_OF_LLDPDU, []);
  }

  method CreateChassisIdTlv(p: PortIdentity) returns (t: Tlv)
    ensures t == ChassisIdTlv(p)
  {
    var value := Calloc(7);
    value[0] := CHASSIS_ID_MAC_ADDRESS;
    Memcpy(value, 1, p.mac);
    t := Tlv(CHASSIS_ID, value[..]);
  }

  method CreatePortIdTlv(p: PortIdentity) returns (t: Tlv)
    ensures t == PortIdTlv(p)
  {
    var value := Calloc(1 + |p.ifName|);
    value[0] := PORT_ID_INTERFACE_NAME;
    Memcpy(value, 1, p.ifName);
    t := Tlv(PORT_ID, value[..]);
  }

  method CreateTtlTlv(ttl: u16) returns (t: Tlv)
    ensures t == TtlTlv(ttl)
  {
    var value := Calloc(2);
    Memcpy(value, 0, [ttl / 256, ttl % 256]);
    t := Tlv(TIME_TO_LIVE, value[..]);
  }

  method CreatePortDescriptionTlv(p: PortIdentity) returns (t: Tlv)
    ensures t == PortDescriptionTlv(p)
  {
    var value := Calloc(|p.ifName|);
    Memcpy(value, 0, p.ifName);
    t := Tlv(PORT_DESCRIPTION, value[..]);
  }

  method CreateSystemNameTlv(p: PortIdentity) returns (t: Tlv)
    ensures t == SystemNameTlv(p)
  {
    var value := Calloc(|p.sysName|);
    Memcpy(value, 0, p.sysName);
    t := Tlv(SYSTEM_NAME, value[..]);
  }

  method CreateSystemDescriptionTlv(p: PortIdentity) returns (t: Tlv)
    ensures t == SystemDescriptionTlv(p)
  {
    var value := Calloc(|p.sysDesc|);
    Memcpy(value, 0, p.sysDesc);
    t := Tlv(SYSTEM_DESCRIPTION, value[..]);
  }

  method CreateSystemCapabilitiesTlv() returns (t: Tlv)
    ensures t == SystemCapabilitiesTlv()
  {
    var value := Calloc(4);
    Memcpy(value, 0, [0x00, 0x1c]);
    Memcpy(value, 2, [0x00, 0x08]);
    t := Tlv(SYSTEM_CAPABILITIES, value[..]);
  }

  method CreateManagementAddressTlv(p: PortIdentity) returns (t: Tlv)
    ensures t == ManagementAddressTlv(p)
  {
    var value := Calloc(12);
    value[0] := 5;
    value[1] := 1;
    Memcpy(value, 2, p.ip);
    value[6] := 3;
    Memcpy(value, 7, p.ifIndex);
    value[11] := 0;
    assert value[..] == [5, 1] + p.ip + [3] + p.ifIndex + [0];
    t := Tlv(MANAGEMENT_ADDRESS, value[..]);
  }

  /** The part the vendor constructors share: OUI, subtype, payload. */
  method CreateOwnTlv(subtype: byte, payload: seq<byte>) returns (t: Tlv)
    ensures t == OwnTlv(subtype, payload)
  {
    var value := Calloc(|payload| + 3 + 1);
    Memcpy(value, 0, DC_OUI);
    Memcpy(value, 3, [subtype]);
    Memcpy(value, 4, payload);
    t := Tlv(ORG_SPECIFIC, value[..]);
  }

  method CreateDunchongTlv() returns (t: Tlv)
    ensures t == VendorTlv()
  {
    t := CreateOwnTlv(SUBTYPE_VENDOR, VENDOR_NAME);
  }

  method CreateDunchongIpaddrTlv(p: PortIdentity) returns (t: Tlv)
    ensures t == IpaddrTlv(p)
  {
    t := CreateOwnTlv(SUBTYPE_IPADDR, p.ip);
  }

  method CreateRoleTlv(p: PortIdentity) returns (t: Tlv)
    ensures t == RoleTlv(p)
  {
    t := CreateOwnTlv(SUBTYPE_ROLE, [ToByte(p.role)]);
  }

  method CreateWifiWorkingModeTlv(w: WifiPort) returns (t: Tlv)
    ensures t == WifiTlv(w)
  {
    var payload := Calloc(7);
    Memcpy(payload, 0, w.mac);
    payload[6] := ToByte(w.mode);
    t := CreateOwnTlv(SUBTYPE_WIFI, payload[..]);
  }

  method CreateSlaveIpaddrTlv(slaveip: Ipv4) returns (t: Tlv)
    ensures t == SlaveIpaddrTlv(slaveip)
  {
    t := CreateOwnTlv(SUBTYPE_SET_IP, slaveip);
  }

  // -------- lists --------

  /** Appends a TLV; a missing one is reported and skipped. */
  method AddTlv(tlv: Option<Tlv>, list: TlvList)
    requires list.Valid()
    modifies list, list.repr
    ensures list.Valid() && list.contents == old(list.contents) + (if tlv.Some? then [tlv.value] else [])
    ensures fresh(list.repr - old(list.repr))
  {
    if tlv.Some? {
      list.Append(tlv.value);
    }
  }

  /** One TLV per local wifi interface, in order. */
  method AddWifiTlvs(ws: seq<WifiPort>, list: TlvList)
    requires list.Valid()
    modifies list, list.repr
    ensures list.Valid() && list.contents == old(list.contents) + WifiTlvs(ws)
    ensures fresh(list.repr - old(list.repr))
  {
    for i := 0 to |ws|
      invariant list.Valid() && list.contents == old(list.contents) + WifiTlvs(ws)[..i]
      invariant fresh(list.repr - old(list.repr))
    {
      var t := CreateWifiWorkingModeTlv(ws[i]);
      AddTlv(Some(t), list);
    }
    assert WifiTlvs(ws)[..|ws|] == WifiTlvs(ws);
  }

  // -------- flattening --------

  method FlattenTlv(t: Tlv) returns (flat: array<byte>)
    requires Storable(t)
    ensures fresh(flat) && flat[..] == Flatten(t)
  {
    assert Pow2(7) == 128;
    var typeAndLength := Or(t.typ % 128, |t.value| / 512, 7) * 512 + |t.value| % 512;
    flat := Calloc(|t.value| + 2);
    Memcpy(flat, 0, [typeAndLength / 256, typeAndLength % 256]);
    Memcpy(flat, 2, t.value);
  }

  /** Copies the flattened TLVs of a list into the frame, one behind the other. Returns false when a copy leaves
      the frame. */
  method WriteTlvs(list: TlvList, frame: array<byte>, start: nat) returns (ok: bool, frameOffset: nat)
    requires list.Valid() && AllFit(list.contents) && start <= frame.Length
    modifies frame
    ensures ok <==> start + |FlattenAll(list.contents)| <= frame.Length
    ensures ok ==> frameOffset == start + |FlattenAll(list.contents)|
    ensures ok ==> frame[..] == old(frame[..start]) + FlattenAll(list.contents) + old(frame[frameOffset..])
  {
    frameOffset := start;
    var tmp := list.head;
    ghost var i, ts, was := 0, list.contents, frame[..];
    assert ts[..0] == [] && ts[..|ts|] == ts;
    while tmp != null
      invariant 0 <= i <= |ts| && tmp == LinkedList.NodeAt(list.nodes, i)
      invariant frameOffset == start + |FlattenAll(ts[..i])| <= frame.Length
      invariant frame[..] == was[..start] + FlattenAll(ts[..i]) + was[frameOffset..]
      decreases |ts| - i
    {
      FlattenSnoc(ts, i);
      var flat := FlattenTlv(tmp.data);
      if frame.Length < frameOffset + flat.Length {
        return false, frameOffset;
      }
      ghost var before := frame[..];
      Memcpy(frame, frameOffset, flat[..]);
      Extend(before, was, start, FlattenAll(ts[..i]), Flatten(ts[i]), frame[..]);
      frameOffset := frameOffset + flat.Length;
      tmp := tmp.next;
      i := i + 1;
    }
    ok := true;
  }

  lemma FlattenSnoc(ts: seq<Tlv>, i: nat)
    requires AllFit(ts) && i < |ts|
    ensures AllFit(ts[..i]) && AllFit(ts[..i + 1])
    ensures FlattenAll(ts[..i + 1]) == FlattenAll(ts[..i]) + Flatten(ts[i])
    ensures |FlattenAll(ts[..i + 1])| <= |FlattenAll(ts)|
  {
    var last := [ts[i]];
    assert ts[..i + 1] == ts[..i] + last;
    FlattenAllAppend(ts[..i], last);
    assert FlattenAll(last) == Flatten(ts[i]) + FlattenAll(last[1..]);
    assert ts == ts[..i + 1] + ts[i + 1..];
    FlattenAllAppend(ts[..i + 1], ts[i + 1..]);
  }

  /** Copying `more` behind `done` extends what has been written. */
  lemma Extend(before: seq<byte>, was: seq<byte>, start: nat, done: seq<byte>, more: seq<byte>, after: seq<byte>)
    requires start + |done| + |more| <= |was|
    requires before == was[..start] + done + was[start + |done|..]
    requires after == before[..start + |done|] + more + before[start + |done| + |more|..]
    ensures after == was[..start] + (done + more) + was[start + |done + more|..]
  {
    var at := start + |done|;
    assert before[..at] == was[..start] + done;
    assert before[at + |more|..] == was[at + |more|..];
  }

  // -------- the unused inverse --------

  /** Exploding a flat TLV with the header word taken from `source`; nothing if that leaves the flat TLV. */
  function ExplodedFrom(source: seq<byte>, flat: seq<byte>): Option<Tlv>
    requires |source| >= 2 && |flat| >= 2
  {
    var length := HeaderLength(source[0], source[1]);
    if 2 + length <= |flat| then Some(Tlv(HeaderType(source[0], source[1]), flat[2..2 + length])) else None
  }

  /** `explode_tlv` takes the header word from the struct it has just zeroed, not from the flat TLV. */
  method ExplodeTlv(flat: array<byte>) returns (t: Tlv)
    requires flat.Length >= 2
    ensures ExplodedFrom(Zeros(2), flat[..]) == Some(t)
  {
    var tlv := Calloc(2);
    assert tlv[..] == Zeros(2) && tlv[0] == tlv[..][0] == 0 && tlv[1] == tlv[..][1] == 0;
    var typ, length := HeaderType(tlv[0], tlv[1]), HeaderLength(tlv[0], tlv[1]);
    assert typ == length == 0;
    var value := Calloc(length);
    Memcpy(value, 0, flat[2..2 + length]);
    t := Tlv(typ, value[..]);
  }

  lemma SwappedHeader(hi: byte, lo: byte)
    ensures HeaderType(lo, hi) == HeaderType(hi, lo) && HeaderLength(lo, hi) == HeaderLength(hi, lo) <==> hi == lo
  {
    var h, h' := U16(hi, lo), U16(lo, hi);
    assert h == h / 512 * 512 + h % 512 && h' == h' / 512 * 512 + h' % 512;
  }

  lemma ExplodedFlat(source: seq<byte>, t: Tlv)
    requires Fits(t) && |source| >= 2
    ensures ExplodedFrom(source, Flatten(t)) == Some(t) <==>
            HeaderType(source[0], source[1]) == t.typ && HeaderLength(source[0], source[1]) == |t.value|
  {
    assert Flatten(t)[2..2 + |t.value|] == t.value;
  }

  /** So exploding undoes flattening for the End TLV only. Reading the flat bytes instead would do for every TLV
      that fits, if they were also read in network order; read in little-endian order, as the code would read them
      on such a host, they would do only where the two header bytes are equal. */
  lemma ExplodeUndoesFlattenIff(t: Tlv)
    requires Fits(t)
    ensures ExplodedFrom(Zeros(2), Flatten(t)) == Some(t) <==> t == END_TLV
    ensures ExplodedFrom(Flatten(t), Flatten(t)) == Some(t)
    ensures ExplodedFrom([Flatten(t)[1], Flatten(t)[0]], Flatten(t)) == Some(t) <==> Flatten(t)[0] == Flatten(t)[1]
  {
    HeaderRoundTripIff(t);
    var f := Flatten(t);
    assert f[0] == Header(t)[0] && f[1] == Header(t)[1];
    ExplodedFlat(Zeros(2), t);
    ExplodedFlat(f, t);
    ExplodedFlat([f[1], f[0]], t);
    SwappedHeader(f[0], f[1]);
  }
}
