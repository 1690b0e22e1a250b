/** An allowed IP of a peer and its encoding as a nested WireGuard attribute
    (src/linux/set/allowed_ip.rs). */
module AllowedIps {
  import opened Bytes
  import opened Wrappers
  import opened NlAttr

  /** Address families (libc). */
  const AfInet: u16 := 2
  const AfInet6: u16 := 10

  /** Kinds of the WireGuard allowed-IP attribute set (WGALLOWEDIP_A_*). */
  const NlaNestedUnspec: u16 := 0
  const WgAllowedIpFamily: u16 := 1
  const WgAllowedIpIpAddr: u16 := 2
  const WgAllowedIpCidrMask: u16 := 3

  type Ipv4Octets = s: seq<u8> | |s| == 4 witness [0, 0, 0, 0]
  type Ipv6Octets = s: seq<u8> | |s| == 16 witness seq(16, _ => 0)

  /** `std::net::IpAddr`: an IPv4 or IPv6 address given by its octets. */
  datatype IpAddr = V4(v4: Ipv4Octets) | V6(v6: Ipv6Octets)

  /** An address with an optional prefix length; the family is never stored. */
  datatype AllowedIp = AllowedIp(ipaddr: IpAddr, cidrMask: Option<u8>)

  /** `AllowedIp::from_ipaddr`: the address with no explicit mask. */
  function FromIpAddr(ipaddr: IpAddr): (r: AllowedIp)
    ensures r.ipaddr == ipaddr
    ensures r.cidrMask.None?
  {
    AllowedIp(ipaddr, None)
  }

  /** The address family, derived from the address variant. */
  function Family(a: IpAddr): (f: u16)
    ensures f == AfInet <==> a.V4?
    ensures f == AfInet6 <==> a.V6?
  {
    match a
    case V4(_) => AfInet
    case V6(_) => AfInet6
  }

  /** The address octets in network order (`octets()`). */
  function Octets(a: IpAddr): (r: seq<u8>)
    ensures |r| == if a.V4? then 4 else 16
  {
    match a
    case V4(o) => o
    case V6(o) => o
  }

  /** The full prefix length of the address family. */
  function FullWidth(a: IpAddr): (w: u8)
    ensures w == 8 * |Octets(a)|
  {
    match a
    case V4(_) => 32
    case V6(_) => 128
  }

  /** The mask that is put on the wire: the explicit one, else the full width. */
  function EffectiveMask(ip: AllowedIp): (m: u8)
    ensures ip.cidrMask.Some? ==> m == ip.cidrMask.value
    ensures ip.cidrMask.None? ==> m == FullWidth(ip.ipaddr)
  {
    match ip.cidrMask
    case Some(m) => m
    case None => FullWidth(ip.ipaddr)
  }

  /** `NlaNested::Unspec | NLA_F_NESTED`: the nested bit OR-ed into the type
      number itself (the bits are disjoint, so the OR is a sum). */
  const NestedUnspecTag: u16 := NlaNestedUnspec + NlaFNested

  /** `TryFrom<&AllowedIp> for Nlattr`: an attribute whose type number is
      `NlaNested::Unspec | NLA_F_NESTED`, built from an empty payload by
      nesting the family, the address and the mask, in that order. */
  function Encode(ip: AllowedIp, order: ByteOrder): (r: Attr)
    ensures NestedBit(r) && Kind(r) == NlaNestedUnspec && WireType(r) == NlaFNested
    ensures r.payload.Children? && |r.payload.attrs| == 3
    ensures r.payload.attrs[0] == Plain(WgAllowedIpFamily, U16Bytes(Family(ip.ipaddr), order))
    ensures r.payload.attrs[1] == Plain(WgAllowedIpIpAddr, Octets(ip.ipaddr))
    ensures r.payload.attrs[2] == Plain(WgAllowedIpCidrMask, U8Bytes(EffectiveMask(ip)))
  {
    var empty := Attr(NestedUnspecTag, false, false, Leaf([]));
    var withFamily := Nest(empty, Plain(WgAllowedIpFamily, U16Bytes(Family(ip.ipaddr), order)));
    var withAddr := Nest(withFamily, Plain(WgAllowedIpIpAddr, Octets(ip.ipaddr)));
    Nest(withAddr, Plain(WgAllowedIpCidrMask, U8Bytes(EffectiveMask(ip))))
  }

  /** How a reader of the attribute (the kernel) recovers the address and the
      mask: look each child up by type and check its size against the family. */
  function Decode(a: Attr, order: ByteOrder): Option<(IpAddr, u8)>
  {
    if !a.payload.Children? then None
    else
      var cs := a.payload.attrs;
      match (Lookup(cs, WgAllowedIpFamily), Lookup(cs, WgAllowedIpIpAddr), Lookup(cs, WgAllowedIpCidrMask))
      case (Some(Attr(_, _, _, Leaf(f))), Some(Attr(_, _, _, Leaf(addr))), Some(Attr(_, _, _, Leaf(mask)))) =>
        if |f| != 2 || |mask| != 1 then None
        else if FromU16Bytes(f, order) == AfInet && |addr| == 4 then Some((V4(addr), mask[0]))
        else if FromU16Bytes(f, order) == AfInet6 && |addr| == 16 then Some((V6(addr), mask[0]))
        else None
      case _ => None
  }

  /** Round trip: decoding the encoding gives back the address and the mask
      that was sent, the full width when none was given. */
  lemma DecodeEncode(ip: AllowedIp, order: ByteOrder)
    ensures Decode(Encode(ip, order), order) == Some((ip.ipaddr, EffectiveMask(ip)))
  {
    var cs := Encode(ip, order).payload.attrs;
    assert Lookup(cs, WgAllowedIpFamily) == Some(cs[0]);
    assert Lookup(cs, WgAllowedIpIpAddr) == Some(cs[1]);
    assert Lookup(cs, WgAllowedIpCidrMask) == Some(cs[2]);
  }

  /** An address from `from_ipaddr` is sent with the full-width mask: it
      encodes exactly as if that mask had been given explicitly. */
  lemma FromIpAddrFullWidth(a: IpAddr, order: ByteOrder)
    ensures Encode(FromIpAddr(a), order) == Encode(AllowedIp(a, Some(FullWidth(a))), order)
    ensures Decode(Encode(FromIpAddr(a), order), order)
         == Some((a, if a.V4? then 32 else 128))
  {
    DecodeEncode(FromIpAddr(a), order);
  }

  /** The `nla_len` of the encoding: 28 bytes for IPv4 and 40 for IPv6
      (a 4-byte header and three aligned children of 2, 4 or 16, and 1
      payload bytes). */
  lemma EncodeLen(ip: AllowedIp, order: ByteOrder)
    ensures Len(Encode(ip, order)) == if ip.ipaddr.V4? then 28 else 40
  {
    var empty := Attr(NestedUnspecTag, false, false, Leaf([]));
    var f := Plain(WgAllowedIpFamily, U16Bytes(Family(ip.ipaddr), order));
    var d := Plain(WgAllowedIpIpAddr, Octets(ip.ipaddr));
    var m := Plain(WgAllowedIpCidrMask, U8Bytes(EffectiveMask(ip)));
    NestLen(empty, f);
    NestLen(Nest(empty, f), d);
    NestLen(Nest(Nest(empty, f), d), m);
    assert Len(f) == 6 && Len(m) == 5;
  }
}
