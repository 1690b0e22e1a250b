/** Create and delete requests for a WireGuard interface
    (src/linux/socket/link_message.rs). */
module LinkMessage {
  import opened Bytes
  import opened Netlink
  import opened NlAttr
  import opened Rtnl
  import opened Consts

  const RtattrHeaderLen: u16 := 4

  datatype LinkOperation = Add | Delete

  /** `create_rtattr`: the length field is the payload size cast to a 16-bit
      `c_ushort` plus the 4-byte header, in 16-bit arithmetic; it equals the
      attribute's real length whenever that fits in 16 bits. */
  function CreateRtattr(rtaType: u16, payload: seq<u8>): (r: Rtattr)
    ensures r.rtaType == rtaType && r.payload == payload
    ensures (r.rtaLen - |payload| - RtattrHeaderLen) % 0x1_0000 == 0
    ensures |payload| + RtattrHeaderLen < 0x1_0000 ==> r.rtaLen == |payload| + RtattrHeaderLen
  {
    var size: u16 := |payload| % 0x1_0000;
    Rtattr((size + RtattrHeaderLen) % 0x1_0000, rtaType, payload)
  }

  /** The IFLA_INFO_KIND attribute the builder constructs for the link info. */
  function InfoKindAttr(): (r: Attr)
    ensures r.tag == IflaInfoKind && WireType(r) == IflaInfoKind
    ensures r.payload == Leaf(WgGenlName()) && Len(r) == 13
  {
    Plain(IflaInfoKind, WgGenlName())
  }

  /** `link_message`: a Newlink (create, exclusive) or Dellink request whose
      `ifinfomsg` names the interface and carries the link info. The link-info
      attribute holds the payload of the inner kind attribute, that is the
      bare kind string, and not the inner attribute itself. */
  function Link(ifname: seq<u8>, op: LinkOperation): (r: RtMsg)
    ensures r.nlType == if op == Add then Newlink else Dellink
    ensures r.flags == if op == Add then {Request, Ack, Create, Excl} else {Request, Ack}
    ensures r.payload.family == AfUnspec && r.payload.ifiType == ArphrdNetrom
    ensures r.payload.index == 0 && r.payload.flags == {} && r.payload.change == {Up}
    ensures |r.payload.rtattrs| == 2
    ensures r.payload.rtattrs[0].rtaType == IflaIfname && r.payload.rtattrs[0].payload == ifname
    ensures r.payload.rtattrs[1].rtaType == IflaLinkinfo
    ensures r.payload.rtattrs[1].payload == InfoKindAttr().payload.bytes == WgGenlName()
  {
    var name := CreateRtattr(IflaIfname, ifname);
    var link := CreateRtattr(IflaLinkinfo, InfoKindAttr().payload.bytes);
    var info := Ifinfomsg(AfUnspec, ArphrdNetrom, 0, {}, {Up}, [name, link]);
    match op
    case Add => RtMsg(Newlink, {Request, Ack, Create, Excl}, info)
    case Delete => RtMsg(Dellink, {Request, Ack}, info)
  }

  /** Create and delete requests differ only in type and flags: they carry
      the same `ifinfomsg`. */
  lemma AddDeleteSamePayload(ifname: seq<u8>)
    ensures Link(ifname, Add).payload == Link(ifname, Delete).payload
    ensures Link(ifname, Add).nlType != Link(ifname, Delete).nlType
    ensures Link(ifname, Delete).flags < Link(ifname, Add).flags
  {
  }

  /** The length fields are exact for any name short enough for a 16-bit
      length: the name attribute is 4 bytes longer than the name and the
      link-info attribute is 13 bytes. Its payload is 4 bytes shorter than the
      inner kind attribute, because the inner header is dropped. */
  lemma LinkLengths(ifname: seq<u8>, op: LinkOperation)
    requires |ifname| + 4 < 0x1_0000
    ensures Link(ifname, op).payload.rtattrs[0].rtaLen == |ifname| + 4
    ensures Link(ifname, op).payload.rtattrs[1].rtaLen == 13
    ensures |Link(ifname, op).payload.rtattrs[1].payload| + NlaHdrLen == Len(InfoKindAttr())
  {
  }
}
