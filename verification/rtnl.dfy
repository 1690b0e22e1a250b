/** Route-link (rtnetlink) messages: the interface-lifecycle protocol used to
    create, delete and list interfaces. */
module Rtnl {
  import opened Bytes
  import opened Netlink

  /** rtnetlink message types used here. */
  datatype Rtm = Newlink | Dellink | Getlink

  /** Interface flags (IFF_*) used here. */
  datatype Iff = Up

  /** Interface attribute types (IFLA_*) and the link-info kind. */
  const IflaIfname: u16 := 3
  const IflaLinkinfo: u16 := 18
  const IflaInfoKind: u16 := 1

  const AfUnspec: u8 := 0
  /** `Arphrd::Netrom`, the hardware type 0. */
  const ArphrdNetrom: u16 := 0

  /** A route attribute with its hand-written length field. */
  datatype Rtattr = Rtattr(rtaLen: u16, rtaType: u16, payload: seq<u8>)

  /** The `ifinfomsg` header and its attributes. */
  datatype Ifinfomsg = Ifinfomsg(
    family: u8, ifiType: u16, index: int,
    flags: set<Iff>, change: set<Iff>, rtattrs: seq<Rtattr>)

  /** A route-link request message. */
  datatype RtMsg = RtMsg(nlType: Rtm, flags: set<NlmF>, payload: Ifinfomsg)
}
