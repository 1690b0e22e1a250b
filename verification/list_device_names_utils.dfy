/** The interface-list request and the per-record classifier
    (src/linux/socket/list_device_names_utils.rs). */
module ListDeviceNamesUtils {
  import opened Bytes
  import opened Wrappers
  import opened Netlink
  import opened NlAttr
  import opened Rtnl
  import opened Consts

  /** `ListDevicesError`: the opaque `Unknown` case, a failure to read an
      attribute, and a failure to send the request. */
  datatype ListDevicesError = Unknown | AttributeError | SendError

  /** A received route attribute as the attribute handle sees it: its type,
      the string its payload parses to, if any, and the attributes its payload
      parses to as a nest, if any. */
  datatype RtAttrView = RtAttrView(rtaType: u16, asString: Option<seq<u8>>, asNested: Option<seq<RtAttrView>>)

  /** `PotentialWireGuardDeviceName`. */
  datatype PotentialName = PotentialName(ifname: Option<seq<u8>>, isWireguard: bool)

  /** `get_list_device_names_msg`: a dump of all links, with no attributes. */
  function ListRequest(): (r: RtMsg)
    ensures r.nlType == Getlink && r.flags == {Request, Ack, Dump}
    ensures r.payload.family == AfUnspec && r.payload.ifiType == ArphrdNetrom
    ensures r.payload.index == 0 && r.payload.flags == {} && r.payload.change == {}
    ensures r.payload.rtattrs == []
  {
    RtMsg(Getlink, {Request, Ack, Dump}, Ifinfomsg(AfUnspec, ArphrdNetrom, 0, {}, {}, []))
  }

  /** The first attribute of the given type, as the handle finds it. */
  function Find(attrs: seq<RtAttrView>, t: u16): Option<RtAttrView>
  {
    FindFirst(attrs, (a: RtAttrView) => a.rtaType == t)
  }

  /** `i` is the position of the first attribute of type `t`. */
  ghost predicate FirstAt(attrs: seq<RtAttrView>, t: u16, i: int)
  {
    0 <= i < |attrs| && attrs[i].rtaType == t && forall j :: 0 <= j < i ==> attrs[j].rtaType != t
  }

  /** `parse_ifinfomsg`: a record with no payload is `Unknown`; the name is
      the first Ifname attribute read as a string, absent if there is none or
      it does not read; a record without a readable Linkinfo nest is not
      WireGuard; a nest without a readable Kind string is an error; otherwise
      the link is WireGuard iff its kind is WG_GENL_NAME. */
  function ParseIfinfomsg(payload: Option<seq<RtAttrView>>): (r: Result<PotentialName, ListDevicesError>)
    ensures r == Failure(Unknown) <==> payload.None?
    ensures r.Success? ==> r.value.ifname == (match Find(payload.value, IflaIfname)
                                                case Some(a) => a.asString
                                                case None => None)
    ensures payload.Some? && (Find(payload.value, IflaLinkinfo).None? || Find(payload.value, IflaLinkinfo).value.asNested.None?)
            ==> r.Success? && !r.value.isWireguard
    ensures payload.Some? && Find(payload.value, IflaLinkinfo).Some? && Find(payload.value, IflaLinkinfo).value.asNested.Some? ==>
              var kind := Find(Find(payload.value, IflaLinkinfo).value.asNested.value, IflaInfoKind);
              && (r.Success? <==> kind.Some? && kind.value.asString.Some?)
              && (r.Success? ==> r.value.isWireguard == (kind.value.asString.value == WgGenlName()))
    ensures r.Failure? && payload.Some? ==> r.error == AttributeError
  {
    match payload
    case None => Failure(Unknown)
    case Some(attrs) =>
      var ifname := match Find(attrs, IflaIfname)
        case Some(a) => a.asString
        case None => None;
      match Find(attrs, IflaLinkinfo)
      case Some(RtAttrView(_, _, Some(linkinfo))) =>
        (match Find(linkinfo, IflaInfoKind)
         case Some(RtAttrView(_, Some(kind), _)) => Success(PotentialName(ifname, kind == WgGenlName()))
         case _ => Failure(AttributeError))
      case _ => Success(PotentialName(ifname, false))
  }

  /** The record names the link `name` and that link's first Linkinfo nest
      reads and holds a first Kind string equal to WG_GENL_NAME. */
  ghost predicate NamesWireGuardLink(attrs: seq<RtAttrView>, name: seq<u8>)
  {
    && (exists i :: FirstAt(attrs, IflaIfname, i) && attrs[i].asString == Some(name))
    && (exists i :: FirstAt(attrs, IflaLinkinfo, i) && attrs[i].asNested.Some?
                   && exists k :: FirstAt(attrs[i].asNested.value, IflaInfoKind, k)
                                 && attrs[i].asNested.value[k].asString == Some(WgGenlName()))
  }

  /** The classifier reports a named WireGuard link exactly when the record,
      read position by position, describes one. */
  lemma ParseNamesWireGuardLink(attrs: seq<RtAttrView>, name: seq<u8>)
    ensures ParseIfinfomsg(Some(attrs)) == Success(PotentialName(Some(name), true))
        <==> NamesWireGuardLink(attrs, name)
  {
    FirstUnique(attrs, IflaIfname);
    FirstUnique(attrs, IflaLinkinfo);
    var l := Find(attrs, IflaLinkinfo);
    if l.Some? && l.value.asNested.Some? {
      FirstUnique(l.value.asNested.value, IflaInfoKind);
    }
  }

  /** `Find` returns the attribute at the one position `FirstAt` allows. */
  lemma FirstUnique(attrs: seq<RtAttrView>, t: u16)
    ensures Find(attrs, t).None? <==> forall i :: 0 <= i < |attrs| ==> attrs[i].rtaType != t
    ensures forall i :: FirstAt(attrs, t, i) ==> Find(attrs, t) == Some(attrs[i])
  {
    forall i | FirstAt(attrs, t, i)
      ensures Find(attrs, t) == Some(attrs[i])
    {
      var r := Find(attrs, t);
      assert r.Some?;
      var j :| 0 <= j < |attrs| && attrs[j] == r.value && attrs[j].rtaType == t
                && forall m :: 0 <= m < j ==> attrs[m].rtaType != t;
      assert !(j < i) && !(i < j);
    }
  }
}
