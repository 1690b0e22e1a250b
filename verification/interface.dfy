/** The identity of a kernel interface and its encoding as a WireGuard device
    attribute (src/linux/interface.rs). */
module Interface {
  import opened Bytes
  import opened Wrappers
  import opened NlAttr

  /** Kinds of the WireGuard device attribute set (WGDEVICE_A_*) used here. */
  const WgDeviceIfindex: u16 := 1
  const WgDeviceIfname: u16 := 2

  /** An interface name, as the bytes of its UTF-8 text. */
  type IfName = seq<u8>

  /** `DeviceInterface`: a kernel interface index or an interface name. */
  datatype DeviceInterface = Index(index: u32) | Name(name: IfName)

  /** `from_index`: the interface with kernel index `index`. */
  function FromIndex(index: u32): (r: DeviceInterface)
    ensures r.Index? && r.index == index
  {
    Index(index)
  }

  /** `from_name`: the interface called `name`. */
  function FromName(name: IfName): (r: DeviceInterface)
    ensures r.Name? && r.name == name
  {
    Name(name)
  }

  /** `TryFrom<&DeviceInterface> for Nlattr`: an index becomes an Ifindex
      attribute holding the 4-byte integer, a name an Ifname attribute holding
      the name; neither flag is set. */
  function Encode(iface: DeviceInterface, order: ByteOrder): (r: Attr)
    ensures !r.nested && !r.networkOrder && r.payload.Leaf?
    ensures WireType(r) == r.tag
    ensures iface.Index? ==> r.tag == WgDeviceIfindex && r.payload.bytes == U32Bytes(iface.index, order)
    ensures iface.Name? ==> r.tag == WgDeviceIfname && r.payload.bytes == iface.name
  {
    match iface
    case Index(i) => Plain(WgDeviceIfindex, U32Bytes(i, order))
    case Name(n) => Plain(WgDeviceIfname, n)
  }

  /** How a reader recovers the interface from its attribute: the tag chooses
      the variant, the payload gives its value. */
  function Decode(a: Attr, order: ByteOrder): Option<DeviceInterface>
  {
    match a.payload
    case Children(_) => None
    case Leaf(b) =>
      if a.tag == WgDeviceIfindex && |b| == 4 then Some(Index(FromU32Bytes(b, order)))
      else if a.tag == WgDeviceIfname then Some(Name(b))
      else None
  }

  /** Round trip: the attribute identifies the interface it was built from. */
  lemma DecodeEncode(iface: DeviceInterface, order: ByteOrder)
    ensures Decode(Encode(iface, order), order) == Some(iface)
  {
  }

  /** The tag alone tells the two variants apart. */
  lemma TagDeterminesVariant(x: DeviceInterface, y: DeviceInterface, order: ByteOrder)
    ensures Encode(x, order).tag == Encode(y, order).tag <==> x.Index? == y.Index?
  {
  }

  /** `from_index` and `from_name` build the variant they name, so their
      encodings carry the index as four bytes and the name unchanged. */
  lemma FromConstructorsEncode(index: u32, name: IfName, order: ByteOrder)
    ensures FromIndex(index) == Index(index) && FromName(name) == Name(name)
    ensures Encode(FromIndex(index), order) == Plain(WgDeviceIfindex, U32Bytes(index, order))
    ensures Encode(FromName(name), order) == Plain(WgDeviceIfname, name)
    ensures Decode(Encode(FromIndex(index), order), order) == Some(Index(index))
  {
  }
}
