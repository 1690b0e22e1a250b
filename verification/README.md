# wireguard-uapi netlink core, modelled in Dafny

This project models the message-building and response-handling core of the
Linux side of `wireguard-uapi` (Rust). That core is a userspace client that
talks to the kernel's WireGuard module over generic netlink, and to the
kernel's link layer over route netlink (rtnetlink). The model covers:

- **Attribute builders.** Netlink attributes are length-prefixed TLVs (the
  attribute format of section 2.3.2 of RFC 3549). The model has an abstract
  `Attr` datatype: a tag, a nested flag, a network-order flag, and a payload
  of raw bytes or child attributes. On it are built:
  - the allowed-IP encoder, with its default prefix length;
  - the interface-identity encoder (index or name);
  - the create, delete and list route-link requests, including the
    hand-computed `rta_len`.
- **The `parse_ifinfomsg` classifier.** It turns one link record into an
  optional name and an "is WireGuard" flag, or into an error.
- **The receive loops.** Each is a pure function over a finite sequence of
  abstract responses. Every response is a message (its netlink type and an
  optional payload) or a receive failure. The loops are:
  - the `list_device_names` filter;
  - the `get_device` dump-and-merge fold;
  - `set_device`'s send-then-receive sequencing;
  - the multicast iterator's `next` step.
- **Connection state.** Only the resolved family id and the optional
  multicast group id are kept, together with the `iter_mcast_events`
  precondition.

Every socket operation becomes a parameter: whether a send succeeded, the
stream a receive loop sees, whether a receive or a group join succeeded.
Parsing a device, merging dump messages, parsing an event and building the
set-device messages happen in parts of the crate outside this model. They are
function parameters: `tryFrom`, `extend`, `parse` and `create`.

Modules follow the source files:

- `Bytes`: fixed-width integers and their native-order bytes.
- `NlAttr`: the attribute datatype, `nest`, lengths and lookup.
- `AllowedIps`: `set/allowed_ip.rs`.
- `Interface`: `interface.rs`.
- `Netlink`: message types and the response stream.
- `Rtnl`: route-link message types.
- `LinkMessage`: `socket/link_message.rs`.
- `ListDeviceNamesUtils`: `socket/list_device_names_utils.rs`.
- `RouteSocket`: `socket/route_socket.rs`.
- `WgSocket`: `socket/wg_socket.rs`.

Two behaviours of the receive loops are worth stating plainly:

- The receive loops of `get_device` and `list_device_names` end quietly when
  a receive fails or the stream ends: an unterminated stream is not an
  error. `list_device_names` then returns the names collected so far, and
  `get_device` returns the device built so far, or `AccessError` if none was
  built.
- The multicast iterator skips only Noop messages. A message of any other
  type that is not the WireGuard family is an error item, not a skipped
  message.

Constants are those of the Linux and WireGuard kernel headers:

| constant | value |
|---|---|
| `AF_INET` | 2 |
| `AF_INET6` | 10 |
| `AF_UNSPEC` | 0 |
| `NLA_F_NESTED` | 0x8000 |
| `WGDEVICE_A_IFINDEX` | 1 |
| `WGDEVICE_A_IFNAME` | 2 |
| `WGALLOWEDIP_A_FAMILY` | 1 |
| `WGALLOWEDIP_A_IPADDR` | 2 |
| `WGALLOWEDIP_A_CIDR_MASK` | 3 |
| `IFLA_IFNAME` | 3 |
| `IFLA_LINKINFO` | 18 |
| `IFLA_INFO_KIND` | 1 |
| `IFNAMSIZ` | 16 |
| `WG_GENL_NAME` | "wireguard" |
| `WG_GENL_VERSION` | 1 |

## Model

| member | source | states |
|---|---|---|
| Bytes.U16Bytes | src/linux/set/allowed_ip.rs:56 | a u16 becomes exactly two bytes in the native order, and reading them back gives the value |
| Bytes.U32Bytes | src/linux/interface.rs:37 | a u32 becomes exactly four bytes in the native order, and reading them back gives the value |
| NlAttr.WireType | src/linux/set/allowed_ip.rs:44 | the wire type keeps the kind in its low bits and sets the nested bit iff the nested flag is set or NLA_F_NESTED was OR-ed into the type number, and likewise the network-order bit |
| NlAttr.Nest | src/linux/set/allowed_ip.rs:49-78 | nesting keeps the parent's type and flags, keeps its earlier children in order and appends the new child last |
| NlAttr.NestLen | src/linux/set/allowed_ip.rs:49-78 | nesting grows the parent's length by the child's 4-byte-aligned length |
| NlAttr.FindFirst | src/linux/socket/list_device_names_utils.rs:49-53 | a lookup finds something iff some element matches, and what it finds is the first match |
| AllowedIps.FromIpAddr | src/linux/set/allowed_ip.rs:16-21 | `from_ipaddr` keeps the address and sets no explicit mask |
| AllowedIps.Family | src/linux/set/allowed_ip.rs:28-31 | the family is AF_INET iff the address is IPv4, and AF_INET6 iff it is IPv6 |
| AllowedIps.Octets | src/linux/set/allowed_ip.rs:32-35 | the address payload is 4 octets for IPv4 and 16 for IPv6 |
| AllowedIps.FullWidth | src/linux/set/allowed_ip.rs:36-39 | the default prefix length is the address's bit width: 32 or 128 |
| AllowedIps.EffectiveMask | src/linux/set/allowed_ip.rs:36-39 | an explicit mask is used as given, with no range check; otherwise the full width is used |
| AllowedIps.Encode | src/linux/set/allowed_ip.rs:27-81 | the result has the nested bit set and kind Unspec, and its wire type is exactly NLA_F_NESTED (no network-order bit); it has exactly three children in this order: Family (2-byte family), IpAddr (the octets), CidrMask (1-byte effective mask) |
| AllowedIps.DecodeEncode | src/linux/set/allowed_ip.rs:27-81 | a reader that looks up the three children by type recovers the address and the effective mask |
| AllowedIps.FromIpAddrFullWidth | src/linux/set/allowed_ip.rs:16-39 | an address from `from_ipaddr` encodes exactly like one with an explicit full-width mask, and decodes with mask 32 or 128 |
| AllowedIps.EncodeLen | src/linux/set/allowed_ip.rs:41-78 | the encoding's `nla_len` is 28 bytes for IPv4 and 40 for IPv6 |
| Interface.FromIndex | src/linux/interface.rs:17-19 | `from_index` gives the Index variant holding the given index |
| Interface.FromName | src/linux/interface.rs:21-23 | `from_name` gives the Name variant holding the given name |
| Interface.Encode | src/linux/interface.rs:29-49 | an index becomes an Ifindex attribute holding the 4-byte index; a name becomes an Ifname attribute holding the name; neither flag is set, so the wire type is the bare tag |
| Interface.DecodeEncode | src/linux/interface.rs:29-49 | the attribute identifies the interface it was built from |
| Interface.TagDeterminesVariant | src/linux/interface.rs:30-47 | two encodings have the same tag iff they come from the same variant |
| Interface.FromConstructorsEncode | src/linux/interface.rs:17-23 | `from_index` and `from_name` build the Index and Name variants, and those encode to the index bytes and the name |
| LinkMessage.CreateRtattr | src/linux/socket/link_message.rs:23-33 | type and payload are unchanged; `rta_len` is congruent to payload size + 4 modulo 2^16, and equal to it when that is below 2^16 |
| LinkMessage.InfoKindAttr | src/linux/socket/link_message.rs:42-48 | the inner attribute has type IFLA_INFO_KIND with no flag bit on the wire, holds the bytes of WG_GENL_NAME, and is 13 bytes long |
| LinkMessage.Link | src/linux/socket/link_message.rs:35-91 | Add is Newlink with {Request, Ack, Create, Excl} and Delete is Dellink with {Request, Ack}; the ifinfomsg has family AF_UNSPEC, type 0, index 0, no flags and change {Up}; it has exactly two rtattrs, Ifname (the name) then Linkinfo (the bare kind string, which is the inner kind attribute's payload) |
| LinkMessage.AddDeleteSamePayload | src/linux/socket/link_message.rs:74-82 | create and delete requests carry the same ifinfomsg and differ in type; delete's flags are a strict subset of create's |
| LinkMessage.LinkLengths | src/linux/socket/link_message.rs:39-51 | for names shorter than 65532 bytes, the Ifname `rta_len` is the name length + 4 and the Linkinfo `rta_len` is 13; the Linkinfo payload is 4 bytes shorter than the inner kind attribute |
| ListDeviceNamesUtils.ListRequest | src/linux/socket/list_device_names_utils.rs:10-32 | the list request is a Getlink with {Request, Ack, Dump}, family AF_UNSPEC, index 0, empty flags and change mask, and no attributes |
| ListDeviceNamesUtils.ParseIfinfomsg | src/linux/socket/list_device_names_utils.rs:39-61 | no payload gives Unknown, and only then; the name is the first Ifname read as a string (absent when missing or unreadable, never an error); no readable Linkinfo nest gives not-WireGuard; a nest without a readable Kind fails; with a Kind, the record is WireGuard iff the kind equals WG_GENL_NAME |
| ListDeviceNamesUtils.ParseNamesWireGuardLink | src/linux/socket/list_device_names_utils.rs:39-61 | the classifier reports a named WireGuard link exactly when the first Ifname reads as that name and the first Linkinfo nest's first Kind reads as WG_GENL_NAME |
| RouteSocket.AddDevice | src/linux/socket/route_socket.rs:32-39 | sends exactly the create request; succeeds iff the send succeeded |
| RouteSocket.DelDevice | src/linux/socket/route_socket.rs:41-48 | sends exactly the delete request; succeeds iff the send succeeded |
| RouteSocket.LinkReplyIgnored | src/linux/socket/route_socket.rs:32-48 | the reply received after create or delete does not affect the outcome |
| RouteSocket.ListFold | src/linux/socket/route_socket.rs:60-81 | a successful listing extends the names already collected |
| RouteSocket.ListDeviceNames | src/linux/socket/route_socket.rs:52-82 | sends exactly the list request; a failed send is an error; otherwise the result is the receive loop's |
| RouteSocket.ListFoldClean | src/linux/socket/route_socket.rs:60-81 | if every record before the loop's end classifies, the result is Unknown when an error message ended the loop; otherwise (done, a receive failure or the end of the stream) it is exactly the named WireGuard links before the end, in order |
| RouteSocket.ListFoldParseError | src/linux/socket/route_socket.rs:69-72 | the first record that fails to classify makes the listing fail with its error |
| RouteSocket.ListFoldStopIgnoresRest | src/linux/socket/route_socket.rs:62-65 | nothing after the message that ends the loop is examined |
| RouteSocket.LinkRecordParses | src/linux/socket/list_device_names_utils.rs:39-61 | a named link record with no kind is not WireGuard, and one whose kind is "wireguard" is |
| RouteSocket.ListExample | src/linux/socket/route_socket.rs:52-82 | listing one link without a kind and one WireGuard link, then done, yields exactly the WireGuard link's name |
| WgSocket.Connect | src/linux/socket/wg_socket.rs:33-50 | succeeds iff the family resolves and the socket opens; the socket keeps the family id and has no multicast group |
| WgSocket.ConnectMcast | src/linux/socket/wg_socket.rs:52-77 | a family failure comes first, then a group failure; on success the socket keeps the family id and `Some` of the group id |
| WgSocket.IterMcastEvents | src/linux/socket/wg_socket.rs:79-95 | fails with McastDisabledError iff there is no group id; succeeds iff there is one and joining works, with an iterator holding both ids |
| WgSocket.ConnectAndIterate | src/linux/socket/wg_socket.rs:33-95 | a socket from `connect` always gets McastDisabledError; one from `connect_mcast` gets an iterator iff joining works |
| WgSocket.ValidName | src/linux/socket/wg_socket.rs:103-105 | a name passes the filter iff it is non-empty and shorter than IFNAMSIZ (16) bytes |
| WgSocket.GetDeviceRequest | src/linux/socket/wg_socket.rs:101-133 | a name is rejected iff it is empty or at least IFNAMSIZ bytes (the `ValidName` filter), and an index never is; the request has the family id as type, {Request, Ack, Dump}, GetDevice, version 1, and one attribute: the interface encoding with the network-order flag, whose wire type is the tag plus the network-order bit exactly when that flag is given |
| WgSocket.DumpFold | src/linux/socket/wg_socket.rs:141-156 | the receive loop never reports a name or send error |
| WgSocket.GetDeviceOp | src/linux/socket/wg_socket.rs:97-157 | InvalidInterfaceName is returned iff the name is bad, and then nothing is sent; otherwise exactly the request is sent, a failed send is an error, and the result is the receive loop's |
| WgSocket.DumpFoldMerge | src/linux/socket/wg_socket.rs:141-156 | continuing the loop from a device built from some handles gives the reference outcome over those handles followed by the new ones |
| WgSocket.DumpFoldIsMerge | src/linux/socket/wg_socket.rs:141-156 | when the data messages carry payloads, the result is: AccessError if no data arrived; otherwise the first failure of building from the first handle and extending with each later one in order; otherwise AccessError if an error message ended the dump; otherwise the merged device |
| WgSocket.DumpFoldPayloadError | src/linux/socket/wg_socket.rs:141-156 | a data message without a payload, reached after earlier data messages that all carried payloads and merged cleanly, ends the dump with PayloadError and the device built so far is dropped |
| WgSocket.DumpFoldPayloadErrorFrom | src/linux/socket/wg_socket.rs:149 | the same, continuing from a device already built from some handles |
| WgSocket.DumpFoldStopIgnoresRest | src/linux/socket/wg_socket.rs:142-145 | nothing after an error, done or receive failure is examined |
| WgSocket.SetDeviceOp | src/linux/socket/wg_socket.rs:171-178 | a build failure sends nothing; otherwise success iff every send and receive works, and then every message was sent in order; on failure, exactly the messages up to and including the first failing one were sent, and the error says whether the send or the receive failed |
| WgSocket.Classify | src/linux/socket/wg_socket.rs:231-254 | a receive failure stops; a message is skipped iff it is Noop; a type other than Noop and the family id is an error; a family message with ChangedPeer or I2nHandshake is accepted, and any other command gives UnexpectedCommandError with that command; a family message without a payload stops the iteration |
| WgSocket.McastNext | src/linux/socket/wg_socket.rs:226-257 | what is left of the stream is a suffix of it, and strictly shorter whenever an item is returned |
| WgSocket.McastNextFirstNonNoop | src/linux/socket/wg_socket.rs:231-257 | `next` skips exactly the leading Noop messages; its item is decided by the first other message alone, and the stream resumes right after that message |
| WgSocket.McastNextAllNoop | src/linux/socket/wg_socket.rs:231-257 | a stream of only Noop messages gives no item and is used up |

## Left out

- Sockets. Opening them, resolving the family and multicast group, `send`,
  `recv` and `add_mcast_membership` are neli I/O. They appear only as
  parameters: success flags and the finite response stream. `RouteSocket::connect`
  only opens a socket and is not modelled.
- Byte-exact neli serialisation. Padding bytes, byte swapping and string NUL
  terminators live in neli, which is not part of this model. Lengths are
  computed abstractly from the attribute format.
- `get::Device::try_from`, `extend_device`, `parse_monitor_event` and
  `create_set_device_messages` are not part of this model. They are
  uninterpreted function parameters. Peer merging and message fragmentation
  are not specified.
- `PotentialWireGuardDeviceName::try_from`, which `list_device_names` calls, is
  not part of this model. `RouteSocket.ListDeviceNames` assumes it behaves as
  `ParseIfinfomsg`. The fold lemmas hold for any classifier of the record's payload.
- neli's deserialisation of received messages is not modelled. A record's
  attributes come with what they parse to as a string and as a nest.
- `src/linux/err/iter_mcast_events_error.rs` only holds `From` conversions.
  The error datatypes keep just the variants the modelled logic produces.
- `src/linux/socket/mod.rs` and `src/lib.rs` hold only re-exports and type
  aliases. The kernel C excerpt in a comment of `wg_socket.rs` is not code.
- Builder failures are not modelled. `NlattrBuilder::build`, `Nlattr::new` and
  `nest` return `Result`, but with every field set they do not fail on these
  inputs. The encoders and `link_message` are total functions.
- `WgCmd` numeric codes are not part of this model (`cmd.rs` is not shown).
  `UnexpectedCommandError` carries the command value, not its `u8` code.
- The text of the "unexpected netlink response type" error is not modelled.
  It is the `UnexpectedMessageType` variant.
- `NLA_NETWORK_ORDER` lives in `consts.rs`, which is not part of this model.
  It is the `networkOrder` parameter of `WgSocket.GetDeviceRequest`.
- The native byte order of `to_ne_bytes` is the `ByteOrder` parameter.
- Interface names are their UTF-8 bytes. Rust's `str::len` counts bytes, so
  the IFNAMSIZ check is the same. UTF-8 validity is not modelled.
- LinkMessage.CreateRtattr: the `c_ushort` cast truncates, and the 16-bit
  addition is modelled as wrapping, as in a release build. A debug build
  would panic instead when the truncated size is 65532 or more.
- NlAttr.Nest: the model can only nest into an empty or already nested
  payload. neli would also append a child's bytes after a non-empty raw
  payload, but no builder here does that.
