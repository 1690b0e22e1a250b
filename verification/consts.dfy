/** WireGuard and platform constants the core depends on. */
module Consts {
  import opened Bytes

  /** WG_GENL_NAME: the generic netlink family name, which is also the link
      kind of WireGuard interfaces. */
  function WgGenlName(): (r: seq<u8>)
    ensures |r| == 9
  {
    AsciiBytes("wireguard")
  }

  /** WG_GENL_VERSION. */
  const WgGenlVersion: u8 := 1

  /** IFNAMSIZ: interface names are shorter than this, in bytes. */
  const IfNamSiz: nat := 16
}
