/** Fixed-width integers and their byte encodings. Rust's `to_ne_bytes`
    depends on the target, so the byte order is a parameter. */
module Bytes {

  type u8 = x: int | 0 <= x < 0x100
  type u16 = x: int | 0 <= x < 0x1_0000
  type u32 = x: int | 0 <= x < 0x1_0000_0000

  datatype ByteOrder = LittleEndian | BigEndian

  /** The two bytes of `v` in the given order (`u16::to_ne_bytes`). */
  function U16Bytes(v: u16, order: ByteOrder): (r: seq<u8>)
    ensures |r| == 2
    ensures FromU16Bytes(r, order) == v
  {
    var lo: u8 := v % 0x100;
    var hi: u8 := v / 0x100;
    match order
    case LittleEndian => [lo, hi]
    case BigEndian => [hi, lo]
  }

  /** Reads a two-byte integer in the given order. */
  function FromU16Bytes(b: seq<u8>, order: ByteOrder): u16
    requires |b| == 2
  {
    match order
    case LittleEndian => (b[0] as int) + 0x100 * (b[1] as int)
    case BigEndian => (b[1] as int) + 0x100 * (b[0] as int)
  }

  /** The four bytes of `v` in the given order (`u32::to_ne_bytes`). */
  function U32Bytes(v: u32, order: ByteOrder): (r: seq<u8>)
    ensures |r| == 4
    ensures FromU32Bytes(r, order) == v
  {
    var lo := U16Bytes(v % 0x1_0000, LittleEndian);
    var hi := U16Bytes(v / 0x1_0000, LittleEndian);
    match order
    case LittleEndian => lo + hi
    case BigEndian => [hi[1], hi[0], lo[1], lo[0]]
  }

  /** Reads a four-byte integer in the given order. */
  function FromU32Bytes(b: seq<u8>, order: ByteOrder): u32
    requires |b| == 4
  {
    match order
    case LittleEndian => (b[0] as int) + 0x100 * (b[1] as int) + 0x1_0000 * (b[2] as int) + 0x100_0000 * (b[3] as int)
    case BigEndian => (b[3] as int) + 0x100 * (b[2] as int) + 0x1_0000 * (b[1] as int) + 0x100_0000 * (b[0] as int)
  }

  /** The single byte of a `u8` (`u8::to_ne_bytes`, the same in every order). */
  function U8Bytes(v: u8): (r: seq<u8>)
    ensures |r| == 1 && r[0] == v
  {
    [v]
  }

  /** The UTF-8 bytes of an ASCII string literal. */
  function AsciiBytes(s: string): (r: seq<u8>)
    requires forall i :: 0 <= i < |s| ==> s[i] as int < 0x80
    ensures |r| == |s|
    ensures forall i :: 0 <= i < |s| ==> r[i] == s[i] as int
  {
    if |s| == 0 then [] else [s[0] as int as u8] + AsciiBytes(s[1..])
  }
}
