/** The netlink attribute: a length-prefixed, tagged TLV whose payload is either
    raw bytes or a list of child attributes (the attribute format of section
    2.3.2 of RFC 3549). Serialisation is kept abstract; the lengths are not. */
module NlAttr {
  import opened Bytes
  import opened Wrappers

  /** Size of the `nla_len`/`nla_type` header. */
  const NlaHdrLen: nat := 4
  /** Attributes start on 4-byte boundaries (NLA_ALIGNTO). */
  const NlaAlignTo: nat := 4
  /** Type bit marking a payload of nested attributes. */
  const NlaFNested: u16 := 0x8000
  /** Type bit marking a payload in network byte order. */
  const NlaFNetByteorder: u16 := 0x4000

  /** `tag` is the type number the builder was given; `nested` and
      `networkOrder` are the builder's separate flag fields. */
  datatype Attr = Attr(tag: u16, nested: bool, networkOrder: bool, payload: Payload)

  datatype Payload = Leaf(bytes: seq<u8>) | Children(attrs: seq<Attr>)

  /** A leaf attribute with neither flag set, as `NlattrBuilder::default()` makes. */
  function Plain(tag: u16, bytes: seq<u8>): Attr
  {
    Attr(tag, false, false, Leaf(bytes))
  }

  /** Rounds a length up to the attribute alignment. */
  function NlaAlign(n: nat): (r: nat)
    ensures r % NlaAlignTo == 0
    ensures n <= r < n + NlaAlignTo
  {
    (n + NlaAlignTo - 1) / NlaAlignTo * NlaAlignTo
  }

  /** The `nla_len` of an attribute: header plus payload, where nested
      children each take their aligned length. */
  function Len(a: Attr): nat
    decreases a
  {
    NlaHdrLen + match a.payload
      case Leaf(b) => |b|
      case Children(cs) => ChildrenLen(cs)
  }

  /** Sum of the aligned lengths of the attributes `cs`. */
  function ChildrenLen(cs: seq<Attr>): nat
    decreases cs
  {
    if cs == [] then 0
    else ChildrenLen(cs[..|cs| - 1]) + NlaAlign(Len(cs[|cs| - 1]))
  }

  /** Whether the nested bit is set on the wire: by the flag field, or because
      the caller OR-ed NLA_F_NESTED into the type number itself. */
  predicate NestedBit(a: Attr)
  {
    a.nested || a.tag >= NlaFNested
  }

  /** Whether the network-byte-order bit is set on the wire. */
  predicate NetworkOrderBit(a: Attr)
  {
    a.networkOrder || (a.tag / NlaFNetByteorder) % 2 == 1
  }

  /** The attribute kind with both flag bits masked off (NLA_TYPE_MASK). */
  function Kind(a: Attr): (k: u16)
    ensures k < NlaFNetByteorder
  {
    a.tag % NlaFNetByteorder
  }

  /** The `nla_type` field on the wire: kind plus flag bits. */
  function WireType(a: Attr): (t: u16)
    ensures t % NlaFNetByteorder == Kind(a)
    ensures (t >= NlaFNested) <==> NestedBit(a)
    ensures ((t / NlaFNetByteorder) % 2 == 1) <==> NetworkOrderBit(a)
  {
    Kind(a)
      + (if NestedBit(a) then NlaFNested else 0)
      + (if NetworkOrderBit(a) then NlaFNetByteorder else 0)
  }

  /** `nest`: appends `child` to the payload of `parent`. An empty raw payload
      counts as an empty list of children. */
  function Nest(parent: Attr, child: Attr): (r: Attr)
    requires parent.payload.Children? || parent.payload == Leaf([])
    ensures r.tag == parent.tag && r.nested == parent.nested
    ensures r.networkOrder == parent.networkOrder
    ensures r.payload.Children?
    ensures |r.payload.attrs| == |Kids(parent)| + 1
    ensures r.payload.attrs[..|Kids(parent)|] == Kids(parent)
    ensures r.payload.attrs[|Kids(parent)|] == child
  {
    var kids := Kids(parent) + [child];
    assert kids[..|Kids(parent)|] == Kids(parent);
    Attr(parent.tag, parent.nested, parent.networkOrder, Children(kids))
  }

  /** Nesting recomputes the parent's length: it grows by the child's
      aligned length. */
  lemma NestLen(parent: Attr, child: Attr)
    requires parent.payload.Children? || parent.payload == Leaf([])
    ensures Len(Nest(parent, child)) == Len(parent) + NlaAlign(Len(child))
  {
    var r := Nest(parent, child);
    var kids := r.payload.attrs;
    assert kids[..|kids| - 1] == Kids(parent);
    assert Len(r) == NlaHdrLen + ChildrenLen(kids);
    assert ChildrenLen(kids) == ChildrenLen(Kids(parent)) + NlaAlign(Len(child));
    if parent.payload.Leaf? {
      assert Len(parent) == NlaHdrLen;
    }
  }

  /** The children of an attribute, empty for a leaf. */
  function Kids(a: Attr): seq<Attr>
  {
    if a.payload.Children? then a.payload.attrs else []
  }


  /** The first element of `xs` that `matches` accepts; attribute handles
      look attributes up this way, so a repeated tag yields its first
      occurrence. */
  function FindFirst<A>(xs: seq<A>, matches: A -> bool): (r: Option<A>)
    ensures r.Some? <==> exists i :: 0 <= i < |xs| && matches(xs[i])
    ensures r.Some? ==> exists i :: 0 <= i < |xs| && xs[i] == r.value && matches(xs[i])
                                   && forall j :: 0 <= j < i ==> !matches(xs[j])
  {
    if xs == [] then None
    else if matches(xs[0]) then Some(xs[0])
    else
      var r := FindFirst(xs[1..], matches);
      assert forall i :: 1 <= i < |xs| ==> xs[i] == xs[1..][i - 1];
      r
  }

  /** The first attribute of `cs` with the given type number. */
  function Lookup(cs: seq<Attr>, tag: u16): Option<Attr>
  {
    FindFirst(cs, (c: Attr) => c.tag == tag)
  }
}
