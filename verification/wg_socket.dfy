/** The WireGuard generic netlink socket: connecting, reading a device with a
    dump request, writing a device as a sequence of messages, and the
    multicast event iterator (src/linux/socket/wg_socket.rs). Sends and
    receives are parameters: whether a send succeeded, and the finite stream
    of responses a receive loop sees. The device parser, the device merger,
    the event parser and the set-message builder live elsewhere in the crate
    and are function parameters. */
module WgSocket {
  import opened Bytes
  import opened Wrappers
  import opened Netlink
  import opened NlAttr
  import opened Consts
  import Interface

  /** WireGuard generic netlink commands; the numeric codes of the
      notification commands are not part of this model. */
  datatype WgCmd = GetDevice | SetDevice | ChangedPeer | I2nHandshake | OtherCmd(code: u8)

  /** A generic netlink request: header type and flags, command, version and
      attributes. */
  datatype GenlMsg = GenlMsg(nlType: u16, flags: set<NlmF>, cmd: WgCmd, version: u8, attrs: seq<Attr>)

  /** A received generic netlink payload: the command and an attribute handle. */
  datatype Genl<H> = Genl(cmd: WgCmd, handle: H)

  type GenlResponse<H> = Response<Genl<H>>

  /** A connected socket: the resolved family id and, for a multicast
      socket, the resolved multicast group id. */
  datatype WgSocket = WgSocket(familyId: u16, mcastId: Option<u32>)

  /** The iterator over multicast events. */
  datatype McastIterator = McastIterator(familyId: u16, mcastId: u32)

  datatype ConnectError = ResolveFamilyError | ResolveMcastGroupError | SocketError

  datatype GetDeviceError<E> = InvalidInterfaceName | AccessError | GetSendError | PayloadError | ParseError(e: E)

  datatype SetDeviceError<E> = BuildError(e: E) | SetSendError | RecvError

  datatype IterMcastEventsError =
    | McastDisabledError
    | UnexpectedCommandError(cmd: WgCmd)
    | UnexpectedMessageType(nlType: NlType)
    | MembershipError

  /** `connect`: resolve the family, open the socket; no multicast group. */
  function Connect(family: Result<u16, ConnectError>, socketOk: bool): (r: Result<WgSocket, ConnectError>)
    ensures r.Success? <==> family.Success? && socketOk
    ensures family.Failure? ==> r == Failure(family.error)
    ensures r.Success? ==> r.value.familyId == family.value && r.value.mcastId.None?
  {
    match family
    case Failure(e) => Failure(e)
    case Success(id) => if socketOk then Success(WgSocket(id, None)) else Failure(SocketError)
  }

  /** `connect_mcast`: resolve the family, then the multicast group, then open
      the socket. */
  function ConnectMcast(family: Result<u16, ConnectError>, mcast: Result<u32, ConnectError>, socketOk: bool): (r: Result<WgSocket, ConnectError>)
    ensures r.Success? <==> family.Success? && mcast.Success? && socketOk
    ensures family.Failure? ==> r == Failure(family.error)
    ensures family.Success? && mcast.Failure? ==> r == Failure(mcast.error)
    ensures r.Success? ==> r.value.familyId == family.value && r.value.mcastId == Some(mcast.value)
  {
    match (family, mcast)
    case (Failure(e), _) => Failure(e)
    case (_, Failure(e)) => Failure(e)
    case (Success(id), Success(group)) => if socketOk then Success(WgSocket(id, Some(group))) else Failure(SocketError)
  }

  /** `iter_mcast_events`: only a socket with a multicast group can iterate;
      joining the group may still fail. */
  function IterMcastEvents(sock: WgSocket, membershipOk: bool): (r: Result<McastIterator, IterMcastEventsError>)
    ensures r == Failure(McastDisabledError) <==> sock.mcastId.None?
    ensures r.Success? <==> sock.mcastId.Some? && membershipOk
    ensures r.Success? ==> r.value == McastIterator(sock.familyId, sock.mcastId.value)
  {
    match sock.mcastId
    case None => Failure(McastDisabledError)
    case Some(id) => if membershipOk then Success(McastIterator(sock.familyId, id)) else Failure(MembershipError)
  }

  /** A socket from `connect` cannot iterate events; one from
      `connect_mcast` can, given it joins the group. */
  lemma ConnectAndIterate(family: Result<u16, ConnectError>, mcast: Result<u32, ConnectError>, socketOk: bool, membershipOk: bool)
    ensures Connect(family, socketOk).Success? ==>
              IterMcastEvents(Connect(family, socketOk).value, membershipOk) == Failure(McastDisabledError)
    ensures ConnectMcast(family, mcast, socketOk).Success? ==>
              IterMcastEvents(ConnectMcast(family, mcast, socketOk).value, membershipOk).Success? == membershipOk
  {
  }

  /** An interface name is accepted when it is non-empty and shorter than
      IFNAMSIZ bytes. */
  predicate ValidName(name: seq<u8>)
  {
    0 < |name| < IfNamSiz
  }

  /** The request `get_device` sends, or `None` when the name is rejected
      before anything is sent. An index is never checked. The request is a
      dump with the interface as its only attribute, which is the interface
      encoding with the network-order flag given by `networkOrder`. */
  function GetDeviceRequest(sock: WgSocket, iface: Interface.DeviceInterface, networkOrder: bool, order: ByteOrder): (r: Option<GenlMsg>)
    ensures r.None? <==> iface.Name? && (|iface.name| == 0 || |iface.name| >= IfNamSiz)
    ensures r.Some? ==> r.value.nlType == sock.familyId && r.value.flags == {Request, Ack, Dump}
    ensures r.Some? ==> r.value.cmd == GetDevice && r.value.version == WgGenlVersion
    ensures r.Some? ==> r.value.attrs == [Interface.Encode(iface, order).(networkOrder := networkOrder)]
    ensures r.Some? ==> WireType(r.value.attrs[0]) == r.value.attrs[0].tag + (if networkOrder then NlaFNetByteorder else 0)
  {
    var attr := match iface
      case Name(name) => Attr(Interface.WgDeviceIfname, false, networkOrder, Leaf(name))
      case Index(index) => Attr(Interface.WgDeviceIfindex, false, networkOrder, Leaf(U32Bytes(index, order)));
    if iface.Name? && !ValidName(iface.name) then None
    else Some(GenlMsg(sock.familyId, {Request, Ack, Dump}, GetDevice, WgGenlVersion, [attr]))
  }

  /** The `get_device` receive loop with the device built so far in `acc`:
      an error message fails with `AccessError`, done or a receive failure or
      the end of the stream stops (failing with `AccessError` if no device was
      built), and any other message must carry a payload, whose handle builds
      the device (first message) or extends it (later ones). */
  function DumpFold<H, D, E>(acc: Option<D>, s: seq<GenlResponse<H>>,
                             tryFrom: H -> Result<D, E>, extend: (D, H) -> Result<D, E>): (r: Result<D, GetDeviceError<E>>)
    ensures r.Failure? ==> !r.error.InvalidInterfaceName? && !r.error.GetSendError?
    decreases |s|
  {
    if s == [] || s[0].StreamErr? || s[0].nlType.Done? then
      (match acc case Some(d) => Success(d) case None => Failure(AccessError))
    else if s[0].nlType.Error? then Failure(AccessError)
    else match s[0].payload
      case None => Failure(PayloadError)
      case Some(g) =>
        match (match acc case None => tryFrom(g.handle) case Some(d) => extend(d, g.handle))
        case Failure(e) => Failure(ParseError(e))
        case Success(d) => DumpFold(Some(d), s[1..], tryFrom, extend)
  }

  /** `get_device`: reject a bad name before sending, send the request, then
      fold the responses. */
  function GetDeviceOp<H, D, E>(sock: WgSocket, iface: Interface.DeviceInterface, networkOrder: bool, order: ByteOrder,
                                sendOk: bool, stream: seq<GenlResponse<H>>,
                                tryFrom: H -> Result<D, E>, extend: (D, H) -> Result<D, E>): (x: Exchange<GenlMsg, Result<D, GetDeviceError<E>>>)
    ensures x.result == Failure(InvalidInterfaceName) <==> iface.Name? && !ValidName(iface.name)
    ensures x.result == Failure(InvalidInterfaceName) ==> x.sent == []
    ensures x.result != Failure(InvalidInterfaceName) ==> x.sent == [GetDeviceRequest(sock, iface, networkOrder, order).value]
    ensures x.sent != [] && !sendOk ==> x.result == Failure(GetSendError)
    ensures x.sent != [] && sendOk ==> x.result == DumpFold(None, stream, tryFrom, extend)
  {
    match GetDeviceRequest(sock, iface, networkOrder, order)
    case None => Exchange([], Failure(InvalidInterfaceName))
    case Some(req) =>
      Exchange([req], if sendOk then DumpFold(None, stream, tryFrom, extend) else Failure(GetSendError))
  }

  /** Reference: the device the handles `hs` describe, built from the first
      and extended by each later one in order; the first failure wins. */
  function Merge<H, D, E>(hs: seq<H>, tryFrom: H -> Result<D, E>, extend: (D, H) -> Result<D, E>): Result<D, E>
    requires |hs| > 0
  {
    if |hs| == 1 then tryFrom(hs[0])
    else match Merge(hs[..|hs| - 1], tryFrom, extend)
      case Failure(e) => Failure(e)
      case Success(d) => extend(d, hs[|hs| - 1])
  }

  lemma {:induction false} MergeFailurePersists<H, D, E>(hs: seq<H>, t: seq<H>, tryFrom: H -> Result<D, E>, extend: (D, H) -> Result<D, E>)
    requires |hs| > 0 && Merge(hs, tryFrom, extend).Failure?
    ensures Merge(hs + t, tryFrom, extend) == Merge(hs, tryFrom, extend)
    decreases |t|
  {
    if t == [] {
      assert hs + t == hs;
    } else {
      assert (hs + t)[..|hs + t| - 1] == hs + t[..|t| - 1];
      MergeFailurePersists(hs, t[..|t| - 1], tryFrom, extend);
    }
  }

  /** Every item is a message with a payload. */
  predicate AllCarryPayload<H>(s: seq<GenlResponse<H>>)
  {
    forall i :: 0 <= i < |s| ==> s[i].Message? && s[i].payload.Some?
  }

  /** The handles of the payloads, in order. */
  function Handles<H>(s: seq<GenlResponse<H>>): (hs: seq<H>)
    requires AllCarryPayload(s)
    ensures |hs| == |s|
  {
    if s == [] then [] else [s[0].payload.value.handle] + Handles(s[1..])
  }

  /** Reference outcome of a dump whose data messages carried the handles
      `hs`: no data is an `AccessError`; otherwise the merge's failure, else
      an `AccessError` if an error message ended the dump, else the device. */
  function DumpOutcome<H, D, E>(hs: seq<H>, endsWithError: bool,
                                tryFrom: H -> Result<D, E>, extend: (D, H) -> Result<D, E>): Result<D, GetDeviceError<E>>
  {
    if hs == [] then Failure(AccessError)
    else match Merge(hs, tryFrom, extend)
      case Failure(e) => Failure(ParseError(e))
      case Success(d) => if endsWithError then Failure(AccessError) else Success(d)
  }

  lemma {:induction false} DumpFoldMerge<H, D, E>(done: seq<H>, acc: Option<D>, s: seq<GenlResponse<H>>,
                                                  tryFrom: H -> Result<D, E>, extend: (D, H) -> Result<D, E>)
    requires done == [] <==> acc.None?
    requires done != [] ==> Merge(done, tryFrom, extend) == Success(acc.value)
    requires AllCarryPayload(s[..FirstStop(s)])
    ensures DumpFold(acc, s, tryFrom, extend)
         == DumpOutcome(done + Handles(s[..FirstStop(s)]), EndsWithError(s), tryFrom, extend)
    decreases |s|
  {
    var pre := s[..FirstStop(s)];
    if s == [] || Stops(s[0]) {
      assert pre == [] && done + Handles(pre) == done;
    } else {
      var h := s[0].payload.value.handle;
      var t := s[1..];
      assert FirstStop(s) == 1 + FirstStop(t);
      assert pre[0] == s[0] && pre[1..] == t[..FirstStop(t)];
      assert Handles(pre) == [h] + Handles(t[..FirstStop(t)]);
      assert done + Handles(pre) == (done + [h]) + Handles(t[..FirstStop(t)]);
      assert (done + [h])[..|done + [h]| - 1] == done;
      var step := Merge(done + [h], tryFrom, extend);
      if step.Failure? {
        MergeFailurePersists(done + [h], Handles(t[..FirstStop(t)]), tryFrom, extend);
      } else {
        assert EndsWithError(s) == EndsWithError(t);
        DumpFoldMerge(done + [h], Some(step.value), t, tryFrom, extend);
      }
    }
  }

  /** The dump loop computes the reference outcome: the first data message
      builds the device, the later ones extend it in delivery order, and the
      loop answers `AccessError` when no data arrived or an error message
      ended it. */
  lemma DumpFoldIsMerge<H, D, E>(s: seq<GenlResponse<H>>, tryFrom: H -> Result<D, E>, extend: (D, H) -> Result<D, E>)
    requires AllCarryPayload(s[..FirstStop(s)])
    ensures DumpFold(None, s, tryFrom, extend)
         == DumpOutcome(Handles(s[..FirstStop(s)]), EndsWithError(s), tryFrom, extend)
  {
    DumpFoldMerge([], None, s, tryFrom, extend);
    assert [] + Handles(s[..FirstStop(s)]) == Handles(s[..FirstStop(s)]);
  }

  /** A data message without a payload fails the dump with `PayloadError`
      once the earlier data messages, starting from the device in `acc`
      (whose handles were `done`), have merged cleanly; whatever device was
      built so far is dropped. */
  lemma {:induction false} DumpFoldPayloadErrorFrom<H, D, E>(done: seq<H>, acc: Option<D>, s: seq<GenlResponse<H>>, j: nat,
                                                             tryFrom: H -> Result<D, E>, extend: (D, H) -> Result<D, E>)
    requires done == [] <==> acc.None?
    requires done != [] ==> Merge(done, tryFrom, extend) == Success(acc.value)
    requires j < FirstStop(s)
    requires AllCarryPayload(s[..j])
    requires done + Handles(s[..j]) != [] ==> Merge(done + Handles(s[..j]), tryFrom, extend).Success?
    requires s[j].Message? && s[j].payload.None?
    ensures DumpFold(acc, s, tryFrom, extend) == Failure(PayloadError)
    decreases j
  {
    assert !Stops(s[0]);
    if j > 0 {
      assert s[..j][0] == s[0];
      var h := s[0].payload.value.handle;
      var t := s[1..];
      assert FirstStop(s) == 1 + FirstStop(t);
      assert s[..j][1..] == t[..j - 1];
      assert Handles(s[..j]) == [h] + Handles(t[..j - 1]);
      assert done + Handles(s[..j]) == (done + [h]) + Handles(t[..j - 1]);
      assert (done + [h])[..|done + [h]| - 1] == done;
      var step := Merge(done + [h], tryFrom, extend);
      if step.Failure? {
        MergeFailurePersists(done + [h], Handles(t[..j - 1]), tryFrom, extend);
        assert false;
      }
      DumpFoldPayloadErrorFrom(done + [h], Some(step.value), t, j - 1, tryFrom, extend);
    }
  }

  /** `get_device` answers `PayloadError` at the first data message without a
      payload, provided every earlier data message carried one and they
      merged into a device: the `get_payload()?` failure discards that
      device. */
  lemma DumpFoldPayloadError<H, D, E>(s: seq<GenlResponse<H>>, j: nat, tryFrom: H -> Result<D, E>, extend: (D, H) -> Result<D, E>)
    requires j < FirstStop(s)
    requires AllCarryPayload(s[..j])
    requires j > 0 ==> Merge(Handles(s[..j]), tryFrom, extend).Success?
    requires s[j].Message? && s[j].payload.None?
    ensures DumpFold(None, s, tryFrom, extend) == Failure(PayloadError)
  {
    assert [] + Handles(s[..j]) == Handles(s[..j]);
    DumpFoldPayloadErrorFrom([], None, s, j, tryFrom, extend);
  }

  /** Nothing after the message that ends the dump is examined. */
  lemma {:induction false} DumpFoldStopIgnoresRest<H, D, E>(acc: Option<D>, s: seq<GenlResponse<H>>, t: seq<GenlResponse<H>>,
                                                            tryFrom: H -> Result<D, E>, extend: (D, H) -> Result<D, E>)
    requires FirstStop(s) < |s|
    ensures DumpFold(acc, s + t, tryFrom, extend) == DumpFold(acc, s, tryFrom, extend)
    decreases |s|
  {
    if !Stops(s[0]) {
      assert (s + t)[1..] == s[1..] + t;
      assert FirstStop(s) == 1 + FirstStop(s[1..]);
      if s[0].payload.Some? {
        var h := s[0].payload.value.handle;
        var step := match acc case None => tryFrom(h) case Some(d) => extend(d, h);
        if step.Success? {
          DumpFoldStopIgnoresRest(Some(step.value), s[1..], t, tryFrom, extend);
        }
      }
    }
  }

  /** Position of the first message whose send or receive failed, or the
      number of messages if none did. */
  function FirstFailure(sendOk: seq<bool>, recvOk: seq<bool>): (k: nat)
    requires |sendOk| == |recvOk|
    ensures k <= |sendOk|
    ensures forall i :: 0 <= i < k ==> sendOk[i] && recvOk[i]
    ensures k < |sendOk| ==> !(sendOk[k] && recvOk[k])
  {
    if sendOk == [] then 0
    else if !(sendOk[0] && recvOk[0]) then 0
    else
      var k := 1 + FirstFailure(sendOk[1..], recvOk[1..]);
      assert forall i :: 1 <= i < |sendOk| ==> sendOk[i] == sendOk[1..][i - 1] && recvOk[i] == recvOk[1..][i - 1];
      k
  }

  /** `set_device`: build the messages, then send each in order and wait for
      one receive after it, stopping at the first failure. `sendOk[i]` and
      `recvOk[i]` say how the send of message `i` and the receive after it
      went; `sent` lists the messages handed to the socket. */
  method SetDeviceOp<M, E>(create: Result<seq<M>, E>, sendOk: seq<bool>, recvOk: seq<bool>)
    returns (sent: seq<M>, r: Result<(), SetDeviceError<E>>)
    requires create.Success? ==> |sendOk| == |create.value| && |recvOk| == |create.value|
    ensures create.Failure? ==> sent == [] && r == Failure(BuildError(create.error))
    ensures create.Success? ==> (r.Success? <==> forall i :: 0 <= i < |create.value| ==> sendOk[i] && recvOk[i])
    ensures create.Success? && r.Success? ==> sent == create.value
    ensures create.Success? && r.Failure? ==>
              var k := FirstFailure(sendOk, recvOk);
              && sent == create.value[..k + 1]
              && r.error == (if sendOk[k] then RecvError else SetSendError)
  {
    if create.Failure? {
      return [], Failure(BuildError(create.error));
    }
    var msgs := create.value;
    sent := [];
    var i := 0;
    while i < |msgs|
      invariant 0 <= i <= |msgs|
      invariant sent == msgs[..i]
      invariant forall j :: 0 <= j < i ==> sendOk[j] && recvOk[j]
    {
      sent := sent + [msgs[i]];
      if !sendOk[i] {
        return sent, Failure(SetSendError);
      }
      if !recvOk[i] {
        return sent, Failure(RecvError);
      }
      i := i + 1;
    }
    return sent, Success(());
  }

  /** What the multicast iterator does with one message. */
  datatype McastStep<H> = Skip | Accept(handle: H) | Reject(error: IterMcastEventsError) | Stop

  /** One message's fate in `WgMcastEventIterator::next`: a receive failure
      stops the iteration; a Noop is skipped; a message of the family carries
      a command, which must be ChangedPeer or I2nHandshake (a family message
      without a payload stops the iteration); any other type is an error. */
  function Classify<H>(it: McastIterator, m: GenlResponse<H>): (c: McastStep<H>)
    ensures m.StreamErr? ==> c.Stop?
    ensures c.Skip? <==> m.Message? && m.nlType.Noop?
    ensures m.Message? && m.nlType != Unrecognized(it.familyId) && !m.nlType.Noop? ==> c == Reject(UnexpectedMessageType(m.nlType))
    ensures m.Message? && m.nlType == Unrecognized(it.familyId) && m.payload.Some? ==>
              var cmd := m.payload.value.cmd;
              if cmd == ChangedPeer || cmd == I2nHandshake then c == Accept(m.payload.value.handle)
              else c == Reject(UnexpectedCommandError(cmd))
    ensures m.Message? && m.nlType == Unrecognized(it.familyId) && m.payload.None? ==> c.Stop?
  {
    match m
    case StreamErr => Stop
    case Message(t, payload) =>
      if t == Unrecognized(it.familyId) then
        match payload
        case None => Stop
        case Some(Genl(cmd, h)) =>
          if cmd == ChangedPeer || cmd == I2nHandshake then Accept(h)
          else Reject(UnexpectedCommandError(cmd))
      else if t.Noop? then Skip
      else Reject(UnexpectedMessageType(t))
  }

  /** `WgMcastEventIterator::next` over the stream `s`, with the event parser
      `parse`: returns the item and the part of the stream left for the next
      call. */
  function McastNext<H, Ev>(it: McastIterator, s: seq<GenlResponse<H>>, parse: H -> Result<Ev, IterMcastEventsError>)
    : (r: (Option<Result<Ev, IterMcastEventsError>>, seq<GenlResponse<H>>))
    ensures |r.1| <= |s| && r.1 == s[|s| - |r.1|..]
    ensures r.0.Some? ==> |r.1| < |s|
    decreases |s|
  {
    if s == [] then (None, [])
    else match Classify(it, s[0])
      case Skip => McastNext(it, s[1..], parse)
      case Stop => (None, s[1..])
      case Reject(e) => (Some(Failure(e)), s[1..])
      case Accept(h) => (Some(parse(h)), s[1..])
  }

  /** The item a non-skipped message produces. */
  function Item<H, Ev>(c: McastStep<H>, parse: H -> Result<Ev, IterMcastEventsError>): Option<Result<Ev, IterMcastEventsError>>
  {
    match c
    case Accept(h) => Some(parse(h))
    case Reject(e) => Some(Failure(e))
    case _ => None
  }

  /** `next` skips exactly the leading Noop messages and consumes exactly one
      more: its item is decided by that message alone, and the iterator
      resumes right after it, so an unexpected command does not end the
      iteration. */
  lemma {:induction false} McastNextFirstNonNoop<H, Ev>(it: McastIterator, s: seq<GenlResponse<H>>,
                                                        parse: H -> Result<Ev, IterMcastEventsError>, k: nat)
    requires k < |s|
    requires forall i :: 0 <= i < k ==> s[i].Message? && s[i].nlType.Noop?
    requires !(s[k].Message? && s[k].nlType.Noop?)
    ensures McastNext(it, s, parse) == (Item(Classify(it, s[k]), parse), s[k + 1..])
    decreases k
  {
    if k > 0 {
      McastNextFirstNonNoop(it, s[1..], parse, k - 1);
      assert s[1..][k..] == s[k + 1..];
    }
  }

  /** A stream of nothing but Noop messages ends the iteration and is used up. */
  lemma {:induction false} McastNextAllNoop<H, Ev>(it: McastIterator, s: seq<GenlResponse<H>>,
                                                   parse: H -> Result<Ev, IterMcastEventsError>)
    requires forall i :: 0 <= i < |s| ==> s[i].Message? && s[i].nlType.Noop?
    ensures McastNext(it, s, parse) == (None, [])
    decreases |s|
  {
    if s != [] {
      McastNextAllNoop(it, s[1..], parse);
    }
  }
}
