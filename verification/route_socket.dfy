/** The route-link socket: create and delete a WireGuard interface, and list
    the WireGuard interfaces (src/linux/socket/route_socket.rs). The socket's
    send is a parameter saying whether it succeeded, and its receive stream is
    a finite sequence of responses. */
module RouteSocket {
  import opened Bytes
  import opened Wrappers
  import opened Netlink
  import opened Rtnl
  import opened LinkMessage
  import opened ListDeviceNamesUtils
  import opened Consts

  /** `LinkDeviceError`, as far as the model produces it. */
  datatype LinkDeviceError = LinkSendError

  /** A received `ifinfomsg` record: its message type and attributes. */
  type Record = Response<seq<RtAttrView>>

  /** `PotentialWireGuardDeviceName::try_from`, which the listing loop calls
      on each record; `ListDeviceNames` takes it to be `ParseIfinfomsg`. */
  type Classifier = Option<seq<RtAttrView>> -> Result<PotentialName, ListDevicesError>

  /** `add_device`: send the create request, receive the reply, and return Ok
      if the send succeeded; the reply is not inspected. */
  function AddDevice<R>(ifname: seq<u8>, sendOk: bool, reply: R): (x: Exchange<RtMsg, Result<(), LinkDeviceError>>)
    ensures x.sent == [Link(ifname, Add)]
    ensures x.result.Success? <==> sendOk
  {
    Exchange([Link(ifname, Add)], if sendOk then Success(()) else Failure(LinkSendError))
  }

  /** `del_device`: the same with the delete request. */
  function DelDevice<R>(ifname: seq<u8>, sendOk: bool, reply: R): (x: Exchange<RtMsg, Result<(), LinkDeviceError>>)
    ensures x.sent == [Link(ifname, Delete)]
    ensures x.result.Success? <==> sendOk
  {
    Exchange([Link(ifname, Delete)], if sendOk then Success(()) else Failure(LinkSendError))
  }

  /** Whatever the kernel replies, creating or deleting has the same outcome. */
  lemma LinkReplyIgnored<R>(ifname: seq<u8>, sendOk: bool, r1: R, r2: R)
    ensures AddDevice(ifname, sendOk, r1) == AddDevice(ifname, sendOk, r2)
    ensures DelDevice(ifname, sendOk, r1) == DelDevice(ifname, sendOk, r2)
  {
  }

  /** The `list_device_names` receive loop, with the names collected so far in
      `acc`: a receive failure or the end of the stream stops quietly, an error
      message fails with `Unknown`, done stops, and every other message is
      classified (its failure propagates) and contributes its name if it is a
      named WireGuard link. */
  function ListFold(classify: Classifier, acc: seq<seq<u8>>, s: seq<Record>): (r: Result<seq<seq<u8>>, ListDevicesError>)
    ensures r.Success? ==> acc <= r.value
    decreases |s|
  {
    if s == [] then Success(acc)
    else match s[0]
      case StreamErr => Success(acc)
      case Message(t, payload) =>
        if t.Error? then Failure(Unknown)
        else if t.Done? then Success(acc)
        else match classify(payload)
          case Failure(e) => Failure(e)
          case Success(PotentialName(name, isWireguard)) =>
            ListFold(classify, if isWireguard && name.Some? then acc + [name.value] else acc, s[1..])
  }

  /** `list_device_names`: send the dump request, then fold the responses. */
  function ListDeviceNames(sendOk: bool, stream: seq<Record>): (x: Exchange<RtMsg, Result<seq<seq<u8>>, ListDevicesError>>)
    ensures x.sent == [ListRequest()]
    ensures !sendOk ==> x.result == Failure(SendError)
    ensures sendOk ==> x.result == ListFold(ParseIfinfomsg, [], stream)
  {
    Exchange([ListRequest()], if sendOk then ListFold(ParseIfinfomsg, [], stream) else Failure(SendError))
  }

  /** The name a single record contributes: one name if it classifies as a
      named WireGuard link, none otherwise. */
  function Picked(classify: Classifier, r: Record): seq<seq<u8>>
  {
    if r.Message? then
      match classify(r.payload)
      case Success(PotentialName(Some(n), true)) => [n]
      case _ => []
    else []
  }

  /** Reference: the names of the named WireGuard links among `s`, in order. */
  function WireGuardNames(classify: Classifier, s: seq<Record>): seq<seq<u8>>
  {
    if s == [] then [] else Picked(classify, s[0]) + WireGuardNames(classify, s[1..])
  }

  /** One step of the loop over a record that classifies: its picked name is
      appended. */
  lemma ListFoldStep(classify: Classifier, acc: seq<seq<u8>>, s: seq<Record>)
    requires s != [] && !Stops(s[0]) && classify(s[0].payload).Success?
    ensures ListFold(classify, acc, s) == ListFold(classify, acc + Picked(classify, s[0]), s[1..])
  {
    var p := classify(s[0].payload).value;
    if p.isWireguard && p.ifname.Some? {
      assert Picked(classify, s[0]) == [p.ifname.value];
    } else {
      assert acc + Picked(classify, s[0]) == acc;
    }
  }

  lemma {:induction false} ListFoldClean(classify: Classifier, acc: seq<seq<u8>>, s: seq<Record>)
    requires forall i :: 0 <= i < FirstStop(s) ==> classify(s[i].payload).Success?
    ensures ListFold(classify, acc, s) == if EndsWithError(s) then Failure(Unknown)
                                else Success(acc + WireGuardNames(classify, s[..FirstStop(s)]))
    decreases |s|
  {
    if s == [] || Stops(s[0]) {
      assert s[..FirstStop(s)] == [];
      assert acc + [] == acc;
    } else {
      var t := s[1..];
      assert forall i :: 0 <= i < FirstStop(t) ==> t[i] == s[i + 1];
      ListFoldStep(classify, acc, s);
      ListFoldClean(classify, acc + Picked(classify, s[0]), t);
      var pre := s[..FirstStop(s)];
      assert pre[0] == s[0] && pre[1..] == t[..FirstStop(t)];
      assert WireGuardNames(classify, pre) == Picked(classify, s[0]) + WireGuardNames(classify, t[..FirstStop(t)]);
      assert acc + Picked(classify, s[0]) + WireGuardNames(classify, t[..FirstStop(t)]) == acc + WireGuardNames(classify, pre);
      assert EndsWithError(s) == EndsWithError(t);
    }
  }

  /** A record that fails to classify before the loop ends makes the whole
      listing fail with its error, if every record before it classified. */
  lemma {:induction false} ListFoldParseError(classify: Classifier, acc: seq<seq<u8>>, s: seq<Record>, j: nat)
    requires j < FirstStop(s)
    requires forall i :: 0 <= i < j ==> classify(s[i].payload).Success?
    requires classify(s[j].payload).Failure?
    ensures ListFold(classify, acc, s) == Failure(classify(s[j].payload).error)
    decreases |s|
  {
    if j > 0 {
      var t := s[1..];
      assert FirstStop(s) == 1 + FirstStop(t);
      ListFoldStep(classify, acc, s);
      ListFoldParseError(classify, acc + Picked(classify, s[0]), t, j - 1);
    }
  }

  /** Nothing after the message that ends the loop is examined. */
  lemma {:induction false} ListFoldStopIgnoresRest(classify: Classifier, acc: seq<seq<u8>>, s: seq<Record>, t: seq<Record>)
    requires FirstStop(s) < |s|
    ensures ListFold(classify, acc, s + t) == ListFold(classify, acc, s)
    decreases |s|
  {
    if !Stops(s[0]) {
      assert (s + t)[1..] == s[1..] + t;
      assert FirstStop(s) == 1 + FirstStop(s[1..]);
      if classify(s[0].payload).Success? {
        ListFoldStep(classify, acc, s);
        ListFoldStep(classify, acc, s + t);
        ListFoldStopIgnoresRest(classify, acc + Picked(classify, s[0]), s[1..], t);
      }
    }
  }

  /** A link record as the kernel reports it: its name and, optionally, its
      link kind inside a Linkinfo nest. */
  function LinkRecord(name: seq<u8>, kind: Option<seq<u8>>): Record
  {
    var nameAttr := RtAttrView(IflaIfname, Some(name), None);
    match kind
    case None => Message(Unrecognized(16), Some([nameAttr]))
    case Some(k) =>
      var kindAttr := RtAttrView(IflaInfoKind, Some(k), None);
      Message(Unrecognized(16), Some([nameAttr, RtAttrView(IflaLinkinfo, None, Some([kindAttr]))]))
  }

  /** A record without a link kind is not WireGuard; one whose kind is
      "wireguard" is. */
  lemma LinkRecordParses(name: seq<u8>, kind: Option<seq<u8>>)
    ensures ParseIfinfomsg(LinkRecord(name, kind).payload)
         == Success(PotentialName(Some(name), kind == Some(WgGenlName())))
  {
    var nameAttr := RtAttrView(IflaIfname, Some(name), None);
    if kind.Some? {
      var kindAttr := RtAttrView(IflaInfoKind, Some(kind.value), None);
      var attrs := [nameAttr, RtAttrView(IflaLinkinfo, None, Some([kindAttr]))];
      assert Find(attrs, IflaIfname) == Some(nameAttr);
      assert Find(attrs, IflaLinkinfo) == Some(attrs[1]);
      assert Find([kindAttr], IflaInfoKind) == Some(kindAttr);
    } else {
      assert Find([nameAttr], IflaIfname) == Some(nameAttr);
      assert Find([nameAttr], IflaLinkinfo) == None;
    }
  }

  /** Listing a system with an interface of no link kind (say "eth0") and a
      WireGuard interface (say "wgtest0") yields exactly the WireGuard one. */
  lemma ListExample(other: seq<u8>, wg: seq<u8>)
    ensures ListDeviceNames(true, [LinkRecord(other, None), LinkRecord(wg, Some(WgGenlName())),
                                   Message(Done, None)]).result
         == Success([wg])
  {
    var s := [LinkRecord(other, None), LinkRecord(wg, Some(WgGenlName())), Message(Done, None)];
    LinkRecordParses(other, None);
    LinkRecordParses(wg, Some(WgGenlName()));
    var none: seq<seq<u8>> := [];
    ListFoldStep(ParseIfinfomsg, none, s);
    assert none + Picked(ParseIfinfomsg, s[0]) == none;
    ListFoldStep(ParseIfinfomsg, none, s[1..]);
    assert none + Picked(ParseIfinfomsg, s[1]) == [wg];
    assert s[1..][1..] == [Message(Done, None)];
    assert ListFold(ParseIfinfomsg, [wg], [Message(Done, None)]) == Success([wg]);
    assert ListFold(ParseIfinfomsg, none, s) == Success([wg]);
  }
}
