/** Netlink message headers and the abstract response stream a socket yields. */
module Netlink {
  import opened Wrappers

  /** Message header flags (NLM_F_*) used by the core. */
  datatype NlmF = Request | Ack | Create | Excl | Dump

  /** The `nlmsg_type` of a received message: the four control types, or any
      other number (a generic netlink family id, an rtnetlink message type). */
  datatype NlType = Noop | Error | Done | Overrun | Unrecognized(value: int)

  /** One item of a receive stream: a message with its type and its payload,
      which may be absent, or a failure to receive or deserialise one. */
  datatype Response<P> = Message(nlType: NlType, payload: Option<P>) | StreamErr

  /** What an operation handed to the transport, and what it returned. */
  datatype Exchange<M, T> = Exchange(sent: seq<M>, result: T)

  /** Items that end a dump loop: a receive failure, an error message or the
      done marker. */
  predicate Stops<P>(r: Response<P>)
  {
    r.StreamErr? || r.nlType.Error? || r.nlType.Done?
  }

  /** Position of the first item that ends a dump loop, or `|s|` if none does. */
  function FirstStop<P>(s: seq<Response<P>>): (k: nat)
    ensures k <= |s|
    ensures forall i :: 0 <= i < k ==> !Stops(s[i])
    ensures k < |s| ==> Stops(s[k])
  {
    if s == [] then 0
    else if Stops(s[0]) then 0
    else
      var k := 1 + FirstStop(s[1..]);
      assert forall i :: 1 <= i < |s| ==> s[i] == s[1..][i - 1];
      k
  }

  /** Whether the loop was ended by an error message. */
  predicate EndsWithError<P>(s: seq<Response<P>>)
  {
    FirstStop(s) < |s| && s[FirstStop(s)].Message? && s[FirstStop(s)].nlType.Error?
  }
}
