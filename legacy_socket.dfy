/** The `Socket.__getattr__` of the older snapshot, pyi3.py. Its frame codec
    and `receive` are the same as in pyi3/pyi3.py and are modelled once, in
    module Socket; only attribute access differs. */
module LegacySocket {
  import opened LittleEndian
  import opened Ipc
  import opened Socket

  /** The `(msgType, msg)` pair the returned function sends: only a message
      type name is an attribute; any other name raises AttributeError when it
      is looked up, before anything is sent. */
  function RequestFor(attr: string, msg: seq<Byte>): (r: Result<(nat, seq<Byte>)>)
    ensures r.Ok? <==> attr in MsgTypes
    ensures r.Ok? ==> r.value.0 < |MsgTypes| && MsgTypes[r.value.0] == attr && r.value.1 == msg
    ensures r.Err? ==> r.error == AttributeError(attr)
  {
    MsgTypesMapInverts();
    if attr in MsgTypes then Ok((MsgTypesMap[attr], msg)) else Err(AttributeError(attr))
  }

  /** `getattr(socket, attr)(msg)`: the returned function sends the request
      and returns `_receive()`, the raw type tag and body, not the classified
      triple of `receive`. */
  function Call(attr: string, msg: seq<Byte>, stream: seq<Byte>): (r: Result<Exchange<(U32, seq<Byte>, seq<Byte>)>>)
    ensures r.Err? <==> attr !in MsgTypes
    ensures r.Err? ==> r.error == AttributeError(attr)
    ensures r.Ok? && !FitsU32(|msg|) ==> r.value == Exchange([], Err(StructError))
    ensures r.Ok? && FitsU32(|msg|) ==>
      r.value.sent == Send(RequestFor(attr, msg).value.0, msg).value && r.value.result == ReceiveRaw(stream)
  {
    var (msgType, payload) :- RequestFor(attr, msg);
    match Send(msgType, payload)
    case Err(e) => Ok(Exchange([], Err(e)))
    case Ok(frame) => Ok(Exchange(frame, ReceiveRaw(stream)))
  }

  /** Whatever frame comes back, the call returns its tag and body as read:
      an event frame, or a tag past the end of both tables, is not classified
      and raises no IndexError. */
  lemma CallReturnsRawFrame(attr: string, msg: seq<Byte>, tag: U32, payload: seq<Byte>, rest: seq<Byte>)
    requires attr in MsgTypes && FitsU32(|msg|) && FitsU32(|payload|)
    ensures Send(tag, payload).Ok?
    ensures var r := Call(attr, msg, Send(tag, payload).value + rest);
      r.Ok? && r.value.sent != [] && r.value.result == Ok((tag, payload, rest))
  {
    FrameRoundTrip(tag, payload, rest);
  }

  /** Where both snapshots accept a name they build the same request; the
      older one refuses exactly the names the newer one turns into commands. */
  lemma AgreesWithPackage(attr: string, msg: seq<Byte>)
    ensures RequestFor(attr, msg).Ok? ==> RequestFor(attr, msg).value == Socket.RequestFor(attr, msg)
    ensures RequestFor(attr, msg).Err? <==> MsgTypes[Socket.RequestFor(attr, msg).0] == "command" && attr != "command"
  {
    MsgTypesMapInverts();
  }
}
