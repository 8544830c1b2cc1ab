/** The `Socket` class of pyi3/pyi3.py with its I/O taken out: the frame it
    writes for a request, the frame it reads back from a byte stream, the
    classification of a type tag, and the request that `__getattr__` builds
    from an attribute name. */
module Socket {
  import opened LittleEndian
  import opened Ipc

  /** `magicString`, b'i3-ipc'. */
  const Magic: seq<Byte> := [0x69, 0x33, 0x2d, 0x69, 0x70, 0x63]

  /** `headerLen`: struct.calcsize('=6sLL') is the magic plus two 4-byte fields, no padding. */
  const HeaderLen: nat := |Magic| + 4 + 4

  /** Bit 31 of a type tag, the event flag. */
  const EventFlag: nat := 0x8000_0000

  /** The byte of an ASCII space, the separator `__getattr__` puts after a command name. */
  const Space: Byte := 0x20

  function Min(a: nat, b: nat): nat
  {
    if a <= b then a else b
  }

  predicate FitsU32(v: int)
  {
    0 <= v < 0x1_0000_0000
  }

  /** struct.pack('=6sLL', magicString, size, tag): struct.error unless both
      integers are unsigned 32-bit values. */
  function PackHeader(size: int, tag: int): (r: Result<seq<Byte>>)
    ensures r.Ok? <==> FitsU32(size) && FitsU32(tag)
    ensures r.Ok? ==> |r.value| == HeaderLen && r.value[..|Magic|] == Magic
  {
    if FitsU32(size) && FitsU32(tag) then Ok(Magic + U32ToLE(size) + U32ToLE(tag))
    else Err(StructError)
  }

  /** struct.unpack('=6sLL', header): struct.error unless the header has
      exactly HeaderLen bytes. The magic field is dropped without being
      compared to magicString. */
  function UnpackHeader(header: seq<Byte>): (r: Result<(U32, U32)>)
    ensures r.Ok? <==> |header| == HeaderLen
  {
    if |header| != HeaderLen then Err(StructError)
    else Ok((U32FromLE(header[6..10]), U32FromLE(header[10..14])))
  }

  /** `_send`: the bytes handed to sendall, the header followed by the message. */
  function Send(msgType: int, msg: seq<Byte>): (r: Result<seq<Byte>>)
    ensures r.Ok? <==> FitsU32(|msg|) && FitsU32(msgType)
    ensures r.Ok? ==> |r.value| == HeaderLen + |msg| && r.value[HeaderLen..] == msg
  {
    var header :- PackHeader(|msg|, msgType);
    Ok(header + msg)
  }

  /** `socket.recv(n)` over the bytes still waiting in the stream: at most n
      of them, and what is left. */
  function Recv(stream: seq<Byte>, n: nat): (r: (seq<Byte>, seq<Byte>))
    ensures r.0 + r.1 == stream
    ensures |r.0| == if n <= |stream| then n else |stream|
  {
    if n <= |stream| then (stream[..n], stream[n..]) else (stream, [])
  }

  /** `_receive`: one recv for the header, one for the body, returning the
      type tag, the body and the unread rest of the stream. A stream shorter
      than the header makes the unpack fail; a body shorter than the declared
      size is returned as it is. */
  function ReceiveRaw(stream: seq<Byte>): (r: Result<(U32, seq<Byte>, seq<Byte>)>)
    ensures r.Ok? <==> |stream| >= HeaderLen
    ensures r.Ok? ==> r.value.1 + r.value.2 == stream[HeaderLen..]
    ensures r.Ok? ==> r.value.0 == U32FromLE(stream[10..14])
    ensures r.Ok? ==> |r.value.1| == Min(U32FromLE(stream[6..10]), |stream| - HeaderLen)
  {
    var (header, afterHeader) := Recv(stream, HeaderLen);
    var fields :- UnpackHeader(header);
    assert header[6..10] == stream[6..10] && header[10..14] == stream[10..14];
    var (data, unread) := Recv(afterHeader, fields.0);
    Ok((fields.1, data, unread))
  }

  /** The classification in `receive`: `type_ >> 31` is the event flag (on a
      non-negative integer, division by 2^31); an event is named by
      `eventTypes[type_ & 0x7f]` (the remainder modulo 2^7), a reply by
      `msgTypes[type_]`. An index past the end of its table is an IndexError. */
  function Classify(tag: U32): (r: Result<(Kind, string)>)
    ensures r.Ok? <==> if tag >= EventFlag then tag % 0x80 < |EventTypes| else tag < |MsgTypes|
    ensures r.Ok? ==> (r.value.0 == Event <==> tag >= EventFlag)
    ensures r.Ok? && r.value.0 == Event ==> r.value.1 in EventTypes
    ensures r.Ok? && r.value.0 == Reply ==> r.value.1 in MsgTypes
  {
    var isEvent := tag / EventFlag;
    if isEvent != 0 then
      var index := tag % 0x80;
      if index < |EventTypes| then Ok((Event, EventTypes[index])) else Err(IndexError)
    else
      if tag < |MsgTypes| then Ok((Reply, MsgTypes[tag])) else Err(IndexError)
  }

  /** `receive`: read one frame and classify its tag. */
  function Receive(stream: seq<Byte>): (r: Result<(Message, seq<Byte>)>)
    ensures r.Ok? ==> |stream| >= HeaderLen && |r.value.1| <= |stream| - HeaderLen
    ensures r.Ok? ==> r.value.0.payload + r.value.1 == stream[HeaderLen..]
    ensures r.Ok? <==> ReceiveRaw(stream).Ok? && Classify(ReceiveRaw(stream).value.0).Ok?
    ensures ReceiveRaw(stream).Err? ==> r == Err(ReceiveRaw(stream).error)
    ensures ReceiveRaw(stream).Ok? ==>
      var (tag, data, unread) := ReceiveRaw(stream).value;
      match Classify(tag)
      case Err(e) => r == Err(e)
      case Ok((kind, name)) => r == Ok((Message(kind, name, data), unread))
  {
    var (tag, data, unread) :- ReceiveRaw(stream);
    var (kind, name) :- Classify(tag);
    Ok((Message(kind, name, data), unread))
  }

  /** UTF-8, the encoding `str.encode()` uses by default. */
  function Utf8Char(c: char): (bs: seq<Byte>)
    ensures 1 <= |bs| <= 4
    ensures |bs| == 1 <==> c as int < 0x80
    ensures |bs| == 1 ==> bs[0] == c as int
    ensures |bs| > 1 ==> forall k :: 0 <= k < |bs| ==> bs[k] >= 0x80
  {
    var cp := c as int;
    if cp < 0x80 then [cp]
    else if cp < 0x800 then [0xC0 + cp / 0x40, 0x80 + cp % 0x40]
    else if cp < 0x1_0000 then [0xE0 + cp / 0x1000, 0x80 + cp / 0x40 % 0x40, 0x80 + cp % 0x40]
    else [0xF0 + cp / 0x4_0000, 0x80 + cp / 0x1000 % 0x40, 0x80 + cp / 0x40 % 0x40, 0x80 + cp % 0x40]
  }

  function Utf8(s: string): (bs: seq<Byte>)
    ensures |bs| >= |s|
    ensures Space in bs ==> ' ' in s
  {
    if s == [] then [] else Utf8Char(s[0]) + Utf8(s[1..])
  }

  /** The `(msgType, prefix + msg)` pair that the function returned by
      `__getattr__(attr)` passes to `_send`: a message type name sends its
      own tag with the message unchanged; any other name becomes a command
      whose text is the name, a space and the message. */
  function RequestFor(attr: string, msg: seq<Byte>): (r: (nat, seq<Byte>))
    ensures r.0 < |MsgTypes|
    ensures attr in MsgTypes ==> MsgTypes[r.0] == attr && r.1 == msg
    ensures attr !in MsgTypes ==> MsgTypes[r.0] == "command" && r.1 == Utf8(attr) + [Space] + msg
  {
    MsgTypesMapInverts();
    if attr in MsgTypes then (MsgTypesMap[attr], msg)
    else (MsgTypesMap["command"], Utf8(attr) + [Space] + msg)
  }

  /** What one call of the function returned by `__getattr__` does: the bytes
      it writes to the socket and what `receive` then yields. If packing the
      header fails nothing is written and nothing is read. */
  datatype Exchange<T> = Exchange(sent: seq<Byte>, result: Result<T>)

  function Call(attr: string, msg: seq<Byte>, stream: seq<Byte>): (r: Exchange<(Message, seq<Byte>)>)
    ensures r.result.Err? && r.result.error == StructError && r.sent == [] <==> !FitsU32(|RequestFor(attr, msg).1|)
    ensures FitsU32(|RequestFor(attr, msg).1|) ==>
      r.sent == Send(RequestFor(attr, msg).0, RequestFor(attr, msg).1).value && r.result == Receive(stream)
  {
    var (msgType, payload) := RequestFor(attr, msg);
    match Send(msgType, payload)
    case Err(e) => Exchange([], Err(e))
    case Ok(frame) => Exchange(frame, Receive(stream))
  }

  // Properties of the frame codec

  /** A frame is the magic, the message length, the type tag and the message. */
  lemma FrameLayout(msgType: int, msg: seq<Byte>)
    requires FitsU32(|msg|) && FitsU32(msgType)
    ensures Send(msgType, msg) == Ok(Magic + U32ToLE(|msg|) + U32ToLE(msgType) + msg)
  {
  }

  /** Unpacking a header whose magic field holds any six bytes at all gives
      back the two packed integers: the magic is never checked. */
  lemma {:induction false} UnpackIgnoresMagic(magic: seq<Byte>, size: U32, tag: U32)
    requires |magic| == |Magic|
    ensures UnpackHeader(magic + U32ToLE(size) + U32ToLE(tag)) == Ok((size, tag))
  {
    var header := magic + U32ToLE(size) + U32ToLE(tag);
    assert header[6..10] == U32ToLE(size) && header[10..14] == U32ToLE(tag);
    U32RoundTrip(size, header[6..10]);
    U32RoundTrip(tag, header[10..14]);
  }

  /** Packing then unpacking a header gives back its two integers. */
  lemma HeaderRoundTrip(size: U32, tag: U32)
    ensures PackHeader(size, tag).Ok?
    ensures UnpackHeader(PackHeader(size, tag).value) == Ok((size, tag))
  {
    UnpackIgnoresMagic(Magic, size, tag);
  }

  /** Unpacking then repacking a header reproduces every byte after the magic. */
  lemma RepackHeader(header: seq<Byte>)
    requires |header| == HeaderLen
    ensures var fields := UnpackHeader(header).value;
      PackHeader(fields.0, fields.1).Ok? && PackHeader(fields.0, fields.1).value[|Magic|..] == header[|Magic|..]
  {
    U32RoundTrip(0, header[6..10]);
    U32RoundTrip(0, header[10..14]);
    assert header[|Magic|..] == header[6..10] + header[10..14];
  }

  /** Reading a frame back from a stream that starts with it gives the type
      tag and the message, and leaves the rest of the stream unread. */
  lemma FrameRoundTrip(msgType: U32, msg: seq<Byte>, rest: seq<Byte>)
    requires FitsU32(|msg|)
    ensures Send(msgType, msg).Ok?
    ensures ReceiveRaw(Send(msgType, msg).value + rest) == Ok((msgType, msg, rest))
  {
    var stream := Send(msgType, msg).value + rest;
    assert stream[..HeaderLen] == Magic + U32ToLE(|msg|) + U32ToLE(msgType);
    UnpackIgnoresMagic(Magic, |msg|, msgType);
    assert stream[HeaderLen..] == msg + rest;
    assert (msg + rest)[..|msg|] == msg;
  }

  /** Every stream of at least a header's length reads as a frame: the
      tag is the header's type field, the body is as many of the following
      bytes as the length field declares or as are waiting, whichever is
      fewer, and the rest stays unread. */
  lemma ReceiveRawAnyStream(magic: seq<Byte>, size: U32, tag: U32, s: seq<Byte>)
    requires |magic| == |Magic|
    ensures var n := Min(size, |s|);
      ReceiveRaw(magic + U32ToLE(size) + U32ToLE(tag) + s) == Ok((tag, s[..n], s[n..]))
  {
    var stream := magic + U32ToLE(size) + U32ToLE(tag) + s;
    assert stream[..HeaderLen] == magic + U32ToLE(size) + U32ToLE(tag);
    UnpackIgnoresMagic(magic, size, tag);
    assert stream[HeaderLen..] == s;
  }

  /** A stream that ends k bytes into a frame's body still reads as a frame:
      the body comes back shortened, with no error. */
  lemma TruncatedBodyAccepted(msgType: U32, msg: seq<Byte>, k: nat)
    requires FitsU32(|msg|) && k < |msg|
    ensures Send(msgType, msg).Ok?
    ensures ReceiveRaw(Send(msgType, msg).value[..HeaderLen + k]) == Ok((msgType, msg[..k], []))
  {
    var stream := Send(msgType, msg).value[..HeaderLen + k];
    assert stream[..HeaderLen] == Magic + U32ToLE(|msg|) + U32ToLE(msgType);
    UnpackIgnoresMagic(Magic, |msg|, msgType);
    assert stream[HeaderLen..] == msg[..k];
  }

  // Properties of the classification

  /** Classification by the bits of a tag: bit 31 picks the table; an event
      is named by bits 0-6 alone, whatever bits 7-30 hold; a reply is named
      by the whole tag, so any of bits 7-30 set makes it an IndexError. */
  lemma ClassifyByBits(high: nat, middle: nat, low: nat)
    requires high < 2 && middle < 0x100_0000 && low < 0x80
    ensures var tag := high * EventFlag + middle * 0x80 + low;
      FitsU32(tag) &&
      Classify(tag) ==
        if high == 1 then
          if low < |EventTypes| then Ok((Event, EventTypes[low])) else Err(IndexError)
        else
          if middle == 0 && low < |MsgTypes| then Ok((Reply, MsgTypes[low])) else Err(IndexError)
  {
    var rest := middle * 0x80 + low;
    assert rest < EventFlag;
    var tag := high * EventFlag + rest;
    assert tag / EventFlag == high;
    assert tag % 0x80 == low;
  }

  /** Two event tags with the same low seven bits classify alike. */
  lemma EventNameIgnoresMiddleBits(t1: U32, t2: U32)
    requires t1 >= EventFlag && t2 >= EventFlag && t1 % 0x80 == t2 % 0x80
    ensures Classify(t1) == Classify(t2)
  {
    ClassifyByBits(1, (t1 - EventFlag) / 0x80, t1 % 0x80);
    ClassifyByBits(1, (t2 - EventFlag) / 0x80, t2 % 0x80);
  }

  /** An event frame read off the stream is named by the low seven bits of
      its tag and carries the frame's message as its payload. */
  lemma EventFrameReceived(tag: U32, msg: seq<Byte>, rest: seq<Byte>)
    requires tag >= EventFlag && tag % 0x80 < |EventTypes| && FitsU32(|msg|)
    ensures Send(tag, msg).Ok?
    ensures Receive(Send(tag, msg).value + rest) == Ok((Message(Event, EventTypes[tag % 0x80], msg), rest))
  {
    FrameRoundTrip(tag, msg, rest);
  }

  /** A reply frame whose tag names a message type is read back under that name. */
  lemma ReplyFrameReceived(tag: nat, msg: seq<Byte>, rest: seq<Byte>)
    requires tag < |MsgTypes| && FitsU32(|msg|)
    ensures Send(tag, msg).Ok?
    ensures Receive(Send(tag, msg).value + rest) == Ok((Message(Reply, MsgTypes[tag], msg), rest))
  {
    ClassifyByBits(0, 0, tag);
    FrameRoundTrip(tag, msg, rest);
  }

  /** The window event: tag 0x80000003 is classified as the event 'window'. */
  lemma WindowEventTag()
    ensures Classify(0x8000_0003) == Ok((Event, "window"))
  {
    ClassifyByBits(1, 0, 3);
  }

  // Properties of the requests built by __getattr__

  /** The tag of every request names, as a reply tag, the attribute it was
      built from, or 'command' for a name that is not a message type. */
  lemma RequestTagNamesItsReply(attr: string, msg: seq<Byte>)
    ensures Classify(RequestFor(attr, msg).0) == Ok((Reply, if attr in MsgTypes then attr else "command"))
  {
    ClassifyByBits(0, 0, RequestFor(attr, msg).0);
  }

  /** For a name that is not a message type and has no space in it, the
      command text begins with the name as its first word: the first space
      byte follows the encoded name, and the message follows that space. */
  lemma CommandNameIsFirstWord(attr: string, msg: seq<Byte>)
    requires attr !in MsgTypes && ' ' !in attr
    ensures var payload := RequestFor(attr, msg).1;
      var n := |Utf8(attr)|;
      RequestFor(attr, msg).0 == 0 &&
      payload[..n] == Utf8(attr) && payload[n] == Space && payload[n + 1..] == msg &&
      Space !in payload[..n]
  {
    var (tag, payload) := RequestFor(attr, msg);
    var encoded := Utf8(attr);
    CommandIsTagZero(tag);
    assert payload == encoded + [Space] + msg;
    assert payload[..|encoded|] == encoded;
    assert payload[|encoded| + 1..] == msg;
  }

  /** Only the first entry of the table is named 'command'. */
  lemma CommandIsTagZero(i: nat)
    requires i < |MsgTypes| && MsgTypes[i] == "command"
    ensures i == 0
  {
    assert Distinct(MsgTypes) && MsgTypes[0] == "command";
  }

  /** The frame a call writes reads back as the request it was built from:
      the request's tag and payload, with nothing left over. */
  lemma CallSendsRequestFrame(attr: string, msg: seq<Byte>, stream: seq<Byte>)
    requires FitsU32(|RequestFor(attr, msg).1|)
    ensures var (tag, payload) := RequestFor(attr, msg);
      var frame := ReceiveRaw(Call(attr, msg, stream).sent);
      frame.Ok? && frame.value.0 == tag && frame.value.1 == payload && frame.value.2 == []
  {
    var (tag, payload) := RequestFor(attr, msg);
    FrameRoundTrip(tag, payload, []);
    assert Send(tag, payload).value + [] == Send(tag, payload).value;
  }

  /** The query for the version: the request 'get_version' with an empty
      message writes the frame with tag 7, and a reply frame with tag 7 is
      returned as the reply 'get_version' with the frame's payload. */
  lemma GetVersionExchange(payload: seq<Byte>)
    requires FitsU32(|payload|)
    ensures Send(7, []).Ok? && Send(7, payload).Ok?
    ensures Call("get_version", [], Send(7, payload).value) ==
      Exchange(Send(7, []).value, Ok((Message(Reply, "get_version", payload), [])))
  {
    MsgTypesMapInverts();
    assert RequestFor("get_version", []) == (7, []);
    ReplyFrameReceived(7, payload, []);
    assert Send(7, payload).value + [] == Send(7, payload).value;
  }
}
