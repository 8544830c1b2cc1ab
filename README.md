# pyi3 IPC client: frame codec, tag classification, requests and event routing

This project models the client side of the i3 window manager's IPC protocol
as the Python module pyi3 implements it, in its two snapshots
(`pyi3/pyi3.py`, the package, and `pyi3.py`, the older single file).

- **Frame codec** (`Socket._send`, `Socket._receive`). A frame is the 6-byte
  magic `i3-ipc`, the payload length and the type tag as unsigned 32-bit
  fields packed with `=6sLL` (14 bytes, no padding), then the payload. `=`
  means the host's byte order; the model fixes it to little-endian.
  `struct.pack` fails unless both integers fit in 32 unsigned bits.
  `struct.unpack` fails unless the header has exactly 14 bytes, and it throws
  the magic away without checking it. `recv` is modelled over the bytes the
  socket would deliver. Neither recv is repeated: a body shorter than its
  declared length comes back short, with no error.
- **Tag classification** (`Socket.receive`). Bit 31 of the tag (`tag >> 31`)
  marks an event. An event is named by `eventTypes[tag & 0x7f]`, so bits 7-30
  play no part. A reply is named by `msgTypes[tag]`. An index past the end of
  its table raises IndexError. On the non-negative tags that unpack yields,
  `>> 31` is division by 2^31 and `& 0x7f` is the remainder modulo 2^7, and
  the model writes them that way.
- **Requests** (`Socket.__getattr__`). In the package, a message type name
  sends its own tag with the message unchanged. Any other name is sent as a
  `command` whose text is the UTF-8 name, a space, then the message. The older
  snapshot raises AttributeError for any other name. Its function also returns
  the raw `(tag, body)` from `_receive`, where the package returns the
  classified triple from `receive`.
- **Routing and draining** (`EventHandler._read_socket`,
  `EventHandler._handle_events`). Events go to the back of the event queue.
  A reply named `subcribe` (spelt so in the source) would go to the
  confirmation queue. No message type has that name, so every reply raises
  UnexpectedDataError and the confirmation queue never changes. The package's
  handler stops at the first item whose type is -1. The reader never queues
  such an item, so the handler drains whatever the reader queued. The older
  handler has no sentinel and handles every item.

Modules: `LittleEndian` (the 32-bit fields), `Ipc` (the type tables, the
message and error types), `Socket` (codec, classification and requests of
the package), `LegacySocket` (the older `__getattr__`), `Routing` (the
reader and handler loops as functions over the queues), `Handler` and
`LegacyHandler` (the two `EventHandler` classes, with methods proved against
`Routing`).

The older snapshot's tables, `_send`, `_receive` and `receive`
(`pyi3.py:11-30`, `pyi3.py:48-68`) are the same as the package's, line for
line. The members of `Ipc` and `Socket` model both. Line 96 of `pyi3.py` is
written `else if`, which is not valid Python; it is modelled as the `elif` it
stands for.

Two facts about the code are worth stating plainly: `_receive` never compares
the magic with `i3-ipc`, and it does not retry a read that returns fewer
bytes than asked for.

## Model

| member | source | states |
|---|---|---|
| `Ipc.MsgTypesMapInverts` | pyi3/pyi3.py:12-22 | `msgTypesMap` has exactly the names of `msgTypes` as keys, maps `msgTypes[i]` to `i`, and maps every key back to the index that names it |
| `Ipc.EventTypesMapInverts` | pyi3/pyi3.py:24-31 | the same inversion for `eventTypesMap` and `eventTypes` |
| `Ipc.IndexOf` | pyi3/pyi3.py:22 | the index the name maps to is its first position in the table |
| `LittleEndian.U32RoundTrip` | pyi3/pyi3.py:36-37 | a 32-bit `L` field round-trips both ways: decoding the encoding of a value gives it back, encoding the value of four bytes gives the bytes back, so the two are inverse |
| `Socket.PackHeader` | pyi3/pyi3.py:50-51 | packing succeeds exactly when length and tag both fit in 32 unsigned bits; the header is 14 bytes and starts with the magic |
| `Socket.UnpackHeader` | pyi3/pyi3.py:55-56 | unpacking succeeds exactly when the header has 14 bytes |
| `Socket.Send` | pyi3/pyi3.py:49-52 | the frame exists exactly when both integers fit; it is 14 + \|msg\| bytes long and the message follows the header unchanged |
| `Socket.FrameLayout` | pyi3/pyi3.py:49-51 | a frame is the magic, the 4-byte length, the 4-byte type and the message |
| `Socket.UnpackIgnoresMagic` | pyi3/pyi3.py:55-56 | a header with any six bytes in the magic field unpacks to the two packed integers: the magic is not checked |
| `Socket.HeaderRoundTrip` | pyi3/pyi3.py:49-56 | unpacking a packed header gives back its length and type |
| `Socket.RepackHeader` | pyi3/pyi3.py:50-56 | repacking the two integers of any 14-byte header reproduces every byte after the magic |
| `Socket.Recv` | pyi3/pyi3.py:55-57 | a read returns at most n bytes of the stream, all of them when fewer are waiting, and the rest stays unread |
| `Socket.ReceiveRaw` | pyi3/pyi3.py:54-58 | reading a frame succeeds exactly when 14 bytes are waiting; the tag is the header's type field; the body is the declared size or the bytes waiting, whichever is fewer; body and unread rest make up the stream after the header |
| `Socket.ReceiveRawAnyStream` | pyi3/pyi3.py:54-58 | every stream of any six bytes, a length field, a type field and more bytes reads as that type, with as many body bytes as declared or waiting, and the rest unread |
| `Socket.FrameRoundTrip` | pyi3/pyi3.py:49-58 | reading a frame back from a stream that starts with it returns its type and message and leaves the rest unread |
| `Socket.TruncatedBodyAccepted` | pyi3/pyi3.py:54-58 | a stream cut short inside the body still reads without error, with the body shortened |
| `Socket.Classify` | pyi3/pyi3.py:61-64 | classification succeeds exactly when an event tag's low seven bits are below 5 or a reply tag is below 8; the kind is event exactly when bit 31 is set; the name comes from the matching table |
| `Socket.ClassifyByBits` | pyi3/pyi3.py:62-64 | for a tag built from bit 31, bits 7-30 and bits 0-6: an event is named by bits 0-6 alone; a reply is named only when bits 7-30 are clear and the tag is below 8; every other tag is an IndexError |
| `Socket.EventNameIgnoresMiddleBits` | pyi3/pyi3.py:62-63 | two event tags with the same low seven bits classify alike |
| `Socket.WindowEventTag` | pyi3/pyi3.py:24-30 | tag 0x80000003 is classified as the event `window` |
| `Socket.Receive` | pyi3/pyi3.py:60-71 | receiving succeeds exactly when a frame is read and its tag classifies; the error is that of the failing step (struct.error, then IndexError); on success kind and name are the classification of the tag, the payload is the body read and the rest is unread |
| `Socket.EventFrameReceived` | pyi3/pyi3.py:60-71 | an event frame is read back as the event named by its low seven bits, carrying the frame's message |
| `Socket.ReplyFrameReceived` | pyi3/pyi3.py:60-71 | a reply frame with tag below 8 is read back as the reply of that name, carrying the frame's message |
| `Socket.Utf8Char` | pyi3/pyi3.py:86 | `str.encode()` of one character: 1 to 4 bytes, one byte (its code) exactly for ASCII, every byte of a longer encoding at least 0x80 |
| `Socket.Utf8` | pyi3/pyi3.py:86 | the encoding of a string has at least one byte per character and contains a space byte only if the string contains a space |
| `Socket.RequestFor` | pyi3/pyi3.py:81-89 | the tag is always a message type; a message type name sends its own tag and the message unchanged; any other name sends `command` with the name, a space and the message |
| `Socket.RequestTagNamesItsReply` | pyi3/pyi3.py:81-85 | the tag of every request classifies as the reply named by the attribute, or `command` for any other name |
| `Socket.CommandNameIsFirstWord` | pyi3/pyi3.py:84-89 | for another name without spaces the command text is the encoded name, one space, then the message, and no space comes earlier |
| `Socket.Call` | pyi3/pyi3.py:88-90 | nothing is sent and struct.error is the result exactly when the payload is too long to frame; otherwise the request's frame is sent and the result is what `receive` reads from the stream |
| `Socket.CallSendsRequestFrame` | pyi3/pyi3.py:88-89 | the bytes a call sends read back as exactly the request's tag and payload, with nothing left over |
| `Socket.GetVersionExchange` | pyi3/pyi3.py:88-90 | `get_version` with an empty message sends the frame with tag 7, and a reply frame with tag 7 comes back as the reply `get_version` with its payload |
| `LegacySocket.RequestFor` | pyi3.py:70-78 | a message type name sends its own tag and the message unchanged; any other name raises AttributeError and sends nothing |
| `LegacySocket.Call` | pyi3.py:71-78 | the call fails with AttributeError exactly for a name that is not a message type; a message too long to frame sends nothing and gives struct.error; otherwise the request's frame is sent and the result is what `_receive` reads from the stream |
| `LegacySocket.CallReturnsRawFrame` | pyi3.py:72-74 | for any request message, the call returns the tag and body read, unclassified, whatever the tag: no IndexError is possible |
| `LegacySocket.AgreesWithPackage` | pyi3.py:70-78 | where the older snapshot accepts a name it builds the same request as the package; it refuses exactly the names the package turns into commands |
| `Routing.Route` | pyi3/pyi3.py:115-120 | routing succeeds exactly for an event or a reply named `subcribe`; an event is appended as (name, payload) at the back of the event queue, the confirmation queue untouched; a `subcribe` reply's payload is appended to the confirmation queue, the event queue untouched; anything else raises UnexpectedDataError with the message |
| `Routing.ReceivedReplyRaises` | pyi3/pyi3.py:117-120 | every reply that `receive` yields raises UnexpectedDataError, since no message type is named `subcribe` |
| `Routing.ReadLoop` | pyi3/pyi3.py:112-120 | `_read_socket` run until it raises: the queues it leaves keep their old contents as prefixes |
| `Routing.ReadLoopKeepsConfirmations` | pyi3/pyi3.py:112-120 | the reader loop never changes the confirmation queue |
| `Routing.ReadLoopAppendsEvents` | pyi3/pyi3.py:112-120 | the reader loop only appends to the event queue, and only items named by `eventTypes` |
| `Routing.EmptyStreamRaises` | pyi3/pyi3.py:113-114 | once the peer has closed the connection and no bytes are left, `recv` returns nothing, the reader raises struct.error and changes nothing |
| `Routing.ReadLoopQueuesEventsInOrder` | pyi3/pyi3.py:112-116 | over any run of event frames the reader queues every event, in arrival order; when the peer then closes the connection it raises struct.error |
| `Routing.SentinelIndex` | pyi3/pyi3.py:122-127 | the position of the first item of type -1, or the queue's length: no earlier item is -1 |
| `Routing.ReaderQueueHasNoSentinel` | pyi3/pyi3.py:112-127 | a queue filled only by the reader holds no -1 item, so the handler handles all of it |
| `Handler.EventHandler.constructor` | pyi3/pyi3.py:100-105 | `events` is a zero per event type, both queues are empty, the flag is clear |
| `Handler.EventHandler.Run` | pyi3/pyi3.py:107-110 | sets the flag and changes nothing else |
| `Handler.EventHandler.ReadSocket` | pyi3/pyi3.py:112-120 | with the flag clear nothing happens; with it set the loop ends only by raising, and the queues and the exception are those of `Routing.ReadLoop`; each message is routed in place by `Routing.Route` |
| `Handler.EventHandler.HandleEvents` | pyi3/pyi3.py:122-127 | with the flag set, the items before the first -1 are handled in queue order; the -1 is removed but not handled; later items stay queued; with no -1 the queue is drained and the call is left waiting |
| `LegacyHandler.EventHandler.constructor` | pyi3.py:82-86 | `events` is a zero per event type and both queues are empty |
| `LegacyHandler.EventHandler.Run` | pyi3.py:88-89 | sets `isrunning` and changes nothing else |
| `LegacyHandler.EventHandler.ReadSocket` | pyi3.py:91-99 | the loop always ends by raising; the queues and the exception are those of `Routing.ReadLoop` |
| `LegacyHandler.EventHandler.HandleEvents` | pyi3.py:101-104 | every queued item is handled, in queue order, and the queue ends empty |

## Left out

- Socket set-up is not modelled: creating the socket, `settimeout`, `connect`, and `get_path`, which runs `i3 --get-socketpath`. `sendall` is modelled by the bytes it is given. `recv` reads from a byte stream passed in as a parameter.
- Socket.Recv: the model has no clock. `settimeout(1)` (pyi3/pyi3.py:46) makes `recv` raise socket.timeout after one second on a connection that stays open but idle. That is how `_read_socket` ends while i3 keeps the socket open, and how a call fails when no reply comes; socket.timeout is not modelled. The stream passed in ends only where the peer closes the connection, which is when `recv` returns no bytes and the unpack raises struct.error.
- Socket.Recv: a read gets every waiting byte up to its limit. A kernel short read while more bytes are still on their way is not modelled. The code does not retry such reads, and the model invents no reassembly.
- Socket.Receive: `data.decode()` and `json.loads` are not modelled. The payload stays the body's bytes, so a UnicodeDecodeError or a JSON decoding error, either of which would also end the reader loop, is not modelled.
- Threads: `run` creates two threads and never starts them. The loops are modelled as sequential method calls. The thread safety of `queue.Queue` and `threading.Event` is not modelled.
- Blocking `get`: where `queue.Queue.get` would block on an empty queue, the handler methods return. The package's handler returns with `waiting` set.
- `print` calls are not modelled (pyi3/pyi3.py:80, 131; pyi3.py:108).
- `_handle_event` is a stub that only prints. Its calls are recorded in the `handled` field.
- `Hook` and `pause` are stubs with no behaviour, so they are not modelled. Neither are `WorkspaceHandler`, `Item` and `I3Base` (a wrapper over a query reply, `__dict__.update`, and the `socket or Socket()` default).
- Python calls `__getattr__` only for names that ordinary attribute lookup does not find. The model takes the name that reached it.
- Socket.Utf8Char: Dafny characters are Unicode scalar values, so a lone surrogate (which `str.encode` rejects) cannot occur.
- setup.py is packaging metadata and is not part of this model.
