/** The routing done by `EventHandler._read_socket` and the stopping rule of
    `EventHandler._handle_events`, as functions over the two queues. The
    classes in modules Handler and LegacyHandler are proved against them. */
module Routing {
  import opened LittleEndian
  import opened Ipc
  import opened Socket

  /** The first element of a queued pair: an event name, as `_read_socket`
      puts it, or an integer, such as the -1 that stops `_handle_events`. */
  datatype Key = Name(name: string) | Code(code: int)

  datatype Item = Item(key: Key, payload: seq<Byte>)

  /** The `-1` type that ends `_handle_events` in pyi3/pyi3.py. */
  const Sentinel: Key := Code(-1)

  /** The reply name `_read_socket` sends to the confirmation queue, spelt as
      in the source. */
  const ConfirmationName: string := "subcribe"

  /** `_eventqueue` and `_subscript_confirmation`, front first. */
  datatype Queues = Queues(events: seq<Item>, confirmations: seq<seq<Byte>>)

  /** One message routed: an event joins the event queue, a reply named
      'subcribe' the confirmation queue, anything else raises
      UnexpectedDataError and leaves both queues as they were. */
  function Route(q: Queues, m: Message): (r: Result<Queues>)
    ensures r.Ok? <==> m.kind == Event || m.name == ConfirmationName
    ensures r.Err? ==> r.error == UnexpectedDataError(m)
    ensures r.Ok? ==> q.events <= r.value.events && q.confirmations <= r.value.confirmations
    ensures m.kind == Event ==> r == Ok(Queues(q.events + [Item(Name(m.name), m.payload)], q.confirmations))
    ensures m.kind == Reply && m.name == ConfirmationName ==> r == Ok(Queues(q.events, q.confirmations + [m.payload]))
  {
    if m.kind == Event then Ok(q.(events := q.events + [Item(Name(m.name), m.payload)]))
    else if m.name == ConfirmationName then Ok(q.(confirmations := q.confirmations + [m.payload]))
    else Err(UnexpectedDataError(m))
  }

  /** No message type is named 'subcribe', so every reply that `receive`
      yields raises UnexpectedDataError and nothing ever reaches the
      confirmation queue. */
  lemma ReceivedReplyRaises(q: Queues, stream: seq<Byte>)
    requires Receive(stream).Ok? && Receive(stream).value.0.kind == Reply
    ensures Route(q, Receive(stream).value.0) == Err(UnexpectedDataError(Receive(stream).value.0))
  {
    var tag := ReceiveRaw(stream).value.0;
    assert Classify(tag).Ok? && Classify(tag).value.0 == Reply;
    assert ConfirmationName !in MsgTypes;
  }

  /** The reader loop run to its end over a finite stream: the queues it
      leaves and the exception that ends it. Each turn reads one frame and
      routes it; a failing read or route raises. */
  function ReadLoop(q: Queues, stream: seq<Byte>): (r: (Queues, Error))
    ensures q.events <= r.0.events && q.confirmations <= r.0.confirmations
    decreases |stream|
  {
    match Receive(stream)
    case Err(e) => (q, e)
    case Ok((m, rest)) =>
      match Route(q, m)
      case Err(e) => (q, e)
      case Ok(q') => ReadLoop(q', rest)
  }

  /** The reader never touches the confirmation queue. */
  lemma {:induction false} ReadLoopKeepsConfirmations(q: Queues, stream: seq<Byte>)
    ensures ReadLoop(q, stream).0.confirmations == q.confirmations
    decreases |stream|
  {
    match Receive(stream)
    case Err(_) =>
    case Ok((m, rest)) =>
      if m.kind == Event {
        ReadLoopKeepsConfirmations(Route(q, m).value, rest);
      } else {
        ReceivedReplyRaises(q, stream);
      }
  }

  /** The reader only appends to the event queue, and all it appends are
      named events from `eventTypes`, never the -1 sentinel. */
  lemma {:induction false} ReadLoopAppendsEvents(q: Queues, stream: seq<Byte>)
    ensures var events := ReadLoop(q, stream).0.events;
      q.events <= events &&
      forall i :: |q.events| <= i < |events| ==> events[i].key.Name? && events[i].key.name in EventTypes
    decreases |stream|
  {
    match Receive(stream)
    case Err(_) =>
    case Ok((m, rest)) =>
      if m.kind == Event {
        var tag := ReceiveRaw(stream).value.0;
        assert Classify(tag).value.1 == m.name;
        ReadLoopAppendsEvents(Route(q, m).value, rest);
      } else {
        ReceivedReplyRaises(q, stream);
      }
  }

  /** An event to be written by the server: its ordinal in `eventTypes`, the
      bits 7-30 of its tag, and a body short enough to be framed. */
  datatype Pushed = Pushed(ordinal: EventOrdinal, middle: MiddleBits, body: Body)

  type EventOrdinal = n: nat | n < 5
  type MiddleBits = n: nat | n < 0x100_0000
  type Body = s: seq<Byte> | |s| < 0x1_0000_0000

  function PushedTag(p: Pushed): U32
  {
    EventFlag + p.middle * 0x80 + p.ordinal
  }

  /** The bytes of a run of event frames, one after the other. */
  function EventStream(ps: seq<Pushed>): (s: seq<Byte>)
  {
    if ps == [] then [] else Send(PushedTag(ps[0]), ps[0].body).value + EventStream(ps[1..])
  }

  /** The queue items those events become. */
  function EventItems(ps: seq<Pushed>): (items: seq<Item>)
    ensures |items| == |ps|
    ensures forall i :: 0 <= i < |ps| ==> items[i] == Item(Name(EventTypes[ps[i].ordinal]), ps[i].body)
  {
    if ps == [] then [] else [Item(Name(EventTypes[ps[0].ordinal]), ps[0].body)] + EventItems(ps[1..])
  }

  /** A turn that reads an event goes on with the event queued. */
  lemma ReadLoopEventStep(q: Queues, stream: seq<Byte>)
    requires Receive(stream).Ok? && Receive(stream).value.0.kind == Event
    ensures var (m, rest) := Receive(stream).value;
      ReadLoop(q, stream) == ReadLoop(Queues(q.events + [Item(Name(m.name), m.payload)], q.confirmations), rest)
  {
  }

  /** The reader takes the first frame of a run of event frames and goes on
      with its event queued. */
  lemma EventStreamStep(q: Queues, ps: seq<Pushed>)
    requires ps != []
    ensures ReadLoop(q, EventStream(ps)) ==
      ReadLoop(Queues(q.events + [Item(Name(EventTypes[ps[0].ordinal]), ps[0].body)], q.confirmations), EventStream(ps[1..]))
  {
    var p := ps[0];
    assert PushedTag(p) % 0x80 == p.ordinal;
    EventFrameReceived(PushedTag(p), p.body, EventStream(ps[1..]));
    ReadLoopEventStep(q, EventStream(ps));
  }

  /** An empty stream fails to unpack a header. */
  lemma EmptyStreamRaises(q: Queues)
    ensures ReadLoop(q, []) == (q, StructError)
  {
    assert Receive([]) == Err(StructError);
  }

  /** Queueing the first event, then the rest, queues them all. */
  lemma EventItemsStep(events: seq<Item>, ps: seq<Pushed>)
    requires ps != []
    ensures (events + [Item(Name(EventTypes[ps[0].ordinal]), ps[0].body)]) + EventItems(ps[1..]) == events + EventItems(ps)
  {
    assert EventItems(ps) == [Item(Name(EventTypes[ps[0].ordinal]), ps[0].body)] + EventItems(ps[1..]);
  }

  /** Over a stream of event frames the reader queues every event, in arrival
      order, and raises struct.error when the stream runs out. */
  lemma {:induction false} ReadLoopQueuesEventsInOrder(q: Queues, ps: seq<Pushed>)
    ensures ReadLoop(q, EventStream(ps)) == (Queues(q.events + EventItems(ps), q.confirmations), StructError)
    decreases |ps|
  {
    if ps == [] {
      assert EventStream(ps) == [] && q.events + EventItems(ps) == q.events;
      EmptyStreamRaises(q);
    } else {
      var q' := Queues(q.events + [Item(Name(EventTypes[ps[0].ordinal]), ps[0].body)], q.confirmations);
      EventStreamStep(q, ps);
      ReadLoopQueuesEventsInOrder(q', ps[1..]);
      EventItemsStep(q.events, ps);
    }
  }

  /** The position in the queue of the first -1 item, or the queue's length
      when there is none. */
  function SentinelIndex(items: seq<Item>): (n: nat)
    ensures n <= |items|
    ensures forall i :: 0 <= i < n ==> items[i].key != Sentinel
    ensures n < |items| ==> items[n].key == Sentinel
  {
    if items == [] then 0
    else if items[0].key == Sentinel then 0
    else 1 + SentinelIndex(items[1..])
  }

  /** A queue filled only by the reader holds no sentinel: the handler in
      pyi3/pyi3.py drains it completely. */
  lemma ReaderQueueHasNoSentinel(stream: seq<Byte>)
    ensures var events := ReadLoop(Queues([], []), stream).0.events;
      SentinelIndex(events) == |events|
  {
    ReadLoopAppendsEvents(Queues([], []), stream);
  }
}
