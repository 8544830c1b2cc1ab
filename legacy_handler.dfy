/** `EventHandler` of the older snapshot, pyi3.py: the same routing, but both
    loops run `while True`, with no flag and no sentinel. Its `else if` on
    line 96 is read as the `elif` it stands for. */
module LegacyHandler {
  import opened LittleEndian
  import opened Ipc
  import opened Socket
  import opened Routing

  class EventHandler {
    /** `events`: one counter per event type; nothing updates it after construction. */
    var events: seq<int>
    /** `_eventqueue`, front first. */
    var eventQueue: seq<Item>
    /** `_subscript_confirmation`, front first. */
    var confirmations: seq<seq<Byte>>
    /** `isrunning`, assigned by `run` and read by nothing. */
    var isRunning: bool
    /** The calls made to `_handle_event`, in order; its body only prints. */
    var handled: seq<Item>

    /** `__init__`: a zero per event type and both queues empty. */
    constructor ()
      ensures |events| == |EventTypes| && forall i :: 0 <= i < |events| ==> events[i] == 0
      ensures eventQueue == [] && confirmations == [] && !isRunning && handled == []
    {
      events := seq(|EventTypes|, _ => 0);
      eventQueue := [];
      confirmations := [];
      isRunning := false;
      handled := [];
    }

    /** `run`: sets `isrunning` and does nothing else. */
    method Run()
      modifies this
      ensures isRunning
      ensures events == old(events) && eventQueue == old(eventQueue)
      ensures confirmations == old(confirmations) && handled == old(handled)
    {
      isRunning := true;
    }

    /** `_read_socket` over the bytes the socket delivers: receive and route
        until something raises, which over a finite stream always happens. */
    method ReadSocket(stream: seq<Byte>) returns (raised: Error)
      modifies this
      ensures events == old(events) && handled == old(handled) && isRunning == old(isRunning)
      ensures var (q, e) := ReadLoop(Queues(old(eventQueue), old(confirmations)), stream);
        raised == e && eventQueue == q.events && confirmations == q.confirmations
    {
      var unread := stream;
      while true
        invariant events == old(events) && handled == old(handled) && isRunning == old(isRunning)
        invariant ReadLoop(Queues(eventQueue, confirmations), unread) == ReadLoop(Queues(old(eventQueue), old(confirmations)), stream)
        decreases |unread|
      {
        var received := Receive(unread);
        if received.Err? {
          raised := received.error;
          break;
        }
        var (m, rest) := received.value;
        var routed := Route(Queues(eventQueue, confirmations), m);
        if routed.Err? {
          raised := routed.error;
          break;
        }
        eventQueue, confirmations := routed.value.events, routed.value.confirmations;
        unread := rest;
      }
    }

    /** `_handle_events`: hand every queued item to `_handle_event`, front
        first. The method returns where `get` would block on the empty queue. */
    method HandleEvents()
      modifies this
      ensures events == old(events) && confirmations == old(confirmations) && isRunning == old(isRunning)
      ensures handled == old(handled) + old(eventQueue)
      ensures eventQueue == []
    {
      ghost var taken := 0;
      while true
        invariant events == old(events) && confirmations == old(confirmations) && isRunning == old(isRunning)
        invariant 0 <= taken <= |old(eventQueue)|
        invariant eventQueue == old(eventQueue)[taken..]
        invariant handled == old(handled) + old(eventQueue)[..taken]
        decreases |eventQueue|
      {
        if eventQueue == [] {
          break;
        }
        var item := eventQueue[0];
        eventQueue := eventQueue[1..];
        handled := handled + [item];
        taken := taken + 1;
      }
    }
  }
}
