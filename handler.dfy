/** `EventHandler` of pyi3/pyi3.py: the reader loop that fills the two queues
    and the handler loop that drains the event queue. The socket is replaced
    by the bytes it would deliver, the threads by sequential calls. */
module Handler {
  import opened LittleEndian
  import opened Ipc
  import opened Socket
  import opened Routing

  class EventHandler {
    /** `events`: one counter per event type; nothing updates it after construction. */
    var events: seq<int>
    /** `_eventqueue`, front first. */
    var eventQueue: seq<Item>
    /** `_subscript_confirmation`, front first. */
    var confirmations: seq<seq<Byte>>
    /** Whether the `isrunning` threading.Event is set. */
    var isRunning: bool
    /** The calls made to `_handle_event`, in order; its body only prints. */
    var handled: seq<Item>

    /** `__init__`: a zero per event type, both queues empty, the flag clear. */
    constructor ()
      ensures |events| == |EventTypes| && forall i :: 0 <= i < |events| ==> events[i] == 0
      ensures eventQueue == [] && confirmations == [] && !isRunning && handled == []
    {
      events := seq(|EventTypes|, _ => 0);
      eventQueue := [];
      confirmations := [];
      isRunning := false;
      handled := [];
    }

    /** `run`: sets the flag. The reader and handler threads it creates are
        never started. */
    method Run()
      modifies this
      ensures isRunning
      ensures events == old(events) && eventQueue == old(eventQueue)
      ensures confirmations == old(confirmations) && handled == old(handled)
    {
      isRunning := true;
    }

    /** `_read_socket` over the bytes the socket delivers: while the flag is
        set, receive a message and route it. It ends only by raising, and
        leaves the queues as ReadLoop says; with the flag clear it does
        nothing. */
    method ReadSocket(stream: seq<Byte>) returns (raised: Option<Error>)
      modifies this
      ensures events == old(events) && handled == old(handled) && isRunning == old(isRunning)
      ensures !isRunning ==> raised == None && eventQueue == old(eventQueue) && confirmations == old(confirmations)
      ensures isRunning ==>
        var (q, e) := ReadLoop(Queues(old(eventQueue), old(confirmations)), stream);
        raised == Some(e) && eventQueue == q.events && confirmations == q.confirmations
    {
      raised := None;
      var unread := stream;
      while isRunning
        invariant events == old(events) && handled == old(handled) && isRunning == old(isRunning)
        invariant !isRunning ==> unread == stream && eventQueue == old(eventQueue) && confirmations == old(confirmations)
        invariant ReadLoop(Queues(eventQueue, confirmations), unread) == ReadLoop(Queues(old(eventQueue), old(confirmations)), stream)
        decreases |unread|
      {
        var received := Receive(unread);
        if received.Err? {
          raised := Some(received.error);
          break;
        }
        var (m, rest) := received.value;
        var routed := Route(Queues(eventQueue, confirmations), m);
        if routed.Err? {
          raised := Some(routed.error);
          break;
        }
        eventQueue, confirmations := routed.value.events, routed.value.confirmations;
        unread := rest;
      }
    }

    /** `_handle_events`: while the flag is set, take the front item and hand
        it to `_handle_event`, stopping at the first item whose type is -1,
        which is taken off the queue but not handled. When the queue runs
        empty first, `get` would block: the method returns with `waiting`
        set. */
    method HandleEvents() returns (waiting: bool)
      modifies this
      ensures events == old(events) && confirmations == old(confirmations) && isRunning == old(isRunning)
      ensures !isRunning ==> !waiting && eventQueue == old(eventQueue) && handled == old(handled)
      ensures isRunning ==>
        var n := SentinelIndex(old(eventQueue));
        handled == old(handled) + old(eventQueue)[..n] &&
        eventQueue == (if n < |old(eventQueue)| then old(eventQueue)[n + 1..] else []) &&
        waiting == (n == |old(eventQueue)|)
    {
      waiting := false;
      ghost var taken := 0;
      while isRunning
        invariant events == old(events) && confirmations == old(confirmations) && isRunning == old(isRunning)
        invariant 0 <= taken <= |old(eventQueue)|
        invariant eventQueue == old(eventQueue)[taken..]
        invariant handled == old(handled) + old(eventQueue)[..taken]
        invariant forall i :: 0 <= i < taken ==> old(eventQueue)[i].key != Sentinel
        invariant !isRunning ==> taken == 0 && !waiting
        decreases |eventQueue|
      {
        if eventQueue == [] {
          waiting := true;
          break;
        }
        var item := eventQueue[0];
        eventQueue := eventQueue[1..];
        if item.key == Sentinel {
          break;
        }
        handled := handled + [item];
        taken := taken + 1;
      }
    }
  }
}
