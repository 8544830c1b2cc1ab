/** The shared vocabulary of the i3 IPC client: the message and event type
    tables, the classified message a receive produces, and the exceptions
    the client code raises. */
module Ipc {
  import opened LittleEndian

  /** `msgTypes`: request/reply type names, indexed by their type tag. */
  const MsgTypes: seq<string> := [
    "command",
    "get_workspaces",
    "subscribe",
    "get_outputs",
    "get_tree",
    "get_marks",
    "get_bar_config",
    "get_version"
  ]

  /** `msgTypesMap`: each message type name to its index. */
  const MsgTypesMap: map<string, nat> := map name | name in MsgTypes :: IndexOf(MsgTypes, name)

  /** `eventTypes`: event names, indexed by the low seven bits of an event tag. */
  const EventTypes: seq<string> := [
    "workspace",
    "output",
    "mode",
    "window",
    "barconfig_update"
  ]

  /** `eventTypesMap`: each event name to its index. */
  const EventTypesMap: map<string, nat> := map name | name in EventTypes :: IndexOf(EventTypes, name)

  /** The position of the first occurrence of name in table. A Python dict
      comprehension keeps the last index of a repeated name instead; the two
      agree on both tables because no name occurs twice in either (Distinct,
      used in MsgTypesMapInverts and EventTypesMapInverts). */
  function IndexOf(table: seq<string>, name: string): (i: nat)
    requires name in table
    ensures i < |table| && table[i] == name
    ensures forall j :: 0 <= j < i ==> table[j] != name
  {
    if table[0] == name then 0 else 1 + IndexOf(table[1..], name)
  }

  /** No name occurs twice in the table. */
  predicate Distinct(table: seq<string>)
  {
    forall i, j :: 0 <= i < j < |table| ==> table[i] != table[j]
  }

  /** The first element of the triple `receive` returns: 'event' or 'reply'. */
  datatype Kind = Event | Reply

  /** What `receive` returns. The body is kept as the raw bytes of the frame:
      its JSON decoding is not part of this model. */
  datatype Message = Message(kind: Kind, name: string, payload: seq<Byte>)

  /** The exceptions raised on the modelled paths. */
  datatype Error =
    | StructError               // struct.pack / struct.unpack rejected its input
    | IndexError                // a type tag indexed past the end of a table
    | AttributeError(attr: string)
    | UnexpectedDataError(msg: Message)

  datatype Option<T> = None | Some(value: T)

  datatype Result<T> = Ok(value: T) | Err(error: Error) {
    predicate IsFailure() { Err? }

    function PropagateFailure<U>(): Result<U>
      requires Err?
    {
      Err(error)
    }

    function Extract(): T
      requires Ok?
    {
      value
    }
  }

  /** `msgTypesMap` inverts `msgTypes`: its keys are exactly the names in the
      table and each maps to the index that names it. */
  lemma MsgTypesMapInverts()
    ensures forall i :: 0 <= i < |MsgTypes| ==> MsgTypes[i] in MsgTypesMap && MsgTypesMap[MsgTypes[i]] == i
    ensures forall name :: name in MsgTypesMap <==> name in MsgTypes
    ensures forall name :: name in MsgTypesMap ==> MsgTypesMap[name] < |MsgTypes| && MsgTypes[MsgTypesMap[name]] == name
  {
    forall i | 0 <= i < |MsgTypes|
      ensures MsgTypes[i] in MsgTypesMap && MsgTypesMap[MsgTypes[i]] == i
    {
      assert Distinct(MsgTypes);
    }
  }

  /** `eventTypesMap` inverts `eventTypes` in the same way. */
  lemma EventTypesMapInverts()
    ensures forall i :: 0 <= i < |EventTypes| ==> EventTypes[i] in EventTypesMap && EventTypesMap[EventTypes[i]] == i
    ensures forall name :: name in EventTypesMap <==> name in EventTypes
    ensures forall name :: name in EventTypesMap ==> EventTypesMap[name] < |EventTypes| && EventTypes[EventTypesMap[name]] == name
  {
    forall i | 0 <= i < |EventTypes|
      ensures EventTypes[i] in EventTypesMap && EventTypesMap[EventTypes[i]] == i
    {
      assert Distinct(EventTypes);
    }
  }
}
