/**
  Messages, stubs and the locked sections of the RPC peer.

  Every function here is the effect of one section of `PSClient` that runs under one lock;
  the class `PsClient.PSClient` performs them on its fields, and the module `RpcSystem`
  interleaves them between two peers.
*/
module PsProtocol {
  import opened Basics

  /** Request uuids; `NoUuid` is the empty string. */
  datatype Uuid = NoUuid | Uuid(n: nat)

  /** Instance ids: the empty string, the id "0" of the object manager stub, or a generated uuid. */
  datatype Id = NoId | Bootstrap | Generated(n: nat)

  datatype Interface = NoInterface | ManagerInterface | UserInterface(n: nat)

  datatype Name = NoName | CreateObject | DestroyObject | QueryInterface | CloneReference | UserMethod(n: nat)

  /** The object behind the bootstrap stub. Objects are otherwise arbitrary numbers. */
  const MANAGER_OBJECT: int := 0

  /** What a request asks for: the four methods of `IObjectManager`, or a user method. */
  datatype Op =
    | Create(service: int, target: Interface)
    | Destroy(id: Id)
    | Query(id: Id, target: Interface, service: int)
    | Clone(id: Id, target: Interface)
    | Invoke(arguments: seq<int>)

  datatype Result = Nothing | Value(n: int) | Reference(id: Id) | Thrown

  datatype Header = Header(uuid: Uuid, instance: Id, interface: Interface, name: Name)

  datatype Message =
    | Request(head: Header, op: Op)
    | Response(head: Header, result: Result)

  /** A null stub is what `AppendStub` stores when no registered interface has the given id. */
  datatype Stub = Stub(obj: int, interface: Interface) | NullStub

  datatype Stored = Stored(stamp: int, message: Message)

  /** What `ProcessData` does with one message. */
  datatype Verdict = Malformed | StoreIt | Dispatch(stub: Stub) | NotUnique | NoInstance

  predicate WellFormed(head: Header) {
    !head.uuid.NoUuid? && !head.instance.NoId? && !head.interface.NoInterface? && !head.name.NoName?
  }

  predicate Expired(stored: Stored, now: int, timeout: int) {
    stored.stamp < now && now - stored.stamp > timeout
  }

  /** The responses that `CleanOldResponses` leaves at time `now`. */
  function Unexpired(responses: map<Uuid, Stored>, now: int, timeout: int): map<Uuid, Stored> {
    map u | u in responses && !Expired(responses[u], now, timeout) :: responses[u]
  }

  /** Insertion into a `std::map`: an existing entry is kept. */
  function Insert<K, T>(m: map<K, T>, key: K, value: T): map<K, T> {
    if key in m then m else m[key := value]
  }

  function Receive(stubs: map<Id, Stub>, responses: map<Uuid, Stored>, m: Message): Verdict {
    if !WellFormed(m.head) then Malformed
    else if m.Response? then StoreIt
    else if m.head.uuid in responses then NotUnique
    else if m.head.instance !in stubs || stubs[m.head.instance].NullStub? then NoInstance
    else Dispatch(stubs[m.head.instance])
  }

  /** The response table after a response arrives: clean, then insert. */
  function Store(responses: map<Uuid, Stored>, m: Message, stamp: int, now: int, timeout: int): map<Uuid, Stored> {
    Insert(Unexpired(responses, now, timeout), m.head.uuid, Stored(stamp, m))
  }

  /** The stub that `CreateStubVisitor` builds. */
  function NewStub(registered: set<Interface>, obj: int, interface: Interface): Stub {
    if interface in registered then Stub(obj, interface) else NullStub
  }
}
